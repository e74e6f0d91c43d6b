/**
 * The marketplace's records: users (profiles and the guest session) and crop posts,
 * as the browser keeps them in `currentUser` and `posts` (app.js:67-72).
 */
module Market {
  import opened Wrappers
  import opened Seqs

  /** A latitude/longitude pair in degrees. */
  datatype Location = Location(lat: real, lng: real)

  /** A post's status; nothing in the code ever sets `Reserved`, but the display knows it. */
  datatype Status = Available | Reserved | Sold

  /**
   * The signed-in user, or the guest session. A missing `phone` is the empty string and a
   * missing `phoneVisible` is `false`, as JavaScript's truthiness reads them.
   */
  datatype User = User(
    id: string,
    username: string,
    isGuest: bool,
    areaName: string,
    location: Location,
    phone: string,
    phoneVisible: bool)

  /** A crop listing. Prices and quantities are the numbers `parseFloat` produced. */
  datatype Post = Post(
    id: string,
    ownerId: string,
    cropName: string,
    price: real,
    currency: string,
    quantity: real,
    unit: string,
    description: string,
    areaName: string,
    location: Location,
    status: Status,
    images: seq<string>,
    externalLink: string,
    views: int,
    createdAt: int)

  /** The session `handleGuestLogin` creates: a guest placed at Mirpur-1. */
  const Guest: User := User("guest", "Guest", true, "Dhaka", Location(23.8103, 90.3563), "", false)

  /** The post with id `id`. */
  function PostWithId(id: string): Post -> bool
  {
    (p: Post) => p.id == id
  }

  /** `posts.find(p => p.id === id)`: the index of the first post with that id, if any. */
  function FindPost(posts: seq<Post>, id: string): (r: Option<nat>)
    ensures r.Some? ==> r.value < |posts| && posts[r.value].id == id
    ensures r.Some? ==> forall j :: 0 <= j < r.value ==> posts[j].id != id
    ensures r.None? <==> forall j :: 0 <= j < |posts| ==> posts[j].id != id
  {
    FindFirst(posts, PostWithId(id))
  }

  /** The profile with id `id`. */
  function UserWithId(id: string): User -> bool
  {
    (u: User) => u.id == id
  }

  /** `users.find(u => u.id === id)`: the index of the first profile with that id, if any. */
  function FindUser(users: seq<User>, id: string): (r: Option<nat>)
    ensures r.Some? ==> r.value < |users| && users[r.value].id == id
    ensures r.Some? ==> forall j :: 0 <= j < r.value ==> users[j].id != id
    ensures r.None? <==> forall j :: 0 <= j < |users| ==> users[j].id != id
  {
    FindFirst(users, UserWithId(id))
  }

  /** `post.ownerId === currentUser.id` with a signed-in (or guest) user. */
  predicate Owns(user: Option<User>, post: Post)
  {
    user.Some? && post.ownerId == user.value.id
  }

  /** A registered user: signed in and not the guest session. */
  predicate Registered(user: Option<User>)
  {
    user.Some? && !user.value.isGuest
  }

  /** No two users share an id, as authentication uids never do. */
  predicate UniqueUserIds(users: seq<User>)
  {
    forall i, j :: 0 <= i < j < |users| ==> users[i].id != users[j].id
  }

  /** No two posts share an id, as database document ids never do. */
  predicate UniqueIds(posts: seq<Post>)
  {
    forall i, j :: 0 <= i < j < |posts| ==> posts[i].id != posts[j].id
  }
}
