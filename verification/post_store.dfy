/**
 * The post collection's transitions: `createPost`, `markAsSold` and `deletePost`
 * (app.js:374-485), and the "My Posts" page's tab filter and counters (app.js:642-669).
 *
 * Each transition maps the in-memory `posts` sequence to its next value and says what the
 * user is told. The confirmation dialog is taken as accepted and the database write as
 * successful; the database id and the clock reading are parameters.
 */
module PostStore {
  import opened Wrappers
  import opened Seqs
  import opened Market

  /** What a transition tells the user. */
  datatype Reply =
    | Done          // the change was made
    | GuestPrompt   // the "sign in to continue" dialog
    | PleaseWait    // another mark-as-sold is still running
    | NoSuchPost    // no post has the id; the source returns silently
    | NotOwner      // the post belongs to someone else (or nobody is signed in)
    | AlreadySold

  datatype Step = Step(posts: seq<Post>, reply: Reply)

  /** The create-post form, with price and quantity already parsed as numbers. */
  datatype PostData = PostData(
    cropName: string,
    price: real,
    currency: string,
    quantity: real,
    unit: string,
    description: string,
    images: seq<string>,
    externalLink: string)

  /** The record `createPost` stores (app.js:380-395), under the database's new `id`. */
  function NewPost(user: User, data: PostData, id: string, now: int): Post
  {
    Post(id, user.id, data.cropName, data.price, data.currency, data.quantity, data.unit,
         data.description, user.areaName, user.location, Available, data.images,
         data.externalLink, 0, now)
  }

  /**
   * `createPost` (app.js:374-407): a guest or a signed-out visitor gets the sign-in prompt and
   * nothing changes; otherwise the new post, available, owned by and located at the user,
   * goes to the front of the collection.
   */
  function CreatePost(posts: seq<Post>, user: Option<User>, data: PostData, id: string, now: int): (r: Step)
    ensures !Registered(user) ==> r == Step(posts, GuestPrompt)
    ensures Registered(user) ==> r.reply == Done && |r.posts| == |posts| + 1 && r.posts[1..] == posts
    ensures Registered(user) ==>
              var p := r.posts[0];
              && p.id == id && p.ownerId == user.value.id && p.status == Available
              && p.location == user.value.location && p.areaName == user.value.areaName
              && p.views == 0 && p.createdAt == now
              && p.cropName == data.cropName && p.price == data.price && p.currency == data.currency
              && p.quantity == data.quantity && p.unit == data.unit && p.description == data.description
              && p.images == data.images && p.externalLink == data.externalLink
  {
    if !Registered(user) then Step(posts, GuestPrompt)
    else
      var p := NewPost(user.value, data, id, now);
      assert ([p] + posts)[1..] == posts;
      Step([p] + posts, Done)
  }

  /**
   * `markAsSold` (app.js:409-456). The guards, in the source's order: an operation in progress,
   * no post with the id, not the owner, already sold. Only the first post with the id is changed,
   * and only its status.
   */
  function MarkAsSold(posts: seq<Post>, user: Option<User>, busy: bool, id: string): (r: Step)
    ensures busy ==> r == Step(posts, PleaseWait)
    ensures !busy && FindPost(posts, id).None? ==> r == Step(posts, NoSuchPost)
    ensures !busy && FindPost(posts, id).Some? ==>
              var i := FindPost(posts, id).value;
              && (!Owns(user, posts[i]) ==> r == Step(posts, NotOwner))
              && (Owns(user, posts[i]) && posts[i].status == Sold ==> r == Step(posts, AlreadySold))
    ensures r.reply == Done <==>
              !busy && FindPost(posts, id).Some? && Owns(user, posts[FindPost(posts, id).value])
              && posts[FindPost(posts, id).value].status != Sold
    ensures r.reply != Done ==> r.posts == posts
    ensures r.reply == Done ==>
              var i := FindPost(posts, id).value;
              && |r.posts| == |posts|
              && r.posts[i] == posts[i].(status := Sold)
              && forall j :: 0 <= j < |posts| && j != i ==> r.posts[j] == posts[j]
  {
    if busy then Step(posts, PleaseWait)
    else match FindPost(posts, id)
      case None => Step(posts, NoSuchPost)
      case Some(i) =>
        if !Owns(user, posts[i]) then Step(posts, NotOwner)
        else if posts[i].status == Sold then Step(posts, AlreadySold)
        else Step(posts[i := posts[i].(status := Sold)], Done)
  }

  /** A post with id `id` is kept by a delete of `id` only if its id differs. */
  function OtherId(id: string): Post -> bool
  {
    (p: Post) => p.id != id
  }

  /**
   * `deletePost` (app.js:458-485): the first post with the id must exist and belong to the user;
   * then every post with that id is removed and the rest keep their order.
   */
  function DeletePost(posts: seq<Post>, user: Option<User>, id: string): (r: Step)
    ensures FindPost(posts, id).None? ==> r == Step(posts, NoSuchPost)
    ensures FindPost(posts, id).Some? && !Owns(user, posts[FindPost(posts, id).value]) ==> r == Step(posts, NotOwner)
    ensures r.reply == Done <==> FindPost(posts, id).Some? && Owns(user, posts[FindPost(posts, id).value])
    ensures r.reply == Done ==> forall p :: p in r.posts <==> p in posts && p.id != id
    ensures r.reply == Done ==> forall p :: multiset(r.posts)[p] == if p.id != id then multiset(posts)[p] else 0
    ensures r.reply == Done ==> Subsequence(r.posts, posts)
  {
    match FindPost(posts, id)
    case None => Step(posts, NoSuchPost)
    case Some(i) =>
      if !Owns(user, posts[i]) then Step(posts, NotOwner)
      else
        FilterMultiset(posts, OtherId(id));
        FilterSubsequence(posts, OtherId(id));
        Step(Filter(posts, OtherId(id)), Done)
  }

  /** A second mark-as-sold of the same post reports it sold and changes nothing. */
  lemma MarkAsSoldIdempotent(posts: seq<Post>, user: Option<User>, id: string)
    requires MarkAsSold(posts, user, false, id).reply == Done
    ensures var after := MarkAsSold(posts, user, false, id).posts;
            MarkAsSold(after, user, false, id) == Step(after, AlreadySold)
  {
    var i := FindPost(posts, id).value;
    var after := MarkAsSold(posts, user, false, id).posts;
    assert forall j :: 0 <= j < |after| ==> after[j].id == posts[j].id;
    FindPostSameIds(posts, after, id);
  }

  /** `FindPost` only looks at ids: the first-match characterisation fixes its result. */
  lemma FindPostSameIds(a: seq<Post>, b: seq<Post>, id: string)
    requires |a| == |b| && forall j :: 0 <= j < |a| ==> a[j].id == b[j].id
    ensures FindPost(a, id) == FindPost(b, id)
  {
  }

  /** After a delete no post carries the id, so deleting again finds nothing. */
  lemma DeletePostIdempotent(posts: seq<Post>, user: Option<User>, id: string)
    requires DeletePost(posts, user, id).reply == Done
    ensures var after := DeletePost(posts, user, id).posts;
            DeletePost(after, user, id) == Step(after, NoSuchPost)
  {
    var after := DeletePost(posts, user, id).posts;
    assert forall j :: 0 <= j < |after| ==> after[j] in after;
  }

  /** The tabs of "My Posts": every post, or the posts with one status. */
  datatype Tab = All | Only(status: Status)

  /** The page's grid and its three counters. */
  datatype MyPostsView = MyPostsView(shown: seq<Post>, total: nat, active: nat, sold: nat)

  function OwnedBy(uid: string): Post -> bool
  {
    (p: Post) => p.ownerId == uid
  }

  function HasStatus(s: Status): Post -> bool
  {
    (p: Post) => p.status == s
  }

  function OwnedWith(uid: string, s: Status): Post -> bool
  {
    (p: Post) => p.ownerId == uid && p.status == s
  }

  /** The posts a tab shows among the user's own. */
  predicate TabShows(tab: Tab, p: Post)
  {
    tab.All? || p.status == tab.status
  }

  /**
   * The grid of "My Posts" (app.js:656-661): the user's posts the tab admits, each as often as
   * the collection holds it, in collection order.
   */
  function Shown(posts: seq<Post>, uid: string, tab: Tab): (r: seq<Post>)
    ensures forall p :: p in r <==> p in posts && p.ownerId == uid && TabShows(tab, p)
    ensures forall p :: multiset(r)[p] == if p.ownerId == uid && TabShows(tab, p) then multiset(posts)[p] else 0
    ensures Subsequence(r, posts)
  {
    var mine := Filter(posts, OwnedBy(uid));
    FilterSubsequence(posts, OwnedBy(uid));
    if tab.All? then
      FilterMultiset(posts, OwnedBy(uid));
      mine
    else
      FilterFilter(posts, OwnedBy(uid), HasStatus(tab.status), OwnedWith(uid, tab.status));
      FilterSubsequence(posts, OwnedWith(uid, tab.status));
      FilterMultiset(posts, OwnedWith(uid, tab.status));
      Filter(mine, HasStatus(tab.status))
  }

  /**
   * `loadMyPosts` (app.js:642-669): `None` stands for the sign-in prompt a guest or signed-out
   * visitor gets. Otherwise the grid holds the user's posts that the tab admits, in collection
   * order; the counters count the user's posts, the available ones and the sold ones.
   */
  function LoadMyPosts(posts: seq<Post>, user: Option<User>, tab: Tab): (r: Option<MyPostsView>)
    ensures r.None? <==> !Registered(user)
    ensures r.Some? ==> forall p :: p in r.value.shown <==> p in posts && p.ownerId == user.value.id && TabShows(tab, p)
    ensures r.Some? ==>
              forall p :: multiset(r.value.shown)[p] ==
                            if p.ownerId == user.value.id && TabShows(tab, p) then multiset(posts)[p] else 0
    ensures r.Some? ==> Subsequence(r.value.shown, posts)
    ensures r.Some? ==> r.value.total == |Filter(posts, OwnedBy(user.value.id))|
    ensures r.Some? ==> r.value.active == |Filter(posts, OwnedWith(user.value.id, Available))|
    ensures r.Some? ==> r.value.sold == |Filter(posts, OwnedWith(user.value.id, Sold))|
    ensures r.Some? ==> r.value.active + r.value.sold <= r.value.total
  {
    if !Registered(user) then None
    else
      var uid := user.value.id;
      var mine := Filter(posts, OwnedBy(uid));
      var shown := Shown(posts, uid, tab);
      FilterFilter(posts, OwnedBy(uid), HasStatus(Available), OwnedWith(uid, Available));
      FilterFilter(posts, OwnedBy(uid), HasStatus(Sold), OwnedWith(uid, Sold));
      DisjointFiltersFit(mine, HasStatus(Available), HasStatus(Sold));
      Some(MyPostsView(shown,
                       |mine|,
                       |Filter(mine, HasStatus(Available))|,
                       |Filter(mine, HasStatus(Sold))|))
  }

  /** Creating a post adds one to the creator's total and active counters and leaves sold alone. */
  lemma CreatePostCounts(posts: seq<Post>, user: Option<User>, data: PostData, id: string, now: int, tab: Tab)
    requires Registered(user)
    ensures var before := LoadMyPosts(posts, user, tab).value;
            var after := LoadMyPosts(CreatePost(posts, user, data, id, now).posts, user, tab).value;
            && after.total == before.total + 1
            && after.active == before.active + 1
            && after.sold == before.sold
  {
    var next := CreatePost(posts, user, data, id, now).posts;
    assert next[0].ownerId == user.value.id && next[0].status == Available;
    assert next[1..] == posts;
  }

  /** A successful mark-as-sold moves one of the owner's posts into the sold counter. */
  lemma MarkAsSoldCounts(posts: seq<Post>, user: Option<User>, id: string, tab: Tab)
    requires Registered(user)
    requires MarkAsSold(posts, user, false, id).reply == Done
    ensures var i := FindPost(posts, id).value;
            var before := LoadMyPosts(posts, user, tab).value;
            var after := LoadMyPosts(MarkAsSold(posts, user, false, id).posts, user, tab).value;
            && after.total == before.total
            && after.sold == before.sold + 1
            && after.active + (if posts[i].status == Available then 1 else 0) == before.active
  {
    var i := FindPost(posts, id).value;
    var uid := user.value.id;
    var y := posts[i].(status := Sold);
    assert MarkAsSold(posts, user, false, id).posts == posts[i := y];
    FilterLengthUpdate(posts, i, y, OwnedBy(uid));
    FilterLengthUpdate(posts, i, y, OwnedWith(uid, Available));
    FilterLengthUpdate(posts, i, y, OwnedWith(uid, Sold));
  }

  /** With unique ids, a successful delete takes exactly one post off the owner's total. */
  lemma DeletePostCounts(posts: seq<Post>, user: Option<User>, id: string, tab: Tab)
    requires Registered(user) && UniqueIds(posts)
    requires DeletePost(posts, user, id).reply == Done
    ensures LoadMyPosts(DeletePost(posts, user, id).posts, user, tab).value.total + 1
         == LoadMyPosts(posts, user, tab).value.total
  {
    var i := FindPost(posts, id).value;
    var uid := user.value.id;
    var ownedOther := (p: Post) => p.id != id && p.ownerId == uid;
    FilterFilter(posts, OtherId(id), OwnedBy(uid), ownedOther);
    FilterDropOne(posts, i, OwnedBy(uid), ownedOther);
  }
}
