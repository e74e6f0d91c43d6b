/**
 * Who may do what: the contact and phone rules and the action buttons of the post detail
 * view (app.js:705-780), and the guard on the navigation links (app.js:885-898).
 */
module Access {
  import opened Wrappers
  import opened Market
  import opened PostStore

  /** `canContact` (app.js:711): a registered user, and the post is not sold. */
  predicate CanContact(viewer: Option<User>, post: Post)
  {
    Registered(viewer) && post.status != Sold
  }

  /**
   * The phone line of the seller box (app.js:709, 724-727): the phone of the post's owner, looked
   * up in `users`, when the owner is found and shares it and the viewer is registered. `None` is
   * the text "Phone hidden".
   */
  function PhoneShown(users: seq<User>, viewer: Option<User>, post: Post): (r: Option<string>)
    ensures !Registered(viewer) ==> r.None?
    ensures (forall u :: u in users ==> u.id != post.ownerId) ==> r.None?
    ensures r.Some? ==> exists u :: u in users && u.id == post.ownerId && u.phoneVisible && r.value == u.phone
  {
    match FindUser(users, post.ownerId)
    case None => None
    case Some(i) =>
      assert users[i] in users;
      if users[i].phoneVisible && Registered(viewer) then Some(users[i].phone) else None
  }

  /**
   * With one profile per id, the phone shown is that of the post's owner: shown exactly to a
   * registered viewer and exactly when the owner has made it visible.
   */
  lemma {:induction false} PhoneIsTheOwners(users: seq<User>, viewer: Option<User>, post: Post, owner: User)
    requires UniqueUserIds(users)
    requires owner in users && owner.id == post.ownerId
    ensures PhoneShown(users, viewer, post) == if Registered(viewer) && owner.phoneVisible then Some(owner.phone) else None
  {
    var k :| 0 <= k < |users| && users[k] == owner;
    var i := FindUser(users, post.ownerId).value;
    assert users[i] == users[k];
  }

  /** The buttons of the detail view. */
  datatype Buttons = Buttons(markSold: bool, delete: bool, contact: bool, signIn: bool)

  /**
   * The buttons offered on a post's detail view (app.js:757-780): the owner manages the post,
   * a registered non-owner may contact the seller of an unsold post, and a guest or signed-out
   * visitor is asked to sign in.
   */
  function DetailButtons(viewer: Option<User>, post: Post): (b: Buttons)
    ensures b.delete <==> Owns(viewer, post)
    ensures b.markSold <==> Owns(viewer, post) && post.status != Sold
    ensures b.contact <==> !Owns(viewer, post) && Registered(viewer) && post.status != Sold
    ensures b.signIn <==> !Owns(viewer, post) && !Registered(viewer)
    ensures !(b.contact && (b.markSold || b.delete || b.signIn))
  {
    var isOwner := Owns(viewer, post);
    Buttons(isOwner && post.status != Sold,
            isOwner,
            !isOwner && CanContact(viewer, post),
            !isOwner && (viewer.None? || viewer.value.isGuest))
  }

  /**
   * `canContact` (app.js:711) decides the "Contact Seller" button for everyone but the owner,
   * and a non-owner who may not contact the seller of an unsold post is asked to sign in instead.
   */
  lemma ContactButtonFollowsCanContact(viewer: Option<User>, post: Post)
    ensures DetailButtons(viewer, post).contact <==> CanContact(viewer, post) && !Owns(viewer, post)
    ensures CanContact(viewer, post) ==> !DetailButtons(viewer, post).signIn
    ensures !Owns(viewer, post) && !CanContact(viewer, post) && post.status != Sold ==> DetailButtons(viewer, post).signIn
  {
  }

  /** Once a post is marked sold, nobody can contact its seller and it offers no "Mark as Sold". */
  lemma SoldPostOffersNoContact(posts: seq<Post>, user: Option<User>, id: string, viewer: Option<User>)
    requires MarkAsSold(posts, user, false, id).reply == Done
    ensures var post := MarkAsSold(posts, user, false, id).posts[FindPost(posts, id).value];
            && !CanContact(viewer, post)
            && !DetailButtons(viewer, post).contact
            && !DetailButtons(viewer, post).markSold
  {
  }

  /** The button "Mark as Sold" is offered exactly when pressing it (nothing else running) marks the post sold. */
  lemma MarkSoldButtonMatchesAction(posts: seq<Post>, viewer: Option<User>, i: nat)
    requires i < |posts| && FindPost(posts, posts[i].id) == Some(i)
    ensures DetailButtons(viewer, posts[i]).markSold <==> MarkAsSold(posts, viewer, false, posts[i].id).reply == Done
  {
  }

  /** The button "Delete" is offered exactly when pressing it deletes the post. */
  lemma DeleteButtonMatchesAction(posts: seq<Post>, viewer: Option<User>, i: nat)
    requires i < |posts| && FindPost(posts, posts[i].id) == Some(i)
    ensures DetailButtons(viewer, posts[i]).delete <==> DeletePost(posts, viewer, posts[i].id).reply == Done
  {
  }

  /** Where a navigation link leads. */
  datatype Navigation = GuestModal | GoTo(page: string)

  /** The pages a guest may not open. */
  predicate MembersOnly(page: string)
  {
    page == "create-post" || page == "my-posts" || page == "profile"
  }

  /** The navigation links (app.js:888-897): a guest asking for a members-only page gets the sign-in prompt. */
  function Navigate(viewer: Option<User>, page: string): (r: Navigation)
    ensures r.GuestModal? <==> viewer.Some? && viewer.value.isGuest && MembersOnly(page)
    ensures r.GoTo? ==> r.page == page
  {
    if viewer.Some? && viewer.value.isGuest && MembersOnly(page) then GuestModal else GoTo(page)
  }

  /** The guest session can neither contact sellers, see phones, post, open its own posts, nor follow a members-only link. */
  lemma GuestIsKeptOut(posts: seq<Post>, post: Post, users: seq<User>, data: PostData, id: string, now: int, tab: Tab)
    ensures !CanContact(Some(Guest), post)
    ensures PhoneShown(users, Some(Guest), post).None?
    ensures CreatePost(posts, Some(Guest), data, id, now) == Step(posts, GuestPrompt)
    ensures LoadMyPosts(posts, Some(Guest), tab).None?
    ensures forall page :: MembersOnly(page) ==> Navigate(Some(Guest), page).GuestModal?
  {
  }
}
