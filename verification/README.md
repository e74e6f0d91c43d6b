# Chadkrishi marketplace core, modelled in Dafny

Chadkrishi is a browser app where farmers list crops for sale. Each listing ("post") carries:

- a price;
- a location;
- a status: available, reserved or sold;
- its creation time.

This project models the app's core logic in `app.js`:

- **The dashboard listing** (`getFilteredPosts`). It keeps the posts whose crop name matches the search text and that lie within the chosen radius of the viewer. It attaches each post's distance, then orders the posts by distance, price (ascending or descending) or newest first.
- **The relative-time label** (`getRelativeTime`): "Just now", "3 hours ago", "1 day ago".
- **The three post transitions:**
  - `createPost`;
  - `markAsSold`, with its guards for "operation in progress", "not found", "not the owner" and "already sold";
  - `deletePost`.
- **The "My Posts" page**: the status tab filter and its total, active and sold counters.
- **The access rules**:
  - who may contact a seller;
  - whose phone is shown;
  - which buttons the post detail view offers;
  - which navigation links a guest is kept out of.

The model is functional. The browser's global `posts` array becomes a `seq<Post>` argument. Each transition returns the next sequence together with what the user is told (`PostStore.Step`). The signed-in user (`currentUser`) is an `Option<User>`, where `None` means signed out. The guest session is `Market.Guest`.

Outside inputs become parameters:

- the great-circle distance is a parameter `dist`;
- the clock reading is a parameter `now`;
- the database's new document id is a parameter `id`.

Modules:

| module | file | contents |
|---|---|---|
| `Wrappers` | wrappers.dfy | `Option` |
| `Seqs` | seqs.dfy | `filter`, `find` and `map` on sequences, and their lemmas |
| `Text` | text.dfy | `toLowerCase` and `includes` |
| `Market` | market.dfy | users, posts and `posts.find` |
| `Sorting` | sorting.dfy | a stable sort on a numeric key, and why any stable sort gives the same result |
| `Ranking` | ranking.dfy | `getFilteredPosts` |
| `RankingExamples` | ranking_examples.dfy | worked listings over the sample areas |
| `RelativeTime` | relative_time.dfy | `getRelativeTime` and a parser for its labels |
| `PostStore` | post_store.dfy | create, mark sold, delete, and "My Posts" |
| `Access` | access.dfy | contact, phone, buttons and navigation |

**The sort.** `Array.prototype.sort` with a comparator `(a, b) => key(a) - key(b)` is stable. It is modelled by a stable insertion sort, `Sorting.Sort`, on that key:

- distance;
- price;
- negated price;
- negated creation time.

`Sorting.StableOrderIsUnique` shows that sortedness plus stability determine the order completely. So whichever stable algorithm the browser uses, it returns the listing the model computes.

**The radius field.** The radius is read with `parseFloat(field || '999')`, giving three cases:

- `Radius.Blank`: the field was empty, so the radius is 999 km.
- `Radius.Km(r)`: a number.
- `Radius.NotANumber`: the text did not parse. Then `distance > NaN` is false, so every post is kept.

## Model

| member | source | states |
|---|---|---|
| `Market.FindPost` | app.js:415 | `posts.find` gives the first index whose id matches, and `None` exactly when no post has the id |
| `Market.FindUser` | app.js:709 | `users.find` gives the first index whose id is the post's owner, and `None` exactly when no profile has that id |
| `Ranking.ParseSortKey` | app.js:513-553 | "distance", "price-low" and "price-high" select their orderings; every other value, the empty field included, falls to the `default:` newest-first branch |
| `Ranking.AnnotateCount` | app.js:531-539 | attaching distances keeps every post as often as it occurred, each with its own distance from the viewer and no other |
| `Ranking.SurvivorsCount` | app.js:515-539 | the filtered, annotated posts hold an entry exactly when its post matches the search and lies within the radius, as many times as the post occurs |
| `Ranking.GetFilteredPosts` | app.js:505-556 | signed out gives an empty listing; otherwise the listing is a permutation of exactly the qualifying posts, each with its distance, and adjacent entries are in the comparator's order for the sort field |
| `Ranking.ListingKeepsTiesInPostOrder` | app.js:541-553 | posts the comparator ranks equal keep the order they had in `posts` |
| `Ranking.ListingIsTheStableSort` | app.js:541-553 | any arrangement of the survivors that is sorted and keeps ties in post order is the listing itself |
| `Ranking.EmptyQueryKeepsByRadiusOnly` | app.js:508-518 | an empty search field filters nothing: only the radius decides |
| `Ranking.RadiusIsInclusive` | app.js:526 | a post exactly at the radius is kept, because only `distance > radius` excludes |
| `Ranking.NarrowerRadiusRefilters` | app.js:509-529 | before sorting, the posts kept for a smaller radius are those kept for a larger one with the farther entries removed |
| `Ranking.NarrowerRadiusRelists` | app.js:509-553 | in every sort order, the listing for a smaller radius is the listing for a larger one with the farther entries removed, the rest keeping their places relative to each other |
| `Ranking.PriceHighReversesPriceLow` | app.js:545-548 | when no two listed posts share a price, "price-high" is exactly the reverse of "price-low" |
| `Sorting.Sort` | app.js:541-553 | the sort's output is ordered by the key and is a permutation of its input |
| `Sorting.SortIsStable` | app.js:541-553 | within each group of equal keys the input order survives |
| `Sorting.SortCommutesWithFilter` | app.js:541-553 | removing entries from a stably sorted sequence gives the stable sort of the input with those entries removed |
| `Sorting.StableOrderIsUnique` | app.js:541-553 | two sorted sequences with the same groups of equal keys, each in the same order, are equal |
| `Sorting.SortByNegatedKeyReverses` | app.js:543-548 | with pairwise distinct keys, sorting by the negated key is the reverse of sorting by the key |
| `RelativeTime.AgeOf` | app.js:33-44 | under one minute is "just now"; otherwise the count is the number of whole days, hours or minutes elapsed, at least 1. The largest unit that fits is used: days from 24 hours, hours from 60 minutes |
| `RelativeTime.GetRelativeTime` | app.js:33-44 | the label is "Just now" exactly when less than a minute has passed, and ends in "s ago" exactly when the count is above one |
| `RelativeTime.DigitsRoundTrip` | app.js:40-42 | the decimal text of a count reads back as that count |
| `RelativeTime.LabelRoundTrip` | app.js:40-43 | every label reads back as the age it shows, so no two ages share a label |
| `PostStore.CreatePost` | app.js:374-407 | a guest or signed-out visitor gets the sign-in prompt and nothing changes. Otherwise the new post is stored in front of the existing ones, unchanged: available, owned by and located at the creator, with zero views, stamped now, carrying the form's fields |
| `PostStore.MarkAsSold` | app.js:409-456 | in source order: busy, unknown id, not the owner, already sold. Each guard stops with its reply and no change. Otherwise only the status of the first post with the id becomes sold |
| `PostStore.MarkAsSoldIdempotent` | app.js:423-426 | marking the same post again reports "already sold" and changes nothing |
| `PostStore.DeletePost` | app.js:458-485 | an unknown id or a non-owner is refused with no change. Otherwise every post with the id is removed and the others keep their order and multiplicity |
| `PostStore.DeletePostIdempotent` | app.js:459-460 | after a delete no post has the id, so deleting again finds nothing |
| `PostStore.Shown` | app.js:656-661 | the grid holds exactly the user's posts that the tab admits, each as often as the collection holds it, in collection order |
| `PostStore.LoadMyPosts` | app.js:642-669 | a guest or signed-out visitor gets the prompt. The grid holds each of the user's posts the tab admits as often as the collection does, in order. The counters are the user's posts, the available ones and the sold ones, and active plus sold never exceeds the total |
| `PostStore.CreatePostCounts` | app.js:399 | creating a post adds one to the creator's total and active counters |
| `PostStore.MarkAsSoldCounts` | app.js:440 | a successful mark-as-sold keeps the total, adds one to sold, and takes one from active if the post was available |
| `PostStore.DeletePostCounts` | app.js:472 | with unique ids, a successful delete takes exactly one post off the owner's total |
| `Access.PhoneShown` | app.js:724-727 | a phone is shown only to a registered viewer, never when no profile has the owner's id, and it is always the phone of a profile with the owner's id that has made it visible |
| `Access.PhoneIsTheOwners` | app.js:709-727 | with one profile per id, the owner's phone is shown exactly when the viewer is registered and the owner has made it visible; otherwise "Phone hidden" |
| `Access.ContactButtonFollowsCanContact` | app.js:711-777 | "Contact Seller" appears exactly when `canContact` holds and the viewer is not the owner; a viewer who may contact is never asked to sign in, and a non-owner who may not contact an unsold post is |
| `Access.SoldPostOffersNoContact` | app.js:711-773 | once a post is marked sold, no viewer can contact its seller, and neither "Contact Seller" nor "Mark as Sold" is offered on it |
| `Access.DetailButtons` | app.js:757-778 | the owner gets "Delete", plus "Mark as Sold" while unsold. A registered non-owner may contact the seller of an unsold post. A guest or signed-out non-owner is asked to sign in. "Contact" never appears together with another button |
| `Access.MarkSoldButtonMatchesAction` | app.js:759 | "Mark as Sold" is offered exactly when pressing it, with nothing else running, marks the post sold |
| `Access.DeleteButtonMatchesAction` | app.js:764 | "Delete" is offered exactly when pressing it deletes the post |
| `Access.Navigate` | app.js:886-897 | a guest opening "create-post", "my-posts" or "profile" gets the sign-in prompt; every other link goes where it points |
| `Access.GuestIsKeptOut` | app.js:711-727 | the guest session can neither contact a seller, see a phone, create a post, open "My Posts" nor follow the members-only links |

## Left out

- The haversine formula (app.js:15-31) and its trigonometry. The distance is the parameter `dist`, so the listing is proved for every distance function.
- Floating point. Prices, quantities, distances and radii are mathematical reals, so a NaN price or distance and rounding in `a.price - b.price` are not modelled. The radius field's NaN case is modelled as `Radius.NotANumber`.
- `parseFloat` of the form's price and quantity. `PostStore.PostData` carries the parsed numbers.
- `toLowerCase` for letters outside ASCII: `Text.Lower` lower-cases only `A`–`Z`.
- Firebase, the DOM, toasts, modals, the loading spinner and `navigateTo`'s page switching:
  - every database write is taken to succeed;
  - every confirmation dialog is taken as accepted;
  - a failed write, which leaves `posts` unchanged, is not modelled.
- `loadPostsFromFirebase` inside `loadMyPosts` (app.js:653). The model counts the `posts` it is given.
- The asynchronous flag `isOperationInProgress`. It is the parameter `busy` of `PostStore.MarkAsSold`. The interleaving of two confirmations is not modelled.
- `generateId`, `hashPassword`, sign-up, login, logout and the profile form: authentication plumbing, not listing logic.
- `renderPostCard` and the HTML of the detail view, beyond which buttons it shows.
- Buttons with a `data-page` attribute inside the page content (app.js:1073-1080) navigate without the guest check. Only the `.nav-link` guard is modelled. The pages it protects check for guests again themselves (`PostStore.CreatePost`, `PostStore.LoadMyPosts`).
- Malformed coordinates and a viewer without a location are not special cases. The code has no such policy: it returns an empty listing only when nobody is signed in. `Location` always has both numbers.
- The "My Posts" tab values come from the page's HTML, which is not part of this model. They are modelled as `PostStore.Tab` = all, or one status.
- `PostStore.DeletePostCounts`: it needs unique ids, as database document ids are. With duplicate ids the source deletes every post with the id, which `PostStore.DeletePost` does state.
- `Access.PhoneIsTheOwners`: it needs one profile per id, as authentication uids are. With duplicate ids, `Access.PhoneShown` uses the first matching profile, as `users.find` does, and states only that the phone shown belongs to some profile with the owner's id.
