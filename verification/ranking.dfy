/**
 * The dashboard's listing filter and ranker, `getFilteredPosts` (app.js:505-556).
 *
 * The form fields it reads become parameters: the search text, the radius field and the
 * sort field. The great-circle distance is the parameter `dist`, never computed here.
 */
module Ranking {
  import opened Wrappers
  import opened Seqs
  import opened Text
  import opened Market
  import opened Sorting

  /** The radius used when the radius field is empty or missing. */
  const DefaultRadiusKm: real := 999.0

  /**
   * What `parseFloat(field || '999')` produced: the field was empty or missing,
   * a number, or text that is not a number (NaN).
   */
  datatype Radius = Blank | Km(km: real) | NotANumber

  /** The four orderings of the sort field. */
  datatype SortKey = ByDistance | PriceLow | PriceHigh | Newest

  /** A post as the dashboard shows it: the post plus its distance from the viewer. */
  datatype Listed = Listed(post: Post, distance: real)

  /** The sort field's value; anything unrecognised, the empty field included, sorts newest first. */
  function ParseSortKey(s: string): (k: SortKey)
    ensures k == ByDistance <==> s == "distance"
    ensures k == PriceLow <==> s == "price-low"
    ensures k == PriceHigh <==> s == "price-high"
  {
    if s == "distance" then ByDistance
    else if s == "price-low" then PriceLow
    else if s == "price-high" then PriceHigh
    else Newest
  }

  /** `distance > radius` fails, the comparison being false whenever the radius is NaN. */
  predicate WithinRadius(d: real, radius: Radius)
  {
    match radius
    case Blank => d <= DefaultRadiusKm
    case Km(r) => d <= r
    case NotANumber => true
  }

  /** The search field is empty, or the crop name contains it, both lower-cased. */
  predicate MatchesQuery(p: Post, query: string)
  {
    Lower(query) == [] || Contains(Lower(p.cropName), Lower(query))
  }

  /** The filter of app.js:515-529 for a post at distance `d` from the viewer. */
  predicate Keeps(p: Post, query: string, radius: Radius, d: real)
  {
    MatchesQuery(p, query) && WithinRadius(d, radius)
  }

  /** An output entry that is some input post, kept by the filter, carrying its own distance. */
  predicate Qualifies(x: Listed, origin: Location, dist: (Location, Location) -> real, query: string, radius: Radius)
  {
    x.distance == dist(origin, x.post.location) && Keeps(x.post, query, radius, x.distance)
  }

  /** Attaching to one post its distance from `origin`. */
  function WithDistance(origin: Location, dist: (Location, Location) -> real): Post -> Listed
  {
    (p: Post) => Listed(p, dist(origin, p.location))
  }

  /** `posts.map(post => ({...post, distance}))` (app.js:531-539). */
  function Annotate(ps: seq<Post>, origin: Location, dist: (Location, Location) -> real): (r: seq<Listed>)
    ensures |r| == |ps|
    ensures forall i :: 0 <= i < |r| ==> r[i] == Listed(ps[i], dist(origin, ps[i].location))
  {
    Map(ps, WithDistance(origin, dist))
  }

  /** Annotating keeps each post as often as before, with its own distance and no other. */
  lemma AnnotateCount(ps: seq<Post>, origin: Location, dist: (Location, Location) -> real, x: Listed)
    ensures multiset(Annotate(ps, origin, dist))[x] ==
              if x.distance == dist(origin, x.post.location) then multiset(ps)[x.post] else 0
  {
    if x.distance == dist(origin, x.post.location) {
      assert x == WithDistance(origin, dist)(x.post);
      MapCount(ps, WithDistance(origin, dist), (y: Listed) => y.post, x.post);
    } else {
      assert x !in Annotate(ps, origin, dist);
    }
  }

  /** The posts the filter keeps, each annotated with its distance, in their original order. */
  function Survivors(posts: seq<Post>, origin: Location, dist: (Location, Location) -> real, query: string, radius: Radius): seq<Listed>
  {
    Annotate(Filter(posts, KeptBy(origin, dist, query, radius)), origin, dist)
  }

  /** The filter's test as a predicate on posts, for a viewer at `origin`. */
  function KeptBy(origin: Location, dist: (Location, Location) -> real, query: string, radius: Radius): Post -> bool
  {
    (p: Post) => Keeps(p, query, radius, dist(origin, p.location))
  }

  /** The survivors hold each qualifying entry as often as its post occurs in `posts`, and nothing else. */
  lemma SurvivorsCount(posts: seq<Post>, origin: Location, dist: (Location, Location) -> real, query: string, radius: Radius, x: Listed)
    ensures multiset(Survivors(posts, origin, dist, query, radius))[x] ==
              if Qualifies(x, origin, dist, query, radius) then multiset(posts)[x.post] else 0
  {
    var keep := KeptBy(origin, dist, query, radius);
    AnnotateCount(Filter(posts, keep), origin, dist, x);
    FilterMultiset(posts, keep);
  }

  /** The number each ordering sorts ascending by: the comparator of app.js:541-553 is `Key(a) - Key(b)`. */
  function Key(k: SortKey, x: Listed): real
  {
    match k
    case ByDistance => x.distance
    case PriceLow => x.post.price
    case PriceHigh => -x.post.price
    case Newest => -(x.post.createdAt as real)
  }

  /** `a` may be placed before `b` under ordering `k`, stated field by field. */
  predicate InOrder(k: SortKey, a: Listed, b: Listed)
  {
    match k
    case ByDistance => a.distance <= b.distance
    case PriceLow => a.post.price <= b.post.price
    case PriceHigh => a.post.price >= b.post.price
    case Newest => a.post.createdAt >= b.post.createdAt
  }

  /** The ordering `k` as a key function for the stable sort. */
  function Ordering(k: SortKey): Listed -> real
  {
    (x: Listed) => Key(k, x)
  }

  /** Adjacent keys in order means the comparator's field order (`InOrder`). */
  lemma KeyOrderIsInOrder(k: SortKey, a: Listed, b: Listed)
    ensures Key(k, a) <= Key(k, b) <==> InOrder(k, a, b)
  {
  }

  /**
   * The dashboard's listing (app.js:505-556): with no signed-in user nothing; otherwise exactly
   * the posts the filter keeps, each with its distance attached, ordered by the sort field.
   */
  function GetFilteredPosts(posts: seq<Post>, viewer: Option<User>, dist: (Location, Location) -> real,
                            query: string, radius: Radius, sortBy: string): (r: seq<Listed>)
    ensures viewer.None? ==> r == []
    ensures viewer.Some? ==> forall x :: multiset(r)[x] ==
                                         if Qualifies(x, viewer.value.location, dist, query, radius)
                                         then multiset(posts)[x.post] else 0
    ensures forall x :: x in r <==>
      viewer.Some? && x.post in posts && Qualifies(x, viewer.value.location, dist, query, radius)
    ensures forall i :: 0 <= i < |r| - 1 ==> InOrder(ParseSortKey(sortBy), r[i], r[i + 1])
  {
    if viewer.None? then []
    else
      var origin := viewer.value.location;
      var k := ParseSortKey(sortBy);
      var kept := Survivors(posts, origin, dist, query, radius);
      var r := Sort(kept, Ordering(k));
      assert forall x :: multiset(r)[x] == if Qualifies(x, origin, dist, query, radius) then multiset(posts)[x.post] else 0 by {
        forall x ensures multiset(r)[x] == if Qualifies(x, origin, dist, query, radius) then multiset(posts)[x.post] else 0 {
          SurvivorsCount(posts, origin, dist, query, radius, x);
        }
      }
      assert forall x :: x in r <==> x.post in posts && Qualifies(x, origin, dist, query, radius) by {
        forall x ensures x in r <==> x.post in posts && Qualifies(x, origin, dist, query, radius) {
          assert x in r <==> multiset(r)[x] > 0;
          assert x.post in posts <==> multiset(posts)[x.post] > 0;
        }
      }
      forall i | 0 <= i < |r| - 1 ensures InOrder(k, r[i], r[i + 1]) {
        KeyOrderIsInOrder(k, r[i], r[i + 1]);
      }
      r
  }

  /** `Survivors` taken apart at the first post. */
  lemma SurvivorsCons(posts: seq<Post>, origin: Location, dist: (Location, Location) -> real, query: string, radius: Radius)
    requires |posts| > 0
    ensures Survivors(posts, origin, dist, query, radius) ==
              (if Keeps(posts[0], query, radius, dist(origin, posts[0].location))
               then [Listed(posts[0], dist(origin, posts[0].location))] else [])
              + Survivors(posts[1..], origin, dist, query, radius)
  {
  }

  /**
   * Entries that tie under the chosen ordering appear in the listing in the order their
   * posts had in `posts`.
   */
  lemma ListingKeepsTiesInPostOrder(posts: seq<Post>, viewer: User, dist: (Location, Location) -> real,
                                    query: string, radius: Radius, sortBy: string, v: real)
    ensures var key := Ordering(ParseSortKey(sortBy));
            Tied(GetFilteredPosts(posts, Some(viewer), dist, query, radius, sortBy), key, v)
            == Tied(Survivors(posts, viewer.location, dist, query, radius), key, v)
  {
    SortIsStable(Survivors(posts, viewer.location, dist, query, radius), Ordering(ParseSortKey(sortBy)), v);
  }

  /**
   * The listing is the only ordering of the surviving posts that is sorted by the chosen key and
   * keeps ties in post order: any stable sort in the browser produces this same listing.
   */
  lemma ListingIsTheStableSort(posts: seq<Post>, viewer: User, dist: (Location, Location) -> real,
                               query: string, radius: Radius, sortBy: string, t: seq<Listed>)
    requires SortedBy(t, Ordering(ParseSortKey(sortBy)))
    requires forall v :: Tied(t, Ordering(ParseSortKey(sortBy)), v)
                         == Tied(Survivors(posts, viewer.location, dist, query, radius), Ordering(ParseSortKey(sortBy)), v)
    ensures t == GetFilteredPosts(posts, Some(viewer), dist, query, radius, sortBy)
  {
    SortIsTheStableSort(Survivors(posts, viewer.location, dist, query, radius), t, Ordering(ParseSortKey(sortBy)));
  }

  /** An empty search field filters nothing: only the radius decides. */
  lemma EmptyQueryKeepsByRadiusOnly(p: Post, radius: Radius, d: real)
    ensures Keeps(p, "", radius, d) <==> WithinRadius(d, radius)
  {
  }

  /** The radius test is inclusive: a post exactly at the radius is listed. */
  lemma RadiusIsInclusive(p: Post, query: string, r: real)
    ensures Keeps(p, query, Km(r), r) <==> MatchesQuery(p, query)
  {
  }

  /** Selects the entries no farther than `km`. */
  function Within(km: real): Listed -> bool
  {
    (x: Listed) => x.distance <= km
  }

  /** One step of `NarrowerRadiusRefilters`: the head survives the narrow radius exactly when it survives the wide one and is near. */
  lemma NarrowStep(head: Listed, rest: seq<Listed>, rest2: seq<Listed>, wide: bool, narrow: bool, r2: real)
    requires narrow ==> wide
    requires wide ==> (narrow <==> head.distance <= r2)
    requires Filter(rest, Within(r2)) == rest2
    ensures Filter((if wide then [head] else []) + rest, Within(r2)) == (if narrow then [head] else []) + rest2
  {
    if wide {
      FilterCons(head, rest, Within(r2));
    } else {
      assert [] + rest == rest;
    }
  }

  /** Before sorting, narrowing the radius from `r` to `r2 <= r` is filtering the wider survivors by distance. */
  lemma {:induction false} NarrowerRadiusRefilters(posts: seq<Post>, origin: Location, dist: (Location, Location) -> real,
                                                   query: string, r: real, r2: real)
    requires r2 <= r
    ensures Filter(Survivors(posts, origin, dist, query, Km(r)), Within(r2))
         == Survivors(posts, origin, dist, query, Km(r2))
  {
    if |posts| > 0 {
      var d := dist(origin, posts[0].location);
      NarrowerRadiusRefilters(posts[1..], origin, dist, query, r, r2);
      SurvivorsCons(posts, origin, dist, query, Km(r));
      SurvivorsCons(posts, origin, dist, query, Km(r2));
      NarrowStep(Listed(posts[0], d), Survivors(posts[1..], origin, dist, query, Km(r)),
                 Survivors(posts[1..], origin, dist, query, Km(r2)),
                 Keeps(posts[0], query, Km(r), d), Keeps(posts[0], query, Km(r2), d), r2);
    }
  }

  /**
   * The listing for a radius `r2 <= r` is the listing for `r` with the entries farther than `r2`
   * removed, in every sort order: narrowing the radius never reorders what stays.
   */
  lemma NarrowerRadiusRelists(posts: seq<Post>, viewer: User, dist: (Location, Location) -> real,
                              query: string, r: real, r2: real, sortBy: string)
    requires r2 <= r
    ensures Filter(GetFilteredPosts(posts, Some(viewer), dist, query, Km(r), sortBy), Within(r2))
         == GetFilteredPosts(posts, Some(viewer), dist, query, Km(r2), sortBy)
  {
    SortCommutesWithFilter(Survivors(posts, viewer.location, dist, query, Km(r)), Ordering(ParseSortKey(sortBy)), Within(r2));
    NarrowerRadiusRefilters(posts, viewer.location, dist, query, r, r2);
  }

  /** No two entries of `s` share a price. */
  predicate DistinctPrices(s: seq<Listed>)
  {
    forall i, j :: 0 <= i < j < |s| ==> s[i].post.price != s[j].post.price
  }

  /**
   * When no two listed posts share a price, "price-high" lists them in exactly the reverse
   * order of "price-low". (With equal prices both orders keep the tied posts in post order.)
   */
  lemma PriceHighReversesPriceLow(posts: seq<Post>, viewer: User, dist: (Location, Location) -> real,
                                  query: string, radius: Radius)
    requires DistinctPrices(Survivors(posts, viewer.location, dist, query, radius))
    ensures GetFilteredPosts(posts, Some(viewer), dist, query, radius, "price-high")
         == Reverse(GetFilteredPosts(posts, Some(viewer), dist, query, radius, "price-low"))
  {
    var kept := Survivors(posts, viewer.location, dist, query, radius);
    assert DistinctKeys(kept, Ordering(PriceLow));
    SortByNegatedKeyReverses(kept, Ordering(PriceLow), Ordering(PriceHigh));
  }
}
