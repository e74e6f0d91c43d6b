/**
 * Worked examples of the listing: sample areas of the seed data, with the great-circle
 * distances from Mirpur-1 (about 6.6 km to Mirpur-14 and 7.4 km to Dhanmondi) supplied as a table.
 */
module RankingExamples {
  import opened Wrappers
  import opened Text
  import opened Market
  import opened Sorting
  import opened Ranking

  const Mirpur1: Location := Location(23.8103, 90.3563)
  const Mirpur14: Location := Location(23.7808, 90.4125)
  const Dhanmondi: Location := Location(23.7461, 90.3742)

  /** Stand-in distances from Mirpur-1: the haversine values rounded to 0.1 km. */
  function Table(origin: Location, loc: Location): real
  {
    if loc == Mirpur14 then 6.6 else if loc == Dhanmondi then 7.4 else 0.0
  }

  function Sample(id: string, loc: Location, price: real, createdAt: int): Post
  {
    Post(id, "user2", "Tomato", price, "BDT", 1.0, "kg", "", "", loc, Available, [], "", 0, createdAt)
  }

  const Viewer: User := User("user1", "FarmerAli", false, "Mirpur-1", Mirpur1, "+8801711111111", true)

  /** Both sample posts are within the default radius and the empty search matches them. */
  lemma DistanceSurvivors()
    ensures Survivors([Sample("a", Dhanmondi, 60.0, 0), Sample("b", Mirpur14, 80.0, 0)], Mirpur1, Table, "", Blank)
         == [Listed(Sample("a", Dhanmondi, 60.0, 0), 7.4), Listed(Sample("b", Mirpur14, 80.0, 0), 6.6)]
  {
    var pa, pb := Sample("a", Dhanmondi, 60.0, 0), Sample("b", Mirpur14, 80.0, 0);
    assert [pa, pb][1..] == [pb] && [pb][1..] == [];
    SurvivorsCons([pa, pb], Mirpur1, Table, "", Blank);
    SurvivorsCons([pb], Mirpur1, Table, "", Blank);
  }

  /** Sorting two entries by distance puts the nearer first. */
  lemma TwoByDistance(la: Listed, lb: Listed)
    requires lb.distance < la.distance
    ensures Sort([la, lb], Ordering(ByDistance)) == [lb, la]
  {
    assert [la, lb][1..] == [lb];
    assert Sort([lb], Ordering(ByDistance)) == [lb];
  }

  /**
   * For a viewer at Mirpur-1, sorting by distance lists the Mirpur-14 post (6.6 km) before the
   * Dhanmondi post (7.4 km), although Dhanmondi's comes first in `posts`.
   */
  lemma DistanceOrderExample()
    ensures GetFilteredPosts([Sample("a", Dhanmondi, 60.0, 0), Sample("b", Mirpur14, 80.0, 0)],
                             Some(Viewer), Table, "", Blank, "distance")
         == [Listed(Sample("b", Mirpur14, 80.0, 0), 6.6), Listed(Sample("a", Dhanmondi, 60.0, 0), 7.4)]
  {
    DistanceSurvivors();
    TwoByDistance(Listed(Sample("a", Dhanmondi, 60.0, 0), 7.4), Listed(Sample("b", Mirpur14, 80.0, 0), 6.6));
  }

  /** Inserting an older entry into a newest-first sequence of newer ones puts it last. */
  lemma {:induction false} InsertOldest(x: Listed, s: seq<Listed>)
    requires SortedBy(s, Ordering(Newest))
    requires forall i :: 0 <= i < |s| ==> s[i].post.createdAt > x.post.createdAt
    ensures Insert(x, s, Ordering(Newest)) == s + [x]
  {
    if |s| > 0 {
      assert SortedBy(s[1..], Ordering(Newest));
      assert Key(Newest, x) > Key(Newest, s[0]);
      InsertOldest(x, s[1..]);
      assert s == [s[0]] + s[1..];
      assert [s[0]] + (s[1..] + [x]) == s + [x];
    }
  }

  /** Two entries are listed newest first. */
  lemma TwoNewest(lb: Listed, lc: Listed)
    requires lb.post.createdAt < lc.post.createdAt
    ensures Sort([lb, lc], Ordering(Newest)) == [lc, lb]
  {
    assert [lb, lc][1..] == [lc];
    assert Sort([lc], Ordering(Newest)) == [lc];
    InsertOldest(lb, [lc]);
    assert [lc] + [lb] == [lc, lb];
  }

  /** Three entries created one after another are listed newest first. */
  lemma ThreeNewest(la: Listed, lb: Listed, lc: Listed)
    requires la.post.createdAt < lb.post.createdAt < lc.post.createdAt
    ensures Sort([la, lb, lc], Ordering(Newest)) == [lc, lb, la]
  {
    assert [la, lb, lc][1..] == [lb, lc];
    TwoNewest(lb, lc);
    InsertOldest(la, [lc, lb]);
    assert [lc, lb] + [la] == [lc, lb, la];
  }

  /** Newest first: creation times T, T+1000, T+2000 (here T = 1700000000000) come out as T+2000, T+1000, T. */
  lemma NewestOrderExample()
    ensures var a, b, c := Sample("a", Mirpur1, 1.0, 1700000000000), Sample("b", Mirpur1, 1.0, 1700000001000),
                           Sample("c", Mirpur1, 1.0, 1700000002000);
            Sort([Listed(a, 0.0), Listed(b, 0.0), Listed(c, 0.0)], Ordering(Newest))
            == [Listed(c, 0.0), Listed(b, 0.0), Listed(a, 0.0)]
  {
    ThreeNewest(Listed(Sample("a", Mirpur1, 1.0, 1700000000000), 0.0), Listed(Sample("b", Mirpur1, 1.0, 1700000001000), 0.0),
                Listed(Sample("c", Mirpur1, 1.0, 1700000002000), 0.0));
  }

  /** The search "tom" matches the crop "Tomato", ignoring case. */
  lemma TomMatchesTomato(p: Post)
    requires p.cropName == "Tomato"
    ensures MatchesQuery(p, "tom")
  {
    assert Lower("tom") == "tom";
    assert Lower("Tomato") == "tomato";
    assert OccursAt("tomato", "tom", 0);
  }

  /** With radius 0 only the post at the viewer's own location survives. */
  lemma ZeroRadiusSurvivors()
    ensures Survivors([Sample("a", Mirpur1, 1.0, 0), Sample("b", Dhanmondi, 1.0, 0)], Mirpur1, Table, "tom", Km(0.0))
         == [Listed(Sample("a", Mirpur1, 1.0, 0), 0.0)]
  {
    var pa, pb := Sample("a", Mirpur1, 1.0, 0), Sample("b", Dhanmondi, 1.0, 0);
    TomMatchesTomato(pa);
    assert [pa, pb][1..] == [pb] && [pb][1..] == [];
    SurvivorsCons([pa, pb], Mirpur1, Table, "tom", Km(0.0));
    SurvivorsCons([pb], Mirpur1, Table, "tom", Km(0.0));
  }

  /** A radius of 0 still lists a post at the viewer's own location. */
  lemma ZeroRadiusExample()
    ensures GetFilteredPosts([Sample("a", Mirpur1, 1.0, 0), Sample("b", Dhanmondi, 1.0, 0)],
                             Some(Viewer), Table, "tom", Km(0.0), "newest")
         == [Listed(Sample("a", Mirpur1, 1.0, 0), 0.0)]
  {
    ZeroRadiusSurvivors();
    assert Sort([Listed(Sample("a", Mirpur1, 1.0, 0), 0.0)], Ordering(Newest)) == [Listed(Sample("a", Mirpur1, 1.0, 0), 0.0)];
  }
}
