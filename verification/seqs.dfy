/** Generic sequence helpers behind the source's `Array.prototype.filter`. */
module Seqs {
  import opened Wrappers

  /** `a` can be obtained from `b` by deleting elements, keeping the rest in order. */
  predicate Subsequence<T(==)>(a: seq<T>, b: seq<T>)
  {
    if |a| == 0 then true
    else if |b| == 0 then false
    else if a[0] == b[0] then Subsequence(a[1..], b[1..])
    else Subsequence(a, b[1..])
  }

  /** `s.filter(f)`: the elements of `s` that satisfy `f`, in their original order. */
  function Filter<T(==,!new)>(s: seq<T>, f: T -> bool): (r: seq<T>)
    ensures |r| <= |s|
    ensures forall x :: x in r <==> x in s && f(x)
  {
    if |s| == 0 then []
    else if f(s[0]) then [s[0]] + Filter(s[1..], f)
    else Filter(s[1..], f)
  }

  /** A filter keeps every selected element as often as `s` holds it, and no other. */
  lemma {:induction false} FilterMultiset<T(!new)>(s: seq<T>, f: T -> bool)
    ensures forall x :: multiset(Filter(s, f))[x] == if f(x) then multiset(s)[x] else 0
  {
    if |s| > 0 {
      FilterMultiset(s[1..], f);
      assert s == [s[0]] + s[1..];
    }
  }

  /** A filter keeps the selected elements in their original order. */
  lemma {:induction false} FilterSubsequence<T(!new)>(s: seq<T>, f: T -> bool)
    ensures Subsequence(Filter(s, f), s)
  {
    if |s| > 0 {
      FilterSubsequence(s[1..], f);
      var r := Filter(s, f);
      if f(s[0]) {
        assert r[1..] == Filter(s[1..], f);
      } else if |r| > 0 {
        assert r[0] in r;
      }
    }
  }

  /** Two filters whose predicates never hold together select at most `|s|` elements in all. */
  lemma {:induction false} DisjointFiltersFit<T(!new)>(s: seq<T>, f: T -> bool, g: T -> bool)
    requires forall x :: !(f(x) && g(x))
    ensures |Filter(s, f)| + |Filter(s, g)| <= |s|
  {
    if |s| > 0 {
      DisjointFiltersFit(s[1..], f, g);
    }
  }

  /** Filtering twice is filtering once by the conjunction. */
  lemma {:induction false} FilterFilter<T(!new)>(s: seq<T>, f: T -> bool, g: T -> bool, h: T -> bool)
    requires forall x :: h(x) == (f(x) && g(x))
    ensures Filter(Filter(s, f), g) == Filter(s, h)
  {
    if |s| > 0 {
      FilterFilter(s[1..], f, g, h);
    }
  }

  /** `Filter` taken apart at a first element. */
  lemma FilterCons<T(!new)>(x: T, s: seq<T>, f: T -> bool)
    ensures Filter([x] + s, f) == (if f(x) then [x] else []) + Filter(s, f)
  {
    assert ([x] + s)[0] == x;
    assert ([x] + s)[1..] == s;
  }

  /** Replacing one element changes a filter's size by what the old and new element contribute. */
  lemma {:induction false} FilterLengthUpdate<T(!new)>(s: seq<T>, i: nat, y: T, f: T -> bool)
    requires i < |s|
    ensures |Filter(s[i := y], f)| + (if f(s[i]) then 1 else 0) == |Filter(s, f)| + (if f(y) then 1 else 0)
  {
    if i == 0 {
      assert s[i := y][1..] == s[1..];
    } else {
      FilterLengthUpdate(s[1..], i - 1, y, f);
      assert s[i := y][1..] == s[1..][i - 1 := y];
    }
  }

  /** Two filters that agree everywhere but at `i`, where only `f` holds, differ by exactly one. */
  lemma {:induction false} FilterDropOne<T(!new)>(s: seq<T>, i: nat, f: T -> bool, g: T -> bool)
    requires i < |s| && f(s[i]) && !g(s[i])
    requires forall j :: 0 <= j < |s| && j != i ==> f(s[j]) == g(s[j])
    ensures |Filter(s, g)| + 1 == |Filter(s, f)|
  {
    if i > 0 {
      FilterDropOne(s[1..], i - 1, f, g);
    } else {
      FilterSame(s[1..], f, g);
    }
  }

  /** Filters by predicates that agree on every element have the same result. */
  lemma {:induction false} FilterSame<T(!new)>(s: seq<T>, f: T -> bool, g: T -> bool)
    requires forall j :: 0 <= j < |s| ==> f(s[j]) == g(s[j])
    ensures Filter(s, f) == Filter(s, g)
  {
    if |s| > 0 {
      FilterSame(s[1..], f, g);
    }
  }

  /** `s.find(f)` as a position: the index of the first element satisfying `f`, if any. */
  function FindFirst<T>(s: seq<T>, f: T -> bool): (r: Option<nat>)
    ensures r.Some? ==> r.value < |s| && f(s[r.value])
    ensures r.Some? ==> forall j :: 0 <= j < r.value ==> !f(s[j])
    ensures r.None? <==> forall j :: 0 <= j < |s| ==> !f(s[j])
  {
    if |s| == 0 then None
    else if f(s[0]) then Some(0)
    else
      match FindFirst(s[1..], f)
      case None => None
      case Some(i) => Some(i + 1)
  }

  /** `s.map(g)`. */
  function Map<A, B>(s: seq<A>, g: A -> B): (r: seq<B>)
    ensures |r| == |s|
    ensures forall i :: 0 <= i < |s| ==> r[i] == g(s[i])
  {
    if |s| == 0 then [] else [g(s[0])] + Map(s[1..], g)
  }

  /** The multiplicity of `y` after putting `x` in front. */
  lemma CountCons<T>(x: T, s: seq<T>, y: T)
    ensures multiset([x] + s)[y] == (if x == y then 1 else 0) + multiset(s)[y]
  {
    assert multiset([x] + s) == multiset{x} + multiset(s);
  }

  /** A map with a left inverse `h` keeps each element's multiplicity. */
  lemma {:induction false} MapCount<A, B>(s: seq<A>, g: A -> B, h: B -> A, a: A)
    requires forall a' :: h(g(a')) == a'
    ensures multiset(Map(s, g))[g(a)] == multiset(s)[a]
  {
    if |s| > 0 {
      MapCount(s[1..], g, h, a);
      CountCons(g(s[0]), Map(s[1..], g), g(a));
      CountCons(s[0], s[1..], a);
      assert s == [s[0]] + s[1..];
      if g(s[0]) == g(a) {
        assert h(g(s[0])) == h(g(a));
      }
    }
  }
}
