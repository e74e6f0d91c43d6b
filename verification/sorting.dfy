/**
 * Stable sorting by a numeric key: the model of `Array.prototype.sort` with a comparator of
 * the form `(a, b) => key(a) - key(b)`. The sort is an insertion sort on sequences; the
 * lemmas show it is ordered, a permutation, stable, and the only ordering with those properties.
 */
module Sorting {
  import opened Seqs

  /** Keys never decrease along `s`. */
  predicate SortedBy<T>(s: seq<T>, key: T -> real)
  {
    forall i, j :: 0 <= i < j < |s| ==> key(s[i]) <= key(s[j])
  }

  /** An element no larger than every element of a sorted sequence can go in front of it. */
  lemma PrependSorted<T>(a: T, s: seq<T>, key: T -> real)
    requires SortedBy(s, key)
    requires forall y :: y in s ==> key(a) <= key(y)
    ensures SortedBy([a] + s, key)
  {
    var r := [a] + s;
    forall i, j | 0 <= i < j < |r| ensures key(r[i]) <= key(r[j]) {
      assert r[j] == s[j - 1];
      if i > 0 {
        assert r[i] == s[i - 1];
      }
    }
  }

  /** Puts `x` before the first element whose key is not smaller, so `x` precedes its ties. */
  function Insert<T>(x: T, s: seq<T>, key: T -> real): (r: seq<T>)
    requires SortedBy(s, key)
    ensures SortedBy(r, key)
    ensures multiset(r) == multiset(s) + multiset{x}
    ensures forall y :: y in r ==> y == x || y in s
  {
    if |s| == 0 then [x]
    else if key(x) <= key(s[0]) then
      PrependSorted(x, s, key);
      [x] + s
    else
      var rest := Insert(x, s[1..], key);
      assert s == [s[0]] + s[1..];
      PrependSorted(s[0], rest, key);
      [s[0]] + rest
  }

  /** Insertion sort: ordered by `key` and a permutation of `s`. */
  function Sort<T>(s: seq<T>, key: T -> real): (r: seq<T>)
    ensures SortedBy(r, key)
    ensures multiset(r) == multiset(s)
  {
    if |s| == 0 then []
    else
      assert s == [s[0]] + s[1..];
      Insert(s[0], Sort(s[1..], key), key)
  }

  /** The elements of `s` whose key is `v`, in order: what a stable sort must not reorder. */
  function Tied<T>(s: seq<T>, key: T -> real, v: real): seq<T>
  {
    if |s| == 0 then []
    else (if key(s[0]) == v then [s[0]] else []) + Tied(s[1..], key, v)
  }

  /** The tie group of `v` holds exactly the elements whose key is `v`. */
  lemma {:induction false} TiedMembers<T>(s: seq<T>, key: T -> real, v: real)
    ensures forall y :: y in Tied(s, key, v) ==> y in s && key(y) == v
    ensures forall y :: y in s && key(y) == v ==> y in Tied(s, key, v)
  {
    if |s| > 0 {
      TiedMembers(s[1..], key, v);
      assert s == [s[0]] + s[1..];
    }
  }

  /** The tie group of `v` holds `y` as often as `s` does when `y` has key `v`, and never otherwise. */
  lemma {:induction false} TiedCount<T>(s: seq<T>, key: T -> real, v: real, y: T)
    ensures multiset(Tied(s, key, v))[y] == if key(y) == v then multiset(s)[y] else 0
  {
    if |s| > 0 {
      TiedCount(s[1..], key, v, y);
      assert s == [s[0]] + s[1..];
    }
  }

  /** Sequences that hold every value equally often are permutations of each other. */
  lemma SameCounts<T>(a: seq<T>, b: seq<T>)
    requires forall y :: multiset(a)[y] == multiset(b)[y]
    ensures multiset(a) == multiset(b)
  {
  }

  /** Permuting a sequence permutes each of its tie groups. */
  lemma PermutedTies<T>(s: seq<T>, t: seq<T>, key: T -> real, v: real)
    requires multiset(t) == multiset(s)
    ensures multiset(Tied(t, key, v)) == multiset(Tied(s, key, v))
  {
    forall y ensures multiset(Tied(t, key, v))[y] == multiset(Tied(s, key, v))[y] {
      TiedCount(t, key, v, y);
      TiedCount(s, key, v, y);
    }
    SameCounts(Tied(t, key, v), Tied(s, key, v));
  }

  /** Sequences with the same tie groups are permutations of each other. */
  lemma SameTiesPermuted<T>(a: seq<T>, b: seq<T>, key: T -> real)
    requires forall v :: Tied(a, key, v) == Tied(b, key, v)
    ensures multiset(a) == multiset(b)
  {
    forall y ensures multiset(a)[y] == multiset(b)[y] {
      TiedCount(a, key, key(y), y);
      TiedCount(b, key, key(y), y);
    }
  }

  lemma TiedCons<T>(y: T, s: seq<T>, key: T -> real, v: real)
    ensures Tied([y] + s, key, v) == (if key(y) == v then [y] else []) + Tied(s, key, v)
  {
    assert ([y] + s)[1..] == s;
  }

  /** Inserting `x` adds it to its own tie group ahead of the elements already there. */
  lemma {:induction false} InsertTied<T>(x: T, s: seq<T>, key: T -> real, v: real)
    requires SortedBy(s, key)
    ensures Tied(Insert(x, s, key), key, v) == (if key(x) == v then [x] else []) + Tied(s, key, v)
  {
    if |s| == 0 {
      TiedCons(x, s, key, v);
    } else if key(x) <= key(s[0]) {
      TiedCons(x, s, key, v);
    } else {
      var rest := Insert(x, s[1..], key);
      assert Insert(x, s, key) == [s[0]] + rest;
      InsertTied(x, s[1..], key, v);
      TiedCons(s[0], rest, key, v);
      TiedCons(s[0], s[1..], key, v);
      assert s == [s[0]] + s[1..];
      var p0 := if key(s[0]) == v then [s[0]] else [];
      var px := if key(x) == v then [x] else [];
      assert p0 == [] || px == [];
      assert p0 + (px + Tied(s[1..], key, v)) == px + (p0 + Tied(s[1..], key, v));
    }
  }

  /** `Sort` is stable: within every group of equal keys the input order survives. */
  lemma {:induction false} SortIsStable<T>(s: seq<T>, key: T -> real, v: real)
    ensures Tied(Sort(s, key), key, v) == Tied(s, key, v)
  {
    if |s| > 0 {
      SortIsStable(s[1..], key, v);
      InsertTied(s[0], Sort(s[1..], key), key, v);
    }
  }

  /** Two sequences that agree on every tie group and on their first element agree on the rest's tie groups. */
  lemma TiedTails<T>(a: seq<T>, b: seq<T>, key: T -> real)
    requires |a| > 0 && |b| > 0 && a[0] == b[0]
    requires forall v :: Tied(a, key, v) == Tied(b, key, v)
    ensures forall v :: Tied(a[1..], key, v) == Tied(b[1..], key, v)
  {
    forall v ensures Tied(a[1..], key, v) == Tied(b[1..], key, v) {
      var p := if key(a[0]) == v then [a[0]] else [];
      assert Tied(a, key, v) == p + Tied(a[1..], key, v);
      assert Tied(b, key, v) == p + Tied(b[1..], key, v);
      assert Tied(a, key, v)[|p|..] == Tied(a[1..], key, v);
      assert Tied(b, key, v)[|p|..] == Tied(b[1..], key, v);
    }
  }

  /** The first element of a sequence heads its own tie group. */
  lemma HeadOfTie<T>(s: seq<T>, key: T -> real)
    requires |s| > 0
    ensures |Tied(s, key, key(s[0]))| > 0 && Tied(s, key, key(s[0]))[0] == s[0]
  {
  }

  /** In a sorted sequence no element has a smaller key than the first. */
  lemma HeadIsLeast<T>(s: seq<T>, key: T -> real, y: T)
    requires SortedBy(s, key) && y in s
    ensures key(s[0]) <= key(y)
  {
    var j :| 0 <= j < |s| && s[j] == y;
    if j > 0 {
      assert key(s[0]) <= key(s[j]);
    }
  }

  /** In two sorted sequences with the same tie groups, the first elements coincide. */
  lemma SameHead<T>(a: seq<T>, b: seq<T>, key: T -> real)
    requires SortedBy(a, key) && SortedBy(b, key) && |a| > 0 && |b| > 0
    requires forall v :: Tied(a, key, v) == Tied(b, key, v)
    ensures a[0] == b[0]
  {
    var m, n := key(a[0]), key(b[0]);
    HeadOfTie(a, key);
    HeadOfTie(b, key);
    TiedMembers(b, key, m);
    assert a[0] in Tied(b, key, m);
    HeadIsLeast(b, key, a[0]);
    TiedMembers(a, key, n);
    assert b[0] in Tied(a, key, n);
    HeadIsLeast(a, key, b[0]);
  }

  /**
   * Sortedness and stability fix the order completely: two sorted sequences whose every tie group
   * agrees are equal. So any stable sort, the browser's included, yields the output of `Sort`.
   */
  lemma {:induction false} StableOrderIsUnique<T>(a: seq<T>, b: seq<T>, key: T -> real)
    requires SortedBy(a, key) && SortedBy(b, key)
    requires forall v :: Tied(a, key, v) == Tied(b, key, v)
    ensures a == b
    decreases |a|
  {
    SameTiesPermuted(a, b, key);
    assert |a| == |multiset(a)| == |multiset(b)| == |b|;
    if |a| > 0 {
      SameHead(a, b, key);
      TiedTails(a, b, key);
      StableOrderIsUnique(a[1..], b[1..], key);
      assert a == [a[0]] + a[1..];
      assert b == [b[0]] + b[1..];
    }
  }

  /** Any sorted arrangement of `s` that keeps every tie group in input order is `Sort(s, key)`. */
  lemma SortIsTheStableSort<T>(s: seq<T>, t: seq<T>, key: T -> real)
    requires SortedBy(t, key)
    requires forall v :: Tied(t, key, v) == Tied(s, key, v)
    ensures t == Sort(s, key)
  {
    forall v ensures Tied(t, key, v) == Tied(Sort(s, key), key, v) {
      SortIsStable(s, key, v);
    }
    StableOrderIsUnique(t, Sort(s, key), key);
  }

  /** Dropping elements keeps a sequence sorted. */
  lemma {:induction false} FilterSorted<T(!new)>(s: seq<T>, key: T -> real, f: T -> bool)
    requires SortedBy(s, key)
    ensures SortedBy(Filter(s, f), key)
  {
    if |s| > 0 {
      assert SortedBy(s[1..], key);
      FilterSorted(s[1..], key, f);
      if f(s[0]) {
        forall y | y in Filter(s[1..], f) ensures key(s[0]) <= key(y) {
          var j :| 0 <= j < |s[1..]| && s[1..][j] == y;
          assert s[j + 1] == y;
        }
        PrependSorted(s[0], Filter(s[1..], f), key);
      }
    }
  }

  /** A filter acts on each tie group in place: the tie group of the filtered sequence is the filtered tie group. */
  lemma {:induction false} TiedFilter<T(!new)>(s: seq<T>, key: T -> real, f: T -> bool, v: real)
    ensures Tied(Filter(s, f), key, v) == Filter(Tied(s, key, v), f)
  {
    if |s| > 0 {
      var x, rest := s[0], s[1..];
      TiedFilter(rest, key, f, v);
      if f(x) {
        TiedCons(x, Filter(rest, f), key, v);
      }
      if key(x) == v {
        FilterCons(x, Tied(rest, key, v), f);
      } else {
        assert [] + Tied(rest, key, v) == Tied(rest, key, v);
      }
    }
  }

  /** Filtering a stably sorted sequence gives the stable sort of the filtered input. */
  lemma SortCommutesWithFilter<T(!new)>(s: seq<T>, key: T -> real, f: T -> bool)
    ensures Filter(Sort(s, key), f) == Sort(Filter(s, f), key)
  {
    var t := Filter(Sort(s, key), f);
    FilterSorted(Sort(s, key), key, f);
    forall v ensures Tied(t, key, v) == Tied(Filter(s, f), key, v) {
      TiedFilter(Sort(s, key), key, f, v);
      SortIsStable(s, key, v);
      TiedFilter(s, key, f, v);
    }
    SortIsTheStableSort(Filter(s, f), t, key);
  }

  function Reverse<T>(s: seq<T>): (r: seq<T>)
    ensures |r| == |s|
    ensures forall i :: 0 <= i < |s| ==> r[i] == s[|s| - 1 - i]
  {
    if |s| == 0 then [] else Reverse(s[1..]) + [s[0]]
  }

  lemma {:induction false} ReverseMultiset<T>(s: seq<T>)
    ensures multiset(Reverse(s)) == multiset(s)
  {
    if |s| > 0 {
      ReverseMultiset(s[1..]);
      assert Reverse(s) == Reverse(s[1..]) + [s[0]];
      assert s == [s[0]] + s[1..];
    }
  }

  /** No two positions of `s` hold the same key. */
  predicate DistinctKeys<T>(s: seq<T>, key: T -> real)
  {
    forall i, j :: 0 <= i < j < |s| ==> key(s[i]) != key(s[j])
  }

  /** With distinct keys a tie group has at most one element. */
  lemma {:induction false} DistinctKeysTieAlone<T>(s: seq<T>, key: T -> real, v: real)
    requires DistinctKeys(s, key)
    ensures |Tied(s, key, v)| <= 1
  {
    if |s| > 0 {
      DistinctKeysTieAlone(s[1..], key, v);
      if key(s[0]) == v {
        TiedMembers(s[1..], key, v);
        if |Tied(s[1..], key, v)| > 0 {
          var y := Tied(s[1..], key, v)[0];
          assert y in Tied(s[1..], key, v);
          assert y in s[1..];
          var j :| 0 <= j < |s| - 1 && s[1..][j] == y;
        }
      }
    }
  }

  /** A sequence of length at most one is determined by its multiset. */
  lemma SingletonsByMultiset<T>(a: seq<T>, b: seq<T>)
    requires |b| <= 1
    requires multiset(a) == multiset(b)
    ensures a == b
  {
    assert |a| == |multiset(a)| == |multiset(b)| == |b|;
    if |a| == 1 {
      assert a[0] in multiset(a);
      assert multiset(b) == multiset{b[0]};
    }
  }

  /** Reversing a sequence sorted by `key` sorts it by the negated key. */
  lemma ReverseSortedByNegation<T>(up: seq<T>, key: T -> real, neg: T -> real)
    requires forall x :: neg(x) == -key(x)
    requires SortedBy(up, key)
    ensures SortedBy(Reverse(up), neg)
  {
    var t := Reverse(up);
    forall i, j | 0 <= i < j < |t| ensures neg(t[i]) <= neg(t[j]) {
      assert key(up[|up| - 1 - j]) <= key(up[|up| - 1 - i]);
    }
  }

  /** With distinct keys, two permutations of each other have the same tie groups. */
  lemma DistinctKeysSameTies<T>(s: seq<T>, t: seq<T>, key: T -> real, v: real)
    requires multiset(t) == multiset(s)
    requires DistinctKeys(s, key)
    ensures Tied(t, key, v) == Tied(s, key, v)
  {
    PermutedTies(s, t, key, v);
    DistinctKeysTieAlone(s, key, v);
    SingletonsByMultiset(Tied(t, key, v), Tied(s, key, v));
  }

  /**
   * Sorting by the negated key gives the reverse order, provided no two elements share a key
   * (with ties the stable sort keeps both orders' ties in input order, so the claim would fail).
   */
  lemma SortByNegatedKeyReverses<T>(s: seq<T>, key: T -> real, neg: T -> real)
    requires forall x :: neg(x) == -key(x)
    requires DistinctKeys(s, key)
    ensures Sort(s, neg) == Reverse(Sort(s, key))
  {
    var t := Reverse(Sort(s, key));
    ReverseSortedByNegation(Sort(s, key), key, neg);
    ReverseMultiset(Sort(s, key));
    assert DistinctKeys(s, neg);
    forall v ensures Tied(t, neg, v) == Tied(s, neg, v) {
      DistinctKeysSameTies(s, t, neg, v);
    }
    SortIsTheStableSort(s, t, neg);
  }
}
