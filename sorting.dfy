/**
 * Comparison sorting as Python's list.sort() and JavaScript's Array.prototype.sort
 * with a consistent comparator perform it: the result is ordered by the
 * comparison and is a permutation of the input, and it is stable: elements
 * the comparison ranks equal keep their input order.
 */
module Sorting {
  import opened Seqs
  ghost predicate TotalPreorder<T(!new)>(le: (T, T) -> bool) {
    (forall a, b :: le(a, b) || le(b, a))
    && (forall a, b, c :: le(a, b) && le(b, c) ==> le(a, c))
  }

  predicate SortedBy<T>(s: seq<T>, le: (T, T) -> bool) {
    forall i, j :: 0 <= i < j < |s| ==> le(s[i], s[j])
  }

  /** Inserts x in front of the first element it is not after. */
  function InsertBy<T(==,!new)>(x: T, s: seq<T>, le: (T, T) -> bool): (r: seq<T>)
    requires TotalPreorder(le) && SortedBy(s, le)
    ensures SortedBy(r, le)
    ensures multiset(r) == multiset(s) + multiset{x}
  {
    if s == [] then [x]
    else if le(x, s[0]) then
      assert forall j :: 0 <= j < |s| ==> le(x, s[j]);
      [x] + s
    else
      assert le(s[0], x);
      assert SortedBy(s[1..], le);
      var rest := InsertBy(x, s[1..], le);
      assert s == [s[0]] + s[1..];
      HeadBeforeAll(s[0], rest, s[1..], x, le);
      ConsSorted(s[0], rest, le);
      [s[0]] + rest
  }

  /** Everything of s1 and x comes after h, so everything of a permutation of them does. */
  lemma HeadBeforeAll<T>(h: T, rest: seq<T>, s1: seq<T>, x: T, le: (T, T) -> bool)
    requires multiset(rest) == multiset(s1) + multiset{x}
    requires le(h, x) && forall j :: 0 <= j < |s1| ==> le(h, s1[j])
    ensures forall j :: 0 <= j < |rest| ==> le(h, rest[j])
  {
    forall j | 0 <= j < |rest| ensures le(h, rest[j]) {
      assert rest[j] in multiset(rest);
      if rest[j] != x {
        assert rest[j] in multiset(s1);
        var k :| 0 <= k < |s1| && s1[k] == rest[j];
      }
    }
  }

  lemma ConsSorted<T>(h: T, s: seq<T>, le: (T, T) -> bool)
    requires SortedBy(s, le) && forall j :: 0 <= j < |s| ==> le(h, s[j])
    ensures SortedBy([h] + s, le)
  {
  }

  /** Insertion sort: an ordered permutation of s. */
  function SortBy<T(==,!new)>(s: seq<T>, le: (T, T) -> bool): (r: seq<T>)
    requires TotalPreorder(le)
    ensures SortedBy(r, le)
    ensures multiset(r) == multiset(s)
  {
    if s == [] then []
    else
      assert s == [s[0]] + s[1..];
      InsertBy(s[0], SortBy(s[1..], le), le)
  }

  /** The elements the comparison ranks equal to k. */
  function SameKey<T>(le: (T, T) -> bool, k: T): T -> bool {
    (y: T) => le(y, k) && le(k, y)
  }

  /** Filtering a sequence with one more element in front. */
  lemma FilterCons<T>(h: T, t: seq<T>, p: T -> bool)
    ensures Filter([h] + t, p) == (if p(h) then [h] + Filter(t, p) else Filter(t, p))
  {
    assert ([h] + t)[0] == h && ([h] + t)[1..] == t;
  }

  /** x goes in front of every element ranked equal to it, and the others keep their order. */
  lemma {:induction false} InsertByStable<T(!new)>(x: T, s: seq<T>, le: (T, T) -> bool, k: T)
    requires TotalPreorder(le) && SortedBy(s, le)
    ensures Filter(InsertBy(x, s, le), SameKey(le, k))
         == if SameKey(le, k)(x) then [x] + Filter(s, SameKey(le, k)) else Filter(s, SameKey(le, k))
  {
    var e := SameKey(le, k);
    if s == [] {
      FilterCons(x, [], e);
    } else if le(x, s[0]) {
      FilterCons(x, s, e);
    } else {
      assert SortedBy(s[1..], le);
      var rest := InsertBy(x, s[1..], le);
      assert InsertBy(x, s, le) == [s[0]] + rest;
      InsertByStable(x, s[1..], le, k);
      FilterCons(s[0], rest, e);
      assert Filter(s, e) == if e(s[0]) then [s[0]] + Filter(s[1..], e) else Filter(s[1..], e);
      assert e(x) ==> !e(s[0]);
    }
  }

  /** SortBy is stable: the elements ranked equal to any k appear in their input order. */
  lemma {:induction false} SortByStable<T(!new)>(s: seq<T>, le: (T, T) -> bool, k: T)
    requires TotalPreorder(le)
    ensures Filter(SortBy(s, le), SameKey(le, k)) == Filter(s, SameKey(le, k))
  {
    if s != [] {
      SortByStable(s[1..], le, k);
      InsertByStable(s[0], SortBy(s[1..], le), le, k);
      assert SortBy(s, le) == InsertBy(s[0], SortBy(s[1..], le), le);
    }
  }

  /** Two elements already in order stay as they are. */
  lemma SortTwo<T(!new)>(a: T, b: T, le: (T, T) -> bool)
    requires TotalPreorder(le) && le(a, b)
    ensures SortBy([a, b], le) == [a, b]
  {
    assert [a, b][1..] == [b];
    assert SortBy([b], le) == [b] by {
      assert [b][1..] == [];
    }
  }

  /** SortByStable for every key at once. */
  lemma SortByStableAll<T(!new)>(s: seq<T>, le: (T, T) -> bool)
    requires TotalPreorder(le)
    ensures forall k :: Filter(SortBy(s, le), SameKey(le, k)) == Filter(s, SameKey(le, k))
  {
    forall k ensures Filter(SortBy(s, le), SameKey(le, k)) == Filter(s, SameKey(le, k)) {
      SortByStable(s, le, k);
    }
  }

  lemma SortByLength<T(!new)>(s: seq<T>, le: (T, T) -> bool)
    requires TotalPreorder(le)
    ensures |SortBy(s, le)| == |s|
  {
    assert |multiset(SortBy(s, le))| == |multiset(s)|;
  }
}
