/** Stable insertion sort by any total order on keys. */
module Sorting {

  ghost predicate Order<T(!new)>(le: (T, T) -> bool) {
    && (forall x, y :: le(x, y) || le(y, x))
    && (forall x, y, z :: le(x, y) && le(y, z) ==> le(x, z))
  }

  ghost predicate SortedBy<T>(s: seq<T>, le: (T, T) -> bool) {
    forall i, j :: 0 <= i < j < |s| ==> le(s[i], s[j])
  }

  /** `x` goes after every entry that is not larger: equal entries keep their order. */
  function InsertBy<T>(s: seq<T>, x: T, le: (T, T) -> bool): seq<T> {
    if s == [] || !le(s[0], x) then [x] + s else [s[0]] + InsertBy(s[1..], x, le)
  }

  /** `sorted(s, key)`. */
  function SortBy<T>(s: seq<T>, le: (T, T) -> bool): seq<T> {
    if s == [] then [] else InsertBy(SortBy(s[..|s| - 1], le), s[|s| - 1], le)
  }

  lemma {:induction false} InsertKeeps<T>(s: seq<T>, x: T, le: (T, T) -> bool)
    ensures multiset(InsertBy(s, x, le)) == multiset(s) + multiset{x}
  {
    if s != [] && le(s[0], x) {
      InsertKeeps(s[1..], x, le);
      assert s == [s[0]] + s[1..];
    }
  }

  lemma {:induction false} InsertSorts<T(!new)>(s: seq<T>, x: T, le: (T, T) -> bool)
    requires Order(le) && SortedBy(s, le)
    ensures SortedBy(InsertBy(s, x, le), le)
  {
    if s != [] {
      if le(s[0], x) {
        InsertSorts(s[1..], x, le);
        InsertKeeps(s[1..], x, le);
        var rest := InsertBy(s[1..], x, le);
        forall i | 0 <= i < |rest| ensures le(s[0], rest[i]) {
          assert rest[i] in multiset(rest);
          assert rest[i] in multiset(s[1..]) || rest[i] == x;
        }
        Prepend(s[0], rest, le);
      } else {
        forall i | 0 <= i < |s| ensures le(x, s[i]) {
          assert le(x, s[0]);
        }
        Prepend(x, s, le);
      }
    }
  }

  lemma Prepend<T>(x: T, s: seq<T>, le: (T, T) -> bool)
    requires SortedBy(s, le) && forall i :: 0 <= i < |s| ==> le(x, s[i])
    ensures SortedBy([x] + s, le)
  {
  }

  /** The result is in order and holds exactly what was given. */
  lemma {:induction false} SortIsSorted<T(!new)>(s: seq<T>, le: (T, T) -> bool)
    requires Order(le)
    ensures SortedBy(SortBy(s, le), le) && multiset(SortBy(s, le)) == multiset(s) && |SortBy(s, le)| == |s|
  {
    hide SortedBy, InsertBy, Order;
    if s == [] {
      Nothing(le);
    } else {
      var k := |s| - 1;
      SortIsSorted(s[..k], le);
      InsertSorts(SortBy(s[..k], le), s[k], le);
      InsertKeeps(SortBy(s[..k], le), s[k], le);
      assert s == s[..k] + [s[k]];
      assert |SortBy(s, le)| == |multiset(SortBy(s, le))|;
      assert |s| == |multiset(s)|;
    }
  }

  /** In order, and entries that tie are in the order `before`. */
  ghost predicate StableBy<T>(s: seq<T>, le: (T, T) -> bool, before: (T, T) -> bool) {
    forall i, j :: 0 <= i < j < |s| ==> le(s[i], s[j]) && (le(s[j], s[i]) ==> before(s[i], s[j]))
  }

  lemma StablePrepend<T>(x: T, s: seq<T>, le: (T, T) -> bool, before: (T, T) -> bool)
    requires StableBy(s, le, before) && forall i :: 0 <= i < |s| ==> le(x, s[i]) && (le(s[i], x) ==> before(x, s[i]))
    ensures StableBy([x] + s, le, before)
  {
  }

  lemma {:induction false} InsertStable<T(!new)>(s: seq<T>, x: T, le: (T, T) -> bool, before: (T, T) -> bool)
    requires Order(le) && StableBy(s, le, before) && forall i :: 0 <= i < |s| ==> before(s[i], x)
    ensures StableBy(InsertBy(s, x, le), le, before)
  {
    if s != [] {
      if le(s[0], x) {
        InsertStable(s[1..], x, le, before);
        InsertKeeps(s[1..], x, le);
        var rest := InsertBy(s[1..], x, le);
        forall i | 0 <= i < |rest| ensures le(s[0], rest[i]) && (le(rest[i], s[0]) ==> before(s[0], rest[i])) {
          assert rest[i] in multiset(rest);
          assert rest[i] in multiset(s[1..]) || rest[i] == x;
        }
        StablePrepend(s[0], rest, le, before);
      } else {
        forall i | 0 <= i < |s| ensures le(x, s[i]) && !le(s[i], x) {
          assert i > 0 ==> le(s[0], s[i]);
        }
        StablePrepend(x, s, le, before);
      }
    }
  }

  /** Whatever order the list came in, entries that tie keep it. */
  lemma {:induction false} SortIsStable<T(!new)>(s: seq<T>, le: (T, T) -> bool, before: (T, T) -> bool)
    requires Order(le) && forall i, j :: 0 <= i < j < |s| ==> before(s[i], s[j])
    ensures StableBy(SortBy(s, le), le, before)
  {
    hide Order, InsertBy;
    if s != [] {
      var k := |s| - 1;
      SortIsStable(s[..k], le, before);
      var t := SortBy(s[..k], le);
      SortIsSorted(s[..k], le);
      forall i | 0 <= i < |t| ensures before(t[i], s[k]) {
        assert t[i] in multiset(t);
        assert t[i] in multiset(s[..k]);
      }
      InsertStable(t, s[k], le, before);
    }
  }

  lemma Nothing<T>(le: (T, T) -> bool)
    ensures SortedBy<T>([], le)
  {
  }

  ghost predicate Distinct<T>(s: seq<T>) {
    forall i, j :: 0 <= i < j < |s| ==> s[i] != s[j]
  }

  lemma {:induction false} DistinctOnce<T>(s: seq<T>, x: T)
    requires Distinct(s)
    ensures multiset(s)[x] <= 1
  {
    if s != [] {
      var k := |s| - 1;
      DistinctOnce(s[..k], x);
      assert s == s[..k] + [s[k]];
      if s[k] == x { assert x !in s[..k]; }
    }
  }

  lemma Twice<T>(s: seq<T>, i: nat, j: nat)
    requires i < j < |s| && s[i] == s[j]
    ensures multiset(s)[s[i]] >= 2
  {
    assert s == s[..j] + [s[j]] + s[j + 1..];
    assert s[i] == s[..j][i];
    assert s[i] in multiset(s[..j]);
  }

  /** Sorting repeats nothing that was not repeated. */
  lemma SortKeepsDistinct<T(!new)>(s: seq<T>, le: (T, T) -> bool)
    requires Order(le) && Distinct(s)
    ensures Distinct(SortBy(s, le))
  {
    hide SortBy, Order;
    SortIsSorted(s, le);
    var t := SortBy(s, le);
    forall i, j | 0 <= i < j < |t| ensures t[i] != t[j] {
      DistinctOnce(s, t[i]);
      if t[i] == t[j] { Twice(t, i, j); }
    }
  }

  /** `sorted` of a set: everything in it, once, in order. */
  method SortSet<T(!new, ==)>(items: set<T>, le: (T, T) -> bool) returns (r: seq<T>)
    requires Order(le)
    ensures SortedBy(r, le) && Distinct(r) && |r| == |items|
    ensures forall x :: x in r <==> x in items
  {
    hide Order, SortBy, SortedBy;
    var list: seq<T>, rest := [], items;
    while rest != {}
      invariant rest <= items && Distinct(list) && |list| + |rest| == |items|
      invariant forall x :: x in list <==> x in items && x !in rest
      decreases |rest|
    {
      var n :| n in rest;
      list := list + [n];
      rest := rest - {n};
    }
    SortIsSorted(list, le);
    SortKeepsDistinct(list, le);
    r := SortBy(list, le);
    forall x ensures x in r <==> x in items {
      assert x in multiset(r) <==> x in multiset(list);
    }
  }
}
