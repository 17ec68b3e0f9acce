/**
 * `Array.prototype.sort` with a comparator. The built-in sort is stable; it is
 * modelled as a stable insertion sort over a sequence. A comparator returns a
 * negative number when its first argument goes first.
 */
module Sorting {

  /** The comparator is a consistent comparison: antisymmetric in sign and transitive. */
  ghost predicate Consistent<T(!new)>(cmp: (T, T) -> int) {
    && (forall a, b :: cmp(a, b) < 0 <==> cmp(b, a) > 0)
    && (forall a, b, c {:trigger cmp(a, b), cmp(b, c), cmp(a, c)} ::
          cmp(a, b) <= 0 && cmp(b, c) <= 0 ==> cmp(a, c) <= 0)
  }

  /** No element is placed after one that the comparator puts after it. */
  ghost predicate SortedBy<T>(s: seq<T>, cmp: (T, T) -> int) {
    forall i, j :: 0 <= i < j < |s| ==> cmp(s[i], s[j]) <= 0
  }

  /** Places x before the first element it does not follow. */
  function Insert<T>(x: T, s: seq<T>, cmp: (T, T) -> int): (r: seq<T>)
    ensures multiset(r) == multiset(s) + multiset{x}
  {
    if s == [] then [x]
    else if cmp(x, s[0]) <= 0 then [x] + s
    else
      assert s == [s[0]] + s[1..];
      [s[0]] + Insert(x, s[1..], cmp)
  }

  function SortBy<T>(s: seq<T>, cmp: (T, T) -> int): (r: seq<T>)
    ensures multiset(r) == multiset(s)
  {
    if s == [] then []
    else
      assert s == [s[0]] + s[1..];
      Insert(s[0], SortBy(s[1..], cmp), cmp)
  }

  lemma SortedTail<T>(s: seq<T>, cmp: (T, T) -> int)
    requires SortedBy(s, cmp) && s != []
    ensures SortedBy(s[1..], cmp)
  {
    forall i, j | 0 <= i < j < |s[1..]| ensures cmp(s[1..][i], s[1..][j]) <= 0 {
      assert s[1..][i] == s[i + 1] && s[1..][j] == s[j + 1];
    }
  }

  lemma InsertAtFront<T(!new)>(x: T, s: seq<T>, cmp: (T, T) -> int)
    requires Consistent(cmp) && SortedBy(s, cmp) && s != [] && cmp(x, s[0]) <= 0
    ensures SortedBy([x] + s, cmp)
  {
    var r := [x] + s;
    forall i, j | 0 <= i < j < |r| ensures cmp(r[i], r[j]) <= 0 {
      if i == 0 && j > 1 {
        assert cmp(s[0], s[j - 1]) <= 0;
        assert cmp(x, s[j - 1]) <= 0;
      } else if i > 0 {
        assert r[i] == s[i - 1] && r[j] == s[j - 1];
      }
    }
  }

  lemma InsertBehind<T(!new)>(x: T, s: seq<T>, t: seq<T>, cmp: (T, T) -> int)
    requires Consistent(cmp) && SortedBy(s, cmp) && s != [] && cmp(x, s[0]) > 0
    requires SortedBy(t, cmp) && multiset(t) == multiset(s[1..]) + multiset{x}
    ensures SortedBy([s[0]] + t, cmp)
  {
    assert cmp(s[0], x) < 0;
    forall j | 0 <= j < |t| ensures cmp(s[0], t[j]) <= 0 {
      assert t[j] in multiset(t);
      if t[j] != x {
        assert t[j] in multiset(s[1..]);
        var k :| 0 <= k < |s[1..]| && s[1..][k] == t[j];
        assert s[k + 1] == t[j];
      }
    }
    var r := [s[0]] + t;
    forall i, j | 0 <= i < j < |r| ensures cmp(r[i], r[j]) <= 0 {
      if i == 0 {
        assert r[j] == t[j - 1];
      } else {
        assert r[i] == t[i - 1] && r[j] == t[j - 1];
      }
    }
  }

  lemma {:induction false} InsertSorted<T(!new)>(x: T, s: seq<T>, cmp: (T, T) -> int)
    requires Consistent(cmp) && SortedBy(s, cmp)
    ensures SortedBy(Insert(x, s, cmp), cmp)
  {
    if s == [] {
    } else if cmp(x, s[0]) <= 0 {
      InsertAtFront(x, s, cmp);
    } else {
      SortedTail(s, cmp);
      InsertSorted(x, s[1..], cmp);
      InsertBehind(x, s, Insert(x, s[1..], cmp), cmp);
    }
  }

  /** With a consistent comparator the model of the built-in sort really sorts. */
  lemma {:induction false} SortBySorted<T(!new)>(s: seq<T>, cmp: (T, T) -> int)
    requires Consistent(cmp)
    ensures SortedBy(SortBy(s, cmp), cmp)
  {
    if s != [] {
      SortBySorted(s[1..], cmp);
      InsertSorted(s[0], SortBy(s[1..], cmp), cmp);
    }
  }

  lemma SortedPrefix<T>(s: seq<T>, n: nat, cmp: (T, T) -> int)
    requires SortedBy(s, cmp) && n <= |s|
    ensures SortedBy(s[..n], cmp)
  {
  }

  /** Inserting x never consults a pair other than x with an element of s. */
  lemma {:induction false} InsertAgrees<T>(x: T, s: seq<T>, c1: (T, T) -> int, c2: (T, T) -> int)
    requires forall y :: y in s ==> c1(x, y) == c2(x, y)
    ensures Insert(x, s, c1) == Insert(x, s, c2)
  {
    if s != [] {
      assert s[0] in s;
      forall y | y in s[1..] ensures c1(x, y) == c2(x, y) {
        assert y in s;
      }
      InsertAgrees(x, s[1..], c1, c2);
    }
  }

  /** Two comparators that agree on every pair of elements of a list sort it the same way. */
  lemma {:induction false} SortAgrees<T>(s: seq<T>, c1: (T, T) -> int, c2: (T, T) -> int)
    requires forall x, y :: x in s && y in s ==> c1(x, y) == c2(x, y)
    ensures SortBy(s, c1) == SortBy(s, c2)
  {
    if s != [] {
      forall x, y | x in s[1..] && y in s[1..] ensures c1(x, y) == c2(x, y) {
        assert x in s && y in s;
      }
      SortAgrees(s[1..], c1, c2);
      var t := SortBy(s[1..], c1);
      forall y | y in t ensures c1(s[0], y) == c2(s[0], y) {
        assert y in multiset(t);
        assert y in multiset(s[1..]);
        assert y in s[1..];
        assert s[0] in s && y in s;
      }
      InsertAgrees(s[0], t, c1, c2);
    }
  }

  /** The elements of s that the comparator ties with z, in their order in s. */
  function Ties<T>(s: seq<T>, cmp: (T, T) -> int, z: T): seq<T> {
    if s == [] then []
    else (if cmp(s[0], z) == 0 then [s[0]] else []) + Ties(s[1..], cmp, z)
  }

  lemma TiesCons<T>(x: T, s: seq<T>, cmp: (T, T) -> int, z: T)
    ensures Ties([x] + s, cmp, z) == (if cmp(x, z) == 0 then [x] else []) + Ties(s, cmp, z)
  {
    assert ([x] + s)[1..] == s;
  }

  /** Two elements tied with z are tied with each other. */
  lemma TiedTogether<T(!new)>(x: T, y: T, z: T, cmp: (T, T) -> int)
    requires Consistent(cmp)
    ensures cmp(x, z) == 0 && cmp(y, z) == 0 ==> cmp(x, y) == 0
  {
    assert cmp(x, z) <= 0 && cmp(z, y) <= 0 ==> cmp(x, y) <= 0;
    assert cmp(y, z) <= 0 && cmp(z, x) <= 0 ==> cmp(y, x) <= 0;
  }

  /** Inserting x changes the order of no two tied elements: x only passes elements it follows. */
  /** x may pass y without reordering the ties when x and y are not both tied with z. */
  lemma SwapTies<T>(x: T, y: T, u: seq<T>, t: seq<T>, cmp: (T, T) -> int, z: T)
    requires !(cmp(x, z) == 0 && cmp(y, z) == 0) && Ties(u, cmp, z) == Ties([x] + t, cmp, z)
    ensures Ties([y] + u, cmp, z) == Ties([x] + ([y] + t), cmp, z)
  {
    TiesCons(y, u, cmp, z);
    TiesCons(x, t, cmp, z);
    TiesCons(y, t, cmp, z);
    TiesCons(x, [y] + t, cmp, z);
    var rest := Ties(t, cmp, z);
    if cmp(y, z) == 0 {
      assert Ties([y] + u, cmp, z) == [y] + rest;
      assert Ties([x] + ([y] + t), cmp, z) == [y] + rest;
    } else {
      assert Ties([y] + u, cmp, z) == Ties([x] + t, cmp, z);
    }
  }

  /** An element that x follows is passed, and x goes into the rest. */
  lemma InsertPasses<T>(x: T, s: seq<T>, cmp: (T, T) -> int)
    requires s != [] && cmp(x, s[0]) > 0
    ensures Insert(x, s, cmp) == [s[0]] + Insert(x, s[1..], cmp)
    ensures s == [s[0]] + s[1..]
  {
  }

  lemma InsertTiesStep<T>(x: T, s: seq<T>, cmp: (T, T) -> int, z: T)
    requires s != [] && cmp(x, s[0]) > 0 && !(cmp(x, z) == 0 && cmp(s[0], z) == 0)
    requires Ties(Insert(x, s[1..], cmp), cmp, z) == Ties([x] + s[1..], cmp, z)
    ensures Ties(Insert(x, s, cmp), cmp, z) == Ties([x] + s, cmp, z)
  {
    InsertPasses(x, s, cmp);
    SwapTies(x, s[0], Insert(x, s[1..], cmp), s[1..], cmp, z);
  }

  lemma {:induction false} InsertTies<T(!new)>(x: T, s: seq<T>, cmp: (T, T) -> int, z: T)
    requires Consistent(cmp)
    ensures Ties(Insert(x, s, cmp), cmp, z) == Ties([x] + s, cmp, z)
  {
    if s != [] && cmp(x, s[0]) > 0 {
      InsertTies(x, s[1..], cmp, z);
      TiedTogether(x, s[0], z, cmp);
      InsertTiesStep(x, s, cmp, z);
    }
  }

  /**
   * The sort is stable: with a consistent comparator, the elements tied with
   * any z come out in the order they went in.
   */
  lemma {:induction false} SortStable<T(!new)>(s: seq<T>, cmp: (T, T) -> int, z: T)
    requires Consistent(cmp)
    ensures Ties(SortBy(s, cmp), cmp, z) == Ties(s, cmp, z)
  {
    if s != [] {
      var x, t := s[0], s[1..];
      var st := SortBy(t, cmp);
      assert s == [x] + t;
      SortCons(x, t, cmp);
      SortStable(t, cmp, z);
      InsertTies(x, st, cmp, z);
      TiesCons(x, st, cmp, z);
      TiesCons(x, t, cmp, z);
    }
  }

  lemma SortCons<T>(x: T, s: seq<T>, cmp: (T, T) -> int)
    ensures SortBy([x] + s, cmp) == Insert(x, SortBy(s, cmp), cmp)
  {
    assert ([x] + s)[1..] == s;
  }

  lemma SortOne<T>(c: T, cmp: (T, T) -> int)
    ensures SortBy([c], cmp) == [c]
  {
    SortCons(c, [], cmp);
    assert [c] + [] == [c];
  }

  lemma SortTwoKept<T>(b: T, c: T, cmp: (T, T) -> int)
    requires cmp(b, c) <= 0
    ensures SortBy([b, c], cmp) == [b, c]
  {
    SortOne(c, cmp);
    SortCons(b, [c], cmp);
    assert [b] + [c] == [b, c];
  }

  lemma SortTwoSwapped<T>(b: T, c: T, cmp: (T, T) -> int)
    requires cmp(b, c) > 0
    ensures SortBy([b, c], cmp) == [c, b]
  {
    SortOne(c, cmp);
    SortCons(b, [c], cmp);
    assert [b] + [c] == [b, c];
    assert Insert(b, [], cmp) == [b];
  }

  lemma SortThreeStep<T>(a: T, b: T, c: T, cmp: (T, T) -> int)
    ensures SortBy([a, b, c], cmp) == Insert(a, SortBy([b, c], cmp), cmp)
  {
    SortCons(a, [b, c], cmp);
    assert [a] + [b, c] == [a, b, c];
  }

  /** Three elements already in order stay as they are. */
  lemma SortThreeKept<T>(a: T, b: T, c: T, cmp: (T, T) -> int)
    requires cmp(a, b) <= 0 && cmp(b, c) <= 0
    ensures SortBy([a, b, c], cmp) == [a, b, c]
  {
    SortTwoKept(b, c, cmp);
    SortThreeStep(a, b, c, cmp);
    assert [b, c][0] == b;
    assert [a] + [b, c] == [a, b, c];
  }

  lemma InsertRotates<T>(a: T, b: T, c: T, cmp: (T, T) -> int)
    requires cmp(a, b) <= 0 && cmp(a, c) > 0
    ensures Insert(a, [c, b], cmp) == [c, a, b]
  {
    assert [c, b][0] == c && [c, b][1..] == [b];
    assert Insert(a, [b], cmp) == [a] + [b];
    assert [c] + ([a] + [b]) == [c, a, b];
  }

  /** When the last element goes before both others and the first two are in order, it moves to the front. */
  lemma SortThreeRotated<T>(a: T, b: T, c: T, cmp: (T, T) -> int)
    requires cmp(a, b) <= 0 && cmp(b, c) > 0 && cmp(a, c) > 0
    ensures SortBy([a, b, c], cmp) == [c, a, b]
  {
    SortTwoSwapped(b, c, cmp);
    SortThreeStep(a, b, c, cmp);
    InsertRotates(a, b, c, cmp);
  }
}
