/** JavaScript array slicing and the `options.limit || 25` default. */
module Lists {
  import opened Wrappers

  function Min(a: int, b: int): int { if a <= b then a else b }
  function Max(a: int, b: int): int { if a >= b then a else b }

  /**
   * `s.slice(start, end)` for non-negative bounds: both are clamped to the
   * length, and the result is empty when start >= end.
   */
  function JsSlice<T>(s: seq<T>, start: nat, end: nat): (r: seq<T>)
    ensures |r| == Max(0, Min(end, |s|) - Min(start, |s|))
    ensures forall i :: 0 <= i < |r| ==> start + i < |s| && r[i] == s[start + i]
  {
    var a := Min(start, |s|);
    var b := Min(end, |s|);
    if a >= b then [] else s[a..b]
  }

  /** The length of `s.slice(0, limit)` for an array of length n. */
  function TakeCount(n: nat, limit: int): (c: nat)
    ensures c <= n
    ensures limit >= 0 ==> c == Min(limit, n)
  {
    if limit >= 0 then Min(limit, n) else Max(n + limit, 0)
  }

  /** `s.slice(0, limit)`: a negative limit drops that many elements from the end. */
  function JsTake<T>(s: seq<T>, limit: int): (r: seq<T>)
    ensures |r| == TakeCount(|s|, limit)
    ensures r == s[..|r|]
  {
    s[..TakeCount(|s|, limit)]
  }

  /**
   * `x || d` on a number (or on `parseInt(x) || d`): an absent, unparsable or
   * zero value gives the default.
   */
  function NumberOr(x: Option<int>, d: int): (r: int)
    ensures x.None? ==> r == d
    ensures x.Some? ==> r == (if x.value == 0 then d else x.value)
    ensures r == 0 ==> d == 0
  {
    if x.None? || x.value == 0 then d else x.value
  }

  const DefaultLimit := 25

  /** `options.limit || 25`: an absent or zero limit means 25. */
  function EffectiveLimit(limit: Option<int>): (l: int)
    ensures l != 0
    ensures limit.None? ==> l == DefaultLimit
    ensures limit == Some(0) ==> l == DefaultLimit
    ensures limit.Some? && limit.value != 0 ==> l == limit.value
  {
    NumberOr(limit, DefaultLimit)
  }

  /** A taken prefix holds no element the whole sequence lacks. */
  lemma TakeSubMultiset<T>(s: seq<T>, limit: int)
    ensures multiset(JsTake(s, limit)) <= multiset(s)
  {
    var r := JsTake(s, limit);
    assert s == r + s[|r|..];
    assert multiset(s) == multiset(r) + multiset(s[|r|..]);
  }
}
