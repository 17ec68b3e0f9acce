/**
 * Range assignment used by the coordinator (backend/coordinator.js,
 * `redistributeData`) and by the worker pool (distributed-search-manager.js,
 * `initialize`): with chunk = ceil(n / k), member i of k gets the half-open
 * range [i * chunk, min(i * chunk + chunk, n)). When n is small relative to k a
 * late member can get start > end (n = 5, k = 4 gives member 3 the range 6..5).
 */
module Partition {
  import opened Lists

  datatype Range = Range(start: nat, end: nat)

  predicate InRange(x: int, r: Range) {
    r.start <= x < r.end
  }

  /** `Math.ceil(n / k)` */
  function CeilDiv(n: nat, k: nat): (c: nat)
    requires k > 0
    ensures c * k >= n
    ensures n > 0 ==> (c - 1) * k < n && c > 0
  {
    var c := (n + k - 1) / k;
    assert (n + k - 1) == c * k + (n + k - 1) % k;
    c
  }

  function AssignedRange(n: nat, k: nat, i: nat): Range
    requires k > 0
  {
    var chunk := CeilDiv(n, k);
    Range(i * chunk, Min(i * chunk + chunk, n))
  }

  /** The whole range table for k members, in member order. */
  function Partition(n: nat, k: nat): (rs: seq<Range>)
    requires k > 0
    ensures |rs| == k
    ensures forall i :: 0 <= i < k ==> rs[i] == AssignedRange(n, k, i)
  {
    seq(k, i requires 0 <= i < k => AssignedRange(n, k, i))
  }

  lemma MulMonotone(a: nat, b: nat, c: nat)
    requires a <= b
    ensures a * c <= b * c
  {
  }

  /** Every range ends inside the data; a range that starts inside it is non-empty and at most one chunk long. */
  lemma RangeBounds(n: nat, k: nat, i: nat)
    requires k > 0
    ensures AssignedRange(n, k, i).end <= n
    ensures AssignedRange(n, k, i).start < n ==>
              AssignedRange(n, k, i).start < AssignedRange(n, k, i).end
              && AssignedRange(n, k, i).end - AssignedRange(n, k, i).start <= CeilDiv(n, k)
  {
  }

  /** A range that starts inside the data starts where its predecessor ends. */
  lemma Contiguous(n: nat, k: nat, i: nat)
    requires k > 0 && i + 1 < k
    requires AssignedRange(n, k, i + 1).start < n
    ensures AssignedRange(n, k, i + 1).start == AssignedRange(n, k, i).end
  {
    var chunk := CeilDiv(n, k);
    assert (i + 1) * chunk == i * chunk + chunk;
  }

  /** Ranges of different members never overlap: an earlier range ends before a later one starts. */
  lemma Disjoint(n: nat, k: nat, i: nat, j: nat)
    requires k > 0 && i < j
    ensures AssignedRange(n, k, i).end <= AssignedRange(n, k, j).start
  {
    var chunk := CeilDiv(n, k);
    assert (i + 1) * chunk == i * chunk + chunk;
    MulMonotone(i + 1, j, chunk);
  }

  /** Every index of the data belongs to the range of some member. */
  lemma Covers(n: nat, k: nat, x: int)
    requires k > 0 && 0 <= x < n
    ensures exists i :: 0 <= i < k && InRange(x, AssignedRange(n, k, i))
  {
    var chunk := CeilDiv(n, k);
    var i := x / chunk;
    assert x == i * chunk + x % chunk;
    if i >= k {
      MulMonotone(k, i, chunk);
      assert false;
    }
    assert (i + 1) * chunk == i * chunk + chunk;
    assert InRange(x, AssignedRange(n, k, i));
  }

  /** Each index of the data belongs to exactly one member's range. */
  lemma UniqueOwner(n: nat, k: nat, x: int, i: nat, j: nat)
    requires k > 0 && i < k && j < k
    requires InRange(x, AssignedRange(n, k, i)) && InRange(x, AssignedRange(n, k, j))
    ensures i == j
  {
    if i < j {
      Disjoint(n, k, i, j);
    } else if j < i {
      Disjoint(n, k, j, i);
    }
  }

  /** Once a range starts at or beyond the data, so do all later ones. */
  lemma StartsMonotone(n: nat, k: nat, i: nat, j: nat)
    requires k > 0 && i <= j
    ensures AssignedRange(n, k, i).start <= AssignedRange(n, k, j).start
  {
    MulMonotone(i, j, CeilDiv(n, k));
  }

  lemma ExampleThreeNodes()
    ensures Partition(100, 3) == [Range(0, 34), Range(34, 68), Range(68, 100)]
  {
    assert CeilDiv(100, 3) == 34;
  }

  /** Five items over four members: the last member's range starts after it ends. */
  lemma ExampleEmptyTail()
    ensures Partition(5, 4) == [Range(0, 2), Range(2, 4), Range(4, 5), Range(6, 5)]
  {
    assert CeilDiv(5, 4) == 2;
  }
}
