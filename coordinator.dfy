/**
 * The coordinator of backend/coordinator.js: a registry of search nodes kept
 * in registration order, range assignment over the whole title list, health
 * filtering, and the merge of per-node answers into one ranked list. The
 * concurrent HTTP fan-out is replaced by a sequence of per-node outcomes,
 * one per queried node, processed in query order.
 */
module Coordinator {
  import opened Wrappers
  import opened Lists
  import opened Text
  import opened Sorting
  import opened Ranking
  import opened Partition
  import opened SearchNode

  const TotalDataSize: nat := 26770
  const HistoryCapacity: nat := 50
  const NoHealthyNodes := "No healthy search nodes available"

  datatype Status = Active | Error

  /** A registry entry; the URL is derived from the port and is not kept. */
  datatype NodeEntry = NodeEntry(id: string, port: int, dataRange: Range, status: Status, totalRequests: nat)

  datatype RegisterResponse = RegisterResponse(success: bool, message: string, dataRange: Range)

  /** What one node's `/search` call produced: its results, or a thrown error. */
  datatype NodeOutcome = Answered(results: seq<NodeHit>) | Failed(error: string)

  /** A node result as it appears in the merged list. */
  datatype MergedResult = MergedResult(hit: NodeHit, sourceNode: string, nodeDataRange: Range)

  datatype NodeReport = NodeReport(nodeId: string, results: seq<NodeHit>, dataRange: Range)

  datatype SearchResponse = SearchResponse(
    results: seq<MergedResult>,
    nodesQueried: nat,
    nodesSuccessful: nat,
    nodesFailed: nat,
    nodeDetails: seq<NodeReport>)

  datatype HistoryEntry = HistoryEntry(query: string, nodesUsed: nat, resultsCount: nat)

  datatype NodeStatus = NodeStatus(entry: NodeEntry, isHealthy: bool)

  datatype SystemStatus = SystemStatus(
    totalRequests: nat,
    requestHistory: seq<HistoryEntry>,
    nodes: map<string, NodeStatus>,
    healthyNodes: nat,
    totalNodes: nat,
    totalDataSize: nat)

  function MergedTitle(m: MergedResult): string { m.hit.title }

  /** `order` lists the Map's keys in insertion order, and each entry is filed under its own id. */
  ghost predicate Registry(order: seq<string>, nodes: map<string, NodeEntry>) {
    && Distinct(order)
    && (forall id :: id in nodes <==> id in order)
    && (forall id :: id in nodes ==> nodes[id].id == id)
  }

  /** The ids of the active entries. */
  function ActiveSet(nodes: map<string, NodeEntry>): set<string> {
    set id | id in nodes && nodes[id].status == Active
  }

  /** A list without repeats has as many elements as the set of its elements. */
  lemma {:induction false} DistinctCard<T>(s: seq<T>)
    requires Distinct(s)
    ensures |set x | x in s| == |s|
  {
    if s != [] {
      var t := s[1..];
      forall i, j | 0 <= i < j < |t| ensures t[i] != t[j] {
        assert t[i] == s[i + 1] && t[j] == s[j + 1];
      }
      DistinctCard(t);
      forall k | 0 <= k < |t| ensures t[k] != s[0] {
        assert t[k] == s[k + 1];
      }
      assert (set x | x in s) == (set x | x in t) + {s[0]};
    }
  }

  /** The healthy list names every active node exactly once. */
  lemma HealthyCount(order: seq<string>, nodes: map<string, NodeEntry>)
    requires Registry(order, nodes)
    ensures |ActiveIds(order, nodes)| == |ActiveSet(nodes)|
  {
    var r := ActiveIds(order, nodes);
    DistinctCard(r);
    assert (set x | x in r) == ActiveSet(nodes);
  }

  /** Every node in registration order holds the range the partition gives its position. */
  ghost predicate DistributedOver(nodes: map<string, NodeEntry>, order: seq<string>, n: nat)
  {
    forall i :: 0 <= i < |order| ==>
      order[i] in nodes && nodes[order[i]].dataRange == AssignedRange(n, |order|, i)
  }

  /** The ids of the active nodes, in registration order (`getHealthyNodes`). */
  function ActiveIds(order: seq<string>, nodes: map<string, NodeEntry>): (r: seq<string>)
    requires forall id :: id in order ==> id in nodes
    ensures forall id :: id in r <==> id in order && nodes[id].status == Active
    ensures forall i :: 0 <= i < |r| ==> r[i] in nodes
    ensures |r| <= |order|
    ensures Distinct(order) ==> Distinct(r)
  {
    if order == [] then []
    else
      var last := order[|order| - 1];
      var prev := ActiveIds(order[..|order| - 1], nodes);
      assert forall id :: id in order <==> id in order[..|order| - 1] || id == last;
      if nodes[last].status == Active then prev + [last] else prev
  }

  /** The active ids keep their relative registration order. */
  lemma {:induction false} ActiveIdsOrdered(order: seq<string>, nodes: map<string, NodeEntry>, i: int, j: int)
    requires forall id :: id in order ==> id in nodes
    requires 0 <= i < j < |ActiveIds(order, nodes)|
    ensures exists p, q :: 0 <= p < q < |order| && order[p] == ActiveIds(order, nodes)[i] && order[q] == ActiveIds(order, nodes)[j]
  {
    var r := ActiveIds(order, nodes);
    var init := order[..|order| - 1];
    var prev := ActiveIds(init, nodes);
    assert forall id :: id in init ==> id in order;
    if j < |prev| {
      ActiveIdsOrdered(init, nodes, i, j);
      var p, q :| 0 <= p < q < |init| && init[p] == prev[i] && init[q] == prev[j];
      assert order[p] == r[i] && order[q] == r[j];
    } else {
      assert r[j] == order[|order| - 1];
      assert r[i] == prev[i] && prev[i] in init;
      var p :| 0 <= p < |init| && init[p] == prev[i];
      assert order[p] == r[i];
    }
  }

  /** Every id of the list has an entry in the registry. */
  predicate AllIn(ids: seq<string>, nodes: map<string, NodeEntry>) {
    forall i :: 0 <= i < |ids| ==> ids[i] in nodes
  }

  /** Each merged result carries the node that produced it and that node's range. */
  function Tag(results: seq<NodeHit>, nodeId: string, range: Range): (r: seq<MergedResult>)
    ensures |r| == |results|
    ensures forall i :: 0 <= i < |r| ==> r[i] == MergedResult(results[i], nodeId, range)
  {
    seq(|results|, i requires 0 <= i < |results| => MergedResult(results[i], nodeId, range))
  }

  /** The concatenation, in query order, of every answering node's tagged results. */
  function Merged(ids: seq<string>, outcomes: seq<NodeOutcome>, nodes: map<string, NodeEntry>): (r: seq<MergedResult>)
    requires |ids| == |outcomes|
    requires AllIn(ids, nodes)
  {
    if ids == [] then []
    else
      var n := |ids| - 1;
      Merged(ids[..n], outcomes[..n], nodes)
        + (if outcomes[n].Answered? then Tag(outcomes[n].results, ids[n], nodes[ids[n]].dataRange) else [])
  }

  /** Every merged result comes from an answering node, with that node's range. */
  lemma {:induction false} MergedSound(ids: seq<string>, outcomes: seq<NodeOutcome>, nodes: map<string, NodeEntry>, m: MergedResult)
    requires |ids| == |outcomes|
    requires AllIn(ids, nodes)
    requires m in Merged(ids, outcomes, nodes)
    ensures exists k :: 0 <= k < |ids| && outcomes[k].Answered? && ids[k] == m.sourceNode
              && m.hit in outcomes[k].results && m.nodeDataRange == nodes[ids[k]].dataRange
  {
    var n := |ids| - 1;
    var prev := Merged(ids[..n], outcomes[..n], nodes);
    if m in prev {
      MergedSound(ids[..n], outcomes[..n], nodes, m);
      var k :| 0 <= k < n && outcomes[..n][k].Answered? && ids[..n][k] == m.sourceNode
               && m.hit in outcomes[..n][k].results && m.nodeDataRange == nodes[ids[..n][k]].dataRange;
      assert outcomes[k] == outcomes[..n][k] && ids[k] == ids[..n][k];
    } else {
      var t := Tag(outcomes[n].results, ids[n], nodes[ids[n]].dataRange);
      assert m in t;
      var i :| 0 <= i < |t| && t[i] == m;
      assert m.hit == outcomes[n].results[i];
    }
  }

  /** Every result of every answering node appears in the merge, tagged with that node. */
  lemma {:induction false} MergedComplete(ids: seq<string>, outcomes: seq<NodeOutcome>, nodes: map<string, NodeEntry>, k: int, h: NodeHit)
    requires |ids| == |outcomes|
    requires AllIn(ids, nodes)
    requires 0 <= k < |ids| && outcomes[k].Answered? && h in outcomes[k].results
    ensures MergedResult(h, ids[k], nodes[ids[k]].dataRange) in Merged(ids, outcomes, nodes)
  {
    var n := |ids| - 1;
    if k < n {
      assert outcomes[..n][k] == outcomes[k] && ids[..n][k] == ids[k];
      MergedComplete(ids[..n], outcomes[..n], nodes, k, h);
    } else {
      var t := Tag(outcomes[n].results, ids[n], nodes[ids[n]].dataRange);
      var i :| 0 <= i < |outcomes[n].results| && outcomes[n].results[i] == h;
      assert t[i] == MergedResult(h, ids[k], nodes[ids[k]].dataRange);
    }
  }

  /** A failed node contributes no results. */
  lemma FailedContributesNothing(ids: seq<string>, outcomes: seq<NodeOutcome>, nodes: map<string, NodeEntry>, k: int, m: MergedResult)
    requires |ids| == |outcomes| && Distinct(ids)
    requires AllIn(ids, nodes)
    requires 0 <= k < |ids| && outcomes[k].Failed?
    requires m in Merged(ids, outcomes, nodes)
    ensures m.sourceNode != ids[k]
  {
    MergedSound(ids, outcomes, nodes, m);
  }

  /** How many outcomes are answers. */
  function CountAnswered(outcomes: seq<NodeOutcome>): (c: nat)
    ensures c <= |outcomes|
  {
    if outcomes == [] then 0
    else CountAnswered(outcomes[..|outcomes| - 1]) + (if outcomes[|outcomes| - 1].Answered? then 1 else 0)
  }

  /** The reports of the answering nodes, in query order (`successfulNodes`). */
  function Reports(ids: seq<string>, outcomes: seq<NodeOutcome>, nodes: map<string, NodeEntry>): (r: seq<NodeReport>)
    requires |ids| == |outcomes|
    requires AllIn(ids, nodes)
    ensures |r| == CountAnswered(outcomes)
  {
    if ids == [] then []
    else
      var n := |ids| - 1;
      Reports(ids[..n], outcomes[..n], nodes)
        + (if outcomes[n].Answered? then [NodeReport(ids[n], outcomes[n].results, nodes[ids[n]].dataRange)] else [])
  }

  /** Extending the processed prefix by one outcome extends the merge, the reports and the count by that outcome's part. */
  lemma MergeStep(ids: seq<string>, outcomes: seq<NodeOutcome>, nodes: map<string, NodeEntry>, k: nat)
    requires |ids| == |outcomes| && k < |ids|
    requires AllIn(ids, nodes)
    ensures AllIn(ids[..k], nodes) && AllIn(ids[..k + 1], nodes)
    ensures Merged(ids[..k + 1], outcomes[..k + 1], nodes) == Merged(ids[..k], outcomes[..k], nodes)
              + (if outcomes[k].Answered? then Tag(outcomes[k].results, ids[k], nodes[ids[k]].dataRange) else [])
    ensures Reports(ids[..k + 1], outcomes[..k + 1], nodes) == Reports(ids[..k], outcomes[..k], nodes)
              + (if outcomes[k].Answered? then [NodeReport(ids[k], outcomes[k].results, nodes[ids[k]].dataRange)] else [])
    ensures CountAnswered(outcomes[..k + 1]) == CountAnswered(outcomes[..k]) + (if outcomes[k].Answered? then 1 else 0)
    ensures SettleAll(nodes, ids[..k + 1], outcomes[..k + 1])
              == var prev := SettleAll(nodes, ids[..k], outcomes[..k]); prev[ids[k] := Settled(prev[ids[k]], outcomes[k])]
  {
    assert ids[..k + 1][..k] == ids[..k] && outcomes[..k + 1][..k] == outcomes[..k];
  }

  /** A node entry after its outcome: one more request on success, `Error` on failure. */
  function Settled(e: NodeEntry, o: NodeOutcome): NodeEntry {
    if o.Answered? then e.(totalRequests := e.totalRequests + 1) else e.(status := Error)
  }

  /** The registry after each queried node's outcome has been applied to its entry, in query order. */
  function SettleAll(nodes: map<string, NodeEntry>, ids: seq<string>, outcomes: seq<NodeOutcome>): (r: map<string, NodeEntry>)
    requires |ids| == |outcomes| && AllIn(ids, nodes)
    ensures r.Keys == nodes.Keys
  {
    if ids == [] then nodes
    else
      var n := |ids| - 1;
      var prev := SettleAll(nodes, ids[..n], outcomes[..n]);
      prev[ids[n] := Settled(prev[ids[n]], outcomes[n])]
  }

  /** A node that was not queried keeps its entry. */
  lemma {:induction false} SettleAllUntouched(nodes: map<string, NodeEntry>, ids: seq<string>, outcomes: seq<NodeOutcome>, id: string)
    requires |ids| == |outcomes| && AllIn(ids, nodes)
    requires id in nodes && id !in ids
    ensures SettleAll(nodes, ids, outcomes)[id] == nodes[id]
  {
    if ids != [] {
      var n := |ids| - 1;
      assert id != ids[n];
      assert id !in ids[..n];
      SettleAllUntouched(nodes, ids[..n], outcomes[..n], id);
    }
  }

  /** A node queried exactly once has its entry settled by its own outcome. */
  lemma {:induction false} SettleAllQueried(nodes: map<string, NodeEntry>, ids: seq<string>, outcomes: seq<NodeOutcome>, k: int)
    requires |ids| == |outcomes| && AllIn(ids, nodes) && Distinct(ids) && 0 <= k < |ids|
    ensures SettleAll(nodes, ids, outcomes)[ids[k]] == Settled(nodes[ids[k]], outcomes[k])
  {
    var n := |ids| - 1;
    var init := ids[..n];
    if k == n {
      assert ids[n] !in init by {
        forall j | 0 <= j < n ensures init[j] != ids[n] {
          assert init[j] == ids[j];
        }
      }
      SettleAllUntouched(nodes, init, outcomes[..n], ids[n]);
    } else {
      assert init[k] == ids[k] && ids[k] != ids[n];
      assert Distinct(init);
      SettleAllQueried(nodes, init, outcomes[..n], k);
    }
  }

  /** Settling never changes a node's range or id. */
  lemma {:induction false} SettleAllLayout(nodes: map<string, NodeEntry>, ids: seq<string>, outcomes: seq<NodeOutcome>, id: string)
    requires |ids| == |outcomes| && AllIn(ids, nodes) && id in nodes
    ensures SettleAll(nodes, ids, outcomes)[id].dataRange == nodes[id].dataRange
    ensures SettleAll(nodes, ids, outcomes)[id].id == nodes[id].id
  {
    if ids != [] {
      var n := |ids| - 1;
      SettleAllLayout(nodes, ids[..n], outcomes[..n], id);
    }
  }

  /**
   * With each node queried once, a queried node's entry reflects exactly its
   * own outcome, every other entry is untouched, and no range or id changes.
   */
  lemma SettleAllEffect(nodes: map<string, NodeEntry>, ids: seq<string>, outcomes: seq<NodeOutcome>)
    requires |ids| == |outcomes| && AllIn(ids, nodes) && Distinct(ids)
    ensures forall k :: 0 <= k < |ids| ==> SettleAll(nodes, ids, outcomes)[ids[k]] == Settled(nodes[ids[k]], outcomes[k])
    ensures forall id :: id in nodes && id !in ids ==> SettleAll(nodes, ids, outcomes)[id] == nodes[id]
    ensures forall id :: id in nodes ==>
              SettleAll(nodes, ids, outcomes)[id].dataRange == nodes[id].dataRange
              && SettleAll(nodes, ids, outcomes)[id].id == nodes[id].id
  {
    forall k | 0 <= k < |ids| ensures SettleAll(nodes, ids, outcomes)[ids[k]] == Settled(nodes[ids[k]], outcomes[k]) {
      SettleAllQueried(nodes, ids, outcomes, k);
    }
    forall id | id in nodes && id !in ids ensures SettleAll(nodes, ids, outcomes)[id] == nodes[id] {
      SettleAllUntouched(nodes, ids, outcomes, id);
    }
    forall id | id in nodes
      ensures SettleAll(nodes, ids, outcomes)[id].dataRange == nodes[id].dataRange
      ensures SettleAll(nodes, ids, outcomes)[id].id == nodes[id].id
    {
      SettleAllLayout(nodes, ids, outcomes, id);
    }
  }

  /** Settling outcomes changes no range and no id, so a distributed registry stays distributed. */
  lemma SettleKeepsLayout(nodes: map<string, NodeEntry>, order: seq<string>, ids: seq<string>, outcomes: seq<NodeOutcome>, n: nat)
    requires |ids| == |outcomes| && AllIn(ids, nodes) && Distinct(ids)
    requires Registry(order, nodes) && DistributedOver(nodes, order, n)
    ensures Registry(order, SettleAll(nodes, ids, outcomes))
    ensures DistributedOver(SettleAll(nodes, ids, outcomes), order, n)
  {
    forall id | id in nodes
      ensures SettleAll(nodes, ids, outcomes)[id].dataRange == nodes[id].dataRange
      ensures SettleAll(nodes, ids, outcomes)[id].id == nodes[id].id
    {
      SettleAllLayout(nodes, ids, outcomes, id);
    }
  }

  /** `slice(-50)` once the history is longer than 50. */
  function RecentWindow(h: seq<HistoryEntry>): (r: seq<HistoryEntry>)
    ensures |r| == Min(|h|, HistoryCapacity)
    ensures r == h[|h| - |r|..]
  {
    if |h| > HistoryCapacity then h[|h| - HistoryCapacity..] else h
  }

  /** The merged list sorted by relevance and cut to `options.limit || 25`. */
  function FinalResults(ms: seq<MergedResult>, query: string, limit: Option<int>): seq<MergedResult> {
    JsTake(SortBy(ms, RankBy(MergedTitle, query)), EffectiveLimit(limit))
  }

  /**
   * The answer of a search is ranked by the relevance comparator, is
   * `min(limit, total)` long for a positive limit, and is drawn from the merge.
   */
  lemma MergedAnswer(ms: seq<MergedResult>, query: string, limit: Option<int>)
    ensures SortedBy(FinalResults(ms, query, limit), RankBy(MergedTitle, query))
    ensures EffectiveLimit(limit) > 0 ==> |FinalResults(ms, query, limit)| == Min(EffectiveLimit(limit), |ms|)
    ensures multiset(FinalResults(ms, query, limit)) <= multiset(ms)
  {
    var sorted := SortBy(ms, RankBy(MergedTitle, query));
    var r := JsTake(sorted, EffectiveLimit(limit));
    RankByConsistent(MergedTitle, query);
    SortBySorted(ms, RankBy(MergedTitle, query));
    SortedPrefix(sorted, |r|, RankBy(MergedTitle, query));
    TakeSubMultiset(sorted, EffectiveLimit(limit));
  }

  /** The node ranges of a distributed registry are disjoint and cover the title list. */
  lemma RegistryCovers(nodes: map<string, NodeEntry>, order: seq<string>, n: nat, x: int)
    requires DistributedOver(nodes, order, n) && |order| > 0 && 0 <= x < n
    ensures exists i :: 0 <= i < |order| && InRange(x, nodes[order[i]].dataRange)
    ensures forall i, j :: 0 <= i < |order| && 0 <= j < |order|
                && InRange(x, nodes[order[i]].dataRange) && InRange(x, nodes[order[j]].dataRange)
              ==> i == j
  {
    Covers(n, |order|, x);
    var i :| 0 <= i < |order| && InRange(x, AssignedRange(n, |order|, i));
    assert InRange(x, nodes[order[i]].dataRange);
    forall i, j | 0 <= i < |order| && 0 <= j < |order|
      && InRange(x, nodes[order[i]].dataRange) && InRange(x, nodes[order[j]].dataRange)
      ensures i == j
    {
      UniqueOwner(n, |order|, x, i, j);
    }
  }

  /**
   * The per-node part of `distributedSearch`, node by node in query order:
   * bookkeeping on the registry, the merged results, the successful reports
   * and the failure count.
   */
  method SettleOutcomes(nodes: map<string, NodeEntry>, ids: seq<string>, outcomes: seq<NodeOutcome>)
    returns (m: map<string, NodeEntry>, allResults: seq<MergedResult>, successful: seq<NodeReport>, failedCount: nat)
    requires |outcomes| == |ids| && AllIn(ids, nodes)
    ensures m == SettleAll(nodes, ids, outcomes)
    ensures allResults == Merged(ids, outcomes, nodes)
    ensures successful == Reports(ids, outcomes, nodes)
    ensures failedCount == |ids| - CountAnswered(outcomes)
  {
    m := nodes;
    allResults, successful, failedCount := [], [], 0;
    var k := 0;
    while k < |ids|
      invariant 0 <= k <= |ids|
      invariant m == SettleAll(nodes, ids[..k], outcomes[..k])
      invariant allResults == Merged(ids[..k], outcomes[..k], nodes)
      invariant successful == Reports(ids[..k], outcomes[..k], nodes)
      invariant failedCount == k - CountAnswered(outcomes[..k])
    {
      var id, outcome := ids[k], outcomes[k];
      MergeStep(ids, outcomes, nodes, k);
      allResults := allResults + (if outcome.Answered? then Tag(outcome.results, id, nodes[id].dataRange) else []);
      successful := successful + (if outcome.Answered? then [NodeReport(id, outcome.results, nodes[id].dataRange)] else []);
      failedCount := failedCount + (if outcome.Answered? then 0 else 1);
      m := m[id := Settled(m[id], outcome)];
      k := k + 1;
    }
    assert ids[..k] == ids && outcomes[..k] == outcomes;
  }

  class SearchCoordinator {
    /** The keys of the `nodes` Map in insertion order. */
    var order: seq<string>
    var nodes: map<string, NodeEntry>
    const totalDataSize: nat
    var totalRequests: nat
    var requestHistory: seq<HistoryEntry>

    ghost predicate WellFormed()
      reads this
    {
      Registry(order, nodes) && |requestHistory| <= HistoryCapacity
    }

    ghost predicate Valid()
      reads this
    {
      WellFormed() && DistributedOver(nodes, order, totalDataSize)
    }

    constructor ()
      ensures Valid()
      ensures order == [] && nodes == map[] && totalDataSize == TotalDataSize
      ensures totalRequests == 0 && requestHistory == []
    {
      order := [];
      nodes := map[];
      totalDataSize := TotalDataSize;
      totalRequests := 0;
      requestHistory := [];
    }

    /**
     * `redistributeData`: node i in registration order gets the i-th range of
     * the partition; nothing else about any node changes. No-op without nodes.
     */
    method RedistributeData()
      requires WellFormed()
      modifies this
      ensures Valid()
      ensures order == old(order) && nodes.Keys == old(nodes).Keys
      ensures forall i :: 0 <= i < |order| ==>
                nodes[order[i]] == old(nodes)[order[i]].(dataRange := AssignedRange(totalDataSize, |order|, i))
      ensures forall id :: id in nodes ==> nodes[id] == old(nodes)[id].(dataRange := nodes[id].dataRange)
      ensures old(order) == [] ==> nodes == old(nodes)
      ensures totalRequests == old(totalRequests) && requestHistory == old(requestHistory)
    {
      var nodeCount := |order|;
      if nodeCount == 0 {
        return;
      }
      var m := nodes;
      var i := 0;
      while i < nodeCount
        invariant 0 <= i <= nodeCount
        invariant m.Keys == nodes.Keys
        invariant forall j :: 0 <= j < i ==>
                    m[order[j]] == nodes[order[j]].(dataRange := AssignedRange(totalDataSize, nodeCount, j))
        invariant forall j :: i <= j < nodeCount ==> m[order[j]] == nodes[order[j]]
        invariant forall id :: id in m ==> m[id] == nodes[id].(dataRange := m[id].dataRange)
      {
        var id := order[i];
        assert forall j :: 0 <= j < nodeCount && j != i ==> order[j] != id;
        m := m[id := m[id].(dataRange := AssignedRange(totalDataSize, nodeCount, i))];
        i := i + 1;
      }
      nodes := m;
    }

    /**
     * `registerNode`: insert or replace the entry (a replaced key keeps its
     * position), then redistribute. The answer carries the node's new range.
     */
    method RegisterNode(nodeId: string, port: int) returns (resp: RegisterResponse)
      requires Valid()
      modifies this
      ensures Valid()
      ensures order == if nodeId in old(nodes) then old(order) else old(order) + [nodeId]
      ensures nodeId in nodes && nodes[nodeId].status == Active && nodes[nodeId].totalRequests == 0
      ensures nodes[nodeId].port == port
      ensures forall id :: id in old(nodes) && id != nodeId ==>
                id in nodes && nodes[id].status == old(nodes)[id].status
                && nodes[id].totalRequests == old(nodes)[id].totalRequests && nodes[id].port == old(nodes)[id].port
      ensures resp.success && resp.message == "Node " + nodeId + " registered successfully"
      ensures resp.dataRange == nodes[nodeId].dataRange
      ensures totalRequests == old(totalRequests) && requestHistory == old(requestHistory)
    {
      if nodeId !in nodes {
        order := order + [nodeId];
      }
      nodes := nodes[nodeId := NodeEntry(nodeId, port, Range(0, 0), Active, 0)];
      RedistributeData();
      resp := RegisterResponse(true, "Node " + nodeId + " registered successfully", nodes[nodeId].dataRange);
    }

    /**
     * The effect of `notifyNodesDataRange` on the registry: every node whose
     * update call failed (`delivered[i]` false) is marked `Error`.
     */
    method NotifyNodesDataRange(delivered: seq<bool>)
      requires Valid() && |delivered| == |order|
      modifies this
      ensures Valid()
      ensures order == old(order) && nodes.Keys == old(nodes).Keys
      ensures forall i :: 0 <= i < |order| ==>
                nodes[order[i]] == if delivered[i] then old(nodes)[order[i]] else old(nodes)[order[i]].(status := Error)
      ensures totalRequests == old(totalRequests) && requestHistory == old(requestHistory)
    {
      var m := nodes;
      var i := 0;
      while i < |order|
        invariant 0 <= i <= |order|
        invariant m.Keys == nodes.Keys
        invariant forall j :: 0 <= j < i ==>
                    m[order[j]] == if delivered[j] then nodes[order[j]] else nodes[order[j]].(status := Error)
        invariant forall j :: i <= j < |order| ==> m[order[j]] == nodes[order[j]]
        invariant forall id :: id in m ==> m[id] == nodes[id].(status := m[id].status)
      {
        var id := order[i];
        assert forall j :: 0 <= j < |order| && j != i ==> order[j] != id;
        if !delivered[i] {
          m := m[id := m[id].(status := Error)];
        }
        i := i + 1;
      }
      nodes := m;
    }

    /** `getHealthyNodes`: the active entries in registration order. */
    function HealthyNodes(): (r: seq<NodeEntry>)
      requires WellFormed()
      reads this
      ensures |r| == |ActiveIds(order, nodes)| && |r| <= |order|
      ensures forall i :: 0 <= i < |r| ==> r[i] == nodes[ActiveIds(order, nodes)[i]] && r[i].status == Active
    {
      var ids, m := ActiveIds(order, nodes), nodes;
      seq(|ids|, i requires 0 <= i < |ids| => m[ids[i]])
    }

    /**
     * `distributedSearch`: `outcomes[k]` is what the k-th healthy node's call
     * produced. Fails before touching anything when no node is healthy.
     */
    method DistributedSearch(query: string, limit: Option<int>, outcomes: seq<NodeOutcome>)
      returns (r: Result<SearchResponse, string>)
      requires Valid() && |outcomes| == |ActiveIds(order, nodes)|
      modifies this
      ensures Valid()
      ensures order == old(order)
      ensures old(ActiveIds(order, nodes)) == [] ==>
                r == Failure(NoHealthyNodes) && nodes == old(nodes)
                && totalRequests == old(totalRequests) && requestHistory == old(requestHistory)
      ensures old(ActiveIds(order, nodes)) != [] ==>
                var ids := old(ActiveIds(order, nodes));
                var finalResults := FinalResults(Merged(ids, outcomes, old(nodes)), query, limit);
                && r.Success?
                && r.value == SearchResponse(finalResults, |ids|, CountAnswered(outcomes),
                                             |ids| - CountAnswered(outcomes), Reports(ids, outcomes, old(nodes)))
                && nodes == SettleAll(old(nodes), ids, outcomes)
                && totalRequests == old(totalRequests) + 1
                && requestHistory == RecentWindow(old(requestHistory) + [HistoryEntry(query, CountAnswered(outcomes), |finalResults|)])
    {
      var ids := ActiveIds(order, nodes);
      if |ids| == 0 {
        assert ids == [];
        return Failure(NoHealthyNodes);
      }
      assert ids != [];
      var settled, allResults, successful, failedCount := SettleOutcomes(nodes, ids, outcomes);
      SettleKeepsLayout(nodes, order, ids, outcomes, totalDataSize);
      nodes := settled;
      var finalResults := FinalResults(allResults, query, limit);
      var entry := HistoryEntry(query, |successful|, |finalResults|);
      totalRequests := totalRequests + 1;
      requestHistory := RecentWindow(requestHistory + [entry]);
      r := Success(SearchResponse(finalResults, |ids|, |successful|, failedCount, successful));
    }

    /** `getSystemStatus`: a snapshot with a health flag per node. */
    function GetSystemStatus(): (s: SystemStatus)
      requires WellFormed()
      reads this
      ensures s.nodes.Keys == nodes.Keys
      ensures forall id :: id in s.nodes ==> s.nodes[id].entry == nodes[id] && (s.nodes[id].isHealthy <==> nodes[id].status == Active)
      ensures s.healthyNodes == |ActiveIds(order, nodes)| == |ActiveSet(nodes)|
      ensures s.healthyNodes <= s.totalNodes && s.totalNodes == |order|
      ensures s.totalDataSize == totalDataSize && s.totalRequests == totalRequests
      ensures s.requestHistory == requestHistory
    {
      HealthyCount(order, nodes);
      var view := map id | id in nodes :: NodeStatus(nodes[id], nodes[id].status == Active);
      SystemStatus(totalRequests, requestHistory, view, |ActiveIds(order, nodes)|, |order|, totalDataSize)
    }
  }
}
