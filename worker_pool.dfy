/**
 * The value-level part of the browser-side worker pool
 * (distributed-search-manager.js): how the data set is cut into enriched
 * chunks, how one worker's initialisation settles (with fallback retries on
 * timeout), how the pool records which workers fell back, how the hits of all
 * workers are merged, and how per-worker search statistics are tallied.
 */
module WorkerPool {
  import opened Wrappers
  import opened Text
  import opened Lists
  import opened Sorting
  import opened Partition
  import opened WorkerProtocol

  const DefaultWorkerCount := 4
  const DefaultRetryAttempts := 2

  // ---------------------------------------------------------------------
  // Worker entries and data chunks
  // ---------------------------------------------------------------------

  /** The pool's record of one worker; the worker handle itself is not modelled. */
  datatype WorkerInfo = WorkerInfo(
    id: string,
    dataSize: nat,
    status: string,
    startIndex: nat,
    endIndex: nat,
    usingFallback: bool)

  const WorkerPrefix := "worker-"

  function WorkerName(i: nat): string {
    WorkerPrefix + NatToString(i)
  }

  /** Workers created by one initialisation have pairwise different ids. */
  lemma WorkerNameInjective(i: nat, j: nat)
    requires WorkerName(i) == WorkerName(j)
    ensures i == j
  {
    assert NatToString(i) == WorkerName(i)[|WorkerPrefix|..];
    assert NatToString(j) == WorkerName(j)[|WorkerPrefix|..];
    NatToStringInjective(i, j);
  }

  /**
   * One item of a chunk as sent to a worker: a bare title becomes a record
   * holding its position in the full data; a record keeps its own
   * `originalIndex` unless that is absent or zero, and its own title unless
   * that is empty, in which case `movie.title || movie` puts the record itself
   * in the title field.
   */
  function EnrichOne(movie: Movie, position: nat): (r: Movie)
    ensures !r.PlainTitle? && r.originalIndex.Some? && r.title == movie.title
    ensures r.ObjectTitled? <==> movie.ObjectTitled? || (movie.MovieRecord? && movie.title == "")
    ensures Unplaced(movie) ==> r.originalIndex == Some(position)
    ensures !Unplaced(movie) ==> r.originalIndex == movie.originalIndex
  {
    match movie
    case PlainTitle(t) => MovieRecord(t, Some(position))
    case MovieRecord(t, oi) =>
      if t == "" then ObjectTitled(t, Some(NumberOr(oi, position)))
      else MovieRecord(t, Some(NumberOr(oi, position)))
    case ObjectTitled(t, oi) => ObjectTitled(t, Some(NumberOr(oi, position)))
  }

  /** An item that carries no position of its own. */
  predicate Unplaced(movie: Movie) {
    movie.PlainTitle? || movie.originalIndex.None? || movie.originalIndex.value == 0
  }

  function Enrich(chunk: seq<Movie>, start: nat): (r: seq<Movie>)
    ensures |r| == |chunk|
    ensures forall i :: 0 <= i < |r| ==> r[i] == EnrichOne(chunk[i], start + i)
  {
    seq(|chunk|, i requires 0 <= i < |chunk| => EnrichOne(chunk[i], start + i))
  }

  /** The enriched chunk sent to worker i of k. */
  function Chunk(data: seq<Movie>, k: nat, i: nat): seq<Movie>
    requires k > 0
  {
    var rg := AssignedRange(|data|, k, i);
    Enrich(JsSlice(data, rg.start, rg.end), rg.start)
  }

  /**
   * Every item of a chunk is the data item at the chunk's start plus its
   * offset, with the same title, and an item without a position of its own
   * is told that index.
   */
  lemma ChunkPointsBack(data: seq<Movie>, k: nat, i: nat, j: nat)
    requires k > 0 && j < |Chunk(data, k, i)|
    ensures AssignedRange(|data|, k, i).start + j < AssignedRange(|data|, k, i).end
    ensures AssignedRange(|data|, k, i).start + j < |data|
    ensures Chunk(data, k, i)[j].title == data[AssignedRange(|data|, k, i).start + j].title
    ensures Unplaced(data[AssignedRange(|data|, k, i).start + j]) ==>
              Chunk(data, k, i)[j].originalIndex == Some(AssignedRange(|data|, k, i).start + j)
    ensures var m := data[AssignedRange(|data|, k, i).start + j];
            Chunk(data, k, i)[j].ObjectTitled? <==> m.ObjectTitled? || (m.MovieRecord? && m.title == "")
  {
    var rg := AssignedRange(|data|, k, i);
    RangeBounds(|data|, k, i);
    assert |JsSlice(data, rg.start, rg.end)| == Max(0, Min(rg.end, |data|) - Min(rg.start, |data|));
  }

  /** Every data item is sent to exactly one worker, at its offset in that worker's range. */
  lemma ChunksCover(data: seq<Movie>, k: nat, x: nat)
    requires k > 0 && x < |data|
    ensures exists i :: 0 <= i < k && InRange(x, AssignedRange(|data|, k, i))
              && x - AssignedRange(|data|, k, i).start < |Chunk(data, k, i)|
              && Chunk(data, k, i)[x - AssignedRange(|data|, k, i).start].title == data[x].title
    ensures forall i, j ::
              (0 <= i < k && 0 <= j < k && InRange(x, AssignedRange(|data|, k, i))
               && InRange(x, AssignedRange(|data|, k, j))) ==> i == j
  {
    Covers(|data|, k, x);
    var i :| 0 <= i < k && InRange(x, AssignedRange(|data|, k, i));
    var rg := AssignedRange(|data|, k, i);
    RangeBounds(|data|, k, i);
    assert |Chunk(data, k, i)| == rg.end - rg.start;
    ChunkPointsBack(data, k, i, x - rg.start);
    forall i, j | 0 <= i < k && 0 <= j < k && InRange(x, AssignedRange(|data|, k, i))
      && InRange(x, AssignedRange(|data|, k, j))
      ensures i == j
    {
      UniqueOwner(|data|, k, x, i, j);
    }
  }

  /** The entry pushed for worker i of k before it has answered. */
  function NewWorker(data: seq<Movie>, k: nat, i: nat): WorkerInfo
    requires k > 0
  {
    var rg := AssignedRange(|data|, k, i);
    WorkerInfo(WorkerName(i), |Chunk(data, k, i)|, "initializing", rg.start, rg.end, false)
  }

  /** The entries one initialisation pushes, in worker order; none when the worker count is not positive. */
  function Created(data: seq<Movie>, k: int): (r: seq<WorkerInfo>)
    ensures |r| == Max(0, k)
  {
    if k <= 0 then [] else seq(k, i requires 0 <= i < k => NewWorker(data, k, i))
  }

  /** The chunks one initialisation posts, in worker order. */
  function Payloads(data: seq<Movie>, k: int): (r: seq<seq<Movie>>)
    ensures |r| == Max(0, k)
  {
    if k <= 0 then [] else seq(k, i requires 0 <= i < k => Chunk(data, k, i))
  }

  // ---------------------------------------------------------------------
  // Waiting for one worker's initialisation
  // ---------------------------------------------------------------------

  /**
   * What happens next while a worker initialises: a message it posts, or the
   * 15-second timer firing. The timer fires when no further message arrives.
   */
  datatype InitEvent =
    | Message(kind: string, workerId: Option<string>, error: string)
    | Timeout

  datatype InitOutcome =
    | Resolved(retries: nat)
    | Rejected(reason: string, retries: nat)

  function TimeoutReason(id: string): string {
    "Worker " + id + " initialization timeout"
  }

  function InitErrorReason(id: string, error: string): string {
    "Worker " + id + " initialization error: " + error
  }

  /** A message that settles the wait for worker `id`. */
  predicate Answers(e: InitEvent, id: string) {
    e.Message? && e.workerId == Some(id) && (e.kind == "INIT_COMPLETE" || e.kind == "ERROR")
  }

  /**
   * The wait for worker `id` after `retryCount` fallback retries: a matching
   * INIT_COMPLETE resolves, a matching ERROR rejects, other messages are
   * ignored, and a timeout retries with a fallback worker while
   * `retryCount < attempts` and fallback is enabled, and rejects otherwise.
   */
  function InitRun(id: string, events: seq<InitEvent>, retryCount: nat, attempts: int, useFallback: bool): InitOutcome
    decreases |events|, attempts - retryCount
  {
    if events == [] || events[0].Timeout? then
      if retryCount < attempts && useFallback then
        InitRun(id, if events == [] then [] else events[1..], retryCount + 1, attempts, useFallback)
      else
        Rejected(TimeoutReason(id), retryCount)
    else if events[0].kind == "INIT_COMPLETE" && events[0].workerId == Some(id) then
      Resolved(retryCount)
    else if events[0].kind == "ERROR" && events[0].workerId == Some(id) then
      Rejected(InitErrorReason(id, events[0].error), retryCount)
    else
      InitRun(id, events[1..], retryCount, attempts, useFallback)
  }

  /**
   * The number of fallback retries never exceeds the configured attempts, and
   * there are none when fallback is disabled.
   */
  lemma {:induction false} InitRunRetries(id: string, events: seq<InitEvent>, retryCount: nat, attempts: int, useFallback: bool)
    ensures retryCount <= InitRun(id, events, retryCount, attempts, useFallback).retries <= Max(retryCount, attempts)
    ensures !useFallback ==> InitRun(id, events, retryCount, attempts, useFallback).retries == retryCount
    decreases |events|, attempts - retryCount
  {
    if events == [] || events[0].Timeout? {
      if retryCount < attempts && useFallback {
        InitRunRetries(id, if events == [] then [] else events[1..], retryCount + 1, attempts, useFallback);
      }
    } else if !Answers(events[0], id) {
      InitRunRetries(id, events[1..], retryCount, attempts, useFallback);
    }
  }

  /**
   * When the worker answers before any timeout, its answer decides the
   * outcome and no retry happens: INIT_COMPLETE resolves, ERROR rejects with
   * the worker's error text.
   */
  lemma {:induction false} AnswerDecides(id: string, events: seq<InitEvent>, p: nat, retryCount: nat, attempts: int, useFallback: bool)
    requires p < |events| && Answers(events[p], id)
    requires forall q :: 0 <= q < p ==> events[q].Message? && !Answers(events[q], id)
    ensures InitRun(id, events, retryCount, attempts, useFallback)
            == if events[p].kind == "INIT_COMPLETE" then Resolved(retryCount)
               else Rejected(InitErrorReason(id, events[p].error), retryCount)
  {
    if p > 0 {
      AnswerDecides(id, events[1..], p - 1, retryCount, attempts, useFallback);
    }
  }

  /**
   * A timeout (or silence) before any answer, once the retries are used up or
   * fallback is disabled, rejects with the timeout reason.
   */
  lemma {:induction false} TimeoutRejects(id: string, events: seq<InitEvent>, p: nat, retryCount: nat, attempts: int, useFallback: bool)
    requires p <= |events| && (p == |events| || events[p].Timeout?)
    requires forall q :: 0 <= q < p ==> events[q].Message? && !Answers(events[q], id)
    requires !(retryCount < attempts && useFallback)
    ensures InitRun(id, events, retryCount, attempts, useFallback) == Rejected(TimeoutReason(id), retryCount)
  {
    if p > 0 {
      TimeoutRejects(id, events[1..], p - 1, retryCount, attempts, useFallback);
    }
  }

  // ---------------------------------------------------------------------
  // Marking workers that fell back
  // ---------------------------------------------------------------------

  /** `workers.find(w => w.id === id)` as an index; |ws| when there is none. */
  function FirstWith(ws: seq<WorkerInfo>, id: string): (f: nat)
    ensures f <= |ws|
    ensures f < |ws| ==> ws[f].id == id
    ensures forall j :: 0 <= j < f ==> ws[j].id != id
  {
    if ws == [] then 0
    else if ws[0].id == id then 0
    else 1 + FirstWith(ws[1..], id)
  }

  /** Sets `usingFallback` on the first entry with the given id, if there is one. */
  function MarkFallback(ws: seq<WorkerInfo>, id: string): (r: seq<WorkerInfo>)
    ensures |r| == |ws|
    ensures forall i :: 0 <= i < |ws| ==> r[i].id == ws[i].id
  {
    var f := FirstWith(ws, id);
    if f < |ws| then ws[f := ws[f].(usingFallback := true)] else ws
  }

  /** Only the first entry with the id changes, and only its `usingFallback` field, which becomes true. */
  lemma MarkFallbackChanges(ws: seq<WorkerInfo>, id: string, i: nat)
    requires i < |ws|
    ensures (exists j :: 0 <= j < i && ws[j].id == id) || ws[i].id != id ==> MarkFallback(ws, id)[i] == ws[i]
    ensures (forall j :: 0 <= j < i ==> ws[j].id != id) && ws[i].id == id ==>
              MarkFallback(ws, id)[i] == ws[i].(usingFallback := true)
  {
    var f := FirstWith(ws, id);
    if (forall j :: 0 <= j < i ==> ws[j].id != id) && ws[i].id == id {
      assert f == i;
    }
  }

  /** Retrying the same worker twice marks it once. */
  lemma MarkFallbackIdempotent(ws: seq<WorkerInfo>, id: string)
    ensures MarkFallback(MarkFallback(ws, id), id) == MarkFallback(ws, id)
  {
    var m := MarkFallback(ws, id);
    var f := FirstWith(ws, id);
    FirstWithSameIds(ws, m, id);
    if f < |ws| {
      assert m[f].usingFallback;
      assert m[f := m[f].(usingFallback := true)] == m;
    }
  }

  lemma {:induction false} FirstWithSameIds(ws: seq<WorkerInfo>, vs: seq<WorkerInfo>, id: string)
    requires |ws| == |vs| && forall i :: 0 <= i < |ws| ==> ws[i].id == vs[i].id
    ensures FirstWith(ws, id) == FirstWith(vs, id)
  {
    if ws != [] && ws[0].id != id {
      FirstWithSameIds(ws[1..], vs[1..], id);
    }
  }

  /** Marks, in worker order, every worker whose wait needed a retry. */
  function MarkRetried(ws: seq<WorkerInfo>, outcomes: seq<InitOutcome>): (r: seq<WorkerInfo>)
    ensures |r| == |ws|
    ensures forall i :: 0 <= i < |ws| ==> r[i].id == ws[i].id
  {
    if outcomes == [] then ws
    else
      var n := |outcomes| - 1;
      var w := MarkRetried(ws, outcomes[..n]);
      if outcomes[n].retries > 0 then MarkFallback(w, WorkerName(n)) else w
  }

  /**
   * After a first initialisation, worker i is marked as using the fallback
   * exactly when its wait needed a retry, and its range and size are the ones
   * it was created with.
   */
  lemma {:induction false} FreshWorkersMarked(data: seq<Movie>, k: nat, outcomes: seq<InitOutcome>, i: nat)
    requires k > 0 && |outcomes| <= k && i < k
    ensures MarkRetried(Created(data, k), outcomes)[i]
            == NewWorker(data, k, i).(usingFallback := i < |outcomes| && outcomes[i].retries > 0)
  {
    var ws := Created(data, k);
    if outcomes != [] {
      var n := |outcomes| - 1;
      var w := MarkRetried(ws, outcomes[..n]);
      FreshWorkersMarked(data, k, outcomes[..n], i);
      if outcomes[n].retries > 0 {
        forall j | 0 <= j < n && j < k
          ensures w[j].id != WorkerName(n)
        {
          if w[j].id == WorkerName(n) {
            assert w[j].id == ws[j].id == WorkerName(j);
            WorkerNameInjective(j, n);
          }
        }
        assert w[n].id == WorkerName(n);
        assert FirstWith(w, WorkerName(n)) == n;
        if i != n {
          if w[i].id == WorkerName(n) {
            assert w[i].id == ws[i].id == WorkerName(i);
            WorkerNameInjective(i, n);
          }
        }
      }
    }
  }

  /** Every wait resolved. */
  predicate AllResolved(outcomes: seq<InitOutcome>) {
    forall i :: 0 <= i < |outcomes| ==> outcomes[i].Resolved?
  }

  /** The reason of the first rejected wait, in worker order. */
  function FirstRejection(outcomes: seq<InitOutcome>): (reason: string)
    requires !AllResolved(outcomes)
    ensures exists i :: 0 <= i < |outcomes| && outcomes[i].Rejected? && outcomes[i].reason == reason
              && forall j :: 0 <= j < i ==> outcomes[j].Resolved?
  {
    if outcomes[0].Rejected? then outcomes[0].reason
    else
      var r := FirstRejection(outcomes[1..]);
      var i :| 0 <= i < |outcomes| - 1 && outcomes[1..][i].Rejected? && outcomes[1..][i].reason == r
               && forall j :: 0 <= j < i ==> outcomes[1..][j].Resolved?;
      assert outcomes[i + 1].Rejected? && forall j :: 0 <= j < i + 1 ==> outcomes[j].Resolved?;
      r
  }

  /** An order in which the waits of n workers settle: every worker appears, and no other index. */
  predicate SettleOrder(order: seq<nat>, n: nat) {
    (forall k :: 0 <= k < |order| ==> order[k] < n) && (forall i :: 0 <= i < n ==> i in order)
  }

  /** The outcomes in the order the waits settle. */
  function Reordered(outcomes: seq<InitOutcome>, order: seq<nat>): (r: seq<InitOutcome>)
    requires SettleOrder(order, |outcomes|)
    ensures |r| == |order| && forall k :: 0 <= k < |r| ==> r[k] == outcomes[order[k]]
  {
    seq(|order|, k requires 0 <= k < |order| => outcomes[order[k]])
  }

  lemma ReorderedRejects(outcomes: seq<InitOutcome>, order: seq<nat>)
    requires SettleOrder(order, |outcomes|) && !AllResolved(outcomes)
    ensures !AllResolved(Reordered(outcomes, order))
  {
    var i :| 0 <= i < |outcomes| && outcomes[i].Rejected?;
    assert i in order;
    var k :| 0 <= k < |order| && order[k] == i;
    assert Reordered(outcomes, order)[k].Rejected?;
  }

  /**
   * `Promise.all` rejects with the reason of the wait that rejects first in
   * time: the first rejected wait in settle order, every wait settled before it
   * having resolved.
   */
  function EarliestRejection(outcomes: seq<InitOutcome>, order: seq<nat>): (reason: string)
    requires SettleOrder(order, |outcomes|) && !AllResolved(outcomes)
    ensures exists k :: 0 <= k < |order| && outcomes[order[k]].Rejected? && outcomes[order[k]].reason == reason
              && forall l :: 0 <= l < k ==> outcomes[order[l]].Resolved?
  {
    ReorderedRejects(outcomes, order);
    FirstRejection(Reordered(outcomes, order))
  }

  const InitFailedPrefix := "Distributed search initialization failed: "

  // ---------------------------------------------------------------------
  // Merging the hits of all workers
  // ---------------------------------------------------------------------

  /** A fulfilled SEARCH_RESULT: its `results` (absent when not an array) and its `workerId`. */
  datatype WorkerReply = WorkerReply(results: Option<seq<PoolHit>>, workerId: Option<string>)

  /** A hit tagged with the `workerId` of the reply it came in (`fromWorker`). */
  datatype Merged = Merged(hit: PoolHit, fromWorker: Option<string>)

  function Hits(reply: WorkerReply): (r: seq<Merged>)
    ensures reply.results.None? ==> r == []
    ensures reply.results.Some? ==> |r| == |reply.results.value|
    ensures reply.results.Some? ==> forall j :: 0 <= j < |r| ==> r[j] == Merged(reply.results.value[j], reply.workerId)
  {
    if reply.results.None? then []
    else seq(|reply.results.value|, j requires 0 <= j < |reply.results.value| => Merged(reply.results.value[j], reply.workerId))
  }

  /** All hits of all replies, reply by reply, each in its reply's order. */
  function Flatten(replies: seq<WorkerReply>): seq<Merged> {
    if replies == [] then []
    else Flatten(replies[..|replies| - 1]) + Hits(replies[|replies| - 1])
  }

  /** Where the hits of reply k start in the flattened list. */
  function Offset(replies: seq<WorkerReply>, k: nat): nat
    requires k <= |replies|
  {
    |Flatten(replies[..k])|
  }

  lemma {:induction false} FlattenPrefix(replies: seq<WorkerReply>, k: nat)
    requires k <= |replies|
    ensures |Flatten(replies[..k])| <= |Flatten(replies)|
    ensures Flatten(replies[..k]) == Flatten(replies)[..|Flatten(replies[..k])|]
    decreases |replies|
  {
    if k < |replies| {
      var n := |replies| - 1;
      assert replies[..n][..k] == replies[..k];
      FlattenPrefix(replies[..n], k);
      assert Flatten(replies) == Flatten(replies[..n]) + Hits(replies[n]);
    } else {
      assert replies[..k] == replies;
    }
  }

  /** Every hit of every reply with an array of results is in the merged list, tagged with that reply's worker id. */
  lemma FlattenComplete(replies: seq<WorkerReply>, k: nat, j: nat)
    requires k < |replies| && replies[k].results.Some? && j < |replies[k].results.value|
    ensures Offset(replies, k) + j < |Flatten(replies)|
    ensures Flatten(replies)[Offset(replies, k) + j] == Merged(replies[k].results.value[j], replies[k].workerId)
  {
    var upto := replies[..k + 1];
    FlattenPrefix(replies, k + 1);
    assert upto[..k] == replies[..k] && upto[k] == replies[k];
    assert Flatten(upto) == Flatten(replies[..k]) + Hits(replies[k]);
    assert Flatten(upto)[Offset(replies, k) + j] == Hits(replies[k])[j];
  }

  /** Every merged hit comes from some reply's results, tagged with that reply's worker id. */
  lemma {:induction false} FlattenSound(replies: seq<WorkerReply>, p: nat)
    requires p < |Flatten(replies)|
    ensures exists k, j :: 0 <= k < |replies| && replies[k].results.Some? && 0 <= j < |replies[k].results.value|
              && Flatten(replies)[p] == Merged(replies[k].results.value[j], replies[k].workerId)
  {
    var n := |replies| - 1;
    var before := Flatten(replies[..n]);
    if p < |before| {
      FlattenSound(replies[..n], p);
      var k, j :| 0 <= k < n && replies[..n][k].results.Some? && 0 <= j < |replies[..n][k].results.value|
                  && before[p] == Merged(replies[..n][k].results.value[j], replies[..n][k].workerId);
      assert replies[k] == replies[..n][k];
    } else {
      var j := p - |before|;
      assert Flatten(replies)[p] == Hits(replies[n])[j];
    }
  }

  /** `options.query?.toLowerCase() || ''` */
  function Needle(query: Option<string>): string {
    if query.Some? then Lower(query.value) else ""
  }

  /** `x.highlight && x.highlight.toLowerCase().includes(needle)` */
  predicate IsExact(m: Merged, needle: string) {
    m.hit.highlight.Some? && m.hit.highlight.value != [] && Contains(Lower(m.hit.highlight.value), needle)
  }

  /** `(x.originalTitle || x.title || '').length` */
  function ShownLength(m: Merged): nat {
    if m.hit.originalTitle.Some? && m.hit.originalTitle.value != [] then |m.hit.originalTitle.value|
    else if m.hit.title.Some? && m.hit.title.value != [] then |m.hit.title.value|
    else 0
  }

  /** Exact matches first, then the shorter title. */
  function TieBreak(a: Merged, b: Merged, needle: string): int {
    if IsExact(a, needle) && !IsExact(b, needle) then -1
    else if !IsExact(a, needle) && IsExact(b, needle) then 1
    else ShownLength(a) - ShownLength(b)
  }

  /**
   * The comparator as the merge writes it: the higher score first when both
   * hits carry different scores, otherwise the tie-break. A scored hit and an
   * unscored one are compared by the tie-break alone.
   */
  function MergeCompareAsWritten(a: Merged, b: Merged, query: Option<string>): int {
    if a.hit.score.Some? && b.hit.score.Some? && b.hit.score.value != a.hit.score.value then
      b.hit.score.value - a.hit.score.value
    else
      TieBreak(a, b, Needle(query))
  }

  /** The corrected comparator: scored hits before unscored ones, otherwise as written. */
  function MergeCompare(a: Merged, b: Merged, query: Option<string>): int {
    if a.hit.score.Some? && b.hit.score.None? then -1
    else if a.hit.score.None? && b.hit.score.Some? then 1
    else MergeCompareAsWritten(a, b, query)
  }

  function MergeByAsWritten(query: Option<string>): (Merged, Merged) -> int {
    (a: Merged, b: Merged) => MergeCompareAsWritten(a, b, query)
  }

  function MergeBy(query: Option<string>): (Merged, Merged) -> int {
    (a: Merged, b: Merged) => MergeCompare(a, b, query)
  }

  /** The correction changes nothing when both hits are scored or both are not. */
  lemma MergeCompareAgrees(a: Merged, b: Merged, query: Option<string>)
    requires a.hit.score.Some? == b.hit.score.Some?
    ensures MergeCompare(a, b, query) == MergeCompareAsWritten(a, b, query)
  {
  }

  lemma MergeCompareTransitive(a: Merged, b: Merged, c: Merged, query: Option<string>)
    requires MergeCompare(a, b, query) <= 0 && MergeCompare(b, c, query) <= 0
    ensures MergeCompare(a, c, query) <= 0
  {
  }

  /** The corrected comparator is a consistent comparison, so the merged order is well defined. */
  lemma MergeByConsistent(query: Option<string>)
    ensures Consistent(MergeBy(query))
  {
    var cmp := MergeBy(query);
    forall a, b, c | cmp(a, b) <= 0 && cmp(b, c) <= 0 ensures cmp(a, c) <= 0 {
      MergeCompareTransitive(a, b, c, query);
    }
  }

  /**
   * The merged answer as the merge computes it: all hits sorted by the
   * comparator as written, cut to `options.limit || 25`.
   */
  function MergeOutput(replies: seq<WorkerReply>, query: Option<string>, limit: Option<int>): seq<Merged> {
    JsTake(SortBy(Flatten(replies), MergeByAsWritten(query)), EffectiveLimit(limit))
  }

  /** The merged answer with the corrected comparator. */
  function CorrectedMergeOutput(replies: seq<WorkerReply>, query: Option<string>, limit: Option<int>): seq<Merged> {
    JsTake(SortBy(Flatten(replies), MergeBy(query)), EffectiveLimit(limit))
  }

  /**
   * The merged answer holds only hits the workers sent, at most `limit` of
   * them when the limit is positive, and all of them when there are fewer.
   */
  lemma MergeOutputSound(replies: seq<WorkerReply>, query: Option<string>, limit: Option<int>)
    ensures multiset(MergeOutput(replies, query, limit)) <= multiset(Flatten(replies))
    ensures EffectiveLimit(limit) > 0 ==>
              |MergeOutput(replies, query, limit)| == Min(EffectiveLimit(limit), |Flatten(replies)|)
  {
    TakeSubMultiset(SortBy(Flatten(replies), MergeByAsWritten(query)), EffectiveLimit(limit));
  }

  /** Every hit carries a score or none does: all came from fallback workers, or all from indexed ones. */
  predicate UniformScores(hits: seq<Merged>) {
    forall x, y :: x in hits && y in hits ==> x.hit.score.Some? == y.hit.score.Some?
  }

  /** When the hits are uniform in carrying a score, the merge as written is the corrected merge. */
  lemma UniformMergeAgrees(replies: seq<WorkerReply>, query: Option<string>, limit: Option<int>)
    requires UniformScores(Flatten(replies))
    ensures MergeOutput(replies, query, limit) == CorrectedMergeOutput(replies, query, limit)
  {
    var all := Flatten(replies);
    forall x, y | x in all && y in all ensures MergeByAsWritten(query)(x, y) == MergeBy(query)(x, y) {
      MergeCompareAgrees(x, y, query);
    }
    SortAgrees(all, MergeByAsWritten(query), MergeBy(query));
  }

  /**
   * In the corrected merge every scored hit precedes every unscored one, a
   * higher score precedes a lower one, among hits that agree on score an exact
   * match precedes a non-exact one, and among hits that agree on both the
   * shorter title comes first.
   */
  lemma CorrectedMergeOrdered(replies: seq<WorkerReply>, query: Option<string>, limit: Option<int>, i: nat, j: nat)
    requires i < j < |CorrectedMergeOutput(replies, query, limit)|
    ensures var r := CorrectedMergeOutput(replies, query, limit);
            r[j].hit.score.Some? ==> r[i].hit.score.Some?
    ensures var r := CorrectedMergeOutput(replies, query, limit);
            r[i].hit.score.Some? && r[j].hit.score.Some? ==> r[i].hit.score.value >= r[j].hit.score.value
    ensures var r := CorrectedMergeOutput(replies, query, limit);
            r[i].hit.score == r[j].hit.score && IsExact(r[j], Needle(query)) ==> IsExact(r[i], Needle(query))
    ensures var r := CorrectedMergeOutput(replies, query, limit);
            r[i].hit.score == r[j].hit.score && IsExact(r[i], Needle(query)) == IsExact(r[j], Needle(query)) ==>
              ShownLength(r[i]) <= ShownLength(r[j])
  {
    var s := SortBy(Flatten(replies), MergeBy(query));
    MergeByConsistent(query);
    SortBySorted(Flatten(replies), MergeBy(query));
    var r := CorrectedMergeOutput(replies, query, limit);
    assert r[i] == s[i] && r[j] == s[j];
    assert MergeBy(query)(s[i], s[j]) <= 0;
  }

  /**
   * When all hits carry a score, or none does, the merge as written is
   * ordered: the higher score first, then an exact match, then the shorter
   * title.
   */
  lemma UniformMergeOrdered(replies: seq<WorkerReply>, query: Option<string>, limit: Option<int>, i: nat, j: nat)
    requires UniformScores(Flatten(replies))
    requires i < j < |MergeOutput(replies, query, limit)|
    ensures var r := MergeOutput(replies, query, limit);
            r[i].hit.score.Some? && r[j].hit.score.Some? ==> r[i].hit.score.value >= r[j].hit.score.value
    ensures var r := MergeOutput(replies, query, limit);
            r[i].hit.score == r[j].hit.score && IsExact(r[j], Needle(query)) ==> IsExact(r[i], Needle(query))
    ensures var r := MergeOutput(replies, query, limit);
            r[i].hit.score == r[j].hit.score && IsExact(r[i], Needle(query)) == IsExact(r[j], Needle(query)) ==>
              ShownLength(r[i]) <= ShownLength(r[j])
  {
    UniformMergeAgrees(replies, query, limit);
    CorrectedMergeOrdered(replies, query, limit, i, j);
  }

  /** Three hits on which the comparator as written is not a consistent comparison. */
  function CycleHit(title: string, score: Option<int>): Merged {
    Merged(PoolHit(0, Some(title), score, None, None, None), None)
  }

  /**
   * A scored hit and an unscored one compare by title length only, so with
   * hits a (score 1, 3 characters), b (no score, 5) and c (score 2, 7) the
   * comparator says a before b, b before c, and c before a.
   */
  lemma AsWrittenInconsistent()
    ensures !Consistent(MergeByAsWritten(None))
  {
    var a, b, c := CycleHit("abc", Some(1)), CycleHit("abcde", None), CycleHit("abcdefg", Some(2));
    var cmp := MergeByAsWritten(None);
    assert cmp(a, b) < 0 && cmp(b, c) < 0 && cmp(a, c) > 0;
  }

  /** How the two comparators order the three hits of the cycle. */
  lemma CycleComparisons()
    ensures var a, b, c := CycleHit("abc", Some(1)), CycleHit("abcde", None), CycleHit("abcdefg", Some(2));
            MergeByAsWritten(None)(a, b) < 0 && MergeByAsWritten(None)(b, c) < 0
            && MergeBy(None)(a, b) < 0 && MergeBy(None)(b, c) > 0 && MergeBy(None)(a, c) > 0
  {
  }

  /**
   * On those hits the stable sort with the comparator as written places the
   * score-1 hit before the score-2 hit, against the rule that a higher score
   * goes first.
   */
  lemma AsWrittenMisorders()
    ensures var a, b, c := CycleHit("abc", Some(1)), CycleHit("abcde", None), CycleHit("abcdefg", Some(2));
            SortBy([a, b, c], MergeByAsWritten(None)) == [a, b, c]
  {
    var a, b, c := CycleHit("abc", Some(1)), CycleHit("abcde", None), CycleHit("abcdefg", Some(2));
    CycleComparisons();
    SortThreeKept(a, b, c, MergeByAsWritten(None));
  }

  /** The corrected comparator puts the score-2 hit first and the unscored hit last. */
  lemma CorrectedOrders()
    ensures var a, b, c := CycleHit("abc", Some(1)), CycleHit("abcde", None), CycleHit("abcdefg", Some(2));
            SortBy([a, b, c], MergeBy(None)) == [c, a, b]
  {
    var a, b, c := CycleHit("abc", Some(1)), CycleHit("abcde", None), CycleHit("abcdefg", Some(2));
    CycleComparisons();
    SortThreeRotated(a, b, c, MergeBy(None));
  }

  // ---------------------------------------------------------------------
  // Classifying the settled searches
  // ---------------------------------------------------------------------

  /** How one worker's search settled: its SEARCH_RESULT, or the rejection's message. */
  datatype SearchOutcome =
    | Fulfilled(reply: WorkerReply)
    | Failed(message: string)

  datatype ErrorEntry = ErrorEntry(workerId: string, error: string)

  const UnknownError := "Unknown error"

  /** `reason.message || 'Unknown error'` */
  function ErrorText(message: string): (r: string)
    ensures r != []
  {
    if message == [] then UnknownError else message
  }

  /** The replies of the workers whose search was fulfilled, in worker order. */
  function ValidReplies(outcomes: seq<SearchOutcome>): seq<WorkerReply> {
    if outcomes == [] then []
    else
      var n := |outcomes| - 1;
      ValidReplies(outcomes[..n]) + (if outcomes[n].Fulfilled? then [outcomes[n].reply] else [])
  }

  /** One entry per failed worker, in worker order, named by the worker at the same index. */
  function Errors(ids: seq<string>, outcomes: seq<SearchOutcome>): seq<ErrorEntry>
    requires |ids| == |outcomes|
  {
    if outcomes == [] then []
    else
      var n := |outcomes| - 1;
      Errors(ids[..n], outcomes[..n])
      + (if outcomes[n].Failed? then [ErrorEntry(ids[n], ErrorText(outcomes[n].message))] else [])
  }

  /** Every worker is counted once: as used or as failed. */
  lemma {:induction false} ClassifyPartitions(ids: seq<string>, outcomes: seq<SearchOutcome>)
    requires |ids| == |outcomes|
    ensures |ValidReplies(outcomes)| + |Errors(ids, outcomes)| == |outcomes|
  {
    if outcomes != [] {
      var n := |outcomes| - 1;
      ClassifyPartitions(ids[..n], outcomes[..n]);
    }
  }

  /** A worker's failure is reported under its own id, with a non-empty message. */
  lemma {:induction false} ErrorsNamed(ids: seq<string>, outcomes: seq<SearchOutcome>, e: ErrorEntry)
    requires |ids| == |outcomes| && e in Errors(ids, outcomes)
    ensures exists i :: 0 <= i < |ids| && outcomes[i].Failed? && e.workerId == ids[i]
              && e.error == ErrorText(outcomes[i].message)
  {
    var n := |outcomes| - 1;
    if e in Errors(ids[..n], outcomes[..n]) {
      ErrorsNamed(ids[..n], outcomes[..n], e);
      var i :| 0 <= i < n && outcomes[..n][i].Failed? && e.workerId == ids[..n][i]
               && e.error == ErrorText(outcomes[..n][i].message);
      assert outcomes[i] == outcomes[..n][i] && ids[i] == ids[..n][i];
    }
  }

  // ---------------------------------------------------------------------
  // Per-worker statistics
  // ---------------------------------------------------------------------

  /** A worker's counters; timings and averages are not modelled. */
  datatype WorkerStat = WorkerStat(searches: nat, successCount: nat, errorCount: nat)

  /** The entry for `id`, or the zeroed one `updateWorkerStats` creates on first use. */
  function Entry(stats: map<string, WorkerStat>, id: string): WorkerStat {
    if id in stats then stats[id] else WorkerStat(0, 0, 0)
  }

  function Bump(s: WorkerStat, success: bool): WorkerStat {
    if success then s.(searches := s.searches + 1, successCount := s.successCount + 1)
    else s.(searches := s.searches + 1, errorCount := s.errorCount + 1)
  }

  function RecordSearch(stats: map<string, WorkerStat>, id: string, success: bool): map<string, WorkerStat> {
    stats[id := Bump(Entry(stats, id), success)]
  }

  /** Every worker's searches are its successes plus its errors. */
  predicate Balanced(stats: map<string, WorkerStat>) {
    forall id :: id in stats ==> stats[id].searches == stats[id].successCount + stats[id].errorCount
  }

  /**
   * Recording a search adds the worker if needed, counts one more search and
   * exactly one more success or error for it, leaves every other worker
   * alone, and keeps the counters balanced.
   */
  lemma RecordSearchEffect(stats: map<string, WorkerStat>, id: string, success: bool)
    ensures RecordSearch(stats, id, success).Keys == stats.Keys + {id}
    ensures RecordSearch(stats, id, success)[id].searches == Entry(stats, id).searches + 1
    ensures RecordSearch(stats, id, success)[id].successCount == Entry(stats, id).successCount + (if success then 1 else 0)
    ensures RecordSearch(stats, id, success)[id].errorCount == Entry(stats, id).errorCount + (if success then 0 else 1)
    ensures forall other :: other in stats && other != id ==> RecordSearch(stats, id, success)[other] == stats[other]
    ensures Balanced(stats) ==> Balanced(RecordSearch(stats, id, success))
  {
  }

  /** Recording one search per worker, in worker order. */
  function Tally(stats: map<string, WorkerStat>, ids: seq<string>, successes: seq<bool>): map<string, WorkerStat>
    requires |ids| == |successes|
  {
    if ids == [] then stats
    else
      var n := |ids| - 1;
      RecordSearch(Tally(stats, ids[..n], successes[..n]), ids[n], successes[n])
  }

  lemma {:induction false} TallyBalanced(stats: map<string, WorkerStat>, ids: seq<string>, successes: seq<bool>)
    requires |ids| == |successes| && Balanced(stats)
    ensures Balanced(Tally(stats, ids, successes))
    ensures Tally(stats, ids, successes).Keys == stats.Keys + set i | 0 <= i < |ids| :: ids[i]
  {
    if ids != [] {
      var n := |ids| - 1;
      TallyBalanced(stats, ids[..n], successes[..n]);
      RecordSearchEffect(Tally(stats, ids[..n], successes[..n]), ids[n], successes[n]);
      assert (set i | 0 <= i < |ids| :: ids[i]) == (set i | 0 <= i < n :: ids[..n][i]) + {ids[n]};
    }
  }

  /** With distinct worker ids, one search round bumps each worker's counters exactly once. */
  lemma {:induction false} TallyDistinct(stats: map<string, WorkerStat>, ids: seq<string>, successes: seq<bool>, i: nat)
    requires |ids| == |successes| && Distinct(ids) && i < |ids|
    ensures ids[i] in Tally(stats, ids, successes)
    ensures Tally(stats, ids, successes)[ids[i]] == Bump(Entry(stats, ids[i]), successes[i])
  {
    var n := |ids| - 1;
    var before := Tally(stats, ids[..n], successes[..n]);
    if i < n {
      assert Distinct(ids[..n]);
      TallyDistinct(stats, ids[..n], successes[..n], i);
      assert ids[..n][i] == ids[i] != ids[n];
    } else {
      TallyUntouched(stats, ids[..n], successes[..n], ids[n]);
    }
  }

  lemma {:induction false} TallyUntouched(stats: map<string, WorkerStat>, ids: seq<string>, successes: seq<bool>, id: string)
    requires |ids| == |successes| && id !in ids
    ensures Entry(Tally(stats, ids, successes), id) == Entry(stats, id)
  {
    if ids != [] {
      var n := |ids| - 1;
      assert id !in ids[..n];
      TallyUntouched(stats, ids[..n], successes[..n], id);
    }
  }

  // ---------------------------------------------------------------------
  // Worker types
  // ---------------------------------------------------------------------

  /** `workers.filter(w => w.usingFallback).length` */
  function FallbackCount(ws: seq<WorkerInfo>): nat {
    if ws == [] then 0 else FallbackCount(ws[..|ws| - 1]) + (if ws[|ws| - 1].usingFallback then 1 else 0)
  }

  /** `workers.filter(w => !w.usingFallback).length` */
  function FlexCount(ws: seq<WorkerInfo>): nat {
    if ws == [] then 0 else FlexCount(ws[..|ws| - 1]) + (if ws[|ws| - 1].usingFallback then 0 else 1)
  }

  /** Every worker is of exactly one type. */
  lemma {:induction false} WorkerTypesSum(ws: seq<WorkerInfo>)
    ensures FlexCount(ws) + FallbackCount(ws) == |ws|
  {
    if ws != [] {
      WorkerTypesSum(ws[..|ws| - 1]);
    }
  }
}
