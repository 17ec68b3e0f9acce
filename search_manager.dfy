/**
 * The browser-side distributed search manager
 * (distributed-search-manager.js): it cuts the data into one chunk per
 * worker, waits for every worker to initialise (retrying with a fallback
 * worker on timeout), fans a search out to all workers, classifies how each
 * worker's search settled, merges the hits and keeps per-worker statistics.
 *
 * Workers are not created here: what a worker posts back during
 * initialisation is given as a sequence of events per worker, and how each
 * worker's search settled is given as one outcome per worker.
 */
module SearchManager {
  import opened Wrappers
  import opened Text
  import opened Lists
  import opened Sorting
  import opened WorkerProtocol
  import opened WorkerPool
  import FallbackWorker

  /** The constructor's options; an absent field takes its default. */
  datatype ManagerOptions = ManagerOptions(
    workerCount: Option<int>,
    retryAttempts: Option<int>,
    useFallback: Option<bool>)

  /** The search options the merge reads: `limit` and the `query` of the exact-match test. */
  datatype SearchOptions = SearchOptions(limit: Option<int>, query: Option<string>)

  datatype SearchAnswer =
    /** `{ results: [], totalTime: 0, workerResults: [] }` for a blank query. */
    | EmptyAnswer
    | Answer(
        results: seq<Merged>,
        workerResults: seq<WorkerReply>,
        errors: seq<ErrorEntry>,
        workersUsed: nat,
        totalWorkers: nat)

  datatype ManagerStats = ManagerStats(
    totalSearches: nat,
    workerStats: map<string, WorkerStat>,
    isInitialized: bool,
    workerCount: nat,
    dataSize: nat,
    flexSearch: nat,
    fallback: nat)

  const NotInitializedError := "DistributedSearchManager not initialized"

  /** `!query || query.trim().length === 0` for a string query. */
  predicate Blank(query: string) {
    |FallbackWorker.Trim(query)| == 0
  }

  /** A query is blank exactly when every character of it is white space. */
  lemma BlankIffSpaces(query: string)
    ensures Blank(query) <==> forall i :: 0 <= i < |query| ==> IsSpace(query[i])
  {
    var k := FallbackWorker.LeadingSpaces(query);
    var rest := query[k..];
    assert FallbackWorker.TrimStart(query) == rest;
    if Blank(query) {
      assert FallbackWorker.TrailingSpaces(rest) == |rest|;
      assert k == |query|;
    } else {
      assert k < |query|;
    }
  }

  function Ids(ws: seq<WorkerInfo>): (r: seq<string>)
    ensures |r| == |ws| && forall i :: 0 <= i < |ws| ==> r[i] == ws[i].id
  {
    seq(|ws|, i requires 0 <= i < |ws| => ws[i].id)
  }

  function Successes(outcomes: seq<SearchOutcome>): (r: seq<bool>)
    ensures |r| == |outcomes| && forall i :: 0 <= i < |outcomes| ==> r[i] == outcomes[i].Fulfilled?
  {
    seq(|outcomes|, i requires 0 <= i < |outcomes| => outcomes[i].Fulfilled?)
  }

  /**
   * `mergeResults`: collects the hits of every reply whose `results` is an
   * array, tagged with the reply's worker id, sorts them and keeps the first
   * `options.limit || 25`.
   */
  method MergeResults(replies: seq<WorkerReply>, options: SearchOptions) returns (r: seq<Merged>)
    ensures r == MergeOutput(replies, options.query, options.limit)
  {
    var all: seq<Merged> := [];
    for k := 0 to |replies|
      invariant all == Flatten(replies[..k])
    {
      ghost var before := all;
      if replies[k].results.Some? {
        var hits := replies[k].results.value;
        for j := 0 to |hits|
          invariant |all| == |before| + j && all[..|before|] == before
          invariant forall t :: 0 <= t < j ==> all[|before| + t] == Merged(hits[t], replies[k].workerId)
        {
          all := all + [Merged(hits[j], replies[k].workerId)];
        }
      }
      assert all == before + Hits(replies[k]);
      assert replies[..k + 1][..k] == replies[..k];
    }
    assert replies[..|replies|] == replies;
    var sorted := SortBy(all, MergeByAsWritten(options.query));
    r := JsTake(sorted, EffectiveLimit(options.limit));
  }

  /** One step of the creation loop of `initialize`: worker i's range, its enriched chunk and its entry. */
  method PrepareWorker(movieData: seq<Movie>, workerCount: int, i: nat) returns (info: WorkerInfo, enriched: seq<Movie>)
    requires workerCount > 0
    ensures info == NewWorker(movieData, workerCount, i)
    ensures enriched == Chunk(movieData, workerCount, i)
  {
    var chunkSize := Partition.CeilDiv(|movieData|, workerCount);
    var startIndex := i * chunkSize;
    var endIndex := Min(startIndex + chunkSize, |movieData|);
    var chunk := JsSlice(movieData, startIndex, endIndex);
    enriched := Enrich(chunk, startIndex);
    info := WorkerInfo(WorkerName(i), |enriched|, "initializing", startIndex, endIndex, false);
  }

  /** Worker i's entry and chunk extend the first i entries and chunks of one initialisation. */
  lemma BuildStep(movieData: seq<Movie>, workerCount: int, i: nat)
    requires 0 <= i < workerCount
    ensures Created(movieData, workerCount)[..i + 1] == Created(movieData, workerCount)[..i] + [NewWorker(movieData, workerCount, i)]
    ensures Payloads(movieData, workerCount)[..i + 1] == Payloads(movieData, workerCount)[..i] + [Chunk(movieData, workerCount, i)]
  {
    var c, p := Created(movieData, workerCount), Payloads(movieData, workerCount);
    assert c[i] == NewWorker(movieData, workerCount, i);
    assert p[i] == Chunk(movieData, workerCount, i);
    assert c[..i + 1] == c[..i] + [c[i]];
    assert p[..i + 1] == p[..i] + [p[i]];
  }

  /**
   * The creation loop of `initialize`: for each worker i, computes its range
   * from `ceil(n / workerCount)`, enriches its slice of the data and builds its
   * entry; the enriched chunks are the INIT payloads.
   */
  method BuildWorkers(movieData: seq<Movie>, workerCount: int) returns (created: seq<WorkerInfo>, payloads: seq<seq<Movie>>)
    ensures created == Created(movieData, workerCount)
    ensures payloads == Payloads(movieData, workerCount)
  {
    created, payloads := [], [];
    if workerCount <= 0 {
      return;
    }
    ghost var allCreated, allPayloads := Created(movieData, workerCount), Payloads(movieData, workerCount);
    for i := 0 to workerCount
      invariant created == allCreated[..i]
      invariant payloads == allPayloads[..i]
    {
      var info, enriched := PrepareWorker(movieData, workerCount, i);
      BuildStep(movieData, workerCount, i);
      created := created + [info];
      payloads := payloads + [enriched];
    }
    assert allCreated[..workerCount] == allCreated && allPayloads[..workerCount] == allPayloads;
  }

  class DistributedSearchManager {
    var workers: seq<WorkerInfo>
    const workerCount: int
    var data: seq<Movie>
    var isInitialized: bool
    const retryAttempts: int
    const useFallback: bool
    var totalSearches: nat
    var workerStats: map<string, WorkerStat>

    /** Every worker's searches are its successes plus its errors. */
    ghost predicate Valid()
      reads this
    {
      Balanced(workerStats)
    }

    /** `workerCount || 4`, `retryAttempts || 2`, and fallback unless it is explicitly false. */
    constructor(options: ManagerOptions)
      ensures workers == [] && data == [] && !isInitialized
      ensures totalSearches == 0 && workerStats == map[]
      ensures workerCount == NumberOr(options.workerCount, DefaultWorkerCount) && workerCount != 0
      ensures retryAttempts == NumberOr(options.retryAttempts, DefaultRetryAttempts) && retryAttempts != 0
      ensures useFallback <==> options.useFallback != Some(false)
      ensures Valid()
    {
      workers := [];
      workerCount := NumberOr(options.workerCount, DefaultWorkerCount);
      data := [];
      isInitialized := false;
      retryAttempts := NumberOr(options.retryAttempts, DefaultRetryAttempts);
      useFallback := options.useFallback != Some(false);
      totalSearches := 0;
      workerStats := map[];
    }

    /** How the wait of each new worker settles, given what each one posts. */
    function InitOutcomes(initEvents: seq<seq<InitEvent>>): (r: seq<InitOutcome>)
      ensures |r| == |initEvents|
      ensures forall j :: 0 <= j < |initEvents| ==> r[j] == InitRun(WorkerName(j), initEvents[j], 0, retryAttempts, useFallback)
    {
      seq(|initEvents|, j requires 0 <= j < |initEvents| => InitRun(WorkerName(j), initEvents[j], 0, retryAttempts, useFallback))
    }

    /**
     * `waitForWorkerInit`: consumes what worker `id` posts until it answers or
     * the timer fires; on a timeout with retries left and fallback enabled, the
     * worker's entry is marked as using the fallback and the wait restarts.
     */
    method WaitForWorkerInit(id: string, events: seq<InitEvent>) returns (outcome: InitOutcome)
      modifies this`workers
      ensures outcome == InitRun(id, events, 0, retryAttempts, useFallback)
      ensures workers == if outcome.retries > 0 then MarkFallback(old(workers), id) else old(workers)
    {
      ghost var before := workers;
      var i: nat, retryCount: nat := 0, 0;
      while true
        invariant i <= |events|
        invariant InitRun(id, events[i..], retryCount, retryAttempts, useFallback)
                  == InitRun(id, events, 0, retryAttempts, useFallback)
        invariant workers == if retryCount > 0 then MarkFallback(before, id) else before
        decreases |events| - i, retryAttempts - retryCount
      {
        if i == |events| || events[i].Timeout? {
          if retryCount < retryAttempts && useFallback {
            MarkFallbackIdempotent(before, id);
            workers := MarkFallback(workers, id);
            if i < |events| {
              assert events[i..][1..] == events[i + 1..];
              i := i + 1;
            }
            retryCount := retryCount + 1;
          } else {
            return Rejected(TimeoutReason(id), retryCount);
          }
        } else if events[i].kind == "INIT_COMPLETE" && events[i].workerId == Some(id) {
          return Resolved(retryCount);
        } else if events[i].kind == "ERROR" && events[i].workerId == Some(id) {
          return Rejected(InitErrorReason(id, events[i].error), retryCount);
        } else {
          assert events[i..][1..] == events[i + 1..];
          i := i + 1;
        }
      }
    }

    /** Waits for each new worker in turn, worker i having posted `initEvents[i]`. */
    method WaitForWorkers(initEvents: seq<seq<InitEvent>>) returns (outcomes: seq<InitOutcome>)
      modifies this`workers
      ensures outcomes == InitOutcomes(initEvents)
      ensures workers == MarkRetried(old(workers), outcomes)
    {
      outcomes := [];
      for j := 0 to |initEvents|
        invariant |outcomes| == j
        invariant forall t :: 0 <= t < j ==> outcomes[t] == InitRun(WorkerName(t), initEvents[t], 0, retryAttempts, useFallback)
        invariant workers == MarkRetried(old(workers), outcomes)
      {
        var o := WaitForWorkerInit(WorkerName(j), initEvents[j]);
        assert (outcomes + [o])[..j] == outcomes;
        outcomes := outcomes + [o];
      }
    }

    /**
     * `initialize`: pushes one entry per worker with its range and enriched
     * chunk (returned as the INIT payloads), waits for every worker, and marks
     * the manager initialised only when every wait resolved; otherwise it fails
     * with the reason of the wait that rejected first in time, `settleOrder`
     * being the order in which the waits settle.
     */
    method Initialize(movieData: seq<Movie>, initEvents: seq<seq<InitEvent>>, settleOrder: seq<nat>)
      returns (r: Result<(), string>, payloads: seq<seq<Movie>>)
      requires |initEvents| == Max(0, workerCount)
      requires SettleOrder(settleOrder, |initEvents|)
      modifies this`data, this`workers, this`isInitialized
      ensures data == movieData
      ensures payloads == Payloads(movieData, workerCount)
      ensures workers == MarkRetried(old(workers) + Created(movieData, workerCount), InitOutcomes(initEvents))
      ensures AllResolved(InitOutcomes(initEvents)) ==> r.Success? && isInitialized
      ensures !AllResolved(InitOutcomes(initEvents)) ==>
                r.Failure? && r.error == InitFailedPrefix + EarliestRejection(InitOutcomes(initEvents), settleOrder)
                && isInitialized == old(isInitialized)
    {
      data := movieData;
      var created;
      created, payloads := BuildWorkers(movieData, workerCount);
      workers := workers + created;
      var outcomes := WaitForWorkers(initEvents);
      if forall j :: 0 <= j < |outcomes| ==> outcomes[j].Resolved? {
        isInitialized := true;
        r := Success(());
      } else {
        r := Failure(InitFailedPrefix + EarliestRejection(outcomes, settleOrder));
      }
    }

    /** `updateWorkerStats`: creates the zeroed entry on first use, then counts one search. */
    method UpdateWorkerStats(id: string, success: bool)
      modifies this`workerStats
      ensures workerStats == RecordSearch(old(workerStats), id, success)
    {
      if id !in workerStats {
        workerStats := workerStats[id := WorkerStat(0, 0, 0)];
      }
      var s := workerStats[id];
      s := s.(searches := s.searches + 1);
      if success {
        s := s.(successCount := s.successCount + 1);
      } else {
        s := s.(errorCount := s.errorCount + 1);
      }
      workerStats := workerStats[id := s];
    }

    /**
     * The classification loop of `search`: a fulfilled worker's reply is kept,
     * a failed worker gets an error entry under its id, and either way the
     * worker's statistics record the search.
     */
    method ClassifyOutcomes(outcomes: seq<SearchOutcome>) returns (valid: seq<WorkerReply>, errors: seq<ErrorEntry>)
      requires |outcomes| == |workers|
      modifies this`workerStats
      ensures valid == ValidReplies(outcomes)
      ensures errors == Errors(Ids(workers), outcomes)
      ensures workerStats == Tally(old(workerStats), Ids(workers), Successes(outcomes))
    {
      ghost var ids, succ := Ids(workers), Successes(outcomes);
      valid, errors := [], [];
      for index := 0 to |outcomes|
        invariant valid == ValidReplies(outcomes[..index])
        invariant errors == Errors(ids[..index], outcomes[..index])
        invariant workerStats == Tally(old(workerStats), ids[..index], succ[..index])
      {
        assert outcomes[..index + 1][..index] == outcomes[..index];
        assert ids[..index + 1][..index] == ids[..index];
        assert succ[..index + 1][..index] == succ[..index];
        if outcomes[index].Fulfilled? {
          valid := valid + [outcomes[index].reply];
          UpdateWorkerStats(workers[index].id, true);
        } else {
          errors := errors + [ErrorEntry(workers[index].id, ErrorText(outcomes[index].message))];
          UpdateWorkerStats(workers[index].id, false);
        }
      }
      assert outcomes[..|outcomes|] == outcomes && ids[..|ids|] == ids && succ[..|succ|] == succ;
    }

    /**
     * `search`: fails before initialisation, answers a blank query with the
     * empty answer, and otherwise classifies each worker's outcome (recording
     * it in the statistics), merges the fulfilled replies and counts the search.
     */
    method Search(query: string, options: SearchOptions, outcomes: seq<SearchOutcome>)
      returns (r: Result<SearchAnswer, string>)
      requires |outcomes| == |workers|
      requires Valid()
      modifies this`totalSearches, this`workerStats
      ensures Valid()
      ensures !isInitialized ==>
                r.Failure? && r.error == NotInitializedError
                && totalSearches == old(totalSearches) && workerStats == old(workerStats)
      ensures isInitialized && Blank(query) ==>
                r.Success? && r.value == EmptyAnswer
                && totalSearches == old(totalSearches) && workerStats == old(workerStats)
      ensures isInitialized && !Blank(query) ==>
                r.Success?
                && r.value == Answer(
                     MergeOutput(ValidReplies(outcomes), options.query, options.limit),
                     ValidReplies(outcomes),
                     Errors(Ids(workers), outcomes),
                     |ValidReplies(outcomes)|,
                     |workers|)
                && totalSearches == old(totalSearches) + 1
                && workerStats == Tally(old(workerStats), Ids(workers), Successes(outcomes))
    {
      if !isInitialized {
        return Failure(NotInitializedError);
      }
      if |FallbackWorker.Trim(query)| == 0 {
        return Success(EmptyAnswer);
      }
      var valid, errors := ClassifyOutcomes(outcomes);
      TallyBalanced(old(workerStats), Ids(workers), Successes(outcomes));
      var merged := MergeResults(valid, options);
      totalSearches := totalSearches + 1;
      r := Success(Answer(merged, valid, errors, |valid|, |workers|));
    }

    /** `getStats`: the counters, the data size and how many workers are of each type. */
    function GetStats(): (s: ManagerStats)
      reads this
      ensures s.totalSearches == totalSearches && s.workerStats == workerStats
      ensures s.isInitialized == isInitialized && s.workerCount == |workers| && s.dataSize == |data|
      ensures s.fallback == FallbackCount(workers) && s.flexSearch + s.fallback == s.workerCount
    {
      WorkerTypesSum(workers);
      ManagerStats(totalSearches, workerStats, isInitialized, |workers|, |data|,
                   FlexCount(workers), FallbackCount(workers))
    }

    /** `destroy`: forgets every worker and is no longer initialised. */
    method Destroy()
      modifies this`workers, this`isInitialized
      ensures workers == [] && !isInitialized
    {
      workers := [];
      isInitialized := false;
    }
  }
}
