/**
 * A search node (backend/node.js): it holds the whole title list, keeps the
 * slice for the range the coordinator assigned, and answers searches over that
 * slice. The full-text index is abstracted: a search receives the index's
 * candidate list of local ids as input, and building the index either
 * succeeds or throws, which is also an input.
 */
module SearchNode {
  import opened Wrappers
  import opened Lists
  import opened Text
  import opened Sorting
  import opened Ranking
  import opened Partition

  /** One search result: `id` is global (range start + local id). */
  datatype NodeHit = NodeHit(id: int, title: string, nodeId: string, dataRange: Range)

  /**
   * The object `search` resolves to. The error path carries `error` and
   * neither `dataRange` nor `totalIndexed`.
   */
  datatype SearchReply = SearchReply(
    results: seq<NodeHit>,
    responseTime: int,
    nodeId: string,
    dataRange: Option<Range>,
    totalIndexed: Option<nat>,
    error: Option<string>)

  datatype NodeStats = NodeStats(
    nodeId: string,
    port: int,
    dataRange: Range,
    totalSearches: nat,
    status: string,
    moviesCount: nat)

  const IndexMissing := "Search index not initialized"

  function HitTitle(h: NodeHit): string { h.title }

  /** A candidate local id that names a non-empty title of the held slice. */
  predicate Usable(movies: seq<string>, id: int) {
    0 <= id < |movies| && movies[id] != ""
  }

  /**
   * The results gathered from the candidate list before sorting: candidates
   * are taken in order, unusable ones are skipped, and gathering stops once
   * `limit` results are held.
   */
  function Hits(movies: seq<string>, range: Range, nodeId: string, candidates: seq<int>, limit: int): (r: seq<NodeHit>)
    ensures |r| <= Max(0, limit)
    ensures forall h :: h in r ==>
              && Usable(movies, h.id - range.start)
              && h.title == movies[h.id - range.start]
              && h.nodeId == nodeId && h.dataRange == range
  {
    if candidates == [] then []
    else
      var prev := Hits(movies, range, nodeId, candidates[..|candidates| - 1], limit);
      var id := candidates[|candidates| - 1];
      if |prev| >= limit || !Usable(movies, id) then prev
      else prev + [NodeHit(range.start + id, movies[id], nodeId, range)]
  }

  /** Once `limit` results are held, further candidates change nothing. */
  lemma {:induction false} HitsSaturate(movies: seq<string>, range: Range, nodeId: string, candidates: seq<int>, n: nat, limit: int)
    requires n <= |candidates|
    requires |Hits(movies, range, nodeId, candidates[..n], limit)| >= limit
    ensures Hits(movies, range, nodeId, candidates, limit) == Hits(movies, range, nodeId, candidates[..n], limit)
    decreases |candidates| - n
  {
    if n < |candidates| {
      assert candidates[..n + 1][..n] == candidates[..n];
      HitsSaturate(movies, range, nodeId, candidates, n + 1, limit);
    } else {
      assert candidates[..n] == candidates;
    }
  }

  /**
   * While fewer than `limit` results are held, every usable candidate seen so
   * far has produced a result.
   */
  lemma {:induction false} HitsComplete(movies: seq<string>, range: Range, nodeId: string, candidates: seq<int>, limit: int, k: int)
    requires |Hits(movies, range, nodeId, candidates, limit)| < limit
    requires 0 <= k < |candidates| && Usable(movies, candidates[k])
    ensures NodeHit(range.start + candidates[k], movies[candidates[k]], nodeId, range)
              in Hits(movies, range, nodeId, candidates, limit)
  {
    var init := candidates[..|candidates| - 1];
    var prev := Hits(movies, range, nodeId, init, limit);
    if k < |candidates| - 1 {
      assert init[k] == candidates[k];
      HitsComplete(movies, range, nodeId, init, limit, k);
    }
  }

  class DistributedSearchNode {
    const nodeId: string
    const port: int
    var dataRange: Range
    /** Whether an index exists (`this.index` is non-null). */
    var indexed: bool
    var movies: seq<string>
    var allMovies: seq<string>
    var totalSearches: nat

    /** The held slice is always the assigned range of the full list. */
    ghost predicate Valid()
      reads this
    {
      movies == JsSlice(allMovies, dataRange.start, dataRange.end)
    }

    constructor (nodeId: string, port: int)
      ensures Valid()
      ensures this.nodeId == nodeId && this.port == port
      ensures dataRange == Range(0, 0) && !indexed && movies == [] && allMovies == []
      ensures totalSearches == 0
    {
      this.nodeId := nodeId;
      this.port := port;
      dataRange := Range(0, 0);
      indexed := false;
      movies := [];
      allMovies := [];
      totalSearches := 0;
    }

    /** `loadAllMovies`: the data file's contents are the argument. */
    method LoadAllMovies(data: seq<string>)
      modifies this
      ensures allMovies == data
      ensures dataRange == old(dataRange) && indexed == old(indexed) && movies == old(movies)
      ensures totalSearches == old(totalSearches)
      ensures old(dataRange.start >= dataRange.end) && old(movies) == [] ==> Valid()
    {
      allMovies := data;
    }

    /**
     * `updateDataRange`: the range and the slice are replaced first; then a new
     * index is created and filled, and the filling succeeds exactly when
     * `indexBuilds` holds. The new index is in place before it is filled, so a
     * failed rebuild leaves the new range, the new slice and a partly filled
     * index, which answers searches.
     */
    method UpdateDataRange(newRange: Range, indexBuilds: bool) returns (ok: bool)
      modifies this
      ensures Valid()
      ensures dataRange == newRange
      ensures movies == JsSlice(allMovies, newRange.start, newRange.end)
      ensures ok == indexBuilds
      ensures indexed
      ensures allMovies == old(allMovies) && totalSearches == old(totalSearches)
    {
      dataRange := newRange;
      movies := JsSlice(allMovies, dataRange.start, dataRange.end);
      indexed := true;
      ok := indexBuilds;
    }

    /**
     * `search`: `candidates` is the index's answer as local ids and `elapsed`
     * the measured response time.
     */
    method Search(query: string, limit: Option<int>, candidates: seq<int>, elapsed: int) returns (reply: SearchReply)
      requires Valid()
      modifies this
      ensures Valid()
      ensures dataRange == old(dataRange) && movies == old(movies) && allMovies == old(allMovies)
      ensures indexed == old(indexed)
      ensures reply.nodeId == nodeId
      ensures !indexed ==>
                reply == SearchReply([], elapsed, nodeId, None, None, Some(IndexMissing))
                && totalSearches == old(totalSearches)
      ensures indexed && movies == [] ==>
                reply == SearchReply([], 0, nodeId, Some(dataRange), Some(0), None)
                && totalSearches == old(totalSearches)
      ensures indexed && movies != [] ==>
                && reply.results == JsTake(SortBy(Hits(movies, dataRange, nodeId, candidates, EffectiveLimit(limit)),
                                                  RankBy(HitTitle, query)),
                                           EffectiveLimit(limit))
                && reply.responseTime == elapsed
                && reply.dataRange == Some(dataRange)
                && reply.totalIndexed == Some(|movies|)
                && reply.error.None?
                && totalSearches == old(totalSearches) + 1
    {
      if !indexed {
        return SearchReply([], elapsed, nodeId, None, None, Some(IndexMissing));
      }
      if |movies| == 0 {
        return SearchReply([], 0, nodeId, Some(dataRange), Some(0), None);
      }
      var lim := EffectiveLimit(limit);
      var results := CollectHits(movies, dataRange, nodeId, candidates, lim);
      var sorted := SortBy(results, RankBy(HitTitle, query));
      totalSearches := totalSearches + 1;
      reply := SearchReply(JsTake(sorted, lim), elapsed, nodeId, Some(dataRange), Some(|movies|), None);
    }

    /** `getStats`: the reported count is the assigned range clipped to the data. */
    function GetStats(): (s: NodeStats)
      requires Valid()
      reads this
      ensures s.moviesCount == Max(0, Min(dataRange.end, |allMovies|) - Min(dataRange.start, |allMovies|))
      ensures s.status == "active" && s.dataRange == dataRange && s.totalSearches == totalSearches
    {
      NodeStats(nodeId, port, dataRange, totalSearches, "active", |movies|)
    }
  }

  /**
   * The candidate scan of `search`: usable ids become results with their
   * global id, and scanning stops once `limit` results are held.
   */
  method CollectHits(movies: seq<string>, range: Range, nodeId: string, candidates: seq<int>, limit: int)
    returns (results: seq<NodeHit>)
    ensures results == Hits(movies, range, nodeId, candidates, limit)
  {
    results := [];
    var i := 0;
    while i < |candidates|
      invariant 0 <= i <= |candidates|
      invariant results == Hits(movies, range, nodeId, candidates[..i], limit)
    {
      if |results| >= limit {
        HitsSaturate(movies, range, nodeId, candidates, i, limit);
        return;
      }
      var id := candidates[i];
      assert candidates[..i + 1][..i] == candidates[..i];
      if 0 <= id < |movies| && movies[id] != "" {
        results := results + [NodeHit(range.start + id, movies[id], nodeId, range)];
      }
      i := i + 1;
    }
    assert candidates[..i] == candidates;
  }

  /** A result names a non-empty title of the full list at its global id inside the node's range. */
  predicate FaithfulHit(allMovies: seq<string>, range: Range, nodeId: string, h: NodeHit) {
    && range.start <= h.id < range.end && h.id < |allMovies|
    && allMovies[h.id] == h.title && h.title != ""
    && h.nodeId == nodeId && h.dataRange == range
  }

  /** Global id = range start + local id points back at the same title in the full list. */
  lemma HitsFaithful(allMovies: seq<string>, range: Range, nodeId: string, candidates: seq<int>, limit: int)
    ensures forall h :: h in Hits(JsSlice(allMovies, range.start, range.end), range, nodeId, candidates, limit) ==>
              FaithfulHit(allMovies, range, nodeId, h)
  {
    var movies := JsSlice(allMovies, range.start, range.end);
    forall h | h in Hits(movies, range, nodeId, candidates, limit)
      ensures FaithfulHit(allMovies, range, nodeId, h)
    {
      var local := h.id - range.start;
      assert range.start + local < |allMovies| && movies[local] == allMovies[range.start + local];
    }
  }

  /**
   * What a successful search returns: sorted by the relevance comparator, at
   * most `limit` long, and made only of faithful results.
   */
  lemma AnswerProperties(allMovies: seq<string>, range: Range, nodeId: string, candidates: seq<int>,
                         query: string, limit: Option<int>)
    ensures var lim := EffectiveLimit(limit);
            var r := JsTake(SortBy(Hits(JsSlice(allMovies, range.start, range.end), range, nodeId, candidates, lim),
                                   RankBy(HitTitle, query)), lim);
            && SortedBy(r, RankBy(HitTitle, query))
            && |r| <= Max(0, lim)
            && forall h :: h in r ==> FaithfulHit(allMovies, range, nodeId, h)
  {
    var lim := EffectiveLimit(limit);
    var hits := Hits(JsSlice(allMovies, range.start, range.end), range, nodeId, candidates, lim);
    var sorted := SortBy(hits, RankBy(HitTitle, query));
    var r := JsTake(sorted, lim);
    RankByConsistent(HitTitle, query);
    SortBySorted(hits, RankBy(HitTitle, query));
    SortedPrefix(sorted, |r|, RankBy(HitTitle, query));
    HitsFaithful(allMovies, range, nodeId, candidates, lim);
    forall h | h in r ensures FaithfulHit(allMovies, range, nodeId, h) {
      assert h in multiset(sorted);
      assert h in multiset(hits);
    }
  }

  /** A node whose range starts at or after its end holds no titles. */
  lemma EmptyRangeHoldsNothing(allMovies: seq<string>, range: Range)
    requires range.start >= range.end || range.start >= |allMovies|
    ensures JsSlice(allMovies, range.start, range.end) == []
  {
  }
}
