# Sharded title search: a Dafny model

This project models the partition-and-merge core of a sharded movie-title search.

The **networked copy** has three parts:
- A coordinator (`backend/coordinator.js`) keeps a registry of search nodes in registration order. It gives node *i* of *k* the range `[i·chunk, min(i·chunk+chunk, N))` with `chunk = ceil(N/k)`. It queries every healthy node, merges the answers, ranks them (contains the query, then starts with it, then `localeCompare`), cuts them to `options.limit || 25`, and keeps counters and a 50-entry history.
- A search node (`backend/node.js`) holds the slice of titles for its range. It turns the index's candidate list of local ids into results with global ids, ranks them the same way and cuts them to the limit.
- A Redis cache (`backend/cache-manager.js`):
  - builds deterministic, 200-character search keys from base64;
  - gates every operation on the connection;
  - writes results with a TTL and counts hot queries in a sorted set;
  - invalidates by pattern;
  - parses `INFO` replies.

The **in-browser copy** has two parts:
- A worker-pool manager (`distributed-search-manager.js`):
  - cuts the data into enriched chunks the same way;
  - waits for each worker's initialisation with a timeout-and-fallback retry;
  - classifies how each worker's search settled;
  - merges the hits with a comparator that compares scores when both hits carry one, then exact match, then title length;
  - keeps per-worker counters.
- A fallback worker (`search-worker-fallback.js`):
  - normalises strings;
  - scores titles 100 for the phrase, 10 per query word and 50 for a prefix match;
  - sorts by score, then by length, and cuts to the limit;
  - answers four message types.

## Modules

- **Pure logic** is written as datatypes, functions and lemmas:
  - `Text`: ASCII lower-casing, `includes`/`startsWith`, code-point order standing in for `localeCompare`, the `\s` and `\w` character sets.
  - `Lists`: `slice` semantics and the `x || default` idiom.
  - `Sorting`: the built-in stable sort, as an insertion sort over a sequence.
  - `Ranking`: the relevance comparator.
  - `Partition`: the range arithmetic.
  - `Base64`: RFC 4648 section 4 encoding, and UTF-8 after RFC 3629.
- **State the source updates in place** is written as classes:
  - `SearchCoordinator`, with the node `Map` as a key order plus a map;
  - `DistributedSearchNode`;
  - `DistributedSearchManager`;
  - `FallbackWorkerState`, the worker's module-level variables;
  - `DistributedCacheManager`, over a Redis server modelled as a value.
- **Loops in the source** are methods with loop invariants, each proved against a specification function:
  - the coordinator's redistribution, notification and outcome loops;
  - the node's candidate scan;
  - the manager's creation, wait, classification and merge loops;
  - the fallback scorer;
  - `parseRedisInfo`.
- **Concurrency, timers and the network** are replaced by inputs:
  - a sequence of per-node or per-worker outcomes, consumed in order;
  - for each worker, the sequence of messages it posts, where a timer firing is an event;
  - `now` in milliseconds;
  - the full-text index's candidate list.

Four behaviours of the code that the model keeps as written:
- **Range example:** for 100 titles and 3 nodes the chunk is ceil(100/3) = 34, so the ranges are `[0,34),[34,68),[68,100)`.
- **Fallback retries:** a worker may retry with the fallback while `retryCount < retryAttempts`, which defaults to 2, so more than once.
- **No cache in the coordinator:** `backend/coordinator.js` never consults the cache, so the coordinator model has none.
- **Returning to active:** a node marked `'error'` becomes active again only by registering anew. A later successful contact does not revive it.

## Model

| member | source | states |
|---|---|---|
| Text.Lower | backend/coordinator.js:181-183 | lower-casing keeps the length, maps each character on its own and leaves no upper-case ASCII letter |
| Text.StartsWithContains | backend/coordinator.js:186-191 | a title that starts with the query also contains it |
| Text.ContainsTransitive | search-worker-fallback.js:35-41 | a string containing the phrase contains everything the phrase contains |
| Text.LexCompare | backend/coordinator.js:193 | the stand-in for `localeCompare` answers -1, 0 or 1 |
| Text.LexCompareAntisymmetric | backend/coordinator.js:193 | swapping the arguments negates the comparison |
| Text.LexCompareZero | backend/coordinator.js:193 | the comparison is 0 exactly for equal strings |
| Text.LexCompareTransitive | backend/coordinator.js:193 | the comparison is transitive |
| Text.NatToString | distributed-search-manager.js:76 | a decimal rendering is non-empty and made of digits |
| Text.NatToStringInjective | distributed-search-manager.js:76 | different numbers print differently |
| Lists.JsSlice | backend/node.js:47 | `slice(start, end)` clamps both bounds to the length, is empty when start ≥ end, and holds the elements at start + i |
| Lists.TakeCount | backend/coordinator.js:198 | the length of `slice(0, limit)` is min(limit, n) for a non-negative limit and never exceeds n |
| Lists.JsTake | backend/coordinator.js:198 | `slice(0, limit)` is a prefix of the list, of that length |
| Lists.NumberOr | distributed-search-manager.js:5-9 | `x \|\| d` gives d for an absent or zero value and x otherwise, and is never 0 when d is not |
| Lists.EffectiveLimit | backend/coordinator.js:197 | `options.limit \|\| 25` is 25 when the limit is absent or 0, the limit itself otherwise, and never 0 |
| Lists.TakeSubMultiset | backend/coordinator.js:198 | the cut list holds only elements of the sorted list |
| Sorting.Insert | backend/coordinator.js:180-194 | inserting adds exactly the one element (as a multiset) |
| Sorting.SortBy | backend/coordinator.js:180-194 | the built-in sort returns a permutation of its input |
| Sorting.InsertSorted | backend/coordinator.js:180-194 | inserting into a sorted list under a consistent comparator keeps it sorted |
| Sorting.SortBySorted | backend/coordinator.js:180-194 | with a consistent comparator, the sort's output is sorted |
| Sorting.SortedPrefix | backend/coordinator.js:196-198 | a prefix of a sorted list is sorted |
| Sorting.SortThreeKept | distributed-search-manager.js:345-360 | three elements already in comparator order stay as they are |
| Sorting.SortAgrees | distributed-search-manager.js:345-360 | two comparators that agree on every pair drawn from a list sort it the same way |
| Sorting.SortStable | search-worker-fallback.js:66-69 | the sort is stable: with a consistent comparator, the elements tied with any given element come out in the order they went in |
| Sorting.SortThreeRotated | distributed-search-manager.js:345-360 | when the last of three goes before the other two, and those are in order, the sort moves it to the front |
| Ranking.Compare | backend/coordinator.js:180-194 | the relevance comparator answers -1, 0 or 1 |
| Ranking.CompareAntisymmetric | backend/node.js:140-154 | swapping two titles negates the relevance comparison |
| Ranking.CompareTransitive | backend/node.js:140-154 | the relevance comparison is transitive |
| Ranking.RankByConsistent | backend/coordinator.js:180-194 | the comparator passed to both sorts is a consistent comparison |
| Ranking.SortedByRank | backend/coordinator.js:185-191 | in a ranked list, a title containing the query precedes every title that does not; among titles that agree on containment, a prefix match precedes a non-prefix match |
| Partition.CeilDiv | backend/coordinator.js:34 | `Math.ceil(n/k)`: chunk·k ≥ n, and (chunk−1)·k < n when n > 0 |
| Partition.Partition | backend/coordinator.js:39-45 | the range table has one entry per node, and node i gets `[i·chunk, min(i·chunk+chunk, n))` |
| Partition.RangeBounds | backend/coordinator.js:40-41 | every range ends at or before n; a range starting inside the data is non-empty and at most one chunk long |
| Partition.Contiguous | backend/coordinator.js:39-45 | a range starting inside the data starts where its predecessor ends |
| Partition.Disjoint | backend/coordinator.js:39-45 | an earlier node's range ends at or before a later node's starts |
| Partition.Covers | backend/coordinator.js:39-45 | every index below n lies in some node's range |
| Partition.UniqueOwner | backend/coordinator.js:39-45 | no index lies in two nodes' ranges |
| Partition.StartsMonotone | backend/coordinator.js:40 | range starts never decrease along the registration order |
| Partition.ExampleThreeNodes | backend/coordinator.js:34-45 | 100 titles over 3 nodes give `[0,34),[34,68),[68,100)` |
| Partition.ExampleEmptyTail | backend/coordinator.js:34-45 | 5 titles over 4 nodes give the last node the range 6..5, which starts after it ends |
| SearchNode.Hits | backend/node.js:119-137 | every gathered result has a usable local id, names the title at that id, and carries the node id and range; at most `limit` are gathered |
| SearchNode.HitsSaturate | backend/node.js:123 | once `limit` results are held, later candidates change nothing |
| SearchNode.HitsComplete | backend/node.js:122-133 | while fewer than `limit` results are held, every usable candidate has produced its result |
| SearchNode.CollectHits | backend/node.js:116-137 | the candidate scan returns exactly the gathered results |
| SearchNode.DistributedSearchNode.constructor | backend/node.js:7-22 | a new node has range 0..0, no index, no titles and no searches |
| SearchNode.DistributedSearchNode.LoadAllMovies | backend/node.js:25-37 | loading replaces the full title list and nothing else |
| SearchNode.DistributedSearchNode.UpdateDataRange | backend/node.js:40-58 | the range and slice are replaced (the slice is the full list's `slice(start, end)`); the result is true exactly when the index is filled without error; afterwards the node has an index even when filling failed, because the new index is in place before it is filled |
| SearchNode.DistributedSearchNode.Search | backend/node.js:87-186 | without an index: empty results with the error and no count. With no titles: empty results, time 0 and `totalIndexed` 0. Otherwise: the gathered results ranked and cut to the limit, `totalIndexed` = slice length, and the search counted once |
| SearchNode.DistributedSearchNode.GetStats | backend/node.js:221-231 | `moviesCount` is the length of the range clipped to the data; the status is "active" |
| SearchNode.HitsFaithful | backend/node.js:125-131 | every result's global id points back at its own, non-empty title in the full list, inside the node's range |
| SearchNode.AnswerProperties | backend/node.js:139-166 | a successful answer is sorted by the relevance comparator, at most `limit` long, and made only of faithful results |
| SearchNode.EmptyRangeHoldsNothing | backend/node.js:47 | a range that starts at or after its end, or past the data, holds no titles |
| Coordinator.ActiveIds | backend/coordinator.js:97-99 | the healthy ids are exactly the registered ids whose status is active, without repeats |
| Coordinator.ActiveIdsOrdered | backend/coordinator.js:97-99 | the healthy nodes keep their registration order |
| Coordinator.Tag | backend/coordinator.js:167-173 | each merged result carries the node's id as `sourceNode` and its range as `nodeDataRange` |
| Coordinator.MergedSound | backend/coordinator.js:162-177 | every merged result comes from an answering node, carrying that node's id and range |
| Coordinator.MergedComplete | backend/coordinator.js:162-177 | every result of every answering node is in the merge, tagged with that node |
| Coordinator.FailedContributesNothing | backend/coordinator.js:139-149 | a failed node contributes no merged result |
| Coordinator.CountAnswered | backend/coordinator.js:162-177 | the number of answering nodes is at most the number queried |
| Coordinator.Reports | backend/coordinator.js:165 | one report per answering node |
| Coordinator.MergeStep | backend/coordinator.js:162-177 | one more outcome extends the merge, the reports, the count and the registry by exactly that node's part |
| Coordinator.SettleAll | backend/coordinator.js:126-141 | settling outcomes keeps the registry's key set |
| Coordinator.SettleAllUntouched | backend/coordinator.js:114-150 | a node that was not queried keeps its entry |
| Coordinator.SettleAllQueried | backend/coordinator.js:126-141 | a node queried once gets one more request on success, or status `'error'` on failure |
| Coordinator.SettleAllLayout | backend/coordinator.js:126-141 | settling never changes a node's range or id |
| Coordinator.SettleAllEffect | backend/coordinator.js:114-150 | the whole effect of a search on the registry: each queried node settled by its own outcome, every other node untouched, no range or id changed |
| Coordinator.SettleKeepsLayout | backend/coordinator.js:114-150 | a search keeps the registry well formed and distributed |
| Coordinator.RecentWindow | backend/coordinator.js:213-215 | the history keeps its last min(n, 50) entries |
| Coordinator.MergedAnswer | backend/coordinator.js:180-198 | the answer is ranked by the relevance comparator, min(limit, total) long for a positive limit, and drawn from the merge |
| Coordinator.RegistryCovers | backend/coordinator.js:30-46 | after redistribution, every title index lies in exactly one node's range |
| Coordinator.SettleOutcomes | backend/coordinator.js:162-177 | the outcome loop yields the settled registry, the merge, the reports, and as failures those not answered |
| Coordinator.SearchCoordinator.constructor | backend/coordinator.js:16-27 | empty registry, 26770 titles, zero counters |
| Coordinator.SearchCoordinator.RedistributeData | backend/coordinator.js:30-46 | node i in registration order gets the i-th range and nothing else changes; no-op without nodes |
| Coordinator.SearchCoordinator.RegisterNode | backend/coordinator.js:49-76 | inserts or replaces the node as active with zero requests (a replaced id keeps its position), leaves other nodes' status and counts alone, redistributes, and answers with the node's new range |
| Coordinator.SearchCoordinator.NotifyNodesDataRange | backend/coordinator.js:79-94 | exactly the nodes whose update failed are marked `'error'` |
| Coordinator.SearchCoordinator.HealthyNodes | backend/coordinator.js:97-99 | the active entries, in registration order |
| Coordinator.SearchCoordinator.DistributedSearch | backend/coordinator.js:102-230 | with no healthy node: the "No healthy search nodes available" error and nothing changed. Otherwise: the ranked, cut merge; queried = successful + failed; settled registry; one more request; history window updated |
| Coordinator.HealthyCount | backend/coordinator.js:97-99 | the healthy list has exactly as many entries as there are active nodes |
| Coordinator.SearchCoordinator.GetSystemStatus | backend/coordinator.js:233-249 | one status per node, healthy exactly when active; `healthyNodes` is the number of active nodes, at most the total; the counters and the request history as kept |
| FallbackWorker.StripMarks | search-worker-fallback.js:10-11 | no combining mark is left, nothing new is added, and a mark-free string is unchanged |
| FallbackWorker.ReplaceSpecial | search-worker-fallback.js:12 | each character that is neither `\w` nor `\s` becomes a space, position by position |
| FallbackWorker.LeadingSpaces | search-worker-fallback.js:14 | counts exactly the white space at the start |
| FallbackWorker.TrailingSpaces | search-worker-fallback.js:14 | counts exactly the white space at the end |
| FallbackWorker.Collapse | search-worker-fallback.js:13 | collapsing is empty only for the empty string; the first character is a space exactly when the string starts with white space; every white-space character left is a space; and the non-space characters are kept, in order (`WithoutSpace` of the result equals `WithoutSpace` of the input) |
| FallbackWorker.CollapseSingleSpaces | search-worker-fallback.js:13 | after collapsing, no two spaces are adjacent |
| FallbackWorker.CollapseChars | search-worker-fallback.js:13 | when only lower-case word characters and white space go in, only lower-case word characters and spaces come out |
| FallbackWorker.ReplacedChars | search-worker-fallback.js:9-13 | after lower-casing, stripping, replacing and collapsing, only lower-case word characters and spaces remain |
| FallbackWorker.TrimSlice | search-worker-fallback.js:14 | trimming keeps a contiguous piece of the string |
| FallbackWorker.TrimEnds | search-worker-fallback.js:14 | a trimmed string has no white space at either end |
| FallbackWorker.TrimKeeps | search-worker-fallback.js:14 | trimming a single-spaced string of word characters gives a normalised string |
| FallbackWorker.NormalizeNormalized | search-worker-fallback.js:8-15 | every output is lower-case word characters separated by single spaces, with no space at either end |
| FallbackWorker.CollapseNormalized | search-worker-fallback.js:13 | collapsing leaves a single-spaced string unchanged |
| FallbackWorker.LowerNormalized | search-worker-fallback.js:9 | lower-casing leaves a normalised string unchanged |
| FallbackWorker.StripReplaceNormalized | search-worker-fallback.js:10-12 | stripping and replacing leave a normalised string unchanged |
| FallbackWorker.TrimNormalized | search-worker-fallback.js:14 | trimming leaves a normalised string unchanged |
| FallbackWorker.NormalizeFixesNormalized | search-worker-fallback.js:8-15 | a normalised string is its own normalisation |
| FallbackWorker.NormalizeIdempotent | search-worker-fallback.js:8-15 | normalising twice is normalising once |
| FallbackWorker.FirstSpace | search-worker-fallback.js:20 | the index of the first space |
| FallbackWorker.SplitSpaces | search-worker-fallback.js:20 | `split(' ')` gives at least one piece; no piece holds a space, each occurs in the string, and joining the pieces with spaces gives back the string |
| FallbackWorker.NonEmpty | search-worker-fallback.js:20 | the filter keeps every non-empty piece as often as it occurs and drops the empty ones (multiset equality); with no empty piece it is the identity |
| FallbackWorker.NonEmptyAppend | search-worker-fallback.js:20 | the filter keeps the order: filtering a concatenation concatenates the filtered parts |
| FallbackWorker.Words | search-worker-fallback.js:19-20 | every query word is non-empty, holds no space and occurs in the normalised query; for a normalised query there are no words exactly when the query is empty, and the words joined with spaces give back the query |
| FallbackWorker.QueryWordsWordLike | search-worker-fallback.js:19-20 | every query word is made of lower-case `\w` characters, so it can be marked as plain text |
| FallbackWorker.WordScore | search-worker-fallback.js:40-47 | at most 10 per word; positive exactly when some word is contained; 10 per word when all are |
| FallbackWorker.ScorePositiveIff | search-worker-fallback.js:31-54 | a title scores exactly when it contains one of the query words |
| FallbackWorker.PhraseOutranks | search-worker-fallback.js:34-52 | a title containing the phrase scores more than any title that does not |
| FallbackWorker.MatchesAtTail | search-worker-fallback.js:44-45 | a case-insensitive match at i ≥ 1 is a match at i − 1 in the tail |
| FallbackWorker.MatchesAfterMiss | search-worker-fallback.js:44-45 | without a match at the front, a match exists exactly when one exists in the tail |
| FallbackWorker.MarkAll | search-worker-fallback.js:44-45 | the `gi` replace never shortens the title, is the identity without a match, and lengthens it when there is one |
| FallbackWorker.Highlight | search-worker-fallback.js:32-47 | the highlight never shortens the title and is the title itself when no word matches |
| FallbackWorker.MarkAllUnbold | search-worker-fallback.js:44-45 | marking a word other than "b" changes nothing but tags: removing the `<b>`/`</b>` tags reads the same before and after |
| FallbackWorker.HighlightUnbold | search-worker-fallback.js:40-47 | when no query word is "b", removing the tags from the highlight gives back the title (exactly the title when it holds no '<') |
| FallbackWorker.HighlightMarksInsideTags | search-worker-fallback.js:40-47 | query "plan b" on "Plan B": the word "b" is found inside the tag added for "plan", and the highlight starts `<<b>` |
| FallbackWorker.HighlightBreaksTags | search-worker-fallback.js:40-47 | removing the tags from that highlight does not give back "Plan B" |
| FallbackWorker.MarkOutsideTagsUnbold | search-worker-fallback.js:44-45 | marking that passes over the tags already placed changes nothing but tags, for every word including "b" |
| FallbackWorker.CorrectedHighlightUnbold | search-worker-fallback.js:40-47 | with that marking, removing the tags from the highlight gives back the title for every query |
| FallbackWorker.CorrectedHighlightPlanB | search-worker-fallback.js:40-47 | with that marking, the "plan b" highlight of "Plan B" reads as "Plan B" once its tags are removed |
| FallbackWorker.ByScoreConsistent | search-worker-fallback.js:66-69 | score-then-length is a consistent comparison |
| FallbackWorker.Evaluate | search-worker-fallback.js:26-62 | item i is scored under its own index and title |
| FallbackWorker.Evaluations | search-worker-fallback.js:26-29 | one evaluation per data item, in order |
| FallbackWorker.Positive | search-worker-fallback.js:54-62 | only positive scores are kept, in data order, each at its own index |
| FallbackWorker.PositiveStep | search-worker-fallback.js:54-62 | one more item appends it exactly when it scores |
| FallbackWorker.PositiveComplete | search-worker-fallback.js:54-62 | every item with a positive score is kept |
| FallbackWorker.Scored | search-worker-fallback.js:26-63 | each kept result is the evaluation of its own data item, scores positive, and the ids increase |
| FallbackWorker.ScoredComplete | search-worker-fallback.js:26-63 | every data item that scores is among the results |
| FallbackWorker.RankedOrdered | search-worker-fallback.js:65-73 | the answer is by score descending, then by title length ascending |
| FallbackWorker.RankedSound | search-worker-fallback.js:55-73 | at most `limit` results for a positive limit; each has its data index as `id`, that item's title, and a positive score computed from it |
| FallbackWorker.PhraseFirst | search-worker-fallback.js:35-69 | in the answer, an item containing the phrase comes before every item that does not |
| FallbackWorker.ScoreTitle | search-worker-fallback.js:31-52 | the scoring loop computes the score (100 / 10 per word / 50) and the highlight |
| FallbackWorker.EvaluateItem | search-worker-fallback.js:27-62 | scoring one item gives its evaluation |
| FallbackWorker.ScoreAll | search-worker-fallback.js:26-63 | when every title is text, the scoring loop yields every item that scores, in data order; otherwise it fails with the error `toLowerCase` raises on an object |
| FallbackWorker.SimpleSearch | search-worker-fallback.js:18-74 | `simpleSearch` returns [] when the query has no words; it throws when the query has words and some title is not text; otherwise it returns the ranked answer |
| FallbackWorker.TagAll | search-worker-fallback.js:96-99 | every result gets the worker's id, in order |
| FallbackWorker.FallbackWorkerState.constructor | search-worker-fallback.js:4-5 | no data and no id |
| FallbackWorker.FallbackWorkerState.InitializeWorker | search-worker-fallback.js:77-81 | stores the data and the id |
| FallbackWorker.FallbackWorkerState.SearchInWorker | search-worker-fallback.js:84-118 | with no data: empty results and "Worker not initialized". When the search throws: the `catch` reply with no results, the error and `dataSize`. Otherwise: the ranked answer tagged with the worker id, and `dataSize` = data length |
| FallbackWorker.FallbackWorkerState.HandleMessage | search-worker-fallback.js:121-168 | INIT stores and replies `INIT_COMPLETE`. SEARCH replies as `searchInWorker` does, error reply included. `HEALTH_CHECK` reports `isReady` as "data non-empty". Any other type replies `ERROR`. Only INIT changes the state |
| WorkerPool.WorkerNameInjective | distributed-search-manager.js:76 | workers of one initialisation have distinct ids |
| WorkerPool.EnrichOne | distributed-search-manager.js:61-73 | every enriched item is a record with a position, given when the item has none; a record with an empty title gets the record itself as its title, and every other item keeps its title text |
| WorkerPool.Enrich | distributed-search-manager.js:61-73 | item j of a chunk becomes the enriched item at position start + j |
| WorkerPool.ChunkPointsBack | distributed-search-manager.js:55-73 | item j of chunk i is data item start + j, with its title; an item without a truthy `originalIndex` is given that index; the item's title is an object exactly when the data item is a record with an empty title (or already has an object title) |
| WorkerPool.ChunksCover | distributed-search-manager.js:48-58 | every data item goes to exactly one worker, at its offset in that worker's chunk |
| WorkerPool.Created | distributed-search-manager.js:55-123 | one entry per worker; none for a count that is not positive |
| WorkerPool.Payloads | distributed-search-manager.js:55-126 | one INIT payload per worker |
| WorkerPool.InitRunRetries | distributed-search-manager.js:163-185 | the retries never exceed `retryAttempts`, and there are none when fallback is disabled |
| WorkerPool.AnswerDecides | distributed-search-manager.js:187-196 | an answer before any timeout decides the outcome without retry: `INIT_COMPLETE` resolves, `ERROR` rejects with the worker's text |
| WorkerPool.TimeoutRejects | distributed-search-manager.js:165-184 | a timeout with no retries left, or with fallback disabled, rejects with the timeout reason |
| WorkerPool.FirstWith | distributed-search-manager.js:173 | `find` gives the first entry with the id, or none |
| WorkerPool.MarkFallback | distributed-search-manager.js:173-177 | marking keeps the length and every id |
| WorkerPool.MarkFallbackChanges | distributed-search-manager.js:173-177 | only the first entry with the id changes, and only its `usingFallback`, which becomes true |
| WorkerPool.MarkFallbackIdempotent | distributed-search-manager.js:173-177 | marking twice is marking once |
| WorkerPool.FirstWithSameIds | distributed-search-manager.js:173 | `find` depends only on the ids |
| WorkerPool.MarkRetried | distributed-search-manager.js:173-177 | marking the retried workers keeps the length and every id |
| WorkerPool.FreshWorkersMarked | distributed-search-manager.js:115-177 | after a first initialisation, worker i uses the fallback exactly when its wait retried, and otherwise keeps its creation entry |
| WorkerPool.FirstRejection | distributed-search-manager.js:142-158 | the reason is that of the first rejected wait in the list, every wait before it having resolved |
| WorkerPool.EarliestRejection | distributed-search-manager.js:142-158 | `Promise.all` rejects with the reason of the first wait to reject in settle order, every wait settled before it having resolved |
| WorkerPool.Hits | distributed-search-manager.js:333-341 | a reply whose results are not an array contributes nothing; otherwise each hit, in order, tagged `fromWorker` |
| WorkerPool.FlattenPrefix | distributed-search-manager.js:333-342 | the hits of the first k replies are a prefix of all hits |
| WorkerPool.FlattenComplete | distributed-search-manager.js:333-342 | every hit of every reply with array results is collected, tagged with that reply's worker |
| WorkerPool.FlattenSound | distributed-search-manager.js:333-342 | every collected hit comes from some reply's results, tagged with that reply's worker |
| WorkerPool.MergeCompareAgrees | distributed-search-manager.js:345-360 | the corrected comparator agrees with the written one whenever both hits are scored or both are not |
| WorkerPool.MergeCompareTransitive | distributed-search-manager.js:345-360 | the corrected comparator is transitive |
| WorkerPool.MergeByConsistent | distributed-search-manager.js:345-360 | the corrected comparator is a consistent comparison |
| WorkerPool.MergeOutputSound | distributed-search-manager.js:362-364 | the merge holds only hits the workers sent, min(limit, total) of them for a positive limit |
| WorkerPool.UniformMergeAgrees | distributed-search-manager.js:345-360 | when every hit carries a score, or none does, the merge with the comparator as written equals the corrected merge |
| WorkerPool.UniformMergeOrdered | distributed-search-manager.js:345-364 | in that case the merge as written is ordered: a higher score first, then an exact match, then the shorter title |
| WorkerPool.CorrectedMergeOrdered | distributed-search-manager.js:345-360 | with the corrected comparator, scored hits come before unscored ones; a higher score comes first; then an exact match; then the shorter title |
| WorkerPool.AsWrittenInconsistent | distributed-search-manager.js:345-360 | the comparator as written is not a consistent comparison |
| WorkerPool.CycleComparisons | distributed-search-manager.js:345-360 | how the written and the corrected comparators order the three hits of the cycle |
| WorkerPool.AsWrittenMisorders | distributed-search-manager.js:345-360 | the written comparator sorts a score-1 hit before a score-2 hit |
| WorkerPool.CorrectedOrders | distributed-search-manager.js:345-360 | the corrected comparator puts the score-2 hit first and the unscored hit last |
| WorkerPool.ErrorText | distributed-search-manager.js:257 | `message \|\| 'Unknown error'` is never empty |
| WorkerPool.ClassifyPartitions | distributed-search-manager.js:250-261 | every worker is counted once: `workersUsed + errors.length = totalWorkers` |
| WorkerPool.ErrorsNamed | distributed-search-manager.js:254-258 | every error entry names a failed worker by its own id, with its message or "Unknown error" |
| WorkerPool.RecordSearchEffect | distributed-search-manager.js:368-389 | adds a zeroed entry on first use, counts one search and exactly one success or error, leaves others alone, keeps searches = successes + errors |
| WorkerPool.TallyBalanced | distributed-search-manager.js:250-261 | a round of searches keeps every worker balanced and adds exactly the workers involved |
| WorkerPool.TallyDistinct | distributed-search-manager.js:250-261 | with distinct ids, each worker's counters move exactly once per search |
| WorkerPool.TallyUntouched | distributed-search-manager.js:250-261 | a worker not involved keeps its counters |
| WorkerPool.WorkerTypesSum | distributed-search-manager.js:405-416 | FlexSearch workers plus fallback workers are all the workers |
| SearchManager.BlankIffSpaces | distributed-search-manager.js:226 | a query is blank exactly when all its characters are white space |
| SearchManager.Ids | distributed-search-manager.js:256 | the worker ids, in order |
| SearchManager.Successes | distributed-search-manager.js:251 | one flag per worker: fulfilled or not |
| SearchManager.MergeResults | distributed-search-manager.js:329-365 | the collection loop and the sort with the comparator as written produce the merge |
| SearchManager.PrepareWorker | distributed-search-manager.js:56-73 | worker i's entry and enriched chunk |
| SearchManager.BuildWorkers | distributed-search-manager.js:55-139 | the creation loop yields every entry and INIT payload, in worker order |
| SearchManager.DistributedSearchManager.constructor | distributed-search-manager.js:3-21 | `workerCount \|\| 4` and `retryAttempts \|\| 2`; fallback unless explicitly false; no workers or stats |
| SearchManager.DistributedSearchManager.InitOutcomes | distributed-search-manager.js:163-185 | worker j's wait starts with no retries |
| SearchManager.DistributedSearchManager.WaitForWorkerInit | distributed-search-manager.js:163-208 | the wait settles as the retry state machine says, and the worker is marked as fallback exactly when it retried |
| SearchManager.DistributedSearchManager.WaitForWorkers | distributed-search-manager.js:126-143 | waits for each worker in turn and marks those that retried |
| SearchManager.DistributedSearchManager.Initialize | distributed-search-manager.js:46-160 | pushes the new entries and payloads; initialised exactly when every wait resolved; otherwise fails with the reason of the wait that rejected first in settle order, and `isInitialized` keeps its earlier value |
| SearchManager.DistributedSearchManager.UpdateWorkerStats | distributed-search-manager.js:368-389 | counts one search for the worker |
| SearchManager.DistributedSearchManager.ClassifyOutcomes | distributed-search-manager.js:250-261 | fulfilled replies kept, failures named, every worker's stats updated once |
| SearchManager.DistributedSearchManager.Search | distributed-search-manager.js:221-297 | fails before initialisation; blank query gives the empty answer and counts nothing; otherwise the merge with the comparator as written, the errors, used + failed = total, one more search, stats tallied and balanced |
| SearchManager.DistributedSearchManager.GetStats | distributed-search-manager.js:405-416 | the counters and sizes; FlexSearch + fallback = worker count |
| SearchManager.DistributedSearchManager.Destroy | distributed-search-manager.js:419-430 | no workers, not initialised |
| Base64.AlphabetRoundTrip | backend/cache-manager.js:74 | each 6-bit value has its own character in the alphabet of RFC 4648 table 1, and reads back |
| Base64.EncodeLength | backend/cache-manager.js:74 | the encoding is 4·ceil(n/3) characters |
| Base64.Group | backend/cache-manager.js:74 | a decoded group holds one to three bytes, fewer only at the end |
| Base64.QuadRoundTrip | backend/cache-manager.js:74 | three bytes encode to four characters that decode back |
| Base64.DecodeOne | backend/cache-manager.js:74 | one trailing byte, padded with `==`, decodes back |
| Base64.DecodeTwo | backend/cache-manager.js:74 | two trailing bytes, padded with `=`, decode back |
| Base64.DecodeGroup | backend/cache-manager.js:74 | a full group followed by decodable text decodes group by group |
| Base64.EncodeDecodeShort | backend/cache-manager.js:74 | one or two bytes round-trip |
| Base64.EncodeStep | backend/cache-manager.js:74 | encoding proceeds three bytes at a time |
| Base64.EncodeDecode | backend/cache-manager.js:74 | decoding an encoding gives back the bytes |
| Base64.EncodeInjective | backend/cache-manager.js:74 | different bytes never share an encoding |
| Base64.EncodeAppend | backend/cache-manager.js:74 | a prefix whose length is a multiple of three encodes on its own |
| Base64.Utf8Char | backend/cache-manager.js:74 | one to four bytes per code point, one exactly for ASCII (its own code) |
| Base64.Utf8Append | backend/cache-manager.js:74 | the bytes of a concatenation are the concatenated bytes |
| Base64.Utf8Length | backend/cache-manager.js:74 | n characters take between n and 4n bytes |
| Base64.Utf8Ascii | backend/cache-manager.js:74 | an ASCII string's bytes are its character codes |
| Base64.Utf8AsciiInjective | backend/cache-manager.js:74 | ASCII strings with equal bytes are equal |
| Cache.Ttls | backend/cache-manager.js:18-23 | each of the four TTLs is its variable when that is a non-zero number, and its default (300, 30, 60, 1800) when unset, unparsable or 0; none is 0 |
| Cache.SearchKey | backend/cache-manager.js:72-76 | the key is the first min(200, n) characters of `"search:" + scope + ":" + base64(query + options)` and starts with `search:` |
| Cache.SearchKeyFits | backend/cache-manager.js:75 | a full key that fits is kept whole |
| Cache.SearchKeyInjective | backend/cache-manager.js:72-76 | while keys fit, two searches in one scope share a key only if query + options have the same UTF-8 bytes |
| Cache.FullSearchKeyInjective | backend/cache-manager.js:74 | equal full keys in one scope mean equal bytes |
| Cache.SearchKeyInjectiveAscii | backend/cache-manager.js:72-76 | for ASCII text, fitting keys are equal only for equal text |
| Cache.ScopesNeverCollide | backend/cache-manager.js:72-76 | the `global` and `distributed` scopes never share a key |
| Cache.KeyFamiliesDisjoint | backend/cache-manager.js:72-88 | a search key is never the stats, hot-query or node-status key |
| Cache.LongPrefixSharesKey | backend/cache-manager.js:75 | once a common ASCII prefix fills the 200 characters, the rest of the query has no effect on the key |
| Cache.KeyHeadPrefix | backend/cache-manager.js:74 | a query prefix of whole base64 groups decides the head of the key |
| Cache.TruncatedKeysCollide | backend/cache-manager.js:72-76 | two different 193-character queries share one key |
| Cache.Stamped | backend/cache-manager.js:147-151 | `{...doc, cached: true, cachedAt: now}` keeps the other fields |
| Cache.NodeSnapshot | backend/cache-manager.js:96-104 | a node's cached document holds its five result fields and the stamp |
| Cache.Get | backend/cache-manager.js:125-130 | GET returns the document exactly while it has not expired |
| Cache.SetExGet | backend/cache-manager.js:106-130 | a document set with a positive TTL reads back until it expires; no other key or the hot set changes |
| Cache.SetExRejects | backend/cache-manager.js:106 | SETEX with a TTL that is not positive fails |
| Cache.IncrScores | backend/cache-manager.js:193 | ZINCRBY raises exactly the member's score by one |
| Cache.MembersCons | backend/cache-manager.js:193 | the members of a cons |
| Cache.IncrMembers | backend/cache-manager.js:193 | ZINCRBY enters the member and nothing else |
| Cache.DistinctTail | backend/cache-manager.js:193 | the tail of a set with distinct members has distinct members, none equal to the head's |
| Cache.IncrDistinct | backend/cache-manager.js:193 | ZINCRBY keeps members distinct |
| Cache.TrackHotCounts | backend/cache-manager.js:188-200 | tracking adds one to the lower-cased query's score, leaves other scores and string keys alone, and sets the expiry; a TTL that is not positive deletes the set |
| Cache.HotOrderConsistent | backend/cache-manager.js:208 | the ZREVRANGE order is a consistent comparison |
| Cache.RankRange | backend/cache-manager.js:208 | the rank range 0..stop is the ranking's prefix, counting negative stops from the end |
| Cache.MemberList | backend/cache-manager.js:208-213 | the members, in rank order |
| Cache.TopHotPrefix | backend/cache-manager.js:203-213 | the answer is the front of the ranking, as long as the limit asks |
| Cache.RankedScores | backend/cache-manager.js:208 | in the ranking, scores never go up |
| Cache.RankingSorted | backend/cache-manager.js:208 | the ranking is sorted by the ZREVRANGE order |
| Cache.TopHotRanked | backend/cache-manager.js:203-218 | the hottest queries, hottest first, taken from the set; no query left out scores above one reported |
| Cache.GlobStarAll | backend/cache-manager.js:264 | `*` matches every key |
| Cache.GlobPrefix | backend/cache-manager.js:264 | a plain prefix followed by `*` matches exactly the keys with that prefix |
| Cache.SearchPatternMatches | backend/cache-manager.js:278 | `search:*` matches exactly the keys that start with `search:` |
| Cache.Keys | backend/cache-manager.js:264 | KEYS returns exactly the live keys matching the pattern |
| Cache.InvalidatedReads | backend/cache-manager.js:260-274 | after invalidation no matching key reads, every other key reads as before, and the hot set survives unless matched |
| Cache.InvalidateSearchEffect | backend/cache-manager.js:277-279 | invalidating the search cache empties every search entry and keeps the stats and the hot queries |
| Cache.NodeResultsRoundTrip | backend/cache-manager.js:91-139 | a node's results written under (query, node, options) read back stamped `cached: true` until the TTL runs out, and the query's hot score rises by one |
| Cache.DistributedRoundTrip | backend/cache-manager.js:142-185 | the same round trip for distributed results, under the `distributed` scope |
| Cache.IndexFrom | backend/cache-manager.js:349 | the first occurrence of the separator at or after i, or none |
| Cache.Split | backend/cache-manager.js:349 | `split` gives at least one piece |
| Cache.SplitStep | backend/cache-manager.js:349 | splitting peels off the text before the first separator |
| Cache.SplitFirst | backend/cache-manager.js:352 | the first piece runs up to the first separator |
| Cache.SplitJoin | backend/cache-manager.js:349 | joining the pieces with the separator restores the text |
| Cache.InfoLookupFirst | backend/cache-manager.js:350-353 | the first line starting with `key:` decides the value |
| Cache.InfoLookupMissing | backend/cache-manager.js:355 | no matching line gives "unknown" |
| Cache.InfoLineValue | backend/cache-manager.js:352 | for `key:value`, the value is read up to its own first `:` |
| Cache.ParseRedisInfo | backend/cache-manager.js:348-356 | the loop returns the lookup over the CRLF-split lines |
| Cache.DistributedCacheManager.constructor | backend/cache-manager.js:5-26 | no client, not connected, TTLs from the environment |
| Cache.DistributedCacheManager.Initialize | backend/cache-manager.js:29-69 | creates the client; ready exactly when the connection succeeds |
| Cache.DistributedCacheManager.OnConnectionEvent | backend/cache-manager.js:36-53 | `connect` connects, `error` and `end` disconnect, `reconnecting` changes nothing |
| Cache.DistributedCacheManager.TrackHotQuery | backend/cache-manager.js:188-200 | not ready: false and no change; ready: the tracked store |
| Cache.DistributedCacheManager.WriteTracked | backend/cache-manager.js:106-112 | SETEX then tracking; false and no change when SETEX fails |
| Cache.DistributedCacheManager.CacheSearchResults | backend/cache-manager.js:91-117 | not ready: false and no change; ready: the snapshot written under the node's key (`global` by default) and the query tracked |
| Cache.DistributedCacheManager.GetCachedSearchResults | backend/cache-manager.js:120-139 | not ready: null; ready: GET of the node's key |
| Cache.DistributedCacheManager.CacheDistributedResults | backend/cache-manager.js:142-164 | not ready: false and no change; ready: the stamped result written under the `distributed` key and the query tracked |
| Cache.DistributedCacheManager.GetCachedDistributedResults | backend/cache-manager.js:167-185 | not ready: null; ready: GET of the `distributed` key |
| Cache.DistributedCacheManager.GetHotQueries | backend/cache-manager.js:203-218 | not ready: []; ready: the members ranked 0..limit−1, with limit 10 when not given |
| Cache.DistributedCacheManager.CacheSystemStats | backend/cache-manager.js:221-238 | not ready: false and no change; ready: the stamped stats under `system:stats` |
| Cache.DistributedCacheManager.GetCachedSystemStats | backend/cache-manager.js:241-257 | not ready: null; ready: GET of `system:stats` |
| Cache.DistributedCacheManager.InvalidatePattern | backend/cache-manager.js:260-274 | not ready: false and no change; ready: KEYS then DEL when anything matched |
| Cache.DistributedCacheManager.InvalidateSearchCache | backend/cache-manager.js:277-279 | exactly `invalidatePattern('search:*')` |
| Cache.DistributedCacheManager.GetCacheStats | backend/cache-manager.js:282-310 | not ready: disconnected; ready: the memory field parsed from INFO, the key count and the TTLs |
| Cache.DistributedCacheManager.Close | backend/cache-manager.js:359-367 | afterwards not ready; a client is dropped and disconnected |

## Left out

- **Transport:** HTTP servers, routes and axios calls (`backend/coordinator.js:256-327`, `backend/node.js:235-349`, `registerWithCoordinator`) are I/O. Their outcomes are inputs.
- **Concurrency:** `Promise.allSettled` and `Promise.all` are modelled by processing outcomes one at a time, in query order. The only timing that matters, which initialisation wait rejects first, is an input (`settleOrder`).
- **Timing:** `performance.now`/`Date.now` measurements, average response times, `lastSeen` and `uptime` are floating-point timing and are not modelled. Response times are opaque inputs.
- **`searchId`:** the random search ids are not modelled.
- **FlexSearch:** index construction and querying are an external library. Index construction is a boolean input (builds or throws). The candidate list of local ids is an input, flattened from the per-field results. `search-worker.js` is not part of this model.
- **Worker handles:** Web Worker creation, `postMessage`, `terminate` and the `error`/`messageerror` listeners are platform built-ins. What each worker posts is an input, and a failing worker creation is not modelled.
- **Health monitoring:** `startHealthMonitoring` and `healthCheck` in `backend/cache-manager.js:313-341` are timer- and ping-driven.
- **Error log:** `logWorkerErrors` and the manager's `errors` log are not modelled.
- **Redis client:** connection setup is a boolean input. The `info` and `dbSize` replies are inputs. Client errors are modelled only for SETEX rejecting a TTL that is not positive; other command failures (network errors) are not modelled.
- **Redis semantics:** glob character classes and escapes in `KEYS` are not modelled, only `*`, `?` and plain characters. `zRevRange`'s `BY`/`REV` options are read as plain ZREVRANGE.
- **JSON:** a document is a field map in which arrays and nested objects are kept as their text. `JSON.stringify(options)` is an opaque string, `"{}"` when omitted.
- **Unicode:** lower-casing is ASCII only. `localeCompare` is code-point order. `normalize('NFD')` is not modelled: a precomposed letter such as 'é' is not split into a letter and a combining mark, so it is not a `\w` character and becomes a space. An accented word therefore splits in two: "Amélie" normalises to "am lie" in the model, where the code gives "amelie"; its word score and its highlight change accordingly.
- **Strings:** strings are sequences of code points, not UTF-16 units. Lengths (`title.length`) and `substring(0, 200)` count code points, and lone surrogates cannot occur.
- **Database:** `backend/database.js` is not part of this model.
- **Fallback error path:** the only exception `simpleSearch` raises in the model is the one for a title that is not text. Its message is V8's wording for calling `toLowerCase` on an object.
- **Coordinator type checks:** a missing `title` (`a.title \|\| ''`) cannot occur, because every node result carries its title.
- **Search failure:** the manager's failing-search path (`distributed-search-manager.js:286-296`) cannot be reached once outcomes are given.
- Coordinator.SearchCoordinator.RegisterNode: does not model the fire-and-forget notification round it starts. `NotifyNodesDataRange` models that round's effect separately.
- SearchNode.DistributedSearchNode.Search: the limit passed to FlexSearch (`limit * 2`) shapes the candidate list, which is an input here.
- FallbackWorker.FallbackWorkerState.HandleMessage: the listener's own `catch` path that replies `ERROR` is not modelled, because `searchInWorker` catches the search's exception and no other handler can throw in the model.
- SearchManager.MergeResults: sorts with the comparator as written using the stable insertion sort. On mixed scored and unscored hits that comparator is not a consistent order, and V8's TimSort may then order the hits differently from the insertion sort.
- SearchNode.DistributedSearchNode.UpdateDataRange: the `FlexSearch.Document` constructor is taken never to throw. Only filling the index can fail.
- FallbackWorker.MarkAll: treats the word as plain text. Normalised words hold only `\w` characters, so they carry no regular-expression syntax.
- FallbackWorker.HighlightUnbold: states the tag-removal round trip only when no query word is "b", because the code as written breaks it for that word (see Findings).

## Findings

| source | as written | input that shows it | evidently intended | confidence | as-written member | corrected member |
|---|---|---|---|---|---|---|
| distributed-search-manager.js:345-360 | the merge comparator compares scores only when both hits have one, and otherwise falls through to exact match and title length, so it is not a consistent order once scored (fallback) and unscored (FlexSearch) hits are merged | hits a (score 1, title of 3 characters), b (no score, 5) and c (score 2, 7): a < b and b < c, yet c < a; the stable sort keeps [a, b, c] and reports the score-1 hit above the score-2 hit | a higher score always goes first; scored hits are ordered among themselves by score | not executed | WorkerPool.AsWrittenMisorders | WorkerPool.CorrectedMergeOrdered |
| search-worker-fallback.js:40-47 | each word's case-insensitive replace runs over the text already highlighted for the earlier words, so the word "b" also matches the `b` inside the `<b>` and `</b>` tags placed before it | query "plan b" on title "Plan B": the highlight becomes `<<b>b</b>>Plan</<b>b</b>> <b>B</b>`, which no longer reads as the title once the tags are removed | mark only the title's own text, so that removing the tags gives back the title | not executed | FallbackWorker.HighlightBreaksTags | FallbackWorker.CorrectedHighlightUnbold |
