/**
 * The values exchanged between the browser-side search manager and its search
 * workers: the movie items a worker is given, the hits it answers with and the
 * messages it posts back.
 */
module WorkerProtocol {
  import opened Wrappers

  /**
   * One item of a worker's data: either a bare title or a record carrying a
   * title and, optionally, the item's position in the full data set. A record
   * whose `title` field holds an object rather than text is `ObjectTitled`;
   * the enrichment of the chunks produces one by putting a record with an
   * empty title into its own `title` field, and `title` here is that inner
   * record's title.
   */
  datatype Movie =
    | PlainTitle(title: string)
    | MovieRecord(title: string, originalIndex: Option<int>)
    | ObjectTitled(title: string, originalIndex: Option<int>)

  /**
   * One hit as the manager receives it. A fallback worker fills in every
   * field; an indexed worker leaves `title` and `score` out.
   */
  datatype PoolHit = PoolHit(
    id: int,
    title: Option<string>,
    score: Option<int>,
    highlight: Option<string>,
    originalTitle: Option<string>,
    workerId: Option<string>)

  /** A message posted by a worker to the manager. */
  datatype Outbound =
    | InitComplete(workerId: Option<string>, status: string)
    | SearchResult(results: Option<seq<PoolHit>>, workerId: Option<string>,
                   dataSize: Option<nat>, error: Option<string>)
    | HealthResponse(workerId: Option<string>, status: string, size: nat, isReady: bool)
    | ErrorReply(workerId: Option<string>, message: string)

  /** A message posted by the manager to a worker; `kind` is its `type` field. */
  datatype Inbound = Inbound(
    kind: string,
    data: seq<Movie>,
    query: string,
    limit: Option<int>,
    id: Option<string>)
}
