/**
 * The Redis cache in front of the search nodes (backend/cache-manager.js).
 *
 * The Redis server is a value, `Store`: string keys holding JSON documents with
 * an expiry time, and the one sorted set of hot queries. The manager is a class
 * whose connection flags gate every operation: when it is not ready, each
 * operation answers its neutral value and leaves the store alone. A JSON
 * document is a map from field names to values; `JSON.stringify` followed by
 * `JSON.parse` gives the same map back. Times are milliseconds (`Date.now()`),
 * TTLs seconds.
 */
module Cache {
  import opened Wrappers
  import opened Text
  import opened Lists
  import opened Sorting
  import Base64

  // ---------------------------------------------------------------------
  // TTL settings
  // ---------------------------------------------------------------------

  const DefaultSearchTtl := 300
  const DefaultStatusTtl := 30
  const DefaultStatsTtl := 60
  const DefaultHotTtl := 1800

  /**
   * `parseInt` of CACHE_TTL_SEARCH, CACHE_TTL_STATUS, CACHE_TTL_STATS and
   * CACHE_TTL_HOT; None when the variable is unset or not a number.
   */
  datatype TtlEnv = TtlEnv(search: Option<int>, status: Option<int>, stats: Option<int>, hot: Option<int>)

  datatype Ttl = Ttl(searchResults: int, nodeStatus: int, systemStats: int, hotQueries: int)

  /** `v || d` on a parsed variable: the default when it is unset, unparsable or zero, the value otherwise. */
  predicate SetOrDefault(v: Option<int>, d: int, r: int) {
    (v.None? || v.value == 0 ==> r == d) && (v.Some? && v.value != 0 ==> r == v.value)
  }

  /** Each TTL is its variable, or its default when that is unset, unparsable or zero. */
  function Ttls(env: TtlEnv): (t: Ttl)
    ensures SetOrDefault(env.search, DefaultSearchTtl, t.searchResults)
    ensures SetOrDefault(env.status, DefaultStatusTtl, t.nodeStatus)
    ensures SetOrDefault(env.stats, DefaultStatsTtl, t.systemStats)
    ensures SetOrDefault(env.hot, DefaultHotTtl, t.hotQueries)
    ensures t.searchResults != 0 && t.nodeStatus != 0 && t.systemStats != 0 && t.hotQueries != 0
  {
    Ttl(NumberOr(env.search, DefaultSearchTtl), NumberOr(env.status, DefaultStatusTtl),
        NumberOr(env.stats, DefaultStatsTtl), NumberOr(env.hot, DefaultHotTtl))
  }

  // ---------------------------------------------------------------------
  // Keys
  // ---------------------------------------------------------------------

  const SearchPrefix := "search:"
  const GlobalScope := "global"
  const DistributedScope := "distributed"
  const EmptyOptions := "{}"
  const MaxKeyLength := 200
  const SystemStatsKey := "system:stats"
  const HotQueriesKey := "analytics:hot_queries"

  function NodeStatusKey(nodeId: string): string {
    "node:status:" + nodeId
  }

  /** The key before the 200-character cut: the scope, then the base64 of the query and the options' JSON. */
  function FullSearchKey(query: string, scope: string, optionsJson: string): string {
    SearchPrefix + scope + ":" + Base64.Encode(Base64.Utf8(query + optionsJson))
  }

  /** `generateSearchKey`: the first 200 characters of the full key. */
  function SearchKey(query: string, scope: string, optionsJson: string): (k: string)
    ensures |k| == Min(MaxKeyLength, |FullSearchKey(query, scope, optionsJson)|)
    ensures k == FullSearchKey(query, scope, optionsJson)[..|k|]
    ensures StartsWith(k, SearchPrefix)
  {
    var full := FullSearchKey(query, scope, optionsJson);
    full[..Min(MaxKeyLength, |full|)]
  }

  lemma SameHeadSameTail(h: string, e1: string, e2: string)
    requires h + e1 == h + e2
    ensures e1 == e2
  {
    assert e1 == (h + e1)[|h|..];
    assert e2 == (h + e2)[|h|..];
  }

  /** A key that fits is the whole full key. */
  lemma SearchKeyFits(query: string, scope: string, optionsJson: string)
    requires |FullSearchKey(query, scope, optionsJson)| <= MaxKeyLength
    ensures SearchKey(query, scope, optionsJson) == FullSearchKey(query, scope, optionsJson)
  {
  }

  /**
   * While the full keys fit in 200 characters, two searches in one scope share
   * a key only if the query and options text have the same UTF-8 bytes.
   */
  lemma SearchKeyInjective(q1: string, o1: string, q2: string, o2: string, scope: string)
    requires |FullSearchKey(q1, scope, o1)| <= MaxKeyLength
    requires |FullSearchKey(q2, scope, o2)| <= MaxKeyLength
    requires SearchKey(q1, scope, o1) == SearchKey(q2, scope, o2)
    ensures Base64.Utf8(q1 + o1) == Base64.Utf8(q2 + o2)
  {
    SearchKeyFits(q1, scope, o1);
    SearchKeyFits(q2, scope, o2);
    FullSearchKeyInjective(q1, o1, q2, o2, scope);
  }

  lemma FullSearchKeyInjective(q1: string, o1: string, q2: string, o2: string, scope: string)
    requires FullSearchKey(q1, scope, o1) == FullSearchKey(q2, scope, o2)
    ensures Base64.Utf8(q1 + o1) == Base64.Utf8(q2 + o2)
  {
    var b1, b2 := Base64.Utf8(q1 + o1), Base64.Utf8(q2 + o2);
    SameHeadSameTail(SearchPrefix + scope + ":", Base64.Encode(b1), Base64.Encode(b2));
    Base64.EncodeInjective(b1, b2);
  }

  /** For ASCII text, searches in one scope share a fitting key only if they are the same text. */
  lemma SearchKeyInjectiveAscii(q1: string, o1: string, q2: string, o2: string, scope: string)
    requires Base64.IsAscii(q1 + o1) && Base64.IsAscii(q2 + o2)
    requires |FullSearchKey(q1, scope, o1)| <= MaxKeyLength
    requires |FullSearchKey(q2, scope, o2)| <= MaxKeyLength
    requires SearchKey(q1, scope, o1) == SearchKey(q2, scope, o2)
    ensures q1 + o1 == q2 + o2
  {
    SearchKeyInjective(q1, o1, q2, o2, scope);
    Base64.Utf8AsciiInjective(q1 + o1, q2 + o2);
  }

  /** The distributed entries and the default per-node entries never share a key. */
  lemma ScopesNeverCollide(q1: string, o1: string, q2: string, o2: string)
    ensures SearchKey(q1, GlobalScope, o1) != SearchKey(q2, DistributedScope, o2)
  {
    var k1, k2 := SearchKey(q1, GlobalScope, o1), SearchKey(q2, DistributedScope, o2);
    assert FullSearchKey(q1, GlobalScope, o1)[7] == 'g';
    assert FullSearchKey(q2, DistributedScope, o2)[7] == 'd';
    assert k1[7] == 'g' && k2[7] == 'd';
  }

  /** A search key is never the system stats key, the hot-query key or a node status key. */
  lemma KeyFamiliesDisjoint(query: string, scope: string, optionsJson: string, nodeId: string)
    ensures var k := SearchKey(query, scope, optionsJson);
            k != SystemStatsKey && k != HotQueriesKey && k != NodeStatusKey(nodeId)
    ensures SystemStatsKey != HotQueriesKey
  {
    var k := SearchKey(query, scope, optionsJson);
    assert k[..7] == SearchPrefix;
    assert k[1] == 'e' && k[0] == 's';
    assert NodeStatusKey(nodeId)[0] == 'n';
  }

  /**
   * The cut at 200 characters drops the end of a long query: once the bytes
   * of a common ASCII prefix fill the key (in whole base64 groups), what
   * follows it has no effect on the key.
   */
  lemma LongPrefixSharesKey(p: string, x: string, y: string, scope: string, o1: string, o2: string)
    requires Base64.IsAscii(p) && |p| % 3 == 0
    requires |SearchPrefix + scope + ":"| + 4 * (|p| / 3) >= MaxKeyLength
    ensures SearchKey(p + x, scope, o1) == SearchKey(p + y, scope, o2)
  {
    var head := KeyHead(p, scope);
    KeyHeadPrefix(p, x, scope, o1);
    KeyHeadPrefix(p, y, scope, o2);
    var f1, f2 := FullSearchKey(p + x, scope, o1), FullSearchKey(p + y, scope, o2);
    assert f1[..MaxKeyLength] == head[..MaxKeyLength];
    assert f2[..MaxKeyLength] == head[..MaxKeyLength];
  }

  /** The part of a full key that a query prefix p decides. */
  function KeyHead(p: string, scope: string): string {
    SearchPrefix + scope + ":" + Base64.Encode(Base64.Utf8(p))
  }

  lemma KeyHeadPrefix(p: string, t: string, scope: string, o: string)
    requires Base64.IsAscii(p) && |p| % 3 == 0
    ensures |KeyHead(p, scope)| == |SearchPrefix + scope + ":"| + 4 * (|p| / 3)
    ensures FullSearchKey(p + t, scope, o) == KeyHead(p, scope) + Base64.Encode(Base64.Utf8(t + o))
  {
    var bp := Base64.Utf8(p);
    Base64.Utf8Ascii(p);
    var n := |p|;
    assert |bp| == n && (n + 2) / 3 == n / 3;
    Base64.EncodeLength(bp);
    assert p + t + o == p + (t + o);
    Base64.Utf8Append(p, t + o);
    Base64.EncodeAppend(bp, Base64.Utf8(t + o));
  }

  /** So two different queries can share a cache entry: 192 letters followed by '1' or by '2'. */
  lemma TruncatedKeysCollide(p: string)
    requires p == seq(192, i => 'a')
    ensures p + "1" != p + "2"
    ensures SearchKey(p + "1", GlobalScope, EmptyOptions) == SearchKey(p + "2", GlobalScope, EmptyOptions)
  {
    assert (p + "1")[192] == '1' && (p + "2")[192] == '2';
    LongPrefixSharesKey(p, "1", "2", GlobalScope, EmptyOptions, EmptyOptions);
  }

  // ---------------------------------------------------------------------
  // JSON documents
  // ---------------------------------------------------------------------

  /** A JSON value; arrays and nested objects are kept as their text. */
  datatype Json = Flag(b: bool) | Num(n: int) | Str(s: string) | Raw(text: string)

  type Doc = map<string, Json>

  /** `{...doc, cached: true, cachedAt: now}` */
  function Stamped(doc: Doc, now: int): (d: Doc)
    ensures d.Keys == doc.Keys + {"cached", "cachedAt"}
    ensures d["cached"] == Flag(true) && d["cachedAt"] == Num(now)
    ensures forall f :: f in doc && f != "cached" && f != "cachedAt" ==> d[f] == doc[f]
  {
    doc["cached" := Flag(true)]["cachedAt" := Num(now)]
  }

  const NodeFields: set<string> := {"results", "responseTime", "nodeId", "dataRange", "totalIndexed"}

  /**
   * The document a node's results are cached as: the five result fields it
   * has (an undefined field does not survive JSON.stringify) and the stamp.
   */
  function NodeSnapshot(results: Doc, now: int): (d: Doc)
    ensures forall f :: f in d <==> (f in results && f in NodeFields) || f == "cached" || f == "cachedAt"
    ensures forall f :: f in results && f in NodeFields ==> d[f] == results[f]
    ensures d["cached"] == Flag(true) && d["cachedAt"] == Num(now)
  {
    Stamped(map f | f in results.Keys * NodeFields :: results[f], now)
  }

  // ---------------------------------------------------------------------
  // The Redis server
  // ---------------------------------------------------------------------

  datatype Stored = Stored(doc: Doc, expiresAt: int)

  datatype HotEntry = HotEntry(member: string, score: int)

  /**
   * String keys with their expiry, and the hot-query sorted set (empty when
   * the key does not exist) with its expiry, if any.
   */
  datatype Store = Store(strings: map<string, Stored>, hot: seq<HotEntry>, hotExpiresAt: Option<int>)

  predicate DistinctMembers(hot: seq<HotEntry>) {
    forall i, j :: 0 <= i < j < |hot| ==> hot[i].member != hot[j].member
  }

  /** A sorted set holds each member once, and no string key has the sorted set's name. */
  predicate WellFormed(s: Store) {
    DistinctMembers(s.hot) && HotQueriesKey !in s.strings
  }

  /** GET: the document under the key, unless it has expired. */
  function Get(s: Store, key: string, now: int): (r: Option<Doc>)
    ensures r.Some? <==> key in s.strings && now < s.strings[key].expiresAt
    ensures r.Some? ==> r.value == s.strings[key].doc
  {
    if key in s.strings && now < s.strings[key].expiresAt then Some(s.strings[key].doc) else None
  }

  /** SETEX: Redis refuses a TTL that is not positive. */
  function SetEx(s: Store, key: string, secs: int, doc: Doc, now: int): (r: Result<Store, string>)
  {
    if secs <= 0 then Failure("ERR invalid expire time in 'setex' command")
    else Success(s.(strings := s.strings[key := Stored(doc, now + 1000 * secs)]))
  }

  /** A value set with a positive TTL reads back until it expires; no other key changes. */
  lemma SetExGet(s: Store, key: string, secs: int, doc: Doc, now: int, t: int, other: string)
    requires secs > 0 && now <= t
    ensures SetEx(s, key, secs, doc, now).Success?
    ensures var s' := SetEx(s, key, secs, doc, now).value;
            && Get(s', key, t) == (if t < now + 1000 * secs then Some(doc) else None)
            && (other != key ==> Get(s', other, t) == Get(s, other, t))
            && s'.hot == s.hot && s'.hotExpiresAt == s.hotExpiresAt
  {
  }

  lemma SetExRejects(s: Store, key: string, secs: int, doc: Doc, now: int)
    requires secs <= 0
    ensures SetEx(s, key, secs, doc, now).Failure?
  {
  }

  // ---------------------------------------------------------------------
  // The hot-query sorted set
  // ---------------------------------------------------------------------

  predicate HotLive(s: Store, now: int) {
    s.hotExpiresAt.None? || now < s.hotExpiresAt.value
  }

  /** The sorted set as a reader at `now` sees it. */
  function LiveHot(s: Store, now: int): seq<HotEntry> {
    if HotLive(s, now) then s.hot else []
  }

  /** ZSCORE, with 0 for a member that is absent. */
  function Score(hot: seq<HotEntry>, m: string): int {
    if hot == [] then 0
    else if hot[0].member == m then hot[0].score
    else Score(hot[1..], m)
  }

  function Members(hot: seq<HotEntry>): set<string> {
    set e | e in hot :: e.member
  }

  /** Adds one to a member's score, entering it with score 1 when absent. */
  function Incr(hot: seq<HotEntry>, m: string): seq<HotEntry> {
    if hot == [] then [HotEntry(m, 1)]
    else if hot[0].member == m then [hot[0].(score := hot[0].score + 1)] + hot[1..]
    else [hot[0]] + Incr(hot[1..], m)
  }

  /** Incr raises exactly the member's score by one. */
  lemma {:induction false} IncrScores(hot: seq<HotEntry>, m: string)
    ensures Score(Incr(hot, m), m) == Score(hot, m) + 1
    ensures forall x :: x != m ==> Score(Incr(hot, m), x) == Score(hot, x)
  {
    if hot != [] && hot[0].member != m {
      IncrScores(hot[1..], m);
      assert Incr(hot, m)[1..] == Incr(hot[1..], m);
    }
  }

  lemma MembersCons(a: HotEntry, r: seq<HotEntry>)
    ensures Members([a] + r) == {a.member} + Members(r)
  {
    assert forall e :: e in [a] + r <==> e == a || e in r;
  }

  /** Incr enters the member, and nothing else. */
  lemma {:induction false} IncrMembers(hot: seq<HotEntry>, m: string)
    ensures Members(Incr(hot, m)) == Members(hot) + {m}
  {
    if hot == [] {
    } else if hot[0].member == m {
      var r := Incr(hot, m);
      assert hot == [hot[0]] + hot[1..];
      assert r == [r[0]] + hot[1..];
      MembersCons(hot[0], hot[1..]);
      MembersCons(r[0], hot[1..]);
    } else {
      var tail := hot[1..];
      IncrMembers(tail, m);
      var rt := Incr(tail, m);
      assert Incr(hot, m) == [hot[0]] + rt;
      assert hot == [hot[0]] + tail;
      MembersCons(hot[0], tail);
      MembersCons(hot[0], rt);
    }
  }

  lemma DistinctTail(hot: seq<HotEntry>)
    requires DistinctMembers(hot) && hot != []
    ensures DistinctMembers(hot[1..])
    ensures forall e :: e in hot[1..] ==> e.member != hot[0].member
  {
    var tail := hot[1..];
    forall i, j | 0 <= i < j < |tail| ensures tail[i].member != tail[j].member {
      assert tail[i] == hot[i + 1] && tail[j] == hot[j + 1];
    }
    forall e | e in tail ensures e.member != hot[0].member {
      var i :| 0 <= i < |tail| && tail[i] == e;
      assert hot[i + 1] == e;
    }
  }

  /** Incr keeps members distinct. */
  lemma {:induction false} IncrDistinct(hot: seq<HotEntry>, m: string)
    requires DistinctMembers(hot)
    ensures DistinctMembers(Incr(hot, m))
  {
    if hot != [] && hot[0].member != m {
      var tail := hot[1..];
      DistinctTail(hot);
      IncrDistinct(tail, m);
      IncrMembers(tail, m);
      var r := Incr(hot, m);
      var rt := Incr(tail, m);
      assert r == [hot[0]] + rt;
      forall e | e in rt ensures e.member != hot[0].member {
        assert e.member in Members(rt);
        if e.member != m {
          var f :| f in tail && f.member == e.member;
        }
      }
      forall i, j | 0 <= i < j < |r| ensures r[i].member != r[j].member {
        assert r[j] == rt[j - 1];
        if i > 0 {
          assert r[i] == rt[i - 1];
        }
      }
    }
  }

  /** ZINCRBY by one: an expired set is replaced by a new one, without an expiry. */
  function ZIncrBy(s: Store, m: string, now: int): Store {
    if HotLive(s, now) then s.(hot := Incr(s.hot, m))
    else s.(hot := Incr([], m), hotExpiresAt := None)
  }

  /** EXPIRE on the hot-query key: a positive TTL sets the expiry, any other deletes the key. */
  function Expire(s: Store, secs: int, now: int): Store {
    if LiveHot(s, now) == [] then s
    else if secs > 0 then s.(hotExpiresAt := Some(now + 1000 * secs))
    else s.(hot := [], hotExpiresAt := None)
  }

  /** What `trackHotQuery` does to the server. */
  function TrackHot(s: Store, query: string, secs: int, now: int): Store {
    Expire(ZIncrBy(s, Lower(query), now), secs, now)
  }

  /**
   * Tracking adds one to the lowercased query's score, leaves the other scores
   * and the string keys alone, and resets the set's TTL; a TTL that is not
   * positive deletes the set.
   */
  lemma TrackHotCounts(s: Store, query: string, secs: int, now: int, x: string)
    requires WellFormed(s)
    ensures var s' := TrackHot(s, query, secs, now);
            && s'.strings == s.strings
            && WellFormed(s')
            && (secs > 0 ==> s'.hotExpiresAt == Some(now + 1000 * secs)
                             && Score(LiveHot(s', now), Lower(query)) == Score(LiveHot(s, now), Lower(query)) + 1
                             && (x != Lower(query) ==> Score(LiveHot(s', now), x) == Score(LiveHot(s, now), x)))
            && (secs <= 0 ==> LiveHot(s', now) == [])
  {
    var live := LiveHot(s, now);
    IncrScores(live, Lower(query));
    IncrDistinct(live, Lower(query));
    var z := ZIncrBy(s, Lower(query), now);
    assert z.hot == Incr(live, Lower(query)) && HotLive(z, now);
    assert z.hot != [];
  }

  /** ZREVRANGE order: higher score first, equal scores by member in reverse order. */
  function HotOrder(a: HotEntry, b: HotEntry): int {
    if a.score > b.score then -1
    else if a.score < b.score then 1
    else LexCompare(b.member, a.member)
  }

  lemma HotOrderConsistent()
    ensures Consistent(HotOrder)
  {
    forall a, b ensures HotOrder(a, b) < 0 <==> HotOrder(b, a) > 0 {
      LexCompareAntisymmetric(a.member, b.member);
    }
    forall a, b, c | HotOrder(a, b) <= 0 && HotOrder(b, c) <= 0
      ensures HotOrder(a, c) <= 0
    {
      if a.score == b.score == c.score {
        LexCompareTransitive(c.member, b.member, a.member);
      }
    }
  }

  /**
   * The rank range `start..stop` of ZREVRANGE: negative indices count from the
   * end, the stop is clamped to the last element, and an empty range gives nothing.
   */
  function RankRange<T>(s: seq<T>, start: int, stop: int): (r: seq<T>)
    ensures |r| <= |s|
    ensures start == 0 && stop >= 0 ==> r == s[..Min(stop + 1, |s|)]
    ensures start == 0 && stop < 0 ==> r == s[..Max(0, Min(stop + |s| + 1, |s|))]
  {
    var a := if start < 0 then Max(start + |s|, 0) else start;
    var b := Min(if stop < 0 then stop + |s| else stop, |s| - 1);
    if a > b || a >= |s| then [] else s[a..b + 1]
  }

  const DefaultHotLimit := 10

  function MemberList(hot: seq<HotEntry>): (r: seq<string>)
    ensures |r| == |hot|
    ensures forall i :: 0 <= i < |hot| ==> r[i] == hot[i].member
  {
    seq(|hot|, i requires 0 <= i < |hot| => hot[i].member)
  }

  /** The entries `getHotQueries(limit)` reports: ranks 0 to limit - 1. */
  function TopHot(hot: seq<HotEntry>, limit: int): seq<HotEntry> {
    RankRange(SortBy(hot, HotOrder), 0, limit - 1)
  }

  /** The answer is the front of the ranking, as long as the limit asks. */
  lemma TopHotPrefix(hot: seq<HotEntry>, limit: int)
    ensures var t := TopHot(hot, limit);
            && |t| == (if limit > 0 then Min(limit, |hot|) else Max(0, limit + |hot|))
            && t == SortBy(hot, HotOrder)[..|t|]
  {
    var ranked := SortBy(hot, HotOrder);
    assert |ranked| == |hot| by {
      assert |multiset(ranked)| == |multiset(hot)|;
    }
  }

  /** In a ranking, scores never go up. */
  lemma RankedScores(ranked: seq<HotEntry>)
    requires SortedBy(ranked, HotOrder)
    ensures forall i, j :: 0 <= i < j < |ranked| ==> ranked[i].score >= ranked[j].score
  {
    forall i, j | 0 <= i < j < |ranked| ensures ranked[i].score >= ranked[j].score {
      assert HotOrder(ranked[i], ranked[j]) <= 0;
    }
  }

  lemma RankingSorted(hot: seq<HotEntry>)
    ensures SortedBy(SortBy(hot, HotOrder), HotOrder)
  {
    HotOrderConsistent();
    SortBySorted(hot, HotOrder);
  }

  /** An element of a permutation that is not in a prefix sits after it. */
  lemma LeftOutBehind<T>(ranked: seq<T>, hot: seq<T>, n: nat, e: T)
    requires multiset(ranked) == multiset(hot) && n <= |ranked|
    requires e in hot && e !in ranked[..n]
    ensures exists j :: n <= j < |ranked| && ranked[j] == e
  {
    assert ranked == ranked[..n] + ranked[n..];
    assert multiset(ranked) == multiset(ranked[..n]) + multiset(ranked[n..]);
    assert e in multiset(hot);
    assert multiset(ranked[..n])[e] == 0;
    assert e in multiset(ranked[n..]);
    var k :| 0 <= k < |ranked[n..]| && ranked[n..][k] == e;
    assert ranked[n + k] == e;
  }

  /**
   * The answer holds the limit's worth of hottest queries (all of them for a
   * limit of 0, one fewer than all for -1, and so on), hottest first, taken
   * from the set; no entry left out scores above one reported.
   */
  lemma TopHotRanked(hot: seq<HotEntry>, limit: int)
    ensures var t := TopHot(hot, limit);
            && |t| == (if limit > 0 then Min(limit, |hot|) else Max(0, limit + |hot|))
            && multiset(t) <= multiset(hot)
            && (forall i, j :: 0 <= i < j < |t| ==> t[i].score >= t[j].score)
            && (forall e, i :: e in hot && e !in t && 0 <= i < |t| ==> e.score <= t[i].score)
  {
    var ranked := SortBy(hot, HotOrder);
    RankingSorted(hot);
    RankedScores(ranked);
    TopHotPrefix(hot, limit);
    var t := TopHot(hot, limit);
    PrefixSubMultiset(ranked, |t|);
    forall e, i | e in hot && e !in t && 0 <= i < |t|
      ensures e.score <= t[i].score
    {
      LeftOutBehind(ranked, hot, |t|, e);
    }
  }

  lemma PrefixSubMultiset<T>(s: seq<T>, n: nat)
    requires n <= |s|
    ensures multiset(s[..n]) <= multiset(s)
  {
    assert s == s[..n] + s[n..];
    assert multiset(s) == multiset(s[..n]) + multiset(s[n..]);
  }

  // ---------------------------------------------------------------------
  // KEYS and DEL
  // ---------------------------------------------------------------------

  /** Redis glob matching over `*`, `?` and plain characters. */
  predicate Glob(p: string, k: string)
    decreases |p| + |k|
  {
    if p == [] then k == []
    else if p[0] == '*' then Glob(p[1..], k) || (k != [] && Glob(p, k[1..]))
    else k != [] && (p[0] == '?' || p[0] == k[0]) && Glob(p[1..], k[1..])
  }

  lemma {:induction false} GlobStarAll(k: string)
    ensures Glob("*", k)
    decreases |k|
  {
    if k != [] {
      GlobStarAll(k[1..]);
    }
  }

  /** A plain prefix followed by `*` matches exactly the keys with that prefix. */
  lemma {:induction false} GlobPrefix(p: string, k: string)
    requires forall i :: 0 <= i < |p| ==> p[i] != '*' && p[i] != '?'
    ensures Glob(p + "*", k) <==> StartsWith(k, p)
    decreases |p|
  {
    if p == [] {
      assert p + "*" == "*";
      GlobStarAll(k);
    } else {
      assert (p + "*")[1..] == p[1..] + "*";
      if k != [] {
        GlobPrefix(p[1..], k[1..]);
        assert StartsWith(k, p) <==> k[0] == p[0] && StartsWith(k[1..], p[1..]) by {
          if k[0] == p[0] && StartsWith(k[1..], p[1..]) {
            assert k[..|p|] == [k[0]] + k[1..][..|p| - 1];
            assert p == [p[0]] + p[1..];
          }
          if StartsWith(k, p) {
            assert k[1..][..|p| - 1] == k[..|p|][1..];
          }
        }
      }
    }
  }

  const SearchPattern := "search:*"

  lemma SearchPatternMatches(k: string)
    ensures Glob(SearchPattern, k) <==> StartsWith(k, SearchPrefix)
  {
    assert SearchPattern == SearchPrefix + "*";
    GlobPrefix(SearchPrefix, k);
  }

  /** KEYS: the keys alive at `now` that match the pattern. */
  function Keys(s: Store, pattern: string, now: int): (r: set<string>)
    ensures forall k :: k in r <==> Glob(pattern, k) && ((k in s.strings && now < s.strings[k].expiresAt) || (k == HotQueriesKey && LiveHot(s, now) != []))
  {
    (set k | k in s.strings && now < s.strings[k].expiresAt && Glob(pattern, k))
      + (if LiveHot(s, now) != [] && Glob(pattern, HotQueriesKey) then {HotQueriesKey} else {})
  }

  /** DEL */
  function Del(s: Store, keys: set<string>): Store {
    var strings := map k | k in s.strings && k !in keys :: s.strings[k];
    if HotQueriesKey in keys then Store(strings, [], None) else s.(strings := strings)
  }

  /** What `invalidatePattern` does to the server. */
  function Invalidated(s: Store, pattern: string, now: int): Store {
    var keys := Keys(s, pattern, now);
    if |keys| > 0 then Del(s, keys) else s
  }

  /**
   * After invalidation no matching key can be read, every other key reads as
   * before, and the hot set survives unless the pattern matches its name.
   */
  lemma InvalidatedReads(s: Store, pattern: string, now: int, t: int, k: string)
    requires WellFormed(s) && now <= t
    ensures var s' := Invalidated(s, pattern, now);
            && WellFormed(s')
            && Get(s', k, t) == (if Glob(pattern, k) then None else Get(s, k, t))
            && (!Glob(pattern, HotQueriesKey) ==> LiveHot(s', t) == LiveHot(s, t))
            && (Glob(pattern, HotQueriesKey) ==> LiveHot(s', now) == [])
  {
    var keys := Keys(s, pattern, now);
    if Glob(pattern, k) && k in s.strings && now < s.strings[k].expiresAt {
      assert k in keys;
    }
  }

  /** `invalidateSearchCache` empties every search entry and keeps the stats and hot queries. */
  lemma InvalidateSearchEffect(s: Store, now: int, t: int, query: string, scope: string, optionsJson: string)
    requires WellFormed(s) && now <= t
    ensures var s' := Invalidated(s, SearchPattern, now);
            && Get(s', SearchKey(query, scope, optionsJson), t) == None
            && Get(s', SystemStatsKey, t) == Get(s, SystemStatsKey, t)
            && LiveHot(s', t) == LiveHot(s, t)
  {
    SearchPatternMatches(SearchKey(query, scope, optionsJson));
    SearchPatternMatches(SystemStatsKey);
    SearchPatternMatches(HotQueriesKey);
    InvalidatedReads(s, SearchPattern, now, t, SearchKey(query, scope, optionsJson));
    InvalidatedReads(s, SearchPattern, now, t, SystemStatsKey);
  }

  // ---------------------------------------------------------------------
  // Writing a result, then tracking its query
  // ---------------------------------------------------------------------

  /** SETEX of the document, then `trackHotQuery` when that succeeded. */
  function WriteAndTrack(s: Store, key: string, secs: int, doc: Doc, query: string, hotSecs: int, now: int): Result<Store, string> {
    var w := SetEx(s, key, secs, doc, now);
    if w.Failure? then w else Success(TrackHot(w.value, query, hotSecs, now))
  }

  /**
   * A node's results written under (query, node, options) read back, stamped
   * `cached: true`, by the same triple until the TTL runs out; the query's
   * hot score is one higher.
   */
  lemma NodeResultsRoundTrip(s: Store, query: string, nodeId: string, results: Doc, optionsJson: string,
                             ttl: Ttl, now: int, t: int)
    requires WellFormed(s) && ttl.searchResults > 0 && ttl.hotQueries > 0
    requires now <= t < now + 1000 * ttl.searchResults
    ensures var key := SearchKey(query, nodeId, optionsJson);
            var w := WriteAndTrack(s, key, ttl.searchResults, NodeSnapshot(results, now), query, ttl.hotQueries, now);
            && w.Success? && WellFormed(w.value)
            && Get(w.value, key, t) == Some(NodeSnapshot(results, now))
            && Get(w.value, key, t).value["cached"] == Flag(true)
            && Score(LiveHot(w.value, now), Lower(query)) == Score(LiveHot(s, now), Lower(query)) + 1
  {
    var key := SearchKey(query, nodeId, optionsJson);
    KeyFamiliesDisjoint(query, nodeId, optionsJson, "");
    var doc := NodeSnapshot(results, now);
    SetExGet(s, key, ttl.searchResults, doc, now, t, key);
    var s1 := SetEx(s, key, ttl.searchResults, doc, now).value;
    assert LiveHot(s1, now) == LiveHot(s, now);
    TrackHotCounts(s1, query, ttl.hotQueries, now, "");
  }

  /** The same for the merged results of a distributed search, under the `distributed` scope. */
  lemma DistributedRoundTrip(s: Store, query: string, result: Doc, optionsJson: string, ttl: Ttl, now: int, t: int)
    requires WellFormed(s) && ttl.searchResults > 0 && ttl.hotQueries > 0
    requires now <= t < now + 1000 * ttl.searchResults
    ensures var key := SearchKey(query, DistributedScope, optionsJson);
            var w := WriteAndTrack(s, key, ttl.searchResults, Stamped(result, now), query, ttl.hotQueries, now);
            && w.Success? && WellFormed(w.value)
            && Get(w.value, key, t) == Some(Stamped(result, now))
            && Score(LiveHot(w.value, now), Lower(query)) == Score(LiveHot(s, now), Lower(query)) + 1
  {
    var key := SearchKey(query, DistributedScope, optionsJson);
    KeyFamiliesDisjoint(query, DistributedScope, optionsJson, "");
    var doc := Stamped(result, now);
    SetExGet(s, key, ttl.searchResults, doc, now, t, key);
    var s1 := SetEx(s, key, ttl.searchResults, doc, now).value;
    assert LiveHot(s1, now) == LiveHot(s, now);
    TrackHotCounts(s1, query, ttl.hotQueries, now, "");
  }

  // ---------------------------------------------------------------------
  // INFO parsing
  // ---------------------------------------------------------------------

  const Crlf := "\r\n"
  const Unknown := "unknown"

  /** The first occurrence of sep in s at or after i. */
  function IndexFrom(s: string, sep: string, i: nat): (r: Option<nat>)
    requires |sep| > 0
    ensures r.Some? ==> i <= r.value && OccursAt(s, sep, r.value)
    ensures forall j :: i <= j && (r.None? || j < r.value) ==> !OccursAt(s, sep, j)
    decreases |s| - i
  {
    if i + |sep| > |s| then None
    else if s[i..i + |sep|] == sep then Some(i)
    else IndexFrom(s, sep, i + 1)
  }

  /** `s.split(sep)` for a non-empty separator. */
  function Split(s: string, sep: string): (r: seq<string>)
    requires |sep| > 0
    ensures |r| >= 1
    decreases |s|
  {
    match IndexFrom(s, sep, 0)
    case None => [s]
    case Some(i) => [s[..i]] + Split(s[i + |sep|..], sep)
  }

  /** One step of a split: the text before the first separator, then the split of the rest. */
  lemma SplitStep(s: string, sep: string, i: nat)
    requires |sep| > 0 && IndexFrom(s, sep, 0) == Some(i)
    ensures Split(s, sep) == [s[..i]] + Split(s[i + |sep|..], sep)
    ensures s == s[..i] + sep + s[i + |sep|..]
  {
    assert s[i..i + |sep|] == sep;
    assert s == s[..i] + s[i..i + |sep|] + s[i + |sep|..];
  }

  /** The first piece of a split runs up to the first separator. */
  lemma SplitFirst(s: string, sep: string)
    requires |sep| > 0
    ensures Split(s, sep)[0] == (match IndexFrom(s, sep, 0) case None => s case Some(i) => s[..i])
  {
  }

  /** Joining the pieces of a split with the separator restores the text. */
  lemma {:induction false} SplitJoin(s: string, sep: string)
    requires |sep| > 0
    ensures Join(Split(s, sep), sep) == s
    decreases |s|
  {
    match IndexFrom(s, sep, 0)
    case None =>
    case Some(i) =>
      var rest := s[i + |sep|..];
      SplitJoin(rest, sep);
      SplitStep(s, sep, i);
      JoinCons(s[..i], Split(rest, sep), sep);
  }

  /** `line.split(':')[1]`, on a line that holds a ':'. */
  function SecondField(line: string): string
    requires IndexFrom(line, ":", 0).Some?
  {
    Split(line, ":")[1]
  }

  /** What `parseRedisInfo` finds among the lines of an INFO reply. */
  function InfoLookup(lines: seq<string>, key: string): string {
    if lines == [] then Unknown
    else if StartsWith(lines[0], key + ":") then
      assert lines[0][|key|] == (key + ":")[|key|];
      assert OccursAt(lines[0], ":", |key|);
      SecondField(lines[0])
    else InfoLookup(lines[1..], key)
  }

  /** The first line that starts with the key and ':' decides the value. */
  lemma {:induction false} InfoLookupFirst(lines: seq<string>, key: string, i: nat)
    requires i < |lines| && StartsWith(lines[i], key + ":")
    requires forall j :: 0 <= j < i ==> !StartsWith(lines[j], key + ":")
    ensures InfoLookup(lines, key) == InfoLookup([lines[i]], key)
  {
    if i > 0 {
      InfoLookupFirst(lines[1..], key, i - 1);
    }
  }

  /** No matching line means "unknown". */
  lemma {:induction false} InfoLookupMissing(lines: seq<string>, key: string)
    requires forall j :: 0 <= j < |lines| ==> !StartsWith(lines[j], key + ":")
    ensures InfoLookup(lines, key) == Unknown
  {
    if lines != [] {
      InfoLookupMissing(lines[1..], key);
    }
  }

  /**
   * For a key without ':', the value read from `key:value` is the value up to
   * its own first ':', if any.
   */
  lemma InfoLineValue(key: string, v: string)
    requires forall j :: 0 <= j < |key| ==> key[j] != ':'
    ensures InfoLookup([key + ":" + v], key) ==
              (match IndexFrom(v, ":", 0) case None => v case Some(c) => v[..c])
  {
    var line := key + ":" + v;
    assert StartsWith(line, key + ":");
    assert OccursAt(line, ":", |key|);
    forall j | 0 <= j < |key| ensures !OccursAt(line, ":", j) {
      assert line[j] == key[j];
    }
    var idx := IndexFrom(line, ":", 0);
    assert idx == Some(|key|);
    assert line[|key| + 1..] == v;
    SplitStep(line, ":", |key|);
    SplitFirst(v, ":");
    assert Split(line, ":")[1] == Split(v, ":")[0];
  }

  /** `parseRedisInfo(info, key)` */
  method ParseRedisInfo(info: string, key: string) returns (value: string)
    ensures value == InfoLookup(Split(info, Crlf), key)
  {
    var lines := Split(info, Crlf);
    for i := 0 to |lines|
      invariant InfoLookup(lines[i..], key) == InfoLookup(lines, key)
    {
      assert lines[i..][1..] == lines[i + 1..];
      if StartsWith(lines[i], key + ":") {
        return InfoLookup([lines[i]], key);
      }
    }
    return Unknown;
  }

  // ---------------------------------------------------------------------
  // The manager
  // ---------------------------------------------------------------------

  const MemoryField := "used_memory_human"

  datatype CacheStats = Disconnected | Connected(memoryUsage: string, totalKeys: int, ttl: Ttl)

  /** The client's connection events. */
  datatype ConnectionEvent = Connect | Error | End | Reconnecting

  function OptionsJson(options: Option<string>): string {
    options.GetOr(EmptyOptions)
  }

  class DistributedCacheManager {
    var hasClient: bool
    var isConnected: bool
    /** The Redis server as the client sees it. */
    var store: Store
    const ttl: Ttl

    /** No client and not connected; the TTLs come from the environment. */
    constructor (env: TtlEnv, server: Store)
      requires WellFormed(server)
      ensures !hasClient && !isConnected && store == server && ttl == Ttls(env)
      ensures !IsReady() && Valid()
    {
      hasClient := false;
      isConnected := false;
      store := server;
      ttl := Ttls(env);
    }

    predicate Valid()
      reads this
    {
      WellFormed(store)
    }

    /** `isReady()`: connected, with a client. */
    predicate IsReady()
      reads this
    {
      isConnected && hasClient
    }

    /**
     * `initialize()`: the client is created and the connection attempt (connect
     * and ping) either succeeds or fails.
     */
    method Initialize(connects: bool) returns (ok: bool)
      modifies this`hasClient, this`isConnected
      ensures hasClient && isConnected == connects && ok == connects
      ensures IsReady() <==> connects
    {
      hasClient := true;
      isConnected := connects;
      ok := connects;
    }

    /** The client's event handlers: only `connect` makes the manager connected. */
    method OnConnectionEvent(e: ConnectionEvent)
      modifies this`isConnected
      ensures isConnected == (if e == Reconnecting then old(isConnected) else e == Connect)
    {
      match e
      case Connect => isConnected := true;
      case Error => isConnected := false;
      case End => isConnected := false;
      case Reconnecting =>
    }

    /** `trackHotQuery(query)` */
    method TrackHotQuery(query: string, now: int) returns (ok: bool)
      requires Valid()
      modifies this`store
      ensures Valid()
      ensures !old(IsReady()) ==> !ok && store == old(store)
      ensures old(IsReady()) ==> ok && store == TrackHot(old(store), query, ttl.hotQueries, now)
    {
      if !IsReady() {
        return false;
      }
      TrackHotCounts(store, query, ttl.hotQueries, now, "");
      store := TrackHot(store, query, ttl.hotQueries, now);
      ok := true;
    }

    /** SETEX of a document followed by tracking the query, as both result-caching paths do. */
    method WriteTracked(key: string, doc: Doc, query: string, now: int) returns (ok: bool)
      requires Valid() && IsReady() && key != HotQueriesKey
      modifies this`store
      ensures Valid()
      ensures var w := WriteAndTrack(old(store), key, ttl.searchResults, doc, query, ttl.hotQueries, now);
              ok == w.Success? && store == (if ok then w.value else old(store))
    {
      var w := SetEx(store, key, ttl.searchResults, doc, now);
      if w.Failure? {
        return false;
      }
      store := w.value;
      ok := TrackHotQuery(query, now);
      ok := true;
    }

    /** `cacheSearchResults(query, nodeId, results, options)` */
    method CacheSearchResults(query: string, nodeId: Option<string>, results: Doc, options: Option<string>, now: int)
      returns (ok: bool)
      requires Valid()
      modifies this`store
      ensures Valid()
      ensures !old(IsReady()) ==> !ok && store == old(store)
      ensures old(IsReady()) ==>
                var key := SearchKey(query, nodeId.GetOr(GlobalScope), OptionsJson(options));
                var w := WriteAndTrack(old(store), key, ttl.searchResults, NodeSnapshot(results, now), query, ttl.hotQueries, now);
                ok == w.Success? && store == (if ok then w.value else old(store))
    {
      if !IsReady() {
        return false;
      }
      var key := SearchKey(query, nodeId.GetOr(GlobalScope), OptionsJson(options));
      KeyFamiliesDisjoint(query, nodeId.GetOr(GlobalScope), OptionsJson(options), "");
      ok := WriteTracked(key, NodeSnapshot(results, now), query, now);
    }

    /** `getCachedSearchResults(query, nodeId, options)` */
    method GetCachedSearchResults(query: string, nodeId: Option<string>, options: Option<string>, now: int)
      returns (r: Option<Doc>)
      ensures !IsReady() ==> r.None?
      ensures IsReady() ==> r == Get(store, SearchKey(query, nodeId.GetOr(GlobalScope), OptionsJson(options)), now)
    {
      if !IsReady() {
        return None;
      }
      r := Get(store, SearchKey(query, nodeId.GetOr(GlobalScope), OptionsJson(options)), now);
    }

    /** `cacheDistributedResults(query, searchResult, options)` */
    method CacheDistributedResults(query: string, searchResult: Doc, options: Option<string>, now: int)
      returns (ok: bool)
      requires Valid()
      modifies this`store
      ensures Valid()
      ensures !old(IsReady()) ==> !ok && store == old(store)
      ensures old(IsReady()) ==>
                var key := SearchKey(query, DistributedScope, OptionsJson(options));
                var w := WriteAndTrack(old(store), key, ttl.searchResults, Stamped(searchResult, now), query, ttl.hotQueries, now);
                ok == w.Success? && store == (if ok then w.value else old(store))
    {
      if !IsReady() {
        return false;
      }
      var key := SearchKey(query, DistributedScope, OptionsJson(options));
      KeyFamiliesDisjoint(query, DistributedScope, OptionsJson(options), "");
      ok := WriteTracked(key, Stamped(searchResult, now), query, now);
    }

    /** `getCachedDistributedResults(query, options)` */
    method GetCachedDistributedResults(query: string, options: Option<string>, now: int) returns (r: Option<Doc>)
      ensures !IsReady() ==> r.None?
      ensures IsReady() ==> r == Get(store, SearchKey(query, DistributedScope, OptionsJson(options)), now)
    {
      if !IsReady() {
        return None;
      }
      r := Get(store, SearchKey(query, DistributedScope, OptionsJson(options)), now);
    }

    /** `getHotQueries(limit)`: the limit defaults to 10 only when it is not given. */
    method GetHotQueries(limit: Option<int>, now: int) returns (r: seq<string>)
      ensures !IsReady() ==> r == []
      ensures IsReady() ==> r == MemberList(TopHot(LiveHot(store, now), limit.GetOr(DefaultHotLimit)))
    {
      if !IsReady() {
        return [];
      }
      r := MemberList(TopHot(LiveHot(store, now), limit.GetOr(DefaultHotLimit)));
    }

    /** `cacheSystemStats(stats)` */
    method CacheSystemStats(stats: Doc, now: int) returns (ok: bool)
      requires Valid()
      modifies this`store
      ensures Valid()
      ensures !old(IsReady()) ==> !ok && store == old(store)
      ensures old(IsReady()) ==>
                var w := SetEx(old(store), SystemStatsKey, ttl.systemStats, Stamped(stats, now), now);
                ok == w.Success? && store == (if ok then w.value else old(store))
    {
      if !IsReady() {
        return false;
      }
      var w := SetEx(store, SystemStatsKey, ttl.systemStats, Stamped(stats, now), now);
      if w.Failure? {
        return false;
      }
      store := w.value;
      ok := true;
    }

    /** `getCachedSystemStats()` */
    method GetCachedSystemStats(now: int) returns (r: Option<Doc>)
      ensures !IsReady() ==> r.None?
      ensures IsReady() ==> r == Get(store, SystemStatsKey, now)
    {
      if !IsReady() {
        return None;
      }
      r := Get(store, SystemStatsKey, now);
    }

    /** `invalidatePattern(pattern)`: KEYS, then DEL when anything matched. */
    method InvalidatePattern(pattern: string, now: int) returns (ok: bool)
      requires Valid()
      modifies this`store
      ensures Valid()
      ensures !old(IsReady()) ==> !ok && store == old(store)
      ensures old(IsReady()) ==> ok && store == Invalidated(old(store), pattern, now)
    {
      if !IsReady() {
        return false;
      }
      InvalidatedReads(store, pattern, now, now, "");
      var keys := Keys(store, pattern, now);
      if |keys| > 0 {
        store := Del(store, keys);
      }
      ok := true;
    }

    /** `invalidateSearchCache()` */
    method InvalidateSearchCache(now: int) returns (ok: bool)
      requires Valid()
      modifies this`store
      ensures Valid()
      ensures !old(IsReady()) ==> !ok && store == old(store)
      ensures old(IsReady()) ==> ok && store == Invalidated(old(store), SearchPattern, now)
    {
      ok := InvalidatePattern(SearchPattern, now);
    }

    /** `getCacheStats()`, given the INFO memory reply and DBSIZE. */
    method GetCacheStats(info: string, dbSize: int) returns (r: CacheStats)
      ensures !IsReady() ==> r == Disconnected
      ensures IsReady() ==> r == Connected(InfoLookup(Split(info, Crlf), MemoryField), dbSize, ttl)
    {
      if !IsReady() {
        return Disconnected;
      }
      var memory := ParseRedisInfo(info, MemoryField);
      r := Connected(memory, dbSize, ttl);
    }

    /** `close()`: drops the client, if there is one. */
    method Close()
      modifies this`hasClient, this`isConnected
      ensures !IsReady()
      ensures old(hasClient) ==> !hasClient && !isConnected
      ensures !old(hasClient) ==> !hasClient && isConnected == old(isConnected)
    {
      if hasClient {
        hasClient := false;
        isConnected := false;
      }
    }
  }
}
