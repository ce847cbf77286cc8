/** The assistant server's project summaries: an overview of the whole research graph and
    a summary of the last week, each cached for five minutes under its own key. Fetching
    the graph and asking the language model are oracles: the graph the fetch returned
    (`None` when it failed) and the model's reply (`None` when the call failed). Times are
    milliseconds, and the clock is a parameter. */
module SummaryService {
  import opened Common
  import opened Strings
  import opened Seqs

  datatype GraphNode = GraphNode(id: int, title: string, status: string, nodeType: string, description: string,
                                 createdAt: int, updatedAt: int)

  datatype GraphEdge = GraphEdge(id: int, fromId: int, toId: int, edgeType: string, edgeLabel: string)

  datatype GraphOverview = GraphOverview(nodes: seq<GraphNode>, edges: seq<GraphEdge>)

  datatype SummaryResponse = SummaryResponse(summary: string, generatedAt: int, cacheHit: bool,
                                             nodeCount: nat, edgeCount: nat)

  datatype CacheEntry = CacheEntry(data: SummaryResponse, timestamp: int, expiresAt: int)

  datatype SummaryKind = Overview | Weekly

  /** Five minutes. */
  const CacheTtl := 5 * 60 * 1000

  /** Seven days. */
  const WeekMs := 7 * 24 * 60 * 60 * 1000

  const FetchFailed := "Failed to fetch graph data from backend"

  function KindName(kind: SummaryKind): string
  {
    match kind
    case Overview => "overview"
    case Weekly => "weekly"
  }

  /** `getCacheKey`: the kind, a colon and the parameters' JSON text, if any. */
  function CacheKey(kind: SummaryKind, params: Option<string>): (r: string)
    ensures StartsWith(r, KindName(kind) + ":")
    ensures r[|KindName(kind)| + 1..] == params.GetOr("")
  {
    KindName(kind) + ":" + params.GetOr("")
  }

  /** Keys of different kinds never collide, and keys of one kind differ exactly when their
      parameter texts do. */
  lemma CacheKeyInjective(k1: SummaryKind, p1: Option<string>, k2: SummaryKind, p2: Option<string>)
    ensures CacheKey(k1, p1) == CacheKey(k2, p2) <==> k1 == k2 && p1.GetOr("") == p2.GetOr("")
  {
    if CacheKey(k1, p1) == CacheKey(k2, p2) {
      assert CacheKey(k1, p1)[0] == KindName(k1)[0];
      assert CacheKey(k2, p2)[0] == KindName(k2)[0];
    }
  }

  /** What `getFromCache` answers for `key` at time `now`: the data of an entry that has not
      expired. */
  function Lookup(cache: map<string, CacheEntry>, key: string, now: int): (r: Option<SummaryResponse>)
    ensures r.Some? <==> key in cache && now <= cache[key].expiresAt
    ensures r.Some? ==> r.value == cache[key].data
  {
    if key in cache && !(now > cache[key].expiresAt) then Some(cache[key].data) else None
  }

  /** The cache after `getFromCache` for `key` at time `now`: an expired entry is dropped. */
  function AfterLookup(cache: map<string, CacheEntry>, key: string, now: int): (r: map<string, CacheEntry>)
    ensures forall k :: k in r <==> k in cache && !(k == key && now > cache[k].expiresAt)
    ensures forall k | k in r :: r[k] == cache[k]
  {
    if key in cache && now > cache[key].expiresAt then cache - {key} else cache
  }

  /** Storing `key` after looking it up gives the same cache as storing it directly. */
  lemma StoreAfterLookup(cache: map<string, CacheEntry>, key: string, now: int, e: CacheEntry)
    ensures AfterLookup(cache, key, now)[key := e] == cache[key := e]
  {
  }

  /** The entries of `cache` that have not expired at time `now`. */
  function Unexpired(cache: map<string, CacheEntry>, now: int): (r: map<string, CacheEntry>)
    ensures forall k :: k in r <==> k in cache && now <= cache[k].expiresAt
    ensures forall k | k in r :: r[k] == cache[k]
  {
    map k | k in cache && !(now > cache[k].expiresAt) :: cache[k]
  }

  /** An entry stored at `t0` is found from then until it is five minutes old, and not
      afterwards. */
  lemma CacheRoundTrip(cache: map<string, CacheEntry>, key: string, data: SummaryResponse, t0: int, t: int)
    ensures Lookup(cache[key := CacheEntry(data, t0, t0 + CacheTtl)], key, t)
         == if t <= t0 + CacheTtl then Some(data) else None
  {
  }

  /** Dropping the expired entries changes no answer a lookup gives at the same time, and
      leaves no expired entry behind. */
  lemma CleanupPreservesLookups(cache: map<string, CacheEntry>, now: int, key: string)
    ensures Lookup(Unexpired(cache, now), key, now) == Lookup(cache, key, now)
    ensures forall k | k in Unexpired(cache, now) :: now <= Unexpired(cache, now)[k].expiresAt
  {
  }

  /** The nodes updated at or after `cutoff`, in order. */
  function RecentNodes(nodes: seq<GraphNode>, cutoff: int): (r: seq<GraphNode>)
    ensures |r| <= |nodes|
    ensures forall n :: n in r <==> n in nodes && n.updatedAt >= cutoff
  {
    Filter((n: GraphNode) => n.updatedAt >= cutoff, nodes)
  }

  function NodeIds(nodes: seq<GraphNode>): (r: set<int>)
    ensures forall id :: id in r <==> exists n :: n in nodes && n.id == id
  {
    set n | n in nodes :: n.id
  }

  /** The edges with at least one end among `ids`, in order. */
  function RecentEdges(edges: seq<GraphEdge>, ids: set<int>): (r: seq<GraphEdge>)
    ensures |r| <= |edges|
    ensures forall e :: e in r <==> e in edges && (e.fromId in ids || e.toId in ids)
  {
    Filter((e: GraphEdge) => e.fromId in ids || e.toId in ids, edges)
  }

  /** `acc[key] = (acc[key] || 0) + 1` on a tally kept in key order. */
  function Bump(acc: seq<(string, nat)>, x: string): (r: seq<(string, nat)>)
  {
    if acc == [] then [(x, 1)]
    else if acc[0].0 == x then [(x, acc[0].1 + 1)] + acc[1..]
    else [acc[0]] + Bump(acc[1..], x)
  }

  /** The `reduce` that counts the items by value: one entry per distinct value, in order of
      first appearance. */
  function Tally(xs: seq<string>): seq<(string, nat)>
  {
    if xs == [] then [] else Bump(Tally(xs[..|xs| - 1]), xs[|xs| - 1])
  }

  function Keys(t: seq<(string, nat)>): seq<string>
  {
    if t == [] then [] else [t[0].0] + Keys(t[1..])
  }

  /** The count a tally holds for `k`, 0 when it has none. */
  function CountOf(t: seq<(string, nat)>, k: string): nat
  {
    if t == [] then 0 else (if t[0].0 == k then t[0].1 else 0) + CountOf(t[1..], k)
  }

  function Total(t: seq<(string, nat)>): nat
  {
    if t == [] then 0 else t[0].1 + Total(t[1..])
  }

  lemma {:induction false} BumpFacts(acc: seq<(string, nat)>, x: string)
    requires Distinct(Keys(acc))
    ensures Distinct(Keys(Bump(acc, x)))
    ensures forall k :: k in Keys(Bump(acc, x)) <==> k in Keys(acc) || k == x
    ensures forall k :: CountOf(Bump(acc, x), k) == CountOf(acc, k) + (if k == x then 1 else 0)
    ensures Total(Bump(acc, x)) == Total(acc) + 1
  {
    if acc != [] {
      assert Keys(acc) == [acc[0].0] + Keys(acc[1..]);
      assert Distinct(Keys(acc[1..])) by {
        forall a, b | 0 <= a < b < |Keys(acc[1..])| ensures Keys(acc[1..])[a] != Keys(acc[1..])[b] {
          assert Keys(acc)[a + 1] == Keys(acc[1..])[a] && Keys(acc)[b + 1] == Keys(acc[1..])[b];
        }
      }
      if acc[0].0 == x {
        assert Keys(Bump(acc, x)) == Keys(acc);
        DistinctHead(Keys(acc));
        forall k ensures CountOf(Bump(acc, x), k) == CountOf(acc, k) + (if k == x then 1 else 0) {
          assert Bump(acc, x)[1..] == acc[1..];
        }
      } else {
        BumpFacts(acc[1..], x);
        var b := Bump(acc[1..], x);
        assert Bump(acc, x) == [acc[0]] + b;
        assert Bump(acc, x)[1..] == b;
        assert Keys(Bump(acc, x)) == [acc[0].0] + Keys(b);
        DistinctHead(Keys(acc));
        DistinctCons(acc[0].0, Keys(b));
      }
    }
  }

  lemma DistinctHead(s: seq<string>)
    requires Distinct(s) && s != []
    ensures s[0] !in s[1..]
  {
  }

  lemma DistinctCons(x: string, s: seq<string>)
    requires Distinct(s) && x !in s
    ensures Distinct([x] + s)
  {
    forall a, b | 0 <= a < b < |[x] + s| ensures ([x] + s)[a] != ([x] + s)[b] {
      if a > 0 {
        assert ([x] + s)[a] == s[a - 1];
      }
      assert ([x] + s)[b] == s[b - 1];
    }
  }

  /** The status and edge-type counts: one entry per distinct value, each holding how often
      the value occurs, and together adding up to the number of items. */
  lemma {:induction false} TallyCounts(xs: seq<string>)
    ensures Distinct(Keys(Tally(xs)))
    ensures forall k :: k in Keys(Tally(xs)) <==> k in xs
    ensures forall k :: CountOf(Tally(xs), k) == multiset(xs)[k]
    ensures Total(Tally(xs)) == |xs|
  {
    if xs != [] {
      var init := xs[..|xs| - 1];
      var last := xs[|xs| - 1];
      assert xs == init + [last];
      TallyCounts(init);
      BumpFacts(Tally(init), last);
      assert multiset(xs) == multiset(init) + multiset{last};
    }
  }

  function Statuses(nodes: seq<GraphNode>): (r: seq<string>)
    ensures |r| == |nodes| && forall i | 0 <= i < |nodes| :: r[i] == nodes[i].status
  {
    seq(|nodes|, i requires 0 <= i < |nodes| => nodes[i].status)
  }

  function EdgeTypes(edges: seq<GraphEdge>): (r: seq<string>)
    ensures |r| == |edges| && forall i | 0 <= i < |edges| :: r[i] == edges[i].edgeType
  {
    seq(|edges|, i requires 0 <= i < |edges| => edges[i].edgeType)
  }

  predicate NewestFirst(ns: seq<GraphNode>)
  {
    forall i, j | 0 <= i < j < |ns| :: ns[i].updatedAt >= ns[j].updatedAt
  }

  /** Puts `x` after the leading nodes at least as recent as it. */
  function InsertByRecency(ns: seq<GraphNode>, x: GraphNode): seq<GraphNode>
  {
    if ns == [] then [x]
    else if ns[0].updatedAt >= x.updatedAt then [ns[0]] + InsertByRecency(ns[1..], x)
    else [x] + ns
  }

  /** Inserting keeps every node, as often as it occurs, and adds `x` once. */
  lemma {:induction false} InsertByRecencyKeeps(ns: seq<GraphNode>, x: GraphNode)
    ensures multiset(InsertByRecency(ns, x)) == multiset(ns) + multiset{x}
  {
    if ns != [] && ns[0].updatedAt >= x.updatedAt {
      InsertByRecencyKeeps(ns[1..], x);
      assert ns == [ns[0]] + ns[1..];
    }
  }

  /** A node at least as recent as every node of a newest-first sequence can head it. */
  lemma ConsNewest(h: GraphNode, rest: seq<GraphNode>)
    requires NewestFirst(rest) && forall n | n in rest :: h.updatedAt >= n.updatedAt
    ensures NewestFirst([h] + rest)
  {
    var r := [h] + rest;
    forall i, j | 0 <= i < j < |r| ensures r[i].updatedAt >= r[j].updatedAt {
      assert r[j] == rest[j - 1];
      if i > 0 {
        assert r[i] == rest[i - 1];
      } else {
        assert rest[j - 1] in rest;
      }
    }
  }

  /** Inserting keeps a newest-first sequence newest first. */
  lemma {:induction false} InsertByRecencySorted(ns: seq<GraphNode>, x: GraphNode)
    requires NewestFirst(ns)
    ensures NewestFirst(InsertByRecency(ns, x))
  {
    if ns == [] {
    } else if ns[0].updatedAt >= x.updatedAt {
      var rest := InsertByRecency(ns[1..], x);
      assert NewestFirst(ns[1..]) by {
        forall i, j | 0 <= i < j < |ns[1..]| ensures ns[1..][i].updatedAt >= ns[1..][j].updatedAt {
          assert ns[1..][i] == ns[i + 1] && ns[1..][j] == ns[j + 1];
        }
      }
      InsertByRecencySorted(ns[1..], x);
      InsertByRecencyKeeps(ns[1..], x);
      forall n | n in rest ensures ns[0].updatedAt >= n.updatedAt {
        assert n in multiset(rest);
        if n != x {
          assert n in multiset(ns[1..]);
          var k :| 0 <= k < |ns[1..]| && ns[1..][k] == n;
          assert ns[k + 1] == n;
        }
      }
      ConsNewest(ns[0], rest);
    } else {
      forall n | n in ns ensures x.updatedAt >= n.updatedAt {
        var k :| 0 <= k < |ns| && ns[k] == n;
        if k > 0 {
          assert ns[0].updatedAt >= ns[k].updatedAt;
        }
      }
      ConsNewest(x, ns);
    }
  }

  /** The comparator sort on `updated_at`, newest first, as an insertion sort. */
  function ByRecency(ns: seq<GraphNode>): (r: seq<GraphNode>)
  {
    if ns == [] then [] else InsertByRecency(ByRecency(ns[..|ns| - 1]), ns[|ns| - 1])
  }

  /** The sort puts the nodes newest first and keeps every node, as often as it occurs. */
  lemma {:induction false} ByRecencySorts(ns: seq<GraphNode>)
    ensures NewestFirst(ByRecency(ns))
    ensures multiset(ByRecency(ns)) == multiset(ns)
  {
    if ns != [] {
      var init := ns[..|ns| - 1];
      assert ns == init + [ns[|ns| - 1]];
      ByRecencySorts(init);
      InsertByRecencyKeeps(ByRecency(init), ns[|ns| - 1]);
      InsertByRecencySorted(ByRecency(init), ns[|ns| - 1]);
    }
  }

  /** `.sort(...).slice(0, 5)`: the recent experiments listed in the template summary. */
  function MostRecent(ns: seq<GraphNode>): seq<GraphNode>
  {
    var sorted := ByRecency(ns);
    if |sorted| <= 5 then sorted else sorted[..5]
  }

  /** At most five nodes are listed, all of them nodes of the graph, newest first; fewer than
      five only when the graph has fewer; and no node left out is more recent than a node
      listed. */
  lemma MostRecentIsTopFive(ns: seq<GraphNode>)
    ensures |MostRecent(ns)| == if |ns| < 5 then |ns| else 5
    ensures NewestFirst(MostRecent(ns))
    ensures forall n | n in MostRecent(ns) :: n in ns
    ensures forall x, y | x in ns && x !in MostRecent(ns) && y in MostRecent(ns) :: y.updatedAt >= x.updatedAt
  {
    ByRecencySorts(ns);
    var sorted := ByRecency(ns);
    var top := MostRecent(ns);
    assert |sorted| == |ns| by {
      assert |multiset(sorted)| == |multiset(ns)|;
    }
    TopMembers(ns, sorted, top);
    TopLeavesOlder(ns, sorted, top);
  }

  /** The front of a rearrangement holds only nodes of the original. */
  lemma TopMembers(ns: seq<GraphNode>, sorted: seq<GraphNode>, top: seq<GraphNode>)
    requires multiset(sorted) == multiset(ns) && top <= sorted
    ensures forall n | n in top :: n in ns
  {
    forall n | n in top ensures n in ns {
      assert n in multiset(sorted);
    }
  }

  /** Whatever a newest-first rearrangement leaves after its front is no more recent than
      anything in the front. */
  lemma TopLeavesOlder(ns: seq<GraphNode>, sorted: seq<GraphNode>, top: seq<GraphNode>)
    requires multiset(sorted) == multiset(ns) && NewestFirst(sorted) && top <= sorted
    ensures forall x, y | x in ns && x !in top && y in top :: y.updatedAt >= x.updatedAt
  {
    forall x, y | x in ns && x !in top && y in top ensures y.updatedAt >= x.updatedAt {
      assert x in multiset(sorted);
      var j := IndexOf(sorted, x);
      var i := IndexOf(top, y);
      assert sorted[i] == y;
      assert j >= |top|;
    }
  }

  function Describe(n: GraphNode): string
  {
    "- **" + n.title + "** (" + n.status + "): " + (if n.description == "" then "No description" else n.description) + "\n"
  }

  function CountLines(t: seq<(string, nat)>, noun: string): string
  {
    if t == [] then "" else "- " + t[0].0 + ": " + NatToString(t[0].1) + " " + noun + "\n" + CountLines(t[1..], noun)
  }

  function RecentLines(ns: seq<GraphNode>): string
  {
    if ns == [] then "" else Describe(ns[0]) + RecentLines(ns[1..])
  }

  /** `generateTemplateSummary`: the counts, the status and relationship breakdowns and the
      five most recent experiments, as Markdown. */
  function TemplateSummary(nodes: seq<GraphNode>, edges: seq<GraphEdge>): string
  {
    "# Research Project Summary\n\n" + "## Overview\n"
    + "This research project contains " + NatToString(|nodes|) + " experiments with " + NatToString(|edges|)
    + " relationships between them.\n\n"
    + "## Experiment Status Breakdown\n" + CountLines(Tally(Statuses(nodes)), "experiments")
    + "\n## Relationship Types\n" + CountLines(Tally(EdgeTypes(edges)), "relationships")
    + "\n## Recent Experiments\n" + RecentLines(MostRecent(nodes))
  }

  const Unavailable := "Unable to generate summary"

  /** `generateSummaryWithLLM`: the model's reply; a placeholder when the reply is empty;
      the template summary when the call failed. */
  function Summarize(nodes: seq<GraphNode>, edges: seq<GraphEdge>, reply: Option<string>): (r: string)
    ensures reply.None? ==> r == TemplateSummary(nodes, edges)
    ensures reply.Some? && reply.value != "" ==> r == reply.value
    ensures reply == Some("") ==> r == Unavailable
  {
    match reply
    case None => TemplateSummary(nodes, edges)
    case Some(content) => if content == "" then Unavailable else content
  }

  /** A freshly built response: not a cache hit, counting the nodes and edges summarized. */
  function FreshResponse(nodes: seq<GraphNode>, edges: seq<GraphEdge>, reply: Option<string>, now: int): (r: SummaryResponse)
    ensures !r.cacheHit && r.nodeCount == |nodes| && r.edgeCount == |edges| && r.generatedAt == now
    ensures r.summary == Summarize(nodes, edges, reply)
  {
    SummaryResponse(Summarize(nodes, edges, reply), now, false, |nodes|, |edges|)
  }

  /** The nodes and edges the weekly summary covers at time `now`. */
  function WeeklyNodes(g: GraphOverview, now: int): (r: seq<GraphNode>)
    ensures forall n :: n in r <==> n in g.nodes && n.updatedAt >= now - WeekMs
  {
    RecentNodes(g.nodes, now - WeekMs)
  }

  function WeeklyEdges(g: GraphOverview, now: int): (r: seq<GraphEdge>)
    ensures forall e :: e in r <==> (e in g.edges &&
      exists n :: n in g.nodes && n.updatedAt >= now - WeekMs && (n.id == e.fromId || n.id == e.toId))
  {
    var ids := NodeIds(WeeklyNodes(g, now));
    var r := RecentEdges(g.edges, ids);
    forall e ensures e in r <==> (e in g.edges &&
      exists n :: n in g.nodes && n.updatedAt >= now - WeekMs && (n.id == e.fromId || n.id == e.toId))
    {
      if e in g.edges && exists n :: n in g.nodes && n.updatedAt >= now - WeekMs && (n.id == e.fromId || n.id == e.toId) {
        var n :| n in g.nodes && n.updatedAt >= now - WeekMs && (n.id == e.fromId || n.id == e.toId);
        assert n in WeeklyNodes(g, now);
      }
    }
    r
  }

  class SummaryCache {
    var cache: map<string, CacheEntry>

    /** Every entry expires five minutes after it was stored. */
    ghost predicate Valid()
      reads this
    {
      forall k | k in cache :: cache[k].expiresAt == cache[k].timestamp + CacheTtl
    }

    constructor()
      ensures Valid() && cache == map[]
    {
      cache := map[];
    }

    /** `getFromCache`: the data of an entry that has not expired; an expired entry is
        deleted on the way. */
    method GetFromCache(key: string, now: int) returns (r: Option<SummaryResponse>)
      requires Valid()
      modifies this
      ensures Valid()
      ensures r == Lookup(old(cache), key, now)
      ensures cache == AfterLookup(old(cache), key, now)
    {
      if key !in cache {
        return None;
      }
      var entry := cache[key];
      if now > entry.expiresAt {
        cache := cache - {key};
        return None;
      }
      r := Some(entry.data);
    }

    /** `setCache`: stores `data` under `key`, stamped `now`, for five minutes. */
    method SetCache(key: string, data: SummaryResponse, now: int)
      requires Valid()
      modifies this
      ensures Valid()
      ensures cache == old(cache)[key := CacheEntry(data, now, now + CacheTtl)]
    {
      cache := cache[key := CacheEntry(data, now, now + CacheTtl)];
    }

    /** `cleanupCache`: deletes exactly the entries expired at time `now`. */
    method CleanupCache(now: int)
      requires Valid()
      modifies this
      ensures Valid()
      ensures cache == Unexpired(old(cache), now)
    {
      var c := cache;
      var pending := c.Keys;
      while pending != {}
        invariant pending <= old(cache).Keys
        invariant forall k :: k in c <==> k in old(cache) && !(k !in pending && now > old(cache)[k].expiresAt)
        invariant forall k | k in c :: c[k] == old(cache)[k]
        decreases pending
      {
        var key :| key in pending;
        if now > c[key].expiresAt {
          c := c - {key};
        }
        pending := pending - {key};
      }
      cache := c;
    }

    /** `clearCache`: empties the cache. */
    method ClearCache()
      modifies this
      ensures Valid() && cache == map[]
    {
      cache := map[];
    }

    /** `generateOverviewSummary`: unless the cache is bypassed, an unexpired cached overview
        is returned marked as a hit; otherwise a fresh overview of the whole graph is built,
        cached and returned, or the fetch failure is thrown with nothing cached. */
    method GenerateOverviewSummary(ignoreCache: bool, fetched: Option<GraphOverview>, reply: Option<string>, now: int)
      returns (r: Result<SummaryResponse, string>)
      requires Valid()
      modifies this
      ensures Valid()
      ensures var key := CacheKey(Overview, None);
        if !ignoreCache && Lookup(old(cache), key, now).Some? then
          r == Ok(Lookup(old(cache), key, now).value.(cacheHit := true)) && cache == old(cache)
        else if fetched.None? then
          r == Err(FetchFailed) && cache == (if ignoreCache then old(cache) else AfterLookup(old(cache), key, now))
        else
          var g := fetched.value;
          r == Ok(FreshResponse(g.nodes, g.edges, reply, now)) &&
          cache == old(cache)[key := CacheEntry(r.value, now, now + CacheTtl)]
    {
      var key := CacheKey(Overview, None);
      if !ignoreCache {
        var cached := GetFromCache(key, now);
        if cached.Some? {
          return Ok(cached.value.(cacheHit := true));
        }
      }
      if fetched.None? {
        return Err(FetchFailed);
      }
      var g := fetched.value;
      var response := FreshResponse(g.nodes, g.edges, reply, now);
      StoreAfterLookup(old(cache), key, now, CacheEntry(response, now, now + CacheTtl));
      SetCache(key, response, now);
      r := Ok(response);
    }

    /** `generateWeeklySummary`: as the overview, but the fresh summary covers only the nodes
        updated in the last seven days and the edges touching them, and counts those. */
    method GenerateWeeklySummary(ignoreCache: bool, fetched: Option<GraphOverview>, reply: Option<string>, now: int)
      returns (r: Result<SummaryResponse, string>)
      requires Valid()
      modifies this
      ensures Valid()
      ensures var key := CacheKey(Weekly, None);
        if !ignoreCache && Lookup(old(cache), key, now).Some? then
          r == Ok(Lookup(old(cache), key, now).value.(cacheHit := true)) && cache == old(cache)
        else if fetched.None? then
          r == Err(FetchFailed) && cache == (if ignoreCache then old(cache) else AfterLookup(old(cache), key, now))
        else
          var g := fetched.value;
          r == Ok(FreshResponse(WeeklyNodes(g, now), WeeklyEdges(g, now), reply, now)) &&
          cache == old(cache)[key := CacheEntry(r.value, now, now + CacheTtl)]
    {
      var key := CacheKey(Weekly, None);
      if !ignoreCache {
        var cached := GetFromCache(key, now);
        if cached.Some? {
          return Ok(cached.value.(cacheHit := true));
        }
      }
      if fetched.None? {
        return Err(FetchFailed);
      }
      var g := fetched.value;
      var recentNodes := RecentNodes(g.nodes, now - WeekMs);
      var recentEdges := RecentEdges(g.edges, NodeIds(recentNodes));
      assert recentNodes == WeeklyNodes(g, now);
      assert recentEdges == WeeklyEdges(g, now);
      var response := FreshResponse(recentNodes, recentEdges, reply, now);
      StoreAfterLookup(old(cache), key, now, CacheEntry(response, now, now + CacheTtl));
      SetCache(key, response, now);
      r := Ok(response);
    }
  }

  /** A fresh summary built at `t0` is what a second request gets within five minutes, marked
      as a cache hit; after that the second request builds a new one. */
  lemma SecondRequestHits(cache: map<string, CacheEntry>, kind: SummaryKind, response: SummaryResponse, t0: int, t: int)
    requires t0 <= t
    ensures var key := CacheKey(kind, None);
      var stored := cache[key := CacheEntry(response, t0, t0 + CacheTtl)];
      (t - t0 <= CacheTtl ==> Lookup(stored, key, t) == Some(response)) &&
      (t - t0 > CacheTtl ==> Lookup(stored, key, t).None?)
  {
    CacheRoundTrip(cache, CacheKey(kind, None), response, t0, t);
  }
}
