/** The in-memory crawl graph: URL nodes, two edge indexes and a version counter. */
module CrawlGraph {
  import Division
  import opened Wrappers

  type Url = string

  datatype DiscoverySource = Seed | Sitemap | LlmsTxt | LinkCrawl | ExternalLink | LiveSearch

  datatype EdgeType = Hyperlink | Cooccurrence | Contains | References | ParentOf | Cites

  datatype UrlNode = UrlNode(url: Url, domain: string, source: DiscoverySource, depth: nat, priority: real,
                             lastmod: Option<int>, discoveredAt: int, crawled: bool)

  datatype LinkEdge = LinkEdge(from: Url, to: Url, anchorText: Option<string>, edgeType: EdgeType, weight: real)

  /** The version counter is an unsigned 64-bit integer that wraps. */
  const TWO_TO_THE_64: nat := 0x1_0000_0000_0000_0000

  /** The version counter after n changes: it starts at one and wraps. */
  function Token(n: nat): (token: nat)
    ensures token < TWO_TO_THE_64
  {
    (1 + n) % TWO_TO_THE_64
  }

  lemma TokenNext(n: nat)
    ensures Token(n + 1) == (Token(n) + 1) % TWO_TO_THE_64
  {
    Division.AddOne(1 + n, TWO_TO_THE_64);
  }

  /** The recorded edges leaving u, in recording order. */
  function EdgesFrom(log: seq<LinkEdge>, u: Url): seq<LinkEdge>
  {
    if log == [] then [] else
      var last := log[|log| - 1];
      EdgesFrom(log[..|log| - 1], u) + if last.from == u then [last] else []
  }

  /** The recorded edges entering u, in recording order. */
  function EdgesTo(log: seq<LinkEdge>, u: Url): seq<LinkEdge>
  {
    if log == [] then [] else
      var last := log[|log| - 1];
      EdgesTo(log[..|log| - 1], u) + if last.to == u then [last] else []
  }

  lemma EdgesAppend(log: seq<LinkEdge>, e: LinkEdge, u: Url)
    ensures EdgesFrom(log + [e], u) == EdgesFrom(log, u) + if e.from == u then [e] else []
    ensures EdgesTo(log + [e], u) == EdgesTo(log, u) + if e.to == u then [e] else []
  {
    assert (log + [e])[..|log|] == log;
  }

  lemma {:induction false} EdgesFromMembers(log: seq<LinkEdge>, u: Url, e: LinkEdge)
    ensures e in EdgesFrom(log, u) <==> e in log && e.from == u
  {
    if log != [] {
      EdgesFromMembers(log[..|log| - 1], u, e);
    }
  }

  lemma {:induction false} EdgesToMembers(log: seq<LinkEdge>, u: Url, e: LinkEdge)
    ensures e in EdgesTo(log, u) <==> e in log && e.to == u
  {
    if log != [] {
      EdgesToMembers(log[..|log| - 1], u, e);
    }
  }

  /** The recorded edges whose source lies in us. */
  ghost function EdgesFromAny(log: seq<LinkEdge>, us: set<Url>): multiset<LinkEdge>
  {
    if log == [] then multiset{} else
      var last := log[|log| - 1];
      EdgesFromAny(log[..|log| - 1], us) + if last.from in us then multiset{last} else multiset{}
  }

  /** Taking in one more source adds exactly that source's edges. */
  lemma {:induction false} EdgesFromAnyExtend(log: seq<LinkEdge>, us: set<Url>, u: Url)
    requires u !in us
    ensures EdgesFromAny(log, us + {u}) == EdgesFromAny(log, us) + multiset(EdgesFrom(log, u))
  {
    if log != [] {
      EdgesFromAnyExtend(log[..|log| - 1], us, u);
    }
  }

  lemma {:induction false} EdgesFromAnyComplete(log: seq<LinkEdge>, us: set<Url>)
    requires forall e | e in log :: e.from in us
    ensures EdgesFromAny(log, us) == multiset(log)
  {
    if log != [] {
      EdgesFromAnyComplete(log[..|log| - 1], us);
      assert log == log[..|log| - 1] + [log[|log| - 1]];
    }
  }

  lemma {:induction false} EdgesFromAnyNone(log: seq<LinkEdge>)
    ensures EdgesFromAny(log, {}) == multiset{}
  {
    if log != [] {
      EdgesFromAnyNone(log[..|log| - 1]);
    }
  }

  /** The url column of a node list. */
  function Names(nodes: seq<UrlNode>): seq<Url>
  {
    seq(|nodes|, i requires 0 <= i < |nodes| => nodes[i].url)
  }

  function Lookup(index: map<Url, seq<LinkEdge>>, u: Url): seq<LinkEdge>
  {
    if u in index then index[u] else []
  }

  class InMemoryCrawlGraph {
    var urls: map<Url, UrlNode>
    var edgesFrom: map<Url, seq<LinkEdge>>
    var edgesTo: map<Url, seq<LinkEdge>>
    var version: nat

    /** Every edge ever recorded, in order: what the two indexes both describe. */
    ghost var log: seq<LinkEdge>

    /** How many changes the graph has seen: what the version counts. */
    ghost var changes: nat

    ghost predicate Valid()
      reads this
    {
      && (forall u | u in urls :: urls[u].url == u)
      && (forall u :: Lookup(edgesFrom, u) == EdgesFrom(log, u))
      && (forall u :: Lookup(edgesTo, u) == EdgesTo(log, u))
      && version == Token(changes)
    }

    constructor ()
      ensures Valid()
      ensures urls == map[] && log == [] && changes == 0
    {
      urls, edgesFrom, edgesTo := map[], map[], map[];
      version, log, changes := 1, [], 0;
    }

    method BumpVersion()
      requires version == Token(changes)
      modifies this`version, this`changes
      ensures version == Token(changes) && changes == old(changes) + 1
    {
      TokenNext(changes);
      version := (version + 1) % TWO_TO_THE_64;
      changes := changes + 1;
    }

    method RecordUrl(node: UrlNode)
      requires Valid()
      modifies this
      ensures Valid()
      ensures urls == old(urls)[node.url := node]
      ensures log == old(log) && changes == old(changes) + 1
    {
      urls := urls[node.url := node];
      BumpVersion();
    }

    method RecordLink(edge: LinkEdge)
      requires Valid()
      modifies this
      ensures Valid()
      ensures log == old(log) + [edge]
      ensures urls == old(urls) && changes == old(changes) + 1
    {
      hide EdgesFrom, EdgesTo;
      edgesFrom := edgesFrom[edge.from := Lookup(edgesFrom, edge.from) + [edge]];
      edgesTo := edgesTo[edge.to := Lookup(edgesTo, edge.to) + [edge]];
      log := log + [edge];
      forall u
        ensures Lookup(edgesFrom, u) == EdgesFrom(log, u) && Lookup(edgesTo, u) == EdgesTo(log, u)
      {
        EdgesAppend(old(log), edge, u);
      }
      BumpVersion();
    }

    method GetUrl(url: Url) returns (node: Option<UrlNode>)
      ensures node == if url in urls then Some(urls[url]) else None
    {
      node := if url in urls then Some(urls[url]) else None;
    }

    /** The map's iteration order is arbitrary, so only the set of results is promised. */
    method GetUrls() returns (nodes: seq<UrlNode>)
      requires Valid()
      ensures forall node | node in nodes :: node.url in urls && node == urls[node.url]
      ensures Distinct(Names(nodes))
      ensures forall u :: u in Names(nodes) <==> u in urls
    {
      nodes := [];
      var left := urls.Keys;
      while left != {}
        invariant left <= urls.Keys
        invariant forall node | node in nodes :: node.url in urls && node == urls[node.url]
        invariant Distinct(Names(nodes))
        invariant forall u :: u in Names(nodes) <==> u in urls && u !in left
        decreases left
      {
        var u :| u in left;
        assert Names(nodes + [urls[u]]) == Names(nodes) + [u];
        nodes := nodes + [urls[u]];
        left := left - {u};
      }
    }

    method GetLinksFrom(url: Url) returns (edges: seq<LinkEdge>)
      requires Valid()
      ensures edges == EdgesFrom(log, url)
    {
      edges := Lookup(edgesFrom, url);
    }

    method GetLinksTo(url: Url) returns (edges: seq<LinkEdge>)
      requires Valid()
      ensures edges == EdgesTo(log, url)
    {
      edges := Lookup(edgesTo, url);
    }

    /** Flattening one index yields every recorded edge exactly as often as it was recorded. */
    method GetAllLinks() returns (edges: seq<LinkEdge>)
      requires Valid()
      ensures multiset(edges) == multiset(log)
    {
      edges := [];
      var left := edgesFrom.Keys;
      EdgesFromAnyNone(log);
      assert edgesFrom.Keys - left == {};
      while left != {}
        invariant left <= edgesFrom.Keys
        invariant multiset(edges) == EdgesFromAny(log, edgesFrom.Keys - left)
        decreases left
      {
        var u :| u in left;
        EdgesFromAnyExtend(log, edgesFrom.Keys - left, u);
        assert edgesFrom.Keys - (left - {u}) == edgesFrom.Keys - left + {u};
        assert Lookup(edgesFrom, u) == EdgesFrom(log, u);
        edges := edges + edgesFrom[u];
        left := left - {u};
      }
      forall e | e in log
        ensures e.from in edgesFrom
      {
        EdgesFromMembers(log, e.from, e);
        assert Lookup(edgesFrom, e.from) == EdgesFrom(log, e.from);
      }
      EdgesFromAnyComplete(log, edgesFrom.Keys);
      assert edgesFrom.Keys - left == edgesFrom.Keys;
    }

    /** The token that the PageRank cache is keyed by. */
    method GraphVersion() returns (v: nat)
      requires Valid()
      ensures v == Token(changes)
    {
      v := version;
    }
  }
}
