/** Live search hits entering the crawl graph: one pass, its report, and what a
    second pass over the same hits does. */
module LiveIngest {
  import opened Wrappers
  import opened CrawlGraph

  const MIN_INGEST_SCORE: real := 0.015
  const MAX_INGEST_PER_SEARCH: nat := 25

  datatype FusedHit = FusedHit(url: Url, score: real, publishedAt: Option<int>)

  datatype IngestReport = IngestReport(candidates: nat, nodesRecorded: nat, alreadyPresent: nat, duplicates: nat,
                                       jobsEnqueued: nat, failed: nat)

  /** URL handling as the pass sees it; scheme is None for a URL that does not parse. */
  datatype UrlRules = UrlRules(canonical: Url -> string, scheme: Url -> Option<string>, domain: Url -> string)

  /** What the surroundings answer during one pass, by position of the hit. */
  datatype Surroundings = Surroundings(now: nat -> int, enqueueOk: nat -> bool)

  /** stored lists the hits that reached the store, in order. */
  datatype Pass = Pass(nodes: map<Url, UrlNode>, seen: set<string>, report: IngestReport, stored: seq<FusedHit>, stopped: bool)

  function Start(nodes: map<Url, UrlNode>): Pass
  {
    Pass(nodes, {}, IngestReport(0, 0, 0, 0, 0, 0), [], false)
  }

  function MaxReal(a: real, b: real): real
  {
    if a >= b then a else b
  }

  predicate Fetchable(rules: UrlRules, url: Url)
  {
    rules.scheme(url) == Some("http") || rules.scheme(url) == Some("https")
  }

  function NewNode(rules: UrlRules, hit: FusedHit, now: int): UrlNode
  {
    UrlNode(hit.url, rules.domain(hit.url), LiveSearch, 0, hit.score, hit.publishedAt, now, false)
  }

  /** A hit that passed every filter reaches the store. */
  function Accept(p: Pass, rules: UrlRules, hit: FusedHit, now: int, enqueueOk: bool): Pass
  {
    var r := p.report;
    if hit.url in p.nodes then
      var node := p.nodes[hit.url];
      p.(nodes := p.nodes[hit.url := node.(priority := MaxReal(node.priority, hit.score))],
         report := r.(candidates := r.candidates + 1, alreadyPresent := r.alreadyPresent + 1),
         stored := p.stored + [hit])
    else
      p.(nodes := p.nodes[hit.url := NewNode(rules, hit, now)],
         report := r.(candidates := r.candidates + 1, nodesRecorded := r.nodesRecorded + 1,
                      jobsEnqueued := r.jobsEnqueued + (if enqueueOk then 1 else 0),
                      failed := r.failed + (if enqueueOk then 0 else 1)),
         stored := p.stored + [hit])
  }

  /** One turn of the loop. */
  function Take(p: Pass, rules: UrlRules, hit: FusedHit, now: int, enqueueOk: bool): Pass
  {
    if p.stopped || hit.score < MIN_INGEST_SCORE then p
    else if p.report.candidates >= MAX_INGEST_PER_SEARCH then p.(stopped := true)
    else
      var canonical := rules.canonical(hit.url);
      if canonical in p.seen then p.(report := p.report.(duplicates := p.report.duplicates + 1))
      else
        var marked := p.(seen := p.seen + {canonical});
        if !Fetchable(rules, hit.url) then marked.(report := p.report.(failed := p.report.failed + 1))
        else Accept(marked, rules, hit, now, enqueueOk)
  }

  function Ingest(nodes: map<Url, UrlNode>, rules: UrlRules, hits: seq<FusedHit>, around: Surroundings): Pass
  {
    if hits == [] then Start(nodes)
    else
      var i := |hits| - 1;
      Take(Ingest(nodes, rules, hits[..i], around), rules, hits[i], around.now(i), around.enqueueOk(i))
  }

  method IngestFusedHits(store: InMemoryCrawlGraph, rules: UrlRules, hits: seq<FusedHit>, around: Surroundings)
    returns (report: IngestReport)
    requires store.Valid()
    modifies store
    ensures store.Valid() && store.log == old(store.log)
    ensures var p := Ingest(old(store.urls), rules, hits, around);
            store.urls == p.nodes && report == p.report
  {
    report := IngestReport(0, 0, 0, 0, 0, 0);
    var seen: set<string> := {};
    ghost var stored: seq<FusedHit> := [];
    var stopped := false;
    var i := 0;
    while i < |hits| && !stopped
      invariant 0 <= i <= |hits|
      invariant store.Valid() && store.log == old(store.log)
      invariant Ingest(old(store.urls), rules, hits[..i], around) == Pass(store.urls, seen, report, stored, stopped)
      decreases |hits| - i, !stopped
    {
      var hit := hits[i];
      assert hits[..i + 1][..i] == hits[..i];
      i := i + 1;
      if hit.score < MIN_INGEST_SCORE {
        continue;
      }
      if report.candidates >= MAX_INGEST_PER_SEARCH {
        stopped := true;
        continue;
      }
      var canonical := rules.canonical(hit.url);
      if canonical in seen {
        report := report.(duplicates := report.duplicates + 1);
        continue;
      }
      seen := seen + {canonical};
      if !Fetchable(rules, hit.url) {
        report := report.(failed := report.failed + 1);
        continue;
      }
      report := report.(candidates := report.candidates + 1);
      stored := stored + [hit];
      var existing := store.GetUrl(hit.url);
      if existing.Some? {
        store.RecordUrl(existing.value.(priority := MaxReal(existing.value.priority, hit.score)));
        report := report.(alreadyPresent := report.alreadyPresent + 1);
        continue;
      }
      store.RecordUrl(NewNode(rules, hit, around.now(i - 1)));
      report := report.(nodesRecorded := report.nodesRecorded + 1);
      if around.enqueueOk(i - 1) {
        report := report.(jobsEnqueued := report.jobsEnqueued + 1);
      } else {
        report := report.(failed := report.failed + 1);
      }
    }
    if stopped {
      StoppedStays(old(store.urls), rules, hits, around, i);
    }
    assert hits[..|hits|] == hits;
  }

  lemma {:induction false} StoppedStays(nodes: map<Url, UrlNode>, rules: UrlRules, hits: seq<FusedHit>, around: Surroundings, i: nat)
    requires i <= |hits| && Ingest(nodes, rules, hits[..i], around).stopped
    ensures Ingest(nodes, rules, hits, around) == Ingest(nodes, rules, hits[..i], around)
    decreases |hits|
  {
    if i == |hits| {
      assert hits[..i] == hits;
    } else {
      var n := |hits| - 1;
      assert hits[..n][..i] == hits[..i];
      StoppedStays(nodes, rules, hits[..n], around, i);
    }
  }

  // ----- the report

  /** The hits that reached the store: counted, at most 25, above the floor,
      fetchable and with pairwise different canonical URLs. */
  ghost predicate StoredOk(p: Pass, rules: UrlRules)
  {
    && p.report.candidates == |p.stored| == p.report.nodesRecorded + p.report.alreadyPresent <= MAX_INGEST_PER_SEARCH
    && p.report.jobsEnqueued <= p.report.nodesRecorded
    && (forall i | 0 <= i < |p.stored| ::
          && p.stored[i].score >= MIN_INGEST_SCORE && Fetchable(rules, p.stored[i].url)
          && rules.canonical(p.stored[i].url) in p.seen)
    && (forall i, j | 0 <= i < j < |p.stored| :: rules.canonical(p.stored[i].url) != rules.canonical(p.stored[j].url))
  }

  lemma {:induction false} CountersAgree(nodes: map<Url, UrlNode>, rules: UrlRules, hits: seq<FusedHit>, around: Surroundings)
    ensures StoredOk(Ingest(nodes, rules, hits, around), rules)
  {
    if hits != [] {
      var i := |hits| - 1;
      CountersAgree(nodes, rules, hits[..i], around);
      TakeKeepsStored(Ingest(nodes, rules, hits[..i], around), rules, hits[i], around.now(i), around.enqueueOk(i));
    }
  }

  lemma TakeKeepsStored(p: Pass, rules: UrlRules, hit: FusedHit, now: int, enqueueOk: bool)
    requires StoredOk(p, rules)
    ensures StoredOk(Take(p, rules, hit, now, enqueueOk), rules)
  {
  }

  /** Every hit is accounted for: below the floor, duplicate, failed to parse,
      stored, or after the pass had stopped. */
  function Dropped(nodes: map<Url, UrlNode>, rules: UrlRules, hits: seq<FusedHit>, around: Surroundings): nat
  {
    if hits == [] then 0
    else
      var i := |hits| - 1;
      var p := Ingest(nodes, rules, hits[..i], around);
      Dropped(nodes, rules, hits[..i], around)
      + if p.stopped || hits[i].score < MIN_INGEST_SCORE || p.report.candidates >= MAX_INGEST_PER_SEARCH then 1 else 0
  }

  lemma {:induction false} EveryHitCounted(nodes: map<Url, UrlNode>, rules: UrlRules, hits: seq<FusedHit>, around: Surroundings)
    ensures var r := Ingest(nodes, rules, hits, around).report;
            |hits| + (r.nodesRecorded - r.jobsEnqueued)
            == Dropped(nodes, rules, hits, around) + r.candidates + r.duplicates + r.failed
  {
    if hits != [] {
      EveryHitCounted(nodes, rules, hits[..|hits| - 1], around);
    }
  }

  // ----- what becomes of each hit, said of the hits alone

  /** Below the floor; a variant of an earlier hit; not fetchable; in the graph
      already; new with its job enqueued; new with its job refused. */
  datatype Kind = Low | Duplicate | Unfetchable | Present | Queued | Refused

  ghost function KindOf(nodes: map<Url, UrlNode>, rules: UrlRules, hits: seq<FusedHit>, around: Surroundings, i: nat): Kind
    requires i < |hits|
  {
    var url := hits[i].url;
    if hits[i].score < 0.015 then Low
    else if exists j | 0 <= j < i :: hits[j].score >= 0.015 && rules.canonical(hits[j].url) == rules.canonical(url) then Duplicate
    else if rules.scheme(url) != Some("http") && rules.scheme(url) != Some("https") then Unfetchable
    else if url in nodes then Present
    else if around.enqueueOk(i) then Queued
    else Refused
  }

  /** How many of the first n hits are of a kind. */
  ghost function KindCount(nodes: map<Url, UrlNode>, rules: UrlRules, hits: seq<FusedHit>, around: Surroundings, n: nat, kind: Kind): nat
    requires n <= |hits|
  {
    if n == 0 then 0
    else
      KindCount(nodes, rules, hits, around, n - 1, kind) + if KindOf(nodes, rules, hits, around, n - 1) == kind then 1 else 0
  }

  ghost predicate ExactReport(r: IngestReport, nodes: map<Url, UrlNode>, rules: UrlRules, hits: seq<FusedHit>, around: Surroundings, n: nat)
    requires n <= |hits|
  {
    var count := (kind: Kind) => KindCount(nodes, rules, hits, around, n, kind);
    && r.alreadyPresent == count(Present) && r.nodesRecorded == count(Queued) + count(Refused)
    && r.candidates == count(Present) + count(Queued) + count(Refused)
    && r.duplicates == count(Duplicate) && r.jobsEnqueued == count(Queued)
    && r.failed == count(Unfetchable) + count(Refused)
  }

  /** The hit's node afterwards: an old one with the hit's score as its priority if
      that is higher, or a new one. */
  ghost predicate ExactNode(after: map<Url, UrlNode>, nodes: map<Url, UrlNode>, rules: UrlRules, hits: seq<FusedHit>,
                            around: Surroundings, i: nat)
    requires i < |hits|
  {
    var hit, kind := hits[i], KindOf(nodes, rules, hits, around, i);
    && (kind == Present && hit.url in nodes ==>
          var p := nodes[hit.url].priority;
          hit.url in after && after[hit.url] == nodes[hit.url].(priority := if hit.score > p then hit.score else p))
    && (kind == Queued || kind == Refused ==>
          hit.url in after
          && after[hit.url] == UrlNode(hit.url, rules.domain(hit.url), LiveSearch, 0, hit.score, hit.publishedAt, around.now(i), false))
  }

  ghost predicate Stores(kind: Kind)
  {
    kind == Present || kind == Queued || kind == Refused
  }

  /** A URL that none of the first n hits stores. */
  ghost predicate Untouched(nodes: map<Url, UrlNode>, rules: UrlRules, hits: seq<FusedHit>, around: Surroundings, n: nat, url: Url)
    requires n <= |hits|
  {
    forall i: nat | i < n && Stores(KindOf(nodes, rules, hits, around, i)) :: hits[i].url != url
  }

  ghost predicate ExactNodes(after: map<Url, UrlNode>, nodes: map<Url, UrlNode>, rules: UrlRules, hits: seq<FusedHit>,
                             around: Surroundings, n: nat)
    requires n <= |hits|
  {
    && (forall i: nat | i < n :: ExactNode(after, nodes, rules, hits, around, i))
    && (forall u | Untouched(nodes, rules, hits, around, n, u) ::
          (u in after <==> u in nodes) && (u in nodes ==> after[u] == nodes[u]))
  }

  ghost predicate ExactSeen(seen: set<string>, rules: UrlRules, hits: seq<FusedHit>, n: nat)
    requires n <= |hits|
  {
    forall c :: c in seen <==> exists j | 0 <= j < n :: hits[j].score >= 0.015 && rules.canonical(hits[j].url) == c
  }

  /** Nobody has stored the hit's URL before: it would have the same canonical form. */
  lemma NotStoredYet(nodes: map<Url, UrlNode>, rules: UrlRules, hits: seq<FusedHit>, around: Surroundings, i: nat)
    requires i < |hits| && Stores(KindOf(nodes, rules, hits, around, i))
    ensures Untouched(nodes, rules, hits, around, i, hits[i].url)
  {
    forall j: nat | j < i && Stores(KindOf(nodes, rules, hits, around, j))
      ensures hits[j].url != hits[i].url
    {
      assert hits[j].score >= 0.015;
    }
  }

  /** What one turn of a pass that goes on does is what the kind of its hit says. */
  lemma TakeByKind(p: Pass, nodes: map<Url, UrlNode>, rules: UrlRules, hits: seq<FusedHit>, around: Surroundings, n: nat)
    requires n < |hits| && !p.stopped && ExactSeen(p.seen, rules, hits, n) && ExactNodes(p.nodes, nodes, rules, hits, around, n)
    requires !Take(p, rules, hits[n], around.now(n), around.enqueueOk(n)).stopped
    ensures var p' := Take(p, rules, hits[n], around.now(n), around.enqueueOk(n));
            var hit, kind, r := hits[n], KindOf(nodes, rules, hits, around, n), p.report;
            && p'.seen == (if kind == Low then p.seen else p.seen + {rules.canonical(hit.url)})
            && p'.report == IngestReport(r.candidates + (if Stores(kind) then 1 else 0),
                                         r.nodesRecorded + (if kind == Queued || kind == Refused then 1 else 0),
                                         r.alreadyPresent + (if kind == Present then 1 else 0),
                                         r.duplicates + (if kind == Duplicate then 1 else 0),
                                         r.jobsEnqueued + (if kind == Queued then 1 else 0),
                                         r.failed + (if kind == Unfetchable || kind == Refused then 1 else 0))
            && (!Stores(kind) ==> p'.nodes == p.nodes)
            && (Stores(kind) ==> hit.url in p'.nodes && p'.nodes == p.nodes[hit.url := p'.nodes[hit.url]]
                                 && ExactNode(p'.nodes, nodes, rules, hits, around, n))
  {
    var hit, kind := hits[n], KindOf(nodes, rules, hits, around, n);
    var p' := Take(p, rules, hit, around.now(n), around.enqueueOk(n));
    assert kind == Duplicate || kind == Low || rules.canonical(hit.url) !in p.seen;
    if Stores(kind) {
      NotStoredYet(nodes, rules, hits, around, n);
      assert Untouched(nodes, rules, hits, around, n, hit.url);
      assert hit.url in p.nodes <==> hit.url in nodes;
      assert p'.nodes == p.nodes[hit.url := p'.nodes[hit.url]];
    }
  }

  lemma NodesMore(before: map<Url, UrlNode>, after: map<Url, UrlNode>, nodes: map<Url, UrlNode>, rules: UrlRules, hits: seq<FusedHit>,
                  around: Surroundings, n: nat)
    requires n < |hits| && ExactNodes(before, nodes, rules, hits, around, n)
    requires var kind := KindOf(nodes, rules, hits, around, n);
             && (!Stores(kind) ==> after == before)
             && (Stores(kind) ==> hits[n].url in after && after == before[hits[n].url := after[hits[n].url]]
                                  && ExactNode(after, nodes, rules, hits, around, n))
    ensures ExactNodes(after, nodes, rules, hits, around, n + 1)
  {
    hide KindOf;
    var kind := KindOf(nodes, rules, hits, around, n);
    forall i: nat | i < n + 1
      ensures ExactNode(after, nodes, rules, hits, around, i)
    {
      if i < n {
        assert ExactNode(before, nodes, rules, hits, around, i);
        if Stores(kind) && Stores(KindOf(nodes, rules, hits, around, i)) {
          NotStoredYet(nodes, rules, hits, around, n);
          assert hits[i].url != hits[n].url;
        }
      }
    }
    forall u | Untouched(nodes, rules, hits, around, n + 1, u)
      ensures (u in after <==> u in nodes) && (u in nodes ==> after[u] == nodes[u])
    {
      assert Untouched(nodes, rules, hits, around, n, u);
      assert Stores(kind) ==> hits[n].url != u;
    }
  }

  lemma SeenMore(seen: set<string>, rules: UrlRules, hits: seq<FusedHit>, n: nat)
    requires n < |hits| && ExactSeen(seen, rules, hits, n)
    ensures ExactSeen(if hits[n].score < 0.015 then seen else seen + {rules.canonical(hits[n].url)}, rules, hits, n + 1)
  {
  }

  /** As long as the pass goes on, report and nodes are what the hits so far say. */
  lemma {:induction false} ExactUpTo(nodes: map<Url, UrlNode>, rules: UrlRules, hits: seq<FusedHit>, around: Surroundings, n: nat)
    requires n <= |hits| && !Ingest(nodes, rules, hits[..n], around).stopped
    ensures var p := Ingest(nodes, rules, hits[..n], around);
            && ExactSeen(p.seen, rules, hits, n)
            && ExactReport(p.report, nodes, rules, hits, around, n)
            && ExactNodes(p.nodes, nodes, rules, hits, around, n)
  {
    hide ExactNodes, ExactSeen, ExactReport, ExactNode, Take, KindOf, Stores;
    if n == 0 {
      NothingTaken(nodes, rules, hits, around);
    } else {
      var before := Ingest(nodes, rules, hits[..n - 1], around);
      assert hits[..n][..n - 1] == hits[..n - 1];
      TakeGoesOn(before, rules, hits[n - 1], around.now(n - 1), around.enqueueOk(n - 1));
      ExactUpTo(nodes, rules, hits, around, n - 1);
      TakeByKind(before, nodes, rules, hits, around, n - 1);
      NodesMore(before.nodes, Ingest(nodes, rules, hits[..n], around).nodes, nodes, rules, hits, around, n - 1);
      SeenMore(before.seen, rules, hits, n - 1);
      LowIsBelow(nodes, rules, hits, around, n - 1);
      ReportMore(before.report, Ingest(nodes, rules, hits[..n], around).report, nodes, rules, hits, around, n - 1);
    }
  }

  lemma LowIsBelow(nodes: map<Url, UrlNode>, rules: UrlRules, hits: seq<FusedHit>, around: Surroundings, i: nat)
    requires i < |hits|
    ensures KindOf(nodes, rules, hits, around, i) == Low <==> hits[i].score < 0.015
  {
  }

  lemma ReportMore(r: IngestReport, r': IngestReport, nodes: map<Url, UrlNode>, rules: UrlRules, hits: seq<FusedHit>,
                   around: Surroundings, n: nat)
    requires n < |hits| && ExactReport(r, nodes, rules, hits, around, n)
    requires var kind := KindOf(nodes, rules, hits, around, n);
             r' == IngestReport(r.candidates + (if Stores(kind) then 1 else 0),
                                r.nodesRecorded + (if kind == Queued || kind == Refused then 1 else 0),
                                r.alreadyPresent + (if kind == Present then 1 else 0),
                                r.duplicates + (if kind == Duplicate then 1 else 0),
                                r.jobsEnqueued + (if kind == Queued then 1 else 0),
                                r.failed + (if kind == Unfetchable || kind == Refused then 1 else 0))
    ensures ExactReport(r', nodes, rules, hits, around, n + 1)
  {
    hide KindOf;
  }

  lemma NothingTaken(nodes: map<Url, UrlNode>, rules: UrlRules, hits: seq<FusedHit>, around: Surroundings)
    ensures ExactSeen({}, rules, hits, 0) && ExactNodes(nodes, nodes, rules, hits, around, 0)
    ensures ExactReport(IngestReport(0, 0, 0, 0, 0, 0), nodes, rules, hits, around, 0)
  {
  }

  lemma TakeGoesOn(p: Pass, rules: UrlRules, hit: FusedHit, now: int, enqueueOk: bool)
    ensures p.stopped ==> Take(p, rules, hit, now, enqueueOk) == p
    ensures Take(p, rules, hit, now, enqueueOk).stopped && !p.stopped ==>
              hit.score >= 0.015 && p.report.candidates >= 25 && Take(p, rules, hit, now, enqueueOk) == p.(stopped := true)
  {
  }

  /** The whole pass: it takes the first c hits, all of them or up to the next one
      above the floor after 25 candidates, and its report and the graph's nodes
      are what these hits say. */
  lemma {:induction false} PassIsExact(nodes: map<Url, UrlNode>, rules: UrlRules, hits: seq<FusedHit>, around: Surroundings, n: nat)
    returns (c: nat)
    requires n <= |hits|
    ensures c <= n
    ensures var p := Ingest(nodes, rules, hits[..n], around);
            && ExactReport(p.report, nodes, rules, hits, around, c) && ExactNodes(p.nodes, nodes, rules, hits, around, c)
            && p.report.candidates <= 25 && (c < n ==> p.report.candidates == 25 && hits[c].score >= 0.015)
            && (p.stopped <==> c < n)
  {
    hide ExactNodes, ExactReport, Take;
    CountersAgree(nodes, rules, hits[..n], around);
    var p := Ingest(nodes, rules, hits[..n], around);
    if !p.stopped {
      c := n;
      ExactUpTo(nodes, rules, hits, around, n);
    } else {
      assert hits[..n][..n - 1] == hits[..n - 1];
      var before := Ingest(nodes, rules, hits[..n - 1], around);
      TakeGoesOn(before, rules, hits[n - 1], around.now(n - 1), around.enqueueOk(n - 1));
      c := PassIsExact(nodes, rules, hits, around, n - 1);
    }
  }

  // ----- the nodes

  /** No node is lost and priorities only rise; every other field is kept. */
  ghost predicate Kept(before: map<Url, UrlNode>, nodes: map<Url, UrlNode>)
  {
    forall u | u in before ::
      u in nodes && nodes[u].priority >= before[u].priority && nodes[u] == before[u].(priority := nodes[u].priority)
  }

  /** A stored hit's node has at least the hit's score as its priority. */
  ghost predicate AllCovered(nodes: map<Url, UrlNode>, stored: seq<FusedHit>)
  {
    forall i | 0 <= i < |stored| :: Covered(nodes, stored[i])
  }

  /** A new node is that of a stored hit. */
  ghost predicate Sourced(before: map<Url, UrlNode>, nodes: map<Url, UrlNode>, stored: seq<FusedHit>)
  {
    forall u | u in nodes && u !in before :: exists i | 0 <= i < |stored| :: stored[i].url == u
  }

  ghost predicate Grown(before: map<Url, UrlNode>, p: Pass)
  {
    Kept(before, p.nodes) && AllCovered(p.nodes, p.stored) && Sourced(before, p.nodes, p.stored)
  }

  predicate Covered(nodes: map<Url, UrlNode>, hit: FusedHit)
  {
    hit.url in nodes && nodes[hit.url].priority >= hit.score
  }

  lemma {:induction false} NodesGrow(nodes: map<Url, UrlNode>, rules: UrlRules, hits: seq<FusedHit>, around: Surroundings)
    ensures Grown(nodes, Ingest(nodes, rules, hits, around))
  {
    if hits != [] {
      var i := |hits| - 1;
      NodesGrow(nodes, rules, hits[..i], around);
      TakeKeepsGrown(nodes, Ingest(nodes, rules, hits[..i], around), rules, hits[i], around.now(i), around.enqueueOk(i));
    }
  }

  lemma TakeKeepsGrown(before: map<Url, UrlNode>, p: Pass, rules: UrlRules, hit: FusedHit, now: int, enqueueOk: bool)
    requires Grown(before, p)
    ensures Grown(before, Take(p, rules, hit, now, enqueueOk))
  {
    hide Kept, AllCovered, Sourced;
    var p' := Take(p, rules, hit, now, enqueueOk);
    if p'.stored != p.stored || p'.nodes != p.nodes {
      var node := if hit.url in p.nodes then p.nodes[hit.url].(priority := MaxReal(p.nodes[hit.url].priority, hit.score))
                  else NewNode(rules, hit, now);
      assert p'.nodes == p.nodes[hit.url := node] && p'.stored == p.stored + [hit];
      UpdateKeepsGrown(before, p.nodes, p.stored, hit, node);
    }
  }

  lemma UpdateKeepsGrown(before: map<Url, UrlNode>, nodes: map<Url, UrlNode>, stored: seq<FusedHit>, hit: FusedHit, node: UrlNode)
    requires Kept(before, nodes) && AllCovered(nodes, stored) && Sourced(before, nodes, stored)
    requires node.priority >= hit.score
    requires hit.url in nodes ==>
               node.priority >= nodes[hit.url].priority && node == nodes[hit.url].(priority := node.priority)
    ensures Kept(before, nodes[hit.url := node]) && AllCovered(nodes[hit.url := node], stored + [hit])
    ensures Sourced(before, nodes[hit.url := node], stored + [hit])
  {
    var nodes', stored' := nodes[hit.url := node], stored + [hit];
    forall u | u in nodes' && u !in before
      ensures exists i | 0 <= i < |stored'| :: stored'[i].url == u
    {
      if u == hit.url {
        assert stored'[|stored|].url == u;
      } else {
        var i :| 0 <= i < |stored| && stored[i].url == u;
        assert stored'[i].url == u;
      }
    }
  }

  // ----- the second pass

  /** The second pass at the same hit: same filters, all hits already there. */
  ghost predicate Repeats(first: Pass, second: Pass, nodes: map<Url, UrlNode>)
  {
    && second.nodes == nodes && second.seen == first.seen && second.stopped == first.stopped && second.stored == first.stored
    && second.report.candidates == second.report.alreadyPresent == first.report.candidates
    && second.report.nodesRecorded == second.report.jobsEnqueued == 0
    && second.report.duplicates == first.report.duplicates
  }

  lemma TakeRepeats(first: Pass, second: Pass, nodes: map<Url, UrlNode>, rules: UrlRules, hit: FusedHit,
                    now: int, enqueueOk: bool, now': int, enqueueOk': bool)
    requires Repeats(first, second, nodes)
    requires var p := Take(first, rules, hit, now, enqueueOk);
             p.stored != first.stored ==> Covered(nodes, hit)
    ensures Repeats(Take(first, rules, hit, now, enqueueOk), Take(second, rules, hit, now', enqueueOk'), nodes)
  {
    if Covered(nodes, hit) {
      assert nodes[hit.url := nodes[hit.url].(priority := MaxReal(nodes[hit.url].priority, hit.score))] == nodes;
    }
  }

  lemma {:induction false} StoredGrows(nodes: map<Url, UrlNode>, rules: UrlRules, hits: seq<FusedHit>, around: Surroundings, i: nat)
    requires i <= |hits|
    ensures Ingest(nodes, rules, hits[..i], around).stored <= Ingest(nodes, rules, hits, around).stored
    decreases |hits|
  {
    hide Take;
    if i == |hits| {
      assert hits[..i] == hits;
    } else {
      var n := |hits| - 1;
      assert hits[..n][..i] == hits[..i];
      StoredGrows(nodes, rules, hits[..n], around, i);
      TakeStores(Ingest(nodes, rules, hits[..n], around), rules, hits[n], around.now(n), around.enqueueOk(n));
    }
  }

  lemma TakeStores(p: Pass, rules: UrlRules, hit: FusedHit, now: int, enqueueOk: bool)
    ensures p.stored <= Take(p, rules, hit, now, enqueueOk).stored
  {
  }

  lemma {:induction false} SecondPass(nodes: map<Url, UrlNode>, rules: UrlRules, hits: seq<FusedHit>,
                                      around: Surroundings, around': Surroundings, i: nat)
    requires i <= |hits|
    ensures var after := Ingest(nodes, rules, hits, around).nodes;
            Repeats(Ingest(nodes, rules, hits[..i], around), Ingest(after, rules, hits[..i], around'), after)
  {
    if i > 0 {
      var all := Ingest(nodes, rules, hits, around);
      assert hits[..i][..i - 1] == hits[..i - 1];
      SecondPass(nodes, rules, hits, around, around', i - 1);
      StoredGrows(nodes, rules, hits, around, i);
      NodesGrow(nodes, rules, hits, around);
      var first, p := Ingest(nodes, rules, hits[..i - 1], around), Ingest(nodes, rules, hits[..i], around);
      if p.stored != first.stored {
        assert p.stored == first.stored + [hits[i - 1]];
        assert all.stored[|first.stored|] == hits[i - 1];
      }
      TakeRepeats(first, Ingest(all.nodes, rules, hits[..i - 1], around'), all.nodes, rules, hits[i - 1],
                  around.now(i - 1), around.enqueueOk(i - 1), around'.now(i - 1), around'.enqueueOk(i - 1));
    }
  }

  /** Ingesting the same hits again, at whatever time and whatever the queue
      answers, leaves every node as it is, records none, enqueues no job and
      meets the same candidates and duplicates. */
  lemma IngestTwice(nodes: map<Url, UrlNode>, rules: UrlRules, hits: seq<FusedHit>, around: Surroundings, around': Surroundings)
    ensures var first := Ingest(nodes, rules, hits, around);
            var second := Ingest(first.nodes, rules, hits, around');
            && second.nodes == first.nodes
            && second.report.nodesRecorded == 0 && second.report.jobsEnqueued == 0
            && second.report.alreadyPresent == first.report.nodesRecorded + first.report.alreadyPresent
            && second.report.duplicates == first.report.duplicates
  {
    CountersAgree(nodes, rules, hits, around);
    SecondPass(nodes, rules, hits, around, around', |hits|);
    assert hits[..|hits|] == hits;
  }
}
