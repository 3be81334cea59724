/** The bulk crawl loop: one crawler object over many crawl calls, with the
    web, the proxies and the clock as arbitrary oracles. */
module BulkCrawler {
  import opened CrawlQueues
  import opened Wrappers

  /** Everything outside the crawler. domainOf, normalize and pathDepth are URL
      parsing; relevance is the topic score; fetch gives the answer to the n-th
      request; elapse gives the time that passes before the n-th clock
      reading; proxyOk and clientOk say whether picking a proxy and building
      the client succeed. */
  datatype World = World(domainOf: Url -> Domain, normalize: Url -> Url, pathDepth: Url -> nat,
                         relevance: (Url, Option<Page>) -> real, fetch: (Url, nat) -> FetchResult,
                         elapse: nat -> nat, proxyOk: nat -> bool, clientOk: nat -> bool)

  datatype Blueprint = Blueprint(robots: Policy, sitemap: seq<Url>, llms: seq<Url>)

  /** How one pass through the loop ended. */
  datatype Outcome = QueueEmpty | Skipped | Aborted(error: CrawlError) | FetchFailed | Got(page: Page)

  /** What ends a crawl call early: no proxy could be picked, or no client built. */
  datatype CrawlError = NoProxy | NoClient

  /** The world can cause the error: some proxy pick, or some client build, fails. */
  ghost predicate CanFail(w: World, error: CrawlError)
  {
    match error
    case NoProxy => exists n :: !w.proxyOk(n)
    case NoClient => exists n :: !w.clientOk(n)
  }

  /** An internal link of a page belongs to the page's own domain. */
  ghost predicate LinksStayHome(w: World)
  {
    forall u, n, l | w.fetch(u, n).Fetched? && l in w.fetch(u, n).page.internalLinks :: w.domainOf(l) == w.domainOf(u)
  }

  // ----- the pick

  /** The comparison the loop maximises by: lower relevance wins, then smaller depth. */
  predicate Beats(a: Entry, b: Entry)
  {
    a.relevance < b.relevance || (a.relevance == b.relevance && a.depth < b.depth)
  }

  ghost predicate IsPick(domains: Domains, e: Entry)
  {
    && (exists d :: d in domains && e in domains[d].queue)
    && forall d, o | d in domains && o in domains[d].queue :: !Beats(o, e)
  }

  ghost predicate AllRelevances(domains: Domains, r: real)
  {
    forall d, o | d in domains && o in domains[d].queue :: o.relevance == r
  }

  /** The pick is an entry of the least relevance that waits and, among those, of the least depth. */
  lemma PickIff(domains: Domains, e: Entry)
    ensures IsPick(domains, e)
       <==> && (exists d :: d in domains && e in domains[d].queue)
            && forall d, o | d in domains && o in domains[d].queue ::
                 e.relevance < o.relevance || (e.relevance == o.relevance && e.depth <= o.depth)
  {
    if IsPick(domains, e) {
      forall d, o | d in domains && o in domains[d].queue
        ensures e.relevance < o.relevance || (e.relevance == o.relevance && e.depth <= o.depth)
      {
        assert !Beats(o, e);
      }
    }
  }

  /** The pick is the most relevant entry, as the loop's comment has it, only
      when all waiting entries are equally relevant. */
  lemma PickIsMostRelevantIff(domains: Domains, e: Entry)
    requires IsPick(domains, e)
    ensures (forall d, o | d in domains && o in domains[d].queue :: o.relevance <= e.relevance)
       <==> exists r :: AllRelevances(domains, r)
  {
    if r :| AllRelevances(domains, r) {
      assert e.relevance == r;
    }
    if forall d, o | d in domains && o in domains[d].queue :: o.relevance <= e.relevance {
      forall d, o | d in domains && o in domains[d].queue
        ensures o.relevance == e.relevance
      {
        assert !Beats(o, e);
      }
      assert AllRelevances(domains, e.relevance);
    }
  }

  /** Two entries of different relevance: the only possible pick is the less relevant one. */
  lemma LessRelevantIsPicked(e: Entry)
    ensures var low, high := Entry("https://a.org/low", 1, 0.1), Entry("https://a.org/high", 1, 0.9);
            IsPick(map["a.org" := BLANK.(queue := [high, low])], e) <==> e == low
  {
    var low, high := Entry("https://a.org/low", 1, 0.1), Entry("https://a.org/high", 1, 0.9);
    var domains := map["a.org" := BLANK.(queue := [high, low])];
    assert "a.org" in domains && low in domains["a.org"].queue && high in domains["a.org"].queue;
    assert forall d, o | d in domains && o in domains[d].queue :: o == low || o == high;
    assert Beats(low, high);
  }

  lemma NotBeatenByWeaker(o: Entry, a: Entry, b: Entry)
    requires !Beats(o, a) && !Beats(a, b)
    ensures !Beats(o, b)
  {
  }

  /** A site map entry of another host: queued under the seed's domain, but
      dequeued from its own. After the request for it was sent it is picked again. */
  lemma ForeignEntryIsPickedAgain(domainOf: Url -> Domain, at: Time, good: bool, until: Option<Time>)
    requires domainOf("https://cdn.org/x") == "cdn.org"
    ensures var e := Entry("https://cdn.org/x", 1, 0.5);
            var d := map["a.org" := BLANK.(queue := [e], seen := {e.url}), "cdn.org" := BLANK];
            var dequeued := Dequeue(d, domainOf(e.url), e.url);
            var after := dequeued["cdn.org" := AfterRequest(dequeued["cdn.org"], at, good, until)];
            IsPick(d, e) && IsPick(after, e) && Stalled(after, {e.url}, domainOf)
  {
    var e := Entry("https://cdn.org/x", 1, 0.5);
    var d := map["a.org" := BLANK.(queue := [e], seen := {e.url}), "cdn.org" := BLANK];
    var dequeued := Dequeue(d, "cdn.org", e.url);
    var after := dequeued["cdn.org" := AfterRequest(dequeued["cdn.org"], at, good, until)];
    assert "a.org" != "cdn.org" by { assert "a.org"[0] != "cdn.org"[0]; }
    assert after["a.org"].queue == [e] && after["cdn.org"].queue == [];
    assert "a.org" in d && e in d["a.org"].queue;
    assert "a.org" in after && e in after["a.org"].queue;
    assert QueuedUrls(after["cdn.org"].queue) == [];
    assert forall x, o | x in after && o in after[x].queue :: o == e;
    assert IsPick(after, e);
  }

  /** Whatever is picked is known as crawled and not queued under its own domain:
      the pass skips it without taking it out of any queue. */
  ghost predicate Stalled(domains: Domains, known: set<Url>, domainOf: Url -> Domain)
  {
    && (exists e :: IsPick(domains, e))
    && forall e | IsPick(domains, e) :: e.url in known && e.url !in QueuedUrls(StateOf(domains, domainOf(e.url)).queue)
  }

  lemma {:induction false} RemoveNothing(queue: seq<Entry>, url: Url)
    requires url !in QueuedUrls(queue)
    ensures RemoveFirst(queue, url) == queue
  {
    if queue != [] {
      assert QueuedUrls(queue) == [queue[0].url] + QueuedUrls(queue[1..]);
      RemoveNothing(queue[1..], url);
    }
  }

  lemma DequeueNothing(domains: Domains, domain: Domain, url: Url)
    requires url !in QueuedUrls(StateOf(domains, domain).queue)
    ensures Dequeue(domains, domain, url) == domains
  {
    RemoveNothing(StateOf(domains, domain).queue, url);
  }

  /** b is a with a fresh session for the domain, created at a moment. */
  ghost predicate Rotated(a: Domains, b: Domains, domain: Domain, at: Time)
  {
    b == a[domain := StateOf(a, domain).(session := Some(Session(at, 0, 0)))]
  }

  /** What b has seen and a had not satisfies the scope of the crawl. */
  ghost predicate NewInScope(a: Domains, b: Domains, scope: Option<set<Url>>, normalize: Url -> Url)
  {
    forall d, u | d in b && u in b[d].seen && u !in StateOf(a, d).seen :: InScope(scope, normalize, u)
  }

  predicate InScope(scope: Option<set<Url>>, normalize: Url -> Url, u: Url): (r: bool)
    ensures !r <==> scope.Some? && normalize(u) !in scope.value
  {
    scope.Some? ==> normalize(u) in scope.value
  }

  class BulkDomainCrawler {
    const world: World
    const delay: Time
    const rpsDelay: Time
    const maxPages: nat
    const pagesPerSession: nat
    const sessionMaxAge: Time
    const followExternal: bool
    const minDepth: nat
    const maxDepth: nat
    const autoDepth: bool
    const deep: bool
    const hasStore: bool

    var domains: Domains
    var now: Time
    var ticks: nat
    /** The store's crawled flag, per recorded URL. */
    var crawled: map<Url, bool>

    /** Every request made so far, over all crawl calls. */
    ghost var requests: seq<Request>
    /** How long the crawler has slept so far. */
    ghost var slept: Time
    /** The domain of an answer that failed, until its session is replaced. */
    ghost var pending: Option<Domain>

    constructor (world: World, pagesPerSession: nat, sessionMaxAgeMinutes: nat, delayMs: nat, rps: nat, maxPages: nat,
                 followExternal: bool, minDepth: nat, maxDepth: nat, autoDepth: bool, deep: bool, hasStore: bool, store: map<Url, bool>)
      ensures Valid() && Filed()
      ensures domains == map[] && requests == [] && crawled == store
      ensures this.world == world && this.maxPages == maxPages && this.followExternal == followExternal
      ensures delay == (if delayMs > 100 then delayMs as real else 100.0)
      ensures rpsDelay * (if rps > 0 then rps else 1) as real == 1000.0
      ensures this.minDepth == minDepth && this.maxDepth == maxDepth && this.autoDepth == autoDepth
      ensures this.deep == deep && this.hasStore == hasStore
      ensures this.pagesPerSession == (if pagesPerSession > 0 then pagesPerSession else 1)
      ensures sessionMaxAge == (if sessionMaxAgeMinutes > 0 then sessionMaxAgeMinutes as real * 60000.0 else 60000.0)
    {
      this.world := world;
      this.delay := if delayMs < 100 then 100.0 else delayMs as real;
      this.rpsDelay := 1000.0 / (if rps < 1 then 1 else rps) as real;
      this.maxPages := maxPages;
      this.pagesPerSession := if pagesPerSession < 1 then 1 else pagesPerSession;
      this.sessionMaxAge := (if sessionMaxAgeMinutes < 1 then 1 else sessionMaxAgeMinutes) as real * 60000.0;
      this.followExternal := followExternal;
      this.minDepth, this.maxDepth, this.autoDepth := minDepth, maxDepth, autoDepth;
      this.deep, this.hasStore := deep, hasStore;
      domains, now, ticks, crawled := map[], 0.0, 0, store;
      requests, slept, pending := [], 0.0, None;
    }

    /** What every step keeps, whatever is queued where. */
    ghost predicate Valid()
      reads this
    {
      Sound() && StoreOk() && pending == None
    }

    ghost predicate Sound()
      reads this
    {
      && QueuesOk(domains, maxPages)
      && LogOk(domains, requests, deep, now)
      && Paced(requests, Floor(), deep)
      && NeverKnown(requests)
      && Accounted(domains, requests)
      && Served(requests, pagesPerSession, sessionMaxAge)
      && Renewed(requests)
      && SessionsOk(domains, pending)
    }

    /** While a proxy can be picked, no request goes out under a session whose
        last answer was a failure. */
    ghost predicate Renewed(requests: seq<Request>)
    {
      forall i | 0 <= i < |requests| :: requests[i].under.consecutiveFailures > 0 ==> CanFail(world, NoProxy)
    }

    /** What was taken up and is known as crawled was fetched by this crawler. */
    ghost predicate StoreOk()
      reads this
    {
      hasStore ==> KnownOk(domains, crawled, requests)
    }

    /** No session ever serves more requests than its quota, and one whose last
        answer was a failure has been replaced if that is possible. */
    ghost predicate SessionsOk(domains: Domains, pending: Option<Domain>)
    {
      pagesPerSession >= 1 && sessionMaxAge > 0.0 &&
      forall d | d in domains && domains[d].session.Some? ::
        && domains[d].session.value.requestCount <= pagesPerSession
        && (domains[d].session.value.consecutiveFailures > 0 ==> pending == Some(d) || CanFail(world, NoProxy))
    }

    /** What holds in addition as long as URLs are taken up under their own domain. */
    ghost predicate Filed()
      reads this
    {
      OwnDomain(domains, world.domainOf) && RequestsOk(domains, requests, world.domainOf)
    }

    /** The crawler's own minimum spacing of requests to a domain: its delay or its rate limit. */
    function Floor(): Time
    {
      if delay >= rpsDelay then delay else rpsDelay
    }

    /** What is required of a domain, by its robots policy too. */
    function Required(d: DomainState): Time
    {
      Spacing(Floor(), DelayOf(d.policy))
    }

    /** The session has served its quota, is too old or has failed three times in a row. */
    predicate ShouldRotate(s: Session)
      reads this
    {
      s.requestCount >= pagesPerSession || now - s.createdAt >= sessionMaxAge || s.consecutiveFailures >= 3
    }

    /** Reading the clock: some time has passed. */
    method Tick()
      modifies this`now, this`ticks
      ensures now == old(now) + world.elapse(old(ticks)) as real && ticks == old(ticks) + 1
    {
      now, ticks := now + world.elapse(ticks) as real, ticks + 1;
    }

    method Sleep(d: Time)
      requires d >= 0.0
      modifies this`now, this`ticks, this`slept
      ensures now >= old(now) + d && slept == old(slept) + d
    {
      now, slept := now + d, slept + d;
      Tick();
    }

    // ----- enqueue

    method EnqueueUrl(domain: Domain, url: Url, depth: nat, relevance: real) returns (isNew: bool)
      modifies this`domains
      ensures domains == Enqueue(old(domains), domain, Entry(url, depth, relevance), maxPages)
      ensures isNew == Accepts(old(domains), domain, url, maxPages)
    {
      if !Allowed(domains, domain, url) {
        return false;
      }
      var state := StateOf(domains, domain);
      domains := domains[domain := state];
      if url !in state.seen && |state.seen| < maxPages {
        domains := domains[domain := state.(seen := state.seen + {url}, queue := state.queue + [Entry(url, depth, relevance)])];
        return true;
      }
      return false;
    }

    method RecordUrl(url: Url)
      modifies this`crawled
      ensures crawled == if hasStore then old(crawled)[url := false] else old(crawled)
    {
      if hasStore {
        crawled := crawled[url := false];
      }
    }

    method MarkUrlCrawled(url: Url)
      modifies this`crawled
      ensures crawled == if hasStore && url in old(crawled) then old(crawled)[url := true] else old(crawled)
    {
      if hasStore && url in crawled {
        crawled := crawled[url := true];
      }
    }

    // ----- pick

    method SelectNext() returns (next: Option<Entry>)
      ensures next.None? ==> forall d | d in domains :: domains[d].queue == []
      ensures next.Some? ==> IsPick(domains, next.value)
    {
      next := None;
      var left := domains.Keys;
      while left != {}
        invariant left <= domains.Keys
        invariant next.None? ==> forall d | d in domains && d !in left :: domains[d].queue == []
        invariant next.Some? ==> exists d :: d in domains && next.value in domains[d].queue
        invariant next.Some? ==> forall d, o | d in domains && d !in left && o in domains[d].queue :: !Beats(o, next.value)
        decreases left
      {
        var d :| d in left;
        var queue := domains[d].queue;
        for i := 0 to |queue|
          invariant next.None? ==> i == 0 && forall x | x in domains && x !in left :: domains[x].queue == []
          invariant next.Some? ==> exists x :: x in domains && next.value in domains[x].queue
          invariant next.Some? ==> forall x, o | x in domains && x !in left && o in domains[x].queue :: !Beats(o, next.value)
          invariant next.Some? ==> forall j | 0 <= j < i :: !Beats(queue[j], next.value)
        {
          if next.None? || !Beats(next.value, queue[i]) {
            forall o | next.Some? && !Beats(o, next.value)
              ensures !Beats(o, queue[i])
            {
              NotBeatenByWeaker(o, next.value, queue[i]);
            }
            next := Some(queue[i]);
          }
        }
        left := left - {d};
      }
    }

    // ----- the per-domain rate limit

    /** Waiting until a request may go out, and no longer: to the end of a pending
        backoff, or else at most until the longest of the intervals is over. */
    method WaitForSlot(domain: Domain) returns (ghost asked: Time)
      modifies this`now, this`ticks, this`slept
      ensures old(now) <= asked && asked + (slept - old(slept)) <= now
      ensures var d, sleep := StateOf(domains, domain), slept - old(slept);
              if d.backoffUntil.Some? && asked < d.backoffUntil.value then sleep == d.backoffUntil.value - asked
              else
                sleep == 0.0
                || (sleep > 0.0 && d.lastRequest.Some?
                    && (|| asked + sleep <= d.lastRequest.value + delay || asked + sleep <= d.lastRequest.value + rpsDelay
                        || (DelayOf(d.policy).Some? && asked + sleep <= d.lastRequest.value + DelayOf(d.policy).value)))
      ensures var d := StateOf(domains, domain); SlotFree(d.lastRequest, d.backoffUntil, Required(d), asked, now)
    {
      asked := now;
      if domain in domains {
        var d := domains[domain];
        if d.backoffUntil.Some? {
          Tick();
          asked := now;
          if d.backoffUntil.value > now {
            Sleep(d.backoffUntil.value - now);
            return;
          }
        }
        var needed := Required(d);
        if d.lastRequest.Some? {
          Tick();
          var elapsed := now - d.lastRequest.value;
          if elapsed < needed {
            Sleep(needed - elapsed);
          }
        }
      }
    }

    // ----- sessions

    /** A fresh session for the domain, unless no proxy could be picked. */
    method RotateSession(domain: Domain) returns (ok: bool)
      requires Sound() && StoreOk()
      modifies this`domains, this`now, this`ticks
      ensures Sound() && StoreOk() && now >= old(now)
      ensures old(Filed()) ==> Filed()
      ensures ok <==> world.proxyOk(old(ticks))
      ensures !ok ==> domains == old(domains) && CanFail(world, NoProxy)
      ensures ok ==> exists at :: old(now) <= at <= now && Rotated(old(domains), domains, domain, at)
    {
      if !world.proxyOk(ticks) {
        return false;
      }
      Tick();
      domains := domains[domain := StateOf(domains, domain).(session := Some(Session(now, 0, 0)))];
      hide Renewed, QueuesOk, LogOk, KnownOk, Paced, OwnDomain, RequestsOk, Accounted, NeverKnown, SameQueues, Later,
           AddsNothing, NewInScope, SessionsOk;
      assert Rotated(old(domains), domains, domain, now);
      FreshSession(old(domains), domains, domain, now, pending);
      RotatedIsSame(old(domains), domains, domain, None, world.normalize);
      LogLater(old(domains), requests, deep, old(now), now);
      SameQueuesKeeps(old(domains), domains, requests, maxPages, deep, now, world.domainOf);
      if hasStore {
        SameQueuesKeepsKnown(old(domains), domains, crawled, requests);
      }
      ok := true;
    }

    lemma FreshSession(a: Domains, b: Domains, domain: Domain, at: Time, pending: Option<Domain>)
      requires SessionsOk(a, pending) && Rotated(a, b, domain, at)
      ensures SessionsOk(b, pending)
      ensures pending == Some(domain) ==> SessionsOk(b, None)
    {
    }

    /** The session may serve a request that was asked for at this moment. */
    ghost predicate IsUsable(s: Session, asked: Time)
    {
      s.requestCount < pagesPerSession && s.consecutiveFailures < 3 && asked - s.createdAt < sessionMaxAge
    }

    /** The session of the domain if it may go on, or else a fresh one. */
    method SessionForDomain(domain: Domain) returns (ok: bool)
      requires Valid()
      modifies this`domains, this`now, this`ticks
      ensures Valid() && now >= old(now)
      ensures old(Filed()) ==> Filed()
      ensures var session := StateOf(old(domains), domain).session;
              && session.Some? && session.value.requestCount < pagesPerSession && session.value.consecutiveFailures < 3
              && old(now) - session.value.createdAt < sessionMaxAge
              ==> ok && domains == old(domains)
      ensures ok || !world.proxyOk(old(ticks))
      ensures domains == old(domains) || exists at :: old(now) <= at <= now && Rotated(old(domains), domains, domain, at)
      ensures !ok ==> CanFail(world, NoProxy)
      ensures ok ==> domain in domains && domains[domain].session.Some? && IsUsable(domains[domain].session.value, old(now))
    {
      if domain in domains && domains[domain].session.Some? && !ShouldRotate(domains[domain].session.value) {
        return true;
      }
      ok := RotateSession(domain);
    }

    // ----- one request

    /** Dequeue, stamp the domain, send the request, take the answer and count
        it; a failure enters a backoff unless the crawl is a deep one. */
    method TakeRequest(url: Url, depth: nat, domain: Domain, ghost asked: Time)
      returns (result: FetchResult, ghost attempt: nat, ghost r: Request, ghost until: Option<Time>)
      requires Valid() && domain == world.domainOf(url) && domain in domains && !AlreadyCrawled(url)
      requires domains[domain].session.Some? && IsUsable(domains[domain].session.value, asked)
      requires asked <= now && LogOk(domains, requests, deep, asked)
      requires SlotFree(domains[domain].lastRequest, domains[domain].backoffUntil, Required(domains[domain]), asked, now)
      modifies this`domains, this`now, this`ticks, this`requests, this`pending
      ensures Sound() && StoreOk() && now >= old(now)
      ensures pending == if Succeeded(result) then None else Some(domain)
      ensures result == world.fetch(url, attempt)
      ensures r == Request(url, domain, depth, asked, r.at, r.answered, DelayOf(old(domains)[domain].policy), old(AlreadyCrawled(url)),
                           ShallowWaits(old(domains)), old(domains)[domain].session.value, result)
      ensures requests == old(requests) + [r]
      ensures until == if Succeeded(result) || deep then None else Some(BackoffFrom(old(requests), domain, r.answered))
      ensures var dequeued := Dequeue(old(domains), domain, url);
              domains == dequeued[domain := AfterRequest(dequeued[domain], r.at, Succeeded(result), until)]
      ensures old(Filed()) && url in QueuedUrls(old(domains)[domain].queue) ==> Filed()
    {
      hide Renewed, QueuesOk, LogOk, Paced, RequestsOk, OwnDomain, LastTo, Accounted, KnownOk, BackoffSeconds, Answers,
           BackoffAfter, SlotFree, Served, LastUnder, IsUnused, ShallowWaits, SessionsOk;
      ghost var d0, known := domains, AlreadyCrawled(url);
      ghost var dequeued := Dequeue(domains, domain, url);
      domains := domains[domain := domains[domain].(queue := RemoveFirst(domains[domain].queue, url))];
      Tick();
      var at := now;
      attempt := ticks;
      result := world.fetch(url, ticks);
      Tick();
      var good := result.Fetched? && result.page.isValid;
      var d := domains[domain];
      var backoff := None;
      if !good && !deep {
        backoff := Some(now + 1000.0 * BackoffSeconds(d.failureCount + 1, d.successCount) as real);
      }
      domains := domains[domain := AfterRequest(d, at, good, backoff)];
      r := Request(url, domain, depth, asked, at, now, DelayOf(d.policy), known, ShallowWaits(d0), d0[domain].session.value, result);
      until := backoff;
      LoggedAt(d0, requests, domain, asked);
      SlotLater(d.lastRequest, d.backoffUntil, Required(d), asked, old(now), at);
      ExchangeKeeps(d0, dequeued, requests, r, until);
      CountedSession(d0, dequeued, domain, url, at, good, until);
      StaysRenewed(d0, requests, r);
      requests := requests + [r];
      pending := if good then None else Some(domain);
    }

    lemma CountedSession(d0: Domains, dequeued: Domains, domain: Domain, url: Url, at: Time, good: bool, until: Option<Time>)
      requires SessionsOk(d0, None) && domain in d0 && dequeued == Dequeue(d0, domain, url)
      requires d0[domain].session.Some? && d0[domain].session.value.requestCount < pagesPerSession
      ensures var after := dequeued[domain := AfterRequest(dequeued[domain], at, good, until)];
              SessionsOk(after, if good then None else Some(domain))
    {
    }

    lemma StaysRenewed(d0: Domains, requests: seq<Request>, r: Request)
      requires SessionsOk(d0, None) && Renewed(requests) && r.domain in d0 && d0[r.domain].session == Some(r.under)
      ensures Renewed(requests + [r])
    {
    }

    /** Some waiting entry is not below the minimum depth. */
    ghost predicate ShallowWaits(domains: Domains)
    {
      exists d, e :: d in domains && e in domains[d].queue && e.depth <= minDepth
    }

    lemma SameShallow(a: Domains, b: Domains)
      requires SameQueues(a, b)
      ensures ShallowWaits(a) <==> ShallowWaits(b)
    {
      assert forall d | d in b :: SameRecord(b[d], StateOf(a, d));
      if ShallowWaits(a) {
        var d, e :| d in a && e in a[d].queue && e.depth <= minDepth;
        assert e in b[d].queue;
      }
      if ShallowWaits(b) {
        var d, e :| d in b && e in b[d].queue && e.depth <= minDepth;
        assert d in a && e in a[d].queue;
      }
    }

    lemma LoggedAt(domains: Domains, requests: seq<Request>, domain: Domain, asked: Time)
      requires domain in domains && LogOk(domains, requests, deep, asked)
      ensures IsLogged(domains[domain], requests, domain, deep)
    {
    }

    lemma UnderIsLogged(domains: Domains, requests: seq<Request>, domain: Domain, asked: Time)
      requires domain in domains && LogOk(domains, requests, deep, asked) && domains[domain].session.Some?
      ensures IsUnused(domains[domain].session.value) || LastUnder(requests, domain) == domains[domain].session
    {
      hide LastUnder, LastTo, BackoffAfter, Answers;
      assert IsLogged(domains[domain], requests, domain, deep);
    }

    lemma SlotLater(last: Option<Time>, backoff: Option<Time>, spacing: Time, asked: Time, at: Time, later: Time)
      requires SlotFree(last, backoff, spacing, asked, at) && at <= later
      ensures SlotFree(last, backoff, spacing, asked, later)
    {
    }

    /** All that Valid and Filed ask of the domains and the log holds after a request. */
    lemma ExchangeKeeps(d0: Domains, dequeued: Domains, requests: seq<Request>, r: Request, until: Option<Time>)
      requires r.domain == world.domainOf(r.url) && r.domain in d0 && dequeued == Dequeue(d0, r.domain, r.url) && !r.known
      requires QueuesOk(d0, maxPages) && LogOk(d0, requests, deep, r.asked) && Paced(requests, Floor(), deep) && NeverKnown(requests)
      requires Accounted(d0, requests) && (hasStore ==> KnownOk(d0, crawled, requests))
      requires r.asked <= r.at <= r.answered && d0[r.domain].session == Some(r.under)
      requires Served(requests, pagesPerSession, sessionMaxAge) && IsUsable(r.under, r.asked)
      requires var d := d0[r.domain];
               SlotFree(d.lastRequest, d.backoffUntil, Spacing(Floor(), r.crawlDelay), r.asked, r.at)
      requires until == if Succeeded(r.answer) || deep then None else Some(BackoffFrom(requests, r.domain, r.answered))
      ensures var after := dequeued[r.domain := AfterRequest(dequeued[r.domain], r.at, Succeeded(r.answer), until)];
              && QueuesOk(after, maxPages) && LogOk(after, requests + [r], deep, r.answered)
              && Paced(requests + [r], Floor(), deep) && NeverKnown(requests + [r])
              && Served(requests + [r], pagesPerSession, sessionMaxAge)
              && Accounted(after, requests + [r]) && (hasStore ==> KnownOk(after, crawled, requests + [r]))
              && (OwnDomain(d0, world.domainOf) && RequestsOk(d0, requests, world.domainOf) && r.url in QueuedUrls(d0[r.domain].queue)
                  ==> OwnDomain(after, world.domainOf) && RequestsOk(after, requests + [r], world.domainOf))
    {
      hide QueuesOk, LogOk, Paced, RequestsOk, OwnDomain, LastTo, Accounted, KnownOk, BackoffFrom, Answers, BackoffAfter, SlotFree,
           Served, LastUnder, IsUnused;
      UnderIsLogged(d0, requests, r.domain, r.asked);
      ServedMore(requests, r, pagesPerSession, sessionMaxAge);
      var d := AfterRequest(dequeued[r.domain], r.at, Succeeded(r.answer), until);
      DequeueKeeps(d0, r.domain, r.url, maxPages, world.domainOf);
      DequeueKeepsLog(d0, r.domain, r.url, maxPages, requests, deep, r.asked, world.domainOf);
      RequestKeepsLog(dequeued, requests, r, until, Floor(), deep);
      RequestKeeps(dequeued, requests, r, d, maxPages, world.domainOf);
      assert (requests + [r])[|requests|] == r;
      DequeueKeepsAccount(d0, r.domain, r.url, maxPages, requests, requests + [r]);
      RecordKeepsAccount(dequeued, r.domain, d, requests + [r]);
      if hasStore {
        ExchangeSees(d0, r.domain, r.url, d);
        KnownStays(d0, dequeued[r.domain := d], crawled, requests, requests + [r]);
      }
      if OwnDomain(d0, world.domainOf) && RequestsOk(d0, requests, world.domainOf) && r.url in QueuedUrls(d0[r.domain].queue) {
        NotYetRequested(d0, requests, r.url, maxPages, world.domainOf);
      }
    }

    lemma ExchangeSees(d0: Domains, domain: Domain, url: Url, d: DomainState)
      requires domain in d0 && d.seen == d0[domain].seen && d.queue == Dequeue(d0, domain, url)[domain].queue
      ensures AddsNothing(d0, Dequeue(d0, domain, url)[domain := d])
    {
      DequeueAddsNothing(d0, domain, url);
    }

    /** A fresh session after a failure, or when the old one is used up. */
    method RotateIfNeeded(domain: Domain, good: bool)
      requires Sound() && StoreOk() && domain in domains && domains[domain].session.Some?
      requires pending == if good then None else Some(domain)
      modifies this`domains, this`now, this`ticks, this`pending
      ensures Valid() && now >= old(now)
      ensures old(Filed()) ==> Filed()
      ensures domains == old(domains) || exists at :: old(now) <= at <= now && Rotated(old(domains), domains, domain, at)
      ensures var s := old(domains)[domain].session.value;
              var goesOn := good && s.requestCount < pagesPerSession && s.consecutiveFailures < 3 && old(now) - s.createdAt < sessionMaxAge;
              && (goesOn ==> domains == old(domains))
              && (!goesOn ==> CanFail(world, NoProxy) || exists at :: old(now) <= at <= now && Rotated(old(domains), domains, domain, at))
    {
      if !good || ShouldRotate(domains[domain].session.value) {
        var ok := RotateSession(domain);
        SessionsAfter(old(domains), domains, domain, good, ok);
      }
      pending := None;
    }

    lemma SessionsAfter(a: Domains, b: Domains, domain: Domain, good: bool, ok: bool)
      requires SessionsOk(a, if good then None else Some(domain))
      requires if ok then exists at :: Rotated(a, b, domain, at) else a == b && CanFail(world, NoProxy)
      ensures SessionsOk(b, None)
    {
      if ok {
        var at :| Rotated(a, b, domain, at);
        FreshSession(a, b, domain, at, if good then None else Some(domain));
      }
    }

    // ----- following the links of a page

    /** The links of a page at this depth have been dealt with: the internal ones
        under the page's domain and, when they are followed, those to other
        domains under theirs. */
    ghost predicate LinksTaken(domains: Domains, domain: Domain, page: Page, depth: nat, reach: nat, scope: Option<set<Url>>)
    {
      depth + 1 <= reach ==>
        && InternalTaken(domains, domain, page.internalLinks, |page.internalLinks|, scope)
        && (followExternal ==> ExternalTaken(domains, domain, page.externalLinks, |page.externalLinks|, scope))
    }

    ghost predicate InternalTaken(domains: Domains, domain: Domain, links: seq<Url>, n: nat, scope: Option<set<Url>>)
    {
      forall i | 0 <= i < n && i < |links| && InScope(scope, world.normalize, links[i]) :: Taken(domains, domain, links[i], maxPages)
    }

    ghost predicate ExternalTaken(domains: Domains, domain: Domain, links: seq<Url>, n: nat, scope: Option<set<Url>>)
    {
      forall i | 0 <= i < n && i < |links| && InScope(scope, world.normalize, links[i]) && world.domainOf(links[i]) != domain ::
        Taken(domains, world.domainOf(links[i]), links[i], maxPages)
    }

    lemma InternalStays(a: Domains, b: Domains, domain: Domain, links: seq<Url>, n: nat, scope: Option<set<Url>>)
      requires Later(a, b) && InternalTaken(a, domain, links, n, scope)
      ensures InternalTaken(b, domain, links, n, scope)
    {
      hide Later, Taken;
      forall i | 0 <= i < n && i < |links| && InScope(scope, world.normalize, links[i])
        ensures Taken(b, domain, links[i], maxPages)
      {
        TakenStays(a, b, domain, links[i], maxPages);
      }
    }

    lemma ExternalStays(a: Domains, b: Domains, domain: Domain, links: seq<Url>, n: nat, scope: Option<set<Url>>)
      requires Later(a, b) && ExternalTaken(a, domain, links, n, scope)
      ensures ExternalTaken(b, domain, links, n, scope)
    {
      hide Later, Taken;
      forall i | 0 <= i < n && i < |links| && InScope(scope, world.normalize, links[i]) && world.domainOf(links[i]) != domain
        ensures Taken(b, world.domainOf(links[i]), links[i], maxPages)
      {
        TakenStays(a, b, world.domainOf(links[i]), links[i], maxPages);
      }
    }

    /** What a page at this depth adds are its own links, each filed under the
        right domain, and entries for them one level deeper. */
    ghost predicate OnlyLinked(a: Domains, b: Domains, domain: Domain, page: Page, depth: nat, scope: Option<set<Url>>)
    {
      && (forall d, u | u in StateOf(b, d).seen && u !in StateOf(a, d).seen :: IsLinked(domain, page, d, u))
      && (forall d, e | d in b && e in b[d].queue ::
            e in StateOf(a, d).queue || (IsLinkEntry(domain, page, depth, d, e) && InScope(scope, world.normalize, e.url)))
    }

    /** u is an internal link of the page, or one to another domain that is followed. */
    predicate IsLinked(domain: Domain, page: Page, d: Domain, u: Url)
    {
      || (d == domain && u in page.internalLinks)
      || (followExternal && d != domain && d == world.domainOf(u) && u in page.externalLinks)
    }

    /** The entry for a link of a page at this depth: one level deeper, and less
        relevant when it leads to another domain. */
    ghost predicate IsLinkEntry(domain: Domain, page: Page, depth: nat, d: Domain, e: Entry)
    {
      && IsLinked(domain, page, d, e.url) && e.depth == depth + 1
      && e.relevance == if d == domain then world.relevance(e.url, Some(page)) else world.relevance(e.url, Some(page)) * 0.3
    }

    /** Enqueueing a URL within the bounds keeps what holds of the crawler. */
    method Admit(domain: Domain, url: Url, depth: nat, relevance: real, ghost bounds: Option<set<Url>>) returns (isNew: bool)
      requires Sound() && InScope(bounds, world.normalize, url)
      modifies this`domains
      ensures Sound()
      ensures old(Filed()) && world.domainOf(url) == domain ==> Filed()
      ensures domains == Enqueue(old(domains), domain, Entry(url, depth, relevance), maxPages)
      ensures isNew == Accepts(old(domains), domain, url, maxPages)
      ensures NewInScope(old(domains), domains, bounds, world.normalize)
      ensures Taken(domains, domain, url, maxPages) && Later(old(domains), domains) && old(domains).Keys <= domains.Keys
    {
      hide QueuesOk, LogOk, KnownOk, OwnDomain, RequestsOk, Accepts, Accounted, Taken, Later, NeverKnown, Paced;
      ghost var e := Entry(url, depth, relevance);
      EnqueueKeeps(domains, domain, e, maxPages, world.domainOf);
      EnqueueKeepsLog(domains, domain, e, maxPages, requests, deep, now, world.domainOf);
      EnqueueKeepsAccount(domains, domain, e, maxPages, requests);
      EnqueueInScope(domains, domain, e, maxPages, bounds, world.normalize);
      EnqueueTakes(domains, domain, e, maxPages);
      isNew := EnqueueUrl(domain, url, depth, relevance);
    }

    /** One admissible link: taking it up records it anew, so that it is no longer known as crawled. */
    method FollowLink(target: Domain, link: Url, depth: nat, relevance: real, scope: Option<set<Url>>)
      requires Valid() && InScope(scope, world.normalize, link)
      modifies this`domains, this`crawled
      ensures Valid()
      ensures old(Filed()) && world.domainOf(link) == target ==> Filed()
      ensures domains == Enqueue(old(domains), target, Entry(link, depth, relevance), maxPages)
      ensures Taken(domains, target, link, maxPages) && Later(old(domains), domains)
      ensures NewInScope(old(domains), domains, scope, world.normalize)
      ensures target in old(domains) ==> NotLarger(old(domains), domains, maxPages)
      ensures old(domains).Keys <= domains.Keys && old(crawled).Keys <= crawled.Keys
      ensures hasStore ==> Cleared(old(KnownUrls()), KnownUrls(), old(domains), domains)
    {
      hide QueuesOk, LogOk, KnownOk, OwnDomain, RequestsOk, Capacity, Waiting, Accepts, Accounted, Taken, Later, NeverKnown,
           Paced, Enqueue;
      ghost var e := Entry(link, depth, relevance);
      ghost var d0, known := domains, KnownUrls();
      if target in domains {
        EnqueueMeasures(domains, target, Entry(link, depth, relevance), maxPages);
      }
      var isNew := Admit(target, link, depth, relevance, scope);
      if isNew {
        RecordUrl(link);
      }
      if hasStore {
        if isNew {
          MarkKeepsKnown(d0, old(crawled), requests, link, false);
        }
        EnqueueKeepsKnown(d0, target, e, maxPages, crawled, requests);
        forall u: Url
          ensures u in KnownUrls() <==> u in known && !IsNew(d0, domains, u)
        {
          EnqueueIsNew(d0, target, e, maxPages, u);
        }
      }
    }

    lemma LinkIsLinked(a: Domains, b: Domains, domain: Domain, page: Page, depth: nat, scope: Option<set<Url>>, target: Domain, e: Entry)
      requires OnlyLinked(a, b, domain, page, depth, scope)
      requires IsLinkEntry(domain, page, depth, target, e) && InScope(scope, world.normalize, e.url)
      ensures OnlyLinked(a, Enqueue(b, target, e, maxPages), domain, page, depth, scope)
    {
      var c := Enqueue(b, target, e, maxPages);
      EnqueueAdds(b, target, e, maxPages);
      hide IsLinked, InScope;
      forall d, u | u in StateOf(c, d).seen && u !in StateOf(a, d).seen
        ensures IsLinked(domain, page, d, u)
      {
        if u !in StateOf(b, d).seen {
          assert d == target && u == e.url;
        }
      }
      forall d, x | d in c && x in c[d].queue
        ensures x in StateOf(a, d).queue || (IsLinkEntry(domain, page, depth, d, x) && InScope(scope, world.normalize, x.url))
      {
        if x in StateOf(b, d).queue {
          assert d in b && x in b[d].queue;
        }
      }
    }

    lemma NothingLinked(a: Domains, domain: Domain, page: Page, depth: nat, scope: Option<set<Url>>)
      ensures OnlyLinked(a, a, domain, page, depth, scope)
      ensures InternalTaken(a, domain, page.internalLinks, 0, scope) && ExternalTaken(a, domain, page.externalLinks, 0, scope)
    {
    }

    lemma InternalMore(a: Domains, domain: Domain, links: seq<Url>, n: nat, scope: Option<set<Url>>)
      requires n < |links| && InternalTaken(a, domain, links, n, scope)
      requires InScope(scope, world.normalize, links[n]) ==> Taken(a, domain, links[n], maxPages)
      ensures InternalTaken(a, domain, links, n + 1, scope)
    {
    }

    lemma ExternalMore(a: Domains, domain: Domain, links: seq<Url>, n: nat, scope: Option<set<Url>>)
      requires n < |links| && ExternalTaken(a, domain, links, n, scope)
      requires InScope(scope, world.normalize, links[n]) && world.domainOf(links[n]) != domain
           ==> Taken(a, world.domainOf(links[n]), links[n], maxPages)
      ensures ExternalTaken(a, domain, links, n + 1, scope)
    {
    }

    /** The loop over the internal links, which stay with the page's domain. */
    method FollowInternal(domain: Domain, page: Page, depth: nat, effectiveMaxDepth: nat, scope: Option<set<Url>>)
      requires Valid() && domain in domains
      modifies this`domains, this`crawled
      ensures Valid() && old(domains).Keys <= domains.Keys && old(crawled).Keys <= crawled.Keys
      ensures hasStore ==> Cleared(old(KnownUrls()), KnownUrls(), old(domains), domains)
      ensures old(Filed()) && (forall l | l in page.internalLinks :: world.domainOf(l) == domain) ==> Filed()
      ensures NewInScope(old(domains), domains, scope, world.normalize)
      ensures depth >= effectiveMaxDepth ==> domains == old(domains)
      ensures NotLarger(old(domains), domains, maxPages)
      ensures Later(old(domains), domains) && OnlyLinked(old(domains), domains, domain, page, depth, scope)
      ensures depth + 1 <= effectiveMaxDepth ==> InternalTaken(domains, domain, page.internalLinks, |page.internalLinks|, scope)
    {
      hide QueuesOk, LogOk, KnownOk, Paced, OwnDomain, RequestsOk, Accounted, NewInScope, NotLarger, Later, Taken, Enqueue,
           OnlyLinked, InternalTaken, ExternalTaken, InScope, Cleared, IsNew;
      NothingCleared(KnownUrls(), domains);
      NothingNew(domains, maxPages, scope, world.normalize);
      NothingLater(domains);
      NothingLinked(domains, domain, page, depth, scope);
      var nextDepth := depth + 1;
      for i := 0 to |page.internalLinks|
        invariant Valid() && old(domains).Keys <= domains.Keys && old(crawled).Keys <= crawled.Keys
        invariant hasStore ==> Cleared(old(KnownUrls()), KnownUrls(), old(domains), domains)
        invariant old(Filed()) && (forall l | l in page.internalLinks :: world.domainOf(l) == domain) ==> Filed()
        invariant NewInScope(old(domains), domains, scope, world.normalize)
        invariant depth >= effectiveMaxDepth ==> domains == old(domains)
        invariant NotLarger(old(domains), domains, maxPages)
        invariant Later(old(domains), domains) && OnlyLinked(old(domains), domains, domain, page, depth, scope)
        invariant nextDepth <= effectiveMaxDepth ==> InternalTaken(domains, domain, page.internalLinks, i, scope)
      {
        var link := page.internalLinks[i];
        if InScope(scope, world.normalize, link) && nextDepth <= effectiveMaxDepth {
          ghost var before, known := domains, KnownUrls();
          var relevance := world.relevance(link, Some(page));
          FollowLink(domain, link, nextDepth, relevance, scope);
          TwoSteps(old(domains), before, domains, maxPages, scope, world.normalize);
          LaterChain(old(domains), before, domains);
          LinkIsLinked(old(domains), before, domain, page, depth, scope, domain, Entry(link, nextDepth, relevance));
          InternalStays(before, domains, domain, page.internalLinks, i, scope);
          if hasStore {
            ClearedChain(old(KnownUrls()), known, KnownUrls(), old(domains), before, domains);
          }
        }
        if nextDepth <= effectiveMaxDepth {
          InternalMore(domains, domain, page.internalLinks, i, scope);
        }
      }
    }

    /** The loop over the external links; only those to other domains are followed. */
    method FollowExternal(domain: Domain, page: Page, depth: nat, effectiveMaxDepth: nat, scope: Option<set<Url>>)
      requires Valid() && domain in domains && followExternal
      modifies this`domains, this`crawled
      ensures Valid() && old(domains).Keys <= domains.Keys && old(crawled).Keys <= crawled.Keys
      ensures hasStore ==> Cleared(old(KnownUrls()), KnownUrls(), old(domains), domains)
      ensures old(Filed()) ==> Filed()
      ensures NewInScope(old(domains), domains, scope, world.normalize)
      ensures depth >= effectiveMaxDepth ==> domains == old(domains)
      ensures Later(old(domains), domains) && OnlyLinked(old(domains), domains, domain, page, depth, scope)
      ensures depth + 1 <= effectiveMaxDepth ==> ExternalTaken(domains, domain, page.externalLinks, |page.externalLinks|, scope)
    {
      hide QueuesOk, LogOk, KnownOk, Paced, OwnDomain, RequestsOk, Accounted, NewInScope, NotLarger, Later, Taken, Enqueue,
           OnlyLinked, InternalTaken, ExternalTaken, InScope, Cleared, IsNew;
      NothingCleared(KnownUrls(), domains);
      NothingNew(domains, maxPages, scope, world.normalize);
      NothingLater(domains);
      NothingLinked(domains, domain, page, depth, scope);
      var nextDepth := depth + 1;
      for i := 0 to |page.externalLinks|
        invariant Valid() && old(domains).Keys <= domains.Keys && old(crawled).Keys <= crawled.Keys
        invariant hasStore ==> Cleared(old(KnownUrls()), KnownUrls(), old(domains), domains)
        invariant old(Filed()) ==> Filed()
        invariant NewInScope(old(domains), domains, scope, world.normalize)
        invariant depth >= effectiveMaxDepth ==> domains == old(domains)
        invariant Later(old(domains), domains) && OnlyLinked(old(domains), domains, domain, page, depth, scope)
        invariant nextDepth <= effectiveMaxDepth ==> ExternalTaken(domains, domain, page.externalLinks, i, scope)
      {
        var link := page.externalLinks[i];
        var external := world.domainOf(link);
        if external != domain && InScope(scope, world.normalize, link) && nextDepth <= effectiveMaxDepth {
          ghost var before, known := domains, KnownUrls();
          var relevance := world.relevance(link, Some(page)) * 0.3;
          FollowLink(external, link, nextDepth, relevance, scope);
          TwoSteps(old(domains), before, domains, maxPages, scope, world.normalize);
          LaterChain(old(domains), before, domains);
          LinkIsLinked(old(domains), before, domain, page, depth, scope, external, Entry(link, nextDepth, relevance));
          ExternalStays(before, domains, domain, page.externalLinks, i, scope);
          if hasStore {
            ClearedChain(old(KnownUrls()), known, KnownUrls(), old(domains), before, domains);
          }
        }
        if nextDepth <= effectiveMaxDepth {
          ExternalMore(domains, domain, page.externalLinks, i, scope);
        }
      }
    }

    lemma LinkedChain(a: Domains, b: Domains, c: Domains, domain: Domain, page: Page, depth: nat, scope: Option<set<Url>>)
      requires OnlyLinked(a, b, domain, page, depth, scope) && OnlyLinked(b, c, domain, page, depth, scope)
      ensures OnlyLinked(a, c, domain, page, depth, scope)
    {
      hide IsLinked, IsLinkEntry, InScope;
    }

    /** Both loops: every admissible link is dealt with, nothing but links is taken
        up, and exactly what is taken up is known as crawled no longer. */
    method FollowLinks(domain: Domain, page: Page, depth: nat, effectiveMaxDepth: nat, scope: Option<set<Url>>)
      requires Valid() && domain in domains
      modifies this`domains, this`crawled
      ensures Valid()
      ensures old(Filed()) && (forall l | l in page.internalLinks :: world.domainOf(l) == domain) ==> Filed()
      ensures NewInScope(old(domains), domains, scope, world.normalize)
      ensures depth >= effectiveMaxDepth ==> domains == old(domains)
      ensures !followExternal ==> NotLarger(old(domains), domains, maxPages)
      ensures Later(old(domains), domains) && OnlyLinked(old(domains), domains, domain, page, depth, scope)
      ensures LinksTaken(domains, domain, page, depth, effectiveMaxDepth, scope)
      ensures old(crawled).Keys <= crawled.Keys
      ensures hasStore ==> Cleared(old(KnownUrls()), KnownUrls(), old(domains), domains)
    {
      hide QueuesOk, LogOk, KnownOk, Paced, OwnDomain, RequestsOk, Accounted, NewInScope, NotLarger, Later, Taken, OnlyLinked,
           InternalTaken, ExternalTaken, Cleared, IsNew;
      FollowInternal(domain, page, depth, effectiveMaxDepth, scope);
      if followExternal {
        ghost var before, known := domains, KnownUrls();
        FollowExternal(domain, page, depth, effectiveMaxDepth, scope);
        TwoSteps(old(domains), before, domains, maxPages, scope, world.normalize);
        LaterChain(old(domains), before, domains);
        LinkedChain(old(domains), before, domains, domain, page, depth, scope);
        if hasStore {
          ClearedChain(old(KnownUrls()), known, KnownUrls(), old(domains), before, domains);
        }
        if depth + 1 <= effectiveMaxDepth {
          InternalStays(before, domains, domain, page.internalLinks, |page.internalLinks|, scope);
        }
      }
    }

    // ----- the loop

    predicate AlreadyCrawled(url: Url)
      reads this`crawled
    {
      hasStore && url in crawled && crawled[url]
    }

    /** An entry that the store knows as crawled is dropped. It is one that this
        crawler fetched itself. */
    method SkipCrawled(url: Url, ghost under: Domain)
      requires Valid() && AlreadyCrawled(url)
      requires under in domains && url in domains[under].seen
      modifies this`domains
      ensures Valid()
      ensures WasFetched(requests, url) && AddsNothing(old(domains), domains)
      ensures domains == Dequeue(old(domains), world.domainOf(url), url)
      ensures old(Filed()) ==> Filed()
      ensures Later(old(domains), domains)
      ensures forall scope :: NewInScope(old(domains), domains, scope, world.normalize)
    {
      var domain := world.domainOf(url);
      hide QueuesOk, LogOk, OwnDomain, RequestsOk, Accounted, Later;
      DequeueKeeps(domains, domain, url, maxPages, world.domainOf);
      DequeueKeepsLog(domains, domain, url, maxPages, requests, deep, now, world.domainOf);
      assert WasFetched(requests, url);
      DequeueAddsNothing(domains, domain, url);
      KnownStays(domains, Dequeue(domains, domain, url), crawled, requests, requests);
      DequeueKeepsAccount(domains, domain, url, maxPages, requests, requests);
      DequeueIsLater(domains, domain, url);
      domains := Dequeue(domains, domain, url);
    }

    /** A URL waiting under its own domain is not known as crawled. */
    lemma WaitingIsUnknown(url: Url)
      requires Valid() && Filed()
      requires world.domainOf(url) in domains && url in QueuedUrls(domains[world.domainOf(url)].queue)
      ensures !AlreadyCrawled(url)
    {
      assert DomainOk(domains[world.domainOf(url)], maxPages);
    }

    /** The answer is one that the web gives for the URL. */
    ghost predicate FromWeb(url: Url, answer: FetchResult)
    {
      exists n: nat :: answer == world.fetch(url, n)
    }

    /** The request of a pass: it counts for the URL's own domain, its answer came
        from the web, the crawl-delay it kept to is that of the policy in force, and
        if a page came back its links have been dealt with. */
    ghost predicate Handled(domains: Domains, r: Request, reach: nat, scope: Option<set<Url>>)
    {
      && r.domain == world.domainOf(r.url) && FromWeb(r.url, r.answer)
      && r.crawlDelay == DelayOf(StateOf(domains, r.domain).policy)
      && (r.answer.Fetched? ==> LinksTaken(domains, r.domain, r.answer.page, r.depth, reach, scope))
    }

    lemma HandledStays(a: Domains, b: Domains, r: Request, reach: nat, scope: Option<set<Url>>)
      requires Later(a, b) && Handled(a, r, reach, scope)
      ensures Handled(b, r, reach, scope)
    {
      hide InternalTaken, ExternalTaken;
      assert StateOf(a, r.domain).policy == StateOf(b, r.domain).policy;
      if r.answer.Fetched? && r.depth + 1 <= reach {
        var page := r.answer.page;
        InternalStays(a, b, r.domain, page.internalLinks, |page.internalLinks|, scope);
        if followExternal {
          ExternalStays(a, b, r.domain, page.externalLinks, |page.externalLinks|, scope);
        }
      }
    }

    /** The entry is for a link of the page that this request brought, within the reach and the scope. */
    ghost predicate IsFrom(r: Request, d: Domain, e: Entry, reach: nat, scope: Option<set<Url>>)
    {
      && r.answer.Fetched? && IsLinkEntry(r.domain, r.answer.page, r.depth, d, e)
      && e.depth <= reach && InScope(scope, world.normalize, e.url)
    }

    ghost predicate IsFromSince(requests: seq<Request>, n: nat, d: Domain, e: Entry, reach: nat, scope: Option<set<Url>>)
    {
      exists j | n <= j < |requests| :: IsFrom(requests[j], d, e, reach, scope)
    }

    /** What waits in b and did not in a comes from a page of the requests since the n-th. */
    ghost predicate AddsLinks(a: Domains, b: Domains, requests: seq<Request>, n: nat, reach: nat, scope: Option<set<Url>>)
    {
      forall d, e | d in b && e in b[d].queue :: e in StateOf(a, d).queue || IsFromSince(requests, n, d, e, reach, scope)
    }

    lemma NothingAddsLinks(a: Domains, b: Domains, requests: seq<Request>, n: nat, reach: nat, scope: Option<set<Url>>)
      requires AddsNothing(a, b)
      ensures AddsLinks(a, b, requests, n, reach, scope)
    {
    }

    lemma PageAddsLinks(a: Domains, b: Domains, c: Domains, requests: seq<Request>, n: nat, reach: nat, scope: Option<set<Url>>)
      requires AddsNothing(a, b) && n < |requests| && requests[n].answer.Fetched?
      requires OnlyLinked(b, c, requests[n].domain, requests[n].answer.page, requests[n].depth, scope)
      requires requests[n].depth >= reach ==> c == b
      ensures AddsLinks(a, c, requests, n, reach, scope)
    {
      hide IsLinked, InScope;
      forall d, e | d in c && e in c[d].queue
        ensures e in StateOf(a, d).queue || IsFromSince(requests, n, d, e, reach, scope)
      {
        if e in StateOf(b, d).queue {
          assert d in b && e in b[d].queue;
        } else {
          assert IsFrom(requests[n], d, e, reach, scope);
        }
      }
    }

    /** What a pass that began at a moment adds to the log: nothing, or one
        request for url at depth, whose wait began no earlier, with the answer that
        the outcome reports, and with or without a shallow entry waiting. */
    ghost predicate Logged(before: seq<Request>, after: seq<Request>, outcome: Outcome, url: Url, depth: nat, began: Time, shallow: bool)
    {
      match outcome
      case Got(page) => |after| == |before| + 1 && before <= after && IsAnswer(after[|before|], url, depth, Fetched(page), began, shallow)
      case FetchFailed => |after| == |before| + 1 && before <= after && IsAnswer(after[|before|], url, depth, FetchError, began, shallow)
      case _ => after == before
    }

    predicate IsAnswer(r: Request, url: Url, depth: nat, answer: FetchResult, began: Time, shallow: bool)
    {
      && r.url == url && r.domain == world.domainOf(url) && r.depth == depth && r.answer == answer
      && r.asked >= began && r.shallow == shallow
    }

    lemma SeenIsRecorded(url: Url, under: Domain)
      requires Valid() && under in domains && url in domains[under].seen
      ensures hasStore ==> url in crawled
    {
    }

    lemma SkipLogsNothing(requests: seq<Request>, url: Url, depth: nat, began: Time, shallow: bool)
      ensures Logged(requests, requests, Skipped, url, depth, began, shallow)
    {
    }

    /** One pass through the loop body: it skips the picked entry if and only if
        the store knows it as crawled. That never happens as long as URLs are
        taken up under their own domain. */
    method Iterate(effectiveMaxDepth: nat, scope: Option<set<Url>>) returns (outcome: Outcome)
      requires Valid()
      modifies this
      ensures Valid()
      ensures old(Filed()) && LinksStayHome(world) ==> Filed()
      ensures NewInScope(old(domains), domains, scope, world.normalize) && Later(old(domains), domains)
      ensures outcome.QueueEmpty? ==> domains == old(domains) && requests == old(requests)
      ensures outcome.QueueEmpty? ==> forall d | d in domains :: domains[d].queue == []
      ensures !outcome.QueueEmpty? ==>
                exists e :: && IsPick(old(domains), e)
                            && Logged(old(requests), requests, outcome, e.url, e.depth, old(now), ShallowWaits(old(domains)))
                            && (outcome.Skipped? <==> old(AlreadyCrawled(e.url)))
                            && (outcome.Skipped? ==> domains == Dequeue(old(domains), world.domainOf(e.url), e.url))
                            && (outcome.Skipped? ==> WasFetched(requests, e.url))
      ensures old(Filed()) ==> !outcome.Skipped?
      ensures outcome.Aborted? ==> CanFail(world, outcome.error)
      ensures outcome.Skipped? ==> crawled == old(crawled)
      ensures hasStore ==> Marked(old(KnownUrls()), KnownUrls(), old(domains), domains, requests, |old(requests)|)
      ensures |requests| > |old(requests)| ==> Handled(domains, requests[|old(requests)|], effectiveMaxDepth, scope)
      ensures AddsLinks(old(domains), domains, requests, |old(requests)|, effectiveMaxDepth, scope)
      ensures old(Filed()) && LinksStayHome(world) && !followExternal && !outcome.QueueEmpty? && !outcome.Aborted?
          ==> Smaller(old(domains), domains, maxPages)
    {
      hide Renewed, QueuesOk, LogOk, KnownOk, Paced, OwnDomain, RequestsOk, Accounted, NewInScope, NotLarger, Smaller,
           SameQueues, IsPick, LinksStayHome, Later, Handled, NeverKnown, Marked, WasFetched, AddsNothing, SessionsOk,
           NewAllowed, Grown, Dequeue, Logged, IsAnswer, CanFail, AddsLinks, Served, ShallowWaits;
      NothingNew(domains, maxPages, scope, world.normalize);
      NothingLater(domains);
      var next := SelectNext();
      if next.None? {
        NothingAddsLinks(domains, domains, requests, |requests|, effectiveMaxDepth, scope);
        NothingMarked(KnownUrls(), domains, domains, requests, |requests|);
        return QueueEmpty;
      }
      var url, depth := next.value.url, next.value.depth;
      var domain := world.domainOf(url);
      if Filed() {
        PickIsFiled(domains, next.value, maxPages, world.domainOf);
        WaitingIsUnknown(url);
      }
      ghost var under := PickIsSeen(domains, next.value, maxPages);
      SeenIsRecorded(url, under);
      if AlreadyCrawled(url) {
        SkipCrawled(url, under);
        NothingMarked(KnownUrls(), old(domains), domains, requests, |requests|);
        NothingAddsLinks(old(domains), domains, requests, |requests|, effectiveMaxDepth, scope);
        outcome := Skipped;
        SkipLogsNothing(requests, url, depth, old(now), ShallowWaits(old(domains)));
      } else {
        outcome := Visit(url, depth, domain, effectiveMaxDepth, scope);
      }
      assert IsPick(old(domains), next.value)
          && Logged(old(requests), requests, outcome, next.value.url, next.value.depth, old(now), ShallowWaits(old(domains)));
    }

    /** Waiting, the session, the request and its answer; an error when there is
        no session or no client. */
    method Send(url: Url, depth: nat, domain: Domain, ghost scope: Option<set<Url>>)
      returns (sent: Result<FetchResult, CrawlError>, ghost attempt: nat)
      requires Valid() && domain == world.domainOf(url) && !AlreadyCrawled(url)
      requires Filed() ==> domain in domains && url in QueuedUrls(domains[domain].queue)
      modifies this`domains, this`now, this`ticks, this`slept, this`requests, this`pending
      ensures Valid() && (old(Filed()) ==> Filed())
      ensures NewInScope(old(domains), domains, scope, world.normalize) && Later(old(domains), domains)
      ensures AddsNothing(old(domains), domains)
      ensures sent.Err? ==> requests == old(requests) && CanFail(world, sent.error)
      ensures sent.Ok? ==> |requests| == |old(requests)| + 1 && old(requests) <= requests
                           && IsAnswer(requests[|old(requests)|], url, depth, sent.value, old(now), ShallowWaits(old(domains)))
                           && requests[|old(requests)|].crawlDelay == DelayOf(StateOf(domains, domain).policy)
      ensures sent.Ok? ==> domain in domains && sent.value == world.fetch(url, attempt) && exists n :: world.clientOk(n)
      ensures sent.Ok? && old(Filed()) ==> Smaller(old(domains), domains, maxPages)
    {
      hide Renewed, SessionsOk, QueuesOk, LogOk, KnownOk, Paced, OwnDomain, RequestsOk, Accounted, NewInScope, NotLarger,
           Smaller, Later, AfterRequest, SlotFree, NeverKnown, BackoffFrom, AddsNothing, Served, ShallowWaits;
      ghost var d0 := domains;
      ghost var asked := WaitForSlot(domain);
      LogLater(domains, requests, deep, old(now), asked);
      LogLater(domains, requests, deep, old(now), now);
      ghost var waited := now;
      var ok := SessionForDomain(domain);
      ghost var d1 := domains;
      RotatedIsSame(d0, d1, domain, scope, world.normalize);
      attempt := 0;
      if !ok {
        return Err(NoProxy), attempt;
      }
      if !world.clientOk(ticks) {
        return Err(NoClient), attempt;
      }
      SlotStays(d0, d1, domain, asked, waited, now);
      SameShallow(d0, d1);
      SameQueuesKeeps(d0, d1, requests, maxPages, deep, asked, world.domainOf);
      var result;
      ghost var r, until;
      result, attempt, r, until := TakeRequest(url, depth, domain, asked);
      sent := Ok(result);
      ghost var d2 := domains;
      SessionStays(d1, d2, domain, url, r.at, Succeeded(result), until);
      RotateIfNeeded(domain, result.Fetched? && result.page.isValid);
      WholeRequest(d0, d1, d2, domains, domain, url, r.at, Succeeded(result), until, maxPages, scope, world.normalize);
    }

    /** A new session does not touch what the slot depends on. */
    lemma SlotStays(a: Domains, b: Domains, domain: Domain, asked: Time, at: Time, later: Time)
      requires SameQueues(a, b) && Later(a, b) && domain in b && at <= later
      requires var d := StateOf(a, domain); SlotFree(d.lastRequest, d.backoffUntil, Required(d), asked, at)
      ensures SlotFree(b[domain].lastRequest, b[domain].backoffUntil, Required(b[domain]), asked, later)
    {
      assert SameRecord(b[domain], StateOf(a, domain));
      assert StateOf(a, domain).policy == StateOf(b, domain).policy;
    }

    /** The request for a picked URL, and what follows from its answer. */
    method Visit(url: Url, depth: nat, domain: Domain, effectiveMaxDepth: nat, scope: Option<set<Url>>)
      returns (outcome: Outcome)
      requires Valid() && domain == world.domainOf(url) && !AlreadyCrawled(url) && (hasStore ==> url in crawled)
      requires Filed() ==> domain in domains && url in QueuedUrls(domains[domain].queue)
      modifies this
      ensures Valid()
      ensures old(Filed()) && LinksStayHome(world) ==> Filed()
      ensures NewInScope(old(domains), domains, scope, world.normalize) && Later(old(domains), domains)
      ensures !outcome.QueueEmpty? && !outcome.Skipped?
      ensures Logged(old(requests), requests, outcome, url, depth, old(now), ShallowWaits(old(domains)))
      ensures outcome.Aborted? ==> CanFail(world, outcome.error)
      ensures hasStore ==> Marked(old(KnownUrls()), KnownUrls(), old(domains), domains, requests, |old(requests)|)
      ensures |requests| > |old(requests)| ==> Handled(domains, requests[|old(requests)|], effectiveMaxDepth, scope)
      ensures AddsLinks(old(domains), domains, requests, |old(requests)|, effectiveMaxDepth, scope)
      ensures old(Filed()) && LinksStayHome(world) && !followExternal && !outcome.Aborted?
          ==> Smaller(old(domains), domains, maxPages)
    {
      hide Renewed, QueuesOk, LogOk, KnownOk, Paced, OwnDomain, RequestsOk, Accounted, NewInScope, NotLarger, Smaller,
           LinksStayHome, Later, LinksTaken, OnlyLinked, NeverKnown, CanFail, Marked, Cleared, IsNew, AddsNothing, SessionsOk,
           Grown, NewAllowed, AddsLinks;
      var answer, attempt := Send(url, depth, domain, scope);
      if answer.Err? {
        NothingMarked(KnownUrls(), old(domains), domains, requests, |requests|);
        NothingAddsLinks(old(domains), domains, requests, |requests|, effectiveMaxDepth, scope);
        return Aborted(answer.error);
      }
      var result := answer.value;
      ghost var sent := domains;
      assert FromWeb(url, result);
      if result.FetchError? {
        NothingMarked(KnownUrls(), old(domains), domains, requests, |old(requests)|);
        NothingAddsLinks(old(domains), domains, requests, |old(requests)|, effectiveMaxDepth, scope);
        return FetchFailed;
      }
      if LinksStayHome(world) {
        HomeLinks(world, url, attempt);
      }
      FollowLinks(domain, result.page, depth, effectiveMaxDepth, scope);
      FetchedIsLogged(requests, |old(requests)|);
      PageAddsLinks(old(domains), sent, domains, requests, |old(requests)|, effectiveMaxDepth, scope);
      if hasStore {
        MarkKeepsKnown(domains, crawled, requests, url, true);
      }
      ghost var cleared := KnownUrls();
      MarkUrlCrawled(url);
      if hasStore {
        PageMarked(old(KnownUrls()), cleared, KnownUrls(), old(domains), sent, domains, requests, |old(requests)|);
      }
      TwoSteps(old(domains), sent, domains, maxPages, scope, world.normalize);
      LaterChain(old(domains), sent, domains);
      SamePolicy(sent, domains, domain);
      SmallerStays(old(domains), sent, domains, maxPages);
      outcome := Got(result.page);
    }

    lemma FetchedIsLogged(requests: seq<Request>, i: nat)
      requires i < |requests| && requests[i].answer.Fetched?
      ensures WasFetched(requests, requests[i].url)
    {
    }

    /** The livelock of a foreign entry in a store-backed crawl: from such a state
        every pass skips an entry and changes nothing, so the loop never ends. */
    method Spin(effectiveMaxDepth: nat, scope: Option<set<Url>>, passes: nat)
      requires Valid() && Stalled(domains, KnownUrls(), world.domainOf)
      modifies this
      ensures domains == old(domains) && requests == old(requests) && crawled == old(crawled)
      ensures Valid() && Stalled(domains, KnownUrls(), world.domainOf)
    {
      for i := 0 to passes
        invariant domains == old(domains) && requests == old(requests) && crawled == old(crawled)
        invariant Valid() && Stalled(domains, KnownUrls(), world.domainOf)
      {
        ghost var before, known, log := domains, KnownUrls(), requests;
        label Start:
        var outcome := Iterate(effectiveMaxDepth, scope);
        assert !outcome.QueueEmpty? by {
          var e :| IsPick(before, e);
        }
        ghost var e :| IsPick(before, e) && Logged(log, requests, outcome, e.url, e.depth, old@Start(now), ShallowWaits(before))
                       && (outcome.Skipped? <==> old@Start(AlreadyCrawled(e.url)))
                       && (outcome.Skipped? ==> domains == Dequeue(before, world.domainOf(e.url), e.url));
        assert e.url in known;
        DequeueNothing(before, world.domainOf(e.url), e.url);
      }
    }

    ghost function KnownUrls(): set<Url>
      reads this`crawled
    {
      set u | u in crawled && AlreadyCrawled(u)
    }

    // ----- a crawl call

    /** The mapped URLs that bound link-following: absent when the site has no map or depth is manual. */
    ghost function ScopeOf(blueprint: Blueprint): Option<set<Url>>
    {
      if autoDepth && blueprint.sitemap + blueprint.llms != [] then
        Some(set u | u in blueprint.sitemap + blueprint.llms :: world.normalize(u))
      else None
    }

    /** The depth up to which links are followed: the configured one, or that of
        the deepest mapped path, kept within 1 and 20. */
    ghost predicate IsReach(blueprint: Blueprint, reach: nat)
    {
      var mapped := blueprint.sitemap + blueprint.llms;
      if ScopeOf(blueprint).None? then reach == maxDepth
      else
        && 1 <= reach <= 20
        && (forall u | u in mapped :: world.pathDepth(u) <= reach || reach == 20)
        && (reach > 1 ==> exists u :: u in mapped && world.pathDepth(u) >= reach)
    }

    /** Depth and scope derived from the site's own map. */
    method EffectiveScope(blueprint: Blueprint) returns (effectiveMaxDepth: nat, scope: Option<set<Url>>)
      ensures scope == ScopeOf(blueprint)
      ensures IsReach(blueprint, effectiveMaxDepth)
    {
      var mapped := blueprint.sitemap + blueprint.llms;
      if !autoDepth || mapped == [] {
        return maxDepth, None;
      }
      var deepest, urls := 0, {};
      for i := 0 to |mapped|
        invariant urls == set u | u in mapped[..i] :: world.normalize(u)
        invariant forall u | u in mapped[..i] :: world.pathDepth(u) <= deepest
        invariant deepest > 0 ==> exists u :: u in mapped && world.pathDepth(u) == deepest
      {
        urls := urls + {world.normalize(mapped[i])};
        if world.pathDepth(mapped[i]) > deepest {
          deepest := world.pathDepth(mapped[i]);
        }
        assert mapped[..i + 1] == mapped[..i] + [mapped[i]];
      }
      assert mapped[..|mapped|] == mapped;
      scope := Some(urls);
      effectiveMaxDepth := if deepest < 1 then 1 else if deepest > 20 then 20 else deepest;
    }

    /** The scope of a crawl call, with its seed added. */
    ghost function Bounds(seed: Url, blueprint: Blueprint): (bounds: Option<set<Url>>)
      ensures bounds.None? <==> !autoDepth || blueprint.sitemap + blueprint.llms == []
      ensures bounds.Some? ==> forall n ::
                n in bounds.value <==> exists u | u in blueprint.sitemap + blueprint.llms + [seed] :: n == world.normalize(u)
    {
      match ScopeOf(blueprint)
      case None => None
      case Some(urls) => Some(urls + {world.normalize(seed)})
    }

    /** The URLs a site map names, or the seed, are its own. */
    ghost predicate MapStaysHome(seed: Url, blueprint: Blueprint)
    {
      forall u | u in blueprint.sitemap + blueprint.llms :: world.domainOf(u) == world.domainOf(seed)
    }

    /** The first n URLs of a list have been dealt with under a domain. */
    ghost predicate AllTaken(domains: Domains, domain: Domain, urls: seq<Url>, n: nat)
    {
      forall i | 0 <= i < n && i < |urls| :: Taken(domains, domain, urls[i], maxPages)
    }

    lemma AllTakenStays(a: Domains, b: Domains, domain: Domain, urls: seq<Url>, n: nat)
      requires Later(a, b) && AllTaken(a, domain, urls, n)
      ensures AllTaken(b, domain, urls, n)
    {
      hide Later, Taken;
      forall i | 0 <= i < n && i < |urls|
        ensures Taken(b, domain, urls[i], maxPages)
      {
        TakenStays(a, b, domain, urls[i], maxPages);
      }
    }

    /** The first n URLs of a list are taken up under a domain, except those that robots.txt disallows. */
    ghost predicate AllowedSeen(domains: Domains, domain: Domain, urls: seq<Url>, n: nat)
    {
      forall i | 0 <= i < n && i < |urls| && Allowed(domains, domain, urls[i]) :: urls[i] in StateOf(domains, domain).seen
    }

    lemma AllowedSeenStays(a: Domains, b: Domains, domain: Domain, urls: seq<Url>, n: nat)
      requires Later(a, b) && AllowedSeen(a, domain, urls, n)
      ensures AllowedSeen(b, domain, urls, n)
    {
      hide NewAllowed;
      SamePolicy(a, b, domain);
      assert StateOf(a, domain).seen <= StateOf(b, domain).seen;
    }

    lemma AllowedSeenMore(domains: Domains, domain: Domain, urls: seq<Url>, n: nat)
      requires n < |urls| && AllowedSeen(domains, domain, urls, n)
      requires Allowed(domains, domain, urls[n]) ==> urls[n] in StateOf(domains, domain).seen
      ensures AllowedSeen(domains, domain, urls, n + 1)
    {
    }

    /** While the budget lasts, an allowed URL is taken up. */
    lemma EnqueueFits(domains: Domains, domain: Domain, e: Entry)
      ensures var b := Enqueue(domains, domain, e, maxPages);
              && |StateOf(b, domain).seen| <= |StateOf(domains, domain).seen| + 1
              && (|StateOf(domains, domain).seen| < maxPages && Allowed(b, domain, e.url) ==> e.url in StateOf(b, domain).seen)
    {
    }

    lemma PrefixGrows(urls: seq<Url>, i: nat)
      requires i < |urls|
      ensures forall u :: u in urls[..i + 1] <==> u in urls[..i] || u == urls[i]
    {
      assert urls[..i + 1] == urls[..i] + [urls[i]];
    }

    /** The entry of a mapped URL: at its path depth, or at one when depth is
        manual, and not below a least relevance. */
    ghost function MapEntry(url: Url, least: Option<real>): Entry
    {
      var relevance := world.relevance(url, None);
      Entry(url, if autoDepth then world.pathDepth(url) else 1,
            if least.Some? && relevance < least.value then least.value else relevance)
    }

    ghost predicate IsMapped(d: Domain, e: Entry, domain: Domain, urls: seq<Url>, least: Option<real>)
    {
      d == domain && e.url in urls && e == MapEntry(e.url, least)
    }

    /** What waits in b and did not in a are entries of the mapped URLs. */
    ghost predicate AddsMapped(a: Domains, b: Domains, domain: Domain, urls: seq<Url>, least: Option<real>)
    {
      forall d, e | d in b && e in b[d].queue :: e in StateOf(a, d).queue || IsMapped(d, e, domain, urls, least)
    }

    lemma AddsMappedChain(a: Domains, b: Domains, c: Domains, domain: Domain, urls: seq<Url>, least: Option<real>)
      requires AddsMapped(a, b, domain, urls, least) && AddsMapped(b, c, domain, urls, least)
      ensures AddsMapped(a, c, domain, urls, least)
    {
      hide IsMapped;
    }

    lemma MappedAt(a: Domains, b: Domains, domain: Domain, urls: seq<Url>, least: Option<real>, d: Domain, e: Entry)
      requires AddsMapped(a, b, domain, urls, least) && e in StateOf(b, d).queue
      ensures e in StateOf(a, d).queue || IsMapped(d, e, domain, urls, least)
    {
      hide IsMapped;
      assert d in b && e in b[d].queue;
    }

    lemma NothingMapped(a: Domains, domain: Domain, urls: seq<Url>, least: Option<real>)
      ensures AddsMapped(a, a, domain, urls, least)
    {
    }

    /** One entry of a map: it is recorded anew, so that it is known as crawled no
        longer, and taken up if it may be. */
    method EnqueueEntry(domain: Domain, url: Url, floor: Option<real>, ghost bounds: Option<set<Url>>)
      requires Valid() && InScope(bounds, world.normalize, url)
      modifies this`domains, this`crawled
      ensures Valid()
      ensures old(Filed()) && world.domainOf(url) == domain ==> Filed()
      ensures NewInScope(old(domains), domains, bounds, world.normalize)
      ensures Later(old(domains), domains) && Taken(domains, domain, url, maxPages)
      ensures |StateOf(domains, domain).seen| <= |StateOf(old(domains), domain).seen| + 1
      ensures |StateOf(old(domains), domain).seen| < maxPages && Allowed(domains, domain, url) ==> url in StateOf(domains, domain).seen
      ensures old(crawled).Keys <= crawled.Keys
      ensures forall u :: AlreadyCrawled(u) <==> old(AlreadyCrawled(u)) && u != url
      ensures forall u | IsNew(old(domains), domains, u) :: u == url
      ensures forall urls | url in urls :: AddsMapped(old(domains), domains, domain, urls, floor)
    {
      hide QueuesOk, LogOk, KnownOk, Paced, OwnDomain, RequestsOk, Accounted, NewInScope, NotLarger, InScope, Later, Taken,
           Enqueue, IsNew, Allowed, SessionsOk, Accepts, NeverKnown;
      ghost var before := domains;
      var relevance := world.relevance(url, None);
      var depth := if autoDepth then world.pathDepth(url) else 1;
      if hasStore {
        MarkKeepsKnown(domains, crawled, requests, url, false);
      }
      RecordUrl(url);
      if floor.Some? && relevance < floor.value {
        relevance := floor.value;
      }
      var _ := Admit(domain, url, depth, relevance, bounds);
      ghost var e := Entry(url, depth, relevance);
      if hasStore {
        EnqueueKeepsKnown(before, domain, e, maxPages, crawled, requests);
      }
      forall u | IsNew(before, domains, u)
        ensures u == url
      {
        EnqueueIsNew(before, domain, e, maxPages, u);
      }
      EnqueueFits(before, domain, e);
      EnqueueAdds(before, domain, e, maxPages);
    }

    /** The entries of a map: none is known as crawled any longer. */
    method EnqueueMapped(domain: Domain, urls: seq<Url>, floor: Option<real>, ghost bounds: Option<set<Url>>)
      requires Valid()
      requires forall u | u in urls :: InScope(bounds, world.normalize, u)
      modifies this`domains, this`crawled
      ensures Valid()
      ensures old(Filed()) && (forall u | u in urls :: world.domainOf(u) == domain) ==> Filed()
      ensures NewInScope(old(domains), domains, bounds, world.normalize)
      ensures Later(old(domains), domains) && AllTaken(domains, domain, urls, |urls|)
      ensures |StateOf(domains, domain).seen| <= |StateOf(old(domains), domain).seen| + |urls|
      ensures |StateOf(old(domains), domain).seen| + |urls| <= maxPages ==> AllowedSeen(domains, domain, urls, |urls|)
      ensures old(crawled).Keys <= crawled.Keys
      ensures forall u :: AlreadyCrawled(u) <==> old(AlreadyCrawled(u)) && u !in urls
      ensures forall u | IsNew(old(domains), domains, u) :: u in urls
      ensures AddsMapped(old(domains), domains, domain, urls, floor)
    {
      hide QueuesOk, LogOk, KnownOk, Paced, OwnDomain, RequestsOk, Accounted, NewInScope, NotLarger, InScope, Later, Taken,
           Enqueue, IsNew, Allowed, SessionsOk, Accepts, NeverKnown, StoreOk, Sound, Filed, AlreadyCrawled, AddsMapped;
      NothingMapped(domains, domain, urls, floor);
      NothingIsNew(domains);
      NothingNew(domains, maxPages, bounds, world.normalize);
      NothingLater(domains);
      for i := 0 to |urls|
        invariant Valid()
        invariant old(Filed()) && (forall u | u in urls :: world.domainOf(u) == domain) ==> Filed()
        invariant NewInScope(old(domains), domains, bounds, world.normalize)
        invariant Later(old(domains), domains) && AllTaken(domains, domain, urls, i)
        invariant |StateOf(domains, domain).seen| <= |StateOf(old(domains), domain).seen| + i
        invariant |StateOf(old(domains), domain).seen| + |urls| <= maxPages ==> AllowedSeen(domains, domain, urls, i)
        invariant old(crawled).Keys <= crawled.Keys
        invariant forall u :: AlreadyCrawled(u) <==> old(AlreadyCrawled(u)) && u !in urls[..i]
        invariant forall u | IsNew(old(domains), domains, u) :: u in urls
        invariant AddsMapped(old(domains), domains, domain, urls, floor)
      {
        ghost var before := domains;
        EnqueueEntry(domain, urls[i], floor, bounds);
        AddsMappedChain(old(domains), before, domains, domain, urls, floor);
        PrefixGrows(urls, i);
        TwoSteps(old(domains), before, domains, maxPages, bounds, world.normalize);
        LaterChain(old(domains), before, domains);
        forall u | IsNew(old(domains), domains, u)
          ensures u in urls
        {
          NewChain(old(domains), before, domains, u);
        }
        AllTakenStays(before, domains, domain, urls, i);
        if |StateOf(old(domains), domain).seen| + |urls| <= maxPages {
          AllowedSeenStays(before, domains, domain, urls, i);
          AllowedSeenMore(domains, domain, urls, i);
        }
      }
      assert urls[..|urls|] == urls;
    }

    /** The domain's budget has room for the whole site map. */
    ghost predicate MapFits(domains0: Domains, seed: Url, blueprint: Blueprint)
    {
      |StateOf(domains0, world.domainOf(seed)).seen| + |blueprint.sitemap| + |blueprint.llms| <= maxPages
    }

    /** The robots policy of the call is in force for the seed's domain, and what
        the call starts from has been dealt with: every mapped URL, and the seed
        unless the store knew it as crawled. */
    ghost predicate Started(domains0: Domains, domains: Domains, seed: Url, blueprint: Blueprint, known: bool)
    {
      var domain := world.domainOf(seed);
      && StateOf(domains, domain).policy == Some(blueprint.robots)
      && AllTaken(domains, domain, blueprint.sitemap, |blueprint.sitemap|)
      && AllTaken(domains, domain, blueprint.llms, |blueprint.llms|)
      && (known || Taken(domains, domain, seed, maxPages))
      && (MapFits(domains0, seed, blueprint) ==>
            && AllowedSeen(domains, domain, blueprint.sitemap, |blueprint.sitemap|)
            && AllowedSeen(domains, domain, blueprint.llms, |blueprint.llms|))
    }

    lemma StartedStays(domains0: Domains, a: Domains, b: Domains, seed: Url, blueprint: Blueprint, known: bool)
      requires Later(a, b) && Started(domains0, a, seed, blueprint, known)
      ensures Started(domains0, b, seed, blueprint, known)
    {
      hide Later, Taken, AllTaken, AllowedSeen;
      var domain := world.domainOf(seed);
      SamePolicy(a, b, domain);
      AllTakenStays(a, b, domain, blueprint.sitemap, |blueprint.sitemap|);
      AllTakenStays(a, b, domain, blueprint.llms, |blueprint.llms|);
      if !known {
        TakenStays(a, b, domain, seed, maxPages);
      }
      if MapFits(domains0, seed, blueprint) {
        AllowedSeenStays(a, b, domain, blueprint.sitemap, |blueprint.sitemap|);
        AllowedSeenStays(a, b, domain, blueprint.llms, |blueprint.llms|);
      }
    }

    /** An entry that a call starts from: the seed at depth zero, or a URL of the
        site's map, those of llms.txt at a relevance of at least 0.9. */
    ghost predicate IsStart(d: Domain, e: Entry, seed: Url, blueprint: Blueprint)
    {
      && d == world.domainOf(seed)
      && (|| e == Entry(seed, 0, world.relevance(seed, None))
          || IsMapped(d, e, world.domainOf(seed), blueprint.sitemap, None)
          || IsMapped(d, e, world.domainOf(seed), blueprint.llms, Some(0.9)))
    }

    /** What waits in b and did not in a are such entries. */
    ghost predicate AddsStarts(a: Domains, b: Domains, seed: Url, blueprint: Blueprint)
    {
      forall d, e | d in b && e in b[d].queue :: e in StateOf(a, d).queue || IsStart(d, e, seed, blueprint)
    }

    lemma StartsAdded(a: Domains, b: Domains, c: Domains, d: Domains, e: Domains, seed: Url, blueprint: Blueprint)
      requires SameQueues(a, b)
      requires AddsMapped(b, c, world.domainOf(seed), blueprint.sitemap, None)
      requires AddsMapped(c, d, world.domainOf(seed), blueprint.llms, Some(0.9))
      requires e == d || e == Enqueue(d, world.domainOf(seed), Entry(seed, 0, world.relevance(seed, None)), maxPages)
      ensures AddsStarts(a, e, seed, blueprint)
    {
      hide MapEntry, Enqueue;
      EnqueueAdds(d, world.domainOf(seed), Entry(seed, 0, world.relevance(seed, None)), maxPages);
      forall x, y | x in e && y in e[x].queue
        ensures y in StateOf(a, x).queue || IsStart(x, y, seed, blueprint)
      {
        if y in StateOf(d, x).queue {
          MappedAt(c, d, world.domainOf(seed), blueprint.llms, Some(0.9), x, y);
          if y in StateOf(c, x).queue {
            MappedAt(b, c, world.domainOf(seed), blueprint.sitemap, None, x, y);
            assert x in b ==> SameRecord(b[x], StateOf(a, x));
          }
        }
      }
    }

    /** Everything a crawl call does before its loop. Of the URLs known as crawled
        exactly the mapped ones are known no longer; a known seed is taken up only
        if it is mapped. */
    method Prepare(seed: Url, blueprint: Blueprint)
      requires Valid()
      modifies this`domains, this`crawled
      ensures Valid()
      ensures old(Filed()) && MapStaysHome(seed, blueprint) ==> Filed()
      ensures NewInScope(old(domains), domains, Bounds(seed, blueprint), world.normalize)
      ensures Started(old(domains), domains, seed, blueprint, old(AlreadyCrawled(seed)))
      ensures NewAllowed(old(domains), domains) && Grown(old(domains), domains)
      ensures forall u :: AlreadyCrawled(u) <==> old(AlreadyCrawled(u)) && u !in blueprint.sitemap && u !in blueprint.llms
      ensures forall u | IsNew(old(domains), domains, u) ::
                u in blueprint.sitemap || u in blueprint.llms || (u == seed && !old(AlreadyCrawled(seed)))
      ensures AddsStarts(old(domains), domains, seed, blueprint)
    {
      hide Renewed, QueuesOk, LogOk, KnownOk, Paced, OwnDomain, RequestsOk, Accounted, NewInScope, NotLarger, SameQueues, Later,
           AllTaken, Taken, IsNew, NewAllowed, AllowedSeen, SessionsOk, Enqueue, AddsMapped, Bounds, InScope, Served, NeverKnown,
           AddsStarts, Grown;
      ghost var bounds := Bounds(seed, blueprint);
      var domain := world.domainOf(seed);
      SetPolicy(domain, blueprint.robots);
      ghost var d1 := domains;
      SameIsNothingNew(old(domains), d1, bounds, world.normalize);
      var known := AlreadyCrawled(seed);
      if !known {
        if hasStore {
          MarkKeepsKnown(domains, crawled, requests, seed, false);
        }
        RecordUrl(seed);
      }
      InBounds(seed, blueprint);
      EnqueueMapped(domain, blueprint.sitemap, None, bounds);
      ghost var d2 := domains;
      EnqueueMapped(domain, blueprint.llms, Some(0.9), bounds);
      ghost var d3 := domains;
      AllTakenStays(d2, d3, domain, blueprint.sitemap, |blueprint.sitemap|);
      NothingNew(d3, maxPages, bounds, world.normalize);
      NothingLater(d3);
      if !known {
        var _ := Admit(domain, seed, 0, world.relevance(seed, None), bounds);
        if hasStore {
          assert !AlreadyCrawled(seed);
          EnqueueKeepsKnown(d3, domain, Entry(seed, 0, world.relevance(seed, None)), maxPages, crawled, requests);
        }
      }
      AllTakenStays(d3, domains, domain, blueprint.sitemap, |blueprint.sitemap|);
      AllTakenStays(d3, domains, domain, blueprint.llms, |blueprint.llms|);
      if MapFits(old(domains), seed, blueprint) {
        AllowedSeenStays(d2, d3, domain, blueprint.sitemap, |blueprint.sitemap|);
        AllowedSeenStays(d3, domains, domain, blueprint.sitemap, |blueprint.sitemap|);
        AllowedSeenStays(d3, domains, domain, blueprint.llms, |blueprint.llms|);
      }
      FourSteps(old(domains), d1, d2, d3, domains, maxPages, bounds, world.normalize);
      LaterChain(d1, d2, d3);
      LaterChain(d1, d3, domains);
      SamePolicy(d1, domains, domain);
      AllowedFrom(old(domains), d1, domains);
      StartsAdded(old(domains), d1, d2, d3, domains, seed, blueprint);
      OnlyStartsNew(old(domains), d1, d2, d3, domains, seed, blueprint, known);
    }

    lemma OnlyStartsNew(a: Domains, b: Domains, c: Domains, d: Domains, e: Domains, seed: Url, blueprint: Blueprint, known: bool)
      requires SameQueues(a, b) && Later(b, c) && Later(c, d) && Later(b, d) && Later(d, e)
      requires forall u | IsNew(b, c, u) :: u in blueprint.sitemap
      requires forall u | IsNew(c, d, u) :: u in blueprint.llms
      requires e == if known then d else Enqueue(d, world.domainOf(seed), Entry(seed, 0, world.relevance(seed, None)), maxPages)
      ensures forall u | IsNew(a, e, u) :: u in blueprint.sitemap || u in blueprint.llms || (u == seed && !known)
    {
      hide IsNew, Enqueue, SameQueues, Later;
      forall u | IsNew(a, e, u)
        ensures u in blueprint.sitemap || u in blueprint.llms || (u == seed && !known)
      {
        NewFrom(a, b, e, u);
        NewChain(b, c, d, u);
        NewChain(b, d, e, u);
        if !known {
          EnqueueIsNew(d, world.domainOf(seed), Entry(seed, 0, world.relevance(seed, None)), maxPages, u);
        } else {
          NothingIsNew(d);
        }
      }
    }

    lemma InBounds(seed: Url, blueprint: Blueprint)
      ensures InScope(Bounds(seed, blueprint), world.normalize, seed)
      ensures forall u | u in blueprint.sitemap :: InScope(Bounds(seed, blueprint), world.normalize, u)
      ensures forall u | u in blueprint.llms :: InScope(Bounds(seed, blueprint), world.normalize, u)
    {
      forall u | u in blueprint.sitemap || u in blueprint.llms
        ensures InScope(Bounds(seed, blueprint), world.normalize, u)
      {
        assert u in blueprint.sitemap + blueprint.llms;
      }
    }

    lemma PolicyKeepsSessions(a: Domains, domain: Domain, policy: Policy)
      requires SessionsOk(a, None)
      ensures SessionsOk(a[domain := StateOf(a, domain).(policy := Some(policy))], None)
    {
    }

    method SetPolicy(domain: Domain, policy: Policy)
      requires Valid()
      modifies this`domains
      ensures Valid() && SameQueues(old(domains), domains)
      ensures old(Filed()) ==> Filed()
      ensures domains == old(domains)[domain := StateOf(old(domains), domain).(policy := Some(policy))]
    {
      domains := domains[domain := StateOf(domains, domain).(policy := Some(policy))];
      hide Renewed, QueuesOk, LogOk, KnownOk, OwnDomain, RequestsOk, Accounted, Paced, NeverKnown, SameQueues, Later,
           SessionsOk, Served, AddsNothing;
      PolicyKeepsSessions(old(domains), domain, policy);
      PolicyIsSame(old(domains), domain, policy);
      SameQueuesKeeps(old(domains), domains, requests, maxPages, deep, now, world.domainOf);
      if hasStore {
        SameQueuesKeepsKnown(old(domains), domains, crawled, requests);
      }
    }

    /** The loop goes on while the budget lasts, and beyond it while a shallow entry waits. */
    predicate KeepGoing(got: nat, limit: nat): (r: bool)
      reads this
      ensures r <==> got < limit || ShallowWaits(domains)
    {
      got < limit || exists d :: d in domains && exists i :: 0 <= i < |domains[d].queue| && domains[d].queue[i].depth <= minDepth
    }

    /** The requests from the n-th on have been handled. */
    ghost predicate AllHandled(domains: Domains, requests: seq<Request>, n: nat, reach: nat, scope: Option<set<Url>>)
    {
      forall i | n <= i < |requests| :: Handled(domains, requests[i], reach, scope)
    }

    lemma HandledStep(a: Domains, b: Domains, before: seq<Request>, after: seq<Request>, n: nat, reach: nat, scope: Option<set<Url>>)
      requires Later(a, b) && AllHandled(a, before, n, reach, scope)
      requires before <= after && |after| <= |before| + 1 && n <= |before|
      requires |after| > |before| ==> Handled(b, after[|before|], reach, scope)
      ensures AllHandled(b, after, n, reach, scope)
    {
      hide Handled, Later;
      forall i | n <= i < |after|
        ensures Handled(b, after[i], reach, scope)
      {
        if i < |before| {
          assert after[i] == before[i];
          HandledStays(a, b, before[i], reach, scope);
        }
      }
    }

    /** Each request from the n-th on was made while pages were missing, or while a
        shallow entry waited. */
    ghost predicate LimitKept(requests: seq<Request>, n: nat, limit: nat)
    {
      forall i: nat | n <= i < |requests| :: |PagesOf(requests[n..i])| < limit || requests[i].shallow
    }

    lemma LimitStep(before: seq<Request>, after: seq<Request>, n: nat, limit: nat)
      requires n <= |before| && LimitKept(before, n, limit) && before <= after && |after| <= |before| + 1
      requires |after| > |before| ==> |PagesOf(before[n..])| < limit || after[|before|].shallow
      ensures LimitKept(after, n, limit)
    {
      hide PagesOf;
      forall i: nat | n <= i < |after|
        ensures |PagesOf(after[n..i])| < limit || after[i].shallow
      {
        if i < |before| {
          assert after[n..i] == before[n..i] && after[i] == before[i];
        } else {
          assert after[n..i] == before[n..];
        }
      }
    }

    // ----- why a URL is requested

    /** The call that began after n requests has a reason for the entry: it was
        waiting already, the call starts from it, or a page fetched in the call
        links to it, one level less deep and within the reach. */
    ghost predicate Caused(d: Domain, e: Entry, log: seq<Request>, domains0: Domains, n: nat, seed: Url, blueprint: Blueprint, reach: nat)
    {
      || e in StateOf(domains0, d).queue
      || IsStart(d, e, seed, blueprint)
      || IsFromSince(log, n, d, e, reach, ScopeOf(blueprint))
    }

    ghost predicate AllWaitingCaused(domains: Domains, log: seq<Request>, domains0: Domains, n: nat, seed: Url, blueprint: Blueprint,
                                     reach: nat)
    {
      forall d, e | d in domains && e in domains[d].queue :: Caused(d, e, log, domains0, n, seed, blueprint, reach)
    }

    /** The i-th request was for an entry for which the call had a reason by then. */
    ghost predicate RequestCaused(requests: seq<Request>, i: nat, domains0: Domains, n: nat, seed: Url, blueprint: Blueprint, reach: nat)
      requires i < |requests|
    {
      exists d, e :: Caused(d, e, requests[..i], domains0, n, seed, blueprint, reach) && e.url == requests[i].url && e.depth == requests[i].depth
    }

    ghost predicate AllRequestsCaused(requests: seq<Request>, domains0: Domains, n: nat, seed: Url, blueprint: Blueprint, reach: nat)
    {
      forall i: nat | n <= i < |requests| :: RequestCaused(requests, i, domains0, n, seed, blueprint, reach)
    }

    lemma CausedLater(d: Domain, e: Entry, before: seq<Request>, after: seq<Request>, domains0: Domains, n: nat, seed: Url,
                      blueprint: Blueprint, reach: nat)
      requires before <= after && n <= |before|
      requires || Caused(d, e, before, domains0, n, seed, blueprint, reach)
               || IsFromSince(after, |before|, d, e, reach, ScopeOf(blueprint))
      ensures Caused(d, e, after, domains0, n, seed, blueprint, reach)
    {
      hide IsStart, IsFrom, ScopeOf;
      if IsFromSince(before, n, d, e, reach, ScopeOf(blueprint)) {
        var j :| n <= j < |before| && IsFrom(before[j], d, e, reach, ScopeOf(blueprint));
        assert after[j] == before[j];
      }
    }

    /** A pass keeps it so. */
    lemma CauseStep(a: Domains, b: Domains, before: seq<Request>, after: seq<Request>, domains0: Domains, n: nat, seed: Url,
                    blueprint: Blueprint, reach: nat)
      requires n <= |before| && before <= after && |after| <= |before| + 1
      requires AllWaitingCaused(a, before, domains0, n, seed, blueprint, reach)
      requires AllRequestsCaused(before, domains0, n, seed, blueprint, reach)
      requires AddsLinks(a, b, after, |before|, reach, ScopeOf(blueprint))
      requires |after| > |before| ==> exists e :: IsPick(a, e) && e.url == after[|before|].url && e.depth == after[|before|].depth
      ensures AllWaitingCaused(b, after, domains0, n, seed, blueprint, reach)
      ensures AllRequestsCaused(after, domains0, n, seed, blueprint, reach)
    {
      hide Caused, IsFromSince, ScopeOf;
      forall d, e | d in b && e in b[d].queue
        ensures Caused(d, e, after, domains0, n, seed, blueprint, reach)
      {
        if e in StateOf(a, d).queue {
          assert d in a && e in a[d].queue;
        }
        CausedLater(d, e, before, after, domains0, n, seed, blueprint, reach);
      }
      forall i: nat | n <= i < |after|
        ensures RequestCaused(after, i, domains0, n, seed, blueprint, reach)
      {
        if i < |before| {
          assert RequestCaused(before, i, domains0, n, seed, blueprint, reach);
          assert after[..i] == before[..i] && after[i] == before[i];
        } else {
          PickCaused(a, before, after, domains0, n, seed, blueprint, reach);
        }
      }
    }

    lemma PickCaused(a: Domains, before: seq<Request>, after: seq<Request>, domains0: Domains, n: nat, seed: Url,
                     blueprint: Blueprint, reach: nat)
      requires before <= after && |after| == |before| + 1
      requires AllWaitingCaused(a, before, domains0, n, seed, blueprint, reach)
      requires exists e :: IsPick(a, e) && e.url == after[|before|].url && e.depth == after[|before|].depth
      ensures RequestCaused(after, |before|, domains0, n, seed, blueprint, reach)
    {
      hide Caused;
      var e :| IsPick(a, e) && e.url == after[|before|].url && e.depth == after[|before|].depth;
      var d :| d in a && e in a[d].queue;
      assert after[..|before|] == before;
    }

    lemma CauseStarts(domains0: Domains, domains: Domains, requests: seq<Request>, seed: Url, blueprint: Blueprint, reach: nat)
      requires AddsStarts(domains0, domains, seed, blueprint)
      ensures AllWaitingCaused(domains, requests, domains0, |requests|, seed, blueprint, reach)
      ensures AllRequestsCaused(requests, domains0, |requests|, seed, blueprint, reach)
    {
      hide IsStart, IsFromSince;
    }

    /** What every crawl call guarantees, whatever is queued where: every request
        of the crawler went out in its slot and under a session that might go on,
        and none while the store had its URL as crawled; every domain stays within its budget; every URL taken up still
        waits or was requested; what is new in the call is in scope and allowed by
        the robots policies; everything the call started from, and every admissible
        link of every page it got, has been dealt with; and whatever waits or was
        requested does so for a reason. */
    ghost predicate CallOk(domains: Domains, requests: seq<Request>, domains0: Domains, n: nat, seed: Url,
                           blueprint: Blueprint, known: bool, reach: nat)
    {
      && Served(requests, pagesPerSession, sessionMaxAge) && Renewed(requests)
      && Paced(requests, Floor(), deep) && NeverKnown(requests)
      && Accounted(domains, requests)
      && (forall d | d in domains :: |domains[d].seen| <= maxPages)
      && NewInScope(domains0, domains, Bounds(seed, blueprint), world.normalize)
      && NewAllowed(domains0, domains) && Grown(domains0, domains)
      && Started(domains0, domains, seed, blueprint, known)
      && IsReach(blueprint, reach) && AllHandled(domains, requests, n, reach, ScopeOf(blueprint))
      && AllWaitingCaused(domains, requests, domains0, n, seed, blueprint, reach)
      && AllRequestsCaused(requests, domains0, n, seed, blueprint, reach)
    }

    /** What holds between the passes of a call. */
    ghost predicate Running(domains: Domains, requests: seq<Request>, results: seq<Page>, domains0: Domains, n: nat, seed: Url,
                            blueprint: Blueprint, known: bool, reach: nat, scope: Option<set<Url>>)
    {
      && n <= |requests| && results == PagesOf(requests[n..])
      && NewInScope(domains0, domains, Bounds(seed, blueprint), world.normalize)
      && NewAllowed(domains0, domains) && Grown(domains0, domains)
      && Started(domains0, domains, seed, blueprint, known)
      && AllHandled(domains, requests, n, reach, scope)
      && AllWaitingCaused(domains, requests, domains0, n, seed, blueprint, reach)
      && AllRequestsCaused(requests, domains0, n, seed, blueprint, reach)
    }

    /** What the store has as crawled between the passes of a call on a filed
        crawler: the pages that the call fetched, and what it had at first without
        what the call took up. */
    ghost predicate StoreRunning(known0: set<Url>, known: set<Url>, domains0: Domains, domains: Domains, requests: seq<Request>, n: nat)
    {
      n <= |requests| && Grown(domains0, domains) && (hasStore ==> Marked(known0, known, domains0, domains, requests, n))
    }

    lemma StoreStep(known0: set<Url>, x: set<Url>, y: set<Url>, domains0: Domains, before: Domains, after: Domains,
                    log: seq<Request>, requests: seq<Request>, n: nat)
      requires StoreRunning(known0, x, domains0, before, log, n) && log <= requests
      requires Later(before, after) && (hasStore ==> Marked(x, y, before, after, requests, |log|))
      requires RequestsOk(before, log, world.domainOf) && OwnDomain(after, world.domainOf)
      ensures StoreRunning(known0, y, domains0, after, requests, n)
    {
      hide Marked, RequestsOk, OwnDomain, IsNew;
      FetchedNotNew(before, after, log, n, world.domainOf);
      if hasStore {
        MarkedChain(known0, x, y, domains0, before, after, log, requests, n);
      }
    }

    /** The URLs that the site's own map names. */
    ghost function MappedUrls(blueprint: Blueprint): set<Url>
    {
      set u | u in blueprint.sitemap + blueprint.llms
    }

    lemma StoreStarts(known0: set<Url>, known: set<Url>, domains0: Domains, domains: Domains, requests: seq<Request>,
                      seed: Url, blueprint: Blueprint)
      requires forall u :: u in known <==> u in known0 && u !in blueprint.sitemap && u !in blueprint.llms
      requires forall u | IsNew(domains0, domains, u) :: u in blueprint.sitemap || u in blueprint.llms || (u == seed && seed !in known0)
      requires Grown(domains0, domains)
      ensures StoreRunning(known0 - MappedUrls(blueprint), known, domains0, domains, requests, |requests|)
    {
      hide IsNew;
      assert known == known0 - MappedUrls(blueprint);
      UnknownMarked(known, domains0, domains, requests);
    }

    /** One pass and its result. */
    method Pass(results0: seq<Page>, effectiveMaxDepth: nat, scope: Option<set<Url>>, ghost domains0: Domains, ghost n: nat,
                ghost seed: Url, ghost blueprint: Blueprint, ghost known: bool)
      returns (outcome: Outcome, results: seq<Page>)
      requires Valid() && scope == ScopeOf(blueprint)
      requires Running(domains, requests, results0, domains0, n, seed, blueprint, known, effectiveMaxDepth, scope)
      modifies this
      ensures Valid() && (old(Filed()) && LinksStayHome(world) ==> Filed())
      ensures old(requests) <= requests
      ensures Running(domains, requests, results, domains0, n, seed, blueprint, known, effectiveMaxDepth, scope)
      ensures outcome.QueueEmpty? ==> forall d | d in domains :: domains[d].queue == []
      ensures outcome.Aborted? ==> CanFail(world, outcome.error)
      ensures Later(old(domains), domains)
      ensures |requests| <= |old(requests)| + 1
      ensures |requests| > |old(requests)| ==> requests[|old(requests)|].shallow == ShallowWaits(old(domains))
      ensures hasStore ==> Marked(old(KnownUrls()), KnownUrls(), old(domains), domains, requests, |old(requests)|)
      ensures old(Filed()) && LinksStayHome(world) && !followExternal && !outcome.QueueEmpty? && !outcome.Aborted?
          ==> Smaller(old(domains), domains, maxPages)
    {
      hide Renewed, SessionsOk, Served, ShallowWaits, QueuesOk, LogOk, KnownOk, Paced, OwnDomain, RequestsOk, Accounted,
           NewInScope, LinksStayHome, Later, Handled, Started, Smaller, Bounds, ScopeOf, PagesOf, CanFail, NewAllowed, Grown,
           Marked, IsPick, AddsLinks, AllWaitingCaused, AllRequestsCaused, Caused;
      ghost var before, log := domains, requests;
      outcome := Iterate(effectiveMaxDepth, scope);
      LogGrows(log, requests, outcome, n);
      ScopeInBounds(seed, blueprint);
      Widen(before, domains, scope, Bounds(seed, blueprint), world.normalize);
      TwoSteps(domains0, before, domains, maxPages, Bounds(seed, blueprint), world.normalize);
      NewAllowedLater(domains0, before, domains);
      StartedStays(domains0, before, domains, seed, blueprint, known);
      HandledStep(before, domains, log, requests, n, effectiveMaxDepth, scope);
      PickedIsLogged(before, log, requests, outcome);
      CauseStep(before, domains, log, requests, domains0, n, seed, blueprint, effectiveMaxDepth);
      results := if outcome.Got? then results0 + [outcome.page] else results0;
    }

    /** A whole crawl call that ignores external links. It terminates, requests no
        URL that this crawler requested before, in this or any earlier call, and
        returns the pages that came back, in order. It ends with empty queues, or
        with enough pages and no shallow entry waiting, or with an error that the
        world caused; then the pages got so far are lost. */
    method CrawlWithLimit(seed: Url, limit: nat, blueprint: Blueprint)
      returns (result: Result<seq<Page>, CrawlError>, ghost reach: nat)
      requires Valid() && Filed() && !followExternal
      requires LinksStayHome(world) && MapStaysHome(seed, blueprint)
      modifies this
      ensures Valid() && Filed() && NoUrlTwice(requests)
      ensures old(requests) <= requests
      ensures LimitKept(requests, |old(requests)|, limit)
      ensures CallOk(domains, requests, old(domains), |old(requests)|, seed, blueprint, old(AlreadyCrawled(seed)), reach)
      ensures result.Ok? ==> result.value == PagesOf(requests[|old(requests)|..])
      ensures result.Ok? ==>
                || (forall d | d in domains :: domains[d].queue == [])
                || (|result.value| >= limit && forall d, e | d in domains && e in domains[d].queue :: e.depth > minDepth)
      ensures result.Err? ==> CanFail(world, result.error)
      ensures hasStore ==> Marked(old(KnownUrls()) - MappedUrls(blueprint), KnownUrls(), old(domains), domains, requests, |old(requests)|)
    {
      hide Renewed, SessionsOk, QueuesOk, LogOk, KnownOk, Paced, OwnDomain, RequestsOk, Accounted, NewInScope, LinksStayHome,
           MapStaysHome, Later, Handled, Started, IsReach, Bounds, ScopeOf, PagesOf, Running, CanFail, NewAllowed, Cleared,
           Marked, IsNew, Grown, AddsStarts, Served, ShallowWaits;
      var pages := [];
      Prepare(seed, blueprint);
      ghost var known0 := old(KnownUrls()) - MappedUrls(blueprint);
      StoreStarts(old(KnownUrls()), KnownUrls(), old(domains), domains, requests, seed, blueprint);
      var effectiveMaxDepth, scope := EffectiveScope(blueprint);
      reach := effectiveMaxDepth;
      ghost var known := old(AlreadyCrawled(seed));
      StartRunning(domains, requests, old(domains), seed, blueprint, known, reach, scope);
      while KeepGoing(|pages|, limit)
        invariant Valid() && Filed() && old(requests) <= requests
        invariant Running(domains, requests, pages, old(domains), |old(requests)|, seed, blueprint, known, reach, scope)
        invariant LimitKept(requests, |old(requests)|, limit)
        invariant StoreRunning(known0, KnownUrls(), old(domains), domains, requests, |old(requests)|)
        decreases Capacity(domains, maxPages), Waiting(domains)
      {
        ghost var before, log, marked := domains, requests, KnownUrls();
        RunningPages(pages, old(domains), |old(requests)|, seed, blueprint, known, reach, scope);
        var outcome;
        outcome, pages := Pass(pages, effectiveMaxDepth, scope, old(domains), |old(requests)|, seed, blueprint, known);
        LimitStep(log, requests, |old(requests)|, limit);
        StoreStep(known0, marked, KnownUrls(), old(domains), before, domains, log, requests, |old(requests)|);
        if outcome.QueueEmpty? {
          break;
        }
        if outcome.Aborted? {
          EndRunning(pages, old(domains), |old(requests)|, seed, blueprint, known, reach, scope);
          return Err(outcome.error), reach;
        }
      }
      EndRunning(pages, old(domains), |old(requests)|, seed, blueprint, known, reach, scope);
      result := Ok(pages);
    }

    /** The first n passes of a crawl call, with external links followed or not and
        links belonging where they may: the same guarantees at every point of the
        run, except that URLs are not repeated only as long as each is queued
        under its own domain. Before the n-th pass it stops with an error, with
        empty queues, or with enough pages and no shallow entry waiting. */
    method CrawlFor(seed: Url, limit: nat, blueprint: Blueprint, n: nat)
      returns (results: seq<Page>, error: Option<CrawlError>, passes: nat, ghost reach: nat)
      requires Valid()
      modifies this
      ensures Valid()
      ensures old(Filed()) && LinksStayHome(world) && MapStaysHome(seed, blueprint) ==> Filed() && NoUrlTwice(requests)
      ensures old(Filed()) && LinksStayHome(world) && MapStaysHome(seed, blueprint) && hasStore
          ==> Marked(old(KnownUrls()) - MappedUrls(blueprint), KnownUrls(), old(domains), domains, requests, |old(requests)|)
      ensures old(requests) <= requests && results == PagesOf(requests[|old(requests)|..])
      ensures |requests| <= |old(requests)| + passes && passes <= n
      ensures error.Some? ==> CanFail(world, error.value)
      ensures passes < n && error.None? ==>
                || (forall d | d in domains :: domains[d].queue == [])
                || (|results| >= limit && forall d, e | d in domains && e in domains[d].queue :: e.depth > minDepth)
      ensures LimitKept(requests, |old(requests)|, limit)
      ensures CallOk(domains, requests, old(domains), |old(requests)|, seed, blueprint, old(AlreadyCrawled(seed)), reach)
    {
      hide Renewed, SessionsOk, QueuesOk, LogOk, KnownOk, Paced, OwnDomain, RequestsOk, Accounted, NewInScope, LinksStayHome,
           MapStaysHome, Later, Handled, Started, IsReach, Bounds, ScopeOf, PagesOf, Running, NewAllowed, CanFail, Marked,
           IsNew, Grown, AddsStarts, Served, ShallowWaits;
      results, error, passes := [], None, 0;
      Prepare(seed, blueprint);
      ghost var known0 := old(KnownUrls()) - MappedUrls(blueprint);
      StoreStarts(old(KnownUrls()), KnownUrls(), old(domains), domains, requests, seed, blueprint);
      var effectiveMaxDepth, scope := EffectiveScope(blueprint);
      reach := effectiveMaxDepth;
      ghost var known := old(AlreadyCrawled(seed));
      StartRunning(domains, requests, old(domains), seed, blueprint, known, reach, scope);
      while passes < n && KeepGoing(|results|, limit)
        invariant Valid() && old(requests) <= requests
        invariant |requests| <= |old(requests)| + passes && passes <= n
        invariant old(Filed()) && LinksStayHome(world) && MapStaysHome(seed, blueprint) ==> Filed()
        invariant Running(domains, requests, results, old(domains), |old(requests)|, seed, blueprint, known, reach, scope)
        invariant LimitKept(requests, |old(requests)|, limit)
        invariant old(Filed()) && LinksStayHome(world) && MapStaysHome(seed, blueprint)
              ==> StoreRunning(known0, KnownUrls(), old(domains), domains, requests, |old(requests)|)
      {
        ghost var before, log, marked := domains, requests, KnownUrls();
        RunningPages(results, old(domains), |old(requests)|, seed, blueprint, known, reach, scope);
        var outcome;
        outcome, results := Pass(results, effectiveMaxDepth, scope, old(domains), |old(requests)|, seed, blueprint, known);
        LimitStep(log, requests, |old(requests)|, limit);
        if old(Filed()) && LinksStayHome(world) && MapStaysHome(seed, blueprint) {
          StoreStep(known0, marked, KnownUrls(), old(domains), before, domains, log, requests, |old(requests)|);
        }
        passes := passes + 1;
        if outcome.QueueEmpty? {
          break;
        }
        if outcome.Aborted? {
          error := Some(outcome.error);
          break;
        }
      }
      EndRunning(results, old(domains), |old(requests)|, seed, blueprint, known, reach, scope);
    }

    lemma RunningPages(results: seq<Page>, domains0: Domains, n: nat, seed: Url, blueprint: Blueprint, known: bool, reach: nat,
                       scope: Option<set<Url>>)
      requires Running(domains, requests, results, domains0, n, seed, blueprint, known, reach, scope)
      ensures n <= |requests| && results == PagesOf(requests[n..])
    {
    }

    lemma StartRunning(domains: Domains, requests: seq<Request>, domains0: Domains, seed: Url, blueprint: Blueprint, known: bool,
                       reach: nat, scope: Option<set<Url>>)
      requires NewInScope(domains0, domains, Bounds(seed, blueprint), world.normalize)
      requires NewAllowed(domains0, domains) && Grown(domains0, domains)
      requires Started(domains0, domains, seed, blueprint, known) && AddsStarts(domains0, domains, seed, blueprint)
      ensures Running(domains, requests, [], domains0, |requests|, seed, blueprint, known, reach, scope)
    {
      CauseStarts(domains0, domains, requests, seed, blueprint, reach);
    }

    lemma EndRunning(results: seq<Page>, domains0: Domains, n: nat, seed: Url, blueprint: Blueprint, known: bool, reach: nat,
                     scope: Option<set<Url>>)
      requires Valid() && scope == ScopeOf(blueprint) && IsReach(blueprint, reach)
      requires Running(domains, requests, results, domains0, n, seed, blueprint, known, reach, scope)
      ensures CallOk(domains, requests, domains0, n, seed, blueprint, known, reach)
      ensures n <= |requests| && results == PagesOf(requests[n..])
      ensures Filed() ==> NoUrlTwice(requests)
    {
      hide QueuesOk, LogOk, KnownOk, Paced, OwnDomain, NewInScope, Accounted, Handled, Started, IsReach, Bounds, ScopeOf, PagesOf,
           NoUrlTwice, NewAllowed, AllWaitingCaused, AllRequestsCaused;
      WithinBudget(domains, maxPages);
    }

    /** Two consecutive requests to a domain, the later one by this call: they are
        at least the delay, the rate limit's interval and the crawl-delay of the
        robots policy in force apart, or the later one waited for the end of a
        backoff that a failed or invalid answer of the domain had entered. */
    lemma CallSpaces(domains: Domains, requests: seq<Request>, domains0: Domains, n: nat, seed: Url,
                     blueprint: Blueprint, known: bool, reach: nat, i: nat, j: nat)
      requires CallOk(domains, requests, domains0, n, seed, blueprint, known, reach)
      requires n <= j && i < j < |requests| && requests[i].domain == requests[j].domain
      requires forall k | i < k < j :: requests[k].domain != requests[j].domain
      ensures var later, policy := requests[j], StateOf(domains, requests[j].domain).policy;
              || (&& later.at - requests[i].at >= delay && later.at - requests[i].at >= rpsDelay
                  && (policy.Some? && policy.value.crawlDelay.Some? ==> later.at - requests[i].at >= policy.value.crawlDelay.value))
              || (!deep && exists k: nat | k <= i :: WaitedFor(requests, k, later))
    {
      hide Paced, NeverKnown, Accounted, NewInScope, Started, IsReach, WaitedFor, AllWaitingCaused, AllRequestsCaused;
      assert Handled(domains, requests[j], reach, ScopeOf(blueprint));
      ConsecutiveRequests(requests, Floor(), deep, i, j);
    }

    /** The page that one request brought links, within the scope, to the URL of
        another, which is one level deeper. */
    ghost predicate LeadsTo(a: Request, b: Request, scope: Option<set<Url>>)
    {
      && a.answer.Fetched? && (exists d :: IsLinked(a.domain, a.answer.page, d, b.url))
      && InScope(scope, world.normalize, b.url) && b.depth == a.depth + 1
    }

    /** The request was for an entry that waited before the call, or that the call starts from. */
    ghost predicate IsRoot(r: Request, domains0: Domains, seed: Url, blueprint: Blueprint)
    {
      exists d, e :: (e in StateOf(domains0, d).queue || IsStart(d, e, seed, blueprint)) && e.url == r.url && e.depth == r.depth
    }

    /** A chain of requests from the n-th on, in their order, each for a link of the page before. */
    ghost predicate IsTrail(requests: seq<Request>, trail: seq<nat>, n: nat, scope: Option<set<Url>>)
    {
      && trail != [] && (forall k | 0 <= k < |trail| :: n <= trail[k] < |requests|)
      && (forall k | 0 < k < |trail| :: trail[k - 1] < trail[k] && LeadsTo(requests[trail[k - 1]], requests[trail[k]], scope))
    }

    /** Every request of a call was reached from a start of the call, or from what
        was waiting, by as many links as it is levels deeper; and a URL reached by
        a link is requested within the reach only. */
    lemma {:induction false} LinkTrail(requests: seq<Request>, domains0: Domains, n: nat, seed: Url, blueprint: Blueprint, reach: nat, i: nat)
      returns (trail: seq<nat>)
      requires AllRequestsCaused(requests, domains0, n, seed, blueprint, reach) && n <= i < |requests|
      ensures IsTrail(requests, trail, n, ScopeOf(blueprint)) && trail[|trail| - 1] == i
      ensures IsRoot(requests[trail[0]], domains0, seed, blueprint)
      ensures requests[i].depth == requests[trail[0]].depth + |trail| - 1
      ensures |trail| > 1 ==> requests[i].depth <= reach
      decreases i
    {
      hide IsStart, ScopeOf, IsLinked, InScope;
      var r := requests[i];
      assert RequestCaused(requests, i, domains0, n, seed, blueprint, reach);
      var d, e :| Caused(d, e, requests[..i], domains0, n, seed, blueprint, reach) && e.url == r.url && e.depth == r.depth;
      if IsRoot(r, domains0, seed, blueprint) {
        trail := [i];
      } else {
        var j :| n <= j < i && IsFrom(requests[..i][j], d, e, reach, ScopeOf(blueprint));
        assert requests[..i][j] == requests[j] && LeadsTo(requests[j], r, ScopeOf(blueprint));
        var before := LinkTrail(requests, domains0, n, seed, blueprint, reach, j);
        trail := before + [i];
        TrailGrows(requests, before, n, ScopeOf(blueprint), i);
      }
    }

    lemma TrailGrows(requests: seq<Request>, trail: seq<nat>, n: nat, scope: Option<set<Url>>, i: nat)
      requires IsTrail(requests, trail, n, scope) && trail[|trail| - 1] < i < |requests|
      requires LeadsTo(requests[trail[|trail| - 1]], requests[i], scope)
      ensures IsTrail(requests, trail + [i], n, scope)
    {
      hide LeadsTo;
      var t := trail + [i];
      forall k | 0 < k < |t|
        ensures t[k - 1] < t[k] && LeadsTo(requests[t[k - 1]], requests[t[k]], scope)
      {
        assert k < |trail| ==> trail[k - 1] == t[k - 1] && trail[k] == t[k];
      }
    }

    /** A call that ends with empty queues has explored its site: every admissible
        link of every page it got, internal or followed to another domain, was
        requested, by this call or an earlier one, or robots.txt or the used-up
        budget of its domain keeps it out. */
    lemma CompleteCrawl(domains: Domains, requests: seq<Request>, domains0: Domains, n: nat, seed: Url, blueprint: Blueprint,
                        known: bool, reach: nat, i: nat, d: Domain, link: Url)
      requires CallOk(domains, requests, domains0, n, seed, blueprint, known, reach)
      requires forall d | d in domains :: domains[d].queue == []
      requires n <= i < |requests| && requests[i].answer.Fetched? && requests[i].depth < reach
      requires IsLinked(requests[i].domain, requests[i].answer.page, d, link) && InScope(ScopeOf(blueprint), world.normalize, link)
      ensures Requested(requests, link) || !Allowed(domains, d, link) || |StateOf(domains, d).seen| >= maxPages
    {
      hide IsReach, Started, NewInScope, Allowed, NewAllowed, AllWaitingCaused, AllRequestsCaused;
      var own, page := requests[i].domain, requests[i].answer.page;
      assert Handled(domains, requests[i], reach, ScopeOf(blueprint));
      if d == own && link in page.internalLinks {
        var j :| 0 <= j < |page.internalLinks| && page.internalLinks[j] == link;
        assert Taken(domains, d, link, maxPages);
      } else {
        var j :| 0 <= j < |page.externalLinks| && page.externalLinks[j] == link;
        assert Taken(domains, d, link, maxPages);
      }
      if d in domains {
        assert QueuedUrls(domains[d].queue) == [];
      }
    }

    /** What a call that ends with empty queues requests of its site map, whose
        URLs all fit into the budget: exactly what this crawler has not requested
        before and robots.txt allows (or was waiting already). That the store had
        a page as crawled spares it never. */
    lemma MappedIsRequestedIff(domains: Domains, requests: seq<Request>, domains0: Domains, n: nat, seed: Url,
                               blueprint: Blueprint, known: bool, reach: nat, url: Url)
      requires CallOk(domains, requests, domains0, n, seed, blueprint, known, reach) && n <= |requests|
      requires RequestsOk(domains, requests, world.domainOf) && OwnDomain(domains, world.domainOf)
      requires forall d | d in domains :: domains[d].queue == []
      requires MapFits(domains0, seed, blueprint) && MapStaysHome(seed, blueprint)
      requires url in blueprint.sitemap || url in blueprint.llms
      ensures RequestedSince(requests, n, url)
         <==> !Requested(requests[..n], url) && (blueprint.robots.isAllowed(url) || IsSeen(domains0, url))
    {
      hide Paced, NeverKnown, Accounted, RequestsOk, NewInScope, IsReach, AllHandled, AllTaken, Requested, RequestedSince,
           AllWaitingCaused, AllRequestsCaused;
      RequestedIff(domains, requests, n, world.domainOf, url);
      var domain := world.domainOf(seed);
      assert url in blueprint.sitemap + blueprint.llms;
      if blueprint.robots.isAllowed(url) {
        assert Allowed(domains, domain, url);
        assert domain in domains && url in domains[domain].seen;
      }
      if IsSeen(domains0, url) {
        var d :| d in domains0 && url in domains0[d].seen;
        assert url in StateOf(domains, d).seen;
      }
      if IsSeen(domains, url) && !IsSeen(domains0, url) {
        var d :| d in domains && url in domains[d].seen;
        assert d == domain;
        assert url !in StateOf(domains0, d).seen;
      }
    }

    lemma ScopeInBounds(seed: Url, blueprint: Blueprint)
      ensures var scope, bounds := ScopeOf(blueprint), Bounds(seed, blueprint);
              bounds.Some? ==> scope.Some? && scope.value <= bounds.value
    {
    }

    lemma PickedIsLogged(a: Domains, before: seq<Request>, after: seq<Request>, outcome: Outcome)
      requires after == before || exists e, began :: IsPick(a, e) && Logged(before, after, outcome, e.url, e.depth, began, ShallowWaits(a))
      ensures |after| > |before| ==> after[|before|].shallow == ShallowWaits(a)
      ensures |after| > |before| ==> exists e :: IsPick(a, e) && e.url == after[|before|].url && e.depth == after[|before|].depth
    {
      hide IsPick, ShallowWaits;
    }

    /** A pass adds at most one request, and its page to the pages. */
    lemma LogGrows(before: seq<Request>, after: seq<Request>, outcome: Outcome, n: nat)
      requires n <= |before|
      requires after == before || exists url, depth, began, shallow :: Logged(before, after, outcome, url, depth, began, shallow)
      requires outcome.Got? ==> after != before
      ensures before <= after && |after| <= |before| + 1
      ensures PagesOf(after[n..]) == PagesOf(before[n..]) + if outcome.Got? then [outcome.page] else []
    {
      if after != before {
        var r := after[|before|];
        assert after[n..] == before[n..] + [r];
        assert (before[n..] + [r])[..|before[n..]|] == before[n..];
      }
    }
  }

  lemma Widen(a: Domains, b: Domains, scope: Option<set<Url>>, bounds: Option<set<Url>>, normalize: Url -> Url)
    requires NewInScope(a, b, scope, normalize)
    requires bounds.Some? ==> scope.Some? && scope.value <= bounds.value
    ensures NewInScope(a, b, bounds, normalize)
  {
    forall d, u | d in b && u in b[d].seen && u !in StateOf(a, d).seen
      ensures InScope(bounds, normalize, u)
    {
      assert InScope(scope, normalize, u);
    }
  }

  lemma WithinBudget(domains: Domains, maxPages: nat)
    requires QueuesOk(domains, maxPages)
    ensures forall d | d in domains :: |domains[d].seen| <= maxPages
  {
    forall d | d in domains
      ensures |domains[d].seen| <= maxPages
    {
      assert DomainOk(domains[d], maxPages);
    }
  }

  /** The termination measure has shrunk. */
  ghost predicate Smaller(a: Domains, b: Domains, maxPages: nat)
  {
    && b.Keys == a.Keys
    && (Capacity(b, maxPages) < Capacity(a, maxPages)
        || (Capacity(b, maxPages) == Capacity(a, maxPages) && Waiting(b) < Waiting(a)))
  }

  lemma PickIsFiled(domains: Domains, e: Entry, maxPages: nat, domainOf: Url -> Domain)
    requires IsPick(domains, e) && QueuesOk(domains, maxPages) && OwnDomain(domains, domainOf)
    ensures domainOf(e.url) in domains && e.url in QueuedUrls(domains[domainOf(e.url)].queue)
  {
    var d :| d in domains && e in domains[d].queue;
    var i :| 0 <= i < |domains[d].queue| && domains[d].queue[i] == e;
    assert QueuedUrls(domains[d].queue)[i] == e.url;
    assert DomainOk(domains[d], maxPages);
  }

  /** Dropping an entry that waits under its own domain is progress: its URL waits
      nowhere any more, so it is not picked again, and the measure shrinks. */
  lemma DroppingIsProgress(domains: Domains, url: Url, maxPages: nat, domainOf: Url -> Domain)
    requires QueuesOk(domains, maxPages) && OwnDomain(domains, domainOf)
    requires domainOf(url) in domains && url in QueuedUrls(domains[domainOf(url)].queue)
    ensures !IsQueued(Dequeue(domains, domainOf(url), url), url)
    ensures Smaller(domains, Dequeue(domains, domainOf(url), url), maxPages)
  {
    hide Capacity, Waiting;
    DequeueMeasures(domains, domainOf(url), url, maxPages);
    forall d | d in domains && d != domainOf(url)
      ensures url !in QueuedUrls(domains[d].queue)
    {
      assert DomainOk(domains[d], maxPages);
    }
    DequeueRemovesIff(domains, url, maxPages, domainOf);
  }

  lemma PickIsSeen(domains: Domains, e: Entry, maxPages: nat) returns (d: Domain)
    requires IsPick(domains, e) && QueuesOk(domains, maxPages)
    ensures d in domains && e.url in domains[d].seen
  {
    d :| d in domains && e in domains[d].queue;
    assert DomainOk(domains[d], maxPages);
    var i :| 0 <= i < |domains[d].queue| && domains[d].queue[i] == e;
    assert QueuedUrls(domains[d].queue)[i] == e.url;
  }

  lemma HomeLinks(w: World, url: Url, n: nat)
    requires LinksStayHome(w) && w.fetch(url, n).Fetched?
    ensures forall l | l in w.fetch(url, n).page.internalLinks :: w.domainOf(l) == w.domainOf(url)
  {
  }

  lemma NothingLater(a: Domains)
    ensures Later(a, a) && AddsNothing(a, a)
  {
  }

  lemma SamePolicy(a: Domains, b: Domains, domain: Domain)
    requires Later(a, b)
    ensures StateOf(a, domain).policy == StateOf(b, domain).policy
  {
  }

  lemma ThreeSteps(a: Domains, b: Domains, c: Domains, d: Domains, maxPages: nat, scope: Option<set<Url>>, normalize: Url -> Url)
    requires NewInScope(a, b, scope, normalize) && NewInScope(b, c, scope, normalize) && NewInScope(c, d, scope, normalize)
    requires Later(a, b) && Later(b, c) && Later(c, d)
    ensures NewInScope(a, d, scope, normalize) && Later(a, d)
  {
    hide NewInScope, Later;
    TwoSteps(a, b, c, maxPages, scope, normalize);
    TwoSteps(a, c, d, maxPages, scope, normalize);
    LaterChain(a, b, c);
    LaterChain(a, c, d);
  }

  /** A session, a request and perhaps another session. */
  lemma WholeRequest(a: Domains, b: Domains, c: Domains, d: Domains, domain: Domain, url: Url, at: Time, good: bool,
                     until: Option<Time>, maxPages: nat, scope: Option<set<Url>>, normalize: Url -> Url)
    requires a == b || exists at :: Rotated(a, b, domain, at)
    requires domain in b
    requires var dequeued := Dequeue(b, domain, url);
             c == dequeued[domain := AfterRequest(dequeued[domain], at, good, until)]
    requires c == d || exists at :: Rotated(c, d, domain, at)
    ensures domain in d && NewInScope(a, d, scope, normalize) && Later(a, d) && AddsNothing(a, d)
    ensures StateOf(d, domain).policy == StateOf(b, domain).policy
    ensures QueuesOk(a, maxPages) && domain in a && url in QueuedUrls(a[domain].queue) ==> Smaller(a, d, maxPages)
  {
    hide NewInScope, Later, AddsNothing, QueuesOk, Smaller, NotLarger, AfterRequest, Rotated, SameQueues, Dequeue;
    RotatedIsSame(a, b, domain, scope, normalize);
    RequestTakesNothing(b, domain, url, at, good, until, scope, normalize);
    RotatedIsSame(c, d, domain, scope, normalize);
    ThreeSteps(a, b, c, d, maxPages, scope, normalize);
    AddsNothingChain(a, b, c, d);
    SamePolicy(b, c, domain);
    SamePolicy(c, d, domain);
    if QueuesOk(a, maxPages) && domain in a && url in QueuedUrls(a[domain].queue) {
      NothingNew(d, maxPages, scope, normalize);
      RequestShrinks(a, b, c, d, d, domain, url, at, good, until, maxPages);
    }
  }

  lemma PolicyIsSame(a: Domains, domain: Domain, policy: Policy)
    ensures SameQueues(a, a[domain := StateOf(a, domain).(policy := Some(policy))])
  {
  }

  /** A new session takes nothing up. */
  lemma RotatedIsSame(a: Domains, b: Domains, domain: Domain, scope: Option<set<Url>>, normalize: Url -> Url)
    requires a == b || exists at :: Rotated(a, b, domain, at)
    ensures SameQueues(a, b) && Later(a, b) && AddsNothing(a, b) && NewInScope(a, b, scope, normalize)
    ensures domain in a ==> b.Keys == a.Keys
  {
  }

  /** Nor does a request. */
  lemma RequestTakesNothing(a: Domains, domain: Domain, url: Url, at: Time, good: bool, until: Option<Time>,
                            scope: Option<set<Url>>, normalize: Url -> Url)
    requires domain in a
    ensures var dequeued := Dequeue(a, domain, url);
            var b := dequeued[domain := AfterRequest(dequeued[domain], at, good, until)];
            Later(a, b) && AddsNothing(a, b) && NewInScope(a, b, scope, normalize) && b.Keys == a.Keys
  {
    DequeueAddsNothing(a, domain, url);
  }

  lemma SessionStays(a: Domains, b: Domains, domain: Domain, url: Url, at: Time, good: bool, until: Option<Time>)
    requires domain in a && a[domain].session.Some?
    requires var dequeued := Dequeue(a, domain, url);
             b == dequeued[domain := AfterRequest(dequeued[domain], at, good, until)]
    ensures domain in b && b[domain].session.Some?
  {
  }

  lemma SameIsNothingNew(a: Domains, b: Domains, scope: Option<set<Url>>, normalize: Url -> Url)
    requires SameQueues(a, b)
    ensures NewInScope(a, b, scope, normalize)
  {
  }

  lemma NothingIsNew(a: Domains)
    ensures forall u :: !IsNew(a, a, u)
  {
  }

  lemma NewFrom(a: Domains, b: Domains, c: Domains, url: Url)
    requires SameQueues(a, b) && IsNew(a, c, url)
    ensures IsNew(b, c, url)
  {
    var d :| d in c && url in c[d].seen && url !in StateOf(a, d).seen;
    assert d in b ==> SameRecord(b[d], StateOf(a, d));
    assert url !in StateOf(b, d).seen;
  }

  lemma AllowedFrom(a: Domains, b: Domains, c: Domains)
    requires SameQueues(a, b) && Later(b, c)
    ensures NewAllowed(a, c) && Grown(a, c)
  {
    assert forall d | d in b :: SameRecord(b[d], StateOf(a, d));
    forall d, u | d in c && u in c[d].seen && u !in StateOf(a, d).seen
      ensures Allowed(c, d, u)
    {
      assert d in b ==> SameRecord(b[d], StateOf(a, d));
      assert u !in StateOf(b, d).seen;
    }
  }

  lemma FourSteps(a: Domains, b: Domains, c: Domains, d: Domains, e: Domains, maxPages: nat, scope: Option<set<Url>>,
                  normalize: Url -> Url)
    requires NewInScope(a, b, scope, normalize) && NewInScope(b, c, scope, normalize)
    requires NewInScope(c, d, scope, normalize) && NewInScope(d, e, scope, normalize)
    ensures NewInScope(a, e, scope, normalize)
  {
    hide NewInScope;
    TwoSteps(a, b, c, maxPages, scope, normalize);
    TwoSteps(a, c, d, maxPages, scope, normalize);
    TwoSteps(a, d, e, maxPages, scope, normalize);
  }

  lemma RequestShrinks(a: Domains, b: Domains, c: Domains, d: Domains, e: Domains, domain: Domain, url: Url, at: Time, good: bool,
                       until: Option<Time>, maxPages: nat)
    requires QueuesOk(a, maxPages) && domain in a && url in QueuedUrls(a[domain].queue)
    requires SameQueues(a, b) && b.Keys == a.Keys
    requires var dequeued := Dequeue(b, domain, url);
             c == dequeued[domain := AfterRequest(dequeued[domain], at, good, until)]
    requires SameQueues(c, d) && d.Keys == c.Keys && NotLarger(d, e, maxPages)
    ensures Smaller(a, e, maxPages)
  {
    hide Capacity, Waiting;
    SameQueuesMeasures(a, b, maxPages);
    assert SameRecord(b[domain], StateOf(a, domain));
    QueuesStay(a, b, maxPages);
    var dequeued := Dequeue(b, domain, url);
    DequeueMeasures(b, domain, url, maxPages);
    UpdateMeasures(dequeued, domain, AfterRequest(dequeued[domain], at, good, until), maxPages);
    SameQueuesMeasures(c, d, maxPages);
  }

  lemma QueuesStay(a: Domains, b: Domains, maxPages: nat)
    requires SameQueues(a, b) && a.Keys == b.Keys && QueuesOk(a, maxPages)
    ensures QueuesOk(b, maxPages)
  {
    forall d | d in b
      ensures DomainOk(b[d], maxPages)
    {
      assert SameRecord(b[d], StateOf(a, d));
    }
  }

  /** The termination measure has not grown: either budget was used, or nothing was queued. */
  ghost predicate NotLarger(a: Domains, b: Domains, maxPages: nat)
  {
    && b.Keys == a.Keys
    && (Capacity(b, maxPages) < Capacity(a, maxPages)
        || (Capacity(b, maxPages) == Capacity(a, maxPages) && Waiting(b) == Waiting(a)))
  }

  lemma SmallerStays(a: Domains, b: Domains, c: Domains, maxPages: nat)
    ensures Smaller(a, b, maxPages) && NotLarger(b, c, maxPages) ==> Smaller(a, c, maxPages)
  {
  }

  lemma NothingNew(a: Domains, maxPages: nat, scope: Option<set<Url>>, normalize: Url -> Url)
    ensures NewInScope(a, a, scope, normalize) && NotLarger(a, a, maxPages)
  {
  }

  lemma TwoSteps(a: Domains, b: Domains, c: Domains, maxPages: nat, scope: Option<set<Url>>, normalize: Url -> Url)
    ensures NewInScope(a, b, scope, normalize) && NewInScope(b, c, scope, normalize) ==> NewInScope(a, c, scope, normalize)
    ensures NotLarger(a, b, maxPages) && NotLarger(b, c, maxPages) ==> NotLarger(a, c, maxPages)
  {
    if NewInScope(a, b, scope, normalize) && NewInScope(b, c, scope, normalize) {
      forall d, u | d in c && u in c[d].seen && u !in StateOf(a, d).seen
        ensures InScope(scope, normalize, u)
      {
        assert u in StateOf(b, d).seen ==> d in b && u in b[d].seen;
      }
    }
  }

  lemma EnqueueInScope(domains: Domains, target: Domain, e: Entry, maxPages: nat, scope: Option<set<Url>>, normalize: Url -> Url)
    requires InScope(scope, normalize, e.url)
    ensures NewInScope(domains, Enqueue(domains, target, e, maxPages), scope, normalize)
    ensures domains.Keys <= Enqueue(domains, target, e, maxPages).Keys
  {
  }

  // ----- a known page that is fetched again

  /** One host whose pages are valid and have no links, and nothing fails. */
  const QUIET_WEB := World(_ => "a.org", u => u, _ => 1, (_, _) => 0.5, (_, _) => Fetched(Page(true, [], [])), _ => 0,
                           _ => true, _ => true)

  const SITE_MAP := Blueprint(Policy(_ => true, None), ["https://a.org/x"], [])

  /** A page that the store has as crawled and that the site map names: the call
      requests it all the same. */
  method KnownPageIsRequested() returns (known: bool, ghost log: seq<Request>)
    ensures known && RequestedSince(log, 0, "https://a.org/x")
  {
    var page, seed := "https://a.org/x", "https://a.org/";
    var c := new BulkDomainCrawler(QUIET_WEB, 1, 1, 100, 1, 10, false, 0, 1, true, false, true, map[page := true]);
    known := c.AlreadyCrawled(page);
    ghost var before := c.domains;
    var result, reach := c.CrawlWithLimit(seed, 11, SITE_MAP);
    log := c.requests;
    RequestsWithinBudget(c.domains, log, 10, QUIET_WEB.domainOf, "a.org");
    AllToOneDomain(log, "a.org", QUIET_WEB.domainOf);
    assert log[0..] == log && log[..0] == [];
    c.MappedIsRequestedIff(c.domains, log, before, 0, seed, SITE_MAP, false, reach, page);
  }

  // ----- a chain of links that is cut at the configured depth

  const ROOT := "https://a.org/"
  const PAGE_A := "https://a.org/a"
  const PAGE_B := "https://a.org/b"
  const PAGE_C := "https://a.org/c"

  /** The root links to a, a to b and b to c. */
  function NextPages(u: Url): seq<Url>
  {
    if u == ROOT then [PAGE_A] else if u == PAGE_A then [PAGE_B] else if u == PAGE_B then [PAGE_C] else []
  }

  const CHAIN_WEB := World(_ => "a.org", u => u, _ => 1, (_, _) => 0.5, (u, _) => Fetched(Page(true, NextPages(u), [])), _ => 0,
                           _ => true, _ => true)

  const NO_MAP := Blueprint(Policy(_ => true, None), [], [])

  /** With a configured depth of one the root and a are requested, and b is not. */
  method ChainIsCut() returns (ghost log: seq<Request>, result: Result<seq<Page>, CrawlError>)
    ensures Requested(log, ROOT) && Requested(log, PAGE_A)
    ensures forall i | 0 <= i < |log| :: log[i].url == ROOT || log[i].url == PAGE_A
    ensures result == Ok(PagesOf(log))
  {
    var c := new BulkDomainCrawler(CHAIN_WEB, 1, 1, 100, 1, 10, false, 0, 1, false, false, false, map[]);
    ghost var reach;
    result, reach := c.CrawlWithLimit(ROOT, 11, NO_MAP);
    log := c.requests;
    assert log[0..] == log;
    RequestsWithinBudget(c.domains, log, 10, CHAIN_WEB.domainOf, "a.org");
    AllToOneDomain(log, "a.org", CHAIN_WEB.domainOf);
    forall i | 0 <= i < |log|
      ensures OnChain(log[i])
    {
      ChainRequest(c, log, i);
    }
    ChainIsExplored(c, log);
  }

  predicate OnChain(r: Request)
  {
    (r.url == ROOT && r.depth == 0) || (r.url == PAGE_A && r.depth == 1)
  }

  lemma {:induction false} ChainRequest(c: BulkDomainCrawler, log: seq<Request>, i: nat)
    requires c.world == CHAIN_WEB && !c.autoDepth && !c.followExternal
    requires c.AllRequestsCaused(log, map[], 0, ROOT, NO_MAP, 1)
    requires forall j | 0 <= j < |log| :: c.FromWeb(log[j].url, log[j].answer)
    requires i < |log|
    ensures OnChain(log[i])
    decreases i
  {
    assert c.RequestCaused(log, i, map[], 0, ROOT, NO_MAP, 1);
    var d, e :| c.Caused(d, e, log[..i], map[], 0, ROOT, NO_MAP, 1) && e.url == log[i].url && e.depth == log[i].depth;
    if !c.IsStart(d, e, ROOT, NO_MAP) {
      var j :| 0 <= j < i && c.IsFrom(log[..i][j], d, e, 1, c.ScopeOf(NO_MAP));
      ChainRequest(c, log, j);
      assert c.FromWeb(log[j].url, log[j].answer);
    }
  }

  lemma ChainIsExplored(c: BulkDomainCrawler, log: seq<Request>)
    requires c.world == CHAIN_WEB && !c.autoDepth && !c.followExternal && c.maxPages == 10 && c.maxDepth == 1
    requires c.CallOk(c.domains, log, map[], 0, ROOT, NO_MAP, false, 1)
    requires (forall d | d in c.domains :: c.domains[d].queue == []) && forall i | 0 <= i < |log| :: OnChain(log[i])
    ensures Requested(log, ROOT) && Requested(log, PAGE_A)
  {
    var seen := StateOf(c.domains, "a.org").seen;
    forall u | u in seen
      ensures u in {ROOT, PAGE_A} && Requested(log, u)
    {
      SeenIsRequested(c.domains, log, "a.org", u);
    }
    SubsetSize(seen, {ROOT, PAGE_A});
    RootIsTaken(c, log);
    var i :| 0 <= i < |log| && log[i].url == ROOT;
    RootIsHandled(c, log, i);
    hide *;
    c.CompleteCrawl(c.domains, log, map[], 0, ROOT, NO_MAP, false, 1, i, "a.org", PAGE_A);
  }

  lemma SeenIsRequested(domains: Domains, log: seq<Request>, domain: Domain, url: Url)
    requires Accounted(domains, log) && forall d | d in domains :: domains[d].queue == []
    requires url in StateOf(domains, domain).seen
    ensures Requested(log, url)
  {
    assert domain in domains && QueuedUrls(domains[domain].queue) == [];
  }

  lemma RootIsTaken(c: BulkDomainCrawler, log: seq<Request>)
    requires c.world == CHAIN_WEB && !c.autoDepth && c.maxPages == 10
    requires c.CallOk(c.domains, log, map[], 0, ROOT, NO_MAP, false, 1)
    requires |StateOf(c.domains, "a.org").seen| < 10
    ensures ROOT in StateOf(c.domains, "a.org").seen && Allowed(c.domains, "a.org", PAGE_A)
  {
    assert c.Started(map[], c.domains, ROOT, NO_MAP, false);
  }

  lemma RootIsHandled(c: BulkDomainCrawler, log: seq<Request>, i: nat)
    requires c.world == CHAIN_WEB && !c.autoDepth && c.CallOk(c.domains, log, map[], 0, ROOT, NO_MAP, false, 1)
    requires i < |log| && log[i].url == ROOT && OnChain(log[i])
    ensures log[i].answer.Fetched? && log[i].depth < 1
    ensures log[i].domain == "a.org" && c.IsLinked(log[i].domain, log[i].answer.page, "a.org", PAGE_A)
    ensures InScope(c.ScopeOf(NO_MAP), c.world.normalize, PAGE_A)
  {
    assert c.Handled(c.domains, log[i], 1, c.ScopeOf(NO_MAP));
    assert PAGE_A != ROOT;
  }

  lemma NotYetRequested(domains: Domains, requests: seq<Request>, url: Url, maxPages: nat, domainOf: Url -> Domain)
    requires QueuesOk(domains, maxPages) && RequestsOk(domains, requests, domainOf)
    requires domainOf(url) in domains && url in QueuedUrls(domains[domainOf(url)].queue)
    ensures url in domains[domainOf(url)].seen
    ensures forall i | 0 <= i < |requests| :: requests[i].url != url
    ensures url !in QueuedUrls(Dequeue(domains, domainOf(url), url)[domainOf(url)].queue)
  {
    assert DomainOk(domains[domainOf(url)], maxPages);
    RemoveFirstFrom(domains[domainOf(url)].queue, url);
  }
}
