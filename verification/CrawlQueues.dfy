/** Per-domain crawl state as values: queues, seen sets and the log of requests
    made, with the invariants that every step of the crawl loop keeps. */
module CrawlQueues {
  import opened Wrappers

  type Url = string
  type Domain = string
  /** Milliseconds on the monotonic clock. */
  type Time = real

  datatype Page = Page(isValid: bool, internalLinks: seq<Url>, externalLinks: seq<Url>)

  datatype FetchResult = Fetched(page: Page) | FetchError

  datatype Entry = Entry(url: Url, depth: nat, relevance: real)

  /** One identity (egress address, fingerprint, cookies) in use for a domain. */
  datatype Session = Session(createdAt: Time, requestCount: nat, consecutiveFailures: nat)

  datatype Policy = Policy(isAllowed: Url -> bool, crawlDelay: Option<Time>)

  datatype DomainState = DomainState(queue: seq<Entry>, seen: set<Url>, lastRequest: Option<Time>,
                                     backoffUntil: Option<Time>, successCount: nat, failureCount: nat,
                                     session: Option<Session>, policy: Option<Policy>)

  type Domains = map<Domain, DomainState>

  const BLANK := DomainState([], {}, None, None, 0, 0, None, None)

  /** The entry for a domain, created on first use. */
  function StateOf(domains: Domains, domain: Domain): DomainState
  {
    if domain in domains then domains[domain] else BLANK
  }

  function QueuedUrls(queue: seq<Entry>): seq<Url>
  {
    seq(|queue|, i requires 0 <= i < |queue| => queue[i].url)
  }

  /** url waits in some queue. */
  ghost predicate IsQueued(domains: Domains, url: Url)
  {
    exists d :: d in domains && url in QueuedUrls(domains[d].queue)
  }

  // ----- enqueue and dequeue

  predicate Allowed(domains: Domains, domain: Domain, url: Url)
  {
    StateOf(domains, domain).policy.Some? ==> StateOf(domains, domain).policy.value.isAllowed(url)
  }

  /** The URL is admitted: allowed by robots.txt, not seen before, and the domain's budget is not used up. */
  predicate Accepts(domains: Domains, domain: Domain, url: Url, maxPages: nat)
  {
    && Allowed(domains, domain, url)
    && url !in StateOf(domains, domain).seen
    && |StateOf(domains, domain).seen| < maxPages
  }

  function Enqueue(domains: Domains, domain: Domain, e: Entry, maxPages: nat): Domains
  {
    if !Allowed(domains, domain, e.url) then domains
    else
      var d := StateOf(domains, domain);
      domains[domain := if Accepts(domains, domain, e.url, maxPages) then d.(queue := d.queue + [e], seen := d.seen + {e.url})
                        else d]
  }

  function RemoveFirst(queue: seq<Entry>, url: Url): seq<Entry>
  {
    if queue == [] then []
    else if queue[0].url == url then queue[1..]
    else [queue[0]] + RemoveFirst(queue[1..], url)
  }

  /** Removes url from the queue of the given domain; nothing happens when it is not there. */
  function Dequeue(domains: Domains, domain: Domain, url: Url): Domains
  {
    if domain in domains then
      domains[domain := domains[domain].(queue := RemoveFirst(domains[domain].queue, url))]
    else domains
  }

  lemma DistinctCons<T>(x: T, s: seq<T>)
    ensures Distinct([x] + s) <==> x !in s && Distinct(s)
  {
    var t := [x] + s;
    assert forall i | 0 <= i < |s| :: t[i + 1] == s[i];
    if x in s {
      var i :| 0 <= i < |s| && s[i] == x;
      assert t[0] == t[i + 1];
    }
    if Distinct(t) {
      forall i, j | 0 <= i < j < |s|
        ensures s[i] != s[j]
      {
        assert t[i + 1] != t[j + 1];
      }
    }
  }

  lemma {:induction false} RemoveFirstFrom(queue: seq<Entry>, url: Url)
    requires Distinct(QueuedUrls(queue))
    ensures var r := RemoveFirst(queue, url);
            && Distinct(QueuedUrls(r))
            && (forall u :: u in QueuedUrls(r) <==> u in QueuedUrls(queue) && u != url)
            && |r| == |queue| - if url in QueuedUrls(queue) then 1 else 0
  {
    hide Distinct;
    if queue == [] {
      assert QueuedUrls(queue) == [];
    } else {
      var first, rest := queue[0], queue[1..];
      assert QueuedUrls(queue) == [first.url] + QueuedUrls(rest);
      DistinctCons(first.url, QueuedUrls(rest));
      if first.url != url {
        RemoveFirstFrom(rest, url);
        assert QueuedUrls(RemoveFirst(queue, url)) == [first.url] + QueuedUrls(RemoveFirst(rest, url));
        DistinctCons(first.url, QueuedUrls(RemoveFirst(rest, url)));
      }
    }
  }

  // ----- the invariant of the queues

  ghost predicate DomainOk(d: DomainState, maxPages: nat)
  {
    && |d.seen| <= maxPages
    && Distinct(QueuedUrls(d.queue))
    && (forall u | u in QueuedUrls(d.queue) :: u in d.seen)
  }

  /** Within every domain: the seen set respects the budget, and the queue
      holds seen URLs, each once. */
  ghost predicate QueuesOk(domains: Domains, maxPages: nat)
  {
    forall d | d in domains :: DomainOk(domains[d], maxPages)
  }

  /** Every URL is taken up under its own domain. */
  ghost predicate OwnDomain(domains: Domains, domainOf: Url -> Domain)
  {
    forall d, u | d in domains && u in domains[d].seen :: domainOf(u) == d
  }

  lemma EnqueueDomainOk(d: DomainState, e: Entry, maxPages: nat)
    requires DomainOk(d, maxPages) && e.url !in d.seen && |d.seen| < maxPages
    ensures DomainOk(d.(queue := d.queue + [e], seen := d.seen + {e.url}), maxPages)
    ensures QueuedUrls(d.queue + [e]) == QueuedUrls(d.queue) + [e.url]
  {
    assert QueuedUrls(d.queue + [e]) == QueuedUrls(d.queue) + [e.url];
  }

  lemma EnqueueKeeps(domains: Domains, domain: Domain, e: Entry, maxPages: nat, domainOf: Url -> Domain)
    requires QueuesOk(domains, maxPages)
    ensures QueuesOk(Enqueue(domains, domain, e, maxPages), maxPages)
    ensures OwnDomain(domains, domainOf) && domainOf(e.url) == domain
        ==> OwnDomain(Enqueue(domains, domain, e, maxPages), domainOf)
  {
    assert DomainOk(BLANK, maxPages);
    if Accepts(domains, domain, e.url, maxPages) {
      EnqueueDomainOk(StateOf(domains, domain), e, maxPages);
    }
  }

  lemma DequeueKeeps(domains: Domains, domain: Domain, url: Url, maxPages: nat, domainOf: Url -> Domain)
    requires QueuesOk(domains, maxPages)
    ensures QueuesOk(Dequeue(domains, domain, url), maxPages)
    ensures OwnDomain(domains, domainOf) ==> OwnDomain(Dequeue(domains, domain, url), domainOf)
  {
    if domain in domains {
      RemoveFirstFrom(domains[domain].queue, url);
    }
  }

  /** The loop picks a URL from any queue but removes it from the queue of the
      URL's own domain. It is gone from all queues exactly when no other domain
      queues it: an entry filed under a foreign domain stays and is picked again. */
  lemma DequeueRemovesIff(domains: Domains, url: Url, maxPages: nat, domainOf: Url -> Domain)
    requires QueuesOk(domains, maxPages)
    ensures !IsQueued(Dequeue(domains, domainOf(url), url), url)
       <==> forall d | d in domains && d != domainOf(url) :: url !in QueuedUrls(domains[d].queue)
  {
    var own := domainOf(url);
    var after := Dequeue(domains, own, url);
    if own in domains {
      RemoveFirstFrom(domains[own].queue, url);
    }
    forall d | d in domains && d != own
      ensures d in after && after[d] == domains[d]
    {
    }
  }

  // ----- backoff

  function PowerOfTwo(n: nat): nat
  {
    if n == 0 then 1 else 2 * PowerOfTwo(n - 1)
  }

  /** Length of a backoff in seconds: two to the number of excess failures, at most sixty. */
  function BackoffSeconds(failures: nat, successes: nat): nat
  {
    var excess := if failures > successes then failures - successes else 0;
    var power := PowerOfTwo(if excess < 6 then excess else 6);
    if power < 60 then power else 60
  }

  lemma BackoffBounds(failures: nat, successes: nat)
    ensures 1 <= BackoffSeconds(failures, successes) <= 60
    ensures BackoffSeconds(failures, successes) <= BackoffSeconds(failures + 1, successes)
    ensures BackoffSeconds(failures, successes) == 60 <==> failures >= successes + 6
    ensures failures <= successes ==> BackoffSeconds(failures, successes) == 1
    ensures successes <= failures < successes + 5 ==> BackoffSeconds(failures + 1, successes) == 2 * BackoffSeconds(failures, successes)
  {
    assert PowerOfTwo(6) == 64 && PowerOfTwo(5) == 32 && PowerOfTwo(4) == 16 && PowerOfTwo(3) == 8 by {
      assert PowerOfTwo(2) == 4;
    }
  }

  // ----- the log of requests

  /** One request of the crawler, for an entry at some depth. asked: the clock
      when the wait for it began; at: when it was sent; answered: when its answer
      was counted; crawlDelay: what the robots policy in force asked for; known:
      the store had the URL as crawled when the request was sent; shallow: some
      entry waited then that was not below the minimum depth; under: the session
      that served the request, as it was before. */
  datatype Request = Request(url: Url, domain: Domain, depth: nat, asked: Time, at: Time, answered: Time,
                             crawlDelay: Option<Time>, known: bool, shallow: bool, under: Session, answer: FetchResult)

  /** The pages that came back, in order. */
  function PagesOf(requests: seq<Request>): seq<Page>
  {
    if requests == [] then []
    else
      var last := requests[|requests| - 1].answer;
      PagesOf(requests[..|requests| - 1]) + if last.Fetched? then [last.page] else []
  }

  predicate Succeeded(answer: FetchResult)
  {
    answer.Fetched? && answer.page.isValid
  }

  /** The time of the latest request to a domain. */
  function LastTo(requests: seq<Request>, domain: Domain): Option<Time>
  {
    if requests == [] then None
    else if requests[|requests| - 1].domain == domain then Some(requests[|requests| - 1].at)
    else LastTo(requests[..|requests| - 1], domain)
  }

  /** The session of the latest request to a domain, as that request left it: one
      request older, and one failure longer in a row unless the answer was good. */
  function LastUnder(requests: seq<Request>, domain: Domain): Option<Session>
  {
    if requests == [] then None
    else
      var r := requests[|requests| - 1];
      if r.domain != domain then LastUnder(requests[..|requests| - 1], domain)
      else Some(Session(r.under.createdAt, r.under.requestCount + 1,
                        if Succeeded(r.answer) then 0 else r.under.consecutiveFailures + 1))
  }

  predicate IsUnused(s: Session)
  {
    s.requestCount == 0 && s.consecutiveFailures == 0
  }

  /** The i-th request was served by a fresh session, or by that of the domain's
      request before it; and the session was within its quota, not too old and had
      fewer than three failures in a row. */
  ghost predicate IsServed(requests: seq<Request>, i: nat, quota: nat, maxAge: Time)
    requires i < |requests|
  {
    var r := requests[i];
    && (r.under.requestCount == r.under.consecutiveFailures == 0 || LastUnder(requests[..i], r.domain) == Some(r.under))
    && r.under.requestCount < quota && r.under.consecutiveFailures < 3 && r.asked - r.under.createdAt < maxAge
  }

  ghost predicate Served(requests: seq<Request>, quota: nat, maxAge: Time)
  {
    forall i: nat | i < |requests| :: IsServed(requests, i, quota, maxAge)
  }

  lemma ServedMore(requests: seq<Request>, r: Request, quota: nat, maxAge: Time)
    requires Served(requests, quota, maxAge)
    requires IsUnused(r.under) || LastUnder(requests, r.domain) == Some(r.under)
    requires r.under.requestCount < quota && r.under.consecutiveFailures < 3 && r.asked - r.under.createdAt < maxAge
    ensures Served(requests + [r], quota, maxAge)
  {
    var log := requests + [r];
    forall i: nat | i < |log|
      ensures IsServed(log, i, quota, maxAge)
    {
      if i < |requests| {
        assert IsServed(requests, i, quota, maxAge);
        assert log[..i] == requests[..i];
      } else {
        assert log[..i] == requests;
      }
    }
  }

  /** How many answers of a domain were valid pages, or were not. */
  function Answers(requests: seq<Request>, domain: Domain, good: bool): nat
  {
    if requests == [] then 0
    else
      var r := requests[|requests| - 1];
      Answers(requests[..|requests| - 1], domain, good) + if r.domain == domain && Succeeded(r.answer) == good then 1 else 0
  }

  /** The end of the backoff that a failed or invalid answer of a domain entered
      when it was counted, at a moment and after these earlier requests. */
  function BackoffFrom(before: seq<Request>, domain: Domain, answered: Time): Time
  {
    answered + 1000.0 * BackoffSeconds(Answers(before, domain, false) + 1, Answers(before, domain, true)) as real
  }

  /** The backoff that the log leaves a domain with: that of its latest failed or
      invalid answer, unless the crawl is a deep one. */
  function BackoffAfter(requests: seq<Request>, domain: Domain, deep: bool): Option<Time>
  {
    if requests == [] then None
    else
      var before, r := requests[..|requests| - 1], requests[|requests| - 1];
      if r.domain == domain && !Succeeded(r.answer) && !deep then Some(BackoffFrom(before, domain, r.answered))
      else BackoffAfter(before, domain, deep)
  }

  /** The minimum spacing: the crawler's own, or the robots crawl-delay if that is longer. */
  function Spacing(floor: Time, crawlDelay: Option<Time>): Time
  {
    if crawlDelay.Some? && crawlDelay.value > floor then crawlDelay.value else floor
  }

  function DelayOf(policy: Option<Policy>): Option<Time>
  {
    if policy.Some? then policy.value.crawlDelay else None
  }

  /** A request may go out: the backoff that was pending when the wait began is
      over or, if none was, the last request lies at least the spacing back. */
  predicate SlotFree(last: Option<Time>, backoff: Option<Time>, spacing: Time, asked: Time, at: Time)
  {
    if backoff.Some? && asked < backoff.value then at >= backoff.value
    else last.Some? ==> at >= last.value + spacing
  }

  /** The i-th request went out when it might, by the log before it, and after
      the earlier answers were counted. */
  ghost predicate InItsSlot(requests: seq<Request>, i: nat, floor: Time, deep: bool)
    requires i < |requests|
  {
    var before, r := requests[..i], requests[i];
    && SlotFree(LastTo(before, r.domain), BackoffAfter(before, r.domain, deep), Spacing(floor, r.crawlDelay), r.asked, r.at)
    && r.asked <= r.at <= r.answered
    && (i > 0 ==> requests[i - 1].answered <= r.asked)
  }

  ghost predicate Paced(requests: seq<Request>, floor: Time, deep: bool)
  {
    forall i: nat | i < |requests| :: InItsSlot(requests, i, floor, deep)
  }

  /** A backoff in the log was entered by the latest failed or invalid answer of the domain. */
  lemma {:induction false} BackoffHasCause(requests: seq<Request>, domain: Domain, deep: bool) returns (k: nat)
    requires BackoffAfter(requests, domain, deep).Some?
    ensures !deep && k < |requests| && requests[k].domain == domain && !Succeeded(requests[k].answer)
    ensures BackoffAfter(requests, domain, deep) == Some(BackoffFrom(requests[..k], domain, requests[k].answered))
    ensures forall i | k < i < |requests| && requests[i].domain == domain :: Succeeded(requests[i].answer)
  {
    var n := |requests| - 1;
    var before, r := requests[..n], requests[n];
    if r.domain == domain && !Succeeded(r.answer) && !deep {
      k := n;
    } else {
      k := BackoffHasCause(before, domain, deep);
      assert before[..k] == requests[..k];
    }
  }

  /** Backoffs last one to sixty seconds. */
  lemma BackoffLasts(before: seq<Request>, domain: Domain, answered: Time)
    ensures answered + 1000.0 <= BackoffFrom(before, domain, answered) <= answered + 60000.0
  {
    BackoffBounds(Answers(before, domain, false) + 1, Answers(before, domain, true));
  }

  /** The later request waited for the end of the backoff that the k-th answer,
      a failed or invalid one of the same domain, had entered. */
  ghost predicate WaitedFor(requests: seq<Request>, k: nat, later: Request)
    requires k < |requests|
  {
    var until := BackoffFrom(requests[..k], later.domain, requests[k].answered);
    && requests[k].domain == later.domain && !Succeeded(requests[k].answer)
    && requests[k].answered + 1000.0 <= until <= requests[k].answered + 60000.0
    && later.asked < until <= later.at
  }

  lemma {:induction false} LastToIs(requests: seq<Request>, i: nat, domain: Domain)
    requires i < |requests| && requests[i].domain == domain
    requires forall k | i < k < |requests| :: requests[k].domain != domain
    ensures LastTo(requests, domain) == Some(requests[i].at)
  {
    if i < |requests| - 1 {
      LastToIs(requests[..|requests| - 1], i, domain);
    }
  }

  /** Two consecutive requests to one domain are at least the spacing apart, or
      the later one waited for the end of a backoff that an earlier failed or
      invalid answer of the domain had entered, one to sixty seconds long. */
  lemma ConsecutiveRequests(requests: seq<Request>, floor: Time, deep: bool, i: nat, j: nat)
    requires Paced(requests, floor, deep) && i < j < |requests|
    requires requests[i].domain == requests[j].domain
    requires forall k | i < k < j :: requests[k].domain != requests[j].domain
    ensures var later := requests[j];
            || later.at >= requests[i].at + Spacing(floor, later.crawlDelay)
            || (!deep && exists k: nat | k <= i :: WaitedFor(requests, k, later))
  {
    var before, later := requests[..j], requests[j];
    assert InItsSlot(requests, j, floor, deep);
    LastToIs(before, i, later.domain);
    var backoff := BackoffAfter(before, later.domain, deep);
    if backoff.Some? && later.asked < backoff.value {
      var k := BackoffHasCause(before, later.domain, deep);
      assert before[..k] == requests[..k] && requests[k] == before[k] && k <= i;
      BackoffLasts(requests[..k], later.domain, requests[k].answered);
      assert WaitedFor(requests, k, later);
    }
  }

  /** The spacing, and with it the robots crawl-delay, is kept whenever the
      request goes out if and only if no backoff is pending when the wait begins,
      or one that ends no earlier: a pending backoff replaces the spacing. */
  lemma SpacingKeptIff(last: Time, backoff: Option<Time>, spacing: Time, asked: Time)
    ensures (forall at | SlotFree(Some(last), backoff, spacing, asked, at) :: at >= last + spacing)
       <==> backoff.None? || backoff.value <= asked || backoff.value >= last + spacing
  {
    if backoff.Some? && asked < backoff.value {
      assert SlotFree(Some(last), backoff, spacing, asked, backoff.value);
    }
  }

  /** A crawl-delay of ten seconds and an answer that failed at once: the backoff
      of two seconds is over after two, and so is the wait. */
  lemma BackoffUndercutsCrawlDelay(floor: Time)
    requires floor <= 10000.0
    ensures var first := Request("https://a.org/", "a.org", 0, 0.0, 0.0, 0.0, Some(10000.0), false, true, Session(0.0, 0, 0), FetchError);
            var second := Request("https://a.org/x", "a.org", 1, 0.0, 2000.0, 2000.0, Some(10000.0), false, true,
                                  Session(0.0, 0, 0), FetchError);
            Paced([first, second], floor, false) && second.at < first.at + 10000.0
  {
    var first := Request("https://a.org/", "a.org", 0, 0.0, 0.0, 0.0, Some(10000.0), false, true, Session(0.0, 0, 0), FetchError);
    var second := Request("https://a.org/x", "a.org", 1, 0.0, 2000.0, 2000.0, Some(10000.0), false, true, Session(0.0, 0, 0), FetchError);
    var log := [first, second];
    assert log[..0] == [] && log[..1] == [first] && [first][..0] == [];
    assert BackoffSeconds(1, 0) == 2 by {
      assert PowerOfTwo(1) == 2;
    }
    assert BackoffAfter([first], "a.org", false) == Some(2000.0);
    assert InItsSlot(log, 0, floor, false) && InItsSlot(log, 1, floor, false);
  }

  /** No request was for a URL that the store had as crawled when it was sent. */
  ghost predicate NeverKnown(requests: seq<Request>)
  {
    forall i | 0 <= i < |requests| :: !requests[i].known
  }

  ghost predicate NoUrlTwice(requests: seq<Request>)
  {
    forall i, j | 0 <= i < j < |requests| :: requests[i].url != requests[j].url
  }

  /** Requested URLs are filed as seen under their own domain and wait nowhere. */
  ghost predicate RequestsOk(domains: Domains, requests: seq<Request>, domainOf: Url -> Domain)
  {
    && NoUrlTwice(requests)
    && (forall i | 0 <= i < |requests| ::
          var d := domainOf(requests[i].url);
          d in domains && requests[i].url in domains[d].seen && requests[i].url !in QueuedUrls(domains[d].queue))
  }

  /** What the domain states remember is what the log says: the latest request,
      the counters and the backoff; and all of it is in the past. */
  ghost predicate LogOk(domains: Domains, requests: seq<Request>, deep: bool, now: Time)
  {
    && (forall d | d in domains :: IsLogged(domains[d], requests, d, deep))
    && (forall i | 0 <= i < |requests| :: requests[i].domain in domains && requests[i].answered <= now)
  }

  lemma LogLater(domains: Domains, requests: seq<Request>, deep: bool, a: Time, b: Time)
    requires LogOk(domains, requests, deep, a) && a <= b
    ensures LogOk(domains, requests, deep, b)
  {
  }

  ghost predicate IsLogged(d: DomainState, requests: seq<Request>, domain: Domain, deep: bool)
  {
    && d.lastRequest == LastTo(requests, domain) && d.backoffUntil == BackoffAfter(requests, domain, deep)
    && d.failureCount == Answers(requests, domain, false) && d.successCount == Answers(requests, domain, true)
    && (d.session.Some? ==> IsUnused(d.session.value) || LastUnder(requests, domain) == d.session)
  }

  lemma {:induction false} NothingLogged(requests: seq<Request>, domain: Domain, deep: bool)
    requires forall i | 0 <= i < |requests| :: requests[i].domain != domain
    ensures IsLogged(BLANK, requests, domain, deep)
  {
    if requests != [] {
      NothingLogged(requests[..|requests| - 1], domain, deep);
    }
  }

  /** b differs from a in fresh sessions and policies only, and possibly in new blank domains. */
  ghost predicate SameQueues(a: Domains, b: Domains)
  {
    && a.Keys <= b.Keys
    && (forall d | d in b :: SameRecord(b[d], StateOf(a, d)))
  }

  predicate SameRecord(b: DomainState, a: DomainState)
  {
    && b.queue == a.queue && b.seen == a.seen && b.lastRequest == a.lastRequest && b.backoffUntil == a.backoffUntil
    && b.failureCount == a.failureCount && b.successCount == a.successCount
    && (b.session == a.session || (b.session.Some? && IsUnused(b.session.value)))
  }

  lemma SameQueuesKeeps(a: Domains, b: Domains, requests: seq<Request>, maxPages: nat, deep: bool, now: Time, domainOf: Url -> Domain)
    requires SameQueues(a, b)
    ensures QueuesOk(a, maxPages) ==> QueuesOk(b, maxPages)
    ensures OwnDomain(a, domainOf) ==> OwnDomain(b, domainOf)
    ensures RequestsOk(a, requests, domainOf) ==> RequestsOk(b, requests, domainOf)
    ensures LogOk(a, requests, deep, now) ==> LogOk(b, requests, deep, now)
    ensures Accounted(a, requests) ==> Accounted(b, requests)
    ensures (forall d :: StateOf(a, d).policy == StateOf(b, d).policy) ==> Later(a, b)
  {
    hide LastTo, LastUnder, BackoffAfter, Answers;
    assert DomainOk(BLANK, maxPages);
    if Accounted(a, requests) {
      SameQueuesKeepsAccount(a, b, requests);
    }
    if LogOk(a, requests, deep, now) {
      forall d | d in b
        ensures IsLogged(b[d], requests, d, deep)
      {
        if d !in a {
          NothingLogged(requests, d, deep);
        }
      }
    }
  }

  lemma EnqueueKeepsLog(domains: Domains, domain: Domain, e: Entry, maxPages: nat, requests: seq<Request>, deep: bool, now: Time,
                        domainOf: Url -> Domain)
    requires LogOk(domains, requests, deep, now)
    ensures LogOk(Enqueue(domains, domain, e, maxPages), requests, deep, now)
    ensures RequestsOk(domains, requests, domainOf) && domainOf(e.url) == domain
        ==> RequestsOk(Enqueue(domains, domain, e, maxPages), requests, domainOf)
  {
    hide LastTo, LastUnder, BackoffAfter, Answers;
    var d := StateOf(domains, domain);
    assert QueuedUrls(d.queue + [e]) == QueuedUrls(d.queue) + [e.url];
    if domain !in domains {
      NothingLogged(requests, domain, deep);
    }
  }

  lemma DequeueKeepsLog(domains: Domains, domain: Domain, url: Url, maxPages: nat, requests: seq<Request>, deep: bool, now: Time,
                        domainOf: Url -> Domain)
    requires QueuesOk(domains, maxPages)
    ensures LogOk(domains, requests, deep, now) ==> LogOk(Dequeue(domains, domain, url), requests, deep, now)
    ensures RequestsOk(domains, requests, domainOf) ==> RequestsOk(Dequeue(domains, domain, url), requests, domainOf)
  {
    hide LastTo, LastUnder, BackoffAfter, Answers;
    if domain in domains {
      RemoveFirstFrom(domains[domain].queue, url);
    }
  }

  /** The domain after a request sent at a moment and its answer: one more
      request for its session, one more success or failure, and after a failure
      the new backoff if there is one. */
  function AfterRequest(d: DomainState, at: Time, good: bool, until: Option<Time>): DomainState
  {
    var counted := match d.session
      case None => None
      case Some(s) =>
        Some(s.(requestCount := s.requestCount + 1, consecutiveFailures := if good then 0 else s.consecutiveFailures + 1));
    var stamped := d.(lastRequest := Some(at), session := counted);
    if good then stamped.(successCount := d.successCount + 1)
    else stamped.(failureCount := d.failureCount + 1, backoffUntil := if until.Some? then until else d.backoffUntil)
  }

  lemma LogSnoc(requests: seq<Request>, r: Request, domain: Domain, deep: bool)
    ensures LastTo(requests + [r], domain) == if r.domain == domain then Some(r.at) else LastTo(requests, domain)
    ensures forall good :: Answers(requests + [r], domain, good)
                        == Answers(requests, domain, good) + if r.domain == domain && Succeeded(r.answer) == good then 1 else 0
    ensures BackoffAfter(requests + [r], domain, deep)
         == if r.domain == domain && !Succeeded(r.answer) && !deep then Some(BackoffFrom(requests, domain, r.answered))
            else BackoffAfter(requests, domain, deep)
    ensures LastUnder(requests + [r], domain)
         == if r.domain == domain then Some(Session(r.under.createdAt, r.under.requestCount + 1,
                                                    if Succeeded(r.answer) then 0 else r.under.consecutiveFailures + 1))
            else LastUnder(requests, domain)
  {
    assert (requests + [r])[..|requests|] == requests;
  }

  /** A request in its slot, with what its answer does to the domain, keeps
      states and log in step and the log paced. */
  lemma RequestKeepsLog(domains: Domains, requests: seq<Request>, r: Request, until: Option<Time>, floor: Time, deep: bool)
    requires r.domain in domains && LogOk(domains, requests, deep, r.asked) && Paced(requests, floor, deep)
    requires r.asked <= r.at <= r.answered && domains[r.domain].session == Some(r.under)
    requires var d := domains[r.domain]; SlotFree(d.lastRequest, d.backoffUntil, Spacing(floor, r.crawlDelay), r.asked, r.at)
    requires until == if Succeeded(r.answer) || deep then None else Some(BackoffFrom(requests, r.domain, r.answered))
    ensures var after := domains[r.domain := AfterRequest(domains[r.domain], r.at, Succeeded(r.answer), until)];
            LogOk(after, requests + [r], deep, r.answered)
    ensures Paced(requests + [r], floor, deep)
  {
    hide LastTo, LastUnder, BackoffAfter, Answers, BackoffFrom;
    var log := requests + [r];
    var after := domains[r.domain := AfterRequest(domains[r.domain], r.at, Succeeded(r.answer), until)];
    forall d | d in after
      ensures IsLogged(after[d], log, d, deep)
    {
      LogSnoc(requests, r, d, deep);
    }
    forall i: nat | i < |log|
      ensures InItsSlot(log, i, floor, deep)
    {
      if i < |requests| {
        assert InItsSlot(requests, i, floor, deep);
        assert log[..i] == requests[..i];
      } else {
        assert log[..i] == requests;
      }
    }
  }

  /** The URL of the new request was queued under its own domain and has just been removed. */
  lemma RequestKeeps(domains: Domains, requests: seq<Request>, r: Request, d: DomainState, maxPages: nat, domainOf: Url -> Domain)
    requires r.domain in domains && r.domain == domainOf(r.url)
    requires d.queue == domains[r.domain].queue && d.seen == domains[r.domain].seen
    ensures QueuesOk(domains, maxPages) ==> QueuesOk(domains[r.domain := d], maxPages)
    ensures OwnDomain(domains, domainOf) ==> OwnDomain(domains[r.domain := d], domainOf)
    ensures RequestsOk(domains, requests, domainOf) && r.url in domains[r.domain].seen
         && r.url !in QueuedUrls(domains[r.domain].queue) && (forall i | 0 <= i < |requests| :: requests[i].url != r.url)
        ==> RequestsOk(domains[r.domain := d], requests + [r], domainOf)
  {
  }

  // ----- no URL is lost

  ghost predicate Requested(requests: seq<Request>, url: Url)
  {
    exists i | 0 <= i < |requests| :: requests[i].url == url
  }

  /** How many requests were for URLs of a domain. */
  function RequestsTo(requests: seq<Request>, domain: Domain, domainOf: Url -> Domain): nat
  {
    if requests == [] then 0
    else
      RequestsTo(requests[..|requests| - 1], domain, domainOf) + if domainOf(requests[|requests| - 1].url) == domain then 1 else 0
  }

  /** Their URLs are that many of the URLs seen in the domain. */
  lemma {:induction false} RequestsAreSeen(requests: seq<Request>, domain: Domain, domainOf: Url -> Domain, seen: set<Url>)
    returns (urls: set<Url>)
    requires NoUrlTwice(requests)
    requires forall i | 0 <= i < |requests| && domainOf(requests[i].url) == domain :: requests[i].url in seen
    ensures urls <= seen && |urls| == RequestsTo(requests, domain, domainOf)
    ensures forall u | u in urls :: Requested(requests, u)
  {
    if requests == [] {
      urls := {};
    } else {
      var n := |requests| - 1;
      urls := RequestsAreSeen(requests[..n], domain, domainOf, seen);
      forall u | u in urls
        ensures Requested(requests, u) && u != requests[n].url
      {
        var i :| 0 <= i < n && requests[..n][i].url == u;
        assert requests[i].url == u;
      }
      if domainOf(requests[n].url) == domain {
        assert |urls + {requests[n].url}| == |urls| + 1;
        urls := urls + {requests[n].url};
      }
    }
  }

  /** The page budget of a domain bounds its requests, over all crawl calls. */
  lemma RequestsWithinBudget(domains: Domains, requests: seq<Request>, maxPages: nat, domainOf: Url -> Domain, domain: Domain)
    requires QueuesOk(domains, maxPages) && RequestsOk(domains, requests, domainOf)
    ensures RequestsTo(requests, domain, domainOf) <= |StateOf(domains, domain).seen| <= maxPages
  {
    var urls := RequestsAreSeen(requests, domain, domainOf, StateOf(domains, domain).seen);
    SubsetSize(urls, StateOf(domains, domain).seen);
    assert domain in domains ==> DomainOk(domains[domain], maxPages);
  }

  lemma {:induction false} AllToOneDomain(requests: seq<Request>, domain: Domain, domainOf: Url -> Domain)
    requires forall i | 0 <= i < |requests| :: domainOf(requests[i].url) == domain
    ensures |PagesOf(requests)| <= RequestsTo(requests, domain, domainOf) == |requests|
  {
    if requests != [] {
      AllToOneDomain(requests[..|requests| - 1], domain, domainOf);
    }
  }

  /** The page came back from some request. */
  ghost predicate WasFetched(requests: seq<Request>, url: Url)
  {
    exists i | 0 <= i < |requests| :: requests[i].url == url && requests[i].answer.Fetched?
  }

  /** Every URL taken up still waits or has been requested. */
  ghost predicate Accounted(domains: Domains, requests: seq<Request>)
  {
    forall d, u | d in domains && u in domains[d].seen :: u in QueuedUrls(domains[d].queue) || Requested(requests, u)
  }

  /** The store has a record of every URL taken up, as crawled only if this crawler fetched its page. */
  ghost predicate KnownOk(domains: Domains, crawled: map<Url, bool>, requests: seq<Request>)
  {
    forall d, u | d in domains && u in domains[d].seen :: u in crawled && (crawled[u] ==> WasFetched(requests, u))
  }

  /** b has seen nothing that a had not, and nothing waits in it that did not in a. */
  ghost predicate AddsNothing(a: Domains, b: Domains)
  {
    && (forall d | d in b :: b[d].seen <= StateOf(a, d).seen)
    && (forall d, e | d in b && e in b[d].queue :: e in StateOf(a, d).queue)
  }

  lemma {:induction false} RemoveFirstKeeps(queue: seq<Entry>, url: Url)
    ensures forall e | e in RemoveFirst(queue, url) :: e in queue
  {
    if queue != [] {
      RemoveFirstKeeps(queue[1..], url);
    }
  }

  lemma DequeueAddsNothing(domains: Domains, domain: Domain, url: Url)
    ensures AddsNothing(domains, Dequeue(domains, domain, url))
  {
    if domain in domains {
      RemoveFirstKeeps(domains[domain].queue, url);
    }
  }

  /** Enqueueing adds the entry given, to the queue of the domain given, and no other. */
  lemma EnqueueAdds(domains: Domains, domain: Domain, e: Entry, maxPages: nat)
    ensures var b := Enqueue(domains, domain, e, maxPages);
            forall d, x | d in b && x in b[d].queue :: x in StateOf(domains, d).queue || (d == domain && x == e)
  {
  }

  lemma KnownStays(a: Domains, b: Domains, crawled: map<Url, bool>, requests: seq<Request>, requests': seq<Request>)
    requires KnownOk(a, crawled, requests) && AddsNothing(a, b) && requests <= requests'
    ensures KnownOk(b, crawled, requests')
  {
    forall u | WasFetched(requests, u)
      ensures WasFetched(requests', u)
    {
      var i :| 0 <= i < |requests| && requests[i].url == u && requests[i].answer.Fetched?;
      assert requests'[i] == requests[i];
    }
    forall d, u | d in b && u in b[d].seen
      ensures u in crawled && (crawled[u] ==> WasFetched(requests', u))
    {
      assert d in a && u in a[d].seen;
    }
  }

  lemma SameQueuesKeepsKnown(a: Domains, b: Domains, crawled: map<Url, bool>, requests: seq<Request>)
    requires SameQueues(a, b) && KnownOk(a, crawled, requests)
    ensures KnownOk(b, crawled, requests)
  {
    assert forall d | d in b :: SameRecord(b[d], StateOf(a, d));
    KnownStays(a, b, crawled, requests, requests);
  }

  /** Recording a URL anew, or marking a fetched one. */
  lemma MarkKeepsKnown(domains: Domains, crawled: map<Url, bool>, requests: seq<Request>, url: Url, flag: bool)
    requires KnownOk(domains, crawled, requests) && (flag ==> WasFetched(requests, url))
    ensures KnownOk(domains, crawled[url := flag], requests)
  {
  }

  /** A URL that is taken up has just been recorded, as not crawled. */
  lemma EnqueueKeepsKnown(domains: Domains, domain: Domain, e: Entry, maxPages: nat, crawled: map<Url, bool>, requests: seq<Request>)
    requires KnownOk(domains, crawled, requests)
    requires Accepts(domains, domain, e.url, maxPages) ==> e.url in crawled && !crawled[e.url]
    ensures KnownOk(Enqueue(domains, domain, e, maxPages), crawled, requests)
  {
  }

  lemma SameQueuesKeepsAccount(a: Domains, b: Domains, requests: seq<Request>)
    requires SameQueues(a, b) && Accounted(a, requests)
    ensures Accounted(b, requests)
  {
  }

  lemma EnqueueKeepsAccount(domains: Domains, domain: Domain, e: Entry, maxPages: nat, requests: seq<Request>)
    requires Accounted(domains, requests)
    ensures Accounted(Enqueue(domains, domain, e, maxPages), requests)
  {
    var d := StateOf(domains, domain);
    assert QueuedUrls(d.queue + [e]) == QueuedUrls(d.queue) + [e.url];
  }

  /** Dropping an entry is accounted for once its URL has been requested. */
  lemma DequeueKeepsAccount(domains: Domains, domain: Domain, url: Url, maxPages: nat, requests: seq<Request>,
                            requests': seq<Request>)
    requires QueuesOk(domains, maxPages) && Accounted(domains, requests) && requests <= requests'
    requires Requested(requests', url)
    ensures Accounted(Dequeue(domains, domain, url), requests')
  {
    if domain in domains {
      RemoveFirstFrom(domains[domain].queue, url);
    }
    forall u | Requested(requests, u)
      ensures Requested(requests', u)
    {
      var i :| 0 <= i < |requests| && requests[i].url == u;
      assert requests'[i].url == u;
    }
  }

  lemma RecordKeepsAccount(domains: Domains, domain: Domain, d: DomainState, requests: seq<Request>)
    requires domain in domains && d.queue == domains[domain].queue && d.seen == domains[domain].seen
    requires Accounted(domains, requests)
    ensures Accounted(domains[domain := d], requests)
  {
  }

  /** b has seen url under some domain, and a had not. */
  ghost predicate IsNew(a: Domains, b: Domains, url: Url)
  {
    exists d :: d in b && url in b[d].seen && url !in StateOf(a, d).seen
  }

  lemma NewChain(a: Domains, b: Domains, c: Domains, url: Url)
    requires Later(a, b) && Later(b, c)
    ensures IsNew(a, c, url) <==> IsNew(a, b, url) || IsNew(b, c, url)
  {
    NewGrows(a, b, c, url);
  }

  lemma NewGrows(a: Domains, b: Domains, c: Domains, url: Url)
    requires Grown(a, b) && Grown(b, c)
    ensures IsNew(a, c, url) <==> IsNew(a, b, url) || IsNew(b, c, url)
  {
    if IsNew(a, b, url) {
      var d :| d in b && url in b[d].seen && url !in StateOf(a, d).seen;
      assert url in StateOf(c, d).seen;
    }
    if IsNew(b, c, url) {
      var d :| d in c && url in c[d].seen && url !in StateOf(b, d).seen;
      assert url !in StateOf(a, d).seen;
    }
  }

  lemma EnqueueIsNew(domains: Domains, domain: Domain, e: Entry, maxPages: nat, url: Url)
    ensures IsNew(domains, Enqueue(domains, domain, e, maxPages), url) <==> url == e.url && Accepts(domains, domain, url, maxPages)
  {
    var b := Enqueue(domains, domain, e, maxPages);
    if url == e.url && Accepts(domains, domain, url, maxPages) {
      assert domain in b && url in b[domain].seen;
    }
  }

  /** The URLs known as crawled after: those known before that were not newly seen. */
  ghost predicate Cleared(before: set<Url>, after: set<Url>, a: Domains, b: Domains)
  {
    forall u :: u in after <==> u in before && !IsNew(a, b, u)
  }

  lemma ClearedChain(x: set<Url>, y: set<Url>, z: set<Url>, a: Domains, b: Domains, c: Domains)
    requires Cleared(x, y, a, b) && Cleared(y, z, b, c) && Later(a, b) && Later(b, c)
    ensures Cleared(x, z, a, c)
  {
    forall u: Url
      ensures u in z <==> u in x && !IsNew(a, c, u)
    {
      NewChain(a, b, c, u);
    }
  }

  lemma AddsNothingChain(a: Domains, b: Domains, c: Domains, d: Domains)
    requires AddsNothing(a, b) && AddsNothing(b, c) && AddsNothing(c, d)
    ensures AddsNothing(a, d)
  {
  }

  /** A page came back from a request from the n-th on. */
  ghost predicate FetchedSince(requests: seq<Request>, n: nat, url: Url)
  {
    exists i | n <= i < |requests| :: requests[i].url == url && requests[i].answer.Fetched?
  }

  /** The URLs known as crawled after: those fetched since the n-th request, and
      those known before that were not newly seen. */
  ghost predicate Marked(before: set<Url>, after: set<Url>, a: Domains, b: Domains, requests: seq<Request>, n: nat)
  {
    forall u :: u in after <==> FetchedSince(requests, n, u) || (u in before && !IsNew(a, b, u))
  }

  lemma MarkedChain(x: set<Url>, y: set<Url>, z: set<Url>, a: Domains, b: Domains, c: Domains, requests: seq<Request>,
                    requests': seq<Request>, n: nat)
    requires Marked(x, y, a, b, requests, n) && Marked(y, z, b, c, requests', |requests|)
    requires Grown(a, b) && Grown(b, c) && n <= |requests| && requests <= requests'
    requires forall u | FetchedSince(requests, n, u) :: !IsNew(b, c, u)
    ensures Marked(x, z, a, c, requests', n)
  {
    hide Grown, IsNew;
    forall u: Url
      ensures u in z <==> FetchedSince(requests', n, u) || (u in x && !IsNew(a, c, u))
    {
      NewGrows(a, b, c, u);
      FetchedChain(requests, requests', n, u);
    }
  }

  lemma FetchedChain(requests: seq<Request>, requests': seq<Request>, n: nat, url: Url)
    requires n <= |requests| && requests <= requests'
    ensures FetchedSince(requests', n, url) <==> FetchedSince(requests, n, url) || FetchedSince(requests', |requests|, url)
  {
    if FetchedSince(requests, n, url) {
      var i :| n <= i < |requests| && requests[i].url == url && requests[i].answer.Fetched?;
      assert requests'[i] == requests[i];
    }
    if FetchedSince(requests', n, url) {
      var i :| n <= i < |requests'| && requests'[i].url == url && requests'[i].answer.Fetched?;
      assert i < |requests| ==> requests[i] == requests'[i];
    }
  }

  lemma NothingMarked(x: set<Url>, a: Domains, b: Domains, requests: seq<Request>, n: nat)
    requires AddsNothing(a, b) && forall i | n <= i < |requests| :: requests[i].answer.FetchError?
    ensures Marked(x, x, a, b, requests, n)
  {
  }

  lemma PageMarked(x: set<Url>, y: set<Url>, z: set<Url>, a: Domains, b: Domains, c: Domains, requests: seq<Request>, n: nat)
    requires AddsNothing(a, b) && Later(a, b) && Later(b, c) && Cleared(x, y, b, c)
    requires |requests| == n + 1 && requests[n].answer.Fetched? && z == y + {requests[n].url}
    ensures Marked(x, z, a, c, requests, n)
  {
    hide Later;
    forall u: Url
      ensures u in z <==> FetchedSince(requests, n, u) || (u in x && !IsNew(a, c, u))
    {
      NewChain(a, b, c, u);
      assert FetchedSince(requests, n, u) <==> u == requests[n].url;
    }
  }

  /** Taking up only URLs that are not known as crawled marks and clears nothing. */
  lemma UnknownMarked(x: set<Url>, a: Domains, b: Domains, requests: seq<Request>)
    requires forall u | IsNew(a, b, u) :: u !in x
    ensures Marked(x, x, a, b, requests, |requests|)
  {
  }

  /** Where URLs are taken up under their own domain, no requested one is taken up again. */
  lemma FetchedNotNew(a: Domains, b: Domains, requests: seq<Request>, n: nat, domainOf: Url -> Domain)
    requires RequestsOk(a, requests, domainOf) && OwnDomain(b, domainOf)
    ensures forall u | FetchedSince(requests, n, u) :: !IsNew(a, b, u)
  {
  }

  lemma NothingCleared(x: set<Url>, a: Domains)
    ensures Cleared(x, x, a, a)
  {
  }

  /** url is taken up under some domain. */
  ghost predicate IsSeen(domains: Domains, url: Url)
  {
    exists d :: d in domains && url in domains[d].seen
  }

  /** url was requested from the n-th request on. */
  ghost predicate RequestedSince(requests: seq<Request>, n: nat, url: Url)
  {
    exists i | n <= i < |requests| :: requests[i].url == url
  }

  lemma FirstRequest(requests: seq<Request>, n: nat, i: nat)
    requires NoUrlTwice(requests) && n <= i < |requests|
    ensures !Requested(requests[..n], requests[i].url)
  {
    forall j | 0 <= j < n
      ensures requests[..n][j].url != requests[i].url
    {
      assert requests[j].url != requests[i].url;
    }
  }

  lemma RequestedSplit(requests: seq<Request>, n: nat, url: Url)
    requires n <= |requests| && Requested(requests, url)
    ensures Requested(requests[..n], url) || RequestedSince(requests, n, url)
  {
    var i :| 0 <= i < |requests| && requests[i].url == url;
    if i < n {
      assert requests[..n][i].url == url;
    }
  }

  /** With empty queues, the requests since the n-th are for exactly the URLs that
      are taken up by now and were not requested earlier; whether the store had
      them as crawled makes no difference. */
  lemma RequestedIff(domains: Domains, requests: seq<Request>, n: nat, domainOf: Url -> Domain, url: Url)
    requires Accounted(domains, requests) && RequestsOk(domains, requests, domainOf) && n <= |requests|
    requires forall d | d in domains :: domains[d].queue == []
    ensures RequestedSince(requests, n, url) <==> IsSeen(domains, url) && !Requested(requests[..n], url)
  {
    if RequestedSince(requests, n, url) {
      var i :| n <= i < |requests| && requests[i].url == url;
      assert domainOf(url) in domains && url in domains[domainOf(url)].seen;
      FirstRequest(requests, n, i);
    }
    if IsSeen(domains, url) && !Requested(requests[..n], url) {
      var d :| d in domains && url in domains[d].seen;
      assert QueuedUrls(domains[d].queue) == [];
      assert Requested(requests, url);
      RequestedSplit(requests, n, url);
    }
  }

  /** A call that ends with empty queues requests no URL that the store had as
      crawled before it if and only if it takes none of them up. */
  lemma KnownAreSparedIff(domains0: Domains, domains: Domains, crawled0: map<Url, bool>, requests: seq<Request>, n: nat,
                          domainOf: Url -> Domain)
    requires n <= |requests| && KnownOk(domains0, crawled0, requests[..n]) && RequestsOk(domains0, requests[..n], domainOf)
    requires Accounted(domains, requests) && RequestsOk(domains, requests, domainOf) && OwnDomain(domains, domainOf)
    requires Grown(domains0, domains) && forall d | d in domains :: domains[d].queue == []
    ensures (forall u | u in crawled0 && crawled0[u] :: !RequestedSince(requests, n, u))
       <==> (forall u | u in crawled0 && crawled0[u] :: !IsNew(domains0, domains, u))
  {
    hide Accounted, KnownOk, RequestedSince, Grown;
    forall u | u in crawled0 && crawled0[u]
      ensures RequestedSince(requests, n, u) <==> IsNew(domains0, domains, u)
    {
      RequestedIff(domains, requests, n, domainOf, u);
      SeenSplit(domains0, domains, u);
      if IsSeen(domains0, u) {
        KnownIsRequested(domains0, crawled0, requests[..n], u);
      }
    }
  }

  lemma SeenSplit(a: Domains, b: Domains, url: Url)
    requires Grown(a, b)
    ensures IsSeen(b, url) <==> IsSeen(a, url) || IsNew(a, b, url)
  {
    if IsSeen(a, url) {
      var d :| d in a && url in a[d].seen;
      assert url in StateOf(b, d).seen;
    }
  }

  lemma KnownIsRequested(domains: Domains, crawled: map<Url, bool>, requests: seq<Request>, url: Url)
    requires KnownOk(domains, crawled, requests) && IsSeen(domains, url) && url in crawled && crawled[url]
    ensures Requested(requests, url)
  {
    assert WasFetched(requests, url);
  }

  /** The URL was dealt with: it is taken up, or robots.txt or the domain's budget keeps it out. */
  ghost predicate Taken(domains: Domains, domain: Domain, url: Url, maxPages: nat)
  {
    url in StateOf(domains, domain).seen || !Allowed(domains, domain, url) || |StateOf(domains, domain).seen| >= maxPages
  }

  /** b comes after a within one crawl call: more has been seen, all of it
      allowed by the robots policies, which are the same. */
  ghost predicate Later(a: Domains, b: Domains)
  {
    && Grown(a, b)
    && (forall d :: StateOf(a, d).policy == StateOf(b, d).policy)
    && NewAllowed(a, b)
  }

  ghost predicate Grown(a: Domains, b: Domains)
  {
    forall d :: StateOf(a, d).seen <= StateOf(b, d).seen
  }

  /** What b has seen and a had not is allowed by the robots policies that b holds. */
  ghost predicate NewAllowed(a: Domains, b: Domains)
  {
    forall d, u | d in b && u in b[d].seen && u !in StateOf(a, d).seen :: Allowed(b, d, u)
  }

  lemma LaterChain(a: Domains, b: Domains, c: Domains)
    requires Later(a, b) && Later(b, c)
    ensures Later(a, c)
  {
    NewAllowedLater(a, b, c);
  }

  lemma NewAllowedLater(a: Domains, b: Domains, c: Domains)
    requires NewAllowed(a, b) && Later(b, c)
    ensures NewAllowed(a, c) && (Grown(a, b) ==> Grown(a, c))
  {
    forall d, u | d in c && u in c[d].seen && u !in StateOf(a, d).seen
      ensures Allowed(c, d, u)
    {
      assert StateOf(b, d).policy == StateOf(c, d).policy;
      if u in StateOf(b, d).seen {
        assert Allowed(b, d, u);
      }
    }
  }

  lemma TakenStays(a: Domains, b: Domains, domain: Domain, url: Url, maxPages: nat)
    requires Later(a, b) && Taken(a, domain, url, maxPages)
    ensures Taken(b, domain, url, maxPages)
  {
    SubsetSize(StateOf(a, domain).seen, StateOf(b, domain).seen);
  }

  lemma EnqueueTakes(domains: Domains, domain: Domain, e: Entry, maxPages: nat)
    ensures var after := Enqueue(domains, domain, e, maxPages);
            Taken(after, domain, e.url, maxPages) && Later(domains, after)
  {
  }

  lemma DequeueIsLater(domains: Domains, domain: Domain, url: Url)
    ensures Later(domains, Dequeue(domains, domain, url))
  {
  }

  // ----- the termination measure: unused budget first, then queue length

  ghost function MapSum(m: map<Domain, nat>): nat
  {
    if m == map[] then 0 else
      var k :| k in m;
      m[k] + MapSum(m - {k})
  }

  lemma {:induction false} MapSumExtract(m: map<Domain, nat>, k: Domain)
    requires k in m
    ensures MapSum(m) == m[k] + MapSum(m - {k})
    decreases |m|
  {
    var j :| j in m && MapSum(m) == m[j] + MapSum(m - {j});
    if j != k {
      MapSumExtract(m - {j}, k);
      MapSumExtract(m - {k}, j);
      assert m - {j} - {k} == m - {k} - {j};
    }
  }

  lemma MapSumUpdate(m: map<Domain, nat>, k: Domain, v: nat)
    requires k in m
    ensures MapSum(m[k := v]) == MapSum(m) - m[k] + v
  {
    MapSumExtract(m, k);
    MapSumExtract(m[k := v], k);
    assert m[k := v] - {k} == m - {k};
  }

  function Unused(d: DomainState, maxPages: nat): nat
  {
    if |d.seen| <= maxPages then maxPages - |d.seen| else 0
  }

  /** How many more URLs the known domains can admit. */
  ghost function Capacity(domains: Domains, maxPages: nat): nat
  {
    MapSum(map d | d in domains :: Unused(domains[d], maxPages))
  }

  /** How many entries wait in all queues. */
  ghost function Waiting(domains: Domains): nat
  {
    MapSum(map d | d in domains :: |domains[d].queue|)
  }

  lemma UpdateMeasures(domains: Domains, domain: Domain, d: DomainState, maxPages: nat)
    requires domain in domains
    ensures Capacity(domains[domain := d], maxPages)
         == Capacity(domains, maxPages) - Unused(domains[domain], maxPages) + Unused(d, maxPages)
    ensures Waiting(domains[domain := d]) == Waiting(domains) - |domains[domain].queue| + |d.queue|
  {
    var b := domains[domain := d];
    MapSumUpdate(map x | x in domains :: Unused(domains[x], maxPages), domain, Unused(d, maxPages));
    assert (map x | x in b :: Unused(b[x], maxPages))
        == (map x | x in domains :: Unused(domains[x], maxPages))[domain := Unused(d, maxPages)];
    MapSumUpdate(map x | x in domains :: |domains[x].queue|, domain, |d.queue|);
    assert (map x | x in b :: |b[x].queue|) == (map x | x in domains :: |domains[x].queue|)[domain := |d.queue|];
  }

  lemma EnqueueMeasures(domains: Domains, domain: Domain, e: Entry, maxPages: nat)
    requires domain in domains
    ensures var b := Enqueue(domains, domain, e, maxPages);
            && b.Keys == domains.Keys
            && (Capacity(b, maxPages) < Capacity(domains, maxPages)
                || (Capacity(b, maxPages) == Capacity(domains, maxPages) && Waiting(b) == Waiting(domains)))
  {
    hide Capacity, Waiting;
    var d := domains[domain];
    UpdateMeasures(domains, domain, if Accepts(domains, domain, e.url, maxPages) then
                                      d.(queue := d.queue + [e], seen := d.seen + {e.url}) else d, maxPages);
  }

  lemma DequeueMeasures(domains: Domains, domain: Domain, url: Url, maxPages: nat)
    requires QueuesOk(domains, maxPages) && domain in domains && url in QueuedUrls(domains[domain].queue)
    ensures var b := Dequeue(domains, domain, url);
            && b.Keys == domains.Keys
            && Capacity(b, maxPages) == Capacity(domains, maxPages) && Waiting(b) < Waiting(domains)
  {
    hide Capacity, Waiting;
    RemoveFirstFrom(domains[domain].queue, url);
    UpdateMeasures(domains, domain, domains[domain].(queue := RemoveFirst(domains[domain].queue, url)), maxPages);
  }

  lemma SameQueuesMeasures(a: Domains, b: Domains, maxPages: nat)
    requires SameQueues(a, b) && a.Keys == b.Keys
    ensures Capacity(b, maxPages) == Capacity(a, maxPages) && Waiting(b) == Waiting(a)
  {
    assert (map d | d in a :: Unused(a[d], maxPages)) == (map d | d in b :: Unused(b[d], maxPages));
    assert (map d | d in a :: |a[d].queue|) == (map d | d in b :: |b[d].queue|);
  }
}
