/** The proxy pool: health of an endpoint over a run of reports, and selection. */
module ProxyPool {
  import opened Wrappers
  import opened Sums
  import opened Division

  datatype ProxyType = Datacenter | Residential | Isp | Mobile

  /** Times are in milliseconds. */
  datatype ProxyHealth = ProxyHealth(lastSuccess: Option<int>, latencyMs: Option<nat>, consecutiveFailures: nat,
                                     totalRequests: nat, totalFailures: nat, banned: bool, cooldownUntil: Option<int>)

  datatype ProxyEndpoint = ProxyEndpoint(id: string, url: string, proxyType: ProxyType, health: ProxyHealth)

  datatype RotationStrategy = Random | RoundRobin | Weighted | Sticky

  const NEW_HEALTH := ProxyHealth(None, None, 0, 0, 0, false, None)
  const MAX_FAILURES: nat := 3
  const COOLDOWN_MS: int := 300_000
  const TWO_TO_THE_64: nat := 0x1_0000_0000_0000_0000

  // ----- health

  predicate IsAvailable(h: ProxyHealth, now: int)
  {
    !h.banned && !(h.cooldownUntil.Some? && h.cooldownUntil.value > now) && h.consecutiveFailures < 3
  }

  datatype Report = Failure(at: int) | Success(at: int, latencyMs: nat) | Banned

  function Apply(h: ProxyHealth, report: Report): ProxyHealth
  {
    match report
    case Failure(at) =>
      h.(consecutiveFailures := h.consecutiveFailures + 1, totalFailures := h.totalFailures + 1,
         cooldownUntil := if h.consecutiveFailures + 1 >= MAX_FAILURES then Some(at + COOLDOWN_MS) else h.cooldownUntil)
    case Success(at, latencyMs) =>
      h.(consecutiveFailures := 0, totalRequests := h.totalRequests + 1, lastSuccess := Some(at), latencyMs := Some(latencyMs))
    case Banned => h.(banned := true)
  }

  /** The health after a history of reports. */
  function Replay(history: seq<Report>): ProxyHealth
  {
    if history == [] then NEW_HEALTH else Apply(Replay(history[..|history| - 1]), history[|history| - 1])
  }

  /** The failures reported since the last success. */
  function TrailingFailures(history: seq<Report>): nat
  {
    if history == [] then 0
    else
      var before := TrailingFailures(history[..|history| - 1]);
      match history[|history| - 1]
      case Failure(_) => before + 1
      case Success(_, _) => 0
      case Banned => before
  }

  lemma {:induction false} ReplayCounts(history: seq<Report>)
    ensures Replay(history).consecutiveFailures == TrailingFailures(history)
    ensures Replay(history).banned <==> Banned in history
  {
    if history != [] {
      ReplayCounts(history[..|history| - 1]);
      assert history == history[..|history| - 1] + [history[|history| - 1]];
    }
  }

  /** Whether waiting alone can make an endpoint available again: exactly when it
      was never banned and had fewer than three failures since its last success.
      The end of a cooldown brings nothing back, as the failure count that started
      it is only cleared by a success. */
  lemma WaitingHelpsIff(history: seq<Report>)
    ensures (exists now :: IsAvailable(Replay(history), now)) <==> Banned !in history && TrailingFailures(history) < 3
  {
    ReplayCounts(history);
    var h := Replay(history);
    if !h.banned && h.consecutiveFailures < 3 {
      var later := if h.cooldownUntil.Some? then h.cooldownUntil.value else 0;
      assert IsAvailable(h, later);
    }
  }

  /** How many reports of a history are successes, or failures. */
  function Reported(history: seq<Report>, success: bool): nat
  {
    if history == [] then 0
    else
      Reported(history[..|history| - 1], success)
      + match history[|history| - 1]
        case Success(_, _) => if success then 1 else 0
        case Failure(_) => if success then 0 else 1
        case Banned => 0
  }

  /** The latest success: the k-th report, with no success after it. */
  ghost predicate IsLastSuccess(history: seq<Report>, k: nat)
  {
    k < |history| && history[k].Success? && forall j | k < j < |history| :: !history[j].Success?
  }

  /** The latest failure that was at least the third in a row: the k-th report. */
  ghost predicate IsLastThird(history: seq<Report>, k: nat)
  {
    k < |history| && IsThird(history, k) && forall j: nat | k < j < |history| :: !IsThird(history, j)
  }

  predicate IsThird(history: seq<Report>, k: nat)
    requires k < |history|
  {
    history[k].Failure? && TrailingFailures(history[..k + 1]) >= 3
  }

  lemma ThirdInFront(history: seq<Report>, k: nat)
    requires k < |history| - 1
    ensures IsThird(history, k) <==> IsThird(history[..|history| - 1], k)
  {
    assert history[..|history| - 1][..k + 1] == history[..k + 1];
  }

  /** What a history leaves behind: the totals of its reports, time and latency of
      the latest success, and the cooldown that the latest third failure in a row
      entered, five minutes long. A success does not end it. */
  lemma ReplayRemembers(history: seq<Report>)
    ensures var h := Replay(history);
            && h.totalRequests == Reported(history, true) && h.totalFailures == Reported(history, false)
            && (forall k: nat | IsLastSuccess(history, k) ::
                  h.lastSuccess == Some(history[k].at) && h.latencyMs == Some(history[k].latencyMs))
            && (Reported(history, true) == 0 ==> h.lastSuccess == None && h.latencyMs == None)
            && (forall k: nat | IsLastThird(history, k) :: h.cooldownUntil == Some(history[k].at + 300_000))
            && ((forall k: nat | k < |history| :: !IsThird(history, k)) ==> h.cooldownUntil == None)
  {
    hide Replay;
    ReplayTotals(history);
    forall k: nat | IsLastSuccess(history, k)
      ensures Replay(history).lastSuccess == Some(history[k].at) && Replay(history).latencyMs == Some(history[k].latencyMs)
    {
      SuccessStays(history, k);
    }
    forall k: nat | IsLastThird(history, k)
      ensures Replay(history).cooldownUntil == Some(history[k].at + 300_000)
    {
      CooldownStays(history, k);
    }
    if forall k: nat | k < |history| :: !IsThird(history, k) {
      NoCooldown(history);
    }
  }

  lemma {:induction false} ReplayTotals(history: seq<Report>)
    ensures var h := Replay(history);
            && h.totalRequests == Reported(history, true) && h.totalFailures == Reported(history, false)
            && (Reported(history, true) == 0 ==> h.lastSuccess == None && h.latencyMs == None)
  {
    if history != [] {
      ReplayTotals(history[..|history| - 1]);
    }
  }

  lemma {:induction false} SuccessStays(history: seq<Report>, k: nat)
    requires IsLastSuccess(history, k)
    ensures Replay(history).lastSuccess == Some(history[k].at) && Replay(history).latencyMs == Some(history[k].latencyMs)
  {
    var n := |history| - 1;
    if k < n {
      assert !history[n].Success?;
      SuccessStays(history[..n], k);
    }
  }

  lemma {:induction false} CooldownStays(history: seq<Report>, k: nat)
    requires IsLastThird(history, k)
    ensures Replay(history).cooldownUntil == Some(history[k].at + 300_000)
  {
    var n := |history| - 1;
    var front := history[..n];
    ReplayCounts(front);
    assert history[..n + 1] == history;
    if k < n {
      assert !IsThird(history, n);
      forall j: nat | j < n
        ensures IsThird(history, j) <==> IsThird(front, j)
      {
        ThirdInFront(history, j);
      }
      CooldownStays(front, k);
    }
  }

  lemma {:induction false} NoCooldown(history: seq<Report>)
    requires forall k: nat | k < |history| :: !IsThird(history, k)
    ensures Replay(history).cooldownUntil == None
  {
    if history != [] {
      var n := |history| - 1;
      ReplayCounts(history[..n]);
      assert history[..n + 1] == history && !IsThird(history, n);
      forall j: nat | j < n
        ensures !IsThird(history[..n], j)
      {
        ThirdInFront(history, j);
      }
      NoCooldown(history[..n]);
    }
  }

  /** When an endpoint is available: never banned, fewer than three failures since
      its last success, and no cooldown of the last third failure pending. */
  lemma AvailableIff(history: seq<Report>, now: int)
    ensures IsAvailable(Replay(history), now)
       <==> && Banned !in history && TrailingFailures(history) < 3
            && forall k: nat | IsLastThird(history, k) :: history[k].at + 300_000 <= now
  {
    ReplayCounts(history);
    ReplayRemembers(history);
    if exists k: nat :: k < |history| && IsThird(history, k) {
      var k: nat :| k < |history| && IsThird(history, k);
      var last := LastThird(history, |history|, k);
    }
  }

  lemma {:induction false} LastThird(history: seq<Report>, n: nat, k: nat) returns (last: nat)
    requires k < n <= |history| && IsThird(history, k)
    requires forall j: nat | n <= j < |history| :: !IsThird(history, j)
    ensures IsLastThird(history, last)
    decreases n
  {
    if IsThird(history, n - 1) {
      last := n - 1;
    } else {
      last := LastThird(history, n - 1, k);
    }
  }

  /** Three failures in a row put an endpoint into a cooldown that never ends by
      itself: at no later time is it available. */
  lemma CooldownNeverEnds(now: int)
    ensures Replay([Failure(0), Failure(1), Failure(2)]).cooldownUntil == Some(COOLDOWN_MS + 2)
    ensures !IsAvailable(Replay([Failure(0), Failure(1), Failure(2)]), now)
  {
    var one, two, three := [Failure(0)], [Failure(0), Failure(1)], [Failure(0), Failure(1), Failure(2)];
    assert one[..0] == [] && two[..1] == one && three[..2] == two;
  }

  // ----- scores

  function Base(t: ProxyType): real
  {
    match t
    case Residential => 1.0
    case Isp => 0.9
    case Mobile => 0.85
    case Datacenter => 0.6
  }

  function MinReal(a: real, b: real): real
  {
    if a <= b then a else b
  }

  function Score(e: ProxyEndpoint, now: int): (score: real)
    ensures IsAvailable(e.health, now) ==> 0.05 <= score <= 1.0
    ensures !IsAvailable(e.health, now) ==> score == 0.0
  {
    if !IsAvailable(e.health, now) then 0.0
    else
      var latencyPenalty := if e.health.latencyMs.Some? then MinReal(e.health.latencyMs.value as real / 1000.0, 0.5) else 0.0;
      var failurePenalty := MinReal(e.health.consecutiveFailures as real * 0.15, 0.5);
      var raw := Base(e.proxyType) - latencyPenalty - failurePenalty;
      if raw >= 0.05 then raw else 0.05
  }

  /** A healthy endpoint without a measured latency scores by its type. */
  lemma FreshScores(e: ProxyEndpoint, now: int)
    requires IsAvailable(e.health, now) && e.health.latencyMs == None && e.health.consecutiveFailures == 0
    ensures Score(e, now) == match e.proxyType
                             case Residential => 1.0
                             case Isp => 0.9
                             case Mobile => 0.85
                             case Datacenter => 0.6
  {
  }

  /** Residential endpoints are preferred to those of an ISP, these to mobile ones
      and these to datacenters, health being equal. */
  lemma TypesOrdered(e: ProxyEndpoint, now: int)
    requires IsAvailable(e.health, now)
    ensures var score := (t: ProxyType) => Score(e.(proxyType := t), now);
            && score(Residential) >= score(Isp) >= score(Mobile) >= score(Datacenter)
            && (score(Isp) > 0.05 ==> score(Residential) > score(Isp))
            && (score(Mobile) > 0.05 ==> score(Isp) > score(Mobile))
            && (score(Datacenter) > 0.05 ==> score(Mobile) > score(Datacenter))
  {
  }

  /** A slower endpoint never scores higher: each millisecond up to half a second
      costs a thousandth, down to the least score. */
  lemma SlowerScoresLess(e: ProxyEndpoint, now: int, slow: nat, slower: nat)
    requires IsAvailable(e.health, now) && slow <= slower
    ensures var score := (ms: nat) => Score(e.(health := e.health.(latencyMs := Some(ms))), now);
            && score(slower) <= score(slow)
            && (slower <= 500 && score(slower) > 0.05 ==> score(slow) - score(slower) == (slower - slow) as real / 1000.0)
            && (slow >= 500 ==> score(slower) == score(slow))
  {
  }

  /** Nor does one with more failures: each costs fifteen hundredths. */
  lemma FailuresScoreLess(e: ProxyEndpoint, now: int, few: nat, more: nat)
    requires few <= more < 3 && IsAvailable(e.health.(consecutiveFailures := 0), now)
    ensures var score := (n: nat) => Score(e.(health := e.health.(consecutiveFailures := n)), now);
            && score(more) <= score(few)
            && (score(more) > 0.05 ==> score(few) - score(more) == 0.15 * (more - few) as real)
  {
  }

  // ----- selection

  /** The available endpoints, in pool order. */
  function Available(endpoints: seq<ProxyEndpoint>, now: int): (r: seq<ProxyEndpoint>)
    ensures forall e :: e in r <==> e in endpoints && IsAvailable(e.health, now)
  {
    if endpoints == [] then []
    else
      var last := endpoints[|endpoints| - 1];
      Available(endpoints[..|endpoints| - 1], now) + if IsAvailable(last.health, now) then [last] else []
  }

  /** The scores of the first n endpoints together. */
  function Upto(endpoints: seq<ProxyEndpoint>, now: int, n: nat): real
    requires n <= |endpoints|
  {
    Sum(endpoints[..n], e => Score(e, now))
  }

  lemma UptoStep(endpoints: seq<ProxyEndpoint>, now: int, n: nat)
    requires n < |endpoints|
    ensures Upto(endpoints, now, n + 1) == Upto(endpoints, now, n) + Score(endpoints[n], now)
  {
    assert endpoints[..n + 1][..n] == endpoints[..n];
  }

  /** Endpoint i covers pick: the scores before it are below pick, with its own they are not. */
  ghost predicate Covers(endpoints: seq<ProxyEndpoint>, now: int, pick: real, i: int)
  {
    && 0 <= i < |endpoints|
    && (Upto(endpoints, now, i) < pick || (i == 0 && pick == 0.0))
    && pick <= Upto(endpoints, now, i + 1)
  }

  /** The part of the total that a draw from [0, 1) stands for. */
  function Share(draw: real, total: real): real
  {
    draw * total
  }

  ghost predicate Covered(endpoints: seq<ProxyEndpoint>, now: int, pick: real, e: ProxyEndpoint)
  {
    exists i :: Covers(endpoints, now, pick, i) && endpoints[i] == e
  }

  lemma {:induction false} UptoGrows(endpoints: seq<ProxyEndpoint>, now: int, i: nat, j: nat)
    requires i <= j <= |endpoints|
    ensures Upto(endpoints, now, i) <= Upto(endpoints, now, j)
  {
    if i < j {
      UptoGrows(endpoints, now, i, j - 1);
      UptoStep(endpoints, now, j - 1);
    }
  }

  /** The scores of available endpoints add up to something: the walk is always
      taken, and the fallback for a total of 0 never is. */
  lemma {:induction false} TotalPositive(available: seq<ProxyEndpoint>, now: int, n: nat)
    requires n <= |available| && forall e | e in available :: IsAvailable(e.health, now)
    ensures Upto(available, now, n) >= 0.05 * n as real
  {
    if n > 0 {
      TotalPositive(available, now, n - 1);
      UptoStep(available, now, n - 1);
      assert available[n - 1] in available;
    }
  }

  /** No pick is covered twice. */
  lemma CoverUnique(endpoints: seq<ProxyEndpoint>, now: int, pick: real, i: int, j: int)
    requires Covers(endpoints, now, pick, i) && Covers(endpoints, now, pick, j)
    requires forall e | e in endpoints :: IsAvailable(e.health, now)
    ensures i == j
  {
    if i < j {
      OnlyFirst(endpoints, now, pick, i, j);
    } else if j < i {
      OnlyFirst(endpoints, now, pick, j, i);
    }
  }

  /** The draws from (0, 1) that select an endpoint are an interval whose length
      is the endpoint's part of the total score: it is chosen in proportion. */
  lemma ChosenInProportion(endpoints: seq<ProxyEndpoint>, now: int, draw: real, total: real, i: nat)
    requires i < |endpoints| && 0.0 < draw < 1.0 && total == Upto(endpoints, now, |endpoints|) > 0.0
    ensures Covers(endpoints, now, Share(draw, total), i)
       <==> Upto(endpoints, now, i) / total < draw <= Upto(endpoints, now, i) / total + Score(endpoints[i], now) / total
  {
    hide Upto, Score;
    UptoStep(endpoints, now, i);
    ShareOrder(draw, total, Upto(endpoints, now, i), Score(endpoints[i], now));
  }

  lemma ShareOrder(draw: real, total: real, low: real, width: real)
    requires total > 0.0 && draw > 0.0
    ensures Share(draw, total) > 0.0
    ensures low < Share(draw, total) <= low + width <==> low / total < draw <= low / total + width / total
  {
    var a, b := low / total, width / total;
    assert a * total == low && b * total == width;
    Scaled(a, draw, total);
    Scaled(draw, a + b, total);
    Scaled(0.0, draw, total);
    assert (a + b) * total == low + width;
  }

  lemma Scaled(x: real, y: real, t: real)
    requires t > 0.0
    ensures x < y <==> x * t < y * t
  {
    assert (y - x) * t == y * t - x * t;
    if x < y {
      Positive(y - x, t);
    } else {
      ProductNonNegative(x - y, t);
      assert (x - y) * t == x * t - y * t;
    }
  }

  lemma Positive(x: real, y: real)
    requires x > 0.0 && y > 0.0
    ensures x * y > 0.0
  {
  }

  lemma OnlyFirst(endpoints: seq<ProxyEndpoint>, now: int, pick: real, i: nat, j: nat)
    requires i < j < |endpoints| && pick <= Upto(endpoints, now, i + 1)
    ensures !Covers(endpoints, now, pick, j)
  {
    UptoGrows(endpoints, now, i + 1, j);
  }

  class ProxyPool {
    var endpoints: seq<ProxyEndpoint>
    var strategy: RotationStrategy
    var roundRobinCounter: nat

    ghost predicate Valid()
      reads this
    {
      && (forall i, j | 0 <= i < j < |endpoints| :: endpoints[i].id != endpoints[j].id)
      && roundRobinCounter < TWO_TO_THE_64
    }

    constructor (strategy: RotationStrategy)
      ensures Valid() && endpoints == [] && this.strategy == strategy && roundRobinCounter == 0
    {
      endpoints, roundRobinCounter := [], 0;
      this.strategy := strategy;
    }

    /** The position of an id, if the pool has it. */
    method Position(id: string) returns (pos: Option<nat>)
      ensures pos.Some? ==> pos.value < |endpoints| && endpoints[pos.value].id == id
      ensures pos.None? ==> forall i | 0 <= i < |endpoints| :: endpoints[i].id != id
    {
      for i := 0 to |endpoints|
        invariant forall j | 0 <= j < i :: endpoints[j].id != id
      {
        if endpoints[i].id == id {
          return Some(i);
        }
      }
      return None;
    }

    /** An endpoint with a known id replaces the old one in its place, a new one goes to the end. */
    method Add(endpoint: ProxyEndpoint)
      requires Valid()
      modifies this`endpoints
      ensures Valid()
      ensures if forall i | 0 <= i < |old(endpoints)| :: old(endpoints)[i].id != endpoint.id then endpoints == old(endpoints) + [endpoint]
              else exists i | 0 <= i < |old(endpoints)| :: old(endpoints)[i].id == endpoint.id && endpoints == old(endpoints)[i := endpoint]
    {
      var pos := Position(endpoint.id);
      if pos.Some? {
        endpoints := endpoints[pos.value := endpoint];
      } else {
        endpoints := endpoints + [endpoint];
      }
    }

    /** A report reaches the endpoint with that id and nothing else; an unknown id is ignored. */
    method Record(id: string, report: Report)
      requires Valid()
      modifies this`endpoints
      ensures Valid() && |endpoints| == |old(endpoints)|
      ensures forall i | 0 <= i < |endpoints| ::
                endpoints[i] == if old(endpoints)[i].id == id
                                then old(endpoints)[i].(health := Apply(old(endpoints)[i].health, report))
                                else old(endpoints)[i]
    {
      var pos := Position(id);
      if pos.Some? {
        var e := endpoints[pos.value];
        endpoints := endpoints[pos.value := e.(health := Apply(e.health, report))];
      }
    }

    method FilterAvailable(now: int) returns (available: seq<ProxyEndpoint>)
      ensures available == Available(endpoints, now)
    {
      available := [];
      for i := 0 to |endpoints|
        invariant available == Available(endpoints[..i], now)
      {
        assert endpoints[..i + 1][..i] == endpoints[..i];
        if IsAvailable(endpoints[i].health, now) {
          available := available + [endpoints[i]];
        }
      }
      assert endpoints[..|endpoints|] == endpoints;
    }

    /** Only an available endpoint is selected, and one is whenever there is one.
        choice and draw are what the random generator gives, draw from [0, 1). */
    method Select(key: Option<string>, now: int, choice: nat, draw: real, hash: string -> nat)
      returns (selected: Option<ProxyEndpoint>)
      requires Valid() && 0.0 <= draw < 1.0
      modifies this`roundRobinCounter
      ensures Valid()
      ensures var available := Available(endpoints, now);
              && (selected.None? <==> available == [])
              && (selected.Some? ==>
                    match strategy
                    case Random => selected.value == available[choice % |available|]
                    case RoundRobin => selected.value == available[Slot(old(roundRobinCounter), |available|)]
                    case Sticky => selected.value == available[hash(if key.Some? then key.value else "default") % |available|]
                    case Weighted => Covered(available, now, Share(draw, Upto(available, now, |available|)), selected.value))
      ensures roundRobinCounter == if selected.Some? && strategy == RoundRobin then (old(roundRobinCounter) + 1) % TWO_TO_THE_64
                                   else old(roundRobinCounter)
    {
      hide Available, Covered, Upto, Share;
      var available := FilterAvailable(now);
      if available == [] {
        return None;
      }
      match strategy {
        case Random =>
          return Some(available[choice % |available|]);
        case RoundRobin =>
          var idx := Slot(roundRobinCounter, |available|);
          roundRobinCounter := (roundRobinCounter + 1) % TWO_TO_THE_64;
          return Some(available[idx]);
        case Weighted =>
          var total := TotalScore(available, now);
          TotalPositive(available, now, |available|);
          DrawBelowTotal(draw, total);
          var e := Walk(available, now, Share(draw, total));
          return Some(e);
        case Sticky =>
          return Some(available[hash(if key.Some? then key.value else "default") % |available|]);
      }
    }

    /** Consecutive selections, at any times at which the same endpoints are
        available: the turns are shared out evenly. Each endpoint gets its whole
        number of turns or one more, and exactly as many in whole rounds. */
    method SelectInTurn(times: seq<int>, ghost available: seq<ProxyEndpoint>, hash: string -> nat) returns (picked: seq<ProxyEndpoint>)
      requires Valid() && strategy == RoundRobin && available != []
      requires forall i | 0 <= i < |times| :: Available(endpoints, times[i]) == available
      requires roundRobinCounter + |times| <= TWO_TO_THE_64
      modifies this`roundRobinCounter
      ensures Valid() && |picked| == |times|
      ensures forall e | e in available ::
                && |times| / |available| <= Turns(picked, e) <= |times| / |available| + 1
                && (|times| % |available| == 0 ==> Turns(picked, e) == |times| / |available|)
    {
      hide InTurn, Available, Slot, Turns;
      ghost var c := roundRobinCounter;
      picked := [];
      NoTurn(available, c);
      for i := 0 to |times|
        invariant Valid() && |picked| == i
        invariant i < |times| ==> roundRobinCounter == c + i
        invariant InTurn(picked, available, c)
      {
        var e := SelectNext(times[i], available, hash);
        TurnTaken(picked, available, c, e);
        picked := picked + [e];
      }
      if times != [] {
        NoTwoAlike(endpoints, times[0]);
      }
      SharedOut(picked, available, c);
    }

    method SelectNext(now: int, ghost available: seq<ProxyEndpoint>, hash: string -> nat) returns (e: ProxyEndpoint)
      requires Valid() && strategy == RoundRobin && available != [] && Available(endpoints, now) == available
      modifies this`roundRobinCounter
      ensures Valid() && e == available[Slot(old(roundRobinCounter), |available|)]
      ensures roundRobinCounter == (old(roundRobinCounter) + 1) % TWO_TO_THE_64
    {
      hide Available, Slot;
      var selected := Select(None, now, 0, 0.0, hash);
      e := selected.value;
    }
  }

  method TotalScore(available: seq<ProxyEndpoint>, now: int) returns (total: real)
    ensures total == Upto(available, now, |available|) >= 0.0
  {
    total := 0.0;
    for i := 0 to |available|
      invariant total == Upto(available, now, i) >= 0.0
    {
      UptoStep(available, now, i);
      total := total + Score(available[i], now);
    }
  }

  lemma UptoNothing(endpoints: seq<ProxyEndpoint>, now: int)
    ensures Upto(endpoints, now, 0) == 0.0
  {
  }

  /** How often an endpoint is in a list of selections. */
  function Turns(picked: seq<ProxyEndpoint>, e: ProxyEndpoint): nat
  {
    if picked == [] then 0 else Turns(picked[..|picked| - 1], e) + if picked[|picked| - 1] == e then 1 else 0
  }

  /** The walk down the list, which takes the scores off the drawn amount. Its
      fallback to the first endpoint is never needed. */
  method Walk(available: seq<ProxyEndpoint>, now: int, drawn: real) returns (selected: ProxyEndpoint)
    requires available != [] && 0.0 <= drawn <= Upto(available, now, |available|)
    ensures Covered(available, now, drawn, selected)
  {
    hide Upto, Score;
    selected := available[0];
    var pick := drawn;
    UptoNothing(available, now);
    for i := 0 to |available|
      invariant pick == drawn - Upto(available, now, i)
      invariant if i == 0 then pick >= 0.0 else pick > 0.0
    {
      UptoStep(available, now, i);
      pick := pick - Score(available[i], now);
      if pick <= 0.0 {
        assert Covers(available, now, drawn, i);
        return available[i];
      }
    }
    assert false;
  }

  lemma DrawBelowTotal(draw: real, total: real)
    requires 0.0 <= draw < 1.0 && total >= 0.0
    ensures 0.0 <= Share(draw, total) <= total
  {
    ProductNonNegative(1.0 - draw, total);
    ProductNonNegative(draw, total);
  }

  // ----- round robin

  /** The place the counter points to when n endpoints are available. */
  function Slot(counter: nat, n: nat): (slot: nat)
    requires n > 0
    ensures slot < n
  {
    counter % n
  }

  lemma SlotNext(c: nat, n: nat)
    requires n > 0
    ensures Slot(c + 1, n) == if Slot(c, n) + 1 == n then 0 else Slot(c, n) + 1
  {
    AddOne(c, n);
  }

  /** How often place j is selected in m selections from counter c on, with n endpoints available throughout. */
  function Picks(c: nat, m: nat, n: nat, j: nat): nat
    requires n > 0
  {
    if m == 0 then 0 else Picks(c, m - 1, n, j) + if Slot(c + m - 1, n) == j then 1 else 0
  }

  lemma {:induction false} PicksSplit(c: nat, a: nat, b: nat, n: nat, j: nat)
    requires n > 0
    ensures Picks(c, a + b, n, j) == Picks(c, a, n, j) + Picks(c + a, b, n, j)
  {
    if b > 0 {
      PicksSplit(c, a, b - 1, n, j);
    }
  }

  /** How many selections pass before place j has its turn. */
  function Wait(c: nat, n: nat, j: nat): int
    requires n > 0
  {
    if j >= Slot(c, n) then j - Slot(c, n) else j - Slot(c, n) + n
  }

  lemma {:induction false} SlotAfter(c: nat, k: nat, n: nat)
    requires k < n
    ensures Slot(c + k, n) == if Slot(c, n) + k < n then Slot(c, n) + k else Slot(c, n) + k - n
  {
    hide Slot;
    if k > 0 {
      SlotAfter(c, k - 1, n);
      SlotNext(c + k - 1, n);
    }
  }

  /** In at most n selections place j has its turn once, when its wait is over. */
  lemma {:induction false} OneTurn(c: nat, m: nat, n: nat, j: nat)
    requires m <= n && j < n
    ensures Picks(c, m, n, j) == if Wait(c, n, j) < m then 1 else 0
  {
    hide Slot;
    if m > 0 {
      OneTurn(c, m - 1, n, j);
      SlotAfter(c, m - 1, n);
    }
  }

  /** As long as the same endpoints are available, any number of consecutive
      selections is shared out evenly: each gets its whole number of turns or one more. */
  lemma {:induction false} RoundRobinIsFair(c: nat, m: nat, n: nat, j: nat)
    requires j < n && c + m <= TWO_TO_THE_64
    ensures m / n <= Picks(c, m, n, j) <= m / n + 1
    ensures m % n == 0 ==> Picks(c, m, n, j) == m / n
    decreases m
  {
    hide Slot, Picks;
    if m < n {
      OneTurn(c, m, n, j);
      DivMod(0, m, n);
      NoPicks(c, n, j);
    } else {
      PicksSplit(c, n, m - n, n, j);
      OneTurn(c, n, n, j);
      RoundRobinIsFair(c + n, m - n, n, j);
      AddWhole(m - n, n);
    }
  }

  lemma NoPicks(c: nat, n: nat, j: nat)
    requires n > 0
    ensures Picks(c, 0, n, j) == 0
  {
  }

  /** Ids being distinct, no endpoint is available twice. */
  lemma {:induction false} NoTwoAlike(endpoints: seq<ProxyEndpoint>, now: int)
    requires forall i, j | 0 <= i < j < |endpoints| :: endpoints[i].id != endpoints[j].id
    ensures Distinct(Available(endpoints, now))
  {
    if endpoints != [] {
      var n := |endpoints| - 1;
      NoTwoAlike(endpoints[..n], now);
      assert endpoints[n] !in endpoints[..n];
    }
  }

  /** The selections are the places that the counter points to, one after the other. */
  ghost predicate InTurn(picked: seq<ProxyEndpoint>, available: seq<ProxyEndpoint>, c: nat)
    requires available != []
  {
    forall k: nat | k < |picked| :: picked[k] == available[Slot(c + k, |available|)]
  }

  lemma NoTurn(available: seq<ProxyEndpoint>, c: nat)
    requires available != []
    ensures InTurn([], available, c)
  {
  }

  lemma TurnTaken(picked: seq<ProxyEndpoint>, available: seq<ProxyEndpoint>, c: nat, e: ProxyEndpoint)
    requires available != [] && InTurn(picked, available, c) && e == available[Slot(c + |picked|, |available|)]
    ensures InTurn(picked + [e], available, c)
  {
    hide Slot;
  }

  lemma SharedOut(picked: seq<ProxyEndpoint>, available: seq<ProxyEndpoint>, c: nat)
    requires available != [] && InTurn(picked, available, c) && c + |picked| <= TWO_TO_THE_64
    requires picked != [] ==> Distinct(available)
    ensures forall e | e in available ::
              && |picked| / |available| <= Turns(picked, e) <= |picked| / |available| + 1
              && (|picked| % |available| == 0 ==> Turns(picked, e) == |picked| / |available|)
  {
    hide Picks;
    forall e | e in available
      ensures && |picked| / |available| <= Turns(picked, e) <= |picked| / |available| + 1
              && (|picked| % |available| == 0 ==> Turns(picked, e) == |picked| / |available|)
    {
      var j: nat :| j < |available| && available[j] == e;
      RoundRobinIsFair(c, |picked|, |available|, j);
      NoPicks(c, |available|, j);
      if picked != [] {
        TurnsArePicks(picked, available, c, |picked|, j);
      }
    }
  }

  lemma {:induction false} TurnsArePicks(picked: seq<ProxyEndpoint>, available: seq<ProxyEndpoint>, c: nat, m: nat, j: nat)
    requires Distinct(available) && j < |available| && |picked| == m
    requires forall k: nat | k < m :: picked[k] == available[Slot(c + k, |available|)]
    ensures Turns(picked, available[j]) == Picks(c, m, |available|, j)
    decreases m
  {
    hide Slot;
    if m > 0 {
      TurnsArePicks(picked[..m - 1], available, c, m - 1, j);
      assert picked[m - 1] == available[Slot(c + (m - 1), |available|)];
    }
  }
}
