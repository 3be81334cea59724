/** The on-disk PageRank cache as a protocol: any number of callers of
    get_or_compute and any number of graph writers, interleaved step by step. */
module PageRankCache {
  import opened CrawlGraph
  import opened PageRank
  import opened PageRankTheory
  import opened Wrappers

  // ----- what is recorded

  /** One call of record_url or record_link; ids tell repeated calls apart. */
  datatype Op = RecordUrl(id: nat, url: Url) | RecordLink(id: nat, edge: LinkEdge)

  ghost function UrlsOf(view: set<Op>): set<Url>
  {
    set op | op in view && op.RecordUrl? :: op.url
  }

  /** The recorded edges, in some order; PageRank does not depend on which. */
  ghost function LinksOf(view: set<Op>): seq<LinkEdge>
    decreases view
  {
    if exists op :: op in view && op.RecordLink? then
      var op :| op in view && op.RecordLink?;
      [op.edge] + LinksOf(view - {op})
    else []
  }

  /** The scores compute_pagerank returns when it sees exactly the operations in view. */
  ghost function Compute(view: set<Op>, iterations: nat, damping: real): Scores
  {
    if UrlsOf(view) == {} then map[]
    else Dense(UrlsOf(view), LinksOf(view), damping, if iterations == 0 then 1 else iterations)
  }

  // ----- the state

  /** A file's content. Complete holds the scores for view, under the version
      token that was current when at operations had completed. */
  datatype Content = Partial | Complete(at: nat, view: set<Op>)

  datatype Failure = Io | Corrupt

  /** Where a caller is. begun counts the operations completed when the call
      began, at those completed when it read the version. From Check2 to
      Renaming the caller holds the process-wide lock. */
  datatype Pc =
    | Idle
    | Start(begun: nat)
    | Check1(begun: nat, at: nat)
    | Read1(begun: nat, at: nat)
    | WaitLock(begun: nat, at: nat)
    | Check2(begun: nat, at: nat)
    | Read2(begun: nat, at: nat)
    | ReadUrls(begun: nat, at: nat, low: set<Op>)
    | ReadLinks(begun: nat, at: nat, urls: set<Op>, low: set<Op>)
    | WriteTmp(begun: nat, at: nat, view: set<Op>)
    | Writing(begun: nat, at: nat, view: set<Op>)
    | Renaming(begun: nat, at: nat, view: set<Op>)
    | Returned(begun: nat, view: set<Op>)
    | Failed(reason: Failure)

  /** inserted: operations whose record is in the maps PageRank reads.
      mirrored: link operations that are in the second edge index as well.
      completed: operations whose version bump is done, in that order. */
  datatype State = State(inserted: set<Op>, mirrored: set<Op>, completed: seq<Op>,
                         file: Option<Content>, tmp: Option<Content>, lock: Option<nat>, callers: seq<Pc>)

  function Init(callers: nat): State
  {
    State({}, {}, [], None, None, None, seq(callers, _ => Idle))
  }

  // ----- the steps

  datatype Step =
    | Insert(op: Op)                        // a writer: the record appears in the maps
    | Mirror(op: Op)                        // a link writer: the second edge index
    | Bump(op: Op)                          // the writer's version bump
    | Begin(t: nat)                         // a call of get_or_compute begins
    | Advance(t: nat)                       // the next step that involves no choice
    | FinishUrls(t: nat, read: set<Op>)     // get_urls returns
    | FinishLinks(t: nat, read: set<Op>)    // get_all_links returns
    | IoFails(t: nat)                       // reading, writing or renaming fails
    | Cancel(t: nat)                        // the caller is dropped at an await point

  predicate IsCritical(pc: Pc)
  {
    pc.Check2? || pc.Read2? || pc.ReadUrls? || pc.ReadLinks? || pc.WriteTmp? || pc.Writing? || pc.Renaming?
  }

  function Goto(s: State, t: nat, pc: Pc): State
    requires t < |s.callers|
  {
    s.(callers := s.callers[t := pc])
  }

  /** Leaving the critical section, by returning or failing, drops the guard. */
  function Leave(s: State, t: nat, pc: Pc): State
    requires t < |s.callers|
  {
    Goto(s, t, pc).(lock := None)
  }

  /** load() after the existence check: the read and parse of the cache file. */
  function Load(s: State, at: nat): Option<Pc>
  {
    match s.file
    case None => Some(Failed(Corrupt))
    case Some(Partial) => Some(Failed(Corrupt))
    case Some(Complete(a, view)) => if Token(a) == Token(at) then Some(Returned(0, view)) else None
  }

  function AdvanceCaller(s: State, t: nat): State
    requires t < |s.callers|
  {
    match s.callers[t]
    case Start(b) => Goto(s, t, Check1(b, |s.completed|))
    case Check1(b, at) => Goto(s, t, if s.file == None then WaitLock(b, at) else Read1(b, at))
    case Read1(b, at) =>
      (match Load(s, at)
       case None => Goto(s, t, WaitLock(b, at))
       case Some(Returned(_, view)) => Goto(s, t, Returned(b, view))
       case Some(pc) => Goto(s, t, pc))
    case WaitLock(b, at) => if s.lock == None then Goto(s, t, Check2(b, at)).(lock := Some(t)) else s
    case Check2(b, at) => Goto(s, t, if s.file == None then ReadUrls(b, at, s.inserted) else Read2(b, at))
    case Read2(b, at) =>
      (match Load(s, at)
       case None => Goto(s, t, ReadUrls(b, at, s.inserted))
       case Some(Returned(_, view)) => Leave(s, t, Returned(b, view))
       case Some(pc) => Leave(s, t, pc))
    case WriteTmp(b, at, view) => Goto(s, t, Writing(b, at, view)).(tmp := Some(Partial))
    case Writing(b, at, view) => Goto(s, t, Renaming(b, at, view)).(tmp := Some(Complete(at, view)))
    case Renaming(b, at, view) =>
      if s.tmp == None then Leave(s, t, Failed(Corrupt))
      else Leave(s, t, Returned(b, view)).(file := s.tmp, tmp := None)
    case _ => s
  }

  /** One atomic step. A step that is not enabled leaves the state as it is. */
  function Apply(s: State, step: Step): State
  {
    match step
    case Insert(op) => s.(inserted := s.inserted + {op})
    case Mirror(op) => if op.RecordLink? && op in s.inserted then s.(mirrored := s.mirrored + {op}) else s
    case Bump(op) =>
      if op in s.inserted && (op.RecordLink? ==> op in s.mirrored) && op !in s.completed then
        s.(completed := s.completed + [op])
      else s
    case Begin(t) =>
      if t < |s.callers| && (s.callers[t].Idle? || s.callers[t].Returned? || s.callers[t].Failed?) then
        Goto(s, t, Start(|s.completed|))
      else s
    case Advance(t) => if t < |s.callers| then AdvanceCaller(s, t) else s
    case FinishUrls(t, read) =>
      // The iteration sees everything present when it began and nothing that is absent when it ends.
      if t < |s.callers| && s.callers[t].ReadUrls? && Between(s.callers[t].low, read, s.inserted, true) then
        Goto(s, t, ReadLinks(s.callers[t].begun, s.callers[t].at, read, s.inserted))
      else s
    case FinishLinks(t, read) =>
      if t < |s.callers| && s.callers[t].ReadLinks? && Between(s.callers[t].low, read, s.inserted, false) then
        Goto(s, t, WriteTmp(s.callers[t].begun, s.callers[t].at, s.callers[t].urls + read))
      else s
    case IoFails(t) =>
      if t < |s.callers| && (s.callers[t].Read2? || s.callers[t].WriteTmp? || s.callers[t].Writing? || s.callers[t].Renaming?) then
        Leave(s, t, Failed(Io))
      else if t < |s.callers| && s.callers[t].Read1? then Goto(s, t, Failed(Io))
      else s
    case Cancel(t) =>
      if t >= |s.callers| then s
      else if s.callers[t].ReadUrls? || s.callers[t].ReadLinks? then Leave(s, t, Idle)
      else if s.callers[t].Start? || s.callers[t].WaitLock? then Goto(s, t, Idle)
      else s
  }

  /** read holds URL operations only (or link operations only): all those in low, none outside high. */
  predicate Between(low: set<Op>, read: set<Op>, high: set<Op>, urls: bool)
  {
    && (forall op | op in low && op.RecordUrl? == urls :: op in read)
    && (forall op | op in read :: op in high && op.RecordUrl? == urls)
  }

  /** The state after an arbitrary interleaving. */
  function Exec(callers: nat, steps: seq<Step>): State
  {
    if steps == [] then Init(callers)
    else Apply(Exec(callers, steps[..|steps| - 1]), steps[|steps| - 1])
  }

  // ----- the invariant

  /** view holds the first n completed operations and only recorded ones. */
  ghost predicate Covers(s: State, n: nat, view: set<Op>)
  {
    n <= |s.completed| && (forall i | 0 <= i < n :: s.completed[i] in view) && view <= s.inserted
  }

  ghost predicate CallerOk(s: State, pc: Pc)
  {
    match pc
    case Idle => true
    case Start(b) => b <= |s.completed|
    case Check1(b, at) => b <= at <= |s.completed|
    case Read1(b, at) => b <= at <= |s.completed| && s.file != None
    case WaitLock(b, at) => b <= at <= |s.completed|
    case Check2(b, at) => b <= at <= |s.completed|
    case Read2(b, at) => b <= at <= |s.completed| && s.file != None
    case ReadUrls(b, at, low) => b <= at && Covers(s, at, low)
    case ReadLinks(b, at, urls, low) =>
      && b <= at && Covers(s, at, low) && urls <= s.inserted
      && (forall i | 0 <= i < at && s.completed[i].RecordUrl? :: s.completed[i] in urls)
    case WriteTmp(b, at, view) => b <= at && Covers(s, at, view)
    case Writing(b, at, view) => b <= at && Covers(s, at, view)
    case Renaming(b, at, view) => b <= at && Covers(s, at, view) && s.tmp == Some(Complete(at, view))
    case Returned(b, view) => |s.completed| < TWO_TO_THE_64 ==> Covers(s, b, view)
    case Failed(reason) => reason == Io
  }

  ghost predicate FileOk(s: State)
  {
    s.file.Some? ==> s.file.value.Complete? && Covers(s, s.file.value.at, s.file.value.view)
  }

  ghost predicate Inv(s: State)
  {
    && (forall i | 0 <= i < |s.completed| :: s.completed[i] in s.inserted)
    && FileOk(s)
    && (forall t | 0 <= t < |s.callers| :: CallerOk(s, s.callers[t]))
    && (forall t | 0 <= t < |s.callers| :: IsCritical(s.callers[t]) <==> s.lock == Some(t))
    && (s.lock.Some? ==> s.lock.value < |s.callers|)
  }

  lemma InitInv(callers: nat)
    ensures Inv(Init(callers))
  {
  }

  /** Below the wrap-around, equal tokens mean equal counts. */
  lemma TokenInjective(a: nat, b: nat, n: nat)
    requires a <= n && b <= n && n < TWO_TO_THE_64 && Token(a) == Token(b)
    ensures a == b
  {
  }

  /** The graph only grows, so what covered before still covers. */
  lemma WritersKeepInv(s: State, step: Step)
    requires Inv(s) && (step.Insert? || step.Mirror? || step.Bump?)
    ensures Inv(Apply(s, step))
  {
    var s' := Apply(s, step);
    assert s.inserted <= s'.inserted && s.completed <= s'.completed;
    forall t | 0 <= t < |s'.callers|
      ensures CallerOk(s', s'.callers[t])
    {
      assert CallerOk(s, s.callers[t]);
    }
  }

  /** A step of caller t that leaves the files alone. */
  lemma CallerKeepsInv(s: State, s': State, t: nat, pc: Pc, lock: Option<nat>)
    requires Inv(s) && t < |s.callers|
    requires s' == Goto(s, t, pc).(lock := lock)
    requires CallerOk(s', pc)
    requires lock == if IsCritical(pc) then Some(t) else if IsCritical(s.callers[t]) then None else s.lock
    requires IsCritical(pc) ==> s.lock == None || s.lock == Some(t)
    ensures Inv(s')
  {
    forall u | 0 <= u < |s'.callers|
      ensures CallerOk(s', s'.callers[u])
    {
      assert CallerOk(s, s.callers[u]);
    }
  }

  /** Only the holder of the lock touches the two files. */
  lemma HolderKeepsInv(s: State, t: nat)
    requires Inv(s) && t < |s.callers|
    requires s.callers[t].WriteTmp? || s.callers[t].Writing? || s.callers[t].Renaming?
    ensures Inv(AdvanceCaller(s, t))
  {
    var s' := AdvanceCaller(s, t);
    assert CallerOk(s, s.callers[t]);
    forall u | 0 <= u < |s'.callers|
      ensures CallerOk(s', s'.callers[u])
    {
      assert CallerOk(s, s.callers[u]);
      assert u != t ==> !IsCritical(s.callers[u]);
    }
  }

  /** A load finds a complete file; when the tokens agree, its scores cover what had completed by then. */
  lemma LoadIsFresh(s: State, at: nat)
    requires Inv(s) && s.file != None && at <= |s.completed|
    ensures match Load(s, at)
            case None => true
            case Some(pc) => pc.Returned? && (|s.completed| < TWO_TO_THE_64 ==> Covers(s, at, pc.view))
  {
    if Token(s.file.value.at) == Token(at) && |s.completed| < TWO_TO_THE_64 {
      TokenInjective(s.file.value.at, at, |s.completed|);
    }
  }

  lemma AdvanceKeepsInv(s: State, t: nat)
    requires Inv(s) && t < |s.callers|
    ensures Inv(AdvanceCaller(s, t))
  {
    var pc := s.callers[t];
    var s' := AdvanceCaller(s, t);
    assert CallerOk(s, pc);
    if pc.WriteTmp? || pc.Writing? || pc.Renaming? {
      HolderKeepsInv(s, t);
    } else if pc.Read1? || pc.Read2? {
      LoadIsFresh(s, pc.at);
      CallerKeepsInv(s, s', t, s'.callers[t], s'.lock);
    } else {
      assert s' == Goto(s, t, s'.callers[t]).(lock := s'.lock);
      CallerKeepsInv(s, s', t, s'.callers[t], s'.lock);
    }
  }

  lemma FinishKeepsInv(s: State, step: Step)
    requires Inv(s) && (step.FinishUrls? || step.FinishLinks?)
    ensures Inv(Apply(s, step))
  {
    var t, s' := step.t, Apply(s, step);
    if s' != s {
      assert CallerOk(s, s.callers[t]);
      CallerKeepsInv(s, s', t, s'.callers[t], s.lock);
    }
  }

  lemma InterruptKeepsInv(s: State, step: Step)
    requires Inv(s) && (step.Begin? || step.IoFails? || step.Cancel?)
    ensures Inv(Apply(s, step))
  {
    var t, s' := step.t, Apply(s, step);
    if t < |s.callers| {
      assert CallerOk(s, s.callers[t]);
      CallerKeepsInv(s, s', t, s'.callers[t], s'.lock);
    }
  }

  lemma StepKeepsInv(s: State, step: Step)
    requires Inv(s)
    ensures Inv(Apply(s, step))
  {
    hide Inv, AdvanceCaller;
    match step
    case Insert(_) => WritersKeepInv(s, step);
    case Mirror(_) => WritersKeepInv(s, step);
    case Bump(_) => WritersKeepInv(s, step);
    case Advance(t) => if t < |s.callers| { AdvanceKeepsInv(s, t); }
    case FinishUrls(_, _) => FinishKeepsInv(s, step);
    case FinishLinks(_, _) => FinishKeepsInv(s, step);
    case Begin(_) => InterruptKeepsInv(s, step);
    case IoFails(_) => InterruptKeepsInv(s, step);
    case Cancel(_) => InterruptKeepsInv(s, step);
  }

  lemma {:induction false} ExecKeepsInv(callers: nat, steps: seq<Step>)
    ensures Inv(Exec(callers, steps))
    ensures |Exec(callers, steps).callers| == callers
  {
    hide Inv, Apply;
    if steps == [] {
      InitInv(callers);
    } else {
      ExecKeepsInv(callers, steps[..|steps| - 1]);
      StepKeepsInv(Exec(callers, steps[..|steps| - 1]), steps[|steps| - 1]);
      CallersStay(Exec(callers, steps[..|steps| - 1]), steps[|steps| - 1]);
    }
  }

  lemma CallersStay(s: State, step: Step)
    ensures |Apply(s, step).callers| == |s.callers|
  {
  }

  // ----- the guarantees, over every interleaving

  /** The cache file is absent or complete, at most one caller is between
      taking the lock and dropping it, and no caller ever reads anything but a
      complete file: no interleaving corrupts it. */
  lemma FilesNeverCorrupt(callers: nat, steps: seq<Step>)
    ensures var s := Exec(callers, steps);
            && (s.file == None || s.file.value.Complete?)
            && (forall t, u | 0 <= t < u < callers && |s.callers| == callers ::
                  !(IsCritical(s.callers[t]) && IsCritical(s.callers[u])))
            && (forall t | 0 <= t < |s.callers| :: s.callers[t] != Failed(Corrupt))
  {
    ExecKeepsInv(callers, steps);
  }

  /** Whatever get_or_compute returns, from the cache or freshly computed,
      reflects every operation that had completed when the call began, and
      nothing that was never recorded. */
  lemma ResultIsFresh(callers: nat, steps: seq<Step>, t: nat)
    requires t < callers && |Exec(callers, steps).callers| == callers
    requires Exec(callers, steps).callers[t].Returned?
    requires |Exec(callers, steps).completed| < TWO_TO_THE_64
    ensures var s := Exec(callers, steps);
            Covers(s, s.callers[t].begun, s.callers[t].view)
  {
    ExecKeepsInv(callers, steps);
    assert CallerOk(Exec(callers, steps), Exec(callers, steps).callers[t]);
  }

  // ----- when a call fails, and that it returns

  /** A call fails only when an I/O operation of its own failed, in this very
      call: no later step begins another one. */
  lemma {:induction false} FailedByIo(callers: nat, steps: seq<Step>, t: nat) returns (k: nat)
    requires t < |Exec(callers, steps).callers| && Exec(callers, steps).callers[t].Failed?
    ensures k < |steps| && steps[k] == IoFails(t)
    ensures forall j | k < j < |steps| :: steps[j] != Begin(t)
  {
    hide Inv;
    assert steps != [];
    var n := |steps| - 1;
    var before := Exec(callers, steps[..n]);
    ExecKeepsInv(callers, steps[..n]);
    CallersStay(before, steps[n]);
    if before.callers[t].Failed? {
      k := FailedByIo(callers, steps[..n], t);
      assert steps[..n][k] == steps[k];
      forall j | k < j < |steps|
        ensures steps[j] != Begin(t)
      {
        assert j < n ==> steps[..n][j] == steps[j];
      }
    } else {
      k := n;
      OnlyIoFails(before, steps[n], t);
    }
  }

  lemma OnlyIoFails(s: State, step: Step, t: nat)
    requires Inv(s) && t < |s.callers| && !s.callers[t].Failed? && Apply(s, step).callers[t].Failed?
    ensures step == IoFails(t)
  {
    assert CallerOk(s, s.callers[t]);
  }

  /** A failed I/O operation fails the call, and dropping a call at an await point
      ends it; either way the call leaves the cache file alone and does not keep
      the lock. */
  lemma InterruptsRelease(s: State, t: nat)
    requires Inv(s) && t < |s.callers|
    ensures var s', pc := Apply(s, IoFails(t)), s.callers[t];
            pc.Read1? || pc.Read2? || pc.WriteTmp? || pc.Writing? || pc.Renaming?
            ==> |s'.callers| == |s.callers| && s'.callers[t] == Failed(Io) && s'.lock != Some(t) && s'.file == s.file
    ensures var s', pc := Apply(s, Cancel(t)), s.callers[t];
            pc.Start? || pc.WaitLock? || pc.ReadUrls? || pc.ReadLinks?
            ==> |s'.callers| == |s.callers| && s'.callers[t] == Idle && s'.lock != Some(t) && s'.file == s.file
  {
    assert IsCritical(s.callers[t]) <==> s.lock == Some(t);
  }

  /** The call is under way. */
  predicate InFlight(pc: Pc)
  {
    !pc.Idle? && !pc.Returned? && !pc.Failed?
  }

  /** A step that the call itself takes, without a failure. */
  predicate IsOwn(step: Step, t: nat)
  {
    (step.Advance? || step.FinishUrls? || step.FinishLinks?) && step.t == t
  }

  /** How many steps a call has ahead of it at most. */
  function Ahead(pc: Pc): nat
  {
    match pc
    case Start(_) => 11
    case Check1(_, _) => 10
    case Read1(_, _) => 9
    case WaitLock(_, _) => 8
    case Check2(_, _) => 7
    case Read2(_, _) => 6
    case ReadUrls(_, _, _) => 5
    case ReadLinks(_, _, _, _) => 4
    case WriteTmp(_, _, _) => 3
    case Writing(_, _, _) => 2
    case Renaming(_, _, _) => 1
    case _ => 0
  }

  /** No own step fails or leads back, and none concerns another call. */
  lemma OwnStepAdvances(s: State, t: nat, step: Step)
    requires Inv(s) && t < |s.callers| && IsOwn(step, t) && Apply(s, step) != s
    ensures var s' := Apply(s, step);
            && |s'.callers| == |s.callers| && Ahead(s'.callers[t]) < Ahead(s.callers[t])
            && (InFlight(s'.callers[t]) || s'.callers[t].Returned?)
            && (forall u | 0 <= u < |s.callers| && u != t :: s'.callers[u] == s.callers[u])
            && s'.inserted == s.inserted && s'.completed == s.completed
            && (s.lock == None || s.lock == Some(t) ==> s'.lock == None || s'.lock == Some(t))
  {
    assert CallerOk(s, s.callers[t]);
  }

  /** The state after further steps. */
  function After(s: State, steps: seq<Step>): State
    decreases |steps|
  {
    if steps == [] then s else After(Apply(s, steps[0]), steps[1..])
  }

  lemma {:induction false} ExecContinues(callers: nat, steps: seq<Step>, more: seq<Step>)
    ensures Exec(callers, steps + more) == After(Exec(callers, steps), more)
    decreases |more|
  {
    hide Apply;
    if more == [] {
      assert steps + more == steps;
    } else {
      var longer := steps + [more[0]];
      assert longer[..|steps|] == steps && longer + more[1..] == steps + more;
      ExecContinues(callers, longer, more[1..]);
    }
  }

  /** However the steps of a call fall out, it takes no more of them than lie ahead of it. */
  lemma {:induction false} OwnRunEnds(s: State, t: nat, more: seq<Step>)
    requires Inv(s) && t < |s.callers|
    requires forall k | 0 <= k < |more| :: IsOwn(more[k], t) && After(s, more[..k + 1]) != After(s, more[..k])
    ensures |more| <= Ahead(s.callers[t])
    decreases |more|
  {
    hide Inv, Apply, IsOwn, Ahead;
    if more != [] {
      var s', rest := Apply(s, more[0]), more[1..];
      assert more[..1][1..] == [] && After(s, more[..1]) == s' && After(s, more[..0]) == s;
      OwnStepAdvances(s, t, more[0]);
      StepKeepsInv(s, more[0]);
      forall k | 0 <= k < |rest|
        ensures IsOwn(rest[k], t) && After(s', rest[..k + 1]) != After(s', rest[..k])
      {
        assert more[k + 1] == rest[k];
        assert more[..k + 2][1..] == rest[..k + 1] && more[..k + 1][1..] == rest[..k];
      }
      OwnRunEnds(s', t, rest);
    }
  }

  /** The next step of a call that reads what is recorded at this moment. */
  ghost function NextStep(s: State, t: nat): Step
    requires t < |s.callers|
  {
    if s.callers[t].ReadUrls? then FinishUrls(t, set op | op in s.inserted && op.RecordUrl?)
    else if s.callers[t].ReadLinks? then FinishLinks(t, LinksIn(s.inserted))
    else Advance(t)
  }

  ghost function LinksIn(ops: set<Op>): set<Op>
  {
    set op | op in ops && op.RecordLink?
  }

  /** The version that the call goes by. */
  function VersionRead(s: State, pc: Pc): nat
    requires InFlight(pc)
  {
    if pc.Start? then |s.completed| else pc.at
  }

  /** What a call that goes on alone returns and leaves behind: when the file is
      of its version, the file's scores and the file as it is; otherwise the scores
      for what is recorded, which are in the file afterwards. */
  ghost predicate Settled(s: State, s': State, t: nat)
    requires t < |s.callers| && InFlight(s.callers[t])
  {
    var pc := s.callers[t];
    var at := VersionRead(s, pc);
    && t < |s'.callers| && s'.callers[t].Returned? && s'.lock == None
    && var view := s'.callers[t].view;
       if pc.ReadUrls? then s'.file == Some(Complete(at, view)) && view == s.inserted
       else if pc.ReadLinks? then s'.file == Some(Complete(at, view)) && view == pc.urls + LinksIn(s.inserted)
       else if pc.WriteTmp? || pc.Writing? || pc.Renaming? then s'.file == Some(Complete(at, view)) && view == pc.view
       else if s.file.Some? && s.file.value.Complete? && Token(s.file.value.at) == Token(at) then
         s'.file == s.file && view == s.file.value.view
       else s'.file == Some(Complete(at, view)) && view == s.inserted
  }

  lemma NextStepSettles(s: State, t: nat)
    requires Inv(s) && t < |s.callers| && InFlight(s.callers[t]) && (s.lock == None || s.lock == Some(t))
    ensures IsOwn(NextStep(s, t), t) && Apply(s, NextStep(s, t)) != s
    ensures var s' := Apply(s, NextStep(s, t));
            |s'.callers| == |s.callers|
            && (s'.callers[t].Returned? ==> Settled(s, s', t))
            && forall z | InFlight(s'.callers[t]) && Settled(s', z, t) :: Settled(s, z, t)
  {
    assert CallerOk(s, s.callers[t]);
    var pc, s' := s.callers[t], Apply(s, NextStep(s, t));
    assert |s'.callers| == |s.callers|;
    hide Token;
    if pc.ReadUrls? {
      assert s.inserted == (set op | op in s.inserted && op.RecordUrl?) + LinksIn(s.inserted);
    }
  }

  /** A call whose lock is free, or its own, returns when it goes on alone. */
  lemma {:induction false} ReturnsAlone(s: State, t: nat) returns (more: seq<Step>)
    requires Inv(s) && t < |s.callers| && InFlight(s.callers[t]) && (s.lock == None || s.lock == Some(t))
    ensures |more| <= Ahead(s.callers[t]) && forall k | 0 <= k < |more| :: IsOwn(more[k], t)
    ensures var s' := After(s, more);
            && Inv(s') && |s'.callers| == |s.callers| && Settled(s, s', t)
            && (forall u | 0 <= u < |s.callers| && u != t :: s'.callers[u] == s.callers[u])
    decreases Ahead(s.callers[t])
  {
    hide Inv, Apply, Settled, InFlight, IsOwn, Ahead, NextStep;
    var step := NextStep(s, t);
    var s' := Apply(s, step);
    NextStepSettles(s, t);
    OwnStepAdvances(s, t, step);
    StepKeepsInv(s, step);
    if s'.callers[t].Returned? {
      more := [step];
      assert After(s, more) == After(s', []);
    } else {
      var rest := ReturnsAlone(s', t);
      more := [step] + rest;
      assert more[1..] == rest;
    }
  }

  /** From every reachable state every call under way can return: at most eighteen
      steps, of the holder of the lock and of the call itself, lead there. So the
      lock is granted, and no call blocks another for good. */
  lemma EveryCallReturns(callers: nat, steps: seq<Step>, t: nat) returns (more: seq<Step>)
    requires t < |Exec(callers, steps).callers| && InFlight(Exec(callers, steps).callers[t])
    ensures |more| <= 18
    ensures forall k | 0 <= k < |more| :: IsOwn(more[k], t) || exists u :: Exec(callers, steps).lock == Some(u) && IsOwn(more[k], u)
    ensures |Exec(callers, steps + more).callers| == |Exec(callers, steps).callers|
    ensures Exec(callers, steps + more).callers[t].Returned?
  {
    hide Exec, Apply, Settled, IsOwn, After;
    var s := Exec(callers, steps);
    ExecKeepsInv(callers, steps);
    if s.lock == None || s.lock == Some(t) {
      more := ReturnsAlone(s, t);
      SettledReturned(s, After(s, more), t);
      ExecContinues(callers, steps, more);
    } else {
      var u := s.lock.value;
      assert IsCritical(s.callers[u]) && Ahead(s.callers[u]) <= 7;
      var first := ReturnsAlone(s, u);
      var s1 := After(s, first);
      SettledReturned(s, s1, u);
      var second := ReturnsAlone(s1, t);
      SettledReturned(s1, After(s1, second), t);
      more := first + second;
      ExecContinues(callers, steps, first);
      ExecContinues(callers, steps + first, second);
      assert steps + first + second == steps + more;
    }
  }

  /** A hit waits for nobody: when the file is of the version read, a call that has
      just begun returns its scores after three steps, whoever holds the lock. */
  lemma HitNeedsNoLock(s: State, t: nat)
    requires Inv(s) && t < |s.callers| && s.callers[t].Start? && s.file.Some?
    requires Token(s.file.value.at) == Token(|s.completed|)
    ensures Apply(Apply(Apply(s, Advance(t)), Advance(t)), Advance(t))
         == Goto(s, t, Returned(s.callers[t].begun, s.file.value.view))
  {
    hide Token, Apply, Inv;
    var b, at := s.callers[t].begun, |s.completed|;
    assert s.file.value.Complete? by { FileIsComplete(s); }
    HitSteps(s, t, b, at);
    var s1 := Goto(s, t, Check1(b, at));
    HitSteps(s1, t, b, at);
    var s2 := Goto(s1, t, Read1(b, at));
    HitSteps(s2, t, b, at);
    assert s.callers[t := Check1(b, at)][t := Read1(b, at)][t := Returned(b, s.file.value.view)]
        == s.callers[t := Returned(b, s.file.value.view)];
  }

  lemma FileIsComplete(s: State)
    requires Inv(s) && s.file.Some?
    ensures s.file.value.Complete?
  {
  }

  lemma HitSteps(s: State, t: nat, b: nat, at: nat)
    requires t < |s.callers| && s.file.Some? && s.file.value.Complete? && at == |s.completed| && Token(s.file.value.at) == Token(at)
    ensures s.callers[t] == Start(b) ==> Apply(s, Advance(t)) == Goto(s, t, Check1(b, at))
    ensures s.callers[t] == Check1(b, at) ==> Apply(s, Advance(t)) == Goto(s, t, Read1(b, at))
    ensures s.callers[t] == Read1(b, at) ==> Apply(s, Advance(t)) == Goto(s, t, Returned(b, s.file.value.view))
  {
    hide Token;
  }

  lemma SettledReturned(s: State, s': State, t: nat)
    requires t < |s.callers| && InFlight(s.callers[t]) && Settled(s, s', t)
    ensures t < |s'.callers| && s'.callers[t].Returned? && s'.lock == None
  {
  }

  lemma {:induction false} AfterGrows(s: State, steps: seq<Step>)
    ensures s.completed <= After(s, steps).completed
    decreases |steps|
  {
    hide Apply;
    if steps != [] {
      CompletedGrows(s, steps[0]);
      AfterGrows(Apply(s, steps[0]), steps[1..]);
    }
  }

  lemma CompletedGrows(s: State, step: Step)
    ensures s.completed <= Apply(s, step).completed
  {
  }

  /** A record operation that is carried out completes. */
  lemma WriteCompletes(s: State, op: Op)
    ensures var s' := After(s, [Insert(op), Mirror(op), Bump(op)]);
            op in s'.completed && s'.callers == s.callers
  {
    var s1 := Apply(s, Insert(op));
    var s2 := Apply(s1, Mirror(op));
    var s3 := Apply(s2, Bump(op));
    assert After(s2, [Bump(op)]) == After(s3, []);
    assert [Mirror(op), Bump(op)][1..] == [Bump(op)];
    assert [Insert(op), Mirror(op), Bump(op)][1..] == [Mirror(op), Bump(op)];
  }

  /** What was written is read: after any run somebody records something, a call
      begins that was not under way, and goes on until it returns, which it can;
      then what was recorded is in the view that it returns. */
  lemma WrittenIsRead(callers: nat, steps: seq<Step>, op: Op, t: nat) returns (more: seq<Step>)
    requires t < |Exec(callers, steps).callers| && !InFlight(Exec(callers, steps).callers[t])
    ensures |more| <= 18
    ensures var s := Exec(callers, steps + [Insert(op), Mirror(op), Bump(op), Begin(t)] + more);
            && t < |s.callers| && s.callers[t].Returned?
            && (|s.completed| < TWO_TO_THE_64 ==> op in s.callers[t].view)
  {
    hide Apply, AdvanceCaller, Inv, After, Exec;
    var write := [Insert(op), Mirror(op), Bump(op)];
    ExecContinues(callers, steps, write);
    var s0 := Exec(callers, steps + write);
    WriteCompletes(Exec(callers, steps), op);
    var begun := steps + write + [Begin(t)];
    Begins(callers, steps + write, t);
    assert steps + [Insert(op), Mirror(op), Bump(op), Begin(t)] == begun;
    var s1 := Exec(callers, begun);
    more := EveryCallReturns(callers, begun, t);
    var s := Exec(callers, begun + more);
    ExecContinues(callers, begun, more);
    AfterGrows(s1, more);
    ExecKeepsInv(callers, begun + more);
    StaysBegun(callers, begun, more, t, |s0.completed|);
    if |s.completed| < TWO_TO_THE_64 {
      ResultIsFresh(callers, begun + more, t);
      var i :| 0 <= i < |s0.completed| && s0.completed[i] == op;
      assert s.completed[i] == op;
    }
  }

  lemma Begins(callers: nat, steps: seq<Step>, t: nat)
    requires t < |Exec(callers, steps).callers| && !InFlight(Exec(callers, steps).callers[t])
    ensures var s, s' := Exec(callers, steps), Exec(callers, steps + [Begin(t)]);
            && |s'.callers| == |s.callers| && s'.completed == s.completed
            && s'.callers[t] == Start(|s.completed|)
  {
    assert (steps + [Begin(t)])[..|steps|] == steps;
  }

  predicate BegunAt(pc: Pc, begun: nat)
  {
    (InFlight(pc) || pc.Returned?) && pc.begun == begun
  }

  /** Steps that are nobody's beginning do not move the beginning of a call. */
  lemma {:induction false} StaysBegun(callers: nat, steps: seq<Step>, more: seq<Step>, t: nat, begun: nat)
    requires t < |Exec(callers, steps).callers| && BegunAt(Exec(callers, steps).callers[t], begun)
    requires forall k | 0 <= k < |more| :: more[k].Advance? || more[k].FinishUrls? || more[k].FinishLinks?
    ensures t < |Exec(callers, steps + more).callers| && BegunAt(Exec(callers, steps + more).callers[t], begun)
    decreases |more|
  {
    hide Exec, Apply, Inv;
    if more == [] {
      assert steps + more == steps;
    } else {
      var n := |more| - 1;
      StaysBegun(callers, steps, more[..n], t, begun);
      var s := Exec(callers, steps + more[..n]);
      ExecKeepsInv(callers, steps + more[..n]);
      ExecSnoc(callers, steps + more[..n], more[n]);
      assert steps + more[..n] + [more[n]] == steps + more;
      StepStaysBegun(s, more[n], t, begun);
    }
  }

  lemma ExecSnoc(callers: nat, steps: seq<Step>, step: Step)
    ensures Exec(callers, steps + [step]) == Apply(Exec(callers, steps), step)
  {
    assert (steps + [step])[..|steps|] == steps;
  }

  lemma StepStaysBegun(s: State, step: Step, t: nat, begun: nat)
    requires Inv(s) && t < |s.callers| && BegunAt(s.callers[t], begun)
    requires step.Advance? || step.FinishUrls? || step.FinishLinks?
    ensures t < |Apply(s, step).callers| && BegunAt(Apply(s, step).callers[t], begun)
  {
    assert CallerOk(s, s.callers[t]);
  }

  /** Every link operation in view contributes its edge. */
  lemma {:induction false} LinksOfView(view: set<Op>, op: Op)
    requires op in view && op.RecordLink?
    ensures op.edge in LinksOf(view)
    decreases view
  {
    var first :| first in view && first.RecordLink? && LinksOf(view) == [first.edge] + LinksOf(view - {first});
    if first != op {
      LinksOfView(view - {first}, op);
    }
  }

  /** And nothing else: one edge for each of them. */
  lemma {:induction false} LinksOfNothingElse(view: set<Op>)
    ensures |LinksOf(view)| == |LinksIn(view)|
    ensures forall e | e in LinksOf(view) :: exists op :: op in view && op.RecordLink? && op.edge == e
    decreases view
  {
    if exists op :: op in view && op.RecordLink? {
      var first :| first in view && first.RecordLink? && LinksOf(view) == [first.edge] + LinksOf(view - {first});
      LinksOfNothingElse(view - {first});
      assert LinksIn(view) == LinksIn(view - {first}) + {first};
    } else {
      assert LinksIn(view) == {};
    }
  }

  /** What a call computes on a miss: compute_pagerank, over a store that holds
      the records of the view, returns the scores for the view. */
  method RankRecords(g: InMemoryCrawlGraph, ghost view: set<Op>, iterations: nat, damping: real) returns (scores: Scores)
    requires g.Valid() && g.urls.Keys == UrlsOf(view) && multiset(g.log) == multiset(LinksOf(view))
    ensures scores == Compute(view, iterations, damping)
  {
    hide Base, BaseScores;
    scores := ComputePagerank(g, iterations, damping);
    if g.urls != map[] {
      IteratePermute(g.urls.Keys, g.log, LinksOf(view), damping, Base(g.urls.Keys, damping), BaseScores(g.urls.Keys, damping),
                     if iterations == 0 then 1 else iterations);
    }
  }

  /** In particular every URL recorded before the call began has a score, and
      every link recorded before it was among the edges that were ranked. */
  lemma EveryRecordIsRanked(callers: nat, steps: seq<Step>, t: nat, i: nat, iterations: nat, damping: real)
    requires t < callers && |Exec(callers, steps).callers| == callers
    requires Exec(callers, steps).callers[t].Returned?
    requires |Exec(callers, steps).completed| < TWO_TO_THE_64
    requires i < Exec(callers, steps).callers[t].begun
    ensures var s := Exec(callers, steps);
            && i < |s.completed|
            && (s.completed[i].RecordUrl? ==> s.completed[i].url in Compute(s.callers[t].view, iterations, damping))
            && (s.completed[i].RecordLink? ==> s.completed[i].edge in LinksOf(s.callers[t].view))
  {
    hide Exec;
    ResultIsFresh(callers, steps, t);
    var s := Exec(callers, steps);
    assert s.completed[i] in s.callers[t].view;
    if s.completed[i].RecordUrl? {
      assert s.completed[i].url in UrlsOf(s.callers[t].view);
    } else {
      LinksOfView(s.callers[t].view, s.completed[i]);
    }
  }
}
