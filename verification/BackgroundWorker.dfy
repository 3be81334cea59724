/** The background worker as a protocol: any number of persist calls and close
    calls, interleaved step by step with the worker task. */
module BackgroundWorker {
  import opened Wrappers

  /** A persist call. It holds a clone of the sender in HasClone and Sent. */
  datatype Persist = Calling | HasClone | Sent | ReturnedOk | ReturnedErr

  /** A close call. It holds the taken sender, if there was one, in Took(true);
      in Awaiting it holds the lock of the handle slot. */
  datatype Close = Closing | Took(had: bool) | Dropped | Awaiting | Closed

  datatype Worker = Receiving | Processing(job: nat) | Finished

  /** open: the sender slot is filled. handle: the handle slot is filled.
      Jobs are named by the index of the persist call that sends them.
      sent, handed and done are logs: jobs put into the channel, jobs given to
      process_job, and jobs for which it has returned. */
  datatype State = State(capacity: nat, open: bool, queue: seq<nat>, worker: Worker, handle: bool, handleLock: Option<nat>,
                         persists: seq<Persist>, closes: seq<Close>, sent: seq<nat>, handed: seq<nat>,
                         done: seq<nat>)

  datatype Step = PersistStep(t: nat) | CloseStep(c: nat) | WorkerStep

  function Init(capacity: nat, persists: nat, closes: nat): State
  {
    State(capacity, true, [], Receiving, true, None, seq(persists, _ => Calling), seq(closes, _ => Closing), [], [], [])
  }

  predicate HoldsClone(p: Persist)
  {
    p.HasClone? || p.Sent?
  }

  /** Some sender is alive: the slot's own, a persist call's clone, or one taken and not yet dropped. */
  predicate SenderAlive(s: State)
  {
    || s.open
    || (exists t :: 0 <= t < |s.persists| && HoldsClone(s.persists[t]))
    || (exists c :: 0 <= c < |s.closes| && s.closes[c] == Took(true))
  }

  function PersistNext(s: State, t: nat): State
    requires t < |s.persists|
  {
    match s.persists[t]
    case Calling => s.(persists := s.persists[t := if s.open then HasClone else ReturnedErr])
    case HasClone =>
      if s.worker.Finished? then s.(persists := s.persists[t := ReturnedErr])
      else if |s.queue| < s.capacity then
        s.(persists := s.persists[t := Sent], queue := s.queue + [t], sent := s.sent + [t])
      else s
    case Sent => s.(persists := s.persists[t := ReturnedOk])
    case _ => s
  }

  function CloseNext(s: State, c: nat): State
    requires c < |s.closes|
  {
    match s.closes[c]
    case Closing => s.(closes := s.closes[c := Took(s.open)], open := false)
    case Took(_) => s.(closes := s.closes[c := Dropped])
    case Dropped =>
      if s.handleLock.Some? then s
      else if s.handle then s.(closes := s.closes[c := Awaiting], handle := false, handleLock := Some(c))
      else s.(closes := s.closes[c := Closed])
    case Awaiting =>
      if s.worker.Finished? then s.(closes := s.closes[c := Closed], handleLock := None) else s
    case Closed => s
  }

  function WorkerNext(s: State): State
  {
    match s.worker
    case Receiving =>
      if s.queue != [] then s.(worker := Processing(s.queue[0]), queue := s.queue[1..], handed := s.handed + [s.queue[0]])
      else if SenderAlive(s) then s
      else s.(worker := Finished)
    case Processing(job) => s.(worker := Receiving, done := s.done + [job])
    case Finished => s
  }

  /** One atomic step; a step that is not enabled leaves the state as it is. */
  function Apply(s: State, step: Step): State
  {
    match step
    case PersistStep(t) => if t < |s.persists| then PersistNext(s, t) else s
    case CloseStep(c) => if c < |s.closes| then CloseNext(s, c) else s
    case WorkerStep => WorkerNext(s)
  }

  function Run(s: State, steps: seq<Step>): State
  {
    if steps == [] then s else Apply(Run(s, steps[..|steps| - 1]), steps[|steps| - 1])
  }

  // ----- the invariant

  ghost predicate LogsOk(s: State)
  {
    && s.handed + s.queue == s.sent
    && |s.queue| <= s.capacity
    && Distinct(s.sent)
    && (forall t: nat :: t in s.sent <==> t < |s.persists| && (s.persists[t].Sent? || s.persists[t].ReturnedOk?))
    && s.handed == s.done + if s.worker.Processing? then [s.worker.job] else []
  }

  /** The task ends only when nobody can send any more and nothing is left to process. */
  ghost predicate FinishedOk(s: State)
  {
    s.worker.Finished? ==> !SenderAlive(s) && s.queue == []
  }

  ghost predicate HandleOk(s: State)
  {
    && (forall c | 0 <= c < |s.closes| :: s.closes[c].Awaiting? <==> s.handleLock == Some(c))
    && (s.handleLock.Some? ==> s.handleLock.value < |s.closes| && !s.handle)
    && (!s.handle && s.handleLock.None? ==> s.worker.Finished?)
    && (forall c | 0 <= c < |s.closes| :: s.closes[c].Closed? ==> s.worker.Finished?)
    && (s.open <==> forall c | 0 <= c < |s.closes| :: s.closes[c].Closing?)
  }

  ghost predicate Inv(s: State)
  {
    s.capacity > 0 && LogsOk(s) && FinishedOk(s) && HandleOk(s)
  }

  lemma PersistKeeps(s: State, t: nat)
    requires Inv(s) && t < |s.persists|
    ensures Inv(PersistNext(s, t))
  {
    var s' := PersistNext(s, t);
    if s'.sent != s.sent {
      assert s.handed + (s.queue + [t]) == s.sent + [t];
    }
    if SenderAlive(s') {
      assert SenderAlive(s);
    }
  }

  lemma CloseKeeps(s: State, c: nat)
    requires Inv(s) && c < |s.closes|
    ensures Inv(CloseNext(s, c))
  {
    var s' := CloseNext(s, c);
    if SenderAlive(s') && !s'.open && !exists t :: 0 <= t < |s'.persists| && HoldsClone(s'.persists[t]) {
      var d :| 0 <= d < |s'.closes| && s'.closes[d] == Took(true);
      assert SenderAlive(s);
    }
  }

  lemma WorkerKeeps(s: State)
    requires Inv(s)
    ensures Inv(WorkerNext(s))
  {
    var s' := WorkerNext(s);
    if s.worker.Receiving? && s.queue != [] {
      assert s.queue == [s.queue[0]] + s.queue[1..];
      assert s'.handed + s'.queue == s.sent;
    }
  }

  lemma StepKeeps(s: State, step: Step)
    requires Inv(s)
    ensures Inv(Apply(s, step))
    ensures |Apply(s, step).persists| == |s.persists| && |Apply(s, step).closes| == |s.closes|
  {
    hide Inv;
    match step
    case PersistStep(t) => if t < |s.persists| { PersistKeeps(s, t); }
    case CloseStep(c) => if c < |s.closes| { CloseKeeps(s, c); }
    case WorkerStep => WorkerKeeps(s);
  }

  lemma {:induction false} RunKeeps(s: State, steps: seq<Step>)
    requires Inv(s)
    ensures Inv(Run(s, steps))
    ensures |Run(s, steps).persists| == |s.persists| && |Run(s, steps).closes| == |s.closes|
  {
    hide Inv, Apply;
    if steps != [] {
      RunKeeps(s, steps[..|steps| - 1]);
      StepKeeps(Run(s, steps[..|steps| - 1]), steps[|steps| - 1]);
    }
  }

  lemma InitInv(capacity: nat, persists: nat, closes: nat)
    requires capacity > 0
    ensures Inv(Init(capacity, persists, closes))
  {
  }

  // ----- the guarantees, over every interleaving

  /** The channel never exceeds its capacity, and at every moment the jobs given
      to process_job are, in order and each once, the first of the jobs sent; it
      is through with all of them, or with all but the last. */
  lemma ChannelIsFaithful(capacity: nat, persists: nat, closes: nat, steps: seq<Step>)
    requires capacity > 0
    ensures var s := Run(Init(capacity, persists, closes), steps);
            && |s.queue| <= capacity && s.handed <= s.sent && Distinct(s.handed)
            && s.done <= s.handed && |s.handed| <= |s.done| + 1
  {
    InitInv(capacity, persists, closes);
    RunKeeps(Init(capacity, persists, closes), steps);
    CapacityFixed(Init(capacity, persists, closes), steps);
    var s := Run(Init(capacity, persists, closes), steps);
    assert s.sent[..|s.handed|] == s.handed;
    forall i, j | 0 <= i < j < |s.handed|
      ensures s.handed[i] != s.handed[j]
    {
      assert s.sent[i] == s.handed[i] && s.sent[j] == s.handed[j];
    }
  }

  lemma {:induction false} CapacityFixed(s: State, steps: seq<Step>)
    ensures Run(s, steps).capacity == s.capacity
  {
    if steps != [] {
      CapacityFixed(s, steps[..|steps| - 1]);
    }
  }

  /** When any close call has returned, the worker task is over and every job
      whose persist returned Ok has been processed to its end, exactly once and
      in send order. */
  lemma CloseDrains(capacity: nat, persists: nat, closes: nat, steps: seq<Step>, c: nat)
    requires capacity > 0 && c < closes
    requires |Run(Init(capacity, persists, closes), steps).closes| == closes
    requires Run(Init(capacity, persists, closes), steps).closes[c].Closed?
    ensures var s := Run(Init(capacity, persists, closes), steps);
            && s.worker.Finished? && s.done == s.sent && Distinct(s.done)
            && (forall t | 0 <= t < |s.persists| && s.persists[t].ReturnedOk? :: t in s.done)
            && (forall t | t in s.done :: 0 <= t < |s.persists| && s.persists[t].ReturnedOk?)
  {
    InitInv(capacity, persists, closes);
    RunKeeps(Init(capacity, persists, closes), steps);
    hide Run;
    var s := Run(Init(capacity, persists, closes), steps);
    assert s.done + [] + [] == s.sent;
    forall t | t in s.done
      ensures 0 <= t < |s.persists| && s.persists[t].ReturnedOk?
    {
      assert t in s.sent;
      assert !HoldsClone(s.persists[t]);
    }
  }

  /** The task ends only after some close call has taken the sender, every taken
      sender has been dropped, and every clone has been used. */
  lemma EndsAfterSenders(capacity: nat, persists: nat, closes: nat, steps: seq<Step>)
    requires capacity > 0
    ensures var s := Run(Init(capacity, persists, closes), steps);
            s.worker.Finished? ==>
              && (exists c :: 0 <= c < |s.closes| && !s.closes[c].Closing?)
              && (forall c | 0 <= c < |s.closes| :: s.closes[c] != Took(true))
              && (forall t | 0 <= t < |s.persists| :: !s.persists[t].HasClone? && !s.persists[t].Sent?)
  {
    InitInv(capacity, persists, closes);
    RunKeeps(Init(capacity, persists, closes), steps);
    hide Run;
    var s := Run(Init(capacity, persists, closes), steps);
    if s.worker.Finished? {
      assert !SenderAlive(s) && !s.open;
      forall t | 0 <= t < |s.persists|
        ensures !s.persists[t].HasClone? && !s.persists[t].Sent?
      {
        assert !HoldsClone(s.persists[t]);
      }
    }
  }

  /** As long as no close call has begun, no persist call fails. */
  lemma {:induction false} OpenNeverFails(capacity: nat, persists: nat, closes: nat, steps: seq<Step>)
    requires capacity > 0
    ensures var s := Run(Init(capacity, persists, closes), steps);
            (forall c | 0 <= c < |s.closes| :: s.closes[c].Closing?) ==> forall t | 0 <= t < |s.persists| :: !s.persists[t].ReturnedErr?
  {
    var s0 := Init(capacity, persists, closes);
    InitInv(capacity, persists, closes);
    if steps != [] {
      var before := Run(s0, steps[..|steps| - 1]);
      OpenNeverFails(capacity, persists, closes, steps[..|steps| - 1]);
      RunKeeps(s0, steps[..|steps| - 1]);
      NoErrStep(before, steps[|steps| - 1]);
    }
  }

  lemma NoErrStep(s: State, step: Step)
    requires Inv(s)
    requires (forall c | 0 <= c < |s.closes| :: s.closes[c].Closing?) ==> forall t | 0 <= t < |s.persists| :: !s.persists[t].ReturnedErr?
    ensures var s' := Apply(s, step);
            (forall c | 0 <= c < |s'.closes| :: s'.closes[c].Closing?) ==> forall t | 0 <= t < |s'.persists| :: !s'.persists[t].ReturnedErr?
  {
    var s' := Apply(s, step);
    if forall c | 0 <= c < |s'.closes| :: s'.closes[c].Closing? {
      assert forall c | 0 <= c < |s.closes| :: s'.closes[c].Closing? ==> s.closes[c].Closing?;
    }
  }

  /** A persist call that has not locked the sender before it was taken fails:
      however the run goes on, it never returns Ok and its job is never processed. */
  lemma {:induction false} LatePersistFails(s: State, steps: seq<Step>, t: nat)
    requires Inv(s) && !s.open && t < |s.persists| && s.persists[t].Calling?
    ensures var s' := Run(s, steps);
            !s'.open && t < |s'.persists| && (s'.persists[t].Calling? || s'.persists[t].ReturnedErr?) && t !in s'.handed
  {
    RunKeeps(s, steps);
    if steps != [] {
      LatePersistFails(s, steps[..|steps| - 1], t);
      StaysOut(Run(s, steps[..|steps| - 1]), steps[|steps| - 1], t);
    }
    hide Run;
    var s' := Run(s, steps);
    assert t in s'.handed ==> t in s'.sent;
  }

  lemma StaysOut(s: State, step: Step, t: nat)
    requires !s.open && t < |s.persists| && (s.persists[t].Calling? || s.persists[t].ReturnedErr?)
    ensures var s' := Apply(s, step);
            !s'.open && t < |s'.persists| && (s'.persists[t].Calling? || s'.persists[t].ReturnedErr?)
  {
  }

  ghost predicate Admitted(s: State, t: nat)
  {
    t < |s.persists| && (HoldsClone(s.persists[t]) || s.persists[t].ReturnedOk?)
  }

  lemma StaysAdmitted(s: State, step: Step, t: nat)
    requires Inv(s) && Admitted(s, t)
    ensures Admitted(Apply(s, step), t)
  {
    assert s.worker.Finished? ==> !HoldsClone(s.persists[t]);
  }

  /** A persist call that locked the sender in time never fails: it keeps the
      task alive by its own clone, so the send cannot find the channel closed.
      With LatePersistFails: a call returns Err exactly when it came too late. */
  lemma {:induction false} EarlyPersistNeverFails(s: State, steps: seq<Step>, t: nat)
    requires Inv(s) && s.open && t < |s.persists| && s.persists[t].Calling?
    ensures var s' := Run(Apply(s, PersistStep(t)), steps);
            Admitted(s', t) && !s'.persists[t].ReturnedErr?
  {
    var s1 := Apply(s, PersistStep(t));
    StepKeeps(s, PersistStep(t));
    assert Admitted(s1, t);
    if steps != [] {
      EarlyPersistNeverFails(s, steps[..|steps| - 1], t);
      RunKeeps(s1, steps[..|steps| - 1]);
      StaysAdmitted(Run(s1, steps[..|steps| - 1]), steps[|steps| - 1], t);
    }
  }

  // ----- progress: no run goes on for ever, and none stops early

  function PersistRank(p: Persist): nat
  {
    match p
    case Calling => 5
    case HasClone => 4
    case Sent => 1
    case _ => 0
  }

  function CloseRank(c: Close): nat
  {
    match c
    case Closing => 4
    case Took(_) => 3
    case Dropped => 2
    case Awaiting => 1
    case Closed => 0
  }

  function WorkerRank(w: Worker): nat
  {
    match w
    case Receiving => 1
    case Processing(_) => 2
    case Finished => 0
  }

  function Total<T>(rank: T -> nat, items: seq<T>): nat
  {
    if items == [] then 0 else rank(items[0]) + Total(rank, items[1..])
  }

  lemma {:induction false} TotalUpdate<T>(rank: T -> nat, items: seq<T>, i: nat, item: T)
    requires i < |items|
    ensures Total(rank, items[i := item]) == Total(rank, items) - rank(items[i]) + rank(item)
  {
    if i == 0 {
      assert items[0 := item][1..] == items[1..];
    } else {
      TotalUpdate(rank, items[1..], i - 1, item);
      assert items[i := item][1..] == items[1..][i - 1 := item];
    }
  }

  /** What is left to do: a job that is sent is still to be taken and processed. */
  function Measure(s: State): nat
  {
    Total(PersistRank, s.persists) + Total(CloseRank, s.closes) + 2 * |s.queue| + WorkerRank(s.worker)
  }

  lemma PersistDecreases(s: State, t: nat)
    requires t < |s.persists|
    ensures PersistNext(s, t) == s || Measure(PersistNext(s, t)) < Measure(s)
  {
    hide Total;
    TotalUpdate(PersistRank, s.persists, t, PersistNext(s, t).persists[t]);
  }

  lemma CloseDecreases(s: State, c: nat)
    requires c < |s.closes|
    ensures CloseNext(s, c) == s || Measure(CloseNext(s, c)) < Measure(s)
  {
    hide Total;
    TotalUpdate(CloseRank, s.closes, c, CloseNext(s, c).closes[c]);
  }

  lemma WorkerDecreases(s: State)
    ensures WorkerNext(s) == s || Measure(WorkerNext(s)) < Measure(s)
  {
    hide Total, SenderAlive;
  }

  lemma StepDecreases(s: State, step: Step)
    ensures Apply(s, step) == s || Measure(Apply(s, step)) < Measure(s)
  {
    hide Measure, PersistNext, CloseNext, WorkerNext;
    match step
    case PersistStep(t) => if t < |s.persists| { PersistDecreases(s, t); }
    case CloseStep(c) => if c < |s.closes| { CloseDecreases(s, c); }
    case WorkerStep => WorkerDecreases(s);
  }

  ghost predicate AllEffective(s: State, steps: seq<Step>)
  {
    forall i: nat | i < |steps| :: Apply(Run(s, steps[..i]), steps[i]) != Run(s, steps[..i])
  }

  /** A run has at most Measure(s) steps that do anything, in whatever order they come. */
  lemma {:induction false} EveryRunEnds(s: State, steps: seq<Step>)
    requires AllEffective(s, steps)
    ensures Measure(Run(s, steps)) + |steps| <= Measure(s)
  {
    hide Measure, Apply;
    if steps != [] {
      var before := steps[..|steps| - 1];
      forall i: nat | i < |before|
        ensures Apply(Run(s, before[..i]), before[i]) != Run(s, before[..i])
      {
        assert before[..i] == steps[..i];
      }
      EveryRunEnds(s, before);
      StepDecreases(Run(s, before), steps[|steps| - 1]);
    }
  }

  lemma {:induction false} TotalSame<T>(rank: T -> nat, n: nat, item: T)
    ensures Total(rank, seq(n, _ => item)) == n * rank(item)
  {
    if n > 0 {
      TotalSame(rank, n - 1, item);
      assert seq(n, _ => item)[1..] == seq(n - 1, _ => item);
    }
  }

  /** So all calls together, the worker included, take at most so many steps. */
  lemma RunsAreShort(capacity: nat, persists: nat, closes: nat, steps: seq<Step>)
    requires AllEffective(Init(capacity, persists, closes), steps)
    ensures |steps| <= 5 * persists + 4 * closes + 1
  {
    hide *;
    EveryRunEnds(Init(capacity, persists, closes), steps);
    InitMeasure(capacity, persists, closes);
  }

  lemma InitMeasure(capacity: nat, persists: nat, closes: nat)
    ensures Measure(Init(capacity, persists, closes)) == 5 * persists + 4 * closes + 1
  {
    hide Total;
    TotalSame(PersistRank, persists, Calling);
    TotalSame(CloseRank, closes, Closing);
    assert seq(persists, _ => Calling) == Init(capacity, persists, closes).persists;
    assert seq(closes, _ => Closing) == Init(capacity, persists, closes).closes;
  }

  ghost predicate Stuck(s: State)
  {
    forall step :: Apply(s, step) == s
  }

  lemma LockIsReleased(s: State)
    requires Inv(s) && s.worker.Finished? && s.handleLock.Some?
    ensures Apply(s, CloseStep(s.handleLock.value)).handleLock.None?
  {
  }

  /** A state in which nothing can move is one in which every call has returned,
      the queue is empty and, if there was a close call, the worker is over:
      neither back-pressure nor the lock held while close awaits can deadlock. */
  lemma NeverDeadlocks(s: State)
    requires Inv(s) && Stuck(s)
    ensures forall t | 0 <= t < |s.persists| :: s.persists[t].ReturnedOk? || s.persists[t].ReturnedErr?
    ensures forall c | 0 <= c < |s.closes| :: s.closes[c].Closed?
    ensures s.queue == [] && (s.closes != [] ==> s.worker.Finished?)
  {
    assert Apply(s, WorkerStep) == s;
    assert s.queue == [];
    forall t: nat | t < |s.persists|
      ensures s.persists[t].ReturnedOk? || s.persists[t].ReturnedErr?
    {
      assert Apply(s, PersistStep(t)) == s;
      assert s.persists[t] == PersistNext(s, t).persists[t];
    }
    forall c: nat | c < |s.closes|
      ensures s.closes[c].Dropped? || s.closes[c].Awaiting? || s.closes[c].Closed?
    {
      assert Apply(s, CloseStep(c)) == s;
      assert s.closes[c] == CloseNext(s, c).closes[c];
    }
    if s.closes != [] {
      assert s.closes[0].Dropped? || s.closes[0].Awaiting? || s.closes[0].Closed?;
      assert !SenderAlive(s);
      assert s.worker.Finished?;
      if s.handleLock.Some? {
        LockIsReleased(s);
        assert false;
      }
      forall c: nat | c < |s.closes|
        ensures s.closes[c].Closed?
      {
        assert Apply(s, CloseStep(c)) == s;
        assert s.closes[c] == CloseNext(s, c).closes[c];
      }
    }
  }
}
