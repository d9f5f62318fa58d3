/**
 * Reload, Unregister, startup and shutdown of one registered device (server/reload.go, server/server.go), step by
 * step: every critical section and every call out of the server is one step, and any thread may take the next one.
 */
module Lifecycle {
  import opened Decimal

  /** One successful Open: its device, whether its context was cancelled, and how often it was closed. */
  datatype Handle = Handle(dev: nat, cancelled: bool, closes: nat)

  /** On whose behalf closeHardwareFor or openHardwareFor runs. */
  datatype Job = ReloadJob(newDev: nat) | CloseJob | OpenJob

  /** Where a thread stands. */
  datatype Pc =
    | Waiting                              // Reload, before reloadMu
    | Rebuilding(dev0: nat, hw0: Option<nat>, handles0: seq<Handle>) // in the Reloader; what it found at the lock
    | Taking(job: Job)                     // closeHardwareFor, before its critical section
    | Cancelling(job: Job, h: nat)         // before cancel()
    | Closing(job: Job, h: nat)            // before Close
    | Swapping(newDev: nat)                // Reload, before it swaps the device in
    | Checking(job: Job)                   // openHardwareFor, before it reads dev and hw
    | Opening(job: Job, dev: nat)          // before Open
    | Recording(job: Job, h: nat)          // before it records the handle
    | Releasing                            // Reload, before it gives reloadMu back
    | Done

  datatype State = State(
    reloadMu: Option<nat>, dev: nat, hw: Option<nat>, handles: seq<Handle>, pcs: seq<Pc>)

  /** How the call out of the server that a step makes turns out. */
  datatype Outcome = Fails | Succeeds | Rebuilds(newDev: nat)

  function AfterClose(job: Job): Pc {
    match job
    case ReloadJob(newDev) => Swapping(newDev)
    case _ => Done
  }

  function AfterOpen(job: Job): Pc {
    if job.ReloadJob? then Releasing else Done
  }

  /** Thread t's next step; a thread waiting for reloadMu stays where it is. */
  function Step(s: State, t: nat, o: Outcome): State
    requires t < |s.pcs|
  {
    match s.pcs[t]
    case Waiting =>
      if s.reloadMu.Some? then s
      else s.(reloadMu := Some(t), pcs := s.pcs[t := Rebuilding(s.dev, s.hw, s.handles)])
    case Rebuilding(_, _, _) =>
      s.(pcs := s.pcs[t := if o.Rebuilds? then Taking(ReloadJob(o.newDev)) else Releasing])
    case Taking(job) =>
      if s.hw.Some? then s.(hw := None, pcs := s.pcs[t := Cancelling(job, s.hw.value)])
      else s.(pcs := s.pcs[t := AfterClose(job)])
    case Cancelling(job, h) =>
      if h < |s.handles| then
        s.(handles := s.handles[h := s.handles[h].(cancelled := true)], pcs := s.pcs[t := Closing(job, h)])
      else s
    case Closing(job, h) =>
      if h < |s.handles| then
        var e := s.handles[h];
        s.(handles := s.handles[h := e.(closes := e.closes + 1)], pcs := s.pcs[t := AfterClose(job)])
      else s
    case Swapping(newDev) =>
      s.(dev := newDev, pcs := s.pcs[t := Checking(ReloadJob(newDev))])
    case Checking(job) =>
      s.(pcs := s.pcs[t := if s.hw.Some? then AfterOpen(job) else Opening(job, s.dev)])
    case Opening(job, dev) =>
      if o.Fails? then s.(pcs := s.pcs[t := AfterOpen(job)])
      else s.(handles := s.handles + [Handle(dev, false, 0)], pcs := s.pcs[t := Recording(job, |s.handles|)])
    case Recording(job, h) =>
      s.(hw := Some(h), pcs := s.pcs[t := AfterOpen(job)])
    case Releasing =>
      s.(reloadMu := None, pcs := s.pcs[t := Done])
    case Done => s
  }

  type Schedule = seq<(nat, Outcome)>

  /** The state a schedule leads to; a pick of a thread that does not exist is skipped. */
  function Run(s: State, schedule: Schedule): State
    decreases schedule
  {
    if schedule == [] then s
    else
      var (t, o) := schedule[0];
      Run(if t < |s.pcs| then Step(s, t, o) else s, schedule[1..])
  }

  /** The handle is open: Open returned it and nobody has called Close. */
  predicate IsOpen(s: State, h: nat) {
    h < |s.handles| && s.handles[h].closes == 0
  }

  /** The handle a thread has in hand. */
  function Held(pc: Pc): Option<nat> {
    match pc
    case Cancelling(_, h) => Some(h)
    case Closing(_, h) => Some(h)
    case Recording(_, h) => Some(h)
    case _ => None
  }

  // ---- any threads at all: every Open is closed at most once, and cancelled first ----

  /** A fresh registration: nothing opened yet, threads at the start of what they do. */
  predicate Fresh(s: State) {
    && s.reloadMu == None && s.hw == None && s.handles == []
    && forall t | 0 <= t < |s.pcs| :: s.pcs[t] in {Waiting, Taking(CloseJob), Checking(OpenJob)}
  }

  /** Every handle that is in hw or in a thread's hand is there alone, open, and not cancelled before its time. */
  ghost predicate Owned(s: State) {
    && (s.hw.Some? ==> IsOpen(s, s.hw.value))
    && (forall t | 0 <= t < |s.pcs| && Held(s.pcs[t]).Some? ::
          IsOpen(s, Held(s.pcs[t]).value) && s.hw != Held(s.pcs[t]))
    && (forall t, u | 0 <= t < u < |s.pcs| && Held(s.pcs[t]).Some? :: Held(s.pcs[t]) != Held(s.pcs[u]))
    && (forall t | 0 <= t < |s.pcs| && s.pcs[t].Closing? :: s.handles[s.pcs[t].h].cancelled)
    && (forall h | 0 <= h < |s.handles| ::
          s.handles[h].closes <= 1 && (s.handles[h].closes == 1 ==> s.handles[h].cancelled))
  }

  /** A step moves one thread only. */
  lemma StepFrame(s: State, t: nat, o: Outcome)
    requires t < |s.pcs|
    ensures |Step(s, t, o).pcs| == |s.pcs|
    ensures forall u | 0 <= u < |s.pcs| && u != t :: Step(s, t, o).pcs[u] == s.pcs[u]
  {
  }

  lemma TakeOwned(s: State, t: nat, o: Outcome)
    requires Owned(s) && t < |s.pcs| && s.pcs[t].Taking?
    ensures Owned(Step(s, t, o))
  {
    StepFrame(s, t, o);
  }

  lemma CancelOwned(s: State, t: nat, o: Outcome)
    requires Owned(s) && t < |s.pcs| && s.pcs[t].Cancelling?
    ensures Owned(Step(s, t, o))
  {
    StepFrame(s, t, o);
  }

  lemma CloseOwned(s: State, t: nat, o: Outcome)
    requires Owned(s) && t < |s.pcs| && s.pcs[t].Closing?
    ensures Owned(Step(s, t, o))
  {
    StepFrame(s, t, o);
  }

  lemma OpenOwned(s: State, t: nat, o: Outcome)
    requires Owned(s) && t < |s.pcs| && s.pcs[t].Opening?
    ensures Owned(Step(s, t, o))
  {
    StepFrame(s, t, o);
  }

  lemma RecordOwned(s: State, t: nat, o: Outcome)
    requires Owned(s) && t < |s.pcs| && s.pcs[t].Recording?
    ensures Owned(Step(s, t, o))
  {
    StepFrame(s, t, o);
  }

  /** The other steps touch neither hw nor any handle. */
  lemma OtherOwned(s: State, t: nat, o: Outcome)
    requires Owned(s) && t < |s.pcs| && Held(s.pcs[t]) == None && !s.pcs[t].Taking? && !s.pcs[t].Opening?
    ensures Owned(Step(s, t, o))
  {
    StepFrame(s, t, o);
    var s' := Step(s, t, o);
    assert s'.hw == s.hw && s'.handles == s.handles && Held(s'.pcs[t]) == None;
  }

  lemma StepOwned(s: State, t: nat, o: Outcome)
    requires Owned(s) && t < |s.pcs|
    ensures Owned(Step(s, t, o))
  {
    hide Owned, Step;
    match s.pcs[t] {
      case Taking(_) => TakeOwned(s, t, o);
      case Cancelling(_, _) => CancelOwned(s, t, o);
      case Closing(_, _) => CloseOwned(s, t, o);
      case Opening(_, _) => OpenOwned(s, t, o);
      case Recording(_, _) => RecordOwned(s, t, o);
      case _ => OtherOwned(s, t, o);
    }
  }

  lemma {:induction false} RunOwned(s: State, schedule: Schedule)
    requires Owned(s)
    ensures Owned(Run(s, schedule))
    decreases schedule
  {
    if schedule != [] {
      var (t, o) := schedule[0];
      if t < |s.pcs| {
        StepOwned(s, t, o);
        RunOwned(Step(s, t, o), schedule[1..]);
      } else {
        RunOwned(s, schedule[1..]);
      }
    }
  }

  /** Whatever races, no Open is closed twice and none is closed before its context is cancelled. */
  lemma ClosedAtMostOnce(s: State, schedule: Schedule)
    requires Fresh(s)
    ensures forall h | 0 <= h < |Run(s, schedule).handles| ::
              var e := Run(s, schedule).handles[h];
              e.closes <= 1 && (e.closes == 1 ==> e.cancelled)
  {
    RunOwned(s, schedule);
  }

  // ---- reloads alone: one handle at a time ----

  /** The thread holds reloadMu. */
  predicate Inside(pc: Pc) {
    !pc.Waiting? && !pc.Done?
  }

  /** A pc of Reload. */
  predicate OfReload(pc: Pc) {
    match pc
    case Taking(job) => job.ReloadJob?
    case Cancelling(job, _) => job.ReloadJob?
    case Closing(job, _) => job.ReloadJob?
    case Checking(job) => job.ReloadJob?
    case Opening(job, _) => job.ReloadJob?
    case Recording(job, _) => job.ReloadJob?
    case _ => true
  }

  /** A registration between reloads: its handle, if it has one, is the only one open and is its device's. */
  predicate Settled(s: State) {
    && (s.hw.Some? ==> IsOpen(s, s.hw.value) && s.handles[s.hw.value].dev == s.dev && !s.handles[s.hw.value].cancelled)
    && forall h | 0 <= h < |s.handles| :: s.handles[h].closes == 0 <==> s.hw == Some(h)
  }

  /** What holds while the thread that has reloadMu is at pc. */
  ghost predicate Holds(s: State, pc: Pc) {
    match pc
    case Rebuilding(dev0, hw0, handles0) => Settled(s) && s.dev == dev0 && s.hw == hw0 && s.handles == handles0
    case Taking(_) => Settled(s)
    case Cancelling(_, h) => s.hw == None && OnlyOpen(s, h)
    case Closing(_, h) => s.hw == None && OnlyOpen(s, h) && s.handles[h].cancelled
    case Swapping(_) => s.hw == None && Settled(s)
    case Checking(_) => s.hw == None && Settled(s)
    case Opening(_, dev) => s.hw == None && Settled(s) && dev == s.dev
    case Recording(_, h) => s.hw == None && OnlyOpen(s, h) && s.handles[h].dev == s.dev && !s.handles[h].cancelled
    case Releasing => Settled(s)
    case _ => true
  }

  ghost predicate OnlyOpen(s: State, h: nat) {
    h < |s.handles| && forall k | 0 <= k < |s.handles| :: s.handles[k].closes == 0 <==> k == h
  }

  /** Only Reloads run, at most one of them inside. */
  ghost predicate Serialized(s: State) {
    && (forall t | 0 <= t < |s.pcs| :: OfReload(s.pcs[t]))
    && (forall t | 0 <= t < |s.pcs| :: Inside(s.pcs[t]) <==> s.reloadMu == Some(t))
    && (s.reloadMu.Some? ==> s.reloadMu.value < |s.pcs| && Holds(s, s.pcs[s.reloadMu.value]))
    && (s.reloadMu.None? ==> Settled(s))
  }

  /** The thread inside goes on from a good place to a good place. */
  lemma HolderStep(s: State, t: nat, o: Outcome)
    requires t < |s.pcs| && OfReload(s.pcs[t]) && Inside(s.pcs[t]) && s.reloadMu == Some(t) && Holds(s, s.pcs[t])
    ensures var s' := Step(s, t, o);
            && OfReload(s'.pcs[t])
            && (if s.pcs[t] == Releasing then s'.reloadMu == None && !Inside(s'.pcs[t]) && Settled(s')
                else s'.reloadMu == Some(t) && Inside(s'.pcs[t]) && Holds(s', s'.pcs[t]))
  {
    match s.pcs[t] {
      case Closing(_, _) => HolderCloses(s, t, o);
      case Opening(_, _) => HolderOpens(s, t, o);
      case Cancelling(_, _) => HolderCancels(s, t, o);
      case _ =>
        hide IsOpen, OnlyOpen;
    }
  }

  lemma HolderCloses(s: State, t: nat, o: Outcome)
    requires t < |s.pcs| && s.pcs[t].Closing? && s.pcs[t].job.ReloadJob? && Holds(s, s.pcs[t])
    ensures var s' := Step(s, t, o);
            s'.pcs[t].Swapping? && s'.reloadMu == s.reloadMu && s'.hw == None && Settled(s')
  {
    var s' := Step(s, t, o);
    assert forall k | 0 <= k < |s'.handles| :: s'.handles[k].closes != 0;
  }

  lemma HolderOpens(s: State, t: nat, o: Outcome)
    requires t < |s.pcs| && s.pcs[t].Opening? && s.pcs[t].job.ReloadJob? && Holds(s, s.pcs[t])
    ensures var s' := Step(s, t, o);
            && OfReload(s'.pcs[t]) && Inside(s'.pcs[t]) && s'.reloadMu == s.reloadMu && Holds(s', s'.pcs[t])
  {
  }

  lemma HolderCancels(s: State, t: nat, o: Outcome)
    requires t < |s.pcs| && s.pcs[t].Cancelling? && s.pcs[t].job.ReloadJob? && Holds(s, s.pcs[t])
    ensures var s' := Step(s, t, o);
            && OfReload(s'.pcs[t]) && Inside(s'.pcs[t]) && s'.reloadMu == s.reloadMu && Holds(s', s'.pcs[t])
  {
  }

  lemma StepSerialized(s: State, t: nat, o: Outcome)
    requires Serialized(s) && t < |s.pcs|
    ensures Serialized(Step(s, t, o))
  {
    StepFrame(s, t, o);
    if Inside(s.pcs[t]) {
      hide Step, Holds, OfReload, Settled;
      HolderStep(s, t, o);
    } else {
      Entering(s, t, o);
    }
  }

  /** A thread outside either gets its turn, or nothing happens. */
  lemma Entering(s: State, t: nat, o: Outcome)
    requires Serialized(s) && t < |s.pcs| && !Inside(s.pcs[t])
    ensures Serialized(Step(s, t, o))
  {
    StepFrame(s, t, o);
  }

  lemma {:induction false} RunSerialized(s: State, schedule: Schedule)
    requires Serialized(s)
    ensures Serialized(Run(s, schedule))
    decreases schedule
  {
    if schedule != [] {
      var (t, o) := schedule[0];
      if t < |s.pcs| {
        StepSerialized(s, t, o);
        RunSerialized(Step(s, t, o), schedule[1..]);
      } else {
        RunSerialized(s, schedule[1..]);
      }
    }
  }

  /** Any number of Reloads of one settled device, about to start. */
  predicate AboutToReload(s: State) {
    s.reloadMu == None && Settled(s) && forall t | 0 <= t < |s.pcs| :: s.pcs[t] == Waiting
  }

  /**
   * However concurrent Reloads of one device interleave and whatever their rebuilds and Opens do, at no point are
   * two handles open.
   */
  lemma OneHandleAtATime(s: State, schedule: Schedule, h: nat, k: nat)
    requires AboutToReload(s)
    requires IsOpen(Run(s, schedule), h) && IsOpen(Run(s, schedule), k)
    ensures h == k
  {
    RunSerialized(s, schedule);
  }

  /** When they have all returned, what is open is what the server has recorded, and it is the serving device's. */
  lemma NothingLeaks(s: State, schedule: Schedule)
    requires AboutToReload(s)
    requires forall t | 0 <= t < |Run(s, schedule).pcs| :: Run(s, schedule).pcs[t] == Done
    ensures Settled(Run(s, schedule))
  {
    RunSerialized(s, schedule);
  }

  /**
   * A rebuild that fails leaves the device, its handle and every other handle as they were when this Reload got its
   * turn: the old device serves on with its handle open.
   */
  lemma FailedRebuild(s: State, schedule: Schedule, t: nat)
    requires AboutToReload(s)
    requires t < |Run(s, schedule).pcs| && Run(s, schedule).pcs[t].Rebuilding?
    ensures var now := Run(s, schedule);
            var after := Step(now, t, Fails);
            && after.pcs[t] == Releasing
            && after.dev == now.pcs[t].dev0 && after.hw == now.pcs[t].hw0 && after.handles == now.pcs[t].handles0
            && Settled(after)
            && (after.hw.Some? ==> IsOpen(after, after.hw.value) && after.handles[after.hw.value].dev == after.dev)
  {
    RunSerialized(s, schedule);
  }

  // ---- when one handle at a time survives racing closes and opens ----

  /** A settled registration and any threads about to reload, close or open it. */
  predicate AboutToRace(s: State) {
    && s.reloadMu == None && Settled(s)
    && forall t | 0 <= t < |s.pcs| :: s.pcs[t] in {Waiting, Taking(CloseJob), Checking(OpenJob)}
  }

  function Reloads(s: State): nat {
    multiset(s.pcs)[Waiting]
  }

  function Closes(s: State): nat {
    multiset(s.pcs)[Taking(CloseJob)]
  }

  function Opens(s: State): nat {
    multiset(s.pcs)[Checking(OpenJob)]
  }

  /** At most one thing can be or become open, or only Reloads run, or there is nothing for the opens to do. */
  predicate CannotOverlap(s: State) {
    || (if s.hw.Some? then 1 else 0) + Reloads(s) + Opens(s) <= 1
    || (Closes(s) == 0 && Opens(s) == 0)
    || (s.hw.Some? && Reloads(s) == 0 && Closes(s) == 0)
  }

  ghost predicate TwoOpen(s: State) {
    exists h: nat, k: nat :: h != k && IsOpen(s, h) && IsOpen(s, k)
  }

  /** The thread may still open a handle. */
  predicate MayOpen(pc: Pc) {
    match pc
    case Waiting => true
    case Rebuilding(_, _, _) => true
    case Taking(job) => job.ReloadJob?
    case Cancelling(job, _) => job.ReloadJob?
    case Closing(job, _) => job.ReloadJob?
    case Swapping(_) => true
    case Checking(_) => true
    case Opening(_, _) => true
    case _ => false
  }

  /** One handle is open and nobody may open another, or one thread at most may open and nothing is open. */
  ghost predicate OneSource(s: State) {
    && (forall h: nat, k: nat | IsOpen(s, h) && IsOpen(s, k) :: h == k)
    && (forall t, u | 0 <= t < u < |s.pcs| :: !(MayOpen(s.pcs[t]) && MayOpen(s.pcs[u])))
    && (forall h: nat, t | IsOpen(s, h) && 0 <= t < |s.pcs| :: !MayOpen(s.pcs[t]))
  }

  /** A step either opens, and then its thread may open no more, or opens nothing. */
  lemma StepOpens(s: State, t: nat, o: Outcome)
    requires t < |s.pcs|
    ensures var s' := Step(s, t, o);
            && (MayOpen(s'.pcs[t]) ==> MayOpen(s.pcs[t]))
            && (forall h: nat | IsOpen(s', h) && !IsOpen(s, h) ::
                  h == |s.handles| && MayOpen(s.pcs[t]) && !MayOpen(s'.pcs[t]))
  {
  }

  lemma {:induction false} RunOneSource(s: State, schedule: Schedule)
    requires OneSource(s)
    ensures OneSource(Run(s, schedule))
    decreases schedule
  {
    if schedule != [] {
      var (t, o) := schedule[0];
      if t < |s.pcs| {
        hide Step, IsOpen, MayOpen;
        StepFrame(s, t, o);
        StepOpens(s, t, o);
        RunOneSource(Step(s, t, o), schedule[1..]);
      } else {
        RunOneSource(s, schedule[1..]);
      }
    }
  }

  /** With a handle recorded, opens find it and do nothing. */
  lemma {:induction false} RunIdleOpens(s: State, schedule: Schedule)
    requires s.hw.Some? && forall t | 0 <= t < |s.pcs| :: s.pcs[t] in {Checking(OpenJob), Done}
    ensures Run(s, schedule).handles == s.handles && Run(s, schedule).hw == s.hw
    decreases schedule
  {
    if schedule != [] {
      var (t, o) := schedule[0];
      if t < |s.pcs| {
        StepFrame(s, t, o);
        RunIdleOpens(Step(s, t, o), schedule[1..]);
      } else {
        RunIdleOpens(s, schedule[1..]);
      }
    }
  }

  // ---- witnesses for the other mixes ----

  ghost predicate Reaches(s: State, s': State) {
    exists schedule: Schedule :: Run(s, schedule) == s'
  }

  lemma {:induction false} RunAppend(s: State, a: Schedule, b: Schedule)
    ensures Run(s, a + b) == Run(Run(s, a), b)
    decreases a
  {
    if a == [] {
      assert a + b == b;
    } else {
      var (t, o) := a[0];
      assert (a + b)[1..] == a[1..] + b;
      RunAppend(if t < |s.pcs| then Step(s, t, o) else s, a[1..], b);
    }
  }

  lemma ReachesItself(s: State)
    ensures Reaches(s, s)
  {
    assert Run(s, []) == s;
  }

  lemma ReachesOneOn(s0: State, s: State, t: nat, o: Outcome)
    requires Reaches(s0, s) && t < |s.pcs|
    ensures Reaches(s0, Step(s, t, o))
  {
    hide Step;
    var schedule: Schedule :| Run(s0, schedule) == s;
    RunAppend(s0, schedule, [(t, o)]);
    assert Run(Step(s, t, o), []) == Step(s, t, o);
    assert Run(s, [(t, o)]) == Step(s, t, o);
  }

  /** A witness moves thread t: the others stay where they were, and what is open stays open. */
  ghost predicate Only(s: State, s': State, t: nat) {
    && t < |s.pcs| == |s'.pcs|
    && (forall u | 0 <= u < |s.pcs| && u != t :: s'.pcs[u] == s.pcs[u])
    && (forall h: nat | IsOpen(s, h) :: IsOpen(s', h))
  }

  lemma Move(s0: State, s: State, t: nat, o: Outcome) returns (s': State)
    requires Reaches(s0, s) && t < |s.pcs| && !s.pcs[t].Closing?
    ensures s' == Step(s, t, o) && Reaches(s0, s') && Only(s, s', t)
  {
    s' := Step(s, t, o);
    ReachesOneOn(s0, s, t, o);
  }

  /** A Reload that gets the lock while nothing is recorded, up to the point where it is about to open. */
  lemma ReloadToOpening(s0: State, s: State, t: nat) returns (s': State)
    requires Reaches(s0, s) && t < |s.pcs| && s.pcs[t] == Waiting && s.reloadMu == None && s.hw == None
    ensures Reaches(s0, s') && Only(s, s', t)
    ensures s' == s.(reloadMu := Some(t), dev := 0, pcs := s.pcs[t := Opening(ReloadJob(0), 0)])
  {
    hide Reaches;
    s' := Move(s0, s, t, Succeeds);
    s' := Move(s0, s', t, Rebuilds(0));
    s' := Move(s0, s', t, Succeeds);
    s' := Move(s0, s', t, Succeeds);
    s' := Move(s0, s', t, Succeeds);
  }

  /** And on to its Open. */
  lemma ReloadOpens(s0: State, s: State, t: nat) returns (s': State)
    requires Reaches(s0, s) && t < |s.pcs| && s.pcs[t] == Waiting && s.reloadMu == None && s.hw == None
    ensures Reaches(s0, s') && Only(s, s', t) && IsOpen(s', |s.handles|)
    ensures s' == s.(reloadMu := Some(t), dev := 0, handles := s.handles + [Handle(0, false, 0)],
                     pcs := s.pcs[t := Recording(ReloadJob(0), |s.handles|)])
  {
    hide Reaches;
    s' := ReloadToOpening(s0, s, t);
    s' := Move(s0, s', t, Succeeds);
  }

  /** Two opens of a device that is not open. */
  lemma OpensRace(s: State, t: nat, u: nat) returns (s': State)
    requires t < |s.pcs| && u < |s.pcs| && t != u && s.hw == None
    requires s.pcs[t] == s.pcs[u] == Checking(OpenJob)
    ensures Reaches(s, s') && TwoOpen(s')
  {
    hide Reaches;
    ReachesItself(s);
    s' := Move(s, s, t, Succeeds);
    s' := Move(s, s', u, Succeeds);
    s' := Move(s, s', t, Succeeds);
    s' := Move(s, s', u, Succeeds);
    assert IsOpen(s', |s.handles|) && IsOpen(s', |s.handles| + 1);
  }

  /** An open and a Reload of a device that is not open. */
  lemma OpenRacesReload(s: State, t: nat, u: nat) returns (s': State)
    requires t < |s.pcs| && u < |s.pcs| && s.hw == None && s.reloadMu == None
    requires s.pcs[t] == Checking(OpenJob) && s.pcs[u] == Waiting
    ensures Reaches(s, s') && TwoOpen(s')
  {
    hide Reaches;
    ReachesItself(s);
    s' := Move(s, s, t, Succeeds);
    s' := ReloadOpens(s, s', u);
    s' := Move(s, s', t, Succeeds);
    assert IsOpen(s', |s.handles|) && IsOpen(s', |s.handles| + 1);
  }

  /** An open of an open device, once a close has taken its handle out and before it closes it. */
  lemma OpenRacesClose(s: State, t: nat, v: nat) returns (s': State)
    requires t < |s.pcs| && v < |s.pcs| && s.hw.Some? && IsOpen(s, s.hw.value)
    requires s.pcs[t] == Checking(OpenJob) && s.pcs[v] == Taking(CloseJob)
    ensures Reaches(s, s') && TwoOpen(s')
  {
    hide Reaches;
    ReachesItself(s);
    s' := Move(s, s, v, Succeeds);
    s' := Move(s, s', t, Succeeds);
    s' := Move(s, s', t, Succeeds);
    assert IsOpen(s', s.hw.value) && IsOpen(s', |s.handles|);
  }

  /** The same with a Reload that has taken the handle out. */
  lemma OpenRacesTaking(s: State, t: nat, u: nat) returns (s': State)
    requires t < |s.pcs| && u < |s.pcs| && s.hw.Some? && IsOpen(s, s.hw.value) && s.reloadMu == None
    requires s.pcs[t] == Checking(OpenJob) && s.pcs[u] == Waiting
    ensures Reaches(s, s') && TwoOpen(s')
  {
    hide Reaches;
    ReachesItself(s);
    s' := Move(s, s, u, Succeeds);
    s' := Move(s, s', u, Rebuilds(0));
    s' := Move(s, s', u, Succeeds);
    s' := Move(s, s', t, Succeeds);
    s' := Move(s, s', t, Succeeds);
    assert IsOpen(s', s.hw.value) && IsOpen(s', |s.handles|);
  }

  /** With an Unregister beside a Reload, two handles can be open at once. */
  lemma UnregisterRaces(s0: State, s: State, u: nat, v: nat) returns (s': State)
    requires Reaches(s0, s) && u < |s.pcs| && v < |s.pcs|
    requires s.hw.Some? && IsOpen(s, s.hw.value) && s.reloadMu == None
    requires s.pcs[u] == Waiting && s.pcs[v] == Taking(CloseJob)
    ensures Reaches(s0, s') && TwoOpen(s')
  {
    hide Reaches;
    var taken := Move(s0, s, v, Succeeds);
    s' := ReloadOpens(s0, taken, u);
    assert IsOpen(s', s.hw.value) && IsOpen(s', |s.handles|);
  }

  /** And beside two Reloads of a device that is not open: the first one opens it. */
  lemma UnregisterRacesTwo(s: State, t: nat, u: nat, v: nat) returns (s': State)
    requires t < |s.pcs| && u < |s.pcs| && v < |s.pcs| && t != u && s.hw == None && s.reloadMu == None
    requires s.pcs[t] == s.pcs[u] == Waiting && s.pcs[v] == Taking(CloseJob)
    ensures Reaches(s, s') && TwoOpen(s')
  {
    hide Reaches, TwoOpen;
    ReachesItself(s);
    s' := ReloadOpens(s, s, t);
    s' := Move(s, s', t, Succeeds);
    s' := Move(s, s', t, Succeeds);
    s' := UnregisterRaces(s, s', u, v);
  }

  // ---- exactly when ----

  lemma Found(pcs: seq<Pc>, pc: Pc) returns (t: nat)
    requires multiset(pcs)[pc] > 0
    ensures t < |pcs| && pcs[t] == pc
  {
    assert pc in multiset(pcs);
    t :| t < |pcs| && pcs[t] == pc;
  }

  lemma FoundTwo(pcs: seq<Pc>, pc: Pc) returns (t: nat, u: nat)
    requires multiset(pcs)[pc] > 1
    ensures t < |pcs| && u < |pcs| && t != u && pcs[t] == pcs[u] == pc
  {
    t := Found(pcs, pc);
    var others := pcs[..t] + pcs[t + 1..];
    assert pcs == pcs[..t] + [pc] + pcs[t + 1..];
    assert multiset(pcs) == multiset(others) + multiset{pc};
    var i := Found(others, pc);
    u := if i < t then i else i + 1;
  }

  lemma FoundNone(pcs: seq<Pc>, pc: Pc)
    requires multiset(pcs)[pc] == 0
    ensures forall t | 0 <= t < |pcs| :: pcs[t] != pc
  {
    forall t | 0 <= t < |pcs|
      ensures pcs[t] != pc
    {
      assert pcs[t] in multiset(pcs);
    }
  }

  /** Two threads that may open are two of the same kind or one of each. */
  lemma TwoMayOpen(pcs: seq<Pc>, t: nat, u: nat)
    requires t < u < |pcs| && pcs[t] in {Waiting, Checking(OpenJob)} && pcs[u] in {Waiting, Checking(OpenJob)}
    ensures multiset(pcs)[Waiting] + multiset(pcs)[Checking(OpenJob)] >= 2
  {
    assert pcs == pcs[..t] + ([pcs[t]] + pcs[t + 1..u] + [pcs[u]]) + pcs[u + 1..];
    assert multiset(pcs) == multiset(pcs[..t]) + multiset{pcs[t]} + multiset(pcs[t + 1..u]) + multiset{pcs[u]}
                            + multiset(pcs[u + 1..]);
  }

  lemma SourcesCounted(s: State)
    requires AboutToRace(s) && (if s.hw.Some? then 1 else 0) + Reloads(s) + Opens(s) <= 1
    ensures OneSource(s)
  {
    forall t, u | 0 <= t < u < |s.pcs|
      ensures !(MayOpen(s.pcs[t]) && MayOpen(s.pcs[u]))
    {
      if MayOpen(s.pcs[t]) && MayOpen(s.pcs[u]) {
        TwoMayOpen(s.pcs, t, u);
      }
    }
    forall h: nat, t | IsOpen(s, h) && 0 <= t < |s.pcs|
      ensures !MayOpen(s.pcs[t])
    {
      assert s.pcs[t] in multiset(s.pcs);
    }
  }

  lemma OverlapNever(s: State, schedule: Schedule)
    requires AboutToRace(s) && CannotOverlap(s)
    ensures !TwoOpen(Run(s, schedule))
  {
    hide Run, MayOpen;
    if (if s.hw.Some? then 1 else 0) + Reloads(s) + Opens(s) <= 1 {
      SourcesCounted(s);
      RunOneSource(s, schedule);
    } else if Closes(s) == 0 && Opens(s) == 0 {
      FoundNone(s.pcs, Taking(CloseJob));
      FoundNone(s.pcs, Checking(OpenJob));
      RunSerialized(s, schedule);
    } else {
      FoundNone(s.pcs, Taking(CloseJob));
      FoundNone(s.pcs, Waiting);
      RunIdleOpens(s, schedule);
    }
  }

  lemma OverlapPossible(s: State) returns (s': State)
    requires AboutToRace(s) && !CannotOverlap(s)
    ensures Reaches(s, s') && TwoOpen(s')
  {
    hide Reaches, TwoOpen;
    var n, c, o := Reloads(s), Closes(s), Opens(s);
    if s.hw.None? {
      if o >= 2 {
        var t, u := FoundTwo(s.pcs, Checking(OpenJob));
        s' := OpensRace(s, t, u);
      } else if o == 1 {
        var t := Found(s.pcs, Checking(OpenJob));
        var u := Found(s.pcs, Waiting);
        s' := OpenRacesReload(s, t, u);
      } else {
        var t, u := FoundTwo(s.pcs, Waiting);
        var v := Found(s.pcs, Taking(CloseJob));
        s' := UnregisterRacesTwo(s, t, u, v);
      }
    } else if o > 0 && n > 0 {
      var t := Found(s.pcs, Checking(OpenJob));
      var u := Found(s.pcs, Waiting);
      s' := OpenRacesTaking(s, t, u);
    } else {
      var v := Found(s.pcs, Taking(CloseJob));
      if o > 0 {
        var t := Found(s.pcs, Checking(OpenJob));
        s' := OpenRacesClose(s, t, v);
      } else {
        var u := Found(s.pcs, Waiting);
        ReachesItself(s);
        s' := UnregisterRaces(s, s, u, v);
      }
    }
  }

  /**
   * Exactly when no schedule has two handles open: at most one of the recorded handle, the Reloads and the opens is
   * there, or Reloads run alone, or opens run alone on a device that is open.
   */
  lemma SingleOpenExactly(s: State)
    requires AboutToRace(s)
    ensures (forall s' | Reaches(s, s') :: !TwoOpen(s')) <==> CannotOverlap(s)
  {
    hide TwoOpen, Run;
    if CannotOverlap(s) {
      forall s' | Reaches(s, s')
        ensures !TwoOpen(s')
      {
        var schedule: Schedule :| Run(s, schedule) == s';
        OverlapNever(s, schedule);
      }
    } else {
      var s' := OverlapPossible(s);
      assert Reaches(s, s') && TwoOpen(s');
    }
  }
}
