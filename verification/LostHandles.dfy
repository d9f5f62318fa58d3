/**
 * What the threads of Lifecycle leave behind once all of them have returned: exactly when every handle that is still
 * open is the one the server has recorded, and, where the last close of the device is among them, exactly when every
 * handle is closed. After an Unregister or a shutdown nobody looks at the record any more.
 */
module LostHandles {
  import opened Decimal
  import opened Lifecycle

  /** An open handle that no close would find: it is not recorded, and no thread has it in hand. */
  predicate Lost(s: State, h: nat) {
    IsOpen(s, h) && s.hw != Some(h) && forall t | 0 <= t < |s.pcs| :: Held(s.pcs[t]) != Some(h)
  }

  predicate AllDone(s: State) {
    forall t | 0 <= t < |s.pcs| :: s.pcs[t] == Done
  }

  /** Every open handle is the recorded one, where a close finds it if one is still to come. */
  predicate NothingLeft(s: State) {
    forall h | 0 <= h < |s.handles| && s.handles[h].closes == 0 :: s.hw == Some(h)
  }

  /** Every handle has been closed, the recorded one included. */
  predicate AllClosed(s: State) {
    forall h | 0 <= h < |s.handles| :: s.handles[h].closes > 0
  }

  // ---- a lost handle stays lost ----

  lemma StepLost(s: State, t: nat, o: Outcome, h: nat)
    requires Lost(s, h) && t < |s.pcs|
    ensures Lost(Step(s, t, o), h)
  {
    StepFrame(s, t, o);
    assert Held(s.pcs[t]) != Some(h);
  }

  lemma {:induction false} LostForever(s: State, schedule: Schedule, h: nat)
    requires Lost(s, h)
    ensures Lost(Run(s, schedule), h)
    decreases schedule
  {
    if schedule != [] {
      var (t, o) := schedule[0];
      if t < |s.pcs| {
        StepLost(s, t, o, h);
        LostForever(Step(s, t, o), schedule[1..], h);
      } else {
        LostForever(s, schedule[1..], h);
      }
    }
  }

  // ---- every run can be finished ----

  /** The threads that are inside a Reload are the one that has reloadMu; handles in hand exist. */
  ghost predicate Locked(s: State) {
    && (forall t | 0 <= t < |s.pcs| :: HasLock(s.pcs[t]) <==> s.reloadMu == Some(t))
    && (s.reloadMu.Some? ==> s.reloadMu.value < |s.pcs|)
    && (forall t | 0 <= t < |s.pcs| && Held(s.pcs[t]).Some? :: Held(s.pcs[t]).value < |s.handles|)
    && (s.hw.Some? ==> s.hw.value < |s.handles|)
  }

  /** A place in Reload, from its start to where it gives reloadMu back. */
  predicate InReload(pc: Pc) {
    !pc.Done? && OfReload(pc)
  }

  /** A place in Reload between taking reloadMu and giving it back. */
  predicate HasLock(pc: Pc) {
    InReload(pc) && !pc.Waiting?
  }

  /** How many steps a thread has to go at most. */
  function StepsLeft(pc: Pc): nat {
    match pc
    case Waiting => 10
    case Rebuilding(_, _, _) => 9
    case Taking(_) => 8
    case Cancelling(_, _) => 7
    case Closing(_, _) => 6
    case Swapping(_) => 5
    case Checking(_) => 4
    case Opening(_, _) => 3
    case Recording(_, _) => 2
    case Releasing => 1
    case Done => 0
  }

  function Total(pcs: seq<Pc>): nat {
    if pcs == [] then 0 else StepsLeft(pcs[0]) + Total(pcs[1..])
  }

  lemma {:induction false} TotalUpdate(pcs: seq<Pc>, t: nat, pc: Pc)
    requires t < |pcs|
    ensures Total(pcs[t := pc]) == Total(pcs) - StepsLeft(pcs[t]) + StepsLeft(pc)
  {
    if t > 0 {
      assert pcs[t := pc][1..] == pcs[1..][t - 1 := pc];
      TotalUpdate(pcs[1..], t - 1, pc);
    } else {
      assert pcs[t := pc][1..] == pcs[1..];
    }
  }

  /** Handles are numbered as they come. */
  lemma StepNumbers(s: State, t: nat, o: Outcome)
    requires t < |s.pcs| && (Held(s.pcs[t]).Some? ==> Held(s.pcs[t]).value < |s.handles|)
    requires s.hw.Some? ==> s.hw.value < |s.handles|
    ensures var s' := Step(s, t, o);
            && |s.handles| <= |s'.handles|
            && (Held(s'.pcs[t]).Some? ==> Held(s'.pcs[t]).value < |s'.handles|)
            && (s'.hw.Some? ==> s'.hw.value < |s'.handles|)
  {
  }

  /** reloadMu changes hands where a Reload starts and where it ends. */
  lemma StepLock(s: State, t: nat, o: Outcome)
    requires Locked(s) && t < |s.pcs|
    ensures var s' := Step(s, t, o);
            && (s'.reloadMu != s.reloadMu ==>
                  (s.reloadMu == None && s'.reloadMu == Some(t)) || (s.reloadMu == Some(t) && s'.reloadMu == None))
            && (HasLock(s'.pcs[t]) <==> s'.reloadMu == Some(t))
  {
    assert HasLock(s.pcs[t]) <==> s.reloadMu == Some(t);
    assert Held(s.pcs[t]).Some? ==> Held(s.pcs[t]).value < |s.handles|;
    hide Locked;
  }

  lemma StepLocked(s: State, t: nat, o: Outcome)
    requires Locked(s) && t < |s.pcs|
    ensures Locked(Step(s, t, o))
  {
    StepFrame(s, t, o);
    StepLock(s, t, o);
    StepNumbers(s, t, o);
    hide Step, HasLock, Held;
  }

  lemma {:induction false} RunLocked(s: State, schedule: Schedule)
    requires Locked(s)
    ensures Locked(Run(s, schedule))
    decreases schedule
  {
    if schedule != [] {
      var (t, o) := schedule[0];
      if t < |s.pcs| {
        StepLocked(s, t, o);
        RunLocked(Step(s, t, o), schedule[1..]);
      } else {
        RunLocked(s, schedule[1..]);
      }
    }
  }

  /** A thread that is not waiting for somebody else's lock moves on. */
  lemma Moves(s: State, t: nat, o: Outcome)
    requires Locked(s) && t < |s.pcs| && s.pcs[t] != Done && (s.pcs[t] == Waiting ==> s.reloadMu == None)
    ensures var s' := Step(s, t, o);
            s'.pcs == s.pcs[t := s'.pcs[t]] && StepsLeft(s'.pcs[t]) < StepsLeft(s.pcs[t])
  {
  }

  /** The threads outside spare have returned, and those in it are where they were. */
  predicate Rested(pcs: seq<Pc>, spare: set<nat>, pcs': seq<Pc>) {
    |pcs'| == |pcs| && forall t: nat | t < |pcs| :: pcs'[t] == if t in spare then pcs[t] else Done
  }

  /** However the call of such a step turns out, the step is progress. */
  lemma Progress(s: State, t: nat, o: Outcome)
    requires Locked(s) && t < |s.pcs| && s.pcs[t] != Done && (s.pcs[t] == Waiting ==> s.reloadMu == None)
    ensures var s' := Step(s, t, o);
            Locked(s') && Total(s'.pcs) < Total(s.pcs) && s'.pcs == s.pcs[t := s'.pcs[t]]
  {
    Moves(s, t, o);
    StepLocked(s, t, o);
    hide Step, Locked;
    TotalUpdate(s.pcs, t, Step(s, t, o).pcs[t]);
  }

  /** No deadlock: from any place in a run its threads can return, whichever of those outside the lock stand still. */
  lemma {:induction false} OthersFinish(s: State, spare: set<nat>) returns (schedule: Schedule)
    requires Locked(s) && forall t: nat | t in spare && t < |s.pcs| :: !HasLock(s.pcs[t])
    ensures Rested(s.pcs, spare, Run(s, schedule).pcs)
    decreases Total(s.pcs)
  {
    if Rested(s.pcs, spare, s.pcs) {
      schedule := [];
    } else {
      var t := Mover(s, spare);
      Progress(s, t, Succeeds);
      StayOutside(s, spare, t);
      hide Step, Locked, HasLock, Total;
      var rest := OthersFinish(Step(s, t, Succeeds), spare);
      schedule := [(t, Succeeds)] + rest;
      assert schedule[0] == (t, Succeeds) && schedule[1..] == rest;
    }
  }

  /** While a thread outside spare has not returned, one of them can move: the one that has the lock, if any has it. */
  lemma Mover(s: State, spare: set<nat>) returns (t: nat)
    requires Locked(s) && forall u: nat | u in spare && u < |s.pcs| :: !HasLock(s.pcs[u])
    requires !Rested(s.pcs, spare, s.pcs)
    ensures t < |s.pcs| && t !in spare && s.pcs[t] != Done && (s.pcs[t] == Waiting ==> s.reloadMu == None)
  {
    t :| t < |s.pcs| && t !in spare && s.pcs[t] != Done;
    if s.reloadMu.Some? {
      t := s.reloadMu.value;
    }
  }

  lemma StayOutside(s: State, spare: set<nat>, t: nat)
    requires t < |s.pcs| && t !in spare && forall u: nat | u in spare && u < |s.pcs| :: !HasLock(s.pcs[u])
    ensures forall u: nat | u in spare && u < |s.pcs| :: Step(s, t, Succeeds).pcs[u] == s.pcs[u]
    ensures |Step(s, t, Succeeds).pcs| == |s.pcs|
  {
    StepFrame(s, t, Succeeds);
  }

  lemma CanFinish(s: State) returns (schedule: Schedule)
    requires Locked(s)
    ensures AllDone(Run(s, schedule))
  {
    schedule := OthersFinish(s, {});
  }

  // ---- when nothing is lost ----

  /** A place in an open. */
  predicate InOpen(pc: Pc) {
    match pc
    case Checking(job) => !job.ReloadJob?
    case Opening(job, _) => !job.ReloadJob?
    case Recording(job, _) => !job.ReloadJob?
    case _ => false
  }

  /** Found nothing recorded, and records the handle if its Open succeeds. */
  predicate Records(pc: Pc) {
    pc.Opening? || pc.Recording?
  }

  /** An open has no other open and no Reload beside it, and nothing is recorded while somebody opens. */
  ghost predicate Apart(s: State) {
    && (forall t, u | 0 <= t < |s.pcs| && 0 <= u < |s.pcs| && t != u && InOpen(s.pcs[t]) ::
          !InOpen(s.pcs[u]) && !InReload(s.pcs[u]))
    && (forall t | 0 <= t < |s.pcs| && Records(s.pcs[t]) :: s.hw == None)
  }

  ghost predicate NoneLost(s: State) {
    forall h: nat :: !Lost(s, h)
  }

  /** A step changes no thread's kind. */
  lemma StepKind(s: State, t: nat, o: Outcome)
    requires t < |s.pcs|
    ensures var pc, pc' := s.pcs[t], Step(s, t, o).pcs[t];
            && (InOpen(pc') ==> InOpen(pc)) && (InReload(pc') ==> InReload(pc))
  {
  }

  /** Where a step leaves the registration ready for an Open, nothing is recorded. */
  lemma StepRecorded(s: State, t: nat, o: Outcome)
    requires t < |s.pcs| && (Records(s.pcs[t]) ==> s.hw == None)
    ensures var s' := Step(s, t, o);
            && (Records(s'.pcs[t]) ==> s'.hw == None)
            && (s'.hw == s.hw || s'.hw == None || Records(s.pcs[t]))
  {
  }

  lemma StepApart(s: State, t: nat, o: Outcome)
    requires Locked(s) && Apart(s) && t < |s.pcs|
    ensures Apart(Step(s, t, o))
  {
    StepFrame(s, t, o);
    StepKind(s, t, o);
    StepRecorded(s, t, o);
    if Records(s.pcs[t]) {
      forall u | 0 <= u < |s.pcs| && u != t
        ensures !Records(s.pcs[u])
      {
        assert HasLock(s.pcs[u]) <==> s.reloadMu == Some(u);
        assert HasLock(s.pcs[t]) <==> s.reloadMu == Some(t);
        hide Step;
      }
    }
    hide Step, InOpen, InReload, Records, Locked;
  }

  /** Only recording over a recorded handle loses one. */
  lemma StepKeeps(s: State, t: nat, o: Outcome, h: nat)
    requires t < |s.pcs| && !Lost(s, h) && (s.pcs[t].Recording? ==> s.hw == None)
    ensures !Lost(Step(s, t, o), h)
  {
    StepFrame(s, t, o);
    var s' := Step(s, t, o);
    if IsOpen(s, h) && s.hw != Some(h) {
      var u :| 0 <= u < |s.pcs| && Held(s.pcs[u]) == Some(h);
      assert u != t ==> Held(s'.pcs[u]) == Some(h);
      assert u == t ==> !IsOpen(s', h) || s'.hw == Some(h) || Held(s'.pcs[t]) == Some(h);
    } else if s.hw == Some(h) {
      assert s'.hw == Some(h) || Held(s'.pcs[t]) == Some(h);
    } else {
      assert IsOpen(s', h) ==> Held(s'.pcs[t]) == Some(h);
    }
  }

  lemma {:induction false} RunKeeps(s: State, schedule: Schedule)
    requires Locked(s) && Apart(s) && NoneLost(s)
    ensures NoneLost(Run(s, schedule))
    decreases schedule
  {
    if schedule != [] {
      var (t, o) := schedule[0];
      if t < |s.pcs| {
        StepLocked(s, t, o);
        StepApart(s, t, o);
        forall h: nat
          ensures !Lost(Step(s, t, o), h)
        {
          StepKeeps(s, t, o, h);
        }
        RunKeeps(Step(s, t, o), schedule[1..]);
      } else {
        RunKeeps(s, schedule[1..]);
      }
    }
  }

  // ---- witnesses ----

  /** Two threads that are both about to open record over each other. */
  lemma BothRecord(s0: State, s: State, t: nat, u: nat) returns (s': State, h: nat)
    requires Reaches(s0, s) && Locked(s) && t < |s.pcs| && u < |s.pcs| && t != u
    requires s.pcs[t].Opening? && s.pcs[u].Opening?
    ensures Reaches(s0, s') && Lost(s', h)
  {
    hide Reaches;
    h := |s.handles|;
    var a := Move(s0, s, t, Succeeds);
    var b := Move(s0, a, u, Succeeds);
    var c := Move(s0, b, t, Succeeds);
    s' := Move(s0, c, u, Succeeds);
    forall v | 0 <= v < |s'.pcs|
      ensures Held(s'.pcs[v]) != Some(h)
    {
      if v != t && v != u && Held(s.pcs[v]).Some? {
        assert Held(s.pcs[v]).value < |s.handles|;
      }
    }
  }

  lemma RaceLocked(s: State)
    requires AboutToRace(s)
    ensures Locked(s)
  {
  }

  lemma ReachedLocked(s0: State, s: State)
    requires Reaches(s0, s) && Locked(s0)
    ensures Locked(s)
  {
    var schedule: Schedule :| Run(s0, schedule) == s;
    RunLocked(s0, schedule);
  }

  /** An open up to its Open, with nothing recorded. */
  lemma OpenToOpening(s0: State, s: State, t: nat) returns (s': State)
    requires Reaches(s0, s) && t < |s.pcs| && s.pcs[t] == Checking(OpenJob) && s.hw == None
    ensures Reaches(s0, s') && s' == s.(pcs := s.pcs[t := Opening(OpenJob, s.dev)])
  {
    hide Reaches;
    s' := Move(s0, s, t, Succeeds);
  }

  /** Two opens and nothing recorded. */
  lemma OpensLose(s0: State, s: State, t: nat, u: nat) returns (s': State, h: nat)
    requires Reaches(s0, s) && Locked(s0) && t < |s.pcs| && u < |s.pcs| && t != u && s.hw == None
    requires s.pcs[t] == s.pcs[u] == Checking(OpenJob)
    ensures Reaches(s0, s') && Lost(s', h)
  {
    hide Reaches, Locked;
    s' := OpenToOpening(s0, s, t);
    s' := OpenToOpening(s0, s', u);
    ReachedLocked(s0, s');
    s', h := BothRecord(s0, s', t, u);
  }

  /** An open and a Reload, and nothing recorded. */
  lemma OpenAndReloadLose(s0: State, s: State, t: nat, u: nat) returns (s': State, h: nat)
    requires Reaches(s0, s) && Locked(s0) && t < |s.pcs| && u < |s.pcs| && s.hw == None && s.reloadMu == None
    requires s.pcs[t] == Checking(OpenJob) && s.pcs[u] == Waiting
    ensures Reaches(s0, s') && Lost(s', h)
  {
    hide Reaches, Locked;
    s' := OpenToOpening(s0, s, t);
    s' := ReloadToOpening(s0, s', u);
    ReachedLocked(s0, s');
    s', h := BothRecord(s0, s', t, u);
  }

  /** The same where a handle is recorded: the Reload takes it out first. */
  lemma OpenAndTakingLose(s: State, t: nat, u: nat) returns (s': State, h: nat)
    requires Locked(s) && t < |s.pcs| && u < |s.pcs| && s.hw.Some? && s.reloadMu == None
    requires s.pcs[t] == Checking(OpenJob) && s.pcs[u] == Waiting
    ensures Reaches(s, s') && Lost(s', h)
  {
    hide Reaches;
    ReachesItself(s);
    s' := ReloadToSwapping(s, u);
    s' := OpenToOpening(s, s', t);
    s' := Move(s, s', u, Succeeds);
    s' := Move(s, s', u, Succeeds);
    ReachedLocked(s, s');
    s', h := BothRecord(s, s', t, u);
  }

  /** A Reload that has closed the recorded handle. */
  lemma ReloadToSwapping(s: State, u: nat) returns (s': State)
    requires Locked(s) && u < |s.pcs| && s.hw.Some? && s.reloadMu == None && s.pcs[u] == Waiting
    ensures Reaches(s, s') && s'.hw == None && s'.pcs == s.pcs[u := Swapping(0)]
  {
    ReachesItself(s);
    hide Reaches;
    s' := Move(s, s, u, Succeeds);
    s' := Move(s, s', u, Rebuilds(0));
    s' := Move(s, s', u, Succeeds);
    s' := Move(s, s', u, Succeeds);
    ReachesOneOn(s, s', u, Succeeds);
    s' := Step(s', u, Succeeds);
  }

  /** A close takes the recorded handle out. */
  lemma CloseTakes(s: State, v: nat) returns (s': State)
    requires v < |s.pcs| && s.hw.Some? && s.pcs[v] == Taking(CloseJob)
    ensures Reaches(s, s') && s' == s.(hw := None, pcs := s.pcs[v := Cancelling(CloseJob, s.hw.value)])
  {
    ReachesItself(s);
    hide Reaches;
    s' := Move(s, s, v, Succeeds);
  }

  // ---- exactly when ----

  /** Nobody opens from outside; or one open and no Reload; or the opens are alone and find a handle recorded. */
  predicate CannotLose(s: State) {
    || Opens(s) == 0
    || (Opens(s) == 1 && Reloads(s) == 0)
    || (s.hw.Some? && Reloads(s) == 0 && Closes(s) == 0)
  }

  lemma LosePossible(s: State) returns (s': State, h: nat)
    requires AboutToRace(s) && !CannotLose(s)
    ensures Reaches(s, s') && Lost(s', h)
  {
    RaceLocked(s);
    ReachesItself(s);
    hide Reaches, Lost, Locked;
    if Reloads(s) > 0 {
      var t := Found(s.pcs, Checking(OpenJob));
      var u := Found(s.pcs, Waiting);
      if s.hw.Some? {
        s', h := OpenAndTakingLose(s, t, u);
      } else {
        s', h := OpenAndReloadLose(s, s, t, u);
      }
    } else {
      var t, u := FoundTwo(s.pcs, Checking(OpenJob));
      s' := s;
      if s.hw.Some? {
        var v := Found(s.pcs, Taking(CloseJob));
        s' := CloseTakes(s, v);
      }
      s', h := OpensLose(s, s', t, u);
    }
  }

  /** Where there is one open at most, and no Reload beside it, it has no rival. */
  lemma StartsApart(s: State)
    requires AboutToRace(s) && (Opens(s) == 0 || (Opens(s) == 1 && Reloads(s) == 0))
    ensures Apart(s)
  {
    forall t, u | 0 <= t < |s.pcs| && 0 <= u < |s.pcs| && t != u && InOpen(s.pcs[t])
      ensures !InOpen(s.pcs[u]) && !InReload(s.pcs[u])
    {
      assert s.pcs[t] in multiset(s.pcs);
      if s.pcs[u] in {Waiting, Checking(OpenJob)} {
        TwoMayOpen(s.pcs, if t < u then t else u, if t < u then u else t);
      }
    }
  }

  lemma LoseNever(s: State, schedule: Schedule)
    requires AboutToRace(s) && CannotLose(s)
    ensures NoneLost(Run(s, schedule))
  {
    if Opens(s) == 0 || (Opens(s) == 1 && Reloads(s) == 0) {
      StartsApart(s);
      RaceLocked(s);
      RunKeeps(s, schedule);
    } else {
      FoundNone(s.pcs, Taking(CloseJob));
      FoundNone(s.pcs, Waiting);
      RunIdleOpens(s, schedule);
    }
  }

  /** Once all have returned, an open handle is recorded or lost. */
  lemma EndsClean(s: State)
    requires AllDone(s) && NoneLost(s)
    ensures NothingLeft(s)
  {
    forall h | 0 <= h < |s.handles| && s.handles[h].closes == 0
      ensures s.hw == Some(h)
    {
      assert !Lost(s, h);
    }
  }

  /** From a state in which a handle is lost, the threads can all return, and it is still open and not recorded. */
  lemma LostAtTheEnd(s0: State, s: State, h: nat) returns (s': State)
    requires AboutToRace(s0) && Reaches(s0, s) && Lost(s, h)
    ensures Reaches(s0, s') && AllDone(s') && !NothingLeft(s')
  {
    RaceLocked(s0);
    ReachedLocked(s0, s);
    var rest := CanFinish(s);
    LostForever(s, rest, h);
    s' := Run(s, rest);
    var schedule: Schedule :| Run(s0, schedule) == s;
    RunAppend(s0, schedule, rest);
  }

  /**
   * Exactly when every race, once all its threads have returned, leaves open the recorded handle at most: nobody opens
   * the device from outside a Reload, or one open runs and no Reload, or the opens are alone and find it open.
   */
  lemma NoHandleLostExactly(s: State)
    requires AboutToRace(s)
    ensures (forall s' | Reaches(s, s') && AllDone(s') :: NothingLeft(s')) <==> CannotLose(s)
  {
    hide Run, CannotLose, AboutToRace;
    if CannotLose(s) {
      forall s' | Reaches(s, s') && AllDone(s')
        ensures NothingLeft(s')
      {
        var schedule: Schedule :| Run(s, schedule) == s';
        LoseNever(s, schedule);
        EndsClean(s');
      }
    } else {
      var lossy, h := LosePossible(s);
      var s' := LostAtTheEnd(s, lossy, h);
    }
  }

  // ---- when the last close leaves nothing open ----

  /** Only closes run, and the recorded handle is there until v takes it out. */
  ghost predicate OnlyCloses(s: State, v: nat) {
    && v < |s.pcs| && (s.hw == None || s.pcs[v] == Taking(CloseJob))
    && forall t | 0 <= t < |s.pcs| :: OfClose(s.pcs[t])
  }

  predicate OfClose(pc: Pc) {
    match pc
    case Taking(job) => job == CloseJob
    case Cancelling(job, _) => job == CloseJob
    case Closing(job, _) => job == CloseJob
    case Done => true
    case _ => false
  }

  lemma {:induction false} RunOnlyCloses(s: State, schedule: Schedule, v: nat)
    requires OnlyCloses(s, v)
    ensures OnlyCloses(Run(s, schedule), v)
    decreases schedule
  {
    if schedule != [] {
      var (t, o) := schedule[0];
      if t < |s.pcs| {
        StepFrame(s, t, o);
        RunOnlyCloses(Step(s, t, o), schedule[1..], v);
      } else {
        RunOnlyCloses(s, schedule[1..], v);
      }
    }
  }

  /** Closes alone close everything. */
  lemma ClosesCloseAll(s: State, schedule: Schedule)
    requires AboutToRace(s) && Closes(s) > 0 && Reloads(s) + Opens(s) == 0 && AllDone(Run(s, schedule))
    ensures AllClosed(Run(s, schedule))
  {
    var v := Found(s.pcs, Taking(CloseJob));
    FoundNone(s.pcs, Waiting);
    FoundNone(s.pcs, Checking(OpenJob));
    RunOnlyCloses(s, schedule, v);
    LoseNever(s, schedule);
    EndsClean(Run(s, schedule));
  }

  /** A close that runs from its start to its end. */
  lemma CloseEnds(s0: State, s: State, v: nat) returns (s': State)
    requires Reaches(s0, s) && Locked(s) && v < |s.pcs| && s.pcs[v] == Taking(CloseJob)
    ensures Reaches(s0, s') && s'.hw == None && s'.reloadMu == s.reloadMu && s'.pcs == s.pcs[v := Done]
  {
    hide Reaches;
    s' := Move(s0, s, v, Succeeds);
    if s.hw.Some? {
      s' := Move(s0, s', v, Succeeds);
      ReachesOneOn(s0, s', v, Succeeds);
      s' := Step(s', v, Succeeds);
    }
  }

  /** An open that runs when nothing is recorded. */
  lemma OpenEnds(s0: State, s: State, t: nat) returns (s': State)
    requires Reaches(s0, s) && t < |s.pcs| && s.pcs[t] == Checking(OpenJob) && s.hw == None
    ensures Reaches(s0, s') && s'.pcs == s.pcs[t := Done] && IsOpen(s', |s.handles|)
  {
    hide Reaches;
    s' := Move(s0, s, t, Succeeds);
    s' := Move(s0, s', t, Succeeds);
    s' := Move(s0, s', t, Succeeds);
  }

  /** A Reload that runs when nothing is recorded. */
  lemma ReloadEnds(s0: State, s: State, t: nat) returns (s': State)
    requires Reaches(s0, s) && t < |s.pcs| && s.pcs[t] == Waiting && s.reloadMu == None && s.hw == None
    ensures Reaches(s0, s') && s'.pcs == s.pcs[t := Done] && IsOpen(s', |s.handles|)
  {
    hide Reaches;
    s' := ReloadOpens(s0, s, t);
    s' := Move(s0, s', t, Succeeds);
    s' := Move(s0, s', t, Succeeds);
  }

  /** A race in which v is the last to close and t the last of all, and still to begin. */
  lemma TwoLeft(s: State, t: nat, v: nat) returns (s': State)
    requires AboutToRace(s) && t < |s.pcs| && v < |s.pcs|
    requires s.pcs[t] in {Waiting, Checking(OpenJob)} && s.pcs[v] == Taking(CloseJob)
    ensures Reaches(s, s') && Locked(s') && s'.reloadMu == None && Rested(s.pcs, {t, v}, s'.pcs)
  {
    RaceLocked(s);
    var schedule := OthersFinish(s, {t, v});
    RunLocked(s, schedule);
    s' := Run(s, schedule);
    if s'.reloadMu.Some? {
      assert HasLock(s'.pcs[s'.reloadMu.value]);
    }
  }

  /** Then t opens a handle after the last close, and nobody is left to close it. */
  lemma OpensAfterAll(s: State, t: nat, v: nat) returns (s': State)
    requires AboutToRace(s) && t < |s.pcs| && v < |s.pcs|
    requires s.pcs[t] in {Waiting, Checking(OpenJob)} && s.pcs[v] == Taking(CloseJob)
    ensures Reaches(s, s') && AllDone(s') && !AllClosed(s')
  {
    hide Reaches, Locked, Step;
    var left := TwoLeft(s, t, v);
    var closed := CloseEnds(s, left, v);
    if s.pcs[t] == Waiting {
      s' := ReloadEnds(s, closed, t);
    } else {
      s' := OpenEnds(s, closed, t);
    }
  }

  /**
   * Exactly when a race with the last close of the device leaves nothing open once all have returned: no Reload and no
   * open runs beside it. Any of them can record its handle after that close, where nobody will look for it.
   */
  lemma NothingStaysOpenExactly(s: State)
    requires AboutToRace(s) && Closes(s) > 0
    ensures (forall s' | Reaches(s, s') && AllDone(s') :: AllClosed(s')) <==> Reloads(s) + Opens(s) == 0
  {
    hide Run, AboutToRace, AllDone, AllClosed;
    if Reloads(s) + Opens(s) == 0 {
      forall s' | Reaches(s, s') && AllDone(s')
        ensures AllClosed(s')
      {
        var schedule: Schedule :| Run(s, schedule) == s';
        ClosesCloseAll(s, schedule);
      }
    } else {
      var t := Found(s.pcs, if Reloads(s) > 0 then Waiting else Checking(OpenJob));
      var v := Found(s.pcs, Taking(CloseJob));
      var s' := OpensAfterAll(s, t, v);
    }
  }

  // ---- every race can end ----

  /** No thread ever comes to rest but in wait for the lock: in every reachable state any other step leads on. */
  lemma AlwaysOn(s0: State, s: State, t: nat, o: Outcome)
    requires AboutToRace(s0) && Reaches(s0, s) && t < |s.pcs| && s.pcs[t] != Done
    requires s.pcs[t] == Waiting ==> s.reloadMu == None
    ensures Total(Step(s, t, o).pcs) < Total(s.pcs)
  {
    RaceLocked(s0);
    ReachedLocked(s0, s);
    Progress(s, t, o);
  }

  /** And whatever the mix, every race can be brought to its end. */
  lemma NoDeadlock(s0: State, s: State)
    requires AboutToRace(s0) && Reaches(s0, s)
    ensures exists s' :: Reaches(s, s') && AllDone(s')
  {
    RaceLocked(s0);
    ReachedLocked(s0, s);
    var schedule := CanFinish(s);
    assert Reaches(s, Run(s, schedule));
  }
}
