/**
 * What Reloads of one device come to (server/reload.go): the device that serves in the end is the one built last, and
 * it is open exactly if its Open succeeded. What was built and opened last is read off the outcomes of the calls.
 */
module ReloadOutcome {
  import opened Decimal
  import opened Lifecycle

  /** The device of the last rebuild that succeeds in a run, or dev. */
  function LastRebuilt(s: State, schedule: Schedule, dev: nat): nat
    decreases schedule
  {
    if schedule == [] then dev
    else
      var (t, o) := schedule[0];
      if t >= |s.pcs| then LastRebuilt(s, schedule[1..], dev)
      else if s.pcs[t].Rebuilding? && o.Rebuilds? then LastRebuilt(Step(s, t, o), schedule[1..], o.newDev)
      else LastRebuilt(Step(s, t, o), schedule[1..], dev)
  }

  /** Whether the last Open of a run succeeds, or open. */
  function LastOpened(s: State, schedule: Schedule, open: bool): bool
    decreases schedule
  {
    if schedule == [] then open
    else
      var (t, o) := schedule[0];
      if t >= |s.pcs| then LastOpened(s, schedule[1..], open)
      else if s.pcs[t].Opening? then LastOpened(Step(s, t, o), schedule[1..], o != Fails)
      else LastOpened(Step(s, t, o), schedule[1..], open)
  }

  /** The thread inside is on its way from the last rebuild, of dev, and the last Open, which went as `open` says. */
  predicate OnTheWay(s: State, pc: Pc, dev: nat, open: bool) {
    match pc
    case Taking(job) => job == ReloadJob(dev)
    case Cancelling(job, _) => job == ReloadJob(dev)
    case Closing(job, _) => job == ReloadJob(dev)
    case Swapping(newDev) => newDev == dev
    case Checking(_) => s.dev == dev
    case Opening(_, _) => s.dev == dev
    case Recording(_, _) => s.dev == dev && open
    case _ => s.dev == dev && (s.hw.Some? <==> open)
  }

  ghost predicate Serving(s: State, dev: nat, open: bool) {
    && Serialized(s)
    && (if s.reloadMu.Some? then OnTheWay(s, s.pcs[s.reloadMu.value], dev, open)
        else s.dev == dev && (s.hw.Some? <==> open))
  }

  lemma StepServing(s: State, t: nat, o: Outcome, dev: nat, open: bool)
    requires Serving(s, dev, open) && t < |s.pcs|
    ensures Serving(Step(s, t, o), if s.pcs[t].Rebuilding? && o.Rebuilds? then o.newDev else dev,
                    if s.pcs[t].Opening? then o != Fails else open)
  {
    StepSerialized(s, t, o);
    StepFrame(s, t, o);
    assert Inside(s.pcs[t]) <==> s.reloadMu == Some(t);
    hide Settled, OnlyOpen;
  }

  lemma {:induction false} RunServing(s: State, schedule: Schedule, dev: nat, open: bool)
    requires Serving(s, dev, open)
    ensures Serving(Run(s, schedule), LastRebuilt(s, schedule, dev), LastOpened(s, schedule, open))
    decreases schedule
  {
    if schedule != [] {
      var (t, o) := schedule[0];
      if t < |s.pcs| {
        StepServing(s, t, o, dev, open);
        RunServing(Step(s, t, o), schedule[1..],
                   if s.pcs[t].Rebuilding? && o.Rebuilds? then o.newDev else dev,
                   if s.pcs[t].Opening? then o != Fails else open);
      } else {
        RunServing(s, schedule[1..], dev, open);
      }
    }
  }

  /**
   * When all Reloads have returned, the device built last serves, or the first one if none was built; it has an open
   * handle of its own, recorded and not cancelled, exactly if the last Open succeeded, and no other handle is open.
   */
  lemma LastBuiltServes(s: State, schedule: Schedule)
    requires AboutToReload(s)
    requires forall t | 0 <= t < |Run(s, schedule).pcs| :: Run(s, schedule).pcs[t] == Done
    ensures var end := Run(s, schedule);
            && end.dev == LastRebuilt(s, schedule, s.dev)
            && (end.hw.Some? <==> LastOpened(s, schedule, s.hw.Some?))
            && (end.hw.Some? ==>
                  IsOpen(end, end.hw.value) && !end.handles[end.hw.value].cancelled
                  && end.handles[end.hw.value].dev == LastRebuilt(s, schedule, s.dev))
            && forall h | 0 <= h < |end.handles| :: end.handles[h].closes == 0 ==> end.hw == Some(h)
  {
    RunServing(s, schedule, s.dev, s.hw.Some?);
  }

  /** From the point where a Reload looks whether to open on, the device it built is the one that serves. */
  lemma BuiltIsIn(s: State, schedule: Schedule, t: nat)
    requires AboutToReload(s)
    requires t < |Run(s, schedule).pcs|
    ensures var now := Run(s, schedule);
            now.pcs[t].Checking? || now.pcs[t].Opening? || now.pcs[t].Recording? ==>
              now.dev == LastRebuilt(s, schedule, s.dev)
  {
    RunServing(s, schedule, s.dev, s.hw.Some?);
  }
}
