/** The simulated rotator of sim/rotator.go: position computed on read from start, target, rate and clock, in reals. */
module Rotator {

  // ---- angles ----

  /** math.Mod(a, 360): the remainder keeps the sign of a. */
  function Mod360(a: real): real {
    if a >= 0.0 then a - 360.0 * (a / 360.0).Floor as real
    else a + 360.0 * (-a / 360.0).Floor as real
  }

  function Wrap360(a: real): real {
    var m := Mod360(a);
    if m < 0.0 then m + 360.0 else m
  }

  function ShortestDelta(from: real, to: real): real {
    var d := Mod360(to - from);
    var e := if d < -180.0 then d + 360.0 else d;
    if e > 180.0 then e - 360.0 else e
  }

  function Abs(x: real): real {
    if x < 0.0 then -x else x
  }

  /** math.Copysign. */
  function Copysign(x: real, sign: real): real {
    if sign < 0.0 then -Abs(x) else Abs(x)
  }

  /** a and b are k whole turns apart. */
  predicate Turns(a: real, b: real, k: int) {
    a - b == 360.0 * k as real
  }

  ghost predicate Congruent(a: real, b: real) {
    exists k: int :: Turns(a, b, k)
  }

  lemma ModTurns(a: real) returns (k: int)
    ensures Turns(a, Mod360(a), k) && -360.0 < Mod360(a) < 360.0
    ensures a >= 0.0 ==> Mod360(a) >= 0.0
    ensures a <= 0.0 ==> Mod360(a) <= 0.0
  {
    k := if a >= 0.0 then (a / 360.0).Floor else -(-a / 360.0).Floor;
  }

  lemma WrapTurns(a: real) returns (k: int)
    ensures Turns(a, Wrap360(a), k) && 0.0 <= Wrap360(a) < 360.0
  {
    k := ModTurns(a);
    if Mod360(a) < 0.0 {
      k := k - 1;
    }
  }

  /** The wrapped angle is the only one in [0, 360) that is whole turns away. */
  lemma WrapUnique(a: real, b: real, k: int)
    requires 0.0 <= b < 360.0 && Turns(a, b, k)
    ensures Wrap360(a) == b
  {
    var j := WrapTurns(a);
    assert b - Wrap360(a) == 360.0 * (j - k) as real;
  }

  lemma WrapSame(a: real, b: real, k: int)
    requires Turns(a, b, k)
    ensures Wrap360(a) == Wrap360(b)
  {
    var j := WrapTurns(b);
    assert a - Wrap360(b) == 360.0 * (k + j) as real;
    WrapUnique(a, Wrap360(b), k + j);
  }

  /** Wrapping a part of a sum first makes no difference. */
  lemma WrapSum(a: real, b: real)
    ensures Wrap360(Wrap360(a) + b) == Wrap360(a + b)
  {
    var k := WrapTurns(a);
    WrapSame(a + b, Wrap360(a) + b, k);
  }

  /** The delta leads from one angle to the other and is never longer than half a turn; -180 is possible. */
  lemma DeltaTurns(from: real, to: real) returns (k: int)
    ensures Turns(to - from, ShortestDelta(from, to), k)
    ensures -180.0 <= ShortestDelta(from, to) <= 180.0
  {
    k := ModTurns(to - from);
    var d := Mod360(to - from);
    if d < -180.0 {
      k := k - 1;
    } else if d > 180.0 {
      k := k + 1;
    }
  }

  lemma ModUnique(a: real, r: real, k: int)
    requires Turns(a, r, k) && -360.0 < r < 360.0 && (a >= 0.0 ==> r >= 0.0) && (a <= 0.0 ==> r <= 0.0)
    ensures Mod360(a) == r
  {
    var j := ModTurns(a);
    assert r - Mod360(a) == 360.0 * (j - k) as real;
  }

  /** The delta is -180 if and only if the way is half a turn and whole turns, counted downwards. */
  lemma MinusHalfTurn(from: real, to: real)
    ensures ShortestDelta(from, to) == -180.0 <==> to < from && Congruent(to - from, -180.0)
    ensures 0.0 <= from < 360.0 && 0.0 <= to < 360.0 ==>
              (ShortestDelta(from, to) == -180.0 <==> to == from - 180.0)
  {
    var k := ModTurns(to - from);
    if ShortestDelta(from, to) == -180.0 {
      assert Turns(to - from, -180.0, k);
    }
    if to < from && Congruent(to - from, -180.0) {
      var d := to - from;
      var j: int :| Turns(d, -180.0, j);
      ModUnique(to - from, -180.0, j);
      assert -540.0 < to - from <= -180.0 ==> j == 0;
    }
    if to == from - 180.0 {
      assert Turns(to - from, -180.0, 0);
    }
  }

  /** No way around is shorter than the delta. */
  lemma DeltaShortest(from: real, to: real, d: real, k: int)
    requires Turns(to - from, d, k)
    ensures Abs(ShortestDelta(from, to)) <= Abs(d)
  {
    var j := DeltaTurns(from, to);
    assert d - ShortestDelta(from, to) == 360.0 * (j - k) as real;
    if j - k >= 1 {
      assert d - ShortestDelta(from, to) >= 360.0;
    } else if j - k <= -1 {
      assert d - ShortestDelta(from, to) <= -360.0;
    }
  }

  lemma DeltaUnique(from: real, to: real, d: real, k: int)
    requires -180.0 < d < 180.0 && Turns(to - from, d, k)
    ensures ShortestDelta(from, to) == d
  {
    var j := DeltaTurns(from, to);
    assert d - ShortestDelta(from, to) == 360.0 * (j - k) as real;
  }

  // ---- the motion model ----

  datatype Motion = Motion(
    rate: real, syncOffset: real, start: real, target: real, startTime: real, moving: bool)
  {
    /** What every method keeps: angles wrapped, a rate that is not negative, and at rest nothing to go. */
    predicate Valid() {
      && 0.0 <= rate
      && 0.0 <= start < 360.0 && 0.0 <= target < 360.0
      && (!moving ==> start == target)
    }

    function Traveled(now: real): real {
      (now - startTime) * rate
    }

    predicate Arrived(now: real) {
      Traveled(now) >= Abs(ShortestDelta(start, target))
    }

    /** The mechanical angle at time now. */
    function Angle(now: real): real {
      if !moving then start
      else if Arrived(now) then target
      else Wrap360(start + Copysign(Traveled(now), ShortestDelta(start, target)))
    }

    /** What reading the angle leaves behind. */
    function Settled(now: real): Motion {
      if moving && Arrived(now) then this.(start := target, moving := false) else this
    }

    function BegunMove(mech: real, now: real): Motion {
      var from := Angle(now);
      var to := Wrap360(mech);
      Settled(now).(start := from, target := to, startTime := now, moving := ShortestDelta(from, to) != 0.0)
    }

    function Halted(now: real): Motion {
      Settled(now).(start := Angle(now), target := Angle(now), moving := false)
    }

    function Synced(position: real, now: real): Motion {
      Settled(now).(syncOffset := Wrap360(position - Angle(now)))
    }

    function Position(now: real): real {
      Wrap360(Angle(now) + syncOffset)
    }

    function TargetPosition(): real {
      Wrap360(target + syncOffset)
    }
  }

  /** The device; every method takes the one clock reading it makes. */
  class RotatorDevice {
    var rate: real
    var syncOffset: real
    var start: real
    var target: real
    var startTime: real
    var moving: bool

    constructor (rate: real)
      ensures State() == Motion(rate, 0.0, 0.0, 0.0, 0.0, false)
    {
      this.rate, syncOffset, start, target, startTime, moving := rate, 0.0, 0.0, 0.0, 0.0, false;
    }

    function State(): Motion
      reads this
    {
      Motion(rate, syncOffset, start, target, startTime, moving)
    }

    method CurrentMechanical(now: real) returns (angle: real)
      modifies this
      ensures angle == old(State()).Angle(now) && State() == old(State()).Settled(now)
    {
      hide Wrap360, ShortestDelta, Abs, Copysign;
      if !moving {
        return start;
      }
      var dist := ShortestDelta(start, target);
      var traveled := (now - startTime) * rate;
      assert traveled == State().Traveled(now);
      if traveled >= Abs(dist) {
        start := target;
        moving := false;
        return start;
      }
      return Wrap360(start + Copysign(traveled, dist));
    }

    method BeginMove(targetMech: real, now: real)
      modifies this
      ensures State() == old(State()).BegunMove(targetMech, now)
    {
      var from := CurrentMechanical(now);
      start := from;
      target := Wrap360(targetMech);
      startTime := now;
      moving := ShortestDelta(start, target) != 0.0;
    }

    method Halt(now: real)
      modifies this
      ensures State() == old(State()).Halted(now)
    {
      start := CurrentMechanical(now);
      target := start;
      moving := false;
    }

    method MoveAbsolute(position: real, now: real)
      modifies this
      ensures State() == old(State()).BegunMove(position - old(syncOffset), now)
    {
      BeginMove(position - syncOffset, now);
    }

    /** Move; false is InvalidValue. */
    method Move(relative: real, now: real) returns (ok: bool)
      modifies this
      ensures ok <==> -360.0 < relative < 360.0
      ensures !ok ==> State() == old(State())
      ensures ok ==> State() == old(State()).Settled(now).BegunMove(old(State()).Angle(now) + relative, now)
    {
      hide Wrap360, ShortestDelta, Abs, Copysign;
      if relative <= -360.0 || relative >= 360.0 {
        return false;
      }
      var at := CurrentMechanical(now);
      BeginMove(at + relative, now);
      return true;
    }

    method MoveMechanical(position: real, now: real)
      modifies this
      ensures State() == old(State()).BegunMove(position, now)
    {
      BeginMove(position, now);
    }

    method Sync(position: real, now: real)
      modifies this
      ensures State() == old(State()).Synced(position, now)
    {
      var at := CurrentMechanical(now);
      syncOffset := Wrap360(position - at);
    }

    method Position(now: real) returns (p: real)
      modifies this
      ensures p == old(State()).Position(now) && State() == old(State()).Settled(now)
    {
      var at := CurrentMechanical(now);
      return Wrap360(at + syncOffset);
    }

    method IsMoving(now: real) returns (b: bool)
      modifies this
      ensures State() == old(State()).Settled(now) && b == State().moving
    {
      var at := CurrentMechanical(now);
      return moving;
    }
  }

  // ---- what the motion does ----

  /** Mechanical and sky angles are always in [0, 360), and every operation keeps the state valid. */
  lemma AnglesInRange(m: Motion, now: real, mech: real, position: real)
    requires m.Valid()
    ensures 0.0 <= m.Angle(now) < 360.0 && 0.0 <= m.Position(now) < 360.0 && 0.0 <= m.TargetPosition() < 360.0
    ensures m.Settled(now).Valid() && m.BegunMove(mech, now).Valid()
    ensures m.Halted(now).Valid() && m.Synced(position, now).Valid()
  {
    var _ := WrapTurns(m.start + Copysign(m.Traveled(now), ShortestDelta(m.start, m.target)));
    var _ := WrapTurns(m.Angle(now) + m.syncOffset);
    var _ := WrapTurns(m.target + m.syncOffset);
    var _ := WrapTurns(mech);
    ZeroDelta(m.Angle(now), Wrap360(mech));
  }

  lemma ZeroDelta(from: real, to: real)
    requires 0.0 <= from < 360.0 && 0.0 <= to < 360.0
    ensures ShortestDelta(from, to) == 0.0 <==> from == to
  {
    var k := DeltaTurns(from, to);
    if from == to {
      DeltaUnique(from, to, 0.0, 0);
    }
  }

  /** Along the way what remains of the delta is what it was at the start less what was traveled, in its direction. */
  lemma RemainingDelta(m: Motion, now: real)
    requires m.Valid() && m.moving && m.startTime <= now && !m.Arrived(now)
    ensures var d := ShortestDelta(m.start, m.target);
            ShortestDelta(m.Angle(now), m.target) == Copysign(Abs(d) - m.Traveled(now), d)
  {
    hide Wrap360, ShortestDelta, Motion.Traveled;
    var d, x := ShortestDelta(m.start, m.target), m.Traveled(now);
    TraveledSplits(m, m, m.startTime, now);
    var k := DeltaTurns(m.start, m.target);
    var p := m.start + Copysign(x, d);
    var j := WrapTurns(p);
    if x == 0.0 {
      WrapUnique(p, m.start, 0);
    } else {
      var rest := Copysign(Abs(d) - x, d);
      assert Copysign(x, d) + rest == d;
      assert m.target - m.Angle(now) - rest == 360.0 * (k + j) as real;
      DeltaUnique(m.Angle(now), m.target, rest, k + j);
    }
  }

  /** The distance to go shrinks at the rate and stops at zero. */
  lemma RemainingDistance(m: Motion, now: real)
    requires m.Valid() && m.moving && m.startTime <= now
    ensures var togo := Abs(ShortestDelta(m.start, m.target)) - m.rate * (now - m.startTime);
            Abs(ShortestDelta(m.Angle(now), m.target)) == if togo > 0.0 then togo else 0.0
  {
    if m.Arrived(now) {
      ZeroDelta(m.target, m.target);
    } else {
      RemainingDelta(m, now);
    }
  }

  /** Asking again for the target a move already has changes nothing that can be seen later. */
  lemma Reissue(m: Motion, mech: real, t: real, later: real)
    requires m.Valid() && m.startTime <= t <= later && Wrap360(mech) == m.target
    ensures var n := m.BegunMove(mech, t);
            n.Angle(later) == m.Angle(later) && n.Settled(later).moving == m.Settled(later).moving
            && n.target == m.target && n.syncOffset == m.syncOffset
  {
    hide Wrap360, ShortestDelta, Motion.Traveled;
    var n := m.BegunMove(mech, t);
    AnglesInRange(m, t, mech, 0.0);
    ZeroDelta(m.Angle(t), m.target);
    TraveledSplits(m, n, t, later);
    if m.moving && !m.Arrived(t) {
      var d, x, y := ShortestDelta(m.start, m.target), m.Traveled(t), n.Traveled(later);
      RemainingDelta(m, t);
      assert ShortestDelta(n.start, n.target) == Copysign(Abs(d) - x, d);
      assert m.Arrived(later) <==> n.Arrived(later);
      if !m.Arrived(later) {
        WrapSum(m.start + Copysign(x, d), Copysign(y, d));
        assert m.start + Copysign(x, d) + Copysign(y, d) == m.start + Copysign(x + y, d);
        assert n.Angle(later) == Wrap360(n.start + Copysign(y, d));
      }
    }
  }

  lemma TraveledSplits(m: Motion, n: Motion, t: real, later: real)
    requires n.rate == m.rate && n.startTime == t && m.startTime <= t <= later && m.rate >= 0.0
    ensures m.Traveled(later) == m.Traveled(t) + n.Traveled(later)
    ensures m.Traveled(t) >= 0.0 && n.Traveled(later) >= 0.0
  {
  }

  /** Something a client can do without meaning to disturb the motion. */
  datatype Call = Read(at: real) | Again(at: real, mech: real)

  function Done(m: Motion, c: Call): Motion {
    match c
    case Read(t) => m.Settled(t)
    case Again(t, mech) => m.BegunMove(mech, t)
  }

  function After(m: Motion, calls: seq<Call>): Motion
    decreases calls
  {
    if calls == [] then m else After(Done(m, calls[0]), calls[1..])
  }

  ghost predicate Undisturbing(m: Motion, calls: seq<Call>, from: real, later: real) {
    && (forall i | 0 <= i < |calls| :: from <= calls[i].at <= later)
    && (forall i, j | 0 <= i <= j < |calls| :: calls[i].at <= calls[j].at)
    && (forall i | 0 <= i < |calls| && calls[i].Again? :: Wrap360(calls[i].mech) == m.target)
  }

  lemma ReadChangesNothing(m: Motion, t: real, later: real)
    requires m.Valid() && m.startTime <= t <= later
    ensures m.Settled(t).Angle(later) == m.Angle(later) && m.Settled(t).Settled(later).moving == m.Settled(later).moving
  {
    TraveledSplits(m, m.(startTime := t), t, later);
  }

  /** Two states no client can tell apart from now on. */
  predicate SameAt(m: Motion, n: Motion, later: real) {
    && n.Angle(later) == m.Angle(later) && n.Position(later) == m.Position(later)
    && n.Settled(later).moving == m.Settled(later).moving
    && n.TargetPosition() == m.TargetPosition()
  }

  lemma CallUndisturbing(m: Motion, c: Call, later: real)
    requires m.Valid() && m.startTime <= c.at <= later && (c.Again? ==> Wrap360(c.mech) == m.target)
    ensures var n := Done(m, c);
            n.Valid() && n.startTime <= c.at && n.target == m.target && SameAt(m, n, later)
  {
    hide Wrap360, ShortestDelta, Abs, Copysign, Motion.Arrived;
    match c
    case Read(t) =>
      AnglesInRange(m, t, 0.0, 0.0);
      ReadChangesNothing(m, t, later);
    case Again(t, mech) =>
      AnglesInRange(m, t, mech, 0.0);
      Reissue(m, mech, t, later);
  }

  /** Any number of reads and repeated orders, at any instants, leave every later answer as it would have been. */
  lemma {:induction false} Undisturbed(m: Motion, calls: seq<Call>, from: real, later: real)
    requires m.Valid() && m.startTime <= from && Undisturbing(m, calls, from, later)
    ensures SameAt(m, After(m, calls), later)
    decreases calls
  {
    if calls != [] {
      hide Undisturbing, SameAt, Done, Motion.Valid, Wrap360;
      UndisturbingFirst(m, calls, from, later);
      CallUndisturbing(m, calls[0], later);
      var n := Done(m, calls[0]);
      UndisturbingRest(m, n, calls, from, later);
      Undisturbed(n, calls[1..], calls[0].at, later);
      SameTransitive(m, n, After(n, calls[1..]), later);
    }
  }

  lemma SameTransitive(m: Motion, n: Motion, o: Motion, later: real)
    requires SameAt(m, n, later) && SameAt(n, o, later)
    ensures SameAt(m, o, later)
  {
  }

  lemma UndisturbingFirst(m: Motion, calls: seq<Call>, from: real, later: real)
    requires calls != [] && Undisturbing(m, calls, from, later)
    ensures from <= calls[0].at <= later
    ensures calls[0].Again? ==> Wrap360(calls[0].mech) == m.target
  {
    hide Wrap360;
  }

  lemma UndisturbingRest(m: Motion, n: Motion, calls: seq<Call>, from: real, later: real)
    requires calls != [] && Undisturbing(m, calls, from, later) && n.target == m.target
    ensures Undisturbing(n, calls[1..], calls[0].at, later)
  {
    hide Wrap360;
    assert forall i | 0 <= i < |calls| - 1 :: calls[1..][i] == calls[i + 1];
  }

  /** A sky position asked for is, wrapped, the target position shown, and the one arrived at. */
  lemma MoveAbsoluteTargets(m: Motion, position: real, now: real, later: real)
    requires m.Valid() && now <= later
    ensures var n := m.BegunMove(position - m.syncOffset, now);
            && n.TargetPosition() == Wrap360(position)
            && (!n.moving || n.Arrived(later) ==> n.Position(later) == Wrap360(position))
  {
    hide Wrap360, ShortestDelta, Abs, Copysign, Motion.Traveled;
    var n := m.BegunMove(position - m.syncOffset, now);
    WrapSum(position - m.syncOffset, m.syncOffset);
    assert position - m.syncOffset + m.syncOffset == position;
    AnglesInRange(m, now, position - m.syncOffset, 0.0);
    assert n.target == Wrap360(position - m.syncOffset);
    assert !n.moving || n.Arrived(later) ==> n.Angle(later) == n.target;
  }

  /** A move starts where the rotator is, at the speed it had, and is under way unless it is there already. */
  lemma MoveStarts(m: Motion, mech: real, now: real)
    requires m.Valid() && m.startTime <= now
    ensures var n := m.BegunMove(mech, now);
            && n.Angle(now) == m.Angle(now) && n.Position(now) == m.Position(now)
            && n.rate == m.rate && n.syncOffset == m.syncOffset && n.startTime == now
            && (n.moving <==> m.Angle(now) != Wrap360(mech))
  {
    hide Wrap360, ShortestDelta, Motion.Traveled;
    var n := m.BegunMove(mech, now);
    AnglesInRange(m, now, mech, 0.0);
    ZeroDelta(m.Angle(now), Wrap360(mech));
    TraveledSplits(n, n, now, now);
    if n.moving {
      assert n.Traveled(now) == 0.0 by {
        NoTime(n);
      }
      WrapUnique(n.start, n.start, 0);
      assert n.start + Copysign(0.0, ShortestDelta(n.start, n.target)) == n.start;
    }
  }

  lemma NoTime(m: Motion)
    ensures m.Traveled(m.startTime) == 0.0
  {
  }

  /** A relative move goes to the position shown now plus the way asked for. */
  lemma MoveTargets(m: Motion, relative: real, now: real)
    requires m.Valid() && m.startTime <= now
    ensures m.Settled(now).BegunMove(m.Angle(now) + relative, now).TargetPosition()
            == Wrap360(m.Position(now) + relative)
  {
    hide ShortestDelta, Motion.Traveled;
    var a := m.Angle(now);
    WrapSum(a + relative, m.syncOffset);
    WrapSum(a + m.syncOffset, relative);
    assert a + relative + m.syncOffset == a + m.syncOffset + relative;
  }

  /** Halted, the rotator is where it was at that instant, for good, with nothing to go. */
  lemma HaltStays(m: Motion, now: real, later: real)
    ensures var n := m.Halted(now);
            && n.Angle(later) == m.Angle(now) && n.Position(later) == m.Position(now)
            && n.TargetPosition() == m.Position(now) && !n.Settled(later).moving
            && n.syncOffset == m.syncOffset && n.rate == m.rate
  {
    hide Wrap360, ShortestDelta, Motion.Traveled;
  }

  lemma SameAngle(m: Motion, offset: real, t: real)
    ensures m.(syncOffset := offset).Angle(t) == m.Angle(t)
  {
    hide Wrap360, ShortestDelta, Abs, Copysign;
    var n := m.(syncOffset := offset);
    assert n.start == m.start && n.target == m.target && n.moving == m.moving;
    assert n.Traveled(t) == m.Traveled(t);
    assert n.Arrived(t) == m.Arrived(t);
  }

  /** A sync makes the present position read as asked and leaves the mechanics alone. */
  lemma SyncShows(m: Motion, position: real, now: real, later: real)
    requires m.Valid() && m.startTime <= now <= later
    ensures var n := m.Synced(position, now);
            n.Position(now) == Wrap360(position) && n.Angle(later) == m.Angle(later)
  {
    hide Wrap360, ShortestDelta, Abs, Copysign;
    var n := m.Synced(position, now);
    SameAngle(m.Settled(now), n.syncOffset, now);
    SameAngle(m.Settled(now), n.syncOffset, later);
    ReadChangesNothing(m, now, now);
    ReadChangesNothing(m, now, later);
    WrapSum(position - m.Angle(now), m.Angle(now));
    assert position - m.Angle(now) + m.Angle(now) == position;
    assert n.Angle(now) + n.syncOffset == Wrap360(position - m.Angle(now)) + m.Angle(now);
  }
}
