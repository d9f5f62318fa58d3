/**
 * The rate-offset drift of the simulated telescope (sim/telescope.go), over the reals: while a mount tracks at the
 * sidereal rate its pointing drifts at the offset rates, computed on read from the time the drift was last folded in.
 * No slew and no MoveAxis is in progress.
 */
module TelescopeDrift {
  import opened Decimal

  const DRIVE_SIDEREAL := 0

  /** math.Mod(h, 24). */
  function Mod24(h: real): real {
    if h >= 0.0 then h - 24.0 * (h / 24.0).Floor as real
    else h + 24.0 * (-h / 24.0).Floor as real
  }

  function Wrap24(h: real): real {
    var m := Mod24(h);
    if m < 0.0 then m + 24.0 else m
  }

  function ClampDec(d: real): real {
    if d > 90.0 then 90.0 else if d < -90.0 then -90.0 else d
  }

  /** How far an offset rate carries the pointing: seconds to hours, or arcseconds to degrees. */
  function Drift(rate: real, elapsed: real): real {
    rate * elapsed / 3600.0
  }

  lemma WrapTurns(h: real) returns (k: int)
    ensures h - Wrap24(h) == 24.0 * k as real && 0.0 <= Wrap24(h) < 24.0
  {
    k := if h >= 0.0 then (h / 24.0).Floor else -(-h / 24.0).Floor;
    if Mod24(h) < 0.0 {
      k := k - 1;
    }
  }

  lemma WrapUnique(h: real, w: real, k: int)
    requires 0.0 <= w < 24.0 && h - w == 24.0 * k as real
    ensures Wrap24(h) == w
  {
    var j := WrapTurns(h);
    assert w - Wrap24(h) == 24.0 * (j - k) as real;
  }

  /** Wrapping a part of a sum first makes no difference. */
  lemma WrapSum(a: real, b: real)
    ensures Wrap24(Wrap24(a) + b) == Wrap24(a + b)
  {
    var k := WrapTurns(a);
    var j := WrapTurns(a + b);
    assert Wrap24(a) + b - Wrap24(a + b) == 24.0 * (j - k) as real;
    WrapUnique(Wrap24(a) + b, Wrap24(a + b), j - k);
  }

  // ---- the model ----

  /** Rates in seconds of right ascension and arcseconds per second; rateEpoch is None for the zero time. */
  datatype Pointing = Pointing(
    startRA: real, startDec: real, targetRA: real, targetDec: real,
    raRate: real, decRate: real, tracking: bool, trackingRate: int, rateEpoch: Option<real>)
  {
    predicate DriftActive() {
      tracking && trackingRate == DRIVE_SIDEREAL && (raRate != 0.0 || decRate != 0.0) && rateEpoch.Some?
    }

    function DriftedRA(now: real): real
      requires rateEpoch.Some?
    {
      Wrap24(startRA + Drift(raRate, now - rateEpoch.value))
    }

    function DriftedDec(now: real): real
      requires rateEpoch.Some?
    {
      ClampDec(startDec + Drift(decRate, now - rateEpoch.value))
    }

    function RA(now: real): real {
      if DriftActive() then DriftedRA(now) else startRA
    }

    function Dec(now: real): real {
      if DriftActive() then DriftedDec(now) else startDec
    }

    /** settleRatesLocked. */
    function Folded(now: real): Pointing {
      var p := if DriftActive() then
                 this.(startRA := DriftedRA(now), startDec := DriftedDec(now),
                       targetRA := DriftedRA(now), targetDec := DriftedDec(now))
               else this;
      p.(rateEpoch := Some(now))
    }

    function WithTracking(v: bool, now: real): Pointing {
      Folded(now).(tracking := v)
    }

    function WithTrackingRate(r: int, now: real): Pointing {
      var p := Folded(now);
      if r != trackingRate then p.(raRate := 0.0, decRate := 0.0, trackingRate := r) else p
    }

    function WithRARate(v: real, now: real): Pointing {
      Folded(now).(raRate := v)
    }

    function WithDecRate(v: real, now: real): Pointing {
      Folded(now).(decRate := v)
    }

    /** A declination on the sphere, and a drift clock that runs whenever there is an offset to drift by. */
    predicate Valid() {
      && -90.0 <= startDec <= 90.0
      && (raRate != 0.0 || decRate != 0.0 ==> rateEpoch.Some?)
    }
  }

  /** The device; every method takes the one clock reading it makes. */
  class TelescopeDevice {
    var startRA: real
    var startDec: real
    var targetRA: real
    var targetDec: real
    var raRate: real
    var decRate: real
    var tracking: bool
    var trackingRate: int
    var rateEpoch: Option<real>

    /** NewTelescope, pointed as WithPosition asks. */
    constructor (ra: real, dec: real)
      ensures State() == Pointing(ra, dec, ra, dec, 0.0, 0.0, false, DRIVE_SIDEREAL, None)
    {
      startRA, startDec, targetRA, targetDec := ra, dec, ra, dec;
      raRate, decRate, tracking, trackingRate, rateEpoch := 0.0, 0.0, false, DRIVE_SIDEREAL, None;
    }

    function State(): Pointing
      reads this
    {
      Pointing(startRA, startDec, targetRA, targetDec, raRate, decRate, tracking, trackingRate, rateEpoch)
    }

    predicate RateDriftActive()
      reads this
    {
      tracking && trackingRate == DRIVE_SIDEREAL && (raRate != 0.0 || decRate != 0.0) && rateEpoch.Some?
    }

    method SettleRates(now: real)
      modifies this
      ensures State() == old(State()).Folded(now)
    {
      hide Drift, Wrap24, ClampDec;
      if RateDriftActive() {
        var el := now - rateEpoch.value;
        startRA := Wrap24(startRA + Drift(raRate, el));
        startDec := ClampDec(startDec + Drift(decRate, el));
        targetRA, targetDec := startRA, startDec;
      }
      rateEpoch := Some(now);
    }

    method RightAscension(now: real) returns (ra: real)
      ensures ra == State().RA(now)
    {
      hide Drift, Wrap24, ClampDec;
      if RateDriftActive() {
        var el := now - rateEpoch.value;
        return Wrap24(startRA + Drift(raRate, el));
      }
      return startRA;
    }

    method Declination(now: real) returns (dec: real)
      ensures dec == State().Dec(now)
    {
      hide Drift, Wrap24, ClampDec;
      if RateDriftActive() {
        var el := now - rateEpoch.value;
        return ClampDec(startDec + Drift(decRate, el));
      }
      return startDec;
    }

    method SetTracking(v: bool, now: real)
      modifies this
      ensures State() == old(State()).WithTracking(v, now)
    {
      SettleRates(now);
      tracking := v;
    }

    method SetTrackingRate(r: int, now: real)
      modifies this
      ensures State() == old(State()).WithTrackingRate(r, now)
    {
      SettleRates(now);
      if r != trackingRate {
        raRate, decRate := 0.0, 0.0;
      }
      trackingRate := r;
    }

    method SetRightAscensionRate(v: real, now: real)
      modifies this
      ensures State() == old(State()).WithRARate(v, now)
    {
      SettleRates(now);
      raRate := v;
    }

    method SetDeclinationRate(v: real, now: real)
      modifies this
      ensures State() == old(State()).WithDecRate(v, now)
    {
      SettleRates(now);
      decRate := v;
    }
  }

  // ---- folding is unobservable ----

  lemma DriftSplits(rate: real, from: real, t: real, later: real)
    ensures Drift(rate, later - from) == Drift(rate, t - from) + Drift(rate, later - t)
  {
  }

  /** Going on from a clamped declination: past a pole a constant rate stays there. */
  lemma ClampSum(d: real, a: real, b: real)
    requires -90.0 <= d <= 90.0 && ((a >= 0.0 && b >= 0.0) || (a <= 0.0 && b <= 0.0))
    ensures ClampDec(ClampDec(d + a) + b) == ClampDec(d + (a + b))
  {
  }

  lemma DriftSign(rate: real, x: real)
    requires x >= 0.0
    ensures rate >= 0.0 ==> Drift(rate, x) >= 0.0
    ensures rate <= 0.0 ==> Drift(rate, x) <= 0.0
    ensures rate == 0.0 || x == 0.0 ==> Drift(rate, x) == 0.0
  {
  }

  /** Every operation keeps the state valid. */
  lemma KeepsValid(p: Pointing, v: real, on: bool, r: int, now: real)
    requires p.Valid()
    ensures p.Folded(now).Valid() && p.WithTracking(on, now).Valid() && p.WithTrackingRate(r, now).Valid()
    ensures p.WithRARate(v, now).Valid() && p.WithDecRate(v, now).Valid()
  {
  }

  /** Folding the drift in at any instant leaves every later reading as it would have been. */
  lemma FoldOnce(p: Pointing, t: real, later: real)
    requires p.Valid() && t <= later && (p.rateEpoch.Some? ==> p.rateEpoch.value <= t)
    ensures p.Folded(t).RA(later) == p.RA(later) && p.Folded(t).Dec(later) == p.Dec(later)
  {
    if p.DriftActive() {
      hide Wrap24, ClampDec, Drift;
      var e := p.rateEpoch.value;
      DriftSplits(p.raRate, e, t, later);
      DriftSplits(p.decRate, e, t, later);
      WrapSum(p.startRA + Drift(p.raRate, t - e), Drift(p.raRate, later - t));
      DriftSign(p.decRate, t - e);
      DriftSign(p.decRate, later - t);
      ClampSum(p.startDec, Drift(p.decRate, t - e), Drift(p.decRate, later - t));
      assert p.startRA + Drift(p.raRate, t - e) + Drift(p.raRate, later - t) == p.startRA + Drift(p.raRate, later - e);
    }
  }

  /** A setter called with the value already set. */
  datatype Repeat = Tracking(at: real) | TrackingRate(at: real) | RARate(at: real) | DecRate(at: real)

  function Repeated(p: Pointing, r: Repeat): Pointing {
    match r
    case Tracking(t) => p.WithTracking(p.tracking, t)
    case TrackingRate(t) => p.WithTrackingRate(p.trackingRate, t)
    case RARate(t) => p.WithRARate(p.raRate, t)
    case DecRate(t) => p.WithDecRate(p.decRate, t)
  }

  function AllRepeated(p: Pointing, rs: seq<Repeat>): Pointing
    decreases rs
  {
    if rs == [] then p else AllRepeated(Repeated(p, rs[0]), rs[1..])
  }

  ghost predicate InOrder(rs: seq<Repeat>, from: real, later: real) {
    && (forall i | 0 <= i < |rs| :: from <= rs[i].at <= later)
    && forall i, j | 0 <= i <= j < |rs| :: rs[i].at <= rs[j].at
  }

  /**
   * Drift is never counted twice: repeating setters at any instants, and so folding at each, leaves the pointing at
   * every later time equal to one unfolded computation.
   */
  lemma {:induction false} DriftCountedOnce(p: Pointing, rs: seq<Repeat>, from: real, later: real)
    requires p.Valid() && (p.rateEpoch.Some? ==> p.rateEpoch.value <= from) && InOrder(rs, from, later)
    ensures AllRepeated(p, rs).RA(later) == p.RA(later) && AllRepeated(p, rs).Dec(later) == p.Dec(later)
    decreases rs
  {
    if rs != [] {
      var t := rs[0].at;
      RepeatFolds(p, rs[0]);
      FoldOnce(p, t, later);
      KeepsValid(p, 0.0, false, 0, t);
      assert InOrder(rs[1..], t, later);
      DriftCountedOnce(p.Folded(t), rs[1..], t, later);
    }
  }

  lemma RepeatFolds(p: Pointing, r: Repeat)
    ensures Repeated(p, r) == p.Folded(r.at)
  {
  }

  /** When a rate does change, the pointing goes on from where it is, at the new rate and no other. */
  lemma RateChange(p: Pointing, v: real, t: real, later: real)
    requires p.Valid() && p.tracking && p.trackingRate == 0 && 0.0 <= p.startRA < 24.0 && t <= later
    ensures p.WithRARate(v, t).RA(later) == Wrap24(p.RA(t) + Drift(v, later - t))
    ensures p.WithDecRate(v, t).Dec(later) == ClampDec(p.Dec(t) + Drift(v, later - t))
  {
    hide Wrap24, Drift;
    DriftSign(v, later - t);
    RAInRange(p, t);
    WrapUnique(p.RA(t), p.RA(t), 0);
  }

  /** A mount that does not track, or tracks at another rate than the sidereal one, has no drift. */
  lemma NoDrift(p: Pointing, now: real)
    requires !p.tracking || p.trackingRate != 0 || (p.raRate == 0.0 && p.decRate == 0.0)
    ensures p.RA(now) == p.startRA && p.Dec(now) == p.startDec
  {
  }

  /** Switched off, tracking leaves the pointing where it is, and on again it goes on from there at its rates. */
  lemma TrackingSwitch(p: Pointing, t: real, u: real, later: real)
    requires p.Valid() && 0.0 <= p.startRA < 24.0 && t <= u <= later
    ensures var off := p.WithTracking(false, t);
            && off.RA(later) == p.RA(t) && off.Dec(later) == p.Dec(t)
            && (p.trackingRate == 0 ==>
                  var on := off.WithTracking(true, u);
                  && on.RA(later) == Wrap24(p.RA(t) + Drift(p.raRate, later - u))
                  && on.Dec(later) == ClampDec(p.Dec(t) + Drift(p.decRate, later - u)))
  {
    hide Wrap24, Drift;
    DriftSign(p.raRate, later - u);
    DriftSign(p.decRate, later - u);
    RAInRange(p, t);
    WrapUnique(p.RA(t), p.RA(t), 0);
  }

  /** Another drive rate drops both offsets: the pointing stays where it is, also when the sidereal rate comes back. */
  lemma DriveRateChange(p: Pointing, r: int, t: real, u: real, later: real)
    requires p.Valid() && r != p.trackingRate && t <= u <= later
    ensures var other := p.WithTrackingRate(r, t);
            && other.trackingRate == r && other.raRate == 0.0 && other.decRate == 0.0
            && other.RA(later) == p.RA(t) && other.Dec(later) == p.Dec(t)
            && (var back := other.WithTrackingRate(p.trackingRate, u);
                && back.raRate == 0.0 && back.decRate == 0.0
                && back.RA(later) == p.RA(t) && back.Dec(later) == p.Dec(t))
  {
    hide Wrap24, Drift, ClampDec;
  }

  /** Folding carries the target along, so that what was no slew before is none afterwards. */
  lemma FoldKeepsTarget(p: Pointing, t: real)
    requires p.targetRA == p.startRA && p.targetDec == p.startDec
    ensures var q := p.Folded(t); q.targetRA == q.startRA && q.targetDec == q.startDec
    ensures var q := p.Folded(t); q.startRA == p.RA(t) && q.startDec == p.Dec(t) && q.rateEpoch == Some(t)
  {
    hide Wrap24, Drift, ClampDec;
  }

  lemma RAInRange(p: Pointing, t: real)
    requires 0.0 <= p.startRA < 24.0
    ensures 0.0 <= p.RA(t) < 24.0
  {
    if p.DriftActive() {
      var _ := WrapTurns(p.startRA + Drift(p.raRate, t - p.rateEpoch.value));
    }
  }

  /** The declination starts within the poles, or drifts no closer to them. */
  predicate ClampStable(p: Pointing) {
    -90.0 <= p.startDec <= 90.0 || (p.startDec > 90.0 && p.decRate >= 0.0) || (p.startDec < -90.0 && p.decRate <= 0.0)
  }

  /** Off the sphere folding can be seen: it is never visible, at whatever instant, if and only if Dec is stable. */
  lemma FoldVisible(p: Pointing)
    requires p.DriftActive()
    ensures ClampStable(p) <==>
            forall t: real, later: real | p.rateEpoch.value <= t <= later :: p.Folded(t).Dec(later) == p.Dec(later)
  {
    var e := p.rateEpoch.value;
    if ClampStable(p) {
      forall t: real, later: real | e <= t <= later
        ensures p.Folded(t).Dec(later) == p.Dec(later)
      {
        StableFold(p, t, later);
      }
    } else {
      var later := VisibleAt(p);
      assert p.Folded(e).Dec(later) != p.Dec(later);
    }
  }

  lemma StableFold(p: Pointing, t: real, later: real)
    requires p.DriftActive() && ClampStable(p) && p.rateEpoch.value <= t <= later
    ensures p.Folded(t).Dec(later) == p.Dec(later)
  {
    hide Drift, Wrap24;
    var e := p.rateEpoch.value;
    DriftSplits(p.decRate, e, t, later);
    DriftSign(p.decRate, t - e);
    DriftSign(p.decRate, later - t);
  }

  /** Folded at once and read when the drift has made one degree, the declination shows the clamp. */
  lemma VisibleAt(p: Pointing) returns (later: real)
    requires p.DriftActive() && !ClampStable(p)
    ensures later >= p.rateEpoch.value && p.Folded(p.rateEpoch.value).Dec(later) != p.Dec(later)
  {
    var e := p.rateEpoch.value;
    later := OneDegree(p.decRate, e);
    hide Drift, Wrap24;
    DriftSign(p.decRate, e - e);
  }

  lemma OneDegree(rate: real, e: real) returns (later: real)
    requires rate != 0.0
    ensures later >= e && Drift(rate, later - e) == if rate < 0.0 then -1.0 else 1.0
  {
    var x := 3600.0 / (if rate < 0.0 then -rate else rate);
    assert x * rate == if rate < 0.0 then -3600.0 else 3600.0;
    later := e + x;
  }
}
