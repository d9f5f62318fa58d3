/**
 * The gates in front of a telescope driver (server/gates.go, server/gate.go): each is a branch over what the mount
 * reports and what the request asks, and refuses or lets the call through.
 */
module TelescopeGates {
  import opened Decimal

  /** What strconv.ParseFloat returns without an error. */
  datatype Float = NaN | NegInf | Fin(r: real) | PosInf

  /** a < b; a comparison with NaN is false. */
  predicate Lt(a: Float, b: Float) {
    match a
    case NaN => false
    case NegInf => b.Fin? || b.PosInf?
    case PosInf => false
    case Fin(x) => b.PosInf? || (b.Fin? && x < b.r)
  }

  predicate Ge(a: Float, b: Float) {
    Lt(b, a) || (a == b && !a.NaN?)
  }

  function Abs(v: Float): Float {
    match v
    case NegInf => PosInf
    case Fin(x) => Fin(if x < 0.0 then -x else x)
    case _ => v
  }

  datatype Can =
    | FindHome | Park | PulseGuide | SetDeclinationRate | SetGuideRates | SetPark | SetPierSide | SetRightAscensionRate
    | SetTracking | Slew | SlewAltAz | SlewAltAzAsync | SlewAsync | Sync | SyncAltAz | Unpark

  /** A call that changes something in the driver. */
  datatype Call =
    | Connect | Disconnect
    | Action(name: string, args: string) | CommandString(text: string, raw: bool)
    | CommandBool(text: string, raw: bool) | CommandBlind(text: string, raw: bool)
    | SetDeclinationRate(v: Float) | SetRightAscensionRate(v: Float) | SetDoesRefraction(on: bool)
    | SetGuideRateDeclination(v: Float) | SetGuideRateRightAscension(v: Float)
    | SetSideOfPier(side: int) | SetSiteElevation(v: Float) | SetSiteLatitude(v: Float) | SetSiteLongitude(v: Float)
    | SetSlewSettleTime(seconds: int) | SetTargetDeclination(v: Float) | SetTargetRightAscension(v: Float)
    | SetTracking(on: bool) | SetTrackingRate(rate: int) | SetUTCDate(date: string)
    | AbortSlew | FindHome | MoveAxis(axis: int, v: Float) | Park | PulseGuide(direction: int, duration: int)
    | SetPark | Unpark
    | SlewToAltAz(az: Float, alt: Float) | SlewToAltAzAsync(az: Float, alt: Float) | SyncToAltAz(az: Float, alt: Float)
    | SlewToCoordinates(ra: Float, dec: Float) | SlewToCoordinatesAsync(ra: Float, dec: Float)
    | SyncToCoordinates(ra: Float, dec: Float)
    | SlewToTarget | SlewToTargetAsync | SyncToTarget

  /** What a mount reports while one request is served, and how it answers the calls it gets. */
  datatype Mount = Mount(
    connected: bool,
    busy: bool,                     // Busyable and Busy()
    atPark: bool,
    can: set<Can>,
    canMoveAxis: int -> bool,
    axisRates: int -> seq<(Float, Float)>,
    trackingRate: int,
    trackingRates: seq<int>,
    readsAsDate: string -> bool,    // one of the ISO-8601 layouts parses it
    embedsBase: bool,               // its targets are those of BaseTelescope
    targetRA: Option<Float>,        // None: the getter returns an error
    targetDec: Option<Float>,
    answers: Call -> bool)          // the call returns no error

  datatype Reply =
    | Done | BadRequest | UnknownMember | NotConnected | NotImplemented | InvalidValue | Parked | InvalidOperation
    | DriverError

  const DRIVE_SIDEREAL := 0
  const PIER_EAST := 0
  const PIER_WEST := 1

  // ---- the gates as the server runs them ----

  predicate OutOfRange(v: Float, lo: real, hi: real) {
    Lt(v, Fin(lo)) || Lt(Fin(hi), v)
  }

  predicate ValidRightAscension(hours: Float) {
    !(Lt(hours, Fin(0.0)) || Ge(hours, Fin(24.0)))
  }

  predicate ValidRADec(ra: Float, dec: Float) {
    ValidRightAscension(ra) && !OutOfRange(dec, -90.0, 90.0)
  }

  predicate ValidAltAz(az: Float, alt: Float) {
    !OutOfRange(az, 0.0, 360.0) && !OutOfRange(alt, -90.0, 90.0)
  }

  predicate ValidAxisRate(m: Mount, axis: int, rate: Float) {
    var rates := m.axisRates(axis);
    rate == Fin(0.0) || exists i :: 0 <= i < |rates| && Ge(Abs(rate), rates[i].0) && Ge(rates[i].1, Abs(rate))
  }

  function InRange(ok: bool): Reply {
    if ok then Done else InvalidValue
  }

  function Capability(m: Mount, can: Can): Reply {
    if can in m.can then Done else NotImplemented
  }

  function RateOffsetGate(m: Mount, can: Can): Reply {
    if can !in m.can then NotImplemented else if m.trackingRate != DRIVE_SIDEREAL then InvalidOperation else Done
  }

  function PointingGate(m: Mount, can: Can, valid: bool): Reply {
    if can !in m.can then NotImplemented else if !valid then InvalidValue else if m.atPark then Parked else Done
  }

  function TargetGate(m: Mount, can: Can): Reply {
    if can !in m.can then NotImplemented
    else if m.atPark then Parked
    else if m.targetRA.None? || m.targetDec.None? then (if m.embedsBase then InvalidOperation else DriverError)
    else Done
  }

  function Gate(m: Mount, c: Call): Reply {
    match c
    case SetDeclinationRate(_) => RateOffsetGate(m, Can.SetDeclinationRate)
    case SetRightAscensionRate(_) => RateOffsetGate(m, Can.SetRightAscensionRate)
    case SetGuideRateDeclination(v) => if Can.SetGuideRates !in m.can then NotImplemented else InRange(!Lt(v, Fin(0.0)))
    case SetGuideRateRightAscension(v) =>
      if Can.SetGuideRates !in m.can then NotImplemented else InRange(!Lt(v, Fin(0.0)))
    case SetSideOfPier(side) =>
      if Can.SetPierSide !in m.can then NotImplemented else InRange(!(side != PIER_EAST && side != PIER_WEST))
    case SetSiteElevation(v) => InRange(!OutOfRange(v, -300.0, 10000.0))
    case SetSiteLatitude(v) => InRange(!OutOfRange(v, -90.0, 90.0))
    case SetSiteLongitude(v) => InRange(!OutOfRange(v, -180.0, 180.0))
    case SetSlewSettleTime(seconds) => InRange(!(seconds < 0))
    case SetTargetDeclination(v) => InRange(!OutOfRange(v, -90.0, 90.0))
    case SetTargetRightAscension(v) => InRange(ValidRightAscension(v))
    case SetTracking(on) =>
      if Can.SetTracking !in m.can then NotImplemented else if on && m.atPark then Parked else Done
    case SetTrackingRate(rate) => InRange(rate in m.trackingRates)
    case SetUTCDate(date) => InRange(m.readsAsDate(date))
    case AbortSlew => if m.atPark then Parked else Done
    case FindHome => PointingGate(m, Can.FindHome, true)
    case MoveAxis(axis, v) =>
      if axis < 0 || axis > 2 then InvalidValue
      else if !m.canMoveAxis(axis) then NotImplemented
      else if !ValidAxisRate(m, axis, v) then InvalidValue
      else if m.atPark then Parked
      else Done
    case Park => Capability(m, Can.Park)
    case PulseGuide(direction, duration) =>
      if Can.PulseGuide !in m.can then NotImplemented
      else if !(0 <= direction <= 3) then InvalidValue
      else if duration < 0 then InvalidValue
      else if m.atPark then Parked
      else Done
    case SetPark => Capability(m, Can.SetPark)
    case Unpark => Capability(m, Can.Unpark)
    case SlewToAltAz(az, alt) => PointingGate(m, Can.SlewAltAz, ValidAltAz(az, alt))
    case SlewToAltAzAsync(az, alt) => PointingGate(m, Can.SlewAltAzAsync, ValidAltAz(az, alt))
    case SyncToAltAz(az, alt) => PointingGate(m, Can.SyncAltAz, ValidAltAz(az, alt))
    case SlewToCoordinates(ra, dec) => PointingGate(m, Can.Slew, ValidRADec(ra, dec))
    case SlewToCoordinatesAsync(ra, dec) => PointingGate(m, Can.SlewAsync, ValidRADec(ra, dec))
    case SyncToCoordinates(ra, dec) => PointingGate(m, Can.Sync, ValidRADec(ra, dec))
    case SlewToTarget => TargetGate(m, Can.Slew)
    case SlewToTargetAsync => TargetGate(m, Can.SlewAsync)
    case SyncToTarget => TargetGate(m, Can.Sync)
    case _ => Done
  }

  // ---- what the gates promise, said of the call itself ----

  /** The calls that move the mount, end a motion or change where it believes it points. */
  predicate Moves(c: Call) {
    || c.SlewToAltAz? || c.SlewToAltAzAsync? || c.SyncToAltAz?
    || c.SlewToCoordinates? || c.SlewToCoordinatesAsync? || c.SyncToCoordinates?
    || TargetCall(c) || c.MoveAxis? || c.PulseGuide? || c.FindHome? || c.AbortSlew? || c == Call.SetTracking(true)
  }

  predicate TargetCall(c: Call) {
    c.SlewToTarget? || c.SlewToTargetAsync? || c.SyncToTarget?
  }

  /** The capability a call needs, axis moves aside. */
  function Needs(c: Call): Option<Can> {
    match c
    case SetDeclinationRate(_) => Some(Can.SetDeclinationRate)
    case SetRightAscensionRate(_) => Some(Can.SetRightAscensionRate)
    case SetGuideRateDeclination(_) | SetGuideRateRightAscension(_) => Some(Can.SetGuideRates)
    case SetSideOfPier(_) => Some(Can.SetPierSide)
    case SetTracking(_) => Some(Can.SetTracking)
    case FindHome => Some(Can.FindHome)
    case Park => Some(Can.Park)
    case PulseGuide(_, _) => Some(Can.PulseGuide)
    case SetPark => Some(Can.SetPark)
    case Unpark => Some(Can.Unpark)
    case SlewToAltAz(_, _) => Some(Can.SlewAltAz)
    case SlewToAltAzAsync(_, _) => Some(Can.SlewAltAzAsync)
    case SyncToAltAz(_, _) => Some(Can.SyncAltAz)
    case SlewToCoordinates(_, _) | SlewToTarget => Some(Can.Slew)
    case SlewToCoordinatesAsync(_, _) | SlewToTargetAsync => Some(Can.SlewAsync)
    case SyncToCoordinates(_, _) | SyncToTarget => Some(Can.Sync)
    case _ => None
  }

  predicate Capable(m: Mount, c: Call) {
    if c.MoveAxis? then m.canMoveAxis(c.axis) else Needs(c).None? || Needs(c).value in m.can
  }

  predicate Within(v: Float, lo: real, hi: real) {
    v.Fin? && lo <= v.r <= hi
  }

  /** The numbers of a call lie in the ranges of the interface; `nan` says whether NaN is let through as well. */
  predicate Sound(m: Mount, c: Call, nan: bool) {
    match c
    case SetGuideRateDeclination(v) => (v.Fin? && v.r >= 0.0) || v.PosInf? || (nan && v.NaN?)
    case SetGuideRateRightAscension(v) => (v.Fin? && v.r >= 0.0) || v.PosInf? || (nan && v.NaN?)
    case SetSideOfPier(side) => side in {0, 1}
    case SetSiteElevation(v) => Within(v, -300.0, 10000.0) || (nan && v.NaN?)
    case SetSiteLatitude(v) => Within(v, -90.0, 90.0) || (nan && v.NaN?)
    case SetSiteLongitude(v) => Within(v, -180.0, 180.0) || (nan && v.NaN?)
    case SetSlewSettleTime(seconds) => seconds >= 0
    case SetTargetDeclination(v) => SoundDegrees(v, nan)
    case SetTargetRightAscension(v) => SoundHours(v, nan)
    case SetTrackingRate(rate) => rate in m.trackingRates
    case SetUTCDate(date) => m.readsAsDate(date)
    case MoveAxis(axis, v) => axis in {0, 1, 2} && SoundRate(v, m.axisRates(axis))
    case PulseGuide(direction, duration) => direction in {0, 1, 2, 3} && duration >= 0
    case SlewToAltAz(az, alt) => SoundAzimuth(az, nan) && SoundDegrees(alt, nan)
    case SlewToAltAzAsync(az, alt) => SoundAzimuth(az, nan) && SoundDegrees(alt, nan)
    case SyncToAltAz(az, alt) => SoundAzimuth(az, nan) && SoundDegrees(alt, nan)
    case SlewToCoordinates(ra, dec) => SoundHours(ra, nan) && SoundDegrees(dec, nan)
    case SlewToCoordinatesAsync(ra, dec) => SoundHours(ra, nan) && SoundDegrees(dec, nan)
    case SyncToCoordinates(ra, dec) => SoundHours(ra, nan) && SoundDegrees(dec, nan)
    case _ => true
  }

  /** A rate to turn at is zero or, in either direction, in one of the ranges given. */
  predicate SoundRate(v: Float, rates: seq<(Float, Float)>) {
    v == Fin(0.0) || exists i :: 0 <= i < |rates| && Between(Size(v), rates[i].0, rates[i].1)
  }

  /** A rate without its direction. */
  function Size(v: Float): Float {
    if v.NegInf? then PosInf else if v.Fin? && v.r < 0.0 then Fin(0.0 - v.r) else v
  }

  /** lo <= v <= hi, where infinities are the least and the greatest and NaN is nowhere. */
  predicate Between(v: Float, lo: Float, hi: Float) {
    && !v.NaN? && !lo.NaN? && !hi.NaN?
    && (lo.NegInf? || v.PosInf? || (lo.Fin? && v.Fin? && lo.r <= v.r))
    && (v.NegInf? || hi.PosInf? || (v.Fin? && hi.Fin? && v.r <= hi.r))
  }

  predicate SoundHours(v: Float, nan: bool) {
    (v.Fin? && 0.0 <= v.r < 24.0) || (nan && v.NaN?)
  }

  predicate SoundDegrees(v: Float, nan: bool) {
    Within(v, -90.0, 90.0) || (nan && v.NaN?)
  }

  predicate SoundAzimuth(v: Float, nan: bool) {
    Within(v, 0.0, 360.0) || (nan && v.NaN?)
  }

  /** What holds only in the mount's present mode: a sidereal drive for rate offsets, both targets for target calls. */
  predicate Ready(m: Mount, c: Call) {
    && (c.SetDeclinationRate? || c.SetRightAscensionRate? ==> m.trackingRate == 0)
    && (TargetCall(c) ==> m.targetRA.Some? && m.targetDec.Some?)
  }

  /** The gates in the documented order: capability, ranges, parked, mode. */
  function OrderedGate(m: Mount, c: Call): Reply {
    if !Capable(m, c) then NotImplemented
    else if !Sound(m, c, true) then InvalidValue
    else if Moves(c) && m.atPark then Parked
    else if !Ready(m, c) then (if TargetCall(c) && !m.embedsBase then DriverError else InvalidOperation)
    else Done
  }

  /** The comparisons the gates make accept exactly the range and NaN. */
  lemma RangeMeans(v: Float, lo: real, hi: real)
    ensures !OutOfRange(v, lo, hi) <==> Within(v, lo, hi) || v.NaN?
  {
  }

  lemma HoursMean(v: Float)
    ensures ValidRightAscension(v) <==> SoundHours(v, true)
  {
  }

  lemma BetweenMeans(v: Float, lo: Float, hi: Float)
    ensures Ge(v, lo) && Ge(hi, v) <==> Between(v, lo, hi)
  {
  }

  /** An axis rate is the one range where NaN is refused. */
  lemma AxisRateMeans(m: Mount, axis: int, v: Float)
    ensures ValidAxisRate(m, axis, v) <==> SoundRate(v, m.axisRates(axis))
    ensures !ValidAxisRate(m, axis, NaN)
  {
    hide Ge, Lt, Between;
    var rates := m.axisRates(axis);
    forall i | 0 <= i < |rates|
      ensures Ge(Abs(v), rates[i].0) && Ge(rates[i].1, Abs(v)) <==> Between(Size(v), rates[i].0, rates[i].1)
    {
      BetweenMeans(Abs(v), rates[i].0, rates[i].1);
    }
    NoRateIsNaN(rates);
    forall i | 0 <= i < |rates|
      ensures Ge(Abs(NaN), rates[i].0) && Ge(rates[i].1, Abs(NaN)) <==> Between(Size(NaN), rates[i].0, rates[i].1)
    {
      BetweenMeans(Abs(NaN), rates[i].0, rates[i].1);
    }
  }

  lemma NoRateIsNaN(rates: seq<(Float, Float)>)
    ensures !SoundRate(NaN, rates)
  {
  }

  /** For a call that points the mount somewhere, or to its targets. */
  lemma PointingOrder(m: Mount, c: Call, can: Can)
    requires Needs(c) == Some(can) && Moves(c) && !TargetCall(c) && !c.MoveAxis?
    ensures OrderedGate(m, c) == PointingGate(m, can, Sound(m, c, true))
  {
    hide Sound;
  }

  lemma CoordinatesMean()
    ensures forall az, alt :: ValidAltAz(az, alt) <==> SoundAzimuth(az, true) && SoundDegrees(alt, true)
    ensures forall ra, dec :: ValidRADec(ra, dec) <==> SoundHours(ra, true) && SoundDegrees(dec, true)
  {
    hide OutOfRange, ValidRightAscension, Within;
    forall az, alt ensures ValidAltAz(az, alt) <==> SoundAzimuth(az, true) && SoundDegrees(alt, true) {
      RangeMeans(az, 0.0, 360.0);
      RangeMeans(alt, -90.0, 90.0);
    }
    forall ra, dec ensures ValidRADec(ra, dec) <==> SoundHours(ra, true) && SoundDegrees(dec, true) {
      HoursMean(ra);
      RangeMeans(dec, -90.0, 90.0);
    }
  }

  /** The setters of plain numbers, which only their range guards. */
  predicate RangedSetter(c: Call) {
    || c.SetSiteElevation? || c.SetSiteLatitude? || c.SetSiteLongitude? || c.SetTargetDeclination?
    || c.SetTargetRightAscension? || c.SetGuideRateDeclination? || c.SetGuideRateRightAscension?
  }

  /** For those, the documented order is capability and then range. */
  lemma RangedOrder(m: Mount, c: Call)
    requires RangedSetter(c)
    ensures OrderedGate(m, c) == if !Capable(m, c) then NotImplemented else InRange(Sound(m, c, true))
  {
    hide Sound, Capable;
  }

  lemma RangedSetters(m: Mount, c: Call)
    requires RangedSetter(c)
    ensures Gate(m, c) == OrderedGate(m, c)
  {
    hide OutOfRange, ValidRightAscension, Within, Lt, OrderedGate;
    RangedOrder(m, c);
    if c.SetGuideRateDeclination? || c.SetGuideRateRightAscension? {
      NonNegativeMeans(c.v);
    } else if c.SetTargetRightAscension? {
      HoursMean(c.v);
    } else {
      RangeMeans(c.v, -300.0, 10000.0);
      RangeMeans(c.v, -180.0, 180.0);
      RangeMeans(c.v, -90.0, 90.0);
    }
  }

  /** The calls that need no capability and have no range. */
  predicate FreeCall(c: Call) {
    || c.Connect? || c.Disconnect? || c.Action? || c.CommandString? || c.CommandBool? || c.CommandBlind?
    || c.SetDoesRefraction? || c.AbortSlew?
  }

  lemma FreeCalls(m: Mount, c: Call)
    requires FreeCall(c)
    ensures Gate(m, c) == OrderedGate(m, c)
  {
    assert Needs(c) == None && Sound(m, c, true) && Ready(m, c);
  }

  lemma TargetCalls(m: Mount, c: Call)
    requires TargetCall(c)
    ensures Gate(m, c) == OrderedGate(m, c)
  {
    assert Sound(m, c, true) && Moves(c);
  }

  lemma OtherCalls(m: Mount, c: Call)
    requires !c.MoveAxis? && !(Needs(c).Some? && Moves(c)) && !RangedSetter(c) && !FreeCall(c) && !TargetCall(c)
    ensures Gate(m, c) == OrderedGate(m, c)
  {
    hide OutOfRange, ValidRightAscension, Within, Lt;
    assert !Moves(c);
    hide Moves;
  }

  lemma NonNegativeMeans(v: Float)
    ensures !Lt(v, Fin(0.0)) <==> (v.Fin? && v.r >= 0.0) || v.PosInf? || v.NaN?
  {
  }

  /**
   * The server's answer is the documented one except where a mount is asked to move an axis that does not exist and
   * that it cannot move: the axis is reported as invalid before the capability is looked at.
   */
  lemma GateOrder(m: Mount, c: Call)
    ensures Gate(m, c) == OrderedGate(m, c) <==> !(c.MoveAxis? && c.axis !in {0, 1, 2} && !m.canMoveAxis(c.axis))
    ensures c.MoveAxis? && c.axis !in {0, 1, 2} ==> Gate(m, c) == InvalidValue
  {
    hide OutOfRange, ValidRightAscension, Within, Lt, Ge, ValidAxisRate, ValidAltAz, ValidRADec, SoundAzimuth,
         SoundHours, SoundDegrees, SoundRate;
    if c.MoveAxis? {
      AxisRateMeans(m, c.axis, c.v);
    } else if Needs(c).Some? && Moves(c) && !TargetCall(c) {
      PointingOrder(m, c, Needs(c).value);
      CoordinatesMean();
    } else if RangedSetter(c) {
      RangedSetters(m, c);
    } else if FreeCall(c) {
      FreeCalls(m, c);
    } else if TargetCall(c) {
      TargetCalls(m, c);
    } else {
      OtherCalls(m, c);
    }
  }

  /** A call is let through if and only if the mount can do it, its numbers are in range or NaN, it is not parked
    * where that matters, and the mode allows it. */
  lemma GateOpen(m: Mount, c: Call)
    ensures Gate(m, c) == Done <==> Capable(m, c) && Sound(m, c, true) && !(Moves(c) && m.atPark) && Ready(m, c)
  {
    GateOrder(m, c);
  }

  /** Some number of the call is NaN. */
  predicate CarriesNaN(c: Call) {
    match c
    case SetGuideRateDeclination(v) => v.NaN?
    case SetGuideRateRightAscension(v) => v.NaN?
    case SetSiteElevation(v) => v.NaN?
    case SetSiteLatitude(v) => v.NaN?
    case SetSiteLongitude(v) => v.NaN?
    case SetTargetDeclination(v) => v.NaN?
    case SetTargetRightAscension(v) => v.NaN?
    case SlewToAltAz(az, alt) => az.NaN? || alt.NaN?
    case SlewToAltAzAsync(az, alt) => az.NaN? || alt.NaN?
    case SyncToAltAz(az, alt) => az.NaN? || alt.NaN?
    case SlewToCoordinates(ra, dec) => ra.NaN? || dec.NaN?
    case SlewToCoordinatesAsync(ra, dec) => ra.NaN? || dec.NaN?
    case SyncToCoordinates(ra, dec) => ra.NaN? || dec.NaN?
    case _ => false
  }

  /** What is let through is in range if and only if none of its ranged numbers is NaN. */
  lemma InRangeUnlessNaN(m: Mount, c: Call)
    requires Gate(m, c) == Done
    ensures Sound(m, c, false) <==> !CarriesNaN(c)
  {
    GateOpen(m, c);
  }
}
