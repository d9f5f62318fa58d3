/** The PUTs the typed telescope client sends (client/telescope.go, client/device.go), read by the server. */
module TelescopeClient {
  import opened Decimal
  import opened TelescopeGates
  import opened TelescopeDispatch

  /** A client method that puts: SetConnected, or the one that means a call. */
  datatype Method = SetConnected(on: bool) | Does(call: Call)

  function Meant(q: Method): Call {
    match q
    case SetConnected(on) => if on then Call.Connect else Call.Disconnect
    case Does(call) => call
  }

  const NO_PARAMS := Params(map[], map[], map[], map[])

  /** A property's new value, under the property's own name. */
  function FloatPut(member: Member, v: Float): (Member, Params) {
    (member, NO_PARAMS.(floats := map[Own(member) := v]))
  }

  function IntPut(member: Member, n: int): (Member, Params) {
    (member, NO_PARAMS.(ints := map[Own(member) := n]))
  }

  function BoolPut(member: Member, b: bool): (Member, Params) {
    (member, NO_PARAMS.(bools := map[Own(member) := b]))
  }

  function RaDecPut(member: Member, ra: Float, dec: Float): (Member, Params) {
    (member, NO_PARAMS.(floats := map[RightAscension := ra, Declination := dec]))
  }

  function AltAzPut(member: Member, az: Float, alt: Float): (Member, Params) {
    (member, NO_PARAMS.(floats := map[Azimuth := az, Altitude := alt]))
  }

  function CommandPut(member: Member, text: string, raw: bool): (Member, Params) {
    (member, NO_PARAMS.(strings := map[Command := text], bools := map[Raw := raw]))
  }

  /** The member and the parameters put for a call. */
  function SentFor(c: Call): (Member, Params) {
    match c
    case Connect => (Member.Connect, NO_PARAMS)
    case Disconnect => (Member.Disconnect, NO_PARAMS)
    case Action(name, args) =>
      (Member.Action, NO_PARAMS.(strings := map[Own(Member.Action) := name, Parameters := args]))
    case CommandString(text, raw) => CommandPut(Member.CommandString, text, raw)
    case CommandBool(text, raw) => CommandPut(Member.CommandBool, text, raw)
    case CommandBlind(text, raw) => CommandPut(Member.CommandBlind, text, raw)
    case SetDeclinationRate(v) => FloatPut(DeclinationRate, v)
    case SetRightAscensionRate(v) => FloatPut(RightAscensionRate, v)
    case SetDoesRefraction(on) => BoolPut(DoesRefraction, on)
    case SetGuideRateDeclination(v) => FloatPut(GuideRateDeclination, v)
    case SetGuideRateRightAscension(v) => FloatPut(GuideRateRightAscension, v)
    case SetSideOfPier(side) => IntPut(SideOfPier, side)
    case SetSiteElevation(v) => FloatPut(SiteElevation, v)
    case SetSiteLatitude(v) => FloatPut(SiteLatitude, v)
    case SetSiteLongitude(v) => FloatPut(SiteLongitude, v)
    case SetSlewSettleTime(seconds) => IntPut(SlewSettleTime, seconds)
    case SetTargetDeclination(v) => FloatPut(Member.TargetDeclination, v)
    case SetTargetRightAscension(v) => FloatPut(Member.TargetRightAscension, v)
    case SetTracking(on) => BoolPut(Tracking, on)
    case SetTrackingRate(rate) => IntPut(TrackingRate, rate)
    case SetUTCDate(date) => (UTCDate, NO_PARAMS.(strings := map[Own(UTCDate) := date]))
    case MoveAxis(axis, v) => (Member.MoveAxis, NO_PARAMS.(ints := map[Axis := axis], floats := map[Rate := v]))
    case PulseGuide(direction, duration) =>
      (Member.PulseGuide, NO_PARAMS.(ints := map[Direction := direction, Duration := duration]))
    case SlewToAltAz(az, alt) => AltAzPut(Member.SlewToAltAz, az, alt)
    case SlewToAltAzAsync(az, alt) => AltAzPut(Member.SlewToAltAzAsync, az, alt)
    case SyncToAltAz(az, alt) => AltAzPut(Member.SyncToAltAz, az, alt)
    case SlewToCoordinates(ra, dec) => RaDecPut(Member.SlewToCoordinates, ra, dec)
    case SlewToCoordinatesAsync(ra, dec) => RaDecPut(Member.SlewToCoordinatesAsync, ra, dec)
    case SyncToCoordinates(ra, dec) => RaDecPut(Member.SyncToCoordinates, ra, dec)
    case AbortSlew => (Member.AbortSlew, NO_PARAMS)
    case FindHome => (Member.FindHome, NO_PARAMS)
    case Park => (Member.Park, NO_PARAMS)
    case SetPark => (Member.SetPark, NO_PARAMS)
    case Unpark => (Member.Unpark, NO_PARAMS)
    case SlewToTarget => (Member.SlewToTarget, NO_PARAMS)
    case SlewToTargetAsync => (Member.SlewToTargetAsync, NO_PARAMS)
    case SyncToTarget => (Member.SyncToTarget, NO_PARAMS)
  }

  function Sent(q: Method): (Member, Params) {
    match q
    case SetConnected(on) => BoolPut(Member.Connected, on)
    case Does(call) => SentFor(call)
  }

  /** The table of the server that a member is in. */
  datatype Table = CommonTable | SetterTable | MethodTable | NoTable

  function TableOf(member: Member): Table {
    match member
    case Connected | Connect | Disconnect | Action | CommandString | CommandBool | CommandBlind => CommonTable
    case DeclinationRate | DoesRefraction | GuideRateDeclination | GuideRateRightAscension | RightAscensionRate
       | SideOfPier | SiteElevation | SiteLatitude | SiteLongitude | SlewSettleTime | TargetDeclination
       | TargetRightAscension | Tracking | TrackingRate | UTCDate => SetterTable
    case AbortSlew | FindHome | MoveAxis | Park | PulseGuide | SetPark | SlewToAltAz | SlewToAltAzAsync
       | SlewToCoordinates | SlewToCoordinatesAsync | SlewToTarget | SlewToTargetAsync | SyncToAltAz
       | SyncToCoordinates | SyncToTarget | Unpark => MethodTable
    case _ => NoTable
  }

  lemma NotCommon(member: Member, p: Params)
    requires TableOf(member) != CommonTable
    ensures AskedCommon(member, p) == NoSuchMember
  {
  }

  lemma NotSetter(member: Member, p: Params)
    requires TableOf(member) != SetterTable
    ensures AskedSetter(member, p) == NoSuchMember
  {
    hide AskFloat, AskInt, AskBool;
  }

  lemma CommonRead(c: Call)
    requires Needs(c) == None && FreeCall(c) && !c.SetDoesRefraction? && !c.AbortSlew?
    ensures TableOf(SentFor(c).0) == CommonTable && AskedCommon(SentFor(c).0, SentFor(c).1) == Ask(c)
  {
  }

  lemma RateRead(c: Call)
    requires
      || c.SetDeclinationRate? || c.SetRightAscensionRate? || c.SetGuideRateDeclination?
      || c.SetGuideRateRightAscension?
    ensures TableOf(SentFor(c).0) == SetterTable && AskedSetter(SentFor(c).0, SentFor(c).1) == Ask(c)
  {
    hide AskInt, AskBool;
  }

  lemma PlaceRead(c: Call)
    requires
      || c.SetSiteElevation? || c.SetSiteLatitude? || c.SetSiteLongitude? || c.SetTargetDeclination?
      || c.SetTargetRightAscension?
    ensures TableOf(SentFor(c).0) == SetterTable && AskedSetter(SentFor(c).0, SentFor(c).1) == Ask(c)
  {
    hide AskInt, AskBool;
  }

  lemma ChoiceRead(c: Call)
    requires
      || c.SetSideOfPier? || c.SetSlewSettleTime? || c.SetTrackingRate? || c.SetDoesRefraction?
      || c.SetTracking? || c.SetUTCDate?
    ensures TableOf(SentFor(c).0) == SetterTable && AskedSetter(SentFor(c).0, SentFor(c).1) == Ask(c)
  {
    hide AskFloat;
  }

  lemma HorizontalRead(c: Call)
    requires
      || c.SlewToAltAz? || c.SlewToAltAzAsync? || c.SyncToAltAz?
    ensures TableOf(SentFor(c).0) == MethodTable && AskedMethod(SentFor(c).0, SentFor(c).1) == Ask(c)
  {
    hide RaDec;
  }

  lemma EquatorialRead(c: Call)
    requires
      || c.SlewToCoordinates? || c.SlewToCoordinatesAsync? || c.SyncToCoordinates?
    ensures TableOf(SentFor(c).0) == MethodTable && AskedMethod(SentFor(c).0, SentFor(c).1) == Ask(c)
  {
    hide AltAz;
  }

  lemma MotionRead(c: Call)
    requires
      || c.MoveAxis? || c.PulseGuide? || c.AbortSlew? || c.FindHome?
    ensures TableOf(SentFor(c).0) == MethodTable && AskedMethod(SentFor(c).0, SentFor(c).1) == Ask(c)
  {
    hide RaDec, AltAz;
  }

  lemma ParkRead(c: Call)
    requires
      || c.Park? || c.SetPark? || c.Unpark?
    ensures TableOf(SentFor(c).0) == MethodTable && AskedMethod(SentFor(c).0, SentFor(c).1) == Ask(c)
  {
    hide RaDec, AltAz;
  }

  lemma TargetRead(c: Call)
    requires
      || c.SlewToTarget? || c.SlewToTargetAsync? || c.SyncToTarget?
    ensures TableOf(SentFor(c).0) == MethodTable && AskedMethod(SentFor(c).0, SentFor(c).1) == Ask(c)
  {
    hide RaDec, AltAz;
  }

  lemma CallRead(c: Call)
    ensures var (member, p) := SentFor(c);
            match TableOf(member)
            case CommonTable => AskedCommon(member, p) == Ask(c)
            case SetterTable => AskedSetter(member, p) == Ask(c)
            case MethodTable => AskedMethod(member, p) == Ask(c)
            case NoTable => false
  {
    hide TableOf, SentFor, AskedCommon, AskedSetter, AskedMethod;
    match c
    case SetDeclinationRate(_) | SetRightAscensionRate(_) | SetGuideRateDeclination(_)
       | SetGuideRateRightAscension(_) =>
      RateRead(c);
    case SetSiteElevation(_) | SetSiteLatitude(_) | SetSiteLongitude(_) | SetTargetDeclination(_)
       | SetTargetRightAscension(_) => PlaceRead(c);
    case SetSideOfPier(_) | SetSlewSettleTime(_) | SetTrackingRate(_) | SetDoesRefraction(_) | SetTracking(_)
       | SetUTCDate(_) => ChoiceRead(c);
    case SlewToAltAz(_, _) | SlewToAltAzAsync(_, _) | SyncToAltAz(_, _) => HorizontalRead(c);
    case SlewToCoordinates(_, _) | SlewToCoordinatesAsync(_, _) | SyncToCoordinates(_, _) => EquatorialRead(c);
    case MoveAxis(_, _) | PulseGuide(_, _) | AbortSlew | FindHome => MotionRead(c);
    case Park | SetPark | Unpark => ParkRead(c);
    case SlewToTarget | SlewToTargetAsync | SyncToTarget => TargetRead(c);
    case _ => CommonRead(c);
  }

  /** What a client method sends, the server reads as the call it means. */
  lemma SentIsAsked(q: Method)
    ensures Asked(Sent(q).0, Sent(q).1) == Ask(Meant(q))
  {
    if q.Does? {
      hide TableOf, SentFor, AskedCommon, AskedSetter, AskedMethod;
      var (member, p) := SentFor(q.call);
      CallRead(q.call);
      if TableOf(member) != CommonTable {
        NotCommon(member, p);
      }
      if TableOf(member) == MethodTable {
        NotSetter(member, p);
      }
    }
  }

  /** A client's call reaches the driver as itself, or not at all; it does if and only if the mount allows it. */
  lemma ClientCallArrives(m: Mount, q: Method)
    ensures var (reply, calls) := Handled(m, Sent(q).0, Sent(q).1);
            && (calls != [] <==> Admitted(m, Sent(q).0) && Gate(m, Meant(q)) == Done)
            && (calls != [] ==> calls[0] == Meant(q))
  {
    hide Gate, Sent, Asked, Meant;
    SentIsAsked(q);
    ReachesDriver(m, Sent(q).0, Sent(q).1);
    GateOpen(m, Meant(q));
  }
}
