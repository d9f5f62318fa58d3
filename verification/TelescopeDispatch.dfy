/**
 * PUT requests to a telescope (server/httpserver.go, server/telescope_http.go, server/telescope.go): the connection
 * and busy gates, the member table, the calls that reach the driver, and the targets a BaseTelescope keeps.
 */
module TelescopeDispatch {
  import opened Decimal
  import opened TelescopeGates

  /** The members a PUT may name, in lower case on the wire; the ones no telescope has are listed for their gates. */
  datatype Member =
    | Connected | Connect | Disconnect | Connecting | Name | Description | DriverInfo | DriverVersion
    | InterfaceVersion | SupportedActions
    | AbortExposure | StopExposure | Halt | HaltCover | CalibratorOff | CancelAsync
    | CommandString | CommandBool | CommandBlind | Action
    | DeclinationRate | DoesRefraction | GuideRateDeclination | GuideRateRightAscension | RightAscensionRate
    | SideOfPier | SiteElevation | SiteLatitude | SiteLongitude | SlewSettleTime | TargetDeclination
    | TargetRightAscension | Tracking | TrackingRate | UTCDate
    | AbortSlew | FindHome | MoveAxis | Park | PulseGuide | SetPark | SlewToAltAz | SlewToAltAzAsync
    | SlewToCoordinates | SlewToCoordinatesAsync | SlewToTarget | SlewToTargetAsync | SyncToAltAz
    | SyncToCoordinates | SyncToTarget | Unpark
    | Unknown

  predicate ConnectionExempt(member: Member) {
    || member.Connected? || member.Connect? || member.Disconnect? || member.Connecting? || member.Name?
    || member.Description? || member.DriverInfo? || member.DriverVersion? || member.InterfaceVersion?
    || member.SupportedActions?
  }

  predicate Interrupts(member: Member) {
    || member.AbortExposure? || member.StopExposure? || member.Halt? || member.AbortSlew? || member.MoveAxis?
    || member.HaltCover? || member.CalibratorOff? || member.CancelAsync?
  }

  predicate PassesThrough(member: Member) {
    member.CommandString? || member.CommandBool? || member.CommandBlind? || member.Action?
  }

  /** A parameter's name; the one a property takes is named as the property is. */
  datatype Param =
    | Own(member: Member)
    | RightAscension | Declination | Azimuth | Altitude | Axis | Rate | Direction | Duration | Command | Raw
    | Parameters

  /** The parameters by name, each as far as it is present and parses as the type asked for. */
  datatype Params = Params(
    ints: map<Param, int>, floats: map<Param, Float>, bools: map<Param, bool>, strings: map<Param, string>)

  /** What a member's parameters ask of the driver. */
  datatype Request = NoSuchMember | Malformed | Ask(call: Call)

  function AskFloat(p: Params, name: Param, make: Float -> Call): Request {
    if name in p.floats then Ask(make(p.floats[name])) else Malformed
  }

  function AskInt(p: Params, name: Param, make: int -> Call): Request {
    if name in p.ints then Ask(make(p.ints[name])) else Malformed
  }

  function AskBool(p: Params, name: Param, make: bool -> Call): Request {
    if name in p.bools then Ask(make(p.bools[name])) else Malformed
  }

  function AskFloats(p: Params, name0: Param, name1: Param, make: (Float, Float) -> Call): Request {
    if name0 in p.floats && name1 in p.floats then Ask(make(p.floats[name0], p.floats[name1])) else Malformed
  }

  function Text(p: Params, name: Param): string {
    if name in p.strings then p.strings[name] else ""
  }

  function IsRaw(p: Params): bool {
    Raw in p.bools && p.bools[Raw]
  }

  function RaDec(p: Params, make: (Float, Float) -> Call): Request {
    AskFloats(p, RightAscension, Declination, make)
  }

  function AltAz(p: Params, make: (Float, Float) -> Call): Request {
    AskFloats(p, Azimuth, Altitude, make)
  }

  /** The members every device has. */
  function AskedCommon(member: Member, p: Params): Request {
    match member
    case Connected => AskBool(p, Own(member), on => if on then Call.Connect else Call.Disconnect)
    case Connect => Ask(Call.Connect)
    case Disconnect => Ask(Call.Disconnect)
    case Action => Ask(Call.Action(Text(p, Own(member)), Text(p, Parameters)))
    case CommandString => Ask(Call.CommandString(Text(p, Command), IsRaw(p)))
    case CommandBool => Ask(Call.CommandBool(Text(p, Command), IsRaw(p)))
    case CommandBlind => Ask(Call.CommandBlind(Text(p, Command), IsRaw(p)))
    case _ => NoSuchMember
  }

  /** The telescope's properties. */
  function AskedSetter(member: Member, p: Params): Request {
    match member
    case DeclinationRate => AskFloat(p, Own(member), v => Call.SetDeclinationRate(v))
    case DoesRefraction => AskBool(p, Own(member), on => Call.SetDoesRefraction(on))
    case GuideRateDeclination => AskFloat(p, Own(member), v => Call.SetGuideRateDeclination(v))
    case GuideRateRightAscension => AskFloat(p, Own(member), v => Call.SetGuideRateRightAscension(v))
    case RightAscensionRate => AskFloat(p, Own(member), v => Call.SetRightAscensionRate(v))
    case SideOfPier => AskInt(p, Own(member), n => Call.SetSideOfPier(n))
    case SiteElevation => AskFloat(p, Own(member), v => Call.SetSiteElevation(v))
    case SiteLatitude => AskFloat(p, Own(member), v => Call.SetSiteLatitude(v))
    case SiteLongitude => AskFloat(p, Own(member), v => Call.SetSiteLongitude(v))
    case SlewSettleTime => AskInt(p, Own(member), n => Call.SetSlewSettleTime(n))
    case TargetDeclination => AskFloat(p, Own(member), v => Call.SetTargetDeclination(v))
    case TargetRightAscension => AskFloat(p, Own(member), v => Call.SetTargetRightAscension(v))
    case Tracking => AskBool(p, Own(member), on => Call.SetTracking(on))
    case TrackingRate => AskInt(p, Own(member), n => Call.SetTrackingRate(n))
    case UTCDate => if Own(UTCDate) in p.strings then Ask(Call.SetUTCDate(p.strings[Own(UTCDate)])) else Malformed
    case _ => NoSuchMember
  }

  /** The telescope's methods. */
  function AskedMethod(member: Member, p: Params): Request {
    match member
    case AbortSlew => Ask(Call.AbortSlew)
    case FindHome => Ask(Call.FindHome)
    case MoveAxis =>
      if Axis in p.ints && Rate in p.floats then Ask(Call.MoveAxis(p.ints[Axis], p.floats[Rate])) else Malformed
    case Park => Ask(Call.Park)
    case PulseGuide =>
      if Direction in p.ints && Duration in p.ints then Ask(Call.PulseGuide(p.ints[Direction], p.ints[Duration]))
      else Malformed
    case SetPark => Ask(Call.SetPark)
    case SlewToAltAz => AltAz(p, (az, alt) => Call.SlewToAltAz(az, alt))
    case SlewToAltAzAsync => AltAz(p, (az, alt) => Call.SlewToAltAzAsync(az, alt))
    case SlewToCoordinates => RaDec(p, (ra, dec) => Call.SlewToCoordinates(ra, dec))
    case SlewToCoordinatesAsync => RaDec(p, (ra, dec) => Call.SlewToCoordinatesAsync(ra, dec))
    case SlewToTarget => Ask(Call.SlewToTarget)
    case SlewToTargetAsync => Ask(Call.SlewToTargetAsync)
    case SyncToAltAz => AltAz(p, (az, alt) => Call.SyncToAltAz(az, alt))
    case SyncToCoordinates => RaDec(p, (ra, dec) => Call.SyncToCoordinates(ra, dec))
    case SyncToTarget => Ask(Call.SyncToTarget)
    case Unpark => Ask(Call.Unpark)
    case _ => NoSuchMember
  }

  /** The call a member's parameters ask for. */
  function Asked(member: Member, p: Params): Request {
    if !AskedCommon(member, p).NoSuchMember? then AskedCommon(member, p)
    else if !AskedSetter(member, p).NoSuchMember? then AskedSetter(member, p)
    else AskedMethod(member, p)
  }

  /** The slews and syncs that also set the targets. */
  predicate SetsTargets(c: Call) {
    c.SlewToCoordinates? || c.SlewToCoordinatesAsync? || c.SyncToCoordinates?
  }

  /** Whether the driver takes a call; the target setters of BaseTelescope check the range themselves. */
  predicate Takes(m: Mount, c: Call) {
    if m.embedsBase && c.SetTargetRightAscension? then ValidRightAscension(c.v)
    else if m.embedsBase && c.SetTargetDeclination? then !OutOfRange(c.v, -90.0, 90.0)
    else m.answers(c)
  }

  /** The answer to a call that was asked for, and the calls the driver gets. */
  function Answered(m: Mount, c: Call): (Reply, seq<Call>) {
    if Gate(m, c) != Done then (Gate(m, c), [])
    else if !Takes(m, c) then (DriverError, [c])
    else if SetsTargets(c) then (Done, [c, Call.SetTargetRightAscension(c.ra), Call.SetTargetDeclination(c.dec)])
    else (Done, [c])
  }

  /** The answer to a PUT and the calls the driver gets, in order. */
  function Handled(m: Mount, member: Member, p: Params): (Reply, seq<Call>) {
    if !ConnectionExempt(member) && !m.connected then (NotConnected, [])
    else if !ConnectionExempt(member) && !Interrupts(member) && !PassesThrough(member) && m.busy then
      (InvalidOperation, [])
    else
      match Asked(member, p)
      case NoSuchMember => (UnknownMember, [])
      case Malformed => (BadRequest, [])
      case Ask(c) => Answered(m, c)
  }

  // ---- the driver and its targets ----

  datatype Targets = Targets(ra: Option<Float>, dec: Option<Float>)

  const UNSET := Targets(None, None)

  /** What a call leaves in the targets of a BaseTelescope. */
  function Stored(s: Targets, c: Call): Targets {
    match c
    case SetTargetRightAscension(v) => if ValidRightAscension(v) then s.(ra := Some(v)) else s
    case SetTargetDeclination(v) => if !OutOfRange(v, -90.0, 90.0) then s.(dec := Some(v)) else s
    case _ => s
  }

  function StoredAll(s: Targets, calls: seq<Call>): Targets
    decreases |calls|
  {
    if calls == [] then s else StoredAll(Stored(s, calls[0]), calls[1..])
  }

  /** The mount as requests see it when it embeds a BaseTelescope with these targets. */
  function Seen(s: Targets, m: Mount): Mount {
    if m.embedsBase then m.(targetRA := s.ra, targetDec := s.dec) else m
  }

  /** What calls leave in the BaseTelescope of a driver that embeds it, or one that does not use its own. */
  function Left(m: Mount, s: Targets, calls: seq<Call>): Targets {
    if m.embedsBase then StoredAll(s, calls) else s
  }

  class Telescope {
    var targetRA: Float
    var targetRASet: bool
    var targetDec: Float
    var targetDecSet: bool
    ghost var log: seq<Call> // every call the driver got

    ghost function Contents(): Targets
      reads this
    {
      Targets(if targetRASet then Some(targetRA) else None, if targetDecSet then Some(targetDec) else None)
    }

    constructor ()
      ensures Contents() == UNSET && log == []
    {
      targetRA, targetRASet, targetDec, targetDecSet := Fin(0.0), false, Fin(0.0), false;
      log := [];
    }

    method TargetRightAscension() returns (v: Option<Float>)
      ensures v == Contents().ra
    {
      v := if targetRASet then Some(targetRA) else None;
    }

    method TargetDeclination() returns (v: Option<Float>)
      ensures v == Contents().dec
    {
      v := if targetDecSet then Some(targetDec) else None;
    }

    method SetTargetRightAscension(v: Float) returns (ok: bool)
      modifies this
      ensures log == old(log) + [Call.SetTargetRightAscension(v)]
      ensures Contents() == Stored(old(Contents()), Call.SetTargetRightAscension(v))
      ensures ok == ValidRightAscension(v)
    {
      log := log + [Call.SetTargetRightAscension(v)];
      if Lt(v, Fin(0.0)) || Ge(v, Fin(24.0)) {
        return false;
      }
      targetRA, targetRASet := v, true;
      ok := true;
    }

    method SetTargetDeclination(v: Float) returns (ok: bool)
      modifies this
      ensures log == old(log) + [Call.SetTargetDeclination(v)]
      ensures Contents() == Stored(old(Contents()), Call.SetTargetDeclination(v))
      ensures ok == !OutOfRange(v, -90.0, 90.0)
    {
      log := log + [Call.SetTargetDeclination(v)];
      if OutOfRange(v, -90.0, 90.0) {
        return false;
      }
      targetDec, targetDecSet := v, true;
      ok := true;
    }

    /** One call into the driver, whose target setters are those of this BaseTelescope if it embeds it. */
    method Deliver(m: Mount, c: Call) returns (ok: bool)
      modifies this
      ensures log == old(log) + [c] && ok == Takes(m, c)
      ensures Contents() == if m.embedsBase then Stored(old(Contents()), c) else old(Contents())
    {
      if m.embedsBase && c.SetTargetRightAscension? {
        ok := SetTargetRightAscension(c.v);
      } else if m.embedsBase && c.SetTargetDeclination? {
        ok := SetTargetDeclination(c.v);
      } else {
        log := log + [c];
        ok := m.answers(c);
      }
    }

    /** telescopePut, and the common members before it. */
    method Put(m: Mount, c: Call) returns (reply: Reply)
      modifies this
      ensures var (answer, calls) := Answered(m, c);
              && reply == answer && log == old(log) + calls
              && Contents() == Left(m, old(Contents()), calls)
    {
      hide Gate, Takes, ValidRightAscension, OutOfRange;
      var refused := Gate(m, c);
      if refused != Done {
        return refused;
      }
      StoredOne(Contents(), c);
      var ok := Deliver(m, c);
      if !ok {
        return DriverError;
      }
      if SetsTargets(c) {
        StoredThree(old(Contents()), c, Call.SetTargetRightAscension(c.ra), Call.SetTargetDeclination(c.dec));
        var _ := Deliver(m, Call.SetTargetRightAscension(c.ra));
        var _ := Deliver(m, Call.SetTargetDeclination(c.dec));
      }
      reply := Done;
    }

    /** handlePut, for a driver that keeps its targets here or elsewhere. */
    method HandlePut(mount: Mount, member: Member, p: Params) returns (reply: Reply)
      modifies this
      ensures var (answer, calls) := Handled(Seen(old(Contents()), mount), member, p);
              && reply == answer && log == old(log) + calls
              && Contents() == Left(mount, old(Contents()), calls)
    {
      hide Gate, Takes, ValidRightAscension, OutOfRange, Asked;
      var m := mount;
      if mount.embedsBase {
        var ra := TargetRightAscension();
        var dec := TargetDeclination();
        m := mount.(targetRA := ra, targetDec := dec);
      }
      assert m == Seen(Contents(), mount);
      if !ConnectionExempt(member) && !m.connected {
        return NotConnected;
      }
      if !ConnectionExempt(member) && !Interrupts(member) && !PassesThrough(member) && m.busy {
        return InvalidOperation;
      }
      match Asked(member, p) {
        case NoSuchMember => return UnknownMember;
        case Malformed => return BadRequest;
        case Ask(c) => reply := Put(m, c);
      }
    }
  }

  /**
   * A driver that keeps its own targets answers for them itself and leaves the embedded ones alone; one that does not
   * is seen with the embedded ones, which its calls change.
   */
  lemma WhoseTargets(m: Mount, s: Targets, c: Call, calls: seq<Call>)
    ensures !m.embedsBase ==> Seen(s, m) == m && Left(m, s, calls) == s && (Takes(m, c) <==> m.answers(c))
    ensures m.embedsBase ==>
              && Seen(s, m).targetRA == s.ra && Seen(s, m).targetDec == s.dec
              && Left(m, s, calls) == StoredAll(s, calls)
              && (!c.SetTargetRightAscension? && !c.SetTargetDeclination? ==> (Takes(m, c) <==> m.answers(c)))
              && (c.SetTargetRightAscension? ==> (Takes(m, c) <==> SoundHours(c.v, true)))
              && (c.SetTargetDeclination? ==> (Takes(m, c) <==> SoundDegrees(c.v, true)))
  {
    hide StoredAll, ValidRightAscension, OutOfRange;
    if c.SetTargetRightAscension? {
      HoursMean(c.v);
    } else if c.SetTargetDeclination? {
      RangeMeans(c.v, -90.0, 90.0);
    }
  }

  lemma StoredOne(s: Targets, c: Call)
    ensures StoredAll(s, [c]) == Stored(s, c)
  {
    hide ValidRightAscension, OutOfRange;
    assert StoredAll(Stored(s, c), []) == Stored(s, c);
  }

  lemma StoredThree(s: Targets, c: Call, c1: Call, c2: Call)
    requires SetsTargets(c)
    ensures StoredAll(s, [c, c1, c2]) == Stored(Stored(s, c1), c2)
  {
    hide ValidRightAscension, OutOfRange;
    assert [c, c1, c2][1..] == [c1, c2] && [c1, c2][1..] == [c2];
    StoredOne(Stored(s, c1), c2);
  }

  // ---- one request, any driver ----

  /** The connection and busy gates let the member through. */
  predicate Admitted(m: Mount, member: Member) {
    && (m.connected || ConnectionExempt(member))
    && (!m.busy || ConnectionExempt(member) || Interrupts(member) || PassesThrough(member))
  }

  /** What must hold of a mount and a call that meets it. */
  ghost predicate Safe(m: Mount, c: Call) {
    && (!c.Connect? && !c.Disconnect? ==> m.connected)
    && (Moves(c) ==> !m.atPark)
    && (Moves(c) && m.busy ==> c.AbortSlew? || c.MoveAxis?)
    && Capable(m, c) && Sound(m, c, true) && (Sound(m, c, false) <==> !CarriesNaN(c)) && Ready(m, c)
  }

  /**
   * A PUT reaches the driver if and only if it asks for a call that the connection, the busy state and the mount
   * allow, and then the call it asks for is the first one; more calls follow only a coordinate slew or sync that the
   * driver took.
   */
  lemma ReachesDriver(m: Mount, member: Member, p: Params)
    ensures var (reply, calls) := Handled(m, member, p);
            var asked := Asked(member, p);
            && (calls != [] <==>
                  asked.Ask? && Admitted(m, member) && Capable(m, asked.call) && Sound(m, asked.call, true)
                  && !(Moves(asked.call) && m.atPark) && Ready(m, asked.call))
            && (calls != [] ==> calls[0] == asked.call && (reply == Done <==> Takes(m, asked.call)))
            && (reply == Done ==> calls != [])
            && (|calls| > 1 ==> reply == Done && SetsTargets(asked.call))
  {
    hide Gate, Takes, Capable, Sound, Moves, Ready, Asked;
    if Asked(member, p).Ask? {
      GateOpen(m, Asked(member, p).call);
    }
  }

  /** What the gates' member tables say of the calls behind them. */
  predicate FitsTables(member: Member, c: Call) {
    && (ConnectionExempt(member) <==> c.Connect? || c.Disconnect?)
    && (PassesThrough(member) <==> c.Action? || c.CommandString? || c.CommandBool? || c.CommandBlind?)
    && (Interrupts(member) <==> c.AbortSlew? || c.MoveAxis?)
  }

  lemma CommonKind(member: Member, p: Params)
    ensures AskedCommon(member, p).Ask? ==> FitsTables(member, AskedCommon(member, p).call)
  {
  }

  lemma SetterKind(member: Member, p: Params)
    ensures AskedSetter(member, p).Ask? ==> FitsTables(member, AskedSetter(member, p).call)
  {
    hide Moves;
  }

  lemma MethodKind(member: Member, p: Params)
    ensures AskedMethod(member, p).Ask? ==> FitsTables(member, AskedMethod(member, p).call)
  {
    hide Moves;
  }

  lemma AskedKind(member: Member, p: Params)
    requires Asked(member, p).Ask?
    ensures FitsTables(member, Asked(member, p).call)
  {
    hide FitsTables, AskedCommon, AskedSetter, AskedMethod;
    CommonKind(member, p);
    SetterKind(member, p);
    MethodKind(member, p);
  }

  /**
   * The same said of the calls alone. A mount that is not connected gets no call but to connect or disconnect; one that
   * is busy gets these, an abort, an axis move, and actions and commands, which may be reads.
   */
  lemma CallReaches(m: Mount, member: Member, p: Params)
    requires Asked(member, p).Ask?
    ensures var c := Asked(member, p).call;
            Handled(m, member, p).1 != [] <==>
            && (m.connected || c.Connect? || c.Disconnect?)
            && (!m.busy || c.Connect? || c.Disconnect? || c.AbortSlew? || c.MoveAxis? || c.Action? || c.CommandString?
                || c.CommandBool? || c.CommandBlind?)
            && Capable(m, c) && Sound(m, c, true) && !(Moves(c) && m.atPark) && Ready(m, c)
  {
    hide Handled, Capable, Sound, Moves, Ready, Asked, ConnectionExempt, Interrupts, PassesThrough;
    AskedKind(member, p);
    ReachesDriver(m, member, p);
  }

  const EMPTY := Params(map[], map[], map[], map[])

  lemma NothingAsked()
    ensures forall name, make: Float -> Call :: AskFloat(EMPTY, name, make) == Malformed
    ensures forall name, make: int -> Call :: AskInt(EMPTY, name, make) == Malformed
    ensures forall name, make: bool -> Call :: AskBool(EMPTY, name, make) == Malformed
    ensures forall make: (Float, Float) -> Call :: RaDec(EMPTY, make) == Malformed && AltAz(EMPTY, make) == Malformed
  {
  }

  /** Without parameters the texts of actions and commands are empty, commands are not raw, and nothing is guessed. */
  lemma BareCommon(member: Member)
    ensures AskedCommon(member, EMPTY) ==
            match member
            case Connected => Malformed
            case Connect => Ask(Call.Connect)
            case Disconnect => Ask(Call.Disconnect)
            case Action => Ask(Call.Action("", ""))
            case CommandString => Ask(Call.CommandString("", false))
            case CommandBool => Ask(Call.CommandBool("", false))
            case CommandBlind => Ask(Call.CommandBlind("", false))
            case _ => NoSuchMember
  {
  }

  /** Without its parameter no property is set. */
  lemma BareSetter(member: Member)
    ensures !AskedSetter(member, EMPTY).Ask?
    ensures AskedSetter(member, EMPTY).Malformed? <==>
            member in {DeclinationRate, DoesRefraction, GuideRateDeclination, GuideRateRightAscension,
                       RightAscensionRate, SideOfPier, SiteElevation, SiteLatitude, SiteLongitude, SlewSettleTime,
                       Member.TargetDeclination, Member.TargetRightAscension, Tracking, TrackingRate, UTCDate}
  {
    NothingAsked();
    hide AskFloat, AskInt, AskBool;
  }

  /** Nor does a method that takes numbers run. */
  lemma BareMethod(member: Member)
    ensures AskedMethod(member, EMPTY).Malformed? <==>
            member in {Member.MoveAxis, Member.PulseGuide, Member.SlewToAltAz, Member.SlewToAltAzAsync,
                       Member.SyncToAltAz, Member.SlewToCoordinates, Member.SlewToCoordinatesAsync,
                       Member.SyncToCoordinates}
  {
    NothingAsked();
    hide RaDec, AltAz;
  }

  /** The members of every device that answer without a connection. */
  const ALWAYS := {
    Connected, Member.Connect, Member.Disconnect, Connecting, Name, Description, DriverInfo, DriverVersion,
    InterfaceVersion, SupportedActions}

  /** Those that end a motion or ramp, or may be reads. */
  const WHILE_BUSY := {
    AbortExposure, StopExposure, Halt, Member.AbortSlew, Member.MoveAxis, HaltCover, CalibratorOff, CancelAsync,
    Member.CommandString, Member.CommandBool, Member.CommandBlind, Member.Action}

  lemma Tables(member: Member)
    ensures ConnectionExempt(member) <==> member in ALWAYS
    ensures Interrupts(member) || PassesThrough(member) <==> member in WHILE_BUSY
  {
  }

  /** The answers of a mount that is not connected, or busy: which members still get another one. */
  lemma AwayOrBusy(m: Mount, member: Member, p: Params)
    ensures var (reply, calls) := Handled(m, member, p);
            && (!m.connected && member !in ALWAYS ==> reply == NotConnected && calls == [])
            && (m.connected && m.busy && member !in ALWAYS + WHILE_BUSY ==> reply == InvalidOperation && calls == [])
            && (member in ALWAYS || (m.connected && (!m.busy || member in WHILE_BUSY)) ==>
                  match Asked(member, p)
                  case NoSuchMember => reply == UnknownMember && calls == []
                  case Malformed => reply == BadRequest && calls == []
                  case Ask(c) => (reply, calls) == Answered(m, c))
  {
    Tables(member);
    hide Asked, Answered, ConnectionExempt, Interrupts, PassesThrough, ALWAYS, WHILE_BUSY;
  }

  lemma SafeRequest(m: Mount, member: Member, p: Params)
    ensures forall c <- Handled(m, member, p).1 :: Safe(m, c)
  {
    hide Gate, Takes, Asked;
    var (reply, calls) := Handled(m, member, p);
    ReachesDriver(m, member, p);
    if calls != [] {
      var c := Asked(member, p).call;
      AskedKind(member, p);
      GateOpen(m, c);
      InRangeUnlessNaN(m, c);
      assert Safe(m, c);
      if |calls| > 1 {
        SafeTargets(m, c);
      }
    }
  }

  /** The target writes that follow a slew are as safe as the slew. */
  lemma SafeTargets(m: Mount, c: Call)
    requires SetsTargets(c) && Safe(m, c)
    ensures Safe(m, Call.SetTargetRightAscension(c.ra)) && Safe(m, Call.SetTargetDeclination(c.dec))
  {
  }

  // ---- runs ----

  datatype Put = Put(m: Mount, member: Member, p: Params)

  function Handle(s: Targets, put: Put): (Reply, seq<Call>) {
    Handled(Seen(s, put.m), put.member, put.p)
  }

  /** The targets after a run of PUTs, for a driver that keeps them in a BaseTelescope. */
  function After(s: Targets, run: seq<Put>): Targets
    decreases |run|
  {
    if run == [] then s
    else
      var before := After(s, run[..|run| - 1]);
      StoredAll(before, Handle(before, run[|run| - 1]).1)
  }

  function With(m: Mount, calls: seq<Call>): seq<(Mount, Call)> {
    seq(|calls|, i requires 0 <= i < |calls| => (m, calls[i]))
  }

  /** Every call of a run, with the mount it met. */
  function Log(s: Targets, run: seq<Put>): seq<(Mount, Call)>
    decreases |run|
  {
    if run == [] then []
    else
      var before := After(s, run[..|run| - 1]);
      var put := run[|run| - 1];
      Log(s, run[..|run| - 1]) + With(Seen(before, put.m), Handle(before, put).1)
  }

  /**
   * For every run of PUTs to any driver: no slew, sync, axis move, pulse, homing, abort or start of tracking meets a
   * disconnected or a parked mount, a busy mount gets only aborts and axis moves of these, every number is in range
   * unless it is NaN, and a target call finds both targets readable.
   */
  lemma {:induction false} SafeRuns(s: Targets, run: seq<Put>)
    ensures forall e <- Log(s, run) :: Safe(e.0, e.1)
    decreases |run|
  {
    hide Handled, Safe;
    if run != [] {
      var before := After(s, run[..|run| - 1]);
      var put := run[|run| - 1];
      SafeRuns(s, run[..|run| - 1]);
      SafeRequest(Seen(before, put.m), put.member, put.p);
    }
  }

  // ---- what the targets read back ----

  function Lookup(p: Params, name: Param): Option<Float> {
    if name in p.floats then Some(p.floats[name]) else None
  }

  predicate PointsAtCoordinates(member: Member) {
    member.SlewToCoordinates? || member.SlewToCoordinatesAsync? || member.SyncToCoordinates?
  }

  /** The right ascension an accepted PUT wrote, said of the request: a target write, or a coordinate slew or sync. */
  function WroteRA(s: Targets, put: Put): Option<Float> {
    if Handle(s, put).0 != Done then None
    else if put.member == Member.TargetRightAscension then Lookup(put.p, Own(Member.TargetRightAscension))
    else if PointsAtCoordinates(put.member) then Lookup(put.p, RightAscension)
    else None
  }

  function WroteDec(s: Targets, put: Put): Option<Float> {
    if Handle(s, put).0 != Done then None
    else if put.member == Member.TargetDeclination then Lookup(put.p, Own(Member.TargetDeclination))
    else if PointsAtCoordinates(put.member) then Lookup(put.p, Declination)
    else None
  }

  function Or(first: Option<Float>, second: Option<Float>): Option<Float> {
    if first.Some? then first else second
  }

  /** A call touches the targets if and only if its member does, with the value of the member's parameter. */
  predicate FitsTargets(member: Member, p: Params, c: Call) {
    && (c.SetTargetRightAscension? <==> member == Member.TargetRightAscension)
    && (c.SetTargetRightAscension? ==> Lookup(p, Own(Member.TargetRightAscension)) == Some(c.v))
    && (c.SetTargetDeclination? <==> member == Member.TargetDeclination)
    && (c.SetTargetDeclination? ==> Lookup(p, Own(Member.TargetDeclination)) == Some(c.v))
    && (SetsTargets(c) <==> PointsAtCoordinates(member))
    && (SetsTargets(c) ==> Lookup(p, RightAscension) == Some(c.ra) && Lookup(p, Declination) == Some(c.dec))
  }

  lemma CommonTargets(member: Member, p: Params)
    ensures AskedCommon(member, p).Ask? ==> FitsTargets(member, p, AskedCommon(member, p).call)
  {
    hide Lookup;
  }

  lemma SetterTargets(member: Member, p: Params)
    ensures AskedSetter(member, p).Ask? ==> FitsTargets(member, p, AskedSetter(member, p).call)
  {
    if !member.TargetRightAscension? && !member.TargetDeclination? {
      hide Lookup;
    }
  }

  lemma MethodTargets(member: Member, p: Params)
    ensures AskedMethod(member, p).Ask? ==> FitsTargets(member, p, AskedMethod(member, p).call)
  {
  }

  lemma AskedTargets(member: Member, p: Params)
    requires Asked(member, p).Ask?
    ensures FitsTargets(member, p, Asked(member, p).call)
  {
    hide FitsTargets, AskedCommon, AskedSetter, AskedMethod;
    CommonTargets(member, p);
    SetterTargets(member, p);
    MethodTargets(member, p);
  }

  /** The range checks of the gates and of the target setters agree. */
  lemma ChecksAgree(m: Mount, c: Call)
    requires Gate(m, c) == Done
    ensures c.SetTargetRightAscension? ==> ValidRightAscension(c.v)
    ensures c.SetTargetDeclination? ==> !OutOfRange(c.v, -90.0, 90.0)
    ensures SetsTargets(c) ==> ValidRightAscension(c.ra) && !OutOfRange(c.dec, -90.0, 90.0)
  {
  }

  lemma StepTargets(s: Targets, put: Put)
    ensures var t := StoredAll(s, Handle(s, put).1);
            put.m.embedsBase ==> t == Targets(Or(WroteRA(s, put), s.ra), Or(WroteDec(s, put), s.dec))
  {
    hide Gate, Asked, ValidRightAscension, OutOfRange, Lookup, ConnectionExempt, Interrupts, PassesThrough;
    var m := Seen(s, put.m);
    if Admitted(m, put.member) && Asked(put.member, put.p).Ask? {
      var c := Asked(put.member, put.p).call;
      AskedTargets(put.member, put.p);
      if Gate(m, c) == Done {
        ChecksAgree(m, c);
        CallTargets(s, m, c);
      }
    }
  }

  /** What an accepted call and the writes after it leave in the targets. */
  lemma CallTargets(s: Targets, m: Mount, c: Call)
    requires Gate(m, c) == Done
    ensures StoredAll(s, [c]) == (if c.SetTargetRightAscension? then s.(ra := Some(c.v))
                                  else if c.SetTargetDeclination? then s.(dec := Some(c.v)) else s)
    ensures SetsTargets(c) ==>
              StoredAll(s, [c, Call.SetTargetRightAscension(c.ra), Call.SetTargetDeclination(c.dec)])
              == Targets(Some(c.ra), Some(c.dec))
  {
    hide Gate, ValidRightAscension, OutOfRange, StoredAll;
    ChecksAgree(m, c);
    StoredOne(s, c);
    if SetsTargets(c) {
      StoredThree(s, c, Call.SetTargetRightAscension(c.ra), Call.SetTargetDeclination(c.dec));
    }
  }

  /** The last right ascension written by a run, or the one before it. */
  function LastRA(s: Targets, run: seq<Put>): Option<Float>
    decreases |run|
  {
    if run == [] then s.ra
    else Or(WroteRA(After(s, run[..|run| - 1]), run[|run| - 1]), LastRA(s, run[..|run| - 1]))
  }

  function LastDec(s: Targets, run: seq<Put>): Option<Float>
    decreases |run|
  {
    if run == [] then s.dec
    else Or(WroteDec(After(s, run[..|run| - 1]), run[|run| - 1]), LastDec(s, run[..|run| - 1]))
  }

  ghost predicate AllEmbedBase(run: seq<Put>) {
    forall put <- run :: put.m.embedsBase
  }

  /** The targets always read back the last accepted write, exactly. */
  lemma {:induction false} TargetsAreLastWritten(s: Targets, run: seq<Put>)
    requires AllEmbedBase(run)
    ensures After(s, run) == Targets(LastRA(s, run), LastDec(s, run))
    decreases |run|
  {
    hide Handle, WroteRA, WroteDec, StoredAll;
    if run != [] {
      TargetsAreLastWritten(s, run[..|run| - 1]);
      StepTargets(After(s, run[..|run| - 1]), run[|run| - 1]);
    }
  }

  /** None of the PUTs writes a target, each judged in the state it meets. */
  ghost predicate NoWrites(s: Targets, before: seq<Put>, later: seq<Put>) {
    forall k | 0 <= k < |later| ::
      var t := After(s, before + later[..k]); WroteRA(t, later[k]).None? && WroteDec(t, later[k]).None?
  }

  lemma {:induction false} UnchangedUntilWritten(s: Targets, before: seq<Put>, later: seq<Put>)
    requires AllEmbedBase(before + later) && NoWrites(s, before, later)
    ensures After(s, before + later) == After(s, before)
    decreases |later|
  {
    hide WroteRA, WroteDec, After, AllEmbedBase;
    if later == [] {
      assert before + later == before;
    } else {
      var n := |later| - 1;
      NoWritesLast(s, before, later);
      assert later == later[..n] + [later[n]];
      EmbedBaseParts(before, later[..n], later[n]);
      UnchangedUntilWritten(s, before, later[..n]);
      StepAfter(s, before, later[..n], later[n]);
    }
  }

  lemma EmbedBaseParts(before: seq<Put>, later: seq<Put>, put: Put)
    requires AllEmbedBase(before + (later + [put]))
    ensures AllEmbedBase(before + later) && put.m.embedsBase
  {
    assert before + (later + [put]) == before + later + [put];
  }

  lemma NoWritesLast(s: Targets, before: seq<Put>, later: seq<Put>)
    requires later != [] && NoWrites(s, before, later)
    ensures var n := |later| - 1;
            var t := After(s, before + later[..n]);
            NoWrites(s, before, later[..n]) && WroteRA(t, later[n]).None? && WroteDec(t, later[n]).None?
  {
    hide WroteRA, WroteDec, After;
    assert forall k | 0 <= k < |later| - 1 :: later[..|later| - 1][..k] == later[..k];
  }

  lemma StepAfter(s: Targets, before: seq<Put>, later: seq<Put>, put: Put)
    requires put.m.embedsBase
    requires var t := After(s, before + later); WroteRA(t, put).None? && WroteDec(t, put).None?
    ensures After(s, before + (later + [put])) == After(s, before + later)
  {
    hide WroteRA, WroteDec, Handle, StoredAll;
    var run := before + (later + [put]);
    assert run[..|run| - 1] == before + later && run[|run| - 1] == put;
    StepTargets(After(s, before + later), put);
  }

  lemma AcceptedPointing(s: Targets, put: Put)
    requires PointsAtCoordinates(put.member) && Handle(s, put).0 == Done
    ensures RightAscension in put.p.floats && Declination in put.p.floats
    ensures WroteRA(s, put) == Some(put.p.floats[RightAscension])
    ensures WroteDec(s, put) == Some(put.p.floats[Declination])
  {
    hide Asked, Gate;
    AskedTargets(put.member, put.p);
  }

  /** An accepted coordinate slew or sync reads back exactly until the next accepted target write. */
  lemma ReadBack(s: Targets, before: seq<Put>, slew: Put, later: seq<Put>)
    requires AllEmbedBase(before + [slew] + later)
    requires PointsAtCoordinates(slew.member) && Handle(After(s, before), slew).0 == Done
    requires NoWrites(s, before + [slew], later)
    ensures RightAscension in slew.p.floats && Declination in slew.p.floats
    ensures After(s, before + [slew] + later)
            == Targets(Some(slew.p.floats[RightAscension]), Some(slew.p.floats[Declination]))
  {
    hide Handle, WroteRA, WroteDec, NoWrites, StoredAll;
    var run := before + [slew];
    assert run[..|run| - 1] == before && run[|run| - 1] == slew;
    UnchangedUntilWritten(s, run, later);
    assert (run + later)[|before|].m.embedsBase;
    StepTargets(After(s, before), slew);
    AcceptedPointing(After(s, before), slew);
  }

  /** The targets a BaseTelescope holds are coordinates, NaN aside. */
  ghost predicate TargetsSound(s: Targets) {
    && (s.ra.Some? ==> SoundHours(s.ra.value, true))
    && (s.dec.Some? ==> SoundDegrees(s.dec.value, true))
  }

  lemma {:induction false} StoredSound(s: Targets, calls: seq<Call>)
    requires TargetsSound(s)
    ensures TargetsSound(StoredAll(s, calls))
    decreases |calls|
  {
    hide ValidRightAscension, OutOfRange, SoundHours;
    if calls != [] {
      match calls[0] {
        case SetTargetRightAscension(v) => HoursMean(v);
        case SetTargetDeclination(v) => RangeMeans(v, -90.0, 90.0);
        case _ =>
      }
      StoredSound(Stored(s, calls[0]), calls[1..]);
    }
  }

  lemma {:induction false} TargetsStaySound(run: seq<Put>)
    ensures TargetsSound(After(UNSET, run))
    decreases |run|
  {
    hide Handle, StoredAll;
    if run != [] {
      TargetsStaySound(run[..|run| - 1]);
      StoredSound(After(UNSET, run[..|run| - 1]), Handle(After(UNSET, run[..|run| - 1]), run[|run| - 1]).1);
    }
  }

  // ---- target slews ----

  /** Some earlier PUT of the run wrote the target. */
  ghost predicate RAWrittenIn(run: seq<Put>) {
    exists i :: 0 <= i < |run| && WroteRA(After(UNSET, run[..i]), run[i]).Some?
  }

  ghost predicate DecWrittenIn(run: seq<Put>) {
    exists i :: 0 <= i < |run| && WroteDec(After(UNSET, run[..i]), run[i]).Some?
  }

  lemma RAWrittenMore(run: seq<Put>, put: Put)
    ensures RAWrittenIn(run + [put]) <==> RAWrittenIn(run) || WroteRA(After(UNSET, run), put).Some?
  {
    hide After, WroteRA;
    var more := run + [put];
    assert more[..|run|] == run && more[|run|] == put;
    assert forall i | 0 <= i < |run| :: more[..i] == run[..i] && more[i] == run[i];
    if RAWrittenIn(run) {
      var i :| 0 <= i < |run| && WroteRA(After(UNSET, run[..i]), run[i]).Some?;
      assert WroteRA(After(UNSET, more[..i]), more[i]).Some?;
    }
  }

  lemma DecWrittenMore(run: seq<Put>, put: Put)
    ensures DecWrittenIn(run + [put]) <==> DecWrittenIn(run) || WroteDec(After(UNSET, run), put).Some?
  {
    hide After, WroteDec;
    var more := run + [put];
    assert more[..|run|] == run && more[|run|] == put;
    assert forall i | 0 <= i < |run| :: more[..i] == run[..i] && more[i] == run[i];
    if DecWrittenIn(run) {
      var i :| 0 <= i < |run| && WroteDec(After(UNSET, run[..i]), run[i]).Some?;
      assert WroteDec(After(UNSET, more[..i]), more[i]).Some?;
    }
  }

  lemma {:induction false} SetMeansWritten(run: seq<Put>)
    requires AllEmbedBase(run)
    ensures After(UNSET, run).ra.Some? <==> RAWrittenIn(run)
    ensures After(UNSET, run).dec.Some? <==> DecWrittenIn(run)
    decreases |run|
  {
    hide Handle, WroteRA, WroteDec, StoredAll;
    if run == [] {
      assert !RAWrittenIn(run) && !DecWrittenIn(run);
    } else {
      hide RAWrittenIn, DecWrittenIn;
      var n := |run| - 1;
      SetMeansWritten(run[..n]);
      assert run[..n] + [run[n]] == run;
      RAWrittenMore(run[..n], run[n]);
      DecWrittenMore(run[..n], run[n]);
      StepTargets(After(UNSET, run[..n]), run[n]);
    }
  }

  /** A slew or sync to the target reaches the driver only after accepted PUTs wrote both targets. */
  lemma TargetCallsNeedBothTargets(run: seq<Put>, put: Put)
    requires AllEmbedBase(run + [put])
    requires exists c <- Handle(After(UNSET, run), put).1 :: TargetCall(c)
    ensures RAWrittenIn(run) && DecWrittenIn(run)
  {
    hide Handled, RAWrittenIn, DecWrittenIn;
    var s := After(UNSET, run);
    assert (run + [put])[|run|].m.embedsBase;
    SafeRequest(Seen(s, put.m), put.member, put.p);
    assert AllEmbedBase(run) by {
      assert forall i | 0 <= i < |run| :: (run + [put])[i] == run[i];
    }
    SetMeansWritten(run);
  }

  // ---- where the range promise ends ----

  /** A connected, idle, unparked mount that can slew gets a slew to NaN: the range checks do not stop it. */
  lemma NaNReachesDriver(m: Mount, p: Params)
    requires m.connected && !m.busy && !m.atPark && Can.Slew in m.can
    requires Lookup(p, RightAscension) == Some(NaN) && Lookup(p, Declination) == Some(Fin(0.0))
    ensures var (reply, calls) := Handled(m, Member.SlewToCoordinates, p);
            calls != [] && calls[0] == Call.SlewToCoordinates(NaN, Fin(0.0)) && !Sound(m, calls[0], false)
  {
  }
}
