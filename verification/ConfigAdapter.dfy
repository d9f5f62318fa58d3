/**
 * The transactional setup adapter of server/configadapter.go and the struct conversions of server/settingstruct.go.
 * A config struct is a map from the names of its visible fields to typed values.
 */
module ConfigAdapter {
  import opened Decimal
  import opened TextForms

  datatype Kind = BoolKind | StringKind | IntKind(bits: nat) | UintKind(bits: nat) | FloatKind

  /** A visible field and what its tag says. */
  datatype Field = Field(
    name: string, kind: Kind, options: seq<string>, min: Option<real>, max: Option<real>, atStart: bool)

  datatype Value = B(b: bool) | S(s: string) | I(i: int) | F(x: real)

  type Struct = map<string, Value>
  type Strings = map<string, string>

  /**
   * float64 as far as settings depend on it: which reals it has, strconv's text of them in the 'g' and the 'f' format,
   * ParseFloat, and encoding/json's reading of an integer.
   */
  datatype Floats = Floats(
    isFloat: real -> bool, general: real -> string, fixed: real -> string, parse: string -> Option<real>,
    nearest: int -> real)

  const EXACT := 0x20_0000_0000_0000

  /**
   * A float64 prints as text that reads back, without white space; only float64s are ever read; integers up to 2^53 are
   * exact and print as integers.
   */
  ghost predicate Lawful(fl: Floats) {
    && (forall x | fl.isFloat(x) :: fl.parse(fl.general(x)) == Some(x) && Trim(fl.general(x)) == fl.general(x))
    && (forall x | fl.isFloat(x) :: fl.parse(fl.fixed(x)) == Some(x) && Trim(fl.fixed(x)) == fl.fixed(x))
    && (forall s :: fl.parse(s).Some? ==> fl.isFloat(fl.parse(s).value))
    && (forall n: int | -EXACT <= n <= EXACT ::
          fl.isFloat(n as real) && fl.nearest(n) == n as real && fl.fixed(n as real) == IntText(n))
  }

  /** The integers that float64 has exactly are, on their own, a lawful choice. */
  lemma SomeFloats() returns (fl: Floats)
    ensures Lawful(fl)
  {
    fl := Floats(IsExact, ExactText, ExactText, ParseExact, n => n as real);
    forall x | IsExact(x)
      ensures ParseExact(ExactText(x)) == Some(x) && Trim(ExactText(x)) == ExactText(x)
    {
      IntRoundTrip(x.Floor);
      IntTextSolid(x.Floor);
    }
  }

  predicate IsExact(x: real) {
    x == x.Floor as real && -EXACT <= x.Floor <= EXACT
  }

  function ExactText(x: real): string {
    IntText(x.Floor)
  }

  function ParseExact(s: string): Option<real> {
    match ParseInt(s)
    case Some(n) => if -EXACT <= n <= EXACT then Some(n as real) else None
    case None => None
  }

  // ---- fields ----

  function Names(fields: seq<Field>): set<string> {
    set i | 0 <= i < |fields| :: fields[i].name
  }

  /** The value is one the field's Go type can hold. */
  predicate WellTyped(f: Field, v: Value, fl: Floats) {
    match f.kind
    case BoolKind => v.B?
    case StringKind => v.S?
    case IntKind(bits) => v.I? && 1 <= bits <= 64 && -Pow2(bits - 1) <= v.i < Pow2(bits - 1)
    case UintKind(bits) => v.I? && 1 <= bits <= 64 && 0 <= v.i < Pow2(bits)
    case FloatKind => v.F? && fl.isFloat(v.x)
  }

  predicate InRange(f: Field, x: real) {
    (f.min.Some? ==> x >= f.min.value) && (f.max.Some? ==> x <= f.max.value)
  }

  /** What validation asks of a value, beyond its type. */
  predicate Valid(f: Field, v: Value) {
    match v
    case B(_) => true
    case S(s) => f.options == [] || s in f.options
    case I(i) => InRange(f, i as real)
    case F(x) => InRange(f, x)
  }

  /** parseFieldValue; None is any of its errors. */
  function ParseField(f: Field, text: string, validate: bool, fl: Floats): Option<Value>
  {
    var s := Trim(text);
    match f.kind
    case BoolKind =>
      (match ParseBool(s) case Some(b) => Some(B(b)) case None => None)
    case StringKind =>
      if validate && f.options != [] && s !in f.options then None else Some(S(s))
    case IntKind(bits) =>
      (match ParseInt(s)
       case Some(n) =>
         if WellTyped(f, I(n), fl) && (validate ==> InRange(f, n as real)) then Some(I(n)) else None
       case None => None)
    case UintKind(bits) =>
      (match ParseNat(s)
       case Some(n) =>
         if WellTyped(f, I(n), fl) && (validate ==> InRange(f, n as real)) then Some(I(n)) else None
       case None => None)
    case FloatKind =>
      (match fl.parse(s)
       case Some(x) => if validate ==> InRange(f, x) then Some(F(x)) else None
       case None => None)
  }

  /** fieldValueString. */
  function ValueText(v: Value, fl: Floats): string {
    match v
    case B(b) => if b then "true" else "false"
    case S(s) => s
    case I(i) => IntText(i)
    case F(x) => fl.general(x)
  }

  /** A value as reading it back leaves it: strings lose the white space around them. */
  function Trimmed(v: Value): Value {
    if v.S? then S(Trim(v.s)) else v
  }

  lemma IntTextSolid(n: int)
    ensures Trim(IntText(n)) == IntText(n)
  {
    var s := IntText(n);
    assert !IsSpace(s[0]) && !IsSpace(s[|s| - 1]);
    TrimSolid(s);
  }

  lemma BoolTextSolid(b: bool)
    ensures var s := if b then "true" else "false"; Trim(s) == s && ParseBool(s) == Some(b)
  {
    TrimSolid(if b then "true" else "false");
  }

  lemma NatRoundTrip(n: nat)
    ensures ParseNat(IntText(n)) == Some(n)
  {
  }

  /** Reading a value's text gives the value back, up to the white space around a string. */
  lemma TextRoundTrip(f: Field, v: Value, fl: Floats)
    requires Lawful(fl) && WellTyped(f, v, fl)
    ensures ParseField(f, ValueText(v, fl), false, fl) == Some(Trimmed(v))
  {
    hide IntText, ParseInt, ParseNat, Trim, ParseBool;
    match v {
      case B(b) => BoolTextSolid(b);
      case S(s) =>
      case I(i) =>
        IntTextSolid(i);
        IntRoundTrip(i);
        if f.kind.UintKind? {
          NatRoundTrip(i);
        }
      case F(x) =>
    }
  }

  /** What a trimmed text says in a field of the given kind: at most one value. */
  predicate Says(kind: Kind, s: string, v: Value, fl: Floats) {
    match v
    case B(b) => kind.BoolKind? && s in (if b then TRUE_TEXTS else FALSE_TEXTS)
    case S(text) => kind.StringKind? && s == text
    case I(i) =>
      || (kind.UintKind? && s != [] && AllDigits(s) && ValueOf(s) == i)
      || (kind.IntKind? && exists sign :: sign in {"", "+", "-"} && Signed(sign, s, i))
    case F(x) => kind.FloatKind? && fl.parse(s) == Some(x)
  }

  /** The text is the sign and then digits, and i is what they say together. */
  predicate Signed(sign: string, s: string, i: int) {
    && |sign| < |s| && s[..|sign|] == sign && AllDigits(s[|sign|..])
    && i == (if sign == "-" then -1 else 1) * ValueOf(s[|sign|..])
  }

  lemma IntSays(s: string, i: int)
    ensures ParseInt(s) == Some(i) <==> exists sign :: sign in {"", "+", "-"} && Signed(sign, s, i)
  {
    if ParseInt(s) == Some(i) {
      var sign := if s[0] == '-' then "-" else if s[0] == '+' then "+" else "";
      assert s[..|sign|] == sign && s[0..] == s;
      assert Signed(sign, s, i);
    }
    if exists sign :: sign in {"", "+", "-"} && Signed(sign, s, i) {
      var sign :| sign in {"", "+", "-"} && Signed(sign, s, i);
      assert sign != "" ==> s[..1][0] == sign[0];
      assert s[0..] == s;
      if sign == "" {
        assert IsDigit(s[0]);
      }
    }
  }

  /**
   * A text parses to a value if and only if, white space aside, it says that value in the field's kind, the field's
   * type has it, and validation, if asked for, finds it among the options and in range.
   */
  lemma ParseExactly(f: Field, text: string, validate: bool, fl: Floats, v: Value)
    requires Lawful(fl)
    ensures ParseField(f, text, validate, fl) == Some(v) <==>
              Says(f.kind, Trim(text), v, fl) && WellTyped(f, v, fl) && (validate ==> Valid(f, v))
  {
    hide Trim, ParseInt, IntText, Signed;
    if v.I? {
      IntSays(Trim(text), v.i);
    }
  }

  /** Validation looks at the value, not at how it was spelt. */
  lemma ValidateSame(f: Field, text: string, fl: Floats)
    ensures var r := ParseField(f, text, false, fl);
            ParseField(f, text, true, fl) == if r.Some? && Valid(f, r.value) then r else None
  {
  }

  /** What an integer field of each width holds. */
  lemma IntegerRanges(f: Field, i: int, fl: Floats)
    ensures f.kind == IntKind(8) ==> (WellTyped(f, I(i), fl) <==> -0x80 <= i < 0x80)
    ensures f.kind == IntKind(16) ==> (WellTyped(f, I(i), fl) <==> -0x8000 <= i < 0x8000)
    ensures f.kind == IntKind(32) ==> (WellTyped(f, I(i), fl) <==> -0x8000_0000 <= i < 0x8000_0000)
    ensures f.kind == IntKind(64) ==>
              (WellTyped(f, I(i), fl) <==> -0x8000_0000_0000_0000 <= i < 0x8000_0000_0000_0000)
    ensures f.kind == UintKind(8) ==> (WellTyped(f, I(i), fl) <==> 0 <= i < 0x100)
    ensures f.kind == UintKind(16) ==> (WellTyped(f, I(i), fl) <==> 0 <= i < 0x1_0000)
    ensures f.kind == UintKind(32) ==> (WellTyped(f, I(i), fl) <==> 0 <= i < 0x1_0000_0000)
    ensures f.kind == UintKind(64) ==> (WellTyped(f, I(i), fl) <==> 0 <= i < 0x1_0000_0000_0000_0000)
  {
    Powers();
    hide Pow2;
  }

  lemma Powers()
    ensures Pow2(7) == 0x80 && Pow2(8) == 0x100 && Pow2(15) == 0x8000 && Pow2(16) == 0x1_0000
    ensures Pow2(31) == 0x8000_0000 && Pow2(32) == 0x1_0000_0000
    ensures Pow2(63) == 0x8000_0000_0000_0000 && Pow2(64) == 0x1_0000_0000_0000_0000
  {
    assert Pow2(7) == 0x80 && Pow2(8) == 0x100;
    Pow2Sum(8, 7);
    Pow2Sum(8, 8);
    Pow2Sum(16, 15);
    Pow2Sum(16, 16);
    Pow2Sum(32, 31);
    Pow2Sum(32, 32);
  }

  /** What validation asks: a string among the options if there are any, a number between the bounds there are. */
  lemma ValidMeans(f: Field, v: Value)
    ensures v.S? ==> (Valid(f, v) <==> f.options == [] || exists k :: 0 <= k < |f.options| && f.options[k] == v.s)
    ensures v.I? ==> (Valid(f, v) <==> (f.min.Some? ==> f.min.value <= v.i as real)
                                       && (f.max.Some? ==> v.i as real <= f.max.value))
    ensures v.F? ==> (Valid(f, v) <==> (f.min.Some? ==> f.min.value <= v.x) && (f.max.Some? ==> v.x <= f.max.value))
    ensures v.B? ==> Valid(f, v)
  {
  }

  // ---- applyToStruct ----

  function FieldNamed(fields: seq<Field>, name: string): (f: Option<Field>)
    ensures f.Some? <==> name in Names(fields)
    ensures f.Some? ==> f.value in fields && f.value.name == name
  {
    if fields == [] then None
    else
      var n := |fields| - 1;
      assert Names(fields) == Names(fields[..n]) + {fields[n].name};
      if fields[n].name == name then Some(fields[n]) else FieldNamed(fields[..n], name)
  }

  function ParseNamed(fields: seq<Field>, name: string, text: string, validate: bool, fl: Floats): Option<Value> {
    match FieldNamed(fields, name)
    case Some(f) => ParseField(f, text, validate, fl)
    case None => None
  }

  predicate AllParse(fields: seq<Field>, values: Strings, validate: bool, fl: Floats) {
    forall name | name in values :: ParseNamed(fields, name, values[name], validate, fl).Some?
  }

  /** The parsed values. */
  function Writes(fields: seq<Field>, values: Strings, validate: bool, fl: Floats): (w: Struct)
    requires AllParse(fields, values, validate, fl)
    ensures w.Keys == values.Keys
  {
    map name | name in values :: ParseNamed(fields, name, values[name], validate, fl).value
  }

  /** The struct with every value written, or None if any of them cannot be: the order of the values plays no part. */
  function Applied(fields: seq<Field>, base: Struct, values: Strings, validate: bool, fl: Floats): Option<Struct> {
    if AllParse(fields, values, validate, fl) then
      Some(base + Writes(fields, values, validate, fl))
    else None
  }

  /** applyToStruct, its loops taking the values in any order the map happens to give. */
  method ApplyToStruct(fields: seq<Field>, base: Struct, values: Strings, validate: bool, fl: Floats)
    returns (r: Option<Struct>)
    ensures r == Applied(fields, base, values, validate, fl)
  {
    hide ParseNamed;
    var writes: map<string, Value> := map[];
    var todo := values.Keys;
    while todo != {}
      invariant todo <= values.Keys && writes.Keys == values.Keys - todo
      invariant forall name | name in writes ::
                  ParseNamed(fields, name, values[name], validate, fl) == Some(writes[name])
      decreases todo
    {
      var name :| name in todo;
      var v := ParseNamed(fields, name, values[name], validate, fl);
      if v.None? {
        return None;
      }
      writes := writes[name := v.value];
      todo := todo - {name};
    }
    assert writes == Writes(fields, values, validate, fl);
    return Some(base + writes);
  }

  // ---- StructConfig ----

  /** The submission laid over the current values, host-owned keys left out. */
  function Overlaid(current: Strings, values: Strings, pinned: set<string>): Strings {
    current + (values - pinned)
  }

  /** The submission laid over as far as its keys are not still to be done. */
  ghost function Laid(base: Strings, values: Strings, todo: set<string>, pinned: set<string>): Strings {
    base + (map k | k in values && k !in todo && k !in pinned :: values[k])
  }

  lemma LaidNext(base: Strings, values: Strings, todo: set<string>, pinned: set<string>, k: string)
    requires k in todo && k in values
    ensures var before := Laid(base, values, todo, pinned);
            Laid(base, values, todo - {k}, pinned) == if k in pinned then before else before[k := values[k]]
  {
  }

  lemma LaidEnds(base: Strings, values: Strings, pinned: set<string>)
    ensures Laid(base, values, values.Keys, pinned) == base
    ensures Laid(base, values, {}, pinned) == Overlaid(base, values, pinned)
  {
  }

  function Texts(cfg: Struct, fl: Floats): Strings {
    map name | name in cfg :: ValueText(cfg[name], fl)
  }

  /** A config struct of this schema: a value of the right type for every field and nothing else. */
  ghost predicate OfSchema(fields: seq<Field>, cfg: Struct, fl: Floats) {
    && (forall i, j | 0 <= i < j < |fields| :: fields[i].name != fields[j].name)
    && cfg.Keys == Names(fields)
    && forall f | f in fields :: WellTyped(f, cfg[f.name], fl)
  }

  /** A field whose value belongs to the host's own file. */
  predicate Locked(fields: seq<Field>, pinned: set<string>, name: string) {
    name in pinned || (FieldNamed(fields, name).Some? && FieldNamed(fields, name).value.atStart)
  }

  /**
   * Current values that some run of submissions can have led to: they read back, locked keys have their initial
   * values, and the struct they stand for is the one Reconfigure last accepted, validated or not.
   */
  ghost predicate Consistent(fields: seq<Field>, newCfg: Struct, pinned: set<string>, fl: Floats,
                             initial: Strings, current: Strings, accepted: Option<Struct>)
  {
    && current.Keys == Names(fields) == initial.Keys
    && AllParse(fields, current, false, fl)
    && (forall name | name in current && Locked(fields, pinned, name) :: current[name] == initial[name])
    && (accepted.Some? ==> Applied(fields, newCfg, current, false, fl) == accepted
                           && Applied(fields, newCfg, current, true, fl) == accepted)
    && (accepted.None? ==> current == initial)
  }

  /** A start-time field the submission would change. */
  ghost predicate ChangesStart(fields: seq<Field>, current: Strings, values: Strings) {
    exists i :: 0 <= i < |fields| && fields[i].atStart && fields[i].name in values &&
                (fields[i].name !in current || values[fields[i].name] != current[fields[i].name])
  }

  lemma ParseSame(fields: seq<Field>, name: string, text: string, fl: Floats)
    requires ParseNamed(fields, name, text, true, fl).Some?
    ensures name in Names(fields)
    ensures ParseNamed(fields, name, text, false, fl) == ParseNamed(fields, name, text, true, fl)
  {
    hide ParseField;
    ValidateSame(FieldNamed(fields, name).value, text, fl);
  }

  /** What validates, reads back to the same struct without validation. */
  lemma ValidatedApplies(fields: seq<Field>, base: Struct, values: Strings, fl: Floats)
    requires AllParse(fields, values, true, fl)
    ensures AllParse(fields, values, false, fl) && values.Keys <= Names(fields)
    ensures Applied(fields, base, values, false, fl) == Applied(fields, base, values, true, fl)
  {
    hide ParseNamed, Names;
    forall name | name in values
      ensures name in Names(fields)
      ensures ParseNamed(fields, name, values[name], false, fl) == ParseNamed(fields, name, values[name], true, fl)
    {
      ParseSame(fields, name, values[name], fl);
    }
    assert Writes(fields, values, false, fl) == Writes(fields, values, true, fl);
  }

  /** A locked key a submission does not change. */
  lemma LockedKept(fields: seq<Field>, pinned: set<string>, current: Strings, values: Strings, name: string)
    requires !ChangesStart(fields, current, values) && Locked(fields, pinned, name)
    requires name in current
    ensures Overlaid(current, values, pinned)[name] == current[name]
  {
    if name !in pinned && name in values {
      var f := FieldNamed(fields, name).value;
      var i :| 0 <= i < |fields| && fields[i] == f;
      assert fields[i].atStart && fields[i].name in values;
    }
  }

  /** An accepted submission leads from consistent values to consistent values. */
  lemma NextConsistent(fields: seq<Field>, newCfg: Struct, pinned: set<string>, fl: Floats,
                       initial: Strings, current: Strings, accepted: Option<Struct>, values: Strings)
    requires Consistent(fields, newCfg, pinned, fl, initial, current, accepted)
    requires !ChangesStart(fields, current, values)
    requires AllParse(fields, Overlaid(current, values, pinned), true, fl)
    ensures var next := Overlaid(current, values, pinned);
            Consistent(fields, newCfg, pinned, fl, initial, next, Applied(fields, newCfg, next, true, fl))
  {
    hide AllParse, Names, ChangesStart, Locked;
    var next := Overlaid(current, values, pinned);
    ValidatedApplies(fields, newCfg, next, fl);
    assert next.Keys == Names(fields);
    forall name | name in next && Locked(fields, pinned, name)
      ensures next[name] == initial[name]
    {
      LockedKept(fields, pinned, current, values, name);
    }
  }

  /**
   * What an accepted submission means, key by key: a key that is submitted and not the host's own has the value its
   * text says, and any other the value it had; both are of their fields' types and valid.
   */
  lemma AcceptedMeans(fields: seq<Field>, newCfg: Struct, pinned: set<string>, fl: Floats,
                      current: Strings, values: Strings, c: Struct, f: Field)
    requires Lawful(fl) && f in fields && current.Keys == newCfg.Keys == Names(fields)
    requires forall i, j | 0 <= i < j < |fields| :: fields[i].name != fields[j].name
    requires Applied(fields, newCfg, Overlaid(current, values, pinned), true, fl) == Some(c)
    ensures values.Keys <= Names(fields) + pinned && c.Keys == Names(fields)
    ensures f.name in current && f.name in c
    ensures var text := if f.name in values && f.name !in pinned then values[f.name] else current[f.name];
            Says(f.kind, Trim(text), c[f.name], fl) && WellTyped(f, c[f.name], fl) && Valid(f, c[f.name])
  {
    hide ParseField, Says, WellTyped, Valid, Lawful, Trim;
    var next := Overlaid(current, values, pinned);
    var i :| 0 <= i < |fields| && fields[i] == f;
    assert f.name in Names(fields);
    assert FieldNamed(fields, f.name) == Some(f);
    ValidatedApplies(fields, newCfg, next, fl);
    assert next.Keys == Names(fields);
    var text := next[f.name];
    assert ParseNamed(fields, f.name, text, true, fl) == Some(c[f.name]);
    ParseExactly(f, text, true, fl, c[f.name]);
  }

  class StructConfig {
    const fields: seq<Field>
    const newCfg: Struct
    const pinned: set<string>
    /** The device can take live changes. */
    const reconfigurable: bool
    const fl: Floats
    var current: Strings
    /** The values the adapter started from. */
    ghost const initial: Strings
    /** The struct Reconfigure last accepted. */
    ghost var accepted: Option<Struct>

    /** NewStructConfig over a decoded config entry. */
    constructor (fields: seq<Field>, newCfg: Struct, raw: Struct, pinned: set<string>, reconfigurable: bool, fl: Floats)
      requires OfSchema(fields, newCfg, fl) && OfSchema(fields, raw, fl) && Lawful(fl)
      ensures Valid() && accepted == None && current == initial == Texts(raw, fl)
      ensures this.fields == fields && this.newCfg == newCfg && this.pinned == pinned
      ensures this.reconfigurable == reconfigurable && this.fl == fl
    {
      this.fields, this.newCfg, this.pinned := fields, newCfg, pinned;
      this.reconfigurable, this.fl := reconfigurable, fl;
      current, initial, accepted := Texts(raw, fl), Texts(raw, fl), None;
      new;
      FreshParses(fields, raw, fl);
    }

    ghost predicate Valid()
      reads this
    {
      Consistent(fields, newCfg, pinned, fl, initial, current, accepted)
    }

    /** What ApplySettings hands to Reconfigure, if it gets that far. */
    ghost function Proposal(values: Strings): Option<Struct>
      reads this
    {
      if !reconfigurable || ChangesStart(fields, current, values) then None
      else Applied(fields, newCfg, Overlaid(current, values, pinned), true, fl)
    }

    method ApplySettings(values: Strings, reconfigure: Struct -> bool) returns (ok: bool)
      requires Valid()
      modifies this
      ensures Valid()
      ensures ok <==> old(Proposal(values)).Some? && reconfigure(old(Proposal(values)).value)
      ensures ok ==> accepted == old(Proposal(values)) && current == Overlaid(old(current), values, pinned)
      ensures !ok ==> current == old(current) && accepted == old(accepted)
    {
      hide Consistent, AllParse, Overlaid;
      if !reconfigurable {
        return false;
      }
      var next := Overlay(current, values);
      var cfg := ApplyToStruct(fields, newCfg, next, true, fl);
      if cfg.None? {
        return false;
      }
      for i := 0 to |fields|
        invariant forall j | 0 <= j < i :: fields[j].atStart && fields[j].name in values ==>
                    fields[j].name in current && values[fields[j].name] == current[fields[j].name]
      {
        var f := fields[i];
        if f.atStart && f.name in values && (f.name !in current || values[f.name] != current[f.name]) {
          return false;
        }
      }
      if !reconfigure(cfg.value) {
        return false;
      }
      NextConsistent(fields, newCfg, pinned, fl, initial, current, accepted, values);
      current := next;
      accepted := cfg;
      return true;
    }

    /** The two loops that build `next`, over the keys in any order. */
    method Overlay(base: Strings, values: Strings) returns (next: Strings)
      ensures next == Overlaid(base, values, pinned)
    {
      hide Laid;
      next := base;
      var todo := values.Keys;
      LaidEnds(base, values, pinned);
      while todo != {}
        invariant todo <= values.Keys
        invariant next == Laid(base, values, todo, pinned)
        decreases todo
      {
        var k :| k in todo;
        LaidNext(base, values, todo, pinned, k);
        todo := todo - {k};
        if k in pinned {
          continue;
        }
        next := next[k := values[k]];
      }
    }

    /** PersistValues: the current editable values, typed. */
    method PersistValues() returns (out: Struct)
      requires Valid()
      ensures out == Persisted(Applied(fields, newCfg, current, false, fl), pinned)
      ensures accepted.Some? ==>
                && (forall name :: name in out <==> name in accepted.value && name !in pinned)
                && (forall name | name in out :: out[name] == accepted.value[name])
    {
      hide Applied;
      var cfg := ApplyToStruct(fields, newCfg, current, false, fl);
      if cfg.None? {
        return map[];
      }
      out := Unpinned(cfg.value);
    }

    method Unpinned(cfg: Struct) returns (out: Struct)
      ensures out == Persisted(Some(cfg), pinned)
    {
      out := map[];
      var todo := cfg.Keys;
      while todo != {}
        invariant todo <= cfg.Keys && out.Keys == cfg.Keys - todo - pinned
        invariant forall name | name in out :: out[name] == cfg[name]
        decreases todo
      {
        var name :| name in todo;
        todo := todo - {name};
        if name in pinned {
          continue;
        }
        out := out[name := cfg[name]];
      }
    }

    /** loadSettingsFor, over what the settings store gives back. */
    method LoadSettings(vals: map<string, Json>, reconfigure: Struct -> bool) returns (applied: bool)
      requires Valid()
      modifies this
      ensures Valid()
      ensures var load := Loadable(fields, pinned, reconfigurable, vals, fl);
              && (applied <==> load != map[] && old(Proposal(load)).Some? && reconfigure(old(Proposal(load)).value))
              && (applied ==> accepted == old(Proposal(load)) && current == Overlaid(old(current), load, pinned))
              && (!applied ==> current == old(current) && accepted == old(accepted))
    {
      var load := Loadable(fields, pinned, reconfigurable, vals, fl);
      if load == map[] {
        return false;
      }
      applied := ApplySettings(load, reconfigure);
    }
  }

  // ---- save, then start again ----

  /** A value as a settings file gives it back: every number is a float64. */
  datatype Json = JBool(b: bool) | JString(s: string) | JNumber(x: real)

  function Saved(v: Value, fl: Floats): Json {
    match v
    case B(b) => JBool(b)
    case S(s) => JString(s)
    case I(i) => JNumber(fl.nearest(i))
    case F(x) => JNumber(x)
  }

  /** formStrings on one value. */
  function FormString(j: Json, fl: Floats): string {
    match j
    case JBool(b) => if b then "true" else "false"
    case JString(s) => s
    case JNumber(x) => fl.fixed(x)
  }

  function Persisted(cfg: Option<Struct>, pinned: set<string>): Struct {
    if cfg.None? then map[] else map name | name in cfg.value && name !in pinned :: cfg.value[name]
  }

  function AllSaved(vals: Struct, fl: Floats): map<string, Json> {
    map name | name in vals :: Saved(vals[name], fl)
  }

  /** The persisted values the form declares and does not lock, as form strings. */
  function Loadable(fields: seq<Field>, pinned: set<string>, reconfigurable: bool, vals: map<string, Json>, fl: Floats)
    : Strings
  {
    if !reconfigurable then map[]
    else map name | name in vals && name in Names(fields) && !Locked(fields, pinned, name) :: FormString(vals[name], fl)
  }

  predicate Portable(v: Value) {
    v.I? ==> -0x20_0000_0000_0000 <= v.i <= 0x20_0000_0000_0000
  }

  /** A value that was accepted is read back, and accepted, from its saved form. */
  lemma SavedRoundTrip(f: Field, v: Value, fl: Floats)
    requires Lawful(fl) && WellTyped(f, v, fl) && Valid(f, v) && v == Trimmed(v) && Portable(v)
    ensures ParseField(f, FormString(Saved(v, fl), fl), true, fl) == Some(v)
  {
    hide IntText, ParseInt, ParseNat, Trim, ParseBool;
    match v {
      case B(b) => BoolTextSolid(b);
      case S(s) =>
      case I(i) =>
        IntTextSolid(i);
        IntRoundTrip(i);
        assert fl.fixed(fl.nearest(i)) == IntText(i);
        if f.kind.UintKind? {
          NatRoundTrip(i);
        }
      case F(x) =>
    }
  }

  lemma ParsedTrimmed(f: Field, text: string, validate: bool, fl: Floats)
    ensures var r := ParseField(f, text, validate, fl); r.Some? ==> r.value == Trimmed(r.value)
  {
    TrimTwice(text);
  }

  /** What is handed to Reconfigure after a restart, key by key. */
  lemma RestartKey(fields: seq<Field>, pinned: set<string>, fl: Floats, initial: Strings, current: Strings,
                   c: Struct, load: Strings, name: string)
    requires Lawful(fl) && name in initial && name in current && name in c
    requires ParseNamed(fields, name, current[name], true, fl) == Some(c[name]) && Portable(c[name])
    requires Locked(fields, pinned, name) ==> current[name] == initial[name]
    requires name in load <==> !Locked(fields, pinned, name)
    requires name in load ==> load[name] == FormString(Saved(c[name], fl), fl)
    ensures ParseNamed(fields, name, Overlaid(initial, load, pinned)[name], true, fl) == Some(c[name])
  {
    hide ParseField;
    var f := FieldNamed(fields, name).value;
    ParsedTrimmed(f, current[name], true, fl);
    ParseExactly(f, current[name], true, fl, c[name]);
    if name in load {
      SavedRoundTrip(f, c[name], fl);
    }
  }

  /**
   * Save, then restart: a fresh adapter over the same host config, given the saved values through the filter for
   * declared unlocked keys, arrives at the struct that was last accepted, and hands Reconfigure that same struct. What
   * else the file holds, under locked keys or ones that are no longer declared, is of no account.
   */
  lemma RestartRestores(fields: seq<Field>, newCfg: Struct, pinned: set<string>, fl: Floats,
                        initial: Strings, current: Strings, c: Struct, vals: map<string, Json>)
    requires OfSchema(fields, newCfg, fl) && Lawful(fl)
    requires Consistent(fields, newCfg, pinned, fl, initial, current, Some(c))
    requires forall name | name in c :: Portable(c[name])
    requires Keeps(fields, pinned, fl, c, vals)
    ensures var load := Loadable(fields, pinned, true, vals, fl);
            var next := Overlaid(initial, load, pinned);
            && !ChangesStart(fields, initial, load)
            && Applied(fields, newCfg, next, true, fl) == Some(c)
            && Applied(fields, newCfg, next, false, fl) == Some(c)
  {
    hide ParseNamed, Portable, Lawful, FormString, Saved, Names, ChangesStart, Locked, Keeps;
    var load := Loadable(fields, pinned, true, vals, fl);
    var next := Overlaid(initial, load, pinned);
    AcceptedStruct(fields, newCfg, pinned, fl, initial, current, c);
    LoadedKeys(fields, pinned, fl, c, vals);
    assert next.Keys == Names(fields);
    forall name | name in next
      ensures ParseNamed(fields, name, next[name], true, fl) == Some(c[name])
    {
      RestartKey(fields, pinned, fl, initial, current, c, load, name);
    }
    SameStruct(fields, newCfg, next, c, fl);
    LoadKeepsStart(fields, pinned, initial, load);
  }

  /** The file has the saved value of every unlocked key. */
  ghost predicate Keeps(fields: seq<Field>, pinned: set<string>, fl: Floats, c: Struct, vals: map<string, Json>) {
    forall name | name in c && !Locked(fields, pinned, name) :: name in vals && vals[name] == Saved(c[name], fl)
  }

  /** What was persisted and saved does. */
  lemma SavedKeeps(fields: seq<Field>, pinned: set<string>, fl: Floats, c: Struct)
    ensures Keeps(fields, pinned, fl, c, AllSaved(Persisted(Some(c), pinned), fl))
  {
    hide Saved;
  }

  /** Exactly the unlocked keys are loaded, each with the form string of its saved value. */
  lemma LoadedKeys(fields: seq<Field>, pinned: set<string>, fl: Floats, c: Struct, vals: map<string, Json>)
    requires c.Keys == Names(fields) && Keeps(fields, pinned, fl, c, vals)
    ensures var load := Loadable(fields, pinned, true, vals, fl);
            && (forall name | name in c :: name in load <==> !Locked(fields, pinned, name))
            && (forall name | name in load :: name in c && load[name] == FormString(Saved(c[name], fl), fl))
  {
    hide FormString, Saved, Names;
  }

  /** The struct that values make is known once each of them is parsed. */
  lemma AppliedAs(fields: seq<Field>, base: Struct, values: Strings, validate: bool, fl: Floats, w: Struct)
    requires base.Keys == values.Keys == w.Keys
    requires forall name | name in values :: ParseNamed(fields, name, values[name], validate, fl) == Some(w[name])
    ensures Applied(fields, base, values, validate, fl) == Some(w)
  {
    hide ParseNamed;
    assert AllParse(fields, values, validate, fl);
    assert Writes(fields, values, validate, fl) == w;
    assert base + w == w;
  }

  lemma SameStruct(fields: seq<Field>, newCfg: Struct, next: Strings, c: Struct, fl: Floats)
    requires newCfg.Keys == c.Keys == next.Keys
    requires forall name | name in next :: ParseNamed(fields, name, next[name], true, fl) == Some(c[name])
    ensures Applied(fields, newCfg, next, true, fl) == Some(c) && Applied(fields, newCfg, next, false, fl) == Some(c)
  {
    hide ParseNamed, Applied;
    AppliedAs(fields, newCfg, next, true, fl, c);
    ValidatedApplies(fields, newCfg, next, fl);
  }

  /** The accepted struct has exactly the schema's names, each with what its current text means. */
  lemma AcceptedStruct(fields: seq<Field>, newCfg: Struct, pinned: set<string>, fl: Floats,
                       initial: Strings, current: Strings, c: Struct)
    requires newCfg.Keys == Names(fields)
    requires Consistent(fields, newCfg, pinned, fl, initial, current, Some(c))
    ensures c.Keys == Names(fields)
    ensures forall name | name in current :: ParseNamed(fields, name, current[name], true, fl) == Some(c[name])
  {
    hide ParseNamed, Names;
  }

  lemma LoadKeepsStart(fields: seq<Field>, pinned: set<string>, initial: Strings, load: Strings)
    requires forall i, j | 0 <= i < j < |fields| :: fields[i].name != fields[j].name
    requires forall name | name in load :: !Locked(fields, pinned, name)
    ensures !ChangesStart(fields, initial, load)
  {
    forall i | 0 <= i < |fields| && fields[i].atStart
      ensures fields[i].name !in load
    {
      assert fields[i].name in Names(fields);
      var f := FieldNamed(fields, fields[i].name).value;
      var j :| 0 <= j < |fields| && fields[j] == f;
      assert j == i;
    }
  }

  /** The whole round: persist what an adapter has accepted, build it anew from the host's entry, load. */
  method SaveAndRestart(a: StructConfig, raw: Struct, reconfigure: Struct -> bool) returns (b: StructConfig)
    requires a.Valid() && a.accepted.Some? && a.reconfigurable && a.initial == Texts(raw, a.fl)
    requires OfSchema(a.fields, a.newCfg, a.fl) && OfSchema(a.fields, raw, a.fl) && Lawful(a.fl)
    requires forall name | name in a.accepted.value :: Portable(a.accepted.value[name])
    requires reconfigure(a.accepted.value)
    ensures fresh(b) && b.Valid()
    ensures Applied(b.fields, b.newCfg, b.current, false, b.fl) == a.accepted
    ensures (exists name :: name in Names(a.fields) && !Locked(a.fields, a.pinned, name)) ==> b.accepted == a.accepted
  {
    hide Applied, Loadable, Persisted, AllSaved, Overlaid, ChangesStart, Lawful, Names, Locked;
    ConsistentStruct(a.fields, a.newCfg, a.pinned, a.fl, a.initial, a.current, a.accepted);
    var saved := a.PersistValues();
    b := new StructConfig(a.fields, a.newCfg, raw, a.pinned, a.reconfigurable, a.fl);
    SavedKeeps(a.fields, a.pinned, a.fl, a.accepted.value);
    RestartRestores(a.fields, a.newCfg, a.pinned, a.fl, a.initial, a.current, a.accepted.value, AllSaved(saved, a.fl));
    ghost var load := Loadable(a.fields, a.pinned, true, AllSaved(saved, a.fl), a.fl);
    OverlaidNothing(a.initial, a.pinned);
    var applied := b.LoadSettings(AllSaved(saved, a.fl), reconfigure);
    AcceptedStruct(a.fields, a.newCfg, a.pinned, a.fl, a.initial, a.current, a.accepted.value);
    LoadedKeys(a.fields, a.pinned, a.fl, a.accepted.value, AllSaved(saved, a.fl));
    assert forall name | name in Names(a.fields) && !Locked(a.fields, a.pinned, name) :: name in load;
    assert applied <==> load != map[];
  }

  lemma OverlaidNothing(current: Strings, pinned: set<string>)
    ensures Overlaid(current, map[], pinned) == current
  {
  }

  lemma ConsistentStruct(fields: seq<Field>, newCfg: Struct, pinned: set<string>, fl: Floats,
                         initial: Strings, current: Strings, accepted: Option<Struct>)
    requires Consistent(fields, newCfg, pinned, fl, initial, current, accepted) && accepted.Some?
    ensures Applied(fields, newCfg, current, false, fl) == accepted
  {
  }

  /** A freshly decoded struct's texts all read back. */
  lemma FreshParses(fields: seq<Field>, raw: Struct, fl: Floats)
    requires OfSchema(fields, raw, fl) && Lawful(fl)
    ensures forall name | name in raw ::
              ParseNamed(fields, name, Texts(raw, fl)[name], false, fl) == Some(Trimmed(raw[name]))
  {
    hide ParseField, Lawful, ValueText;
    forall name | name in raw
      ensures ParseNamed(fields, name, Texts(raw, fl)[name], false, fl) == Some(Trimmed(raw[name]))
    {
      TextRoundTrip(FieldNamed(fields, name).value, raw[name], fl);
    }
  }

  function AllTrimmed(cfg: Struct): Struct {
    map name | name in cfg :: Trimmed(cfg[name])
  }

  /** At the start the adapter's struct is the host's config entry, its strings trimmed. */
  lemma InitialStruct(fields: seq<Field>, newCfg: Struct, raw: Struct, fl: Floats)
    requires OfSchema(fields, newCfg, fl) && OfSchema(fields, raw, fl) && Lawful(fl)
    ensures Applied(fields, newCfg, Texts(raw, fl), false, fl) == Some(AllTrimmed(raw))
  {
    hide ParseNamed, Trimmed, ValueText, Lawful, Applied;
    FreshParses(fields, raw, fl);
    AppliedAs(fields, newCfg, Texts(raw, fl), false, fl, AllTrimmed(raw));
  }
}
