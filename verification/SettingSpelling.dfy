/**
 * The ways a driver may spell a setting in a tag (server/settingtag.go): the key in any letter case, alone if it is a
 * flag, the value bare or in quotes, and white space around both.
 */
module SettingSpelling {
  import opened TextJoin
  import opened Decimal
  import opened TextForms
  import opened SettingTag

  datatype Form = Alone | Bare(gap: string, val: string) | Quoted(gap: string, val: string, mark: char)

  /** lead key [trail'] [= value] trail. */
  datatype Spelling = Spelling(lead: string, name: string, after: string, form: Form, trail: string)

  function ValueText(form: Form): string {
    match form
    case Alone => ""
    case Bare(gap, val) => gap + val
    case Quoted(gap, val, mark) => gap + ([mark] + val + [mark])
  }

  function Spelt(sp: Spelling): string {
    if sp.form.Alone? then sp.lead + sp.name + (sp.after + sp.trail)
    else (sp.lead + sp.name + sp.after) + ['='] + (ValueText(sp.form) + sp.trail)
  }

  /** The same letters, in either case. */
  predicate SameLetters(s: string, t: string) {
    |s| == |t| && forall i | 0 <= i < |s| ::
      s[i] == t[i] || ('a' <= t[i] <= 'z' && s[i] as int == t[i] as int - 32)
  }

  /** The choices, with white space around each, and blank parts between them that do not count. */
  ghost predicate Lists(parts: seq<string>, choices: seq<string>) {
    if parts == [] then choices == []
    else
      && '|' !in parts[0]
      && if Blank(parts[0]) then Lists(parts[1..], choices)
         else choices != [] && Around(parts[0], choices[0]) && Lists(parts[1..], choices[1..])
  }

  ghost predicate Around(part: string, choice: string) {
    choice != [] && Solid(choice) && exists i: nat, j: nat ::
      i <= j <= |part| && part[i..j] == choice && Blank(part[..i]) && Blank(part[j..])
  }

  /** What may be written for the value of a setting. */
  ghost predicate Says(val: string, s: Setting, parseFloat: ParseFloat) {
    match s
    case Label(text) => val == text
    case Help(text) => val == text
    case Type(text) => SameLetters(val, text) && text in {"text", "number", "checkbox", "select", "password"}
    case Min(bound) => parseFloat(val) == Some(bound)
    case Max(bound) => parseFloat(val) == Some(bound)
    case Options(choices) => choices != [] && exists parts: seq<string> :: val == Bars(parts) && Lists(parts, choices)
    case When(text) => SameLetters(val, text) && text in {"live", "start"}
    case Secret(flag) => SaysFlag(val, flag)
    case Hidden(flag) => SaysFlag(val, flag)
  }

  predicate SaysFlag(val: string, flag: bool) {
    val in (if flag then {"1", "t", "T", "TRUE", "true", "True"} else {"0", "f", "F", "FALSE", "false", "False"})
  }

  predicate NoMarks(s: string) {
    forall i | 0 <= i < |s| :: s[i] !in {'\'', '"', ','}
  }

  ghost predicate Legal(sp: Spelling, s: Setting, parseFloat: ParseFloat) {
    && Blank(sp.lead) && Blank(sp.after) && Blank(sp.trail) && SameLetters(sp.name, Key(s))
    && match sp.form
       case Alone => s == Secret(true) || s == Hidden(true)
       case Bare(gap, val) => Blank(gap) && NoMarks(val) && Solid(val) && Says(val, s, parseFloat)
       case Quoted(gap, val, mark) => Blank(gap) && mark in {'\'', '"'} && mark !in val && Says(val, s, parseFloat)
  }

  // ---- one setting ----

  lemma LowerSame(s: string, t: string)
    requires SameLetters(s, t) && forall i | 0 <= i < |t| :: !('A' <= t[i] <= 'Z')
    ensures Lower(s) == t
  {
  }

  lemma {:induction false} IndexOfNone(s: string, c: char)
    requires c !in s
    ensures IndexOf(s, c) == |s|
  {
  }

  lemma NameChars(sp: Spelling, s: Setting)
    requires SameLetters(sp.name, Key(s)) && Blank(sp.lead) && Blank(sp.after)
    ensures sp.name != [] && Solid(sp.name) && Lower(sp.name) == Key(s)
    ensures forall i | 0 <= i < |sp.name| :: 'A' <= sp.name[i] <= 'z'
    ensures '=' !in sp.lead + sp.name + sp.after
    ensures Lower(Trim(sp.lead + sp.name + sp.after)) == Key(s)
  {
    hide Key, Lower;
    KeyChars(s);
    LowerSame(sp.name, Key(s));
    TrimPadded(sp.lead, sp.name, sp.after);
  }

  /** The value that the parser finds. */
  function ValueOf(form: Form): string {
    match form
    case Alone => ""
    case Bare(_, val) => val
    case Quoted(_, val, _) => val
  }

  lemma SpeltParts(sp: Spelling, s: Setting, parseFloat: ParseFloat)
    requires Legal(sp, s, parseFloat)
    ensures var p := Spelt(sp);
            var n := IndexOf(p, '=');
            && Lower(Trim(p[..n])) == Key(s)
            && (n < |p| <==> !sp.form.Alone?)
            && (n < |p| ==> Unquote(Trim(p[n + 1..])) == ValueOf(sp.form))
  {
    hide Trim, Lower, Key, IsSpace, Says, IndexOf;
    var p := Spelt(sp);
    NameChars(sp, s);
    var key := sp.lead + sp.name + sp.after;
    if sp.form.Alone? {
      BlankMore(sp.after, sp.trail);
      NameChars(sp.(after := sp.after + sp.trail), s);
      assert p == sp.lead + sp.name + (sp.after + sp.trail);
      IndexOfNone(p, '=');
      assert p[..|p|] == p;
    } else {
      var rest := ValueText(sp.form) + sp.trail;
      IndexOfKey(key, '=', rest);
      assert p[..|key|] == key && p[|key| + 1..] == rest;
      ValueRead(sp, s, parseFloat);
    }
  }

  lemma BlankMore(a: string, b: string)
    requires Blank(a) && Blank(b)
    ensures Blank(a + b)
  {
  }

  lemma ValueRead(sp: Spelling, s: Setting, parseFloat: ParseFloat)
    requires Legal(sp, s, parseFloat) && !sp.form.Alone?
    ensures Unquote(Trim(ValueText(sp.form) + sp.trail)) == ValueOf(sp.form)
  {
    hide Trim, Key, Says;
    match sp.form
    case Bare(gap, val) =>
      TrimPadded(gap, val, sp.trail);
    case Quoted(gap, val, mark) =>
      var quoted := [mark] + val + [mark];
      TrimPadded(gap, quoted, sp.trail);
      assert quoted[1..|quoted| - 1] == val;
  }

  lemma {:induction false} ListsRead(parts: seq<string>, choices: seq<string>)
    requires Lists(parts, choices)
    ensures Choices(parts) == choices && forall i | 0 <= i < |parts| :: '|' !in parts[i]
    ensures parts == [] ==> choices == []
  {
    hide Trim, IsSpace;
    if parts != [] {
      hide Around, Blank;
      PartTrimmed(parts[0]);
      if Blank(parts[0]) {
        ListsRead(parts[1..], choices);
      } else {
        AroundTrimmed(parts[0], choices[0]);
        ListsRead(parts[1..], choices[1..]);
        assert choices == [choices[0]] + choices[1..];
      }
      assert forall i | 1 <= i < |parts| :: parts[i] == parts[1..][i - 1];
    }
  }

  lemma PartTrimmed(part: string)
    ensures Blank(part) ==> Trim(part) == ""
  {
    if Blank(part) {
      TrimPadded(part, "", "");
      assert part + "" + "" == part;
    }
  }

  lemma AroundTrimmed(part: string, choice: string)
    requires Around(part, choice)
    ensures Trim(part) == choice && choice != []
  {
    hide Trim, IsSpace;
    var i: nat, j: nat :| i <= j <= |part| && part[i..j] == choice && Blank(part[..i]) && Blank(part[j..]);
    assert part == part[..i] + choice + part[j..];
    TrimPadded(part[..i], choice, part[j..]);
  }

  lemma OptionsApply(t: Tag, val: string, choices: seq<string>, parseFloat: ParseFloat)
    requires Says(val, Options(choices), parseFloat)
    ensures Choices(SplitBar(val)) == choices
  {
    hide SplitBar, Choices, Bars;
    var parts: seq<string> :| val == Bars(parts) && Lists(parts, choices);
    ListsRead(parts, choices);
    SplitBars(parts);
  }

  /** Applying a spelling of a setting makes that setting. */
  lemma SpeltApplies(t: Tag, sp: Spelling, s: Setting, parseFloat: ParseFloat)
    requires Legal(sp, s, parseFloat)
    ensures ApplyPair(t, Spelt(sp), parseFloat) == Ok(Set(t, s))
  {
    hide IndexOf, Trim, Unquote, Spelt, SplitBar, Choices, Bars, Lower, SameLetters;
    SpeltParts(sp, s, parseFloat);
    match s {
      case Type(text) => LowerKept(text); LowerSameKind(ValueOf(sp.form), text);
      case When(text) => LowerKept(text); LowerSameKind(ValueOf(sp.form), text);
      case Options(choices) => OptionsApply(t, ValueOf(sp.form), choices, parseFloat);
      case _ =>
    }
  }

  lemma LowerSameKind(val: string, text: string)
    requires SameLetters(val, text) && Lower(text) == text
    ensures Lower(val) == text
  {
    forall i | 0 <= i < |text|
      ensures !('A' <= text[i] <= 'Z')
    {
      assert Lower(text)[i] == text[i];
    }
    LowerSame(val, text);
  }

  // ---- a whole tag ----

  function SpeltAll(sps: seq<Spelling>): (r: seq<string>)
    ensures |r| == |sps|
  {
    seq(|sps|, i requires 0 <= i < |sps| => Spelt(sps[i]))
  }

  ghost predicate AllLegal(sps: seq<Spelling>, ss: seq<Setting>, parseFloat: ParseFloat) {
    |sps| == |ss| && forall i | 0 <= i < |ss| :: Legal(sps[i], ss[i], parseFloat)
  }

  lemma {:induction false} PlainBlank(s: string)
    requires forall i | 0 <= i < |s| :: !IsQuote(s[i]) && s[i] != ','
    ensures Piece(s)
  {
    AfterPlain(s, "");
    assert s + "" == s;
  }

  lemma PieceMore(a: string, b: string)
    requires Piece(a) && Piece(b)
    ensures Piece(a + b)
  {
    SplitPrefix(a, Closed, b);
    NoBareCommaMore(a, b, Closed);
  }

  lemma {:induction false} NoBareCommaMore(a: string, b: string, q: Quote)
    requires After(a, q) == Closed && NoBareComma(a, q) && NoBareComma(b, Closed)
    ensures NoBareComma(a + b, q)
  {
    if a == [] {
      assert a + b == b;
    } else {
      assert (a + b)[1..] == a[1..] + b;
      NoBareCommaMore(a[1..], b, Next(q, a[0]));
    }
  }

  lemma QuotedPiece(val: string, mark: char)
    requires IsQuote(mark) && mark !in val
    ensures Piece([mark] + val + [mark])
  {
    AfterQuoted(val, mark);
    var quoted := [mark] + val + [mark];
    assert quoted[1..] == val + [mark];
  }

  lemma EndsPlain(sp: Spelling, s: Setting)
    requires SameLetters(sp.name, Key(s)) && Blank(sp.lead) && Blank(sp.after) && Blank(sp.trail)
    ensures Piece(sp.lead + sp.name + sp.after) && Piece(sp.trail)
  {
    hide Piece, Key, Lower, Trim;
    NameChars(sp, s);
    PlainBlank(sp.lead + sp.name + sp.after);
    PlainBlank(sp.trail);
  }

  lemma BareForm(form: Form)
    requires form.Bare? && Blank(form.gap) && NoMarks(form.val)
    ensures Piece("=" + form.gap + form.val)
  {
    hide Piece;
    PlainBlank("=" + form.gap + form.val);
  }

  /** A spelling is one piece: its quotes hide its commas. */
  lemma SpeltPiece(sp: Spelling, s: Setting, parseFloat: ParseFloat)
    requires Legal(sp, s, parseFloat)
    ensures Piece(Spelt(sp))
  {
    hide Piece, Key, Says, Lower, Trim, Blank, SameLetters, NoMarks, Solid;
    EndsPlain(sp, s);
    var key := sp.lead + sp.name + sp.after;
    match sp.form
    case Alone =>
      PieceMore(key, sp.trail);
      assert Spelt(sp) == key + sp.trail;
    case Bare(gap, val) =>
      BareForm(sp.form);
      FourPieces(key, "=" + gap, val, sp.trail, "=" + gap + val);
      assert Spelt(sp) == key + ("=" + gap + val + sp.trail);
    case Quoted(gap, val, mark) =>
      QuotedForm(sp.form);
      var quoted := [mark] + val + [mark];
      FourPieces(key, "=" + gap, quoted, sp.trail, "=" + gap + quoted);
      assert Spelt(sp) == key + ("=" + gap + quoted + sp.trail);
  }

  lemma QuotedForm(form: Form)
    requires form.Quoted? && Blank(form.gap) && IsQuote(form.mark) && form.mark !in form.val
    ensures Piece("=" + form.gap + ([form.mark] + form.val + [form.mark]))
  {
    hide Piece;
    PlainBlank("=" + form.gap);
    QuotedPiece(form.val, form.mark);
    PieceMore("=" + form.gap, [form.mark] + form.val + [form.mark]);
  }

  lemma FourPieces(key: string, gap: string, val: string, trail: string, mid: string)
    requires Piece(key) && Piece(mid) && Piece(trail) && mid == gap + val
    ensures Piece(key + (gap + val + trail))
  {
    hide Piece;
    PieceMore(mid, trail);
    PieceMore(key, mid + trail);
  }

  lemma {:induction false} AllSpeltApply(t: Tag, sps: seq<Spelling>, ss: seq<Setting>, parseFloat: ParseFloat)
    requires AllLegal(sps, ss, parseFloat)
    ensures ApplyPairs(t, SpeltAll(sps), parseFloat) == Finished(SetAll(t, ss))
    decreases ss
  {
    hide ApplyPair, ApplyPairs, Spelt, Set, SetAll, Legal, Finished;
    var pieces := SpeltAll(sps);
    if ss == [] {
      NothingApplied(t, parseFloat);
    } else {
      SpeltApplies(t, sps[0], ss[0], parseFloat);
      AllSpeltApply(Set(t, ss[0]), sps[1..], ss[1..], parseFloat);
      assert pieces[1..] == SpeltAll(sps[1..]);
      ApplyFirst(t, pieces, Set(t, ss[0]), parseFloat);
      SetAllHead(t, ss);
    }
  }

  /** Nothing blank before the first key or behind the last value: that belongs to the tag as a whole. */
  predicate Trimmed(sps: seq<Spelling>) {
    sps != [] ==>
      && sps[0].lead == ""
      && var last := sps[|sps| - 1];
         && last.trail == ""
         && (last.form.Alone? ==> last.after == "")
         && (last.form.Bare? && last.form.val == "" ==> last.form.gap == "")
  }

  /** A tag that says nothing: no texts, bounds or options, live, and neither secret nor hidden. */
  lemma NothingSaid()
    ensures ZERO_TAG == Tag("", "", "", None, None, [], "live", false, false)
  {
  }

  /**
   * A tag means what its settings say, however each of them is spelt, in any order and number and with white space
   * around the whole; what none of them says is as in the tag that says nothing.
   */
  lemma ParseSpelt(lead: string, sps: seq<Spelling>, ss: seq<Setting>, trail: string, parseFloat: ParseFloat)
    requires Blank(lead) && Blank(trail) && AllLegal(sps, ss, parseFloat) && Trimmed(sps)
    ensures Parse(lead + Join(SpeltAll(sps)) + trail, parseFloat)
            == Finished(SetAll(Tag("", "", "", None, None, [], "live", false, false), ss))
  {
    hide Spelt, Legal, Trim, ApplyPairs, Finished;
    var tag := Join(SpeltAll(sps));
    if sps == [] {
      TrimPadded(lead, tag, trail);
      NothingSet();
    } else {
      var pieces := SpeltAll(sps);
      forall i | 0 <= i < |pieces|
        ensures Piece(pieces[i])
      {
        SpeltPiece(sps[i], ss[i], parseFloat);
      }
      SplitOfJoin(pieces);
      TagSolid(sps, ss, parseFloat);
      TrimPadded(lead, tag, trail);
      AllSpeltApply(ZERO_TAG, sps, ss, parseFloat);
    }
  }

  lemma NothingSet()
    ensures Finished(SetAll(ZERO_TAG, [])) == Ok(ZERO_TAG)
  {
  }

  lemma EndSolid(sp: Spelling, s: Setting, parseFloat: ParseFloat)
    requires Legal(sp, s, parseFloat)
    ensures Spelt(sp) != []
    ensures sp.lead == "" ==> !IsSpace(Spelt(sp)[0])
    ensures Trimmed([sp.(lead := "")]) ==> !IsSpace(Spelt(sp)[|Spelt(sp)| - 1])
  {
    hide Key, Says, Trim, Lower;
    NameChars(sp, s);
  }

  lemma {:induction false} JoinEnds(pieces: seq<string>)
    requires pieces != [] && forall i | 0 <= i < |pieces| :: pieces[i] != []
    ensures var s := Join(pieces);
            s != [] && s[0] == pieces[0][0] && var last := pieces[|pieces| - 1]; s[|s| - 1] == last[|last| - 1]
  {
    if |pieces| > 1 {
      JoinEnds(pieces[1..]);
      assert Join(pieces) == pieces[0] + "," + Join(pieces[1..]);
      hide Join;
      CommaEnds(pieces[0], Join(pieces[1..]));
    }
  }

  lemma CommaEnds(a: string, b: string)
    requires a != "" && b != ""
    ensures var s := a + "," + b; s[0] == a[0] && s[|s| - 1] == b[|b| - 1]
  {
  }

  lemma TagSolid(sps: seq<Spelling>, ss: seq<Setting>, parseFloat: ParseFloat)
    requires sps != [] && AllLegal(sps, ss, parseFloat) && Trimmed(sps)
    ensures Join(SpeltAll(sps)) != [] && Solid(Join(SpeltAll(sps)))
  {
    hide Spelt, Legal;
    forall i | 0 <= i < |sps|
      ensures SpeltAll(sps)[i] != []
    {
      EndSolid(sps[i], ss[i], parseFloat);
    }
    EndSolid(sps[0], ss[0], parseFloat);
    EndSolid(sps[|sps| - 1], ss[|sps| - 1], parseFloat);
    JoinEnds(SpeltAll(sps));
  }

  // ---- any pair at all ----

  /** p is cut behind n characters, at its first equals sign if it has one. */
  predicate Cut(p: string, n: nat) {
    n <= |p| && '=' !in p[..n] && (n < |p| ==> p[n] == '=')
  }

  function NamePart(p: string, n: nat): string
    requires n <= |p|
  {
    Trim(p[..n])
  }

  function ValuePart(p: string, n: nat): string
    requires n <= |p|
  {
    if n == |p| then "" else Unquote(Trim(p[n + 1..]))
  }

  /** The setting has the value, or stands for a flag alone. */
  ghost predicate Carries(s: Setting, val: string, alone: bool, parseFloat: ParseFloat) {
    match s
    case Label(text) => val == text
    case Help(text) => val == text
    case Type(text) => text == Lower(val) && text in {"text", "number", "checkbox", "select", "password"}
    case Min(bound) => parseFloat(val) == Some(bound)
    case Max(bound) => parseFloat(val) == Some(bound)
    case Options(choices) => choices == Choices(SplitBar(val))
    case When(text) => text == Lower(val) && text in {"live", "start"}
    case Secret(flag) => if alone then flag else SaysFlag(val, flag)
    case Hidden(flag) => if alone then flag else SaysFlag(val, flag)
  }

  /** The pair, cut at n, names this setting with this value. */
  ghost predicate Reads(p: string, n: nat, s: Setting, parseFloat: ParseFloat)
    requires n <= |p|
  {
    SameLetters(NamePart(p, n), Key(s)) && Carries(s, ValuePart(p, n), n == |p|, parseFloat)
  }

  lemma CutIsIndex(p: string, n: nat)
    requires Cut(p, n)
    ensures IndexOf(p, '=') == n
  {
    assert forall k | 0 <= k < n :: p[..n][k] == p[k];
    assert forall k | 0 <= k < n :: p[k] != '=';
  }

  /** Lower-casing finds the letters of a lower-case text in either case. */
  lemma LowerExactly(s: string, t: string)
    requires forall i | 0 <= i < |t| :: 'a' <= t[i] <= 'z'
    ensures Lower(s) == t <==> SameLetters(s, t)
  {
    if Lower(s) == t {
      forall i | 0 <= i < |s|
        ensures s[i] == t[i] || s[i] as int == t[i] as int - 32
      {
        assert t[i] == LowerChar(s[i]);
      }
    }
    if SameLetters(s, t) {
      LowerSame(s, t);
    }
  }

  /** The words of the language: kinds, times and keys. */
  const WORDS := {
    "text", "number", "checkbox", "select", "password", "live", "start",
    "label", "help", "type", "min", "max", "options", "when", "secret", "hidden"}

  lemma LowerTexts(s: string)
    ensures forall k | k in WORDS :: Lower(s) == k <==> SameLetters(s, k)
  {
    forall k | k in WORDS
      ensures Lower(s) == k <==> SameLetters(s, k)
    {
      LowerExactly(s, k);
    }
  }

  lemma FlagExactly(val: string, flag: bool)
    ensures ParseBool(val) == Some(flag) <==> SaysFlag(val, flag)
  {
  }

  /** The setting a key and a value stand for. */
  function SettingOf(key: string, val: string, alone: bool, parseFloat: ParseFloat): Setting {
    if key == "help" then Help(val)
    else if key == "type" then Type(Lower(val))
    else if key == "min" && parseFloat(val).Some? then Min(parseFloat(val).value)
    else if key == "max" && parseFloat(val).Some? then Max(parseFloat(val).value)
    else if key == "options" then Options(Choices(SplitBar(val)))
    else if key == "when" then When(Lower(val))
    else if key == "secret" then Secret(alone || SaysFlag(val, true))
    else if key == "hidden" then Hidden(alone || SaysFlag(val, true))
    else Label(val)
  }

  lemma AcceptedReads(t: Tag, p: string, n: nat, t': Tag, parseFloat: ParseFloat)
    requires Cut(p, n) && ApplyPair(t, p, parseFloat) == Ok(t')
    ensures exists s: Setting :: Reads(p, n, s, parseFloat) && t' == Set(t, s) && (s.Options? ==> t'.options != [])
  {
    hide Trim, Unquote, SplitBar, Choices, Lower, SameLetters, IndexOf, ParseBool, SaysFlag, ApplyKey, SettingOf;
    CutIsIndex(p, n);
    PairValue(p, n);
    var name, val := NamePart(p, n), ValuePart(p, n);
    LowerTexts(name);
    LowerTexts(val);
    KeyAccepted(t, Lower(name), val, n < |p|, t', parseFloat);
    var s := SettingOf(Lower(name), val, n == |p|, parseFloat);
    assert Reads(p, n, s, parseFloat) && t' == Set(t, s);
  }

  lemma KeyAccepted(t: Tag, key: string, val: string, hasVal: bool, t': Tag, parseFloat: ParseFloat)
    requires ApplyKey(t, key, val, hasVal, parseFloat) == Ok(t')
    ensures var s := SettingOf(key, val, !hasVal, parseFloat);
            && Key(s) == key && key in WORDS && t' == Set(t, s) && (s.Options? ==> t'.options != [])
            && Carries(s, val, !hasVal, parseFloat)
  {
    hide SplitBar, Choices, Lower;
  }

  lemma ReadsAccepted(t: Tag, p: string, n: nat, s: Setting, parseFloat: ParseFloat)
    requires Cut(p, n) && Reads(p, n, s, parseFloat) && (s.Options? ==> Set(t, s).options != [])
    ensures ApplyPair(t, p, parseFloat) == Ok(Set(t, s))
  {
    hide Trim, Unquote, SplitBar, Choices, Lower, SameLetters, IndexOf;
    CutIsIndex(p, n);
    PairValue(p, n);
    var val := ValuePart(p, n);
    LowerTexts(NamePart(p, n));
    LowerTexts(val);
    FlagExactly(val, true);
    FlagExactly(val, false);
  }

  /** Why a key with a value is refused. */
  lemma KeyRefused(t: Tag, key: string, val: string, hasVal: bool, parseFloat: ParseFloat)
    ensures var r := ApplyKey(t, key, val, hasVal, parseFloat);
            && (key == "" ==> r == Err(EmptyKey))
            && (key == "type" && r.Err? ==> r == Err(BadType))
            && (key == "min" || key == "max" ==> (r == Err(NotANumber) <==> parseFloat(val) == None))
            && (key == "options" && r.Err? ==> r == Err(EmptyOptions))
            && (key == "when" && r.Err? ==> r == Err(BadWhen))
            && ((key == "secret" || key == "hidden") && r.Err? ==> r == Err(NotABoolean))
            && (r == Err(UnknownKey) <==>
                key !in {"", "label", "help", "type", "min", "max", "options", "when", "secret", "hidden"})
  {
    hide SplitBar, Choices, Lower, ParseBool;
  }

  /** Why a pair is refused. */
  lemma PairRefused(t: Tag, p: string, n: nat, parseFloat: ParseFloat)
    requires Cut(p, n)
    ensures var name, val, r := NamePart(p, n), ValuePart(p, n), ApplyPair(t, p, parseFloat);
            && (name == "" ==> r == Err(EmptyKey))
            && (SameLetters(name, "type") && r.Err? ==> r == Err(BadType))
            && (SameLetters(name, "min") || SameLetters(name, "max") ==>
                  (r == Err(NotANumber) <==> parseFloat(val) == None))
            && (SameLetters(name, "options") && r.Err? ==> r == Err(EmptyOptions))
            && (SameLetters(name, "when") && r.Err? ==> r == Err(BadWhen))
            && ((SameLetters(name, "secret") || SameLetters(name, "hidden")) && r.Err? ==> r == Err(NotABoolean))
            && (r == Err(UnknownKey) <==>
                name != "" && forall k | k in {"label", "help", "type", "min", "max", "options", "when", "secret",
                                               "hidden"} :: !SameLetters(name, k))
  {
    hide Trim, Unquote, Lower, SameLetters, IndexOf, ApplyKey;
    CutIsIndex(p, n);
    PairValue(p, n);
    var name := NamePart(p, n);
    LowerTexts(name);
    LowerEmpty(name);
    KeyRefused(t, Lower(name), ValuePart(p, n), n < |p|, parseFloat);
  }

  lemma LowerEmpty(s: string)
    ensures Lower(s) == "" <==> s == ""
  {
  }

  /** A pair is accepted exactly if it reads as a setting, and then it makes that setting. */
  lemma PairExactly(t: Tag, p: string, n: nat, t': Tag, parseFloat: ParseFloat)
    requires Cut(p, n)
    ensures ApplyPair(t, p, parseFloat) == Ok(t') <==>
            exists s: Setting :: Reads(p, n, s, parseFloat) && t' == Set(t, s) && (s.Options? ==> t'.options != [])
  {
    CutIsIndex(p, n);
    var name, val := NamePart(p, n), ValuePart(p, n);
    PairValue(p, n);
    LowerTexts(name);
    LowerTexts(val);
    FlagExactly(val, true);
    FlagExactly(val, false);
    if ApplyPair(t, p, parseFloat) == Ok(t') {
      AcceptedReads(t, p, n, t', parseFloat);
    }
    if s: Setting :| Reads(p, n, s, parseFloat) && t' == Set(t, s) && (s.Options? ==> t'.options != []) {
      ReadsAccepted(t, p, n, s, parseFloat);
    }
  }

  lemma PairValue(p: string, n: nat)
    requires n <= |p|
    ensures ValuePart(p, n) == Unquote(Trim(if n < |p| then p[n + 1..] else ""))
  {
  }

  /** Quotes are taken off if they are a pair of the same mark around the whole, and only then. */
  lemma UnquoteExactly(v: string, w: string)
    ensures Unquote(v) == w <==>
            v == ['\''] + w + ['\''] || v == ['"'] + w + ['"']
            || (v == w && (|v| < 2 || v[0] !in {'\'', '"'} || v[|v| - 1] != v[0]))
  {
    if |v| >= 2 && v[0] in {'\'', '"'} && v[|v| - 1] == v[0] {
      assert v == [v[0]] + v[1..|v| - 1] + [v[0]];
    }
    forall mark | mark in {'\'', '"'} && v == [mark] + w + [mark]
      ensures v[1..|v| - 1] == w
    {
    }
  }

  lemma {:induction false} PairsBalance(t: Tag, pairs: seq<string>, parseFloat: ParseFloat)
    ensures ApplyPairs(t, pairs, parseFloat) != Err(UnterminatedQuote)
    decreases pairs
  {
    if pairs != [] && ApplyPair(t, pairs[0], parseFloat).Ok? {
      PairsBalance(ApplyPair(t, pairs[0], parseFloat).tag, pairs[1..], parseFloat);
    }
  }

  /** A quote left open is an error of its own, before any pair is looked at. */
  lemma OpenQuote(text: string, parseFloat: ParseFloat)
    ensures Parse(text, parseFloat) == Err(UnterminatedQuote) <==> After(Trim(text), Closed) != Closed
  {
    hide ApplyPairs, Trim;
    PairsBalance(ZERO_TAG, Split(Trim(text), Closed), parseFloat);
  }

  /** The first pair that is refused decides, whatever follows it. */
  lemma {:induction false} FirstErrorWins(t: Tag, sps: seq<Spelling>, ss: seq<Setting>, bad: string, rest: seq<string>,
                                          parseFloat: ParseFloat)
    requires AllLegal(sps, ss, parseFloat) && ApplyPair(SetAll(t, ss), bad, parseFloat).Err?
    ensures ApplyPairs(t, SpeltAll(sps) + [bad] + rest, parseFloat) == ApplyPair(SetAll(t, ss), bad, parseFloat)
    decreases ss
  {
    hide ApplyPair, Spelt, Set, Legal;
    var pairs := SpeltAll(sps) + [bad] + rest;
    if ss == [] {
      assert pairs[0] == bad;
    } else {
      SpeltApplies(t, sps[0], ss[0], parseFloat);
      FirstErrorWins(Set(t, ss[0]), sps[1..], ss[1..], bad, rest, parseFloat);
      assert pairs[1..] == SpeltAll(sps[1..]) + [bad] + rest;
      ApplyFirst(t, pairs, Set(t, ss[0]), parseFloat);
    }
  }
}
