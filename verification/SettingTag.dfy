/** The struct-tag language of server/settingtag.go: a quote-aware splitter and the tag parser. */
module SettingTag {
  import opened TextJoin
  import opened Decimal
  import opened TextForms

  // ---- splitTagPairs ----

  datatype Quote = Closed | Open(mark: char)

  predicate IsQuote(r: char) {
    r == '\'' || r == '"'
  }

  function Next(q: Quote, r: char): Quote {
    match q
    case Open(mark) => if r == mark then Closed else q
    case Closed => if IsQuote(r) then Open(r) else Closed
  }

  /** The quote state after reading s. */
  function After(s: string, q: Quote): Quote {
    if s == [] then q else After(s[1..], Next(q, s[0]))
  }

  /** s, cut at every comma outside quotes; the first piece continues what was read before. */
  function Split(s: string, q: Quote): (pieces: seq<string>)
    ensures |pieces| > 0
  {
    if s == [] then [[]]
    else if q == Closed && s[0] == ',' then [[]] + Split(s[1..], Closed)
    else
      var more := Split(s[1..], Next(q, s[0]));
      [[s[0]] + more[0]] + more[1..]
  }

  /** Pieces done, a piece begun, and the pieces of what is still to be read. */
  ghost function Whole(pairs: seq<string>, cur: string, rest: seq<string>): seq<string>
    requires rest != []
  {
    pairs + [cur + rest[0]] + rest[1..]
  }

  lemma WholeRune(pairs: seq<string>, cur: string, r: char, rest: seq<string>)
    requires rest != []
    ensures Whole(pairs, cur, [[r] + rest[0]] + rest[1..]) == Whole(pairs, cur + [r], rest)
  {
    assert cur + ([r] + rest[0]) == cur + [r] + rest[0];
  }

  lemma WholeComma(pairs: seq<string>, cur: string, rest: seq<string>)
    requires rest != []
    ensures Whole(pairs, cur, [[]] + rest) == Whole(pairs + [cur], "", rest)
  {
    assert cur + [] == cur && "" + rest[0] == rest[0];
  }

  method SplitTagPairs(s: string) returns (r: Option<seq<string>>)
    ensures r == if After(s, Closed) == Closed then Some(Split(s, Closed)) else None
  {
    hide Whole;
    var pairs: seq<string> := [];
    var cur := "";
    var quote := Closed;
    assert s[0..] == s;
    WholeEnds(Split(s, Closed), [], "");
    for i := 0 to |s|
      invariant After(s, Closed) == After(s[i..], quote)
      invariant Split(s, Closed) == Whole(pairs, cur, Split(s[i..], quote))
    {
      var r := s[i];
      assert s[i..][0] == r && s[i..][1..] == s[i + 1..];
      WholeRune(pairs, cur, r, Split(s[i + 1..], Next(quote, r)));
      WholeComma(pairs, cur, Split(s[i + 1..], Closed));
      if quote.Open? {
        if r == quote.mark {
          quote := Closed;
        }
        cur := cur + [r];
      } else if r == '\'' || r == '"' {
        quote := Open(r);
        cur := cur + [r];
      } else if r == ',' {
        pairs := pairs + [cur];
        cur := "";
      } else {
        cur := cur + [r];
      }
    }
    assert s[|s|..] == [];
    WholeEnds([[]], pairs, cur);
    if quote.Open? {
      return None;
    }
    return Some(pairs + [cur]);
  }

  lemma WholeEnds(rest: seq<string>, pairs: seq<string>, cur: string)
    requires rest != []
    ensures Whole([], "", rest) == rest && Whole(pairs, cur, [[]]) == pairs + [cur]
  {
    assert "" + rest[0] == rest[0] && cur + [] == cur;
  }

  /** No comma of s, read from quote state q, is outside quotes. */
  predicate NoBareComma(s: string, q: Quote) {
    s == [] || ((q != Closed || s[0] != ',') && NoBareComma(s[1..], Next(q, s[0])))
  }

  /** A piece a split can have: its quotes balance and hide its commas. */
  predicate Piece(s: string) {
    After(s, Closed) == Closed && NoBareComma(s, Closed)
  }

  /** Joining the pieces with commas gives the text back. */
  lemma {:induction false} JoinOfSplit(s: string, q: Quote)
    ensures Join(Split(s, q)) == s
  {
    if s != [] {
      if q == Closed && s[0] == ',' {
        JoinOfSplit(s[1..], Closed);
        assert Split(s, q)[1..] == Split(s[1..], Closed);
      } else {
        JoinOfSplit(s[1..], Next(q, s[0]));
        HeadJoin([s[0]], Split(s[1..], Next(q, s[0])));
      }
    }
  }

  lemma HeadJoin(head: string, parts: seq<string>)
    requires parts != []
    ensures Join([head + parts[0]] + parts[1..]) == head + Join(parts)
  {
    assert ([head + parts[0]] + parts[1..])[1..] == parts[1..];
  }

  /** Every piece of a text whose quotes balance is one. */
  lemma {:induction false} SplitPieces(s: string, q: Quote)
    requires After(s, q) == Closed
    ensures var pieces := Split(s, q);
            && After(pieces[0], q) == Closed && NoBareComma(pieces[0], q)
            && forall i | 1 <= i < |pieces| :: Piece(pieces[i])
  {
    if s != [] {
      if q == Closed && s[0] == ',' {
        SplitPieces(s[1..], Closed);
        assert forall i | 1 <= i < |Split(s, q)| :: Split(s, q)[i] == Split(s[1..], Closed)[i - 1];
      } else {
        var more := Split(s[1..], Next(q, s[0]));
        SplitPieces(s[1..], Next(q, s[0]));
        var first := [s[0]] + more[0];
        assert Split(s, q)[0] == first && first[1..] == more[0];
        assert forall i | 1 <= i < |more| :: Split(s, q)[i] == more[i];
      }
    }
  }

  /** Splitting a piece followed by more text. */
  lemma {:induction false} SplitPrefix(p: string, q: Quote, rest: string)
    requires After(p, q) == Closed && NoBareComma(p, q)
    ensures After(p + rest, q) == After(rest, Closed)
    ensures var more := Split(rest, Closed);
            Split(p + rest, q) == [p + more[0]] + more[1..]
  {
    if p == [] {
      assert p + rest == rest && p + Split(rest, Closed)[0] == Split(rest, Closed)[0];
    } else {
      assert (p + rest)[1..] == p[1..] + rest;
      SplitPrefix(p[1..], Next(q, p[0]), rest);
      var more := Split(rest, Closed);
      assert [p[0]] + (p[1..] + more[0]) == p + more[0];
    }
  }

  /** Splitting undoes joining, for pieces without bare commas. */
  lemma {:induction false} SplitOfJoin(pieces: seq<string>)
    requires pieces != [] && forall i | 0 <= i < |pieces| :: Piece(pieces[i])
    ensures After(Join(pieces), Closed) == Closed && Split(Join(pieces), Closed) == pieces
  {
    if |pieces| == 1 {
      SplitPrefix(pieces[0], Closed, []);
      assert pieces[0] + [] == pieces[0];
      assert pieces == [pieces[0]];
    } else {
      var rest := "," + Join(pieces[1..]);
      SplitOfJoin(pieces[1..]);
      SplitPrefix(pieces[0], Closed, rest);
      assert rest[1..] == Join(pieces[1..]);
      assert Split(rest, Closed) == [[]] + pieces[1..];
      assert pieces[0] + rest == Join(pieces) && pieces[0] + [] == pieces[0];
      assert pieces == [pieces[0]] + pieces[1..];
    }
  }

  /** What the splitter returns is the one way to cut the text at its bare commas. */
  lemma SplitUnique(s: string, pieces: seq<string>)
    ensures (After(s, Closed) == Closed && pieces == Split(s, Closed)) <==>
            (pieces != [] && (forall i | 0 <= i < |pieces| :: Piece(pieces[i])) && Join(pieces) == s)
  {
    if After(s, Closed) == Closed {
      SplitPieces(s, Closed);
      JoinOfSplit(s, Closed);
    }
    if pieces != [] && forall i | 0 <= i < |pieces| :: Piece(pieces[i]) {
      SplitOfJoin(pieces);
    }
  }

  // ---- ParseSettingTag ----

  const WHEN_LIVE := "live"
  const WHEN_START := "start"

  datatype Tag = Tag(
    caption: string, help: string, kind: string, min: Option<real>, max: Option<real>,
    options: seq<string>, when: string, secret: bool, hidden: bool)

  const ZERO_TAG := Tag("", "", "", None, None, [], WHEN_LIVE, false, false)

  datatype TagError =
    | UnterminatedQuote | BadType | NotANumber | EmptyOptions | BadWhen | NotABoolean | EmptyKey | UnknownKey
    | MinExceedsMax

  datatype Result = Ok(tag: Tag) | Err(error: TagError)

  function LowerChar(c: char): char {
    if 'A' <= c <= 'Z' then c + ('a' - 'A') else c
  }

  /** strings.ToLower, for ASCII letters. */
  function Lower(s: string): (t: string)
    ensures |t| == |s|
  {
    seq(|s|, i requires 0 <= i < |s| => LowerChar(s[i]))
  }

  /** Where c first occurs in s, or |s|. */
  function IndexOf(s: string, c: char): (n: nat)
    ensures n <= |s| && (n < |s| ==> s[n] == c) && forall i | 0 <= i < n :: s[i] != c
  {
    if s == [] || s[0] == c then 0 else 1 + IndexOf(s[1..], c)
  }

  function Unquote(v: string): string {
    if |v| >= 2 && IsQuote(v[0]) && v[|v| - 1] == v[0] then v[1..|v| - 1] else v
  }

  /** strings.Split(s, "|"). */
  function SplitBar(s: string): (parts: seq<string>)
    ensures |parts| > 0
    decreases |s|
  {
    var n := IndexOf(s, '|');
    if n == |s| then [s] else [s[..n]] + SplitBar(s[n + 1..])
  }

  /** The choices of an options value: trimmed, empty ones dropped. */
  function Choices(parts: seq<string>): seq<string> {
    if parts == [] then []
    else
      var o := Trim(parts[0]);
      (if o != [] then [o] else []) + Choices(parts[1..])
  }

  /** strconv.ParseFloat, as far as the parser depends on it. */
  type ParseFloat = string -> Option<real>

  const TYPES := {"text", "number", "checkbox", "select", "password"}

  /** One key=value pair, added to the tag. */
  function ApplyPair(t: Tag, p: string, parseFloat: ParseFloat): Result {
    var n := IndexOf(p, '=');
    var hasVal := n < |p|;
    ApplyKey(t, Lower(Trim(p[..n])), Unquote(Trim(if hasVal then p[n + 1..] else "")), hasVal, parseFloat)
  }

  /** The pair taken apart. */
  function ApplyKey(t: Tag, key: string, val: string, hasVal: bool, parseFloat: ParseFloat): Result {
    if key == "label" then Ok(t.(caption := val))
    else if key == "help" then Ok(t.(help := val))
    else if key == "type" then
      if Lower(val) in TYPES then Ok(t.(kind := Lower(val))) else Err(BadType)
    else if key == "min" || key == "max" then
      match parseFloat(val)
      case None => Err(NotANumber)
      case Some(f) => Ok(if key == "min" then t.(min := Some(f)) else t.(max := Some(f)))
    else if key == "options" then
      var options := t.options + Choices(SplitBar(val));
      if options == [] then Err(EmptyOptions) else Ok(t.(options := options))
    else if key == "when" then
      if Lower(val) == WHEN_LIVE || Lower(val) == WHEN_START then Ok(t.(when := Lower(val))) else Err(BadWhen)
    else if key == "secret" || key == "hidden" then
      match if hasVal then ParseBool(val) else Some(true)
      case None => Err(NotABoolean)
      case Some(b) => Ok(if key == "secret" then t.(secret := b) else t.(hidden := b))
    else if key == "" then Err(EmptyKey)
    else Err(UnknownKey)
  }

  function ApplyPairs(t: Tag, pairs: seq<string>, parseFloat: ParseFloat): Result
    decreases pairs
  {
    if pairs == [] then
      if t.min.Some? && t.max.Some? && t.min.value > t.max.value then Err(MinExceedsMax) else Ok(t)
    else
      match ApplyPair(t, pairs[0], parseFloat)
      case Ok(t') => ApplyPairs(t', pairs[1..], parseFloat)
      case Err(e) => Err(e)
  }

  function Parse(text: string, parseFloat: ParseFloat): Result {
    var tag := Trim(text);
    if tag == [] then Ok(ZERO_TAG)
    else if After(tag, Closed) != Closed then Err(UnterminatedQuote)
    else ApplyPairs(ZERO_TAG, Split(tag, Closed), parseFloat)
  }

  method ParseSettingTag(text: string, parseFloat: ParseFloat) returns (r: Result)
    ensures r == Parse(text, parseFloat)
  {
    var t := ZERO_TAG;
    var tag := Trim(text);
    if tag == "" {
      return Ok(t);
    }
    var pairs := SplitTagPairs(tag);
    if pairs.None? {
      return Err(UnterminatedQuote);
    }
    for i := 0 to |pairs.value|
      invariant Parse(text, parseFloat) == ApplyPairs(t, pairs.value[i..], parseFloat)
    {
      assert pairs.value[i..][1..] == pairs.value[i + 1..];
      var next := ApplyPair(t, pairs.value[i], parseFloat);
      if next.Err? {
        return next;
      }
      t := next.tag;
    }
    if t.min.Some? && t.max.Some? && t.min.value > t.max.value {
      return Err(MinExceedsMax);
    }
    return Ok(t);
  }

  // ---- writing a tag ----

  /** One setting a driver can put in a tag, with its value. */
  datatype Setting =
    | Label(text: string) | Help(text: string) | Type(text: string) | Min(bound: real) | Max(bound: real)
    | Options(choices: seq<string>) | When(text: string) | Secret(flag: bool) | Hidden(flag: bool)

  function Key(s: Setting): string {
    match s
    case Label(_) => "label"
    case Help(_) => "help"
    case Type(_) => "type"
    case Min(_) => "min"
    case Max(_) => "max"
    case Options(_) => "options"
    case When(_) => "when"
    case Secret(_) => "secret"
    case Hidden(_) => "hidden"
  }

  /** The choices joined with bars. */
  function Bars(choices: seq<string>): string {
    if choices == [] then ""
    else if |choices| == 1 then choices[0]
    else choices[0] + "|" + Bars(choices[1..])
  }

  type FormatFloat = real -> string

  function Value(s: Setting, formatFloat: FormatFloat): string {
    match s
    case Label(text) => text
    case Help(text) => text
    case Type(text) => text
    case Min(bound) => formatFloat(bound)
    case Max(bound) => formatFloat(bound)
    case Options(choices) => Bars(choices)
    case When(text) => text
    case Secret(flag) => if flag then "true" else "false"
    case Hidden(flag) => if flag then "true" else "false"
  }

  predicate Choice(o: string) {
    o != [] && '|' !in o && Trim(o) == o
  }

  /** A quoting mark the value does not contain. */
  function Mark(v: string): char {
    if '\'' in v then '"' else '\''
  }

  /** Settings that can be written: legal values, none with both kinds of quote. */
  predicate Writable(s: Setting, formatFloat: FormatFloat) {
    && Mark(Value(s, formatFloat)) !in Value(s, formatFloat)
    && (s.Type? ==> s.text in TYPES)
    && (s.When? ==> s.text == WHEN_LIVE || s.text == WHEN_START)
    && (s.Options? ==> s.choices != [] && forall i | 0 <= i < |s.choices| :: Choice(s.choices[i]))
  }

  /** A bound is a number whose text reads back; nothing is asked of any other number. */
  predicate ReadsBack(s: Setting, formatFloat: FormatFloat, parseFloat: ParseFloat) {
    s.Min? || s.Max? ==> parseFloat(formatFloat(s.bound)) == Some(s.bound)
  }

  function Written(s: Setting, formatFloat: FormatFloat): string {
    var v := Value(s, formatFloat);
    Key(s) + "=" + [Mark(v)] + v + [Mark(v)]
  }

  function WrittenAll(ss: seq<Setting>, formatFloat: FormatFloat): (r: seq<string>)
    ensures |r| == |ss|
  {
    seq(|ss|, i requires 0 <= i < |ss| => Written(ss[i], formatFloat))
  }

  /** The tag with one setting made. */
  function Set(t: Tag, s: Setting): Tag {
    match s
    case Label(text) => t.(caption := text)
    case Help(text) => t.(help := text)
    case Type(text) => t.(kind := text)
    case Min(bound) => t.(min := Some(bound))
    case Max(bound) => t.(max := Some(bound))
    case Options(choices) => t.(options := t.options + choices)
    case When(text) => t.(when := text)
    case Secret(flag) => t.(secret := flag)
    case Hidden(flag) => t.(hidden := flag)
  }

  function SetAll(t: Tag, ss: seq<Setting>): Tag
    decreases ss
  {
    if ss == [] then t else SetAll(Set(t, ss[0]), ss[1..])
  }

  // ---- parsing what was written ----

  lemma {:induction false} AfterPlain(s: string, rest: string)
    requires forall i | 0 <= i < |s| :: !IsQuote(s[i]) && s[i] != ','
    ensures After(s + rest, Closed) == After(rest, Closed)
    ensures NoBareComma(s + rest, Closed) == NoBareComma(rest, Closed)
  {
    if s == [] {
      assert s + rest == rest;
    } else {
      assert (s + rest)[1..] == s[1..] + rest;
      AfterPlain(s[1..], rest);
    }
  }

  lemma {:induction false} AfterQuoted(v: string, mark: char)
    requires IsQuote(mark) && mark !in v
    ensures After(v + [mark], Open(mark)) == Closed && NoBareComma(v + [mark], Open(mark))
  {
    if v == [] {
      assert v + [mark] == [mark] && [mark][1..] == [];
    } else {
      assert (v + [mark])[1..] == v[1..] + [mark];
      AfterQuoted(v[1..], mark);
    }
  }

  lemma KeyChars(s: Setting)
    ensures var k := Key(s);
            && k != [] && Trim(k) == k && Lower(k) == k
            && forall i | 0 <= i < |k| :: 'a' <= k[i] <= 'z'
  {
    var k := Key(s);
    assert Lower(k) == k;
  }

  /** What is written is one piece: its quotes hide its commas. */
  lemma WrittenPiece(s: Setting, formatFloat: FormatFloat)
    requires Writable(s, formatFloat)
    ensures Piece(Written(s, formatFloat))
  {
    hide Value, Key;
    var v := Value(s, formatFloat);
    var m := Mark(v);
    var k := Key(s) + "=";
    KeyChars(s);
    AfterQuoted(v, m);
    var quoted := [m] + (v + [m]);
    assert quoted[1..] == v + [m];
    AfterPlain(k, quoted);
    assert k + quoted == Written(s, formatFloat);
  }

  lemma {:induction false} IndexOfKey(k: string, c: char, rest: string)
    requires c !in k
    ensures IndexOf(k + [c] + rest, c) == |k|
  {
    var s := k + [c] + rest;
    if k != [] {
      assert s[1..] == k[1..] + [c] + rest;
      IndexOfKey(k[1..], c, rest);
    }
  }

  /** Taking a written setting apart gives its key and its value. */
  lemma WrittenParts(s: Setting, formatFloat: FormatFloat)
    ensures var p := Written(s, formatFloat);
            var n := IndexOf(p, '=');
            && n < |p| && Lower(Trim(p[..n])) == Key(s)
            && Unquote(Trim(p[n + 1..])) == Value(s, formatFloat)
  {
    hide Value, Key, Trim, Lower, IndexOf, Unquote;
    var v, k := Value(s, formatFloat), Key(s);
    var m := Mark(v);
    var p, quoted := Written(s, formatFloat), [m] + v + [m];
    KeyChars(s);
    assert p == k + ['='] + quoted;
    IndexOfKey(k, '=', quoted);
    assert p[..|k|] == k && p[|k| + 1..] == quoted;
    UnquoteMarked(v, m);
  }

  lemma UnquoteMarked(v: string, m: char)
    requires IsQuote(m)
    ensures Unquote(Trim([m] + v + [m])) == v
  {
    hide Trim;
    var quoted := [m] + v + [m];
    TrimSolid(quoted);
    assert quoted[1..|quoted| - 1] == v;
  }

  lemma SplitBarStep(first: string, rest: string)
    requires '|' !in first
    ensures SplitBar(first + ['|'] + rest) == [first] + SplitBar(rest)
    ensures SplitBar(first) == [first]
  {
    hide IndexOf;
    var s := first + ['|'] + rest;
    IndexOfKey(first, '|', rest);
    assert s[..|first|] == first && s[|first| + 1..] == rest;
    assert IndexOf(first, '|') == |first|;
  }

  lemma {:induction false} SplitBars(choices: seq<string>)
    requires choices != [] && forall i | 0 <= i < |choices| :: '|' !in choices[i]
    ensures SplitBar(Bars(choices)) == choices
  {
    hide SplitBar;
    if |choices| == 1 {
      assert choices == [choices[0]];
      SplitBarStep(choices[0], "");
    } else {
      SplitBars(choices[1..]);
      SplitBarStep(choices[0], Bars(choices[1..]));
      assert choices == [choices[0]] + choices[1..];
    }
  }

  lemma {:induction false} ChoicesKept(choices: seq<string>)
    requires forall i | 0 <= i < |choices| :: Choice(choices[i])
    ensures Choices(choices) == choices
  {
    if choices != [] {
      ChoicesKept(choices[1..]);
      assert choices == [choices[0]] + choices[1..];
    }
  }

  /** Applying one written setting makes that setting. */
  lemma WrittenApplies(t: Tag, s: Setting, formatFloat: FormatFloat, parseFloat: ParseFloat)
    requires Writable(s, formatFloat) && ReadsBack(s, formatFloat, parseFloat)
    ensures ApplyPair(t, Written(s, formatFloat), parseFloat) == Ok(Set(t, s))
  {
    hide IndexOf, Trim, Unquote, Written, SplitBar, Choices, Bars;
    WrittenParts(s, formatFloat);
    match s {
      case Type(text) => LowerKept(text);
      case When(text) => LowerKept(text);
      case Options(choices) =>
        SplitBars(choices);
        ChoicesKept(choices);
      case _ =>
    }
  }

  lemma LowerKept(s: string)
    requires s in TYPES || s == WHEN_LIVE || s == WHEN_START
    ensures Lower(s) == s
  {
  }

  /** The tag a list of settings makes, or the complaint that its bounds cross. */
  function Finished(t: Tag): Result {
    if t.min.Some? && t.max.Some? && t.min.value > t.max.value then Err(MinExceedsMax) else Ok(t)
  }

  lemma {:induction false} AllApply(t: Tag, ss: seq<Setting>, formatFloat: FormatFloat, parseFloat: ParseFloat)
    requires forall i | 0 <= i < |ss| :: Writable(ss[i], formatFloat) && ReadsBack(ss[i], formatFloat, parseFloat)
    ensures ApplyPairs(t, WrittenAll(ss, formatFloat), parseFloat) == Finished(SetAll(t, ss))
    decreases ss
  {
    hide ApplyPair, ApplyPairs, Written, Set, SetAll, Writable, ReadsBack, Finished;
    var pieces := WrittenAll(ss, formatFloat);
    if ss == [] {
      NothingApplied(t, parseFloat);
    } else {
      WrittenApplies(t, ss[0], formatFloat, parseFloat);
      AllApply(Set(t, ss[0]), ss[1..], formatFloat, parseFloat);
      assert pieces[1..] == WrittenAll(ss[1..], formatFloat);
      ApplyFirst(t, pieces, Set(t, ss[0]), parseFloat);
      SetAllHead(t, ss);
    }
  }

  lemma NothingApplied(t: Tag, parseFloat: ParseFloat)
    ensures ApplyPairs(t, [], parseFloat) == Finished(SetAll(t, []))
  {
  }

  lemma ApplyFirst(t: Tag, pairs: seq<string>, t': Tag, parseFloat: ParseFloat)
    requires pairs != [] && ApplyPair(t, pairs[0], parseFloat) == Ok(t')
    ensures ApplyPairs(t, pairs, parseFloat) == ApplyPairs(t', pairs[1..], parseFloat)
  {
    hide ApplyPair;
  }

  /**
   * Parsing a written tag makes its settings, in any order and number: whatever commas and spaces labels and help
   * texts have, and whatever a driver puts first.
   */
  lemma ParseWritten(ss: seq<Setting>, formatFloat: FormatFloat, parseFloat: ParseFloat)
    requires forall i | 0 <= i < |ss| :: Writable(ss[i], formatFloat) && ReadsBack(ss[i], formatFloat, parseFloat)
    ensures Parse(Join(WrittenAll(ss, formatFloat)), parseFloat) == Finished(SetAll(ZERO_TAG, ss))
  {
    if ss != [] {
      hide Writable, ReadsBack;
      var pieces := WrittenAll(ss, formatFloat);
      forall i | 0 <= i < |pieces|
        ensures Piece(pieces[i])
      {
        WrittenPiece(ss[i], formatFloat);
      }
      SplitOfJoin(pieces);
      JoinSolid(ss, formatFloat);
      AllApply(ZERO_TAG, ss, formatFloat, parseFloat);
    }
  }

  lemma {:induction false} JoinSolid(ss: seq<Setting>, formatFloat: FormatFloat)
    requires ss != []
    ensures var s := Join(WrittenAll(ss, formatFloat));
            s != [] && !IsSpace(s[0]) && IsQuote(s[|s| - 1]) && Trim(s) == s
  {
    hide Trim, Key, Value;
    var pieces := WrittenAll(ss, formatFloat);
    var s := Join(pieces);
    KeyChars(ss[0]);
    assert pieces[0][0] == Key(ss[0])[0];
    if |ss| > 1 {
      JoinSolid(ss[1..], formatFloat);
      assert pieces[1..] == WrittenAll(ss[1..], formatFloat);
      assert s[|s| - 1] == Join(pieces[1..])[|Join(pieces[1..])| - 1];
      assert s[0] == pieces[0][0];
    }
    TrimSolid(s);
  }

  // ---- the order of the keys ----

  /** The tag has this setting. */
  predicate Has(t: Tag, s: Setting) {
    match s
    case Label(text) => t.caption == text
    case Help(text) => t.help == text
    case Type(text) => t.kind == text
    case Min(bound) => t.min == Some(bound)
    case Max(bound) => t.max == Some(bound)
    case Options(choices) => t.options == choices
    case When(text) => t.when == text
    case Secret(flag) => t.secret == flag
    case Hidden(flag) => t.hidden == flag
  }

  predicate DistinctKeys(ss: seq<Setting>) {
    forall i, j | 0 <= i < j < |ss| :: Key(ss[i]) != Key(ss[j])
  }

  lemma {:induction false} SetOthers(t: Tag, ss: seq<Setting>, s: Setting)
    requires Has(t, s) && forall i | 0 <= i < |ss| :: Key(ss[i]) != Key(s)
    ensures Has(SetAll(t, ss), s)
    decreases ss
  {
    if ss != [] {
      hide Set, Key, Has;
      SetKeepsOther(t, ss[0], s);
      SetOthers(Set(t, ss[0]), ss[1..], s);
    }
  }

  lemma SetKeepsOther(t: Tag, other: Setting, s: Setting)
    requires Has(t, s) && Key(other) != Key(s)
    ensures Has(Set(t, other), s)
  {
  }


  /** With each key written once, the tag holds every setting, wherever in the tag it was written. */
  lemma {:induction false} SetAllHas(t: Tag, ss: seq<Setting>, k: nat)
    requires k < |ss| && DistinctKeys(ss) && t.options == []
    ensures Has(SetAll(t, ss), ss[k])
    decreases ss
  {
    if k == 0 {
      SetOthers(Set(t, ss[0]), ss[1..], ss[0]);
    } else if !ss[0].Options? {
      SetAllHas(Set(t, ss[0]), ss[1..], k - 1);
    } else {
      SetAllHasNot(Set(t, ss[0]), ss[1..], k - 1);
    }
  }

  lemma {:induction false} SetAllHasNot(t: Tag, ss: seq<Setting>, k: nat)
    requires k < |ss| && DistinctKeys(ss) && !ss[k].Options?
    ensures Has(SetAll(t, ss), ss[k])
    decreases ss
  {
    if k == 0 {
      SetOthers(Set(t, ss[0]), ss[1..], ss[0]);
    } else {
      SetAllHasNot(Set(t, ss[0]), ss[1..], k - 1);
    }
  }

  lemma SetCommutes(t: Tag, a: Setting, b: Setting)
    requires Key(a) != Key(b)
    ensures Set(Set(t, a), b) == Set(Set(t, b), a)
  {
  }

  /** A setting may as well be made first. */
  lemma {:induction false} MoveToFront(t: Tag, ss: seq<Setting>, k: nat)
    requires k < |ss| && DistinctKeys(ss)
    ensures SetAll(t, ss) == SetAll(Set(t, ss[k]), ss[..k] + ss[k + 1..])
    decreases ss
  {
    if k == 0 {
      assert ss[..0] + ss[1..] == ss[1..];
    } else {
      hide Set, Key;
      MoveToFront(Set(t, ss[0]), ss[1..], k - 1);
      SetCommutes(t, ss[0], ss[k]);
      var others := ss[..k] + ss[k + 1..];
      assert others[0] == ss[0] && others[1..] == ss[1..][..k - 1] + ss[1..][k..];
    }
  }

  /** The order of the keys does not matter. */
  lemma {:induction false} OrderFree(t: Tag, ss: seq<Setting>, ss': seq<Setting>)
    requires DistinctKeys(ss) && DistinctKeys(ss') && multiset(ss) == multiset(ss')
    ensures SetAll(t, ss) == SetAll(t, ss')
    decreases ss
  {
    if ss == [] {
      assert ss' == [] by {
        assert |multiset(ss')| == |multiset(ss)|;
      }
    } else {
      hide Set, Key, SetAll;
      assert ss[0] in multiset(ss');
      var k :| 0 <= k < |ss'| && ss'[k] == ss[0];
      var others := ss'[..k] + ss'[k + 1..];
      MoveToFront(t, ss', k);
      RemoveOne(ss, ss', k);
      SetAllHead(t, ss);
      OrderFree(Set(t, ss[0]), ss[1..], others);
    }
  }

  lemma SetAllHead(t: Tag, ss: seq<Setting>)
    requires ss != []
    ensures SetAll(t, ss) == SetAll(Set(t, ss[0]), ss[1..])
  {
  }

  lemma RemoveOne(ss: seq<Setting>, ss': seq<Setting>, k: nat)
    requires ss != [] && k < |ss'| && ss'[k] == ss[0] && multiset(ss) == multiset(ss')
    ensures multiset(ss[1..]) == multiset(ss'[..k] + ss'[k + 1..])
  {
    assert ss == [ss[0]] + ss[1..];
    var before, others := ss'[..k], ss'[..k] + ss'[k + 1..];
    assert ss' == before + ([ss[0]] + ss'[k + 1..]);
    assert multiset(ss') == multiset(before) + multiset([ss[0]] + ss'[k + 1..]);
    assert multiset(ss) == multiset{ss[0]} + multiset(ss[1..]);
    assert multiset(ss') == multiset{ss[0]} + multiset(others);
    SameRest(ss[0], multiset(ss[1..]), multiset(others));
  }

  lemma SameRest(s: Setting, a: multiset<Setting>, b: multiset<Setting>)
    requires multiset{s} + a == multiset{s} + b
    ensures a == b
  {
    assert a == multiset{s} + a - multiset{s};
    assert b == multiset{s} + b - multiset{s};
  }
}
