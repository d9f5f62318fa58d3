/**
 * The reader of JsonArrays against the grammar of RFC 8259 (sections 2, 5 and 6): it takes exactly the nested arrays of
 * numbers and nulls, in every spelling of the numbers and with white space wherever it may be.
 */
module JsonSpelling {
  import opened Decimal
  import opened JsonArrays

  datatype Exponent = NoExponent | Exponent(mark: char, sign: string, digits: string)

  datatype Item = Item(before: string, value: Spelling, after: string)

  /** A value as it is written; `inner` is the white space in an empty array. */
  datatype Spelling =
    | Number(minus: bool, whole: string, fraction: string, exponent: Exponent)
    | Nil
    | List(inner: string, items: seq<Item>)

  predicate Blank(s: string) {
    forall i | 0 <= i < |s| :: s[i] in {' ', '\t', '\n', '\r'}
  }

  function FractionText(fraction: string): string {
    if fraction == "" then "" else ['.'] + fraction
  }

  function ExponentText(e: Exponent): string {
    match e
    case NoExponent => ""
    case Exponent(mark, sign, digits) => [mark] + sign + digits
  }

  function NumberText(sp: Spelling): string
    requires sp.Number?
  {
    (if sp.minus then ['-'] else []) + (sp.whole + (FractionText(sp.fraction) + ExponentText(sp.exponent)))
  }

  function Spelt(sp: Spelling): string
    decreases sp, 0
  {
    match sp
    case Number(_, _, _, _) => NumberText(sp)
    case Nil => ['n', 'u', 'l', 'l']
    case List(inner, items) => ['['] + (if items == [] then inner else SpeltItems(items)) + [']']
  }

  function SpeltItems(items: seq<Item>): string
    decreases items, 1
  {
    if items == [] then ""
    else
      var first := items[0].before + Spelt(items[0].value) + items[0].after;
      if |items| == 1 then first else first + [','] + SpeltItems(items[1..])
  }

  predicate LegalExponent(e: Exponent) {
    match e
    case NoExponent => true
    case Exponent(mark, sign, digits) =>
      mark in {'e', 'E'} && sign in {"", ['+'], ['-']} && digits != "" && AllDigits(digits)
  }

  /** Digits where they must be, no zero in front of others, and only white space for white space. */
  predicate Legal(sp: Spelling) {
    match sp
    case Number(_, whole, fraction, exponent) =>
      && whole != "" && AllDigits(whole) && (whole[0] == '0' ==> |whole| == 1)
      && AllDigits(fraction) && LegalExponent(exponent)
    case Nil => true
    case List(inner, items) =>
      && Blank(inner)
      && forall i | 0 <= i < |items| :: Blank(items[i].before) && Blank(items[i].after) && Legal(items[i].value)
  }

  predicate LegalItems(items: seq<Item>) {
    forall i | 0 <= i < |items| :: Blank(items[i].before) && Blank(items[i].after) && Legal(items[i].value)
  }

  // ---- what it means ----

  function Factor(e: Exponent): real
    requires LegalExponent(e)
  {
    match e
    case NoExponent => 1.0
    case Exponent(_, sign, digits) =>
      Power(sign == ['-'], ValueOf(digits))
  }

  function Amount(sp: Spelling): real
    requires sp.Number? && Legal(sp)
  {
    Composed(sp.minus, ValueOf(sp.whole), Scaled(ValueOf(sp.fraction), |sp.fraction|), Factor(sp.exponent))
  }

  function Tree(sp: Spelling): Json
    requires Legal(sp)
    decreases sp, 0
  {
    match sp
    case Number(_, _, _, _) => Num(Amount(sp))
    case Nil => Json.Null
    case List(_, items) => Arr(Trees(items))
  }

  function Trees(items: seq<Item>): (r: seq<Json>)
    requires LegalItems(items)
    ensures |r| == |items|
    decreases items, 1
  {
    if items == [] then [] else [Tree(items[0].value)] + Trees(items[1..])
  }

  /** The powers of ten, how fractions and exponents scale, and how a number is put together. */
  lemma PowersOfTen(n: nat, places: nat, fraction: real, factor: real)
    ensures Pow10(0) == 1.0 && Pow10(places + 1) == 10.0 * Pow10(places)
    ensures Scaled(n, places) * Pow10(places) == n as real
    ensures Power(false, places) == Pow10(places) && Power(true, places) * Pow10(places) == 1.0
    ensures Composed(false, n, fraction, factor) == (n as real + fraction) * factor
    ensures Composed(true, n, fraction, factor) == 0.0 - (n as real + fraction) * factor
  {
  }

  // ---- every spelling is read ----

  predicate NoDigit(s: string) {
    s != "" ==> !IsDigit(s[0])
  }

  lemma WholeRead(whole: string, rest: string)
    requires whole != "" && AllDigits(whole) && (whole[0] == '0' ==> |whole| == 1) && NoDigit(rest)
    ensures ReadNat(whole + rest) == Got(ValueOf(whole), rest)
  {
    var s := whole + rest;
    DigitRunOf(whole, rest);
    hide DigitRun, ValueOf;
    assert s[..|whole|] == whole && s[|whole|..] == rest && s[0] == whole[0];
    if whole[0] == '0' {
      ZeroText(whole);
    }
  }

  lemma ZeroText(s: string)
    requires |s| == 1 && s[0] == '0'
    ensures AllDigits(s) && ValueOf(s) == 0
  {
    assert s[..0] == "" && ValueOf("") == 0;
  }

  lemma NoFraction()
    ensures Scaled(ValueOf(""), |""|) == 0.0
  {
  }

  lemma FractionRead(fraction: string, rest: string)
    requires AllDigits(fraction) && NoDigit(rest) && (rest != "" ==> rest[0] != '.')
    ensures ReadFraction(FractionText(fraction) + rest) == Got(Scaled(ValueOf(fraction), |fraction|), rest)
  {
    hide Scaled, ValueOf, DigitRun, ReadFraction;
    if fraction == "" {
      NoFraction();
      PlainRead(rest);
      assert FractionText(fraction) + rest == rest;
    } else {
      PointRead(fraction, rest);
      assert FractionText(fraction) + rest == ['.'] + (fraction + rest);
    }
  }

  lemma PlainRead(s: string)
    requires s != "" ==> s[0] != '.'
    ensures ReadFraction(s) == Got(0.0, s)
  {
  }

  lemma PointRead(fraction: string, rest: string)
    requires fraction != "" && AllDigits(fraction) && NoDigit(rest)
    ensures ReadFraction(['.'] + (fraction + rest)) == Got(Scaled(ValueOf(fraction), |fraction|), rest)
  {
    hide Scaled, ValueOf;
    var t := fraction + rest;
    DigitRunOf(fraction, rest);
    hide DigitRun;
    assert (['.'] + t)[1..] == t;
    assert t[..|fraction|] == fraction && t[|fraction|..] == rest;
  }

  lemma ExponentRead(e: Exponent, rest: string)
    requires LegalExponent(e) && Ends(rest)
    ensures ReadExponent(ExponentText(e) + rest) == Got(Factor(e), rest)
  {
    hide Power, ValueOf, DigitRun, ReadExponent;
    match e
    case NoExponent =>
      NoExponentRead(rest);
      assert ExponentText(e) + rest == rest;
    case Exponent(mark, sign, digits) =>
      Tail([mark] + sign, digits, rest);
      if sign == "" {
        BareExponentRead(mark, digits, rest);
        assert [mark] + sign == [mark];
      } else {
        SignedExponentRead(mark, sign[0], digits, rest);
        assert sign == [sign[0]];
      }
  }

  lemma NoExponentRead(s: string)
    requires Ends(s)
    ensures ReadExponent(s) == Got(1.0, s)
  {
  }

  lemma BareExponentRead(mark: char, digits: string, rest: string)
    requires mark in {'e', 'E'} && digits != "" && AllDigits(digits) && NoDigit(rest)
    ensures ReadExponent([mark] + (digits + rest)) == Got(Power(false, ValueOf(digits)), rest)
  {
    hide Power, ValueOf;
    var t := digits + rest;
    DigitRunOf(digits, rest);
    hide DigitRun;
    assert ([mark] + t)[1..] == t && t[0] == digits[0] && IsDigit(t[0]);
    assert t[..|digits|] == digits && t[|digits|..] == rest;
  }

  lemma SignedExponentRead(mark: char, sign: char, digits: string, rest: string)
    requires mark in {'e', 'E'} && sign in {'+', '-'} && digits != "" && AllDigits(digits) && NoDigit(rest)
    ensures ReadExponent([mark] + [sign] + (digits + rest)) == Got(Power(sign == '-', ValueOf(digits)), rest)
  {
    hide Power, ValueOf;
    var t := digits + rest;
    DigitRunOf(digits, rest);
    hide DigitRun;
    assert ([mark] + [sign] + t)[2..] == t && ([mark] + [sign] + t)[1] == sign;
    assert t[..|digits|] == digits && t[|digits|..] == rest;
  }

  lemma ExponentFirst(e: Exponent, rest: string)
    requires LegalExponent(e) && Ends(rest)
    ensures var s := ExponentText(e) + rest; NoDigit(s) && (s != "" ==> s[0] != '.')
  {
  }

  lemma FractionFirst(fraction: string, rest: string)
    requires NoDigit(rest)
    ensures NoDigit(FractionText(fraction) + rest)
  {
  }

  /** A number's text is its sign and then its parts. */
  lemma NumberParts(sp: Spelling, rest: string)
    requires sp.Number?
    ensures NumberText(sp) + rest
            == (if sp.minus then ['-'] else [])
               + (sp.whole + (FractionText(sp.fraction) + (ExponentText(sp.exponent) + rest)))
  {
    hide FractionText, ExponentText;
    Regrouped(sp.whole, FractionText(sp.fraction), ExponentText(sp.exponent), rest);
    var parts := sp.whole + (FractionText(sp.fraction) + ExponentText(sp.exponent));
    Tail(if sp.minus then ['-'] else [], parts, rest);
  }

  lemma NumberSteps(minus: bool, t: string, n: nat, f: string, x: real, e: string, y: real, rest: string)
    requires t != "" && t[0] != '-' && ReadNat(t) == Got(n, f) && ReadFraction(f) == Got(x, e)
    requires ReadExponent(e) == Got(y, rest)
    ensures ReadNumber((if minus then ['-'] else []) + t) == Got(Composed(minus, n, x, y), rest)
  {
    hide ReadNat, ReadFraction, ReadExponent, Composed;
    if minus {
      assert (['-'] + t)[1..] == t;
    } else {
      assert [] + t == t;
    }
  }

  lemma NumberRead(sp: Spelling, rest: string)
    requires sp.Number? && Legal(sp) && Ends(rest)
    ensures ReadNumber(NumberText(sp) + rest) == Got(Amount(sp), rest)
  {
    hide ReadNat, ReadFraction, ReadExponent, Factor, Scaled, Composed, ValueOf, ExponentText, FractionText,
         LegalExponent, NumberText, ReadNumber;
    ExponentFirst(sp.exponent, rest);
    FractionFirst(sp.fraction, ExponentText(sp.exponent) + rest);
    var e := ExponentText(sp.exponent) + rest;
    var f := FractionText(sp.fraction) + e;
    ExponentRead(sp.exponent, rest);
    FractionRead(sp.fraction, e);
    WholeRead(sp.whole, f);
    NumberParts(sp, rest);
    assert (sp.whole + f)[0] == sp.whole[0] && IsDigit(sp.whole[0]);
    NumberSteps(sp.minus, sp.whole + f, ValueOf(sp.whole), f, Scaled(ValueOf(sp.fraction), |sp.fraction|), e,
                Factor(sp.exponent), rest);
  }

  lemma {:induction false} SkipBlank(blank: string, s: string)
    requires Blank(blank) && (s != "" ==> !IsSpace(s[0]))
    ensures SkipSpace(blank + s) == s
  {
    if blank == "" {
      assert blank + s == s;
    } else {
      var t := blank + s;
      assert t[0] == blank[0] && IsSpace(blank[0]);
      assert t[1..] == blank[1..] + s;
      SkipBlank(blank[1..], s);
    }
  }

  /** How a value begins. */
  lemma SpeltFirst(sp: Spelling)
    requires Legal(sp)
    ensures var s := Spelt(sp); s != "" && !IsSpace(s[0]) && s[0] != ']'
    ensures sp.Number? ==> IsDigit(Spelt(sp)[0]) || Spelt(sp)[0] == '-'
  {
  }

  lemma ValueStarts(blank: string, s: string, rest: string)
    requires Blank(blank) && s != "" && !IsSpace(s[0])
    ensures SkipSpace(blank + s + rest) == s + rest
  {
    assert blank + s + rest == blank + (s + rest);
    SkipBlank(blank, s + rest);
  }

  lemma {:induction false} SpellingRead(blank: string, sp: Spelling, rest: string)
    requires Blank(blank) && Legal(sp) && Ends(rest)
    ensures ReadValue(blank + Spelt(sp) + rest) == Got(Tree(sp), rest)
    decreases sp, 0
  {
    SpeltFirst(sp);
    ValueStarts(blank, Spelt(sp), rest);
    var t := Spelt(sp) + rest;
    match sp
    case Number(_, _, _, _) =>
      NumberRead(sp, rest);
      NumberFirst(Spelt(sp), rest);
      hide NumberText, ReadNumber, Amount;
    case Nil =>
      assert t[..4] == "null" && t[4..] == rest;
    case List(inner, items) =>
      if items == [] {
        assert t[1..] == inner + ([']'] + rest);
        SkipBlank(inner, [']'] + rest);
        assert ([']'] + rest)[1..] == rest;
      } else {
        ListRead(inner, items, rest);
      }
  }

  lemma ListRead(inner: string, items: seq<Item>, rest: string)
    requires items != [] && Legal(List(inner, items))
    ensures var t := Spelt(List(inner, items)) + rest;
            && t[0] == '[' && ReadItems(t[1..]) == Got(Trees(items), rest)
            && (var u := SkipSpace(t[1..]); u != "" && u[0] != ']')
    decreases items, 2
  {
    var t := Spelt(List(inner, items)) + rest;
    assert t[1..] == SpeltItems(items) + ([']'] + rest);
    ItemsRead(items, rest);
    ItemsStart(items, [']'] + rest);
  }

  lemma ItemsStart(items: seq<Item>, rest: string)
    requires items != [] && LegalItems(items)
    ensures var u := SkipSpace(SpeltItems(items) + rest); u != "" && u[0] != ']'
  {
    var first := items[0];
    SpeltFirst(first.value);
    var more := first.after + (if |items| == 1 then "" else [','] + SpeltItems(items[1..])) + rest;
    assert SpeltItems(items) + rest == first.before + Spelt(first.value) + more;
    ValueStarts(first.before, Spelt(first.value), more);
  }

  lemma LastRead(s: string, last: Json, t: string, rest: string)
    requires ReadValue(s) == Got(last, t) && SkipSpace(t) == [']'] + rest
    ensures ReadItems(s) == Got([last], rest)
  {
    hide ReadValue, SkipSpace;
    assert ([']'] + rest)[1..] == rest;
  }

  lemma MoreRead(s: string, first: Json, t: string, more: string, others: seq<Json>, rest: string)
    requires ReadValue(s) == Got(first, t) && SkipSpace(t) == [','] + more && ReadItems(more) == Got(others, rest)
    ensures ReadItems(s) == Got([first] + others, rest)
  {
    hide ReadValue, SkipSpace;
    assert ([','] + more)[1..] == more;
  }

  lemma {:induction false} ItemsRead(items: seq<Item>, rest: string)
    requires items != [] && LegalItems(items)
    ensures ReadItems(SpeltItems(items) + ([']'] + rest)) == Got(Trees(items), rest)
    decreases items, 1
  {
    hide ReadValue, ReadItems, Spelt, Tree, Legal, SkipSpace;
    var first := items[0];
    var s := SpeltItems(items) + ([']'] + rest);
    var tail := if |items| == 1 then [']'] + rest else [','] + (SpeltItems(items[1..]) + ([']'] + rest));
    var t := first.after + tail;
    assert s == first.before + Spelt(first.value) + t;
    SpellingRead(first.before, first.value, t);
    SkipBlank(first.after, tail);
    if |items| == 1 {
      LastRead(s, Tree(first.value), t, rest);
      assert items == [first];
      ItemAlone(first);
    } else {
      ItemsRead(items[1..], rest);
      MoreRead(s, Tree(first.value), t, SpeltItems(items[1..]) + ([']'] + rest), Trees(items[1..]), rest);
    }
  }

  // ---- nothing else is read ----

  lemma {:induction false} SkipSplit(s: string) returns (blank: string)
    ensures Blank(blank) && s == blank + SkipSpace(s)
  {
    if s != "" && IsSpace(s[0]) {
      var more := SkipSplit(s[1..]);
      blank := [s[0]] + more;
    } else {
      blank := "";
    }
  }

  lemma WholeSplit(s: string, n: nat, rest: string) returns (whole: string)
    requires ReadNat(s) == Got(n, rest)
    ensures whole != "" && AllDigits(whole) && (whole[0] == '0' ==> |whole| == 1)
    ensures ValueOf(whole) == n && s == whole + rest
  {
    hide ValueOf;
    if s[0] == '0' {
      whole := s[..1];
      ZeroText(whole);
      assert s == s[..1] + s[1..];
    } else {
      whole := s[..DigitRun(s)];
    }
  }

  lemma FractionSplit(s: string, x: real, rest: string) returns (fraction: string)
    requires ReadFraction(s) == Got(x, rest)
    ensures AllDigits(fraction) && s == FractionText(fraction) + rest
    ensures x == Scaled(ValueOf(fraction), |fraction|)
  {
    if s == "" || s[0] != '.' {
      fraction := "";
      NoFraction();
    } else {
      hide Scaled, Power, ValueOf;
      fraction := s[1..][..DigitRun(s[1..])];
      assert s == ['.'] + fraction + rest;
    }
  }

  lemma ExponentSplit(s: string, x: real, rest: string) returns (e: Exponent)
    requires ReadExponent(s) == Got(x, rest)
    ensures LegalExponent(e) && s == ExponentText(e) + rest && x == Factor(e)
  {
    hide Power, ValueOf, DigitRun;
    if s == "" || (s[0] != 'e' && s[0] != 'E') {
      e := NoExponent;
    } else {
      var sign, digits := SignSplit(s, x, rest);
      hide ReadExponent;
      e := Exponent(s[0], sign, digits);
      SignText(s, sign, digits + rest);
      Tail([s[0]] + sign, digits, rest);
    }
  }

  lemma SignSplit(s: string, x: real, rest: string) returns (sign: string, digits: string)
    requires ReadExponent(s) == Got(x, rest) && s != "" && (s[0] == 'e' || s[0] == 'E')
    ensures sign in {"", ['+'], ['-']} && digits != "" && AllDigits(digits)
    ensures x == Power(sign == ['-'], ValueOf(digits))
    ensures if sign == "" then digits + rest == s[1..] else |s| > 1 && sign == [s[1]] && digits + rest == s[2..]
  {
    hide Power, ValueOf;
    var signed := |s| > 1 && (s[1] == '+' || s[1] == '-');
    sign := if signed then [s[1]] else "";
    var t := if signed then s[2..] else s[1..];
    digits := t[..DigitRun(t)];
    hide DigitRun;
    assert t == digits + rest;
  }

  lemma SignText(s: string, sign: string, t: string)
    requires s != "" && (if sign == "" then t == s[1..] else |s| > 1 && sign == [s[1]] && t == s[2..])
    ensures s == [s[0]] + sign + t
  {
  }

  lemma Tail(a: string, b: string, c: string)
    ensures a + (b + c) == a + b + c
  {
  }

  lemma Regrouped(a: string, b: string, c: string, d: string)
    ensures a + (b + (c + d)) == a + (b + c) + d
  {
  }

  lemma NumberCases(s: string, x: real, rest: string)
    requires ReadNumber(s) == Got(x, rest)
    ensures var minus := s != "" && s[0] == '-';
            var n := ReadNat(if minus then s[1..] else s);
            && n.Got? && ReadFraction(n.rest).Got?
            && var f := ReadFraction(n.rest);
               ReadExponent(f.rest).Got? && rest == ReadExponent(f.rest).rest
               && x == Composed(minus, n.value, f.value, ReadExponent(f.rest).value)
  {
    hide ReadNat, ReadFraction, ReadExponent, Composed;
  }

  lemma NumberSplit(s: string, x: real, rest: string) returns (sp: Spelling)
    requires ReadNumber(s) == Got(x, rest)
    ensures sp.Number? && Legal(sp) && s == NumberText(sp) + rest && x == Amount(sp)
  {
    NumberCases(s, x, rest);
    hide ReadNumber, ReadNat, ReadFraction, ReadExponent, Factor, Scaled, Composed, ValueOf, ExponentText, FractionText,
         LegalExponent, NumberText;
    var minus := s != "" && s[0] == '-';
    var t := if minus then s[1..] else s;
    var n := ReadNat(t);
    var whole := WholeSplit(t, n.value, n.rest);
    var f := ReadFraction(n.rest);
    var fraction := FractionSplit(n.rest, f.value, f.rest);
    var e := ExponentSplit(f.rest, ReadExponent(f.rest).value, rest);
    sp := Number(minus, whole, fraction, e);
    NumberParts(sp, rest);
    assert s == (if minus then ['-'] else []) + t;
  }

  lemma {:induction false} ValueSplit(s: string, j: Json, rest: string)
    returns (blank: string, sp: Spelling)
    requires ReadValue(s) == Got(j, rest)
    ensures Blank(blank) && Legal(sp) && s == blank + (Spelt(sp) + rest) && Tree(sp) == j
    decreases |s|, 1
  {
    ValueCases(s, j, rest);
    hide ReadValue, ReadItems, ReadNumber, SkipSpace, NumberText, Amount, IsSpace, Legal, Spelt, Tree, Blank;
    blank := SkipSplit(s);
    var t := SkipSpace(s);
    if t[0] == '[' {
      sp := ListSplit(t, j, rest);
    } else if |t| >= 4 && t[..4] == "null" {
      NilText();
      sp := Nil;
      assert t == t[..4] + t[4..];
    } else {
      sp := NumberSplit(t, j.x, rest);
      NumberAlone(sp);
    }
  }

  lemma {:induction false} ListSplit(t: string, j: Json, rest: string) returns (sp: Spelling)
    requires t != "" && t[0] == '[' && j.Arr?
    requires var u := SkipSpace(t[1..]);
             if u != "" && u[0] == ']' then j == Arr([]) && rest == u[1..] else ReadItems(t[1..]) == Got(j.items, rest)
    ensures Legal(sp) && t == Spelt(sp) + rest && Tree(sp) == j
    decreases |t|, 0
  {
    hide ReadItems, SkipSpace, SpeltItems, Trees, Legal, Spelt, Tree, Blank, LegalItems;
    var u := SkipSpace(t[1..]);
    if u != "" && u[0] == ']' {
      var inner := SkipSplit(t[1..]);
      EmptyList(inner);
      sp := List(inner, []);
      assert u == [']'] + u[1..];
      Wrapped(t, inner, rest);
    } else {
      var items := ItemsSplit(t[1..], j.items, rest);
      FullList(items);
      sp := List("", items);
      Wrapped(t, SpeltItems(items), rest);
    }
  }

  lemma Wrapped(t: string, inner: string, rest: string)
    requires t != "" && t[0] == '[' && t[1..] == inner + ([']'] + rest)
    ensures t == ['['] + inner + [']'] + rest
  {
    assert t == ['['] + t[1..];
  }

  lemma NilText()
    ensures Legal(Nil) && Spelt(Nil) == "null" && Tree(Nil) == Json.Null
  {
  }

  lemma NumberAlone(sp: Spelling)
    requires sp.Number? && Legal(sp)
    ensures Spelt(sp) == NumberText(sp) && Tree(sp) == Num(Amount(sp))
  {
  }

  lemma FullList(items: seq<Item>)
    requires items != [] && LegalItems(items)
    ensures Legal(List("", items)) && Tree(List("", items)) == Arr(Trees(items))
    ensures Spelt(List("", items)) == ['['] + SpeltItems(items) + [']']
  {
  }

  lemma EmptyList(inner: string)
    requires Blank(inner)
    ensures Legal(List(inner, [])) && Tree(List(inner, [])) == Arr([])
    ensures Spelt(List(inner, [])) == ['['] + inner + [']']
  {
  }

  /** What was read when a value was. */
  lemma ValueCases(s: string, j: Json, rest: string)
    requires ReadValue(s) == Got(j, rest)
    ensures var t := SkipSpace(s);
            && t != "" && |t| <= |s|
            && (if t[0] == '[' then
                  var u := SkipSpace(t[1..]);
                  if u != "" && u[0] == ']' then j == Arr([]) && rest == u[1..]
                  else j.Arr? && ReadItems(t[1..]) == Got(j.items, rest)
                else if |t| >= 4 && t[..4] == "null" then j == Json.Null && rest == t[4..]
                else j.Num? && ReadNumber(t) == Got(j.x, rest))
  {
    hide ReadNumber;
  }

  lemma ItemsCases(s: string, js: seq<Json>, rest: string)
    requires ReadItems(s) == Got(js, rest)
    ensures var first := ReadValue(s);
            && first.Got? && |first.rest| < |s|
            && (var t := SkipSpace(first.rest);
                && t != "" && |t| <= |first.rest| && js != [] && js[0] == first.value
                && (if t[0] == ',' then ReadItems(t[1..]) == Got(js[1..], rest)
                    else t[0] == ']' && js == [first.value] && rest == t[1..]))
  {
    hide ReadValue;
  }

  lemma {:induction false} ItemsSplit(s: string, js: seq<Json>, rest: string) returns (items: seq<Item>)
    requires ReadItems(s) == Got(js, rest)
    ensures items != [] && LegalItems(items) && s == SpeltItems(items) + ([']'] + rest) && Trees(items) == js
    decreases |s|, 2
  {
    ItemsCases(s, js, rest);
    hide LegalItems, Legal, Blank;
    hide Spelt, Tree, ReadValue, ReadItems, SkipSpace, IsSpace, SpeltItems, Trees;
    var first := ReadValue(s);
    var blank, sp := ValueSplit(s, first.value, first.rest);
    var after := SkipSplit(first.rest);
    var item := Item(blank, sp, after);
    var t := SkipSpace(first.rest);
    assert t == [t[0]] + t[1..];
    if t[0] == ',' {
      var others := ItemsSplit(t[1..], js[1..], rest);
      items := [item] + others;
      assert js == [js[0]] + js[1..];
      ItemBefore(item, others);
      Chained(blank, Spelt(sp), after, SpeltItems(others), [']'] + rest);
    } else {
      items := [item];
      ItemAlone(item);
      Closed(blank, Spelt(sp), after, [']'] + rest);
    }
  }

  lemma Closed(a: string, b: string, c: string, d: string)
    ensures a + (b + (c + d)) == a + b + c + d
  {
  }

  lemma Chained(a: string, b: string, c: string, d: string, e: string)
    ensures a + (b + (c + ([','] + (d + e)))) == a + b + c + [','] + d + e
    ensures a + b + c + [','] + d + e == (a + b + c + [','] + d) + e
  {
  }

  lemma ItemAlone(item: Item)
    requires Blank(item.before) && Blank(item.after) && Legal(item.value)
    ensures LegalItems([item]) && Trees([item]) == [Tree(item.value)]
    ensures SpeltItems([item]) == item.before + Spelt(item.value) + item.after
  {
    assert Trees([item]) == [Tree(item.value)] + Trees([]);
  }

  lemma ItemBefore(item: Item, others: seq<Item>)
    requires Blank(item.before) && Blank(item.after) && Legal(item.value) && others != [] && LegalItems(others)
    ensures LegalItems([item] + others) && Trees([item] + others) == [Tree(item.value)] + Trees(others)
    ensures SpeltItems([item] + others)
            == item.before + Spelt(item.value) + item.after + [','] + SpeltItems(others)
  {
    assert ([item] + others)[1..] == others;
  }

  /** A text is read as an array if and only if it is one of its spellings, with white space around. */
  lemma ReadExactly(s: string, j: Json)
    ensures ReadText(s) == Some(j) <==>
            exists lead, sp, trail ::
              Blank(lead) && Legal(sp) && Blank(trail) && s == lead + Spelt(sp) + trail && Tree(sp) == j
  {
    hide ReadValue, Spelt, Tree, Legal;
    if ReadText(s) == Some(j) {
      var got := ReadValue(s);
      var lead, sp := ValueSplit(s, j, got.rest);
      var trail := SkipSplit(got.rest);
      assert trail == got.rest;
      assert s == lead + Spelt(sp) + trail by {
        assert lead + (Spelt(sp) + trail) == lead + Spelt(sp) + trail;
      }
    }
    if lead, sp, trail :| Blank(lead) && Legal(sp) && Blank(trail) && s == lead + Spelt(sp) + trail && Tree(sp) == j {
      SpellingRead(lead, sp, trail);
      SkipBlank(trail, "");
      assert trail + "" == trail;
    }
  }
}
