/**
 * JSON text of nested number arrays (sections 5 and 6 of RFC 8259): integers printed without white space, and any
 * numbers and nulls read.
 */
module JsonArrays {
  import opened Decimal
  import opened TextJoin

  datatype Json = Num(x: real) | Null | Arr(items: seq<Json>)

  /** The numbers in it are integers. */
  predicate Whole(j: Json) {
    match j
    case Num(x) => x == x.Floor as real
    case Null => true
    case Arr(items) => forall i | 0 <= i < |items| :: Whole(items[i])
  }

  // ---- printing ----

  function Bracket(parts: seq<string>): string {
    "[" + Join(parts) + "]"
  }

  function Text(j: Json): string
    decreases j, 0
  {
    match j
    case Num(x) => IntText(x.Floor)
    case Null => "null"
    case Arr(items) => "[" + ItemsText(items) + "]"
  }

  function ItemsText(items: seq<Json>): string
    decreases items, 1
  {
    if items == [] then ""
    else if |items| == 1 then Text(items[0])
    else Text(items[0]) + "," + ItemsText(items[1..])
  }

  /** Joining the texts of the items one by one is the text of the array. */
  lemma {:induction false} ItemsTextJoins(items: seq<Json>, parts: seq<string>)
    requires |items| == |parts| && forall i | 0 <= i < |items| :: parts[i] == Text(items[i])
    ensures ItemsText(items) == Join(parts)
  {
    if |items| > 1 {
      ItemsTextJoins(items[1..], parts[1..]);
    }
  }

  // ---- reading ----

  predicate IsSpace(c: char) {
    c == ' ' || c == '\t' || c == '\n' || c == '\r'
  }

  function SkipSpace(s: string): (rest: string)
    ensures |rest| <= |s| && (rest != [] ==> !IsSpace(rest[0]))
  {
    if s != [] && IsSpace(s[0]) then SkipSpace(s[1..]) else s
  }

  /** A value read at the front of a text, and the text after it. */
  datatype Read<+T> = Got(value: T, rest: string) | Bad

  /** Either 0, or digits that do not start with 0. */
  function ReadNat(s: string): (r: Read<nat>)
    ensures r.Got? ==> |r.rest| < |s|
  {
    var n := DigitRun(s);
    if n == 0 then Bad
    else if s[0] == '0' then Got(0, s[1..])
    else Got(ValueOf(s[..n]), s[n..])
  }

  function Pow10(n: nat): (x: real)
    ensures x > 0.0
  {
    if n == 0 then 1.0 else 10.0 * Pow10(n - 1)
  }

  /** The digits behind a decimal point. */
  function Scaled(n: nat, places: nat): real {
    n as real / Pow10(places)
  }

  /** What an exponent stands for. */
  function Power(negative: bool, n: nat): (x: real)
    ensures x > 0.0
  {
    if negative then 1.0 / Pow10(n) else Pow10(n)
  }

  /** A number put together. */
  function Composed(minus: bool, n: nat, fraction: real, factor: real): real {
    var size := (n as real + fraction) * factor;
    if minus then -size else size
  }

  /** A fraction, if there is one. */
  function ReadFraction(s: string): (r: Read<real>)
    ensures r.Got? ==> |r.rest| <= |s|
  {
    if s == [] || s[0] != '.' then Got(0.0, s)
    else
      var n := DigitRun(s[1..]);
      if n == 0 then Bad else Got(Scaled(ValueOf(s[1..][..n]), n), s[1..][n..])
  }

  /** An exponent, if there is one, as the factor it stands for. */
  function ReadExponent(s: string): (r: Read<real>)
    ensures r.Got? ==> |r.rest| <= |s|
  {
    if s == [] || (s[0] != 'e' && s[0] != 'E') then Got(1.0, s)
    else
      var signed := |s| > 1 && (s[1] == '+' || s[1] == '-');
      var t := if signed then s[2..] else s[1..];
      var n := DigitRun(t);
      if n == 0 then Bad
      else Got(Power(signed && s[1] == '-', ValueOf(t[..n])), t[n..])
  }

  /** A number: an optional minus, a natural number, a fraction and an exponent. */
  function ReadNumber(s: string): (r: Read<real>)
    ensures r.Got? ==> |r.rest| < |s|
  {
    var minus := s != [] && s[0] == '-';
    match ReadNat(if minus then s[1..] else s)
    case Bad => Bad
    case Got(n, afterNat) =>
      match ReadFraction(afterNat)
      case Bad => Bad
      case Got(fraction, afterFraction) =>
        match ReadExponent(afterFraction)
        case Bad => Bad
        case Got(factor, rest) =>
          Got(Composed(minus, n, fraction, factor), rest)
  }

  function ReadValue(s: string): (r: Read<Json>)
    ensures r.Got? ==> |r.rest| < |s|
    decreases |s|, 0
  {
    var t := SkipSpace(s);
    if t == [] then Bad
    else if t[0] == '[' then
      var u := SkipSpace(t[1..]);
      if u != [] && u[0] == ']' then Got(Arr([]), u[1..])
      else
        match ReadItems(t[1..])
        case Got(items, rest) => Got(Arr(items), rest)
        case Bad => Bad
    else if |t| >= 4 && t[..4] == "null" then Got(Null, t[4..])
    else
      match ReadNumber(t)
      case Got(x, rest) => Got(Num(x), rest)
      case Bad => Bad
  }

  /** At least one value, separated by commas, up to and including the closing bracket. */
  function ReadItems(s: string): (r: Read<seq<Json>>)
    ensures r.Got? ==> |r.rest| < |s|
    decreases |s|, 1
  {
    match ReadValue(s)
    case Bad => Bad
    case Got(first, rest) =>
      var t := SkipSpace(rest);
      if t != [] && t[0] == ',' then
        match ReadItems(t[1..])
        case Got(others, after) => Got([first] + others, after)
        case Bad => Bad
      else if t != [] && t[0] == ']' then Got([first], t[1..])
      else Bad
  }

  /** A whole text that is one value. */
  function ReadText(s: string): Option<Json> {
    match ReadValue(s)
    case Got(j, rest) => if SkipSpace(rest) == [] then Some(j) else None
    case Bad => None
  }

  /** What follows cannot belong to a number. */
  predicate Ends(rest: string) {
    rest != [] ==> !IsDigit(rest[0]) && rest[0] != '.' && rest[0] != 'e' && rest[0] != 'E'
  }

  lemma ReadNatDigits(n: nat, rest: string)
    requires Ends(rest)
    ensures ReadNat(Digits(n) + rest) == Got(n, rest)
  {
    var ds := Digits(n);
    DigitRunOf(ds, rest);
    assert (ds + rest)[..|ds|] == ds && (ds + rest)[|ds|..] == rest && (ds + rest)[0] == ds[0];
  }

  lemma ReadSigned(t: string, n: nat, rest: string)
    requires t != [] && t[0] != '-' && ReadNat(t) == Got(n, rest) && Ends(rest)
    ensures ReadNumber(t) == Got(n as real, rest) && ReadNumber("-" + t) == Got(-(n as real), rest)
  {
    hide ReadNat;
    assert ("-" + t)[1..] == t;
  }

  lemma ReadIntText(n: int, rest: string)
    requires Ends(rest)
    ensures ReadNumber(IntText(n) + rest) == Got(n as real, rest)
  {
    hide ReadNat, ReadNumber, Digits;
    var m := if n < 0 then -n else n;
    ReadNatDigits(m, rest);
    var t := Digits(m) + rest;
    assert t[0] == Digits(m)[0];
    ReadSigned(t, m, rest);
    assert n < 0 ==> IntText(n) + rest == "-" + t;
  }

  /** Reading undoes printing, whatever follows. */
  lemma {:induction false} ReadBack(j: Json, rest: string)
    requires Ends(rest) && Whole(j)
    ensures ReadValue(Text(j) + rest) == Got(j, rest)
    decreases j, 0
  {
    hide ReadNumber, ReadNat;
    match j
    case Num(x) =>
      ReadIntText(x.Floor, rest);
      NumberFirst(IntText(x.Floor), rest);
    case Null =>
      assert ("null" + rest)[0] == 'n' && ("null" + rest)[..4] == "null" && ("null" + rest)[4..] == rest;
    case Arr(items) =>
      hide Text, ItemsText;
      ArrText(items, rest);
      if items != [] {
        ReadItemsBack(items, rest);
        FirstChar(items, "]" + rest);
      }
  }

  lemma ArrText(items: seq<Json>, rest: string)
    ensures Text(Arr(items)) + rest == "[" + (ItemsText(items) + ("]" + rest))
    ensures var s := Text(Arr(items)) + rest; s[0] == '[' && s[1..] == ItemsText(items) + ("]" + rest)
    ensures ItemsText([]) == ""
  {
    assert Text(Arr(items)) == "[" + ItemsText(items) + "]";
  }

  /** The text of an integer does not look like anything else. */
  lemma NumberFirst(t: string, rest: string)
    requires t != [] && (IsDigit(t[0]) || t[0] == '-')
    ensures var s := t + rest; !IsSpace(s[0]) && s[0] != '[' && (|s| >= 4 ==> s[..4] != "null")
  {
    assert (t + rest)[0] == t[0];
    assert |t + rest| >= 4 ==> (t + rest)[..4][0] == t[0];
  }

  lemma {:induction false} ReadItemsBack(items: seq<Json>, rest: string)
    requires items != [] && forall i | 0 <= i < |items| :: Whole(items[i])
    ensures ReadItems(ItemsText(items) + ("]" + rest)) == Got(items, rest)
    decreases items, 1
  {
    hide ReadValue, ReadItems, Text, ItemsText;
    var tail := "]" + rest;
    ItemsTextParts(items, tail);
    if |items| == 1 {
      ReadBack(items[0], tail);
      LastItem(ItemsText(items) + tail, items[0], rest);
    } else {
      var more := ItemsText(items[1..]) + tail;
      ReadBack(items[0], "," + more);
      ReadItemsBack(items[1..], rest);
      MoreItems(ItemsText(items) + tail, items[0], more, items[1..], rest);
    }
  }

  lemma ItemsTextParts(items: seq<Json>, tail: string)
    requires items != []
    ensures items == [items[0]] + items[1..]
    ensures |items| == 1 ==> ItemsText(items) + tail == Text(items[0]) + tail && items == [items[0]]
    ensures |items| > 1 ==> ItemsText(items) + tail == Text(items[0]) + ("," + (ItemsText(items[1..]) + tail))
  {
    hide Text;
    if |items| > 1 {
      Regroup(Text(items[0]), ItemsText(items[1..]), tail);
    }
  }

  lemma Regroup(a: string, b: string, c: string)
    ensures a + "," + b + c == a + ("," + (b + c))
  {
  }

  lemma LastItem(s: string, last: Json, rest: string)
    requires ReadValue(s) == Got(last, "]" + rest)
    ensures ReadItems(s) == Got([last], rest)
  {
    assert SkipSpace("]" + rest) == "]" + rest;
  }

  lemma MoreItems(s: string, first: Json, more: string, others: seq<Json>, rest: string)
    requires ReadValue(s) == Got(first, "," + more) && ReadItems(more) == Got(others, rest)
    ensures ReadItems(s) == Got([first] + others, rest)
  {
    assert SkipSpace("," + more) == "," + more;
    assert ("," + more)[1..] == more;
  }

  lemma FirstChar(items: seq<Json>, rest: string)
    requires items != []
    ensures var s := ItemsText(items) + rest; s != [] && !IsSpace(s[0]) && s[0] != ']'
  {
    var t := Text(items[0]);
    assert t != [] && !IsSpace(t[0]) && t[0] != ']';
    assert (ItemsText(items) + rest)[0] == t[0];
  }

  lemma TextRoundTrip(j: Json)
    requires Whole(j)
    ensures ReadText(Text(j)) == Some(j)
  {
    ReadBack(j, "");
    assert Text(j) + "" == Text(j);
  }
}
