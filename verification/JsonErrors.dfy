/**
 * Which JSON device errors turn streaming off (client/imagestream.go): of the body only the first MiB is read, so what
 * decides is where the object ends.
 */
module JsonErrors {
  import opened Bytes
  import opened Decimal
  import opened ImageStream

  const QUOTE: byte := 34
  const BACKSLASH: byte := 92
  const OPEN_BRACE: byte := 123

  datatype Lex = Plain | InString | Escaped

  function NextLex(lex: Lex, b: byte): Lex {
    match lex
    case Plain => if b == QUOTE then InString else Plain
    case InString => if b == QUOTE then Plain else if b == BACKSLASH then Escaped else InString
    case Escaped => InString
  }

  function NextDepth(depth: nat, lex: Lex, b: byte): nat {
    if lex != Plain then depth
    else if b == OPEN_BRACE then depth + 1
    else if b == BRACE && depth > 0 then depth - 1
    else depth
  }

  /** How far it is from inside `depth` objects to the end of the outermost. */
  function EndFrom(text: seq<byte>, depth: nat, lex: Lex): (end: Option<nat>)
    ensures end.Some? ==> 0 < end.value <= |text|
  {
    if text == [] then None
    else if lex == Plain && text[0] == BRACE && depth == 1 then Some(1)
    else
      match EndFrom(text[1..], NextDepth(depth, lex, text[0]), NextLex(lex, text[0]))
      case Some(n) => Some(n + 1)
      case None => None
  }

  /** Where the first object of a text ends: its closing brace is the one that no string and no inner object has. */
  function ObjectEnd(text: seq<byte>): Option<nat> {
    EndFrom(text, 0, Plain)
  }

  /** A text cut before the end has none, and one cut behind it has the same. */
  lemma {:induction false} EndOfPrefix(text: seq<byte>, n: nat, depth: nat, lex: Lex)
    requires n <= |text|
    ensures EndFrom(text[..n], depth, lex) ==
            var end := EndFrom(text, depth, lex);
            if end.Some? && end.value <= n then end else None
    decreases |text|
  {
    if n > 0 {
      assert text[..n][1..] == text[1..][..n - 1];
      EndOfPrefix(text[1..], n - 1, NextDepth(depth, lex, text[0]), NextLex(lex, text[0]));
    }
  }

  // ---- the end of a JSON object as it is written ----

  /** A character of a string, as it is or behind a backslash. */
  datatype Char = Plainly(b: byte) | Behind(b: byte)

  /** A part of an object: a string, an object inside, or any other byte of its numbers, commas, brackets and names. */
  datatype Part = Other(b: byte) | Text(chars: seq<Char>) | Object(parts: seq<Part>)

  function CharBytes(c: Char): seq<byte> {
    match c
    case Plainly(b) => [b]
    case Behind(b) => [92, b]
  }

  function CharsBytes(cs: seq<Char>): seq<byte> {
    if cs == [] then [] else CharBytes(cs[0]) + CharsBytes(cs[1..])
  }

  function PartBytes(p: Part): seq<byte>
    decreases p, 0
  {
    match p
    case Other(b) => [b]
    case Text(cs) => [34] + CharsBytes(cs) + [34]
    case Object(ps) => [123] + PartsBytes(ps) + [125]
  }

  function PartsBytes(ps: seq<Part>): seq<byte>
    decreases ps, 1
  {
    if ps == [] then [] else PartBytes(ps[0]) + PartsBytes(ps[1..])
  }

  /** Bytes where they are read as what they are: no quote, backslash or brace out of place. */
  predicate Written(p: Part)
    decreases p, 0
  {
    match p
    case Other(b) => b !in {34, 123, 125}
    case Text(cs) => forall i | 0 <= i < |cs| :: cs[i].Plainly? ==> cs[i].b !in {34, 92}
    case Object(ps) => forall i | 0 <= i < |ps| :: Written(ps[i])
  }

  /** The end, counted from n bytes earlier. */
  function Later(end: Option<nat>, n: nat): Option<nat> {
    if end.Some? then Some(end.value + n) else None
  }

  lemma LaterMore(end: Option<nat>, m: nat, n: nat)
    ensures Later(Later(end, m), n) == Later(end, m + n)
  {
  }

  lemma EndOfOne(b: byte, rest: seq<byte>, depth: nat, lex: Lex)
    requires !(lex == Plain && b == 125 && depth == 1)
    ensures EndFrom([b] + rest, depth, lex) == Later(EndFrom(rest, NextDepth(depth, lex, b), NextLex(lex, b)), 1)
  {
    assert ([b] + rest)[1..] == rest;
  }

  /** Inside a string nothing ends. */
  lemma {:induction false} EndOfChars(cs: seq<Char>, rest: seq<byte>, depth: nat)
    requires forall i | 0 <= i < |cs| :: cs[i].Plainly? ==> cs[i].b !in {34, 92}
    ensures EndFrom(CharsBytes(cs) + rest, depth, InString) == Later(EndFrom(rest, depth, InString), |CharsBytes(cs)|)
  {
    if cs == [] {
      assert CharsBytes(cs) + rest == rest;
    } else {
      var more := CharsBytes(cs[1..]) + rest;
      EndOfChars(cs[1..], rest, depth);
      EndOfChar(cs[0], more, depth);
      hide EndFrom, CharBytes;
      assert CharsBytes(cs) + rest == CharBytes(cs[0]) + more;
      LaterMore(EndFrom(rest, depth, InString), |CharsBytes(cs[1..])|, |CharBytes(cs[0])|);
    }
  }

  lemma EndOfChar(c: Char, rest: seq<byte>, depth: nat)
    requires c.Plainly? ==> c.b !in {34, 92}
    ensures EndFrom(CharBytes(c) + rest, depth, InString) == Later(EndFrom(rest, depth, InString), |CharBytes(c)|)
  {
    hide EndFrom;
    match c
    case Plainly(b) =>
      EndOfOne(b, rest, depth, InString);
    case Behind(b) =>
      EndOfOne(b, rest, depth, Escaped);
      EndOfOne(92, [b] + rest, depth, InString);
      assert [92, b] + rest == [92] + ([b] + rest);
      LaterMore(EndFrom(rest, depth, InString), 1, 1);
  }

  lemma EndOfString(cs: seq<Char>, rest: seq<byte>, depth: nat)
    requires Written(Text(cs))
    ensures EndFrom(PartBytes(Text(cs)) + rest, depth, Plain)
            == Later(EndFrom(rest, depth, Plain), |PartBytes(Text(cs))|)
  {
    hide EndFrom, Later, CharsBytes;
    var more, end := [34] + rest, EndFrom(rest, depth, Plain);
    EndOfOne(34, rest, depth, InString);
    EndOfChars(cs, more, depth);
    EndOfOne(34, CharsBytes(cs) + more, depth, Plain);
    assert PartBytes(Text(cs)) + rest == [34] + (CharsBytes(cs) + more);
    LaterMore(end, 1, |CharsBytes(cs)|);
    LaterMore(end, 1 + |CharsBytes(cs)|, 1);
  }

  /** The bytes of an inner object, when those of its parts end nothing. */
  lemma EndOfInner(inner: seq<byte>, rest: seq<byte>, depth: nat)
    requires depth > 0
    requires EndFrom(inner + ([125] + rest), depth + 1, Plain)
             == Later(EndFrom([125] + rest, depth + 1, Plain), |inner|)
    ensures EndFrom([123] + inner + [125] + rest, depth, Plain)
            == Later(EndFrom(rest, depth, Plain), |inner| + 2)
  {
    hide EndFrom, Later;
    var more, end := [125] + rest, EndFrom(rest, depth, Plain);
    EndOfOne(125, rest, depth + 1, Plain);
    EndOfOne(123, inner + more, depth, Plain);
    assert [123] + inner + [125] + rest == [123] + (inner + more);
    LaterMore(end, 1, |inner|);
    LaterMore(end, 1 + |inner|, 1);
  }

  /** Nor does an object end with a part of it. */
  lemma {:induction false} EndOfPart(p: Part, rest: seq<byte>, depth: nat)
    requires Written(p) && depth > 0
    ensures EndFrom(PartBytes(p) + rest, depth, Plain) == Later(EndFrom(rest, depth, Plain), |PartBytes(p)|)
    decreases p, 0
  {
    hide EndFrom, Later;
    match p
    case Other(b) =>
      EndOfOne(b, rest, depth, Plain);
    case Text(cs) =>
      EndOfString(cs, rest, depth);
    case Object(ps) =>
      EndOfParts(ps, [125] + rest, depth + 1);
      EndOfInner(PartsBytes(ps), rest, depth);
  }

  lemma {:induction false} EndOfParts(ps: seq<Part>, rest: seq<byte>, depth: nat)
    requires (forall i | 0 <= i < |ps| :: Written(ps[i])) && depth > 0
    ensures EndFrom(PartsBytes(ps) + rest, depth, Plain) == Later(EndFrom(rest, depth, Plain), |PartsBytes(ps)|)
    decreases ps, 1
  {
    if ps == [] {
      assert PartsBytes(ps) + rest == rest;
    } else {
      var more := PartsBytes(ps[1..]) + rest;
      EndOfParts(ps[1..], rest, depth);
      EndOfPart(ps[0], more, depth);
      hide EndFrom, PartBytes, Later;
      assert PartsBytes(ps) + rest == PartBytes(ps[0]) + more;
      LaterMore(EndFrom(rest, depth, Plain), |PartsBytes(ps[1..])|, |PartBytes(ps[0])|);
    }
  }

  lemma {:induction false} EndOfSpace(space: seq<byte>, rest: seq<byte>)
    requires forall i | 0 <= i < |space| :: space[i] !in {34, 123, 125}
    ensures EndFrom(space + rest, 0, Plain) == Later(EndFrom(rest, 0, Plain), |space|)
  {
    if space == [] {
      assert space + rest == rest;
    } else {
      EndOfSpace(space[1..], rest);
      EndOfOne(space[0], space[1..] + rest, 0, Plain);
      hide EndFrom;
      LaterMore(EndFrom(rest, 0, Plain), |space| - 1, 1);
      assert space + rest == [space[0]] + (space[1..] + rest);
    }
  }

  /**
   * The scanner finds the end of every object, whatever strings with quotes and braces and whatever objects it holds,
   * and whatever follows it.
   */
  lemma EndOfObject(space: seq<byte>, ps: seq<Part>, rest: seq<byte>)
    requires (forall i | 0 <= i < |space| :: space[i] !in {34, 123, 125}) && Written(Object(ps))
    ensures ObjectEnd(space + PartBytes(Object(ps)) + rest) == Some(|space| + |PartBytes(Object(ps))|)
  {
    var inner := PartsBytes(ps) + ([125] + rest);
    EndOfParts(ps, [125] + rest, 1);
    EndOfOne(123, inner, 0, Plain);
    EndOfSpace(space, [123] + inner);
    EndHere(rest);
    hide EndFrom, PartsBytes;
    assert space + PartBytes(Object(ps)) + rest == space + ([123] + inner);
  }

  lemma EndHere(rest: seq<byte>)
    ensures EndFrom([125] + rest, 1, Plain) == Some(1)
  {
    assert ([125] + rest)[0] == 125;
  }

  // ---- what the client makes of it ----

  /** An object that has not been closed is no JSON, and what follows the closing brace does not change its fields. */
  ghost predicate ReadsObjects(errorNumber: seq<byte> -> int) {
    && (forall text: seq<byte> | errorNumber(text) != 0 :: ObjectEnd(text).Some?)
    && (forall text: seq<byte>, n: nat | errorNumber(text) != 0 && ObjectEnd(text).Some?
                                         && ObjectEnd(text).value <= n <= |text| ::
          errorNumber(text[..n]) == errorNumber(text))
  }

  /** Some parser does. */
  lemma SomeParser() returns (errorNumber: seq<byte> -> int)
    ensures ReadsObjects(errorNumber)
    ensures errorNumber([OPEN_BRACE, BRACE]) != 0
  {
    errorNumber := (text: seq<byte>) => if ObjectEnd(text).Some? then 1 else 0;
    forall text: seq<byte>, n: nat | ObjectEnd(text).Some? && ObjectEnd(text).value <= n <= |text|
      ensures ObjectEnd(text[..n]) == ObjectEnd(text)
    {
      EndOfPrefix(text, n, 0, Plain);
    }
    assert EndFrom([OPEN_BRACE, BRACE][1..], 1, Plain) == Some(1);
  }

  /**
   * A JSON device error sets the latch, and is reported as an unstreamable answer instead of itself, if and only if its
   * object does not end within the first MiB.
   */
  lemma LatchesByObjectEnd(r: Reply, sink: Sink)
    requires AnswersJson(r) && r.errorNumber(r.data) != 0 && ReadsObjects(r.errorNumber)
    ensures ObjectEnd(r.data).Some?
    ensures var o := Streamed(false, r, sink);
            && (o.latched <==> ObjectEnd(r.data).value > 0x10_0000)
            && o.err == (if ObjectEnd(r.data).value > 0x10_0000 then Unstreamable
                         else JsonDeviceError(r.errorNumber(r.data)))
            && o.sent && o.trace == []
  {
    var end := ObjectEnd(r.data).value;
    if |r.data| > MAX_JSON_BODY {
      EndOfPrefix(r.data, MAX_JSON_BODY, 0, Plain);
      if end > MAX_JSON_BODY {
        assert ObjectEnd(r.data[..MAX_JSON_BODY]).None?;
      }
    }
  }
}
