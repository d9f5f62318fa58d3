/**
 * What the comment stripper (devicemain/devicemain.go) makes of each form a text can take, spelt out: line comments,
 * block comments, string literals and everything else.
 */
module StripForms {
  import opened StripComments

  /** Spaces, and newlines where the text has them. */
  predicate Blanked(out: string, text: string) {
    |out| == |text| && forall i | 0 <= i < |text| :: out[i] == if text[i] == '\n' then '\n' else ' '
  }

  predicate NoEnd(body: string) {
    forall i | 0 <= i < |body| - 1 :: !(body[i] == '*' && body[i + 1] == '/')
  }

  lemma {:induction false} InLineOf(body: string, rest: string)
    requires '\n' !in body && (rest != "" ==> rest[0] == '\n')
    ensures InLine(body + rest) == |body|
  {
    if body == "" {
      assert body + rest == rest;
    } else {
      assert (body + rest)[1..] == body[1..] + rest;
      InLineOf(body[1..], rest);
    }
  }

  /** A line comment is blanked up to the newline, which stays. */
  lemma LineComment(body: string, rest: string) returns (out: string)
    requires '\n' !in body && (rest != "" ==> rest[0] == '\n')
    ensures Strip("//" + body + rest) == out + Strip(rest)
    ensures |out| == 2 + |body| && forall i | 0 <= i < |out| :: out[i] == ' '
  {
    var text := "//" + body;
    var s := "//" + body + rest;
    assert s == text + rest;
    InLineOf(text, rest);
    LineFirst(s);
    assert s[..|text|] == text && s[|text|..] == rest;
    out := Blank(text);
  }

  lemma {:induction false} InBlockOf(body: string, rest: string)
    requires NoEnd(body)
    ensures InBlock(body + "*/" + rest) == |body|
  {
    var s := body + "*/" + rest;
    if body == "" {
      assert s[0] == '*' && s[1] == '/';
    } else {
      assert s[1..] == body[1..] + "*/" + rest;
      assert |body| > 1 ==> s[1] == body[1];
      assert |body| == 1 ==> s[1] == '*';
      assert NoEnd(body[1..]);
      InBlockOf(body[1..], rest);
    }
  }

  lemma {:induction false} InOpenBlock(body: string)
    requires NoEnd(body)
    ensures InBlock(body) == if body == "" then 0 else |body| - 1
  {
    if |body| > 1 {
      InOpenBlock(body[1..]);
    }
  }

  /** A block comment is blanked with its marks, its newlines stay. */
  lemma BlockCommentClosed(body: string, rest: string) returns (out: string)
    requires NoEnd(body)
    ensures Strip("/*" + body + "*/" + rest) == out + Strip(rest) && Blanked(out, "/*" + body + "*/")
  {
    hide Strip;
    var s, text := "/*" + body + "*/" + rest, "/*" + body + "*/";
    assert s[2..] == body + "*/" + rest;
    InBlockOf(body, rest);
    BlockFirst(s);
    assert s[..|text|] == text && s[|text|..] == rest;
    out := Blank(text);
  }

  /** One that is never closed is blanked but for its last byte. */
  lemma BlockCommentOpen(body: string, last: char) returns (out: string)
    requires NoEnd(body + [last])
    ensures Strip("/*" + body + [last]) == out + [last] && Blanked(out, "/*" + body)
  {
    hide Strip;
    var s, text := "/*" + body + [last], "/*" + body;
    assert s[2..] == body + [last];
    InOpenBlock(body + [last]);
    BlockFirst(s);
    assert s[..|text|] == text && s[|text|..] == [last];
    out := Blank(text);
  }

  /** A character of a literal, as it is or behind a backslash. */
  datatype Char = Plainly(c: char) | Behind(c: char)

  function Spelt(cs: seq<Char>): string {
    if cs == [] then ""
    else (if cs[0].Plainly? then [cs[0].c] else ['\\', cs[0].c]) + Spelt(cs[1..])
  }

  lemma {:induction false} InLiteralOf(cs: seq<Char>, rest: string)
    requires forall i | 0 <= i < |cs| :: cs[i].Plainly? ==> cs[i].c !in {'"', '\\'}
    ensures InLiteral(Spelt(cs) + ['"'] + rest, false) == |Spelt(cs)| + 1
  {
    var s := Spelt(cs) + ['"'] + rest;
    if cs == [] {
      assert s[0] == '"';
    } else {
      var more := Spelt(cs[1..]) + ['"'] + rest;
      InLiteralOf(cs[1..], rest);
      if cs[0].Plainly? {
        assert s == [cs[0].c] + more;
        assert s[1..] == more;
      } else {
        assert s == ['\\', cs[0].c] + more;
        assert s[1..][1..] == more;
      }
    }
  }

  /** A literal stays as it is, whatever it says. */
  lemma LiteralKept(cs: seq<Char>, rest: string)
    requires forall i | 0 <= i < |cs| :: cs[i].Plainly? ==> cs[i].c !in {'"', '\\'}
    ensures var text := ['"'] + Spelt(cs) + ['"']; Strip(text + rest) == text + Strip(rest)
  {
    var text := ['"'] + Spelt(cs) + ['"'];
    var s := text + rest;
    assert s[1..] == Spelt(cs) + ['"'] + rest;
    InLiteralOf(cs, rest);
    assert s[..|text|] == text && s[|text|..] == rest;
    FirstIs(s, Literal(text));
  }

  /** Any other character stays too. */
  lemma OtherKept(c: char, rest: string)
    requires c != '"' && !(c == '/' && rest != "" && (rest[0] == '/' || rest[0] == '*'))
    ensures Strip([c] + rest) == [c] + Strip(rest)
  {
    var s := [c] + rest;
    assert s[1..] == rest;
    PlainFirst(s);
  }
}
