/** The comment stripper for JSON device files (devicemain/devicemain.go), against a lexer that knows JSON strings. */
module StripComments {
  // ---- the lexer ----

  /**
   * A lexeme of JSON with comments. A block comment that is never closed leaves its last byte alone, and `kept`
   * is that byte.
   */
  datatype Token = Plain(c: char) | Literal(text: string) | Comment(text: string, kept: string)

  /** How many bytes of s belong to a string literal that is already open. */
  function InLiteral(s: string, esc: bool): (n: nat)
    ensures n <= |s| && (s != [] ==> n > 0)
  {
    if s == [] then 0
    else if esc then 1 + InLiteral(s[1..], false)
    else if s[0] == '\\' then 1 + InLiteral(s[1..], true)
    else if s[0] == '"' then 1
    else 1 + InLiteral(s[1..], false)
  }

  function InLine(s: string): (n: nat)
    ensures n <= |s|
  {
    if s == [] || s[0] == '\n' then 0 else 1 + InLine(s[1..])
  }

  /** How many bytes of s come before the first closing mark, or before the last byte when there is none. */
  function InBlock(s: string): (n: nat)
    ensures n <= |s| && (s != [] ==> n < |s|) && (n + 1 < |s| ==> s[n] == '*' && s[n + 1] == '/')
  {
    if |s| <= 1 || (s[0] == '*' && s[1] == '/') then 0 else 1 + InBlock(s[1..])
  }

  function BlockComment(s: string): (t: Token)
    requires |s| >= 2
    ensures t.Comment?
  {
    var n := InBlock(s[2..]);
    if n + 1 < |s| - 2 then Comment(s[..n + 4], []) else Comment(s[..n + 2], s[n + 2..])
  }

  function First(s: string): (t: Token)
    requires s != []
    ensures 0 < |Source(t)| <= |s| && Source(t) == s[..|Source(t)|]
  {
    if s[0] == '"' then Literal(s[..1 + InLiteral(s[1..], false)])
    else if s[0] == '/' && |s| > 1 && s[1] == '/' then Comment(s[..InLine(s)], [])
    else if s[0] == '/' && |s| > 1 && s[1] == '*' then BlockComment(s)
    else Plain(s[0])
  }

  function Source(t: Token): string {
    match t
    case Plain(c) => [c]
    case Literal(text) => text
    case Comment(text, kept) => text + kept
  }

  function Tokens(s: string): seq<Token>
    decreases |s|
  {
    if s == [] then [] else [First(s)] + Tokens(s[|Source(First(s))|..])
  }

  function BlankChar(c: char): char {
    if c == '\n' then '\n' else ' '
  }

  function Blank(text: string): (s: string)
    ensures |s| == |text|
  {
    seq(|text|, i requires 0 <= i < |text| => BlankChar(text[i]))
  }

  function Rendered(t: Token): (s: string)
    ensures |s| == |Source(t)|
  {
    match t
    case Plain(c) => [c]
    case Literal(text) => text
    case Comment(text, kept) => Blank(text) + kept
  }

  /** The text with its comments blanked. */
  function Strip(s: string): (t: string)
    ensures |t| == |s|
    decreases |s|
  {
    if s == [] then [] else Rendered(First(s)) + Strip(s[|Source(First(s))|..])
  }

  // ---- the stripper ----

  /** What is left of the output when the scan stands at the front of s, inside a string or not. */
  ghost function Rest(s: string, inStr: bool, esc: bool): string {
    if inStr then s[..InLiteral(s, esc)] + Strip(s[InLiteral(s, esc)..]) else Strip(s)
  }

  lemma PlainFirst(s: string)
    requires s != [] && First(s) == Plain(s[0])
    ensures Strip(s) == [s[0]] + Strip(s[1..])
  {
  }

  lemma LineFirst(s: string)
    requires |s| > 1 && s[0] == '/' && s[1] == '/'
    ensures Strip(s) == Blank(s[..InLine(s)]) + Strip(s[InLine(s)..])
  {
    hide Blank;
    var n := InLine(s);
    assert First(s) == Comment(s[..n], []) && Source(First(s)) == s[..n];
    assert Rendered(First(s)) == Blank(s[..n]);
  }

  lemma FirstIs(s: string, t: Token)
    requires s != [] && First(s) == t
    ensures |Source(t)| <= |s| && Strip(s) == Rendered(t) + Strip(s[|Source(t)|..])
  {
  }

  lemma BlockFirst(s: string)
    requires |s| > 1 && s[0] == '/' && s[1] == '*'
    ensures var n := 2 + InBlock(s[2..]);
            Strip(s) == if n + 1 < |s| then Blank(s[..n + 2]) + Strip(s[n + 2..]) else Blank(s[..n]) + s[n..]
  {
    hide Strip, First, InBlock;
    var n := 2 + InBlock(s[2..]);
    BlockForms(s);
    if n + 1 < |s| {
      ClosedFirst(s, n + 2);
    } else {
      OpenFirst(s, n);
    }
  }

  lemma ClosedFirst(s: string, n: nat)
    requires s != [] && n <= |s| && First(s) == Comment(s[..n], [])
    ensures Strip(s) == Blank(s[..n]) + Strip(s[n..])
  {
    hide Strip, First, Blank;
    var t := Comment(s[..n], []);
    FirstIs(s, t);
    assert Source(t) == s[..n] && Rendered(t) == Blank(s[..n]);
  }

  lemma OpenFirst(s: string, n: nat)
    requires s != [] && n <= |s| && First(s) == Comment(s[..n], s[n..])
    ensures Strip(s) == Blank(s[..n]) + s[n..]
  {
    hide Strip, First, Blank;
    var t := Comment(s[..n], s[n..]);
    FirstIs(s, t);
    assert Source(t) == s && s[|s|..] == [];
    StripNone();
    assert Rendered(t) + [] == Rendered(t);
  }

  lemma BlockForms(s: string)
    requires |s| > 1 && s[0] == '/' && s[1] == '*'
    ensures var n := 2 + InBlock(s[2..]);
            First(s) == if n + 1 < |s| then Comment(s[..n + 2], []) else Comment(s[..n], s[n..])
  {
    hide InBlock;
  }

  lemma LiteralFirst(s: string)
    requires s != [] && s[0] == '"'
    ensures Strip(s) == [s[0]] + Rest(s[1..], true, false)
  {
    hide InLiteral;
    var n := InLiteral(s[1..], false);
    assert First(s) == Literal(s[..1 + n]) && Source(First(s)) == s[..1 + n];
    assert Strip(s) == s[..1 + n] + Strip(s[1 + n..]);
    Shift(s, n, Strip(s[1 + n..]));
  }

  lemma Shift(s: string, n: nat, tail: string)
    requires s != [] && n < |s|
    ensures s[..1 + n] + tail == [s[0]] + (s[1..][..n] + tail)
    ensures s[1 + n..] == s[1..][n..]
  {
  }

  lemma LiteralStep(s: string, esc: bool)
    requires s != []
    ensures Rest(s, true, esc) == [s[0]] + (if esc then Rest(s[1..], true, false)
                                            else if s[0] == '\\' then Rest(s[1..], true, true)
                                            else Rest(s[1..], s[0] != '"', false))
  {
    hide Strip;
    var esc' := !esc && s[0] == '\\';
    var more := if !esc && s[0] == '"' then 0 else InLiteral(s[1..], esc');
    assert InLiteral(s, esc) == 1 + more;
    Shift(s, more, Strip(s[1 + more..]));
  }

  /** Bytes i to j of `after` are those of b, blanked. */
  ghost predicate Blanked(after: seq<char>, b: string, i: nat, j: nat) {
    |after| == |b| && i <= j <= |b| && forall k | i <= k < j :: after[k] == BlankChar(b[k])
  }

  /** The inner loop over a line comment, up to its newline. */
  method BlankLine(out: array<char>, i: nat, ghost b: string) returns (j: nat)
    requires |b| == out.Length && i + 1 < |b| && b[i] == '/' && b[i + 1] == '/' && out[i..] == b[i..]
    modifies out
    ensures i < j <= |b| && out[..i] == old(out[..i]) && out[j..] == b[j..]
    ensures Strip(b[i..]) == out[i..j] + Strip(b[j..])
  {
    hide Strip;
    j := i;
    while j < out.Length && out[j] != '\n'
      invariant i <= j <= |b| && InLine(b[i..]) == j - i + InLine(b[j..])
      invariant out[..i] == old(out[..i]) && out[j..] == b[j..]
      invariant Blanked(out[..], b, i, j)
    {
      assert b[j..][1..] == b[j + 1..] && out[j] == b[j];
      out[j] := ' ';
      j := j + 1;
    }
    assert j < |b| ==> b[j..][0] == out[j];
    LineDone(b, i, j, out[..]);
  }

  lemma LineDone(b: string, i: nat, j: nat, after: seq<char>)
    requires i + 1 < |b| && b[i] == '/' && b[i + 1] == '/' && j == i + InLine(b[i..])
    requires Blanked(after, b, i, j)
    ensures i < j && Strip(b[i..]) == after[i..j] + Strip(b[j..])
  {
    hide Strip;
    LineFirst(b[i..]);
    assert Blank(b[i..][..j - i]) == after[i..j] && b[i..][j - i..] == b[j..];
  }

  /** The loop over the inside of a block comment. */
  method BlankBody(out: array<char>, i: nat, ghost b: string) returns (j: nat)
    requires |b| == out.Length && i <= |b| && out[i..] == b[i..]
    modifies out
    ensures i <= j <= |b| && j == i + InBlock(b[i..])
    ensures out[..i] == old(out[..i]) && out[j..] == b[j..] && Blanked(out[..], b, i, j)
    ensures j + 1 < |b| ==> b[j] == '*' && b[j + 1] == '/'
  {
    hide InBlock, BlankChar;
    j := i;
    while j + 1 < out.Length && !(out[j] == '*' && out[j + 1] == '/')
      invariant i <= j <= |b| && InBlock(b[i..]) == j - i + InBlock(b[j..])
      invariant out[..i] == old(out[..i]) && out[j..] == b[j..]
      invariant Blanked(out[..], b, i, j)
    {
      SameBytes(out[j..], b, j);
      BlockStep(b, j);
      if out[j] != '\n' {
        out[j] := ' ';
      }
      j := j + 1;
    }
    if j + 1 < |b| {
      SameBytes(out[j..], b, j);
    }
    BlockStops(b, j);
  }

  lemma SameBytes(rest: seq<char>, b: string, j: nat)
    requires j + 1 < |b| && rest == b[j..]
    ensures rest[0] == b[j] && rest[1] == b[j + 1] && rest[1..] == b[j + 1..]
    ensures b[j] != '\n' ==> BlankChar(b[j]) == ' '
    ensures BlankChar('\n') == '\n'
  {
  }

  lemma BlockStep(b: string, j: nat)
    requires j + 1 < |b| && !(b[j] == '*' && b[j + 1] == '/')
    ensures InBlock(b[j..]) == 1 + InBlock(b[j + 1..])
  {
    assert b[j..][1..] == b[j + 1..];
  }

  lemma BlockStops(b: string, j: nat)
    requires j <= |b| && (j + 1 < |b| ==> b[j] == '*' && b[j + 1] == '/')
    ensures InBlock(b[j..]) == 0
  {
  }

  /** Both bytes of a comment mark. */
  method BlankMark(out: array<char>, k: nat)
    requires k + 1 < out.Length
    modifies out
    ensures out[..k] == old(out[..k]) && out[k] == out[k + 1] == ' ' && out[k + 2..] == old(out[k + 2..])
  {
    out[k], out[k + 1] := ' ', ' ';
  }

  /** A block comment: its opening mark, its inside, and its closing mark if it has one. */
  method BlankBlock(out: array<char>, i: nat, ghost b: string) returns (j: nat)
    requires |b| == out.Length && i + 1 < |b| && b[i] == '/' && b[i + 1] == '*' && out[i..] == b[i..]
    modifies out
    ensures i < j <= |b| && out[..i] == old(out[..i]) && out[j..] == b[j..]
    ensures Strip(b[i..]) == out[i..j] + Strip(b[j..])
  {
    hide Strip, InBlock, Blanked;
    ghost var start := out[..i];
    assert out[i + 2..] == out[i..][2..] && b[i + 2..] == b[i..][2..];
    BlankMark(out, i);
    ghost var mark := out[..];
    j := BlankBody(out, i + 2, b);
    KeepsFront(mark, out[..], i, i + 2);
    BlankedMore(mark, out[..], b, i, j);
    if j + 1 < out.Length {
      ghost var inside := out[..];
      TailBytes(inside, b, j);
      BlankMark(out, j);
      KeepsFront(inside, out[..], i, j);
      BlankedMark(inside, out[..], b, i, j);
      BlockDone(b, i, j + 2, out[..]);
      return j + 2;
    }
    BlockOpen(b, i, j, out[..]);
    return out.Length;
  }

  lemma KeepsFront(before: seq<char>, after: seq<char>, i: nat, j: nat)
    requires i <= j <= |before| == |after| && after[..j] == before[..j]
    ensures after[..i] == before[..i]
  {
    assert after[..j][..i] == after[..i] && before[..j][..i] == before[..i];
  }

  lemma TailBytes(inside: seq<char>, b: string, j: nat)
    requires j + 1 < |b| == |inside| && inside[j..] == b[j..]
    ensures inside[j + 2..] == b[j + 2..]
    ensures inside[j] == b[j] && inside[j + 1] == b[j + 1]
  {
    assert inside[j..][2..] == inside[j + 2..] && b[j..][2..] == b[j + 2..];
    assert inside[j..][0] == b[j..][0] && inside[j..][1] == b[j..][1];
  }

  /** The opening mark and the inside of a block comment. */
  lemma BlankedMore(mark: seq<char>, after: seq<char>, b: string, i: nat, j: nat)
    requires i + 2 <= j <= |b| == |mark| == |after| && b[i] == '/' && b[i + 1] == '*'
    requires mark[i] == mark[i + 1] == ' ' && after[..i + 2] == mark[..i + 2] && Blanked(after, b, i + 2, j)
    ensures Blanked(after, b, i, j)
  {
    assert after[..i + 2][i] == ' ' && after[..i + 2][i + 1] == ' ';
  }

  /** The closing mark after it. */
  lemma BlankedMark(inside: seq<char>, after: seq<char>, b: string, i: nat, j: nat)
    requires i <= j && j + 1 < |b| == |inside| == |after| && b[j] == '*' && b[j + 1] == '/'
    requires Blanked(inside, b, i, j) && after[..j] == inside[..j] && after[j] == after[j + 1] == ' '
    ensures Blanked(after, b, i, j + 2)
  {
    assert forall k | i <= k < j :: after[..j][k] == inside[..j][k];
  }

  lemma BlockDone(b: string, i: nat, j: nat, after: seq<char>)
    requires i + 1 < |b| && b[i] == '/' && b[i + 1] == '*'
    requires j == i + 4 + InBlock(b[i + 2..]) <= |b| && Blanked(after, b, i, j)
    ensures Strip(b[i..]) == after[i..j] + Strip(b[j..])
  {
    hide Strip, InBlock;
    BlockFirst(b[i..]);
    assert b[i..][2..] == b[i + 2..];
    assert Blank(b[i..][..j - i]) == after[i..j] && b[i..][j - i..] == b[j..];
  }

  lemma BlockOpen(b: string, i: nat, j: nat, after: seq<char>)
    requires i + 1 < |b| && b[i] == '/' && b[i + 1] == '*'
    requires j == i + 2 + InBlock(b[i + 2..]) && j + 1 >= |b|
    requires Blanked(after, b, i, j) && after[j..] == b[j..]
    ensures Strip(b[i..]) == after[i..] + Strip(b[|b|..])
  {
    hide Strip, InBlock;
    BlockFirst(b[i..]);
    assert b[i..][2..] == b[i + 2..];
    assert Blank(b[i..][..j - i]) == after[i..j] && b[i..][j - i..] == b[j..];
    StripNone();
    assert after[i..] == after[i..j] + after[j..];
  }

  lemma StripNone()
    ensures Strip([]) == []
  {
  }

  /** The first i bytes of the output are done, and the scan is inside a string or not, after a backslash or not. */
  ghost predicate Scanned(out: seq<char>, b: string, i: nat, inStr: bool, esc: bool) {
    && i <= |b| == |out|
    && out[i..] == b[i..]
    && Strip(b) == out[..i] + Rest(b[i..], inStr, esc)
    && (!inStr ==> !esc)
  }

  /** StripComments. */
  method StripComments(b: string) returns (out: array<char>)
    ensures fresh(out) && out[..] == Strip(b)
  {
    hide Scanned, Strip;
    out := new char[|b|](i requires 0 <= i < |b| => b[i]);
    assert out[..] == b;
    var inStr, esc := false, false;
    var i := 0;
    ScanStart(b);
    while i < out.Length
      invariant i <= out.Length == |b| && Scanned(out[..], b, i, inStr, esc)
    {
      var c := out[i];
      ghost var before, at := out[..], i;
      SameByte(before, b, i, inStr, esc);
      if !inStr && c == '/' && i + 1 < out.Length && out[i + 1] == '/' {
        i := BlankLine(out, i, b);
        ScanComment(before, out[..], b, at, i);
        continue;
      }
      if !inStr && c == '/' && i + 1 < out.Length && out[i + 1] == '*' {
        i := BlankBlock(out, i, b);
        ScanComment(before, out[..], b, at, i);
        continue;
      }
      ScanByte(before, b, i, inStr, esc);
      if inStr {
        if esc {
          esc := false;
        } else if c == '\\' {
          esc := true;
        } else if c == '"' {
          inStr := false;
        }
      } else if c == '"' {
        inStr := true;
      }
      i := i + 1;
    }
    ScanEnd(out[..], b, inStr, esc);
  }

  lemma ScanStart(b: string)
    ensures Scanned(b, b, 0, false, false)
  {
    assert b[0..] == b && b[..0] + Strip(b) == Strip(b);
  }

  lemma ScanEnd(out: seq<char>, b: string, inStr: bool, esc: bool)
    requires Scanned(out, b, |b|, inStr, esc)
    ensures out == Strip(b)
  {
    StripNone();
    assert b[|b|..] == [] && out[..|b|] + [] == out;
  }

  lemma SameByte(out: seq<char>, b: string, i: nat, inStr: bool, esc: bool)
    requires Scanned(out, b, i, inStr, esc)
    ensures |out| == |b| && i <= |b| && out[i..] == b[i..] && (!inStr ==> !esc)
    ensures forall k | i <= k < |b| :: out[k] == b[k]
  {
    assert forall k | i <= k < |b| :: out[k] == out[i..][k - i] && b[k] == b[i..][k - i];
  }

  lemma ScanComment(before: seq<char>, after: seq<char>, b: string, i: nat, j: nat)
    requires Scanned(before, b, i, false, false)
    requires i < j <= |b| == |after| && after[..i] == before[..i] && after[j..] == b[j..]
    requires Strip(b[i..]) == after[i..j] + Strip(b[j..])
    ensures Scanned(after, b, j, false, false)
  {
    hide Strip;
    assert after[..j] == after[..i] + after[i..j];
    assert before[..i] + (after[i..j] + Strip(b[j..])) == after[..j] + Strip(b[j..]);
  }

  lemma ScanByte(out: seq<char>, b: string, i: nat, inStr: bool, esc: bool)
    requires Scanned(out, b, i, inStr, esc) && i < |b|
    requires !inStr && b[i] == '/' && i + 1 < |b| ==> b[i + 1] != '/' && b[i + 1] != '*'
    ensures var esc' := inStr && !esc && b[i] == '\\';
            var inStr' := if inStr then esc || b[i] != '"' else b[i] == '"';
            Scanned(out, b, i + 1, inStr', esc')
  {
    hide Strip, Rest;
    var esc' := inStr && !esc && b[i] == '\\';
    var inStr' := if inStr then esc || b[i] != '"' else b[i] == '"';
    TailStep(out, b, i);
    ScanStep(b[i..], inStr, esc);
    OneMore(out, i, Rest(b[i + 1..], inStr', esc'));
  }

  lemma TailStep(out: seq<char>, b: string, i: nat)
    requires i < |b| == |out| && out[i..] == b[i..]
    ensures b[i..][0] == b[i] == out[i] && b[i..][1..] == b[i + 1..] == out[i + 1..]
    ensures i + 1 < |b| ==> b[i..][1] == b[i + 1]
  {
    assert out[i] == out[i..][0] && out[i..][1..] == out[i + 1..];
  }

  lemma OneMore(out: seq<char>, i: nat, rest: string)
    requires i < |out|
    ensures out[..i] + ([out[i]] + rest) == out[..i + 1] + rest
  {
  }

  /** A byte that does not open a comment. */
  lemma ScanStep(s: string, inStr: bool, esc: bool)
    requires s != [] && (!inStr ==> !esc)
    requires !inStr && s[0] == '/' && |s| > 1 ==> s[1] != '/' && s[1] != '*'
    ensures var esc' := inStr && !esc && s[0] == '\\';
            var inStr' := if inStr then esc || s[0] != '"' else s[0] == '"';
            Rest(s, inStr, esc) == [s[0]] + Rest(s[1..], inStr', esc')
  {
    hide Strip, InLiteral;
    if inStr {
      LiteralStep(s, esc);
    } else if s[0] == '"' {
      LiteralFirst(s);
    } else {
      PlainFirst(s);
    }
  }

  // ---- what stripping keeps and what it leaves ----

  function Sources(ts: seq<Token>): string {
    if ts == [] then [] else Source(ts[0]) + Sources(ts[1..])
  }

  /** The lexer loses nothing. */
  lemma {:induction false} TokensCover(s: string)
    ensures Sources(Tokens(s)) == s
    decreases |s|
  {
    if s != [] {
      hide First, Source, Tokens;
      var n := |Source(First(s))|;
      TokensStep(s, First(s));
      TokensCover(s[n..]);
      assert Tokens(s)[0] == First(s) && Tokens(s)[1..] == Tokens(s[n..]);
      assert s == s[..n] + s[n..];
    }
  }

  /** Byte for byte: newlines stay where they are and none appear, and any other byte is kept or blanked. */
  lemma {:induction false} StripBytes(s: string, k: nat)
    requires k < |s|
    ensures Strip(s)[k] == s[k] || (Strip(s)[k] == ' ' && s[k] != '\n')
    decreases |s|
  {
    var n := |Source(First(s))|;
    if k < n {
      assert Source(First(s))[k] == s[k];
    } else {
      StripBytes(s[n..], k - n);
    }
  }

  /** What a comment turns into for a lexer: blanks, and the kept byte on its own. */
  function Quiet(t: Token): seq<Token> {
    match t
    case Comment(text, kept) => Plains(Blank(text)) + Tokens(kept)
    case _ => [t]
  }

  function QuietAll(ts: seq<Token>): seq<Token> {
    if ts == [] then [] else Quiet(ts[0]) + QuietAll(ts[1..])
  }

  function Plains(text: string): seq<Token> {
    if text == [] then [] else [Plain(text[0])] + Plains(text[1..])
  }

  lemma TokensStep(s: string, t: Token)
    requires s != [] && First(s) == t
    ensures |Source(t)| <= |s| && Tokens(s) == [t] + Tokens(s[|Source(t)|..])
  {
  }

  lemma BlankHead(text: string)
    requires text != []
    ensures Blank(text) == [BlankChar(text[0])] + Blank(text[1..])
  {
  }

  /** A blanked text in front lexes to blanks, whatever follows. */
  lemma {:induction false} TokensOfBlank(text: string, rest: string)
    ensures Tokens(Blank(text) + rest) == Plains(Blank(text)) + Tokens(rest)
  {
    if text == [] {
      assert Blank(text) + rest == rest;
      assert Plains(Blank(text)) + Tokens(rest) == Tokens(rest);
    } else {
      hide Tokens, Blank;
      BlankHead(text);
      var c, more := BlankChar(text[0]), Blank(text[1..]);
      var s := Blank(text) + rest;
      assert s[0] == c && s[1..] == more + rest;
      TokensStep(s, Plain(c));
      TokensOfBlank(text[1..], rest);
      assert Blank(text)[0] == c && Blank(text)[1..] == more;
      assert [Plain(c)] + (Plains(more) + Tokens(rest)) == [Plain(c)] + Plains(more) + Tokens(rest);
    }
  }

  /** A string literal read at the front is read the same when only what follows it changes. */
  lemma {:induction false} SameLiteral(s: string, esc: bool, rest: string)
    requires rest == [] || InLiteral(s, esc) < |s|
    ensures InLiteral(s[..InLiteral(s, esc)] + rest, esc) == InLiteral(s, esc)
  {
    var n := InLiteral(s, esc);
    if s == [] {
      assert s[..n] + rest == [];
    } else {
      var s' := s[..n] + rest;
      assert s'[0] == s[0];
      if esc || s[0] != '"' {
        var esc' := !esc && s[0] == '\\';
        assert n == 1 + InLiteral(s[1..], esc');
        SameLiteral(s[1..], esc', rest);
        assert s'[1..] == s[1..][..n - 1] + rest;
      }
    }
  }

  lemma PlainStays(s: string)
    requires s != [] && First(s) == Plain(s[0])
    ensures First([s[0]] + Strip(s[1..])) == Plain(s[0])
  {
    var rest := Strip(s[1..]);
    if rest != [] {
      StripBytes(s[1..], 0);
      assert ([s[0]] + rest)[1] == rest[0];
    }
  }

  lemma LiteralStays(s: string, text: string)
    requires s != [] && First(s) == Literal(text)
    ensures |text| <= |s| && First(text + Strip(s[|text|..])) == Literal(text)
  {
    hide Strip;
    var m := InLiteral(s[1..], false);
    assert text == s[..1 + m];
    var rest := Strip(s[1 + m..]);
    SameLiteral(s[1..], false, rest);
    var s' := text + rest;
    assert s'[0] == '"' && s'[1..] == s[1..][..m] + rest;
    assert s'[..1 + m] == text;
  }

  /** One lexeme, stripped, with what follows it stripped too. */
  lemma FirstStripped(s: string)
    requires s != []
    ensures var t := First(s);
            var rest := Strip(s[|Source(t)|..]);
            Tokens(Rendered(t) + rest) == Quiet(t) + Tokens(rest)
  {
    hide First, Strip, Tokens, Blank;
    var t := First(s);
    var rest := Strip(s[|Source(t)|..]);
    FirstForms(s);
    match t {
      case Plain(c) =>
        PlainStays(s);
        TokensStep([c] + rest, t);
        assert ([c] + rest)[1..] == rest;
      case Literal(text) =>
        LiteralStays(s, text);
        TokensStep(text + rest, t);
        assert (text + rest)[|text|..] == rest;
      case Comment(text, kept) =>
        TokensOfBlank(text, kept + rest);
        assert Blank(text) + kept + rest == Blank(text) + (kept + rest);
        TokensNone();
        StripNone();
        KeptAlone(kept, rest);
        assert Plains(Blank(text)) + (Tokens(kept) + Tokens(rest)) == Plains(Blank(text)) + Tokens(kept) + Tokens(rest);
    }
  }

  lemma KeptAlone(kept: string, rest: string)
    requires kept == [] || rest == []
    ensures Tokens(kept + rest) == Tokens(kept) + Tokens(rest)
  {
    if kept == [] {
      assert kept + rest == rest && Tokens(kept) + Tokens(rest) == Tokens(rest);
    } else {
      assert kept + rest == kept && Tokens(kept) + Tokens(rest) == Tokens(kept);
    }
  }

  /** Lexing the stripped text gives the same lexemes, with every comment quietened. */
  lemma {:induction false} TokensOfStrip(s: string)
    ensures Tokens(Strip(s)) == QuietAll(Tokens(s))
    decreases |s|
  {
    if s != [] {
      hide First, Strip, Tokens, Quiet, Rendered, Source;
      var t := First(s);
      TokensStep(s, t);
      FirstIs(s, t);
      FirstStripped(s);
      TokensOfStrip(s[|Source(t)|..]);
      assert Tokens(s)[0] == t && Tokens(s)[1..] == Tokens(s[|Source(t)|..]);
    } else {
      StripNone();
    }
  }

  lemma TokensNone()
    ensures Tokens([]) == []
  {
  }

  /** The three shapes a first lexeme can have. */
  lemma FirstForms(s: string)
    requires s != []
    ensures First(s).Plain? ==> First(s) == Plain(s[0])
    ensures First(s).Comment? ==> |First(s).kept| <= 1
    ensures First(s).Comment? && First(s).kept != [] ==> |Source(First(s))| == |s| && s[|Source(First(s))|..] == []
  {
  }

  ghost predicate Commentless(ts: seq<Token>) {
    forall i | 0 <= i < |ts| :: !ts[i].Comment?
  }

  lemma {:induction false} PlainsCommentless(text: string)
    ensures Commentless(Plains(text))
  {
    if text != [] {
      PlainsCommentless(text[1..]);
    }
  }

  lemma ByteCommentless(kept: string)
    requires |kept| <= 1
    ensures Commentless(Tokens(kept))
  {
    if kept != [] {
      TokensStep(kept, First(kept));
      assert |Source(First(kept))| == 1 && kept[1..] == [];
    }
  }

  lemma {:induction false} QuietCommentless(s: string)
    ensures Commentless(QuietAll(Tokens(s)))
    decreases |s|
  {
    if s != [] {
      hide First, Strip, Tokens, Quiet, Source;
      var t := First(s);
      TokensStep(s, t);
      FirstForms(s);
      var rest := s[|Source(t)|..];
      QuietCommentless(rest);
      assert Tokens(s)[0] == t && Tokens(s)[1..] == Tokens(rest);
      QuietOne(t);
    } else {
      TokensNone();
    }
  }

  lemma QuietOne(t: Token)
    requires t.Comment? ==> |t.kept| <= 1
    ensures Commentless(Quiet(t))
  {
    hide Tokens, Plains;
    if t.Comment? {
      PlainsCommentless(Blank(t.text));
      ByteCommentless(t.kept);
    }
  }

  lemma RenderedSource(t: Token)
    requires !t.Comment?
    ensures Rendered(t) == Source(t)
  {
  }

  lemma {:induction false} CommentlessFixed(s: string)
    requires Commentless(Tokens(s))
    ensures Strip(s) == s
    decreases |s|
  {
    if s != [] {
      hide First, Strip, Tokens, Source, Rendered;
      var t := First(s);
      TokensStep(s, t);
      FirstIs(s, t);
      var rest := s[|Source(t)|..];
      assert Tokens(s)[0] == t;
      RenderedSource(t);
      assert forall i | 0 <= i < |Tokens(rest)| :: Tokens(rest)[i] == Tokens(s)[i + 1];
      CommentlessFixed(rest);
      assert s == s[..|Source(t)|] + rest;
    } else {
      StripNone();
    }
  }

  /** No comment is left for a lexer to find, and a second pass changes nothing. */
  lemma StripSettles(s: string)
    ensures Commentless(Tokens(Strip(s))) && Strip(Strip(s)) == Strip(s)
  {
    TokensOfStrip(s);
    QuietCommentless(s);
    CommentlessFixed(Strip(s));
  }
}
