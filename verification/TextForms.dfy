/** The textual conveniences of Go's strings and strconv packages that the setup code leans on. */
module TextForms {
  import opened Decimal

  /** unicode.IsSpace. */
  predicate IsSpace(c: char) {
    var u := c as int;
    9 <= u <= 13 || u == 32 || u == 0x85 || u == 0xA0 || u == 0x1680 || 0x2000 <= u <= 0x200A ||
    u == 0x2028 || u == 0x2029 || u == 0x202F || u == 0x205F || u == 0x3000
  }

  /** The white space of Unicode. */
  const SPACES := {
    9, 10, 11, 12, 13, 32, 0x85, 0xA0, 0x1680, 0x2000, 0x2001, 0x2002, 0x2003, 0x2004, 0x2005, 0x2006, 0x2007, 0x2008,
    0x2009, 0x200A, 0x2028, 0x2029, 0x202F, 0x205F, 0x3000}

  lemma SpaceMeans(c: char)
    ensures IsSpace(c) <==> c as int in SPACES
  {
  }

  function TrimLeft(s: string): string {
    if s != [] && IsSpace(s[0]) then TrimLeft(s[1..]) else s
  }

  function TrimRight(s: string): string {
    if s != [] && IsSpace(s[|s| - 1]) then TrimRight(s[..|s| - 1]) else s
  }

  /** strings.TrimSpace. */
  function Trim(s: string): string {
    TrimRight(TrimLeft(s))
  }

  const TRUE_TEXTS := {"1", "t", "T", "TRUE", "true", "True"}
  const FALSE_TEXTS := {"0", "f", "F", "FALSE", "false", "False"}

  /** strconv.ParseBool. */
  function ParseBool(s: string): Option<bool> {
    if s in TRUE_TEXTS then Some(true) else if s in FALSE_TEXTS then Some(false) else None
  }

  /** A text that neither starts nor ends with white space is trimmed already. */
  lemma TrimSolid(s: string)
    requires s != [] && !IsSpace(s[0]) && !IsSpace(s[|s| - 1])
    ensures Trim(s) == s
  {
  }

  predicate Blank(s: string) {
    forall i | 0 <= i < |s| :: IsSpace(s[i])
  }

  /** A text with nothing to trim. */
  predicate Solid(s: string) {
    s == [] || (!IsSpace(s[0]) && !IsSpace(s[|s| - 1]))
  }

  lemma {:induction false} TrimLeftPadded(lead: string, s: string)
    requires Blank(lead) && (s != [] ==> !IsSpace(s[0]))
    ensures TrimLeft(lead + s) == s
  {
    if lead == [] {
      assert lead + s == s;
    } else {
      assert (lead + s)[1..] == lead[1..] + s;
      TrimLeftPadded(lead[1..], s);
    }
  }

  lemma {:induction false} TrimRightPadded(s: string, trail: string)
    requires Blank(trail) && (s != [] ==> !IsSpace(s[|s| - 1]))
    ensures TrimRight(s + trail) == s
  {
    if trail == [] {
      assert s + trail == s;
    } else {
      var t := trail[..|trail| - 1];
      assert (s + trail)[..|s + trail| - 1] == s + t;
      TrimRightPadded(s, t);
    }
  }

  lemma {:induction false} TrimBlank(s: string)
    requires Blank(s)
    ensures TrimLeft(s) == []
  {
    if s != [] {
      TrimBlank(s[1..]);
    }
  }

  /** Trimming takes the white space around a text and nothing else. */
  lemma TrimPadded(lead: string, s: string, trail: string)
    requires Blank(lead) && Blank(trail) && Solid(s)
    ensures Trim(lead + s + trail) == s
  {
    if s == [] {
      assert lead + s + trail == lead + trail;
      TrimBlank(lead + trail);
    } else {
      assert lead + s + trail == lead + (s + trail);
      TrimLeftPadded(lead, s + trail);
      TrimRightPadded(s, trail);
    }
  }

  lemma {:induction false} TrimLeftEnds(s: string)
    ensures var t := TrimLeft(s); |t| <= |s| && t == s[|s| - |t|..] && (t != [] ==> !IsSpace(t[0]))
  {
    if s != [] && IsSpace(s[0]) {
      TrimLeftEnds(s[1..]);
    }
  }

  lemma {:induction false} TrimRightEnds(s: string)
    ensures var t := TrimRight(s); |t| <= |s| && t == s[..|t|] && (t != [] ==> !IsSpace(t[|t| - 1]))
  {
    if s != [] && IsSpace(s[|s| - 1]) {
      TrimRightEnds(s[..|s| - 1]);
    }
  }

  /** Trimming twice is trimming once. */
  lemma TrimTwice(s: string)
    ensures Trim(Trim(s)) == Trim(s)
  {
    TrimLeftEnds(s);
    TrimRightEnds(TrimLeft(s));
    if Trim(s) != [] {
      TrimSolid(Trim(s));
    }
  }
}
