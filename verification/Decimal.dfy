/** Base-10 integers as text: what strconv.AppendInt and FormatInt print and ParseInt reads. */
module Decimal {
  datatype Option<+T> = None | Some(value: T)

  predicate IsDigit(c: char) {
    '0' <= c <= '9'
  }

  predicate AllDigits(s: string) {
    forall i | 0 <= i < |s| :: IsDigit(s[i])
  }

  function DigitOf(c: char): nat
    requires IsDigit(c)
  {
    c as int - '0' as int
  }

  function DigitChar(d: nat): (c: char)
    requires d < 10
    ensures IsDigit(c) && DigitOf(c) == d
  {
    '0' + d as char
  }

  /** The value of a run of digits. */
  function ValueOf(s: string): nat
    requires AllDigits(s)
  {
    if s == [] then 0 else 10 * ValueOf(s[..|s| - 1]) + DigitOf(s[|s| - 1])
  }

  /** The digits of a natural number, without leading zeros. */
  function Digits(n: nat): (s: string)
    ensures AllDigits(s) && |s| > 0 && ValueOf(s) == n
    ensures s[0] == '0' <==> n == 0
    ensures n == 0 ==> s == "0"
  {
    if n < 10 then [DigitChar(n)]
    else
      var front := Digits(n / 10);
      var s := front + [DigitChar(n % 10)];
      assert s[..|s| - 1] == front;
      s
  }

  function IntText(n: int): (s: string)
    ensures |s| > 0 && (n >= 0 ==> AllDigits(s)) && (n < 0 ==> s[0] == '-' && AllDigits(s[1..]) && |s| > 1)
  {
    if n < 0 then "-" + Digits(-n) else Digits(n)
  }

  /** strconv.ParseUint in base 10, without its bound. */
  function ParseNat(s: string): Option<nat> {
    if s != [] && AllDigits(s) then Some(ValueOf(s)) else None
  }

  /** strconv.ParseInt in base 10, without its bound: an optional sign, then digits. */
  function ParseInt(s: string): Option<int> {
    if s != [] && s[0] == '-' then
      (match ParseNat(s[1..]) case Some(n) => (var m: int := n; Some(-m)) case None => None)
    else if s != [] && s[0] == '+' then
      (match ParseNat(s[1..]) case Some(n) => Some(n) case None => None)
    else
      (match ParseNat(s) case Some(n) => Some(n) case None => None)
  }

  lemma IntRoundTrip(n: int)
    ensures ParseInt(IntText(n)) == Some(n)
  {
    if n < 0 {
      assert IntText(n)[1..] == Digits(-n);
    } else {
      assert IntText(n)[0] == Digits(n)[0] && IsDigit(Digits(n)[0]);
    }
  }

  // ---- powers of two ----

  function Pow2(n: nat): int {
    if n == 0 then 1 else 2 * Pow2(n - 1)
  }

  lemma {:induction false} Pow2Monotone(m: nat, n: nat)
    requires m <= n
    ensures 0 < Pow2(m) <= Pow2(n)
    decreases n
  {
    if n > 0 {
      Pow2Monotone(if m < n then m else n - 1, n - 1);
    }
  }

  lemma {:induction false} Pow2Sum(m: nat, n: nat)
    ensures Pow2(m + n) == Pow2(m) * Pow2(n)
  {
    if m > 0 {
      Pow2Sum(m - 1, n);
    }
  }

  // ---- reading a number at the front of a text ----

  /** How many digits the text starts with. */
  function DigitRun(s: string): (n: nat)
    ensures n <= |s| && AllDigits(s[..n]) && (n < |s| ==> !IsDigit(s[n]))
  {
    if s != [] && IsDigit(s[0]) then
      var n := DigitRun(s[1..]);
      assert s[..n + 1] == [s[0]] + s[1..][..n];
      1 + n
    else 0
  }

  lemma {:induction false} DigitRunOf(s: string, rest: string)
    requires AllDigits(s) && (rest != [] ==> !IsDigit(rest[0]))
    ensures DigitRun(s + rest) == |s|
  {
    if s == [] {
      assert s + rest == rest;
    } else {
      assert (s + rest)[1..] == s[1..] + rest;
      DigitRunOf(s[1..], rest);
    }
  }
}
