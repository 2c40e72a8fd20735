/** Decimal rendering of integers, as Go's `%d` verb writes them, and the
    parser that reads such text back. */
module Decimal {

  predicate IsDigit(c: char) {
    '0' <= c <= '9'
  }

  function DigitChar(d: nat): (c: char)
    requires d < 10
    ensures IsDigit(c) && DigitValue(c) == d
  {
    (d + '0' as int) as char
  }

  function DigitValue(c: char): nat
    requires IsDigit(c)
  {
    c as int - '0' as int
  }

  predicate AllDigits(s: string) {
    forall i :: 0 <= i < |s| ==> IsDigit(s[i])
  }

  /** Digit text without superfluous leading zeros. */
  predicate Canonical(s: string) {
    |s| > 0 && AllDigits(s) && (s[0] == '0' ==> |s| == 1)
  }

  /** `n` in base ten, most significant digit first. */
  function NatToString(n: nat): (s: string)
    ensures Canonical(s)
    ensures s == "0" <==> n == 0
  {
    if n < 10 then [DigitChar(n)]
    else NatToString(n / 10) + [DigitChar(n % 10)]
  }

  /** The value of a string of digits. */
  function ParseNat(s: string): nat
    requires AllDigits(s)
  {
    if |s| == 0 then 0
    else ParseNat(s[..|s| - 1]) * 10 + DigitValue(s[|s| - 1])
  }

  lemma {:induction false} ParseNatToString(n: nat)
    ensures ParseNat(NatToString(n)) == n
  {
    var s := NatToString(n);
    if n >= 10 {
      ParseNatToString(n / 10);
      assert s[..|s| - 1] == NatToString(n / 10);
    }
  }

  lemma {:induction false} NatToStringParse(s: string)
    requires Canonical(s)
    ensures NatToString(ParseNat(s)) == s
  {
    if |s| > 1 {
      var init := s[..|s| - 1];
      assert init[0] == s[0];
      assert Canonical(init);
      NatToStringParse(init);
      LeadingDigitPositive(init);
      var n := ParseNat(s);
      assert n / 10 == ParseNat(init);
      assert n % 10 == DigitValue(s[|s| - 1]);
      assert s == init + [s[|s| - 1]];
    }
  }

  lemma LeadingDigitPositive(s: string)
    requires Canonical(s) && |s| > 0 && s[0] != '0'
    ensures ParseNat(s) > 0
  {
    if |s| > 1 {
      var init := s[..|s| - 1];
      assert init[0] == s[0];
      LeadingDigitPositive(init);
    }
  }

  /** `i` in base ten with a leading `-` when negative, as `%d` prints a Go int. */
  function IntToString(i: int): (s: string)
    ensures |s| > 0
    ensures s[0] == '-' <==> i < 0
    ensures Canonical(if i < 0 then s[1..] else s)
  {
    if i < 0 then
      var digits := NatToString(-i);
      assert ("-" + digits)[1..] == digits;
      "-" + digits
    else NatToString(i)
  }

  function ParseInt(s: string): int
    requires |s| > 0
    requires (s[0] == '-' && AllDigits(s[1..])) || AllDigits(s)
  {
    if s[0] == '-' then -(ParseNat(s[1..]) as int) else ParseNat(s)
  }

  lemma ParseIntToString(i: int)
    ensures var s := IntToString(i);
      ((s[0] == '-' && AllDigits(s[1..])) || AllDigits(s)) && ParseInt(s) == i
  {
    if i < 0 {
      ParseNatToString(-i);
      assert IntToString(i)[1..] == NatToString(-i);
    } else {
      ParseNatToString(i);
    }
  }
}
