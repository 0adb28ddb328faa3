/**
 * Decimal integer text as the Go runtime reads and writes it: the syntax
 * strconv.Atoi accepts (an optional sign and one or more decimal digits) and
 * the `%d` rendering of fmt. Integers are mathematical: the range check of
 * Atoi is not modelled.
 */
module Decimal {

  predicate IsDigit(c: char) { '0' <= c <= '9' }

  /** One or more decimal digits and nothing else. */
  predicate AllDigits(s: string) {
    |s| > 0 && forall i :: 0 <= i < |s| ==> IsDigit(s[i])
  }

  /** The syntax strconv.Atoi accepts. */
  predicate AtoiAccepts(s: string) {
    AllDigits(s) || (|s| > 1 && (s[0] == '+' || s[0] == '-') && AllDigits(s[1..]))
  }

  /** The value of a run of decimal digits, most significant first. */
  function DigitsValue(s: string): nat
    requires forall i :: 0 <= i < |s| ==> IsDigit(s[i])
    decreases |s|
  {
    if s == [] then 0
    else
      assert IsDigit(s[|s| - 1]);
      DigitsValue(s[..|s| - 1]) * 10 + (s[|s| - 1] as int - '0' as int)
  }

  /** The integer strconv.Atoi returns for text it accepts: only a leading
      minus sign makes it negative. */
  function Atoi(s: string): (r: int)
    requires AtoiAccepts(s)
    ensures s[0] != '-' ==> r >= 0
    ensures r < 0 ==> s[0] == '-'
  {
    if s[0] == '-' then -(DigitsValue(s[1..]) as int)
    else if s[0] == '+' then DigitsValue(s[1..])
    else DigitsValue(s)
  }

  /** A leading zero does not change the value of a run of digits. */
  lemma {:induction false} LeadingZeroValue(s: string)
    requires forall i :: 0 <= i < |s| ==> IsDigit(s[i])
    ensures forall i :: 0 <= i < |"0" + s| ==> IsDigit(("0" + s)[i])
    ensures DigitsValue("0" + s) == DigitsValue(s)
    decreases |s|
  {
    var z := "0" + s;
    assert forall i :: 0 <= i < |z| ==> IsDigit(z[i]) by {
      forall i | 0 <= i < |z|
        ensures IsDigit(z[i])
      {
        if i > 0 {
          assert z[i] == s[i - 1];
        }
      }
    }
    if s == [] {
      assert z == ['0'];
      assert z[..0] == [];
    } else {
      var init := s[..|s| - 1];
      LeadingZeroValue(init);
      assert z[..|z| - 1] == "0" + init;
      assert z[|z| - 1] == s[|s| - 1];
    }
  }

  /** Atoi reads an explicit plus sign as no sign, a minus sign as negation,
      and ignores leading zeros. */
  lemma AtoiSignsAndZeros(s: string)
    requires AllDigits(s)
    ensures AtoiAccepts("+" + s) && Atoi("+" + s) == Atoi(s)
    ensures AtoiAccepts("-" + s) && Atoi("-" + s) == -Atoi(s)
    ensures AtoiAccepts("0" + s) && Atoi("0" + s) == Atoi(s)
  {
    assert ("+" + s)[1..] == s;
    assert ("-" + s)[1..] == s;
    LeadingZeroValue(s);
  }

  function DigitChar(d: nat): (c: char)
    requires d < 10
    ensures IsDigit(c) && c as int - '0' as int == d
  {
    ('0' as int + d) as char
  }

  /** `%d` of a non-negative integer: digits only, no leading zero except for 0 itself. */
  function NatToString(n: nat): (r: string)
    ensures AllDigits(r)
    ensures r[0] == '0' ==> r == "0"
    decreases n
  {
    if n < 10 then [DigitChar(n)] else NatToString(n / 10) + [DigitChar(n % 10)]
  }

  /** `%d` of an integer. */
  function IntToString(i: int): (r: string)
    ensures '.' !in r && r != []
  {
    if i < 0 then "-" + NatToString(-i) else NatToString(i)
  }

  lemma {:induction false} NatToStringValue(n: nat)
    ensures DigitsValue(NatToString(n)) == n
    decreases n
  {
    var s := NatToString(n);
    if n >= 10 {
      NatToStringValue(n / 10);
      assert s[..|s| - 1] == NatToString(n / 10);
    }
  }

  /** Rendering with `%d` and reading back with Atoi is the identity. */
  lemma {:induction false} IntToStringRoundTrip(i: int)
    ensures AtoiAccepts(IntToString(i)) && Atoi(IntToString(i)) == i
  {
    var s := IntToString(i);
    if i < 0 {
      NatToStringValue(-i);
      assert s[1..] == NatToString(-i);
    } else {
      NatToStringValue(i);
    }
  }

  /** Distinct integers have distinct `%d` renderings. */
  lemma IntToStringInjective(a: int, b: int)
    ensures IntToString(a) == IntToString(b) ==> a == b
  {
    IntToStringRoundTrip(a);
    IntToStringRoundTrip(b);
  }
}
