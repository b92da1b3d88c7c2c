/** Decimal rendering of unsigned integers as Rust's `{}` and `{:02}` format
    specifiers write them, with the parser that reads the digits back. */
module Decimal {

  predicate IsDigit(c: char)
  {
    '0' <= c <= '9'
  }

  predicate AllDigits(s: string)
  {
    forall i :: 0 <= i < |s| ==> IsDigit(s[i])
  }

  function DigitChar(d: nat): (c: char)
    requires d < 10
    ensures IsDigit(c)
  {
    ('0' as int + d) as char
  }

  function DigitValue(c: char): (d: nat)
    requires IsDigit(c)
    ensures d < 10
    ensures DigitChar(d) == c
  {
    c as int - '0' as int
  }

  /** `{}` of an unsigned integer: its decimal digits with no leading zero. */
  function Digits(n: nat): (r: string)
    ensures |r| >= 1
    ensures AllDigits(r)
    ensures r[0] == '0' ==> n == 0 && |r| == 1
    ensures n < 10 <==> |r| == 1
    decreases n
  {
    if n < 10 then [DigitChar(n)] else Digits(n / 10) + [DigitChar(n % 10)]
  }

  /** Reads a string of decimal digits as a number. */
  function ParseDigits(s: string): nat
    requires AllDigits(s)
  {
    if s == [] then 0 else ParseDigits(s[..|s| - 1]) * 10 + DigitValue(s[|s| - 1])
  }

  /** Reading back the digits that `Digits` writes gives the number again. */
  lemma {:induction false} DigitsRoundTrip(n: nat)
    ensures ParseDigits(Digits(n)) == n
    decreases n
  {
    var r := Digits(n);
    if n >= 10 {
      DigitsRoundTrip(n / 10);
      assert r[..|r| - 1] == Digits(n / 10);
    }
  }

  /** `{:02}`: the digits, left-padded with zeros to a width of at least two. */
  function Pad2(n: nat): (r: string)
    ensures AllDigits(r)
    ensures |r| >= 2
    ensures n < 100 ==> |r| == 2
    ensures n < 10 ==> r == ['0'] + Digits(n)
    ensures n >= 10 ==> r == Digits(n)
  {
    var s := Digits(n);
    if |s| < 2 then ['0'] + s else s
  }

  /** The padded field still reads back as the number. */
  lemma Pad2RoundTrip(n: nat)
    ensures ParseDigits(Pad2(n)) == n
  {
    DigitsRoundTrip(n);
    var s := Digits(n);
    if |s| < 2 {
      var r := ['0'] + s;
      assert r[..|r| - 1] == ['0'];
      assert ParseDigits(['0']) == 0 by {
        assert ['0'][..0] == [];
      }
    }
  }
}
