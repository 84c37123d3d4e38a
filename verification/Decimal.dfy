/**
  Decimal numerals: what ll2string and "%lld" print, and what atoi, atoll and
  strtol read back. Numbers are unbounded.
*/
module Decimal {
  import opened Sds

  predicate IsDigit(c: char) {
    '0' <= c <= '9'
  }

  function DigitChar(d: nat): (c: char)
    requires d < 10
    ensures IsDigit(c) && DigitValue(c) == d
  {
    '0' + d as char
  }

  function DigitValue(c: char): nat
    requires IsDigit(c)
  {
    (c - '0') as nat
  }

  /** ll2string on a non-negative number. */
  function Print(n: nat): (s: string)
    ensures |s| >= 1 && AllDigits(s)
  {
    if n < 10 then [DigitChar(n)] else Print(n / 10) + [DigitChar(n % 10)]
  }

  predicate AllDigits(s: string) {
    forall i :: 0 <= i < |s| ==> IsDigit(s[i])
  }

  /** The number of leading digits. */
  function DigitSpan(s: string): (k: nat)
    ensures k <= |s| && AllDigits(s[..k])
    ensures k < |s| ==> !IsDigit(s[k])
  {
    if s == [] || !IsDigit(s[0]) then 0
    else
      assert s[..1 + DigitSpan(s[1..])] == [s[0]] + s[1..][..DigitSpan(s[1..])];
      1 + DigitSpan(s[1..])
  }

  function Value(s: string): nat
    requires AllDigits(s)
  {
    if s == [] then 0 else 10 * Value(s[..|s| - 1]) + DigitValue(s[|s| - 1])
  }

  /** atoi, atoll, strtol(_, NULL, 10): blanks, an optional sign, then digits. */
  function Atoi(s: string): int {
    if s != [] && IsSpace(s[0]) then Atoi(s[1..])
    else if s != [] && s[0] == '-' then -(Value(s[1..][..DigitSpan(s[1..])]) as int)
    else if s != [] && s[0] == '+' then Value(s[1..][..DigitSpan(s[1..])])
    else Value(s[..DigitSpan(s)])
  }

  lemma {:induction false} ValuePrint(n: nat)
    ensures Value(Print(n)) == n
  {
    if n >= 10 {
      ValuePrint(n / 10);
      assert Print(n)[..|Print(n)| - 1] == Print(n / 10);
    }
  }

  lemma {:induction false} DigitSpanStops(s: string, rest: string)
    requires AllDigits(s) && (rest == [] || !IsDigit(rest[0]))
    ensures DigitSpan(s + rest) == |s|
  {
    if s == [] {
      assert s + rest == rest;
    } else {
      assert (s + rest)[1..] == s[1..] + rest;
      DigitSpanStops(s[1..], rest);
    }
  }

  /** Reading back what was printed, up to the first character that is not a digit. */
  lemma AtoiPrint(n: nat, rest: string)
    requires rest == [] || !IsDigit(rest[0])
    ensures Atoi(Print(n) + rest) == n
  {
    var s := Print(n) + rest;
    DigitSpanStops(Print(n), rest);
    assert s[..|Print(n)|] == Print(n);
    assert IsDigit(s[0]);
    ValuePrint(n);
  }
}
