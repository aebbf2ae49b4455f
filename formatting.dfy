/**
 * Decimal formatting of a non-negative `int`, as string interpolation
 * (`$"{i}"`) renders it: the digits of the number, most significant first,
 * with no sign, no group separators and no leading zeros.
 *
 * The partner of the formatter is a digit parser; the two are proved to be
 * inverse on all numbers and on all canonical digit strings.
 */
module Formatting {

  predicate IsDigit(c: char)
  {
    '0' <= c <= '9'
  }

  function DigitChar(d: nat): (c: char)
    requires d < 10
    ensures IsDigit(c) && (c as int) - ('0' as int) == d
  {
    ('0' as int + d) as char
  }

  function DigitValue(c: char): (d: nat)
    requires IsDigit(c)
    ensures d < 10 && DigitChar(d) == c
  {
    (c as int) - ('0' as int)
  }

  predicate AllDigits(s: string)
  {
    forall k :: 0 <= k < |s| ==> IsDigit(s[k])
  }

  /** A digit string as the formatter produces it: non-empty, no leading zero. */
  predicate Canonical(s: string)
  {
    |s| >= 1 && AllDigits(s) && (|s| > 1 ==> s[0] != '0')
  }

  /** The decimal representation of `n`. */
  function NatToString(n: nat): (s: string)
    ensures Canonical(s)
    ensures |s| == 1 <==> n < 10
  {
    if n < 10 then [DigitChar(n)]
    else NatToString(n / 10) + [DigitChar(n % 10)]
  }

  /** The number a string of decimal digits denotes, most significant first. */
  function ParseDigits(s: string): (n: nat)
    requires AllDigits(s)
  {
    if |s| == 0 then 0
    else 10 * ParseDigits(s[..|s| - 1]) + DigitValue(s[|s| - 1])
  }

  lemma {:induction false} ParseNatToString(n: nat)
    ensures ParseDigits(NatToString(n)) == n
  {
    if n >= 10 {
      var s := NatToString(n);
      assert s[..|s| - 1] == NatToString(n / 10);
      ParseNatToString(n / 10);
    }
  }

  lemma {:induction false} ParseAtLeastLeadingDigit(s: string)
    requires |s| >= 1 && AllDigits(s)
    ensures ParseDigits(s) >= DigitValue(s[0])
  {
    if |s| > 1 {
      ParseAtLeastLeadingDigit(s[..|s| - 1]);
    }
  }

  lemma DivMod10(q: nat, d: nat)
    requires d < 10
    ensures (10 * q + d) / 10 == q && (10 * q + d) % 10 == d
  {
  }

  lemma {:induction false} NatToStringParse(s: string)
    requires Canonical(s)
    ensures NatToString(ParseDigits(s)) == s
  {
    if |s| > 1 {
      var p, last := s[..|s| - 1], s[|s| - 1];
      assert p[0] == s[0] && AllDigits(p);
      ParseAtLeastLeadingDigit(p);
      var q, d := ParseDigits(p), DigitValue(last);
      assert q >= 1;
      assert ParseDigits(s) == 10 * q + d;
      DivMod10(q, d);
      NatToStringParse(p);
      assert NatToString(10 * q + d) == NatToString(q) + [DigitChar(d)];
      assert s == p + [last];
    }
  }

  /** Distinct numbers are formatted differently. */
  lemma NatToStringInjective(a: nat, b: nat)
    ensures NatToString(a) == NatToString(b) <==> a == b
  {
    if NatToString(a) == NatToString(b) {
      ParseNatToString(a);
      ParseNatToString(b);
    }
  }
}
