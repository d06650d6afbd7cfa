/** Decimal numbers as text, the way `%d` prints and scans them. */
module Decimal {
  import opened Prelude

  function DigitChar(d: nat): char
    requires d < 10
  {
    '0' + d as char
  }

  predicate IsDigit(c: char) {
    '0' <= c <= '9'
  }

  function DigitValue(c: char): nat
    requires IsDigit(c)
  {
    (c - '0') as nat
  }

  function Digits(n: nat): (s: string)
    ensures s != [] && forall i :: 0 <= i < |s| ==> IsDigit(s[i])
  {
    if n < 10 then [DigitChar(n)] else Digits(n / 10) + [DigitChar(n % 10)]
  }

  /** Digit by digit, the most significant first. */
  lemma DigitsAppend(n: nat, d: nat)
    requires d < 10
    ensures Digits(if n == 0 then d else 10 * n + d) == (if n == 0 then [] else Digits(n)) + ['0' + d as char]
  {
  }

  function Value(s: string): nat
    requires forall i :: 0 <= i < |s| ==> IsDigit(s[i])
  {
    if s == [] then 0 else 10 * Value(s[..|s| - 1]) + DigitValue(s[|s| - 1])
  }

  lemma {:induction false} DigitsRoundTrip(n: nat)
    ensures Value(Digits(n)) == n
  {
    if n >= 10 {
      DigitsRoundTrip(n / 10);
      assert Digits(n)[..|Digits(n)| - 1] == Digits(n / 10);
    } else {
      assert Digits(n)[..0] == [];
    }
  }

  lemma DigitsInjective(n: nat, m: nat)
    requires Digits(n) == Digits(m)
    ensures n == m
  {
    DigitsRoundTrip(n);
    DigitsRoundTrip(m);
  }

  /** How many leading characters are digits. */
  function DigitRun(s: string): (k: nat)
    ensures k <= |s| && (forall i :: 0 <= i < k ==> IsDigit(s[i])) && (k < |s| ==> !IsDigit(s[k]))
  {
    if s == [] || !IsDigit(s[0]) then 0 else 1 + DigitRun(s[1..])
  }

  /** Scanning an unsigned number of a given range: leading digits, at least one, no overflow; the rest is ignored. */
  function Scanned(s: string, limit: nat): Option<nat> {
    var k := DigitRun(s);
    if k == 0 || Value(s[..k]) >= limit then None else Some(Value(s[..k]))
  }

  /** The digits at the front of a text are all there are before the first other character. */
  lemma {:induction false} DigitRunIs(digits: string, after: string)
    requires forall i :: 0 <= i < |digits| ==> IsDigit(digits[i])
    requires after == "" || !IsDigit(after[0])
    ensures DigitRun(digits + after) == |digits|
    decreases |digits|
  {
    if digits == [] {
      assert digits + after == after;
    } else {
      DigitRunIs(digits[1..], after);
      assert (digits + after)[1..] == digits[1..] + after;
    }
  }

  lemma {:induction false} AllDigitsRun(s: string)
    requires forall i :: 0 <= i < |s| ==> IsDigit(s[i])
    ensures DigitRun(s) == |s|
  {
    if s != [] { AllDigitsRun(s[1..]); }
  }

  lemma ScanPrinted(n: nat, limit: nat)
    ensures Scanned(Digits(n), limit) == if n < limit then Some(n) else None
  {
    AllDigitsRun(Digits(n));
    DigitsRoundTrip(n);
    assert Digits(n)[..|Digits(n)|] == Digits(n);
  }

  /** A number, a separator that is no digit, and anything: the number is determined by the text. */
  lemma NumberedPrefix(n: nat, m: nat, sep: char, rest: string)
    requires !IsDigit(sep)
    ensures Digits(n) + [sep] <= Digits(m) + [sep] + rest <==> n == m
  {
    var a, b := Digits(n) + [sep], Digits(m) + [sep] + rest;
    if a <= b {
      assert forall i :: 0 <= i < |Digits(n)| ==> b[i] == Digits(n)[i];
      assert b[|Digits(n)|] == sep && b[|Digits(m)|] == sep;
      assert |Digits(n)| == |Digits(m)|;
      assert Digits(n) == b[..|Digits(n)|] == Digits(m);
      DigitsInjective(n, m);
    }
  }
}
