/** Positional numerals, as `std::ostream` prints unsigned integers in decimal and in
    lower-case hexadecimal, and the text-splitting facts that make numeral fields unambiguous. */
module Numerals {

  const U64: int := 0x1_0000_0000_0000_0000
  const MAX_U64: int := U64 - 1

  /** A sum cut to 64 bits. */
  function Saturate(n: nat): (r: nat) { if n <= MAX_U64 then n else MAX_U64 }

  predicate IsBase(base: nat) {
    base == 10 || base == 16
  }

  /** The value of a digit character, or -1 for a character that is no digit in this base. */
  function DigitValue(c: char, base: nat): (v: int)
    requires IsBase(base)
    ensures -1 <= v < base
  {
    if '0' <= c <= '9' then c as int - 48
    else if base == 16 && 'a' <= c <= 'f' then c as int - 87
    else -1
  }

  predicate IsDigit(c: char, base: nat)
    requires IsBase(base)
  {
    DigitValue(c, base) >= 0
  }

  function DigitChar(d: nat, base: nat): (c: char)
    requires IsBase(base) && d < base
    ensures DigitValue(c, base) == d
  {
    if d < 10 then (48 + d) as char else (87 + d) as char
  }

  predicate AllDigits(s: string, base: nat)
    requires IsBase(base)
  {
    forall i :: 0 <= i < |s| ==> IsDigit(s[i], base)
  }

  /** The number a digit string denotes, most significant digit first. */
  function Value(s: string, base: nat): (n: nat)
    requires IsBase(base) && AllDigits(s, base)
  {
    if s == [] then 0
    else Value(s[..|s| - 1], base) * base + DigitValue(s[|s| - 1], base)
  }

  /** Printing without leading zeros; reading the text back gives the number. */
  function Print(n: nat, base: nat): (s: string)
    requires IsBase(base)
    ensures |s| > 0 && AllDigits(s, base)
    ensures Value(s, base) == n
  {
    if n < base then
      [DigitChar(n, base)]
    else
      var front := Print(n / base, base);
      var s := front + [DigitChar(n % base, base)];
      assert s[..|s| - 1] == front;
      s
  }

  function Decimal(n: nat): (s: string)
    ensures |s| > 0 && AllDigits(s, 10) && Value(s, 10) == n
  {
    Print(n, 10)
  }

  function Hex(n: nat): (s: string)
    ensures |s| > 0 && AllDigits(s, 16) && Value(s, 16) == n
  {
    Print(n, 16)
  }

  /** A text that ends in digits splits at its last non-digit in one way only. */
  lemma SplitAtLastNonDigit(a: string, p: char, x: string, b: string, q: char, y: string, base: nat)
    requires IsBase(base) && AllDigits(x, base) && AllDigits(y, base)
    requires !IsDigit(p, base) && !IsDigit(q, base)
    requires a + [p] + x == b + [q] + y
    ensures a == b && p == q && x == y
  {
    var s, t := a + [p] + x, b + [q] + y;
    assert s[|a|] == p && forall i :: |a| < i < |s| ==> s[i] == x[i - |a| - 1];
    assert t[|b|] == q && forall i :: |b| < i < |t| ==> t[i] == y[i - |b| - 1];
    assert |a| == |b|;
    assert s[..|a|] == a && t[..|b|] == b;
    assert s[|a| + 1..] == x && t[|b| + 1..] == y;
  }

  /** A text followed by a separator and a numeral determines both. */
  lemma NumeralField(a: string, m: nat, b: string, n: nat, base: nat, sep: char)
    requires IsBase(base) && !IsDigit(sep, base)
    requires a + [sep] + Print(m, base) == b + [sep] + Print(n, base)
    ensures a == b && m == n
  {
    SplitAtLastNonDigit(a, sep, Print(m, base), b, sep, Print(n, base), base);
  }

  lemma DropLast(a: string, b: string, x: char, y: char)
    requires a + [x] == b + [y]
    ensures a == b && x == y
  {
    assert (a + [x])[|a|] == x && (b + [y])[|b|] == y;
    assert (a + [x])[..|a|] == a && (b + [y])[..|b|] == b;
  }
}
