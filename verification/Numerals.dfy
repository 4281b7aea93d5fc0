/** Unsigned numbers as text: what Rust's `{}` and `{:x}` print and `str::parse` reads back. */
module Numerals {
  import opened Common

  /** `0`-`9`, then `a`-`f`. */
  function Digit(d: nat): (c: char)
    requires d < 16
    ensures DigitValue(c) == d
  {
    if d < 10 then '0' + d as char else 'a' + (d - 10) as char
  }

  function DigitValue(c: char): nat {
    if '0' <= c <= '9' then (c - '0') as nat
    else if 'a' <= c <= 'f' then (c - 'a') as nat + 10
    else 99
  }

  predicate AllDigits(s: string, base: nat) {
    forall i :: 0 <= i < |s| ==> DigitValue(s[i]) < base
  }

  lemma Divide(n: nat, base: nat)
    requires 2 <= base
    ensures n / base * base + n % base == n && 0 <= n % base < base
    ensures n >= base ==> n / base < n
  {
  }

  /** The digits of `n`, most significant first and without leading zeros. */
  function Print(n: nat, base: nat): (s: string)
    requires 2 <= base <= 16
    ensures |s| > 0 && AllDigits(s, base)
  {
    Divide(n, base);
    if n < base then [Digit(n)] else Print(n / base, base) + [Digit(n % base)]
  }

  /** The number that a string of digits denotes. */
  function Value(s: string, base: nat): nat {
    if s == [] then 0 else Value(s[..|s| - 1], base) * base + DigitValue(s[|s| - 1])
  }

  lemma ValueSnoc(s: string, c: char, base: nat)
    ensures Value(s + [c], base) == Value(s, base) * base + DigitValue(c)
  {
    assert (s + [c])[..|s|] == s;
  }

  lemma {:induction false} ValuePrint(n: nat, base: nat)
    requires 2 <= base <= 16
    ensures Value(Print(n, base), base) == n
  {
    Divide(n, base);
    if n >= base {
      ValuePrint(n / base, base);
      PrintStep(n, n / base, n % base, base);
    } else {
      PrintOne(n, base);
    }
  }

  lemma PrintOne(n: nat, base: nat)
    requires n < base <= 16
    ensures Value([Digit(n)], base) == n
  {
    ValueSnoc([], Digit(n), base);
    assert [] + [Digit(n)] == [Digit(n)];
  }

  lemma PrintStep(n: nat, q: nat, r: nat, base: nat)
    requires 2 <= base <= 16 && n >= base && q == n / base && r == n % base
    requires Value(Print(q, base), base) == q
    ensures Value(Print(n, base), base) == q * base + r
  {
    ValueSnoc(Print(q, base), Digit(r), base);
  }

  lemma PrintInjective(m: nat, n: nat, base: nat)
    requires 2 <= base <= 16
    ensures Print(m, base) == Print(n, base) ==> m == n
  {
    ValuePrint(m, base);
    ValuePrint(n, base);
  }

  /** `str::parse` of an unsigned type below `bound`: one `+` is allowed, then digits only. */
  function Parse(s: string, bound: nat): Option<nat> {
    var digits := if s != [] && s[0] == '+' then s[1..] else s;
    if digits != [] && AllDigits(digits, 10) && Value(digits, 10) < bound then Some(Value(digits, 10)) else None
  }

  lemma ParsePrint(n: nat, bound: nat)
    ensures Parse(Print(n, 10), bound) == if n < bound then Some(n) else None
  {
    ValuePrint(n, 10);
    var s := Print(n, 10);
    assert DigitValue(s[0]) < 10;
  }
}
