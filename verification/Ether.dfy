/** `format_ether`: an amount in wei as a decimal text in ETH. */
module Ether {
  import opened Common
  import opened Numerals
  import Strings

  function Pow10(n: nat): (p: nat)
    ensures p > 0
  {
    if n == 0 then 1 else 10 * Pow10(n - 1)
  }

  function Zeros(n: nat): (s: string)
    ensures |s| == n && forall i :: 0 <= i < n ==> s[i] == '0'
  {
    seq(n, i => '0')
  }

  function TrimZeros(s: string): (t: string)
    ensures t <= s
    decreases |s|
  {
    if s != [] && s[|s| - 1] == '0' then TrimZeros(s[..|s| - 1]) else s
  }

  /** 10^18 wei are one ETH; six decimals are shown below one ETH, and four from there on. */
  function FormatEther(wei: nat): string {
    Format(wei, 18, 6, 4)
  }

  /** `scale` is the number of decimals there are, `small` and `large` how many of them are shown. */
  function Format(wei: nat, scale: nat, small: nat, large: nat): string
    requires small <= scale && large <= scale
  {
    FormatDigits(Print(wei, 10), scale, small, large)
  }

  function FormatDigits(digits: string, scale: nat, small: nat, large: nat): string
    requires small <= scale && large <= scale
  {
    if |digits| <= scale then Below(Zeros(scale - |digits|) + digits, small) else Above(digits, scale, large)
  }

  function Above(digits: string, scale: nat, shown: nat): string
    requires shown <= scale < |digits|
  {
    WithDecimals(digits[..|digits| - scale], digits[|digits| - scale..][..shown])
  }

  function Below(padded: string, shown: nat): string {
    var trimmed := TrimZeros(padded);
    if trimmed == [] then "0" else "0" + "." + trimmed[..Min(|trimmed|, shown)]
  }

  function WithDecimals(whole: string, decimals: string): string {
    var trimmed := TrimZeros(decimals);
    if trimmed == [] then whole else whole + "." + trimmed
  }

  // ---------------------------------------------------------------- what the text says

  /** The number of wei that a decimal text denotes: with its decimals filled up to `scale`, the number that
      its digits make without the point. */
  function Denoted(text: string, scale: nat): Option<nat> {
    var parts := Strings.Split(text, '.');
    if |parts| == 1 && AllDigits(text, 10) then Some(Value(text + Zeros(scale), 10))
    else if |parts| == 2 && AllDigits(parts[0], 10) && AllDigits(parts[1], 10) && |parts[1]| <= scale then
      Some(Value(parts[0] + parts[1] + Zeros(scale - |parts[1]|), 10))
    else None
  }

  function DenotedEther(text: string): Option<nat> {
    Denoted(text, 18)
  }

  /** The weight of the last decimal place shown. */
  function Unit(wei: nat, scale: nat, small: nat, large: nat): nat
    requires small <= scale && large <= scale
  {
    if wei < Pow10(scale) then Pow10(scale - small) else Pow10(scale - large)
  }

  /** A millionth of an ETH below one ETH, a ten-thousandth from there on. */
  function EtherUnit(wei: nat): (u: nat)
    ensures u == if wei < 1_000_000_000_000_000_000 then 1_000_000_000_000 else 100_000_000_000_000
  {
    assert Pow10(18) == 1_000_000_000_000_000_000;
    assert Pow10(18 - 6) == Pow10(12) == 1_000_000_000_000;
    assert Pow10(18 - 4) == Pow10(14) == 100_000_000_000_000;
    Unit(wei, 18, 6, 4)
  }

  // ---------------------------------------------------------------- decimal arithmetic

  lemma {:induction false} PowAdd(m: nat, n: nat)
    ensures Pow10(m + n) == Pow10(m) * Pow10(n)
    decreases m
  {
    if m > 0 {
      PowAdd(m - 1, n);
      Associate(10, Pow10(m - 1), Pow10(n));
    }
  }

  lemma Associate(a: nat, b: nat, c: nat)
    ensures a * (b * c) == a * b * c
  {
  }

  lemma Shift(n: nat, a: nat, b: nat, c: nat, d: nat)
    requires n == a * b + c && c < b && d < 10
    ensures n * 10 + d == a * (10 * b) + (c * 10 + d) && c * 10 + d < 10 * b
  {
  }

  /** The value of a text from the values of its beginning and its end. */
  lemma {:induction false} ValueConcat(s: string, t: string)
    requires AllDigits(t, 10)
    ensures Value(s + t, 10) == Value(s, 10) * Pow10(|t|) + Value(t, 10) && Value(t, 10) < Pow10(|t|)
    decreases |t|
  {
    if t == [] {
      assert s + t == s;
    } else {
      var front, d := t[..|t| - 1], t[|t| - 1];
      ValueConcat(s, front);
      assert t == front + [d] && s + t == s + front + [d];
      ValueSnoc(s + front, d, 10);
      ValueSnoc(front, d, 10);
      Shift(Value(s + front, 10), Value(s, 10), Pow10(|front|), Value(front, 10), DigitValue(d));
    }
  }

  lemma {:induction false} ZerosAreNothing(n: nat)
    ensures Value(Zeros(n), 10) == 0 && AllDigits(Zeros(n), 10)
  {
    if n > 0 {
      ZerosAreNothing(n - 1);
      assert Zeros(n) == Zeros(n - 1) + ['0'];
      ValueSnoc(Zeros(n - 1), '0', 10);
    }
  }

  lemma {:induction false} TrimmedZeros(s: string)
    ensures s == TrimZeros(s) + Zeros(|s| - |TrimZeros(s)|)
    decreases |s|
  {
    if s != [] && s[|s| - 1] == '0' {
      TrimmedZeros(s[..|s| - 1]);
    }
  }

  lemma {:induction false} PrintLength(n: nat)
    requires n > 0
    ensures Pow10(|Print(n, 10)| - 1) <= n < Pow10(|Print(n, 10)|)
  {
    Divide(n, 10);
    if n >= 10 {
      PrintLength(n / 10);
    }
  }

  /** Replacing the last `n` digits by zeros rounds down to a multiple of their weight. */
  lemma CutRoundsDown(s: string, n: nat)
    requires AllDigits(s, 10) && n <= |s|
    ensures Value(Cut(s, n), 10) == Value(s, 10) - Value(s, 10) % Pow10(n)
  {
    var front, back := s[..|s| - n], s[|s| - n..];
    assert s == front + back;
    ZerosAreNothing(n);
    ValueConcat(front, Zeros(n));
    ValueConcat(front, back);
    Rounded(Value(s, 10), Value(front, 10), Pow10(n), Value(back, 10));
  }

  function Cut(s: string, n: nat): string
    requires n <= |s|
  {
    s[..|s| - n] + Zeros(n)
  }

  lemma Rounded(n: nat, q: nat, d: nat, r: nat)
    requires n == q * d + r && r < d
    ensures q * d == n - n % d
  {
    RemainderIs(n, q, r, d);
  }

  // ---------------------------------------------------------------- what is printed

  lemma DenotedWhole(whole: string, scale: nat)
    requires AllDigits(whole, 10)
    ensures Denoted(whole, scale) == Some(Value(whole + Zeros(scale), 10))
  {
    assert Strings.Lacks(whole, '.');
    Strings.SplitWhole(whole, '.');
  }

  lemma DenotedPoint(whole: string, decimals: string, scale: nat)
    requires AllDigits(whole, 10) && AllDigits(decimals, 10) && |decimals| <= scale
    ensures Denoted(whole + "." + decimals, scale) == Some(Value(whole + decimals + Zeros(scale - |decimals|), 10))
  {
    assert Strings.Lacks(whole, '.') && Strings.Lacks(decimals, '.');
    Strings.SplitTwo(whole, decimals, '.');
  }

  lemma {:induction false} LeadingZero(s: string)
    ensures Value("0" + s, 10) == Value(s, 10)
    decreases |s|
  {
    if s == [] {
      PrintOne(0, 10);
      assert "0" + s == [Digit(0)];
    } else {
      LeadingZero(s[..|s| - 1]);
      assert ("0" + s)[..|s|] == "0" + s[..|s| - 1];
    }
  }

  lemma Padded(digits: string, width: nat)
    requires AllDigits(digits, 10) && |digits| <= width
    ensures var s := Zeros(width - |digits|) + digits;
            |s| == width && AllDigits(s, 10) && Value(s, 10) == Value(digits, 10)
  {
    ZerosAreNothing(width - |digits|);
    ValueConcat(Zeros(width - |digits|), digits);
  }

  lemma AllZeros(s: string)
    ensures TrimZeros(s) == [] ==> Value(s, 10) == 0
    ensures AllDigits(s, 10) && Value(s, 10) == 0 ==> TrimZeros(s) == []
  {
    TrimmedZeros(s);
    ZerosAreNothing(|s|);
    if TrimZeros(s) == [] {
      assert [] + Zeros(|s|) == Zeros(|s|);
    }
    if AllDigits(s, 10) && Value(s, 10) == 0 {
      LastNotZero(s);
    }
  }

  lemma {:induction false} LastNotZero(s: string)
    requires AllDigits(s, 10)
    ensures Value(s, 10) == 0 ==> TrimZeros(s) == []
    decreases |s|
  {
    if s != [] {
      LastNotZero(s[..|s| - 1]);
    }
  }

  lemma DenotedBelow(s: string, shown: nat, scale: nat)
    requires shown <= |s| == scale && AllDigits(s, 10)
    ensures Denoted(Below(s, shown), scale) == Some(Value(Cut(s, scale - shown), 10))
  {
    var t := TrimZeros(s);
    TrimmedZeros(s);
    var decimals := t[..Min(|t|, shown)];
    var filled := decimals + Zeros(scale - |decimals|);
    assert filled == Cut(s, scale - shown);
    LeadingZero(filled);
    if t == [] {
      DenotedWhole("0", scale);
      assert filled == Zeros(scale);
    } else {
      DenotedPoint("0", decimals, scale);
      assert "0" + filled == "0" + decimals + Zeros(scale - |decimals|);
    }
  }

  lemma DenotedDecimals(whole: string, decimals: string, scale: nat)
    requires AllDigits(whole, 10) && AllDigits(decimals, 10) && |decimals| <= scale
    ensures Denoted(WithDecimals(whole, decimals), scale) ==
            Some(Value(whole + decimals + Zeros(scale - |decimals|), 10))
  {
    var t := TrimZeros(decimals);
    TrimmedZeros(decimals);
    assert whole + decimals + Zeros(scale - |decimals|) == whole + t + Zeros(scale - |t|);
    if t == [] {
      DenotedWhole(whole, scale);
      assert whole + t == whole;
    } else {
      DenotedPoint(whole, t, scale);
    }
  }

  // ---------------------------------------------------------------- the bound

  /** At most `width` digits are less than ten to that power. */
  lemma DigitsTellSize(wei: nat, width: nat)
    requires width > 0
    ensures |Print(wei, 10)| <= width <==> wei < Pow10(width)
  {
    var n := |Print(wei, 10)|;
    if wei > 0 {
      PrintLength(wei);
      if n <= width {
        PowMonotone(n, width);
      } else {
        PowMonotone(width, n - 1);
      }
    }
  }

  lemma {:induction false} PowMonotone(m: nat, n: nat)
    requires m <= n
    ensures Pow10(m) <= Pow10(n)
  {
    if m < n {
      PowMonotone(m, n - 1);
    }
  }

  /** The text denotes the amount rounded down to the last decimal place shown. */
  lemma DenotesRoundedDown(wei: nat, scale: nat, small: nat, large: nat)
    requires small <= scale && large <= scale && scale > 0
    ensures Denoted(Format(wei, scale, small, large), scale) == Some(wei - wei % Unit(wei, scale, small, large))
  {
    DigitsAreShown(Print(wei, 10), scale, small, large);
    DigitsTellSize(wei, scale);
    if wei < Pow10(scale) {
      SmallIsShown(wei, scale, small, large);
    } else {
      LargeIsShown(wei, scale, small, large);
    }
  }

  lemma SmallIsShown(wei: nat, scale: nat, small: nat, large: nat)
    requires small <= scale && large <= scale && |Print(wei, 10)| <= scale
    ensures Value(Shown(Print(wei, 10), scale, small, large), 10) == wei - wei % Pow10(scale - small)
  {
    ValuePrint(wei, 10);
    PaddedRoundsDown(Print(wei, 10), scale, scale - small);
  }

  lemma LargeIsShown(wei: nat, scale: nat, small: nat, large: nat)
    requires small <= scale && large <= scale && |Print(wei, 10)| > scale
    ensures Value(Shown(Print(wei, 10), scale, small, large), 10) == wei - wei % Pow10(scale - large)
  {
    ValuePrint(wei, 10);
    CutRoundsDown(Print(wei, 10), scale - large);
  }

  /** The digits of the number that the text denotes: those of the amount, with the last ones zero. */
  function Shown(digits: string, scale: nat, small: nat, large: nat): string
    requires small <= scale && large <= scale
  {
    if |digits| <= scale then Cut(Zeros(scale - |digits|) + digits, scale - small) else Cut(digits, scale - large)
  }

  lemma DigitsAreShown(digits: string, scale: nat, small: nat, large: nat)
    requires small <= scale && large <= scale && AllDigits(digits, 10)
    ensures Denoted(FormatDigits(digits, scale, small, large), scale) ==
            Some(Value(Shown(digits, scale, small, large), 10))
  {
    if |digits| <= scale {
      Padded(digits, scale);
      DenotedBelow(Zeros(scale - |digits|) + digits, small, scale);
    } else {
      AboveIsCut(digits, scale, large);
    }
  }

  lemma AboveIsCut(digits: string, scale: nat, shown: nat)
    requires shown <= scale < |digits| && AllDigits(digits, 10)
    ensures Denoted(Above(digits, scale, shown), scale) == Some(Value(Cut(digits, scale - shown), 10))
  {
    var whole, decimals := digits[..|digits| - scale], digits[|digits| - scale..][..shown];
    DenotedDecimals(whole, decimals, scale);
    assert whole + decimals == digits[..|digits| - (scale - shown)];
  }

  lemma PaddedRoundsDown(digits: string, scale: nat, n: nat)
    requires |digits| <= scale && n <= scale && AllDigits(digits, 10)
    ensures Value(Cut(Zeros(scale - |digits|) + digits, n), 10) == Value(digits, 10) - Value(digits, 10) % Pow10(n)
  {
    var padded := Zeros(scale - |digits|) + digits;
    Padded(digits, scale);
    CutRoundsDown(padded, n);
    assert Value(padded, 10) == Value(digits, 10);
  }

  /** The text never says more than the amount, is off by less than the last place shown, and is exact for
      whole multiples of that place only. */
  lemma ErrorBound(wei: nat)
    ensures DenotedEther(FormatEther(wei)).Some?
    ensures var shown := DenotedEther(FormatEther(wei)).value;
            shown <= wei < shown + EtherUnit(wei) && (shown == wei <==> wei % EtherUnit(wei) == 0)
  {
    DenotesRoundedDown(wei, 18, 6, 4);
    Bounds(wei, EtherUnit(wei));
  }

  lemma Bounds(n: nat, d: nat)
    requires d > 0
    ensures 0 <= n % d < d && n % d <= n && n / d * d == n - n % d
  {
  }

  /** Larger amounts never read smaller, also across one ETH, where the precision changes. */
  lemma Monotonic(a: nat, b: nat)
    requires a <= b
    ensures DenotedEther(FormatEther(a)).Some? && DenotedEther(FormatEther(b)).Some?
    ensures DenotedEther(FormatEther(a)).value <= DenotedEther(FormatEther(b)).value
  {
    DenotesRoundedDown(a, 18, 6, 4);
    DenotesRoundedDown(b, 18, 6, 4);
    PowAdd(4, 14);
    RoundingStaysOrdered(a, b, EtherUnit(a), EtherUnit(b), Pow10(4));
  }

  /** Rounding down keeps the order if the units are equal or a multiple of the second lies between. */
  lemma RoundingStaysOrdered(a: nat, b: nat, d: nat, e: nat, k: nat)
    requires a <= b && d > 0 && e > 0 && (d == e || a < k * e <= b)
    ensures a - a % d <= b - b % e
  {
    if d == e {
      RoundingMonotone(a, b, d);
    } else {
      RoundingReaches(k, b, e);
      Bounds(a, d);
    }
  }

  lemma RoundingMonotone(a: nat, b: nat, d: nat)
    requires a <= b && d > 0
    ensures a - a % d <= b - b % d
  {
    Bounds(a, d);
    Bounds(b, d);
    if a / d > b / d {
      ProductMonotone(b / d + 1, a / d, d);
    } else {
      ProductMonotone(a / d, b / d, d);
    }
  }

  /** Rounding down does not fall below a multiple. */
  lemma RoundingReaches(k: nat, b: nat, d: nat)
    requires d > 0 && k * d <= b
    ensures k * d <= b - b % d
  {
    RemainderIs(k * d, k, 0, d);
    RoundingMonotone(k * d, b, d);
  }

  /** Amounts below the last place read as zero, though only zero itself is printed as a bare 0. */
  lemma DustReadsZero(wei: nat)
    ensures DenotedEther(FormatEther(wei)) == Some(0) <==> wei < Pow10(12)
    ensures FormatEther(wei) == "0" <==> wei == 0
  {
    DenotesRoundedDown(wei, 18, 6, 4);
    PowMonotone(12, 18);
    PowMonotone(14, 18);
    RoundsToZero(wei, EtherUnit(wei));
    BareZero(wei);
  }

  lemma BareZero(wei: nat)
    ensures FormatEther(wei) == "0" <==> wei == 0
  {
    ValuePrint(wei, 10);
    if |Print(wei, 10)| <= 18 {
      BareBelow(Print(wei, 10), 18, 6);
    } else {
      PrintHead(wei);
      HeadAbove(Print(wei, 10), 18, 4);
    }
  }

  lemma BareBelow(digits: string, scale: nat, shown: nat)
    requires AllDigits(digits, 10) && |digits| <= scale
    ensures Below(Zeros(scale - |digits|) + digits, shown) == "0" <==> Value(digits, 10) == 0
  {
    var padded := Zeros(scale - |digits|) + digits;
    Padded(digits, scale);
    AllZeros(padded);
    if TrimZeros(padded) != [] {
      assert |Below(padded, shown)| >= 2;
    }
  }

  lemma {:induction false} TrimZerosEnds(s: string)
    ensures TrimZeros(s) != [] ==> TrimZeros(s)[|TrimZeros(s)| - 1] != '0'
    decreases |s|
  {
    if s != [] && s[|s| - 1] == '0' {
      TrimZerosEnds(s[..|s| - 1]);
    }
  }

  lemma OneEther()
    ensures Pow10(18) == 1_000_000_000_000_000_000
  {
    assert Pow10(6) == 1_000_000;
    PowAdd(6, 6);
    PowAdd(6, 12);
  }

  /** From one ETH on there are at most four decimals, the last of which is not 0. */
  lemma NoTrailingZeros(wei: nat) returns (whole: string, decimals: string)
    requires wei >= 1_000_000_000_000_000_000
    ensures FormatEther(wei) == whole + (if decimals == [] then [] else "." + decimals)
    ensures AllDigits(whole, 10) && AllDigits(decimals, 10) && |decimals| <= 4
    ensures decimals != [] ==> decimals[|decimals| - 1] != '0'
  {
    var digits := Print(wei, 10);
    OneEther();
    DigitsTellSize(wei, 18);
    whole := digits[..|digits| - 18];
    var shown := digits[|digits| - 18..][..4];
    decimals := TrimZeros(shown);
    TrimZerosEnds(shown);
    assert FormatEther(wei) == Above(digits, 18, 4) == WithDecimals(whole, shown);
    JoinsDecimals(whole, shown);
    assert forall i :: 0 <= i < |decimals| ==> decimals[i] == shown[i] == digits[|digits| - 18 + i];
  }

  lemma JoinsDecimals(whole: string, shown: string)
    ensures WithDecimals(whole, shown) == whole + (if TrimZeros(shown) == [] then [] else "." + TrimZeros(shown))
  {
    assert whole + [] == whole;
    assert whole + "." + TrimZeros(shown) == whole + ("." + TrimZeros(shown));
  }

  lemma HeadAbove(digits: string, scale: nat, shown: nat)
    requires shown <= scale < |digits|
    ensures |Above(digits, scale, shown)| > 0 && Above(digits, scale, shown)[0] == digits[0]
  {
  }

  lemma {:induction false} PrintHead(n: nat)
    ensures n > 0 ==> Print(n, 10)[0] != '0'
    ensures n == 0 ==> |Print(n, 10)| == 1
  {
    Divide(n, 10);
    if n >= 10 {
      PrintHead(n / 10);
    }
  }

  lemma RoundsToZero(n: nat, d: nat)
    requires d > 0
    ensures n - n % d == 0 <==> n < d
  {
    Bounds(n, d);
    if n < d {
      RemainderIs(n, 0, n, d);
    }
  }
}
