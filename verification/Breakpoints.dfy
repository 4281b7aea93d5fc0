/** Breakpoints as text, `@location if $condition`, and their parser. */
module Breakpoints {
  import opened Common
  import opened Strings
  import opened Addresses
  import Numerals

  const USIZE_BOUND: nat := 0x1_0000_0000_0000_0000
  type Usize = n: nat | n < USIZE_BOUND

  datatype Location =
    | Source(address: Address, path: string, line: Usize)
    | Opcode(address: Address, pc: Usize)

  datatype Breakpoint = Breakpoint(loc: Option<Location>, condition: Option<string>)

  datatype Error = BadAddress | BadNumber | BadLocation | NoDollar | BadFormat

  // ---------------------------------------------------------------- parsing

  function ParseLocation(s: string): Result<Location, Error> {
    var parts := Split(s, ':');
    if |parts| == 2 then
      match (ParseAddress(parts[0]), Numerals.Parse(parts[1], USIZE_BOUND))
      case (None, _) => Err(BadAddress)
      case (_, None) => Err(BadNumber)
      case (Some(address), Some(pc)) => UsizeFits(parts[1]); Ok(Opcode(address, pc))
    else if |parts| == 3 then
      match (ParseAddress(parts[0]), Numerals.Parse(parts[2], USIZE_BOUND))
      case (None, _) => Err(BadAddress)
      case (_, None) => Err(BadNumber)
      case (Some(address), Some(line)) => UsizeFits(parts[2]); Ok(Source(address, parts[1], line))
    else Err(BadLocation)
  }

  lemma UsizeFits(s: string)
    ensures Numerals.Parse(s, USIZE_BOUND).Some? ==> Numerals.Parse(s, USIZE_BOUND).value < USIZE_BOUND
  {
  }

  /** The text after `if`. */
  function ParseCondition(s: string): Result<string, Error> {
    var text := Trim(s);
    if text == [] || text[0] != '$' then Err(NoDollar) else Ok(Normalize(Trim(text[1..])))
  }

  /** A text that starts with `@`. The location's slice is one character too long: it ends with the space
      before `if`. */
  function ParseLocated(s: string): Result<Breakpoint, Error>
    requires s != []
  {
    match Find(s, " if ")
    case Some(i) =>
      (match ParseLocation(Trim(s[1..][..i]))
       case Err(e) => Err(e)
       case Ok(loc) =>
         match ParseCondition(s[i + 4..])
         case Err(e) => Err(e)
         case Ok(condition) => Ok(Breakpoint(Some(loc), Some(condition))))
    case None =>
      match ParseLocation(Trim(s[1..]))
      case Err(e) => Err(e)
      case Ok(loc) => Ok(Breakpoint(Some(loc), None))
  }

  function Parse(s: string): Result<Breakpoint, Error> {
    var trimmed := Trim(s);
    if trimmed == [] then Ok(Breakpoint(None, None))
    else if trimmed[0] == '@' then ParseLocated(trimmed)
    else if |trimmed| >= 3 && trimmed[..3] == "if " then
      match ParseCondition(trimmed[3..])
      case Err(e) => Err(e)
      case Ok(condition) => Ok(Breakpoint(None, Some(condition)))
    else Err(BadFormat)
  }

  // ---------------------------------------------------------------- printing

  /** `display` with a label for the address. */
  function Labelled(loc: Location, addr: string): string {
    match loc
    case Opcode(_, pc) => addr + ":" + Numerals.Print(pc, 10)
    case Source(_, path, line) => addr + ":" + path + ":" + Numerals.Print(line, 10)
  }

  function FullLocation(loc: Location, casing: Casing): string {
    Labelled(loc, PrintAddress(loc.address, casing))
  }

  /** What `display` puts for the address when there is no label. */
  function Shortened(address: string): string {
    if |address| > 14 then address[..8] + "..." + address[|address| - 6..] else address
  }

  /** The text that the parser's format calls for. */
  function FullText(b: Breakpoint, casing: Casing): string {
    var where := if b.loc.Some? then "@" + FullLocation(b.loc.value, casing) else "";
    if b.condition.None? then where
    else if b.loc.Some? then where + " if " + ("$" + b.condition.value) else "if " + ("$" + b.condition.value)
  }

  /** `Display`: the address shortened and no dollar sign. */
  function Displayed(b: Breakpoint, casing: Casing): string {
    var where := if b.loc.Some?
                 then "@" + Labelled(b.loc.value, Shortened(PrintAddress(b.loc.value.address, casing)))
                 else "";
    if b.condition.None? then where
    else if b.loc.Some? then where + " if " + b.condition.value else "if " + b.condition.value
  }

  // ---------------------------------------------------------------- round trip

  ghost predicate PathIsClean(path: string) {
    Lacks(path, ':') && !Contains(path, " if ")
  }

  /** What the format can express: a path without ':' and " if ", and a condition with single spaces. */
  ghost predicate Clean(b: Breakpoint) {
    && (b.loc.Some? && b.loc.value.Source? ==> PathIsClean(b.loc.value.path))
    && (b.condition.Some? ==> Normal(b.condition.value))
  }

  /** The parser returns nothing that its format cannot express. */
  lemma ParsedIsClean(s: string)
    ensures Parse(s).Ok? ==> Clean(Parse(s).value)
  {
    var trimmed := Trim(s);
    if trimmed != [] && trimmed[0] == '@' {
      LocatedIsClean(trimmed);
    } else if |trimmed| >= 3 {
      ParsedConditionIsNormal(trimmed[3..]);
    }
  }

  lemma LocatedIsClean(s: string)
    requires s != []
    ensures ParseLocated(s).Ok? ==> Clean(ParseLocated(s).value)
  {
    match Find(s, " if ")
    case Some(i) =>
      assert s[1..i + 1] == s[1..][..i];
      ParsedPathIsClean(s, 1, i + 1);
      ParsedConditionIsNormal(s[i + 4..]);
    case None =>
      assert s[..|s|] == s;
      ParsedPathIsClean(s, 1, |s|);
  }

  lemma ParsedConditionIsNormal(s: string)
    ensures ParseCondition(s).Ok? ==> Normal(ParseCondition(s).value)
  {
    var text := Trim(s);
    if text != [] {
      NormalizeExactly(Trim(text[1..]));
    }
  }

  lemma ParsedPathIsClean(s: string, m: nat, n: nat)
    requires m <= n <= |s|
    requires forall i: nat :: m <= i <= n - 4 ==> !At(s, " if ", i)
    ensures var r := ParseLocation(Trim(s[m..n])); r.Ok? && r.value.Source? ==> PathIsClean(r.value.path)
  {
    var piece := s[m..n];
    if Contains(piece, " if ") {
      var i := OccurrenceInPiece(s, m, n, " if ");
    }
    TrimLacks(piece, " if ");
    MiddleIsClean(Trim(piece));
  }

  lemma MiddleIsClean(text: string)
    requires !Contains(text, " if ")
    ensures |Split(text, ':')| == 3 ==> PathIsClean(Split(text, ':')[1])
  {
    if |Split(text, ':')| == 3 {
      var j := MiddlePart(text);
      PieceLacks(text, j, j + |Split(text, ':')[1]|, " if ");
    }
  }

  lemma MiddlePart(s: string) returns (j: nat)
    requires |Split(s, ':')| == 3
    ensures var part := Split(s, ':')[1]; j + |part| <= |s| && part == s[j..j + |part|]
  {
    j := Until(s, ':') + 1;
    var rest := s[j..];
    assert Split(s, ':')[1] == Split(rest, ':')[0] == rest[..Until(rest, ':')];
  }

  /** A located text whose location is trimmed and clean is cut at the right place. */
  lemma FindAfter(where: string, rest: string)
    requires !Contains(where, " if ") && where != [] && where[|where| - 1] != 'f'
    ensures Find(where + " if " + rest, " if ") == Some(|where|)
  {
    var s := where + " if " + rest;
    assert s[|where|..|where| + 4] == " if ";
    assert At(s, " if ", |where|);
    forall i: nat | i < |where| ensures !At(s, " if ", i) {
      if At(s, " if ", i) {
        OccurrenceFits(where, rest, i);
      }
    }
  }

  lemma OccurrenceFits(where: string, rest: string, i: nat)
    requires where != [] && where[|where| - 1] != 'f' && i < |where| && At(where + " if " + rest, " if ", i)
    ensures At(where, " if ", i)
  {
    var s := where + " if " + rest;
    assert s[i..i + 4] == " if ";
    assert s[i] == ' ' && s[i + 1] == 'i' && s[i + 2] == 'f' && s[i + 3] == ' ';
    assert s[|where|] == ' ' && s[|where| - 1] == where[|where| - 1];
    assert i + 4 <= |where|;
    assert s[i..i + 4] == where[i..i + 4];
  }

  /** Between texts without white space, the pattern can only be in the middle. */
  lemma OccurrenceIsInside(before: string, path: string, after: string, i: nat)
    requires NoSpace(before) && NoSpace(after) && At(before + path + after, " if ", i)
    ensures |before| <= i && At(path, " if ", i - |before|)
  {
    var s := before + path + after;
    assert s[i..i + 4][0] == s[i] == ' ' && s[i..i + 4][3] == s[i + 3] == ' ';
    assert forall k :: 0 <= k < |before| ==> s[k] == before[k];
    forall k | |before| + |path| <= k < |s| ensures !IsSpace(s[k]) {
      assert s[k] == after[k - |before| - |path|];
    }
    assert path[i - |before|..i - |before| + 4] == s[i..i + 4];
  }

  lemma LocationLacksIf(loc: Location, addr: string)
    requires NoSpace(addr)
    ensures Contains("@" + Labelled(loc, addr), " if ") ==> loc.Source? && Contains(loc.path, " if ")
  {
    var where := "@" + Labelled(loc, addr);
    var before := "@" + addr + ":";
    var n := if loc.Opcode? then loc.pc else loc.line;
    var path := if loc.Opcode? then "" else loc.path;
    var after := (if loc.Opcode? then "" else ":") + Numerals.Print(n, 10);
    DigitsHaveNoSpace(n);
    if i: nat :| At(where, " if ", i) {
      assert where == before + path + after;
      OccurrenceIsInside(before, path, after, i);
    }
  }

  /** A printed location is read back when its path has no ':', whatever else the path holds. */
  lemma LocationRoundTrip(loc: Location, casing: Casing)
    requires loc.Source? ==> Lacks(loc.path, ':')
    ensures ParseLocation(FullLocation(loc, casing)) == Ok(loc)
  {
    var addr := PrintAddress(loc.address, casing);
    ParsePrintAddress(loc.address, casing);
    var n := if loc.Opcode? then loc.pc else loc.line;
    DigitsHaveNoSpace(n);
    Numerals.ParsePrint(n, USIZE_BOUND);
    if loc.Opcode? {
      SplitTwo(addr, Numerals.Print(n, 10), ':');
    } else {
      SplitThree(addr, loc.path, Numerals.Print(n, 10), ':');
    }
  }

  lemma LocationIsTrimmed(loc: Location, casing: Casing)
    ensures var s := FullLocation(loc, casing);
            s != [] && Trimmed(s) && s[|s| - 1] != 'f'
  {
    var s := FullLocation(loc, casing);
    var n := if loc.Opcode? then loc.pc else loc.line;
    DigitsHaveNoSpace(n);
    var digits := Numerals.Print(n, 10);
    assert s[|s| - 1] == digits[|digits| - 1];
    assert s[0] == PrintAddress(loc.address, casing)[0];
  }

  lemma ConditionRoundTrip(condition: string)
    requires Normal(condition)
    ensures Trimmed("$" + condition) && ParseCondition("$" + condition) == Ok(condition)
  {
    var s := "$" + condition;
    TrimmedStays(s);
    assert s[1..] == condition;
    TrimmedStays(condition);
    NormalizeExactly(condition);
  }

  lemma CleanRoundTrip(b: Breakpoint, casing: Casing)
    requires Clean(b)
    ensures Parse(FullText(b, casing)) == Ok(b)
  {
    if b.condition.Some? {
      ConditionRoundTrip(b.condition.value);
    }
    var s := FullText(b, casing);
    if b.loc.Some? {
      LocatedRoundTrip(b, casing);
      TrimmedStays(s);
    } else if b.condition.Some? {
      var c := "$" + b.condition.value;
      assert s == "if " + c && s[..3] == "if " && s[3..] == c;
      assert s[|s| - 1] == c[|c| - 1];
      TrimmedStays(s);
    }
  }

  lemma LocatedRoundTrip(b: Breakpoint, casing: Casing)
    requires Clean(b) && b.loc.Some?
    ensures var s := FullText(b, casing); Trimmed(s) && s != [] && s[0] == '@' && ParseLocated(s) == Ok(b)
  {
    var text := FullLocation(b.loc.value, casing);
    LocationIsTrimmed(b.loc.value, casing);
    LocationRoundTrip(b.loc.value, casing);
    LocationLacksIf(b.loc.value, PrintAddress(b.loc.value.address, casing));
    if b.condition.None? {
      LocationAlone(text, b.loc.value);
    } else {
      ConditionRoundTrip(b.condition.value);
      LocationAndCondition(text, b.loc.value, "$" + b.condition.value, b.condition.value);
    }
  }

  lemma LocationAlone(text: string, loc: Location)
    requires Trimmed(text) && text != [] && !Contains("@" + text, " if ") && ParseLocation(text) == Ok(loc)
    ensures Trimmed("@" + text) && ParseLocated("@" + text) == Ok(Breakpoint(Some(loc), None))
  {
    assert ("@" + text)[1..] == text;
    TrimmedStays(text);
  }

  lemma LocationAndCondition(text: string, loc: Location, c: string, condition: string)
    requires Trimmed(text) && text != [] && text[|text| - 1] != 'f' && !Contains("@" + text, " if ")
    requires c != [] && Trimmed(c) && ParseLocation(text) == Ok(loc) && ParseCondition(c) == Ok(condition)
    ensures var s := "@" + text + " if " + c;
            Trimmed(s) && ParseLocated(s) == Ok(Breakpoint(Some(loc), Some(condition)))
  {
    CutAfterLocation(text, c);
  }

  /** The slice that is one too long picks up the separating space, which the trim removes. */
  lemma CutAfterLocation(text: string, c: string)
    requires Trimmed(text) && text != [] && text[|text| - 1] != 'f' && !Contains("@" + text, " if ")
    requires c != [] && Trimmed(c)
    ensures var s := "@" + text + " if " + c;
            && Trimmed(s) && Find(s, " if ") == Some(|text| + 1)
            && Trim(s[1..][..|text| + 1]) == text && s[|text| + 1 + 4..] == c
  {
    var where := "@" + text;
    var s := where + " if " + c;
    FindAfter(where, c);
    assert s[1..][..|where|] == text + " ";
    TrimSpaceAfter(text);
    assert s[|s| - 1] == c[|c| - 1];
  }

  /** The text of a breakpoint, with its full address, is read back as the same breakpoint exactly when the
      format can express it. */
  lemma RoundTripExactly(b: Breakpoint, casing: Casing)
    ensures Parse(FullText(b, casing)) == Ok(b) <==> Clean(b)
  {
    ParsedIsClean(FullText(b, casing));
    if Clean(b) {
      CleanRoundTrip(b, casing);
    }
  }

  /** What the parser accepts has a text that it reads the same way, whatever the spelling it came in. */
  lemma ReprintedIsReread(s: string, casing: Casing)
    requires Parse(s).Ok?
    ensures Parse(FullText(Parse(s).value, casing)) == Parse(s)
  {
    ParsedIsClean(s);
    CleanRoundTrip(Parse(s).value, casing);
  }

  /** The documented forms: a place in the code, a line of a source file, a condition, or one of each. */
  lemma ReadsOpcode(a: Address, casing: Casing, pc: Usize, condition: string)
    requires Normal(condition)
    ensures var text := "@" + PrintAddress(a, casing) + ":" + Numerals.Print(pc, 10);
            && Parse(text) == Ok(Breakpoint(Some(Opcode(a, pc)), None))
            && Parse(text + " if $" + condition) == Ok(Breakpoint(Some(Opcode(a, pc)), Some(condition)))
  {
    var text := "@" + PrintAddress(a, casing) + ":" + Numerals.Print(pc, 10);
    var loc := Opcode(a, pc);
    assert "@" + FullLocation(loc, casing) == text;
    ReadsLocated(loc, casing, text, condition);
  }

  lemma ReadsSource(a: Address, casing: Casing, path: string, line: Usize, condition: string)
    requires Normal(condition) && Lacks(path, ':') && !Contains(path, " if ")
    ensures var text := "@" + PrintAddress(a, casing) + ":" + path + ":" + Numerals.Print(line, 10);
            && Parse(text) == Ok(Breakpoint(Some(Source(a, path, line)), None))
            && Parse(text + " if $" + condition) == Ok(Breakpoint(Some(Source(a, path, line)), Some(condition)))
  {
    var text := "@" + PrintAddress(a, casing) + ":" + path + ":" + Numerals.Print(line, 10);
    var loc := Source(a, path, line);
    assert "@" + FullLocation(loc, casing) == text;
    ReadsLocated(loc, casing, text, condition);
  }

  lemma ReadsCondition(condition: string, casing: Casing)
    requires Normal(condition)
    ensures Parse("if $" + condition) == Ok(Breakpoint(None, Some(condition)))
    ensures Parse("") == Ok(Breakpoint(None, None))
  {
    assert "if " + ("$" + condition) == "if $" + condition;
    ReadsForm(Breakpoint(None, Some(condition)), casing, "if $" + condition);
  }

  lemma ReadsLocated(loc: Location, casing: Casing, text: string, condition: string)
    requires Clean(Breakpoint(Some(loc), Some(condition))) && "@" + FullLocation(loc, casing) == text
    ensures Parse(text) == Ok(Breakpoint(Some(loc), None))
    ensures Parse(text + " if $" + condition) == Ok(Breakpoint(Some(loc), Some(condition)))
  {
    ReadsForm(Breakpoint(Some(loc), None), casing, text);
    DollarJoins(text, condition);
    ReadsForm(Breakpoint(Some(loc), Some(condition)), casing, text + " if $" + condition);
  }

  lemma DollarJoins(text: string, condition: string)
    ensures text + " if " + ("$" + condition) == text + " if $" + condition
  {
  }

  lemma ReadsForm(b: Breakpoint, casing: Casing, text: string)
    requires Clean(b) && FullText(b, casing) == text
    ensures Parse(text) == Ok(b)
  {
    CleanRoundTrip(b, casing);
  }

  // ---------------------------------------------------------------- what `Display` prints

  /** The parser takes back what `Display` prints for the empty breakpoint alone: it refuses every shortened
      address, and reads any other condition as a shorter one or not at all. */
  lemma DisplayedIsReread(b: Breakpoint, casing: Casing)
    ensures Parse(Displayed(b, casing)) == Ok(b) <==> b == Breakpoint(None, None)
  {
    if b.loc.Some? {
      ShortAddressIsRefused(b, casing);
    } else if b.condition.Some? {
      BareConditionIsNotReread(b.condition.value);
    }
  }

  lemma ShortAddressIsRefused(b: Breakpoint, casing: Casing)
    requires b.loc.Some?
    ensures Parse(Displayed(b, casing)).Err?
  {
    var addr := Shortened(PrintAddress(b.loc.value.address, casing));
    ShortenedText(b.loc.value.address, casing);
    var s := Displayed(b, casing);
    var begin := "@" + addr + ":";
    assert begin <= s;
    TrimKeeps(begin, s[|begin|..]);
    assert s == begin + s[|begin|..];
    LocatedIsRefused(Trim(s), addr);
  }

  lemma ShortenedText(a: Address, casing: Casing)
    ensures var addr := Shortened(PrintAddress(a, casing)); |addr| == 17 && NoSpace(addr) && Lacks(addr, ':')
    ensures var full, addr := PrintAddress(a, casing), Shortened(PrintAddress(a, casing));
            addr[..8] == full[..8] && addr[8..11] == "..." && addr[11..] == full[36..]
  {
  }

  lemma LocatedIsRefused(s: string, addr: string)
    requires "@" + addr + ":" <= s && |addr| == 17 && NoSpace(addr) && Lacks(addr, ':')
    ensures ParseLocated(s).Err?
  {
    var begin := "@" + addr + ":";
    assert s == begin + s[|begin|..];
    assert s[1..] == addr + ":" + s[|begin|..];
    match Find(s, " if ")
    case None => LocationIsRefused(s[1..], addr);
    case Some(i) =>
      assert s[i..i + 4][0] == s[i] == ' ';
      assert forall k :: 0 <= k < |begin| ==> s[k] == begin[k] && !IsSpace(begin[k]);
      assert s[1..][..i] == addr + ":" + s[|begin|..i + 1];
      LocationIsRefused(s[1..][..i], addr);
  }

  lemma LocationIsRefused(s: string, addr: string)
    requires addr + ":" <= s && |addr| == 17 && NoSpace(addr) && Lacks(addr, ':')
    ensures ParseLocation(Trim(s)).Err?
  {
    var begin := addr + ":";
    assert s == begin + s[|begin|..];
    TrimKeeps(begin, s[|begin|..]);
    var text := Trim(s);
    assert text == addr + ":" + text[|begin|..];
    SplitFirst(addr, text[|begin|..], ':');
  }

  lemma BareConditionIsNotReread(condition: string)
    ensures Parse("if " + condition) != Ok(Breakpoint(None, Some(condition)))
  {
    var s := "if " + condition;
    var trimmed := Trim(s);
    var m := TrimIsPiece(s);
    if |trimmed| >= 3 {
      ConditionShrinks(trimmed[3..]);
    }
  }

  /** The parser always drops the dollar sign. */
  lemma ConditionShrinks(s: string)
    ensures ParseCondition(s).Ok? ==> |ParseCondition(s).value| < |s|
  {
    var text := Trim(s);
    var m := TrimIsPiece(s);
    if text != [] {
      var k := TrimIsPiece(text[1..]);
      NormalizeShrinks(Trim(text[1..]));
    }
  }
}
