/** Splitting the serialized cache into numbered files, and putting it together again. */
module Segments {
  import opened Common
  import opened Sorting
  import opened Sums
  import opened Numerals

  type Byte = b: nat | b < 256

  const MAX_CACHE_FILE_SIZE: nat := 20 * 1024 * 1024

  // ---------------------------------------------------------------- splitting

  /** A position where Rust lets a UTF-8 string be cut: not in front of a continuation byte. */
  predicate IsCharBoundary(content: seq<Byte>, p: nat)
    requires p <= |content|
  {
    p == 0 || p == |content| || !(0x80 <= content[p] < 0xC0)
  }

  function Split(content: seq<Byte>, max: nat): (r: seq<seq<Byte>>)
    requires max > 0
    ensures |r| > 0
  {
    if |content| <= max then [content] else [content[..max]] + Split(content[max..], max)
  }

  function Concat(segments: seq<seq<Byte>>): seq<Byte> {
    if segments == [] then [] else segments[0] + Concat(segments[1..])
  }

  /** The segments hold the content; all but the last have exactly the maximal size; none is empty
      unless the content is. */
  lemma {:induction false} SplitHoldsContent(content: seq<Byte>, max: nat)
    requires max > 0
    ensures var r := Split(content, max);
            && Concat(r) == content
            && (forall i :: 0 <= i < |r| - 1 ==> |r[i]| == max)
            && |r[|r| - 1]| <= max
            && (content != [] ==> r[|r| - 1] != [])
    decreases |content|
  {
    if |content| <= max {
      assert Concat([content]) == content + Concat([]);
    } else {
      SplitHoldsContent(content[max..], max);
      var rest := Split(content[max..], max);
      assert ([content[..max]] + rest)[1..] == rest;
    }
  }

  lemma {:induction false} ConcatSnoc(segments: seq<seq<Byte>>, x: seq<Byte>)
    ensures Concat(segments + [x]) == Concat(segments) + x
  {
    if segments == [] {
      assert [] + [x] == [x] && [x][1..] == [];
    } else {
      ConcatSnoc(segments[1..], x);
      assert (segments + [x])[1..] == segments[1..] + [x];
    }
  }

  /** Every position below `n` at which the splitter cuts is a character boundary. */
  ghost predicate CuttableBelow(content: seq<Byte>, n: nat) {
    forall p :: 0 < p < n && p < |content| && p % MAX_CACHE_FILE_SIZE == 0 ==> IsCharBoundary(content, p)
  }

  ghost predicate Cuttable(content: seq<Byte>) {
    CuttableBelow(content, |content|)
  }

  lemma NextCut(pos: nat)
    requires pos % MAX_CACHE_FILE_SIZE == 0
    ensures (pos + MAX_CACHE_FILE_SIZE) % MAX_CACHE_FILE_SIZE == 0
    ensures forall p :: pos < p < pos + MAX_CACHE_FILE_SIZE ==> p % MAX_CACHE_FILE_SIZE != 0
  {
  }

  lemma CuttableFurther(content: seq<Byte>, pos: nat, end: nat)
    requires pos % MAX_CACHE_FILE_SIZE == 0 && pos < |content|
    requires end == Min(pos + MAX_CACHE_FILE_SIZE, |content|)
    requires CuttableBelow(content, pos) && IsCharBoundary(content, pos)
    ensures CuttableBelow(content, end)
    ensures end < |content| ==> end % MAX_CACHE_FILE_SIZE == 0
  {
    NextCut(pos);
  }

  /** `segments` are the pieces of `content` up to `pos`. */
  ghost predicate SoFar(segments: seq<seq<Byte>>, content: seq<Byte>, pos: nat, max: nat)
    requires max > 0 && pos <= |content|
  {
    Split(content, max) == if pos < |content| then segments + Split(content[pos..], max) else segments
  }

  lemma SplitStep(segments: seq<seq<Byte>>, content: seq<Byte>, pos: nat, max: nat)
    requires max > 0 && pos < |content| && SoFar(segments, content, pos, max)
    ensures var end := Min(pos + max, |content|);
            SoFar(segments + [content[pos..end]], content, end, max)
  {
    var rest := content[pos..];
    if |rest| <= max {
      assert content[pos..|content|] == rest;
    } else {
      assert content[pos..pos + max] == rest[..max] && rest[max..] == content[pos + max..];
      assert segments + ([rest[..max]] + Split(rest[max..], max)) == segments + [rest[..max]] + Split(rest[max..], max);
    }
  }

  /** What the splitting loop has achieved: nothing cut amiss below `pos`, and the pieces up to there. */
  ghost predicate Progress(segments: seq<seq<Byte>>, content: seq<Byte>, pos: nat) {
    && (pos == |content| || (pos < |content| && pos % MAX_CACHE_FILE_SIZE == 0))
    && CuttableBelow(content, pos)
    && SoFar(segments, content, pos, MAX_CACHE_FILE_SIZE)
  }

  lemma Begin(content: seq<Byte>)
    ensures Progress([], content, 0) || content == []
    ensures |content| <= MAX_CACHE_FILE_SIZE ==> Cuttable(content)
  {
    NextCut(0);
    assert content[0..] == content;
    assert [] + Split(content, MAX_CACHE_FILE_SIZE) == Split(content, MAX_CACHE_FILE_SIZE);
  }

  lemma NextCutAt(pos: nat, end: nat)
    requires pos % MAX_CACHE_FILE_SIZE == 0 && end == pos + MAX_CACHE_FILE_SIZE
    ensures end % MAX_CACHE_FILE_SIZE == 0
  {
    NextCut(pos);
  }

  lemma AdvanceOverBoundary(segments: seq<seq<Byte>>, content: seq<Byte>, pos: nat, end: nat)
    requires pos < |content| && Progress(segments, content, pos)
    requires end == Min(pos + MAX_CACHE_FILE_SIZE, |content|)
    requires IsCharBoundary(content, pos)
    ensures Progress(segments + [content[pos..end]], content, end)
  {
    CuttableFurther(content, pos, end);
    SplitStep(segments, content, pos, MAX_CACHE_FILE_SIZE);
  }

  lemma Advance(segments: seq<seq<Byte>>, content: seq<Byte>, pos: nat, end: nat)
    requires pos < |content| && Progress(segments, content, pos)
    requires end == Min(pos + MAX_CACHE_FILE_SIZE, |content|)
    ensures if IsCharBoundary(content, pos) && IsCharBoundary(content, end)
            then Progress(segments + [content[pos..end]], content, end)
            else !Cuttable(content)
  {
    if !IsCharBoundary(content, pos) {
      BadCut(content, pos);
    } else if !IsCharBoundary(content, end) {
      NextCutAt(pos, end);
      BadCut(content, end);
    } else {
      AdvanceOverBoundary(segments, content, pos, end);
    }
  }

  lemma BadCut(content: seq<Byte>, pos: nat)
    requires 0 < pos < |content| && pos % MAX_CACHE_FILE_SIZE == 0 && !IsCharBoundary(content, pos)
    ensures !Cuttable(content)
  {
  }

  datatype SplitResult = Segments(segments: seq<seq<Byte>>) | Panic

  /** Slicing a string off a character boundary panics; otherwise the segments are those of `Split`. */
  method SplitCacheContent(content: seq<Byte>) returns (r: SplitResult)
    ensures r.Segments? <==> Cuttable(content)
    ensures r.Segments? ==> r.segments == Split(content, MAX_CACHE_FILE_SIZE)
  {
    Begin(content);
    if |content| <= MAX_CACHE_FILE_SIZE {
      return Segments([content]);
    }
    var segments := [];
    var currentPos := 0;
    while currentPos < |content|
      invariant 0 <= currentPos <= |content|
      invariant Progress(segments, content, currentPos)
    {
      var segmentEnd := Min(currentPos + MAX_CACHE_FILE_SIZE, |content|);
      Advance(segments, content, currentPos, segmentEnd);
      if !IsCharBoundary(content, currentPos) || !IsCharBoundary(content, segmentEnd) {
        return Panic;
      }
      segments := segments + [content[currentPos..segmentEnd]];
      currentPos := segmentEnd;
    }
    return Segments(segments);
  }

  /** A content of single-byte characters is always cuttable. */
  lemma AsciiCuttable(content: seq<Byte>)
    requires forall i :: 0 <= i < |content| ==> content[i] < 0x80
    ensures Cuttable(content)
  {
  }

  /** A content one byte too long for a single file, whose last character has two bytes, one on either side of
      the cut: the splitter panics. */
  lemma TwoByteCharacterPanics()
    ensures var content := seq(MAX_CACHE_FILE_SIZE - 1, i => 0x61) + [0xC3, 0xA9];
            |content| == 20_971_521 && !Cuttable(content)
  {
    var content := seq(MAX_CACHE_FILE_SIZE - 1, i => 0x61) + [0xC3, 0xA9];
    assert content[MAX_CACHE_FILE_SIZE] == 0xA9;
    BadCut(content, MAX_CACHE_FILE_SIZE);
  }

  // ---------------------------------------------------------------- numbered files

  type Files = map<string, seq<Byte>>

  function Prefix(base: string): string {
    base + ".json."
  }

  function FileName(base: string, i: nat): string {
    Prefix(base) + Print(i + 1, 10)
  }

  /** The files that hold the segments, one each. */
  function SegmentFiles(base: string, segments: seq<seq<Byte>>): Files {
    if segments == [] then map[]
    else SegmentFiles(base, segments[..|segments| - 1])[FileName(base, |segments| - 1) := segments[|segments| - 1]]
  }

  /** The numbers start at 1 and are not padded. */
  lemma FilesAreNumbered()
    ensures FileName("rpc", 0) == "rpc.json.1" && FileName("rpc", 9) == "rpc.json.10"
  {
    assert Print(1, 10) == "1" && Print(10, 10) == Print(1, 10) + "0";
  }

  lemma FileNameInjective(base: string, i: nat, j: nat)
    ensures FileName(base, i) == FileName(base, j) ==> i == j
  {
    var n := |Prefix(base)|;
    assert FileName(base, i)[n..] == Print(i + 1, 10) && FileName(base, j)[n..] == Print(j + 1, 10);
    PrintInjective(i + 1, j + 1, 10);
  }

  lemma {:induction false} SegmentFilesAt(base: string, segments: seq<seq<Byte>>, i: nat)
    requires i < |segments|
    ensures FileName(base, i) in SegmentFiles(base, segments)
    ensures SegmentFiles(base, segments)[FileName(base, i)] == segments[i]
    decreases |segments|
  {
    var n := |segments| - 1;
    if i < n {
      SegmentFilesAt(base, segments[..n], i);
      FileNameInjective(base, i, n);
    }
  }

  /** The text after the last dot. */
  function Extension(name: string): (r: string)
    ensures |r| <= |name|
  {
    if name == [] || name[|name| - 1] == '.' then [] else Extension(name[..|name| - 1]) + [name[|name| - 1]]
  }

  /** The numeric suffix by which the loader sorts; anything unparsable counts as 0. */
  function FileNumber(name: string): nat {
    var n := Parse(Extension(name), 0x1_0000_0000);
    if n.Some? then n.value else 0
  }

  lemma {:induction false} ExtensionAfterDot(stem: string, ext: string)
    requires '.' !in ext
    ensures Extension(stem + "." + ext) == ext
    decreases |ext|
  {
    var name := stem + "." + ext;
    if ext != [] {
      var n := |ext| - 1;
      ExtensionAfterDot(stem, ext[..n]);
      assert name[..|name| - 1] == stem + "." + ext[..n];
      assert ext == ext[..n] + [ext[n]];
    }
  }

  lemma FileNumberOfSegment(base: string, i: nat)
    requires i + 1 < 0x1_0000_0000
    ensures FileNumber(FileName(base, i)) == i + 1
  {
    var digits := Print(i + 1, 10);
    assert '.' !in digits by {
      assert forall k :: 0 <= k < |digits| ==> DigitValue(digits[k]) < 10;
    }
    assert FileName(base, i) == (base + ".json") + "." + digits;
    ExtensionAfterDot(base + ".json", digits);
    ParsePrint(i + 1, 0x1_0000_0000);
  }

  predicate NumberLe(a: string, b: string) {
    FileNumber(a) <= FileNumber(b)
  }

  // ---------------------------------------------------------------- loading

  function Matching(base: string, listing: seq<string>): (r: seq<string>)
    ensures forall n :: n in r ==> n in listing && Prefix(base) <= n
    ensures |r| <= |listing|
  {
    if listing == [] then []
    else Chosen(base, listing[0]) + Matching(base, listing[1..])
  }

  function Chosen(base: string, name: string): seq<string> {
    if Prefix(base) <= name then [name] else []
  }

  function Contents(files: Files, names: seq<string>): seq<seq<Byte>>
    requires forall n :: n in names ==> n in files
  {
    seq(|names|, i requires 0 <= i < |names| => files[names[i]])
  }

  lemma {:induction false} MatchingSnoc(base: string, listing: seq<string>, n: string)
    ensures Matching(base, listing + [n]) == Matching(base, listing) + Chosen(base, n)
  {
    if listing == [] {
      assert [] + [n] == [n];
    } else {
      MatchingSnoc(base, listing[1..], n);
      assert (listing + [n])[1..] == listing[1..] + [n];
      Associative(Chosen(base, listing[0]), Matching(base, listing[1..]), Chosen(base, n));
    }
  }

  /** What the loader reads, given the order in which the directory was listed. */
  function Loaded(base: string, files: Files, listing: seq<string>): seq<Byte>
    requires forall n :: n in listing ==> n in files
  {
    var names := Sort(NumberLe, Matching(base, listing));
    SortedInFiles(base, files, listing);
    Concat(Contents(files, names))
  }

  /** Only the listed files matter. */
  lemma LoadedAgrees(base: string, files: Files, others: Files, listing: seq<string>)
    requires forall n :: n in listing ==> n in files && n in others && files[n] == others[n]
    ensures Loaded(base, files, listing) == Loaded(base, others, listing)
  {
    var names := Sort(NumberLe, Matching(base, listing));
    forall n | n in names ensures n in listing {
      SortElements(NumberLe, Matching(base, listing), n);
    }
    assert Contents(files, names) == Contents(others, names);
  }

  lemma SortedInFiles(base: string, files: Files, listing: seq<string>)
    requires forall n :: n in listing ==> n in files
    ensures forall n :: n in Sort(NumberLe, Matching(base, listing)) ==> n in files
  {
    forall n | n in Sort(NumberLe, Matching(base, listing)) ensures n in files {
      SortElements(NumberLe, Matching(base, listing), n);
    }
  }

  method CollectSplitFiles(base: string, listing: seq<string>) returns (splitFiles: seq<string>)
    ensures splitFiles == Matching(base, listing)
  {
    splitFiles := [];
    for i := 0 to |listing|
      invariant splitFiles == Matching(base, listing[..i])
    {
      MatchingSnoc(base, listing[..i], listing[i]);
      assert listing[..i + 1] == listing[..i] + [listing[i]];
      if Prefix(base) <= listing[i] {
        splitFiles := splitFiles + [listing[i]];
      }
    }
    assert listing[..|listing|] == listing;
  }

  method ReadAll(files: Files, names: seq<string>) returns (combined: seq<Byte>)
    requires forall n :: n in names ==> n in files
    ensures combined == Concat(Contents(files, names))
  {
    combined := [];
    ghost var all := Contents(files, names);
    for i := 0 to |names|
      invariant combined == Concat(all[..i])
    {
      ConcatSnoc(all[..i], all[i]);
      assert all[..i + 1] == all[..i] + [all[i]];
      combined := combined + files[names[i]];
    }
    assert all[..|all|] == all;
  }

  /** Without split files there is nothing to parse. */
  method LoadFromSplitFiles(base: string, files: Files, listing: seq<string>) returns (content: Option<seq<Byte>>)
    requires forall n :: n in listing ==> n in files
    ensures content == if Matching(base, listing) == [] then None else Some(Loaded(base, files, listing))
  {
    var splitFiles := CollectSplitFiles(base, listing);
    if splitFiles == [] {
      return None;
    }
    splitFiles := Sort(NumberLe, splitFiles);
    SortedInFiles(base, files, listing);
    var combined := ReadAll(files, splitFiles);
    return Some(combined);
  }

  function Names(base: string, n: nat): (r: seq<string>)
    ensures |r| == n
    ensures forall i :: 0 <= i < n ==> r[i] == FileName(base, i)
  {
    seq(n, i requires 0 <= i < n => FileName(base, i))
  }

  lemma NamesSorted(base: string, n: nat)
    requires n < 0x1_0000_0000
    ensures Sorted(NumberLe, Names(base, n)) && Strict(NumberLe, Names(base, n))
  {
    var names := Names(base, n);
    forall i, j | 0 <= i <= j < n ensures NumberLe(names[i], names[j]) && (NumberLe(names[j], names[i]) ==> i == j) {
      FileNumberOfSegment(base, i);
      FileNumberOfSegment(base, j);
    }
    forall x, y | x in names && y in names && NumberLe(x, y) && NumberLe(y, x) ensures x == y {
      var i :| 0 <= i < n && names[i] == x;
      var j :| 0 <= j < n && names[j] == y;
      FileNumberOfSegment(base, i);
      FileNumberOfSegment(base, j);
    }
  }

  /** A directory that holds the segment files, listed in any order and beside any other files, loads
      as the concatenation of the segments. */
  lemma LoadRebuilds(base: string, segments: seq<seq<Byte>>, files: Files, listing: seq<string>)
    requires |segments| < 0x1_0000_0000
    requires forall n :: n in listing ==> n in files
    requires forall n :: n in SegmentFiles(base, segments) ==> n in files && files[n] == SegmentFiles(base, segments)[n]
    requires multiset(Matching(base, listing)) == multiset(Names(base, |segments|))
    ensures Loaded(base, files, listing) == Concat(segments)
  {
    var names := Names(base, |segments|);
    var found := Matching(base, listing);
    assert TotalPreorder(NumberLe);
    SortSorts(NumberLe, found);
    SortPermutes(NumberLe, found);
    NamesSorted(base, |segments|);
    SortedUnique(NumberLe, names, Sort(NumberLe, found));
    SortedInFiles(base, files, listing);
    forall i | 0 <= i < |segments| ensures files[names[i]] == segments[i] {
      SegmentFilesAt(base, segments, i);
    }
    assert Contents(files, names) == segments;
  }

  /** Splitting and loading are inverse for every content the splitter accepts. */
  lemma RoundTrip(base: string, content: seq<Byte>, max: nat, files: Files, listing: seq<string>)
    requires max > 0 && |Split(content, max)| < 0x1_0000_0000
    requires files == SegmentFiles(base, Split(content, max))
    requires forall n :: n in listing ==> n in files
    requires multiset(listing) == multiset(Names(base, |Split(content, max)|))
    ensures Loaded(base, files, listing) == content
  {
    SplitHoldsContent(content, max);
    forall n | n in listing ensures Prefix(base) <= n {
      assert n in multiset(listing);
      assert n in Names(base, |Split(content, max)|);
    }
    AllMatch(base, listing);
    LoadRebuilds(base, Split(content, max), files, listing);
  }

  lemma {:induction false} AllMatch(base: string, listing: seq<string>)
    requires forall n :: n in listing ==> Prefix(base) <= n
    ensures Matching(base, listing) == listing
  {
    if listing != [] {
      assert listing[0] in listing;
      assert listing == [listing[0]] + listing[1..];
      assert forall n :: n in listing[1..] ==> n in listing;
      AllMatch(base, listing[1..]);
    }
  }

  // ---------------------------------------------------------------- loading a part

  /** Some of the files of a collection, unchanged. */
  ghost predicate PartOf(files: Files, all: Files) {
    forall n :: n in files ==> n in all && all[n] == files[n]
  }

  function Size(data: seq<Byte>): int {
    |data|
  }

  lemma {:induction false} ContentsSize(files: Files, names: seq<string>)
    requires multiset(names) == multiset(files.Keys)
    requires forall n :: n in names ==> n in files
    ensures |Concat(Contents(files, names))| == Sum(files, Size)
    decreases |names|
  {
    if names == [] {
      NothingListed(files);
    } else {
      var n, rest := names[0], names[1..];
      FirstListed(files, names);
      SumRemove(files, Size, n);
      ContentsSize(files - {n}, rest);
      assert Contents(files, names)[1..] == Contents(files - {n}, rest);
    }
  }

  lemma NothingListed(files: Files)
    requires multiset(files.Keys) == multiset{}
    ensures files == map[]
  {
    assert forall n :: n in files ==> n in multiset(files.Keys);
  }

  lemma FirstListed(files: Files, names: seq<string>)
    requires names != [] && multiset(names) == multiset(files.Keys)
    ensures names[0] in files && multiset(names[1..]) == multiset((files - {names[0]}).Keys)
    ensures forall n :: n in names[1..] ==> n in files - {names[0]}
  {
    TailMultiset(names);
    assert names[0] in multiset(names);
    var others := (files - {names[0]}).Keys;
    assert others == files.Keys - {names[0]};
    assert multiset(others) == multiset(files.Keys) - multiset{names[0]};
    forall n | n in names[1..] ensures n in others {
      assert n in multiset(names[1..]);
    }
  }

  lemma {:induction false} SegmentOf(base: string, segments: seq<seq<Byte>>, name: string) returns (i: nat)
    requires name in SegmentFiles(base, segments)
    ensures i < |segments| && name == FileName(base, i) && SegmentFiles(base, segments)[name] == segments[i]
    decreases |segments|
  {
    var n := |segments| - 1;
    if name == FileName(base, n) {
      i := n;
    } else {
      i := SegmentOf(base, segments[..n], name);
    }
  }

  lemma {:induction false} NamesAreKeys(base: string, segments: seq<seq<Byte>>)
    ensures multiset(Names(base, |segments|)) == multiset(SegmentFiles(base, segments).Keys)
    decreases |segments|
  {
    if segments == [] {
      assert Names(base, 0) == [];
    } else {
      var n := |segments| - 1;
      var before, last := SegmentFiles(base, segments[..n]), FileName(base, n);
      NamesAreKeys(base, segments[..n]);
      if last in before {
        var i := SegmentOf(base, segments[..n], last);
        FileNameInjective(base, i, n);
      }
      assert Names(base, n + 1) == Names(base, n) + [last];
      assert SegmentFiles(base, segments).Keys == before.Keys + {last};
    }
  }

  lemma LoadedSize(base: string, segments: seq<seq<Byte>>, part: Files, listing: seq<string>)
    requires PartOf(part, SegmentFiles(base, segments)) && multiset(listing) == multiset(part.Keys)
    requires forall n :: n in listing ==> n in part
    ensures |Loaded(base, part, listing)| == Sum(part, Size)
  {
    forall n | n in listing ensures Prefix(base) <= n {
      var i := SegmentOf(base, segments, n);
    }
    AllMatch(base, listing);
    SortPermutes(NumberLe, listing);
    SortedInFiles(base, part, listing);
    ContentsSize(part, Sort(NumberLe, listing));
  }

  lemma NoSegmentEmpty(base: string, content: seq<Byte>, max: nat, name: string)
    requires max > 0 && content != [] && name in SegmentFiles(base, Split(content, max))
    ensures Size(SegmentFiles(base, Split(content, max))[name]) > 0
  {
    SplitHoldsContent(content, max);
    var i := SegmentOf(base, Split(content, max), name);
  }

  /** Of a directory that has lost some of its files, or none, the loader makes the content exactly when it has
      lost none. */
  lemma PartialLoad(base: string, content: seq<Byte>, max: nat, part: Files, listing: seq<string>)
    requires max > 0 && |Split(content, max)| < 0x1_0000_0000 && content != []
    requires PartOf(part, SegmentFiles(base, Split(content, max)))
    requires multiset(listing) == multiset(part.Keys) && forall n :: n in listing ==> n in part
    ensures Loaded(base, part, listing) == content <==> part == SegmentFiles(base, Split(content, max))
  {
    var all, names := SegmentFiles(base, Split(content, max)), Names(base, |Split(content, max)|);
    NamesAreKeys(base, Split(content, max));
    if part == all {
      RoundTrip(base, content, max, part, listing);
    } else {
      var n := MissingFile(part, all);
      NoSegmentEmpty(base, content, max, n);
      SumMissing(part, all, Size, n);
      LoadedSize(base, Split(content, max), part, listing);
      forall n | n in names ensures n in all {
        assert n in multiset(names);
      }
      LoadedSize(base, Split(content, max), all, names);
      RoundTrip(base, content, max, all, names);
    }
  }

  lemma MissingFile(part: Files, all: Files) returns (n: string)
    requires PartOf(part, all) && part != all
    ensures n in all && n !in part
  {
    assert part.Keys == all.Keys ==> part == all;
    n :| n in all && n !in part;
  }
}
