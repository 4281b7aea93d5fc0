/** The string operations that the small parsers use: split, find, trim and splitting into words. */
module Strings {
  import opened Common
  import Numerals

  /** Unicode's `White_Space` property. */
  predicate IsSpace(c: char) {
    var n := c as int;
    || 0x9 <= n <= 0xD || n == 0x20 || n == 0x85 || n == 0xA0 || n == 0x1680
    || 0x2000 <= n <= 0x200A || n == 0x2028 || n == 0x2029 || n == 0x202F || n == 0x205F || n == 0x3000
  }

  predicate NoSpace(s: string) {
    forall i :: 0 <= i < |s| ==> !IsSpace(s[i])
  }

  predicate Lacks(s: string, c: char) {
    forall i :: 0 <= i < |s| ==> s[i] != c
  }

  // ---------------------------------------------------------------- split at a character

  function Until(s: string, c: char): (n: nat)
    ensures n <= |s| && Lacks(s[..n], c) && (n < |s| ==> s[n] == c)
  {
    if s == [] || s[0] == c then 0 else 1 + Until(s[1..], c)
  }

  function Split(s: string, c: char): (parts: seq<string>)
    ensures |parts| > 0 && forall i :: 0 <= i < |parts| ==> Lacks(parts[i], c)
    decreases |s|
  {
    var n := Until(s, c);
    if n == |s| then [s] else [s[..n]] + Split(s[n + 1..], c)
  }

  lemma SplitFirst(x: string, y: string, c: char)
    requires Lacks(x, c)
    ensures Split(x + [c] + y, c) == [x] + Split(y, c)
  {
    var s := x + [c] + y;
    var n := Until(s, c);
    assert s[|x|] == c && forall i :: 0 <= i < |x| ==> s[i] == x[i];
    assert forall i :: 0 <= i < n ==> s[..n][i] == s[i];
    assert s[..n] == x && s[n + 1..] == y;
  }

  lemma SplitWhole(x: string, c: char)
    requires Lacks(x, c)
    ensures Split(x, c) == [x]
  {
  }

  lemma SplitTwo(x: string, y: string, c: char)
    requires Lacks(x, c) && Lacks(y, c)
    ensures Split(x + [c] + y, c) == [x, y]
  {
    SplitFirst(x, y, c);
    SplitWhole(y, c);
  }

  lemma SplitThree(x: string, y: string, z: string, c: char)
    requires Lacks(x, c) && Lacks(y, c) && Lacks(z, c)
    ensures Split(x + [c] + y + [c] + z, c) == [x, y, z]
  {
    SplitTwo(y, z, c);
    SplitFirst(x, y + [c] + z, c);
    Regroup(x + [c], y, [c], z);
  }

  lemma Regroup(a: string, b: string, c: string, d: string)
    ensures a + b + c + d == a + (b + c + d)
  {
  }

  lemma DigitsHaveNoSpace(n: nat)
    ensures NoSpace(Numerals.Print(n, 10)) && Lacks(Numerals.Print(n, 10), ':') && Lacks(Numerals.Print(n, 10), 'f')
  {
    var s := Numerals.Print(n, 10);
    forall i | 0 <= i < |s| ensures !IsSpace(s[i]) && s[i] != ':' && s[i] != 'f' {
      assert Numerals.DigitValue(s[i]) < 10;
    }
  }

  // ---------------------------------------------------------------- find a substring

  predicate At(s: string, pattern: string, i: nat) {
    i + |pattern| <= |s| && s[i..i + |pattern|] == pattern
  }

  ghost predicate Contains(s: string, pattern: string) {
    exists i: nat :: At(s, pattern, i)
  }

  /** The first place where the pattern occurs. */
  function Find(s: string, pattern: string): (r: Option<nat>)
    ensures match r
            case Some(i) => At(s, pattern, i) && forall j: nat :: j < i ==> !At(s, pattern, j)
            case None => !Contains(s, pattern)
  {
    FindFrom(s, pattern, 0)
  }

  function FindFrom(s: string, pattern: string, from: nat): (r: Option<nat>)
    ensures match r
            case Some(i) => from <= i && At(s, pattern, i) && forall j: nat :: from <= j < i ==> !At(s, pattern, j)
            case None => forall j: nat :: from <= j ==> !At(s, pattern, j)
    decreases |s| - from
  {
    if from + |pattern| > |s| then None
    else if At(s, pattern, from) then Some(from) else FindFrom(s, pattern, from + 1)
  }

  // ---------------------------------------------------------------- trim

  function TrimStart(s: string): string {
    if s != [] && IsSpace(s[0]) then TrimStart(s[1..]) else s
  }

  function TrimEnd(s: string): string
    decreases |s|
  {
    if s != [] && IsSpace(s[|s| - 1]) then TrimEnd(s[..|s| - 1]) else s
  }

  function Trim(s: string): string {
    TrimEnd(TrimStart(s))
  }

  predicate Trimmed(s: string) {
    s != [] ==> !IsSpace(s[0]) && !IsSpace(s[|s| - 1])
  }

  lemma TrimmedStays(s: string)
    requires Trimmed(s)
    ensures Trim(s) == s
  {
  }

  /** One space after a trimmed text is all that trimming takes away. */
  lemma TrimSpaceAfter(s: string)
    requires Trimmed(s)
    ensures Trim(s + " ") == s
  {
    if s == [] {
      assert s + " " == " " && TrimStart(" ") == [];
    } else {
      assert TrimStart(s + " ") == s + " ";
      assert (s + " ")[..|s|] == s;
      assert TrimEnd(s + " ") == TrimEnd(s);
    }
  }

  /** Trimming leaves a piece of the text. */
  lemma TrimIsPiece(s: string) returns (m: nat)
    ensures m + |Trim(s)| <= |s| && Trim(s) == s[m..m + |Trim(s)|]
  {
    m := TrimStartIsPiece(s);
    TrimEndIsPiece(TrimStart(s));
  }

  lemma TrimStartIsPiece(s: string) returns (m: nat)
    ensures m <= |s| && TrimStart(s) == s[m..]
    decreases |s|
  {
    if s != [] && IsSpace(s[0]) {
      m := TrimStartIsPiece(s[1..]);
      assert s[1..][m..] == s[m + 1..];
      m := m + 1;
    } else {
      m := 0;
      assert TrimStart(s) == s == s[m..];
    }
  }

  lemma TrimEndIsPiece(s: string)
    ensures TrimEnd(s) <= s
    decreases |s|
  {
    if s != [] && IsSpace(s[|s| - 1]) {
      TrimEndIsPiece(s[..|s| - 1]);
    }
  }

  lemma OccurrenceInPiece(s: string, m: nat, n: nat, pattern: string) returns (i: nat)
    requires m <= n <= |s| && Contains(s[m..n], pattern)
    ensures At(s, pattern, i) && m <= i <= n - |pattern|
  {
    var j: nat :| At(s[m..n], pattern, j);
    i := m + j;
    forall k | 0 <= k < |pattern| ensures s[i..i + |pattern|][k] == pattern[k] {
      assert s[m..n][j..j + |pattern|][k] == s[m..n][j + k] == s[i + k];
    }
  }

  /** A piece of a text without the pattern is without it, too. */
  lemma PieceLacks(s: string, m: nat, n: nat, pattern: string)
    requires m <= n <= |s| && !Contains(s, pattern)
    ensures !Contains(s[m..n], pattern)
  {
    if Contains(s[m..n], pattern) {
      var i := OccurrenceInPiece(s, m, n, pattern);
    }
  }

  lemma TrimLacks(s: string, pattern: string)
    requires !Contains(s, pattern)
    ensures !Contains(Trim(s), pattern)
  {
    var m := TrimIsPiece(s);
    PieceLacks(s, m, m + |Trim(s)|, pattern);
  }

  // ---------------------------------------------------------------- words

  function WordLength(s: string): (n: nat)
    ensures n <= |s| && NoSpace(s[..n]) && (n < |s| ==> IsSpace(s[n]))
  {
    if s == [] || IsSpace(s[0]) then 0 else 1 + WordLength(s[1..])
  }

  predicate IsWord(w: string) {
    w != [] && NoSpace(w)
  }

  /** The maximal runs of characters that are not white space. */
  function Words(s: string): (words: seq<string>)
    ensures forall i :: 0 <= i < |words| ==> IsWord(words[i])
    decreases |s|
  {
    if s == [] then []
    else if IsSpace(s[0]) then Words(s[1..])
    else
      var n := WordLength(s);
      [s[..n]] + Words(s[n..])
  }

  function Join(words: seq<string>): string {
    if |words| == 0 then []
    else if |words| == 1 then words[0]
    else words[0] + " " + Join(words[1..])
  }

  /** Contiguous white space becomes a single space, and the ends lose theirs. */
  function Normalize(s: string): string {
    Join(Words(s))
  }

  /** All white space is single plain spaces between other characters. */
  predicate Normal(s: string) {
    Trimmed(s) && forall i :: 0 <= i < |s| && IsSpace(s[i]) ==> s[i] == ' ' && i + 1 < |s| && !IsSpace(s[i + 1])
  }

  lemma {:induction false} JoinIsNormal(words: seq<string>)
    requires forall i :: 0 <= i < |words| ==> IsWord(words[i])
    ensures Normal(Join(words)) && (words != [] ==> Join(words) != [])
    decreases |words|
  {
    if |words| > 1 {
      JoinIsNormal(words[1..]);
      var w, rest := words[0], Join(words[1..]);
      var s := w + " " + rest;
      assert forall i :: 0 <= i < |w| ==> s[i] == w[i];
      forall i | 0 <= i < |s| && IsSpace(s[i]) ensures s[i] == ' ' && i + 1 < |s| && !IsSpace(s[i + 1]) {
        if i == |w| {
          assert s[i + 1] == rest[0];
        } else if i > |w| {
          assert s[i] == rest[i - |w| - 1];
          assert s[i + 1] == rest[i - |w|];
        }
      }
    }
  }

  lemma {:induction false} NormalStays(s: string)
    requires Normal(s)
    ensures Normalize(s) == s
    decreases |s|
  {
    if s != [] {
      var n := WordLength(s);
      if n == |s| {
        OneWord(s);
      } else {
        RestIsNormal(s, n);
        NormalStays(s[n + 1..]);
        FirstWord(s, n);
      }
    }
  }

  lemma OneWord(s: string)
    requires s != [] && WordLength(s) == |s|
    ensures Normalize(s) == s
  {
    assert s[..|s|] == s && s[|s|..] == [];
    assert Words(s) == [s];
  }

  lemma RestIsNormal(s: string, n: nat)
    requires Normal(s) && n < |s| && IsSpace(s[n])
    ensures Normal(s[n + 1..]) && s[n + 1..] != [] && s[n] == ' '
  {
    var rest := s[n + 1..];
    forall i | 0 <= i < |rest| && IsSpace(rest[i])
      ensures rest[i] == ' ' && i + 1 < |rest| && !IsSpace(rest[i + 1]) {
      assert rest[i] == s[n + 1 + i];
    }
  }

  lemma FirstWord(s: string, n: nat)
    requires s != [] && !IsSpace(s[0]) && n == WordLength(s) < |s|
    requires s[n] == ' ' && s[n + 1..] != [] && !IsSpace(s[n + 1]) && Normalize(s[n + 1..]) == s[n + 1..]
    ensures Normalize(s) == s
  {
    WordsFirst(s, n);
    JoinFirst(s[..n], Words(s[n + 1..]));
    CutAt(s, n);
  }

  lemma WordsFirst(s: string, n: nat)
    requires s != [] && !IsSpace(s[0]) && n == WordLength(s) < |s| && s[n + 1..] != [] && !IsSpace(s[n + 1])
    ensures Words(s) == [s[..n]] + Words(s[n + 1..]) && Words(s[n + 1..]) != []
  {
    assert s[n..][1..] == s[n + 1..];
    assert Words(s) == [s[..n]] + Words(s[n..]);
  }

  lemma JoinFirst(word: string, words: seq<string>)
    requires words != []
    ensures Join([word] + words) == word + " " + Join(words)
  {
    assert ([word] + words)[1..] == words;
  }

  lemma CutAt(s: string, n: nat)
    requires n < |s|
    ensures s == s[..n] + [s[n]] + s[n + 1..]
  {
  }

  /** The normal texts are the ones that normalization leaves alone, and its results are normal. */
  lemma NormalizeExactly(s: string)
    ensures Normalize(s) == s <==> Normal(s)
    ensures Normal(Normalize(s)) && Normalize(Normalize(s)) == Normalize(s)
  {
    JoinIsNormal(Words(s));
    NormalStays(Normalize(s));
    if Normal(s) {
      NormalStays(s);
    }
  }

  lemma {:induction false} WordLengthIs(s: string, n: nat)
    requires n < |s| && IsSpace(s[n]) && forall i :: 0 <= i < n ==> !IsSpace(s[i])
    ensures WordLength(s) == n
  {
    if n > 0 {
      WordLengthIs(s[1..], n - 1);
    }
  }

  lemma WordThen(w: string, rest: string)
    requires IsWord(w)
    ensures WordLength(w + " " + rest) == |w| && Words(w + " " + rest) == [w] + Words(rest)
  {
    var s := w + " " + rest;
    assert forall i :: 0 <= i < |w| ==> s[i] == w[i];
    WordLengthIs(s, |w|);
    assert s[..|w|] == w && s[|w|..] == " " + rest;
    assert (" " + rest)[1..] == rest;
  }

  lemma OnlyWord(w: string)
    requires IsWord(w)
    ensures Words(w) == [w]
  {
    var n := WordLength(w);
    assert n == |w| && w[..n] == w && w[n..] == [];
  }

  lemma {:induction false} WordsJoin(words: seq<string>)
    requires forall i :: 0 <= i < |words| ==> IsWord(words[i])
    ensures Words(Join(words)) == words
    decreases |words|
  {
    if |words| == 1 {
      OnlyWord(words[0]);
    } else if |words| > 1 {
      WordsJoin(words[1..]);
      WordThen(words[0], Join(words[1..]));
      assert words == [words[0]] + words[1..];
    }
  }

  /** The characters that are not white space. */
  function Letters(s: string): string {
    if s == [] then [] else (if IsSpace(s[0]) then [] else [s[0]]) + Letters(s[1..])
  }

  lemma {:induction false} LettersConcat(a: string, b: string)
    ensures Letters(a + b) == Letters(a) + Letters(b)
  {
    if a == [] {
      assert a + b == b;
    } else {
      assert (a + b)[1..] == a[1..] + b;
      LettersConcat(a[1..], b);
    }
  }

  lemma {:induction false} LettersOfWord(w: string)
    requires NoSpace(w)
    ensures Letters(w) == w
  {
    if w != [] {
      LettersOfWord(w[1..]);
    }
  }

  function Together(words: seq<string>): string {
    if words == [] then [] else words[0] + Together(words[1..])
  }

  lemma {:induction false} LettersOfJoin(words: seq<string>)
    requires forall i :: 0 <= i < |words| ==> IsWord(words[i])
    ensures Letters(Join(words)) == Together(words)
    decreases |words|
  {
    if |words| > 0 {
      LettersOfWord(words[0]);
      if |words| == 1 {
        assert Together(words) == words[0] + [];
      } else {
        LettersOfJoin(words[1..]);
        LettersConcat(words[0] + " ", Join(words[1..]));
        LettersConcat(words[0], " ");
        assert Letters(" ") == [];
      }
    }
  }

  lemma {:induction false} LettersOfText(s: string)
    ensures Together(Words(s)) == Letters(s)
    decreases |s|
  {
    if s != [] {
      if IsSpace(s[0]) {
        LettersOfText(s[1..]);
      } else {
        var n := WordLength(s);
        LettersOfText(s[n..]);
        LettersOfWord(s[..n]);
        LettersConcat(s[..n], s[n..]);
        assert s[..n] + s[n..] == s;
        assert ([s[..n]] + Words(s[n..]))[1..] == Words(s[n..]);
      }
    }
  }

  /** Normalization keeps the words and their order, and every character that is not white space. */
  lemma WordsSurvive(s: string)
    ensures Words(Normalize(s)) == Words(s) && Letters(Normalize(s)) == Letters(s)
  {
    WordsJoin(Words(s));
    LettersOfJoin(Words(s));
    LettersOfText(s);
  }

  lemma {:induction false} NormalizeShrinks(s: string)
    ensures |Normalize(s)| <= |s|
    decreases |s|
  {
    if s != [] {
      var n := WordLength(s);
      if IsSpace(s[0]) {
        NormalizeShrinks(s[1..]);
      } else if n < |s| {
        NormalizeShrinks(s[n + 1..]);
        assert s[n..][1..] == s[n + 1..];
        assert Words(s) == [s[..n]] + Words(s[n + 1..]);
      } else {
        assert Words(s) == [s[..n]];
      }
    }
  }

  lemma TrimEndKeeps(s: string, t: string)
    requires s != [] && !IsSpace(s[|s| - 1])
    ensures s <= TrimEnd(s + t)
    decreases |t|
  {
    if t == [] {
      assert s + t == s;
    } else {
      assert (s + t)[..|s + t| - 1] == s + t[..|t| - 1];
      TrimEndKeeps(s, t[..|t| - 1]);
    }
  }

  /** Trimming keeps a beginning that has no white space at its ends. */
  lemma TrimKeeps(s: string, t: string)
    requires s != [] && Trimmed(s)
    ensures s <= Trim(s + t) <= s + t
  {
    assert TrimStart(s + t) == s + t;
    TrimEndKeeps(s, t);
    TrimEndIsPiece(s + t);
  }
}
