/** Transient storage as a map with text keys, `address:slot`, and back. Maps are walked in any order. */
module Snapshot {
  import opened Common
  import opened Strings
  import opened Addresses
  import Numerals

  const WORD_BOUND: nat := 0x1_0000_0000_0000_0000_0000_0000_0000_0000_0000_0000_0000_0000_0000_0000_0000_0000
  type Word = n: nat | n < WORD_BOUND

  datatype Key = Key(address: Address, slot: Word)
  type Storage = map<Key, Word>

  datatype Error = BadFormat(key: string) | BadAddress(key: string) | BadSlot(key: string)

  function PrintKey(k: Key, casing: Casing): string {
    PrintAddress(k.address, casing) + ":" + Numerals.Print(k.slot, 10)
  }

  /** The words' own parser. All that is known of it is that it reads back what is printed; which other
      spellings it takes is its own affair. */
  type WordParser = string -> Option<Word>

  ghost predicate ReadsDecimals(words: WordParser) {
    forall n: Word :: words(Numerals.Print(n, 10)) == Some(n)
  }

  function ParseKey(s: string, words: WordParser): Result<Key, Error> {
    var parts := Split(s, ':');
    if |parts| != 2 then Err(BadFormat(s))
    else match (ParseAddress(parts[0]), words(parts[1]))
      case (None, _) => Err(BadAddress(s))
      case (_, None) => Err(BadSlot(s))
      case (Some(address), Some(slot)) => Ok(Key(address, slot))
  }

  lemma ParsePrintKey(k: Key, casing: Casing, words: WordParser)
    requires ReadsDecimals(words)
    ensures ParseKey(PrintKey(k, casing), words) == Ok(k)
  {
    ParsePrintAddress(k.address, casing);
    DigitsHaveNoSpace(k.slot);
    SplitTwo(PrintAddress(k.address, casing), Numerals.Print(k.slot, 10), ':');
  }

  /** So no two keys share a text. */
  lemma PrintKeyInjective(j: Key, k: Key, casing: Casing)
    ensures PrintKey(j, casing) == PrintKey(k, casing) ==> j == k
  {
    DecimalsExist();
    ParsePrintKey(j, casing, Decimals());
    ParsePrintKey(k, casing, Decimals());
  }

  /** The text is the address, a colon and the slot in decimal. */
  lemma KeyFormat(k: Key, casing: Casing)
    ensures var s := PrintKey(k, casing);
            && |s| > 43 && s[..2] == "0x" && ParseAddress(s[..42]) == Some(k.address) && s[42] == ':'
            && Numerals.AllDigits(s[43..], 10) && Numerals.Value(s[43..], 10) == k.slot
  {
    var s := PrintKey(k, casing);
    assert s[..42] == PrintAddress(k.address, casing) && s[43..] == Numerals.Print(k.slot, 10);
    ParsePrintAddress(k.address, casing);
    Numerals.ValuePrint(k.slot, 10);
  }

  /** A parser that takes decimals alone. */
  function Decimals(): WordParser {
    s => DecimalWord(s)
  }

  function DecimalWord(s: string): Option<Word> {
    if s != [] && Numerals.AllDigits(s, 10) && Numerals.Value(s, 10) < WORD_BOUND
    then Some(Numerals.Value(s, 10)) else None
  }

  lemma DecimalsExist()
    ensures ReadsDecimals(Decimals())
  {
    forall n: Word ensures Decimals()(Numerals.Print(n, 10)) == Some(n) {
      Numerals.ValuePrint(n, 10);
    }
  }

  // ---------------------------------------------------------------- writing

  function Printer(casing: Casing): Key -> string {
    k => PrintKey(k, casing)
  }

  /** The text map holds exactly the storage's entries under their printed keys. */
  ghost predicate Written<K(!new)>(storage: map<K, Word>, m: map<string, Word>, text: K -> string) {
    && (forall k :: k in storage ==> text(k) in m && m[text(k)] == storage[k])
    && (forall s :: s in m ==> exists k :: k in storage && s == text(k))
  }

  /** The text map holds exactly the entries that are no longer in `rest`. */
  ghost predicate WrittenBut<K(!new)>(
    storage: map<K, Word>, rest: map<K, Word>, m: map<string, Word>, text: K -> string)
  {
    && (forall k :: k in rest ==> k in storage && rest[k] == storage[k])
    && (forall k :: k in storage && k !in rest ==> text(k) in m && m[text(k)] == storage[k])
    && (forall s :: s in m ==> exists k :: k in storage && k !in rest && s == text(k))
  }

  lemma WriteOne<K(!new)>(storage: map<K, Word>, rest: map<K, Word>, m: map<string, Word>, text: K -> string, k: K)
    requires WrittenBut(storage, rest, m, text) && k in rest
    requires forall j :: j in storage && j != k ==> text(j) != text(k)
    ensures WrittenBut(storage, rest - {k}, m[text(k) := storage[k]], text)
  {
    var n := m[text(k) := storage[k]];
    forall s | s in n ensures exists j :: j in storage && j !in rest - {k} && s == text(j) {
      if s == text(k) {
        assert k !in rest - {k};
      } else {
        var j :| j in storage && j !in rest && s == text(j);
        assert j !in rest - {k};
      }
    }
  }

  method Serialize(storage: Storage, casing: Casing) returns (m: map<string, Word>)
    ensures Written(storage, m, Printer(casing))
  {
    var text := Printer(casing);
    m := map[];
    var rest := storage;
    while rest != map[]
      invariant WrittenBut(storage, rest, m, text)
      decreases |rest|
    {
      var k :| k in rest;
      forall j | j in storage && j != k ensures text(j) != text(k) {
        PrintKeyInjective(j, k, casing);
      }
      WriteOne(storage, rest, m, text, k);
      m := m[text(k) := storage[k]];
      rest := rest - {k};
    }
  }

  // ---------------------------------------------------------------- reading

  /** `storage` is what some order of the entries makes of the text map: every text key has its slot, and
      every slot the value of one of its text keys. */
  ghost predicate Collects<K>(m: map<string, Word>, names: map<string, K>, storage: map<K, Word>) {
    && (forall s :: s in m ==> s in names && names[s] in storage)
    && (forall k :: k in storage ==> exists s :: s in m && s in names && names[s] == k && m[s] == storage[k])
  }

  /** The slots that the well-formed text keys name. */
  function Names(m: map<string, Word>, words: WordParser): (names: map<string, Key>)
    ensures forall s :: s in names <==> s in m && ParseKey(s, words).Ok?
    ensures forall s :: s in names ==> ParseKey(s, words) == Ok(names[s])
  {
    map s | s in m && ParseKey(s, words).Ok? :: ParseKey(s, words).value
  }

  method Deserialize(m: map<string, Word>, words: WordParser) returns (r: Result<Storage, Error>)
    ensures r.Ok? <==> forall s :: s in m ==> ParseKey(s, words).Ok?
    ensures r.Ok? ==> Collects(m, Names(m, words), r.value)
    ensures r.Err? ==> exists s :: s in m && ParseKey(s, words) == Err(r.error)
  {
    var storage: Storage := map[];
    var rest := m;
    ghost var names := Names(m, words);
    while rest != map[]
      invariant forall s :: s in rest ==> s in m && rest[s] == m[s]
      invariant forall s :: s in m && s !in rest ==> s in names && names[s] in storage
      invariant forall k :: k in storage ==> exists s :: s in m && s in names && names[s] == k && m[s] == storage[k]
      decreases |rest|
    {
      var s :| s in rest;
      match ParseKey(s, words) {
        case Err(e) => return Err(e);
        case Ok(k) => storage := storage[k := m[s]];
      }
      rest := rest - {s};
    }
    r := Ok(storage);
  }

  // ---------------------------------------------------------------- round trip

  /** Writing and reading gives the same storage, whatever the casing of the addresses and in whatever
      order the entries come. */
  lemma RoundTrip(storage: Storage, m: map<string, Word>, casing: Casing, words: WordParser, again: Storage)
    requires Written(storage, m, Printer(casing)) && ReadsDecimals(words)
    ensures Collects(m, Names(m, words), again) <==> again == storage
  {
    var names := Names(m, words);
    forall k | k in storage ensures var s := Printer(casing)(k); s in names && names[s] == k {
      ParsePrintKey(k, casing, words);
    }
    Inverse(storage, m, Printer(casing), names, again);
  }

  lemma Inverse<K(!new)>(
    storage: map<K, Word>, m: map<string, Word>, text: K -> string, names: map<string, K>, again: map<K, Word>)
    requires Written(storage, m, text)
    requires forall k :: k in storage ==> text(k) in names && names[text(k)] == k
    ensures Collects(m, names, again) <==> again == storage
  {
    if Collects(m, names, again) {
      forall k | k in storage ensures k in again && again[k] == storage[k] {
        assert text(k) in m;
      }
      assert again.Keys == storage.Keys;
    }
  }

  method WriteAndRead(storage: Storage, casing: Casing, words: WordParser) returns (r: Result<Storage, Error>)
    requires ReadsDecimals(words)
    ensures r == Ok(storage)
  {
    var m := Serialize(storage, casing);
    forall s | s in m ensures ParseKey(s, words).Ok? {
      var k :| k in storage && s == Printer(casing)(k);
      ParsePrintKey(k, casing, words);
    }
    r := Deserialize(m, words);
    RoundTrip(storage, m, casing, words, r.value);
  }

  /** Two text keys name the same slot and have different values. */
  ghost predicate Ambiguous<K>(m: map<string, Word>, names: map<string, K>, s: string, t: string) {
    s in m && t in m && s in names && t in names && names[s] == names[t] && m[s] != m[t]
  }

  /** The order of the entries matters exactly when two keys are spellings of one slot with different
      values. */
  lemma OrderMattersExactly<K(!new)>(m: map<string, Word>, names: map<string, K>)
    requires m.Keys <= names.Keys
    ensures (exists a, b :: Collects(m, names, a) && Collects(m, names, b) && a != b) <==>
            exists s, t :: Ambiguous(m, names, s, t)
  {
    if s, t :| Ambiguous(m, names, s, t) {
      var a := CollectLast(m, names, s);
      var b := CollectLast(m, names, t);
      assert a != b;
    }
    if a, b :| Collects(m, names, a) && Collects(m, names, b) && a != b {
      assert a.Keys == b.Keys;
      var k :| k in a && a[k] != b[k];
      var s :| s in m && names[s] == k && m[s] == a[k];
      var t :| t in m && names[t] == k && m[t] == b[k];
      assert Ambiguous(m, names, s, t);
    }
  }

  /** What is read when `last` comes last. */
  lemma {:induction false} CollectLast<K(!new)>(m: map<string, Word>, names: map<string, K>, last: string)
    returns (storage: map<K, Word>)
    requires last in m && m.Keys <= names.Keys
    ensures Collects(m, names, storage) && names[last] in storage && storage[names[last]] == m[last]
    decreases |m|
  {
    var rest := m - {last};
    if rest == map[] {
      assert forall s :: s in m ==> s == last || s in rest;
      storage := map[names[last] := m[last]];
    } else {
      var s :| s in rest;
      var before := CollectLast(rest, names, s);
      storage := before[names[last] := m[last]];
      assert forall t :: t in m ==> t == last || t in rest;
    }
  }
}
