/** JSON values as the proxy handles them (serde_json's `Value`), without their text syntax. */
module Json {
  import opened Common
  import opened Sorting

  /** A number is its canonical text, which is all the proxy ever looks at. */
  datatype Value =
    | JNull
    | JBool(b: bool)
    | JNumber(text: string)
    | JString(s: string)
    | JArray(items: seq<Value>)
    | JObject(fields: seq<Field>)

  datatype Field = Field(key: string, val: Value)

  predicate DistinctKeys(fields: seq<Field>) {
    forall i, j :: 0 <= i < j < |fields| ==> fields[i].key != fields[j].key
  }

  /** Every object, at any depth, has each key once: the maps of serde_json guarantee it. */
  predicate WellFormed(v: Value)
    decreases v
  {
    match v
    case JArray(items) => forall x :: x in items ==> WellFormed(x)
    case JObject(fields) => DistinctKeys(fields) && forall f :: f in fields ==> WellFormed(f.val)
    case _ => true
  }

  function Lookup(fields: seq<Field>, key: string): (r: Option<Value>)
    ensures r.Some? ==> Field(key, r.value) in fields
    ensures r.None? ==> forall f :: f in fields ==> f.key != key
  {
    if fields == [] then None
    else if fields[0].key == key then Some(fields[0].val)
    else Lookup(fields[1..], key)
  }

  /** `Value::get`: only objects have members. */
  function Get(v: Value, key: string): Option<Value> {
    if v.JObject? then Lookup(v.fields, key) else None
  }

  function AsStr(v: Option<Value>): Option<string> {
    if v.Some? && v.value.JString? then Some(v.value.s) else None
  }

  /** Lexicographic order of strings. */
  predicate StrLe(a: string, b: string) {
    a == [] || (b != [] && (a[0] < b[0] || (a[0] == b[0] && StrLe(a[1..], b[1..]))))
  }

  lemma {:induction false} StrLeTotal(a: string, b: string)
    ensures StrLe(a, b) || StrLe(b, a)
    ensures StrLe(a, b) && StrLe(b, a) ==> a == b
  {
    if a != [] && b != [] {
      StrLeTotal(a[1..], b[1..]);
      assert a == [a[0]] + a[1..] && b == [b[0]] + b[1..];
    }
  }

  lemma {:induction false} StrLeTransitive(a: string, b: string, c: string)
    requires StrLe(a, b) && StrLe(b, c)
    ensures StrLe(a, c)
  {
    if a != [] && a[0] == b[0] == c[0] {
      StrLeTransitive(a[1..], b[1..], c[1..]);
    }
  }

  predicate FieldLe(f: Field, g: Field) {
    StrLe(f.key, g.key)
  }

  lemma FieldLeTotal()
    ensures TotalPreorder(FieldLe)
  {
    forall f, g: Field ensures FieldLe(f, g) || FieldLe(g, f) {
      StrLeTotal(f.key, g.key);
    }
    forall f, g, h: Field | FieldLe(f, g) && FieldLe(g, h) ensures FieldLe(f, h) {
      StrLeTransitive(f.key, g.key, h.key);
    }
  }

  /** The fields in key order, as `obj.iter().collect::<BTreeMap<_, _>>()` yields them. */
  function SortFields(fields: seq<Field>): (r: seq<Field>)
    ensures |r| == |fields|
  {
    Sort(FieldLe, fields)
  }

  lemma SortFieldsElements(fields: seq<Field>)
    ensures forall f :: f in SortFields(fields) <==> f in fields
  {
    forall f ensures f in SortFields(fields) <==> f in fields {
      SortElements(FieldLe, fields, f);
    }
  }

  lemma DistinctStrict(fields: seq<Field>)
    requires DistinctKeys(fields)
    ensures Strict(FieldLe, fields)
  {
    forall x, y | x in fields && y in fields && FieldLe(x, y) && FieldLe(y, x) ensures x == y {
      StrLeTotal(x.key, y.key);
    }
  }

  /** Key order erases the order in which the members were written. */
  lemma SortFieldsOrderFree(f: seq<Field>, g: seq<Field>)
    requires DistinctKeys(f) && multiset(f) == multiset(g)
    ensures SortFields(f) == SortFields(g)
  {
    FieldLeTotal();
    SortPermutes(FieldLe, f);
    SortPermutes(FieldLe, g);
    SortSorts(FieldLe, f);
    SortSorts(FieldLe, g);
    SortFieldsElements(f);
    DistinctStrict(f);
    SortedUnique(FieldLe, SortFields(f), SortFields(g));
  }

  lemma {:induction false} CountDistinct(f: seq<Field>, x: Field)
    requires DistinctKeys(f)
    ensures multiset(f)[x] == if x in f then 1 else 0
  {
    if f != [] {
      assert f == [f[0]] + f[1..];
      CountDistinct(f[1..], x);
    }
  }

  lemma TwicePresent(s: seq<Field>, i: nat, j: nat)
    requires i < j < |s| && s[i] == s[j]
    ensures multiset(s)[s[i]] >= 2
  {
    assert s == s[..j] + s[j..];
    assert s[i] in multiset(s[..j]) && s[j] in multiset(s[j..]);
  }

  lemma SortFieldsDistinct(fields: seq<Field>)
    requires DistinctKeys(fields)
    ensures DistinctKeys(SortFields(fields))
  {
    var s := SortFields(fields);
    SortPermutes(FieldLe, fields);
    SortFieldsElements(fields);
    forall i, j | 0 <= i < j < |s| ensures s[i].key != s[j].key {
      if s[i].key == s[j].key {
        assert s[i] in fields && s[j] in fields;
        TwicePresent(s, i, j);
        CountDistinct(fields, s[i]);
      }
    }
  }
}
