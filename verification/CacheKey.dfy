/** Cache keys (`generate_cache_key`, `hash_json_value`): the stream of values fed to the hasher,
    and exactly which requests it tells apart. */
module CacheKey {
  import opened Common
  import opened Sorting
  import opened Json

  /** One `hash` call: a string, a bool or a length (`usize`). */
  datatype Token = TStr(s: string) | TBool(b: bool) | TLen(n: nat)

  function Tokens(v: Value): (r: seq<Token>)
    decreases v, 1, 0
  {
    match v
    case JNull => [TStr("null")]
    case JBool(b) => [TBool(b)]
    case JNumber(text) => [TStr(text)]
    case JString(s) => [TStr(s)]
    case JArray(items) => [TStr("array"), TLen(|items|)] + ItemTokens(v, items)
    case JObject(fields) =>
      SortedFieldsSmaller(v);
      [TStr("object"), TLen(|fields|)] + FieldTokens(v, SortFields(fields))
  }

  function ItemTokens(ghost parent: Value, items: seq<Value>): seq<Token>
    requires forall i :: 0 <= i < |items| ==> items[i] < parent
    decreases parent, 0, |items|
  {
    if items == [] then [] else Tokens(items[0]) + ItemTokens(parent, items[1..])
  }

  function FieldTokens(ghost parent: Value, fields: seq<Field>): seq<Token>
    requires forall i :: 0 <= i < |fields| ==> fields[i].val < parent
    decreases parent, 0, |fields|
  {
    if fields == [] then []
    else [TStr(fields[0].key)] + Tokens(fields[0].val) + FieldTokens(parent, fields[1..])
  }

  lemma SortedFieldsSmaller(v: Value)
    requires v.JObject?
    ensures forall i :: 0 <= i < |v.fields| ==> SortFields(v.fields)[i].val < v
  {
    var s := SortFields(v.fields);
    forall i | 0 <= i < |s| ensures s[i].val < v {
      SortFieldsElements(v.fields);
      assert s[i] in v.fields;
    }
  }

  /** The values whose only token is a string. */
  function ScalarText(v: Value): Option<string> {
    match v
    case JNull => Some("null")
    case JNumber(text) => Some(text)
    case JString(s) => Some(s)
    case _ => None
  }

  /** Equal up to member order, `null` for `"null"` and a number for its decimal text. */
  ghost predicate Equiv(a: Value, b: Value)
    decreases a
  {
    match a
    case JBool(x) => b.JBool? && b.b == x
    case JArray(xs) => b.JArray? && |b.items| == |xs| && forall i :: 0 <= i < |xs| ==> Equiv(xs[i], b.items[i])
    case JObject(fs) =>
      && b.JObject?
      && |b.fields| == |fs|
      && forall i :: 0 <= i < |fs| ==>
           exists j :: 0 <= j < |b.fields| && b.fields[j].key == fs[i].key && Equiv(fs[i].val, b.fields[j].val)
    case _ => ScalarText(b) == ScalarText(a)
  }

  /** What follows a value inside a stream: an end, a string or a bool, never a length. */
  predicate NoLen(ts: seq<Token>) {
    ts == [] || !ts[0].TLen?
  }

  lemma HeadIsNoLen(v: Value, rest: seq<Token>)
    ensures |Tokens(v)| > 0 && !Tokens(v)[0].TLen?
    ensures NoLen(Tokens(v) + rest)
  {
  }

  predicate Compound(v: Value) {
    v.JArray? || v.JObject?
  }

  /** A length token in second place gives an array or an object away. */
  lemma SecondToken(v: Value, rest: seq<Token>)
    requires NoLen(rest)
    ensures Compound(v) <==> |Tokens(v) + rest| > 1 && (Tokens(v) + rest)[1].TLen?
  {
    if !Compound(v) {
      assert |Tokens(v)| == 1;
    }
  }

  lemma HeadersAgree(a: Value, b: Value, ra: seq<Token>, rb: seq<Token>)
    requires NoLen(ra) && NoLen(rb) && Tokens(a) + ra == Tokens(b) + rb
    ensures Compound(a) <==> Compound(b)
    ensures Compound(a) ==> Tokens(a)[0] == Tokens(b)[0] && Tokens(a)[1] == Tokens(b)[1]
    ensures Compound(a) ==> Tokens(a)[2..] + ra == Tokens(b)[2..] + rb
  {
    SecondToken(a, ra);
    SecondToken(b, rb);
    if Compound(a) {
      var ta, tb := Tokens(a) + ra, Tokens(b) + rb;
      assert ta[0] == Tokens(a)[0] && tb[0] == Tokens(b)[0];
      assert ta[1] == Tokens(a)[1] && tb[1] == Tokens(b)[1];
      assert ta[2..] == Tokens(a)[2..] + ra && tb[2..] == Tokens(b)[2..] + rb;
    }
  }

  lemma DecodeScalar(a: Value, b: Value, ra: seq<Token>, rb: seq<Token>)
    requires !Compound(a) && !Compound(b)
    requires Tokens(a) + ra == Tokens(b) + rb
    ensures Equiv(a, b) && ra == rb
  {
    assert (Tokens(a) + ra)[0] == Tokens(a)[0] && (Tokens(b) + rb)[0] == Tokens(b)[0];
    assert ra == (Tokens(a) + ra)[1..] && rb == (Tokens(b) + rb)[1..];
  }

  /** The encoding is a prefix code: a stream can be read back in only one way, up to `Equiv`. */
  lemma {:induction false} Decode(a: Value, b: Value, ra: seq<Token>, rb: seq<Token>)
    requires WellFormed(a) && WellFormed(b) && NoLen(ra) && NoLen(rb)
    requires Tokens(a) + ra == Tokens(b) + rb
    ensures Equiv(a, b) && ra == rb
    decreases a, 1, 0
  {
    HeadersAgree(a, b, ra, rb);
    if a.JArray? {
      assert Tokens(a)[2..] == ItemTokens(a, a.items);
      assert b.JArray? && Tokens(b)[2..] == ItemTokens(b, b.items);
      DecodeItems(a, a.items, b, b.items, ra, rb);
    } else if a.JObject? {
      SortedFieldsSmaller(a);
      assert Tokens(a)[2..] == FieldTokens(a, SortFields(a.fields));
      SortedFieldsSmaller(b);
      assert b.JObject? && Tokens(b)[2..] == FieldTokens(b, SortFields(b.fields));
      SortedWellFormed(a);
      SortedWellFormed(b);
      DecodeFields(a, SortFields(a.fields), b, SortFields(b.fields), ra, rb);
      MatchedFields(a, b);
    } else {
      DecodeScalar(a, b, ra, rb);
    }
  }

  lemma SortedWellFormed(v: Value)
    requires v.JObject? && WellFormed(v)
    ensures forall i :: 0 <= i < |v.fields| ==> WellFormed(SortFields(v.fields)[i].val)
  {
    SortFieldsElements(v.fields);
    forall i | 0 <= i < |v.fields| ensures WellFormed(SortFields(v.fields)[i].val) {
      assert SortFields(v.fields)[i] in v.fields;
    }
  }

  /** One element read off the front of the stream. */
  lemma ItemStep(v: Value, xs: seq<Value>, rest: seq<Token>)
    requires forall i :: 0 <= i < |xs| ==> xs[i] < v
    requires xs != [] && NoLen(rest)
    ensures ItemTokens(v, xs) + rest == Tokens(xs[0]) + (ItemTokens(v, xs[1..]) + rest)
    ensures NoLen(ItemTokens(v, xs[1..]) + rest)
  {
    if |xs| > 1 {
      HeadIsNoLen(xs[1], ItemTokens(v, xs[2..]) + rest);
      assert xs[1..][1..] == xs[2..];
    } else {
      assert ItemTokens(v, xs[1..]) + rest == rest;
    }
  }

  lemma {:induction false} DecodeItems(
    a: Value, xs: seq<Value>, b: Value, ys: seq<Value>, ra: seq<Token>, rb: seq<Token>)
    requires forall i :: 0 <= i < |xs| ==> xs[i] < a && WellFormed(xs[i])
    requires forall i :: 0 <= i < |ys| ==> ys[i] < b && WellFormed(ys[i])
    requires |xs| == |ys| && NoLen(ra) && NoLen(rb)
    requires ItemTokens(a, xs) + ra == ItemTokens(b, ys) + rb
    ensures ra == rb
    ensures forall i :: 0 <= i < |xs| ==> Equiv(xs[i], ys[i])
    decreases a, 0, |xs|
  {
    if xs == [] {
      assert ra == ItemTokens(a, xs) + ra && rb == ItemTokens(b, ys) + rb;
    } else {
      ItemStep(a, xs, ra);
      ItemStep(b, ys, rb);
      Decode(xs[0], ys[0], ItemTokens(a, xs[1..]) + ra, ItemTokens(b, ys[1..]) + rb);
      DecodeItems(a, xs[1..], b, ys[1..], ra, rb);
    }
  }

  /** One member read off the front of the stream. */
  lemma FieldStep(v: Value, xs: seq<Field>, rest: seq<Token>)
    requires forall i :: 0 <= i < |xs| ==> xs[i].val < v
    requires xs != [] && NoLen(rest)
    ensures |FieldTokens(v, xs) + rest| > 0 && (FieldTokens(v, xs) + rest)[0] == TStr(xs[0].key)
    ensures (FieldTokens(v, xs) + rest)[1..] == Tokens(xs[0].val) + (FieldTokens(v, xs[1..]) + rest)
    ensures NoLen(FieldTokens(v, xs[1..]) + rest)
  {
    FieldsAreNoLen(v, xs[1..], rest);
    var key, val, tail := [TStr(xs[0].key)], Tokens(xs[0].val), FieldTokens(v, xs[1..]);
    Regroup(key, val, tail, rest);
  }

  lemma Regroup(key: seq<Token>, val: seq<Token>, tail: seq<Token>, rest: seq<Token>)
    requires |key| == 1
    ensures |key + val + tail + rest| > 0 && (key + val + tail + rest)[0] == key[0]
    ensures (key + val + tail + rest)[1..] == val + (tail + rest)
  {
  }

  lemma FieldsAreNoLen(v: Value, xs: seq<Field>, rest: seq<Token>)
    requires forall i :: 0 <= i < |xs| ==> xs[i].val < v
    requires NoLen(rest)
    ensures NoLen(FieldTokens(v, xs) + rest)
  {
    if xs == [] {
      assert FieldTokens(v, xs) + rest == rest;
    }
  }

  lemma {:induction false} DecodeFields(
    a: Value, xs: seq<Field>, b: Value, ys: seq<Field>, ra: seq<Token>, rb: seq<Token>)
    requires forall i :: 0 <= i < |xs| ==> xs[i].val < a && WellFormed(xs[i].val)
    requires forall i :: 0 <= i < |ys| ==> ys[i].val < b && WellFormed(ys[i].val)
    requires |xs| == |ys| && NoLen(ra) && NoLen(rb)
    requires FieldTokens(a, xs) + ra == FieldTokens(b, ys) + rb
    ensures ra == rb
    ensures forall i :: 0 <= i < |xs| ==> xs[i].key == ys[i].key && Equiv(xs[i].val, ys[i].val)
    decreases a, 0, |xs|
  {
    if xs == [] {
      assert ra == FieldTokens(a, xs) + ra && rb == FieldTokens(b, ys) + rb;
    } else {
      FieldStep(a, xs, ra);
      FieldStep(b, ys, rb);
      Decode(xs[0].val, ys[0].val, FieldTokens(a, xs[1..]) + ra, FieldTokens(b, ys[1..]) + rb);
      DecodeFields(a, xs[1..], b, ys[1..], ra, rb);
      HeadsAndTailsAgree(xs, ys);
    }
  }

  lemma HeadsAndTailsAgree(xs: seq<Field>, ys: seq<Field>)
    requires |xs| == |ys| > 0 && xs[0].key == ys[0].key && Equiv(xs[0].val, ys[0].val)
    requires forall i :: 0 <= i < |xs[1..]| ==>
               xs[1..][i].key == ys[1..][i].key && Equiv(xs[1..][i].val, ys[1..][i].val)
    ensures forall i :: 0 <= i < |xs| ==> xs[i].key == ys[i].key && Equiv(xs[i].val, ys[i].val)
  {
    forall i | 0 < i < |xs| ensures xs[i].key == ys[i].key && Equiv(xs[i].val, ys[i].val) {
      assert xs[i] == xs[1..][i - 1] && ys[i] == ys[1..][i - 1];
    }
  }

  /** Members that agree in key order agree as sets. */
  lemma MatchedFields(a: Value, b: Value)
    requires a.JObject? && b.JObject? && |a.fields| == |b.fields|
    requires forall i :: 0 <= i < |a.fields| ==>
               && SortFields(a.fields)[i].key == SortFields(b.fields)[i].key
               && Equiv(SortFields(a.fields)[i].val, SortFields(b.fields)[i].val)
    ensures Equiv(a, b)
  {
    var sa, sb := SortFields(a.fields), SortFields(b.fields);
    SortFieldsElements(a.fields);
    SortFieldsElements(b.fields);
    forall i | 0 <= i < |a.fields|
      ensures exists j ::
        0 <= j < |b.fields| && b.fields[j].key == a.fields[i].key && Equiv(a.fields[i].val, b.fields[j].val)
    {
      assert a.fields[i] in sa;
      var k :| 0 <= k < |sa| && sa[k] == a.fields[i];
      assert sb[k] in b.fields;
    }
  }

  function Keys(fields: seq<Field>): (s: set<string>)
    ensures forall k :: k in s <==> exists f :: f in fields && f.key == k
  {
    set f | f in fields :: f.key
  }

  lemma {:induction false} KeysSize(fields: seq<Field>)
    requires DistinctKeys(fields)
    ensures |Keys(fields)| == |fields|
  {
    if fields == [] {
      assert Keys(fields) == {};
    } else {
      KeysSize(fields[1..]);
      assert fields == [fields[0]] + fields[1..];
      assert Keys(fields) == {fields[0].key} + Keys(fields[1..]);
      assert fields[0].key !in Keys(fields[1..]);
    }
  }

  lemma LeastKeysAgree(f: seq<Field>, g: seq<Field>)
    requires Sorted(FieldLe, f) && Sorted(FieldLe, g)
    requires f != [] && g != [] && Keys(f) == Keys(g)
    ensures f[0].key == g[0].key
  {
    assert f[0].key in Keys(g) && g[0].key in Keys(f);
    var x :| x in g && x.key == f[0].key;
    var y :| y in f && y.key == g[0].key;
    var i :| 0 <= i < |g| && g[i] == x;
    var j :| 0 <= j < |f| && f[j] == y;
    StrLeTotal(f[0].key, g[0].key);
    assert i > 0 ==> FieldLe(g[0], g[i]);
    assert j > 0 ==> FieldLe(f[0], f[j]);
  }

  lemma KeysTail(f: seq<Field>)
    requires f != [] && DistinctKeys(f)
    ensures Keys(f[1..]) == Keys(f) - {f[0].key}
  {
    assert f == [f[0]] + f[1..];
    forall k ensures k in Keys(f[1..]) <==> k in Keys(f) && k != f[0].key {
      if k in Keys(f) && k != f[0].key {
        var x :| x in f && x.key == k;
        assert x in f[1..];
      }
    }
  }

  lemma {:induction false} SortedKeysAgree(f: seq<Field>, g: seq<Field>)
    requires DistinctKeys(f) && DistinctKeys(g) && Sorted(FieldLe, f) && Sorted(FieldLe, g)
    requires Keys(f) == Keys(g) && |f| == |g|
    ensures forall i :: 0 <= i < |f| ==> f[i].key == g[i].key
  {
    if f != [] {
      LeastKeysAgree(f, g);
      KeysTail(f);
      KeysTail(g);
      SortedKeysAgree(f[1..], g[1..]);
    }
  }

  /** Equivalent objects have equivalent members at equal positions of the key order. */
  lemma EquivSorted(a: Value, b: Value)
    requires a.JObject? && WellFormed(a) && WellFormed(b) && Equiv(a, b)
    ensures forall i :: 0 <= i < |a.fields| ==>
               && SortFields(a.fields)[i].key == SortFields(b.fields)[i].key
               && Equiv(SortFields(a.fields)[i].val, SortFields(b.fields)[i].val)
  {
    var sa, sb := SortFields(a.fields), SortFields(b.fields);
    FieldLeTotal();
    SortSorts(FieldLe, a.fields);
    SortSorts(FieldLe, b.fields);
    SortFieldsElements(a.fields);
    SortFieldsElements(b.fields);
    SortFieldsDistinct(a.fields);
    SortFieldsDistinct(b.fields);
    KeysSize(sa);
    KeysSize(sb);
    forall k | k in Keys(sa) ensures k in Keys(sb) {
      var f :| f in sa && f.key == k;
      var i :| 0 <= i < |a.fields| && a.fields[i] == f;
      var j :| 0 <= j < |b.fields| && b.fields[j].key == a.fields[i].key;
      assert b.fields[j] in sb;
    }
    SubsetOfEqualSize(Keys(sa), Keys(sb));
    SortedKeysAgree(sa, sb);
    forall i | 0 <= i < |sa| ensures Equiv(sa[i].val, sb[i].val) {
      assert sa[i] in a.fields;
      var k :| 0 <= k < |a.fields| && a.fields[k] == sa[i];
      var j :| 0 <= j < |b.fields| && b.fields[j].key == a.fields[k].key && Equiv(a.fields[k].val, b.fields[j].val);
      assert sb[i] in b.fields;
      var l :| 0 <= l < |b.fields| && b.fields[l] == sb[i];
      assert l == j;
    }
  }

  lemma {:induction false} EquivTokens(a: Value, b: Value)
    requires WellFormed(a) && WellFormed(b) && Equiv(a, b)
    ensures Tokens(a) == Tokens(b)
    decreases a, 1, 0
  {
    if a.JArray? {
      EquivItemTokens(a, a.items, b, b.items);
    } else if a.JObject? {
      EquivSorted(a, b);
      SortedFieldsSmaller(a);
      SortedFieldsSmaller(b);
      SortFieldsElements(a.fields);
      SortFieldsElements(b.fields);
      EquivFieldTokens(a, SortFields(a.fields), b, SortFields(b.fields));
    }
  }

  lemma {:induction false} EquivItemTokens(a: Value, xs: seq<Value>, b: Value, ys: seq<Value>)
    requires forall i :: 0 <= i < |xs| ==> xs[i] < a && WellFormed(xs[i])
    requires forall i :: 0 <= i < |ys| ==> ys[i] < b && WellFormed(ys[i])
    requires |xs| == |ys| && forall i :: 0 <= i < |xs| ==> Equiv(xs[i], ys[i])
    ensures ItemTokens(a, xs) == ItemTokens(b, ys)
    decreases a, 0, |xs|
  {
    if xs != [] {
      EquivTokens(xs[0], ys[0]);
      EquivItemTokens(a, xs[1..], b, ys[1..]);
    }
  }

  lemma {:induction false} EquivFieldTokens(a: Value, xs: seq<Field>, b: Value, ys: seq<Field>)
    requires forall i :: 0 <= i < |xs| ==> xs[i].val < a && WellFormed(xs[i].val)
    requires forall i :: 0 <= i < |ys| ==> ys[i].val < b && WellFormed(ys[i].val)
    requires |xs| == |ys|
    requires forall i :: 0 <= i < |xs| ==> xs[i].key == ys[i].key && Equiv(xs[i].val, ys[i].val)
    ensures FieldTokens(a, xs) == FieldTokens(b, ys)
    decreases a, 0, |xs|
  {
    if xs != [] {
      EquivTokens(xs[0].val, ys[0].val);
      EquivFieldTokens(a, xs[1..], b, ys[1..]);
    }
  }

  /** Everything `generate_cache_key` feeds to the hasher. */
  function KeyStream(method_: string, params: Value): seq<Token> {
    [TStr(method_)] + Tokens(params)
  }

  /** Two requests feed the hasher the same stream exactly when their methods are equal and their
      parameters are `Equiv`. */
  lemma KeyStreamExact(m1: string, p1: Value, m2: string, p2: Value)
    requires WellFormed(p1) && WellFormed(p2)
    ensures KeyStream(m1, p1) == KeyStream(m2, p2) <==> m1 == m2 && Equiv(p1, p2)
  {
    if m1 == m2 && Equiv(p1, p2) {
      EquivTokens(p1, p2);
    }
    if KeyStream(m1, p1) == KeyStream(m2, p2) {
      assert KeyStream(m1, p1)[0] == TStr(m1) && KeyStream(m2, p2)[0] == TStr(m2);
      assert KeyStream(m1, p1)[1..] == Tokens(p1) && KeyStream(m2, p2)[1..] == Tokens(p2);
      assert Tokens(p1) + [] == Tokens(p2) + [];
      Decode(p1, p2, [], []);
    }
  }

  /** Rewriting the members of an object in another order does not change its tokens. */
  lemma MemberOrderFree(f: seq<Field>, g: seq<Field>)
    requires DistinctKeys(f) && multiset(f) == multiset(g)
    ensures Tokens(JObject(f)) == Tokens(JObject(g))
  {
    SortFieldsOrderFree(f, g);
    SortedFieldsSmaller(JObject(f));
    SortedFieldsSmaller(JObject(g));
    FieldTokensParentFree(JObject(f), JObject(g), SortFields(f));
    assert |f| == |multiset(f)| == |g|;
  }

  lemma {:induction false} FieldTokensParentFree(a: Value, b: Value, xs: seq<Field>)
    requires forall i :: 0 <= i < |xs| ==> xs[i].val < a && xs[i].val < b
    ensures FieldTokens(a, xs) == FieldTokens(b, xs)
    decreases |xs|
  {
    if xs != [] {
      FieldTokensParentFree(a, b, xs[1..]);
    }
  }

  lemma Concat4(a: seq<Token>, b: seq<Token>, c: seq<Token>, d: seq<Token>)
    ensures a + (b + c + d) == a + b + c + d
    ensures b == [] ==> a + (c + d) == a + c + d
  {
  }

  /** The hasher, as the sequence of the `hash` calls made on it. */
  class Hasher {
    var stream: seq<Token>

    constructor ()
      ensures stream == []
    {
      stream := [];
    }

    method Write(t: Token)
      modifies this
      ensures stream == old(stream) + [t]
    {
      stream := stream + [t];
    }
  }

  method HashJsonValue(hasher: Hasher, value: Value)
    modifies hasher
    ensures hasher.stream == old(hasher.stream) + Tokens(value)
    decreases value, 1, 0
  {
    match value
    case JNull => hasher.Write(TStr("null"));
    case JBool(b) => hasher.Write(TBool(b));
    case JNumber(text) => hasher.Write(TStr(text));
    case JString(s) => hasher.Write(TStr(s));
    case JArray(items) =>
      hasher.Write(TStr("array"));
      hasher.Write(TLen(|items|));
      HashItems(hasher, value, items);
      HeaderFirst(old(hasher.stream), TStr("array"), TLen(|items|), ItemTokens(value, items));
    case JObject(fields) =>
      hasher.Write(TStr("object"));
      SortedFieldsSmaller(value);
      var sorted := SortFields(fields);
      hasher.Write(TLen(|sorted|));
      HashFields(hasher, value, sorted);
      HeaderFirst(old(hasher.stream), TStr("object"), TLen(|sorted|), FieldTokens(value, sorted));
  }

  lemma HeaderFirst(before: seq<Token>, a: Token, b: Token, rest: seq<Token>)
    ensures before + [a] + [b] + rest == before + ([a, b] + rest)
  {
  }

  method HashItems(hasher: Hasher, ghost parent: Value, items: seq<Value>)
    requires forall i :: 0 <= i < |items| ==> items[i] < parent
    modifies hasher
    ensures hasher.stream == old(hasher.stream) + ItemTokens(parent, items)
    decreases parent, 0, |items|
  {
    for i := 0 to |items|
      invariant hasher.stream + ItemTokens(parent, items[i..]) == old(hasher.stream) + ItemTokens(parent, items)
    {
      ghost var before := hasher.stream;
      HashJsonValue(hasher, items[i]);
      assert items[i..][1..] == items[i + 1..];
      Concat4(before, [], Tokens(items[i]), ItemTokens(parent, items[i + 1..]));
    }
  }

  method HashFields(hasher: Hasher, ghost parent: Value, fields: seq<Field>)
    requires forall i :: 0 <= i < |fields| ==> fields[i].val < parent
    modifies hasher
    ensures hasher.stream == old(hasher.stream) + FieldTokens(parent, fields)
    decreases parent, 0, |fields|
  {
    for i := 0 to |fields|
      invariant hasher.stream + FieldTokens(parent, fields[i..]) == old(hasher.stream) + FieldTokens(parent, fields)
    {
      ghost var before := hasher.stream;
      hasher.Write(TStr(fields[i].key));
      HashJsonValue(hasher, fields[i].val);
      assert fields[i..][1..] == fields[i + 1..];
      Concat4(before, [TStr(fields[i].key)], Tokens(fields[i].val), FieldTokens(parent, fields[i + 1..]));
    }
  }
}
