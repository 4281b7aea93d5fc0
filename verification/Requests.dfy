/** Which requests and responses the caching handler treats how (`rpc.rs`). The string tables (cacheable
    methods, "unsupported" patterns) and the 64-bit hash are parameters of the `World`. */
module Requests {
  import opened Common
  import opened Json
  import opened CacheKey
  import opened Numerals

  /** What the handler depends on: the hash of a key stream, the two string tables, which requests clients
      send, and which responses the upstream may give to a request. */
  datatype World = World(
    hash: seq<Token> -> nat,
    cacheable: string -> bool,
    unsupported: string -> bool,
    sends: Value -> bool,
    answers: (Value, Value) -> bool)

  function MethodOf(request: Value): string {
    var m := AsStr(Get(request, "method"));
    if m.Some? then m.value else ""
  }

  function ParamsOf(request: Value): Value {
    var p := Get(request, "params");
    if p.Some? then p.value else JNull
  }

  // ---------------------------------------------------------------- the determinism check

  predicate IsTag(s: string) {
    s == "latest" || s == "pending" || s == "earliest" || s == "safe" || s == "finalized"
  }

  predicate IsTagValue(v: Option<Value>) {
    var s := AsStr(v);
    s.Some? && IsTag(s.value)
  }

  /** Only the first of the three keys that is present is looked at. */
  function BlockValue(fields: seq<Field>): Option<Value> {
    var block, to := Lookup(fields, "blockNumber"), Lookup(fields, "toBlock");
    if block.Some? then block else if to.Some? then to else Lookup(fields, "fromBlock")
  }

  predicate ParamIsNonDeterministic(p: Value) {
    IsTagValue(Some(p)) || (p.JObject? && IsTagValue(BlockValue(p.fields)))
  }

  predicate HasNonDeterministicBlockParams(request: Value) {
    var params := Get(request, "params");
    params.Some? && params.value.JArray? &&
    exists i :: 0 <= i < |params.value.items| && ParamIsNonDeterministic(params.value.items[i])
  }

  /** Some block identifier of the object is a moving tag. */
  predicate NamesTag(fields: seq<Field>) {
    || IsTagValue(Lookup(fields, "blockNumber"))
    || IsTagValue(Lookup(fields, "toBlock"))
    || IsTagValue(Lookup(fields, "fromBlock"))
  }

  /** The value is a moving tag or an object that names one. */
  predicate ValueNamesTag(v: Value) {
    IsTagValue(Some(v)) || (v.JObject? && NamesTag(v.fields))
  }

  /** The request asks for a block that moves: one of its positional parameters does, or its parameters, given
      by name or as a single value, do. */
  predicate AsksForMovingBlock(request: Value) {
    match Get(request, "params")
    case None => false
    case Some(JArray(items)) => exists i :: 0 <= i < |items| && ValueNamesTag(items[i])
    case Some(params) => ValueNamesTag(params)
  }

  /** A key that is looked at earlier is present and fixed. */
  predicate TagIsHidden(fields: seq<Field>) {
    var block, to := Lookup(fields, "blockNumber"), Lookup(fields, "toBlock");
    if block.Some? then !IsTagValue(block) else to.Some? && !IsTagValue(to)
  }

  /** The parameters are not an array, or each one that names a tag is an object with a fixed earlier key. */
  predicate IsOverlooked(request: Value) {
    match Get(request, "params")
    case Some(JArray(items)) =>
      forall i :: 0 <= i < |items| && ValueNamesTag(items[i]) ==> items[i].JObject? && TagIsHidden(items[i].fields)
    case _ => true
  }

  lemma ItemCaught(v: Value)
    requires ValueNamesTag(v)
    ensures ParamIsNonDeterministic(v) <==> !(v.JObject? && TagIsHidden(v.fields))
  {
  }

  lemma OnlyTagsCaught(v: Value)
    ensures ParamIsNonDeterministic(v) ==> ValueNamesTag(v)
  {
  }

  /** What the check lets through is no request for a moving block, exactly unless it is overlooked. */
  lemma OverlooksExactlyWhen(request: Value)
    requires AsksForMovingBlock(request)
    ensures HasNonDeterministicBlockParams(request) <==> !IsOverlooked(request)
  {
    var params := Get(request, "params");
    if params.value.JArray? {
      var items := params.value.items;
      forall i | 0 <= i < |items|
        ensures ParamIsNonDeterministic(items[i]) <==>
                ValueNamesTag(items[i]) && !(items[i].JObject? && TagIsHidden(items[i].fields)) {
        OnlyTagsCaught(items[i]);
        if ValueNamesTag(items[i]) {
          ItemCaught(items[i]);
        }
      }
    }
  }

  /** And it stops no other requests. */
  lemma StopsOnlyMoving(request: Value)
    ensures HasNonDeterministicBlockParams(request) ==> AsksForMovingBlock(request)
  {
    if HasNonDeterministicBlockParams(request) {
      var items := Get(request, "params").value.items;
      var i :| 0 <= i < |items| && ParamIsNonDeterministic(items[i]);
      OnlyTagsCaught(items[i]);
    }
  }

  function RequestFor(params: Value): Value {
    JObject([Field("method", JString("eth_getLogs")), Field("params", params)])
  }

  lemma RequestFields(params: Value)
    ensures Get(RequestFor(params), "params") == Some(params)
    ensures MethodOf(RequestFor(params)) == "eth_getLogs" && ParamsOf(RequestFor(params)) == params
  {
    assert RequestFor(params).fields[1..] == [Field("params", params)];
  }

  /** A single text as a parameter is stopped exactly if it is one of the five tags; so is a single member of a
      parameter, under each of the three keys. */
  lemma TagsAreStopped(tag: string, key: string)
    ensures HasNonDeterministicBlockParams(RequestFor(JArray([JString(tag)]))) <==>
            tag in {"latest", "pending", "earliest", "safe", "finalized"}
    ensures HasNonDeterministicBlockParams(RequestFor(JArray([JObject([Field(key, JString(tag))])]))) <==>
            && tag in {"latest", "pending", "earliest", "safe", "finalized"}
            && key in {"blockNumber", "toBlock", "fromBlock"}
  {
    StoppedAlone(JString(tag));
    StoppedAlone(JObject([Field(key, JString(tag))]));
    assert [Field(key, JString(tag))][1..] == [];
  }

  lemma StoppedAlone(v: Value)
    ensures HasNonDeterministicBlockParams(RequestFor(JArray([v]))) <==> ParamIsNonDeterministic(v)
  {
    RequestFields(JArray([v]));
    assert JArray([v]).items[0] == v;
  }

  /** Without parameters a request has the key of one with null parameters. */
  lemma AbsentIsNull(name: string)
    ensures ParamsOf(JObject([Field("method", JString(name))])) == JNull
    ensures MethodOf(JObject([Field("method", JString(name))])) == name
  {
    assert [Field("method", JString(name))][1..] == [];
  }

  /** A range from a moving block to a fixed one passes the check. */
  lemma RangeIsOverlooked()
    ensures var range := JObject([Field("toBlock", JString("0x10")), Field("fromBlock", JString("latest"))]);
            && AsksForMovingBlock(RequestFor(JArray([range])))
            && !HasNonDeterministicBlockParams(RequestFor(JArray([range])))
  {
    var to, from := Field("toBlock", JString("0x10")), Field("fromBlock", JString("latest"));
    var range := JObject([to, from]);
    assert [to, from][1..] == [from] && [from][1..] == [];
    assert ValueNamesTag(range) && TagIsHidden(range.fields);
    var request := RequestFor(JArray([range]));
    RequestFields(JArray([range]));
    assert JArray([range]).items[0] == range;
    OverlooksExactlyWhen(request);
  }

  /** So do parameters by name, whatever block they name. */
  lemma ByNameIsOverlooked(block: Value)
    ensures var named := JObject([Field("blockNumber", block)]);
            && !HasNonDeterministicBlockParams(RequestFor(named))
            && (AsksForMovingBlock(RequestFor(named)) <==> IsTagValue(Some(block)))
  {
    assert [Field("blockNumber", block)][1..] == [];
    RequestFields(JObject([Field("blockNumber", block)]));
  }

  // ---------------------------------------------------------------- responses

  const TRACE_RESPONSE_FIELDS: set<string> :=
    {"output", "trace", "stateDiff", "result", "structLogs", "gas", "returnValue"}

  predicate IsValidDebugTraceResponse(w: World, response: Value) {
    var result := Get(response, "result");
    result.Some? &&
    match result.value
    case JString(s) => !w.unsupported(s)
    case JObject(fields) => exists i :: 0 <= i < |fields| && fields[i].key in TRACE_RESPONSE_FIELDS
    case JArray(items) => items != []
    case JNull => false
    case _ => true
  }

  predicate IsDebugOrTrace(name: string) {
    "debug_" <= name || "trace_" <= name
  }

  /** A response that may be stored: no error member and, for debug and trace methods, a usable result. */
  predicate Storable(w: World, request: Value, response: Value) {
    && Get(response, "error").None?
    && (IsDebugOrTrace(MethodOf(request)) ==> IsValidDebugTraceResponse(w, response))
  }

  // ---------------------------------------------------------------- keys

  predicate IsCached(w: World, request: Value) {
    w.cacheable(MethodOf(request)) && !HasNonDeterministicBlockParams(request)
  }

  function KeyText(name: string, digest: nat): string {
    name + ":" + Print(digest, 16)
  }

  function KeyOf(w: World, request: Value): string {
    KeyText(MethodOf(request), w.hash(KeyStream(MethodOf(request), ParamsOf(request))))
  }

  lemma NoColonInHex(n: nat)
    ensures ':' !in Print(n, 16)
  {
    assert forall i :: 0 <= i < |Print(n, 16)| ==> DigitValue(Print(n, 16)[i]) < 16;
  }

  lemma LastCharacter(a: string, x: string)
    requires ':' !in x
    ensures var s := a + ":" + x;
            && (s[|s| - 1] == ':' <==> x == [])
            && (x == [] ==> s[..|s| - 1] == a)
            && (x != [] ==> s[|s| - 1] == x[|x| - 1] && s[..|s| - 1] == a + ":" + x[..|x| - 1])
  {
    if x != [] {
      assert x[|x| - 1] in x;
    }
  }

  lemma {:induction false} LastColonSplits(a: string, x: string, b: string, y: string)
    requires ':' !in x && ':' !in y && a + ":" + x == b + ":" + y
    ensures a == b && x == y
    decreases |x|
  {
    LastCharacter(a, x);
    LastCharacter(b, y);
    if x != [] {
      LastColonSplits(a, x[..|x| - 1], b, y[..|y| - 1]);
      assert x == x[..|x| - 1] + [x[|x| - 1]] && y == y[..|y| - 1] + [y[|y| - 1]];
    }
  }

  /** Equal key texts have equal methods and equal digests. */
  lemma KeyTextInjective(m: string, d: nat, n: string, e: nat)
    ensures KeyText(m, d) == KeyText(n, e) <==> m == n && d == e
  {
    NoColonInHex(d);
    NoColonInHex(e);
    if KeyText(m, d) == KeyText(n, e) {
      LastColonSplits(m, Print(d, 16), n, Print(e, 16));
      PrintInjective(d, e, 16);
    }
  }

  lemma OnlyColon(m: string, d: nat, i: nat)
    requires ':' !in m && i < |KeyText(m, d)|
    ensures KeyText(m, d)[i] == ':' <==> i == |m|
  {
    NoColonInHex(d);
    if i < |m| {
      assert m[i] in m;
    } else if i > |m| {
      assert KeyText(m, d)[i] == Print(d, 16)[i - |m| - 1];
    }
  }

  /** The prefix that `delete_by_method` looks for matches the keys of that method and of no other,
      for methods without a colon. */
  lemma PrefixSelectsMethod(name: string, m: string, d: nat)
    requires ':' !in m
    ensures name + ":" <= KeyText(m, d) <==> name == m
  {
    var k := KeyText(m, d);
    if name + ":" <= k {
      assert k[|name|] == (name + ":")[|name|];
      OnlyColon(m, d, |name|);
      assert name == (name + ":")[..|name|] == k[..|name|] && m == k[..|m|];
    }
    if name == m {
      assert k == (name + ":") + Print(d, 16);
    }
  }
}
