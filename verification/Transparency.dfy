/** The caching handler against plain forwarding (`handle_request`), for any interleaving of requests,
    replies, evictions and deletes, starting from an empty cache. */
module Transparency {
  import opened Common
  import opened Json
  import opened CacheKey
  import opened Requests
  import opened Runs

  // ---------------------------------------------------------------- the step system

  /** `pending` holds, per task, the request it forwarded after a miss. */
  datatype Proxy = Proxy(cache: map<string, Value>, pending: map<nat, Value>)

  datatype Action =
    | Ask(task: nat, request: Value)
    | Reply(task: nat, response: Value)
    | Fail(task: nat)
    | Drop(keys: set<string>)

  ghost predicate Submap(a: map<string, Value>, b: map<string, Value>) {
    forall k :: k in a ==> k in b && a[k] == b[k]
  }

  ghost predicate Step(w: World, s: Proxy, a: Action, t: Proxy) {
    match a
    case Ask(task, request) =>
      && w.sends(request)
      && if IsCached(w, request) && KeyOf(w, request) !in s.cache
         then task !in s.pending && t == s.(pending := s.pending[task := request])
         else t == s
    case Reply(task, response) =>
      && task in s.pending && w.answers(s.pending[task], response)
      && t.pending == s.pending - {task}
      && Stores(w, s.cache, s.pending[task], response, t.cache)
    case Fail(task) => task in s.pending && t == s.(pending := s.pending - {task})
    case Drop(keys) => t == s.(cache := s.cache - keys)
  }

  /** After a miss a storable response is stored, possibly after others were evicted. */
  ghost predicate Stores(
    w: World, before: map<string, Value>, request: Value, response: Value, after: map<string, Value>)
  {
    if Storable(w, request, response)
    then exists kept :: Submap(kept, before) && after == kept[KeyOf(w, request) := response]
    else after == before
  }

  ghost function Steps(w: World): (Proxy, Action, Proxy) -> bool {
    (s, a, t) => Step(w, s, a, t)
  }

  const EMPTY := Proxy(map[], map[])

  ghost predicate IsRun(w: World, states: seq<Proxy>, acts: seq<Action>) {
    Run(Steps(w), states, acts) && states[0] == EMPTY
  }

  /** The request is answered from the cache, with `v`. */
  ghost predicate Hit(w: World, s: Proxy, request: Value, v: Value) {
    w.sends(request) && IsCached(w, request) && KeyOf(w, request) in s.cache && s.cache[KeyOf(w, request)] == v
  }

  // ---------------------------------------------------------------- where cached values come from

  /** A response the upstream may give to a request that is sent and looked up in the cache, fit to be stored. */
  ghost predicate Genuine(w: World, request: Value, v: Value) {
    w.sends(request) && IsCached(w, request) && w.answers(request, v) && Storable(w, request, v)
  }

  ghost predicate Provenance(w: World, k: string, v: Value) {
    exists r :: KeyOf(w, r) == k && Genuine(w, r, v)
  }

  ghost predicate Inv(w: World, s: Proxy) {
    && (forall k :: k in s.cache ==> Provenance(w, k, s.cache[k]))
    && (forall t :: t in s.pending ==> w.sends(s.pending[t]) && IsCached(w, s.pending[t]))
  }

  lemma ReplyKeepsInv(w: World, s: Proxy, a: Action, t: Proxy)
    requires Inv(w, s) && a.Reply? && Step(w, s, a, t)
    ensures Inv(w, t)
  {
    var request := s.pending[a.task];
    if Storable(w, request, a.response) {
      var kept :| Submap(kept, s.cache) && t.cache == kept[KeyOf(w, request) := a.response];
      assert Genuine(w, request, a.response);
    }
  }

  lemma StepKeepsInv(w: World, s: Proxy, a: Action, t: Proxy)
    requires Inv(w, s) && Step(w, s, a, t)
    ensures Inv(w, t)
  {
    match a
    case Reply(_, _) => ReplyKeepsInv(w, s, a, t);
    case _ =>
  }

  /** In every state of every run each cached value is a genuine response to a request with that key. */
  lemma CachedIsGenuine(w: World, states: seq<Proxy>, acts: seq<Action>, n: nat, k: string)
    requires IsRun(w, states, acts) && n <= |acts| && k in states[n].cache
    ensures Provenance(w, k, states[n].cache[k])
  {
    forall s, a, t | Inv(w, s) && Steps(w)(s, a, t) ensures Inv(w, t) {
      StepKeepsInv(w, s, a, t);
    }
    Invariant(Steps(w), s => Inv(w, s), states, acts, n);
    assert Inv(w, states[n]);
  }

  // ---------------------------------------------------------------- transparency

  function WithoutId(fields: seq<Field>): seq<Field> {
    if fields == [] then []
    else (if fields[0].key == "id" then [] else [fields[0]]) + WithoutId(fields[1..])
  }

  /** Equal up to the JSON-RPC `id`, which a cached response keeps from the request it first answered. */
  predicate SameUpToId(u: Value, v: Value) {
    u == v || (u.JObject? && v.JObject? && WithoutId(u.fields) == WithoutId(v.fields))
  }

  /** The `id` is ignored, and nothing else. */
  lemma OnlyIdIsIgnored(a: Value, b: Value, key: string)
    requires a != b
    ensures SameUpToId(JObject([Field(key, a)]), JObject([Field(key, b)])) <==> key == "id"
  {
    assert [Field(key, a)][1..] == [] && [Field(key, b)][1..] == [];
    assert key != "id" ==> WithoutId([Field(key, a)])[0].val == a && WithoutId([Field(key, b)])[0].val == b;
  }

  /** Every hit, in every run, is what forwarding the request would have yielded. */
  ghost predicate Transparent(w: World) {
    forall states: seq<Proxy>, acts: seq<Action>, request: Value, v: Value, u: Value ::
      IsRun(w, states, acts) && Hit(w, states[|acts|], request, v) && Genuine(w, request, u) ==> SameUpToId(u, v)
  }

  /** Requests that share a key have the same genuine responses. */
  ghost predicate KeysFaithful(w: World) {
    forall r: Value, q: Value, u: Value, v: Value ::
      Genuine(w, r, u) && Genuine(w, q, v) && KeyOf(w, r) == KeyOf(w, q) ==> SameUpToId(u, v)
  }

  lemma FaithfulIsTransparent(w: World)
    requires KeysFaithful(w)
    ensures Transparent(w)
  {
    forall states: seq<Proxy>, acts: seq<Action>, request: Value, v: Value, u: Value
      | IsRun(w, states, acts) && Hit(w, states[|acts|], request, v) && Genuine(w, request, u)
      ensures SameUpToId(u, v)
    {
      CachedIsGenuine(w, states, acts, |acts|, KeyOf(w, request));
      var r :| KeyOf(w, r) == KeyOf(w, request) && Genuine(w, r, v);
    }
  }

  /** A run that asks for `q`, stores its response `v`, and so holds `v` under the key of `q`. */
  lemma StoringRun(w: World, q: Value, v: Value) returns (states: seq<Proxy>, acts: seq<Action>)
    requires Genuine(w, q, v)
    ensures IsRun(w, states, acts)
    ensures KeyOf(w, q) in states[|acts|].cache && states[|acts|].cache[KeyOf(w, q)] == v
  {
    var asked := Proxy(map[], map[0 := q]);
    var done := Proxy(map[KeyOf(w, q) := v], map[]);
    assert Step(w, EMPTY, Ask(0, q), asked);
    var none: map<string, Value> := map[];
    assert Submap(none, asked.cache) && done.cache == none[KeyOf(w, q) := v];
    assert asked.pending - {0} == map[];
    assert Step(w, asked, Reply(0, v), done);
    states, acts := [EMPTY, asked, done], [Ask(0, q), Reply(0, v)];
  }

  /** The cache is transparent exactly when requests that share a key have the same responses. */
  lemma TransparentExactly(w: World)
    ensures Transparent(w) <==> KeysFaithful(w)
  {
    if KeysFaithful(w) {
      FaithfulIsTransparent(w);
    }
    if Transparent(w) {
      forall r: Value, q: Value, u: Value, v: Value
        | Genuine(w, r, u) && Genuine(w, q, v) && KeyOf(w, r) == KeyOf(w, q)
        ensures SameUpToId(u, v)
      {
        var states, acts := StoringRun(w, q, v);
        assert Hit(w, states[|acts|], r, v);
      }
    }
  }

  /** No two requests that clients send and that are looked up collide in the 64-bit hash. */
  ghost predicate NoCollision(w: World) {
    forall r: Value, q: Value ::
      w.sends(r) && w.sends(q) && IsCached(w, r) && IsCached(w, q)
      && w.hash(KeyStream(MethodOf(r), ParamsOf(r))) == w.hash(KeyStream(MethodOf(q), ParamsOf(q))) ==>
        KeyStream(MethodOf(r), ParamsOf(r)) == KeyStream(MethodOf(q), ParamsOf(q))
  }

  /** What the upstream returns is determined, up to the id, by the method and the parameters up to `Equiv`. */
  ghost predicate UpstreamIsFunction(w: World) {
    forall r: Value, q: Value, u: Value, v: Value ::
      Genuine(w, r, u) && Genuine(w, q, v) && MethodOf(r) == MethodOf(q) && Equiv(ParamsOf(r), ParamsOf(q)) ==>
        SameUpToId(u, v)
  }

  ghost predicate WellFormedRequests(w: World) {
    forall r: Value :: w.sends(r) ==> WellFormed(ParamsOf(r))
  }

  /** Without collisions, the cache is transparent exactly when the upstream is such a function. */
  lemma TransparentUpstream(w: World)
    requires NoCollision(w) && WellFormedRequests(w)
    ensures Transparent(w) <==> UpstreamIsFunction(w)
  {
    TransparentExactly(w);
    forall r: Value, q: Value | w.sends(r) && w.sends(q) && IsCached(w, r) && IsCached(w, q)
      ensures KeyOf(w, r) == KeyOf(w, q) <==> MethodOf(r) == MethodOf(q) && Equiv(ParamsOf(r), ParamsOf(q))
    {
      KeyTextInjective(MethodOf(r), w.hash(KeyStream(MethodOf(r), ParamsOf(r))),
                       MethodOf(q), w.hash(KeyStream(MethodOf(q), ParamsOf(q))));
      KeyStreamExact(MethodOf(r), ParamsOf(r), MethodOf(q), ParamsOf(q));
    }
  }

  // ---------------------------------------------------------------- moving blocks

  /** The requests whose answers may change: those that ask for a moving block, and those that name none where
      the upstream takes the latest by default. */
  predicate Moves(r: Value, defaults: Value -> bool) {
    AsksForMovingBlock(r) || defaults(r)
  }

  /** The other requests have responses determined by method and parameters. */
  ghost predicate StillElsewhere(w: World, defaults: Value -> bool) {
    forall r: Value, q: Value, u: Value, v: Value ::
      && !Moves(r, defaults) && !Moves(q, defaults)
      && Genuine(w, r, u) && Genuine(w, q, v) && MethodOf(r) == MethodOf(q) && Equiv(ParamsOf(r), ParamsOf(q)) ==>
        SameUpToId(u, v)
  }

  /** Each of them that is looked up has two different responses over time. */
  ghost predicate ReallyMoves(w: World, defaults: Value -> bool) {
    forall r: Value :: w.sends(r) && IsCached(w, r) && Moves(r, defaults) ==>
      exists u: Value, v: Value :: Genuine(w, r, u) && Genuine(w, r, v) && !SameUpToId(u, v)
  }

  /** The upstream of a chain that grows is served transparently exactly when every cacheable request whose
      answers change names its block with a tag that the determinism check does not overlook. */
  lemma TransparentUnlessOverlooked(w: World, defaults: Value -> bool)
    requires NoCollision(w) && WellFormedRequests(w) && StillElsewhere(w, defaults) && ReallyMoves(w, defaults)
    ensures Transparent(w) <==>
            forall r: Value :: w.sends(r) && w.cacheable(MethodOf(r)) && Moves(r, defaults) ==>
              AsksForMovingBlock(r) && !IsOverlooked(r)
  {
    TransparentExactly(w);
    forall r: Value ensures HasNonDeterministicBlockParams(r) <==> AsksForMovingBlock(r) && !IsOverlooked(r) {
      StopsOnlyMoving(r);
      if AsksForMovingBlock(r) {
        OverlooksExactlyWhen(r);
      }
    }
    if Transparent(w) {
      forall r: Value, u: Value, v: Value | Genuine(w, r, u) && Genuine(w, r, v) ensures SameUpToId(u, v) {
        assert KeyOf(w, r) == KeyOf(w, r);
      }
    } else {
      TransparentUpstream(w);
      if forall r: Value :: w.sends(r) && w.cacheable(MethodOf(r)) && Moves(r, defaults) ==>
           AsksForMovingBlock(r) && !IsOverlooked(r) {
        forall r: Value, v: Value | Genuine(w, r, v) ensures !Moves(r, defaults) {}
      }
    }
  }

  // ---------------------------------------------------------------- limits, by example

  /** A request for `eth_call` with one parameter. */
  function CallWith(p: Value): Value {
    JObject([Field("method", JString("eth_call")), Field("params", JArray([p]))])
  }

  function ResultOf(v: Value): Value {
    JObject([Field("result", v)])
  }

  /** An upstream that echoes its parameter, asked with the number 1 and with the text "1". */
  ghost function Echo(hash: seq<Token> -> nat): World {
    World(hash, m => m == "eth_call", s => false,
          r => r == CallWith(JNumber("1")) || r == CallWith(JString("1")),
          (r, v) => (r == CallWith(JNumber("1")) && v == ResultOf(JNumber("1")))
                 || (r == CallWith(JString("1")) && v == ResultOf(JString("1"))))
  }

  lemma CallFields(p: Value)
    ensures MethodOf(CallWith(p)) == "eth_call" && ParamsOf(CallWith(p)) == JArray([p])
    ensures Get(CallWith(p), "params") == Some(JArray([p]))
  {
    var fields := CallWith(p).fields;
    assert fields[1..] == [Field("params", JArray([p]))];
  }

  lemma SameTokens()
    ensures Tokens(JArray([JNumber("1")])) == Tokens(JArray([JString("1")]))
  {
    var a, b := JNumber("1"), JString("1");
    assert [a][1..] == [] && [b][1..] == [];
    assert ItemTokens(JArray([a]), [a]) == Tokens(a) + [];
    assert ItemTokens(JArray([b]), [b]) == Tokens(b) + [];
  }

  lemma DifferentResults(a: Value, b: Value)
    requires a != b
    ensures !SameUpToId(ResultOf(a), ResultOf(b))
  {
    ResultWithoutId(a);
    ResultWithoutId(b);
    assert WithoutId(ResultOf(a).fields)[0].val != WithoutId(ResultOf(b).fields)[0].val;
  }

  lemma ResultWithoutId(v: Value)
    ensures WithoutId(ResultOf(v).fields) == [Field("result", v)]
  {
    assert [Field("result", v)][1..] == [];
  }

  lemma NoErrorInResult(v: Value)
    ensures Get(ResultOf(v), "error").None? && Get(ResultOf(v), "result") == Some(v)
  {
    assert [Field("result", v)][1..] == [];
  }

  lemma OneIsNoTag(p: Value)
    requires p == JNumber("1") || p == JString("1")
    ensures !HasNonDeterministicBlockParams(CallWith(p))
  {
    CallFields(p);
    assert !ParamIsNonDeterministic(p);
  }

  lemma EchoIsGenuine(hash: seq<Token> -> nat, p: Value)
    requires p == JNumber("1") || p == JString("1")
    ensures Genuine(Echo(hash), CallWith(p), ResultOf(p))
  {
    CallFields(p);
    OneIsNoTag(p);
    NoErrorInResult(p);
  }

  /** The key does not tell a number from its text, so such an upstream is not served transparently,
      whatever the hash. */
  lemma NumberAndTextShareKey(hash: seq<Token> -> nat)
    ensures !Transparent(Echo(hash))
  {
    var w := Echo(hash);
    var a, b := JNumber("1"), JString("1");
    CallFields(a);
    CallFields(b);
    SameTokens();
    assert KeyOf(w, CallWith(a)) == KeyOf(w, CallWith(b));
    EchoIsGenuine(hash, a);
    EchoIsGenuine(hash, b);
    DifferentResults(a, b);
    TransparentExactly(w);
  }

  /** An upstream that is asked this alone, and answers 1 at one time and 2 at another. */
  ghost function Head(hash: seq<Token> -> nat, request: Value): World {
    World(hash, m => m == MethodOf(request), s => false, r => r == request,
          (r, v) => v == ResultOf(JNumber("1")) || v == ResultOf(JNumber("2")))
  }

  lemma HeadIsGenuine(hash: seq<Token> -> nat, request: Value, n: string)
    requires n == "1" || n == "2"
    requires !HasNonDeterministicBlockParams(request)
    ensures Genuine(Head(hash, request), request, ResultOf(JNumber(n)))
  {
    NoErrorInResult(JNumber(n));
  }

  /** Whatever the hash, a request that passes the check is not served transparently by it: an old answer is
      repeated. */
  lemma MovingIsServedStale(hash: seq<Token> -> nat, request: Value)
    requires !HasNonDeterministicBlockParams(request) && WellFormed(ParamsOf(request))
    ensures !Transparent(Head(hash, request))
  {
    var w, defaults := Head(hash, request), (r: Value) => r == request;
    HeadIsGenuine(hash, request, "1");
    HeadIsGenuine(hash, request, "2");
    DifferentResults(JNumber("1"), JNumber("2"));
    assert ReallyMoves(w, defaults);
    TransparentUnlessOverlooked(w, defaults);
    if AsksForMovingBlock(request) {
      OverlooksExactlyWhen(request);
    }
    assert w.sends(request) && w.cacheable(MethodOf(request)) && Moves(request, defaults);
  }

  /** Asked for by name: the logs of the latest block. */
  lemma LatestIsServedStale(hash: seq<Token> -> nat)
    ensures var request := RequestFor(JObject([Field("blockNumber", JString("latest"))]));
            AsksForMovingBlock(request) && !Transparent(Head(hash, request))
  {
    var params := JObject([Field("blockNumber", JString("latest"))]);
    ByNameIsOverlooked(JString("latest"));
    RequestFields(params);
    assert WellFormed(params);
    MovingIsServedStale(hash, RequestFor(params));
  }

  lemma CallNamesNoBlock(contract: string)
    ensures var call := JObject([Field("to", JString(contract))]);
            !AsksForMovingBlock(CallWith(call)) && WellFormed(JArray([call]))
  {
    var to := Field("to", JString(contract));
    assert [to][1..] == [];
    CallFields(JObject([to]));
  }

  /** Not named at all: a call with the call object alone, whatever the contract. */
  lemma OmittedIsServedStale(hash: seq<Token> -> nat, contract: string)
    ensures var request := CallWith(JObject([Field("to", JString(contract))]));
            !AsksForMovingBlock(request) && !Transparent(Head(hash, request))
  {
    var call := JObject([Field("to", JString(contract))]);
    CallNamesNoBlock(contract);
    CallFields(call);
    StopsOnlyMoving(CallWith(call));
    MovingIsServedStale(hash, CallWith(call));
  }
}
