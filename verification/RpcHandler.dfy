/** `RpcHandler::handle_request` over the cache, the forwarder and the metrics. */
module RpcHandler {
  import opened Common
  import opened Json
  import opened CacheKey
  import opened Requests
  import opened Numerals
  import opened Runs
  import opened Transparency
  import opened Replies
  import C = Cache
  import S = CacheStore
  import F = Forward
  import M = Metrics
  import P = Providers

  /** The cached values without their time stamps. */
  function View(entries: C.Entries): (m: map<string, Value>)
    ensures m.Keys == entries.Keys
  {
    map k | k in entries :: entries[k].data
  }

  /** One request handled on its own: how its answer and the cache come about. */
  ghost predicate Serves(
    w: World, before: map<string, Value>, request: Value, forwarded: Result<Value, F.Failure>,
    r: Result<Value, F.Failure>, after: map<string, Value>)
  {
    if IsCached(w, request) && KeyOf(w, request) in before then
      r == Ok(before[KeyOf(w, request)]) && after == before
    else
      && r == forwarded
      && if IsCached(w, request) && forwarded.Ok?
         then Stores(w, before, request, forwarded.value, after)
         else after == before
  }

  /** Handling a request is a run of the interleaved system, so all that holds of its runs holds of the object. */
  lemma ServesIsRun(
    w: World, before: map<string, Value>, request: Value, forwarded: Result<Value, F.Failure>,
    r: Result<Value, F.Failure>, after: map<string, Value>) returns (states: seq<Proxy>, acts: seq<Action>)
    requires Serves(w, before, request, forwarded, r, after) && w.sends(request)
    requires forwarded.Ok? ==> w.answers(request, forwarded.value)
    ensures Run(Steps(w), states, acts) && states[0] == Proxy(before, map[]) && states[|acts|] == Proxy(after, map[])
    ensures IsCached(w, request) && KeyOf(w, request) in before ==> r.Ok? && Hit(w, states[0], request, r.value)
    ensures !(IsCached(w, request) && KeyOf(w, request) in before) ==> r == forwarded
  {
    var s, t := Proxy(before, map[]), Proxy(after, map[]);
    if IsCached(w, request) && KeyOf(w, request) !in before {
      var asked := Proxy(before, map[0 := request]);
      assert asked.pending - {0} == map[];
      assert Step(w, s, Ask(0, request), asked);
      if forwarded.Ok? {
        assert Step(w, asked, Reply(0, forwarded.value), t);
        states, acts := [s, asked, t], [Ask(0, request), Reply(0, forwarded.value)];
      } else {
        assert Step(w, asked, Fail(0), t);
        states, acts := [s, asked, t], [Ask(0, request), Fail(0)];
      }
    } else {
      assert Step(w, s, Ask(0, request), t);
      states, acts := [s, t], [Ask(0, request)];
    }
  }

  lemma GetView(s: S.Store, key: string, now: nat, t: S.Store)
    requires S.Step(s, S.Get(key, now), t)
    ensures View(t.mem) == View(s.mem)
  {
    assert t.mem.Keys == s.mem.Keys;
  }

  lemma SetView(s: S.Store, key: string, value: Value, now: nat, t: S.Store)
    requires S.Step(s, S.Set(key, value, now), t)
    ensures exists kept :: Submap(kept, View(s.mem)) && View(t.mem) == kept[key := value]
  {
    var mid :| S.MakeRoom(s.mem, mid, s.maxItems) && t.mem == mid[key := C.CacheEntry(value, now)];
    assert mid.Keys <= s.mem.Keys && forall k :: k in mid ==> mid[k] == s.mem[k];
    ViewSubmap(mid, s.mem);
    ViewUpdate(mid, key, C.CacheEntry(value, now));
  }

  lemma ViewSubmap(a: C.Entries, b: C.Entries)
    requires forall k :: k in a ==> k in b && a[k] == b[k]
    ensures Submap(View(a), View(b))
  {
  }

  lemma ViewUpdate(m: C.Entries, key: string, e: C.CacheEntry)
    ensures View(m[key := e]) == View(m)[key := e.data]
  {
  }

  /** The metrics after a miss: an error response is counted by the kind of its message, if it has one. */
  ghost function Missed(t: Tables, c: M.Counters, forwarded: Result<Value, F.Failure>): M.Counters {
    var missed := M.ApplyAll(c, M.Updates(M.CacheMiss));
    if forwarded.Ok? && ErrorKind(t, forwarded.value).Some?
    then M.ApplyAll(missed, M.Updates(M.Error(ErrorKind(t, forwarded.value).value))) else missed
  }

  function ErrorKind(t: Tables, response: Value): Option<M.ErrorType> {
    match Get(response, "error")
    case None => None
    case Some(error) =>
      match MessageOf(t, error)
      case None => None
      case Some(message) =>
        Some(if t.rateLimit(message) then M.RateLimit else if t.userError(message) then M.UserError else M.Other)
  }

  /** The name under which sends are recorded. */
  function NameOf(request: Value): string {
    var m := AsStr(Get(request, "method"));
    if m.Some? then m.value else "unknown_method"
  }

  /** A request whose method is not a text is recorded as unknown; it is looked up as the empty name. */
  lemma UnnamedIsUnknown(request: Value)
    ensures AsStr(Get(request, "method")).Some? ==> NameOf(request) == MethodOf(request)
    ensures AsStr(Get(request, "method")).None? ==> NameOf(request) == "unknown_method" && MethodOf(request) == ""
  {
  }

  /** What the handler did: it answered from the cache, or it forwarded, with this log. */
  datatype Course = FromCache | Forwarded(log: seq<F.Event>)

  /** The value under `k` was not there before. */
  predicate IsNew(before: map<string, Value>, after: map<string, Value>, k: string) {
    k in after && (k !in before || after[k] != before[k])
  }

  /** A stored response was the last provider's success. */
  lemma StoredIsSuccess(
    w: World, c: F.Context, log: seq<F.Event>, before: map<string, Value>, request: Value,
    r: Result<Value, F.Failure>, after: map<string, Value>, k: string)
    requires F.Justified(c, log) && F.Answers(log, r)
    requires Serves(w, before, request, r, r, after)
    requires IsNew(before, after, k)
    ensures k == KeyOf(w, request) && F.EndsInSuccess(log, after[k])
  {
    assert IsCached(w, request) && r.Ok? && Stores(w, before, request, r.value, after);
    assert Storable(w, request, r.value);
    var kept :| Submap(kept, before) && after == kept[KeyOf(w, request) := r.value];
    F.OnlySuccessesLackErrors(c, log, r.value);
  }

  lemma NewAreSuccesses(
    w: World, c: F.Context, log: seq<F.Event>, before: map<string, Value>, request: Value,
    r: Result<Value, F.Failure>, after: map<string, Value>)
    requires F.Justified(c, log) && F.Answers(log, r) && Serves(w, before, request, r, r, after)
    ensures forall k :: IsNew(before, after, k) ==> F.EndsInSuccess(log, after[k])
  {
    forall k | IsNew(before, after, k) ensures F.EndsInSuccess(log, after[k]) {
      StoredIsSuccess(w, c, log, before, request, r, after, k);
    }
  }

  /** The request was forwarded: the answer and the providers are what the log says. */
  ghost predicate Sent(
    c: F.Context, log: seq<F.Event>, r: Result<Value, F.Failure>, providers: seq<P.ProviderInfo>)
  {
    F.Answers(log, r) && F.Justified(c, log) && providers == F.ProvidersAfter(c, log)
  }

  /** The metrics after the sends of the log. */
  ghost function CountersAfter(c: F.Context, log: seq<F.Event>): M.Counters {
    F.Requested(c.counters, c.name, log)
  }

  /** A response to a trace that says nothing: no result, null, an empty list, a text that the method is not
      supported, or an object without any of the members that traces have. */
  predicate TellsNothing(w: World, response: Value) {
    match Get(response, "result")
    case None => true
    case Some(JNull) => true
    case Some(JArray(items)) => items == []
    case Some(JString(text)) => w.unsupported(text)
    case Some(JObject(fields)) =>
      && Lookup(fields, "output").None? && Lookup(fields, "trace").None? && Lookup(fields, "stateDiff").None?
      && Lookup(fields, "result").None? && Lookup(fields, "structLogs").None? && Lookup(fields, "gas").None?
      && Lookup(fields, "returnValue").None?
    case _ => false
  }

  ghost predicate HasMember(fields: seq<Field>, keys: set<string>) {
    exists key :: key in keys && Lookup(fields, key).Some?
  }

  lemma MemberAt(fields: seq<Field>, keys: set<string>)
    ensures HasMember(fields, keys) <==> exists i :: 0 <= i < |fields| && fields[i].key in keys
  {
    if key :| key in keys && Lookup(fields, key).Some? {
      assert Field(key, Lookup(fields, key).value) in fields;
    }
    if i :| 0 <= i < |fields| && fields[i].key in keys {
      assert fields[i] in fields;
      assert Lookup(fields, fields[i].key).Some?;
    }
  }

  lemma TraceMembers(fields: seq<Field>)
    ensures HasMember(fields, TRACE_RESPONSE_FIELDS) <==>
            || Lookup(fields, "output").Some? || Lookup(fields, "trace").Some? || Lookup(fields, "stateDiff").Some?
            || Lookup(fields, "result").Some? || Lookup(fields, "structLogs").Some? || Lookup(fields, "gas").Some?
            || Lookup(fields, "returnValue").Some?
  {
    assert "output" in TRACE_RESPONSE_FIELDS && "trace" in TRACE_RESPONSE_FIELDS;
    assert "stateDiff" in TRACE_RESPONSE_FIELDS;
    assert "result" in TRACE_RESPONSE_FIELDS && "structLogs" in TRACE_RESPONSE_FIELDS && "gas" in TRACE_RESPONSE_FIELDS;
    assert "returnValue" in TRACE_RESPONSE_FIELDS;
  }

  lemma ValidExactly(w: World, response: Value)
    ensures IsValidDebugTraceResponse(w, response) <==> !TellsNothing(w, response)
  {
    match Get(response, "result")
    case Some(JObject(fields)) =>
      MemberAt(fields, TRACE_RESPONSE_FIELDS);
      TraceMembers(fields);
    case _ =>
  }

  /** After a miss: an error, and for the methods of the two tracing namespaces a response that tells nothing,
      leave the cache alone; any other response is stored under the request's key. */
  ghost predicate StoredAsFit(
    w: World, before: C.Entries, maxItems: nat, request: Value, response: Value, now: nat, after: C.Entries)
  {
    var name := MethodOf(request);
    if || Get(response, "error").Some?
       || (("debug_" <= name || "trace_" <= name) && TellsNothing(w, response))
    then after == before
    else
      && KeyOf(w, request) in after && after[KeyOf(w, request)] == C.CacheEntry(response, now)
      && exists mid :: S.MakeRoom(before, mid, maxItems) &&
           after == mid[KeyOf(w, request) := C.CacheEntry(response, now)]
  }

  ghost predicate CacheAfter(
    w: World, before: C.Entries, maxItems: nat, request: Value, r: Result<Value, F.Failure>, now: nat,
    after: C.Entries)
  {
    if r.Err? || !IsCached(w, request) then after == before
    else StoredAsFit(w, before, maxItems, request, r.value, now, after)
  }

  /** The error that a response carries. */
  predicate Carries(r: Result<Value, F.Failure>, error: Value) {
    r.Ok? && Get(r.value, "error") == Some(error)
  }

  /** A miss is counted once, and so is the error that comes back, if it has a message: as a rate limit if that
      matches those patterns, else as the user's if it matches these, else as another. */
  lemma MissedCounts(t: Tables, c: M.Counters, r: Result<Value, F.Failure>)
    ensures var after := Missed(t, c, r); after.cacheMisses == c.cacheMisses + 1 && after.requests == c.requests
    ensures forall error :: Carries(r, error) && MessageMatches(t, error, _ => true) ==>
              var after := Missed(t, c, r);
              if MessageMatches(t, error, t.rateLimit) then after.rateLimits == c.rateLimits + 1
              else if MessageMatches(t, error, t.userError) then after.userErrors == c.userErrors + 1
              else after.errors == c.errors + 1
    ensures var after := Missed(t, c, r);
            after.rateLimits + after.userErrors + after.errors <= c.rateLimits + c.userErrors + c.errors + 1
    ensures (forall error :: Carries(r, error) ==> !MessageMatches(t, error, _ => true)) ==>
              Missed(t, c, r) == c.(cacheMisses := c.cacheMisses + 1)
  {
    var missed := c.(cacheMisses := c.cacheMisses + 1);
    assert M.ApplyAll(c, M.Updates(M.CacheMiss)) == missed;
    if r.Ok? && Get(r.value, "error").Some? {
      var error := Get(r.value, "error").value;
      assert Carries(r, error);
      var kind := ErrorKind(t, r.value);
      if kind.Some? {
        assert M.ApplyAll(missed, M.Updates(M.Error(kind.value))) == M.Apply(missed, M.CountError(kind.value));
      }
    }
  }

  class Handler {
    const world: World
    const cacheManager: S.CacheManager
    const forwarder: F.RequestForwarder

    constructor (world: World, cacheManager: S.CacheManager, forwarder: F.RequestForwarder)
      ensures this.world == world && this.cacheManager == cacheManager && this.forwarder == forwarder
    {
      this.world, this.cacheManager, this.forwarder := world, cacheManager, forwarder;
    }

    method GenerateCacheKey(request: Value) returns (key: string)
      ensures key == KeyOf(world, request)
    {
      var hasher := new Hasher();
      hasher.Write(TStr(MethodOf(request)));
      HashJsonValue(hasher, ParamsOf(request));
      assert hasher.stream == KeyStream(MethodOf(request), ParamsOf(request));
      key := MethodOf(request) + ":" + Print(world.hash(hasher.stream), 16);
    }

    /** `attempts` is what forwarding would meet; `askedAt`, `storedAt` and `time` are clock readings. */
    method HandleRequest(request: Value, attempts: seq<F.Attempt>, askedAt: nat, storedAt: nat, time: nat)
      returns (r: Result<Value, F.Failure>, ghost course: Course)
      requires |attempts| == F.MAX_RETRIES
      modifies forwarder.metrics, forwarder.providers`providers, cacheManager`cache
      ensures Serves(world, View(old(cacheManager.cache)), request, r, r, View(cacheManager.cache))
      ensures course.FromCache? <==> IsCached(world, request) && KeyOf(world, request) in old(cacheManager.cache)
      ensures course.FromCache? ==>
                && forwarder.providers.providers == old(forwarder.providers.providers)
                && forwarder.metrics.World() ==
                   M.ApplyAll(old(forwarder.metrics.World()), M.Updates(M.CacheHit(MethodOf(request), time, askedAt)))
      ensures course.Forwarded? ==>
                var c := old(forwarder.ContextOf(NameOf(request), attempts));
                && Sent(c, course.log, r, forwarder.providers.providers)
                && forwarder.metrics.World() == if IsCached(world, request)
                                      then Missed(forwarder.tables, CountersAfter(c, course.log), r)
                                      else CountersAfter(c, course.log)
      ensures forall k :: IsNew(View(old(cacheManager.cache)), View(cacheManager.cache), k) ==>
                course.Forwarded? && F.EndsInSuccess(course.log, View(cacheManager.cache)[k])
      ensures course.FromCache? ==>
                var key, e := KeyOf(world, request), old(cacheManager.cache)[KeyOf(world, request)];
                r == Ok(e.data) && cacheManager.cache == old(cacheManager.cache)[key := e.(accessedAt := askedAt)]
      ensures course.Forwarded? ==>
                CacheAfter(world, old(cacheManager.cache), cacheManager.maxItems, request, r, storedAt,
                           cacheManager.cache)
    {
      if !world.cacheable(MethodOf(request)) || HasNonDeterministicBlockParams(request) {
        ghost var log;
        r, log := Bypass(request, attempts);
        course := Forwarded(log);
        return;
      }
      var key := GenerateCacheKey(request);
      ghost var before := cacheManager.State();
      var cached := cacheManager.GetEntry(key, askedAt);
      GetView(before, key, askedAt, cacheManager.State());
      if cached.Some? {
        forwarder.metrics.RecordCacheHit(MethodOf(request), time, askedAt);
        r, course := Ok(cached.value), FromCache;
      } else {
        ghost var log;
        r, log := HandleMiss(request, key, attempts, storedAt);
        course := Forwarded(log);
      }
    }

    /** A request that is never looked up. */
    method Bypass(request: Value, attempts: seq<F.Attempt>)
      returns (r: Result<Value, F.Failure>, ghost log: seq<F.Event>)
      requires |attempts| == F.MAX_RETRIES
      modifies forwarder.metrics, forwarder.providers`providers
      ensures Sent(old(forwarder.ContextOf(NameOf(request), attempts)), log, r, forwarder.providers.providers)
      ensures forwarder.metrics.World() == CountersAfter(old(forwarder.ContextOf(NameOf(request), attempts)), log)
    {
      r, log := forwarder.ForwardRequest(NameOf(request), attempts);
    }

    /** A cacheable request that is not in the cache. */
    method HandleMiss(request: Value, key: string, attempts: seq<F.Attempt>, storedAt: nat)
      returns (r: Result<Value, F.Failure>, ghost log: seq<F.Event>)
      requires |attempts| == F.MAX_RETRIES
      requires IsCached(world, request) && key == KeyOf(world, request) && key !in cacheManager.cache
      modifies forwarder.metrics, forwarder.providers`providers, cacheManager`cache
      ensures Serves(world, View(old(cacheManager.cache)), request, r, r, View(cacheManager.cache))
      ensures Sent(old(forwarder.ContextOf(NameOf(request), attempts)), log, r, forwarder.providers.providers)
      ensures forwarder.metrics.World() ==
              Missed(forwarder.tables, CountersAfter(old(forwarder.ContextOf(NameOf(request), attempts)), log), r)
      ensures forall k :: IsNew(View(old(cacheManager.cache)), View(cacheManager.cache), k) ==>
                F.EndsInSuccess(log, View(cacheManager.cache)[k])
      ensures CacheAfter(world, old(cacheManager.cache), cacheManager.maxItems, request, r, storedAt,
                           cacheManager.cache)
    {
      ghost var c := forwarder.ContextOf(NameOf(request), attempts);
      r, log := forwarder.ForwardRequest(NameOf(request), attempts);
      RecordMiss(r);
      if r.Ok? {
        StoreIfFit(request, key, r.value, storedAt);
      }
      NewAreSuccesses(world, c, log, View(old(cacheManager.cache)), request, r, View(cacheManager.cache));
    }

    method StoreIfFit(request: Value, key: string, response: Value, storedAt: nat)
      requires key == KeyOf(world, request)
      modifies cacheManager`cache
      ensures Stores(world, View(old(cacheManager.cache)), request, response, View(cacheManager.cache))
      ensures StoredAsFit(world, old(cacheManager.cache), cacheManager.maxItems, request, response, storedAt,
                          cacheManager.cache)
    {
      ValidExactly(world, response);
      if Get(response, "error").Some? {
        return;
      }
      if IsDebugOrTrace(MethodOf(request)) && !IsValidDebugTraceResponse(world, response) {
        return;
      }
      ghost var missed := cacheManager.State();
      cacheManager.SetEntry(key, response, storedAt);
      SetView(missed, key, response, storedAt, cacheManager.State());
    }

    method RecordMiss(forwarded: Result<Value, F.Failure>)
      modifies forwarder.metrics
      ensures forwarder.metrics.World() == Missed(forwarder.tables, old(forwarder.metrics.World()), forwarded)
    {
      forwarder.metrics.RecordCacheMiss();
      if forwarded.Ok? {
        var kind := ErrorKind(forwarder.tables, forwarded.value);
        if kind.Some? {
          forwarder.metrics.RecordError(kind.value);
        }
      }
    }
  }
}
