/** `MetricsCollector`: counters, per-method and per-provider statistics and bounded windows. A record call
    makes several updates, each atomic by itself, and calls of different threads interleave between them. */
module Metrics {
  import opened Common
  import opened Runs
  import opened Sums

  datatype MethodStats = MethodStats(hits: nat, misses: nat, requests: nat, time: nat, errors: nat)

  datatype ProviderUsage = ProviderUsage(
    requests: nat,
    time: nat,
    successes: nat,
    errors: nat,
    lastUsed: nat,
    history: seq<nat>)

  /** A sample of the counters for the time series; its floating-point fields are left out. */
  datatype Point = Point(
    timestamp: nat,
    cacheHits: nat,
    cacheMisses: nat,
    cacheSize: nat,
    healthy: nat,
    providers: nat,
    instances: nat)

  datatype ErrorType = RateLimit | UserError | Other

  datatype Counters = Counters(
    cacheHits: nat,
    cacheMisses: nat,
    requests: nat,
    errors: nat,
    rateLimits: nat,
    userErrors: nat,
    methods: map<string, MethodStats>,
    providers: map<string, ProviderUsage>,
    timestamps: seq<nat>,
    points: seq<Point>)

  const NO_STATS := MethodStats(0, 0, 0, 0, 0)
  const NO_USAGE := ProviderUsage(0, 0, 0, 0, 0, [])
  const ZERO := Counters(0, 0, 0, 0, 0, 0, map[], map[], [], [])

  // ---------------------------------------------------------------- updates and calls

  datatype Update =
    | CountHit
    | CountMiss
    | CountRequest
    | CountFailure
    | CountError(kind: ErrorType)
    | Stamp(now: nat)
    | MethodHit(name: string, time: nat)
    | MethodForward(name: string, time: nat, success: bool)
    | ProviderRequest(provider: string, time: nat, success: bool, now: nat)
    | Sample(point: Point)

  function Recent<T>(items: seq<T>, limit: nat): seq<T> {
    if |items| <= limit then items else items[|items| - limit..]
  }

  /** Push at the back, and drop the front when the window is over its limit. */
  function Push<T>(window: seq<T>, x: T, limit: nat): seq<T> {
    var longer := window + [x];
    if |longer| > limit then longer[1..] else longer
  }

  /** A window holds the most recent items ever pushed. */
  lemma PushRecent<T>(items: seq<T>, x: T, limit: nat)
    ensures Push(Recent(items, limit), x, limit) == Recent(items + [x], limit)
  {
  }

  function StatsOf(methods: map<string, MethodStats>, name: string): MethodStats {
    if name in methods then methods[name] else NO_STATS
  }

  function UsageOf(providers: map<string, ProviderUsage>, provider: string): ProviderUsage {
    if provider in providers then providers[provider] else NO_USAGE
  }

  function WithHit(m: MethodStats, time: nat): MethodStats {
    m.(hits := m.hits + 1, requests := m.requests + 1, time := m.time + time)
  }

  function WithForward(m: MethodStats, time: nat, success: bool): MethodStats {
    m.(misses := m.misses + 1, requests := m.requests + 1, time := m.time + time,
       errors := if success then m.errors else m.errors + 1)
  }

  function WithRequest(p: ProviderUsage, time: nat, success: bool, now: nat): ProviderUsage {
    ProviderUsage(p.requests + 1, p.time + time,
                  if success then p.successes + 1 else p.successes,
                  if success then p.errors else p.errors + 1,
                  now, Push(p.history, time, 100))
  }

  function Apply(c: Counters, u: Update): Counters {
    match u
    case CountHit => c.(cacheHits := c.cacheHits + 1)
    case CountMiss => c.(cacheMisses := c.cacheMisses + 1)
    case CountRequest => c.(requests := c.requests + 1)
    case CountFailure => c.(errors := c.errors + 1)
    case CountError(RateLimit) => c.(rateLimits := c.rateLimits + 1)
    case CountError(UserError) => c.(userErrors := c.userErrors + 1)
    case CountError(Other) => c.(errors := c.errors + 1)
    case Stamp(now) => c.(timestamps := Push(c.timestamps, now, 1000))
    case MethodHit(name, time) => c.(methods := c.methods[name := WithHit(StatsOf(c.methods, name), time)])
    case MethodForward(name, time, success) =>
      c.(methods := c.methods[name := WithForward(StatsOf(c.methods, name), time, success)])
    case ProviderRequest(p, time, success, now) =>
      c.(providers := c.providers[p := WithRequest(UsageOf(c.providers, p), time, success, now)])
    case Sample(point) => c.(points := Push(c.points, point, 1000))
  }

  /** The updates that a call has still to make. */
  datatype Todo = Done | Do(update: Update, rest: Todo)

  function ApplyAll(c: Counters, todo: Todo): Counters
    decreases todo
  {
    match todo
    case Done => c
    case Do(u, rest) => ApplyAll(Apply(c, u), rest)
  }

  /** A call of the collector, with the clock readings it makes. */
  datatype Call =
    | CacheHit(name: string, time: nat, now: nat)
    | CacheMiss
    | Request(name: string, provider: string, time: nat, success: bool, now: nat, used: nat)
    | Error(kind: ErrorType)
    | HistoricalPoint(point: Point)

  function Updates(call: Call): Todo {
    match call
    case CacheHit(name, time, now) =>
      Do(CountHit, Do(CountRequest, Do(Stamp(now), Do(MethodHit(name, time), Done))))
    case CacheMiss => Do(CountMiss, Done)
    case Request(name, provider, time, success, now, used) =>
      var last := Last(name, provider, time, success, used);
      Do(CountRequest, Do(Stamp(now), if success then last else Do(CountFailure, last)))
    case Error(kind) => Do(CountError(kind), Done)
    case HistoricalPoint(point) => Do(Sample(point), Done)
  }

  function Last(name: string, provider: string, time: nat, success: bool, used: nat): Todo {
    Do(MethodForward(name, time, success), Do(ProviderRequest(provider, time, success, used), Done))
  }

  // ---------------------------------------------------------------- runs

  /** `log` is every update made so far, `tasks` what each thread's current call has still to do. */
  datatype State = State(counters: Counters, log: seq<Update>, tasks: map<nat, Todo>)

  datatype Action = Begin(thread: nat, call: Call) | Continue(thread: nat)

  const INITIAL := State(ZERO, [], map[])

  ghost predicate Step(s: State, a: Action, t: State) {
    match a
    case Begin(thread, call) => thread !in s.tasks && t == s.(tasks := s.tasks[thread := Updates(call)])
    case Continue(thread) =>
      && thread in s.tasks && s.tasks[thread].Do?
      && var Do(u, rest) := s.tasks[thread];
      && t.counters == Apply(s.counters, u)
      && t.log == s.log + [u]
      && t.tasks == if rest.Done? then s.tasks - {thread} else s.tasks[thread := rest]
  }

  // ---------------------------------------------------------------- conservation

  /** What the counters balance: requests against methods, hits against methods, forwarded requests
      against providers, errors against methods, and methods' errors against providers'. */
  datatype Law = Requests | Hits | Forwards | Errors | ProviderErrors

  function Served(m: MethodStats): int { m.hits }
  function Misses(m: MethodStats): int { m.misses }
  function Failures(m: MethodStats): int { m.errors }
  function Sent(p: ProviderUsage): int { p.requests }
  function Refused(p: ProviderUsage): int { p.errors }

  function IsOther(u: Update): bool { u == CountError(Other) }

  /** How many of the updates satisfy `p`. */
  function Number(p: Update -> bool, us: seq<Update>): nat
    decreases |us|
  {
    if us == [] then 0 else Number(p, us[..|us| - 1]) + (if p(us[|us| - 1]) then 1 else 0)
  }

  /** By how much a law fails. */
  ghost function Gap(law: Law, c: Counters, log: seq<Update>): int {
    match law
    case Requests => c.requests - Sum(c.methods, Served) - Sum(c.methods, Misses)
    case Hits => c.cacheHits - Sum(c.methods, Served)
    case Forwards => Sum(c.methods, Misses) - Sum(c.providers, Sent)
    case Errors => c.errors - Sum(c.methods, Failures) - Number(IsOther, log)
    case ProviderErrors => Sum(c.methods, Failures) - Sum(c.providers, Refused)
  }

  /** What one update adds to the gap. */
  function Effect(law: Law, u: Update): int {
    match law
    case Requests => (if u.CountRequest? then 1 else 0) - (if u.MethodHit? || u.MethodForward? then 1 else 0)
    case Hits => (if u.CountHit? then 1 else 0) - (if u.MethodHit? then 1 else 0)
    case Forwards => (if u.MethodForward? then 1 else 0) - (if u.ProviderRequest? then 1 else 0)
    case Errors => (if u.CountFailure? then 1 else 0) - (if u.MethodForward? && !u.success then 1 else 0)
    case ProviderErrors =>
      (if u.MethodForward? && !u.success then 1 else 0) - (if u.ProviderRequest? && !u.success then 1 else 0)
  }

  lemma UpdateMovesGap(law: Law, c: Counters, log: seq<Update>, u: Update)
    ensures Gap(law, Apply(c, u), log + [u]) == Gap(law, c, log) + Effect(law, u)
  {
    assert (log + [u])[..|log|] == log;
    match u
    case MethodHit(name, time) =>
      var m := WithHit(StatsOf(c.methods, name), time);
      SumUpdate(c.methods, Served, name, m);
      SumUpdate(c.methods, Misses, name, m);
      SumUpdate(c.methods, Failures, name, m);
    case MethodForward(name, time, success) =>
      var m := WithForward(StatsOf(c.methods, name), time, success);
      SumUpdate(c.methods, Served, name, m);
      SumUpdate(c.methods, Misses, name, m);
      SumUpdate(c.methods, Failures, name, m);
    case ProviderRequest(p, time, success, now) =>
      var usage := WithRequest(UsageOf(c.providers, p), time, success, now);
      SumUpdate(c.providers, Sent, p, usage);
      SumUpdate(c.providers, Refused, p, usage);
    case _ =>
  }

  function Effects(law: Law, todo: Todo): int {
    match todo
    case Done => 0
    case Do(u, rest) => Effect(law, u) + Effects(law, rest)
  }

  /** What a call has still to do moves no gap by more than one. */
  ghost predicate Slight(law: Law, todo: Todo) {
    todo.Do? && -1 <= Effects(law, todo) <= 1 && (todo.rest.Do? ==> Slight(law, todo.rest))
  }

  /** A whole call moves no gap. */
  lemma CallsBalance(law: Law, call: Call)
    ensures Effects(law, Updates(call)) == 0 && Slight(law, Updates(call))
  {
    match call
    case CacheHit(name, time, now) => HitBalances(law, name, time, now);
    case Request(name, provider, time, success, now, used) =>
      RequestBalances(law, name, provider, time, success, now, used);
    case _ =>
  }

  lemma HitBalances(law: Law, name: string, time: nat, now: nat)
    ensures var todo := Updates(CacheHit(name, time, now)); Effects(law, todo) == 0 && Slight(law, todo)
  {
    Front(law, MethodHit(name, time), Done);
    Front(law, Stamp(now), Do(MethodHit(name, time), Done));
    Front(law, CountRequest, Do(Stamp(now), Do(MethodHit(name, time), Done)));
    Front(law, CountHit, Do(CountRequest, Do(Stamp(now), Do(MethodHit(name, time), Done))));
  }

  lemma RequestBalances(
    law: Law, name: string, provider: string, time: nat, success: bool, now: nat, used: nat)
    ensures var todo := Updates(Request(name, provider, time, success, now, used));
            Effects(law, todo) == 0 && Slight(law, todo)
  {
    var last := Last(name, provider, time, success, used);
    var rest := if success then last else Do(CountFailure, last);
    LastIsSlight(law, name, provider, time, success, used);
    Front(law, CountFailure, last);
    Front(law, Stamp(now), rest);
    Front(law, CountRequest, Do(Stamp(now), rest));
  }

  lemma LastIsSlight(law: Law, name: string, provider: string, time: nat, success: bool, used: nat)
    ensures var last := Last(name, provider, time, success, used);
            && Slight(law, last)
            && Effects(law, last) ==
               -Effect(law, CountRequest) - (if success then 0 else Effect(law, CountFailure))
  {
    Front(law, ProviderRequest(provider, time, success, used), Done);
    Front(law, MethodForward(name, time, success), Do(ProviderRequest(provider, time, success, used), Done));
  }

  lemma Front(law: Law, u: Update, rest: Todo)
    ensures Effects(law, Do(u, rest)) == Effect(law, u) + Effects(law, rest)
    ensures Slight(law, Do(u, rest)) <==> -1 <= Effects(law, Do(u, rest)) <= 1 && (rest.Do? ==> Slight(law, rest))
  {
  }

  function EffectsOf(law: Law): Todo -> int {
    us => Effects(law, us)
  }

  ghost function Outstanding(law: Law, tasks: map<nat, Todo>): int {
    Sum(tasks, EffectsOf(law))
  }

  /** What has been done and what is still to do balance. */
  ghost predicate Balanced(law: Law, s: State) {
    && Gap(law, s.counters, s.log) + Outstanding(law, s.tasks) == 0
    && forall k :: k in s.tasks ==> Slight(law, s.tasks[k])
  }

  lemma BeginKeepsBalance(law: Law, s: State, thread: nat, call: Call, t: State)
    requires Balanced(law, s) && Step(s, Begin(thread, call), t)
    ensures Balanced(law, t)
  {
    CallsBalance(law, call);
    SumUpdate(s.tasks, EffectsOf(law), thread, Updates(call));
  }

  lemma ContinueKeepsBalance(law: Law, s: State, thread: nat, t: State)
    requires Balanced(law, s) && Step(s, Continue(thread), t)
    ensures Balanced(law, t)
  {
    UpdateMovesGap(law, s.counters, s.log, s.tasks[thread].update);
    OneLessToDo(law, s.tasks, thread);
  }

  lemma StepKeepsBalance(law: Law, s: State, a: Action, t: State)
    requires Balanced(law, s) && Step(s, a, t)
    ensures Balanced(law, t)
  {
    match a
    case Begin(thread, call) => BeginKeepsBalance(law, s, thread, call, t);
    case Continue(thread) => ContinueKeepsBalance(law, s, thread, t);
  }

  lemma OneLessToDo(law: Law, tasks: map<nat, Todo>, thread: nat)
    requires thread in tasks && tasks[thread].Do? && Slight(law, tasks[thread])
    ensures var Do(u, rest) := tasks[thread];
            var after := if rest.Done? then tasks - {thread} else tasks[thread := rest];
            && Outstanding(law, after) == Outstanding(law, tasks) - Effect(law, u)
            && (rest.Do? ==> Slight(law, rest))
  {
    var Do(u, rest) := tasks[thread];
    Front(law, u, rest);
    if rest.Done? {
      SumRemove(tasks, EffectsOf(law), thread);
    } else {
      SumUpdate(tasks, EffectsOf(law), thread, rest);
    }
  }

  ghost function BalancedBy(law: Law): State -> bool {
    s => Balanced(law, s)
  }

  /** In every run each law is off by at most one for each call in progress, and holds when there is none. */
  lemma Conservation(law: Law, states: seq<State>, acts: seq<Action>, n: nat)
    requires Run(Step, states, acts) && states[0] == INITIAL && n <= |acts|
    ensures var s := states[n];
            && -|s.tasks| <= Gap(law, s.counters, s.log) <= |s.tasks|
            && (s.tasks == map[] ==> Gap(law, s.counters, s.log) == 0)
  {
    forall s, a, t | Balanced(law, s) && Step(s, a, t) ensures Balanced(law, t) {
      StepKeepsBalance(law, s, a, t);
    }
    assert Balanced(law, states[0]);
    Invariant(Step, BalancedBy(law), states, acts, n);
    var s := states[n];
    SumBounded(s.tasks, EffectsOf(law));
  }

  /** Between calls: every request is a hit or a miss of one method, every miss a request to one provider,
      every error one of a method or an internal one, and every method's error one of a provider. */
  lemma TotalsWhenIdle(states: seq<State>, acts: seq<Action>, n: nat)
    requires Run(Step, states, acts) && states[0] == INITIAL && n <= |acts| && states[n].tasks == map[]
    ensures var c := states[n].counters;
            && c.requests == Sum(c.methods, Served) + Sum(c.methods, Misses)
            && c.cacheHits == Sum(c.methods, Served)
            && Sum(c.methods, Misses) == Sum(c.providers, Sent)
            && c.errors == Sum(c.methods, Failures) + Number(IsOther, states[n].log)
            && Sum(c.methods, Failures) == Sum(c.providers, Refused)
  {
    Conservation(Requests, states, acts, n);
    Conservation(Hits, states, acts, n);
    Conservation(Forwards, states, acts, n);
    Conservation(Errors, states, acts, n);
    Conservation(ProviderErrors, states, acts, n);
  }

  // ---------------------------------------------------------------- what is recorded

  function Stamps(log: seq<Update>): seq<nat>
    decreases |log|
  {
    if log == [] then []
    else
      var before, u := Stamps(log[..|log| - 1]), log[|log| - 1];
      if u.Stamp? then before + [u.now] else before
  }

  function Points(log: seq<Update>): seq<Point>
    decreases |log|
  {
    if log == [] then []
    else
      var before, u := Points(log[..|log| - 1]), log[|log| - 1];
      if u.Sample? then before + [u.point] else before
  }

  /** The response times of a provider's requests. */
  function Times(provider: string, log: seq<Update>): seq<nat>
    decreases |log|
  {
    if log == [] then []
    else
      var before, u := Times(provider, log[..|log| - 1]), log[|log| - 1];
      if u.ProviderRequest? && u.provider == provider then before + [u.time] else before
  }

  /** The times of a method's hits and forwards. */
  function MethodTimes(name: string, log: seq<Update>): seq<nat>
    decreases |log|
  {
    if log == [] then []
    else
      var before, u := MethodTimes(name, log[..|log| - 1]), log[|log| - 1];
      if IsTimed(u, name) then before + [u.time] else before
  }

  /** When a provider was last sent to; 0 if never. */
  function LastSent(provider: string, log: seq<Update>): nat
    decreases |log|
  {
    if log == [] then 0
    else if IsRequestTo(log[|log| - 1], provider) then log[|log| - 1].now
    else LastSent(provider, log[..|log| - 1])
  }

  function Total(times: seq<nat>): nat
    decreases |times|
  {
    if times == [] then 0 else Total(times[..|times| - 1]) + times[|times| - 1]
  }

  function HitOn(name: string): Update -> bool {
    (u: Update) => u.MethodHit? && u.name == name
  }

  function ForwardOn(name: string): Update -> bool {
    (u: Update) => u.MethodForward? && u.name == name
  }

  function FailureOn(name: string): Update -> bool {
    (u: Update) => u.MethodForward? && u.name == name && !u.success
  }

  function Counts(kind: Update): Update -> bool {
    u => u == kind
  }

  /** Every window is the recent end of what was recorded, and every count the number of what it counts. */
  ghost predicate Recorded(s: State) {
    && s.counters.timestamps == Recent(Stamps(s.log), 1000)
    && s.counters.points == Recent(Points(s.log), 1000)
    && (forall p :: ProviderRecorded(p, s.counters.providers, s.log))
    && (forall m :: MethodAccounted(m, s.counters.methods, s.log))
    && s.counters.cacheMisses == Number(Counts(CountMiss), s.log)
    && s.counters.rateLimits == Number(Counts(CountError(RateLimit)), s.log)
    && s.counters.userErrors == Number(Counts(CountError(UserError)), s.log)
  }

  predicate MethodAccounted(m: string, methods: map<string, MethodStats>, log: seq<Update>) {
    MethodRecorded(m, methods, log) && MethodTimed(m, methods, log)
  }

  predicate MethodRecorded(m: string, methods: map<string, MethodStats>, log: seq<Update>) {
    var stats := StatsOf(methods, m);
    && stats.hits == Number(HitOn(m), log)
    && stats.misses == Number(ForwardOn(m), log)
    && stats.errors == Number(FailureOn(m), log)
    && stats.requests == stats.hits + stats.misses
    && (m in methods <==> stats.requests > 0)
  }

  predicate MethodTimed(m: string, methods: map<string, MethodStats>, log: seq<Update>) {
    StatsOf(methods, m).time == Total(MethodTimes(m, log))
  }

  predicate ProviderRecorded(p: string, providers: map<string, ProviderUsage>, log: seq<Update>) {
    && RequestsRecorded(p, providers, log) && TimeRecorded(p, providers, log)
    && HistoryRecorded(p, providers, log) && UsageOf(providers, p).lastUsed == LastSent(p, log)
  }

  predicate RequestsRecorded(p: string, providers: map<string, ProviderUsage>, log: seq<Update>) {
    var usage := UsageOf(providers, p);
    usage.requests == usage.successes + usage.errors == |Times(p, log)| && (p in providers <==> Times(p, log) != [])
  }

  predicate TimeRecorded(p: string, providers: map<string, ProviderUsage>, log: seq<Update>) {
    UsageOf(providers, p).time == Total(Times(p, log))
  }

  predicate HistoryRecorded(p: string, providers: map<string, ProviderUsage>, log: seq<Update>) {
    UsageOf(providers, p).history == Recent(Times(p, log), 100)
  }

  predicate IsRequestTo(u: Update, p: string) {
    u.ProviderRequest? && u.provider == p
  }

  lemma TimesSnoc(p: string, log: seq<Update>, u: Update)
    ensures IsRequestTo(u, p) ==> Times(p, log + [u]) == Times(p, log) + [u.time]
    ensures !IsRequestTo(u, p) ==> Times(p, log + [u]) == Times(p, log)
    ensures LastSent(p, log + [u]) == if IsRequestTo(u, p) then u.now else LastSent(p, log)
  {
    assert (log + [u])[..|log|] == log;
  }

  lemma UsageAfter(p: string, c: Counters, u: Update)
    ensures IsRequestTo(u, p) ==>
              && p in Apply(c, u).providers
              && UsageOf(Apply(c, u).providers, p) == WithRequest(UsageOf(c.providers, p), u.time, u.success, u.now)
    ensures !IsRequestTo(u, p) ==>
              && UsageOf(Apply(c, u).providers, p) == UsageOf(c.providers, p)
              && (p in Apply(c, u).providers <==> p in c.providers)
  {
  }

  lemma MethodTimesSnoc(m: string, log: seq<Update>, u: Update)
    ensures MethodTimes(m, log + [u]) ==
            if IsTimed(u, m) then MethodTimes(m, log) + [u.time] else MethodTimes(m, log)
  {
    assert (log + [u])[..|log|] == log;
  }

  lemma RequestsStayRecorded(p: string, c: Counters, log: seq<Update>, u: Update)
    requires RequestsRecorded(p, c.providers, log)
    ensures RequestsRecorded(p, Apply(c, u).providers, log + [u])
  {
    TimesSnoc(p, log, u);
    UsageAfter(p, c, u);
  }

  lemma TimeStaysRecorded(p: string, c: Counters, log: seq<Update>, u: Update)
    requires TimeRecorded(p, c.providers, log)
    ensures TimeRecorded(p, Apply(c, u).providers, log + [u])
  {
    TimesSnoc(p, log, u);
    UsageAfter(p, c, u);
    if IsRequestTo(u, p) {
      TotalSnoc(Times(p, log), u.time);
    }
  }

  lemma TotalSnoc(times: seq<nat>, time: nat)
    ensures Total(times + [time]) == Total(times) + time
  {
    assert (times + [time])[..|times|] == times;
  }

  lemma HistoryStaysRecorded(p: string, c: Counters, log: seq<Update>, u: Update)
    requires HistoryRecorded(p, c.providers, log)
    ensures HistoryRecorded(p, Apply(c, u).providers, log + [u])
  {
    TimesSnoc(p, log, u);
    UsageAfter(p, c, u);
    if IsRequestTo(u, p) {
      PushRecent(Times(p, log), u.time, 100);
    }
  }

  lemma ProviderUpdateIsRecorded(p: string, c: Counters, log: seq<Update>, u: Update)
    requires ProviderRecorded(p, c.providers, log)
    ensures ProviderRecorded(p, Apply(c, u).providers, log + [u])
  {
    RequestsStayRecorded(p, c, log, u);
    TimeStaysRecorded(p, c, log, u);
    HistoryStaysRecorded(p, c, log, u);
    TimesSnoc(p, log, u);
    UsageAfter(p, c, u);
  }

  predicate IsTimed(u: Update, m: string) {
    (u.MethodHit? || u.MethodForward?) && u.name == m
  }

  lemma TimeAfter(m: string, c: Counters, u: Update)
    ensures StatsOf(Apply(c, u).methods, m).time == StatsOf(c.methods, m).time + if IsTimed(u, m) then u.time else 0
  {
  }

  lemma TotalAfter(m: string, log: seq<Update>, u: Update)
    ensures Total(MethodTimes(m, log + [u])) == Total(MethodTimes(m, log)) + if IsTimed(u, m) then u.time else 0
  {
    MethodTimesSnoc(m, log, u);
    if IsTimed(u, m) {
      TotalSnoc(MethodTimes(m, log), u.time);
    }
  }

  lemma MethodStaysTimed(m: string, c: Counters, log: seq<Update>, u: Update)
    requires MethodTimed(m, c.methods, log)
    ensures MethodTimed(m, Apply(c, u).methods, log + [u])
  {
    TimeAfter(m, c, u);
    TotalAfter(m, log, u);
  }

  lemma MethodUpdateIsRecorded(m: string, c: Counters, log: seq<Update>, u: Update)
    requires MethodRecorded(m, c.methods, log)
    ensures MethodRecorded(m, Apply(c, u).methods, log + [u])
  {
    NumberSnoc(HitOn(m), log, u);
    NumberSnoc(ForwardOn(m), log, u);
    NumberSnoc(FailureOn(m), log, u);
  }

  lemma NumberSnoc(p: Update -> bool, log: seq<Update>, u: Update)
    ensures Number(p, log + [u]) == Number(p, log) + if p(u) then 1 else 0
  {
    assert (log + [u])[..|log|] == log;
  }

  lemma StampsSnoc(log: seq<Update>, u: Update)
    ensures Stamps(log + [u]) == if u.Stamp? then Stamps(log) + [u.now] else Stamps(log)
    ensures Points(log + [u]) == if u.Sample? then Points(log) + [u.point] else Points(log)
  {
    assert (log + [u])[..|log|] == log;
  }

  lemma StampsAreRecorded(c: Counters, log: seq<Update>, u: Update)
    requires c.timestamps == Recent(Stamps(log), 1000)
    ensures Apply(c, u).timestamps == Recent(Stamps(log + [u]), 1000)
  {
    StampsSnoc(log, u);
    if u.Stamp? {
      PushRecent(Stamps(log), u.now, 1000);
    }
  }

  lemma PointsAreRecorded(c: Counters, log: seq<Update>, u: Update)
    requires c.points == Recent(Points(log), 1000)
    ensures Apply(c, u).points == Recent(Points(log + [u]), 1000)
  {
    StampsSnoc(log, u);
    if u.Sample? {
      PushRecent(Points(log), u.point, 1000);
    }
  }

  lemma StepKeepsRecord(s: State, a: Action, t: State)
    requires Recorded(s) && Step(s, a, t)
    ensures Recorded(t)
  {
    if a.Continue? {
      var u := s.tasks[a.thread].update;
      StampsAreRecorded(s.counters, s.log, u);
      PointsAreRecorded(s.counters, s.log, u);
      NumberSnoc(Counts(CountMiss), s.log, u);
      NumberSnoc(Counts(CountError(RateLimit)), s.log, u);
      NumberSnoc(Counts(CountError(UserError)), s.log, u);
      forall p ensures ProviderRecorded(p, t.counters.providers, t.log) {
        assert ProviderRecorded(p, s.counters.providers, s.log);
        ProviderUpdateIsRecorded(p, s.counters, s.log, u);
      }
      forall m ensures MethodAccounted(m, t.counters.methods, t.log) {
        assert MethodAccounted(m, s.counters.methods, s.log);
        MethodUpdateIsRecorded(m, s.counters, s.log, u);
        MethodStaysTimed(m, s.counters, s.log, u);
      }
    }
  }

  lemma RecordsThroughout(states: seq<State>, acts: seq<Action>, n: nat)
    requires Run(Step, states, acts) && states[0] == INITIAL && n <= |acts|
    ensures Recorded(states[n])
  {
    forall s, a, t | Recorded(s) && Step(s, a, t) ensures Recorded(t) {
      StepKeepsRecord(s, a, t);
    }
    Invariant(Step, Recorded, states, acts, n);
  }

  // ---------------------------------------------------------------- the object

  class MetricsCollector {
    var cacheHits: nat
    var cacheMisses: nat
    var totalRequests: nat
    var totalErrors: nat
    var rateLimitErrors: nat
    var userErrors: nat
    var methodStats: map<string, MethodStats>
    var providerUsage: map<string, ProviderUsage>
    var requestTimestamps: seq<nat>
    var metricsHistory: seq<Point>

    ghost function World(): Counters
      reads this
    {
      Counters(cacheHits, cacheMisses, totalRequests, totalErrors, rateLimitErrors, userErrors,
               methodStats, providerUsage, requestTimestamps, metricsHistory)
    }

    constructor ()
      ensures World() == ZERO
    {
      cacheHits, cacheMisses, totalRequests := 0, 0, 0;
      totalErrors, rateLimitErrors, userErrors := 0, 0, 0;
      methodStats, providerUsage, requestTimestamps, metricsHistory := map[], map[], [], [];
    }

    method RecordCacheHit(name: string, time: nat, now: nat)
      modifies this
      ensures World() == ApplyAll(old(World()), Updates(CacheHit(name, time, now)))
    {
      cacheHits := cacheHits + 1;
      totalRequests := totalRequests + 1;
      RecordRequestTimestamp(now);
      var stat := if name in methodStats then methodStats[name] else NO_STATS;
      stat := stat.(hits := stat.hits + 1);
      stat := stat.(requests := stat.requests + 1);
      stat := stat.(time := stat.time + time);
      methodStats := methodStats[name := stat];
      HitInOneGo(old(World()), name, time, now);
    }

    method RecordCacheMiss()
      modifies this
      ensures World() == ApplyAll(old(World()), Updates(CacheMiss))
    {
      cacheMisses := cacheMisses + 1;
    }

    method RecordRequest(name: string, provider: string, time: nat, success: bool, now: nat, used: nat)
      modifies this
      ensures World() == ApplyAll(old(World()), Updates(Request(name, provider, time, success, now, used)))
    {
      totalRequests := totalRequests + 1;
      RecordRequestTimestamp(now);
      if !success {
        totalErrors := totalErrors + 1;
      }
      var stat := if name in methodStats then methodStats[name] else NO_STATS;
      stat := stat.(misses := stat.misses + 1);
      stat := stat.(requests := stat.requests + 1);
      stat := stat.(time := stat.time + time);
      if !success {
        stat := stat.(errors := stat.errors + 1);
      }
      assert stat == WithForward(StatsOf(old(methodStats), name), time, success);
      methodStats := methodStats[name := stat];
      var usage := if provider in providerUsage then providerUsage[provider] else NO_USAGE;
      providerUsage := providerUsage[provider := WithRequest(usage, time, success, used)];
      RequestInOneGo(old(World()), name, provider, time, success, now, used);
    }

    method RecordError(kind: ErrorType)
      modifies this
      ensures World() == ApplyAll(old(World()), Updates(Error(kind)))
    {
      match kind
      case RateLimit => rateLimitErrors := rateLimitErrors + 1;
      case UserError => userErrors := userErrors + 1;
      case Other => totalErrors := totalErrors + 1;
    }

    method RecordRequestTimestamp(now: nat)
      modifies this`requestTimestamps
      ensures requestTimestamps == Push(old(requestTimestamps), now, 1000)
    {
      requestTimestamps := requestTimestamps + [now];
      if |requestTimestamps| > 1000 {
        requestTimestamps := requestTimestamps[1..];
      }
    }

    /** A sample of the counters as they are now. */
    method AddHistoricalPoint(cacheSize: nat, healthy: nat, providers: nat, instances: nat, now: nat)
      modifies this
      ensures var point := Point(now, old(cacheHits), old(cacheMisses), cacheSize, healthy, providers, instances);
              World() == ApplyAll(old(World()), Updates(HistoricalPoint(point)))
    {
      var metric := Point(now, cacheHits, cacheMisses, cacheSize, healthy, providers, instances);
      metricsHistory := metricsHistory + [metric];
      if |metricsHistory| > 1000 {
        metricsHistory := metricsHistory[1..];
      }
    }
  }

  // ---------------------------------------------------------------- a call in one go

  lemma ApplyFront(c: Counters, u: Update, rest: Todo)
    ensures ApplyAll(c, Do(u, rest)) == ApplyAll(Apply(c, u), rest)
  {
  }

  lemma HitInOneGo(c: Counters, name: string, time: nat, now: nat)
    ensures ApplyAll(c, Updates(CacheHit(name, time, now))) ==
            c.(cacheHits := c.cacheHits + 1,
               requests := c.requests + 1,
               timestamps := Push(c.timestamps, now, 1000),
               methods := c.methods[name := WithHit(StatsOf(c.methods, name), time)])
  {
    var m := Do(MethodHit(name, time), Done);
    var c1 := Apply(c, CountHit);
    var c2 := Apply(c1, CountRequest);
    ApplyFront(c, CountHit, Do(CountRequest, Do(Stamp(now), m)));
    ApplyFront(c1, CountRequest, Do(Stamp(now), m));
    ApplyFront(c2, Stamp(now), m);
    ApplyFront(Apply(c2, Stamp(now)), MethodHit(name, time), Done);
  }

  lemma RequestInOneGo(c: Counters, name: string, provider: string, time: nat, success: bool, now: nat, used: nat)
    ensures ApplyAll(c, Updates(Request(name, provider, time, success, now, used))) ==
            c.(requests := c.requests + 1,
               timestamps := Push(c.timestamps, now, 1000),
               errors := if success then c.errors else c.errors + 1,
               methods := c.methods[name := WithForward(StatsOf(c.methods, name), time, success)],
               providers := c.providers[provider := WithRequest(UsageOf(c.providers, provider), time, success, used)])
  {
    var last := Last(name, provider, time, success, used);
    var rest := if success then last else Do(CountFailure, last);
    var c1 := Apply(c, CountRequest);
    var c2 := Apply(c1, Stamp(now));
    ApplyFront(c, CountRequest, Do(Stamp(now), rest));
    ApplyFront(c1, Stamp(now), rest);
    ApplyFront(c2, CountFailure, last);
    LastInOneGo(if success then c2 else Apply(c2, CountFailure), name, provider, time, success, used);
  }

  lemma LastInOneGo(c: Counters, name: string, provider: string, time: nat, success: bool, used: nat)
    ensures ApplyAll(c, Last(name, provider, time, success, used)) ==
            c.(methods := c.methods[name := WithForward(StatsOf(c.methods, name), time, success)],
               providers := c.providers[provider := WithRequest(UsageOf(c.providers, provider), time, success, used)])
  {
    var p := ProviderRequest(provider, time, success, used);
    var m := MethodForward(name, time, success);
    var d := c.(methods := c.methods[name := WithForward(StatsOf(c.methods, name), time, success)]);
    ApplyFront(c, m, Do(p, Done));
    assert Apply(c, m) == d;
    ApplyFront(d, p, Done);
    assert ApplyAll(Apply(d, p), Done) == Apply(d, p);
  }
}
