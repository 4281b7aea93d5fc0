/** `ProviderManager`: the health of the upstream providers and the weighted choice among them. */
module Providers {
  import opened Common

  /** Times are in seconds; `responseTime` is in milliseconds. */
  datatype ProviderInfo = ProviderInfo(
    url: string,
    isHealthy: bool,
    lastHealthCheck: Option<nat>,
    responseTime: Option<nat>,
    consecutiveFailures: nat)

  function PerformanceTier(responseTimeMs: nat): nat {
    var bucket := responseTimeMs / 100;
    if bucket <= 1 then 1 else if bucket <= 3 then 2 else if bucket <= 5 then 3 else 4
  }

  function TierWeight(tier: nat): (w: nat)
    ensures w > 0
  {
    if tier == 1 then 100 else if tier == 2 then 60 else if tier == 3 then 30 else if tier == 4 then 10 else 1
  }

  function Weight(p: ProviderInfo): (w: nat)
    ensures w > 0
  {
    TierWeight(PerformanceTier(if p.responseTime.Some? then p.responseTime.value else 300))
  }

  /** A provider weighs 100 below 200 ms, 60 below 400 ms, 30 below 600 ms and 10 from there on; one that
      was never timed counts as taking 300 ms. */
  lemma WeightByTime(p: ProviderInfo)
    ensures var ms := if p.responseTime.Some? then p.responseTime.value else 300;
            && (Weight(p) == 100 <==> ms < 200)
            && (Weight(p) == 60 <==> 200 <= ms < 400)
            && (Weight(p) == 30 <==> 400 <= ms < 600)
            && (Weight(p) == 10 <==> 600 <= ms)
  {
  }

  // ---------------------------------------------------------------- weighted choice

  predicate IsAvailable(p: ProviderInfo, tried: set<string>) {
    p.isHealthy && p.url !in tried
  }

  function Available(ps: seq<ProviderInfo>, tried: set<string>): (r: seq<ProviderInfo>)
    ensures forall p :: p in r <==> p in ps && IsAvailable(p, tried)
  {
    if ps == [] then []
    else
      assert ps == [ps[0]] + ps[1..];
      (if IsAvailable(ps[0], tried) then [ps[0]] else []) + Available(ps[1..], tried)
  }

  /** They keep their order, and none is listed twice. */
  function AvailableAt(ps: seq<ProviderInfo>, tried: set<string>, n: nat): (at: seq<nat>)
    requires n <= |ps|
    ensures forall j :: 0 <= j < |at| ==> at[j] < n && IsAvailable(ps[at[j]], tried)
    ensures forall j, k :: 0 <= j < k < |at| ==> at[j] < at[k]
    ensures forall i: nat :: i < n && IsAvailable(ps[i], tried) ==> i in at
  {
    if n == 0 then []
    else
      var before := AvailableAt(ps, tried, n - 1);
      if IsAvailable(ps[n - 1], tried) then before + [n - 1] else before
  }

  lemma AvailableSnoc(ps: seq<ProviderInfo>, p: ProviderInfo, tried: set<string>)
    ensures Available(ps + [p], tried) == Available(ps, tried) + (if IsAvailable(p, tried) then [p] else [])
  {
    if ps == [] {
      assert [p][1..] == [];
    } else {
      AvailableSnoc(ps[1..], p, tried);
      assert (ps + [p])[1..] == ps[1..] + [p];
      var first := if IsAvailable(ps[0], tried) then [ps[0]] else [];
      Associative(first, Available(ps[1..], tried), if IsAvailable(p, tried) then [p] else []);
    }
  }

  lemma {:induction false} AvailableInOrder(ps: seq<ProviderInfo>, tried: set<string>, n: nat)
    requires n <= |ps|
    ensures var at, r := AvailableAt(ps, tried, n), Available(ps[..n], tried);
            |r| == |at| && forall j :: 0 <= j < |r| ==> r[j] == ps[at[j]]
  {
    if n > 0 {
      AvailableInOrder(ps, tried, n - 1);
      assert ps[..n] == ps[..n - 1] + [ps[n - 1]];
      AvailableSnoc(ps[..n - 1], ps[n - 1], tried);
    }
  }

  /** Candidate `j` is provider `i`, and no other candidate is. */
  ghost predicate IsPlace(ps: seq<ProviderInfo>, tried: set<string>, i: nat, j: nat) {
    var at := AvailableAt(ps, tried, |ps|);
    && |Available(ps, tried)| == |at| && j < |at| && at[j] == i < |ps| && Available(ps, tried)[j] == ps[i]
    && forall k :: 0 <= k < |at| && at[k] == i ==> k == j
  }

  /** Each available provider has exactly one place among the candidates. */
  lemma PlaceOf(ps: seq<ProviderInfo>, tried: set<string>, i: nat) returns (j: nat)
    requires i < |ps| && IsAvailable(ps[i], tried)
    ensures IsPlace(ps, tried, i, j)
  {
    AvailableInOrder(ps, tried, |ps|);
    assert ps[..|ps|] == ps;
    var at := AvailableAt(ps, tried, |ps|);
    j :| 0 <= j < |at| && at[j] == i;
  }

  /** The weight of the first `n` candidates together. */
  function WeightBefore(list: seq<ProviderInfo>, n: nat): nat
    requires n <= |list|
  {
    if n == 0 then 0 else WeightBefore(list, n - 1) + Weight(list[n - 1])
  }

  function TotalWeight(list: seq<ProviderInfo>): nat {
    WeightBefore(list, |list|)
  }

  lemma {:induction false} WeightBeforeMonotone(list: seq<ProviderInfo>, m: nat, n: nat)
    requires m <= n <= |list|
    ensures WeightBefore(list, m) <= WeightBefore(list, n)
    ensures m < n ==> WeightBefore(list, m) < WeightBefore(list, n)
    decreases n
  {
    if m < n {
      WeightBeforeMonotone(list, m, n - 1);
    }
  }

  /** The candidate in whose share of the weights the draw falls. */
  ghost predicate Selects(list: seq<ProviderInfo>, draw: nat, i: nat) {
    i < |list| && WeightBefore(list, i) <= draw < WeightBefore(list, i + 1)
  }

  lemma SelectsUnique(list: seq<ProviderInfo>, draw: nat, i: nat, j: nat)
    requires Selects(list, draw, i) && Selects(list, draw, j)
    ensures i == j
  {
    if i < j {
      WeightBeforeMonotone(list, i + 1, j);
    } else if j < i {
      WeightBeforeMonotone(list, j + 1, i);
    }
  }

  /** The loops of the choice: the total, then the first candidate whose cumulative weight passes the draw.
      The fallback after the second loop is never reached. */
  method SelectWeighted(list: seq<ProviderInfo>, draw: nat) returns (i: nat)
    requires draw < TotalWeight(list)
    ensures Selects(list, draw, i)
  {
    var current := 0;
    for k := 0 to |list|
      invariant current == WeightBefore(list, k) && current <= draw
    {
      current := current + Weight(list[k]);
      if draw < current {
        return k;
      }
    }
    assert false;
  }

  method SumWeights(list: seq<ProviderInfo>) returns (total: nat)
    ensures total == TotalWeight(list)
  {
    total := 0;
    for k := 0 to |list|
      invariant total == WeightBefore(list, k)
    {
      total := total + Weight(list[k]);
    }
  }

  /** The draws that select candidate `i`. */
  ghost function DrawsFor(list: seq<ProviderInfo>, i: nat): set<int> {
    set draw: int | draw in Range(0, TotalWeight(list)) && Selects(list, draw, i)
  }

  /** Of the draws in `[0, total)`, exactly as many select a candidate as its tier weighs. */
  lemma ExactShare(list: seq<ProviderInfo>, i: nat)
    requires i < |list|
    ensures |DrawsFor(list, i)| == Weight(list[i])
  {
    var lo, hi := WeightBefore(list, i), WeightBefore(list, i + 1);
    WeightBeforeMonotone(list, i + 1, |list|);
    assert DrawsFor(list, i) == Range(lo, hi);
    RangeSize(lo, hi);
  }

  /** So has every available provider. */
  lemma ProviderShare(ps: seq<ProviderInfo>, tried: set<string>, i: nat) returns (j: nat)
    requires i < |ps| && IsAvailable(ps[i], tried)
    ensures IsPlace(ps, tried, i, j)
    ensures |DrawsFor(Available(ps, tried), j)| == Weight(ps[i])
  {
    j := PlaceOf(ps, tried, i);
    ExactShare(Available(ps, tried), j);
  }

  /** Every draw selects someone. */
  lemma {:induction false} SomeoneSelected(list: seq<ProviderInfo>, draw: nat, n: nat) returns (i: nat)
    requires n <= |list| && draw < WeightBefore(list, n)
    ensures i < n && Selects(list, draw, i)
    decreases n
  {
    if draw < WeightBefore(list, n - 1) {
      i := SomeoneSelected(list, draw, n - 1);
    } else {
      i := n - 1;
    }
  }

  // ---------------------------------------------------------------- round robin

  /** The counter is a `usize`. */
  const COUNTER_BOUND: nat := 0x1_0000_0000_0000_0000

  function NextCounter(counter: nat): nat {
    if counter + 1 == COUNTER_BOUND then 0 else counter + 1
  }

  /** How many of the `n` calls from counter value `start` on choose index `i` of `len` healthy providers. */
  function Picks(start: nat, n: nat, len: nat, i: nat): nat
    requires len > 0
  {
    if n == 0 then 0 else Picks(start, n - 1, len, i) + Pick(start + n - 1, len, i)
  }

  function Pick(counter: nat, len: nat, i: nat): nat
    requires len > 0
  {
    if counter % len == i then 1 else 0
  }

  lemma ModPlus(c: nat, len: nat)
    requires len > 0
    ensures (c + len) % len == c % len
    ensures (c + 1) % len == if c % len + 1 == len then 0 else c % len + 1
  {
    var q, r := c / len, c % len;
    assert c == q * len + r;
    RemainderIs(c + len, q + 1, r, len);
    if r + 1 == len {
      RemainderIs(c + 1, q + 1, 0, len);
    } else {
      RemainderIs(c + 1, q, r + 1, len);
    }
  }

  /** A call that comes after another takes the next provider in turn, exactly unless the counter wraps
      around between them and the number of providers does not divide its range. */
  lemma TurnsAdvanceExactly(counter: nat, len: nat)
    requires counter < COUNTER_BOUND && len > 0
    ensures NextCounter(counter) % len == (if counter % len + 1 == len then 0 else counter % len + 1) <==>
            counter + 1 < COUNTER_BOUND || COUNTER_BOUND % len == 0
  {
    ModPlus(counter, len);
    RemainderIs(0, 0, 0, len);
  }

  lemma {:induction false} PicksFromNext(start: nat, n: nat, len: nat, i: nat)
    requires len > 0
    ensures Pick(start, len, i) + Picks(start + 1, n, len, i) == Picks(start, n + 1, len, i)
  {
    if n > 0 {
      PicksFromNext(start, n - 1, len, i);
    } else {
      assert Picks(start, 1, len, i) == Picks(start, 0, len, i) + Pick(start, len, i);
    }
  }

  lemma {:induction false} FirstRound(n: nat, len: nat, i: nat)
    requires n <= len && i < len
    ensures Picks(0, n, len, i) == if i < n then 1 else 0
  {
    if n > 0 {
      FirstRound(n - 1, len, i);
      RemainderIs(n - 1, 0, n - 1, len);
    }
  }

  lemma {:induction false} OneRound(start: nat, len: nat, i: nat)
    requires i < len
    ensures Picks(start, len, len, i) == 1
    decreases start
  {
    if start == 0 {
      FirstRound(len, len, i);
    } else {
      OneRound(start - 1, len, i);
      PicksFromNext(start - 1, len, len, i);
      ModPlus(start - 1, len);
    }
  }

  lemma {:induction false} PicksAdd(start: nat, m: nat, n: nat, len: nat, i: nat)
    requires len > 0
    ensures Picks(start, m + n, len, i) == Picks(start, m, len, i) + Picks(start + m, n, len, i)
    decreases n
  {
    if n > 0 {
      PicksAdd(start, m, n - 1, len, i);
    }
  }

  /** While the same providers are healthy and the counter does not wrap, `rounds` times as many calls as
      there are providers choose each of them exactly `rounds` times. */
  lemma {:induction false} FairRounds(start: nat, rounds: nat, len: nat, i: nat)
    requires i < len
    ensures Picks(start, rounds * len, len, i) == rounds
    decreases rounds
  {
    if rounds > 0 {
      FairRounds(start, rounds - 1, len, i);
      OneMore(rounds, len);
      AnotherRound(start, (rounds - 1) * len, len, i);
    }
  }

  /** So every healthy provider is chosen equally often. */
  lemma FairToProviders(ps: seq<ProviderInfo>, start: nat, rounds: nat, i: nat, n: nat, calls: nat)
    returns (j: nat)
    requires i < |ps| && ps[i].isHealthy && n == |Available(ps, {})| && calls == rounds * n
    ensures j < n && IsPlace(ps, {}, i, j)
    ensures Picks(start, calls, n, j) == rounds
  {
    j := PlaceOf(ps, {}, i);
    FairRounds(start, rounds, n, j);
  }

  lemma OneMore(rounds: nat, len: nat)
    requires rounds > 0
    ensures rounds * len == (rounds - 1) * len + len
  {
  }

  lemma AnotherRound(start: nat, calls: nat, len: nat, i: nat)
    requires i < len
    ensures Picks(start, calls + len, len, i) == Picks(start, calls, len, i) + 1
  {
    PicksAdd(start, calls, len, len, i);
    OneRound(start + calls, len, i);
  }

  // ---------------------------------------------------------------- health

  /** A report about a provider, by URL: a failure, or a success with its response time. */
  datatype Report = Failed(url: string) | Succeeded(url: string, responseTime: nat, now: nat)

  function Find(ps: seq<ProviderInfo>, url: string): (i: nat)
    ensures i <= |ps|
    ensures i < |ps| ==> ps[i].url == url
    ensures forall k :: 0 <= k < i ==> ps[k].url != url
  {
    if ps == [] then 0
    else if ps[0].url == url then 0
    else
      var rest := Find(ps[1..], url);
      assert forall k :: 1 <= k <= rest ==> ps[k] == ps[1..][k - 1];
      1 + rest
  }

  function MarkOne(p: ProviderInfo, r: Report, maxFailures: nat): ProviderInfo {
    match r
    case Failed(_) =>
      var n := p.consecutiveFailures + 1;
      p.(consecutiveFailures := n, isHealthy := p.isHealthy && n < maxFailures)
    case Succeeded(_, rt, now) =>
      p.(consecutiveFailures := 0, isHealthy := true, responseTime := Some(rt), lastHealthCheck := Some(now))
  }

  /** Only the first provider with that URL is looked at. */
  function Mark(ps: seq<ProviderInfo>, r: Report, maxFailures: nat): (qs: seq<ProviderInfo>)
    ensures |qs| == |ps| && forall k :: 0 <= k < |ps| ==> qs[k].url == ps[k].url
    ensures forall k :: 0 <= k < |ps| && k != Find(ps, r.url) ==> qs[k] == ps[k]
  {
    var i := Find(ps, r.url);
    if i < |ps| then ps[i := MarkOne(ps[i], r, maxFailures)] else ps
  }

  function MarkAll(ps: seq<ProviderInfo>, rs: seq<Report>, maxFailures: nat): (qs: seq<ProviderInfo>)
    ensures |qs| == |ps| && forall k :: 0 <= k < |ps| ==> qs[k].url == ps[k].url
    decreases |rs|
  {
    if rs == [] then ps else Mark(MarkAll(ps, rs[..|rs| - 1], maxFailures), rs[|rs| - 1], maxFailures)
  }

  /** Failures of `url` since its last success. */
  function Streak(rs: seq<Report>, url: string): nat {
    if rs == [] then 0
    else
      var r, before := rs[|rs| - 1], rs[..|rs| - 1];
      if r.url != url then Streak(before, url) else if r.Failed? then Streak(before, url) + 1 else 0
  }

  predicate EverSucceeded(rs: seq<Report>, url: string) {
    exists k :: 0 <= k < |rs| && rs[k].url == url && rs[k].Succeeded?
  }

  lemma {:induction false} MarkAllConcat(ps: seq<ProviderInfo>, a: seq<Report>, b: seq<Report>, maxFailures: nat)
    ensures MarkAll(MarkAll(ps, a, maxFailures), b, maxFailures) == MarkAll(ps, a + b, maxFailures)
    decreases |b|
  {
    if b == [] {
      assert a + b == a;
    } else {
      MarkAllConcat(ps, a, b[..|b| - 1], maxFailures);
      assert (a + b)[..|a + b| - 1] == a + b[..|b| - 1];
    }
  }

  lemma FindSame(ps: seq<ProviderInfo>, qs: seq<ProviderInfo>, url: string)
    requires |ps| == |qs| && forall k :: 0 <= k < |ps| ==> ps[k].url == qs[k].url
    ensures Find(ps, url) == Find(qs, url)
  {
  }

  lemma EverSucceededSnoc(rs: seq<Report>, url: string)
    requires rs != []
    ensures EverSucceeded(rs, url) <==>
            EverSucceeded(rs[..|rs| - 1], url) || (rs[|rs| - 1].url == url && rs[|rs| - 1].Succeeded?)
  {
    var before := rs[..|rs| - 1];
    if EverSucceeded(rs, url) && !(rs[|rs| - 1].url == url && rs[|rs| - 1].Succeeded?) {
      var k :| 0 <= k < |rs| && rs[k].url == url && rs[k].Succeeded?;
      assert before[k] == rs[k];
    }
    if EverSucceeded(before, url) {
      var k :| 0 <= k < |before| && before[k].url == url && before[k].Succeeded?;
      assert rs[k] == before[k];
    }
  }

  /** After any history of reports a provider is healthy exactly when it was healthy to begin with or has
      succeeded since, and its current streak of failures is empty or below the limit. */
  lemma {:induction false} HealthAfter(ps: seq<ProviderInfo>, rs: seq<Report>, maxFailures: nat, url: string)
    requires Find(ps, url) < |ps|
    ensures var i := Find(ps, url);
            var p, q := ps[i], MarkAll(ps, rs, maxFailures)[i];
            var start := if EverSucceeded(rs, url) then 0 else p.consecutiveFailures;
            && q.consecutiveFailures == start + Streak(rs, url)
            && (q.isHealthy <==>
                && (EverSucceeded(rs, url) || p.isHealthy)
                && (Streak(rs, url) == 0 || start + Streak(rs, url) < maxFailures))
    decreases |rs|
  {
    if rs != [] {
      var before, r := rs[..|rs| - 1], rs[|rs| - 1];
      HealthAfter(ps, before, maxFailures, url);
      EverSucceededSnoc(rs, url);
      FindSame(ps, MarkAll(ps, before, maxFailures), url);
      if r.url != url {
        FindSame(ps, MarkAll(ps, before, maxFailures), r.url);
      }
    }
  }

  /** The last success of `url`. */
  function LastSuccess(rs: seq<Report>, url: string): (r: Option<Report>)
    ensures r.Some? ==> r.value.Succeeded? && r.value.url == url
  {
    if rs == [] then None
    else
      var r := rs[|rs| - 1];
      if r.url == url && r.Succeeded? then Some(r) else LastSuccess(rs[..|rs| - 1], url)
  }

  /** After any history of reports a provider has the response time of its last success and was checked at the
      time of that; if it never succeeded both are as they were, whatever the failures. */
  lemma {:induction false} MeasuredAfter(ps: seq<ProviderInfo>, rs: seq<Report>, maxFailures: nat, url: string)
    requires Find(ps, url) < |ps|
    ensures var i := Find(ps, url);
            var p, q := ps[i], MarkAll(ps, rs, maxFailures)[i];
            match LastSuccess(rs, url)
            case Some(r) => q.responseTime == Some(r.responseTime) && q.lastHealthCheck == Some(r.now)
            case None => q.responseTime == p.responseTime && q.lastHealthCheck == p.lastHealthCheck
    decreases |rs|
  {
    if rs != [] {
      var before, r := rs[..|rs| - 1], rs[|rs| - 1];
      MeasuredAfter(ps, before, maxFailures, url);
      FindSame(ps, MarkAll(ps, before, maxFailures), url);
      if r.url != url {
        FindSame(ps, MarkAll(ps, before, maxFailures), r.url);
      }
    }
  }

  /** So its weight is that of the time its last success took, in milliseconds. */
  lemma WeightAfter(ps: seq<ProviderInfo>, rs: seq<Report>, maxFailures: nat, url: string)
    requires Find(ps, url) < |ps| && LastSuccess(rs, url).Some?
    ensures var ms := LastSuccess(rs, url).value.responseTime;
            Weight(MarkAll(ps, rs, maxFailures)[Find(ps, url)]) ==
            if ms < 200 then 100 else if ms < 400 then 60 else if ms < 600 then 30 else 10
  {
    MeasuredAfter(ps, rs, maxFailures, url);
    WeightByTime(MarkAll(ps, rs, maxFailures)[Find(ps, url)]);
  }

  // ---------------------------------------------------------------- the object

  predicate NeedsCheck(p: ProviderInfo, now: nat) {
    !p.isHealthy || p.lastHealthCheck.None? || now > p.lastHealthCheck.value + 60
  }

  /** What the health checks report: `probe` gives, per URL, the response time or nothing. */
  function CheckReports(ps: seq<ProviderInfo>, probe: map<string, nat>, now: nat): (rs: seq<Report>)
    ensures |rs| <= |ps|
    ensures forall r :: r in rs ==> exists p :: p in ps && p.url == r.url && NeedsCheck(p, now)
  {
    if ps == [] then []
    else
      var p := ps[0];
      var rest := CheckReports(ps[1..], probe, now);
      assert ps == [p] + ps[1..];
      if !NeedsCheck(p, now) then rest
      else [if p.url in probe then Succeeded(p.url, probe[p.url], now) else Failed(p.url)] + rest
  }

  // ---------------------------------------------------------------- what a health check does

  function ReportsFor(rs: seq<Report>, url: string): seq<Report> {
    if rs == [] then [] else ReportsFor(rs[..|rs| - 1], url) + OneFor(rs[|rs| - 1], url)
  }

  function OneFor(r: Report, url: string): seq<Report> {
    if r.url == url then [r] else []
  }

  function MarkEach(p: ProviderInfo, rs: seq<Report>, maxFailures: nat): ProviderInfo
    decreases |rs|
  {
    if rs == [] then p else MarkOne(MarkEach(p, rs[..|rs| - 1], maxFailures), rs[|rs| - 1], maxFailures)
  }

  /** A provider is marked by the reports for its URL, in turn. */
  lemma {:induction false} MarkAllFor(ps: seq<ProviderInfo>, rs: seq<Report>, maxFailures: nat, url: string)
    requires Find(ps, url) < |ps|
    ensures MarkAll(ps, rs, maxFailures)[Find(ps, url)] == MarkEach(ps[Find(ps, url)], ReportsFor(rs, url), maxFailures)
    decreases |rs|
  {
    if rs != [] {
      var before, r := rs[..|rs| - 1], rs[|rs| - 1];
      MarkAllFor(ps, before, maxFailures, url);
      FindSame(ps, MarkAll(ps, before, maxFailures), url);
      if r.url == url {
        assert (ReportsFor(before, url) + [r])[..|ReportsFor(before, url)|] == ReportsFor(before, url);
      } else {
        FindSame(ps, MarkAll(ps, before, maxFailures), r.url);
        assert ReportsFor(before, url) + [] == ReportsFor(before, url);
      }
    }
  }

  lemma {:induction false} ReportsForCons(r: Report, rs: seq<Report>, url: string)
    ensures ReportsFor([r] + rs, url) == OneFor(r, url) + ReportsFor(rs, url)
    decreases |rs|
  {
    if rs == [] {
      assert [r] + rs == [r] && [r][..0] == [];
    } else {
      var last := rs[|rs| - 1];
      ReportsForCons(r, rs[..|rs| - 1], url);
      assert ([r] + rs)[..|rs|] == [r] + rs[..|rs| - 1];
      Associative(OneFor(r, url), ReportsFor(rs[..|rs| - 1], url), OneFor(last, url));
    }
  }

  predicate DistinctUrls(ps: seq<ProviderInfo>) {
    forall i, j :: 0 <= i < j < |ps| ==> ps[i].url != ps[j].url
  }

  /** What the check of a provider reports. */
  function CheckReport(p: ProviderInfo, probe: map<string, nat>, now: nat): seq<Report> {
    if !NeedsCheck(p, now) then []
    else [if p.url in probe then Succeeded(p.url, probe[p.url], now) else Failed(p.url)]
  }

  lemma NoneReported(ps: seq<ProviderInfo>, probe: map<string, nat>, now: nat, url: string)
    requires forall p :: p in ps ==> p.url != url
    ensures ReportsFor(CheckReports(ps, probe, now), url) == []
  {
    NoReports(CheckReports(ps, probe, now), url);
  }

  lemma {:induction false} NoReports(rs: seq<Report>, url: string)
    requires forall r :: r in rs ==> r.url != url
    ensures ReportsFor(rs, url) == []
    decreases |rs|
  {
    if rs != [] {
      NoReports(rs[..|rs| - 1], url);
      assert rs[|rs| - 1] in rs;
    }
  }

  lemma CheckReportsCons(ps: seq<ProviderInfo>, probe: map<string, nat>, now: nat, url: string)
    requires ps != []
    ensures var first, rest := CheckReport(ps[0], probe, now), CheckReports(ps[1..], probe, now);
            ReportsFor(CheckReports(ps, probe, now), url) ==
            (if ps[0].url == url then first else []) + ReportsFor(rest, url)
  {
    var first, rest := CheckReport(ps[0], probe, now), CheckReports(ps[1..], probe, now);
    if first != [] {
      assert CheckReports(ps, probe, now) == [first[0]] + rest;
      ReportsForCons(first[0], rest, url);
    }
  }

  lemma {:induction false} ReportedOnce(ps: seq<ProviderInfo>, probe: map<string, nat>, now: nat, i: nat)
    requires DistinctUrls(ps) && i < |ps|
    ensures ReportsFor(CheckReports(ps, probe, now), ps[i].url) == CheckReport(ps[i], probe, now)
    decreases |ps|
  {
    var url, rest := ps[i].url, ps[1..];
    CheckReportsCons(ps, probe, now, url);
    if i == 0 {
      assert forall p :: p in rest ==> p.url != url;
      NoneReported(rest, probe, now, url);
    } else {
      ReportedOnce(rest, probe, now, i - 1);
    }
  }

  /** A provider that is healthy and was checked within the last minute stays as it is; any other is healthy
      afterwards, timed and checked now, if it was reached, and has one more failure if not. */
  predicate Checked(p: ProviderInfo, q: ProviderInfo, probe: map<string, nat>, now: nat, maxFailures: nat) {
    if p.isHealthy && p.lastHealthCheck.Some? && now <= p.lastHealthCheck.value + 60 then q == p
    else if p.url in probe then q == ProviderInfo(p.url, true, Some(now), Some(probe[p.url]), 0)
    else
      q == ProviderInfo(p.url, p.isHealthy && p.consecutiveFailures + 1 < maxFailures,
                        p.lastHealthCheck, p.responseTime, p.consecutiveFailures + 1)
  }

  lemma CheckedExactly(ps: seq<ProviderInfo>, probe: map<string, nat>, now: nat, maxFailures: nat, i: nat)
    requires DistinctUrls(ps) && i < |ps|
    ensures Checked(ps[i], MarkAll(ps, CheckReports(ps, probe, now), maxFailures)[i], probe, now, maxFailures)
  {
    assert Find(ps, ps[i].url) == i;
    ReportedOnce(ps, probe, now, i);
    MarkAllFor(ps, CheckReports(ps, probe, now), maxFailures, ps[i].url);
    var reports := CheckReport(ps[i], probe, now);
    if reports != [] {
      assert reports[..0] == [];
      assert MarkEach(ps[i], reports, maxFailures) == MarkOne(ps[i], reports[0], maxFailures);
    }
  }

  lemma AllChecked(ps: seq<ProviderInfo>, probe: map<string, nat>, now: nat, maxFailures: nat)
    requires DistinctUrls(ps)
    ensures var qs := MarkAll(ps, CheckReports(ps, probe, now), maxFailures);
            forall i :: 0 <= i < |qs| ==> Checked(ps[i], qs[i], probe, now, maxFailures)
  {
    var qs := MarkAll(ps, CheckReports(ps, probe, now), maxFailures);
    forall i | 0 <= i < |qs| ensures Checked(ps[i], qs[i], probe, now, maxFailures) {
      CheckedExactly(ps, probe, now, maxFailures, i);
    }
  }

  class ProviderManager {
    var providers: seq<ProviderInfo>
    var roundRobinCounter: nat
    const maxFailures: nat

    constructor (urls: seq<string>, probe: map<string, nat>, now: nat, maxFailures: nat)
      ensures |providers| == |urls| && this.maxFailures == maxFailures && roundRobinCounter == 0
      ensures forall i :: 0 <= i < |urls| ==>
                providers[i] == if urls[i] in probe
                                then ProviderInfo(urls[i], true, Some(now), Some(probe[urls[i]]), 0)
                                else ProviderInfo(urls[i], false, None, None, 1)
    {
      this.maxFailures, roundRobinCounter := maxFailures, 0;
      providers := seq(|urls|, i requires 0 <= i < |urls| =>
        if urls[i] in probe then ProviderInfo(urls[i], true, Some(now), Some(probe[urls[i]]), 0)
        else ProviderInfo(urls[i], false, None, None, 1));
    }

    method GetWeightedProviderExcluding(tried: set<string>, draw: nat) returns (r: Option<string>)
      requires |Available(providers, tried)| >= 2 ==> draw < TotalWeight(Available(providers, tried))
      ensures r.None? <==> Available(providers, tried) == []
      ensures r.Some? ==> exists p :: p in providers && p.url == r.value && IsAvailable(p, tried)
      ensures |Available(providers, tried)| >= 2 ==>
                exists i: nat :: Selects(Available(providers, tried), draw, i)
                              && r == Some(Available(providers, tried)[i].url)
    {
      var available := Available(providers, tried);
      if available == [] {
        return None;
      }
      if |available| == 1 {
        assert available[0] in providers;
        return Some(available[0].url);
      }
      var total := SumWeights(available);
      var i := SelectWeighted(available, draw);
      assert available[i] in providers;
      return Some(available[i].url);
    }

    method GetNextProvider() returns (r: Option<string>)
      requires roundRobinCounter < COUNTER_BOUND
      modifies this`roundRobinCounter
      ensures var healthy := Available(providers, {});
              if healthy == [] then r == None && roundRobinCounter == old(roundRobinCounter)
              else
                && r == Some(healthy[old(roundRobinCounter) % |healthy|].url)
                && roundRobinCounter == NextCounter(old(roundRobinCounter)) < COUNTER_BOUND
    {
      var healthy := Available(providers, {});
      if healthy == [] {
        return None;
      }
      var index := roundRobinCounter % |healthy|;
      roundRobinCounter := (roundRobinCounter + 1) % COUNTER_BOUND;
      return Some(healthy[index].url);
    }

    method MarkProviderFailed(url: string)
      modifies this`providers
      ensures providers == Mark(old(providers), Failed(url), maxFailures)
    {
      var i := Find(providers, url);
      if i < |providers| {
        var p := providers[i];
        p := p.(consecutiveFailures := p.consecutiveFailures + 1);
        if p.consecutiveFailures >= maxFailures {
          p := p.(isHealthy := false);
        }
        providers := providers[i := p];
      }
    }

    method MarkProviderSuccess(url: string, responseTime: nat, now: nat)
      modifies this`providers
      ensures providers == Mark(old(providers), Succeeded(url, responseTime, now), maxFailures)
    {
      var i := Find(providers, url);
      if i < |providers| {
        var p := providers[i];
        p := p.(consecutiveFailures := 0, isHealthy := true);
        p := p.(responseTime := Some(responseTime), lastHealthCheck := Some(now));
        providers := providers[i := p];
      }
    }

    method HealthCheckAll(probe: map<string, nat>, now: nat)
      modifies this`providers
      ensures providers == MarkAll(old(providers), CheckReports(old(providers), probe, now), maxFailures)
      ensures DistinctUrls(old(providers)) ==>
                forall i :: 0 <= i < |providers| ==> Checked(old(providers)[i], providers[i], probe, now, maxFailures)
    {
      var reports := CheckReports(providers, probe, now);
      for i := 0 to |reports|
        invariant providers == MarkAll(old(providers), reports[..i], maxFailures)
      {
        assert reports[..i + 1][..i] == reports[..i];
        match reports[i]
        case Succeeded(url, rt, at) => MarkProviderSuccess(url, rt, at);
        case Failed(url) => MarkProviderFailed(url);
      }
      assert reports[..|reports|] == reports;
      if DistinctUrls(old(providers)) {
        AllChecked(old(providers), probe, now, maxFailures);
      }
    }
  }
}
