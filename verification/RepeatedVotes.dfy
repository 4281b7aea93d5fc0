/** When the votes on an error are votes of different providers: what can be known before the call. */
module RepeatedVotes {
  import opened Common
  import opened Json
  import opened Providers
  import opened Replies
  import opened Forward
  import M = Metrics

  /** The healthy providers, by URL. */
  function HealthyUrls(ps: seq<ProviderInfo>): set<string> {
    set p | p in ps && p.isHealthy :: p.url
  }

  /** Those the call has not sent to since it last cleared the tried ones. */
  ghost function Untried(c: Context, log: seq<Event>): set<string> {
    HealthyUrls(ProvidersAfter(c, log)) - TriedSinceClear(log)
  }

  lemma UntriedCanBeSent(c: Context, log: seq<Event>, url: string)
    ensures CanSend(ProvidersAfter(c, log), TriedSinceClear(log), url) <==> url in Untried(c, log)
    ensures Available(ProvidersAfter(c, log), TriedSinceClear(log)) == [] <==> Untried(c, log) == {}
  {
    var available := Available(ProvidersAfter(c, log), TriedSinceClear(log));
    if available != [] {
      assert available[0] in available && available[0].url in Untried(c, log);
    }
  }

  // ---------------------------------------------------------------- what reports do to the healthy ones

  lemma MarkUrls(ps: seq<ProviderInfo>, r: Report, maxFailures: nat)
    ensures HealthyUrls(ps) - {r.url} <= HealthyUrls(Mark(ps, r, maxFailures)) <= HealthyUrls(ps) + {r.url}
    ensures r.Failed? ==> HealthyUrls(Mark(ps, r, maxFailures)) <= HealthyUrls(ps)
  {
    var qs := Mark(ps, r, maxFailures);
    forall p | p in ps && p.isHealthy && p.url != r.url ensures p in qs {
      var k :| 0 <= k < |ps| && ps[k] == p;
      assert qs[k] == p;
    }
    forall q | q in qs && q.isHealthy ensures q in ps || q.url == r.url {
      var k :| 0 <= k < |qs| && qs[k] == q;
      assert k != Find(ps, r.url) ==> ps[k] == q;
    }
    if r.Failed? {
      forall q | q in qs && q.isHealthy ensures q.url in HealthyUrls(ps) {
        var k :| 0 <= k < |qs| && qs[k] == q;
        assert ps[k].isHealthy && ps[k].url == q.url && ps[k] in ps;
      }
    }
  }

  lemma {:induction false} MarkAllUrls(ps: seq<ProviderInfo>, rs: seq<Report>, url: string, maxFailures: nat)
    requires forall r :: r in rs && r.Succeeded? ==> r.url == url
    ensures HealthyUrls(MarkAll(ps, rs, maxFailures)) <= HealthyUrls(ps) + {url}
    decreases |rs|
  {
    if rs != [] {
      var before, r := rs[..|rs| - 1], rs[|rs| - 1];
      MarkAllUrls(ps, before, url, maxFailures);
      MarkUrls(MarkAll(ps, before, maxFailures), r, maxFailures);
      assert r in rs;
    }
  }

  lemma AfterEvent(c: Context, log: seq<Event>, e: Event)
    ensures ProvidersAfter(c, log + [e]) ==
            MarkAll(ProvidersAfter(c, log), ReportsOf(e, IsThird(log + [e], e)), c.maxFailures)
  {
    Snoc(log, e);
    MarkAllConcat(c.providers, Reports(log), ReportsOf(e, IsThird(log + [e], e)), c.maxFailures);
  }

  /** A send, whatever the reply, takes its provider and no other from those that are left. */
  lemma SentUntried(c: Context, log: seq<Event>, e: Event)
    requires e.Sent?
    ensures Untried(c, log + [e]) == Untried(c, log) - {e.url}
    ensures TriedSinceClear(log + [e]) == TriedSinceClear(log) + {e.url}
  {
    AfterEvent(c, log, e);
    Snoc(log, e);
    var ps, rs := ProvidersAfter(c, log), ReportsOf(e, IsThird(log + [e], e));
    if rs != [] {
      OneReport(ps, rs[0], c.maxFailures);
      MarkUrls(ps, rs[0], c.maxFailures);
    }
  }

  lemma LastSend(c: Context, log: seq<Event>)
    requires log != [] && log[|log| - 1].Sent?
    ensures var before, e := log[..|log| - 1], log[|log| - 1];
            && Untried(c, log) == Untried(c, before) - {e.url}
            && TriedSinceClear(log) == TriedSinceClear(before) + {e.url}
  {
    var before, e := log[..|log| - 1], log[|log| - 1];
    assert before + [e] == log;
    SentUntried(c, before, e);
  }

  // ---------------------------------------------------------------- with four healthy providers

  ghost predicate NeverClears(log: seq<Event>) {
    forall i :: 0 <= i < |log| ==> log[i].Sent?
  }

  /** Before the first clear, those left are the ones healthy at the beginning without those sent to. */
  lemma {:induction false} UntriedBeforeClear(c: Context, log: seq<Event>)
    requires NeverClears(log)
    ensures Untried(c, log) == HealthyUrls(c.providers) - TriedSinceClear(log)
    ensures |TriedSinceClear(log)| <= |log|
    decreases |log|
  {
    if log == [] {
      assert Reports(log) == [];
    } else {
      var before := log[..|log| - 1];
      UntriedBeforeClear(c, before);
      LastSend(c, log);
      assert |TriedSinceClear(before) + {log[|log| - 1].url}| <= |TriedSinceClear(before)| + 1;
    }
  }

  lemma FirstClear(c: Context, log: seq<Event>)
    requires Justified(c, log) && log != [] && NeverClears(log[..|log| - 1]) && log[|log| - 1].Cleared?
    ensures |HealthyUrls(c.providers)| < |log|
  {
    var before := log[..|log| - 1];
    UntriedBeforeClear(c, before);
    ClearLeavesNone(c, log);
    SubsetSize(HealthyUrls(c.providers), TriedSinceClear(before));
  }

  lemma {:induction false} NoEarlyClear(c: Context, log: seq<Event>)
    requires Justified(c, log) && |log| <= |HealthyUrls(c.providers)|
    ensures NeverClears(log)
    decreases |log|
  {
    if log != [] {
      UntriedLast(c, log);
      NoEarlyClear(c, log[..|log| - 1]);
      if log[|log| - 1].Cleared? {
        FirstClear(c, log);
      }
      NeverClearsMore(log);
    }
  }

  lemma NeverClearsMore(log: seq<Event>)
    requires log != [] && NeverClears(log[..|log| - 1]) && log[|log| - 1].Sent?
    ensures NeverClears(log)
  {
    forall i | 0 <= i < |log| ensures log[i].Sent? {
      assert i < |log| - 1 ==> log[..|log| - 1][i] == log[i];
    }
  }

  lemma ClearLeavesNone(c: Context, log: seq<Event>)
    requires Justified(c, log) && log != []
    ensures log[|log| - 1].Cleared? ==> Untried(c, log[..|log| - 1]) == {}
  {
    UntriedCanBeSent(c, log[..|log| - 1], "");
  }

  lemma FourVoteOnce(c: Context, log: seq<Event>, signature: nat)
    requires Justified(c, log) && |log| <= MAX_RETRIES && |HealthyUrls(c.providers)| >= MAX_RETRIES - 1
    ensures |Voters(log, signature)| == VoteCount(log, signature)
  {
    NoProviderTwice(c, log);
    if log != [] {
      NoEarlyClear(c, log[..|log| - 1]);
      forall k | 0 <= k < |log| - 1 ensures log[k].Sent? {
        assert log[..|log| - 1][k] == log[k];
      }
    }
    VotersDistinct(log, signature);
  }

  // ---------------------------------------------------------------- where there is no vote at all

  /** Some reply counts as an error of the provider. */
  ghost predicate CanVote(t: Tables) {
    exists raw :: Classify(t, raw).ProviderError?
  }

  lemma {:induction false} NobodyVotes(c: Context, log: seq<Event>, signature: nat)
    requires Justified(c, log) && (c.providers == [] || !CanVote(c.tables))
    ensures VoteCount(log, signature) == 0 && Voters(log, signature) == {}
    decreases |log|
  {
    if log != [] {
      NobodyVotes(c, log[..|log| - 1], signature);
    }
  }

  // ---------------------------------------------------------------- one more event of a run

  /** What each attempt of the runs brings: a health check at time 0 reaches `url` alone. */
  function Bring(raw: Raw, url: string): Attempt {
    Attempt(raw, 0, 0, map[url := 0])
  }

  ghost predicate Underway(c: Context, log: seq<Event>) {
    Justified(c, log) && AllOpen(log) && |log| < |c.world|
  }

  function SendEvent(c: Context, log: seq<Event>, url: string): Event
    requires |log| < |c.world|
  {
    var a := c.world[|log|];
    Sent(url, Classify(c.tables, a.raw), a.responseTime, a.now)
  }

  /** Exactly these providers can be sent to. */
  ghost predicate Left(c: Context, log: seq<Event>, left: set<string>) {
    forall url {:trigger CanSend(ProvidersAfter(c, log), TriedSinceClear(log), url)} ::
      CanSend(ProvidersAfter(c, log), TriedSinceClear(log), url) <==> url in left
  }

  lemma LeftIs(c: Context, log: seq<Event>, left: set<string>)
    ensures Left(c, log, left) <==> left == Untried(c, log)
  {
    forall url ensures CanSend(ProvidersAfter(c, log), TriedSinceClear(log), url) <==> url in Untried(c, log) {
      UntriedCanBeSent(c, log, url);
    }
  }

  lemma SendJustified(c: Context, log: seq<Event>, url: string)
    requires Underway(c, log) && url in Untried(c, log)
    ensures Justified(c, log + [SendEvent(c, log, url)])
  {
    UntriedCanBeSent(c, log, url);
    JustifiedMore(c, log, SendEvent(c, log, url));
  }

  lemma MadeLast(c: Context, log: seq<Event>, url: string)
    requires Underway(c, log) && url in Untried(c, log) && |c.world| == MAX_RETRIES
    ensures Made(c, log + [SendEvent(c, log, url)])
  {
    UntriedCanBeSent(c, log, url);
    MadeMore(c, log, SendEvent(c, log, url));
  }

  /** A provider votes. */
  lemma VoteNext(c: Context, log: seq<Event>, url: string, signature: nat)
    requires |log| < |c.world|
    requires SendEvent(c, log, url).reply.ProviderError? && SendEvent(c, log, url).reply.signature == signature
    ensures var l := log + [SendEvent(c, log, url)];
            && VoteCount(l, signature) == VoteCount(log, signature) + 1
            && Voters(l, signature) == Voters(log, signature) + {url}
    ensures AllOpen(log) && VoteCount(log, signature) < MAX_MULTIPLE_SAME_ERROR - 1 ==>
              AllOpen(log + [SendEvent(c, log, url)])
  {
    var e := SendEvent(c, log, url);
    Snoc(log, e);
    if AllOpen(log) {
      OpenSnoc(log, e);
    }
  }

  /** A provider cannot be reached. */
  lemma UnreachedNext(c: Context, log: seq<Event>, url: string, signature: nat)
    requires Underway(c, log) && c.world[|log|].raw == Unreachable
    ensures var l := log + [SendEvent(c, log, url)];
            && AllOpen(l) && VoteCount(l, signature) == VoteCount(log, signature)
            && Voters(l, signature) == Voters(log, signature)
  {
    var e := SendEvent(c, log, url);
    Snoc(log, e);
    OpenSnoc(log, e);
  }

  ghost predicate SameVotes(log: seq<Event>, more: seq<Event>, signature: nat) {
    VoteCount(more, signature) == VoteCount(log, signature) && Voters(more, signature) == Voters(log, signature)
  }

  ghost predicate AllUnreachable(c: Context, start: nat, end: nat, url: string) {
    end <= |c.world| && forall i :: start <= i < end ==> c.world[i] == Bring(Unreachable, url)
  }

  /** None of those that are left can be reached. */
  lemma {:induction false} UnreachedAll(
    c: Context, log: seq<Event>, left: set<string>, url: string, signature: nat)
    returns (more: seq<Event>)
    requires Underway(c, log) && Left(c, log, left) && |log| + |left| < |c.world|
    requires AllUnreachable(c, |log|, |log| + |left|, url)
    ensures |more| == |log| + |left| && Underway(c, more) && Left(c, more, {}) && SameVotes(log, more, signature)
    decreases left
  {
    if left == {} {
      more := log;
    } else {
      var other :| other in left;
      var next := UnreachedOne(c, log, left, other, signature);
      assert |left - {other}| == |left| - 1;
      more := UnreachedAll(c, next, left - {other}, url, signature);
    }
  }

  lemma UnreachedOne(c: Context, log: seq<Event>, left: set<string>, other: string, signature: nat)
    returns (next: seq<Event>)
    requires Underway(c, log) && Left(c, log, left) && other in left
    requires c.world[|log|].raw == Unreachable && |log| + 1 < |c.world|
    ensures |next| == |log| + 1 && Underway(c, next) && Left(c, next, left - {other}) && SameVotes(log, next, signature)
  {
    LeftIs(c, log, left);
    var e := SendEvent(c, log, other);
    SendJustified(c, log, other);
    UnreachedNext(c, log, other, signature);
    SentUntried(c, log, e);
    next := log + [e];
    LeftIs(c, next, left - {other});
  }

  // ---------------------------------------------------------------- a clear that brings a provider back

  lemma {:induction false} ProbedSucceed(ps: seq<ProviderInfo>, probe: map<string, nat>, now: nat)
    ensures forall r :: r in CheckReports(ps, probe, now) ==> (r.Succeeded? <==> r.url in probe)
    decreases |ps|
  {
    if ps != [] {
      ProbedSucceed(ps[1..], probe, now);
    }
  }

  lemma {:induction false} UnhealthyReported(ps: seq<ProviderInfo>, probe: map<string, nat>, now: nat, i: nat)
    requires i < |ps| && !ps[i].isHealthy
    ensures exists r :: r in CheckReports(ps, probe, now) && r.url == ps[i].url
    decreases |ps|
  {
    if i > 0 {
      UnhealthyReported(ps[1..], probe, now, i - 1);
      var r :| r in CheckReports(ps[1..], probe, now) && r.url == ps[i].url;
      assert r in CheckReports(ps, probe, now);
    } else {
      assert CheckReports(ps, probe, now)[0].url == ps[0].url;
    }
  }

  lemma {:induction false} NoStreak(rs: seq<Report>, url: string)
    requires forall r :: r in rs && r.url == url ==> r.Succeeded?
    ensures Streak(rs, url) == 0
    decreases |rs|
  {
    if rs != [] {
      assert rs[|rs| - 1] in rs;
      NoStreak(rs[..|rs| - 1], url);
    }
  }

  ghost predicate Has(ps: seq<ProviderInfo>, url: string) {
    exists p :: p in ps && p.url == url
  }

  /** A health check that reaches one provider alone: it is healthy then, and nobody is who was not. */
  lemma CheckRevives(ps: seq<ProviderInfo>, url: string, maxFailures: nat)
    requires Has(ps, url)
    ensures var qs := MarkAll(ps, CheckReports(ps, map[url := 0], 0), maxFailures);
            url in HealthyUrls(qs) && HealthyUrls(qs) <= HealthyUrls(ps) + {url}
  {
    var rs := CheckReports(ps, map[url := 0], 0);
    ProbedSucceed(ps, map[url := 0], 0);
    MarkAllUrls(ps, rs, url, maxFailures);
    NoStreak(rs, url);
    var i := Find(ps, url);
    HealthAfter(ps, rs, maxFailures, url);
    if !ps[i].isHealthy {
      UnhealthyReported(ps, map[url := 0], 0, i);
      var r :| r in rs && r.url == url;
      assert EverSucceeded(rs, url);
    }
    assert MarkAll(ps, rs, maxFailures)[i] in MarkAll(ps, rs, maxFailures);
  }

  function ClearEvent(c: Context, log: seq<Event>): Event
    requires |log| < |c.world|
  {
    Cleared(CheckReports(ProvidersAfter(c, log), c.world[|log|].probe, c.world[|log|].now))
  }

  lemma ClearNext(c: Context, log: seq<Event>, signature: nat)
    requires Underway(c, log) && Untried(c, log) == {}
    ensures var l := log + [ClearEvent(c, log)];
            Justified(c, l) && AllOpen(l) && SameVotes(log, l, signature)
  {
    var e := ClearEvent(c, log);
    UntriedCanBeSent(c, log, "");
    JustifiedMore(c, log, e);
    OpenSnoc(log, e);
    Snoc(log, e);
  }

  lemma ClearRevives(c: Context, log: seq<Event>, url: string)
    requires |log| < |c.world| && c.world[|log|] == Bring(c.world[|log|].raw, url)
    requires Has(c.providers, url) && Untried(c, log) == {}
    ensures var l := log + [ClearEvent(c, log)];
            url in Untried(c, l) && Untried(c, l) <= TriedSinceClear(log) + {url}
  {
    var e := ClearEvent(c, log);
    AfterEvent(c, log, e);
    Snoc(log, e);
    HasAfter(c, log, url);
    CheckRevives(ProvidersAfter(c, log), url, c.maxFailures);
  }

  lemma HasAfter(c: Context, log: seq<Event>, url: string)
    requires Has(c.providers, url)
    ensures Has(ProvidersAfter(c, log), url)
  {
    var p :| p in c.providers && p.url == url;
    var k :| 0 <= k < |c.providers| && c.providers[k] == p;
    assert ProvidersAfter(c, log)[k] in ProvidersAfter(c, log);
  }

  // ---------------------------------------------------------------- the same provider again

  ghost predicate IsVoteOn(t: Tables, raw: Raw, signature: nat) {
    Classify(t, raw).ProviderError? && Classify(t, raw).signature == signature
  }

  /** The attempts from `start` on: one provider votes at the first and the last of them. */
  ghost predicate Brings(c: Context, start: nat, last: nat, raw: Raw, url: string) {
    && start < last < |c.world|
    && c.world[start] == c.world[last] == Bring(raw, url)
    && AllUnreachable(c, start + 1, last, url)
  }

  ghost predicate OneMoreVote(log: seq<Event>, more: seq<Event>, url: string, signature: nat) {
    && VoteCount(more, signature) == VoteCount(log, signature) + 1
    && Voters(more, signature) == Voters(log, signature) + {url}
  }

  lemma Vote(c: Context, log: seq<Event>, left: set<string>, url: string, raw: Raw, signature: nat)
    returns (more: seq<Event>)
    requires Underway(c, log) && Left(c, log, left) && url in left && |log| + 1 < |c.world|
    requires c.world[|log|] == Bring(raw, url) && IsVoteOn(c.tables, raw, signature)
    requires VoteCount(log, signature) < MAX_MULTIPLE_SAME_ERROR - 1
    ensures |more| == |log| + 1 && Underway(c, more) && Left(c, more, left - {url})
    ensures OneMoreVote(log, more, url, signature) && TriedSinceClear(more) == TriedSinceClear(log) + {url}
  {
    LeftIs(c, log, left);
    var e := SendEvent(c, log, url);
    VoteNext(c, log, url, signature);
    SendJustified(c, log, url);
    SentUntried(c, log, e);
    more := log + [e];
    LeftIs(c, more, left - {url});
  }

  lemma StartOver(c: Context, log: seq<Event>, url: string, signature: nat)
    returns (more: seq<Event>, left: set<string>)
    requires Underway(c, log) && |log| + 1 < |c.world| && Left(c, log, {}) && Has(c.providers, url)
    requires c.world[|log|] == Bring(c.world[|log|].raw, url)
    ensures |more| == |log| + 1 && Underway(c, more) && SameVotes(log, more, signature) && TriedSinceClear(more) == {}
    ensures Left(c, more, left) && url in left && left <= TriedSinceClear(log) + {url}
  {
    LeftIs(c, log, {});
    ClearNext(c, log, signature);
    ClearRevives(c, log, url);
    Snoc(log, ClearEvent(c, log));
    more := log + [ClearEvent(c, log)];
    left := Untried(c, more);
    LeftIs(c, more, left);
  }

  /** The last vote of a run. */
  lemma LastVote(c: Context, log: seq<Event>, left: set<string>, url: string, raw: Raw, signature: nat)
    returns (more: seq<Event>)
    requires Underway(c, log) && Left(c, log, left) && url in left && |c.world| == MAX_RETRIES
    requires c.world[|log|] == Bring(raw, url) && IsVoteOn(c.tables, raw, signature)
    ensures Made(c, more) && OneMoreVote(log, more, url, signature)
    ensures VoteCount(log, signature) == MAX_MULTIPLE_SAME_ERROR - 1 ==>
              Answers(more, Ok(Classify(c.tables, raw).response))
  {
    LeftIs(c, log, left);
    var e := SendEvent(c, log, url);
    MadeLast(c, log, url);
    VoteNext(c, log, url, signature);
    more := log + [e];
    if VoteCount(log, signature) == MAX_MULTIPLE_SAME_ERROR - 1 {
      Snoc(log, e);
      Answered(log, e);
    }
  }

  /** One provider votes and the others cannot be reached. */
  lemma VoteOfOne(c: Context, log: seq<Event>, left: set<string>, url: string, raw: Raw, signature: nat)
    returns (more: seq<Event>)
    requires Underway(c, log) && Left(c, log, left) && url in left && VoteCount(log, signature) == 0
    requires IsVoteOn(c.tables, raw, signature) && Brings(c, |log|, |log| + |left| + 1, raw, url)
    ensures |more| == |log| + |left| && Underway(c, more) && Left(c, more, {})
    ensures OneMoreVote(log, more, url, signature)
  {
    var voted := Vote(c, log, left, url, raw, signature);
    assert |left - {url}| == |left| - 1;
    assert AllUnreachable(c, |log| + 1, |log| + |left|, url);
    more := UnreachedAll(c, voted, left - {url}, url, signature);
  }

  lemma StartOverAndVote(c: Context, log: seq<Event>, url: string, raw: Raw, signature: nat)
    returns (more: seq<Event>)
    requires Underway(c, log) && Left(c, log, {}) && Has(c.providers, url) && IsVoteOn(c.tables, raw, signature)
    requires |log| + 1 < |c.world| == MAX_RETRIES && c.world[|log| + 1] == Bring(raw, url)
    requires c.world[|log|] == Bring(c.world[|log|].raw, url)
    ensures Made(c, more) && OneMoreVote(log, more, url, signature)
  {
    var over, again := StartOver(c, log, url, signature);
    more := LastVote(c, over, again, url, raw, signature);
  }

  /** After starting over it votes again. */
  lemma VotesTwice(c: Context, log: seq<Event>, left: set<string>, url: string, raw: Raw, signature: nat)
    returns (more: seq<Event>)
    requires Underway(c, log) && Left(c, log, left) && url in left && Has(c.providers, url)
    requires VoteCount(log, signature) == 0 && Voters(log, signature) == {} && IsVoteOn(c.tables, raw, signature)
    requires |c.world| == MAX_RETRIES && Brings(c, |log|, |log| + |left| + 1, raw, url)
    ensures Made(c, more) && VoteCount(more, signature) == 2 && Voters(more, signature) == {url}
  {
    var all := VoteOfOne(c, log, left, url, raw, signature);
    more := StartOverAndVote(c, all, url, raw, signature);
  }

  function World(start: nat, last: nat, raw: Raw, url: string): (world: seq<Attempt>)
    ensures |world| == MAX_RETRIES
    ensures forall i :: 0 <= i < MAX_RETRIES ==>
              world[i] == Bring(if i == start || i == last then raw else Unreachable, url)
  {
    seq(MAX_RETRIES, i => Bring(if i == start || i == last then raw else Unreachable, url))
  }

  function Calling(t: Tables, maxFailures: nat, ps: seq<ProviderInfo>, world: seq<Attempt>): Context {
    Context(t, "eth_call", world, maxFailures, M.ZERO, ps)
  }

  lemma Unstarted(c: Context)
    ensures Justified(c, []) && AllOpen([]) && Untried(c, []) == HealthyUrls(c.providers)
  {
    assert Reports([]) == [];
  }

  /** With one to three healthy providers: the first of them votes twice. */
  lemma FewHealthyRepeat(t: Tables, maxFailures: nat, ps: seq<ProviderInfo>, raw: Raw, signature: nat)
    returns (c: Context, log: seq<Event>)
    requires 0 < |HealthyUrls(ps)| < MAX_RETRIES - 1 && IsVoteOn(t, raw, signature)
    ensures c.tables == t && c.maxFailures == maxFailures && c.providers == ps && |c.world| == MAX_RETRIES
    ensures Made(c, log) && VoteCount(log, signature) == 2 && |Voters(log, signature)| == 1
  {
    var url :| url in HealthyUrls(ps);
    c := Calling(t, maxFailures, ps, World(0, |HealthyUrls(ps)| + 1, raw, url));
    Unstarted(c);
    LeftIs(c, [], HealthyUrls(ps));
    log := VotesTwice(c, [], HealthyUrls(ps), url, raw, signature);
  }

  /** With none: the first attempt finds one that has recovered, and it votes twice. */
  lemma NoneHealthyRepeat(t: Tables, maxFailures: nat, ps: seq<ProviderInfo>, raw: Raw, signature: nat)
    returns (c: Context, log: seq<Event>)
    requires ps != [] && HealthyUrls(ps) == {} && IsVoteOn(t, raw, signature)
    ensures c.tables == t && c.maxFailures == maxFailures && c.providers == ps && |c.world| == MAX_RETRIES
    ensures Made(c, log) && VoteCount(log, signature) == 2 && |Voters(log, signature)| == 1
  {
    var url := ps[0].url;
    assert ps[0] in ps;
    c := Calling(t, maxFailures, ps, World(1, 3, raw, url));
    Unstarted(c);
    LeftIs(c, [], {});
    var start, left := StartOver(c, [], url, signature);
    assert left == {url};
    log := VotesTwice(c, start, left, url, raw, signature);
  }

  /** The logs a call over these providers can have made at any time. */
  ghost predicate CanMake(t: Tables, maxFailures: nat, ps: seq<ProviderInfo>, c: Context, log: seq<Event>) {
    && c.tables == t && c.maxFailures == maxFailures && c.providers == ps
    && |c.world| == MAX_RETRIES && Made(c, log)
  }

  ghost predicate DistinctVoters(log: seq<Event>) {
    forall s :: |Voters(log, s)| == VoteCount(log, s)
  }

  /** Whatever the providers do, as many of them have returned an error as there are votes for it, exactly when
      there is no provider, at least four are healthy at the beginning, or no reply counts as a vote. */
  lemma VotersDistinctBeforehand(t: Tables, maxFailures: nat, ps: seq<ProviderInfo>)
    ensures (forall c, log :: CanMake(t, maxFailures, ps, c, log) ==> DistinctVoters(log)) <==>
            ps == [] || |HealthyUrls(ps)| >= MAX_RETRIES - 1 || !CanVote(t)
  {
    if ps == [] || |HealthyUrls(ps)| >= MAX_RETRIES - 1 || !CanVote(t) {
      forall c, log, s | CanMake(t, maxFailures, ps, c, log) ensures |Voters(log, s)| == VoteCount(log, s) {
        if |HealthyUrls(ps)| >= MAX_RETRIES - 1 {
          FourVoteOnce(c, log, s);
        } else {
          NobodyVotes(c, log, s);
        }
      }
    } else {
      var raw :| Classify(t, raw).ProviderError?;
      var s := Classify(t, raw).signature;
      var c, log;
      if HealthyUrls(ps) == {} {
        c, log := NoneHealthyRepeat(t, maxFailures, ps, raw, s);
      } else {
        c, log := FewHealthyRepeat(t, maxFailures, ps, raw, s);
      }
      assert CanMake(t, maxFailures, ps, c, log) && !DistinctVoters(log);
    }
  }

  // ---------------------------------------------------------------- all three votes

  /** After `n` votes and clears of the only healthy provider, which votes at every attempt. */
  ghost predicate Round(c: Context, log: seq<Event>, url: string, raw: Raw, signature: nat, n: nat) {
    && |log| == 2 * n && Underway(c, log)
    && (forall i :: 0 <= i < |c.world| ==> c.world[i] == Bring(raw, url))
    && Has(c.providers, url) && IsVoteOn(c.tables, raw, signature)
    && Left(c, log, {url}) && TriedSinceClear(log) == {}
    && VoteCount(log, signature) == n && Voters(log, signature) <= {url}
  }

  lemma NextRound(c: Context, log: seq<Event>, url: string, raw: Raw, signature: nat, n: nat)
    returns (more: seq<Event>)
    requires n < 2 && Round(c, log, url, raw, signature, n) && |c.world| == MAX_RETRIES
    ensures Round(c, more, url, raw, signature, n + 1)
  {
    var half := Vote(c, log, {url}, url, raw, signature);
    assert {url} - {url} == {};
    var left;
    more, left := StartOver(c, half, url, signature);
    assert left == {url};
  }

  /** With one healthy provider the tried ones can be cleared twice, and the same provider casts all three votes
      for the error that is returned. */
  lemma OneProviderVotesThrice(t: Tables, maxFailures: nat, ps: seq<ProviderInfo>, url: string, raw: Raw)
    returns (c: Context, log: seq<Event>)
    requires HealthyUrls(ps) == {url} && Classify(t, raw).ProviderError?
    ensures CanMake(t, maxFailures, ps, c, log) && Answers(log, Ok(Classify(t, raw).response))
    ensures VoteCount(log, Classify(t, raw).signature) == MAX_MULTIPLE_SAME_ERROR
    ensures Voters(log, Classify(t, raw).signature) == {url}
  {
    var s := Classify(t, raw).signature;
    c := Calling(t, maxFailures, ps, seq(MAX_RETRIES, i => Bring(raw, url)));
    Unstarted(c);
    LeftIs(c, [], {url});
    assert Has(ps, url) by {
      assert url in HealthyUrls(ps);
    }
    var once := NextRound(c, [], url, raw, s, 0);
    var twice := NextRound(c, once, url, raw, s, 1);
    log := LastVote(c, twice, {url}, url, raw, s);
  }

  /** No text matches a pattern, and every error has the same signature. */
  function Plain(): Tables {
    Tables(text => text, text => false, text => false, stream => 0)
  }

  const ERROR_RESPONSE := JObject([Field("error", JNull)])

  /** Such a reply exists: an error without a code or a message. */
  lemma RefusalIsVote()
    ensures Classify(Plain(), Body(200, "", Some(ERROR_RESPONSE))) == ProviderError(0, ERROR_RESPONSE)
  {
    assert ERROR_RESPONSE.fields[1..] == [];
  }
}
