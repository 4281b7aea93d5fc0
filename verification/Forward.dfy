/** `forward_request`: at most five attempts over the providers, with a vote on the errors they return. */
module Forward {
  import opened Common
  import opened Json
  import opened Providers
  import opened Replies
  import M = Metrics

  datatype Failure = LastNetworkError | NoProviders | TooManyRequests

  /** What one attempt did: send to a provider, or find none left, check their health and start over. */
  datatype Event =
    | Sent(url: string, reply: Reply, responseTime: nat, now: nat)
    | Cleared(reports: seq<Report>)

  datatype Vote = Vote(response: Value, count: nat)

  const MAX_RETRIES := 5
  const MAX_MULTIPLE_SAME_ERROR := 3

  // ---------------------------------------------------------------- what a log says

  predicate Votes(e: Event, signature: nat) {
    e.Sent? && e.reply.ProviderError? && e.reply.signature == signature
  }

  function VoteCount(log: seq<Event>, signature: nat): nat {
    if log == [] then 0
    else VoteCount(log[..|log| - 1], signature) + (if Votes(log[|log| - 1], signature) then 1 else 0)
  }

  /** The response that opened the vote of a signature. */
  function FirstResponse(log: seq<Event>, signature: nat): Option<Value> {
    if log == [] then None
    else
      var before := FirstResponse(log[..|log| - 1], signature);
      if before.None? && Votes(log[|log| - 1], signature) then Some(log[|log| - 1].reply.response) else before
  }

  function TriedSinceClear(log: seq<Event>): set<string> {
    if log == [] then {}
    else match log[|log| - 1]
      case Cleared(_) => {}
      case Sent(url, _, _, _) => TriedSinceClear(log[..|log| - 1]) + {url}
  }

  /** No provider is sent to twice without a clear in between. */
  ghost predicate NoRepeat(log: seq<Event>) {
    forall i: nat, j: nat :: SameProvider(log, i, j) ==> ClearedBetween(log, i, j)
  }

  predicate SameProvider(log: seq<Event>, i: nat, j: nat) {
    i < j < |log| && log[i].Sent? && log[j].Sent? && log[i].url == log[j].url
  }

  predicate ClearedBetween(log: seq<Event>, i: nat, j: nat)
    requires j <= |log|
  {
    exists k :: i < k < j && log[k].Cleared?
  }

  /** The metrics after the sends of the log, each recorded once, under the request's method. */
  ghost function Requested(counters: M.Counters, name: string, log: seq<Event>): M.Counters {
    if log == [] then counters
    else OneRequested(Requested(counters, name, log[..|log| - 1]), name, log[|log| - 1])
  }

  ghost function OneRequested(counters: M.Counters, name: string, e: Event): M.Counters {
    match e
    case Cleared(_) => counters
    case Sent(url, reply, rt, now) =>
      M.ApplyAll(counters, M.Updates(M.Request(name, url, rt, reply.Success?, now, now)))
  }

  /** The reports the provider manager gets; an error returned for its third vote makes none. */
  function ReportsOf(e: Event, third: bool): seq<Report> {
    match e
    case Cleared(reports) => reports
    case Sent(url, reply, rt, now) =>
      if reply.Success? || reply.UserError? then [Succeeded(url, rt, now)]
      else if third then []
      else [Failed(url)]
  }

  predicate IsThird(log: seq<Event>, e: Event) {
    e.Sent? && e.reply.ProviderError? && VoteCount(log, e.reply.signature) >= MAX_MULTIPLE_SAME_ERROR
  }

  function Reports(log: seq<Event>): seq<Report> {
    if log == [] then []
    else Reports(log[..|log| - 1]) + ReportsOf(log[|log| - 1], IsThird(log, log[|log| - 1]))
  }

  predicate Final(e: Event) {
    e.Sent? && (e.reply.Success? || e.reply.UserError?)
  }

  predicate IsNetworkError(e: Event) {
    e.Sent? && (e.reply.BadJson? || e.reply.NetworkFailure?)
  }

  ghost predicate AllOpen(log: seq<Event>) {
    && (forall i :: 0 <= i < |log| ==> !Final(log[i]))
    && (forall s :: VoteCount(log, s) < MAX_MULTIPLE_SAME_ERROR)
  }

  /** The most voted response after all attempts. */
  ghost predicate MostCommon(log: seq<Event>, response: Value) {
    exists s :: FirstResponse(log, s) == Some(response) && forall r :: VoteCount(log, r) <= VoteCount(log, s)
  }

  /** What the caller gets, given all that happened. */
  ghost predicate Answers(log: seq<Event>, r: Result<Value, Failure>) {
    if AllOpen(log) then
      if forall s :: VoteCount(log, s) == 0
      then r == Err(if exists i :: 0 <= i < |log| && IsNetworkError(log[i]) then LastNetworkError
                    else if |log| < MAX_RETRIES then NoProviders else TooManyRequests)
      else r.Ok? && MostCommon(log, r.value)
    else
      && log != [] && AllOpen(log[..|log| - 1])
      && var last := log[|log| - 1];
      && last.Sent?
      && (Final(last) || (last.reply.ProviderError? && VoteCount(log, last.reply.signature) == MAX_MULTIPLE_SAME_ERROR))
      && r == Ok(last.reply.response)
  }

  // ---------------------------------------------------------------- one more event

  /** The local variables of the loop are what the log says they are. */
  ghost predicate Tracks(log: seq<Event>, tried: set<string>, votes: map<nat, Vote>, networkError: bool) {
    && tried == TriedSinceClear(log)
    && (forall s :: s in votes <==> VoteCount(log, s) > 0)
    && (forall s :: s in votes ==>
          votes[s].count == VoteCount(log, s) && FirstResponse(log, s) == Some(votes[s].response))
    && (networkError <==> exists i :: 0 <= i < |log| && IsNetworkError(log[i]))
  }

  lemma Snoc(log: seq<Event>, e: Event)
    ensures (log + [e])[..|log + [e]| - 1] == log && (log + [e])[|log + [e]| - 1] == e
  {
  }

  lemma {:induction false} NotTriedMeans(log: seq<Event>, url: string, i: nat)
    requires url !in TriedSinceClear(log) && i < |log| && log[i].Sent? && log[i].url == url
    ensures ClearedBetween(log, i, |log|)
    decreases |log|
  {
    var n := |log| - 1;
    if !log[n].Cleared? {
      assert i < n;
      NotTriedMeans(log[..n], url, i);
      ClearedIn(log, n, i, n);
    }
  }

  lemma ClearedIn(log: seq<Event>, n: nat, i: nat, j: nat)
    requires j <= n <= |log| && ClearedBetween(log[..n], i, j)
    ensures ClearedBetween(log, i, j) && forall m :: j <= m <= |log| ==> ClearedBetween(log, i, m)
  {
    var k :| i < k < j && log[..n][k].Cleared?;
    assert log[k].Cleared?;
  }

  lemma NoRepeatLast(log: seq<Event>)
    requires log != [] && NoRepeat(log[..|log| - 1])
    requires log[|log| - 1].Sent? ==> log[|log| - 1].url !in TriedSinceClear(log[..|log| - 1])
    ensures NoRepeat(log)
  {
    var n := |log| - 1;
    forall i: nat, j: nat | SameProvider(log, i, j) ensures ClearedBetween(log, i, j) {
      if j < n {
        assert SameProvider(log[..n], i, j);
      } else {
        NotTriedMeans(log[..n], log[n].url, i);
      }
      ClearedIn(log, n, i, j);
    }
  }

  /** The providers that returned the error. */
  function Voters(log: seq<Event>, signature: nat): set<string> {
    if log == [] then {}
    else Voters(log[..|log| - 1], signature) +
         (if Votes(log[|log| - 1], signature) then {log[|log| - 1].url} else {})
  }

  lemma {:induction false} VoterMeans(log: seq<Event>, signature: nat, url: string)
    ensures url in Voters(log, signature) <==>
            exists i :: 0 <= i < |log| && Votes(log[i], signature) && log[i].url == url
    decreases |log|
  {
    if log != [] {
      var n := |log| - 1;
      VoterMeans(log[..n], signature, url);
      if i :| 0 <= i < n && Votes(log[i], signature) && log[i].url == url {
        assert log[..n][i] == log[i];
      }
      if i :| 0 <= i < n && Votes(log[..n][i], signature) && log[..n][i].url == url {
        assert log[i] == log[..n][i];
      }
    }
  }

  /** No provider votes for the error twice. */
  ghost predicate VotesOnce(log: seq<Event>, signature: nat) {
    forall i: nat, j: nat :: SameProvider(log, i, j) && Votes(log[i], signature) ==> !Votes(log[j], signature)
  }

  lemma VotesOnceSnoc(log: seq<Event>, signature: nat)
    requires log != []
    ensures var n := |log| - 1;
            VotesOnce(log, signature) <==>
            && VotesOnce(log[..n], signature)
            && (Votes(log[n], signature) ==> log[n].url !in Voters(log[..n], signature))
  {
    var n := |log| - 1;
    var before := log[..n];
    VoterMeans(before, signature, if log[n].Sent? then log[n].url else "");
    if VotesOnce(log, signature) {
      forall i: nat, j: nat | SameProvider(before, i, j) && Votes(before[i], signature)
        ensures !Votes(before[j], signature) {
        assert SameProvider(log, i, j);
      }
      if Votes(log[n], signature) && log[n].url in Voters(before, signature) {
        var i: nat :| i < n && Votes(before[i], signature) && before[i].url == log[n].url;
        assert SameProvider(log, i, n);
      }
    } else {
      var i: nat, j: nat :| SameProvider(log, i, j) && Votes(log[i], signature) && Votes(log[j], signature);
      if j < n {
        assert SameProvider(before, i, j);
      } else {
        assert Votes(before[i], signature);
      }
    }
  }

  /** There are as many voters as votes exactly when no provider votes twice. */
  lemma {:induction false} VotersDistinctExactly(log: seq<Event>, signature: nat)
    ensures |Voters(log, signature)| <= VoteCount(log, signature)
    ensures |Voters(log, signature)| == VoteCount(log, signature) <==> VotesOnce(log, signature)
    decreases |log|
  {
    if log != [] {
      VotersDistinctExactly(log[..|log| - 1], signature);
      VotesOnceSnoc(log, signature);
    }
  }

  /** Where providers repeat only after a clear, so each vote is another provider's unless the tried ones were
      cleared between two votes. */
  lemma VotersDistinct(log: seq<Event>, signature: nat)
    requires NoRepeat(log)
    requires forall i: nat, j: nat :: i < j < |log| && Votes(log[i], signature) && Votes(log[j], signature) ==>
               !ClearedBetween(log, i, j)
    ensures |Voters(log, signature)| == VoteCount(log, signature)
  {
    VotersDistinctExactly(log, signature);
  }

  lemma TracksSent(log: seq<Event>, tried: set<string>, votes: map<nat, Vote>, networkError: bool, e: Event)
    requires Tracks(log, tried, votes, networkError) && e.Sent? && !e.reply.ProviderError?
    ensures Tracks(log + [e], tried + {e.url}, votes, networkError || IsNetworkError(e))
  {
    Snoc(log, e);
    NetworkErrorSnoc(log, e);
  }

  lemma TracksClear(log: seq<Event>, tried: set<string>, votes: map<nat, Vote>, networkError: bool, e: Event)
    requires Tracks(log, tried, votes, networkError) && e.Cleared?
    ensures Tracks(log + [e], {}, votes, networkError)
  {
    Snoc(log, e);
    NetworkErrorSnoc(log, e);
  }

  function Counted(votes: map<nat, Vote>, signature: nat, response: Value): map<nat, Vote> {
    if signature in votes then votes[signature := votes[signature].(count := votes[signature].count + 1)]
    else votes[signature := Vote(response, 1)]
  }

  lemma TracksVote(log: seq<Event>, tried: set<string>, votes: map<nat, Vote>, networkError: bool, e: Event)
    requires Tracks(log, tried, votes, networkError) && e.Sent? && e.reply.ProviderError?
    ensures Tracks(log + [e], tried + {e.url}, Counted(votes, e.reply.signature, e.reply.response), networkError)
  {
    Snoc(log, e);
    NetworkErrorSnoc(log, e);
    FirstExactlyWhenCounted(log, e.reply.signature);
  }

  lemma {:induction false} FirstExactlyWhenCounted(log: seq<Event>, s: nat)
    ensures FirstResponse(log, s).Some? <==> VoteCount(log, s) > 0
    decreases |log|
  {
    if log != [] {
      FirstExactlyWhenCounted(log[..|log| - 1], s);
    }
  }

  lemma NetworkErrorSnoc(log: seq<Event>, e: Event)
    ensures (exists i :: 0 <= i < |log + [e]| && IsNetworkError((log + [e])[i])) <==>
            (exists i :: 0 <= i < |log| && IsNetworkError(log[i])) || IsNetworkError(e)
  {
    var l := log + [e];
    if i :| 0 <= i < |log| && IsNetworkError(log[i]) {
      assert l[i] == log[i];
    }
    if IsNetworkError(e) {
      assert l[|log|] == e;
    }
  }

  lemma OpenSnoc(log: seq<Event>, e: Event)
    requires AllOpen(log)
    ensures AllOpen(log + [e]) <==>
            !Final(e) && !IsThird(log + [e], e)
  {
    var l := log + [e];
    Snoc(log, e);
    if !Final(e) {
      forall i | 0 <= i < |l| ensures !Final(l[i]) {
      }
    } else {
      assert Final(l[|log|]);
    }
    forall s ensures VoteCount(l, s) == VoteCount(log, s) + (if Votes(e, s) then 1 else 0) {
    }
  }

  // ---------------------------------------------------------------- the loop

  /** What the outside world does during one attempt. */
  datatype Attempt = Attempt(raw: Raw, responseTime: nat, now: nat, probe: map<string, nat>)

  lemma OneReport(ps: seq<ProviderInfo>, r: Report, maxFailures: nat)
    ensures MarkAll(ps, [r], maxFailures) == Mark(ps, r, maxFailures)
  {
    assert [r][..0] == [];
  }

  /** What holds at each loop head. */
  ghost predicate Going(log: seq<Event>, tried: set<string>, votes: map<nat, Vote>, networkError: bool) {
    AllOpen(log) && Tracks(log, tried, votes, networkError)
  }

  function VotesAfter(votes: map<nat, Vote>, reply: Reply): map<nat, Vote> {
    if reply.ProviderError? then Counted(votes, reply.signature, reply.response) else votes
  }

  lemma GoingOn(log: seq<Event>, tried: set<string>, votes: map<nat, Vote>, networkError: bool, e: Event)
    requires Going(log, tried, votes, networkError) && e.Sent? && e.url !in tried
    ensures Tracks(log + [e], tried + {e.url}, VotesAfter(votes, e.reply), networkError || IsNetworkError(e))
    ensures AllOpen(log + [e]) <==> !Final(e) && !IsThird(log + [e], e)
    ensures IsThird(log + [e], e) ==> VoteCount(log + [e], e.reply.signature) == MAX_MULTIPLE_SAME_ERROR
  {
    OpenSnoc(log, e);
    Snoc(log, e);
    if e.reply.ProviderError? {
      TracksVote(log, tried, votes, networkError, e);
    } else {
      TracksSent(log, tried, votes, networkError, e);
    }
  }

  lemma GoingOver(log: seq<Event>, tried: set<string>, votes: map<nat, Vote>, networkError: bool, e: Event)
    requires Going(log, tried, votes, networkError) && e.Cleared?
    ensures Going(log + [e], {}, votes, networkError)
  {
    OpenSnoc(log, e);
    TracksClear(log, tried, votes, networkError, e);
  }

  lemma Answered(log: seq<Event>, e: Event)
    requires AllOpen(log) && e.Sent?
    requires Final(e) || (IsThird(log + [e], e) && VoteCount(log + [e], e.reply.signature) == MAX_MULTIPLE_SAME_ERROR)
    ensures !AllOpen(log + [e]) && Answers(log + [e], Ok(e.reply.response))
  {
    OpenSnoc(log, e);
    Snoc(log, e);
  }

  /** One call: how replies are told apart, the request's method, what each attempt brings, and what the
      metrics and the providers were at the beginning. */
  datatype Context = Context(
    tables: Tables,
    name: string,
    world: seq<Attempt>,
    maxFailures: nat,
    counters: M.Counters,
    providers: seq<ProviderInfo>)

  /** The providers after the log. */
  function ProvidersAfter(c: Context, log: seq<Event>): seq<ProviderInfo> {
    MarkAll(c.providers, Reports(log), c.maxFailures)
  }

  /** The metrics and the provider manager have been told what the log says. */
  ghost predicate Told(c: Context, log: seq<Event>, counters: M.Counters, providers: seq<ProviderInfo>) {
    counters == Requested(c.counters, c.name, log) && providers == ProvidersAfter(c, log)
  }

  ghost predicate CanSend(providers: seq<ProviderInfo>, tried: set<string>, url: string) {
    exists p :: p in providers && p.url == url && IsAvailable(p, tried)
  }

  /** What an event may be: a send goes to a provider that is healthy and untried at that time, and gets the
      reply that the attempt brings; a clear happens only when there is none, after checking their health. */
  ghost predicate Follows(t: Tables, e: Event, attempt: Attempt, providers: seq<ProviderInfo>, tried: set<string>) {
    match e
    case Cleared(reports) =>
      Available(providers, tried) == [] && reports == CheckReports(providers, attempt.probe, attempt.now)
    case Sent(url, reply, rt, now) =>
      && CanSend(providers, tried, url)
      && reply == Classify(t, attempt.raw) && rt == attempt.responseTime && now == attempt.now
  }

  /** Every event of the log follows from the attempt with its number. */
  ghost predicate Justified(c: Context, log: seq<Event>) {
    log == [] ||
    (&& |log| <= |c.world|
     && var before := log[..|log| - 1];
     && Justified(c, before)
     && Follows(c.tables, log[|log| - 1], c.world[|log| - 1], ProvidersAfter(c, before), TriedSinceClear(before)))
  }

  /** What a call can have done at any time: it goes on while there is no answer, and never clears last. */
  ghost predicate Made(c: Context, log: seq<Event>) {
    && Justified(c, log) && |log| <= MAX_RETRIES
    && (log != [] ==> AllOpen(log[..|log| - 1]))
    && (|log| == MAX_RETRIES ==> log[|log| - 1].Sent?)
  }

  /** So no provider is sent to twice without a clear in between. */
  lemma {:induction false} NoProviderTwice(c: Context, log: seq<Event>)
    requires Justified(c, log)
    ensures NoRepeat(log)
    decreases |log|
  {
    if log != [] {
      UntriedLast(c, log);
      NoProviderTwice(c, log[..|log| - 1]);
      NoRepeatLast(log);
    }
  }

  lemma UntriedLast(c: Context, log: seq<Event>)
    requires Justified(c, log) && log != []
    ensures Justified(c, log[..|log| - 1])
    ensures log[|log| - 1].Sent? ==> log[|log| - 1].url !in TriedSinceClear(log[..|log| - 1])
  {
  }

  lemma {:induction false} RepliesAreClassified(c: Context, log: seq<Event>, i: nat)
    requires Justified(c, log) && i < |log| && log[i].Sent?
    ensures i < |c.world| && log[i].reply == Classify(c.tables, c.world[i].raw)
    decreases |log|
  {
    if i < |log| - 1 {
      RepliesAreClassified(c, log[..|log| - 1], i);
    }
  }

  /** The provider asked last returned the response as a success. */
  predicate EndsInSuccess(log: seq<Event>, response: Value) {
    log != [] && log[|log| - 1].Sent? && log[|log| - 1].reply == Success(response)
  }

  /** What is returned has no error member exactly when the last provider asked returned it as a success. */
  lemma OnlySuccessesLackErrors(c: Context, log: seq<Event>, v: Value)
    requires Justified(c, log) && Answers(log, Ok(v))
    ensures Get(v, "error").None? <==> EndsInSuccess(log, v)
  {
    if AllOpen(log) {
      var s :| FirstResponse(log, s) == Some(v) && forall r :: VoteCount(log, r) <= VoteCount(log, s);
      var i := FirstIsVote(log, s);
      RepliesAreClassified(c, log, i);
      ClassifiedByError(c.tables, c.world[i].raw);
      assert log != [] ==> !Final(log[|log| - 1]);
    } else {
      RepliesAreClassified(c, log, |log| - 1);
      ClassifiedByError(c.tables, c.world[|log| - 1].raw);
    }
  }

  lemma {:induction false} FirstIsVote(log: seq<Event>, s: nat) returns (i: nat)
    requires FirstResponse(log, s).Some?
    ensures i < |log| && Votes(log[i], s) && FirstResponse(log, s) == Some(log[i].reply.response)
    ensures NoVoteBefore(log, s, i)
    decreases |log|
  {
    var n := |log| - 1;
    if FirstResponse(log[..n], s).Some? {
      i := FirstIsVote(log[..n], s);
      assert forall j :: 0 <= j < i ==> log[..n][j] == log[j];
    } else {
      i := n;
      FirstExactlyWhenCounted(log[..n], s);
      forall j | 0 <= j < n ensures !Votes(log[j], s) {
        if Votes(log[..n][j], s) {
          VoteIsCounted(log[..n], s, j);
        }
      }
    }
  }

  ghost predicate NoVoteBefore(log: seq<Event>, s: nat, k: nat)
    requires k <= |log|
  {
    forall j :: 0 <= j < k ==> !Votes(log[j], s)
  }

  // ---------------------------------------------------------------- what each reply leads to

  lemma {:induction false} JustifiedPrefix(c: Context, log: seq<Event>, prefix: seq<Event>)
    requires Justified(c, log) && prefix <= log
    ensures Justified(c, prefix)
    decreases |log|
  {
    if |prefix| < |log| {
      JustifiedPrefix(c, log[..|log| - 1], prefix);
    } else {
      assert prefix == log;
    }
  }

  /** A final reply ends the call, and is its answer. */
  lemma FinalEnds(c: Context, log: seq<Event>, r: Result<Value, Failure>, k: nat)
    requires Made(c, log) && Answers(log, r) && k < |log| && Final(log[k])
    ensures k == |log| - 1 && r == Ok(log[k].reply.response)
  {
    var before := log[..|log| - 1];
    assert forall i :: 0 <= i < |before| ==> before[i] == log[i];
    assert !AllOpen(log);
  }

  /** A result, or an error of the caller's, ends the call and is its answer. */
  lemma AnswerEnds(c: Context, log: seq<Event>, r: Result<Value, Failure>, k: nat, v: Value)
    requires Made(c, log) && Answers(log, r) && k < |log| && log[k].Sent? && k < |c.world|
    requires CanonicalCodes(c.world[k].raw)
    requires IsResult(c.tables, c.world[k].raw, v) || IsCallersError(c.tables, c.world[k].raw, v)
    ensures k == |log| - 1 && r == Ok(v)
  {
    RepliesAreClassified(c, log, k);
    ResultExactly(c.tables, c.world[k].raw, v);
    CallersErrorExactly(c.tables, c.world[k].raw, v);
    FinalEnds(c, log, r, k);
  }

  lemma VotesNext(log: seq<Event>, k: nat, s: nat)
    requires k < |log|
    ensures log[..k + 1][..k] == log[..k] && log[..k + 1][k] == log[k]
    ensures VoteCount(log[..k + 1], s) == VoteCount(log[..k], s) + (if Votes(log[k], s) then 1 else 0)
  {
    assert log[..k + 1][..k] == log[..k];
  }

  /** An error of the provider's is a vote for its signature, nothing else is; an unreadable reply, or none, is a
      network error, nothing else is. */
  lemma ReplyCounts(c: Context, log: seq<Event>, k: nat, s: nat)
    requires Justified(c, log) && k < |log| && log[k].Sent? && k < |c.world| && CanonicalCodes(c.world[k].raw)
    ensures VoteCount(log[..k + 1], s) ==
            VoteCount(log[..k], s) + (if IsProvidersError(c.tables, c.world[k].raw, s) then 1 else 0)
    ensures IsNetworkError(log[k]) <==> IsUnreadable(c.tables, c.world[k].raw)
  {
    RepliesAreClassified(c, log, k);
    VotesNext(log, k, s);
    ProvidersErrorExactly(c.tables, c.world[k].raw, s);
    UnreadableExactly(c.tables, c.world[k].raw);
  }

  lemma ProvidersNext(c: Context, log: seq<Event>, k: nat)
    requires k < |log|
    ensures ProvidersAfter(c, log[..k + 1]) ==
            MarkAll(ProvidersAfter(c, log[..k]), ReportsOf(log[k], IsThird(log[..k + 1], log[k])), c.maxFailures)
  {
    VotesNext(log, k, 0);
    MarkAllConcat(c.providers, Reports(log[..k]), ReportsOf(log[k], IsThird(log[..k + 1], log[k])), c.maxFailures);
  }

  /** The provider sent to, before the send. */
  function Recipient(c: Context, log: seq<Event>, k: nat): nat
    requires k < |log| && log[k].Sent?
  {
    Find(ProvidersAfter(c, log[..k]), log[k].url)
  }

  lemma RecipientKnown(c: Context, log: seq<Event>, k: nat)
    requires Justified(c, log) && k < |log| && log[k].Sent?
    ensures Recipient(c, log, k) < |ProvidersAfter(c, log[..k])|
  {
    JustifiedPrefix(c, log, log[..k + 1]);
    VotesNext(log, k, 0);
  }

  /** After a result or an error of the caller's the provider is healthy, without failures, and has been checked
      and timed by this reply. */
  lemma AnswerMarks(c: Context, log: seq<Event>, k: nat, v: Value)
    requires Justified(c, log) && k < |log| && log[k].Sent? && k < |c.world| && CanonicalCodes(c.world[k].raw)
    requires IsResult(c.tables, c.world[k].raw, v) || IsCallersError(c.tables, c.world[k].raw, v)
    ensures var i, ps := Recipient(c, log, k), ProvidersAfter(c, log[..k]);
            && i < |ps|
            && var p := ProviderInfo(log[k].url, true, Some(c.world[k].now), Some(c.world[k].responseTime), 0);
            ProvidersAfter(c, log[..k + 1]) == ps[i := p]
  {
    RecipientKnown(c, log, k);
    RepliesAreClassified(c, log, k);
    ResultExactly(c.tables, c.world[k].raw, v);
    CallersErrorExactly(c.tables, c.world[k].raw, v);
    SentAsAttempted(c, log, k);
    ProvidersNext(c, log, k);
    OneReport(ProvidersAfter(c, log[..k]), Succeeded(log[k].url, log[k].responseTime, log[k].now), c.maxFailures);
  }

  lemma SentAsAttempted(c: Context, log: seq<Event>, k: nat)
    requires Justified(c, log) && k < |log| && log[k].Sent?
    ensures k < |c.world| && log[k].responseTime == c.world[k].responseTime && log[k].now == c.world[k].now
  {
    JustifiedPrefix(c, log, log[..k + 1]);
    VotesNext(log, k, 0);
  }

  lemma ErrorOfReply(c: Context, log: seq<Event>, k: nat, s: nat)
    requires Justified(c, log) && k < |log| && log[k].Sent? && k < |c.world| && CanonicalCodes(c.world[k].raw)
    ensures log[k].reply.ProviderError? && log[k].reply.signature == s <==>
            IsProvidersError(c.tables, c.world[k].raw, s)
  {
    RepliesAreClassified(c, log, k);
    ProvidersErrorExactly(c.tables, c.world[k].raw, s);
  }

  /** An error of the provider's that has three votes by now. */
  ghost predicate HasThree(c: Context, log: seq<Event>, k: nat, s: nat) {
    k < |log| && k < |c.world| && IsProvidersError(c.tables, c.world[k].raw, s) && VoteCount(log[..k + 1], s) >= 3
  }

  lemma ThirdHasThree(c: Context, log: seq<Event>, k: nat)
    requires Justified(c, log) && k < |log| && log[k].Sent? && k < |c.world| && CanonicalCodes(c.world[k].raw)
    requires IsThird(log[..k + 1], log[k])
    ensures exists s :: HasThree(c, log, k, s)
  {
    var s := log[k].reply.signature;
    ErrorOfReply(c, log, k, s);
    assert HasThree(c, log, k, s);
  }

  lemma ThreeIsThird(c: Context, log: seq<Event>, k: nat, s: nat)
    requires Justified(c, log) && k < |log| && log[k].Sent? && k < |c.world| && CanonicalCodes(c.world[k].raw)
    requires HasThree(c, log, k, s)
    ensures IsThird(log[..k + 1], log[k])
  {
    ErrorOfReply(c, log, k, s);
  }

  lemma NoAnswer(c: Context, log: seq<Event>, k: nat)
    requires Justified(c, log) && k < |log| && log[k].Sent? && k < |c.world| && CanonicalCodes(c.world[k].raw)
    requires forall v :: !IsResult(c.tables, c.world[k].raw, v) && !IsCallersError(c.tables, c.world[k].raw, v)
    ensures !Final(log[k])
  {
    RepliesAreClassified(c, log, k);
    if log[k].reply.Success? {
      ResultExactly(c.tables, c.world[k].raw, log[k].reply.response);
    } else if log[k].reply.UserError? {
      CallersErrorExactly(c.tables, c.world[k].raw, log[k].reply.response);
    }
  }

  lemma FailureMarks(c: Context, log: seq<Event>, k: nat)
    requires Justified(c, log) && k < |log| && log[k].Sent? && !Final(log[k])
    ensures var i, ps := Recipient(c, log, k), ProvidersAfter(c, log[..k]);
            && i < |ps|
            && ProvidersAfter(c, log[..k + 1]) ==
               if IsThird(log[..k + 1], log[k]) then ps
               else
                 var n := ps[i].consecutiveFailures + 1;
                 ps[i := ps[i].(consecutiveFailures := n, isHealthy := ps[i].isHealthy && n < c.maxFailures)]
  {
    RecipientKnown(c, log, k);
    ProvidersNext(c, log, k);
    OneReport(ProvidersAfter(c, log[..k]), Failed(log[k].url), c.maxFailures);
  }

  /** After any other reply it has one more failure and is unhealthy from the limit on; only the third vote for
      an error leaves it as it was. */
  lemma OtherReplyMarks(c: Context, log: seq<Event>, k: nat)
    requires Justified(c, log) && k < |log| && log[k].Sent? && k < |c.world| && CanonicalCodes(c.world[k].raw)
    requires forall v :: !IsResult(c.tables, c.world[k].raw, v) && !IsCallersError(c.tables, c.world[k].raw, v)
    ensures var i, ps := Recipient(c, log, k), ProvidersAfter(c, log[..k]);
            && i < |ps|
            && ProvidersAfter(c, log[..k + 1]) ==
               if exists s :: HasThree(c, log, k, s) then ps
               else
                 var n := ps[i].consecutiveFailures + 1;
                 ps[i := ps[i].(consecutiveFailures := n, isHealthy := ps[i].isHealthy && n < c.maxFailures)]
  {
    NoAnswer(c, log, k);
    FailureMarks(c, log, k);
    if IsThird(log[..k + 1], log[k]) {
      ThirdHasThree(c, log, k);
    }
    if s :| HasThree(c, log, k, s) {
      ThreeIsThird(c, log, k, s);
    }
  }

  // ---------------------------------------------------------------- what the answer means

  ghost predicate Canonical(c: Context, log: seq<Event>) {
    forall k :: 0 <= k < |log| && k < |c.world| ==> CanonicalCodes(c.world[k].raw)
  }

  lemma {:induction false} VoteIsCounted(log: seq<Event>, s: nat, k: nat)
    requires k < |log| && Votes(log[k], s)
    ensures VoteCount(log, s) > 0
    decreases |log|
  {
    if k < |log| - 1 {
      VoteIsCounted(log[..|log| - 1], s, k);
    }
  }

  ghost predicate IsLost(c: Context, k: nat) {
    k < |c.world| && (IsRefusal(c.tables, c.world[k].raw) || IsUnreadable(c.tables, c.world[k].raw))
  }

  lemma Uncounted(c: Context, log: seq<Event>, k: nat)
    requires Justified(c, log) && AllOpen(log) && (forall s :: VoteCount(log, s) == 0) && Canonical(c, log)
    requires k < |log| && log[k].Sent?
    ensures IsLost(c, k) && (IsNetworkError(log[k]) <==> IsUnreadable(c.tables, c.world[k].raw))
  {
    RepliesAreClassified(c, log, k);
    if log[k].reply.ProviderError? {
      VoteIsCounted(log, log[k].reply.signature, k);
    }
    RefusalExactly(c.tables, c.world[k].raw);
    UnreadableExactly(c.tables, c.world[k].raw);
  }

  /** Some send met an unreadable reply, or none. */
  ghost predicate MeetsUnreadable(c: Context, log: seq<Event>) {
    exists k :: 0 <= k < |log| && k < |c.world| && log[k].Sent? && IsUnreadable(c.tables, c.world[k].raw)
  }

  /** A failure means that every send met a refusal or an unreadable reply: the network's error if there was an
      unreadable one, else too many requests if all five attempts sent something or cleared, else no provider. */
  lemma ErrMeans(c: Context, log: seq<Event>, e: Failure)
    requires Made(c, log) && Answers(log, Err(e)) && Canonical(c, log)
    ensures forall k :: 0 <= k < |log| && log[k].Sent? ==> IsLost(c, k)
    ensures e == if MeetsUnreadable(c, log) then LastNetworkError
                 else if |log| < 5 then NoProviders else TooManyRequests
  {
    forall k | 0 <= k < |log| && log[k].Sent?
      ensures IsLost(c, k) && (IsNetworkError(log[k]) <==> IsUnreadable(c.tables, c.world[k].raw)) {
      Uncounted(c, log, k);
    }
    if k :| 0 <= k < |log| && IsNetworkError(log[k]) {
      assert log[k].Sent? && IsUnreadable(c.tables, c.world[k].raw);
    }
  }

  /** The body that attempt `k` brought. */
  predicate Brought(c: Context, k: nat, v: Value) {
    k < |c.world| && c.world[k].raw.Body? && c.world[k].raw.json == Some(v)
  }

  /** No error has more votes. */
  ghost predicate IsMostVoted(log: seq<Event>, s: nat) {
    forall other :: VoteCount(log, other) <= VoteCount(log, s)
  }

  /** A response is a body that some attempt brought: the last one, if it is a result or an error of the caller's
      or the third of an error; else the first of an error that no other has more votes than. */
  lemma OkMeans(c: Context, log: seq<Event>, v: Value) returns (k: nat)
    requires Made(c, log) && Answers(log, Ok(v)) && Canonical(c, log)
    ensures k < |log| && log[k].Sent? && Brought(c, k, v)
    ensures || (k == |log| - 1 && IsResult(c.tables, c.world[k].raw, v))
            || (k == |log| - 1 && IsCallersError(c.tables, c.world[k].raw, v))
            || exists s :: && IsProvidersError(c.tables, c.world[k].raw, s) && IsMostVoted(log, s)
                           && (AllOpen(log) ==> NoVoteBefore(log, s, k))
                           && (!AllOpen(log) ==> VoteCount(log, s) == 3 && k == |log| - 1)
  {
    if AllOpen(log) {
      var s :| FirstResponse(log, s) == Some(v) && forall r :: VoteCount(log, r) <= VoteCount(log, s);
      k := FirstIsVote(log, s);
      RepliesAreClassified(c, log, k);
      ResponseIsBody(c.tables, c.world[k].raw);
      ProvidersErrorExactly(c.tables, c.world[k].raw, s);
      assert IsMostVoted(log, s);
    } else {
      k := |log| - 1;
      RepliesAreClassified(c, log, k);
      ResponseIsBody(c.tables, c.world[k].raw);
      ResultExactly(c.tables, c.world[k].raw, v);
      CallersErrorExactly(c.tables, c.world[k].raw, v);
      if log[k].reply.ProviderError? {
        ProvidersErrorExactly(c.tables, c.world[k].raw, log[k].reply.signature);
        ThirdIsMost(log);
      }
    }
  }

  lemma ThirdIsMost(log: seq<Event>)
    requires log != [] && AllOpen(log[..|log| - 1]) && log[|log| - 1].Sent? && log[|log| - 1].reply.ProviderError?
    requires VoteCount(log, log[|log| - 1].reply.signature) == MAX_MULTIPLE_SAME_ERROR
    ensures IsMostVoted(log, log[|log| - 1].reply.signature)
  {
  }

  // ---------------------------------------------------------------- what is counted

  function SendsTo(log: seq<Event>, url: string): nat {
    if log == [] then 0
    else SendsTo(log[..|log| - 1], url) + (if log[|log| - 1].Sent? && log[|log| - 1].url == url then 1 else 0)
  }

  function ResultsFrom(log: seq<Event>, url: string): nat {
    if log == [] then 0
    else ResultsFrom(log[..|log| - 1], url) + (if IsResultFrom(log[|log| - 1], url) then 1 else 0)
  }

  /** The response times of the provider together. */
  function TimeOf(log: seq<Event>, url: string): nat {
    if log == [] then 0
    else
      var e := log[|log| - 1];
      TimeOf(log[..|log| - 1], url) + (if e.Sent? && e.url == url then e.responseTime else 0)
  }

  function Sends(log: seq<Event>): nat {
    if log == [] then 0 else Sends(log[..|log| - 1]) + (if log[|log| - 1].Sent? then 1 else 0)
  }

  function Results(log: seq<Event>): nat {
    if log == [] then 0
    else Results(log[..|log| - 1]) + (if log[|log| - 1].Sent? && log[|log| - 1].reply.Success? then 1 else 0)
  }

  /** And for the request's method, as a forward, and as an error unless it brought a result; no other method is
      touched. */
  lemma {:induction false} SendsCountedByMethod(counters: M.Counters, name: string, log: seq<Event>, other: string)
    ensures var before, after := M.StatsOf(counters.methods, name),
                                 M.StatsOf(Requested(counters, name, log).methods, name);
            && after.misses == before.misses + Sends(log) && after.hits == before.hits
            && after.errors == before.errors + Sends(log) - Results(log)
    ensures other != name ==>
              M.StatsOf(Requested(counters, name, log).methods, other) == M.StatsOf(counters.methods, other)
    decreases |log|
  {
    if log != [] {
      var e := log[|log| - 1];
      SendsCountedByMethod(counters, name, log[..|log| - 1], other);
      if e.Sent? {
        M.RequestInOneGo(Requested(counters, name, log[..|log| - 1]),
                         name, e.url, e.responseTime, e.reply.Success?, e.now, e.now);
      }
    }
  }

  predicate IsResultFrom(e: Event, url: string) {
    e.Sent? && e.url == url && e.reply.Success?
  }

  /** Every send is counted for its provider, as a success if it brought a result, else as an error. */
  lemma {:induction false} SendsCounted(counters: M.Counters, name: string, log: seq<Event>, url: string)
    ensures var before, after := M.UsageOf(counters.providers, url),
                                 M.UsageOf(Requested(counters, name, log).providers, url);
            && after.requests == before.requests + SendsTo(log, url)
            && after.successes == before.successes + ResultsFrom(log, url)
            && after.errors == before.errors + SendsTo(log, url) - ResultsFrom(log, url)
            && after.time == before.time + TimeOf(log, url)
    decreases |log|
  {
    if log != [] {
      var e := log[|log| - 1];
      SendsCounted(counters, name, log[..|log| - 1], url);
      if e.Sent? {
        M.RequestInOneGo(Requested(counters, name, log[..|log| - 1]),
                         name, e.url, e.responseTime, e.reply.Success?, e.now, e.now);
      }
    }
  }

  /** The first attempt sends, if anyone is healthy. */
  lemma FirstIsSent(c: Context, log: seq<Event>)
    requires Justified(c, log) && log != []
    ensures log[0].Sent? <==> Available(c.providers, {}) != []
  {
    JustifiedPrefix(c, log, log[..1]);
    assert log[..1][..0] == [] && Reports([]) == [];
    if log[0].Sent? {
      var p :| p in c.providers && p.url == log[0].url && IsAvailable(p, {});
      assert p in Available(c.providers, {});
    }
  }

  /** The first attempt sends if anyone is healthy, and whatever attempt brings a result or an error of the
      caller's is the last, with that as the answer. */
  ghost predicate AnswersAtOnce(c: Context, log: seq<Event>, r: Result<Value, Failure>) {
    && log != [] && (log[0].Sent? <==> Available(c.providers, {}) != [])
    && forall k, v :: AnsweredWith(c, log, k, v) ==> k == |log| - 1 && r == Ok(v)
  }

  ghost predicate AnsweredWith(c: Context, log: seq<Event>, k: nat, v: Value) {
    && k < |log| && k < |c.world| && log[k].Sent? && CanonicalCodes(c.world[k].raw)
    && (IsResult(c.tables, c.world[k].raw, v) || IsCallersError(c.tables, c.world[k].raw, v))
  }

  lemma MadeAnswersAtOnce(c: Context, log: seq<Event>, r: Result<Value, Failure>)
    requires Made(c, log) && Answers(log, r) && log != []
    ensures AnswersAtOnce(c, log, r)
  {
    FirstIsSent(c, log);
    forall k, v | AnsweredWith(c, log, k, v) ensures k == |log| - 1 && r == Ok(v) {
      AnswerEnds(c, log, r, k, v);
    }
  }

  /** So with a healthy provider whose first reply is a result, one send is all there is. */
  lemma FirstResultIsAnswer(c: Context, log: seq<Event>, r: Result<Value, Failure>, v: Value)
    requires Made(c, log) && Answers(log, r) && log != [] && c.world != []
    requires Available(c.providers, {}) != [] && CanonicalCodes(c.world[0].raw) && IsResult(c.tables, c.world[0].raw, v)
    ensures |log| == 1 && log[0].Sent? && r == Ok(v)
  {
    MadeAnswersAtOnce(c, log, r);
    assert AnsweredWith(c, log, 0, v);
  }

  lemma JustifiedMore(c: Context, log: seq<Event>, e: Event)
    requires Justified(c, log) && |log| < |c.world|
    requires Follows(c.tables, e, c.world[|log|], ProvidersAfter(c, log), TriedSinceClear(log))
    ensures Justified(c, log + [e])
  {
    Snoc(log, e);
  }

  lemma MadeMore(c: Context, log: seq<Event>, e: Event)
    requires Justified(c, log) && AllOpen(log) && |log| < |c.world| && |log| < MAX_RETRIES
    requires e.Cleared? ==> |log| < MAX_RETRIES - 1
    requires Follows(c.tables, e, c.world[|log|], ProvidersAfter(c, log), TriedSinceClear(log))
    ensures Made(c, log + [e])
  {
    JustifiedMore(c, log, e);
    Snoc(log, e);
  }

  lemma TellMore(c: Context, log: seq<Event>, counters: M.Counters, providers: seq<ProviderInfo>, e: Event)
    requires Told(c, log, counters, providers)
    ensures Told(c, log + [e], OneRequested(counters, c.name, e),
                 MarkAll(providers, ReportsOf(e, IsThird(log + [e], e)), c.maxFailures))
  {
    Snoc(log, e);
    MarkAllConcat(c.providers, Reports(log), ReportsOf(e, IsThird(log + [e], e)), c.maxFailures);
  }

  lemma Start(c: Context)
    ensures Going([], {}, map[], false) && Made(c, []) && Told(c, [], c.counters, c.providers)
  {
  }

  class RequestForwarder {
    const tables: Tables
    const providers: ProviderManager
    const metrics: M.MetricsCollector

    constructor (tables: Tables, providers: ProviderManager, metrics: M.MetricsCollector)
      ensures this.tables == tables && this.providers == providers && this.metrics == metrics
    {
      this.tables, this.providers, this.metrics := tables, providers, metrics;
    }

    ghost function ContextOf(name: string, world: seq<Attempt>): Context
      reads providers, metrics
    {
      Context(tables, name, world, providers.maxFailures, metrics.World(), providers.providers)
    }

    /** The call described by `c` has come as far as the log says. */
    ghost predicate At(c: Context, log: seq<Event>)
      reads providers, metrics
    {
      && c.tables == tables && c.maxFailures == providers.maxFailures
      && Made(c, log) && Told(c, log, metrics.World(), providers.providers)
    }

    /** `name` is the request's method; `world` what each attempt brings. */
    method ForwardRequest(name: string, world: seq<Attempt>)
      returns (r: Result<Value, Failure>, ghost log: seq<Event>)
      requires |world| == MAX_RETRIES
      modifies metrics, providers`providers
      ensures |log| <= 5 && Answers(log, r) && AnswersAtOnce(old(ContextOf(name, world)), log, r)
      ensures AllOpen(log) ==> |log| >= 4
      ensures AllOpen(log) && |log| < MAX_RETRIES ==> Available(providers.providers, TriedSinceClear(log)) == []
      ensures At(old(ContextOf(name, world)), log)
    {
      ghost var c := ContextOf(name, world);
      var tried: set<string> := {};
      var votes: map<nat, Vote> := map[];
      var networkError := false;
      log := [];
      Start(c);
      for retry := 0 to MAX_RETRIES
        invariant |log| == retry && Going(log, tried, votes, networkError) && At(c, log)
      {
        var choice := Choose(tried);
        if choice.None? {
          if retry == MAX_RETRIES - 1 {
            r := Exhausted(votes, networkError, NoProviders, log, tried);
            MadeAnswersAtOnce(c, log, r);
            return;
          }
          log := CheckHealth(world[retry], tried, votes, networkError, c, log);
          tried := {};
        } else {
          var answer;
          answer, votes, networkError, log :=
            Send(choice.value, name, world[retry], tried, votes, networkError, c, log);
          if answer.Some? {
            r := Ok(answer.value);
            MadeAnswersAtOnce(c, log, r);
            return;
          }
          tried := tried + {choice.value};
        }
      }
      r := Exhausted(votes, networkError, TooManyRequests, log, tried);
      MadeAnswersAtOnce(c, log, r);
    }

    /** Sends to one provider and handles its reply: an answer for the caller, or one more vote or network error. */
    method Send(url: string, name: string, attempt: Attempt, tried: set<string>, votes: map<nat, Vote>,
                networkError: bool, ghost c: Context, ghost log: seq<Event>)
      returns (answer: Option<Value>, votes': map<nat, Vote>, networkError': bool, ghost log': seq<Event>)
      requires Going(log, tried, votes, networkError) && url !in tried && At(c, log) && name == c.name
      requires |log| < |c.world| && attempt == c.world[|log|] && CanSend(providers.providers, tried, url)
      requires |log| < MAX_RETRIES
      modifies metrics, providers`providers
      ensures |log'| == |log| + 1 && At(c, log')
      ensures answer.Some? ==> !AllOpen(log') && Answers(log', Ok(answer.value))
      ensures answer.None? ==> Going(log', tried + {url}, votes', networkError')
    {
      var reply := Classify(tables, attempt.raw);
      ghost var e := Sent(url, reply, attempt.responseTime, attempt.now);
      log' := log + [e];
      GoingOn(log, tried, votes, networkError, e);
      votes' := VotesAfter(votes, reply);
      networkError' := networkError || reply.BadJson? || reply.NetworkFailure?;
      var third := reply.ProviderError? && votes'[reply.signature].count >= MAX_MULTIPLE_SAME_ERROR;
      Tell(url, name, reply, attempt, third, c, log);
      if reply.Success? || reply.UserError? || third {
        Answered(log, e);
        answer := Some(reply.response);
      } else {
        answer := None;
      }
    }

    method CheckHealth(attempt: Attempt, ghost tried: set<string>, ghost votes: map<nat, Vote>,
                       ghost networkError: bool, ghost c: Context, ghost log: seq<Event>)
      returns (ghost log': seq<Event>)
      requires Going(log, tried, votes, networkError) && At(c, log)
      requires |log| < |c.world| && attempt == c.world[|log|] && Available(providers.providers, tried) == []
      requires |log| < MAX_RETRIES - 1
      modifies providers`providers
      ensures |log'| == |log| + 1 && Going(log', {}, votes, networkError) && At(c, log')
    {
      ghost var e := Cleared(CheckReports(providers.providers, attempt.probe, attempt.now));
      log' := log + [e];
      GoingOver(log, tried, votes, networkError, e);
      TellMore(c, log, metrics.World(), providers.providers, e);
      MadeMore(c, log, e);
      providers.HealthCheckAll(attempt.probe, attempt.now);
    }

    /** `record_request` and `mark_provider_success` or `mark_provider_failed`, as the reply demands. */
    method Tell(url: string, name: string, reply: Reply, attempt: Attempt, third: bool,
                ghost c: Context, ghost log: seq<Event>)
      requires reply == Classify(tables, attempt.raw) && At(c, log) && name == c.name
      requires var e := Sent(url, reply, attempt.responseTime, attempt.now); third == IsThird(log + [e], e)
      requires |log| < |c.world| && attempt == c.world[|log|] && |log| < MAX_RETRIES && AllOpen(log)
      requires CanSend(providers.providers, TriedSinceClear(log), url)
      modifies metrics, providers`providers
      ensures At(c, log + [Sent(url, reply, attempt.responseTime, attempt.now)])
    {
      ghost var e := Sent(url, reply, attempt.responseTime, attempt.now);
      TellMore(c, log, metrics.World(), providers.providers, e);
      MadeMore(c, log, e);
      metrics.RecordRequest(name, url, attempt.responseTime, reply.Success?, attempt.now, attempt.now);
      if reply.Success? || reply.UserError? {
        OneReport(providers.providers, Succeeded(url, attempt.responseTime, attempt.now), providers.maxFailures);
        providers.MarkProviderSuccess(url, attempt.responseTime, attempt.now);
      } else if !third {
        OneReport(providers.providers, Failed(url), providers.maxFailures);
        providers.MarkProviderFailed(url);
      }
    }

    /** A weighted choice with a random draw. */
    method Choose(tried: set<string>) returns (choice: Option<string>)
      ensures choice.None? <==> Available(providers.providers, tried) == []
      ensures choice.Some? ==> CanSend(providers.providers, tried, choice.value) && choice.value !in tried
    {
      var draw: nat := 0;
      if |Available(providers.providers, tried)| >= 2 {
        WeightBeforeMonotone(Available(providers.providers, tried), 0, |Available(providers.providers, tried)|);
        draw :| 0 <= draw < TotalWeight(Available(providers.providers, tried));
      }
      choice := providers.GetWeightedProviderExcluding(tried, draw);
    }
  }

  /** No attempt answered: the most common error if there is one, else the last network error or the given one. */
  method Exhausted(
    votes: map<nat, Vote>, networkError: bool, otherwise: Failure, ghost log: seq<Event>, ghost tried: set<string>)
    returns (r: Result<Value, Failure>)
    requires Going(log, tried, votes, networkError)
    requires otherwise == if |log| < MAX_RETRIES then NoProviders else TooManyRequests
    ensures Answers(log, r)
  {
    if votes.Keys == {} {
      return Err(if networkError then LastNetworkError else otherwise);
    }
    var best :| best in votes;
    var rest := votes.Keys - {best};
    while rest != {}
      invariant best in votes && rest <= votes.Keys
      invariant forall s :: s in votes && s !in rest ==> votes[s].count <= votes[best].count
    {
      var s :| s in rest;
      rest := rest - {s};
      if votes[s].count >= votes[best].count {
        best := s;
      }
    }
    assert forall s :: VoteCount(log, s) <= VoteCount(log, best) by {
      forall s ensures VoteCount(log, s) <= VoteCount(log, best) {
        assert s !in votes ==> VoteCount(log, s) == 0;
      }
    }
    return Ok(votes[best].response);
  }
}
