/** The WebSocket server's connection counts: how `active_connections` follows the clients of each
    transaction, and when the last one to leave shuts the transaction's RPC server down. Every locked
    section, worker answer and delivery is one step, so requests interleave freely. */
module Connections {
  import opened Runs
  import opened Common

  type Hash = nat
  type Client = nat

  /** How far a client's request has come. A client that failed or left has no status. */
  datatype Status =
    | Looked(hash: Hash)     // a server was found, the connection is not yet counted
    | Delegated(hash: Hash)  // no server was found, the worker is preparing one
    | Prepared(hash: Hash)   // the worker answered, the connection is not yet counted
    | Counted(hash: Hash)    // counted, the reply is on its way
    | Tracked(hash: Hash)    // the reply arrived, the connection is watched until it closes
    | Closing(hash: Hash)    // closed and found to be the last, the server is about to be shut down

  datatype State = State(counts: map<Hash, nat>, servers: set<Hash>, clients: map<Client, Status>)

  datatype Action =
    | Lookup(client: Client, hash: Hash)
    | WorkerDone(client: Client)
    | WorkerFailed(client: Client)
    | Increment(client: Client)
    | Insert(client: Client)
    | Deliver(client: Client)
    | DeliveryFails(client: Client)
    | Close(client: Client)
    | Shutdown(client: Client)

  const INITIAL := State(map[], {}, map[])

  // ---------------------------------------------------------------- the locked sections

  function Count(counts: map<Hash, nat>, h: Hash): nat {
    if h in counts then counts[h] else 0
  }

  function LookupSpec(s: State, c: Client, h: Hash): State {
    s.(clients := s.clients[c := if h in s.servers then Looked(h) else Delegated(h)])
  }

  function WorkerDoneSpec(s: State, c: Client, h: Hash): State {
    s.(servers := s.servers + {h}, clients := s.clients[c := Prepared(h)])
  }

  function LeaveSpec(s: State, c: Client): State {
    s.(clients := s.clients - {c})
  }

  function IncrementSpec(s: State, c: Client, h: Hash): State {
    s.(counts := s.counts[h := Count(s.counts, h) + 1], clients := s.clients[c := Counted(h)])
  }

  function InsertSpec(s: State, c: Client, h: Hash): State {
    s.(counts := s.counts[h := 1], clients := s.clients[c := Counted(h)])
  }

  predicate Last(s: State, h: Hash) {
    h in s.counts && s.counts[h] == 1
  }

  function CloseSpec(s: State, c: Client, h: Hash): State
    requires Positive(s)
  {
    if Last(s, h) then s.(counts := s.counts - {h}, clients := s.clients[c := Closing(h)])
    else if h in s.counts then LeaveSpec(s.(counts := s.counts[h := s.counts[h] - 1]), c)
    else LeaveSpec(s, c)
  }

  function ShutdownSpec(s: State, c: Client, h: Hash): State {
    LeaveSpec(s.(servers := s.servers - {h}), c)
  }

  /** No stored count is zero, so the decrement cannot underflow. */
  ghost predicate Positive(s: State) {
    forall h :: h in s.counts ==> s.counts[h] > 0
  }

  ghost predicate Step(s: State, a: Action, t: State) {
    if a.Lookup? then a.client !in s.clients && t == LookupSpec(s, a.client, a.hash)
    else
      && a.client in s.clients
      && var status := s.clients[a.client];
      match a
      case WorkerDone(c) => status.Delegated? && t == WorkerDoneSpec(s, c, status.hash)
      case WorkerFailed(c) => status.Delegated? && t == LeaveSpec(s, c)
      case Increment(c) => status.Looked? && t == IncrementSpec(s, c, status.hash)
      case Insert(c) => status.Prepared? && t == InsertSpec(s, c, status.hash)
      case Deliver(c) => status.Counted? && t == s.(clients := s.clients[c := Tracked(status.hash)])
      case DeliveryFails(c) => status.Counted? && t == LeaveSpec(s, c)
      case Close(c) => status.Tracked? && (Positive(s) ==> t == CloseSpec(s, c, status.hash))
      case Shutdown(c) => status.Closing? && t == ShutdownSpec(s, c, status.hash)
  }

  /** In every run whatsoever, stored counts are positive. */
  lemma CountsStayPositive(states: seq<State>, acts: seq<Action>, n: nat)
    requires Run(Step, states, acts) && Positive(states[0]) && n <= |acts|
    ensures Positive(states[n])
  {
    Invariant(Step, Positive, states, acts, n);
  }

  // ---------------------------------------------------------------- conservation

  predicate IsLive(status: Status) {
    status.Counted? || status.Tracked?
  }

  /** The clients that hold a counted connection for `h`. */
  function Live(s: State, h: Hash): set<Client> {
    set c | c in s.clients && IsLive(s.clients[c]) && s.clients[c].hash == h
  }

  ghost predicate Conserved(s: State) {
    Positive(s) && forall h :: Count(s.counts, h) == |Live(s, h)|
  }

  /** An `insert` that replaces a count already there. */
  ghost predicate Overwrites(s: State, a: Action) {
    a.Insert? && a.client in s.clients && s.clients[a.client].hash in s.counts
  }

  ghost predicate Miscounts(s: State, a: Action) {
    Overwrites(s, a) || a.DeliveryFails?
  }

  /** A step moves one client and leaves the clients of other transactions alone. */
  lemma StepOnLive(s: State, a: Action, t: State, h: Hash)
    requires Positive(s) && Step(s, a, t)
    ensures var here := a.client in s.clients && s.clients[a.client].hash == h;
            Live(t, h) == if here && (a.Increment? || a.Insert?) then Live(s, h) + {a.client}
                          else if here && (a.DeliveryFails? || a.Close?) then Live(s, h) - {a.client}
                          else Live(s, h)
    ensures a.client in s.clients && s.clients[a.client].hash == h ==>
              (a.client in Live(s, h) <==> IsLive(s.clients[a.client]))
  {
  }

  /** What the counts change by. */
  lemma StepOnCount(s: State, a: Action, t: State, h: Hash)
    requires Positive(s) && Step(s, a, t)
    ensures var here := a.client in s.clients && s.clients[a.client].hash == h;
            Count(t.counts, h) == if here && a.Increment? then Count(s.counts, h) + 1
                                  else if here && a.Insert? then 1
                                  else if here && a.Close? then Max(Count(s.counts, h) - 1, 0)
                                  else Count(s.counts, h)
  {
  }

  lemma StepOnBalance(s: State, a: Action, t: State, h: Hash)
    requires Positive(s) && Step(s, a, t) && Count(s.counts, h) == |Live(s, h)|
    ensures Count(t.counts, h) == |Live(t, h)| <==>
            !(Miscounts(s, a) && a.client in s.clients && s.clients[a.client].hash == h)
  {
    StepOnLive(s, a, t, h);
    StepOnCount(s, a, t, h);
    InsertStatus(s, a, t);
  }

  lemma InsertStatus(s: State, a: Action, t: State)
    requires Step(s, a, t)
    ensures !a.Lookup? ==> a.client in s.clients
    ensures a.Increment? || a.Insert? ==> !IsLive(s.clients[a.client])
    ensures a.DeliveryFails? || a.Close? ==> IsLive(s.clients[a.client])
  {
  }

  lemma StepOnConservation(s: State, a: Action, t: State)
    requires Conserved(s) && Step(s, a, t)
    ensures Conserved(t) <==> !Miscounts(s, a)
  {
    InsertStatus(s, a, t);
    forall h ensures Count(t.counts, h) == |Live(t, h)| <==>
                     !(Miscounts(s, a) && a.client in s.clients && s.clients[a.client].hash == h) {
      assert Count(s.counts, h) == |Live(s, h)|;
      StepOnBalance(s, a, t, h);
    }
    StepKeepsPositive(s, a, t);
    if Miscounts(s, a) {
      var h := s.clients[a.client].hash;
      assert Count(t.counts, h) != |Live(t, h)|;
    }
  }

  lemma StepKeepsPositive(s: State, a: Action, t: State)
    requires Positive(s) && Step(s, a, t)
    ensures Positive(t)
  {
  }

  /** The stored counts are the numbers of live connections throughout a run exactly when no first
      request ever overwrites a count and no successful reply is lost. */
  lemma ConservedExactly(states: seq<State>, acts: seq<Action>, n: nat)
    requires Run(Step, states, acts) && Conserved(states[0]) && n <= |acts|
    ensures (forall k :: 0 <= k <= n ==> Conserved(states[k])) <==>
            (forall k :: 0 <= k < n ==> !Miscounts(states[k], acts[k]))
  {
    forall s, a, t | Conserved(s) && Step(s, a, t) ensures Conserved(t) <==> !Miscounts(s, a) {
      StepOnConservation(s, a, t);
    }
    KeptExactly(Step, Conserved, Miscounts, states, acts, n);
  }

  /** While counts are right, a closing client goes on to shut the server down exactly when it is the
      only live one. */
  lemma LastToCloseShutsDown(s: State, a: Action, t: State)
    requires Conserved(s) && Step(s, a, t) && a.Close?
    ensures (a.client in t.clients && t.clients[a.client].Closing?) <==>
            Live(s, s.clients[a.client].hash) == {a.client}
  {
    var h := s.clients[a.client].hash;
    assert a.client in Live(s, h);
    assert Count(s.counts, h) == |Live(s, h)|;
    if |Live(s, h)| == 1 {
      SubsetOfEqualSize({a.client}, Live(s, h));
    }
  }

  // ---------------------------------------------------------------- when the server lives

  /** Between looking a server up and being counted, or between the close and the shutdown. */
  ghost predicate Quiet(s: State, h: Hash) {
    forall c :: c in s.clients && s.clients[c].hash == h ==> IsLive(s.clients[c])
  }

  /** Requests for one transaction overlap neither each other nor a close, and no reply is lost. */
  ghost predicate SerialStep(s: State, a: Action, t: State) {
    && Step(s, a, t)
    && (a.Lookup? ==> Quiet(s, a.hash))
    && (a.Close? ==> Quiet(s, s.clients[a.client].hash))
    && !a.DeliveryFails?
  }

  /** The client uses the server of `h`: it has found or got it and not yet given it up. */
  predicate Uses(s: State, c: Client, h: Hash) {
    c in s.clients && s.clients[c].hash == h && !s.clients[c].Delegated?
  }

  ghost predicate ServedExactly(s: State, h: Hash) {
    h in s.servers <==> exists c :: Uses(s, c, h)
  }

  ghost predicate SameHash(s: State, c: Client, d: Client) {
    c in s.clients && d in s.clients && s.clients[c].hash == s.clients[d].hash
  }

  /** A client waiting for the worker, about to insert, or about to shut down is alone with its
      transaction; one about to increment has only live ones beside it. */
  ghost predicate Separate(s: State) {
    forall c, d {:trigger SameHash(s, c, d)} :: SameHash(s, c, d) && c != d ==>
      && (IsLive(s.clients[c]) || s.clients[c].Looked?)
      && (IsLive(s.clients[c]) || IsLive(s.clients[d]))
  }

  ghost predicate Orderly(s: State) {
    Conserved(s) && Separate(s) && forall h :: ServedExactly(s, h)
  }

  lemma SerialKeepsSeparate(s: State, a: Action, t: State)
    requires Orderly(s) && SerialStep(s, a, t)
    ensures Separate(t)
  {
    if a.Close? {
      LastToCloseShutsDown(s, a, t);
      var h := s.clients[a.client].hash;
      assert forall d :: d in s.clients && s.clients[d].hash == h && IsLive(s.clients[d]) ==> d in Live(s, h);
    }
    forall c, d | SameHash(t, c, d) && c != d
      ensures IsLive(t.clients[c]) || t.clients[c].Looked?
      ensures IsLive(t.clients[c]) || IsLive(t.clients[d])
    {
      assert c in s.clients && d in s.clients ==> SameHash(s, c, d) && SameHash(s, d, c);
      if a.Lookup? && c == a.client {
        assert ServedExactly(s, a.hash) && Uses(s, d, a.hash);
      }
    }
  }

  /** Whoever else uses the server keeps using it. */
  lemma OthersStay(s: State, a: Action, t: State, c: Client, h: Hash)
    requires Step(s, a, t) && Positive(s) && c != a.client
    ensures Uses(s, c, h) <==> Uses(t, c, h)
  {
  }

  lemma SerialKeepsServed(s: State, a: Action, t: State, h: Hash)
    requires Orderly(s) && SerialStep(s, a, t)
    ensures ServedExactly(t, h)
  {
    assert ServedExactly(s, h);
    ServedByOthers(s, a, t, h);
    forall c | c != a.client ensures Uses(s, c, h) <==> Uses(t, c, h) {
      OthersStay(s, a, t, c, h);
    }
    if a.client in s.clients && s.clients[a.client].hash == h {
      if a.Close? {
        CloseLeavesUser(s, a, t);
      } else if !IsLive(s.clients[a.client]) && !s.clients[a.client].Looked? {
        NoOtherUser(s, a.client);
      }
    }
  }

  /** Beside a client that is not live, no other uses the server, unless it is about to increment. */
  lemma NoOtherUser(s: State, c: Client)
    requires Separate(s) && c in s.clients && !IsLive(s.clients[c]) && !s.clients[c].Looked?
    ensures forall d :: d != c ==> !Uses(s, d, s.clients[c].hash)
  {
    forall d | d != c ensures !Uses(s, d, s.clients[c].hash) {
      assert !SameHash(s, c, d);
    }
  }

  /** After a close either another live client uses the server, or the closing one until the shutdown. */
  lemma CloseLeavesUser(s: State, a: Action, t: State)
    requires Orderly(s) && Step(s, a, t) && a.Close?
    ensures exists c :: Uses(t, c, s.clients[a.client].hash)
  {
    var h := s.clients[a.client].hash;
    LastToCloseShutsDown(s, a, t);
    assert a.client in Live(s, h);
    if Live(s, h) == {a.client} {
      assert Uses(t, a.client, h);
    } else {
      var c :| c in Live(s, h) && c != a.client;
      OthersStay(s, a, t, c, h);
      assert Uses(t, c, h);
    }
  }

  /** How the server itself and the acting client's use of it change. */
  lemma ServedByOthers(s: State, a: Action, t: State, h: Hash)
    requires Step(s, a, t) && Positive(s)
    ensures var here := a.client in s.clients && s.clients[a.client].hash == h;
            && (h in t.servers <==> if here && a.WorkerDone? then true
                                    else if here && a.Shutdown? then false else h in s.servers)
            && (Uses(t, a.client, h) <==>
                  (if a.Lookup? then a.hash == h && h in s.servers
                   else here && !a.WorkerFailed? && !a.DeliveryFails? && !a.Shutdown? && (a.Close? ==> Last(s, h))))
    ensures a.client in s.clients ==>
              && (a.WorkerDone? || a.WorkerFailed? <==> s.clients[a.client].Delegated?)
              && (a.Shutdown? <==> s.clients[a.client].Closing?)
  {
  }

  // ---------------------------------------------------------------- stranded clients

  /** Every live connection has a running server. */
  ghost predicate LiveServed(s: State) {
    forall c :: c in s.clients && IsLive(s.clients[c]) ==> s.clients[c].hash in s.servers
  }

  ghost predicate PositiveAndServed(s: State) {
    Positive(s) && LiveServed(s)
  }

  /** A shutdown while another client of the transaction is live, or a count taken when its server is gone. */
  ghost predicate Strands(s: State, a: Action) {
    && a.client in s.clients
    && var h := s.clients[a.client].hash;
    || (a.Shutdown? && exists c :: c != a.client && c in s.clients && IsLive(s.clients[c]) && s.clients[c].hash == h)
    || ((a.Increment? || a.Insert?) && h !in s.servers)
  }

  lemma StepStrands(s: State, a: Action, t: State)
    requires PositiveAndServed(s) && Step(s, a, t)
    ensures PositiveAndServed(t) <==> !Strands(s, a)
  {
    StepKeepsPositive(s, a, t);
    if Strands(s, a) {
      StrandedClient(s, a, t);
    } else {
      forall c | c in t.clients && IsLive(t.clients[c]) ensures t.clients[c].hash in t.servers {
        UnstrandedClient(s, a, t, c);
      }
    }
  }

  lemma StrandedClient(s: State, a: Action, t: State)
    requires PositiveAndServed(s) && Step(s, a, t) && Strands(s, a)
    ensures !LiveServed(t)
  {
    var h := s.clients[a.client].hash;
    if a.Shutdown? {
      var c :| c != a.client && c in s.clients && IsLive(s.clients[c]) && s.clients[c].hash == h;
      assert t.clients[c] == s.clients[c] && h !in t.servers;
    } else {
      assert t.clients[a.client] == Counted(h) && h !in t.servers;
    }
  }

  lemma UnstrandedClient(s: State, a: Action, t: State, c: Client)
    requires PositiveAndServed(s) && Step(s, a, t) && !Strands(s, a) && c in t.clients && IsLive(t.clients[c])
    ensures t.clients[c].hash in t.servers
  {
    if c == a.client {
      assert c in s.clients && t.clients[c].hash == s.clients[c].hash;
    } else {
      assert c in s.clients && t.clients[c] == s.clients[c];
    }
  }

  /** In every run each live connection has a running server throughout, exactly when no server is shut down
      under another live client and no client is counted after its server is gone. */
  lemma ServedExactlyWhen(states: seq<State>, acts: seq<Action>, n: nat)
    requires Run(Step, states, acts) && Positive(states[0]) && LiveServed(states[0]) && n <= |acts|
    ensures (forall k :: 0 <= k <= n ==> LiveServed(states[k])) <==>
            (forall k :: 0 <= k < n ==> !Strands(states[k], acts[k]))
  {
    forall s, a, t | PositiveAndServed(s) && Step(s, a, t) ensures PositiveAndServed(t) <==> !Strands(s, a) {
      StepStrands(s, a, t);
    }
    KeptExactly(Step, PositiveAndServed, Strands, states, acts, n);
    forall k | 0 <= k <= n ensures Positive(states[k]) {
      CountsStayPositive(states, acts, k);
    }
  }

  /** Serial steps strand nobody. */
  lemma SerialStrandsNobody(s: State, a: Action, t: State)
    requires Orderly(s) && SerialStep(s, a, t)
    ensures !Strands(s, a)
  {
    if a.Shutdown? {
      NoOtherUser(s, a.client);
      assert forall c :: c in s.clients && IsLive(s.clients[c]) ==> Uses(s, c, s.clients[c].hash);
    } else if a.Increment? || a.Insert? {
      assert Uses(s, a.client, s.clients[a.client].hash);
      assert ServedExactly(s, s.clients[a.client].hash);
    }
  }

  /** In a serial run every stored count is the number of live connections, every live connection has a
      running server, and once a transaction has no client left its server is down and its count gone. */
  lemma SerialRuns(states: seq<State>, acts: seq<Action>, n: nat, h: Hash)
    requires Run(SerialStep, states, acts) && Orderly(states[0]) && n <= |acts|
    ensures Count(states[n].counts, h) == |Live(states[n], h)|
    ensures Live(states[n], h) != {} ==> h in states[n].servers
    ensures (forall c :: c in states[n].clients ==> states[n].clients[c].hash != h) ==>
              h !in states[n].servers && h !in states[n].counts
  {
    forall s, a, t | Orderly(s) && SerialStep(s, a, t) ensures Orderly(t) {
      InsertStatus(s, a, t);
      StepOnConservation(s, a, t);
      SerialNeverOverwrites(s, a, t);
      SerialKeepsSeparate(s, a, t);
      forall h ensures ServedExactly(t, h) {
        SerialKeepsServed(s, a, t, h);
      }
    }
    Invariant(SerialStep, Orderly, states, acts, n);
    var s := states[n];
    assert ServedExactly(s, h) && Count(s.counts, h) == |Live(s, h)|;
    if c :| c in Live(s, h) {
      assert Uses(s, c, h);
    }
  }

  lemma SerialNeverOverwrites(s: State, a: Action, t: State)
    requires Orderly(s) && SerialStep(s, a, t)
    ensures !Miscounts(s, a)
  {
    if a.Insert? {
      var h := s.clients[a.client].hash;
      forall c | c in Live(s, h) ensures false {
        assert SameHash(s, a.client, c);
      }
      assert Count(s.counts, h) == |Live(s, h)|;
      assert Live(s, h) == {};
    }
  }

  // ---------------------------------------------------------------- races

  /** Two first requests overlap: the second `insert` overwrites the first, and the first client to leave
      takes the server from the other. */
  lemma OverlappingFirstRequests() returns (states: seq<State>, acts: seq<Action>)
    ensures Run(Step, states, acts) && states[0] == INITIAL
    ensures states[|acts|].clients == map[2 := Counted(7)] && 7 !in states[|acts|].servers
  {
    var ss := [INITIAL,
               State(map[], {}, map[1 := Delegated(7)]),
               State(map[], {}, map[1 := Delegated(7), 2 := Delegated(7)]),
               State(map[], {7}, map[1 := Prepared(7), 2 := Delegated(7)]),
               State(map[7 := 1], {7}, map[1 := Counted(7), 2 := Delegated(7)])];
    var xs := [Lookup(1, 7), Lookup(2, 7), WorkerDone(1), Insert(1)];
    assert Run(Step, ss, xs);
    var ts, ys := SecondInsert();
    Join(Step, ss, xs, ts, ys);
    states, acts := ss + ts[1..], xs + ys;
  }

  lemma SecondInsert() returns (states: seq<State>, acts: seq<Action>)
    ensures Run(Step, states, acts) && states[0] == State(map[7 := 1], {7}, map[1 := Counted(7), 2 := Delegated(7)])
    ensures states[|acts|] == State(map[], {}, map[2 := Counted(7)])
  {
    var others := map[2 := Counted(7)];
    var ss := [State(map[7 := 1], {7}, map[1 := Counted(7), 2 := Delegated(7)]),
               State(map[7 := 1], {7}, map[1 := Counted(7), 2 := Prepared(7)]),
               State(map[7 := 1], {7}, others[1 := Counted(7)])];
    var xs := [WorkerDone(2), Insert(2)];
    assert others[1 := Counted(7)] == map[1 := Counted(7), 2 := Counted(7)];
    assert Run(Step, ss, xs);
    var ts, ys := LastLeaves(others);
    Join(Step, ss, xs, ts, ys);
    states, acts := ss + ts[1..], xs + ys;
  }

  /** The reply to client 1 arrives, and it leaves. */
  lemma LastLeaves(others: map<Client, Status>) returns (states: seq<State>, acts: seq<Action>)
    requires 1 !in others
    ensures Run(Step, states, acts) && states[0] == State(map[7 := 1], {7}, others[1 := Counted(7)])
    ensures states[|acts|] == State(map[], {}, others)
  {
    states := [State(map[7 := 1], {7}, others[1 := Counted(7)]),
               State(map[7 := 1], {7}, others[1 := Tracked(7)]),
               State(map[], {7}, others[1 := Closing(7)]),
               State(map[], {}, others)];
    acts := [Deliver(1), Close(1), Shutdown(1)];
    LastCloses(others);
  }

  /** With a stored count of one, client 1 closing shuts the server down, whoever else there is. */
  lemma LastCloses(others: map<Client, Status>)
    requires 1 !in others
    ensures Step(State(map[7 := 1], {7}, others[1 := Tracked(7)]), Close(1), State(map[], {7}, others[1 := Closing(7)]))
    ensures Step(State(map[], {7}, others[1 := Closing(7)]), Shutdown(1), State(map[], {}, others))
  {
    assert map[7 := 1] - {7} == map[];
    assert others[1 := Closing(7)] - {1} == others;
  }

  /** The count is right and yet the server is gone: a client finds the server just before the last one
      closes, and is counted only afterwards. */
  lemma FoundButShutDown() returns (states: seq<State>, acts: seq<Action>)
    ensures Run(Step, states, acts) && states[0] == INITIAL
    ensures states[|acts|] == State(map[7 := 1], {}, map[2 := Counted(7)])
  {
    var ss := [INITIAL,
               State(map[], {}, map[1 := Delegated(7)]),
               State(map[], {7}, map[1 := Prepared(7)]),
               State(map[7 := 1], {7}, map[1 := Counted(7)]),
               State(map[7 := 1], {7}, map[1 := Tracked(7)])];
    var xs := [Lookup(1, 7), WorkerDone(1), Insert(1), Deliver(1)];
    assert Run(Step, ss, xs);
    var ts, ys := CountedTooLate();
    Join(Step, ss, xs, ts, ys);
    states, acts := ss + ts[1..], xs + ys;
  }

  lemma CountedTooLate() returns (states: seq<State>, acts: seq<Action>)
    ensures Run(Step, states, acts) && states[0] == State(map[7 := 1], {7}, map[1 := Tracked(7)])
    ensures states[|acts|] == State(map[7 := 1], {}, map[2 := Counted(7)])
  {
    var others := map[2 := Looked(7)];
    assert others[1 := Tracked(7)] == map[1 := Tracked(7)][2 := Looked(7)];
    states := [State(map[7 := 1], {7}, map[1 := Tracked(7)]),
               State(map[7 := 1], {7}, others[1 := Tracked(7)]),
               State(map[], {7}, others[1 := Closing(7)]),
               State(map[], {}, others),
               State(map[7 := 1], {}, map[2 := Counted(7)])];
    acts := [Lookup(2, 7), Close(1), Shutdown(1), Increment(2)];
    LastCloses(others);
  }

  // ---------------------------------------------------------------- the object

  datatype Response = Success(reused: bool) | Failure

  /** The server's state. `servers` stands for the engine's handles; the ghost `clients` for where each
      connection's task is. */
  class ConnectionServer {
    var activeConnections: map<Hash, nat>
    var servers: set<Hash>
    ghost var clients: map<Client, Status>

    ghost function World(): State
      reads this
    {
      State(activeConnections, servers, clients)
    }

    constructor ()
      ensures World() == INITIAL
    {
      activeConnections, servers, clients := map[], {}, map[];
    }

    /** A replay request served without interruption; `prepared` is whether the worker succeeds. */
    method HandleReplayRequest(ghost c: Client, h: Hash, prepared: bool) returns (response: Response)
      requires c !in clients
      modifies this
      ensures var found := LookupSpec(old(World()), c, h);
              World() == if h in old(servers) then IncrementSpec(found, c, h)
                         else if prepared then InsertSpec(WorkerDoneSpec(found, c, h), c, h)
                         else LeaveSpec(found, c)
      ensures response == if h in old(servers) then Success(true) else if prepared then Success(false) else Failure
    {
      clients := LookupSpec(World(), c, h).clients;
      if h in servers {
        var count := if h in activeConnections then activeConnections[h] else 0;
        activeConnections := activeConnections[h := count + 1];
        clients := clients[c := Counted(h)];
        return Success(true);
      }
      if !prepared {
        clients := clients - {c};
        return Failure;
      }
      servers := servers + {h};
      clients := clients[c := Prepared(h)];
      activeConnections := activeConnections[h := 1];
      clients := clients[c := Counted(h)];
      response := Success(false);
    }

    /** The decrement when a tracked connection has closed, followed by the shutdown it may cause. */
    method ConnectionClosed(ghost c: Client, h: Hash)
      requires Positive(World()) && c in clients && clients[c] == Tracked(h)
      modifies this
      ensures var closed := CloseSpec(old(World()), c, h);
              World() == if Last(old(World()), h) then ShutdownSpec(closed, c, h) else closed
    {
      ghost var closed := CloseSpec(World(), c, h);
      clients := closed.clients;
      var shouldShutdown := false;
      if h in activeConnections {
        activeConnections := activeConnections[h := activeConnections[h] - 1];
        if activeConnections[h] == 0 {
          activeConnections := activeConnections - {h};
          shouldShutdown := true;
        }
      }
      assert World() == closed;
      if shouldShutdown {
        servers := servers - {h};
        clients := clients - {c};
      }
    }
  }
}
