/** `Engine`: per-transaction locking of `prepare`, interleaved step by step with other preparations
    and with `shutdown_rpc_server`. */
module Engine {
  import opened Common
  import opened Runs

  type TxHash = nat
  type TaskId = nat
  type LockId = nat
  type Addr = nat

  /** Where a call of `prepare` is. From `Holding` to `Stored` it owns its lock. */
  datatype Phase =
    | Waiting(h: TxHash, lock: LockId)
    | Holding(h: TxHash, lock: LockId)
    | Analysing(h: TxHash, lock: LockId)
    | Stored(h: TxHash, lock: LockId, addr: Addr)
    | Returned(result: Option<Addr>)

  predicate Owns(p: Phase) {
    p.Holding? || p.Analysing? || p.Stored?
  }

  predicate Active(p: Phase) {
    !p.Returned?
  }

  /** `inFlight` never forgets a lock; `owner` says which locks are taken and by whom. `analysed` and
      `stopped` count, per transaction, the stored analyses and the shutdowns that found a server. */
  datatype State = State(
    handles: map<TxHash, Addr>,
    inFlight: map<TxHash, LockId>,
    nextLock: LockId,
    owner: map<LockId, TaskId>,
    tasks: map<TaskId, Phase>,
    analysed: map<TxHash, nat>,
    stopped: map<TxHash, nat>)

  function Count(m: map<TxHash, nat>, h: TxHash): nat {
    if h in m then m[h] else 0
  }

  datatype Action =
    | Enter(t: TaskId, hash: TxHash)
    | Acquire(t: TaskId)
    | Reuse(t: TaskId)
    | Begin(t: TaskId)
    | Store(t: TaskId, addr: Addr)
    | Release(t: TaskId)
    | Abandon(t: TaskId)
    | Shutdown(hash: TxHash)

  function Initial(): State {
    State(map[], map[], 0, map[], map[], map[], map[])
  }

  // ---------------------------------------------------------------- the atomic sections

  /** `in_flight.entry(tx_hash).or_insert_with(..)`. */
  function EnterSpec(s: State, t: TaskId, h: TxHash): State {
    var lock := if h in s.inFlight then s.inFlight[h] else s.nextLock;
    s.(inFlight := s.inFlight[h := lock],
       nextLock := if h in s.inFlight then s.nextLock else s.nextLock + 1,
       tasks := s.tasks[t := Waiting(h, lock)])
  }

  function ReleaseSpec(s: State, t: TaskId, result: Option<Addr>): State
    requires t in s.tasks && Active(s.tasks[t])
  {
    s.(owner := if Owns(s.tasks[t]) then s.owner - {s.tasks[t].lock} else s.owner,
       tasks := s.tasks[t := Returned(result)])
  }

  function StoreSpec(s: State, t: TaskId, addr: Addr): State
    requires t in s.tasks && s.tasks[t].Analysing?
  {
    var h := s.tasks[t].h;
    s.(handles := s.handles[h := addr],
       tasks := s.tasks[t := Stored(h, s.tasks[t].lock, addr)],
       analysed := s.analysed[h := Count(s.analysed, h) + 1])
  }

  function ShutdownSpec(s: State, h: TxHash): State {
    if h in s.handles then s.(handles := s.handles - {h}, stopped := s.stopped[h := Count(s.stopped, h) + 1]) else s
  }

  ghost predicate Step(s: State, a: Action, u: State) {
    match a
    case Enter(t, h) => t !in s.tasks && u == EnterSpec(s, t, h)
    case Acquire(t) =>
      && t in s.tasks && s.tasks[t].Waiting? && s.tasks[t].lock !in s.owner
      && u == s.(owner := s.owner[s.tasks[t].lock := t],
                 tasks := s.tasks[t := Holding(s.tasks[t].h, s.tasks[t].lock)])
    case Reuse(t) =>
      && t in s.tasks && s.tasks[t].Holding? && s.tasks[t].h in s.handles
      && u == ReleaseSpec(s, t, Some(s.handles[s.tasks[t].h]))
    case Begin(t) =>
      && t in s.tasks && s.tasks[t].Holding? && s.tasks[t].h !in s.handles
      && u == s.(tasks := s.tasks[t := Analysing(s.tasks[t].h, s.tasks[t].lock)])
    case Store(t, addr) =>
      t in s.tasks && s.tasks[t].Analysing? && u == StoreSpec(s, t, addr)
    case Release(t) =>
      t in s.tasks && s.tasks[t].Stored? && u == ReleaseSpec(s, t, Some(s.tasks[t].addr))
    case Abandon(t) =>
      t in s.tasks && Active(s.tasks[t]) && u == ReleaseSpec(s, t, None)
    case Shutdown(h) => u == ShutdownSpec(s, h)
  }

  // ---------------------------------------------------------------- the invariant

  ghost predicate LocksInjective(s: State) {
    && (forall h :: h in s.inFlight ==> s.inFlight[h] < s.nextLock)
    && (forall h, g :: h in s.inFlight && g in s.inFlight && s.inFlight[h] == s.inFlight[g] ==> h == g)
  }

  ghost predicate TaskOk(s: State, t: TaskId, p: Phase) {
    Active(p) ==>
      && p.h in s.inFlight && s.inFlight[p.h] == p.lock
      && (Owns(p) ==> p.lock in s.owner && s.owner[p.lock] == t)
      && (p.Analysing? ==> p.h !in s.handles)
  }

  ghost predicate TasksOk(s: State) {
    forall t :: t in s.tasks ==> TaskOk(s, t, s.tasks[t])
  }

  ghost predicate OwnersOk(s: State) {
    forall l :: l in s.owner ==>
      s.owner[l] in s.tasks && Owns(s.tasks[s.owner[l]]) && s.tasks[s.owner[l]].lock == l
  }

  /** Stored analyses and shutdowns of a transaction balance, but for the server that is up. */
  ghost predicate Balanced(s: State) {
    forall h :: Count(s.analysed, h) == Count(s.stopped, h) + (if h in s.handles then 1 else 0)
  }

  ghost predicate Inv(s: State) {
    LocksInjective(s) && TasksOk(s) && OwnersOk(s) && Balanced(s)
  }

  lemma StepKeepsLocks(s: State, a: Action, u: State)
    requires LocksInjective(s) && Step(s, a, u)
    ensures LocksInjective(u)
  {
  }

  lemma StepKeepsOwners(s: State, a: Action, u: State)
    requires LocksInjective(s) && TasksOk(s) && OwnersOk(s) && Step(s, a, u)
    ensures OwnersOk(u)
  {
    forall l | l in u.owner
      ensures u.owner[l] in u.tasks && Owns(u.tasks[u.owner[l]]) && u.tasks[u.owner[l]].lock == l
    {
      if l in s.owner {
        assert s.owner[l] in s.tasks;
      }
    }
  }

  /** Two different owners own different locks, hence work on different transactions. */
  lemma OwnersDiffer(s: State, t: TaskId, u: TaskId)
    requires TasksOk(s) && t in s.tasks && u in s.tasks && t != u
    requires Owns(s.tasks[t]) && Owns(s.tasks[u])
    ensures s.tasks[t].lock != s.tasks[u].lock && s.tasks[t].h != s.tasks[u].h
  {
    assert TaskOk(s, t, s.tasks[t]) && TaskOk(s, u, s.tasks[u]);
  }

  lemma StepKeepsTasks(s: State, a: Action, u: State)
    requires LocksInjective(s) && TasksOk(s) && OwnersOk(s) && Step(s, a, u)
    ensures TasksOk(u)
  {
    forall t | t in u.tasks ensures TaskOk(u, t, u.tasks[t]) {
      if t in s.tasks {
        assert TaskOk(s, t, s.tasks[t]);
        if !a.Enter? && !a.Shutdown? && a.t in s.tasks && a.t != t && Owns(s.tasks[t]) && Owns(s.tasks[a.t]) {
          OwnersDiffer(s, t, a.t);
        }
      }
    }
  }

  lemma StoreFindsNoHandle(s: State, a: Action, u: State)
    requires TasksOk(s) && a.Store? && Step(s, a, u)
    ensures s.tasks[a.t].h !in s.handles
  {
    assert TaskOk(s, a.t, s.tasks[a.t]);
  }

  lemma StepKeepsBalance(s: State, a: Action, u: State)
    requires TasksOk(s) && Balanced(s) && Step(s, a, u)
    ensures Balanced(u)
  {
    if a.Store? {
      StoreFindsNoHandle(s, a, u);
    }
    forall h ensures Count(u.analysed, h) == Count(u.stopped, h) + (if h in u.handles then 1 else 0) {
      assert Count(s.analysed, h) == Count(s.stopped, h) + (if h in s.handles then 1 else 0);
    }
  }

  lemma RunKeepsInv(states: seq<State>, acts: seq<Action>, n: nat)
    requires Run(Step, states, acts) && states[0] == Initial() && n <= |acts|
    ensures Inv(states[n])
  {
    forall s, a, u | Inv(s) && Step(s, a, u) ensures Inv(u) {
      StepKeepsLocks(s, a, u);
      StepKeepsOwners(s, a, u);
      StepKeepsTasks(s, a, u);
      StepKeepsBalance(s, a, u);
    }
    Invariant(Step, Inv, states, acts, n);
  }

  // ---------------------------------------------------------------- what it gives

  /** In every interleaving at most one task analyses a given transaction. */
  lemma MutualExclusion(states: seq<State>, acts: seq<Action>, n: nat, t: TaskId, u: TaskId)
    requires Run(Step, states, acts) && states[0] == Initial() && n <= |acts|
    requires t in states[n].tasks && u in states[n].tasks
    requires states[n].tasks[t].Analysing? && states[n].tasks[u].Analysing?
    requires states[n].tasks[t].h == states[n].tasks[u].h
    ensures t == u
  {
    RunKeepsInv(states, acts, n);
    if t != u {
      OwnersDiffer(states[n], t, u);
    }
  }

  /** Storing a handle never overwrites one, so no server is lost. */
  lemma NeverOverwrites(states: seq<State>, acts: seq<Action>, n: nat)
    requires Run(Step, states, acts) && states[0] == Initial() && n < |acts| && acts[n].Store?
    ensures acts[n].t in states[n].tasks && states[n].tasks[acts[n].t].Analysing?
    ensures states[n].tasks[acts[n].t].h !in states[n].handles
  {
    RunKeepsInv(states, acts, n);
    var a := acts[n];
    StoreFindsNoHandle(states[n], a, states[n + 1]);
  }

  /** A transaction is analysed anew only after its server was shut down: successful analyses and
      shutdowns balance up to the one server that may be running. */
  lemma AnalysedOncePerShutdown(states: seq<State>, acts: seq<Action>, n: nat, h: TxHash)
    requires Run(Step, states, acts) && states[0] == Initial() && n <= |acts|
    ensures Count(states[n].analysed, h) == Count(states[n].stopped, h) + (if h in states[n].handles then 1 else 0)
  {
    RunKeepsInv(states, acts, n);
  }

  // ---------------------------------------------------------------- which server is returned

  /** At step `m` the address of an analysis of `h` was stored. */
  ghost predicate StoredAt(states: seq<State>, acts: seq<Action>, m: nat, h: TxHash, addr: Addr) {
    && m < |acts| < |states| && acts[m].Store? && acts[m].addr == addr
    && acts[m].t in states[m].tasks && states[m].tasks[acts[m].t].Analysing? && states[m].tasks[acts[m].t].h == h
  }

  /** The running server of a transaction is the one stored last for it and not shut down since. */
  lemma {:induction false} HandleIsLastStored(states: seq<State>, acts: seq<Action>, n: nat, h: TxHash)
    returns (m: nat)
    requires Run(Step, states, acts) && states[0] == Initial() && n <= |acts| && h in states[n].handles
    ensures m < n && StoredAt(states, acts, m, h, states[n].handles[h])
    ensures forall k :: m < k < n ==> acts[k] != Shutdown(h)
    ensures forall k, addr :: m < k < n ==> !StoredAt(states, acts, k, h, addr)
    decreases n
  {
    var a := acts[n - 1];
    assert Step(states[n - 1], a, states[n]);
    if a.Store? && states[n - 1].tasks[a.t].h == h {
      m := n - 1;
    } else {
      m := HandleIsLastStored(states, acts, n - 1, h);
    }
  }

  /** A task that has stored its server remembers which. */
  lemma {:induction false} StoredIsRemembered(states: seq<State>, acts: seq<Action>, n: nat, t: TaskId)
    returns (m: nat)
    requires Run(Step, states, acts) && states[0] == Initial() && n <= |acts|
    requires t in states[n].tasks && states[n].tasks[t].Stored?
    ensures m < n && acts[m].Store? && acts[m].t == t
    ensures StoredAt(states, acts, m, states[n].tasks[t].h, states[n].tasks[t].addr)
    decreases n
  {
    var a := acts[n - 1];
    assert Step(states[n - 1], a, states[n]);
    if a.Store? && a.t == t {
      m := n - 1;
    } else {
      m := StoredIsRemembered(states, acts, n - 1, t);
    }
  }

  /** What a call returns is the address that a call stored for the same transaction: the one it stored itself, or
      the one of the server that was running when it held the lock. */
  lemma ReturnsStored(states: seq<State>, acts: seq<Action>, n: nat, t: TaskId) returns (m: nat)
    requires Run(Step, states, acts) && states[0] == Initial() && n < |acts|
    requires acts[n] == Reuse(t) || acts[n] == Release(t)
    ensures t in states[n].tasks && Active(states[n].tasks[t]) && t in states[n + 1].tasks && m < n
    ensures exists addr :: && states[n + 1].tasks[t] == Returned(Some(addr))
                           && StoredAt(states, acts, m, states[n].tasks[t].h, addr)
    ensures acts[n].Release? ==> acts[m].t == t
    ensures acts[n].Reuse? ==> forall k :: m < k < n ==> acts[k] != Shutdown(states[n].tasks[t].h)
  {
    var a := acts[n];
    assert Step(states[n], a, states[n + 1]);
    if a.Reuse? {
      m := HandleIsLastStored(states, acts, n, states[n].tasks[t].h);
    } else {
      m := StoredIsRemembered(states, acts, n, t);
    }
  }

  ghost predicate HeldBy(s: State, t: TaskId, h: TxHash) {
    t in s.tasks && Owns(s.tasks[t]) && s.tasks[t].h == h
  }

  /** A waiting task cannot go on exactly when another task of the same transaction holds the lock. */
  lemma OnlySameHashBlocks(states: seq<State>, acts: seq<Action>, n: nat, t: TaskId) returns (by_: Option<TaskId>)
    requires Run(Step, states, acts) && states[0] == Initial() && n <= |acts|
    requires t in states[n].tasks && states[n].tasks[t].Waiting?
    ensures by_.None? <==> exists u :: Step(states[n], Acquire(t), u)
    ensures by_.Some? ==> HeldBy(states[n], by_.value, states[n].tasks[t].h) && by_.value != t
    ensures by_.None? ==> forall u :: !HeldBy(states[n], u, states[n].tasks[t].h)
  {
    RunKeepsInv(states, acts, n);
    var s := states[n];
    var lock := s.tasks[t].lock;
    assert TaskOk(s, t, s.tasks[t]);
    if lock in s.owner {
      by_ := Some(s.owner[lock]);
      assert TaskOk(s, by_.value, s.tasks[by_.value]);
    } else {
      by_ := None;
      forall u ensures !HeldBy(s, u, s.tasks[t].h) {
        assert u in s.tasks ==> TaskOk(s, u, s.tasks[u]);
      }
      var u := s.(owner := s.owner[lock := t], tasks := s.tasks[t := Holding(s.tasks[t].h, lock)]);
      assert Step(s, Acquire(t), u);
    }
  }

  /** No deadlock: as long as a task of some transaction has not returned, one of them can go on. */
  lemma NeverStuck(states: seq<State>, acts: seq<Action>, n: nat, t: TaskId) returns (a: Action, u: State)
    requires Run(Step, states, acts) && states[0] == Initial() && n <= |acts|
    requires t in states[n].tasks && Active(states[n].tasks[t])
    ensures Step(states[n], a, u) && !a.Enter? && !a.Abandon? && !a.Shutdown?
    ensures a.t in states[n].tasks && Active(states[n].tasks[a.t]) && states[n].tasks[a.t].h == states[n].tasks[t].h
  {
    var s := states[n];
    var mover := t;
    if s.tasks[t].Waiting? {
      var by_ := OnlySameHashBlocks(states, acts, n, t);
      if by_.Some? {
        mover := by_.value;
      }
    }
    var p := s.tasks[mover];
    if p.Waiting? {
      a := Acquire(mover);
      u :| Step(s, Acquire(mover), u);
    } else if p.Holding? && p.h in s.handles {
      a, u := Reuse(mover), ReleaseSpec(s, mover, Some(s.handles[p.h]));
    } else if p.Holding? {
      a, u := Begin(mover), s.(tasks := s.tasks[mover := Analysing(p.h, p.lock)]);
    } else if p.Analysing? {
      a, u := Store(mover, 0), StoreSpec(s, mover, 0);
    } else {
      a, u := Release(mover), ReleaseSpec(s, mover, Some(p.addr));
    }
  }

  // ---------------------------------------------------------------- the object's own maps

  /** The two concurrent maps of `Engine`. The ghost `world` adds what the runtime knows (who owns which
      lock, where each task is), so that each access can be seen to be one step. */
  class Engine {
    var serverHandles: map<TxHash, Addr>
    var inFlight: map<TxHash, LockId>
    var nextLock: LockId
    ghost var world: State

    ghost predicate Valid()
      reads this
    {
      world.handles == serverHandles && world.inFlight == inFlight && world.nextLock == nextLock
    }

    constructor ()
      ensures Valid() && world == Initial()
    {
      serverHandles, inFlight, nextLock := map[], map[], 0;
      world := Initial();
    }

    method GetRpcServerAddr(h: TxHash) returns (addr: Option<Addr>)
      requires Valid()
      ensures addr == if h in world.handles then Some(world.handles[h]) else None
    {
      addr := if h in serverHandles then Some(serverHandles[h]) else None;
    }

    method GetOrCreateLock(ghost t: TaskId, h: TxHash) returns (lock: LockId)
      requires Valid() && t !in world.tasks
      modifies this
      ensures Valid() && Step(old(world), Enter(t, h), world) && world.tasks[t] == Waiting(h, lock)
    {
      world := EnterSpec(world, t, h);
      if h !in inFlight {
        inFlight := inFlight[h := nextLock];
        nextLock := nextLock + 1;
      }
      lock := inFlight[h];
    }

    /** With the lock held: the running server is reused, or the analysis begins. */
    method CheckExisting(ghost t: TaskId, h: TxHash) returns (existing: Option<Addr>)
      requires Valid() && t in world.tasks && world.tasks[t].Holding? && world.tasks[t].h == h
      modifies this`world
      ensures Valid()
      ensures existing.Some? ==> Step(old(world), Reuse(t), world) && world.tasks[t] == Returned(existing)
      ensures existing.None? ==> Step(old(world), Begin(t), world)
    {
      if h in serverHandles {
        existing := Some(serverHandles[h]);
        world := ReleaseSpec(world, t, existing);
      } else {
        existing := None;
        world := world.(tasks := world.tasks[t := Analysing(h, world.tasks[t].lock)]);
      }
    }

    method StoreHandle(ghost t: TaskId, h: TxHash, addr: Addr)
      requires Valid() && t in world.tasks && world.tasks[t].Analysing? && world.tasks[t].h == h
      modifies this
      ensures Valid() && Step(old(world), Store(t, addr), world)
    {
      world := StoreSpec(world, t, addr);
      serverHandles := serverHandles[h := addr];
    }

    method ShutdownRpcServer(h: TxHash) returns (found: bool)
      requires Valid()
      modifies this
      ensures Valid() && Step(old(world), Shutdown(h), world)
      ensures found == (h in old(serverHandles)) && h !in serverHandles
    {
      world := ShutdownSpec(world, h);
      found := h in serverHandles;
      if found {
        serverHandles := serverHandles - {h};
      }
    }
  }
}
