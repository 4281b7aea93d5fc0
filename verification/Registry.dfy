/** `EdbRegistry`: registration, heartbeats, and the monitor that prunes dead instances and shuts the
    proxy down after a grace period. Each locked section is one step; the clock does not run backwards. */
module Registry {
  import opened Common
  import opened Runs

  datatype Instance = Instance(registeredAt: nat, lastHeartbeat: nat)

  /** Where the monitor is in its loop: at the tick, after pruning, or after the emptiness check. */
  datatype Phase = Idle | Pruned | Checked(empty: bool)

  /** `registering` is set while a registration has inserted its instance and not yet cancelled the grace
      period; it holds the lock on the instances. `emptySince` is the time since which there are none,
      `signals` the times at which shutdown was signalled. */
  datatype State = State(
    gracePeriod: nat,
    interval: nat,
    instances: map<nat, Instance>,
    graceStart: Option<nat>,
    registering: bool,
    phase: Phase,
    clock: nat,
    emptySince: Option<nat>,
    signals: seq<nat>)

  datatype Action =
    | RegisterInsert(pid: nat)
    | RegisterCancel
    | Heartbeat(pid: nat)
    | Prune(running: set<nat>)
    | Check
    | Grace
    | Wait(seconds: nat)

  function Initial(gracePeriod: nat, interval: nat, clock: nat): State {
    State(gracePeriod, interval, map[], None, false, Idle, clock, Some(clock), [])
  }

  // ---------------------------------------------------------------- the locked sections

  predicate IsAlive(i: Instance, now: nat, timeout: nat) {
    now - i.lastHeartbeat <= timeout
  }

  function Surviving(instances: map<nat, Instance>, now: nat, timeout: nat, running: set<nat>): (r: map<nat, Instance>)
    ensures r.Keys <= instances.Keys
  {
    map pid | pid in instances && IsAlive(instances[pid], now, timeout) && pid in running :: instances[pid]
  }

  function RegisterInsertSpec(s: State, pid: nat): State {
    s.(instances := s.instances[pid := Instance(s.clock, s.clock)], registering := true, emptySince := None)
  }

  function RegisterCancelSpec(s: State): State {
    s.(registering := false, graceStart := None)
  }

  function HeartbeatSpec(s: State, pid: nat): State {
    if pid in s.instances then s.(instances := s.instances[pid := s.instances[pid].(lastHeartbeat := s.clock)]) else s
  }

  function PruneSpec(s: State, running: set<nat>): State {
    var left := Surviving(s.instances, s.clock, 3 * s.interval, running);
    s.(instances := left,
       emptySince := if s.instances != map[] && left == map[] then Some(s.clock) else s.emptySince,
       phase := Pruned)
  }

  function CheckSpec(s: State): State {
    s.(phase := Checked(s.instances == map[]))
  }

  function GraceSpec(s: State): State {
    if s.phase != Checked(true) then s.(phase := Idle)
    else
      var start := if s.graceStart.None? then s.clock else s.graceStart.value;
      s.(graceStart := Some(start),
         signals := if s.gracePeriod > 0 && s.clock - start >= s.gracePeriod then s.signals + [s.clock] else s.signals,
         phase := Idle)
  }

  ghost predicate Step(s: State, a: Action, t: State) {
    match a
    case RegisterInsert(pid) => !s.registering && t == RegisterInsertSpec(s, pid)
    case RegisterCancel => s.registering && t == RegisterCancelSpec(s)
    case Heartbeat(pid) => !s.registering && t == HeartbeatSpec(s, pid)
    case Prune(running) => !s.registering && s.phase.Idle? && t == PruneSpec(s, running)
    case Check => !s.registering && s.phase.Pruned? && t == CheckSpec(s)
    case Grace => s.phase.Checked? && t == GraceSpec(s)
    case Wait(seconds) => t == s.(clock := s.clock + seconds)
  }

  // ---------------------------------------------------------------- the grace period

  /** Outside a registration, a running grace period means that there are no instances. */
  ghost predicate GraceMeansEmpty(s: State) {
    s.graceStart.Some? && !s.registering ==> s.instances == map[]
  }

  /** The grace section acts on a check that a complete registration has overtaken. */
  ghost predicate Overtaken(s: State, a: Action) {
    a.Grace? && s.phase == Checked(true) && !s.registering && s.instances != map[]
  }

  lemma StepKeepsGrace(s: State, a: Action, t: State)
    requires GraceMeansEmpty(s) && Step(s, a, t)
    ensures GraceMeansEmpty(t) <==> !Overtaken(s, a)
  {
    if a.Prune? && s.instances == map[] {
      assert t.instances == map[];
    }
  }

  /** In a run, a running grace period always means an empty registry exactly when no registration ever
      completes between the emptiness check and the grace section. */
  lemma GraceMeansEmptyExactly(states: seq<State>, acts: seq<Action>, n: nat)
    requires Run(Step, states, acts) && GraceMeansEmpty(states[0]) && n <= |acts|
    ensures (forall k :: 0 <= k <= n ==> GraceMeansEmpty(states[k])) <==>
            (forall k :: 0 <= k < n ==> !Overtaken(states[k], acts[k]))
  {
    forall s, a, t | GraceMeansEmpty(s) && Step(s, a, t) ensures GraceMeansEmpty(t) <==> !Overtaken(s, a) {
      StepKeepsGrace(s, a, t);
    }
    KeptExactly(Step, GraceMeansEmpty, Overtaken, states, acts, n);
  }

  // ---------------------------------------------------------------- shutdown

  /** Every step but one in which the grace section acts on an overtaken check. */
  ghost predicate TimelyStep(s: State, a: Action, t: State) {
    Step(s, a, t) && !Overtaken(s, a)
  }

  ghost predicate Timed(s: State) {
    && GraceMeansEmpty(s)
    && (s.instances == map[] <==> s.emptySince.Some?)
    && (s.emptySince.Some? ==> s.emptySince.value <= s.clock)
    && (s.graceStart.Some? ==> s.graceStart.value <= s.clock)
    && (s.graceStart.Some? && !s.registering ==> s.emptySince.Some? && s.emptySince.value <= s.graceStart.value)
    && (s.registering ==> s.instances != map[])
  }

  lemma TimelyStepKeepsTimed(s: State, a: Action, t: State)
    requires Timed(s) && TimelyStep(s, a, t)
    ensures Timed(t)
  {
    match a
    case RegisterInsert(pid) => assert pid in t.instances;
    case Heartbeat(pid) => assert pid in s.instances ==> pid in t.instances;
    case Prune(_) =>
      if s.instances == map[] {
        assert t.instances == map[];
      }
    case _ =>
  }

  lemma TimelyRun(states: seq<State>, acts: seq<Action>, n: nat)
    requires Run(Step, states, acts) && Timed(states[0]) && n <= |acts|
    requires forall k :: 0 <= k < n ==> !Overtaken(states[k], acts[k])
    ensures Timed(states[n])
  {
    if n > 0 {
      TimelyRun(states, acts, n - 1);
      var a := acts[n - 1];
      TimelyStepKeepsTimed(states[n - 1], a, states[n]);
    }
  }

  /** The registry has been empty for a grace period. */
  predicate LongEmpty(s: State) {
    s.instances == map[] && s.emptySince.Some? && s.emptySince.value + s.gracePeriod <= s.clock
  }

  /** Shutdown is signalled only with a positive grace period. As long as no registration has overtaken an
      earlier check, the registry has then been empty for a grace period, exactly when no registration, in
      progress or complete, has come after this round's check. */
  lemma ShutdownIsSafeExactly(states: seq<State>, acts: seq<Action>, n: nat)
    requires Run(Step, states, acts) && Timed(states[0]) && n < |acts|
    requires forall k :: 0 <= k < n ==> !Overtaken(states[k], acts[k])
    requires states[n + 1].signals != states[n].signals
    ensures states[n].gracePeriod > 0 && states[n + 1].signals == states[n].signals + [states[n].clock]
    ensures LongEmpty(states[n]) <==> !states[n].registering && !Overtaken(states[n], acts[n])
  {
    TimelyRun(states, acts, n);
    var a := acts[n];
    assert Step(states[n], a, states[n + 1]);
  }

  /** While there are instances, time is not counted against them. */
  lemma EmptySinceMeans(s: State, a: Action, t: State)
    requires Timed(s) && TimelyStep(s, a, t) && s.emptySince.Some? && t.emptySince.Some?
    ensures s.instances == map[] && t.instances == map[] && t.emptySince == s.emptySince
  {
  }

  /** Between the check and the grace section shutdown can hit a registered instance: here one inserts itself
      after the check, and the signal goes out before it cancels the grace period. */
  lemma ShutdownDespiteInstance() returns (states: seq<State>, acts: seq<Action>)
    ensures Run(Step, states, acts) && states[0] == Initial(1, 1, 0)
    ensures states[|acts|].signals == [1] && 7 in states[|acts|].instances
  {
    var s0 := Initial(1, 1, 0);
    var s1 := PruneSpec(s0, {});
    assert s1.instances == map[];
    var s2 := CheckSpec(s1);
    var s3 := GraceSpec(s2);
    var s4 := s3.(clock := 1);
    var s5 := PruneSpec(s4, {});
    assert s5.instances == map[];
    var s6 := CheckSpec(s5);
    var s7 := RegisterInsertSpec(s6, 7);
    var s8 := GraceSpec(s7);
    states := [s0, s1, s2, s3, s4, s5, s6, s7, s8];
    acts := [Prune({}), Check, Grace, Wait(1), Prune({}), Check, RegisterInsert(7), Grace];
  }

  /** An instance registered at time 0, and a grace period that has run since. */
  const OVERTAKEN := State(1, 1, map[7 := Instance(0, 0)], Some(0), false, Idle, 0, None, [])

  /** A whole registration fits in between: the grace period then runs although an instance is registered. */
  lemma GraceDespiteInstance() returns (states: seq<State>, acts: seq<Action>)
    ensures Run(Step, states, acts) && states[0] == Initial(1, 1, 0)
    ensures acts != [] && Overtaken(states[|acts| - 1], acts[|acts| - 1])
    ensures states[|acts|] == OVERTAKEN && !GraceMeansEmpty(OVERTAKEN)
  {
    var s0 := Initial(1, 1, 0);
    var s1 := PruneSpec(s0, {});
    assert s1.instances == map[];
    var s2 := CheckSpec(s1);
    var s3 := RegisterInsertSpec(s2, 7);
    var s4 := RegisterCancelSpec(s3);
    assert 7 in s4.instances;
    states := [s0, s1, s2, s3, s4, OVERTAKEN];
    acts := [Prune({}), Check, RegisterInsert(7), RegisterCancel, Grace];
  }

  /** The registry then need not have been empty at all: the instance is pruned and shutdown signalled in the
      same second, with a grace period of one. */
  lemma ShutdownAtOnce() returns (states: seq<State>, acts: seq<Action>)
    ensures Run(Step, states, acts) && states[0] == Initial(1, 1, 0)
    ensures var s := states[|acts|]; s.signals == [s.clock] && s.emptySince == Some(s.clock) && s.gracePeriod == 1
  {
    var ss, xs := GraceDespiteInstance();
    var s0 := OVERTAKEN.(clock := 4);
    assert 7 in s0.instances;
    var s1 := PruneSpec(s0, {});
    assert s1.instances == map[];
    var s2 := CheckSpec(s1);
    var ts, ys := [OVERTAKEN, s0, s1, s2, GraceSpec(s2)], [Wait(4), Prune({}), Check, Grace];
    Join(Step, ss, xs, ts, ys);
    states, acts := ss + ts[1..], xs + ys;
  }

  // ---------------------------------------------------------------- one round of the monitor

  /** No check or grace section of the monitor among the actions `m`..`n`: these are within one round. */
  ghost predicate SameRound(acts: seq<Action>, m: nat, n: nat)
    requires n <= |acts|
  {
    forall k :: m <= k < n ==> !acts[k].Grace?
  }

  lemma {:induction false} CheckedSince(states: seq<State>, acts: seq<Action>, m: nat, n: nat)
    requires Run(Step, states, acts) && m < n <= |acts| && acts[m].Check? && SameRound(acts, m, n)
    ensures states[n].phase == Checked(states[m].instances == map[])
    decreases n
  {
    var a := acts[n - 1];
    if n > m + 1 {
      CheckedSince(states, acts, m, n - 1);
    }
    assert Step(states[n - 1], a, states[n]);
  }

  /** The grace section does nothing exactly when the check of its round found an instance; otherwise it starts
      the grace period, unless that is running, and signals shutdown once it is over. */
  lemma GraceActsExactly(states: seq<State>, acts: seq<Action>, m: nat, n: nat)
    requires Run(Step, states, acts) && m < n < |acts| && acts[m].Check? && acts[n].Grace? && SameRound(acts, m, n)
    ensures var s, t := states[n], states[n + 1];
            if states[m].instances != map[] then t.graceStart == s.graceStart && t.signals == s.signals
            else
              && t.graceStart == Some(if s.graceStart.Some? then s.graceStart.value else s.clock)
              && t.signals == if 0 < s.gracePeriod && t.graceStart.value + s.gracePeriod <= s.clock
                              then s.signals + [s.clock] else s.signals
  {
    CheckedSince(states, acts, m, n);
    var a := acts[n];
    assert Step(states[n], a, states[n + 1]);
  }

  // ---------------------------------------------------------------- pruning

  /** The prune step `a` spares `pid`: its process runs and its last beat is at most three intervals old. */
  predicate Spares(s: State, a: Action, pid: nat, lastBeat: nat) {
    a.Prune? ==> pid in a.running && s.clock <= lastBeat + 3 * s.interval
  }

  predicate IsBeat(a: Action, pid: nat) {
    (a.RegisterInsert? || a.Heartbeat?) && a.pid == pid
  }

  /** The time of the last registration or heartbeat of `pid` among the actions `m`..`n`. */
  function LastBeat(states: seq<State>, acts: seq<Action>, pid: nat, m: nat, n: nat): nat
    requires m <= n <= |acts| < |states|
    decreases n
  {
    if m == n then states[m].clock
    else if IsBeat(acts[n - 1], pid) then states[n - 1].clock
    else LastBeat(states, acts, pid, m, n - 1)
  }

  ghost predicate SparedUntil(states: seq<State>, acts: seq<Action>, pid: nat, m: nat, n: nat)
    requires m <= n <= |acts| < |states|
  {
    forall k {:trigger acts[k]} :: m < k < n ==> Spares(states[k], acts[k], pid, LastBeat(states, acts, pid, m, k))
  }

  lemma StepOnInstance(s: State, a: Action, t: State, pid: nat)
    requires Step(s, a, t) && pid in s.instances && s.instances[pid].lastHeartbeat <= s.clock
    ensures pid in t.instances <==> Spares(s, a, pid, s.instances[pid].lastHeartbeat)
    ensures pid in t.instances ==>
              t.instances[pid].lastHeartbeat == if IsBeat(a, pid) then s.clock else s.instances[pid].lastHeartbeat
    ensures s.clock <= t.clock
  {
  }

  /** A process that registers at step `m` stays registered exactly as long as every pruning finds it
      running and with a heartbeat at most three intervals old. */
  lemma {:induction false} StaysRegisteredExactly(states: seq<State>, acts: seq<Action>, pid: nat, m: nat, n: nat)
    requires Run(Step, states, acts) && m < n <= |acts| && acts[m] == RegisterInsert(pid)
    ensures (forall k :: m < k <= n ==> pid in states[k].instances) <==> SparedUntil(states, acts, pid, m, n)
    ensures SparedUntil(states, acts, pid, m, n) ==>
              && states[n].instances[pid].lastHeartbeat == LastBeat(states, acts, pid, m, n)
              && states[n].instances[pid].lastHeartbeat <= states[n].clock
    decreases n
  {
    var a := acts[n - 1];
    assert Step(states[n - 1], a, states[n]);
    if n == m + 1 {
      assert states[n].instances[pid].lastHeartbeat == states[m].clock;
    } else {
      StaysRegisteredExactly(states, acts, pid, m, n - 1);
      SparedSplit(states, acts, pid, m, n);
      if SparedUntil(states, acts, pid, m, n - 1) {
        assert pid in states[n - 1].instances;
        StepOnInstance(states[n - 1], a, states[n], pid);
      }
    }
  }

  /** The time of the last registration of `pid` among the actions `m`..`n`. */
  function LastRegistration(states: seq<State>, acts: seq<Action>, pid: nat, m: nat, n: nat): nat
    requires m <= n <= |acts| < |states|
    decreases n
  {
    if m == n then states[m].clock
    else if acts[n - 1] == RegisterInsert(pid) then states[n - 1].clock
    else LastRegistration(states, acts, pid, m, n - 1)
  }

  /** As long as it stays, beats do not change when it was registered. */
  lemma {:induction false} RegisteredSince(states: seq<State>, acts: seq<Action>, pid: nat, m: nat, n: nat)
    requires Run(Step, states, acts) && m < n <= |acts| && acts[m] == RegisterInsert(pid)
    requires forall k :: m < k <= n ==> pid in states[k].instances
    ensures states[n].instances[pid].registeredAt == LastRegistration(states, acts, pid, m, n)
    decreases n
  {
    var a := acts[n - 1];
    if n > m + 1 {
      RegisteredSince(states, acts, pid, m, n - 1);
    }
    assert Step(states[n - 1], a, states[n]);
  }

  lemma SparedSplit(states: seq<State>, acts: seq<Action>, pid: nat, m: nat, n: nat)
    requires m + 1 < n <= |acts| < |states|
    ensures SparedUntil(states, acts, pid, m, n) <==>
            && SparedUntil(states, acts, pid, m, n - 1)
            && Spares(states[n - 1], acts[n - 1], pid, LastBeat(states, acts, pid, m, n - 1))
  {
    if SparedUntil(states, acts, pid, m, n) {
      var a := acts[n - 1];
    }
  }

  // ---------------------------------------------------------------- the object

  /** The ghost `world` adds the clock, the monitor's position and the history to the object's two fields. */
  class EdbRegistry {
    var instances: map<nat, Instance>
    var graceStart: Option<nat>
    const gracePeriod: nat
    const heartbeatInterval: nat
    ghost var world: State

    ghost predicate Valid()
      reads this
    {
      && world.instances == instances && world.graceStart == graceStart
      && world.gracePeriod == gracePeriod && world.interval == heartbeatInterval
    }

    constructor (gracePeriod: nat, heartbeatInterval: nat, ghost now: nat)
      ensures Valid() && world == Initial(gracePeriod, heartbeatInterval, now)
    {
      this.gracePeriod, this.heartbeatInterval := gracePeriod, heartbeatInterval;
      instances, graceStart := map[], None;
      world := Initial(gracePeriod, heartbeatInterval, now);
    }

    method RegisterEdbInstance(pid: nat, now: nat)
      requires Valid() && now == world.clock
      modifies this
      ensures Valid() && world == RegisterCancelSpec(RegisterInsertSpec(old(world), pid))
      ensures instances == old(instances)[pid := Instance(now, now)] && graceStart == None
    {
      world := RegisterCancelSpec(RegisterInsertSpec(world, pid));
      instances := instances[pid := Instance(now, now)];
      if graceStart.Some? {
        graceStart := None;
      }
    }

    /** The registration time, or nothing for an unknown process. */
    method Beat(pid: nat, now: nat) returns (registeredAt: Option<nat>)
      requires Valid() && now == world.clock
      modifies this
      ensures Valid() && world == HeartbeatSpec(old(world), pid)
      ensures registeredAt == if pid in old(instances) then Some(old(instances)[pid].registeredAt) else None
      ensures registeredAt.None? ==> instances == old(instances)
      ensures registeredAt.Some? ==> instances == old(instances)[pid := Instance(registeredAt.value, now)]
    {
      world := HeartbeatSpec(world, pid);
      if pid in instances {
        instances := instances[pid := instances[pid].(lastHeartbeat := now)];
        registeredAt := Some(instances[pid].registeredAt);
      } else {
        registeredAt := None;
      }
    }

    /** One round of the monitor, uninterrupted. */
    method MonitorTick(now: nat, running: set<nat>) returns (shutdown: bool)
      requires Valid() && now == world.clock
      modifies this
      ensures Valid() && world == GraceSpec(CheckSpec(PruneSpec(old(world), running)))
      ensures shutdown <==> world.signals != old(world.signals)
      ensures forall pid :: pid in instances <==>
                pid in old(instances) && Survives(old(instances)[pid], pid, now, running)
      ensures instances != map[] ==> !shutdown && graceStart == old(graceStart)
      ensures instances == map[] ==> graceStart == Some(if old(graceStart).Some? then old(graceStart).value else now)
      ensures shutdown <==>
              && (forall pid :: pid in old(instances) ==> !Survives(old(instances)[pid], pid, now, running))
              && 0 < gracePeriod && old(graceStart).Some? && now - old(graceStart).value >= gracePeriod
    {
      world := GraceSpec(CheckSpec(PruneSpec(world, running)));
      PruneDead(now, running);
      shutdown := false;
      assert forall pid :: pid in instances <==>
               pid in old(instances) && Survives(old(instances)[pid], pid, now, running);
      if instances == map[] {
        if graceStart.None? {
          graceStart := Some(now);
        }
        if gracePeriod > 0 && now - graceStart.value >= gracePeriod {
          shutdown := true;
        }
      }
    }

    /** The process runs and its last beat is at most three intervals ago. */
    predicate Survives(i: Instance, pid: nat, now: nat, running: set<nat>) {
      pid in running && now <= i.lastHeartbeat + 3 * heartbeatInterval
    }

    method PruneDead(now: nat, running: set<nat>)
      modifies this`instances
      ensures instances == Surviving(old(instances), now, 3 * heartbeatInterval, running)
    {
      var timeout := heartbeatInterval * 3;
      var dead := set pid | pid in instances && (!IsAlive(instances[pid], now, timeout) || pid !in running);
      var rest := dead;
      ghost var before := instances;
      while rest != {}
        invariant rest <= dead
        invariant instances == before - (dead - rest)
      {
        var pid :| pid in rest;
        assert before - (dead - rest) - {pid} == before - (dead - (rest - {pid}));
        instances := instances - {pid};
        rest := rest - {pid};
      }
      assert dead - {} == dead;
    }

    /** The instances that a pruning at this moment would keep. */
    method GetActiveInstances(now: nat, running: set<nat>) returns (pids: set<nat>)
      ensures pids == Surviving(instances, now, 3 * heartbeatInterval, running).Keys
    {
      pids := set pid | pid in instances && IsAlive(instances[pid], now, heartbeatInterval * 3) && pid in running;
    }
  }
}
