/** Runs of a step system, and the principle that what every step keeps holds throughout. */
module Runs {

  ghost predicate Run<S(!new), A(!new)>(step: (S, A, S) -> bool, states: seq<S>, acts: seq<A>) {
    && |states| == |acts| + 1
    && forall i {:trigger acts[i]} :: 0 <= i < |acts| ==> step(states[i], acts[i], states[i + 1])
  }

  ghost predicate Kept<S(!new), A(!new)>(step: (S, A, S) -> bool, inv: S -> bool) {
    forall s, a, t :: inv(s) && step(s, a, t) ==> inv(t)
  }

  lemma {:induction false} Invariant<S(!new), A(!new)>(
    step: (S, A, S) -> bool, inv: S -> bool, states: seq<S>, acts: seq<A>, n: nat)
    requires Run(step, states, acts) && Kept(step, inv) && inv(states[0]) && n <= |acts|
    ensures inv(states[n])
    decreases n
  {
    if n > 0 {
      Invariant(step, inv, states, acts, n - 1);
      var a := acts[n - 1];
      assert step(states[n - 1], a, states[n]);
    }
  }

  /** Where a step from a good state leads to a bad one exactly when it is a slip, a run stays good
      exactly when it has no slip. */
  lemma {:induction false} KeptExactly<S(!new), A(!new)>(
    step: (S, A, S) -> bool, inv: S -> bool, slip: (S, A) -> bool, states: seq<S>, acts: seq<A>, n: nat)
    requires Run(step, states, acts) && inv(states[0]) && n <= |acts|
    requires forall s, a, t :: inv(s) && step(s, a, t) ==> (inv(t) <==> !slip(s, a))
    ensures (forall k :: 0 <= k <= n ==> inv(states[k])) <==> (forall k :: 0 <= k < n ==> !slip(states[k], acts[k]))
    decreases n
  {
    if n > 0 {
      KeptExactly(step, inv, slip, states, acts, n - 1);
      var a := acts[n - 1];
      assert step(states[n - 1], a, states[n]);
    }
  }

  /** The first steps of a run are a run. */
  lemma Prefix<S(!new), A(!new)>(step: (S, A, S) -> bool, states: seq<S>, acts: seq<A>, n: nat)
    requires Run(step, states, acts) && n <= |acts|
    ensures Run(step, states[..n + 1], acts[..n])
  {
    forall i | 0 <= i < n ensures step(states[..n + 1][i], acts[..n][i], states[..n + 1][i + 1]) {
      var a := acts[i];
    }
  }

  /** So are the last ones. */
  lemma Suffix<S(!new), A(!new)>(step: (S, A, S) -> bool, states: seq<S>, acts: seq<A>, n: nat)
    requires Run(step, states, acts) && n <= |acts|
    ensures Run(step, states[n..], acts[n..])
  {
    forall i | 0 <= i < |acts| - n ensures step(states[n..][i], acts[n..][i], states[n..][i + 1]) {
      var a := acts[n + i];
    }
  }

  lemma Extend<S(!new), A(!new)>(step: (S, A, S) -> bool, states: seq<S>, acts: seq<A>, a: A, t: S)
    requires Run(step, states, acts) && step(states[|acts|], a, t)
    ensures Run(step, states + [t], acts + [a])
  {
    var states', acts' := states + [t], acts + [a];
    forall i | 0 <= i < |acts'| ensures step(states'[i], acts'[i], states'[i + 1]) {
      if i < |acts| {
        var b := acts[i];
      }
    }
  }

  lemma ExtendTwice<S(!new), A(!new)>(
    step: (S, A, S) -> bool, states: seq<S>, acts: seq<A>, a: A, t: S, b: A, u: S)
    requires Run(step, states, acts) && step(states[|acts|], a, t) && step(t, b, u)
    ensures Run(step, states + [t, u], acts + [a, b]) && (states + [t, u])[|acts| + 2] == u
  {
    Extend(step, states, acts, a, t);
    Extend(step, states + [t], acts + [a], b, u);
    assert states + [t] + [u] == states + [t, u] && acts + [a] + [b] == acts + [a, b];
  }

  lemma Join<S(!new), A(!new)>(step: (S, A, S) -> bool, ss: seq<S>, xs: seq<A>, ts: seq<S>, ys: seq<A>)
    requires Run(step, ss, xs) && Run(step, ts, ys) && ss[|xs|] == ts[0]
    ensures Run(step, ss + ts[1..], xs + ys) && (ss + ts[1..])[|xs| + |ys|] == ts[|ys|]
  {
    var states, acts := ss + ts[1..], xs + ys;
    forall i | 0 <= i < |acts| ensures step(states[i], acts[i], states[i + 1]) {
      if i < |xs| {
        var a := xs[i];
      } else {
        var a := ys[i - |xs|];
      }
    }
  }
}
