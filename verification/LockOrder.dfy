/** The global lock order rule: any number of threads, each with its own straight-line
    program of lock and unlock calls over any number of mutexes. Mutexes are numbered
    by their place in the order. */
module LockOrder {

  datatype Op = Lock(mutex: nat) | Unlock(mutex: nat)

  type Programs = seq<seq<Op>>

  /** `owner` maps each locked mutex to the thread that locked it. */
  datatype State = State(pcs: seq<nat>, owner: map<nat, nat>)

  function Init(ps: Programs): State {
    State(seq(|ps|, _ => 0), map[])
  }

  predicate Finished(ps: Programs, s: State, t: nat)
    requires |s.pcs| == |ps| && t < |ps|
  {
    s.pcs[t] >= |ps[t]|
  }

  predicate Enabled(ps: Programs, s: State, t: nat) {
    && |s.pcs| == |ps| && t < |ps| && !Finished(ps, s, t)
    && (ps[t][s.pcs[t]].Lock? ==> ps[t][s.pcs[t]].mutex !in s.owner)
  }

  function Exec(ps: Programs, s: State, t: nat): State
    requires Enabled(ps, s, t)
  {
    var pcs := s.pcs[t := s.pcs[t] + 1];
    match ps[t][s.pcs[t]]
    case Lock(m) => State(pcs, s.owner[m := t])
    case Unlock(m) => State(pcs, s.owner - {m})
  }

  ghost predicate Trace(ps: Programs, s0: State, schedule: seq<nat>, s: State)
    decreases |schedule|
  {
    if schedule == [] then s == s0
    else Enabled(ps, s0, schedule[0]) && Trace(ps, Exec(ps, s0, schedule[0]), schedule[1..], s)
  }

  /** What a thread holds after the first `k` calls of its program. */
  function Held(p: seq<Op>, k: nat): set<nat>
    requires k <= |p|
  {
    if k == 0 then {}
    else match p[k - 1]
      case Lock(m) => Held(p, k - 1) + {m}
      case Unlock(m) => Held(p, k - 1) - {m}
  }

  /** The rule, with the usual discipline: lock only above everything held, unlock only
      what is held, keep nothing at the end. */
  ghost predicate Ordered(p: seq<Op>) {
    && (forall k, h {:trigger p[k], h in Held(p, k)} ::
          0 <= k < |p| && p[k].Lock? && h in Held(p, k) ==> h < p[k].mutex)
    && (forall k :: 0 <= k < |p| && p[k].Unlock? ==> p[k].mutex in Held(p, k))
    && Held(p, |p|) == {}
  }

  ghost predicate AllOrdered(ps: Programs) {
    forall t :: 0 <= t < |ps| ==> Ordered(ps[t])
  }

  /** What thread `u` holds is what it is recorded to own. */
  ghost predicate HeldIsOwned(ps: Programs, s: State, u: nat, m: nat)
    requires u < |ps| && |s.pcs| == |ps| && s.pcs[u] <= |ps[u]|
  {
    m in Held(ps[u], s.pcs[u]) <==> m in s.owner && s.owner[m] == u
  }

  ghost predicate Inv(ps: Programs, s: State) {
    && |s.pcs| == |ps|
    && (forall t :: 0 <= t < |ps| ==> s.pcs[t] <= |ps[t]|)
    && (forall m :: m in s.owner ==> s.owner[m] < |ps|)
    && (forall t, m :: 0 <= t < |ps| ==> HeldIsOwned(ps, s, t, m))
  }

  lemma LockKeepsHeld(ps: Programs, s: State, t: nat, u: nat, m: nat)
    requires Enabled(ps, s, t) && ps[t][s.pcs[t]].Lock? && u < |ps| && s.pcs[u] <= |ps[u]|
    requires HeldIsOwned(ps, s, u, m)
    ensures HeldIsOwned(ps, Exec(ps, s, t), u, m)
  {
  }

  lemma UnlockKeepsHeld(ps: Programs, s: State, t: nat, u: nat, m: nat)
    requires Enabled(ps, s, t) && ps[t][s.pcs[t]].Unlock? && u < |ps| && s.pcs[u] <= |ps[u]|
    requires var w := ps[t][s.pcs[t]].mutex; w in s.owner && s.owner[w] == t
    requires HeldIsOwned(ps, s, u, m)
    ensures HeldIsOwned(ps, Exec(ps, s, t), u, m)
  {
  }

  lemma InvKept(ps: Programs, s: State, t: nat)
    requires AllOrdered(ps) && Inv(ps, s) && Enabled(ps, s, t)
    ensures Inv(ps, Exec(ps, s, t))
  {
    var s' := Exec(ps, s, t);
    var op := ps[t][s.pcs[t]];
    if op.Unlock? {
      assert Ordered(ps[t]) && HeldIsOwned(ps, s, t, op.mutex);
    }
    forall u, m | 0 <= u < |ps|
      ensures HeldIsOwned(ps, s', u, m)
    {
      assert HeldIsOwned(ps, s, u, m);
      if op.Lock? {
        LockKeepsHeld(ps, s, t, u, m);
      } else {
        UnlockKeepsHeld(ps, s, t, u, m);
      }
    }
  }

  lemma {:induction false} TraceInv(ps: Programs, s0: State, schedule: seq<nat>, s: State)
    requires AllOrdered(ps) && Inv(ps, s0) && Trace(ps, s0, schedule, s)
    ensures Inv(ps, s)
    decreases |schedule|
  {
    if schedule != [] {
      InvKept(ps, s0, schedule[0]);
      TraceInv(ps, Exec(ps, s0, schedule[0]), schedule[1..], s);
    }
  }

  /** `t` cannot go on until `u` unlocks what `t` wants. */
  predicate WaitsFor(ps: Programs, s: State, t: nat, u: nat) {
    && |s.pcs| == |ps| && t < |ps| && !Finished(ps, s, t)
    && ps[t][s.pcs[t]].Lock?
    && ps[t][s.pcs[t]].mutex in s.owner && s.owner[ps[t][s.pcs[t]].mutex] == u
  }

  function Wanted(ps: Programs, s: State, t: nat): nat
    requires |s.pcs| == |ps| && t < |ps| && !Finished(ps, s, t)
  {
    ps[t][s.pcs[t]].mutex
  }

  /** Whoever is waited for and waits itself wants a higher mutex. */
  lemma WaitClimbs(ps: Programs, s: State, t: nat, u: nat, v: nat)
    requires AllOrdered(ps) && Inv(ps, s) && WaitsFor(ps, s, t, u) && WaitsFor(ps, s, u, v)
    ensures Wanted(ps, s, t) < Wanted(ps, s, u)
  {
    assert Ordered(ps[u]) && HeldIsOwned(ps, s, u, Wanted(ps, s, t));
    assert Wanted(ps, s, t) in Held(ps[u], s.pcs[u]);
  }

  ghost predicate WaitChain(ps: Programs, s: State, chain: seq<nat>) {
    forall i :: 0 <= i < |chain| - 1 ==> WaitsFor(ps, s, chain[i], chain[i + 1])
  }

  lemma {:induction false} ChainClimbs(ps: Programs, s: State, chain: seq<nat>, next: nat)
    requires AllOrdered(ps) && Inv(ps, s) && |chain| >= 2 && WaitChain(ps, s, chain)
    requires WaitsFor(ps, s, chain[|chain| - 1], next)
    ensures WaitsFor(ps, s, chain[0], chain[1])
    ensures Wanted(ps, s, chain[0]) < Wanted(ps, s, chain[|chain| - 1])
    decreases |chain|
  {
    var n := |chain|;
    WaitClimbs(ps, s, chain[n - 2], chain[n - 1], next);
    if n > 2 {
      var shorter := chain[..n - 1];
      assert WaitChain(ps, s, shorter);
      ChainClimbs(ps, s, shorter, chain[n - 1]);
    }
  }

  /** No wait cycle, of any length, in any reachable state. */
  lemma {:induction false} NoWaitCycle(ps: Programs, schedule: seq<nat>, s: State, cycle: seq<nat>)
    requires AllOrdered(ps) && Trace(ps, Init(ps), schedule, s)
    requires cycle != []
    ensures !(WaitChain(ps, s, cycle) && WaitsFor(ps, s, cycle[|cycle| - 1], cycle[0]))
  {
    TraceInv(ps, Init(ps), schedule, s);
    if WaitChain(ps, s, cycle) && WaitsFor(ps, s, cycle[|cycle| - 1], cycle[0]) {
      if |cycle| == 1 {
        WaitClimbs(ps, s, cycle[0], cycle[0], cycle[0]);
      } else {
        ChainClimbs(ps, s, cycle, cycle[0]);
        WaitClimbs(ps, s, cycle[|cycle| - 1], cycle[0], cycle[1]);
      }
    }
  }

  ghost predicate AllFinished(ps: Programs, s: State)
    requires |s.pcs| == |ps|
  {
    forall t :: 0 <= t < |ps| ==> Finished(ps, s, t)
  }

  function Above(s: State, mutex: nat): set<nat> {
    set m | m in s.owner && m > mutex
  }

  /** A blocked thread waits for an unfinished one; if that one is blocked too it wants
      a mutex further up, and fewer locked ones are left above it. */
  lemma OneWaitUp(ps: Programs, s: State, t: nat) returns (v: nat)
    requires AllOrdered(ps) && Inv(ps, s) && t < |ps| && !Finished(ps, s, t) && !Enabled(ps, s, t)
    ensures v < |ps| && !Finished(ps, s, v)
    ensures !Enabled(ps, s, v) ==> Above(s, Wanted(ps, s, v)) < Above(s, Wanted(ps, s, t))
  {
    v := s.owner[Wanted(ps, s, t)];
    assert WaitsFor(ps, s, t, v);
    assert HeldIsOwned(ps, s, v, Wanted(ps, s, t));
    assert Ordered(ps[v]);
    if !Enabled(ps, s, v) {
      WaitClimbs(ps, s, t, v, s.owner[Wanted(ps, s, v)]);
      assert Wanted(ps, s, v) in Above(s, Wanted(ps, s, t));
      assert Wanted(ps, s, v) !in Above(s, Wanted(ps, s, v));
    }
  }

  /** Following the waits ends at a thread that can step. */
  lemma {:induction false} FollowWaits(ps: Programs, s: State, t: nat) returns (u: nat)
    requires AllOrdered(ps) && Inv(ps, s) && t < |ps| && !Finished(ps, s, t)
    ensures Enabled(ps, s, u)
    decreases Above(s, Wanted(ps, s, t))
  {
    if Enabled(ps, s, t) {
      u := t;
    } else {
      u := OneWaitUp(ps, s, t);
      if !Enabled(ps, s, u) {
        u := FollowWaits(ps, s, u);
      }
    }
  }

  /** Under the rule no reachable state is stuck: while a thread is unfinished, some
      unfinished thread can step. */
  lemma {:induction false} OrderedNeverStuck(ps: Programs, schedule: seq<nat>, s: State)
    requires AllOrdered(ps) && Trace(ps, Init(ps), schedule, s)
    ensures |s.pcs| == |ps|
    ensures !AllFinished(ps, s) ==> exists t: nat :: Enabled(ps, s, t)
  {
    TraceInv(ps, Init(ps), schedule, s);
    if !AllFinished(ps, s) {
      var t :| 0 <= t < |ps| && !Finished(ps, s, t);
      var u := FollowWaits(ps, s, t);
    }
  }

  /** Without the rule it fails: one thread takes 0 then 1, the other 1 then 0. After a
      step of each, both wait for the other for ever. */
  lemma {:induction false} OppositeOrdersDeadlock()
    ensures var ps := [[Lock(0), Lock(1), Unlock(1), Unlock(0)], [Lock(1), Lock(0), Unlock(0), Unlock(1)]];
      exists schedule, s :: Trace(ps, Init(ps), schedule, s) && WaitsFor(ps, s, 0, 1) && WaitsFor(ps, s, 1, 0)
                            && forall t: nat :: !Enabled(ps, s, t)
  {
    var ps := [[Lock(0), Lock(1), Unlock(1), Unlock(0)], [Lock(1), Lock(0), Unlock(0), Unlock(1)]];
    var s1 := Exec(ps, Init(ps), 0);
    var s2 := Exec(ps, s1, 1);
    assert [0, 1][1..] == [1];
    assert [1][1..] == [];
    assert Trace(ps, s2, [], s2);
    assert Trace(ps, s1, [1], s2);
    assert Trace(ps, Init(ps), [0, 1], s2);
    assert s2.pcs == [1, 1] && s2.owner == map[0 := 0, 1 := 1];
  }
}
