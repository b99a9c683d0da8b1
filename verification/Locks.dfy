/** The spinlock and the futex lock, each protecting a counter that every thread
    increments a fixed number of times with a separate load and store.

    The shared word is only touched by a compare-and-swap 0 -> 1, by an atomic
    compare-and-sleep (FUTEX_WAIT with value 1), by a store of 0, and by a wake-one.
    Each of them is one step; the scheduler interleaves the steps of any number of
    threads, chooses whom a wake reaches, and may wake a sleeper unasked a bounded
    number of times. */
module Locks {
  import opened Options
  import opened Sums

  datatype Kind = Spin | Futex

  datatype Config = Config(kind: Kind, threads: nat, rounds: nat)

  /** `left` counts the rounds a thread still has to finish, the current one included. */
  datatype Point =
    | Try(left: nat)               // about to compare-and-swap
    | Backoff(left: nat)           // it failed: about to yield (spin) or to FUTEX_WAIT (futex)
    | Asleep(left: nat)
    | Load(left: nat)              // has the lock: about to load the counter
    | Store(left: nat, seen: nat)  // has the lock: about to store `seen + 1`
    | Release(left: nat)           // has the lock: about to store 0 to the word
    | Wake(left: nat)              // word is stored: about to FUTEX_WAKE one
    | Done

  /** `holder` is a history: the thread whose compare-and-swap succeeded last, until
      it stores 0. */
  datatype State = State(word: nat, counter: nat, points: seq<Point>, spurious: nat, holder: Option<nat>)

  datatype Action = Run(thread: nat, wakee: nat) | Spurious(thread: nat)

  function Next(left: nat): Point {
    if left == 0 then Done else Try(left)
  }

  ghost predicate Init(c: Config, s: State) {
    && s.word == 0 && s.counter == 0 && s.holder == None
    && s.points == seq(c.threads, _ => Next(c.rounds))
  }

  predicate SomeAsleep(points: seq<Point>) {
    exists t :: 0 <= t < |points| && points[t].Asleep?
  }

  predicate WakeAllowed(points: seq<Point>, wakee: nat) {
    SomeAsleep(points) ==> wakee < |points| && points[wakee].Asleep?
  }

  /** FUTEX_WAKE with value 1. */
  function WakeOne(points: seq<Point>, wakee: nat): (r: seq<Point>)
    ensures |r| == |points|
  {
    if wakee < |points| && points[wakee].Asleep? then points[wakee := Try(points[wakee].left)] else points
  }

  predicate Enabled(s: State, a: Action) {
    && a.thread < |s.points|
    && match a
       case Spurious(t) => s.points[t].Asleep? && s.spurious > 0
       case Run(t, wakee) =>
         && !s.points[t].Asleep? && !s.points[t].Done?
         && (s.points[t].Wake? ==> WakeAllowed(s.points, wakee))
  }

  function Exec(c: Config, s: State, a: Action): State
    requires Enabled(s, a)
  {
    match a
    case Spurious(t) => s.(points := s.points[t := Try(s.points[t].left)], spurious := s.spurious - 1)
    case Run(t, wakee) =>
      match s.points[t]
      case Try(l) =>
        if s.word == 0 then s.(word := 1, points := s.points[t := Load(l)], holder := Some(t))
        else s.(points := s.points[t := Backoff(l)])
      case Backoff(l) =>
        if c.kind.Futex? && s.word == 1 then s.(points := s.points[t := Asleep(l)])
        else s.(points := s.points[t := Try(l)])
      case Load(l) => s.(points := s.points[t := Store(l, s.counter)])
      case Store(l, seen) => s.(counter := seen + 1, points := s.points[t := Release(l)])
      case Release(l) =>
        s.(word := 0, holder := None,
           points := s.points[t := if c.kind.Futex? then Wake(l) else Next(if l == 0 then 0 else l - 1)])
      case Wake(l) => s.(points := WakeOne(s.points, wakee)[t := Next(if l == 0 then 0 else l - 1)])
  }

  ghost predicate Trace(c: Config, s0: State, run: seq<Action>, s: State)
    decreases |run|
  {
    if run == [] then s == s0
    else Enabled(s0, run[0]) && Trace(c, Exec(c, s0, run[0]), run[1..], s)
  }

  // ------------------------------------------------------------------- safety

  predicate Critical(p: Point) {
    p.Load? || p.Store? || p.Release?
  }

  /** Increments a thread has still to store. */
  function Remaining(p: Point): nat {
    match p
    case Done => 0
    case Release(l) => if l == 0 then 0 else l - 1
    case Wake(l) => if l == 0 then 0 else l - 1
    case _ => p.left
  }

  ghost predicate PointOk(c: Config, s: State, t: nat)
    requires t < |s.points|
  {
    var p := s.points[t];
    && (Critical(p) <==> s.holder == Some(t))
    && (!p.Done? ==> p.left >= 1)
    && (p.Store? ==> p.seen == s.counter)
    && (c.kind.Spin? ==> !p.Asleep? && !p.Wake?)
  }

  predicate Waking(p: Point) { p.Wake? }

  predicate Contending(p: Point) { p.Try? || p.Backoff? }

  ghost predicate SomeoneComing(s: State) {
    exists t :: 0 <= t < |s.points| && (Waking(s.points[t]) || Contending(s.points[t]))
  }

  ghost predicate Inv(c: Config, s: State) {
    && |s.points| == c.threads
    && s.word == (if s.holder.Some? then 1 else 0)
    && (s.holder.Some? ==> s.holder.value < |s.points|)
    && (forall t :: 0 <= t < |s.points| ==> PointOk(c, s, t))
    && (s.word == 0 && SomeAsleep(s.points) ==> SomeoneComing(s))
    && s.counter + Sum(s.points, Remaining) == c.rounds * c.threads
  }

  lemma InitInv(c: Config, s: State)
    requires Init(c, s)
    ensures Inv(c, s)
  {
    SumConstant(s.points, Remaining, c.rounds);
  }

  lemma PointsKept(c: Config, s: State, a: Action)
    requires Inv(c, s) && Enabled(s, a)
    ensures var s' := Exec(c, s, a); |s'.points| == |s.points| && forall t :: 0 <= t < |s.points| ==> PointOk(c, s', t)
  {
    var s' := Exec(c, s, a);
    assert PointOk(c, s, a.thread);
    forall t | 0 <= t < |s.points|
      ensures PointOk(c, s', t)
    {
      assert PointOk(c, s, t);
    }
  }

  lemma WakeOneRemaining(points: seq<Point>, wakee: nat)
    ensures Sum(WakeOne(points, wakee), Remaining) == Sum(points, Remaining)
  {
    if WakeOne(points, wakee) != points {
      SumUpdate(points, wakee, Try(points[wakee].left), Remaining);
    }
  }

  lemma WakeKeepsCount(c: Config, s: State, t: nat, wakee: nat)
    requires Enabled(s, Run(t, wakee)) && s.points[t].Wake?
    ensures Sum(Exec(c, s, Run(t, wakee)).points, Remaining) == Sum(s.points, Remaining)
  {
    WakeOneRemaining(s.points, wakee);
    SumUpdate(WakeOne(s.points, wakee), t, Exec(c, s, Run(t, wakee)).points[t], Remaining);
  }

  lemma {:induction false} CountKept(c: Config, s: State, a: Action)
    requires Enabled(s, a) && PointOk(c, s, a.thread)
    ensures var s' := Exec(c, s, a); s'.counter + Sum(s'.points, Remaining) == s.counter + Sum(s.points, Remaining)
  {
    var s' := Exec(c, s, a);
    var t := a.thread;
    if a.Run? && s.points[t].Wake? {
      WakeKeepsCount(c, s, t, a.wakee);
    } else {
      SumUpdate(s.points, t, s'.points[t], Remaining);
      assert Remaining(s'.points[t]) + s'.counter == Remaining(s.points[t]) + s.counter;
    }
  }

  lemma ComingKept(c: Config, s: State, a: Action)
    requires Inv(c, s) && Enabled(s, a)
    ensures var s' := Exec(c, s, a); s'.word == 0 && SomeAsleep(s'.points) ==> SomeoneComing(s')
  {
    var s' := Exec(c, s, a);
    var t := a.thread;
    assert PointOk(c, s, t);
    if s'.word == 0 && SomeAsleep(s'.points) {
      var u :| 0 <= u < |s'.points| && s'.points[u].Asleep?;
      if a.Spurious? || s.points[t].Backoff? {
        assert Contending(s'.points[t]);
      } else if s.points[t].Wake? {
        assert s.points[u].Asleep?;
        assert Contending(s'.points[a.wakee]);
      } else if s.points[t].Release? {
        assert PointOk(c, s, u);
        assert Waking(s'.points[t]);
      }
    }
  }

  lemma InvKept(c: Config, s: State, a: Action)
    requires Inv(c, s) && Enabled(s, a)
    ensures Inv(c, Exec(c, s, a))
  {
    assert PointOk(c, s, a.thread);
    PointsKept(c, s, a);
    CountKept(c, s, a);
    ComingKept(c, s, a);
  }

  lemma {:induction false} TraceInv(c: Config, s0: State, run: seq<Action>, s: State)
    requires Inv(c, s0) && Trace(c, s0, run, s)
    ensures Inv(c, s)
    decreases |run|
  {
    if run != [] {
      InvKept(c, s0, run[0]);
      TraceInv(c, Exec(c, s0, run[0]), run[1..], s);
    }
  }

  /** The word is 1 exactly while one thread is between its compare-and-swap and its
      store of 0; there are never two. */
  lemma {:induction false} WordMeansHeld(c: Config, s0: State, run: seq<Action>, s: State)
    requires Init(c, s0) && Trace(c, s0, run, s)
    ensures s.word <= 1
    ensures s.word == 1 <==> exists t :: 0 <= t < |s.points| && Critical(s.points[t])
    ensures forall t, u :: 0 <= t < |s.points| && 0 <= u < |s.points| ==>
      Critical(s.points[t]) && Critical(s.points[u]) ==> t == u
  {
    InitInv(c, s0);
    TraceInv(c, s0, run, s);
    forall t | 0 <= t < |s.points|
      ensures Critical(s.points[t]) <==> s.holder == Some(t)
    {
      assert PointOk(c, s, t);
    }
  }

  /** The lock both implementations stand for: acquiring needs it free, releasing
      needs it held by the releaser, and each takes one indivisible step. */
  datatype AtomicStep = Acquire | ReleaseLock | Stutter

  predicate AtomicAllows(before: Option<nat>, step: AtomicStep, t: nat, after: Option<nat>) {
    match step
    case Acquire => before == None && after == Some(t)
    case ReleaseLock => before == Some(t) && after == None
    case Stutter => after == before
  }

  function StepKind(s: State, a: Action): AtomicStep
    requires Enabled(s, a)
  {
    if a.Run? && s.points[a.thread].Try? && s.word == 0 then Acquire
    else if a.Run? && s.points[a.thread].Release? then ReleaseLock
    else Stutter
  }

  /** The thread in its critical section, if any. */
  ghost predicate HeldBy(s: State, holder: Option<nat>) {
    && (holder.Some? ==> holder.value < |s.points|)
    && (forall t :: 0 <= t < |s.points| ==> (Critical(s.points[t]) <==> holder == Some(t)))
  }

  /** Every step of either lock is a step of the atomic lock, seen through which
      thread is in its critical section. */
  lemma {:induction false} RefinesAtomicLock(c: Config, s0: State, run: seq<Action>, s: State, a: Action)
    requires Init(c, s0) && Trace(c, s0, run, s) && Enabled(s, a)
    ensures exists before, after :: HeldBy(s, before) && HeldBy(Exec(c, s, a), after)
                                    && AtomicAllows(before, StepKind(s, a), a.thread, after)
  {
    InitInv(c, s0);
    TraceInv(c, s0, run, s);
    InvKept(c, s, a);
    var s' := Exec(c, s, a);
    forall t | 0 <= t < |s.points|
      ensures Critical(s.points[t]) <==> s.holder == Some(t)
      ensures Critical(s'.points[t]) <==> s'.holder == Some(t)
    {
      assert PointOk(c, s, t) && PointOk(c, s', t);
    }
    assert HeldBy(s, s.holder) && HeldBy(s', s'.holder);
    assert AtomicAllows(s.holder, StepKind(s, a), a.thread, s'.holder);
  }

  ghost predicate AllDone(s: State) {
    forall t :: 0 <= t < |s.points| ==> s.points[t].Done?
  }

  /** No increment is lost: the counter plus the increments still to be stored is
      always threads * rounds, so that is where every complete run ends. */
  lemma {:induction false} ExactCount(c: Config, s0: State, run: seq<Action>, s: State)
    requires Init(c, s0) && Trace(c, s0, run, s)
    ensures s.counter + Sum(s.points, Remaining) == c.rounds * c.threads
    ensures AllDone(s) ==> s.counter == c.rounds * c.threads
  {
    InitInv(c, s0);
    TraceInv(c, s0, run, s);
    if AllDone(s) {
      SumConstant(s.points, Remaining, 0);
    }
  }

  /** No sleeper is stranded: with the word free and a thread asleep, some unlocker is
      between its store and its wake, or some awake thread is inside the lock loop. */
  lemma {:induction false} NoSleeperStranded(c: Config, s0: State, run: seq<Action>, s: State)
    requires Init(c, s0) && Trace(c, s0, run, s) && SomeAsleep(s.points) && s.word == 0
    ensures exists t :: 0 <= t < |s.points| && (s.points[t].Wake? || s.points[t].Try? || s.points[t].Backoff?)
  {
    InitInv(c, s0);
    TraceInv(c, s0, run, s);
    assert SomeoneComing(s);
    var t :| 0 <= t < |s.points| && (Waking(s.points[t]) || Contending(s.points[t]));
  }

  /** Unasked wakeups do happen in the model: a waiter may be back at its compare-and-swap
      while the lock is still held. */
  lemma {:induction false} WakesWhileHeld(c: Config, s0: State)
    requires Init(c, s0) && c.kind.Futex? && c.threads >= 2 && c.rounds >= 1 && s0.spurious >= 1
    ensures exists s ::
      && Trace(c, s0, [Run(0, 0), Run(1, 0), Run(1, 0), Spurious(1)], s)
      && s.word == 1 && s.holder == Some(0) && |s.points| > 1 && s.points[1] == Try(c.rounds)
  {
    var s1 := Exec(c, s0, Run(0, 0));
    var s2 := Exec(c, s1, Run(1, 0));
    var s3 := Exec(c, s2, Run(1, 0));
    var s4 := Exec(c, s3, Spurious(1));
    var r3 := [Spurious(1)];
    var r2 := [Run(1, 0), Spurious(1)];
    var r1 := [Run(1, 0), Run(1, 0), Spurious(1)];
    var r0 := [Run(0, 0), Run(1, 0), Run(1, 0), Spurious(1)];
    assert r3[1..] == [] && r2[1..] == r3 && r1[1..] == r2 && r0[1..] == r1;
    assert Trace(c, s4, [], s4);
    assert Trace(c, s3, r3, s4);
    assert Trace(c, s2, r2, s4);
    assert Trace(c, s1, r1, s4);
    assert Trace(c, s0, r0, s4);
  }
}
