/** Progress of the two locks. Both can always be driven to completion from any
    reachable state. The futex lock needs no help from the scheduler: every schedule
    with finitely many unasked wakeups ends. The spinlock does need it: a scheduler
    that keeps running a spinner goes on for ever. */
module LockProgress {
  import opened Options
  import opened Sums
  import opened Locks

  // ------------------------------------- from every reachable state there is a way to the end

  /** Steps to the end along the best schedule. */
  function Distance(p: Point): nat {
    match p
    case Asleep(l) => 5 * l + 1
    case Backoff(l) => 5 * l + 1
    case Try(l) => 5 * l
    case Load(l) => if l == 0 then 0 else 5 * l - 1
    case Store(l, _) => if l == 0 then 0 else 5 * l - 2
    case Release(l) => if l == 0 then 0 else 5 * l - 3
    case Wake(l) => if l == 0 then 0 else 5 * l - 4
    case Done => 0
  }

  ghost predicate Closer(c: Config, s: State, a: Action)
    requires Enabled(s, a)
  {
    Sum(Exec(c, s, a).points, Distance) < Sum(s.points, Distance)
  }

  /** A step of `t` that does not wake anybody brings the end closer when `t`'s own
      distance shrinks. */
  lemma OwnStepCloser(c: Config, s: State, t: nat)
    requires Inv(c, s) && Enabled(s, Run(t, 0)) && !s.points[t].Wake?
    requires Critical(s.points[t]) || s.word == 0
    ensures Closer(c, s, Run(t, 0))
  {
    assert PointOk(c, s, t);
    SumUpdate(s.points, t, Exec(c, s, Run(t, 0)).points[t], Distance);
  }

  lemma WakeStepCloser(c: Config, s: State, t: nat, wakee: nat)
    requires Inv(c, s) && Enabled(s, Run(t, wakee)) && s.points[t].Wake?
    ensures Closer(c, s, Run(t, wakee))
  {
    assert PointOk(c, s, t);
    var woken := WakeOne(s.points, wakee);
    if woken != s.points {
      SumUpdate(s.points, wakee, woken[wakee], Distance);
    }
    SumUpdate(woken, t, Exec(c, s, Run(t, wakee)).points[t], Distance);
  }

  lemma SomeStepCloser(c: Config, s: State) returns (a: Action)
    requires Inv(c, s) && !AllDone(s)
    ensures a.Run? && Enabled(s, a) && Closer(c, s, a)
  {
    var waking := exists t :: 0 <= t < |s.points| && Waking(s.points[t]);
    if s.holder.Some? {
      a := Run(s.holder.value, 0);
      assert PointOk(c, s, s.holder.value);
      OwnStepCloser(c, s, s.holder.value);
    } else if waking {
      var t :| 0 <= t < |s.points| && Waking(s.points[t]);
      if SomeAsleep(s.points) {
        var w :| 0 <= w < |s.points| && s.points[w].Asleep?;
        a := Run(t, w);
      } else {
        a := Run(t, 0);
      }
      WakeStepCloser(c, s, t, a.wakee);
    } else {
      var t :| 0 <= t < |s.points| && !s.points[t].Done?;
      assert PointOk(c, s, t);
      if s.points[t].Asleep? {
        assert SomeoneComing(s);
        t :| 0 <= t < |s.points| && (Waking(s.points[t]) || Contending(s.points[t]));
      }
      a := Run(t, 0);
      OwnStepCloser(c, s, t);
    }
  }

  ghost predicate CanFinish(c: Config, s: State) {
    exists run, end :: Trace(c, s, run, end) && AllDone(end)
  }

  lemma {:induction false} InvCanFinish(c: Config, s: State)
    requires Inv(c, s)
    ensures CanFinish(c, s)
    decreases Sum(s.points, Distance)
  {
    if AllDone(s) {
      assert Trace(c, s, [], s);
    } else {
      var a := SomeStepCloser(c, s);
      InvKept(c, s, a);
      InvCanFinish(c, Exec(c, s, a));
      var run, end :| Trace(c, Exec(c, s, a), run, end) && AllDone(end);
      assert ([a] + run)[0] == a && ([a] + run)[1..] == run;
      assert Trace(c, s, [a] + run, end);
    }
  }

  /** No reachable state of either lock is a dead end. */
  lemma {:induction false} NeverDeadEnd(c: Config, s0: State, run: seq<Action>, s: State)
    requires Init(c, s0) && Trace(c, s0, run, s)
    ensures CanFinish(c, s)
  {
    InitInv(c, s0);
    TraceInv(c, s0, run, s);
    InvCanFinish(c, s);
  }

  // ------------------------------------------------------ the futex lock ends under every schedule

  /** What `left` rounds are worth. A round changes the word twice, each time setting
      every contender back by at most one, and wakes at most one sleeper. */
  function Rounds(c: Config, left: nat): nat {
    if left == 0 then 0 else Rounds(c, left - 1) + 2 * c.threads + 8
  }

  /** While the word is 1 a contender is on its way to sleep; while it is 0 it is on
      its way to the compare-and-swap. */
  function Weight(c: Config, word: nat, p: Point): nat {
    match p
    case Try(l) => Rounds(c, l) + (if word == 0 then 1 else 2)
    case Backoff(l) => Rounds(c, l) + (if word == 0 then 2 else 1)
    case Asleep(l) => Rounds(c, l)
    case Load(l) => if l == 0 then 0 else Rounds(c, l - 1) + c.threads + 8
    case Store(l, _) => if l == 0 then 0 else Rounds(c, l - 1) + c.threads + 7
    case Release(l) => if l == 0 then 0 else Rounds(c, l - 1) + c.threads + 6
    case Wake(l) => if l == 0 then 0 else Rounds(c, l - 1) + 5
    case Done => 0
  }

  function WeightIn(c: Config, word: nat): Point -> nat {
    p => Weight(c, word, p)
  }

  function Measure(c: Config, s: State): nat {
    Sum(s.points, WeightIn(c, s.word)) + 3 * s.spurious
  }

  /** Changing the word costs at most one per thread. */
  lemma WordChange(c: Config, points: seq<Point>, word: nat, word': nat)
    requires |points| == c.threads
    ensures Sum(points, WeightIn(c, word')) <= Sum(points, WeightIn(c, word)) + c.threads
  {
    SumCompare(points, points, WeightIn(c, word'), WeightIn(c, word), 1);
  }

  lemma WakeOneWeight(c: Config, points: seq<Point>, word: nat, wakee: nat)
    ensures Sum(WakeOne(points, wakee), WeightIn(c, word)) <= Sum(points, WeightIn(c, word)) + 2
  {
    if WakeOne(points, wakee) != points {
      SumUpdate(points, wakee, Try(points[wakee].left), WeightIn(c, word));
    }
  }

  lemma FutexWakeDrops(c: Config, s: State, t: nat, wakee: nat)
    requires Enabled(s, Run(t, wakee)) && s.points[t].Wake? && PointOk(c, s, t)
    ensures Measure(c, Exec(c, s, Run(t, wakee))) < Measure(c, s)
  {
    WakeOneWeight(c, s.points, s.word, wakee);
    SumUpdate(WakeOne(s.points, wakee), t, Exec(c, s, Run(t, wakee)).points[t], WeightIn(c, s.word));
  }

  /** Acquiring and releasing: the stepping thread pays for setting the others back. */
  lemma FutexWordStepDrops(c: Config, s: State, t: nat)
    requires |s.points| == c.threads && c.kind == Futex && Enabled(s, Run(t, 0)) && PointOk(c, s, t)
    requires (s.points[t].Try? && s.word == 0) || (s.points[t].Release? && s.word == 1)
    ensures Measure(c, Exec(c, s, Run(t, 0))) < Measure(c, s)
  {
    var s' := Exec(c, s, Run(t, 0));
    SumUpdate(s.points, t, s'.points[t], WeightIn(c, s.word));
    WordChange(c, s'.points, s.word, s'.word);
  }

  lemma FutexOtherStepDrops(c: Config, s: State, a: Action)
    requires c.kind == Futex && Enabled(s, a) && PointOk(c, s, a.thread)
    requires a.Run? ==>
      && !s.points[a.thread].Wake? && !s.points[a.thread].Release?
      && (s.points[a.thread].Try? ==> s.word != 0)
    requires s.word <= 1
    ensures Measure(c, Exec(c, s, a)) < Measure(c, s)
  {
    var s' := Exec(c, s, a);
    SumUpdate(s.points, a.thread, s'.points[a.thread], WeightIn(c, s.word));
    assert s'.word == s.word;
  }

  lemma EveryFutexStepDrops(c: Config, s: State, a: Action)
    requires Inv(c, s) && c.kind == Futex && Enabled(s, a)
    ensures Measure(c, Exec(c, s, a)) < Measure(c, s)
  {
    var p := s.points[a.thread];
    assert PointOk(c, s, a.thread);
    if a.Run? && p.Wake? {
      FutexWakeDrops(c, s, a.thread, a.wakee);
    } else if a.Run? && ((p.Try? && s.word == 0) || p.Release?) {
      FutexWordStepDrops(c, s, a.thread);
      assert Exec(c, s, a) == Exec(c, s, Run(a.thread, 0));
    } else {
      FutexOtherStepDrops(c, s, a);
    }
  }

  lemma {:induction false} FutexTraceBounded(c: Config, s0: State, run: seq<Action>, s: State)
    requires Inv(c, s0) && c.kind == Futex && Trace(c, s0, run, s)
    ensures |run| + Measure(c, s) <= Measure(c, s0)
    decreases |run|
  {
    if run != [] {
      EveryFutexStepDrops(c, s0, run[0]);
      InvKept(c, s0, run[0]);
      FutexTraceBounded(c, Exec(c, s0, run[0]), run[1..], s);
    }
  }

  ghost predicate CanRun(s: State) {
    exists t: nat, w: nat :: Enabled(s, Run(t, w))
  }

  /** Every schedule of the futex lock ends, and where it can go no further all threads
      are done and no increment is missing. */
  lemma {:induction false} FutexAlwaysEnds(c: Config, s0: State, run: seq<Action>, s: State)
    requires Init(c, s0) && c.kind == Futex && Trace(c, s0, run, s)
    ensures |run| <= Measure(c, s0)
    ensures !CanRun(s) ==> AllDone(s) && s.counter == c.rounds * c.threads
  {
    InitInv(c, s0);
    FutexTraceBounded(c, s0, run, s);
    TraceInv(c, s0, run, s);
    if !CanRun(s) {
      if !AllDone(s) {
        var a := SomeStepCloser(c, s);
      }
      ExactCount(c, s0, run, s);
    }
  }

  // ------------------------------------------------------------- the spinlock may not end

  /** Thread 0 takes the lock; thread 1 then tries in vain, `n` times. */
  function SpinSchedule(n: nat): seq<Action> {
    if n == 0 then [] else [Run(1, 0), Run(1, 0)] + SpinSchedule(n - 1)
  }

  lemma {:induction false} SpinsInVain(c: Config, s: State, n: nat)
    requires c.kind == Spin && |s.points| >= 2 && s.word == 1 && s.points[1].Try?
    ensures Trace(c, s, SpinSchedule(n), s) && |SpinSchedule(n)| == 2 * n
  {
    if n > 0 {
      var s1 := Exec(c, s, Run(1, 0));
      var s2 := Exec(c, s1, Run(1, 0));
      assert s2.points == s.points;
      SpinsInVain(c, s, n - 1);
      var rest := SpinSchedule(n - 1);
      assert SpinSchedule(n)[1..] == [Run(1, 0)] + rest;
      assert SpinSchedule(n)[1..][1..] == rest;
      assert Trace(c, s1, [Run(1, 0)] + rest, s);
    }
  }

  /** With two threads the spinlock has runs of every length, without a single unasked
      wakeup: it depends on the scheduler to end. */
  lemma {:induction false} SpinDependsOnScheduler(c: Config, s0: State, n: nat)
    requires c.kind == Spin && c.threads >= 2 && c.rounds >= 1 && Init(c, s0)
    ensures exists run, s :: Trace(c, s0, run, s) && |run| >= n && !AllDone(s)
  {
    var s1 := Exec(c, s0, Run(0, 0));
    SpinsInVain(c, s1, n);
    var run := [Run(0, 0)] + SpinSchedule(n);
    assert run[1..] == SpinSchedule(n);
    assert Trace(c, s0, run, s1);
    assert !s1.points[1].Done?;
  }
}
