/** Reaping children from a SIGCHLD handler. A pending signal is one bit, so exits that
    come close together raise one signal between them; the handler makes up for it with
    its waitpid loop. Children may be forked and may exit at any moment, and the parent
    may block and unblock the signal. */
module Reaper {
  import opened Sums

  datatype Child = Running | Zombie | Reaped

  /** The parent: in its own code, or in the handler about to write its message, in the
      waitpid loop, or past it. SIGCHLD is blocked while the handler runs. */
  datatype Point = Main | Entered | Looping | Returning

  datatype State = State(children: seq<Child>, pending: bool, masked: bool, point: Point)

  datatype Action =
    | Fork
    | Exits(child: nat)
    | SetMask(masked: bool)     // sigprocmask
    | Deliver                   // the kernel starts the handler
    | WriteMessage
    | WaitFinds(child: nat)     // waitpid(-1, NULL, WNOHANG) > 0
    | WaitFindsNone             // ... returns 0 or -1
    | HandlerReturns

  const START := State([], false, false, Main)

  predicate SomeZombie(s: State) {
    exists i :: 0 <= i < |s.children| && s.children[i].Zombie?
  }

  predicate Enabled(s: State, a: Action) {
    match a
    case Fork => s.point.Main?
    case Exits(i) => i < |s.children| && s.children[i].Running?
    case SetMask(_) => s.point.Main?
    case Deliver => s.pending && !s.masked && s.point.Main?
    case WriteMessage => s.point.Entered?
    case WaitFinds(i) => s.point.Looping? && i < |s.children| && s.children[i].Zombie?
    case WaitFindsNone => s.point.Looping? && !SomeZombie(s)
    case HandlerReturns => s.point.Returning?
  }

  function Exec(s: State, a: Action): State
    requires Enabled(s, a)
  {
    match a
    case Fork => s.(children := s.children + [Running])
    case Exits(i) => s.(children := s.children[i := Zombie], pending := true)
    case SetMask(m) => s.(masked := m)
    case Deliver => s.(pending := false, point := Entered)
    case WriteMessage => s.(point := Looping)
    case WaitFinds(i) => s.(children := s.children[i := Reaped])
    case WaitFindsNone => s.(point := Returning)
    case HandlerReturns => s.(point := Main)
  }

  ghost predicate Trace(s0: State, run: seq<Action>, s: State)
    decreases |run|
  {
    if run == [] then s == s0
    else Enabled(s0, run[0]) && Trace(Exec(s0, run[0]), run[1..], s)
  }

  /** A zombie is never forgotten: the signal is pending or the handler has yet to look. */
  ghost predicate Inv(s: State) {
    SomeZombie(s) ==> s.pending || s.point.Entered? || s.point.Looping?
  }

  lemma InvKept(s: State, a: Action)
    requires Inv(s) && Enabled(s, a)
    ensures Inv(Exec(s, a))
  {
    var s' := Exec(s, a);
    if SomeZombie(s') && !a.Exits? && !a.Deliver? {
      var i :| 0 <= i < |s'.children| && s'.children[i].Zombie?;
      assert s.children[i].Zombie?;
    }
  }

  lemma {:induction false} TraceInv(s0: State, run: seq<Action>, s: State)
    requires Inv(s0) && Trace(s0, run, s)
    ensures Inv(s)
    decreases |run|
  {
    if run != [] {
      InvKept(s0, run[0]);
      TraceInv(Exec(s0, run[0]), run[1..], s);
    }
  }

  /** In every reachable state with the signal not pending and the handler not before or
      in its loop, every child that has exited has been reaped. */
  lemma {:induction false} NoZombieForgotten(run: seq<Action>, s: State)
    requires Trace(START, run, s)
    ensures SomeZombie(s) ==> s.pending || s.point.Entered? || s.point.Looping?
    ensures !s.pending && (s.point.Main? || s.point.Returning?) ==>
      forall i :: 0 <= i < |s.children| ==> s.children[i] != Zombie
  {
    TraceInv(START, run, s);
  }

  ghost predicate SomeExits(run: seq<Action>) {
    exists i :: 0 <= i < |run| && run[i].Exits?
  }

  lemma SomeExitsStep(run: seq<Action>)
    requires run != []
    ensures SomeExits(run) <==> run[0].Exits? || SomeExits(run[1..])
  {
    if SomeExits(run) && !run[0].Exits? {
      var i :| 0 <= i < |run| && run[i].Exits?;
      assert run[1..][i - 1] == run[i];
    }
    if SomeExits(run[1..]) {
      var i :| 0 <= i < |run| - 1 && run[1..][i].Exits?;
      assert run[i + 1] == run[1..][i];
    }
  }

  /** A blocked signal waits: as long as it is not unblocked the handler does not run and
      nobody is reaped, and the pending bit remembers whether anybody has exited. */
  lemma {:induction false} MaskedWaits(s0: State, run: seq<Action>, s: State)
    requires Trace(s0, run, s) && s0.masked && s0.point.Main? && SetMask(false) !in run
    ensures s.masked && s.point.Main? && Deliver !in run
    ensures s.pending <==> s0.pending || SomeExits(run)
    ensures |s.children| >= |s0.children| && forall i :: 0 <= i < |s.children| ==>
      (s.children[i].Reaped? <==> i < |s0.children| && s0.children[i].Reaped?)
    decreases |run|
  {
    if run != [] {
      assert run[0] in run && forall a :: a in run[1..] ==> a in run;
      SomeExitsStep(run);
      MaskedWaits(Exec(s0, run[0]), run[1..], s);
      assert run == [run[0]] + run[1..];
    }
  }

  /** ... and once it is unblocked it is delivered, if it is pending. */
  lemma {:induction false} UnmaskedDelivers(s: State)
    requires s.point.Main?
    ensures Enabled(s, SetMask(false))
    ensures Enabled(Exec(s, SetMask(false)), Deliver) <==> s.pending
  {
  }

  // ------------------------------------------------- and every child is reaped in the end

  function ChildWork(c: Child): nat {
    match c
    case Running => 6
    case Zombie => 1
    case Reaped => 0
  }

  function PointWork(p: Point): nat {
    match p
    case Main => 0
    case Entered => 3
    case Looping => 2
    case Returning => 1
  }

  function Work(s: State): nat {
    Sum(s.children, ChildWork) + (if s.pending then 4 else 0) + PointWork(s.point)
  }

  /** The program's own part and the children's exits, without new children and without
      changes to the mask. */
  predicate Winding(a: Action) {
    !a.Fork? && !a.SetMask?
  }

  lemma EveryStepDrops(s: State, a: Action)
    requires Enabled(s, a) && Winding(a)
    ensures Work(Exec(s, a)) < Work(s)
  {
    if a.Exits? || a.WaitFinds? {
      SumUpdate(s.children, a.child, Exec(s, a).children[a.child], ChildWork);
    }
  }

  lemma {:induction false} WindingBounded(s0: State, run: seq<Action>, s: State)
    requires Trace(s0, run, s) && forall i :: 0 <= i < |run| ==> Winding(run[i])
    ensures |run| + Work(s) <= Work(s0) && s.masked == s0.masked
    decreases |run|
  {
    if run != [] {
      EveryStepDrops(s0, run[0]);
      assert forall i :: 0 <= i < |run[1..]| ==> run[1..][i] == run[i + 1];
      WindingBounded(Exec(s0, run[0]), run[1..], s);
    }
  }

  ghost predicate Quiet(s: State) {
    forall a :: Winding(a) ==> !Enabled(s, a)
  }

  lemma QuietMeansReaped(s: State)
    requires Inv(s) && !s.masked && Quiet(s)
    ensures s.point.Main? && forall i :: 0 <= i < |s.children| ==> s.children[i].Reaped?
  {
    assert Winding(WriteMessage) && Winding(HandlerReturns) && Winding(WaitFindsNone) && Winding(Deliver);
    if SomeZombie(s) {
      var i :| 0 <= i < |s.children| && s.children[i].Zombie?;
      assert Winding(WaitFinds(i));
    }
    assert s.point.Main? && !s.pending;
    forall i | 0 <= i < |s.children|
      ensures s.children[i].Reaped?
    {
      assert Winding(Exits(i));
    }
  }

  /** With the signal unblocked, once no more children are forked every schedule ends,
      and it ends with all children reaped and no handler running. */
  lemma {:induction false} AllReapedInTheEnd(before: seq<Action>, s0: State, run: seq<Action>, s: State)
    requires Trace(START, before, s0) && !s0.masked
    requires Trace(s0, run, s) && forall i :: 0 <= i < |run| ==> Winding(run[i])
    ensures |run| <= Work(s0)
    ensures Quiet(s) ==> s.point.Main? && forall i :: 0 <= i < |s.children| ==> s.children[i].Reaped?
  {
    WindingBounded(s0, run, s);
    TraceInv(START, before, s0);
    TraceInv(s0, run, s);
    if Quiet(s) {
      QuietMeansReaped(s);
    }
  }

  // -------------------------------------------------- how many signals n exits take

  function Deliveries(run: seq<Action>): nat {
    if run == [] then 0 else (if run[0].Deliver? then 1 else 0) + Deliveries(run[1..])
  }

  lemma {:induction false} DeliveriesSplit(left: seq<Action>, right: seq<Action>)
    ensures Deliveries(left + right) == Deliveries(left) + Deliveries(right)
  {
    if left == [] {
      assert left + right == right;
    } else {
      DeliveriesSplit(left[1..], right);
      assert (left + right)[1..] == left[1..] + right;
    }
  }

  function Exited(c: Child): nat {
    if c.Running? then 0 else 1
  }

  /** Deliveries still possible, and whether one must have happened: `d` is how many
      there have been. */
  ghost predicate Counted(s: State, d: nat) {
    && d + (if s.pending then 1 else 0) <= Sum(s.children, Exited)
    && (s.point.Looping? || (exists i :: 0 <= i < |s.children| && s.children[i].Reaped?) ==> d >= 1)
    && (s.point.Entered? ==> d >= 1)
  }

  lemma CountedKept(s: State, d: nat, a: Action)
    requires Counted(s, d) && Enabled(s, a)
    ensures Counted(Exec(s, a), d + if a.Deliver? then 1 else 0)
  {
    var s' := Exec(s, a);
    if a.Exits? || a.WaitFinds? {
      SumUpdate(s.children, a.child, s'.children[a.child], Exited);
    }
    if a.Fork? {
      SumSplit(s.children, [Running], Exited);
    }
    if !a.WaitFinds? && exists i :: 0 <= i < |s'.children| && s'.children[i].Reaped? {
      var i :| 0 <= i < |s'.children| && s'.children[i].Reaped?;
      assert s.children[i].Reaped?;
    }
  }

  lemma {:induction false} TraceCounted(s0: State, d: nat, run: seq<Action>, s: State)
    requires Counted(s0, d) && Trace(s0, run, s)
    ensures Counted(s, d + Deliveries(run))
    decreases |run|
  {
    if run != [] {
      CountedKept(s0, d, run[0]);
      TraceCounted(Exec(s0, run[0]), d + if run[0].Deliver? then 1 else 0, run[1..], s);
    }
  }

  /** A run from `s0` to `s` with `d` deliveries. */
  ghost predicate Reaches(s0: State, s: State, d: nat) {
    exists run :: Trace(s0, run, s) && Deliveries(run) == d
  }

  lemma {:induction false} TraceConcat(s0: State, left: seq<Action>, s1: State, right: seq<Action>, s2: State)
    requires Trace(s0, left, s1) && Trace(s1, right, s2)
    ensures Trace(s0, left + right, s2)
    decreases |left|
  {
    if left == [] {
      assert left + right == right;
    } else {
      TraceConcat(Exec(s0, left[0]), left[1..], s1, right, s2);
      assert (left + right)[1..] == left[1..] + right;
    }
  }

  lemma Step(s: State, a: Action)
    requires Enabled(s, a)
    ensures Reaches(s, Exec(s, a), if a.Deliver? then 1 else 0)
  {
    assert [a][1..] == [];
    assert Trace(Exec(s, a), [], Exec(s, a));
    assert Trace(s, [a], Exec(s, a)) && Deliveries([a]) == if a.Deliver? then 1 else 0;
  }

  lemma Stay(s: State)
    ensures Reaches(s, s, 0)
  {
    assert Trace(s, [], s) && Deliveries([]) == 0;
  }

  lemma Then(s0: State, s1: State, d: nat, s2: State, e: nat)
    requires Reaches(s0, s1, d) && Reaches(s1, s2, e)
    ensures Reaches(s0, s2, d + e)
  {
    var left :| Trace(s0, left, s1) && Deliveries(left) == d;
    var right :| Trace(s1, right, s2) && Deliveries(right) == e;
    TraceConcat(s0, left, s1, right, s2);
    DeliveriesSplit(left, right);
  }

  /** Of `n` children the first `r` are reaped, those up to `z` are zombies. */
  function Phase(n: nat, r: nat, z: nat, pending: bool, point: Point): State {
    State(seq(n, i => if i < r then Reaped else if i < z then Zombie else Running), pending, false, point)
  }

  lemma {:induction false} ForkMany(n: nat)
    ensures Reaches(START, Phase(n, 0, 0, false, Main), 0)
  {
    if n == 0 {
      assert Phase(0, 0, 0, false, Main) == START;
      Stay(START);
    } else {
      ForkMany(n - 1);
      var s := Phase(n - 1, 0, 0, false, Main);
      Step(s, Fork);
      assert Exec(s, Fork) == Phase(n, 0, 0, false, Main);
      Then(START, s, 0, Phase(n, 0, 0, false, Main), 0);
    }
  }

  /** Further children exit while the signal is already pending. */
  lemma {:induction false} ExitMany(n: nat, r: nat, z: nat, h: nat)
    requires r < z <= h <= n
    ensures Reaches(Phase(n, r, z, true, Main), Phase(n, r, h, true, Main), 0)
    decreases h - z
  {
    var s := Phase(n, r, z, true, Main);
    if z == h {
      Stay(s);
    } else {
      Step(s, Exits(z));
      assert Exec(s, Exits(z)) == Phase(n, r, z + 1, true, Main);
      ExitMany(n, r, z + 1, h);
      Then(s, Phase(n, r, z + 1, true, Main), 0, Phase(n, r, h, true, Main), 0);
    }
  }

  lemma {:induction false} ReapMany(n: nat, r: nat, h: nat)
    requires r <= h <= n
    ensures Reaches(Phase(n, r, h, false, Looping), Phase(n, h, h, false, Looping), 0)
    decreases h - r
  {
    var s := Phase(n, r, h, false, Looping);
    if r == h {
      Stay(s);
    } else {
      Step(s, WaitFinds(r));
      assert Exec(s, WaitFinds(r)) == Phase(n, r + 1, h, false, Looping);
      ReapMany(n, r + 1, h);
      Then(s, Phase(n, r + 1, h, false, Looping), 0, Phase(n, h, h, false, Looping), 0);
    }
  }

  lemma HandlerStarts(n: nat, r: nat, h: nat)
    ensures Reaches(Phase(n, r, h, true, Main), Phase(n, r, h, false, Looping), 1)
  {
    var s := Phase(n, r, h, true, Main);
    Step(s, Deliver);
    Step(Exec(s, Deliver), WriteMessage);
    Then(s, Exec(s, Deliver), 1, Phase(n, r, h, false, Looping), 0);
  }

  lemma HandlerEnds(n: nat, h: nat)
    requires h <= n
    ensures Reaches(Phase(n, h, h, false, Looping), Phase(n, h, h, false, Main), 0)
  {
    var s := Phase(n, h, h, false, Looping);
    assert !SomeZombie(s);
    Step(s, WaitFindsNone);
    Step(Exec(s, WaitFindsNone), HandlerReturns);
    Then(s, Exec(s, WaitFindsNone), 0, Phase(n, h, h, false, Main), 0);
  }

  /** Children `r` up to `h` exit together: one delivery reaps them all. */
  lemma OneSignal(n: nat, r: nat, h: nat)
    requires r < h <= n
    ensures Reaches(Phase(n, r, r, false, Main), Phase(n, h, h, false, Main), 1)
  {
    var s := Phase(n, r, r, false, Main);
    Step(s, Exits(r));
    assert Exec(s, Exits(r)) == Phase(n, r, r + 1, true, Main);
    ExitMany(n, r, r + 1, h);
    Then(s, Phase(n, r, r + 1, true, Main), 0, Phase(n, r, h, true, Main), 0);
    HandlerStarts(n, r, h);
    Then(s, Phase(n, r, h, true, Main), 0, Phase(n, r, h, false, Looping), 1);
    ReapMany(n, r, h);
    Then(s, Phase(n, r, h, false, Looping), 1, Phase(n, h, h, false, Looping), 0);
    HandlerEnds(n, h);
    Then(s, Phase(n, h, h, false, Looping), 1, Phase(n, h, h, false, Main), 0);
  }

  /** The first `k` children one signal each. */
  lemma {:induction false} OneByOne(n: nat, k: nat)
    requires k <= n
    ensures Reaches(START, Phase(n, k, k, false, Main), k)
    decreases k
  {
    if k == 0 {
      ForkMany(n);
    } else {
      OneByOne(n, k - 1);
      OneSignal(n, k - 1, k);
      Then(START, Phase(n, k - 1, k - 1, false, Main), k - 1, Phase(n, k, k, false, Main), 1);
    }
  }

  /** `n` children, all exited and reaped, and the parent back in its own code. */
  ghost predicate AllReaped(s: State, n: nat) {
    |s.children| == n && s.point.Main? && forall i :: 0 <= i < n ==> s.children[i].Reaped?
  }

  /** Signals do coalesce: for any n >= 1 exits, all reaped, there may have been any
      number of deliveries from one to n, and no other number. */
  lemma {:induction false} DeliveriesPossible(n: nat, d: nat)
    requires n >= 1
    ensures (exists s :: Reaches(START, s, d) && AllReaped(s, n)) <==> 1 <= d <= n
  {
    if 1 <= d <= n {
      OneByOne(n, d - 1);
      OneSignal(n, d - 1, n);
      Then(START, Phase(n, d - 1, d - 1, false, Main), d - 1, Phase(n, n, n, false, Main), 1);
      assert AllReaped(Phase(n, n, n, false, Main), n);
    }
    forall s | Reaches(START, s, d) && AllReaped(s, n)
      ensures 1 <= d <= n
    {
      var run :| Trace(START, run, s) && Deliveries(run) == d;
      TraceCounted(START, 0, run, s);
      SumConstant(s.children, Exited, 1);
      assert s.children[0].Reaped?;
    }
  }
}
