/** Processes that increment a shared counter without a lock. `(*shared)++` is a load
    followed by a store; the scheduler may run other processes in between. */
module RacyCounter {
  import opened Sums

  /** `procs` processes doing `rounds` increments each. */
  datatype Config = Config(procs: nat, rounds: nat)

  datatype Point =
    | AtLoad(done: nat)               // between increments, `done` of them stored
    | AtStore(done: nat, seen: nat)   // has loaded `seen`

  datatype State = State(counter: nat, points: seq<Point>)

  function Init(c: Config): State {
    State(0, seq(c.procs, _ => AtLoad(0)))
  }

  predicate Enabled(c: Config, s: State, p: nat) {
    p < |s.points| && (s.points[p].AtStore? || s.points[p].done < c.rounds)
  }

  function Exec(s: State, p: nat): State
    requires p < |s.points|
  {
    match s.points[p]
    case AtLoad(d) => s.(points := s.points[p := AtStore(d, s.counter)])
    case AtStore(d, v) => State(v + 1, s.points[p := AtLoad(d + 1)])
  }

  /** `schedule` names the process that takes each step. */
  ghost predicate Trace(c: Config, s0: State, schedule: seq<nat>, s: State)
    decreases |schedule|
  {
    if schedule == [] then s == s0
    else Enabled(c, s0, schedule[0]) && Trace(c, Exec(s0, schedule[0]), schedule[1..], s)
  }

  ghost predicate Complete(c: Config, s: State) {
    forall p :: 0 <= p < |s.points| ==> s.points[p] == AtLoad(c.rounds)
  }

  // ----------------------------------------------------------------- bounds

  function Stored(p: Point): nat { p.done }

  /** A counter below 2 means that some process has stored at most once: the last
      store wrote 1 from a load of 0, which only a first increment can make. */
  ghost predicate Inv(c: Config, s: State) {
    && |s.points| == c.procs
    && s.counter <= Sum(s.points, Stored)
    && (forall p :: 0 <= p < |s.points| ==> s.points[p].done <= c.rounds)
    && (forall p :: 0 <= p < |s.points| && s.points[p].AtStore? ==>
          s.points[p].seen <= Sum(s.points, Stored) && s.points[p].done < c.rounds)
    && (forall p :: 0 <= p < |s.points| && s.points[p].done >= 1 ==>
          s.counter >= 1 && (s.points[p].AtStore? ==> s.points[p].seen >= 1))
    && (s.counter < 2 ==> exists p :: 0 <= p < |s.points| && s.points[p].done <= 1)
  }

  lemma InitInv(c: Config)
    requires c.procs >= 1
    ensures Inv(c, Init(c))
  {
    assert Init(c).points[0].done <= 1;
  }

  lemma InvKept(c: Config, s: State, p: nat)
    requires Inv(c, s) && Enabled(c, s, p)
    ensures Inv(c, Exec(s, p))
  {
    var s' := Exec(s, p);
    SumUpdate(s.points, p, s'.points[p], Stored);
    if s.points[p].AtStore? {
      assert s'.points[p].done >= 1;
      if s'.counter < 2 {
        assert s'.points[p].done <= 1;
      }
    } else if s'.counter < 2 {
      var q :| 0 <= q < |s.points| && s.points[q].done <= 1;
      assert s'.points[q].done <= 1;
    }
  }

  lemma {:induction false} TraceInv(c: Config, s0: State, schedule: seq<nat>, s: State)
    requires Inv(c, s0) && Trace(c, s0, schedule, s)
    ensures Inv(c, s)
    decreases |schedule|
  {
    if schedule != [] {
      InvKept(c, s0, schedule[0]);
      TraceInv(c, Exec(s0, schedule[0]), schedule[1..], s);
    }
  }

  lemma {:induction false} FinalBounds(c: Config, schedule: seq<nat>, s: State)
    requires c.procs >= 1 && c.rounds >= 2
    requires Trace(c, Init(c), schedule, s) && Complete(c, s)
    ensures 2 <= s.counter <= c.rounds * c.procs
  {
    InitInv(c);
    TraceInv(c, Init(c), schedule, s);
    SumConstant(s.points, Stored, c.rounds);
  }

  // ------------------------------------------------- every value in between occurs

  ghost predicate Reaches(c: Config, s0: State, s: State) {
    exists schedule :: Trace(c, s0, schedule, s)
  }

  lemma {:induction false} TraceAppend(c: Config, s0: State, left: seq<nat>, s1: State, right: seq<nat>, s2: State)
    requires Trace(c, s0, left, s1) && Trace(c, s1, right, s2)
    ensures Trace(c, s0, left + right, s2)
    decreases |left|
  {
    if left == [] {
      assert left + right == right;
    } else {
      TraceAppend(c, Exec(s0, left[0]), left[1..], s1, right, s2);
      assert (left + right)[1..] == left[1..] + right;
    }
  }

  lemma ReachesTransitive(c: Config, s0: State, s1: State, s2: State)
    requires Reaches(c, s0, s1) && Reaches(c, s1, s2)
    ensures Reaches(c, s0, s2)
  {
    var left :| Trace(c, s0, left, s1);
    var right :| Trace(c, s1, right, s2);
    TraceAppend(c, s0, left, s1, right, s2);
  }

  lemma ReachesSelf(c: Config, s: State)
    ensures Reaches(c, s, s)
  {
    assert Trace(c, s, [], s);
  }

  lemma ReachesStep(c: Config, s: State, p: nat)
    requires Enabled(c, s, p)
    ensures Reaches(c, s, Exec(s, p))
  {
    var s' := Exec(s, p);
    assert [p][1..] == [];
    assert Trace(c, s', [], s');
    assert Trace(c, s, [p], s');
  }

  /** A whole increment of `p` with nobody in between. */
  lemma Bump(c: Config, s: State, p: nat)
    requires Enabled(c, s, p) && s.points[p].AtLoad?
    ensures Reaches(c, s, State(s.counter + 1, s.points[p := AtLoad(s.points[p].done + 1)]))
  {
    var s1 := Exec(s, p);
    var s2 := Exec(s1, p);
    ReachesStep(c, s, p);
    ReachesStep(c, s1, p);
    ReachesTransitive(c, s, s1, s2);
    assert s2 == State(s.counter + 1, s.points[p := AtLoad(s.points[p].done + 1)]);
  }

  lemma {:induction false} BumpMany(c: Config, s: State, p: nat, n: nat)
    requires p < |s.points| && s.points[p].AtLoad? && s.points[p].done + n <= c.rounds
    ensures Reaches(c, s, State(s.counter + n, s.points[p := AtLoad(s.points[p].done + n)]))
    decreases n
  {
    var end := State(s.counter + n, s.points[p := AtLoad(s.points[p].done + n)]);
    if n == 0 {
      assert end == s;
      ReachesSelf(c, s);
    } else {
      var s1 := State(s.counter + 1, s.points[p := AtLoad(s.points[p].done + 1)]);
      Bump(c, s, p);
      BumpMany(c, s1, p, n - 1);
      assert end.points == s1.points[p := AtLoad(s1.points[p].done + (n - 1))];
      ReachesTransitive(c, s, s1, end);
    }
  }

  function Left(rounds: nat, p: Point): nat {
    if p.done <= rounds then rounds - p.done else 0
  }

  function LeftIn(c: Config): Point -> nat {
    p => Left(c.rounds, p)
  }

  ghost predicate QuietFrom(s: State, lo: nat)
    requires lo <= |s.points|
  {
    forall p :: lo <= p < |s.points| ==> s.points[p].AtLoad?
  }

  /** The processes from `lo` on can do any number of whole increments they have left. */
  lemma {:induction false} Spend(c: Config, s: State, lo: nat, n: nat) returns (s': State)
    requires lo <= |s.points| && QuietFrom(s, lo) && n <= Sum(s.points[lo..], LeftIn(c))
    ensures Reaches(c, s, s') && |s'.points| == |s.points| && QuietFrom(s', lo)
    ensures s'.counter == s.counter + n && s'.points[..lo] == s.points[..lo]
    ensures Sum(s'.points[lo..], LeftIn(c)) == Sum(s.points[lo..], LeftIn(c)) - n
    decreases n
  {
    if n == 0 {
      s' := s;
      ReachesSelf(c, s);
    } else {
      var i := SumPositive(s.points[lo..], LeftIn(c));
      var p := lo + i;
      var next := AtLoad(s.points[p].done + 1);
      var s1 := State(s.counter + 1, s.points[p := next]);
      Bump(c, s, p);
      assert s1.points[lo..] == s.points[lo..][i := next];
      SumUpdate(s.points[lo..], i, next, LeftIn(c));
      s' := Spend(c, s1, lo, n - 1);
      assert s1.points[..lo] == s.points[..lo];
      ReachesTransitive(c, s, s1, s');
    }
  }

  /** From a state between increments everybody can finish one after the other. */
  lemma Finish(c: Config, s: State) returns (s': State)
    requires |s.points| == c.procs && QuietFrom(s, 0)
    requires forall p :: 0 <= p < |s.points| ==> s.points[p].done <= c.rounds
    requires Reaches(c, Init(c), s)
    ensures Reaches(c, Init(c), s') && Complete(c, s')
    ensures s'.counter == s.counter + Sum(s.points, LeftIn(c))
  {
    assert s.points[0..] == s.points;
    s' := Spend(c, s, 0, Sum(s.points, LeftIn(c)));
    assert s'.points[0..] == s'.points;
    ReachesTransitive(c, Init(c), s, s');
    if c.procs >= 1 {
      InitInv(c);
      var schedule :| Trace(c, Init(c), schedule, s');
      TraceInv(c, Init(c), schedule, s');
      forall p | 0 <= p < |s'.points|
        ensures s'.points[p] == AtLoad(c.rounds)
      {
        SumElement(s'.points, p, LeftIn(c));
      }
    }
  }

  /** Process 0 loads 0, the others do `lost` increments, process 0 stores 1 over them. */
  lemma Overwrite(c: Config, lost: nat) returns (s: State)
    requires c.procs >= 1 && c.rounds >= 1 && lost <= c.rounds * (c.procs - 1)
    ensures Reaches(c, Init(c), s) && |s.points| == c.procs && QuietFrom(s, 0)
    ensures s.counter == 1 && s.points[0] == AtLoad(1)
    ensures Sum(s.points[1..], LeftIn(c)) == c.rounds * (c.procs - 1) - lost
  {
    var s0 := Init(c);
    var s1 := Exec(s0, 0);
    ReachesStep(c, s0, 0);
    SumConstant(s1.points[1..], LeftIn(c), c.rounds);
    var s2 := Spend(c, s1, 1, lost);
    ReachesTransitive(c, s0, s1, s2);
    assert s2.points[0] == s2.points[..1][0] == s1.points[..1][0] == AtStore(0, 0);
    s := Exec(s2, 0);
    ReachesStep(c, s2, 0);
    ReachesTransitive(c, s0, s2, s);
    assert s.points[1..] == s2.points[1..];
  }

  lemma WithinRounds(c: Config, s: State)
    requires c.procs >= 1 && Reaches(c, Init(c), s)
    ensures |s.points| == c.procs && forall p :: 0 <= p < |s.points| ==> s.points[p].done <= c.rounds
  {
    InitInv(c);
    var schedule :| Trace(c, Init(c), schedule, s);
    TraceInv(c, Init(c), schedule, s);
  }

  /** `Overwrite` at work: any final value from `rounds` on. */
  lemma HighValue(c: Config, x: nat) returns (s: State)
    requires c.procs >= 1 && c.rounds >= 1 && c.rounds <= x <= c.rounds * c.procs
    ensures Reaches(c, Init(c), s) && Complete(c, s) && s.counter == x
  {
    assert c.rounds * c.procs == c.rounds * (c.procs - 1) + c.rounds;
    var s1 := Overwrite(c, c.rounds * c.procs - x);
    assert s1.points == [s1.points[0]] + s1.points[1..];
    WithinRounds(c, s1);
    s := Finish(c, s1);
  }

  /** With one increment left in all, one process has one left and the others none. */
  lemma OneLeft(c: Config, points: seq<Point>) returns (i: nat)
    requires Sum(points, LeftIn(c)) == 1 && c.rounds >= 1
    requires forall p :: 0 <= p < |points| ==> points[p].AtLoad? && points[p].done <= c.rounds
    ensures i < |points| && points[i] == AtLoad(c.rounds - 1)
    ensures forall p :: 0 <= p < |points| && p != i ==> points[p] == AtLoad(c.rounds)
  {
    i := SumPositive(points, LeftIn(c));
    SumElement(points, i, LeftIn(c));
    var idle := points[i := AtLoad(c.rounds)];
    SumUpdate(points, i, AtLoad(c.rounds), LeftIn(c));
    forall p | 0 <= p < |points| && p != i
      ensures points[p] == AtLoad(c.rounds)
    {
      SumElement(idle, p, LeftIn(c));
      assert LeftIn(c)(idle[p]) == 0;
    }
  }

  lemma Product(a: nat, b: nat)
    requires b >= 2
    ensures a <= a * (b - 1)
  {
    assert a * (b - 1) == a + a * (b - 2);
  }

  /** All but one of the others' increments are lost to process 0's store of 1; the
      process with the last of them has just loaded that 1. */
  lemma LastLoad(c: Config) returns (s: State, q: nat)
    requires c.procs >= 2 && c.rounds >= 2
    ensures Reaches(c, Init(c), s) && |s.points| == c.procs && s.counter == 1 && s.points[0] == AtLoad(1)
    ensures 1 <= q < c.procs && s.points[q] == AtStore(c.rounds - 1, 1)
    ensures forall p :: 1 <= p < c.procs && p != q ==> s.points[p] == AtLoad(c.rounds)
  {
    Product(c.rounds, c.procs);
    var s1 := Overwrite(c, c.rounds * (c.procs - 1) - 1);
    WithinRounds(c, s1);
    var others := s1.points[1..];
    var i := OneLeft(c, others);
    q := i + 1;
    assert forall p :: 1 <= p < c.procs ==> s1.points[p] == others[p - 1];
    s := Exec(s1, q);
    ReachesStep(c, s1, q);
    ReachesTransitive(c, Init(c), s1, s);
  }

  /** That process then stores 2 over `rounds + 1 - x` increments of process 0. */
  lemma LowValue(c: Config, x: nat) returns (s: State)
    requires c.procs >= 2 && c.rounds >= 2 && 2 <= x <= c.rounds + 1
    ensures Reaches(c, Init(c), s) && Complete(c, s) && s.counter == x
  {
    var s1, q := LastLoad(c);
    var m := c.rounds + 1 - x;
    BumpMany(c, s1, 0, m);
    var s2 := State(1 + m, s1.points[0 := AtLoad(1 + m)]);
    ReachesTransitive(c, Init(c), s1, s2);
    var s3 := Exec(s2, q);
    ReachesStep(c, s2, q);
    ReachesTransitive(c, Init(c), s2, s3);
    var rest := c.rounds - (1 + m);
    assert s3.points[0] == AtLoad(1 + m);
    BumpMany(c, s3, 0, rest);
    s := State(2 + rest, s3.points[0 := AtLoad(c.rounds)]);
    ReachesTransitive(c, Init(c), s3, s);
  }

  /** A process that is alone loses nothing. */
  ghost predicate Alone(s: State) {
    && |s.points| == 1 && s.counter == s.points[0].done
    && (s.points[0].AtStore? ==> s.points[0].seen == s.counter)
  }

  lemma {:induction false} AloneExact(c: Config, s0: State, schedule: seq<nat>, s: State)
    requires Alone(s0) && Trace(c, s0, schedule, s)
    ensures Alone(s)
    decreases |schedule|
  {
    if schedule != [] {
      AloneExact(c, Exec(s0, schedule[0]), schedule[1..], s);
    }
  }

  /** The least value that can come out. */
  function Least(c: Config): nat {
    if c.procs == 0 then 0
    else if c.procs == 1 then c.rounds
    else if c.rounds <= 1 then c.rounds
    else 2
  }

  lemma NeverBelow(c: Config, s: State)
    requires Reaches(c, Init(c), s) && Complete(c, s)
    ensures Least(c) <= s.counter <= c.rounds * c.procs
  {
    var schedule :| Trace(c, Init(c), schedule, s);
    if c.procs == 0 {
      if schedule != [] {
        assert Enabled(c, Init(c), schedule[0]);
      }
    } else {
      InitInv(c);
      TraceInv(c, Init(c), schedule, s);
      SumConstant(s.points, Stored, c.rounds);
      if c.procs == 1 {
        AloneExact(c, Init(c), schedule, s);
      }
      assert s.points[0].done == c.rounds;
    }
  }

  /** Exactly the values from `Least` to procs * rounds can come out: from 2 on when at
      least two processes do at least two increments each, from 1 on when they do one
      each, and only the full count when a process is alone. */
  lemma {:induction false} FinalValues(c: Config, x: nat)
    ensures (exists s :: Reaches(c, Init(c), s) && Complete(c, s) && s.counter == x) <==>
            Least(c) <= x <= c.rounds * c.procs
  {
    if Least(c) <= x <= c.rounds * c.procs {
      if c.procs == 0 || c.rounds == 0 {
        assert x == 0;
        ReachesSelf(c, Init(c));
        assert Complete(c, Init(c));
      } else if x < c.rounds {
        var s := LowValue(c, x);
      } else {
        var s := HighValue(c, x);
      }
    }
    forall s | Reaches(c, Init(c), s) && Complete(c, s) && s.counter == x
      ensures Least(c) <= x <= c.rounds * c.procs
    {
      NeverBelow(c, s);
    }
  }
}
