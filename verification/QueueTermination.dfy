/** Every schedule of the producer/consumer program ends. A natural-number measure
    over program counters, queued items and unasked wakeups still to come drops at
    every step. */
module QueueTermination {
  import opened Sums
  import opened Ring
  import opened QueueProgram

  /** Work left for a producer that is about to push `item`. An item is worth 14: up
      to three for waiting once, eight for the pop it allows, three for its signal. */
  function PushWork(c: Config, item: nat): nat {
    (if item <= c.items then 14 * (c.items + 1 - item) else 0) + 4 * c.Threads() + 5
  }

  /** Being woken puts a sleeper two steps back, so a signal is worth three and a
      broadcast two for every thread. */
  function Weight(c: Config, p: Point): nat {
    match p
    case PushLock(i) => PushWork(c, i + 1) + 14
    case PushWoken(i) => PushWork(c, i + 1) + 14
    case PushTest(i) => PushWork(c, i + 1) + 13
    case PushAsleep(i) => PushWork(c, i + 1) + 12
    case PushStore(i) => PushWork(c, i + 1) + 12
    case PushSignal(i) => PushWork(c, i + 1) + 4
    case PushUnlock(i) => PushWork(c, i + 1) + 1
    case EndLock => 4 * c.Threads() + 5
    case EndSet => 4 * c.Threads() + 4
    case EndBroadcastEmpty => 4 * c.Threads() + 3
    case EndBroadcastFull => 2 * c.Threads() + 2
    case EndUnlock => 1
    case ProducerDone => 0
    case PopSignal => 7
    case PopUnlock => 4
    case PopLock => 3
    case PopWoken => 3
    case PopTest => 2
    case PopAsleep => 1
    case PopTake => 1
    case PopExit => 1
    case ConsumerDone => 0
  }

  function WeightIn(c: Config): Point -> nat {
    p => Weight(c, p)
  }

  function Measure(c: Config, s: State): nat {
    Sum(s.points, WeightIn(c)) + 7 * s.ring.count + 3 * s.spurious
  }

  lemma MoveWeight(c: Config, points: seq<Point>, t: nat, p: Point)
    requires t < |points|
    ensures Sum(points[t := p], WeightIn(c)) + Weight(c, points[t]) == Sum(points, WeightIn(c)) + Weight(c, p)
  {
    SumUpdate(points, t, p, WeightIn(c));
  }

  lemma SignalWeight(c: Config, points: seq<Point>, onEmpty: bool, wakee: nat)
    ensures Sum(Signal(points, onEmpty, wakee), WeightIn(c)) <= Sum(points, WeightIn(c)) + 2
  {
    if wakee < |points| && Sleeping(points[wakee]) {
      MoveWeight(c, points, wakee, Woken(points[wakee]));
    }
  }

  lemma BroadcastWeight(c: Config, points: seq<Point>, onEmpty: bool)
    ensures Sum(Broadcast(points, onEmpty), WeightIn(c)) <= Sum(points, WeightIn(c)) + 2 * |points|
  {
    SumCompare(Broadcast(points, onEmpty), points, WeightIn(c), WeightIn(c), 2);
  }

  /** The loop head before `item` weighs what is left from `item` on. */
  lemma FirstPointWeight(c: Config, item: nat)
    ensures Weight(c, FirstPoint(c, item)) == PushWork(c, item)
  {
  }

  /** A step of `t` to `p'` that leaves the others alone and may change the item count. */
  lemma QuietStepDrops(c: Config, s: State, t: nat, p': Point, s': State)
    requires t < |s.points| && s'.points == s.points[t := p'] && s'.spurious == s.spurious
    requires Weight(c, p') + 7 * s'.ring.count < Weight(c, s.points[t]) + 7 * s.ring.count
    ensures Measure(c, s') < Measure(c, s)
  {
    MoveWeight(c, s.points, t, p');
  }

  /** A step of `t` to `p'` after `points` have become `woken`. */
  lemma WakingStepDrops(c: Config, s: State, woken: seq<Point>, t: nat, p': Point, cost: nat, s': State)
    requires t < |woken| && t < |s.points| && woken[t] == s.points[t] && s'.points == woken[t := p']
    requires s'.spurious == s.spurious && s'.ring == s.ring
    requires Sum(woken, WeightIn(c)) <= Sum(s.points, WeightIn(c)) + cost
    requires Weight(c, p') + cost < Weight(c, s.points[t])
    ensures Measure(c, s') < Measure(c, s)
  {
    MoveWeight(c, woken, t, p');
  }

  lemma ProducerWakeDrops(c: Config, s: State, t: nat, wakee: nat)
    requires Safe(s) && Exclusion(c, s) && Enabled(c, s, Run(t, wakee))
    requires s.points[t].PushSignal? || s.points[t].EndBroadcastEmpty? || s.points[t].EndBroadcastFull?
    ensures Measure(c, ExecProducer(c, s, t, wakee)) < Measure(c, s)
  {
    var p := s.points[t];
    var s' := ExecProducer(c, s, t, wakee);
    if p.PushSignal? {
      SignalWeight(c, s.points, true, wakee);
      WakingStepDrops(c, s, Signal(s.points, true, wakee), t, PushUnlock(p.item), 2, s');
    } else if p.EndBroadcastEmpty? {
      BroadcastWeight(c, s.points, true);
      WakingStepDrops(c, s, Broadcast(s.points, true), t, EndBroadcastFull, 2 * |s.points|, s');
    } else {
      BroadcastWeight(c, s.points, false);
      WakingStepDrops(c, s, Broadcast(s.points, false), t, EndUnlock, 2 * |s.points|, s');
    }
  }

  lemma ProducerStepDrops(c: Config, s: State, t: nat, wakee: nat)
    requires Safe(s) && Exclusion(c, s) && Enabled(c, s, Run(t, wakee))
    requires ProducerPoint(s.points[t]) && Holding(s.points[t])
    ensures Measure(c, ExecProducer(c, s, t, wakee)) < Measure(c, s)
  {
    var p := s.points[t];
    if p.PushSignal? || p.EndBroadcastEmpty? || p.EndBroadcastFull? {
      ProducerWakeDrops(c, s, t, wakee);
    } else {
      var s' := ExecProducer(c, s, t, wakee);
      if p.PushUnlock? {
        FirstPointWeight(c, p.item + 1);
      }
      QuietStepDrops(c, s, t, s'.points[t], s');
    }
  }

  lemma ConsumerStepDrops(c: Config, s: State, t: nat, wakee: nat)
    requires Safe(s) && Exclusion(c, s) && Enabled(c, s, Run(t, wakee))
    requires !ProducerPoint(s.points[t]) && Holding(s.points[t])
    ensures Measure(c, ExecConsumer(s, t, wakee)) < Measure(c, s)
  {
    var s' := ExecConsumer(s, t, wakee);
    if s.points[t].PopSignal? {
      SignalWeight(c, s.points, false, wakee);
      WakingStepDrops(c, s, Signal(s.points, false, wakee), t, PopUnlock, 2, s');
    } else {
      QuietStepDrops(c, s, t, s'.points[t], s');
    }
  }

  lemma SpuriousDrops(c: Config, s: State, t: nat)
    requires Safe(s) && Enabled(c, s, Spurious(t))
    ensures Measure(c, Exec(c, s, Spurious(t))) < Measure(c, s)
  {
    MoveWeight(c, s.points, t, Woken(s.points[t]));
  }

  lemma {:induction false} EveryStepDrops(c: Config, s: State, a: Action)
    requires Safe(s) && Exclusion(c, s) && Enabled(c, s, a)
    ensures Measure(c, Exec(c, s, a)) < Measure(c, s)
  {
    var t := a.thread;
    if a.Spurious? {
      SpuriousDrops(c, s, t);
    } else if WantsMutex(s.points[t]) {
      QuietStepDrops(c, s, t, AfterLock(s.points[t]), Exec(c, s, a));
    } else if ProducerPoint(s.points[t]) {
      ProducerStepDrops(c, s, t, a.wakee);
    } else {
      ConsumerStepDrops(c, s, t, a.wakee);
    }
  }

  lemma {:induction false} TraceBounded(c: Config, s0: State, run: seq<Action>, s: State)
    requires Inv(c, s0) && Trace(c, s0, run, s)
    ensures |run| + Measure(c, s) <= Measure(c, s0)
    decreases |run|
  {
    if run != [] {
      EveryStepDrops(c, s0, run[0]);
      InvKept(c, s0, run[0]);
      TraceBounded(c, Exec(c, s0, run[0]), run[1..], s);
    }
  }

  lemma InitialMeasure(c: Config, s0: State)
    requires c.Valid() && Init(c, s0)
    ensures Measure(c, s0) == PushWork(c, 1) * c.producers + 3 * c.consumers + 3 * s0.spurious
  {
    var w := PushWork(c, 1);
    var left, right := s0.points[..c.producers], s0.points[c.producers..];
    FirstPointWeight(c, 1);
    forall i | 0 <= i < |left|
      ensures WeightIn(c)(left[i]) == w
    {
      assert left[i] == FirstPoint(c, 1);
    }
    SumConstant(left, WeightIn(c), w);
    SumConstant(right, WeightIn(c), 3);
    assert s0.points == left + right;
    SumSplit(left, right, WeightIn(c));
  }

  /** No run is longer than the initial work, so every schedule ends. */
  lemma {:induction false} EveryScheduleEnds(c: Config, s0: State, run: seq<Action>, s: State)
    requires c.Valid() && Init(c, s0) && Trace(c, s0, run, s)
    ensures |run| <= PushWork(c, 1) * c.producers + 3 * c.consumers + 3 * s0.spurious
  {
    InitInv(c, s0);
    TraceBounded(c, s0, run, s);
    InitialMeasure(c, s0);
  }

  /** Where a schedule can go no further every thread has finished, and the consumers
      have popped exactly the accepted items (1..items when there is one producer). */
  lemma {:induction false} EveryScheduleEndsWell(c: Config, s0: State, run: seq<Action>, s: State)
    requires c.Valid() && c.producers >= 1 && c.consumers >= 1
    requires Init(c, s0) && Trace(c, s0, run, s) && !CanRun(c, s)
    ensures AllFinished(s) && s.popped == Values(s.log)
    ensures c.producers == 1 ==> s.popped == UpTo(c.items)
  {
    if !AllFinished(s) {
      NoDeadlock(c, s0, run, s);
    }
    AllDelivered(c, s0, run, s);
  }

}
