/** The producer/consumer program around the bounded queue, as a transition system:
    any number of producers and consumers, any capacity, any number of items per
    producer, and a scheduler that picks every step.

    A step is one action of one thread between two points where another thread can
    observe a difference: taking the mutex, testing a wait condition (and, when it
    holds, releasing the mutex and going to sleep in the same step), updating the
    ring, signalling, broadcasting, releasing the mutex. A signal wakes exactly one
    sleeper of its condition when there is one, chosen by the scheduler. The kernel
    may also wake a sleeper unasked, a bounded number of times. */
module QueueProgram {
  import opened Options
  import opened Sums
  import opened Ring

  /** Threads `0..producers` run `producer`, the rest run `consumer`. */
  datatype Config = Config(cap: nat, items: nat, producers: nat, consumers: nat) {
    predicate Valid() { cap >= 1 }

    function Threads(): nat { producers + consumers }
  }

  /** Program counters. `item` is the loop variable of `producer`. */
  datatype Point =
    | PushLock(item: nat)        // about to lock
    | PushTest(item: nat)        // holds; evaluates the wait condition
    | PushAsleep(item: nat)      // asleep on not_full
    | PushWoken(item: nat)       // woken; must lock again before `wait` returns
    | PushStore(item: nat)       // holds; room is available
    | PushSignal(item: nat)      // holds; item stored, not_empty not yet signalled
    | PushUnlock(item: nat)      // holds; leaving queue_push
    | EndLock                    // after the last item: about to lock
    | EndSet                     // holds; sets shutdown
    | EndBroadcastEmpty          // holds; broadcasts not_empty
    | EndBroadcastFull           // holds; broadcasts not_full
    | EndUnlock                  // holds
    | ProducerDone
    | PopLock
    | PopTest                    // holds; evaluates the wait condition
    | PopAsleep                  // asleep on not_empty
    | PopWoken
    | PopTake                    // holds; an item is available
    | PopSignal                  // holds; item taken, not_full not yet signalled
    | PopUnlock                  // holds; leaving with an item
    | PopExit                    // holds; leaving because drained and shut down
    | ConsumerDone

  predicate ProducerPoint(p: Point) {
    || p.PushLock? || p.PushTest? || p.PushAsleep? || p.PushWoken? || p.PushStore? || p.PushSignal? || p.PushUnlock?
    || p.EndLock? || p.EndSet? || p.EndBroadcastEmpty? || p.EndBroadcastFull? || p.EndUnlock? || p.ProducerDone?
  }

  predicate HasItem(p: Point) {
    p.PushLock? || p.PushTest? || p.PushAsleep? || p.PushWoken? || p.PushStore? || p.PushSignal? || p.PushUnlock?
  }

  predicate WantsMutex(p: Point) {
    p.PushLock? || p.PushWoken? || p.EndLock? || p.PopLock? || p.PopWoken?
  }

  predicate Sleeping(p: Point) {
    p.PushAsleep? || p.PopAsleep?
  }

  predicate Finished(p: Point) {
    p.ProducerDone? || p.ConsumerDone?
  }

  predicate Holding(p: Point) {
    !WantsMutex(p) && !Sleeping(p) && !Finished(p)
  }

  /** `log` and `popped` are histories: accepted pushes with the producer that made
      them, and values handed out by pops. `spurious` bounds the unasked wakeups
      still to come. */
  datatype State = State(
    ring: Ring,
    owner: Option<nat>,
    points: seq<Point>,
    spurious: nat,
    log: seq<(nat, int)>,
    popped: seq<int>)

  /** `wakee` matters to signals only. */
  datatype Action = Run(thread: nat, wakee: nat) | Spurious(thread: nat)

  function FirstPoint(c: Config, item: nat): Point {
    if item <= c.items then PushLock(item) else EndLock
  }

  ghost predicate Init(c: Config, s: State) {
    && s.ring.Valid() && |s.ring.buf| == c.cap
    && s.ring.head == s.ring.tail == s.ring.count == 0 && !s.ring.shutdown
    && s.owner == None
    && |s.points| == c.Threads()
    && (forall t :: 0 <= t < c.producers ==> s.points[t] == FirstPoint(c, 1))
    && (forall t :: c.producers <= t < c.Threads() ==> s.points[t] == PopLock)
    && s.log == [] && s.popped == []
  }

  predicate SomeAsleep(points: seq<Point>, onEmpty: bool) {
    exists t :: 0 <= t < |points| && (if onEmpty then points[t].PopAsleep? else points[t].PushAsleep?)
  }

  function Woken(p: Point): Point
    requires Sleeping(p)
  {
    if p.PopAsleep? then PopWoken else PushWoken(p.item)
  }

  /** `pthread_cond_signal`: not_empty when `onEmpty`, else not_full. */
  function Signal(points: seq<Point>, onEmpty: bool, wakee: nat): seq<Point> {
    if wakee < |points| && (if onEmpty then points[wakee].PopAsleep? else points[wakee].PushAsleep?)
    then points[wakee := Woken(points[wakee])]
    else points
  }

  predicate SignalAllowed(points: seq<Point>, onEmpty: bool, wakee: nat) {
    SomeAsleep(points, onEmpty) ==>
      wakee < |points| && (if onEmpty then points[wakee].PopAsleep? else points[wakee].PushAsleep?)
  }

  /** `pthread_cond_broadcast`. */
  function Broadcast(points: seq<Point>, onEmpty: bool): (r: seq<Point>)
    ensures |r| == |points|
  {
    seq(|points|, t requires 0 <= t < |points| =>
      if (if onEmpty then points[t].PopAsleep? else points[t].PushAsleep?) then Woken(points[t]) else points[t])
  }

  predicate Enabled(c: Config, s: State, a: Action) {
    && a.thread < |s.points|
    && match a
       case Spurious(t) => Sleeping(s.points[t]) && s.spurious > 0
       case Run(t, wakee) =>
         var p := s.points[t];
         if WantsMutex(p) then s.owner == None
         else if p.PushSignal? then SignalAllowed(s.points, true, wakee)
         else if p.PopSignal? then SignalAllowed(s.points, false, wakee)
         else Holding(p)
  }

  /** Where a thread is once it has the mutex it wanted. */
  function AfterLock(p: Point): Point
    requires WantsMutex(p)
  {
    match p
    case PushLock(i) => PushTest(i)
    case PushWoken(i) => PushTest(i)
    case EndLock => EndSet
    case PopLock => PopTest
    case PopWoken => PopTest
  }

  function Goto(s: State, t: nat, p: Point): State
    requires t < |s.points|
  {
    s.(points := s.points[t := p])
  }

  function Unlock(s: State, t: nat, p: Point): State
    requires t < |s.points|
  {
    s.(owner := None, points := s.points[t := p])
  }

  function ExecProducer(c: Config, s: State, t: nat, wakee: nat): State
    requires t < |s.points| && ProducerPoint(s.points[t]) && Holding(s.points[t])
    requires s.ring.Valid() && (s.points[t].PushStore? ==> !s.ring.Full())
  {
    match s.points[t]
    case PushTest(i) =>
      if s.ring.Full() && !s.ring.shutdown then Unlock(s, t, PushAsleep(i))
      else if s.ring.shutdown then Goto(s, t, PushUnlock(i))
      else Goto(s, t, PushStore(i))
    case PushStore(i) => Goto(s, t, PushSignal(i)).(ring := s.ring.Store(i), log := s.log + [(t, i)])
    case PushSignal(i) => s.(points := Signal(s.points, true, wakee)[t := PushUnlock(i)])
    case PushUnlock(i) => Unlock(s, t, FirstPoint(c, i + 1))
    case EndSet => Goto(s, t, EndBroadcastEmpty).(ring := s.ring.(shutdown := true))
    case EndBroadcastEmpty => s.(points := Broadcast(s.points, true)[t := EndBroadcastFull])
    case EndBroadcastFull => s.(points := Broadcast(s.points, false)[t := EndUnlock])
    case EndUnlock => Unlock(s, t, ProducerDone)
  }

  function ExecConsumer(s: State, t: nat, wakee: nat): State
    requires t < |s.points| && !ProducerPoint(s.points[t]) && Holding(s.points[t])
    requires s.ring.Valid() && (s.points[t].PopTake? ==> !s.ring.Empty())
  {
    match s.points[t]
    case PopTest =>
      if s.ring.Empty() && !s.ring.shutdown then Unlock(s, t, PopAsleep)
      else if s.ring.Empty() && s.ring.shutdown then Goto(s, t, PopExit)
      else Goto(s, t, PopTake)
    case PopTake => Goto(s, t, PopSignal).(ring := s.ring.Take(), popped := s.popped + [s.ring.Front()])
    case PopSignal => s.(points := Signal(s.points, false, wakee)[t := PopUnlock])
    case PopUnlock => Unlock(s, t, PopLock)
    case PopExit => Unlock(s, t, ConsumerDone)
  }

  /** What the code relies on when it touches the ring without a further test. */
  ghost predicate Safe(s: State) {
    && s.ring.Valid()
    && (forall t :: 0 <= t < |s.points| ==> s.points[t].PushStore? ==> !s.ring.Full())
    && (forall t :: 0 <= t < |s.points| ==> s.points[t].PopTake? ==> !s.ring.Empty())
  }

  function Exec(c: Config, s: State, a: Action): State
    requires Safe(s) && Enabled(c, s, a)
  {
    match a
    case Spurious(t) => Goto(s, t, Woken(s.points[t])).(spurious := s.spurious - 1)
    case Run(t, wakee) =>
      if WantsMutex(s.points[t]) then Goto(s, t, AfterLock(s.points[t])).(owner := Some(t))
      else if ProducerPoint(s.points[t]) then ExecProducer(c, s, t, wakee)
      else ExecConsumer(s, t, wakee)
  }

  /** `s` is reached from `s0` by the actions `run`, each enabled when it is taken. */
  ghost predicate Trace(c: Config, s0: State, run: seq<Action>, s: State)
    decreases |run|
  {
    if run == [] then s == s0
    else Safe(s0) && Enabled(c, s0, run[0]) && Trace(c, Exec(c, s0, run[0]), run[1..], s)
  }

  // ---------------------------------------------------------------- invariant

  /** Mutual exclusion and the roles of the threads. */
  ghost predicate Exclusion(c: Config, s: State) {
    && |s.points| == c.Threads()
    && |s.ring.buf| == c.cap
    && (s.owner.Some? ==> s.owner.value < |s.points|)
    && (forall t :: 0 <= t < |s.points| ==> (Holding(s.points[t]) <==> s.owner == Some(t)))
    && (forall t :: 0 <= t < |s.points| ==> (ProducerPoint(s.points[t]) <==> t < c.producers))
    && (forall t :: 0 <= t < |s.points| ==> HasItem(s.points[t]) ==> 1 <= s.points[t].item <= c.items)
  }

  /** Threads that will look at the item count again without being signalled, or
      that are about to signal not_empty. */
  function ConsumerCredit(p: Point): nat {
    if p.PopWoken? || p.PopTest? || p.PopTake? || p.PushSignal? then 1 else 0
  }

  function ProducerCredit(p: Point): nat {
    if p.PushWoken? || p.PushTest? || p.PushStore? || p.PopSignal? then 1 else 0
  }

  /** No wakeup is lost: a sleeper leaves behind no more items (or free slots) than
      there are threads already on their way to them. */
  ghost predicate NoLostWakeup(s: State)
    requires s.ring.Valid()
  {
    && (SomeAsleep(s.points, true) ==> s.ring.count <= Sum(s.points, ConsumerCredit))
    && (SomeAsleep(s.points, false) ==> |s.ring.buf| - s.ring.count <= Sum(s.points, ProducerCredit))
  }

  predicate AtPoint(s: State, p: Point) {
    s.owner.Some? && s.owner.value < |s.points| && s.points[s.owner.value] == p
  }

  /** Once shutdown is set, only a broadcast still to come can leave a sleeper behind. */
  ghost predicate SleepRules(s: State) {
    && (s.ring.shutdown && SomeAsleep(s.points, true) ==> AtPoint(s, EndBroadcastEmpty))
    && (s.ring.shutdown && SomeAsleep(s.points, false) ==>
          AtPoint(s, EndBroadcastEmpty) || AtPoint(s, EndBroadcastFull))
  }

  /** What a thread at `p` knows about the ring. */
  ghost predicate PointRule(r: Ring, p: Point) {
    && (p.PushStore? || p.PushSignal? ==> !r.shutdown)
    && (p.EndBroadcastEmpty? || p.EndBroadcastFull? || p.EndUnlock? || p.ProducerDone? ==> r.shutdown)
    && (p.PopExit? || p.ConsumerDone? ==> r.shutdown && r.Empty())
  }

  ghost predicate ShutdownRules(s: State) {
    && SleepRules(s)
    && (forall t :: 0 <= t < |s.points| ==> PointRule(s.ring, s.points[t]))
  }

  function Values(log: seq<(nat, int)>): (r: seq<int>)
    ensures |r| == |log|
  {
    seq(|log|, k requires 0 <= k < |log| => log[k].1)
  }

  /** The values in `log` that come from producer `p`, in order. */
  function From(log: seq<(nat, int)>, p: nat): seq<int> {
    if log == [] then []
    else From(log[..|log| - 1], p) + if log[|log| - 1].0 == p then [log[|log| - 1].1] else []
  }

  /** 1, 2, ..., n */
  function UpTo(n: nat): seq<int> {
    seq(n, k => k + 1)
  }

  /** How many items a producer has handed to the queue when none was dropped. */
  function Progress(c: Config, p: Point): nat
    requires ProducerPoint(p) && (HasItem(p) ==> p.item >= 1)
  {
    if p.PushSignal? || p.PushUnlock? then p.item
    else if HasItem(p) then p.item - 1
    else c.items
  }

  /** Producer `p`'s part of the log is 1, 2, ... without a gap; nothing is missing
      before shutdown. */
  ghost predicate InOrder(c: Config, s: State, p: nat)
    requires p < c.producers <= |s.points|
    requires ProducerPoint(s.points[p]) && (HasItem(s.points[p]) ==> s.points[p].item >= 1)
  {
    && From(s.log, p) == UpTo(|From(s.log, p)|)
    && |From(s.log, p)| <= Progress(c, s.points[p]) <= c.items
    && (!s.ring.shutdown ==> |From(s.log, p)| == Progress(c, s.points[p]))
  }

  ghost predicate Histories(c: Config, s: State)
    requires Exclusion(c, s) && s.ring.Valid()
  {
    && Values(s.log) == s.popped + s.ring.Contents()
    && (forall k :: 0 <= k < |s.log| ==> s.log[k].0 < c.producers)
    && (forall p :: 0 <= p < c.producers ==> InOrder(c, s, p))
    && (s.ring.shutdown ==> exists p :: 0 <= p < c.producers && From(s.log, p) == UpTo(c.items))
  }

  ghost predicate Inv(c: Config, s: State) {
    && c.Valid()
    && Safe(s)
    && Exclusion(c, s)
    && NoLostWakeup(s)
    && ShutdownRules(s)
    && Histories(c, s)
  }

  lemma InitInv(c: Config, s: State)
    requires c.Valid() && Init(c, s)
    ensures Inv(c, s)
  {
    assert s.ring.Contents() == [];
    assert Values(s.log) == [];
    assert UpTo(0) == [];
  }

  // ------------------------------------------------- each step keeps the invariant

  /** A step moves the thread that takes it; any other thread stays where it is or is woken. */
  ghost predicate OthersKept(points: seq<Point>, points': seq<Point>, t: nat) {
    && |points'| == |points|
    && (forall u :: 0 <= u < |points| && u != t ==>
          points'[u] == points[u] || (Sleeping(points[u]) && points'[u] == Woken(points[u])))
  }

  lemma StepFrame(c: Config, s: State, a: Action)
    requires Safe(s) && Enabled(c, s, a)
    ensures OthersKept(s.points, Exec(c, s, a).points, a.thread)
  {
  }

  /** The stepping thread keeps its role, and holds the mutex afterwards exactly when
      it is the recorded owner. */
  ghost predicate OwnThreadOk(c: Config, s: State, s': State, t: nat)
    requires t < |s.points|
  {
    && |s'.points| == |s.points| && |s'.ring.buf| == |s.ring.buf|
    && (Holding(s'.points[t]) <==> s'.owner == Some(t))
    && (s'.owner == s.owner || (s.owner in {None, Some(t)} && s'.owner in {None, Some(t)}))
    && (ProducerPoint(s'.points[t]) <==> ProducerPoint(s.points[t]))
    && (HasItem(s'.points[t]) ==> 1 <= s'.points[t].item <= c.items)
  }

  lemma OwnProducer(c: Config, s: State, t: nat, wakee: nat)
    requires Safe(s) && Exclusion(c, s) && Enabled(c, s, Run(t, wakee))
    requires ProducerPoint(s.points[t]) && Holding(s.points[t])
    ensures OwnThreadOk(c, s, ExecProducer(c, s, t, wakee), t)
  {
  }

  lemma OwnConsumer(c: Config, s: State, t: nat, wakee: nat)
    requires Safe(s) && Exclusion(c, s) && Enabled(c, s, Run(t, wakee))
    requires !ProducerPoint(s.points[t]) && Holding(s.points[t])
    ensures OwnThreadOk(c, s, ExecConsumer(s, t, wakee), t)
  {
  }

  lemma ExclusionKept(c: Config, s: State, a: Action)
    requires Safe(s) && Exclusion(c, s) && Enabled(c, s, a)
    ensures Exclusion(c, Exec(c, s, a))
  {
    var s' := Exec(c, s, a);
    var t := a.thread;
    StepFrame(c, s, a);
    if Holding(s.points[t]) && a.Run? {
      if ProducerPoint(s.points[t]) {
        OwnProducer(c, s, t, a.wakee);
      } else {
        OwnConsumer(c, s, t, a.wakee);
      }
    }
    assert OwnThreadOk(c, s, s', t);
    forall u | 0 <= u < |s.points|
      ensures Holding(s'.points[u]) <==> s'.owner == Some(u)
      ensures ProducerPoint(s'.points[u]) <==> u < c.producers
      ensures HasItem(s'.points[u]) ==> 1 <= s'.points[u].item <= c.items
    {
      if u != t {
        assert s'.points[u] == s.points[u] || (Sleeping(s.points[u]) && s'.points[u] == Woken(s.points[u]));
      }
    }
  }

  /** At the points where the code relies on it, the ring has room or an item. */
  ghost predicate MayTouch(r: Ring, p: Point) {
    (p.PushStore? ==> !r.Full()) && (p.PopTake? ==> !r.Empty())
  }

  /** Storing and taking make the other kind possible and are done one at a time. */
  lemma RingSafe(c: Config, s: State, a: Action)
    requires Safe(s) && Exclusion(c, s) && Enabled(c, s, a)
    ensures var s' := Exec(c, s, a);
      && s'.ring.Valid() && MayTouch(s'.ring, s'.points[a.thread])
      && (Holding(s.points[a.thread]) || s'.ring == s.ring)
  {
    if a.Run? && s.points[a.thread].PushStore? {
      StoreAppends(s.ring, s.points[a.thread].item);
    }
    if a.Run? && s.points[a.thread].PopTake? {
      TakeDropsFront(s.ring);
    }
  }

  lemma SafeKept(c: Config, s: State, a: Action)
    requires Safe(s) && Exclusion(c, s) && Enabled(c, s, a)
    ensures Safe(Exec(c, s, a))
  {
    var s' := Exec(c, s, a);
    RingSafe(c, s, a);
    StepFrame(c, s, a);
    forall u | 0 <= u < |s'.points|
      ensures MayTouch(s'.ring, s'.points[u])
    {
      if u != a.thread && s'.points[u] == s.points[u] && Holding(s.points[u]) {
        assert s.owner == Some(u);
      }
    }
  }

  /** Waking threads takes nobody's credit away. */
  lemma BroadcastCredit(points: seq<Point>, onEmpty: bool)
    ensures Sum(points, ConsumerCredit) <= Sum(Broadcast(points, onEmpty), ConsumerCredit)
    ensures Sum(points, ProducerCredit) <= Sum(Broadcast(points, onEmpty), ProducerCredit)
    ensures !SomeAsleep(Broadcast(points, onEmpty), onEmpty)
    ensures SomeAsleep(Broadcast(points, onEmpty), !onEmpty) ==> SomeAsleep(points, !onEmpty)
  {
    SumCompare(points, Broadcast(points, onEmpty), ConsumerCredit, ConsumerCredit, 0);
    SumCompare(points, Broadcast(points, onEmpty), ProducerCredit, ProducerCredit, 0);
  }

  /** A signal turns one sleeper, if there is one, into a credit. */
  lemma SignalCredit(points: seq<Point>, onEmpty: bool, wakee: nat)
    requires SignalAllowed(points, onEmpty, wakee)
    ensures var some := if SomeAsleep(points, onEmpty) then 1 else 0; var after := Signal(points, onEmpty, wakee);
      && Sum(after, ConsumerCredit) == Sum(points, ConsumerCredit) + (if onEmpty then some else 0)
      && Sum(after, ProducerCredit) == Sum(points, ProducerCredit) + (if onEmpty then 0 else some)
      && (SomeAsleep(after, onEmpty) ==> SomeAsleep(points, onEmpty))
      && (SomeAsleep(after, !onEmpty) ==> SomeAsleep(points, !onEmpty))
  {
    if SomeAsleep(points, onEmpty) {
      SumUpdate(points, wakee, Woken(points[wakee]), ConsumerCredit);
      SumUpdate(points, wakee, Woken(points[wakee]), ProducerCredit);
    }
    var after := Signal(points, onEmpty, wakee);
    forall u | 0 <= u < |points|
      ensures Sleeping(after[u]) ==> points[u] == after[u]
    {
    }
  }

  /** The credits after thread `t` has moved to `p`. */
  lemma MoveCredit(points: seq<Point>, t: nat, p: Point)
    requires t < |points|
    ensures var after := points[t := p];
      && Sum(after, ConsumerCredit) + ConsumerCredit(points[t]) == Sum(points, ConsumerCredit) + ConsumerCredit(p)
      && Sum(after, ProducerCredit) + ProducerCredit(points[t]) == Sum(points, ProducerCredit) + ProducerCredit(p)
      && (SomeAsleep(after, true) ==> p.PopAsleep? || SomeAsleep(points, true))
      && (SomeAsleep(after, false) ==> p.PushAsleep? || SomeAsleep(points, false))
  {
    SumUpdate(points, t, p, ConsumerCredit);
    SumUpdate(points, t, p, ProducerCredit);
    var after := points[t := p];
    forall u | 0 <= u < |points| && u != t
      ensures after[u] == points[u]
    {
    }
  }

  lemma NoLostWakeupWaking(c: Config, s: State, t: nat, wakee: nat)
    requires Safe(s) && Exclusion(c, s) && NoLostWakeup(s)
    requires Enabled(c, s, Run(t, wakee))
    requires s.points[t].PushSignal? || s.points[t].EndBroadcastEmpty? || s.points[t].EndBroadcastFull?
    ensures NoLostWakeup(ExecProducer(c, s, t, wakee))
  {
    var s' := ExecProducer(c, s, t, wakee);
    if s.points[t].PushSignal? {
      SignalCredit(s.points, true, wakee);
      MoveCredit(Signal(s.points, true, wakee), t, s'.points[t]);
    } else {
      var onEmpty := s.points[t].EndBroadcastEmpty?;
      BroadcastCredit(s.points, onEmpty);
      MoveCredit(Broadcast(s.points, onEmpty), t, s'.points[t]);
    }
  }

  lemma NoLostWakeupProducer(c: Config, s: State, t: nat, wakee: nat)
    requires Safe(s) && Exclusion(c, s) && NoLostWakeup(s) && SleepRules(s)
    requires Enabled(c, s, Run(t, wakee)) && ProducerPoint(s.points[t]) && Holding(s.points[t])
    ensures var s' := ExecProducer(c, s, t, wakee); s'.ring.Valid() && NoLostWakeup(s')
  {
    var p := s.points[t];
    if p.PushSignal? || p.EndBroadcastEmpty? || p.EndBroadcastFull? {
      NoLostWakeupWaking(c, s, t, wakee);
    } else {
      MoveCredit(s.points, t, ExecProducer(c, s, t, wakee).points[t]);
      if p.PushStore? {
        StoreAppends(s.ring, p.item);
      }
      assert s.owner == Some(t);
    }
  }

  lemma NoLostWakeupPopSignal(c: Config, s: State, t: nat, wakee: nat)
    requires Safe(s) && Exclusion(c, s) && NoLostWakeup(s)
    requires Enabled(c, s, Run(t, wakee)) && s.points[t].PopSignal?
    ensures NoLostWakeup(ExecConsumer(s, t, wakee))
  {
    SignalCredit(s.points, false, wakee);
    MoveCredit(Signal(s.points, false, wakee), t, PopUnlock);
  }

  lemma NoLostWakeupConsumer(c: Config, s: State, t: nat, wakee: nat)
    requires Safe(s) && Exclusion(c, s) && NoLostWakeup(s) && SleepRules(s)
    requires Enabled(c, s, Run(t, wakee)) && !ProducerPoint(s.points[t]) && Holding(s.points[t])
    ensures var s' := ExecConsumer(s, t, wakee); s'.ring.Valid() && NoLostWakeup(s')
  {
    if s.points[t].PopSignal? {
      NoLostWakeupPopSignal(c, s, t, wakee);
    } else {
      MoveCredit(s.points, t, ExecConsumer(s, t, wakee).points[t]);
      if s.points[t].PopTake? {
        TakeDropsFront(s.ring);
      }
    }
  }

  lemma {:induction false} NoLostWakeupKept(c: Config, s: State, a: Action)
    requires Safe(s) && Exclusion(c, s) && NoLostWakeup(s) && ShutdownRules(s) && Enabled(c, s, a)
    ensures var s' := Exec(c, s, a); s'.ring.Valid() && NoLostWakeup(s')
  {
    var t := a.thread;
    if a.Spurious? || WantsMutex(s.points[t]) {
      MoveCredit(s.points, t, Exec(c, s, a).points[t]);
    } else if ProducerPoint(s.points[t]) {
      NoLostWakeupProducer(c, s, t, a.wakee);
    } else {
      NoLostWakeupConsumer(c, s, t, a.wakee);
    }
  }

  lemma SleepRulesProducer(c: Config, s: State, t: nat, wakee: nat)
    requires Safe(s) && Exclusion(c, s) && SleepRules(s)
    requires Enabled(c, s, Run(t, wakee)) && ProducerPoint(s.points[t]) && Holding(s.points[t])
    ensures SleepRules(ExecProducer(c, s, t, wakee))
  {
    var s' := ExecProducer(c, s, t, wakee);
    assert s.owner == Some(t);
    if s.points[t].PushSignal? {
      SignalCredit(s.points, true, wakee);
      MoveCredit(Signal(s.points, true, wakee), t, s'.points[t]);
    } else if s.points[t].EndBroadcastEmpty? {
      BroadcastCredit(s.points, true);
      MoveCredit(Broadcast(s.points, true), t, s'.points[t]);
    } else if s.points[t].EndBroadcastFull? {
      BroadcastCredit(s.points, false);
      MoveCredit(Broadcast(s.points, false), t, s'.points[t]);
    } else {
      MoveCredit(s.points, t, s'.points[t]);
    }
  }

  lemma SleepRulesConsumer(c: Config, s: State, t: nat, wakee: nat)
    requires Safe(s) && Exclusion(c, s) && SleepRules(s)
    requires Enabled(c, s, Run(t, wakee)) && !ProducerPoint(s.points[t]) && Holding(s.points[t])
    ensures SleepRules(ExecConsumer(s, t, wakee))
  {
    var s' := ExecConsumer(s, t, wakee);
    assert s.owner == Some(t);
    if s.points[t].PopSignal? {
      SignalCredit(s.points, false, wakee);
      MoveCredit(Signal(s.points, false, wakee), t, s'.points[t]);
    } else {
      MoveCredit(s.points, t, s'.points[t]);
    }
  }

  lemma SleepRulesKept(c: Config, s: State, a: Action)
    requires Safe(s) && Exclusion(c, s) && SleepRules(s) && Enabled(c, s, a)
    ensures SleepRules(Exec(c, s, a))
  {
    var t := a.thread;
    if a.Spurious? || WantsMutex(s.points[t]) {
      MoveCredit(s.points, t, Exec(c, s, a).points[t]);
      assert a.Run? ==> s.owner == None;
    } else if ProducerPoint(s.points[t]) {
      SleepRulesProducer(c, s, t, a.wakee);
    } else {
      SleepRulesConsumer(c, s, t, a.wakee);
    }
  }

  /** The ring changes only under a thread whose own rule keeps the others' rules true. */
  lemma RingStep(c: Config, s: State, a: Action)
    requires Safe(s) && Exclusion(c, s) && Enabled(c, s, a)
    requires forall t :: 0 <= t < |s.points| ==> PointRule(s.ring, s.points[t])
    ensures var s' := Exec(c, s, a);
      && PointRule(s'.ring, s'.points[a.thread])
      && (forall u :: 0 <= u < |s.points| && u != a.thread ==> PointRule(s'.ring, s.points[u]))
  {
    assert PointRule(s.ring, s.points[a.thread]);
  }

  lemma {:induction false} ShutdownRulesKept(c: Config, s: State, a: Action)
    requires Safe(s) && Exclusion(c, s) && ShutdownRules(s) && Enabled(c, s, a)
    ensures ShutdownRules(Exec(c, s, a))
  {
    var s' := Exec(c, s, a);
    SleepRulesKept(c, s, a);
    RingStep(c, s, a);
    StepFrame(c, s, a);
    forall u | 0 <= u < |s.points|
      ensures PointRule(s'.ring, s'.points[u])
    {
      if u != a.thread {
        assert s'.points[u] == s.points[u] || (Sleeping(s.points[u]) && s'.points[u] == Woken(s.points[u]));
      }
    }
  }

  lemma FromAppend(log: seq<(nat, int)>, e: (nat, int), p: nat)
    ensures From(log + [e], p) == From(log, p) + if e.0 == p then [e.1] else []
  {
    assert (log + [e])[..|log|] == log;
  }

  /** The producer that steps: its item counter and its part of the log move together. */
  lemma InOrderOwn(c: Config, s: State, t: nat, wakee: nat)
    requires Safe(s) && Exclusion(c, s) && Enabled(c, s, Run(t, wakee))
    requires PointRule(s.ring, s.points[t]) && ProducerPoint(s.points[t]) && Holding(s.points[t])
    requires t < c.producers && InOrder(c, s, t)
    ensures var s' := ExecProducer(c, s, t, wakee);
      |s'.points| == |s.points| && ProducerPoint(s'.points[t]) && (HasItem(s'.points[t]) ==> s'.points[t].item >= 1) &&
      InOrder(c, s', t)
  {
    if s.points[t].PushStore? {
      var i := s.points[t].item;
      FromAppend(s.log, (t, i), t);
      assert From(s.log, t) + [i] == UpTo(i);
    }
  }

  /** A step adds to the log only an item that the stepping producer stores. */
  lemma LogGrows(c: Config, s: State, a: Action)
    requires Safe(s) && Exclusion(c, s) && Enabled(c, s, a)
    ensures var s' := Exec(c, s, a);
      && (s'.log == s.log
          || (a.Run? && s.points[a.thread].PushStore? && s'.log == s.log + [(a.thread, s.points[a.thread].item)]))
      && (s.ring.shutdown ==> s'.ring.shutdown)
  {
  }

  lemma InOrderOther(c: Config, s: State, a: Action, p: nat)
    requires Safe(s) && Exclusion(c, s) && Enabled(c, s, a)
    requires p < c.producers && InOrder(c, s, p) && (p != a.thread || a.Spurious? || WantsMutex(s.points[p]))
    requires Exclusion(c, Exec(c, s, a))
    ensures InOrder(c, Exec(c, s, a), p)
  {
    var s' := Exec(c, s, a);
    StepFrame(c, s, a);
    LogGrows(c, s, a);
    if s'.log != s.log {
      FromAppend(s.log, (a.thread, s.points[a.thread].item), p);
    }
    assert From(s'.log, p) == From(s.log, p);
    assert Progress(c, s'.points[p]) == Progress(c, s.points[p]);
  }

  lemma LogKept(c: Config, s: State, a: Action)
    requires Safe(s) && Exclusion(c, s) && Enabled(c, s, a)
    requires Values(s.log) == s.popped + s.ring.Contents()
    ensures var s' := Exec(c, s, a); s'.ring.Valid() && Values(s'.log) == s'.popped + s'.ring.Contents()
  {
    var s' := Exec(c, s, a);
    var p := s.points[a.thread];
    if a.Run? && p.PushStore? {
      StoreAppends(s.ring, p.item);
      assert Values(s'.log) == Values(s.log) + [p.item];
    } else if a.Run? && p.PopTake? {
      TakeDropsFront(s.ring);
    } else {
      assert s'.ring == s.ring || s'.ring == s.ring.(shutdown := true);
      assert s'.ring.Contents() == s.ring.Contents();
    }
  }

  /** The producer that sets shutdown has all its items in the log, and they stay there. */
  lemma CompleteKept(c: Config, s: State, a: Action)
    requires Safe(s) && Exclusion(c, s) && Enabled(c, s, a) && PointRule(s.ring, s.points[a.thread])
    requires forall p :: 0 <= p < c.producers ==> InOrder(c, s, p)
    requires s.ring.shutdown ==> exists p :: 0 <= p < c.producers && From(s.log, p) == UpTo(c.items)
    ensures var s' := Exec(c, s, a);
      s'.ring.shutdown ==> exists p :: 0 <= p < c.producers && From(s'.log, p) == UpTo(c.items)
  {
    var s' := Exec(c, s, a);
    LogGrows(c, s, a);
    if s'.ring.shutdown {
      if s.ring.shutdown {
        assert s'.log == s.log;
      } else {
        assert s.points[a.thread].EndSet?;
        assert InOrder(c, s, a.thread);
        assert From(s'.log, a.thread) == UpTo(c.items);
      }
    }
  }

  lemma HistoriesKept(c: Config, s: State, a: Action)
    requires Safe(s) && Exclusion(c, s) && ShutdownRules(s) && Histories(c, s) && Enabled(c, s, a)
    requires Safe(Exec(c, s, a)) && Exclusion(c, Exec(c, s, a))
    ensures Histories(c, Exec(c, s, a))
  {
    var s' := Exec(c, s, a);
    var t := a.thread;
    assert PointRule(s.ring, s.points[t]);
    LogKept(c, s, a);
    LogGrows(c, s, a);
    CompleteKept(c, s, a);
    forall p | 0 <= p < c.producers
      ensures InOrder(c, s', p)
    {
      assert InOrder(c, s, p);
      if p == t && a.Run? && !WantsMutex(s.points[p]) {
        InOrderOwn(c, s, p, a.wakee);
      } else {
        InOrderOther(c, s, a, p);
      }
    }
  }

  lemma InvKept(c: Config, s: State, a: Action)
    requires Inv(c, s) && Enabled(c, s, a)
    ensures Inv(c, Exec(c, s, a))
  {
    SafeKept(c, s, a);
    ExclusionKept(c, s, a);
    NoLostWakeupKept(c, s, a);
    ShutdownRulesKept(c, s, a);
    HistoriesKept(c, s, a);
  }

  lemma {:induction false} TraceInv(c: Config, s0: State, run: seq<Action>, s: State)
    requires Inv(c, s0) && Trace(c, s0, run, s)
    ensures Inv(c, s)
    decreases |run|
  {
    if run != [] {
      InvKept(c, s0, run[0]);
      TraceInv(c, Exec(c, s0, run[0]), run[1..], s);
    }
  }

  // ------------------------------------------------------------- main results

  function AwakeAgain(p: Point, onEmpty: bool): nat {
    if (if onEmpty then p.PopWoken? else p.PushWoken?) then 1 else 0
  }

  function AwakeAgainAt(onEmpty: bool): Point -> nat {
    p => AwakeAgain(p, onEmpty)
  }

  /** With the mutex free, the only credits are threads woken and still to lock again. */
  lemma CreditsWhenFree(c: Config, s: State)
    requires Exclusion(c, s) && s.owner == None
    ensures Sum(s.points, ConsumerCredit) <= Sum(s.points, AwakeAgainAt(true))
    ensures Sum(s.points, ProducerCredit) <= Sum(s.points, AwakeAgainAt(false))
  {
    forall t | 0 <= t < |s.points|
      ensures ConsumerCredit(s.points[t]) <= AwakeAgainAt(true)(s.points[t]) + 0
      ensures ProducerCredit(s.points[t]) <= AwakeAgainAt(false)(s.points[t]) + 0
    {
      assert !Holding(s.points[t]);
    }
    SumCompare(s.points, s.points, ConsumerCredit, AwakeAgainAt(true), 0);
    SumCompare(s.points, s.points, ProducerCredit, AwakeAgainAt(false), 0);
  }

  /** No wakeup is lost, in every reachable state in which the mutex is free: while a
      consumer sleeps, the items present do not exceed the consumers woken and still
      to lock again, and likewise for producers and free slots; after shutdown nobody
      sleeps. */
  lemma {:induction false} NoWakeupLost(c: Config, s0: State, run: seq<Action>, s: State)
    requires c.Valid() && Init(c, s0) && Trace(c, s0, run, s) && s.owner == None
    ensures SomeAsleep(s.points, true) ==> s.ring.count <= Sum(s.points, AwakeAgainAt(true))
    ensures SomeAsleep(s.points, false) ==> c.cap - s.ring.count <= Sum(s.points, AwakeAgainAt(false))
    ensures s.ring.shutdown ==> !SomeAsleep(s.points, true) && !SomeAsleep(s.points, false)
  {
    InitInv(c, s0);
    TraceInv(c, s0, run, s);
    CreditsWhenFree(c, s);
  }

  /** The mutex does its work in every reachable state: at most one thread is between
      taking and releasing it, and whoever is about to store or take without a further
      test finds room or an item. */
  lemma {:induction false} RingNeverMisused(c: Config, s0: State, run: seq<Action>, s: State)
    requires c.Valid() && Init(c, s0) && Trace(c, s0, run, s)
    ensures Safe(s)
    ensures forall t, u :: 0 <= t < |s.points| && 0 <= u < |s.points| ==>
      Holding(s.points[t]) && Holding(s.points[u]) ==> t == u
  {
    InitInv(c, s0);
    TraceInv(c, s0, run, s);
  }

  ghost predicate CanRun(c: Config, s: State) {
    exists t: nat, wakee: nat :: Enabled(c, s, Run(t, wakee))
  }

  lemma HolderCanRun(c: Config, s: State, t: nat)
    requires Exclusion(c, s) && s.owner == Some(t)
    ensures CanRun(c, s)
  {
    var p := s.points[t];
    var onEmpty := p.PushSignal?;
    if p.PushSignal? || p.PopSignal? {
      if SomeAsleep(s.points, onEmpty) {
        var w :| 0 <= w < |s.points| && (if onEmpty then s.points[w].PopAsleep? else s.points[w].PushAsleep?);
        assert Enabled(c, s, Run(t, w));
      } else {
        assert Enabled(c, s, Run(t, 0));
      }
    } else {
      assert Enabled(c, s, Run(t, 0));
    }
  }

  /** When nobody can run, every thread is asleep or finished, and a sleeper of either
      kind fixes the item count. */
  lemma StuckShape(c: Config, s: State)
    requires c.Valid() && s.ring.Valid() && Exclusion(c, s) && NoLostWakeup(s) && SleepRules(s) && !CanRun(c, s)
    ensures forall t :: 0 <= t < |s.points| ==> Sleeping(s.points[t]) || Finished(s.points[t])
    ensures SomeAsleep(s.points, true) ==> s.ring.Empty() && !s.ring.shutdown
    ensures SomeAsleep(s.points, false) ==> s.ring.Full() && !s.ring.shutdown
  {
    if s.owner.Some? {
      HolderCanRun(c, s, s.owner.value);
    }
    forall t | 0 <= t < |s.points|
      ensures Sleeping(s.points[t]) || Finished(s.points[t])
    {
      assert !Enabled(c, s, Run(t, 0));
    }
    forall t | 0 <= t < |s.points|
      ensures ConsumerCredit(s.points[t]) == 0 && ProducerCredit(s.points[t]) == 0
    {
      assert Sleeping(s.points[t]) || Finished(s.points[t]);
    }
    SumConstant(s.points, ConsumerCredit, 0);
    SumConstant(s.points, ProducerCredit, 0);
  }

  ghost predicate AllFinished(s: State) {
    forall t :: 0 <= t < |s.points| ==> Finished(s.points[t])
  }

  lemma StuckMeansFinished(c: Config, s: State)
    requires Inv(c, s) && c.producers >= 1 && c.consumers >= 1 && !CanRun(c, s)
    ensures AllFinished(s)
  {
    StuckShape(c, s);
    var prod, cons := s.points[0], s.points[c.producers];
    assert PointRule(s.ring, prod) && PointRule(s.ring, cons);
    assert ProducerPoint(prod) && !ProducerPoint(cons);
    assert prod.ProducerDone? || prod.PushAsleep?;
    assert cons.ConsumerDone? || cons.PopAsleep?;
  }

  /** No deadlock: with a producer and a consumer at least, a reachable state with an
      unfinished thread has a step that needs no unasked wakeup. */
  lemma {:induction false} NoDeadlock(c: Config, s0: State, run: seq<Action>, s: State)
    requires c.Valid() && c.producers >= 1 && c.consumers >= 1
    requires Init(c, s0) && Trace(c, s0, run, s) && !AllFinished(s)
    ensures CanRun(c, s)
  {
    InitInv(c, s0);
    TraceInv(c, s0, run, s);
    if !CanRun(c, s) {
      StuckMeansFinished(c, s);
    }
  }

  /** FIFO under every interleaving: accepted pushes are what has been popped followed
      by what the ring holds, read from the head. */
  lemma {:induction false} FirstInFirstOut(c: Config, s0: State, run: seq<Action>, s: State)
    requires c.Valid() && Init(c, s0) && Trace(c, s0, run, s)
    ensures s.ring.Valid() && |s.ring.buf| == c.cap
    ensures Values(s.log) == s.popped + s.ring.Contents()
    ensures forall p: nat :: p < c.producers ==> From(s.log, p) == UpTo(|From(s.log, p)|) && |From(s.log, p)| <= c.items
  {
    InitInv(c, s0);
    TraceInv(c, s0, run, s);
    forall p: nat | p < c.producers
      ensures From(s.log, p) == UpTo(|From(s.log, p)|) && |From(s.log, p)| <= c.items
    {
      assert InOrder(c, s, p);
    }
  }

  lemma {:induction false} OnlyOneProducer(log: seq<(nat, int)>)
    requires forall k :: 0 <= k < |log| ==> log[k].0 < 1
    ensures From(log, 0) == Values(log)
  {
    if log != [] {
      OnlyOneProducer(log[..|log| - 1]);
      assert Values(log) == Values(log[..|log| - 1]) + [log[|log| - 1].1];
    }
  }

  /** Nothing accepted is lost: when all threads are done the consumers have popped
      exactly the accepted items, all items of some producer among them. One producer
      delivers 1, 2, ..., items. */
  lemma {:induction false} AllDelivered(c: Config, s0: State, run: seq<Action>, s: State)
    requires c.Valid() && c.producers >= 1 && c.consumers >= 1
    requires Init(c, s0) && Trace(c, s0, run, s) && AllFinished(s)
    ensures s.popped == Values(s.log)
    ensures exists p: nat :: p < c.producers && From(s.log, p) == UpTo(c.items)
    ensures c.producers == 1 ==> s.popped == UpTo(c.items)
  {
    InitInv(c, s0);
    TraceInv(c, s0, run, s);
    assert PointRule(s.ring, s.points[c.producers]);
    assert s.ring.Contents() == [];
    if c.producers == 1 {
      OnlyOneProducer(s.log);
    }
  }

  lemma {:induction false} TraceAppend(c: Config, s0: State, left: seq<Action>, s1: State, a: Action)
    requires Trace(c, s0, left, s1) && Safe(s1) && Enabled(c, s1, a)
    ensures Trace(c, s0, left + [a], Exec(c, s1, a))
    decreases |left|
  {
    if left == [] {
      assert [a][1..] == [];
      assert Trace(c, Exec(c, s1, a), [], Exec(c, s1, a));
      assert left + [a] == [a];
    } else {
      TraceAppend(c, Exec(c, s0, left[0]), left[1..], s1, a);
      assert (left + [a])[1..] == left[1..] + [a];
    }
  }

  /** Unasked wakeups do happen in the model: a consumer may be awake again although
      nothing was ever pushed and nobody has shut the queue down. */
  lemma {:induction false} WakesWithoutSignal(c: Config, s0: State)
    requires c.Valid() && c.consumers >= 1 && Init(c, s0) && s0.spurious >= 1
    ensures exists run, s ::
      && Trace(c, s0, run, s) && |s.points| == c.Threads() && s.points[c.producers].PopWoken?
      && s.log == [] && s.ring.Empty() && !s.ring.shutdown
  {
    var t := c.producers;
    assert Trace(c, s0, [], s0);
    TraceAppend(c, s0, [], s0, Run(t, 0));
    var s1 := Exec(c, s0, Run(t, 0));
    TraceAppend(c, s0, [] + [Run(t, 0)], s1, Run(t, 0));
    var s2 := Exec(c, s1, Run(t, 0));
    TraceAppend(c, s0, [] + [Run(t, 0)] + [Run(t, 0)], s2, Spurious(t));
    var s3 := Exec(c, s2, Spurious(t));
    assert s3.points[t].PopWoken?;
  }
}
