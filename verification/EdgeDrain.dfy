/** The edge-triggered accept loop. The kernel posts one event when the listen queue
    turns non-empty; for an arrival on a queue that is not empty it may post one too or
    not. Connections may arrive at any moment, also between any two calls of the program. */
module EdgeDrain {

  /** `main`: asleep in or about to call epoll_wait; has the event and is about to call
      accept_drain; inside its loop. */
  datatype Point = Waiting | Dispatching | Draining

  /** `queue` holds the connections not yet accepted, oldest first; `edge` is the event
      not yet delivered. `arrived` and `accepted` are histories. */
  datatype State = State(point: Point, queue: seq<nat>, edge: bool, arrived: seq<nat>, accepted: seq<nat>)

  /** `posts` says whether an arrival on a non-empty queue posts an event. An accept takes
      the oldest connection, or says EAGAIN when there is none; it may be interrupted, or
      fail for another reason, at any time. */
  datatype Action =
    | Arrive(conn: nat, posts: bool)
    | WaitReturns
    | WaitInterrupted
    | EnterDrain
    | AcceptTakes
    | AcceptEagain
    | AcceptInterrupted
    | AcceptFails

  /** The listener is registered with `backlog` already queued; that counts as turning
      non-empty. */
  function Begin(backlog: seq<nat>): State {
    State(Waiting, backlog, backlog != [], backlog, [])
  }

  predicate Enabled(s: State, a: Action) {
    match a
    case Arrive(_, _) => true
    case WaitReturns => s.point.Waiting? && s.edge
    case WaitInterrupted => s.point.Waiting?
    case EnterDrain => s.point.Dispatching?
    case AcceptTakes => s.point.Draining? && s.queue != []
    case AcceptEagain => s.point.Draining? && s.queue == []
    case AcceptInterrupted => s.point.Draining?
    case AcceptFails => s.point.Draining?
  }

  function Exec(s: State, a: Action): State
    requires Enabled(s, a)
  {
    match a
    case Arrive(c, posts) =>
      s.(queue := s.queue + [c], edge := s.edge || posts || s.queue == [], arrived := s.arrived + [c])
    case WaitReturns => s.(point := Dispatching, edge := false)
    case WaitInterrupted => s
    case EnterDrain => s.(point := Draining)
    case AcceptTakes => s.(queue := s.queue[1..], accepted := s.accepted + [s.queue[0]])
    case AcceptEagain => s.(point := Waiting)
    case AcceptInterrupted => s
    case AcceptFails => s.(point := Waiting)
  }

  ghost predicate Trace(s0: State, run: seq<Action>, s: State)
    decreases |run|
  {
    if run == [] then s == s0
    else Enabled(s0, run[0]) && Trace(Exec(s0, run[0]), run[1..], s)
  }

  lemma {:induction false} TraceAppend(s0: State, left: seq<Action>, s1: State, a: Action)
    requires Trace(s0, left, s1) && Enabled(s1, a)
    ensures Trace(s0, left + [a], Exec(s1, a))
    decreases |left|
  {
    if left == [] {
      assert [a][1..] == [];
      assert Trace(Exec(s1, a), [], Exec(s1, a));
      assert left + [a] == [a];
    } else {
      TraceAppend(Exec(s0, left[0]), left[1..], s1, a);
      assert (left + [a])[1..] == left[1..] + [a];
    }
  }

  // ------------------------------------------- what was done, read off the run alone

  function Arrivals(run: seq<Action>): nat {
    if run == [] then 0 else Arrivals(run[..|run| - 1]) + if run[|run| - 1].Arrive? then 1 else 0
  }

  function Accepts(run: seq<Action>): nat {
    if run == [] then 0 else Accepts(run[..|run| - 1]) + if run[|run| - 1].AcceptTakes? then 1 else 0
  }

  /** The last drain that ended did so at a failing accept, when more connections had
      come (`backlog` of them before the run) than been accepted. */
  predicate GaveUp(backlog: nat, run: seq<Action>) {
    if run == [] then false
    else
      var before := run[..|run| - 1];
      match run[|run| - 1]
      case AcceptFails => backlog + Arrivals(before) > Accepts(before)
      case AcceptEagain => false
      case _ => GaveUp(backlog, before)
  }

  ghost predicate Inv(backlog: nat, run: seq<Action>, s: State) {
    && s.arrived == s.accepted + s.queue
    && backlog + Arrivals(run) == Accepts(run) + |s.queue|
    && (s.point.Waiting? && !s.edge ==> (s.queue != [] <==> GaveUp(backlog, run)))
  }

  lemma InvKept(backlog: nat, run: seq<Action>, s: State, a: Action)
    requires Inv(backlog, run, s) && Enabled(s, a)
    ensures Inv(backlog, run + [a], Exec(s, a))
  {
    assert (run + [a])[..|run|] == run;
    if a.AcceptTakes? {
      assert s.queue == [s.queue[0]] + s.queue[1..];
    }
  }

  lemma {:induction false} TraceInv(backlog: nat, before: seq<Action>, s0: State, run: seq<Action>, s: State)
    requires Inv(backlog, before, s0) && Trace(s0, run, s)
    ensures Inv(backlog, before + run, s)
    decreases |run|
  {
    if run == [] {
      assert before + run == before;
    } else {
      InvKept(backlog, before, s0, run[0]);
      TraceInv(backlog, before + [run[0]], Exec(s0, run[0]), run[1..], s);
      assert before + [run[0]] + run[1..] == before + run;
    }
  }

  // -------------------------------------------------------------- main results

  /** Connections are accepted in the order of their arrival. Whenever the program sleeps
      with no event to come, it has accepted everything that arrived, unless the last
      drain gave up at a failing accept with connections still to be accepted. */
  lemma {:induction false} NothingStranded(backlog: seq<nat>, run: seq<Action>, s: State)
    requires Trace(Begin(backlog), run, s)
    ensures s.arrived == s.accepted + s.queue
    ensures s.point.Waiting? && !s.edge ==> (s.accepted == s.arrived <==> !GaveUp(|backlog|, run))
  {
    TraceInv(|backlog|, [], Begin(backlog), run, s);
    assert [] + run == run;
    assert s.queue != [] ==> |s.arrived| > |s.accepted|;
  }

  lemma {:induction false} NeverGaveUp(backlog: nat, run: seq<Action>)
    requires AcceptFails !in run
    ensures !GaveUp(backlog, run)
  {
    if run != [] {
      assert run[|run| - 1] in run;
      NeverGaveUp(backlog, run[..|run| - 1]);
    }
  }

  /** If accept fails only with EAGAIN or EINTR, nothing is ever stranded. */
  lemma {:induction false} DrainUntilEagain(backlog: seq<nat>, run: seq<Action>, s: State)
    requires Trace(Begin(backlog), run, s) && AcceptFails !in run
    ensures s.point.Waiting? && !s.edge ==> s.queue == [] && s.accepted == s.arrived
  {
    NothingStranded(backlog, run, s);
    NeverGaveUp(|backlog|, run);
  }

  predicate Stranded(s: State) {
    s.point.Waiting? && !s.edge && s.queue != []
  }

  predicate Posts(a: Action) {
    a.Arrive? && a.posts
  }

  ghost predicate SomePosts(run: seq<Action>) {
    exists i :: 0 <= i < |run| && Posts(run[i])
  }

  lemma SomePostsStep(run: seq<Action>)
    requires run != []
    ensures SomePosts(run) <==> Posts(run[0]) || SomePosts(run[1..])
  {
    if SomePosts(run) && !Posts(run[0]) {
      var i :| 0 <= i < |run| && Posts(run[i]);
      assert run[1..][i - 1] == run[i];
    }
    if SomePosts(run[1..]) {
      var i :| 0 <= i < |run| - 1 && Posts(run[1..][i]);
      assert run[i + 1] == run[1..][i];
    }
  }

  /** A stranded program stays so until an arrival posts an event: before that nothing is
      accepted, whatever arrives. A kernel that posts only when the queue turns non-empty
      therefore never ends it, because the queue never becomes empty again. */
  lemma {:induction false} StrandedUntilEdge(s: State, run: seq<Action>, s': State)
    requires Stranded(s) && Trace(s, run, s') && !SomePosts(run)
    ensures Stranded(s') && s'.accepted == s.accepted && s.queue <= s'.queue
    decreases |run|
  {
    if run != [] {
      SomePostsStep(run);
      StrandedUntilEdge(Exec(s, run[0]), run[1..], s');
    }
  }

  lemma {:induction false} SoundStaysSound(s: State, run: seq<Action>, s': State)
    requires !Stranded(s) && Trace(s, run, s') && AcceptFails !in run
    ensures !Stranded(s')
    decreases |run|
  {
    if run != [] {
      assert run[0] in run && forall a :: a in run[1..] ==> a in run;
      SoundStaysSound(Exec(s, run[0]), run[1..], s');
    }
  }

  /** ... and such an arrival does end it: when the program next sleeps with no event to
      come, and no accept has failed meanwhile, the queue is empty exactly when one of the
      arrivals has posted. */
  lemma {:induction false} EdgeEndsStranding(s: State, run: seq<Action>, s': State)
    requires Stranded(s) && Trace(s, run, s') && AcceptFails !in run
    requires s'.point.Waiting? && !s'.edge
    ensures s'.queue == [] <==> SomePosts(run)
    decreases |run|
  {
    if run != [] {
      SomePostsStep(run);
      assert run[0] in run && forall a :: a in run[1..] ==> a in run;
      if Posts(run[0]) {
        SoundStaysSound(Exec(s, run[0]), run[1..], s');
      } else {
        EdgeEndsStranding(Exec(s, run[0]), run[1..], s');
      }
    }
  }

  /** A stranded state can be reached. */
  lemma {:induction false} FailedAcceptStrands(conn: nat)
    ensures exists run, s :: Trace(Begin([conn]), run, s) && Stranded(s) && s.queue == [conn]
  {
    var s0 := Begin([conn]);
    assert Trace(s0, [], s0);
    TraceAppend(s0, [], s0, WaitReturns);
    var s1 := Exec(s0, WaitReturns);
    TraceAppend(s0, [] + [WaitReturns], s1, EnterDrain);
    var s2 := Exec(s1, EnterDrain);
    TraceAppend(s0, [] + [WaitReturns] + [EnterDrain], s2, AcceptFails);
  }

  // ----------------------------------------------------------- the loops themselves

  datatype Reply = Normal | Interrupted | Failure

  datatype Outcome = Conn(conn: nat) | Eagain | Eintr | OtherError

  datatype Wakeup = Ready | WaitEintr | WaitError | Blocked

  /** The connections that arrive just before or during a call (with whether they post),
      and how the call goes. */
  type Script = seq<(seq<(nat, bool)>, Reply)>

  /** The connections that arrive with the calls of a script, in order. */
  function Names(conns: seq<(nat, bool)>): (r: seq<nat>)
    ensures |r| == |conns|
  {
    seq(|conns|, i requires 0 <= i < |conns| => conns[i].0)
  }

  function Incoming(script: Script): seq<nat> {
    if script == [] then [] else Names(script[0].0) + Incoming(script[1..])
  }

  /** A script that began as `before` has been used up as far as `after`. */
  predicate UsedUp(before: Script, after: Script) {
    |after| <= |before| && after == before[|before| - |after|..]
  }

  /** The last reply used, if any, was of that kind. */
  predicate LastReply(before: Script, after: Script, reply: Reply) {
    |after| < |before| && before[|before| - |after| - 1].1 == reply
  }

  /** None of the replies used was a failure. */
  predicate NoFailure(before: Script, after: Script) {
    forall i :: 0 <= i < |before| - |after| && i < |before| ==> before[i].1 != Failure
  }

  /** One call uses one reply at most. */
  lemma OneReply(before: Script, after: Script)
    requires |before| - 1 <= |after| && UsedUp(before, after)
    ensures NoFailure(before, after) <==> !LastReply(before, after, Failure)
  {
  }

  lemma UsedUpTwice(first: Script, mid: Script, last: Script)
    requires UsedUp(first, mid) && UsedUp(mid, last)
    ensures UsedUp(first, last)
    ensures NoFailure(first, last) <==> NoFailure(first, mid) && NoFailure(mid, last)
  {
    var d := |first| - |mid|;
    assert forall i :: 0 <= i < |mid| ==> mid[i] == first[d + i];
    if NoFailure(first, mid) && NoFailure(mid, last) {
      forall i | 0 <= i < |first| - |last|
        ensures first[i].1 != Failure
      {
        assert i >= d ==> first[i] == mid[i - d];
      }
    }
    if NoFailure(first, last) {
      forall i | 0 <= i < |mid| - |last|
        ensures mid[i].1 != Failure
      {
        assert mid[i] == first[d + i];
      }
    }
  }

  lemma ArrivedNext(arrived: seq<nat>, script: Script)
    requires script != []
    ensures arrived + Names(script[0].0) + Incoming(script[1..]) == arrived + Incoming(script)
  {
  }

  /** The listening socket and the epoll instance it is registered with. `waits` is the
      script of the epoll_wait calls, `accepts` that of the accept calls; when they have
      run out nothing more arrives and nothing more goes wrong. */
  class Listener {
    ghost const backlog: seq<nat>
    var queue: seq<nat>
    var edge: bool
    var waits: Script
    var accepts: Script
    ghost var state: State
    ghost var run: seq<Action>

    /** `run` is what has happened since the registration, as steps of the event loop. */
    ghost predicate Follows()
      reads this
    {
      Trace(Begin(backlog), run, state) && state.queue == queue && state.edge == edge
    }

    constructor (backlog: seq<nat>, waits: Script, accepts: Script)
      ensures Follows() && state.point.Waiting? && run == []
      ensures this.backlog == backlog && this.waits == waits && this.accepts == accepts
    {
      this.backlog, this.waits, this.accepts := backlog, waits, accepts;
      queue, edge := backlog, backlog != [];
      state, run := Begin(backlog), [];
    }

    ghost method Record(a: Action)
      requires Trace(Begin(backlog), run, state) && Enabled(state, a)
      modifies this`state, this`run
      ensures state == Exec(old(state), a) && run == old(run) + [a]
      ensures Trace(Begin(backlog), run, state)
    {
      TraceAppend(Begin(backlog), run, state, a);
      state, run := Exec(state, a), run + [a];
    }

    method Arrivals(conns: seq<(nat, bool)>)
      requires Follows()
      modifies this`queue, this`edge, this`state, this`run
      ensures Follows() && state.point == old(state).point
      ensures state.arrived == old(state).arrived + Names(conns) && state.accepted == old(state).accepted
    {
      var i := 0;
      while i < |conns|
        invariant i <= |conns| && Follows() && state.point == old(state).point && state.accepted == old(state).accepted
        invariant state.arrived == old(state).arrived + Names(conns)[..i]
      {
        Record(Arrive(conns[i].0, conns[i].1));
        edge := edge || conns[i].1 || queue == [];
        queue := queue + [conns[i].0];
        i := i + 1;
      }
    }

    /** accept(2) on a non-blocking socket: how it goes is the next reply, and without
        trouble it takes the oldest connection. */
    method AcceptCall() returns (o: Outcome)
      requires Follows() && state.point.Draining?
      modifies this`queue, this`edge, this`accepts, this`state, this`run
      ensures Follows() && UsedUp(old(accepts), accepts) && |old(accepts)| - 1 <= |accepts|
      ensures state.arrived + Incoming(accepts) == old(state).arrived + Incoming(old(accepts))
      ensures o.Eintr? <==> LastReply(old(accepts), accepts, Interrupted)
      ensures o.OtherError? <==> LastReply(old(accepts), accepts, Failure)
      ensures o.Conn? || o.Eintr? ==> state.point.Draining?
      ensures state.accepted == old(state).accepted + if o.Conn? then [o.conn] else []
      ensures o.Eagain? ==> state.point.Waiting? && queue == []
      ensures o.OtherError? ==> state.point.Waiting? && run != [] && run[|run| - 1].AcceptFails?
      ensures accepts == old(accepts) ==>
        accepts == [] && edge == old(edge) && (o.Eagain? || (o.Conn? && |queue| < |old(queue)|))
    {
      var reply := Normal;
      if accepts != [] {
        ArrivedNext(state.arrived, accepts);
        var conns := accepts[0].0;
        reply := accepts[0].1;
        accepts := accepts[1..];
        Arrivals(conns);
      }
      match reply {
        case Interrupted =>
          Record(AcceptInterrupted);
          o := Eintr;
        case Failure =>
          Record(AcceptFails);
          o := OtherError;
        case Normal =>
          if queue == [] {
            Record(AcceptEagain);
            o := Eagain;
          } else {
            Record(AcceptTakes);
            o := Conn(queue[0]);
            queue := queue[1..];
          }
      }
    }

    /** `accept_drain`: a run of the event loop that starts inside the drain and ends
        back at epoll_wait. Only a failing accept ends it before the queue is empty;
        interruptions do not. */
    method AcceptDrain() returns (o: Outcome)
      requires Follows() && state.point.Draining?
      modifies this`queue, this`edge, this`accepts, this`state, this`run
      ensures Follows() && state.point.Waiting? && UsedUp(old(accepts), accepts)
      ensures state.arrived + Incoming(accepts) == old(state).arrived + Incoming(old(accepts))
      ensures o.Eagain? || o.OtherError?
      ensures o.Eagain? <==> NoFailure(old(accepts), accepts)
      ensures o.Eagain? ==> queue == []
      ensures o.OtherError? ==> run != [] && run[|run| - 1].AcceptFails?
      ensures accepts == old(accepts) ==> edge == old(edge)
    {
      ghost var first := accepts;
      while true
        invariant Follows() && state.point.Draining? && UsedUp(first, accepts) && NoFailure(first, accepts)
        invariant state.arrived + Incoming(accepts) == old(state).arrived + Incoming(first)
        invariant accepts == first ==> edge == old(edge)
        decreases |accepts|, |queue|
      {
        ghost var mid := accepts;
        o := AcceptCall();
        UsedUpTwice(first, mid, accepts);
        OneReply(mid, accepts);
        if o.Eagain? || o.OtherError? {
          return;
        }
      }
    }

    method NextWait() returns (reply: Reply)
      requires Follows() && waits != []
      modifies this`queue, this`edge, this`waits, this`state, this`run
      ensures Follows() && state.point == old(state).point
      ensures reply == old(waits)[0].1 && waits == old(waits)[1..]
      ensures state.arrived + Incoming(waits) == old(state).arrived + Incoming(old(waits))
    {
      ArrivedNext(state.arrived, waits);
      var conns := waits[0].0;
      reply := waits[0].1;
      waits := waits[1..];
      Arrivals(conns);
    }

    /** How many connections have arrived or are still to come. */
    ghost function Connections(): nat
      reads this
    {
      |state.arrived| + |Incoming(waits)| + |Incoming(accepts)|
    }

    /** epoll_wait(2) without a timeout: it sleeps on while no event comes, and gives up
        only at an interruption or a failure. */
    method WaitCall() returns (o: Wakeup)
      requires Follows() && state.point.Waiting?
      modifies this`queue, this`edge, this`waits, this`state, this`run
      ensures Follows() && UsedUp(old(waits), waits) && Connections() == old(Connections())
      ensures o.WaitError? <==> LastReply(old(waits), waits, Failure)
      ensures o.WaitEintr? <==> LastReply(old(waits), waits, Interrupted)
      ensures !o.WaitError? <==> NoFailure(old(waits), waits)
      ensures o.Ready? ==> state.point.Dispatching? && !edge
      ensures !o.Ready? ==> state.point.Waiting?
      ensures o.Blocked? ==> !edge && waits == []
      ensures waits == old(waits) ==> o.Blocked? || (o.Ready? && old(edge))
    {
      ghost var first := waits;
      while !edge && waits != []
        invariant Follows() && state.point.Waiting? && UsedUp(first, waits)
        invariant Connections() == old(Connections())
        invariant forall i :: 0 <= i < |first| - |waits| ==> first[i].1 == Normal
        invariant waits == first ==> edge == old(edge)
        decreases |waits|
      {
        assert waits[0] == first[|first| - |waits|];
        ghost var mid, arrived := waits, state.arrived;
        var reply := NextWait();
        assert |state.arrived + Incoming(waits)| == |arrived + Incoming(mid)|;
        if reply == Interrupted {
          Record(WaitInterrupted);
          return WaitEintr;
        }
        if reply == Failure {
          return WaitError;
        }
      }
      if !edge {
        return Blocked;
      }
      Record(WaitReturns);
      edge := false;
      o := Ready;
    }

    /** One event: the drain it leads to. */
    method Dispatch()
      requires Follows() && state.point.Dispatching?
      modifies this`queue, this`edge, this`accepts, this`state, this`run
      ensures Follows() && state.point.Waiting? && Connections() == old(Connections())
      ensures |accepts| < |old(accepts)| || (accepts == old(accepts) && edge == old(edge))
    {
      Record(EnterDrain);
      ghost var arrived, before := state.arrived, accepts;
      var _ := AcceptDrain();
      assert |state.arrived + Incoming(accepts)| == |arrived + Incoming(before)|;
    }

    lemma AtRest()
      requires Follows() && state.point.Waiting?
      ensures state.arrived == state.accepted + queue
      ensures !edge ==> (queue == [] <==> !GaveUp(|backlog|, run))
    {
      NothingStranded(backlog, run, state);
      assert queue != [] ==> |state.arrived| > |state.accepted|;
    }

    /** One round of the loop of `main`, where `first` is the script it began with: a wait
        and, when it returns, the event. */
    method Round(ghost first: Script) returns (o: Wakeup)
      requires Follows() && state.point.Waiting? && UsedUp(first, waits) && NoFailure(first, waits)
      modifies this`queue, this`edge, this`waits, this`accepts, this`state, this`run
      ensures Follows() && state.point.Waiting? && Connections() == old(Connections())
      ensures UsedUp(first, waits) && (o.WaitError? <==> !NoFailure(first, waits))
      ensures o.WaitError? || o.Blocked? ==> state.arrived == state.accepted + queue
      ensures o.Blocked? ==> !edge && waits == [] && (queue == [] <==> !GaveUp(|backlog|, run))
      ensures o.WaitEintr? || o.Ready? ==>
        || |waits| < |old(waits)|
        || (waits == old(waits) && |accepts| < |old(accepts)|)
        || (waits == old(waits) && accepts == old(accepts) && old(edge) && !edge)
    {
      ghost var mid := waits;
      o := WaitCall();
      UsedUpTwice(first, mid, waits);
      if o.Ready? {
        Dispatch();
      } else {
        AtRest();
      }
    }

    /** The event loop of `main`. It ends with a failure exactly when an epoll_wait fails,
        not when one is interrupted; otherwise it goes on until it sleeps for ever. By then
        all connections that the waits bring have arrived, and every connection that
        arrived has been accepted, unless the last drain gave up. */
    method EventLoop() returns (failed: bool)
      requires Follows() && state.point.Waiting?
      modifies this`queue, this`edge, this`waits, this`accepts, this`state, this`run
      ensures Follows() && state.point.Waiting? && state.arrived == state.accepted + queue
      ensures UsedUp(old(waits), waits) && (failed <==> !NoFailure(old(waits), waits))
      ensures Connections() == old(Connections())
      ensures !failed ==> !edge && waits == [] && (queue == [] <==> !GaveUp(|backlog|, run))
    {
      ghost var first := waits;
      while true
        invariant Follows() && state.point.Waiting? && Connections() == old(Connections())
        invariant UsedUp(first, waits) && NoFailure(first, waits)
        decreases |waits|, |accepts|, edge
      {
        var o := Round(first);
        if o.WaitError? || o.Blocked? {
          return o.WaitError?;
        }
      }
    }
  }
}
