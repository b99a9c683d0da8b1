/** `ls -l | wc -l` as `pipe_exec_demo` builds it: a parent, two children, one pipe, and
    descriptor tables that decide who still holds which end. The three processes are
    interleaved arbitrarily; the pipe has any capacity of at least one byte, the writer
    any output, and reads and writes move any positive number of bytes that fits.

    The parent is process 0, the children are 1 (the writer) and 2 (the reader). To see
    which of the six closes matter, a configuration can leave any of them out; the program
    leaves out none. */
module Pipeline {
  import opened Bytes
  import opened Slots
  import Descriptors

  /** The calls of close(2) between the forks and the execs. The spare ones come after the
      dup2 of a child and close the descriptor it duplicated. */
  datatype CloseCall = ParentRead | ParentWrite | WriterRead | WriterSpare | ReaderWrite | ReaderSpare

  /** `base` is the parent's table before pipe(2); `rd` and `wr` are the two open file
      descriptions that pipe(2) creates. Either exec may fail. `omitted` are the closes
      left out. */
  datatype Config = Config(
    base: map<Slot, nat>, rd: nat, wr: nat, cap: nat, data: seq<byte>, execWriter: bool, execReader: bool,
    omitted: set<CloseCall>)
  {
    /** Descriptors 0 to 2 of the parent are open, the children do not exist yet, and
        the pipe is new. */
    predicate Valid() {
      && cap >= 1 && rd != wr
      && (0, 0) in base && (0, 1) in base && (0, 2) in base
      && (forall k :: k in base ==> k.0 != 1 && k.0 != 2 && base[k] != rd && base[k] != wr)
    }

    /** pipe(2) takes the two lowest free descriptors. */
    function ReadFd(): nat {
      Descriptors.LowestFreeFrom(base, 0, 0)
    }

    function WriteFd(): nat {
      Descriptors.LowestFreeFrom(base[(0, ReadFd()) := rd], 0, 0)
    }
  }

  datatype Parent = Fork1 | Fork2 | CloseRead | CloseWrite | Wait1 | Wait2 | ParentDone

  datatype Child = Absent | CloseOther | Dup2 | CloseSpare | Exec | Running | Gone

  /** `todo` is output not yet written, `buf` what the pipe holds, `got` what the reader
      has read, `eof` whether a read of the reader has returned 0. */
  datatype State = State(
    slots: map<Slot, nat>, parent: Parent, writer: Child, reader: Child,
    todo: seq<byte>, buf: seq<byte>, got: seq<byte>, eof: bool)

  datatype Action = ParentStep | WriterStep(n: nat) | ReaderStep(n: nat)

  function Init(c: Config): State {
    State(c.base[(0, c.ReadFd()) := c.rd][(0, c.WriteFd()) := c.wr], Fork1, Absent, Absent, c.data, [], [], false)
  }

  /** Some descriptor somewhere still refers to `id`. */
  predicate Held(s: State, id: nat) {
    exists k :: k in s.slots && s.slots[k] == id
  }

  predicate At(s: State, pid: nat, fd: nat, id: nat) {
    (pid, fd) in s.slots && s.slots[(pid, fd)] == id
  }

  /** What a running writer can do: be killed by SIGPIPE, move `n` bytes into the pipe,
      or exit when it has nothing left. A full pipe with a reader blocks it. */
  predicate WriterCanStep(c: Config, s: State, n: nat) {
    match s.writer
    case Absent => false
    case Gone => false
    case Running =>
      || s.todo == []
      || (At(s, 1, 1, c.wr) && !Held(s, c.rd))
      || (1 <= n <= |s.todo| && (At(s, 1, 1, c.wr) ==> |s.buf| + n <= c.cap))
    case _ => true
  }

  predicate ReaderCanStep(c: Config, s: State, n: nat) {
    match s.reader
    case Absent => false
    case Gone => false
    case Running =>
      At(s, 2, 0, c.rd) && (if s.buf == [] then !Held(s, c.wr) else 1 <= n <= |s.buf|)
    case _ => true
  }

  predicate Enabled(c: Config, s: State, a: Action) {
    match a
    case ParentStep =>
      (match s.parent
       case Wait1 => s.writer == Gone
       case Wait2 => s.reader == Gone
       case ParentDone => false
       case _ => true)
    case WriterStep(n) => WriterCanStep(c, s, n)
    case ReaderStep(n) => ReaderCanStep(c, s, n)
  }

  /** The table after `call`, which closes slot `k` unless it is left out. */
  function AfterClose(c: Config, call: CloseCall, slots: map<Slot, nat>, k: Slot): map<Slot, nat> {
    if call in c.omitted then slots else Emptied(slots, k)
  }

  function ParentExec(c: Config, s: State): State {
    match s.parent
    case Fork1 => s.(slots := Forked(s.slots, 0, 1), writer := CloseOther, parent := Fork2)
    case Fork2 => s.(slots := Forked(s.slots, 0, 2), reader := CloseOther, parent := CloseRead)
    case CloseRead => s.(slots := AfterClose(c, ParentRead, s.slots, (0, c.ReadFd())), parent := CloseWrite)
    case CloseWrite => s.(slots := AfterClose(c, ParentWrite, s.slots, (0, c.WriteFd())), parent := Wait1)
    case Wait1 => s.(parent := Wait2)
    case Wait2 => s.(parent := ParentDone)
    case ParentDone => s
  }

  function WriterExits(s: State): State {
    s.(slots := Closing(s.slots, 1, {}), writer := Gone)
  }

  function WriterExec(c: Config, s: State, n: nat): State
    requires WriterCanStep(c, s, n)
  {
    match s.writer
    case CloseOther => s.(slots := AfterClose(c, WriterRead, s.slots, (1, c.ReadFd())), writer := Dup2)
    case Dup2 => s.(slots := Copied(s.slots, (1, c.WriteFd()), (1, 1)), writer := CloseSpare)
    case CloseSpare => s.(slots := AfterClose(c, WriterSpare, s.slots, (1, c.WriteFd())), writer := Exec)
    case Exec => if c.execWriter then s.(writer := Running) else WriterExits(s)
    case Running =>
      if s.todo == [] || (At(s, 1, 1, c.wr) && !Held(s, c.rd)) then WriterExits(s)
      else if At(s, 1, 1, c.wr) then s.(buf := s.buf + s.todo[..n], todo := s.todo[n..])
      else s.(todo := s.todo[n..])
  }

  function ReaderExits(s: State): State {
    s.(slots := Closing(s.slots, 2, {}), reader := Gone)
  }

  function ReaderExec(c: Config, s: State, n: nat): State
    requires ReaderCanStep(c, s, n)
  {
    match s.reader
    case CloseOther => s.(slots := AfterClose(c, ReaderWrite, s.slots, (2, c.WriteFd())), reader := Dup2)
    case Dup2 => s.(slots := Copied(s.slots, (2, c.ReadFd()), (2, 0)), reader := CloseSpare)
    case CloseSpare => s.(slots := AfterClose(c, ReaderSpare, s.slots, (2, c.ReadFd())), reader := Exec)
    case Exec => if c.execReader then s.(reader := Running) else ReaderExits(s)
    case Running =>
      if s.buf == [] then ReaderExits(s).(eof := true)
      else s.(got := s.got + s.buf[..n], buf := s.buf[n..])
  }

  function Apply(c: Config, s: State, a: Action): State
    requires Enabled(c, s, a)
  {
    match a
    case ParentStep => ParentExec(c, s)
    case WriterStep(n) => WriterExec(c, s, n)
    case ReaderStep(n) => ReaderExec(c, s, n)
  }

  ghost predicate Trace(c: Config, s0: State, run: seq<Action>, s: State)
    decreases |run|
  {
    if run == [] then s == s0
    else Enabled(c, s0, run[0]) && Trace(c, Apply(c, s0, run[0]), run[1..], s)
  }

  /** The kernel may move any positive number of bytes that fits, in or out of the pipe. */
  lemma {:induction false} ChunksCover(c: Config, s: State, n: nat)
    requires n >= 1
    ensures s.writer.Running? && At(s, 1, 1, c.wr) && n <= |s.todo| && |s.buf| + n <= c.cap ==>
      WriterCanStep(c, s, n) &&
      (Held(s, c.rd) ==> WriterExec(c, s, n) == s.(buf := s.buf + s.todo[..n], todo := s.todo[n..]))
    ensures s.reader.Running? && At(s, 2, 0, c.rd) && n <= |s.buf| ==>
      ReaderCanStep(c, s, n) && ReaderExec(c, s, n) == s.(got := s.got + s.buf[..n], buf := s.buf[n..])
  {
  }

  // ---------------------------------------------------------------- invariant

  /** A child between its fork and its exit. */
  predicate Alive(p: Child) {
    !p.Absent? && !p.Gone?
  }

  /** Exactly these descriptors refer to the write end ... */
  predicate HoldsWrite(c: Config, s: State, k: Slot) {
    || (k == (0, c.WriteFd()) &&
        (s.parent.Fork1? || s.parent.Fork2? || s.parent.CloseRead? || s.parent.CloseWrite? || ParentWrite in c.omitted))
    || (k == (1, c.WriteFd()) && Alive(s.writer) &&
        (s.writer.CloseOther? || s.writer.Dup2? || s.writer.CloseSpare? || WriterSpare in c.omitted))
    || (k == (1, 1) && (s.writer.CloseSpare? || s.writer.Exec? || s.writer.Running?))
    || (k == (2, c.WriteFd()) && Alive(s.reader) && (s.reader.CloseOther? || ReaderWrite in c.omitted))
  }

  /** ... and exactly these to the read end. */
  predicate HoldsRead(c: Config, s: State, k: Slot) {
    || (k == (0, c.ReadFd()) && (s.parent.Fork1? || s.parent.Fork2? || s.parent.CloseRead? || ParentRead in c.omitted))
    || (k == (1, c.ReadFd()) && Alive(s.writer) && (s.writer.CloseOther? || WriterRead in c.omitted))
    || (k == (2, c.ReadFd()) && Alive(s.reader) &&
        (s.reader.CloseOther? || s.reader.Dup2? || s.reader.CloseSpare? || ReaderSpare in c.omitted))
    || (k == (2, 0) && (s.reader.CloseSpare? || s.reader.Exec? || s.reader.Running?))
  }

  /** What is known about one slot; a process that is absent or gone has none. */
  predicate EndKnown(c: Config, s: State, k: Slot) {
    && ((k in s.slots && s.slots[k] == c.wr) <==> HoldsWrite(c, s, k))
    && ((k in s.slots && s.slots[k] == c.rd) <==> HoldsRead(c, s, k))
    && (k in s.slots && k.0 == 1 ==> Alive(s.writer))
    && (k in s.slots && k.0 == 2 ==> Alive(s.reader))
  }

  ghost predicate EndsKnown(c: Config, s: State) {
    forall k: Slot :: EndKnown(c, s, k)
  }

  predicate PhasesKnown(s: State) {
    && (s.writer.Absent? <==> s.parent.Fork1?)
    && (s.reader.Absent? <==> s.parent.Fork1? || s.parent.Fork2?)
    && (s.parent.Wait2? || s.parent.ParentDone? ==> s.writer.Gone?)
    && (s.parent.ParentDone? ==> s.reader.Gone?)
  }

  predicate DataKnown(c: Config, s: State) {
    && s.got + s.buf + s.todo == c.data
    && |s.buf| <= c.cap
    && (s.eof ==> s.writer.Gone? && s.reader.Gone? && s.buf == [] && (c.execWriter ==> s.todo == []))
    && (s.writer.Gone? && c.execWriter && s.todo != [] ==> s.reader.Gone? && !s.eof)
    && (s.reader.Gone? && c.execReader ==> s.eof)
  }

  /** What the execs and the omitted closes rule out: nobody runs whose exec fails; no end
      of file while somebody keeps the write end; no SIGPIPE while somebody keeps the read
      end. */
  predicate OmissionsKnown(c: Config, s: State) {
    && (s.writer.Running? ==> c.execWriter)
    && (s.reader.Running? ==> c.execReader)
    && (!c.execReader ==> s.got == [])
    && (s.eof ==> ParentWrite !in c.omitted && ReaderWrite !in c.omitted)
    && (s.writer.Gone? && c.execWriter && s.todo != [] ==> ParentRead !in c.omitted && WriterRead !in c.omitted)
  }

  ghost predicate Inv(c: Config, s: State) {
    c.Valid() && EndsKnown(c, s) && PhasesKnown(s) && DataKnown(c, s) && OmissionsKnown(c, s)
  }

  /** With 0, 1 and 2 taken, the pipe's descriptors are above them. */
  lemma PipeFds(c: Config)
    requires c.Valid()
    ensures c.ReadFd() >= 3 && c.WriteFd() >= 3 && c.ReadFd() != c.WriteFd()
    ensures (0, c.ReadFd()) !in c.base && (0, c.WriteFd()) !in c.base
  {
    var r := c.ReadFd();
    var w := c.WriteFd();
    assert (0, w) !in c.base[(0, r) := c.rd];
    assert r != 0 && r != 1 && r != 2;
    assert w != 0 && w != 1 && w != 2;
  }

  lemma InitInv(c: Config)
    requires c.Valid()
    ensures Inv(c, Init(c))
  {
    PipeFds(c);
    var s := Init(c);
    forall k: Slot
      ensures EndKnown(c, s, k)
    {
    }
  }

  /** What fork(2) adds for an id: the child's copy of each parent slot at it. */
  lemma ForkedEnds(slots: map<Slot, nat>, child: nat, k: Slot, id: nat)
    requires child != 0 && forall s :: s in slots ==> s.0 != child
    ensures var after := Forked(slots, 0, child);
      (k in after && after[k] == id) <==>
      if k.0 == child then (0, k.1) in slots && slots[(0, k.1)] == id else k in slots && slots[k] == id
  {
    NumbersOfOpen(slots, 0);
  }

  lemma ForkEnds(c: Config, s: State, k: Slot)
    requires c.Valid() && PhasesKnown(s) && (s.parent.Fork1? || s.parent.Fork2?)
    requires forall k' :: k' in s.slots ==> k'.0 != if s.parent.Fork1? then 1 else 2
    requires EndKnown(c, s, k) && EndKnown(c, s, (0, k.1)) && c.ReadFd() >= 3 && c.WriteFd() >= 3
    ensures EndKnown(c, ParentExec(c, s), k)
  {
    var child := if s.parent.Fork1? then 1 else 2;
    ForkedEnds(s.slots, child, k, c.wr);
    ForkedEnds(s.slots, child, k, c.rd);
  }

  lemma {:induction false} ParentEnds(c: Config, s: State)
    requires Inv(c, s) && Enabled(c, s, ParentStep)
    ensures EndsKnown(c, ParentExec(c, s))
  {
    PipeFds(c);
    var s' := ParentExec(c, s);
    forall k: Slot
      ensures EndKnown(c, s', k)
    {
      assert EndKnown(c, s, k);
      if s.parent.Fork1? || s.parent.Fork2? {
        assert EndKnown(c, s, (0, k.1));
        assert forall k' :: k' in s.slots ==> EndKnown(c, s, k');
        ForkEnds(c, s, k);
      }
    }
  }

  lemma {:induction false} WriterEnds(c: Config, s: State, n: nat)
    requires Inv(c, s) && WriterCanStep(c, s, n)
    ensures EndsKnown(c, WriterExec(c, s, n))
  {
    PipeFds(c);
    var s' := WriterExec(c, s, n);
    assert EndKnown(c, s, (1, c.WriteFd()));
    forall k: Slot
      ensures EndKnown(c, s', k)
    {
      assert EndKnown(c, s, k);
    }
  }

  lemma {:induction false} ReaderEnds(c: Config, s: State, n: nat)
    requires Inv(c, s) && ReaderCanStep(c, s, n)
    ensures EndsKnown(c, ReaderExec(c, s, n))
  {
    PipeFds(c);
    var s' := ReaderExec(c, s, n);
    assert EndKnown(c, s, (2, c.ReadFd()));
    forall k: Slot
      ensures EndKnown(c, s', k)
    {
      assert EndKnown(c, s, k);
    }
  }

  /** A running writer's descriptor 1 is the pipe; a running reader's descriptor 0 too. */
  lemma StandardEnds(c: Config, s: State)
    requires Inv(c, s)
    ensures s.writer.Running? ==> At(s, 1, 1, c.wr) && Held(s, c.wr)
    ensures s.reader.Running? ==> At(s, 2, 0, c.rd) && Held(s, c.rd)
    ensures s.parent.Fork1? || s.parent.Fork2? ==> Held(s, c.rd)
    ensures !s.reader.Absent? && !s.reader.Gone? ==> Held(s, c.rd)
    ensures !s.writer.Absent? && !s.writer.Gone? ==> Held(s, c.wr)
  {
    assert EndKnown(c, s, (1, c.WriteFd())) && EndKnown(c, s, (1, 1));
    assert EndKnown(c, s, (2, c.ReadFd())) && EndKnown(c, s, (2, 0)) && EndKnown(c, s, (0, c.ReadFd()));
  }

  lemma WriterData(c: Config, s: State, n: nat)
    requires PhasesKnown(s) && DataKnown(c, s) && WriterCanStep(c, s, n)
    requires s.writer.Running? ==> At(s, 1, 1, c.wr)
    requires !s.reader.Gone? ==> Held(s, c.rd)
    ensures DataKnown(c, WriterExec(c, s, n)) && PhasesKnown(WriterExec(c, s, n))
  {
    var s' := WriterExec(c, s, n);
    if s.writer.Running? && s'.writer.Running? {
      assert s.todo == s.todo[..n] + s.todo[n..];
      assert s'.got + s'.buf + s'.todo == s.got + s.buf + s.todo;
    }
  }

  lemma ReaderData(c: Config, s: State, n: nat)
    requires PhasesKnown(s) && DataKnown(c, s) && ReaderCanStep(c, s, n)
    requires !s.writer.Absent? && !s.writer.Gone? ==> Held(s, c.wr)
    ensures DataKnown(c, ReaderExec(c, s, n)) && PhasesKnown(ReaderExec(c, s, n))
  {
    var s' := ReaderExec(c, s, n);
    if s.reader.Running? && s'.reader.Running? {
      assert s.buf == s.buf[..n] + s.buf[n..];
      assert s'.got + s'.buf + s'.todo == s.got + s.buf + s.todo;
    }
  }

  lemma DataKept(c: Config, s: State, a: Action)
    requires Inv(c, s) && Enabled(c, s, a)
    ensures DataKnown(c, Apply(c, s, a)) && PhasesKnown(Apply(c, s, a))
  {
    StandardEnds(c, s);
    match a
    case ParentStep =>
    case WriterStep(n) => WriterData(c, s, n);
    case ReaderStep(n) => ReaderData(c, s, n);
  }

  /** An end that is kept is held for as long as its keeper is there. */
  lemma KeptEnds(c: Config, s: State)
    requires Inv(c, s)
    ensures ParentWrite in c.omitted ==> Held(s, c.wr)
    ensures ReaderWrite in c.omitted && Alive(s.reader) ==> Held(s, c.wr)
    ensures ParentRead in c.omitted ==> Held(s, c.rd)
    ensures WriterRead in c.omitted && Alive(s.writer) ==> Held(s, c.rd)
  {
    assert EndKnown(c, s, (0, c.WriteFd())) && EndKnown(c, s, (2, c.WriteFd()));
    assert EndKnown(c, s, (0, c.ReadFd())) && EndKnown(c, s, (1, c.ReadFd()));
  }

  lemma OmissionsKept(c: Config, s: State, a: Action)
    requires Inv(c, s) && Enabled(c, s, a)
    ensures OmissionsKnown(c, Apply(c, s, a))
  {
    KeptEnds(c, s);
    StandardEnds(c, s);
  }

  lemma InvKept(c: Config, s: State, a: Action)
    requires Inv(c, s) && Enabled(c, s, a)
    ensures Inv(c, Apply(c, s, a))
  {
    DataKept(c, s, a);
    OmissionsKept(c, s, a);
    match a
    case ParentStep => ParentEnds(c, s);
    case WriterStep(n) => WriterEnds(c, s, n);
    case ReaderStep(n) => ReaderEnds(c, s, n);
  }

  lemma {:induction false} TraceInv(c: Config, s0: State, run: seq<Action>, s: State)
    requires Inv(c, s0) && Trace(c, s0, run, s)
    ensures Inv(c, s)
    decreases |run|
  {
    if run != [] {
      InvKept(c, s0, run[0]);
      TraceInv(c, Apply(c, s0, run[0]), run[1..], s);
    }
  }

  // ------------------------------------------------------------- main results

  predicate AllDone(s: State) {
    s.parent.ParentDone?
  }

  ghost predicate CanStep(c: Config, s: State) {
    Enabled(c, s, ParentStep) || (exists n: nat :: WriterCanStep(c, s, n)) || (exists n: nat :: ReaderCanStep(c, s, n))
  }

  lemma NobodyHolds(c: Config, s: State, id: nat)
    requires EndsKnown(c, s) && (id == c.rd || id == c.wr)
    requires forall k: Slot :: !(if id == c.rd then HoldsRead(c, s, k) else HoldsWrite(c, s, k))
    ensures !Held(s, id)
  {
    forall k: Slot | k in s.slots
      ensures s.slots[k] != id
    {
      assert EndKnown(c, s, k);
    }
  }

  /** When the pipeline can hang. A reader that runs never sees the end of its input if
      the parent or the reader itself keeps the write end; if the reader does not run, a
      writer with more output than the pipe holds blocks for ever if the parent or the
      writer itself keeps the read end. */
  predicate CanHang(c: Config) {
    || (c.execReader && (ParentWrite in c.omitted || ReaderWrite in c.omitted))
    || (!c.execReader && c.execWriter && |c.data| > c.cap && (ParentRead in c.omitted || WriterRead in c.omitted))
  }

  /** A blocked writer: SIGPIPE frees it unless the read end is kept, and then nothing has
      been read, so the pipe has room for all of its output. */
  lemma WriterFree(c: Config, s: State)
    requires Inv(c, s) && !CanHang(c) && s.parent.Wait1? && s.reader.Gone? && s.writer.Running?
    ensures WriterCanStep(c, s, 1)
  {
    StandardEnds(c, s);
    assert |s.got + s.buf + s.todo| == |c.data|;
    if ParentRead !in c.omitted && WriterRead !in c.omitted {
      NobodyHolds(c, s, c.rd);
    }
  }

  /** A blocked reader: with the writer gone and the parent past its closes it sees the
      end of its input. */
  lemma ReaderFree(c: Config, s: State)
    requires Inv(c, s) && !CanHang(c) && s.parent.Wait2? && s.reader.Running?
    ensures ReaderCanStep(c, s, 1)
  {
    StandardEnds(c, s);
    NobodyHolds(c, s, c.wr);
  }

  lemma InvCanStep(c: Config, s: State)
    requires Inv(c, s) && !CanHang(c) && !AllDone(s)
    ensures CanStep(c, s)
  {
    if s.parent.Wait1? && s.writer.Running? {
      if s.reader.Gone? {
        WriterFree(c, s);
      } else {
        StandardEnds(c, s);
        assert WriterCanStep(c, s, 1) || ReaderCanStep(c, s, 1);
      }
    }
    if s.parent.Wait2? && s.reader.Running? {
      ReaderFree(c, s);
    }
    assert !Enabled(c, s, ParentStep) ==> WriterCanStep(c, s, 1) || ReaderCanStep(c, s, 1);
  }

  /** No deadlock in the program as it is: while the parent has not finished waiting, one
      of the three can move. */
  lemma {:induction false} NeverStuck(c: Config, run: seq<Action>, s: State)
    requires c.Valid() && c.omitted == {} && Trace(c, Init(c), run, s) && !AllDone(s)
    ensures CanStep(c, s)
  {
    InitInv(c);
    TraceInv(c, Init(c), run, s);
    InvCanStep(c, s);
  }

  /** Nothing is lost, reordered or invented on the way, in any state. */
  lemma {:induction false} BytesInOrder(c: Config, run: seq<Action>, s: State)
    requires c.Valid() && Trace(c, Init(c), run, s)
    ensures s.got + s.buf + s.todo == c.data && Prefix(s.got, c.data) && |s.buf| <= c.cap
  {
    InitInv(c);
    TraceInv(c, Init(c), run, s);
  }

  /** When everything is over and both execs succeeded, the reader has received exactly
      the writer's bytes and then end of file. */
  lemma {:induction false} Delivered(c: Config, run: seq<Action>, s: State)
    requires c.Valid() && Trace(c, Init(c), run, s) && AllDone(s)
    ensures s.writer.Gone? && s.reader.Gone?
    ensures c.execReader ==> s.eof
    ensures c.execReader && c.execWriter ==> s.got == c.data
  {
    InitInv(c);
    TraceInv(c, Init(c), run, s);
  }

  function ParentRank(p: Parent): nat {
    match p
    case Fork1 => 6
    case Fork2 => 5
    case CloseRead => 4
    case CloseWrite => 3
    case Wait1 => 2
    case Wait2 => 1
    case ParentDone => 0
  }

  function ChildRank(p: Child): nat {
    match p
    case Absent => 6
    case CloseOther => 5
    case Dup2 => 4
    case CloseSpare => 3
    case Exec => 2
    case Running => 1
    case Gone => 0
  }

  /** A byte counts twice before it is in the pipe and once while it is there. */
  function Measure(s: State): nat {
    ParentRank(s.parent) + ChildRank(s.writer) + ChildRank(s.reader) + 2 * |s.todo| + |s.buf|
  }

  lemma WriterStepDrops(c: Config, s: State, n: nat)
    requires WriterCanStep(c, s, n)
    ensures Measure(WriterExec(c, s, n)) < Measure(s)
  {
    if s.writer.Running? && WriterExec(c, s, n).writer.Running? {
      assert |s.todo[n..]| == |s.todo| - n;
    }
  }

  lemma ReaderStepDrops(c: Config, s: State, n: nat)
    requires ReaderCanStep(c, s, n)
    ensures Measure(ReaderExec(c, s, n)) < Measure(s)
  {
    if s.reader.Running? && ReaderExec(c, s, n).reader.Running? {
      assert |s.buf[n..]| == |s.buf| - n;
    }
  }

  lemma EveryStepDrops(c: Config, s: State, a: Action)
    requires Enabled(c, s, a) && PhasesKnown(s)
    ensures Measure(Apply(c, s, a)) < Measure(s)
  {
    match a
    case ParentStep =>
    case WriterStep(n) => WriterStepDrops(c, s, n);
    case ReaderStep(n) => ReaderStepDrops(c, s, n);
  }

  lemma {:induction false} TraceBounded(c: Config, s0: State, run: seq<Action>, s: State)
    requires Inv(c, s0) && Trace(c, s0, run, s)
    ensures |run| + Measure(s) <= Measure(s0)
    decreases |run|
  {
    if run != [] {
      InvKept(c, s0, run[0]);
      EveryStepDrops(c, s0, run[0]);
      TraceBounded(c, Apply(c, s0, run[0]), run[1..], s);
    }
  }

  /** Every schedule ends, after at most 18 steps and two per byte; where the program as it
      is can go no further the parent has reaped both children. */
  lemma {:induction false} EveryRunEnds(c: Config, run: seq<Action>, s: State)
    requires c.Valid() && Trace(c, Init(c), run, s)
    ensures |run| <= 18 + 2 * |c.data|
    ensures c.omitted == {} && !CanStep(c, s) ==> AllDone(s)
  {
    InitInv(c);
    TraceBounded(c, Init(c), run, s);
    TraceInv(c, Init(c), run, s);
    if c.omitted == {} && !AllDone(s) {
      InvCanStep(c, s);
    }
  }

  lemma TraceCons(c: Config, s: State, a: Action, run: seq<Action>, end: State)
    requires Enabled(c, s, a) && Trace(c, Apply(c, s, a), run, end)
    ensures Trace(c, s, [a] + run, end)
  {
    assert ([a] + run)[0] == a && ([a] + run)[1..] == run;
  }

  lemma SomeStep(c: Config, s: State) returns (a: Action)
    requires CanStep(c, s)
    ensures Enabled(c, s, a)
  {
    if Enabled(c, s, ParentStep) {
      a := ParentStep;
    } else if exists n: nat :: WriterCanStep(c, s, n) {
      var n: nat :| WriterCanStep(c, s, n);
      a := WriterStep(n);
    } else {
      var n: nat :| ReaderCanStep(c, s, n);
      a := ReaderStep(n);
    }
  }

  /** Any schedule can be followed to where nobody can move. */
  lemma {:induction false} RunsOut(c: Config, s: State) returns (run: seq<Action>, end: State)
    requires Inv(c, s)
    ensures Trace(c, s, run, end) && !CanStep(c, end)
    decreases Measure(s)
  {
    if CanStep(c, s) {
      var a := SomeStep(c, s);
      InvKept(c, s, a);
      EveryStepDrops(c, s, a);
      run, end := RunsOut(c, Apply(c, s, a));
      TraceCons(c, s, a, run, end);
      run := [a] + run;
    } else {
      run, end := [], s;
    }
  }

  /** Under that condition no run gets to the end. */
  lemma HangingNeverDone(c: Config, s: State)
    requires Inv(c, s) && CanHang(c)
    ensures !AllDone(s)
  {
    assert |s.got + s.buf + s.todo| == |c.data|;
  }

  ghost predicate CanGetStuck(c: Config) {
    exists run, s :: Trace(c, Init(c), run, s) && !CanStep(c, s) && !AllDone(s)
  }

  /** Which closes matter: leaving some out lets the pipeline get stuck exactly under
      `CanHang`. When both execs succeed these are the parent's and the reader's close of
      the write end; the spare closes never matter for this. */
  lemma {:induction false} WhichClosesMatter(c: Config)
    requires c.Valid()
    ensures CanGetStuck(c) <==> CanHang(c)
    ensures c.execWriter && c.execReader ==>
      (CanGetStuck(c) <==> ParentWrite in c.omitted || ReaderWrite in c.omitted)
  {
    InitInv(c);
    if CanHang(c) {
      var run, s := RunsOut(c, Init(c));
      TraceInv(c, Init(c), run, s);
      HangingNeverDone(c, s);
    }
    if CanGetStuck(c) && !CanHang(c) {
      var run, s :| Trace(c, Init(c), run, s) && !CanStep(c, s) && !AllDone(s);
      TraceInv(c, Init(c), run, s);
      InvCanStep(c, s);
    }
  }
}
