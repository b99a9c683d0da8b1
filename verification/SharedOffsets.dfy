/** Who shares a file offset with whom. Over any run of reads, dup, dup2, close, fork,
    exit and further opens on files that do not change, the reads that go through one
    open file description, by whatever descriptor and process, deliver one contiguous
    stretch of the file. */
module SharedOffsets {
  import opened Bytes
  import opened Options
  import opened Slots
  import opened Descriptors
  import opened DescriptorFacts
  import opened DescriptorKernel

  datatype Action =
    | DoRead(pid: nat, fd: int, count: nat)
    | DoDup(pid: nat, fd: int)
    | DoDup2(pid: nat, fd: int, fd': nat)
    | DoClose(pid: nat, fd: int)
    | DoFork(pid: nat, child: nat)
    | DoExit(pid: nat)
    | DoOpen(pid: nat, inode: nat)

  predicate Enabled(t: Table, a: Action) {
    match a
    case DoOpen(pid, _) => pid in t.procs
    case DoFork(pid, child) => pid in t.procs && child !in t.procs
    case DoExit(pid) => pid in t.procs
    case _ => true
  }

  function Apply(t: Table, a: Action): Table
    requires t.Valid() && Enabled(t, a)
  {
    match a
    case DoRead(pid, fd, count) => t.Read(pid, fd, count).0
    case DoDup(pid, fd) => t.Dup(pid, fd).0
    case DoDup2(pid, fd, fd') => t.Dup2(pid, fd, fd').0
    case DoClose(pid, fd) => t.Close(pid, fd).0
    case DoFork(pid, child) => t.Fork(pid, child)
    case DoExit(pid) => t.Exit(pid)
    case DoOpen(pid, inode) => t.Open(pid, inode, false).0
  }

  lemma ForkValid(t: Table, parent: nat, child: nat)
    requires t.Valid() && parent in t.procs && child !in t.procs
    ensures t.Fork(parent, child).Valid()
  {
    var slots' := t.Fork(parent, child).slots;
    forall id | id in slots'.Values
      ensures id in t.slots.Values
    {
      var k :| k in slots' && slots'[k] == id;
      assert k in t.slots || (parent, k.1) in t.slots;
    }
    forall id | id in t.slots.Values
      ensures id in slots'.Values
    {
      var k :| k in t.slots && t.slots[k] == id;
      assert slots'[k] == id;
    }
  }

  lemma Dup2Valid(t: Table, pid: nat, fd: int, fd': nat)
    requires t.Valid()
    ensures t.Dup2(pid, fd, fd').0.Valid()
  {
    if t.IsOpen(pid, fd) {
      var slots' := t.slots[(pid, fd') := t.slots[(pid, fd)]];
      forall id | id in slots'.Values
        ensures id in t.slots.Values
      {
        var k :| k in slots' && slots'[k] == id;
        assert t.slots[(pid, fd)] in t.slots.Values;
      }
      RepointValid(t, slots');
    }
  }

  lemma OpenValid(t: Table, pid: nat, inode: nat, truncate: bool)
    requires t.Valid() && pid in t.procs
    ensures t.Open(pid, inode, truncate).0.Valid()
  {
    InstalledValues(t.slots, (pid, t.LowestFree(pid)), t.nextId);
  }

  lemma ApplyValid(t: Table, a: Action)
    requires t.Valid() && Enabled(t, a)
    ensures Apply(t, a).Valid()
  {
    match a
    case DoRead(pid, fd, count) =>
    case DoDup(pid, fd) =>
      if t.IsOpen(pid, fd) {
        assert t.slots[(pid, fd)] in t.slots.Values;
        InstalledValues(t.slots, (pid, t.LowestFree(pid)), t.slots[(pid, fd)]);
      }
    case DoDup2(pid, fd, fd') =>
      Dup2Valid(t, pid, fd, fd');
    case DoClose(pid, fd) =>
      if t.IsOpen(pid, fd) {
        FewerValues(t.slots, t.slots - {(pid, fd as nat)});
        RepointValid(t, t.slots - {(pid, fd as nat)});
      }
    case DoFork(pid, child) =>
      ForkValid(t, pid, child);
    case DoExit(pid) =>
      var slots' := map k | k in t.slots && k.0 != pid :: t.slots[k];
      FewerValues(t.slots, slots');
      RepointValid(t, slots');
    case DoOpen(pid, inode) =>
      OpenValid(t, pid, inode, false);
  }

  /** What the calls of a run do to the descriptors, apart from reads: a dup adds the lowest
      free slot at the same description, a dup2 the named one, a fork all of the parent's
      to the child; a close takes one slot away and an exit all of the process; an open
      adds a new description. */
  lemma {:induction false} ApplyActs(t: Table, a: Action)
    requires t.Valid() && Enabled(t, a)
    ensures var t' := Apply(t, a);
      match a
      case DoRead(_, _, _) => t'.slots == t.slots
      case DoDup(pid, fd) => fd >= 0 && (pid, fd as nat) in t.slots ==>
        exists n: nat :: (pid, n) !in t.slots && (forall m: nat :: m < n ==> (pid, m) in t.slots)
                         && t'.slots == t.slots[(pid, n) := t.slots[(pid, fd as nat)]]
      case DoDup2(pid, fd, fd') => fd >= 0 && (pid, fd as nat) in t.slots ==>
        t'.slots == t.slots[(pid, fd') := t.slots[(pid, fd as nat)]]
      case DoClose(pid, fd) => fd >= 0 ==> t'.slots == t.slots - {(pid, fd as nat)}
      case DoFork(pid, child) =>
        && (forall n: nat :: (child, n) in t'.slots <==> (pid, n) in t.slots)
        && (forall n: nat :: (pid, n) in t.slots ==> t'.slots[(child, n)] == t.slots[(pid, n)])
      case DoExit(pid) => forall k: Slot :: k in t'.slots <==> k in t.slots && k.0 != pid
      case DoOpen(pid, inode) => inode in t.files ==>
        exists n: nat, id: nat ::
          && (pid, n) !in t.slots && (forall m: nat :: m < n ==> (pid, m) in t.slots)
          && id !in t.open && t'.slots == t.slots[(pid, n) := id]
          && t'.open == t.open[id := Description(inode, 0)]
  {
    match a
    case DoRead(_, _, _) =>
    case DoDup(pid, fd) =>
      if fd >= 0 && (pid, fd as nat) in t.slots {
        var n := t.LowestFree(pid);
        assert Apply(t, a).slots == t.slots[(pid, n) := t.slots[(pid, fd as nat)]];
      }
    case DoDup2(pid, fd, fd') =>
    case DoClose(pid, fd) =>
    case DoFork(pid, child) =>
      ForkInherits(t, pid, child);
    case DoExit(pid) =>
      ExitRemoves(t, pid);
    case DoOpen(pid, inode) =>
      if inode in t.files {
        var n := t.LowestFree(pid);
        assert (pid, n) !in t.slots && t.nextId !in t.open;
        assert Apply(t, a).slots == t.slots[(pid, n) := t.nextId];
        assert Apply(t, a).open == t.open[t.nextId := Description(inode, 0)];
      }
  }

  /** The bytes that `a` reads through description `id`. */
  function ReadThrough(t: Table, a: Action, id: nat): seq<byte>
    requires t.Valid()
  {
    if a.DoRead? && t.IsOpen(a.pid, a.fd) && t.slots[(a.pid, a.fd)] == id then t.Data(a.pid, a.fd, a.count) else []
  }

  ghost predicate Runs(t: Table, run: seq<Action>)
    requires t.Valid()
    decreases |run|
  {
    run == [] || (Enabled(t, run[0]) && (ApplyValid(t, run[0]); Runs(Apply(t, run[0]), run[1..])))
  }

  ghost function End(t: Table, run: seq<Action>): (r: Table)
    requires t.Valid() && Runs(t, run)
    ensures r.Valid()
    decreases |run|
  {
    if run == [] then t else (ApplyValid(t, run[0]); End(Apply(t, run[0]), run[1..]))
  }

  /** All bytes read through description `id`, in the order of the reads. */
  ghost function Collected(t: Table, run: seq<Action>, id: nat): seq<byte>
    requires t.Valid() && Runs(t, run)
    decreases |run|
  {
    if run == [] then []
    else (ApplyValid(t, run[0]); ReadThrough(t, run[0], id) + Collected(Apply(t, run[0]), run[1..], id))
  }

  lemma FirstStep(t: Table, run: seq<Action>, id: nat)
    requires t.Valid() && Runs(t, run) && run != []
    ensures Enabled(t, run[0])
    ensures var t' := Apply(t, run[0]);
      && t'.Valid() && Runs(t', run[1..]) && End(t, run) == End(t', run[1..])
      && Collected(t, run, id) == ReadThrough(t, run[0], id) + Collected(t', run[1..], id)
  {
    ApplyValid(t, run[0]);
  }

  /** `c` is what `file` holds from `offset` on. */
  predicate Stretch(file: seq<byte>, offset: nat, c: seq<byte>) {
    c != [] ==> offset + |c| <= |file| && c == file[offset..offset + |c|]
  }

  lemma StretchesJoin(file: seq<byte>, offset: nat, r: seq<byte>, c: seq<byte>)
    requires Stretch(file, offset, r) && Stretch(file, offset + |r|, c)
    ensures Stretch(file, offset, r + c)
  {
    if r == [] {
      assert r + c == c;
    } else if c == [] {
      assert r + c == r;
    } else {
      assert r + c == file[offset..offset + |r| + |c|];
    }
  }

  /** One step: a live description moves by what is read through it and by nothing
      else; files and inodes stay. */
  lemma StepMoves(t: Table, a: Action, id: nat)
    requires t.Valid() && Enabled(t, a) && id in t.open
    ensures var t' := Apply(t, a);
      && t'.files == t.files && t'.nextId >= t.nextId
      && (id in t'.open ==> t'.open[id] == t.open[id].(offset := t.open[id].offset + |ReadThrough(t, a, id)|))
  {
  }

  lemma StepReads(t: Table, a: Action, id: nat)
    requires t.Valid() && id in t.open
    ensures Stretch(t.files[t.open[id].inode], t.open[id].offset, ReadThrough(t, a, id))
  {
  }

  /** A description that is gone does not come back. */
  lemma {:induction false} GoneStaysGone(t: Table, run: seq<Action>, id: nat)
    requires t.Valid() && Runs(t, run) && id !in t.open && id < t.nextId
    ensures Collected(t, run, id) == [] && id !in End(t, run).open
    decreases |run|
  {
    if run != [] {
      ApplyValid(t, run[0]);
      assert run[0].DoRead? && t.IsOpen(run[0].pid, run[0].fd) ==> t.slots[(run[0].pid, run[0].fd)] in t.slots.Values;
      GoneStaysGone(Apply(t, run[0]), run[1..], id);
    }
  }

  /** What holds of a run from `t`, through which `c` was collected from description `id`
      and which ends in `end`: `c` is the stretch of the file that starts at the offset,
      and the offset has moved to the end of that stretch. */
  ghost predicate Contiguous(t: Table, id: nat, c: seq<byte>, end: Table)
    requires t.Valid() && id in t.open
  {
    var at := t.open[id];
    && Stretch(t.files[at.inode], at.offset, c)
    && (id in end.open ==> end.open[id] == at.(offset := at.offset + |c|))
  }

  /** A step from `t` to `t'` that reads `r`, in front of such a run. */
  lemma OneMoreRead(t: Table, t': Table, r: seq<byte>, id: nat, c: seq<byte>, end: Table)
    requires t.Valid() && t'.Valid() && id in t.open && t'.files == t.files
    requires Stretch(t.files[t.open[id].inode], t.open[id].offset, r)
    requires id in t'.open ==>
      && t'.open[id] == t.open[id].(offset := t.open[id].offset + |r|)
      && Contiguous(t', id, c, end)
    requires id !in t'.open ==> c == [] && id !in end.open
    ensures Contiguous(t, id, r + c, end)
  {
    StretchesJoin(t.files[t.open[id].inode], t.open[id].offset, r, c);
  }

  /** Nothing is skipped and nothing read twice: the reads through one description
      concatenate to the stretch of its file that starts at its offset, and leave the
      offset at the end of that stretch; reads through other descriptions do not move
      it. */
  lemma {:induction false} ReadsAreContiguous(t: Table, run: seq<Action>, id: nat)
    requires t.Valid() && Runs(t, run) && id in t.open
    ensures Contiguous(t, id, Collected(t, run, id), End(t, run))
    decreases |run|
  {
    if run == [] {
      assert End(t, run) == t && Collected(t, run, id) == [];
    } else {
      var t' := Apply(t, run[0]);
      FirstStep(t, run, id);
      StepMoves(t, run[0], id);
      StepReads(t, run[0], id);
      if id in t'.open {
        ReadsAreContiguous(t', run[1..], id);
      } else {
        GoneStaysGone(t', run[1..], id);
      }
      OneMoreRead(t, t', ReadThrough(t, run[0], id), id, Collected(t', run[1..], id), End(t', run[1..]));
    }
  }

  /** How many bytes `a` asks for through description `id`. */
  function AskedBy(t: Table, a: Action, id: nat): nat {
    if a.DoRead? && a.fd >= 0 && (a.pid, a.fd) in t.slots && t.slots[(a.pid, a.fd)] == id then a.count else 0
  }

  /** How many bytes all reads through `id` ask for together. */
  ghost function Asked(t: Table, run: seq<Action>, id: nat): nat
    requires t.Valid() && Runs(t, run)
    decreases |run|
  {
    if run == [] then 0 else (ApplyValid(t, run[0]); AskedBy(t, run[0], id) + Asked(Apply(t, run[0]), run[1..], id))
  }

  /** What the file still holds from an offset on. */
  function Left(file: seq<byte>, offset: nat): nat {
    if offset < |file| then |file| - offset else 0
  }

  lemma StepReadsAll(t: Table, a: Action, id: nat)
    requires t.Valid() && id in t.open
    ensures var at := t.open[id]; var left := Left(t.files[at.inode], at.offset);
      |ReadThrough(t, a, id)| == if AskedBy(t, a, id) <= left then AskedBy(t, a, id) else left
  {
    if a.DoRead? && a.fd >= 0 {
      ReadDelivers(t, a.pid, a.fd, a.count);
    }
  }

  lemma {:induction false} GoneAsksNothing(t: Table, run: seq<Action>, id: nat)
    requires t.Valid() && Runs(t, run) && id !in t.open && id < t.nextId
    ensures Asked(t, run, id) == 0
    decreases |run|
  {
    if run != [] {
      ApplyValid(t, run[0]);
      assert run[0].DoRead? && t.IsOpen(run[0].pid, run[0].fd) ==> t.slots[(run[0].pid, run[0].fd)] in t.slots.Values;
      GoneAsksNothing(Apply(t, run[0]), run[1..], id);
    }
  }

  /** The lengths of a first read and of the rest of a run add up. */
  lemma CappedSum(first: nat, more: nat, left: nat, r: nat, c: nat)
    requires r == if first <= left then first else left
    requires c == if more <= left - r then more else left - r
    ensures r + c == if first + more <= left then first + more else left
  {
  }

  /** Nothing is withheld either: however the reads through one description are spread
      over descriptors and processes, together they deliver all they ask for as far as
      the file goes, so reads that ask for enough collect the whole rest of it. */
  lemma {:induction false} ReadsDeliverAll(t: Table, run: seq<Action>, id: nat)
    requires t.Valid() && Runs(t, run) && id in t.open
    ensures var at := t.open[id]; var file := t.files[at.inode];
      var c, asked, left := Collected(t, run, id), Asked(t, run, id), Left(t.files[at.inode], at.offset);
      && |c| == (if asked <= left then asked else left)
      && (at.offset <= |file| && asked >= |file| - at.offset ==> c == file[at.offset..])
    decreases |run|
  {
    ReadsAreContiguous(t, run, id);
    if run != [] {
      var t' := Apply(t, run[0]);
      FirstStep(t, run, id);
      StepMoves(t, run[0], id);
      StepReadsAll(t, run[0], id);
      if id in t'.open {
        ReadsDeliverAll(t', run[1..], id);
        var at := t.open[id];
        CappedSum(AskedBy(t, run[0], id), Asked(t', run[1..], id), Left(t.files[at.inode], at.offset),
                  |ReadThrough(t, run[0], id)|, |Collected(t', run[1..], id)|);
      } else {
        GoneStaysGone(t', run[1..], id);
        GoneAsksNothing(t', run[1..], id);
      }
    }
  }

  /** One call on the counting kernel; a read hands over what it got through `id`. */
  method Call(k: Kernel, a: Action, id: nat) returns (got: seq<byte>)
    requires k.Valid() && Enabled(k.View(), a)
    modifies k
    ensures k.Valid() && k.View() == Apply(old(k.View()), a) && got == ReadThrough(old(k.View()), a, id)
  {
    got := [];
    match a {
      case DoRead(pid, fd, count) =>
        var through := (pid, fd) in k.slots && k.slots[(pid, fd)] == id;
        var data := k.Read(pid, fd, count);
        if through {
          got := data.value;
        }
      case DoDup(pid, fd) =>
        var _ := k.Dup(pid, fd);
      case DoDup2(pid, fd, fd') =>
        var _ := k.Dup2(pid, fd, fd');
      case DoClose(pid, fd) =>
        var _ := k.Close(pid, fd);
      case DoFork(pid, child) =>
        k.Fork(pid, child);
      case DoExit(pid) =>
        k.Exit(pid);
      case DoOpen(pid, inode) =>
        var _ := k.Open(pid, inode, false);
    }
  }

  /** The run `run` from `t`, seen from a later state with `rest` still to come. */
  ghost predicate Underway(t: Table, run: seq<Action>, id: nat, got: seq<byte>, now: Table, rest: seq<Action>)
    requires t.Valid() && Runs(t, run)
  {
    && now.Valid() && Runs(now, rest)
    && End(t, run) == End(now, rest)
    && Collected(t, run, id) == got + Collected(now, rest, id)
  }

  lemma Regroup(a: seq<byte>, b: seq<byte>, c: seq<byte>)
    ensures a + (b + c) == a + b + c
  {
  }

  lemma OneStepOn(t: Table, run: seq<Action>, id: nat, got: seq<byte>, now: Table, rest: seq<Action>)
    requires t.Valid() && Runs(t, run) && Underway(t, run, id, got, now, rest) && rest != []
    ensures Enabled(now, rest[0])
    ensures Underway(t, run, id, got + ReadThrough(now, rest[0], id), Apply(now, rest[0]), rest[1..])
  {
    FirstStep(now, rest, id);
    Regroup(got, ReadThrough(now, rest[0], id), Collected(Apply(now, rest[0]), rest[1..], id));
  }

  /** Any run on the counting kernel: the counts stay exact throughout, and the bytes
      read through `id` are the stretch that ReadsAreContiguous speaks of. */
  method CallAll(k: Kernel, run: seq<Action>, id: nat) returns (got: seq<byte>)
    requires k.Valid() && Runs(k.View(), run)
    modifies k
    ensures k.Valid() && k.View() == End(old(k.View()), run) && got == Collected(old(k.View()), run, id)
  {
    ghost var t := k.View();
    got := [];
    var i := 0;
    while i < |run|
      invariant i <= |run| && k.Valid() && Underway(t, run, id, got, k.View(), run[i..])
    {
      OneStepOn(t, run, id, got, k.View(), run[i..]);
      var some := Call(k, run[i], id);
      got := got + some;
      i := i + 1;
    }
  }
}
