/** The demo of the three levels: a file opened and truncated, a dup of that descriptor,
    and a second open of the same file. Every call may fail, and reads and writes may move
    less than asked for. */
module ThreeLevels {
  import opened Bytes
  import opened Options
  import opened Slots
  import opened Descriptors
  import opened DescriptorKernel

  /** Three fresh descriptors of one file: `one` and `two` share a description, `three`
      has its own. */
  datatype Trio = Trio(one: nat, two: nat, three: nat)

  /** The table with such a trio; `content` is what the file holds, `shared` and `own`
      are the offsets of the two descriptions. */
  function WithTrio(t: Table, pid: nat, inode: nat, f: Trio, content: seq<byte>, shared: nat, own: nat): Table {
    t.(slots := t.slots[(pid, f.one) := t.nextId][(pid, f.two) := t.nextId][(pid, f.three) := t.nextId + 1],
       open := t.open[t.nextId := Description(inode, shared)][t.nextId + 1 := Description(inode, own)],
       files := t.files[inode := content],
       nextId := t.nextId + 2)
  }

  predicate Unused(t: Table, pid: nat, f: Trio) {
    && f.one != f.two && f.two != f.three && f.one != f.three
    && (pid, f.one) !in t.slots && (pid, f.two) !in t.slots && (pid, f.three) !in t.slots
  }

  /** open, dup, open. */
  lemma TrioOpened(t: Table, pid: nat, inode: nat, f: Trio)
    requires t.Valid() && pid in t.procs && inode in t.files
    requires f.one == t.LowestFree(pid)
    requires var t1 := t.Open(pid, inode, true).0;
      f.two == t1.LowestFree(pid) && f.three == t1.Dup(pid, f.one).0.LowestFree(pid)
    ensures Unused(t, pid, f)
    ensures t.Open(pid, inode, true).0.Dup(pid, f.one).0.Open(pid, inode, false).0
      == WithTrio(t, pid, inode, f, [], 0, 0)
  {
    var t1 := t.Open(pid, inode, true).0;
    var t2 := t1.Dup(pid, f.one).0;
    assert t2.slots == t.slots[(pid, f.one) := t.nextId][(pid, f.two) := t.nextId];
    assert (pid, f.one) in t2.slots && (pid, f.two) in t2.slots;
  }

  lemma UpdateFirst(m: map<nat, Description>, a: nat, x: Description, b: nat, y: Description, z: Description)
    requires a != b
    ensures m[a := x][b := y][a := z] == m[a := z][b := y]
  {
  }

  lemma TrioAt(t: Table, pid: nat, inode: nat, f: Trio, content: seq<byte>, shared: nat, own: nat)
    requires Unused(t, pid, f) && WithTrio(t, pid, inode, f, content, shared, own).Valid()
    ensures var w := WithTrio(t, pid, inode, f, content, shared, own);
      && w.IsOpen(pid, f.one) && w.IsOpen(pid, f.two) && w.IsOpen(pid, f.three) && w.files[inode] == content
      && w.slots[(pid, f.one)] == w.slots[(pid, f.two)] == t.nextId && w.slots[(pid, f.three)] == t.nextId + 1
      && w.At(pid, f.one) == w.At(pid, f.two) == Description(inode, shared)
      && w.At(pid, f.three) == Description(inode, own)
  {
  }

  /** Who moves with whom: an offset set through `one` or `two` is the other's too. */
  lemma TrioMoves(t: Table, pid: nat, inode: nat, f: Trio, content: seq<byte>, shared: nat, own: nat, offset: nat)
    requires Unused(t, pid, f) && WithTrio(t, pid, inode, f, content, shared, own).Valid()
    ensures var w := WithTrio(t, pid, inode, f, content, shared, own);
      && w.IsOpen(pid, f.one) && w.IsOpen(pid, f.two) && w.files[inode] == content
      && w.At(pid, f.one) == w.At(pid, f.two) == Description(inode, shared)
      && w.Move(pid, f.one, offset) == WithTrio(t, pid, inode, f, content, offset, own)
      && w.Move(pid, f.two, offset) == WithTrio(t, pid, inode, f, content, offset, own)
  {
    TrioAt(t, pid, inode, f, content, shared, own);
    UpdateFirst(t.open, t.nextId, Description(inode, shared), t.nextId + 1, Description(inode, own),
                Description(inode, offset));
  }

  /** `three` moves alone. */
  lemma TrioMovesOwn(t: Table, pid: nat, inode: nat, f: Trio, content: seq<byte>, shared: nat, own: nat, offset: nat)
    requires Unused(t, pid, f) && WithTrio(t, pid, inode, f, content, shared, own).Valid()
    ensures var w := WithTrio(t, pid, inode, f, content, shared, own);
      && w.IsOpen(pid, f.three) && w.files[inode] == content
      && w.At(pid, f.three) == Description(inode, own)
      && w.Move(pid, f.three, offset) == WithTrio(t, pid, inode, f, content, shared, offset)
  {
    TrioAt(t, pid, inode, f, content, shared, own);
  }

  lemma TrioOpen(t: Table, pid: nat, inode: nat, f: Trio, content: seq<byte>, shared: nat, own: nat)
    requires Unused(t, pid, f)
    ensures var w := WithTrio(t, pid, inode, f, content, shared, own);
      w.IsOpen(pid, f.one) && w.IsOpen(pid, f.two) && w.IsOpen(pid, f.three)
  {
  }

  /** A first part of the data is written through `one`. */
  lemma TrioWrites(t: Table, pid: nat, inode: nat, f: Trio, part: seq<byte>)
    requires Unused(t, pid, f) && WithTrio(t, pid, inode, f, [], 0, 0).Valid()
    ensures WithTrio(t, pid, inode, f, [], 0, 0).Write(pid, f.one, part).0
      == WithTrio(t, pid, inode, f, part, |part|, 0)
  {
    TrioMoves(t, pid, inode, f, [], 0, 0, |part|);
    assert Splice([], 0, part) == part;
  }

  /** Reads through `one` and `two` see and move the shared offset ... */
  lemma TrioReads(t: Table, pid: nat, inode: nat, f: Trio, content: seq<byte>, shared: nat, own: nat, fd: nat, n: nat)
    requires Unused(t, pid, f) && WithTrio(t, pid, inode, f, content, shared, own).Valid()
    requires fd == f.one || fd == f.two
    ensures var d := Window(content, shared, n);
      WithTrio(t, pid, inode, f, content, shared, own).Read(pid, fd, n)
        == (WithTrio(t, pid, inode, f, content, shared + |d|, own), Some(d))
  {
    TrioMoves(t, pid, inode, f, content, shared, own, shared + |Window(content, shared, n)|);
  }

  /** ... those through `three` its own. */
  lemma TrioReadsOwn(t: Table, pid: nat, inode: nat, f: Trio, content: seq<byte>, shared: nat, own: nat, n: nat)
    requires Unused(t, pid, f) && WithTrio(t, pid, inode, f, content, shared, own).Valid()
    ensures var d := Window(content, own, n);
      WithTrio(t, pid, inode, f, content, shared, own).Read(pid, f.three, n)
        == (WithTrio(t, pid, inode, f, content, shared, own + |d|), Some(d))
  {
    TrioMovesOwn(t, pid, inode, f, content, shared, own, own + |Window(content, own, n)|);
  }

  lemma FirstWindow(content: seq<byte>, n: nat)
    requires n <= |content|
    ensures Window(content, 0, n) == content[..n] && (n == |content| ==> content[..n] == content)
  {
  }

  /** Through `one`, from the start, `n` bytes are the first `n`. */
  lemma TrioReadsStart(t: Table, pid: nat, inode: nat, f: Trio, data: seq<byte>, n: nat)
    requires Unused(t, pid, f) && WithTrio(t, pid, inode, f, data, 0, 0).Valid() && n <= |data|
    ensures WithTrio(t, pid, inode, f, data, 0, 0).Read(pid, f.one, n)
         == (WithTrio(t, pid, inode, f, data, n, 0), Some(data[..n]))
    ensures n == |data| ==> data[..n] == data
  {
    TrioReads(t, pid, inode, f, data, 0, 0, f.one, n);
    FirstWindow(data, n);
  }

  /** Through the dup, at the end, there is nothing to read and nothing moves. */
  lemma TrioReadsEnd(t: Table, pid: nat, inode: nat, f: Trio, data: seq<byte>, n: nat)
    requires Unused(t, pid, f) && WithTrio(t, pid, inode, f, data, |data|, 0).Valid()
    ensures var w := WithTrio(t, pid, inode, f, data, |data|, 0); w.Read(pid, f.two, n) == (w, Some([]))
  {
    TrioReads(t, pid, inode, f, data, |data|, 0, f.two, n);
    assert Window(data, |data|, n) == [];
  }

  /** Repointing to the slots of `t` keeps its descriptions and drops newer ones. */
  lemma NobodyElse(t: Table, w: Table)
    requires t.Valid() && t.open.Keys <= w.open.Keys && (forall id :: id in t.open ==> w.open[id] == t.open[id])
    ensures w.Repoint(t.slots).open == t.open
  {
  }

  /** Closing all three leaves the slots and descriptions there were. */
  lemma TrioClosed(t: Table, pid: nat, inode: nat, f: Trio, content: seq<byte>, shared: nat, own: nat)
    requires t.Valid() && Unused(t, pid, f)
    ensures var w := WithTrio(t, pid, inode, f, content, shared, own);
      w.Close(pid, f.three).0.Close(pid, f.two).0.Close(pid, f.one).0
         == t.(files := t.files[inode := content], nextId := t.nextId + 2)
  {
    var w := WithTrio(t, pid, inode, f, content, shared, own);
    var s2 := w.slots - {(pid, f.three)};
    var s1 := s2 - {(pid, f.two)};
    assert s2 == t.slots[(pid, f.one) := t.nextId][(pid, f.two) := t.nextId];
    assert s1 == t.slots[(pid, f.one) := t.nextId];
    assert s1 - {(pid, f.one)} == t.slots;
    assert w.Close(pid, f.three).0 == w.Repoint(s2);
    RepointTwice(w, s2, (pid, f.two));
    RepointTwice(w, s1, (pid, f.one));
    NobodyElse(t, w);
  }

  /** The same when the second open, or already the dup, has failed. */
  lemma FewerClosed(t: Table, pid: nat, inode: nat)
    requires t.Valid() && pid in t.procs && inode in t.files
    ensures var (t1, one) := t.Open(pid, inode, true); var (t2, two) := t1.Dup(pid, one);
      var end := t.(files := t.files[inode := []], nextId := t.nextId + 1);
      && t1.Close(pid, one).0 == end
      && t2.Close(pid, one).0.Close(pid, two).0 == end
  {
    var (t1, one) := t.Open(pid, inode, true);
    var (t2, two) := t1.Dup(pid, one);
    var k1, k2 := (pid, one as nat), (pid, two as nat);
    assert t1.slots - {k1} == t.slots;
    assert t2.slots - {k1} == t.slots[k2 := t.nextId];
    assert t2.slots - {k1} - {k2} == t.slots;
    RepointTwice(t2, t2.slots - {k1}, k2);
    NobodyElse(t, t1);
    NobodyElse(t, t2);
  }

  // ------------------------------------------------------------ calls that may fail

  datatype Fault = Fine | Short(n: nat) | Failed

  /** How the `i`-th call from now will go; when the script has run out calls go well. */
  function Reply(script: seq<Fault>, i: nat): Fault {
    if i < |script| then script[i] else Fine
  }

  /** What is left of a script after `n` calls. */
  function Later(script: seq<Fault>, n: nat): seq<Fault> {
    if n <= |script| then script[n..] else []
  }

  lemma LaterReplies(script: seq<Fault>, n: nat)
    ensures forall i: nat :: Reply(Later(script, n), i) == Reply(script, n + i)
    ensures Later(Later(script, 1), n) == Later(script, n + 1)
  {
  }

  /** How many bytes a transfer of `size` bytes moves; -1 when it fails. */
  function Moved(f: Fault, size: nat): (n: int)
    ensures -1 <= n <= size
  {
    match f
    case Fine => size
    case Short(n) => if n < size then n else size
    case Failed => -1
  }

  /** How the calls to come will go. */
  class Faults {
    var script: seq<Fault>

    constructor (script: seq<Fault>)
      ensures this.script == script
    {
      this.script := script;
    }

    method Next() returns (f: Fault)
      modifies this
      ensures f == Reply(old(script), 0) && script == Later(old(script), 1)
    {
      if script == [] {
        return Fine;
      }
      f := script[0];
      script := script[1..];
    }
  }

  method TryWrite(k: Kernel, faults: Faults, pid: nat, fd: nat, data: seq<byte>) returns (n: int)
    requires k.Valid() && k.View().IsOpen(pid, fd)
    modifies k`open, k`files, faults
    ensures k.Valid() && n == Moved(Reply(old(faults.script), 0), |data|)
    ensures n < 0 ==> k.View() == old(k.View())
    ensures n >= 0 ==> k.View() == old(k.View()).Write(pid, fd, data[..n]).0
    ensures faults.script == Later(old(faults.script), 1)
  {
    var f := faults.Next();
    n := Moved(f, |data|);
    if n == -1 {
      return;
    }
    var _ := k.Write(pid, fd, data[..n]);
  }

  method TryRead(k: Kernel, faults: Faults, pid: nat, fd: nat, count: nat) returns (data: Option<seq<byte>>)
    requires k.Valid() && k.View().IsOpen(pid, fd)
    modifies k`open, faults
    ensures k.Valid() && faults.script == Later(old(faults.script), 1)
    ensures var n := Moved(Reply(old(faults.script), 0), count);
      if n < 0 then data.None? && k.View() == old(k.View()) else (k.View(), data) == old(k.View()).Read(pid, fd, n)
  {
    var f := faults.Next();
    var n := Moved(f, count);
    if n == -1 {
      return None;
    }
    data := k.Read(pid, fd, n);
  }

  method TryRewind(k: Kernel, faults: Faults, pid: nat, fd: nat) returns (r: int)
    requires k.Valid() && k.View().IsOpen(pid, fd)
    modifies k`open, faults
    ensures k.Valid() && r == if Reply(old(faults.script), 0).Failed? then -1 else 0
    ensures k.View() == if r == -1 then old(k.View()) else old(k.View()).Seek(pid, fd, 0).0
    ensures faults.script == Later(old(faults.script), 1)
  {
    var f := faults.Next();
    if f.Failed? {
      return -1;
    }
    r := k.Seek(pid, fd, 0);
  }

  // ------------------------------------------------------------------- the demo

  /** What the demo found out: the read at the shared end, the read after rewinding through
      the dup, and the read through the second open. */
  datatype Findings = Findings(atEnd: Option<seq<byte>>, rewound: Option<seq<byte>>, independent: Option<seq<byte>>)

  const NOTHING := Findings(None, None, None)

  /** What is found out once the data is written, when the calls from there on go as the
      script says: a failed call ends it, and so does a short read that should have been
      full; the rewind of the third descriptor is not looked at. */
  function Expected(script: seq<Fault>, data: seq<byte>): Findings {
    if Reply(script, 0).Failed? then NOTHING
    else if Reply(script, 1).Failed? || Moved(Reply(script, 2), |data|) != |data| then Findings(Some([]), None, None)
    else if Moved(Reply(script, 4), |data|) != |data| then Findings(Some([]), Some(data), None)
    else Findings(Some([]), Some(data), Some(data))
  }

  /** Whatever was found out is as promised, and the data was written first. */
  predicate AsPromised(r: Findings, data: seq<byte>, content: seq<byte>) {
    && Prefix(content, data)
    && (r.atEnd.Some? ==> r.atEnd == Some([]) && content == data)
    && (r.rewound.Some? ==> r.rewound == Some(data) && r.atEnd.Some?)
    && (r.independent.Some? ==> r.independent == Some(data) && r.rewound.Some?)
  }

  lemma ExpectedAsPromised(script: seq<Fault>, data: seq<byte>, n: int)
    requires n <= |data|
    ensures AsPromised(NOTHING, data, if n < 0 then [] else data[..n])
    ensures n == |data| ==> AsPromised(Expected(script, data), data, data[..n])
  {
  }

  /** The read through the dup, at the shared end. */
  method UseDup(k: Kernel, faults: Faults, pid: nat, fd1: nat, fd2: nat, fd3: nat, data: seq<byte>,
                ghost t: Table, ghost inode: nat) returns (d: Option<seq<byte>>)
    requires k.Valid() && Unused(t, pid, Trio(fd1, fd2, fd3))
    requires k.View() == WithTrio(t, pid, inode, Trio(fd1, fd2, fd3), data, |data|, 0)
    modifies k`open, faults
    ensures k.Valid() && k.View() == old(k.View())
    ensures d == if Reply(old(faults.script), 0).Failed? then None else Some([])
    ensures faults.script == Later(old(faults.script), 1)
  {
    ghost var f, n := Trio(fd1, fd2, fd3), Moved(Reply(faults.script, 0), |data|);
    TrioOpen(t, pid, inode, f, data, |data|, 0);
    d := TryRead(k, faults, pid, fd2, |data|);
    if n >= 0 {
      TrioReadsEnd(t, pid, inode, f, data, n);
    }
  }

  /** The read through the first descriptor; only one of full length counts. */
  method UseRewound(k: Kernel, faults: Faults, pid: nat, fd1: nat, fd2: nat, fd3: nat, data: seq<byte>,
                    ghost t: Table, ghost inode: nat) returns (d: Option<seq<byte>>, ghost shared: nat)
    requires k.Valid() && Unused(t, pid, Trio(fd1, fd2, fd3))
    requires k.View() == WithTrio(t, pid, inode, Trio(fd1, fd2, fd3), data, 0, 0)
    modifies k`open, faults
    ensures k.Valid() && k.View() == WithTrio(t, pid, inode, Trio(fd1, fd2, fd3), data, shared, 0)
    ensures d == if Moved(Reply(old(faults.script), 0), |data|) == |data| then Some(data) else None
    ensures faults.script == Later(old(faults.script), 1)
  {
    ghost var f, n := Trio(fd1, fd2, fd3), Moved(Reply(faults.script, 0), |data|);
    TrioOpen(t, pid, inode, f, data, 0, 0);
    d := TryRead(k, faults, pid, fd1, |data|);
    if n >= 0 {
      TrioReadsStart(t, pid, inode, f, data, n);
    }
    shared := if d.Some? then |d.value| else 0;
    if d.Some? && |d.value| != |data| {
      d := None;
    }
  }

  /** The rewind of the third descriptor, which is not looked at, and the read through it. */
  method UseThird(k: Kernel, faults: Faults, pid: nat, fd1: nat, fd2: nat, fd3: nat, data: seq<byte>, ghost shared: nat,
                  ghost t: Table, ghost inode: nat) returns (d: Option<seq<byte>>, ghost own: nat)
    requires k.Valid() && Unused(t, pid, Trio(fd1, fd2, fd3))
    requires k.View() == WithTrio(t, pid, inode, Trio(fd1, fd2, fd3), data, shared, 0)
    modifies k`open, faults
    ensures k.Valid() && k.View() == WithTrio(t, pid, inode, Trio(fd1, fd2, fd3), data, shared, own)
    ensures d == if Moved(Reply(old(faults.script), 1), |data|) == |data| then Some(data) else None
    ensures faults.script == Later(old(faults.script), 2)
  {
    LaterReplies(faults.script, 1);
    ghost var f, n := Trio(fd1, fd2, fd3), Moved(Reply(faults.script, 1), |data|);
    TrioMovesOwn(t, pid, inode, f, data, shared, 0, 0);
    var _ := TryRewind(k, faults, pid, fd3);
    TrioOpen(t, pid, inode, f, data, shared, 0);
    d := TryRead(k, faults, pid, fd3, |data|);
    if n >= 0 {
      TrioReadsOwn(t, pid, inode, f, data, shared, 0, n);
      FirstWindow(data, n);
    }
    own := if d.Some? then |d.value| else 0;
    if d.Some? && |d.value| != |data| {
      d := None;
    }
  }

  /** The rewind through the dup. */
  method Rewind(k: Kernel, faults: Faults, pid: nat, fd1: nat, fd2: nat, fd3: nat, data: seq<byte>,
                ghost t: Table, ghost inode: nat) returns (p: int)
    requires k.Valid() && Unused(t, pid, Trio(fd1, fd2, fd3))
    requires k.View() == WithTrio(t, pid, inode, Trio(fd1, fd2, fd3), data, |data|, 0)
    modifies k`open, faults
    ensures k.Valid() && p == if Reply(old(faults.script), 0).Failed? then -1 else 0
    ensures k.View() == if p == -1 then old(k.View()) else WithTrio(t, pid, inode, Trio(fd1, fd2, fd3), data, 0, 0)
    ensures faults.script == Later(old(faults.script), 1)
  {
    TrioMoves(t, pid, inode, Trio(fd1, fd2, fd3), data, |data|, 0, 0);
    p := TryRewind(k, faults, pid, fd2);
  }

  /** What follows the rewind; the last read is reached only after the one before it. */
  method UseRest(k: Kernel, faults: Faults, pid: nat, fd1: nat, fd2: nat, fd3: nat, data: seq<byte>,
                 ghost t: Table, ghost inode: nat)
    returns (rewound: Option<seq<byte>>, independent: Option<seq<byte>>, ghost shared: nat, ghost own: nat)
    requires k.Valid() && Unused(t, pid, Trio(fd1, fd2, fd3))
    requires k.View() == WithTrio(t, pid, inode, Trio(fd1, fd2, fd3), data, 0, 0)
    modifies k`open, faults
    ensures k.Valid() && k.View() == WithTrio(t, pid, inode, Trio(fd1, fd2, fd3), data, shared, own)
    ensures rewound == if Moved(Reply(old(faults.script), 0), |data|) == |data| then Some(data) else None
    ensures independent ==
      if rewound.Some? && Moved(Reply(old(faults.script), 2), |data|) == |data| then Some(data) else None
  {
    LaterReplies(faults.script, 1);
    independent, own := None, 0;
    rewound, shared := UseRewound(k, faults, pid, fd1, fd2, fd3, data, t, inode);
    if rewound.None? {
      return;
    }
    independent, own := UseThird(k, faults, pid, fd1, fd2, fd3, data, shared, t, inode);
  }

  method UseReads(k: Kernel, faults: Faults, pid: nat, fd1: nat, fd2: nat, fd3: nat, data: seq<byte>,
                  ghost t: Table, ghost inode: nat)
    returns (r: Findings, ghost shared: nat, ghost own: nat)
    requires k.Valid() && Unused(t, pid, Trio(fd1, fd2, fd3))
    requires k.View() == WithTrio(t, pid, inode, Trio(fd1, fd2, fd3), data, |data|, 0)
    modifies k`open, faults
    ensures k.Valid() && k.View() == WithTrio(t, pid, inode, Trio(fd1, fd2, fd3), data, shared, own)
    ensures r == Expected(old(faults.script), data)
  {
    LaterReplies(faults.script, 1);
    LaterReplies(faults.script, 2);
    r, shared, own := NOTHING, |data|, 0;
    var d := UseDup(k, faults, pid, fd1, fd2, fd3, data, t, inode);
    if d.None? {
      return;
    }
    r := r.(atEnd := d);
    var p := Rewind(k, faults, pid, fd1, fd2, fd3, data, t, inode);
    if p == -1 {
      return;
    }
    var d', d'';
    d', d'', shared, own := UseRest(k, faults, pid, fd1, fd2, fd3, data, t, inode);
    r := Findings(d, d', d'');
  }

  /** The write through the first descriptor. */
  method UseWrite(k: Kernel, faults: Faults, pid: nat, fd1: nat, fd2: nat, fd3: nat, data: seq<byte>,
                  ghost t: Table, ghost inode: nat) returns (n: int, ghost content: seq<byte>)
    requires k.Valid() && Unused(t, pid, Trio(fd1, fd2, fd3))
    requires k.View() == WithTrio(t, pid, inode, Trio(fd1, fd2, fd3), [], 0, 0)
    modifies k`open, k`files, faults
    ensures n == Moved(Reply(old(faults.script), 0), |data|) && faults.script == Later(old(faults.script), 1)
    ensures content == (if n < 0 then [] else data[..n]) && (n == |data| ==> content == data)
    ensures k.Valid() && k.View() == WithTrio(t, pid, inode, Trio(fd1, fd2, fd3), content, |content|, 0)
  {
    ghost var f := Trio(fd1, fd2, fd3);
    TrioOpen(t, pid, inode, f, [], 0, 0);
    n := TryWrite(k, faults, pid, fd1, data);
    content := [];
    if n >= 0 {
      TrioWrites(t, pid, inode, f, data[..n]);
      content := data[..n];
    }
  }

  method Use(k: Kernel, faults: Faults, pid: nat, fd1: nat, fd2: nat, fd3: nat, data: seq<byte>,
             ghost t: Table, ghost inode: nat)
    returns (r: Findings, ghost content: seq<byte>, ghost shared: nat, ghost own: nat)
    requires k.Valid() && Unused(t, pid, Trio(fd1, fd2, fd3))
    requires k.View() == WithTrio(t, pid, inode, Trio(fd1, fd2, fd3), [], 0, 0)
    modifies k`open, k`files, faults
    ensures k.Valid() && k.View() == WithTrio(t, pid, inode, Trio(fd1, fd2, fd3), content, shared, own)
    ensures var n := Moved(Reply(old(faults.script), 0), |data|);
      && content == (if n < 0 then [] else data[..n])
      && r == if n == |data| then Expected(Later(old(faults.script), 1), data) else NOTHING
  {
    r, own := NOTHING, 0;
    var n;
    n, content := UseWrite(k, faults, pid, fd1, fd2, fd3, data, t, inode);
    shared := |content|;
    if n != |data| {
      return;
    }
    r, shared, own := UseReads(k, faults, pid, fd1, fd2, fd3, data, t, inode);
  }

  method CloseThree(k: Kernel, pid: nat, fd1: nat, fd2: nat, fd3: nat,
                    ghost t: Table, ghost inode: nat, ghost content: seq<byte>, ghost shared: nat, ghost own: nat)
    requires k.Valid() && t.Valid() && Unused(t, pid, Trio(fd1, fd2, fd3))
    requires k.View() == WithTrio(t, pid, inode, Trio(fd1, fd2, fd3), content, shared, own)
    modifies k
    ensures k.Valid() && k.View() == t.(files := t.files[inode := content], nextId := t.nextId + 2)
  {
    TrioClosed(t, pid, inode, Trio(fd1, fd2, fd3), content, shared, own);
    var _ := k.Close(pid, fd3);
    var _ := k.Close(pid, fd2);
    var _ := k.Close(pid, fd1);
  }

  /** From the third descriptor on. */
  method RunTrio(k: Kernel, faults: Faults, pid: nat, inode: nat, fd1: nat, fd2: nat, fd3: nat, data: seq<byte>,
                 ghost t: Table)
    returns (r: Findings, ghost content: seq<byte>)
    requires k.Valid() && t.Valid() && Unused(t, pid, Trio(fd1, fd2, fd3))
    requires k.View() == WithTrio(t, pid, inode, Trio(fd1, fd2, fd3), [], 0, 0)
    modifies k, faults
    ensures k.Valid() && k.View() == t.(files := t.files[inode := content], nextId := t.nextId + 2)
    ensures var n := Moved(Reply(old(faults.script), 0), |data|);
      && content == (if n < 0 then [] else data[..n])
      && r == if n == |data| then Expected(Later(old(faults.script), 1), data) else NOTHING
  {
    ghost var shared, own;
    r, content, shared, own := Use(k, faults, pid, fd1, fd2, fd3, data, t, inode);
    CloseThree(k, pid, fd1, fd2, fd3, t, inode, content, shared, own);
  }

  /** From the dup on. */
  method RunDuped(k: Kernel, faults: Faults, pid: nat, inode: nat, fd1: nat, fd2: nat, data: seq<byte>,
                  ghost t: Table)
    returns (code: int, r: Findings, ghost content: seq<byte>)
    requires k.Valid() && t.Valid() && pid in t.procs && inode in t.files && fd1 == t.LowestFree(pid)
    requires (k.View(), fd2 as int) == t.Open(pid, inode, true).0.Dup(pid, fd1)
    modifies k, faults
    ensures k.Valid() && k.slots == t.slots && k.open == t.open && k.files == t.files[inode := content]
    ensures code == if Reply(old(faults.script), 0).Failed? then 1 else 0
    ensures code == 1 ==> r == NOTHING && content == []
    ensures code == 0 ==> var n := Moved(Reply(old(faults.script), 1), |data|);
      && content == (if n < 0 then [] else data[..n])
      && r == if n == |data| then Expected(Later(old(faults.script), 2), data) else NOTHING
  {
    LaterReplies(faults.script, 1);
    r, content := NOTHING, [];
    FewerClosed(t, pid, inode);
    var fault := faults.Next();
    if fault.Failed? {
      var _ := k.Close(pid, fd1);
      var _ := k.Close(pid, fd2);
      return 1, r, content;
    }
    var fd3 := k.Open(pid, inode, false);
    TrioOpened(t, pid, inode, Trio(fd1, fd2, fd3));
    r, content := RunTrio(k, faults, pid, inode, fd1, fd2, fd3, data, t);
    code := 0;
  }

  /** From the first open on. */
  method RunOpened(k: Kernel, faults: Faults, pid: nat, inode: nat, fd1: nat, data: seq<byte>, ghost t: Table)
    returns (code: int, r: Findings, ghost content: seq<byte>)
    requires k.Valid() && t.Valid() && pid in t.procs && inode in t.files
    requires (k.View(), fd1 as int) == t.Open(pid, inode, true)
    modifies k, faults
    ensures k.Valid() && k.slots == t.slots && k.open == t.open && k.files == t.files[inode := content]
    ensures code == if Reply(old(faults.script), 0).Failed? || Reply(old(faults.script), 1).Failed? then 1 else 0
    ensures code == 1 ==> r == NOTHING && content == []
    ensures code == 0 ==> var n := Moved(Reply(old(faults.script), 2), |data|);
      && content == (if n < 0 then [] else data[..n])
      && r == if n == |data| then Expected(Later(old(faults.script), 3), data) else NOTHING
  {
    LaterReplies(faults.script, 1);
    r, content := NOTHING, [];
    var fault := faults.Next();
    if fault.Failed? {
      FewerClosed(t, pid, inode);
      var _ := k.Close(pid, fd1);
      return 1, r, content;
    }
    var fd2 := k.Dup(pid, fd1);
    code, r, content := RunDuped(k, faults, pid, inode, fd1, fd2, data, t);
  }

  /** The demo, with any bytes for its five. However its calls go, the slots, descriptions
      and counts are as before at the end, and the file holds a first part of the data, or
      was not opened. What it reports is always the same: nothing to read at the shared
      end, all of the data after rewinding through the dup, and all of it through the
      second open; and it goes on with that up to the first call that fails or falls short
      where the program does not put up with it. */
  method Run(k: Kernel, faults: Faults, pid: nat, inode: nat, data: seq<byte>)
    returns (code: int, r: Findings, ghost content: seq<byte>)
    requires k.Valid() && pid in k.procs
    modifies k, faults
    ensures k.Valid() && k.slots == old(k.slots) && k.open == old(k.open) && k.refs == old(k.refs)
    ensures AsPromised(r, data, content)
    ensures k.files == old(k.files) || (inode in old(k.files) && k.files == old(k.files)[inode := content])
    ensures var script := old(faults.script);
      && (code == 0 <==> inode in old(k.files) && forall i :: 0 <= i < 3 ==> !Reply(script, i).Failed?)
      && (code != 0 ==> code == 1 && r == NOTHING && content == [])
    ensures code == 0 ==> inode in old(k.files) && k.files == old(k.files)[inode := content]
    ensures code == 0 ==> var n := Moved(Reply(old(faults.script), 3), |data|);
      && content == (if n < 0 then [] else data[..n])
      && r == if n == |data| then Expected(Later(old(faults.script), 4), data) else NOTHING
  {
    ghost var t, counts, script := k.View(), k.refs, faults.script;
    LaterReplies(script, 1);
    LaterReplies(script, 3);
    r, content := NOTHING, [];
    var fault := faults.Next();
    if fault.Failed? {
      return 1, r, content;
    }
    var fd1 := k.Open(pid, inode, true);
    if fd1 == -1 {
      return 1, r, content;
    }
    code, r, content := RunOpened(k, faults, pid, inode, fd1, data, t);
    SameSlotsSameCounts(k.slots, counts, k.refs);
    ghost var n := Moved(Reply(script, 3), |data|);
    ExpectedAsPromised(Later(script, 4), data, n);
  }
}
