/** Copy-on-write fork against full copying.

    The kernel's way: fork copies only the page table, counts one reference more per
    shared frame and marks every page read-only; the first write to a read-only page
    faults, and the fault copies that one page. The reference: every process has its
    own copy of every page from the start. */
module CopyOnWrite {
  import opened Bytes
  import opened Slots

  /** A process and a page number in it. */
  type Page = Slot

  function Zeros(size: nat): seq<byte> {
    seq(size, _ => 0)
  }

  /** Fully copied address spaces: what a process reads is what it wrote, or what its
      parent had at the fork. */
  datatype Eager = Eager(procs: set<nat>, pages: map<Page, seq<byte>>) {
    predicate CanWrite(pid: nat, page: nat, offset: nat) {
      (pid, page) in pages && offset < |pages[(pid, page)]|
    }

    function Map(pid: nat, page: nat, size: nat): Eager {
      this.(pages := pages[(pid, page) := Zeros(size)])
    }

    function Write(pid: nat, page: nat, offset: nat, b: byte): Eager {
      if CanWrite(pid, page, offset)
      then this.(pages := pages[(pid, page) := pages[(pid, page)][offset := b]])
      else this
    }

    function Read(pid: nat, page: nat, offset: nat): int {
      if CanWrite(pid, page, offset) then pages[(pid, page)][offset] as int else -1
    }

    function Fork(parent: nat, child: nat): Eager {
      Eager(procs + {child}, Forked(pages, parent, child))
    }

    function Exit(pid: nat): Eager {
      Eager(procs - {pid}, Closing(pages, pid, {}))
    }
  }

  datatype Op =
    | MapOp(pid: nat, page: nat)
    | ReadOp(pid: nat, page: nat, offset: nat)
    | WriteOp(pid: nat, page: nat, offset: nat, b: byte)
    | ForkOp(pid: nat, child: nat)
    | ExitOp(pid: nat)

  /** Calls the kernel refuses change nothing: mapping a page twice, calls by a process
      that does not exist, a process number already taken. */
  function Do(e: Eager, op: Op, size: nat): Eager {
    match op
    case MapOp(pid, page) => if pid in e.procs && (pid, page) !in e.pages then e.Map(pid, page, size) else e
    case ReadOp(_, _, _) => e
    case WriteOp(pid, page, offset, b) => e.Write(pid, page, offset, b)
    case ForkOp(pid, child) => if pid in e.procs && child !in e.procs then e.Fork(pid, child) else e
    case ExitOp(pid) => if pid in e.procs then e.Exit(pid) else e
  }

  function DoAll(e: Eager, ops: seq<Op>, size: nat): Eager {
    if ops == [] then e else Do(DoAll(e, ops[..|ops| - 1], size), ops[|ops| - 1], size)
  }

  /** What the reads among `ops` return, in order. */
  function ReadsOf(e: Eager, ops: seq<Op>, size: nat): seq<int> {
    if ops == [] then []
    else
      var op := ops[|ops| - 1];
      ReadsOf(e, ops[..|ops| - 1], size) +
      (if op.ReadOp? then [DoAll(e, ops[..|ops| - 1], size).Read(op.pid, op.page, op.offset)] else [])
  }

  lemma OneMore(e: Eager, ops: seq<Op>, i: nat, size: nat)
    requires i < |ops|
    ensures DoAll(e, ops[..i + 1], size) == Do(DoAll(e, ops[..i], size), ops[i], size)
    ensures ReadsOf(e, ops[..i + 1], size) == ReadsOf(e, ops[..i], size) +
      if ops[i].ReadOp? then [DoAll(e, ops[..i], size).Read(ops[i].pid, ops[i].page, ops[i].offset)] else []
  {
    assert ops[..i + 1][..i] == ops[..i];
  }

  /** Every page belongs to a process there is. */
  predicate WellKept(e: Eager) {
    forall k :: k in e.pages ==> k.0 in e.procs
  }

  /** What a read answers: the byte at that place of that page, or -1. */
  lemma {:induction false} ReadMeans(e: Eager, pid: nat, page: nat, offset: nat)
    ensures (pid, page) in e.pages && offset < |e.pages[(pid, page)]| ==>
      e.Read(pid, page, offset) == e.pages[(pid, page)][offset] as int
    ensures !((pid, page) in e.pages && offset < |e.pages[(pid, page)]|) ==> e.Read(pid, page, offset) == -1
  {
  }

  /** What a process reads at one place after any call, by what could be read before: what
      was written there last; zeros in a new page; what the parent had at the fork; nothing
      once the process has exited; and the same as before in all other cases. */
  lemma {:induction false} ReadAfterCall(e: Eager, op: Op, size: nat, pid: nat, page: nat, offset: nat)
    requires WellKept(e)
    ensures WellKept(Do(e, op, size))
    ensures var before, after := e.Read(pid, page, offset), Do(e, op, size).Read(pid, page, offset);
      match op
      case MapOp(p, n) =>
        after == if p in e.procs && (p, n) !in e.pages && pid == p && page == n then (if offset < size then 0 else -1)
                 else before
      case ReadOp(_, _, _) => after == before
      case WriteOp(p, n, o, b) =>
        after == if pid == p && page == n && offset == o && before != -1 then b as int else before
      case ForkOp(p, child) =>
        after == if p in e.procs && child !in e.procs && pid == child then e.Read(p, page, offset) else before
      case ExitOp(p) => after == if p in e.procs && pid == p then -1 else before
    ensures var procs := Do(e, op, size).procs;
      match op
      case ForkOp(p, child) => procs == e.procs + if p in e.procs then {child} else {}
      case ExitOp(p) => procs == e.procs - {p}
      case _ => procs == e.procs
  {
    match op
    case ForkOp(p, child) =>
      NumbersOfOpen(e.pages, p);
    case ExitOp(p) =>
      if p !in e.procs {
        assert (p, page) !in e.pages;
      }
    case MapOp(p, n) =>
    case ReadOp(_, _, _) =>
    case WriteOp(p, n, o, b) =>
  }

  predicate Backed(frame: map<Page, nat>, data: map<nat, seq<byte>>) {
    forall k :: k in frame ==> frame[k] in data
  }

  /** The pages behind a page table. */
  function Contents(frame: map<Page, nat>, data: map<nat, seq<byte>>): map<Page, seq<byte>>
    requires Backed(frame, data)
  {
    map k | k in frame :: data[frame[k]]
  }

  lemma ContentsFresh(frame: map<Page, nat>, data: map<nat, seq<byte>>, k: Page, f: nat, content: seq<byte>)
    requires Backed(frame, data) && f !in data
    ensures Backed(frame[k := f], data[f := content])
    ensures Contents(frame[k := f], data[f := content]) == Contents(frame, data)[k := content]
  {
  }

  /** Page tables over counted frames: `frame` says where a page is, `writable` which
      entries allow writes, `refs` how many mappings a frame has. */
  datatype Lazy = Lazy(
    size: nat,
    procs: set<nat>,
    frame: map<Page, nat>,
    writable: set<Page>,
    data: map<nat, seq<byte>>,
    refs: map<nat, nat>,
    nextFrame: nat)
  {
    /** A frame's count is the number of mappings to it, frames without mappings are
        gone, and a writable page has its frame to itself. */
    ghost predicate Valid() {
      && Conserved(frame, refs) && data.Keys == refs.Keys
      && Backed(frame, data) && (forall k :: k in frame ==> k.0 in procs)
      && (forall f :: f in data ==> f < nextFrame && |data[f]| == size)
      && (forall k :: k in writable ==> k in frame && refs[frame[k]] == 1)
    }

    /** What the processes see. */
    ghost function Seen(): map<Page, seq<byte>>
      requires Valid()
    {
      Contents(frame, data)
    }

    ghost function View(): Eager
      requires Valid()
    {
      Eager(procs, Seen())
    }

    /** A new frame of its own for an unmapped page. */
    function Fresh(k: Page, content: seq<byte>): Lazy {
      this.(frame := frame[k := nextFrame], writable := writable + {k}, data := data[nextFrame := content],
            refs := refs[nextFrame := 1], nextFrame := nextFrame + 1)
    }

    /** One mapping less. */
    function Unmap(k: Page): Lazy
      requires k in frame && frame[k] in refs && refs[frame[k]] >= 1
    {
      var f := frame[k];
      this.(frame := frame - {k}, writable := writable - {k}, refs := Fewer(refs, f),
            data := if refs[f] == 1 then data - {f} else data)
    }

    /** `k'` maps the frame of `k` too; `k` is read-only from now on. */
    function Share(k: Page, k': Page): Lazy
      requires k in frame && frame[k] in refs
    {
      this.(frame := frame[k' := frame[k]], writable := writable - {k}, refs := refs[frame[k] := refs[frame[k]] + 1])
    }

    function StoreByte(k: Page, offset: nat, b: byte): Lazy
      requires k in frame && frame[k] in data && offset < |data[frame[k]]|
    {
      this.(data := data[frame[k] := data[frame[k]][offset := b]])
    }
  }

  /** Two pages on one frame make its count at least two. */
  lemma SharedMeansCounted(frame: map<Page, nat>, k: Page, k': Page)
    requires k in frame && k' in frame && k != k' && frame[k] == frame[k']
    ensures Refs(frame, frame[k]) >= 2
  {
    assert Pointing(frame, frame[k]) == {k, k'} + (Pointing(frame, frame[k]) - {k, k'});
  }

  /** A frame with more than one mapping is never writable. */
  lemma {:induction false} WritableMeansAlone(p: Lazy, k: Page, k': Page)
    requires p.Valid() && k in p.writable && k' in p.frame && k' != k
    ensures p.frame[k'] != p.frame[k]
  {
    if p.frame[k'] == p.frame[k] {
      SharedMeansCounted(p.frame, k, k');
    }
  }

  lemma FreshValid(p: Lazy, k: Page, content: seq<byte>)
    requires p.Valid() && k !in p.frame && k.0 in p.procs && |content| == p.size
    ensures p.Fresh(k, content).Valid()
  {
    AcquiredConserved(p.frame, p.refs, k, p.nextFrame);
    assert p.nextFrame !in p.data;
  }

  lemma FreshRefines(p: Lazy, k: Page, content: seq<byte>)
    requires p.Valid() && k !in p.frame && k.0 in p.procs && |content| == p.size
    ensures p.Fresh(k, content).Valid() && p.Fresh(k, content).Seen() == p.Seen()[k := content]
  {
    FreshValid(p, k, content);
    assert p.nextFrame !in p.data;
    ContentsFresh(p.frame, p.data, k, p.nextFrame, content);
  }

  lemma UnmapBacked(p: Lazy, k: Page)
    requires p.Valid() && k in p.frame && p.frame[k] in p.refs && p.refs[p.frame[k]] >= 1
    ensures var p' := p.Unmap(k);
      && Conserved(p'.frame, p'.refs) && p'.data.Keys == p'.refs.Keys
      && Backed(p'.frame, p'.data) && Contents(p'.frame, p'.data) == p.Seen() - {k}
  {
    var p' := p.Unmap(k);
    ReleasedConserved(p.frame, p.refs, k);
    forall k' | k' in p'.frame
      ensures p'.frame[k'] in p'.data
    {
      assert p'.frame[k'] in p'.frame.Values;
    }
  }

  lemma UnmapAlone(p: Lazy, k: Page, w: Page)
    requires p.Valid() && k in p.frame && p.frame[k] in p.refs && p.refs[p.frame[k]] >= 1
    requires w in p.Unmap(k).writable
    ensures var p' := p.Unmap(k); w in p'.frame && p'.frame[w] in p'.refs && p'.refs[p'.frame[w]] == 1
  {
    WritableMeansAlone(p, w, k);
    assert p.frame[w] in p.frame.Values;
  }

  lemma UnmapRefines(p: Lazy, k: Page)
    requires p.Valid() && k in p.frame
    ensures p.frame[k] in p.refs && p.refs[p.frame[k]] >= 1
    ensures p.Unmap(k).Valid() && p.Unmap(k).Seen() == p.Seen() - {k}
  {
    CountsPositive(p.frame, p.refs, k);
    UnmapBacked(p, k);
    forall w | w in p.Unmap(k).writable
      ensures var p' := p.Unmap(k); w in p'.frame && p'.frame[w] in p'.refs && p'.refs[p'.frame[w]] == 1
    {
      UnmapAlone(p, k, w);
    }
  }

  predicate Without(p: Lazy, k: Page, p': Lazy) {
    p'.frame == p.frame - {k} && p'.procs == p.procs && p'.size == p.size
  }

  lemma UnmappedPlace(p: Lazy, k: Page, p': Lazy)
    requires p.Valid() && k in p.frame && Without(p, k, p')
    ensures k !in p'.frame && k.0 in p'.procs && |p.data[p.frame[k]]| == p'.size
    ensures p.Seen()[k] == p.data[p.frame[k]] && p'.procs == p.procs
  {
  }

  lemma PutSame(m: map<Page, seq<byte>>, k: Page)
    requires k in m
    ensures (m - {k})[k := m[k]] == m
  {
  }

  /** The page fault as a whole: unmap, then map a copy. */
  lemma {:induction false} CopyRefines(p: Lazy, k: Page)
    requires p.Valid() && k in p.frame
    ensures p.frame[k] in p.refs && p.refs[p.frame[k]] >= 1
    ensures var p' := p.Unmap(k).Fresh(k, p.data[p.frame[k]]); p'.Valid() && p'.View() == p.View()
  {
    UnmapRefines(p, k);
    var content := p.data[p.frame[k]];
    UnmappedPlace(p, k, p.Unmap(k));
    FreshRefines(p.Unmap(k), k, content);
    PutSame(p.Seen(), k);
  }

  /** It fills one new frame and repoints one page; every frame that stays is unchanged. */
  lemma CopyTouchesOne(p: Lazy, k: Page)
    requires p.Valid() && k in p.frame && p.frame[k] in p.refs && p.refs[p.frame[k]] >= 1
    ensures var p' := p.Unmap(k).Fresh(k, p.data[p.frame[k]]);
      && p'.frame == p.frame[k := p.nextFrame] && p'.nextFrame == p.nextFrame + 1 && k in p'.writable
      && p'.data.Keys <= p.data.Keys + {p.nextFrame}
      && (forall f :: f in p.data && f in p'.data ==> p'.data[f] == p.data[f])
  {
    assert p.nextFrame !in p.data;
  }

  lemma ShareValid(p: Lazy, k: Page, k': Page)
    requires p.Valid() && k in p.frame && k' !in p.frame && k'.0 in p.procs
    ensures p.Share(k, k').Valid()
  {
    CountsPositive(p.frame, p.refs, k);
    AcquiredConserved(p.frame, p.refs, k', p.frame[k]);
    forall w | w in p.writable - {k}
      ensures p.frame[w] != p.frame[k]
    {
      WritableMeansAlone(p, w, k);
    }
  }

  lemma ShareRefines(p: Lazy, k: Page, k': Page)
    requires p.Valid() && k in p.frame && k' !in p.frame && k'.0 in p.procs
    ensures p.Share(k, k').Valid() && p.Share(k, k').Seen() == p.Seen()[k' := p.Seen()[k]]
  {
    ShareValid(p, k, k');
  }

  lemma StoreByteRefines(p: Lazy, k: Page, offset: nat, b: byte)
    requires p.Valid() && k in p.writable && offset < p.size
    ensures p.StoreByte(k, offset, b).Valid()
    ensures p.StoreByte(k, offset, b).Seen() == p.Seen()[k := p.Seen()[k][offset := b]]
  {
    forall k' | k' in p.frame && k' != k
      ensures p.frame[k'] != p.frame[k]
    {
      WritableMeansAlone(p, k, k');
    }
  }

  /** `page'` is `page`, but for `b` at `offset` when the write is `here`. */
  predicate ByteStored(page: seq<byte>, page': seq<byte>, here: bool, offset: nat, b: byte) {
    && |page'| == |page|
    && (forall i :: 0 <= i < |page| ==> page'[i] == if here && i == offset then b else page[i])
  }

  /** The frames after a write, byte by byte: when the byte is on a page of the process the
      page now holds it, and every other byte of every page is as before. */
  ghost predicate Wrote(p: Lazy, p': Lazy, k: Page, offset: nat, b: byte) {
    && p'.frame.Keys == p.frame.Keys
    && (forall k' :: k' in p.frame ==>
          && p.frame[k'] in p.data && p'.frame[k'] in p'.data
          && ByteStored(p.data[p.frame[k']], p'.data[p'.frame[k']], k' == k, offset, b))
  }

  lemma WroteOne(p: Lazy, p': Lazy, k: Page, offset: nat, b: byte)
    requires Backed(p.frame, p.data) && Backed(p'.frame, p'.data)
    requires k in p.frame && offset < |p.data[p.frame[k]]|
    requires var seen := Contents(p.frame, p.data);
      Contents(p'.frame, p'.data) == seen[k := seen[k][offset := b]]
    ensures Wrote(p, p', k, offset, b)
  {
    var seen, seen' := Contents(p.frame, p.data), Contents(p'.frame, p'.data);
    assert p'.frame.Keys == seen'.Keys && p.frame.Keys == seen.Keys;
    forall k' | k' in p.frame
      ensures ByteStored(seen[k'], seen'[k'], k' == k, offset, b)
    {
    }
  }

  lemma NoneLeft(pages: map<Page, seq<byte>>, pid: nat)
    ensures forall k :: k in Closing(pages, pid, {}) ==> k.0 != pid
  {
  }

  /** The writable pages once the pages `numbers` of a process are read-only. */
  function ReadOnly(writable: set<Page>, pid: nat, numbers: set<nat>): set<Page> {
    set k | k in writable && !(k.0 == pid && k.1 in numbers)
  }

  lemma ReadOnlyOne(writable: set<Page>, pid: nat, all: set<nat>, todo: set<nat>, n: nat)
    requires n in todo && todo <= all
    ensures ReadOnly(writable, pid, all - todo) - {(pid, n)} == ReadOnly(writable, pid, all - (todo - {n}))
  {
  }

  /** In the middle of a fork that began at `start`: the child has yet to map the parent's
      pages `todo`. */
  ghost predicate Forking(start: Lazy, now: Lazy, parent: nat, child: nat, todo: set<nat>) {
    && start.Valid() && now.Valid() && now.procs == start.procs && now.size == start.size
    && todo <= NumbersOf(start.frame, parent) && (forall k :: k in start.frame ==> k.0 != child)
    && now.Seen() == Inheriting(start.Seen(), parent, child, todo)
    && now.frame == Inheriting(start.frame, parent, child, todo)
    && now.writable == ReadOnly(start.writable, parent, NumbersOf(start.frame, parent) - todo)
  }

  lemma ForkingStarts(start: Lazy, parent: nat, child: nat)
    requires start.Valid() && forall k :: k in start.frame ==> k.0 != child
    ensures Forking(start, start, parent, child, NumbersOf(start.frame, parent))
  {
    var all := NumbersOf(start.frame, parent);
    assert all == NumbersOf(start.Seen(), parent);
    InheritEnds(start.frame, parent, child);
    InheritEnds(start.Seen(), parent, child);
    assert all - all == {};
  }

  lemma ForkingPage(start: Lazy, now: Lazy, parent: nat, child: nat, todo: set<nat>, n: nat)
    requires Forking(start, now, parent, child, todo) && n in todo && child in now.procs
    ensures (parent, n) in now.frame && now.frame[(parent, n)] in now.refs
    ensures Forking(start, now.Share((parent, n), (child, n)), parent, child, todo - {n})
  {
    assert NumbersOf(start.Seen(), parent) == NumbersOf(start.frame, parent);
    InheritOne(start.frame, parent, child, todo, n);
    InheritOne(start.Seen(), parent, child, todo, n);
    CountsPositive(now.frame, now.refs, (parent, n));
    ShareRefines(now, (parent, n), (child, n));
    ReadOnlyOne(start.writable, parent, NumbersOf(start.frame, parent), todo, n);
  }

  lemma NewProcess(p: Lazy, child: nat)
    requires p.Valid() && child !in p.procs
    ensures p.(procs := p.procs + {child}).Valid() && p.(procs := p.procs + {child}).Seen() == p.Seen()
    ensures forall k :: k in p.frame ==> k.0 != child
  {
  }

  lemma ForkingEnds(was: Lazy, now: Lazy, parent: nat, child: nat)
    requires was.Valid() && child !in was.procs && Forking(was.(procs := was.procs + {child}), now, parent, child, {})
    ensures now.View() == was.View().Fork(parent, child)
    ensures now.frame == Inherited(was.frame, parent, child, NumbersOf(was.frame, parent))
    ensures now.writable == ReadOnly(was.writable, parent, NumbersOf(was.frame, parent))
  {
    NewProcess(was, child);
    InheritEnds(was.frame, parent, child);
    InheritEnds(was.Seen(), parent, child);
    assert NumbersOf(was.frame, parent) - {} == NumbersOf(was.frame, parent);
  }

  /** Fully copied, a process keeps seeing its own pages whatever the others do. */
  lemma {:induction false} OthersDoNotInterfere(e: Eager, ops: seq<Op>, size: nat, pid: nat, page: nat, offset: nat)
    requires pid in e.procs && forall i :: 0 <= i < |ops| ==> ops[i].pid != pid
    ensures pid in DoAll(e, ops, size).procs
    ensures DoAll(e, ops, size).Read(pid, page, offset) == e.Read(pid, page, offset)
  {
    if ops != [] {
      var before := ops[..|ops| - 1];
      OthersDoNotInterfere(e, before, size, pid, page, offset);
      assert ops[|ops| - 1].pid != pid;
    }
  }

  class Memory {
    const size: nat
    var procs: set<nat>
    var frame: map<Page, nat>
    var writable: set<Page>
    var data: map<nat, seq<byte>>
    var refs: map<nat, nat>
    var nextFrame: nat

    ghost function State(): Lazy
      reads this
    {
      Lazy(size, procs, frame, writable, data, refs, nextFrame)
    }

    ghost predicate Valid()
      reads this
    {
      State().Valid()
    }

    ghost function View(): Eager
      reads this
      requires Valid()
    {
      State().View()
    }

    constructor (size: nat, init: nat)
      ensures Valid() && View() == Eager({init}, map[]) && this.size == size
    {
      this.size := size;
      procs := {init};
      frame, writable, data, refs, nextFrame := map[], {}, map[], map[], 0;
    }

    /** One mapping of a frame goes away, and the frame with the last of them. */
    method Release(k: Page)
      requires k in frame && frame[k] in refs && refs[frame[k]] >= 1
      modifies this`frame, this`writable, this`refs, this`data
      ensures State() == old(State()).Unmap(k)
    {
      var f := frame[k];
      frame, writable := frame - {k}, writable - {k};
      if refs[f] == 1 {
        refs, data := refs - {f}, data - {f};
      } else {
        refs := refs[f := refs[f] - 1];
      }
    }

    method Place(k: Page, content: seq<byte>)
      modifies this
      ensures State() == old(State()).Fresh(k, content)
    {
      data := data[nextFrame := content];
      refs := refs[nextFrame := 1];
      frame := frame[k := nextFrame];
      writable := writable + {k};
      nextFrame := nextFrame + 1;
    }

    /** A private page of zeros. */
    method Map(pid: nat, page: nat)
      requires Valid() && pid in procs && (pid, page) !in frame
      modifies this
      ensures Valid() && View() == old(View()).Map(pid, page, size)
    {
      var k := (pid, page);
      FreshRefines(State(), k, Zeros(size));
      Place(k, Zeros(size));
    }

    method Read(pid: nat, page: nat, offset: nat) returns (b: int)
      requires Valid()
      ensures b == View().Read(pid, page, offset)
      ensures (pid, page) in frame && offset < size ==>
        && frame[(pid, page)] in data && offset < |data[frame[(pid, page)]]|
        && b == data[frame[(pid, page)]][offset] as int
      ensures !((pid, page) in frame && offset < size) ==> b == -1
    {
      if (pid, page) !in frame || offset >= size {
        return -1;
      }
      b := data[frame[(pid, page)]][offset] as int;
    }

    /** The page fault: the process gets a copy of this one page, in one new frame. */
    method CopyPage(k: Page)
      requires Valid() && k in frame
      modifies this
      ensures Valid() && k in writable && View() == old(View())
      ensures frame == old(frame)[k := old(nextFrame)] && nextFrame == old(nextFrame) + 1
      ensures data.Keys <= old(data.Keys) + {old(nextFrame)}
      ensures forall f :: f in old(data) && f in data ==> data[f] == old(data)[f]
    {
      CopyRefines(State(), k);
      CopyTouchesOne(State(), k);
      var content := data[frame[k]];
      Release(k);
      Place(k, content);
    }

    method Write(pid: nat, page: nat, offset: nat, b: byte)
      requires Valid()
      modifies this
      ensures Valid() && View() == old(View()).Write(pid, page, offset, b)
      ensures (pid, page) in old(frame) && offset < size && (pid, page) !in old(writable) ==>
        nextFrame == old(nextFrame) + 1
      ensures !((pid, page) in old(frame) && offset < size && (pid, page) !in old(writable)) ==>
        nextFrame == old(nextFrame) && frame == old(frame)
      ensures Wrote(old(State()), State(), (pid, page), offset, b)
    {
      ghost var was := State();
      var k := (pid, page);
      if k !in frame || offset >= size {
        return;
      }
      if k !in writable {
        CopyPage(k);
      }
      assert k in State().Seen();
      StoreByteRefines(State(), k, offset, b);
      ghost var p := State().StoreByte(k, offset, b);
      data := data[frame[k] := data[frame[k]][offset := b]];
      assert State() == p;
      WroteOne(was, p, k, offset, b);
    }

    method SharePage(k: Page, k': Page)
      requires k in frame && frame[k] in refs
      modifies this`frame, this`writable, this`refs
      ensures State() == old(State()).Share(k, k')
    {
      refs := refs[frame[k] := refs[frame[k]] + 1];
      frame := frame[k' := frame[k]];
      writable := writable - {k};
    }

    /** The child maps page `n` of the parent, which becomes read-only. */
    method InheritPage(parent: nat, child: nat, n: nat, ghost start: Lazy, ghost todo: set<nat>)
      requires Valid() && child in procs && n in todo && Forking(start, State(), parent, child, todo)
      modifies this`frame, this`writable, this`refs
      ensures Valid() && Forking(start, State(), parent, child, todo - {n})
    {
      ForkingPage(start, State(), parent, child, todo, n);
      SharePage((parent, n), (child, n));
    }

    method InheritAll(parent: nat, child: nat)
      requires Valid() && child in procs && (forall k :: k in frame ==> k.0 != child)
      modifies this`frame, this`writable, this`refs
      ensures Valid() && Forking(old(State()), State(), parent, child, {})
    {
      ghost var start := State();
      var todo := NumbersOf(frame, parent);
      ForkingStarts(start, parent, child);
      while todo != {}
        invariant Valid() && Forking(start, State(), parent, child, todo)
        decreases todo
      {
        var n :| n in todo;
        InheritPage(parent, child, n, start, todo);
        todo := todo - {n};
      }
    }

    /** fork(2): only the page table is copied. No frame is copied or allocated, the child
        maps the parent's frames, and every page of the parent is read-only now. */
    method Fork(parent: nat, child: nat)
      requires Valid() && parent in procs && child !in procs
      modifies this
      ensures Valid() && View() == old(View()).Fork(parent, child)
      ensures data == old(data) && nextFrame == old(nextFrame)
      ensures frame == Inherited(old(frame), parent, child, NumbersOf(old(frame), parent))
      ensures writable == ReadOnly(old(writable), parent, NumbersOf(old(frame), parent))
    {
      NewProcess(State(), child);
      procs := procs + {child};
      InheritAll(parent, child);
      ForkingEnds(old(State()), State(), parent, child);
    }

    /** The process unmaps page `n`; `todo` is what it had left of the pages `was`. */
    method ReleasePage(pid: nat, n: nat, ghost was: map<Page, seq<byte>>, ghost todo: set<nat>)
      requires Valid() && n in todo && todo <= NumbersOf(was, pid)
      requires State().Seen() == Closing(was, pid, todo)
      modifies this`frame, this`writable, this`refs, this`data
      ensures Valid() && State().Seen() == Closing(was, pid, todo - {n})
    {
      CloseOne(was, pid, todo, n);
      assert (pid, n) in State().Seen();
      UnmapRefines(State(), (pid, n));
      Release((pid, n));
    }

    method ReleaseAll(pid: nat)
      requires Valid()
      modifies this`frame, this`writable, this`refs, this`data
      ensures Valid() && State().Seen() == Closing(old(State().Seen()), pid, {})
    {
      ghost var was := State().Seen();
      var todo := NumbersOf(frame, pid);
      assert todo == NumbersOf(was, pid);
      assert was == Closing(was, pid, todo);
      while todo != {}
        invariant Valid() && todo <= NumbersOf(was, pid)
        invariant State().Seen() == Closing(was, pid, todo)
        decreases todo
      {
        var n :| n in todo;
        ReleasePage(pid, n, was, todo);
        todo := todo - {n};
      }
    }

    /** _exit(2): every page is unmapped. */
    method Exit(pid: nat)
      requires Valid() && pid in procs
      modifies this
      ensures Valid() && View() == old(View()).Exit(pid)
    {
      ReleaseAll(pid);
      ghost var left := State().Seen();
      NoneLeft(old(State().Seen()), pid);
      assert forall k :: k in frame ==> k in left;
      procs := procs - {pid};
      assert State().Seen() == left;
    }

    /** Over any run of calls every read returns what full copying would return. */
    method RunAll(ops: seq<Op>) returns (got: seq<int>)
      requires Valid()
      modifies this
      ensures Valid() && View() == DoAll(old(View()), ops, size) && got == ReadsOf(old(View()), ops, size)
    {
      ghost var e := View();
      got := [];
      var i := 0;
      while i < |ops|
        invariant i <= |ops| && Valid()
        invariant View() == DoAll(e, ops[..i], size) && got == ReadsOf(e, ops[..i], size)
      {
        OneMore(e, ops, i, size);
        match ops[i] {
          case MapOp(pid, page) =>
            if pid in procs && (pid, page) !in frame {
              Map(pid, page);
            }
          case ReadOp(pid, page, offset) =>
            var b := Read(pid, page, offset);
            got := got + [b];
          case WriteOp(pid, page, offset, b) =>
            Write(pid, page, offset, b);
          case ForkOp(pid, child) =>
            if pid in procs && child !in procs {
              Fork(pid, child);
            }
          case ExitOp(pid) =>
            if pid in procs {
              Exit(pid);
            }
        }
        i := i + 1;
      }
      assert ops[..i] == ops;
    }

    /** Isolation: whatever other processes do, forks and writes to pages still shared with
        `pid` included, `pid` keeps seeing its own pages. */
    method RunOthers(pid: nat, ops: seq<Op>) returns (got: seq<int>)
      requires Valid() && pid in procs && forall i :: 0 <= i < |ops| ==> ops[i].pid != pid
      modifies this
      ensures Valid() && pid in procs
      ensures forall page: nat, offset: nat :: View().Read(pid, page, offset) == old(View()).Read(pid, page, offset)
    {
      ghost var e := View();
      got := RunAll(ops);
      forall page: nat, offset: nat
        ensures pid in procs && View().Read(pid, page, offset) == e.Read(pid, page, offset)
      {
        OthersDoNotInterfere(e, ops, size, pid, page, offset);
      }
      OthersDoNotInterfere(e, ops, size, pid, 0, 0);
    }
  }
}
