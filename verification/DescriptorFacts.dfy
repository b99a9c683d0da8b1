/** What each call on the descriptor tables means, said byte by byte and slot by slot,
    without the functions that define the calls. */
module DescriptorFacts {
  import opened Bytes
  import opened Options
  import opened Slots
  import opened Descriptors

  /** `t'` differs from `t` in the description `id` only, and there in the offset only. */
  predicate OnlyOffset(t: Table, t': Table, id: nat, offset: nat) {
    && id in t.open
    && t'.slots == t.slots && t'.procs == t.procs && t'.nextId == t.nextId
    && t'.open.Keys == t.open.Keys
    && (forall i :: i in t.open && i != id ==> t'.open[i] == t.open[i])
    && t'.open[id].inode == t.open[id].inode && t'.open[id].offset == offset
  }

  /** `d` is nothing at or past the end of the file, and elsewhere as many of the bytes
      from `offset` on as were asked for and are there. */
  predicate Delivered(file: seq<byte>, offset: nat, count: nat, d: seq<byte>) {
    && (count > 0 ==> (d == [] <==> offset >= |file|))
    && (offset >= |file| ==> d == [])
    && (offset < |file| ==> |d| == if count <= |file| - offset then count else |file| - offset)
    && (forall i :: 0 <= i < |d| ==> offset + i < |file| && d[i] == file[offset + i])
  }

  lemma WindowDelivers(file: seq<byte>, offset: nat, count: nat)
    ensures Delivered(file, offset, count, Window(file, offset, count))
  {
  }

  /** A read of a descriptor that is not open fails; any other delivers the bytes from the
      shared offset on and moves the offset behind them. */
  lemma {:induction false} ReadDelivers(t: Table, pid: nat, fd: nat, count: nat)
    requires t.Valid()
    ensures var (t', data) := t.Read(pid, fd, count);
      && t'.files == t.files
      && (data.Some? <==> (pid, fd) in t.slots)
      && (data.None? ==> t' == t)
    ensures (pid, fd) in t.slots ==>
      var (t', data) := t.Read(pid, fd, count);
      && t.slots[(pid, fd)] in t.open
      && var at := t.open[t.slots[(pid, fd)]];
      && at.inode in t.files && Delivered(t.files[at.inode], at.offset, count, data.value)
      && OnlyOffset(t, t', t.slots[(pid, fd)], at.offset + |data.value|)
  {
    if (pid, fd) in t.slots {
      assert t.slots[(pid, fd)] in t.slots.Values;
      var at := t.open[t.slots[(pid, fd)]];
      WindowDelivers(t.files[at.inode], at.offset, count);
    }
  }

  /** `file'` has `data` at `offset`; elsewhere it is as `file`, and between the old end
      and the offset there are zeros. */
  predicate Stored(file: seq<byte>, offset: nat, data: seq<byte>, file': seq<byte>) {
    && |file'| == (if data == [] || offset + |data| <= |file| then |file| else offset + |data|)
    && (forall i :: 0 <= i < |data| ==> file'[offset + i] == data[i])
    && (forall i :: 0 <= i < |file'| && !(offset <= i < offset + |data|) ==>
          file'[i] == if i < |file| then file[i] else 0)
  }

  lemma SpliceStores(file: seq<byte>, offset: nat, data: seq<byte>)
    ensures Stored(file, offset, data, Splice(file, offset, data))
  {
    if data != [] {
      var head := Padded(file, offset)[..offset];
      var r := Splice(file, offset, data);
      assert r == head + data + Drop(Padded(file, offset), offset + |data|);
      forall i | 0 <= i < |data|
        ensures r[offset + i] == data[i]
      {
        assert (head + data)[offset + i] == data[i];
      }
    }
  }

  /** A write stores all its bytes at the shared offset of its own file, and moves the
      offset behind them. */
  lemma {:induction false} WriteStores(t: Table, pid: nat, fd: nat, data: seq<byte>)
    requires t.Valid()
    ensures var (t', n) := t.Write(pid, fd, data);
      && n == (if (pid, fd) in t.slots then |data| else -1)
      && (n < 0 ==> t' == t)
      && t'.files.Keys == t.files.Keys
    ensures (pid, fd) in t.slots ==>
      var t' := t.Write(pid, fd, data).0;
      && t.slots[(pid, fd)] in t.open
      && var at := t.open[t.slots[(pid, fd)]];
      && at.inode in t.files && at.inode in t'.files
      && Stored(t.files[at.inode], at.offset, data, t'.files[at.inode])
      && (forall f :: f in t.files && f != at.inode ==> f in t'.files && t'.files[f] == t.files[f])
      && OnlyOffset(t, t', t.slots[(pid, fd)], at.offset + |data|)
  {
    if (pid, fd) in t.slots {
      assert t.slots[(pid, fd)] in t.slots.Values;
      var at := t.open[t.slots[(pid, fd)]];
      SpliceStores(t.files[at.inode], at.offset, data);
    }
  }

  lemma {:induction false} SeekMoves(t: Table, pid: nat, fd: nat, offset: nat)
    requires t.Valid()
    ensures var (t', r) := t.Seek(pid, fd, offset);
      && r == (if (pid, fd) in t.slots then offset else -1)
      && t'.files == t.files
      && (r >= 0 ==> OnlyOffset(t, t', t.slots[(pid, fd)], offset))
  {
    if (pid, fd) in t.slots {
      assert t.slots[(pid, fd)] in t.slots.Values;
    }
  }

  /** Every slot but `k` is as before. */
  ghost predicate OnlySlot(slots: map<Slot, nat>, slots': map<Slot, nat>, k: Slot) {
    forall s: Slot :: s != k ==> (s in slots' <==> s in slots) && (s in slots ==> slots'[s] == slots[s])
  }

  /** No description is kept that nobody points at, none is lost that somebody does, and
      those that stay are as before. */
  ghost predicate PointedAt(t: Table, t': Table) {
    && (forall id :: id in t'.open <==> exists s :: s in t'.slots && t'.slots[s] == id)
    && (forall id :: id in t'.open && id in t.open ==> t'.open[id] == t.open[id])
  }

  lemma {:induction false} OpenAdds(t: Table, pid: nat, inode: nat, truncate: bool)
    requires t.Valid() && pid in t.procs
    ensures var (t', fd) := t.Open(pid, inode, truncate);
      && (inode !in t.files ==> fd == -1 && t' == t)
      && (inode in t.files ==>
          && fd >= 0 && (pid, fd as nat) !in t.slots && (forall n: nat :: n < fd ==> (pid, n) in t.slots)
          && (pid, fd as nat) in t'.slots && OnlySlot(t.slots, t'.slots, (pid, fd as nat))
          && var id := t'.slots[(pid, fd as nat)];
          && id !in t.open && t'.open.Keys == t.open.Keys + {id}
          && t'.open[id].inode == inode && t'.open[id].offset == 0
          && (forall i :: i in t.open ==> t'.open[i] == t.open[i])
          && t'.files.Keys == t.files.Keys && t'.files[inode] == (if truncate then [] else t.files[inode])
          && (forall f :: f in t.files && f != inode ==> t'.files[f] == t.files[f]))
  {
  }

  lemma {:induction false} DupAdds(t: Table, pid: nat, fd: nat)
    requires t.Valid()
    ensures var (t', r) := t.Dup(pid, fd);
      && t'.open == t.open && t'.files == t.files
      && ((pid, fd) !in t.slots ==> r == -1 && t' == t)
      && ((pid, fd) in t.slots ==>
          && r >= 0 && (pid, r as nat) !in t.slots && (forall n: nat :: n < r ==> (pid, n) in t.slots)
          && (pid, r as nat) in t'.slots && t'.slots[(pid, r as nat)] == t.slots[(pid, fd)]
          && OnlySlot(t.slots, t'.slots, (pid, r as nat)))
  {
  }

  /** dup2 onto itself changes nothing at all. */
  lemma {:induction false} Dup2Replaces(t: Table, pid: nat, fd: nat, fd': nat)
    requires t.Valid()
    ensures var (t', r) := t.Dup2(pid, fd, fd');
      && t'.files == t.files
      && ((pid, fd) !in t.slots ==> r == -1 && t' == t)
      && ((pid, fd) in t.slots ==>
          && r == fd'
          && (pid, fd') in t'.slots && t'.slots[(pid, fd')] == t.slots[(pid, fd)]
          && OnlySlot(t.slots, t'.slots, (pid, fd')) && PointedAt(t, t'))
      && (fd == fd' ==> t' == t)
  {
    if (pid, fd) in t.slots {
      var t' := t.Dup2(pid, fd, fd').0;
      forall id | id in t'.slots.Values
        ensures id in t.open
      {
        var s :| s in t'.slots && t'.slots[s] == id;
        assert t.slots[(pid, fd)] in t.slots.Values;
        assert s == (pid, fd') || t.slots[s] in t.slots.Values;
      }
      if fd == fd' {
        assert t'.slots == t.slots;
      }
    }
  }

  lemma {:induction false} CloseRemoves(t: Table, pid: nat, fd: nat)
    requires t.Valid()
    ensures var (t', r) := t.Close(pid, fd);
      && r == (if (pid, fd) in t.slots then 0 else -1)
      && t'.files == t.files
      && (r == -1 ==> t' == t)
      && (r == 0 ==> (pid, fd) !in t'.slots && OnlySlot(t.slots, t'.slots, (pid, fd)) && PointedAt(t, t'))
  {
    if (pid, fd) in t.slots {
      FewerValues(t.slots, t.slots - {(pid, fd)});
    }
  }

  /** The child has what the parent has, pointing at the same descriptions; nothing else
      changes. */
  lemma {:induction false} ForkInherits(t: Table, parent: nat, child: nat)
    requires t.Valid() && parent in t.procs && child !in t.procs
    ensures var t' := t.Fork(parent, child);
      && t'.open == t.open && t'.files == t.files && t'.procs == t.procs + {child}
      && (forall n: nat :: (child, n) in t'.slots <==> (parent, n) in t.slots)
      && (forall n: nat :: (parent, n) in t.slots ==> t'.slots[(child, n)] == t.slots[(parent, n)])
      && (forall s: Slot :: s.0 != child ==>
            (s in t'.slots <==> s in t.slots) && (s in t.slots ==> t'.slots[s] == t.slots[s]))
  {
    NumbersOfOpen(t.slots, parent);
  }

  /** Nothing is left of the process that exits, and nobody else loses a descriptor. */
  lemma {:induction false} ExitRemoves(t: Table, pid: nat)
    requires t.Valid()
    ensures var t' := t.Exit(pid);
      && t'.files == t.files && t'.procs == t.procs - {pid}
      && (forall s: Slot :: s in t'.slots <==> s in t.slots && s.0 != pid)
      && (forall s: Slot :: s in t'.slots ==> t'.slots[s] == t.slots[s])
      && PointedAt(t, t')
  {
    FewerValues(t.slots, t.Exit(pid).slots);
  }
}
