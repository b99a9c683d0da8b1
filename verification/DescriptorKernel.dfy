/** Descriptor tables with reference counts. Every call updates counts one slot at a
    time and frees a description when its count reaches zero; that the result is the
    same as keeping exactly the descriptions some slot points at is what each contract
    says. */
module DescriptorKernel {
  import opened Bytes
  import opened Options
  import opened Slots
  import opened Descriptors
  import opened DescriptorFacts

  /** Emptying a slot with counts does what keeping the pointed-at descriptions does. */
  lemma {:induction false} DropRefines(t: Table, refs: map<nat, nat>, k: Slot)
    requires t.Valid() && Conserved(t.slots, refs) && k in t.slots
    ensures t.slots[k] in refs && refs[t.slots[k]] >= 1
    ensures var id := t.slots[k]; var t' := t.Repoint(t.slots - {k});
      && t'.Valid()
      && Conserved(t'.slots, Fewer(refs, id))
      && t'.open == if refs[id] == 1 then t.open - {id} else t.open
  {
    var id := t.slots[k];
    var t' := t.Repoint(t.slots - {k});
    CountsPositive(t.slots, refs, k);
    FewerValues(t.slots, t'.slots);
    RepointValid(t, t'.slots);
    ReleasedConserved(t.slots, refs, k);
    assert Fewer(refs, id).Keys == t'.slots.Values;
    assert refs.Keys == t.open.Keys;
  }

  /** A new description starts with the one slot that open(2) gives it. */
  lemma OpenRefines(t: Table, refs: map<nat, nat>, pid: nat, inode: nat, truncate: bool)
    requires t.Valid() && Conserved(t.slots, refs) && pid in t.procs && inode in t.files
    ensures var t' := t.Open(pid, inode, truncate).0; t'.Valid() && Conserved(t'.slots, refs[t.nextId := 1])
  {
    var k := (pid, t.LowestFree(pid));
    assert t.nextId !in t.open;
    AcquiredConserved(t.slots, refs, k, t.nextId);
    InstalledValues(t.slots, k, t.nextId);
  }

  lemma RepointTwice(t: Table, first: map<Slot, nat>, k: Slot)
    ensures t.Repoint(first).Repoint(first - {k}) == t.Repoint(first - {k})
  {
    FewerValues(first, first - {k});
  }

  /** Closing slot `k` when it is open and then pointing it where `from` points. */
  lemma ReplaceTarget(t: Table, from: Slot, k: Slot)
    requires t.Valid() && from in t.slots && from != k
    ensures var id := t.slots[from]; var closed := if k in t.slots then t.Repoint(t.slots - {k}) else t;
      && id in closed.open && k !in closed.slots
      && closed.(slots := closed.slots[k := id]) == t.Repoint(t.slots[k := id])
  {
    var id := t.slots[from];
    var rest := t.slots - {k};
    assert rest[from] == id;
    assert id in rest.Values;
    InstalledValues(rest, k, id);
    FewerValues(t.slots, rest);
    assert rest[k := id] == t.slots[k := id];
    assert t.slots[k := id].Values == rest.Values;
    assert k !in t.slots ==> rest == t.slots;
  }

  class Kernel {
    var procs: set<nat>
    var slots: map<Slot, nat>
    var open: map<nat, Description>
    var refs: map<nat, nat>
    var files: map<nat, seq<byte>>
    var nextId: nat

    /** The table without its counts. */
    ghost function View(): Table
      reads this
    {
      Table(procs, slots, open, files, nextId)
    }

    /** Conservation: the count of a description is the number of slots that point at
        it, and there is none with count zero. */
    ghost predicate Valid()
      reads this
    {
      View().Valid() && Conserved(slots, refs)
    }

    constructor (files: map<nat, seq<byte>>)
      ensures Valid() && procs == {} && slots == map[] && this.files == files
    {
      procs, slots, open, refs, nextId := {}, map[], map[], map[], 0;
      this.files := files;
    }

    method FindLowestFree(pid: nat) returns (fd: nat)
      ensures fd == View().LowestFree(pid)
    {
      fd := 0;
      while (pid, fd) in slots
        invariant View().LowestFree(pid) == LowestFreeFrom(slots, pid, fd)
        decreases UsedFrom(slots, pid, fd)
      {
        assert (pid, fd) in UsedFrom(slots, pid, fd) && (pid, fd) !in UsedFrom(slots, pid, fd + 1);
        assert UsedFrom(slots, pid, fd + 1) <= UsedFrom(slots, pid, fd);
        fd := fd + 1;
      }
    }

    /** Points an empty slot at a live description. */
    method Install(k: Slot, id: nat)
      requires Valid() && k.0 in procs && k !in slots && id in open
      modifies this`slots, this`refs
      ensures Valid() && slots == old(slots)[k := id]
    {
      AcquiredConserved(slots, refs, k, id);
      InstalledValues(slots, k, id);
      refs := refs[id := refs[id] + 1];
      slots := slots[k := id];
    }

    /** Empties a slot; the description goes when this was the last slot at it. */
    method Drop(k: Slot)
      requires Valid() && k in slots
      modifies this`slots, this`refs, this`open
      ensures Valid() && View() == old(View()).Repoint(old(slots) - {k})
    {
      var id := slots[k];
      ghost var t := View().Repoint(slots - {k});
      DropRefines(View(), refs, k);
      slots := slots - {k};
      if refs[id] == 1 {
        refs, open := refs - {id}, open - {id};
      } else {
        refs := refs[id := refs[id] - 1];
      }
      assert View() == t;
    }

    /** open(2). `inode` is what the path resolves to; it must exist. */
    method Open(pid: nat, inode: nat, truncate: bool) returns (fd: int)
      requires Valid() && pid in procs
      modifies this
      ensures Valid() && (View(), fd) == old(View()).Open(pid, inode, truncate)
    {
      if inode !in files {
        return -1;
      }
      ghost var t := View().Open(pid, inode, truncate).0;
      OpenRefines(View(), refs, pid, inode, truncate);
      var low := FindLowestFree(pid);
      open := open[nextId := Description(inode, 0)];
      refs := refs[nextId := 1];
      slots := slots[(pid, low) := nextId];
      if truncate {
        files := files[inode := []];
      }
      nextId := nextId + 1;
      fd := low;
      assert View() == t;
    }

    method Dup(pid: nat, oldfd: int) returns (fd: int)
      requires Valid()
      modifies this
      ensures Valid() && (View(), fd) == old(View()).Dup(pid, oldfd)
    {
      if oldfd < 0 || (pid, oldfd) !in slots {
        return -1;
      }
      var low := FindLowestFree(pid);
      assert slots[(pid, oldfd)] in slots.Values;
      Install((pid, low), slots[(pid, oldfd)]);
      fd := low;
    }

    method Dup2(pid: nat, oldfd: int, newfd: nat) returns (fd: int)
      requires Valid()
      modifies this
      ensures Valid() && (View(), fd) == old(View()).Dup2(pid, oldfd, newfd)
    {
      if oldfd < 0 || (pid, oldfd) !in slots {
        return -1;
      }
      fd := newfd;
      if oldfd == newfd {
        assert slots[(pid, newfd) := slots[(pid, oldfd)]] == slots;
        assert View().Repoint(slots) == View();
        return;
      }
      ghost var t := View();
      ReplaceTarget(t, (pid, oldfd as nat), (pid, newfd));
      var id := slots[(pid, oldfd)];
      if (pid, newfd) in slots {
        Drop((pid, newfd));
      }
      Install((pid, newfd), id);
      assert View() == t.Repoint(t.slots[(pid, newfd) := id]);
    }

    method Close(pid: nat, fd: int) returns (r: int)
      requires Valid()
      modifies this
      ensures Valid() && (View(), r) == old(View()).Close(pid, fd)
    {
      if fd < 0 || (pid, fd) !in slots {
        return -1;
      }
      Drop((pid, fd));
      r := 0;
    }

    method InheritSlot(parent: nat, child: nat, fd: nat, ghost was: map<Slot, nat>, ghost todo: set<nat>)
      requires Valid() && child in procs && (forall k :: k in was ==> k.0 != child)
      requires fd in todo && todo <= NumbersOf(was, parent)
      requires slots == Inheriting(was, parent, child, todo)
      modifies this`slots, this`refs
      ensures Valid()
      ensures slots == Inheriting(was, parent, child, todo - {fd})
    {
      InheritOne(was, parent, child, todo, fd);
      assert slots[(parent, fd)] in slots.Values;
      Install((child, fd), slots[(parent, fd)]);
    }

    /** One reference more for every slot the child inherits. */
    method InheritAll(parent: nat, child: nat)
      requires Valid() && child in procs
      requires forall k :: k in slots ==> k.0 != child
      modifies this`slots, this`refs
      ensures Valid() && slots == Inherited(old(slots), parent, child, NumbersOf(old(slots), parent))
    {
      ghost var was := slots;
      var todo := NumbersOf(slots, parent);
      InheritEnds(was, parent, child);
      while todo != {}
        invariant Valid() && todo <= NumbersOf(was, parent)
        invariant slots == Inheriting(was, parent, child, todo)
        decreases todo
      {
        var fd :| fd in todo;
        InheritSlot(parent, child, fd, was, todo);
        todo := todo - {fd};
      }
    }

    /** fork(2): the child has the parent's descriptors, at the same descriptions, each of
        which has one reference more for every such descriptor. */
    method Fork(parent: nat, child: nat)
      requires Valid() && parent in procs && child !in procs
      modifies this
      ensures Valid() && View() == old(View()).Fork(parent, child)
      ensures forall n: nat :: (child, n) in slots <==> (parent, n) in old(slots)
      ensures forall n: nat :: (parent, n) in old(slots) ==> slots[(child, n)] == old(slots)[(parent, n)]
      ensures forall k: Slot :: k.0 != child ==>
        (k in slots <==> k in old(slots)) && (k in old(slots) ==> slots[k] == old(slots)[k])
      ensures open == old(open) && refs.Keys == old(refs.Keys)
      ensures forall id :: id in refs ==> refs[id] == old(refs)[id] + |NumbersAt(old(slots), parent, id)|
    {
      ghost var t := View();
      procs := procs + {child};
      InheritAll(parent, child);
      ForkInherits(t, parent, child);
      forall id | id in refs
        ensures refs[id] == Refs(t.slots, id) + |NumbersAt(t.slots, parent, id)|
      {
        ForkedRefs(t.slots, parent, child, id);
      }
    }

    /** Closes descriptor `fd`; `todo` is what the process had left to close of `was`. */
    method CloseNumber(pid: nat, fd: nat, ghost was: Table, ghost todo: set<nat>)
      requires Valid() && fd in todo && todo <= NumbersOf(was.slots, pid)
      requires View() == was.Repoint(Closing(was.slots, pid, todo))
      modifies this`slots, this`refs, this`open
      ensures Valid() && View() == was.Repoint(Closing(was.slots, pid, todo - {fd}))
    {
      CloseOne(was.slots, pid, todo, fd);
      RepointTwice(was, slots, (pid, fd));
      Drop((pid, fd));
    }

    method CloseEverything(pid: nat)
      requires Valid()
      modifies this`slots, this`refs, this`open
      ensures Valid() && View() == old(View()).Repoint(Closing(old(slots), pid, {}))
    {
      ghost var was := View();
      var todo := NumbersOf(slots, pid);
      assert slots == Closing(was.slots, pid, todo);
      while todo != {}
        invariant Valid() && todo <= NumbersOf(was.slots, pid)
        invariant View() == was.Repoint(Closing(was.slots, pid, todo))
        decreases todo
      {
        var fd :| fd in todo;
        CloseNumber(pid, fd, was, todo);
        todo := todo - {fd};
      }
    }

    /** _exit(2): every descriptor of the process is closed. */
    method Exit(pid: nat)
      requires Valid() && pid in procs
      modifies this
      ensures Valid() && View() == old(View()).Exit(pid)
    {
      CloseEverything(pid);
      assert slots == map k | k in old(slots) && k.0 != pid :: old(slots)[k];
      procs := procs - {pid};
    }

    method Read(pid: nat, fd: int, count: nat) returns (data: Option<seq<byte>>)
      requires Valid()
      modifies this`open
      ensures Valid() && (View(), data) == old(View()).Read(pid, fd, count)
    {
      if fd < 0 || (pid, fd) !in slots {
        return None;
      }
      var id := slots[(pid, fd)];
      assert id in slots.Values;
      var at := open[id];
      var file := files[at.inode];
      var n := if at.offset >= |file| then 0 else Min(count, |file| - at.offset);
      data := Some(if at.offset >= |file| then [] else file[at.offset..at.offset + n]);
      open := open[id := at.(offset := at.offset + n)];
    }

    method Write(pid: nat, fd: int, data: seq<byte>) returns (n: int)
      requires Valid()
      modifies this`open, this`files
      ensures Valid() && (View(), n) == old(View()).Write(pid, fd, data)
    {
      if fd < 0 || (pid, fd) !in slots {
        return -1;
      }
      var id := slots[(pid, fd)];
      assert id in slots.Values;
      var at := open[id];
      files := files[at.inode := Splice(files[at.inode], at.offset, data)];
      open := open[id := at.(offset := at.offset + |data|)];
      n := |data|;
    }

    method Seek(pid: nat, fd: int, offset: nat) returns (r: int)
      requires Valid()
      modifies this`open
      ensures Valid() && (View(), r) == old(View()).Seek(pid, fd, offset)
    {
      if fd < 0 || (pid, fd) !in slots {
        return -1;
      }
      var id := slots[(pid, fd)];
      assert id in slots.Values;
      open := open[id := open[id].(offset := offset)];
      r := offset;
    }
  }
}
