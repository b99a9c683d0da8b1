/** The three levels behind a file descriptor, in their simplest form: per-process
    slots, open file descriptions that exist as long as some slot points at them, and
    files. There are no reference counts here; DescriptorKernel adds them. */
module Descriptors {
  import opened Bytes
  import opened Options
  import opened Slots

  datatype Description = Description(inode: nat, offset: nat)

  function UsedFrom(slots: map<Slot, nat>, pid: nat, n: nat): set<Slot> {
    set k | k in slots && k.0 == pid && k.1 >= n
  }

  function LowestFreeFrom(slots: map<Slot, nat>, pid: nat, n: nat): (fd: nat)
    ensures fd >= n && (pid, fd) !in slots
    ensures forall m: nat :: n <= m < fd ==> (pid, m) in slots
    decreases UsedFrom(slots, pid, n)
  {
    if (pid, n) !in slots then n
    else
      assert (pid, n) in UsedFrom(slots, pid, n) && (pid, n) !in UsedFrom(slots, pid, n + 1);
      assert UsedFrom(slots, pid, n + 1) <= UsedFrom(slots, pid, n);
      LowestFreeFrom(slots, pid, n + 1)
  }

  datatype Table = Table(
    procs: set<nat>,
    slots: map<Slot, nat>,
    open: map<nat, Description>,
    files: map<nat, seq<byte>>,
    nextId: nat)
  {
    predicate Valid() {
      && open.Keys == slots.Values
      && (forall id :: id in open ==> id < nextId && open[id].inode in files)
      && (forall k :: k in slots ==> k.0 in procs)
    }

    predicate IsOpen(pid: nat, fd: int) {
      fd >= 0 && (pid, fd) in slots
    }

    function At(pid: nat, fd: int): Description
      requires Valid() && IsOpen(pid, fd)
    {
      assert slots[(pid, fd)] in slots.Values;
      open[slots[(pid, fd)]]
    }

    /** The slots become `slots'`; descriptions nobody points at any more are gone. */
    function Repoint(slots': map<Slot, nat>): Table {
      this.(slots := slots', open := map id | id in open && id in slots'.Values :: open[id])
    }

    function LowestFree(pid: nat): (fd: nat)
      ensures (pid, fd) !in slots
      ensures forall n: nat :: n < fd ==> (pid, n) in slots
    {
      LowestFreeFrom(slots, pid, 0)
    }

    /** open(2) of an existing file: a new description at offset 0. */
    function Open(pid: nat, inode: nat, truncate: bool): (Table, int)
      requires pid in procs
    {
      if inode !in files then (this, -1)
      else
        var fd := LowestFree(pid);
        (this.(slots := slots[(pid, fd) := nextId],
               open := open[nextId := Description(inode, 0)],
               files := if truncate then files[inode := []] else files,
               nextId := nextId + 1),
         fd as int)
    }

    /** dup(2): the lowest free slot, same description. */
    function Dup(pid: nat, fd: int): (Table, int) {
      if !IsOpen(pid, fd) then (this, -1)
      else
        var fd' := LowestFree(pid);
        (this.(slots := slots[(pid, fd') := slots[(pid, fd)]]), fd' as int)
    }

    /** dup2(2): a given slot, whatever it held before is closed. */
    function Dup2(pid: nat, fd: int, fd': nat): (Table, int) {
      if !IsOpen(pid, fd) then (this, -1)
      else (Repoint(Copied(slots, (pid, fd as nat), (pid, fd'))), fd' as int)
    }

    function Close(pid: nat, fd: int): (Table, int) {
      if !IsOpen(pid, fd) then (this, -1)
      else (Repoint(Emptied(slots, (pid, fd as nat))), 0)
    }

    /** fork(2): the child's slots point at the parent's descriptions. */
    function Fork(parent: nat, child: nat): Table {
      this.(procs := procs + {child}, slots := Forked(slots, parent, child))
    }

    function Exit(pid: nat): Table {
      Repoint(map k | k in slots && k.0 != pid :: slots[k]).(procs := procs - {pid})
    }

    function Move(pid: nat, fd: int, offset: nat): Table
      requires Valid() && IsOpen(pid, fd)
    {
      assert slots[(pid, fd)] in slots.Values;
      this.(open := open[slots[(pid, fd)] := At(pid, fd).(offset := offset)])
    }

    /** What a read of up to `count` bytes delivers. */
    function Data(pid: nat, fd: int, count: nat): (d: seq<byte>)
      requires Valid() && IsOpen(pid, fd)
      ensures |d| <= count
    {
      var at := At(pid, fd);
      Window(files[at.inode], at.offset, count)
    }

    function Read(pid: nat, fd: int, count: nat): (Table, Option<seq<byte>>)
      requires Valid()
    {
      if !IsOpen(pid, fd) then (this, None)
      else
        var d := Data(pid, fd, count);
        (Move(pid, fd, At(pid, fd).offset + |d|), Some(d))
    }

    function Write(pid: nat, fd: int, data: seq<byte>): (Table, int)
      requires Valid()
    {
      if !IsOpen(pid, fd) then (this, -1)
      else
        var at := At(pid, fd);
        (Move(pid, fd, at.offset + |data|).(files := files[at.inode := Splice(files[at.inode], at.offset, data)]),
          |data| as int)
    }

    /** lseek(2) with SEEK_SET. */
    function Seek(pid: nat, fd: int, offset: nat): (Table, int)
      requires Valid()
    {
      if !IsOpen(pid, fd) then (this, -1) else (Move(pid, fd, offset), offset as int)
    }
  }

  /** Removing slots from a valid table leaves a valid table. */
  lemma RepointValid(t: Table, slots': map<Slot, nat>)
    requires t.Valid() && slots'.Values <= t.slots.Values && (forall k :: k in slots' ==> k.0 in t.procs)
    ensures t.Repoint(slots').Valid()
  {
  }
}
