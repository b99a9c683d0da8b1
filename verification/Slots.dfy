/** Per-process slots that point at shared, reference-counted things: descriptor tables
    point at open file descriptions, page tables at frames. */
module Slots {
  /** A process and a number in its table. */
  type Slot = (nat, nat)

  /** The numbers in use in a process. */
  function NumbersOf<V>(slots: map<Slot, V>, pid: nat): set<nat> {
    set k | k in slots && k.0 == pid :: k.1
  }

  /** The slots once `child` has inherited the numbers `numbers` of `parent`. */
  function Inherited<V>(slots: map<Slot, V>, parent: nat, child: nat, numbers: set<nat>): map<Slot, V> {
    slots + map k | k in (set n | n in numbers :: (child, n)) && (parent, k.1) in slots :: slots[(parent, k.1)]
  }

  /** close(2) on tables, and an exiting process slot by slot. */
  function Emptied<V>(slots: map<Slot, V>, k: Slot): map<Slot, V> {
    slots - {k}
  }

  /** dup2(2): `to` points where `from` does; nothing happens when `from` is empty. */
  function Copied<V>(slots: map<Slot, V>, from: Slot, to: Slot): map<Slot, V> {
    if from in slots then slots[to := slots[from]] else slots
  }

  /** fork(2): the child inherits every number of the parent. */
  function Forked<V>(slots: map<Slot, V>, parent: nat, child: nat): map<Slot, V> {
    Inherited(slots, parent, child, NumbersOf(slots, parent))
  }

  lemma FewerValues(slots: map<Slot, nat>, slots': map<Slot, nat>)
    requires forall k :: k in slots' ==> k in slots && slots'[k] == slots[k]
    ensures slots'.Values <= slots.Values
  {
    forall id | id in slots'.Values
      ensures id in slots.Values
    {
      var k :| k in slots' && slots'[k] == id;
      assert slots[k] == id;
    }
  }

  lemma InstalledValues(slots: map<Slot, nat>, k: Slot, id: nat)
    requires k !in slots
    ensures slots[k := id].Values == slots.Values + {id}
  {
    var after := slots[k := id];
    assert after[k] == id;
    forall i | i in slots.Values
      ensures i in after.Values
    {
      var s :| s in slots && slots[s] == i;
      assert after[s] == i;
    }
  }

  function Pointing(slots: map<Slot, nat>, id: nat): set<Slot> {
    set k | k in slots && slots[k] == id
  }

  /** How many slots, in all processes, point at `id`. */
  function Refs(slots: map<Slot, nat>, id: nat): nat {
    |Pointing(slots, id)|
  }

  lemma RefsZero(slots: map<Slot, nat>, id: nat)
    ensures Refs(slots, id) == 0 <==> id !in slots.Values
  {
    if id in slots.Values {
      var k :| k in slots && slots[k] == id;
      assert k in Pointing(slots, id);
    } else {
      assert Pointing(slots, id) == {};
    }
  }

  lemma RefsInstall(slots: map<Slot, nat>, k: Slot, id: nat, other: nat)
    requires k !in slots
    ensures Refs(slots[k := id], other) == Refs(slots, other) + if other == id then 1 else 0
  {
    assert Pointing(slots[k := id], other) == Pointing(slots, other) + if other == id then {k} else {};
  }

  lemma RefsDrop(slots: map<Slot, nat>, k: Slot, other: nat)
    requires k in slots
    ensures Refs(slots, other) == Refs(slots - {k}, other) + if other == slots[k] then 1 else 0
  {
    RefsInstall(slots - {k}, k, slots[k], other);
    assert (slots - {k})[k := slots[k]] == slots;
  }

  /** Emptying slot `k`, for all targets at once. */
  lemma DropFacts(slots: map<Slot, nat>, k: Slot)
    requires k in slots
    ensures forall id: nat :: Refs(slots, id) == Refs(slots - {k}, id) + if id == slots[k] then 1 else 0
    ensures forall id: nat :: id in (slots - {k}).Values <==> Refs(slots - {k}, id) > 0
    ensures forall id: nat :: id in slots.Values <==> Refs(slots, id) > 0
  {
    forall id: nat
      ensures Refs(slots, id) == Refs(slots - {k}, id) + if id == slots[k] then 1 else 0
      ensures id in (slots - {k}).Values <==> Refs(slots - {k}, id) > 0
      ensures id in slots.Values <==> Refs(slots, id) > 0
    {
      RefsDrop(slots, k, id);
      RefsZero(slots, id);
      RefsZero(slots - {k}, id);
    }
  }

  /** Every count is the number of slots pointing there, and none is zero. */
  ghost predicate Conserved(slots: map<Slot, nat>, refs: map<nat, nat>) {
    && refs.Keys == slots.Values
    && (forall id :: id in refs ==> refs[id] == Refs(slots, id))
  }

  lemma SameSlotsSameCounts(slots: map<Slot, nat>, refs: map<nat, nat>, refs': map<nat, nat>)
    requires Conserved(slots, refs) && Conserved(slots, refs')
    ensures refs == refs'
  {
  }

  lemma CountsPositive(slots: map<Slot, nat>, refs: map<nat, nat>, k: Slot)
    requires Conserved(slots, refs) && k in slots
    ensures slots[k] in refs && refs[slots[k]] >= 1
  {
    assert slots[k] in slots.Values;
    RefsZero(slots, slots[k]);
  }

  /** The counts with one reference to `id` less. */
  function Fewer(refs: map<nat, nat>, id: nat): map<nat, nat>
    requires id in refs && refs[id] >= 1
  {
    if refs[id] == 1 then refs - {id} else refs[id := refs[id] - 1]
  }

  /** One slot less: its count goes down, or away. */
  lemma {:induction false} ReleasedConserved(slots: map<Slot, nat>, refs: map<nat, nat>, k: Slot)
    requires Conserved(slots, refs) && k in slots && slots[k] in refs && refs[slots[k]] >= 1
    ensures Conserved(slots - {k}, Fewer(refs, slots[k]))
  {
    var refs' := Fewer(refs, slots[k]);
    DropFacts(slots, k);
    FewerValues(slots, slots - {k});
    forall i: nat
      ensures i in refs' <==> i in (slots - {k}).Values
    {
      assert Refs(slots, i) == Refs(slots - {k}, i) + if i == slots[k] then 1 else 0;
    }
  }

  /** One slot more: its count goes up, or starts at one. */
  lemma {:induction false} AcquiredConserved(slots: map<Slot, nat>, refs: map<nat, nat>, k: Slot, id: nat)
    requires Conserved(slots, refs) && k !in slots
    ensures Conserved(slots[k := id], refs[id := if id in refs then refs[id] + 1 else 1])
  {
    InstalledValues(slots, k, id);
    forall i | i in refs || i == id
      ensures Refs(slots[k := id], i) == (if i in refs then refs[i] else 0) + if i == id then 1 else 0
    {
      RefsInstall(slots, k, id, i);
      RefsZero(slots, i);
    }
  }

  lemma NumbersOfOpen<V>(slots: map<Slot, V>, pid: nat)
    ensures forall n: nat :: n in NumbersOf(slots, pid) <==> (pid, n) in slots
  {
  }

  /** The slots while `child` has yet to inherit the numbers `todo`. */
  function Inheriting<V>(slots: map<Slot, V>, parent: nat, child: nat, todo: set<nat>): map<Slot, V> {
    Inherited(slots, parent, child, NumbersOf(slots, parent) - todo)
  }

  lemma InheritEnds<V>(slots: map<Slot, V>, parent: nat, child: nat)
    ensures Inheriting(slots, parent, child, NumbersOf(slots, parent)) == slots
    ensures Inheriting(slots, parent, child, {}) == Inherited(slots, parent, child, NumbersOf(slots, parent))
  {
    var all := NumbersOf(slots, parent);
    assert all - all == {} && all - {} == all;
  }

  lemma InheritOne<V>(slots: map<Slot, V>, parent: nat, child: nat, todo: set<nat>, n: nat)
    requires n in todo && todo <= NumbersOf(slots, parent)
    requires forall k :: k in slots ==> k.0 != child
    ensures var now := Inheriting(slots, parent, child, todo);
      && (child, n) !in now
      && (parent, n) in now && now[(parent, n)] == slots[(parent, n)]
      && Inheriting(slots, parent, child, todo - {n}) == now[(child, n) := slots[(parent, n)]]
  {
    NumbersOfOpen(slots, parent);
    var now := Inheriting(slots, parent, child, todo - {n});
    var next := Inheriting(slots, parent, child, todo)[(child, n) := slots[(parent, n)]];
    forall k
      ensures k in now <==> k in next
    {
    }
  }

  /** The slots left after a process has closed all but `todo`. */
  function Closing<V>(slots: map<Slot, V>, pid: nat, todo: set<nat>): map<Slot, V> {
    map k | k in slots && (k.0 == pid ==> k.1 in todo) :: slots[k]
  }

  lemma CloseOne<V>(slots: map<Slot, V>, pid: nat, todo: set<nat>, n: nat)
    requires n in todo && todo <= NumbersOf(slots, pid)
    ensures (pid, n) in Closing(slots, pid, todo)
    ensures Closing(slots, pid, todo - {n}) == Closing(slots, pid, todo) - {(pid, n)}
  {
  }

  /** The numbers of `pid` that point at `id`. */
  function NumbersAt(slots: map<Slot, nat>, pid: nat, id: nat): set<nat> {
    set k | k in slots && k.0 == pid && slots[k] == id :: k.1
  }

  function SlotsAt(pid: nat, numbers: set<nat>): set<Slot> {
    set n | n in numbers :: (pid, n)
  }

  lemma {:induction false} SlotsAtCount(pid: nat, numbers: set<nat>)
    ensures |SlotsAt(pid, numbers)| == |numbers|
  {
    if numbers == {} {
      assert SlotsAt(pid, numbers) == {};
    } else {
      var n :| n in numbers;
      SlotsAtCount(pid, numbers - {n});
      assert (pid, n) !in SlotsAt(pid, numbers - {n});
      assert SlotsAt(pid, numbers) == SlotsAt(pid, numbers - {n}) + {(pid, n)};
    }
  }

  lemma ForkedPointing(slots: map<Slot, nat>, parent: nat, child: nat, id: nat, k: Slot)
    requires forall k :: k in slots ==> k.0 != child
    ensures k in Pointing(Forked(slots, parent, child), id) <==>
            k in Pointing(slots, id) || k in SlotsAt(child, NumbersAt(slots, parent, id))
  {
    NumbersOfOpen(slots, parent);
    if k.0 == child && (parent, k.1) in slots {
      assert k.1 in NumbersOf(slots, parent);
      assert k in Forked(slots, parent, child);
    }
  }

  /** A fork adds one reference for every number of the parent that points there. */
  lemma {:induction false} ForkedRefs(slots: map<Slot, nat>, parent: nat, child: nat, id: nat)
    requires forall k :: k in slots ==> k.0 != child
    ensures Refs(Forked(slots, parent, child), id) == Refs(slots, id) + |NumbersAt(slots, parent, id)|
  {
    var before, copies := Pointing(slots, id), SlotsAt(child, NumbersAt(slots, parent, id));
    var after := Pointing(Forked(slots, parent, child), id);
    forall k
      ensures k in after <==> k in before + copies
    {
      ForkedPointing(slots, parent, child, id, k);
    }
    assert after == before + copies && before !! copies;
    SlotsAtCount(child, NumbersAt(slots, parent, id));
  }
}
