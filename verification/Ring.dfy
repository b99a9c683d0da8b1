/** The ring buffer of the bounded queue: the five fields of `queue_t` that the
    mutex protects, and the updates that the critical sections make to them. */
module Ring {

  datatype Ring = Ring(buf: seq<int>, head: nat, tail: nat, count: nat, shutdown: bool) {

    predicate Valid() {
      && |buf| >= 1
      && head < |buf|
      && count <= |buf|
      && tail == (head + count) % |buf|
    }

    /** The queued values, oldest first: `count` slots from `head` round the ring. */
    function Contents(): (s: seq<int>)
      requires |buf| >= 1
      ensures |s| == count
    {
      seq(count, i => buf[(head + i) % |buf|])
    }

    predicate Full() { count == |buf| }

    predicate Empty() { count == 0 }

    /** What a push does once it has stopped waiting and seen no shutdown. */
    function Store(val: int): Ring
      requires Valid() && !Full()
    {
      this.(buf := buf[tail := val], tail := (tail + 1) % |buf|, count := count + 1)
    }

    /** The value that the next pop hands out. */
    function Front(): int
      requires Valid() && !Empty()
    {
      buf[head]
    }

    /** What a pop does once it has stopped waiting on a non-empty queue. */
    function Take(): Ring
      requires Valid() && !Empty()
    {
      this.(head := (head + 1) % |buf|, count := count - 1)
    }
  }

  /** Indices below twice the capacity wrap at most once. */
  lemma Wrap(x: nat, cap: nat)
    requires cap >= 1 && x < 2 * cap
    ensures x % cap == if x < cap then x else x - cap
  {
  }

  /** A store appends to the queue and keeps the ring well formed. */
  lemma {:induction false} StoreAppends(r: Ring, val: int)
    requires r.Valid() && !r.Full()
    ensures r.Store(val).Valid()
    ensures r.Store(val).Contents() == r.Contents() + [val]
  {
    var cap := |r.buf|;
    var q := r.Store(val);
    Wrap(r.head + r.count, cap);
    Wrap(r.tail + 1, cap);
    if r.head + r.count + 1 < 2 * cap {
      Wrap(r.head + r.count + 1, cap);
    }
    forall i: nat | i < r.count
      ensures q.Contents()[i] == r.Contents()[i]
    {
      Wrap(r.head + i, cap);
    }
  }

  /** A take removes the oldest value and keeps the ring well formed. */
  lemma {:induction false} TakeDropsFront(r: Ring)
    requires r.Valid() && !r.Empty()
    ensures r.Take().Valid()
    ensures r.Contents() == [r.Front()] + r.Take().Contents()
  {
    var cap := |r.buf|;
    var q := r.Take();
    Wrap(r.head, cap);
    Wrap(r.head + 1, cap);
    Wrap(r.head + r.count, cap);
    if q.head + q.count < 2 * cap {
      Wrap(q.head + q.count, cap);
    }
    forall i: nat | i < q.count
      ensures q.Contents()[i] == r.Contents()[i + 1]
    {
      Wrap(r.head + i + 1, cap);
      Wrap(q.head + i, cap);
    }
    assert r.Contents() == [r.Front()] + q.Contents();
  }

  datatype PushOutcome = PushWaits | Dropped | Stored

  datatype PopOutcome = PopWaits | Drained | Popped(val: int)

  /** The queue object. Its methods are the parts of `queue_push` and `queue_pop`
      that run while the mutex is held: from the test of the wait condition up to
      the unlock, or up to the wait when the condition asks for one. */
  class Queue {
    const cap: nat
    const buf: array<int>
    var head: nat
    var tail: nat
    var count: nat
    var shutdown: bool

    ghost predicate Valid()
      reads this, buf
    {
      buf.Length == cap && Model().Valid()
    }

    ghost function Model(): Ring
      reads this, buf
    {
      Ring(buf[..], head, tail, count, shutdown)
    }

    constructor (cap: nat)
      requires cap >= 1
      ensures Valid() && fresh(buf) && this.cap == cap
      ensures Model().Contents() == [] && !Model().shutdown
    {
      this.cap := cap;
      buf := new int[cap];
      head, tail, count, shutdown := 0, 0, 0, false;
    }

    method PushHolding(val: int) returns (o: PushOutcome)
      requires Valid()
      modifies this, buf
      ensures Valid()
      ensures o.PushWaits? <==> old(Model()).Full() && !old(Model()).shutdown
      ensures o.Dropped? <==> old(Model()).shutdown
      ensures o.Stored? ==> Model() == old(Model()).Store(val)
      ensures o.Stored? ==> Model().Contents() == old(Model()).Contents() + [val]
      ensures !o.Stored? ==> Model() == old(Model())
    {
      if count == cap && !shutdown {
        return PushWaits;
      }
      if shutdown {
        return Dropped;
      }
      ghost var was := Model();
      Wrap(was.head + was.count, cap);
      buf[tail] := val;
      tail := (tail + 1) % cap;
      count := count + 1;
      StoreAppends(was, val);
      assert Model() == was.Store(val);
      return Stored;
    }

    method PopHolding() returns (o: PopOutcome)
      requires Valid()
      modifies this
      ensures Valid()
      ensures o.PopWaits? <==> old(Model()).Empty() && !old(Model()).shutdown
      ensures o.Drained? <==> old(Model()).Empty() && old(Model()).shutdown
      ensures o.Popped? ==> Model() == old(Model()).Take()
      ensures o.Popped? ==> old(Model()).Contents() == [o.val] + Model().Contents()
      ensures !o.Popped? ==> Model() == old(Model())
    {
      if count == 0 && !shutdown {
        return PopWaits;
      }
      if count == 0 && shutdown {
        return Drained;
      }
      ghost var was := Model();
      var val := buf[head];
      head := (head + 1) % cap;
      count := count - 1;
      TakeDropsFront(was);
      return Popped(val);
    }

    /** The producer's last critical section. The ring itself is left alone. */
    method Close()
      requires Valid()
      modifies this
      ensures Valid() && Model() == old(Model()).(shutdown := true)
    {
      shutdown := true;
    }
  }
}
