/** read(2) and write(2) against an adversarial kernel.

    A kernel object carries the list of replies it will give: a read may deliver any
    positive number of bytes up to what was asked for, be interrupted, or fail; a write
    may accept any number of bytes up to what was asked for (also none), be interrupted,
    or fail. A list that has run out means full reads and full writes, so interruptions
    and empty writes are finitely many. In the modules built on this one the functions
    say what a loop does for a given list, and the methods are the loops. */
module IoCalls {
  import opened Bytes

  datatype ReadReply = Deliver(n: nat) | ReadEintr | ReadError

  datatype WriteReply = Accept(n: nat) | WriteEintr | WriteError

  datatype Outcome = Bytes(n: nat) | Eintr | Error

  /** What read(2) returns for `count` wanted and `avail` bytes left: 0 means end of file. */
  function ReadOutcome(script: seq<ReadReply>, count: nat, avail: nat): (o: Outcome)
    requires count > 0
    ensures o.Bytes? ==> o.n <= count && o.n <= avail && (o.n == 0 <==> avail == 0)
  {
    if script == [] then Bytes(Min(count, avail))
    else match script[0]
      case ReadEintr => Eintr
      case ReadError => Error
      case Deliver(n) => Bytes(Min(if n == 0 then 1 else n, Min(count, avail)))
  }

  function WriteOutcome(script: seq<WriteReply>, count: nat): (o: Outcome)
    ensures o.Bytes? ==> o.n <= count
  {
    if script == [] then Bytes(count)
    else match script[0]
      case WriteEintr => Eintr
      case WriteError => Error
      case Accept(n) => Bytes(Min(n, count))
  }

  /** The kernel may deliver any positive number of bytes that is wanted and there, or be
      interrupted, or fail; there is an end of file only when nothing is left. */
  lemma {:induction false} ReadsCover(count: nat, avail: nat, o: Outcome)
    requires count > 0
    ensures (exists script :: ReadOutcome(script, count, avail) == o) <==>
            (o.Bytes? ==> o.n <= count && o.n <= avail && (o.n == 0 <==> avail == 0))
  {
    if o.Bytes? && o.n <= count && o.n <= avail && (o.n == 0 <==> avail == 0) {
      assert ReadOutcome([Deliver(o.n)], count, avail) == o;
    }
    assert ReadOutcome([ReadEintr], count, avail) == Eintr && ReadOutcome([ReadError], count, avail) == Error;
  }

  /** It may accept any number of bytes up to what is offered, be interrupted, or fail. */
  lemma {:induction false} WritesCover(count: nat, o: Outcome)
    ensures (exists script :: WriteOutcome(script, count) == o) <==> (o.Bytes? ==> o.n <= count)
  {
    if o.Bytes? && o.n <= count {
      assert WriteOutcome([Accept(o.n)], count) == o;
    }
    assert WriteOutcome([WriteEintr], count) == Eintr && WriteOutcome([WriteError], count) == Error;
  }

  function Rest<T>(script: seq<T>): seq<T> {
    if script == [] then [] else script[1..]
  }

  class Source {
    var left: seq<byte>
    var script: seq<ReadReply>

    constructor (content: seq<byte>, script: seq<ReadReply>)
      ensures left == content && this.script == script
    {
      left, this.script := content, script;
    }

    method Read(buf: array<byte>, start: nat, count: nat) returns (o: Outcome)
      requires count > 0 && start + count <= buf.Length
      modifies this, buf
      ensures o == ReadOutcome(old(script), count, |old(left)|)
      ensures script == Rest(old(script))
      ensures o.Bytes? ==>
        && left == old(left)[o.n..]
        && buf[..start] == old(buf[..start])
        && buf[start..start + o.n] == old(left)[..o.n]
        && buf[start + o.n..] == old(buf[start + o.n..])
      ensures !o.Bytes? ==> left == old(left) && buf[..] == old(buf[..])
    {
      o := ReadOutcome(script, count, |left|);
      script := Rest(script);
      if o.Bytes? {
        forall i | 0 <= i < o.n {
          buf[start + i] := left[i];
        }
        left := left[o.n..];
      }
    }
  }

  /** Every content in `history` is a beginning of `whole`. */
  predicate AllPrefixes(history: seq<seq<byte>>, whole: seq<byte>) {
    forall i :: 0 <= i < |history| ==> Prefix(history[i], whole)
  }

  lemma PrefixesGrow(history: seq<seq<byte>>, whole: seq<byte>, more: seq<byte>)
    requires AllPrefixes(history, whole)
    ensures AllPrefixes(history + [whole + more], whole + more)
  {
    forall i | 0 <= i < |history|
      ensures Prefix(history[i], whole + more)
    {
      assert history[i] == (whole + more)[..|history[i]|];
    }
  }

  /** `history` holds what the sink held after each write so far. */
  class Sink {
    var written: seq<byte>
    var script: seq<WriteReply>
    ghost var history: seq<seq<byte>>

    constructor (script: seq<WriteReply>)
      ensures written == [] && history == [] && this.script == script
    {
      written, this.script, history := [], script, [];
    }

    ghost predicate Growing()
      reads this
    {
      AllPrefixes(history, written)
    }

    method Write(buf: array<byte>, start: nat, count: nat) returns (o: Outcome)
      requires start + count <= buf.Length
      modifies this
      ensures o == WriteOutcome(old(script), count)
      ensures script == Rest(old(script))
      ensures written == old(written) + if o.Bytes? then buf[start..start + o.n] else []
      ensures history == old(history) + [written]
      ensures old(Growing()) ==> Growing()
    {
      o := WriteOutcome(script, count);
      script := Rest(script);
      ghost var more := if o.Bytes? then buf[start..start + o.n] else [];
      if Growing() {
        PrefixesGrow(history, written, more);
      }
      assert written + [] == written;
      if o.Bytes? {
        written := written + buf[start..start + o.n];
      }
      history := history + [written];
    }
  }
}
