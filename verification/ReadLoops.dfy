/** The loops that fill a buffer. */
module ReadLoops {
  import opened Bytes
  import opened IoCalls

  datatype Ending = Full | EndOfFile | Broken

  datatype Got = Got(done: nat, rest: seq<ReadReply>, ending: Ending)

  /** A loop that wants exactly `count` bytes from a source with `avail` left. */
  function ReadRun(script: seq<ReadReply>, count: nat, avail: nat): Got
    decreases |script| + count
  {
    if count == 0 then Got(0, script, Full)
    else match ReadOutcome(script, count, avail)
      case Eintr => ReadRun(Rest(script), count, avail)
      case Error => Got(0, Rest(script), Broken)
      case Bytes(n) =>
        if n == 0 then Got(0, Rest(script), EndOfFile)
        else
          var r := ReadRun(Rest(script), count - n, avail - n);
          Got(n + r.done, r.rest, r.ending)
  }

  /** None of the first `k` replies is a failure. */
  predicate NoneFailed(script: seq<ReadReply>, k: nat)
    requires k <= |script|
  {
    forall i :: 0 <= i < k ==> !script[i].ReadError?
  }

  lemma NoneFailedStep(script: seq<ReadReply>, k: nat)
    requires k < |script|
    ensures NoneFailed(script, k + 1) <==> !script[0].ReadError? && NoneFailed(script[1..], k)
  {
    var rest := script[1..];
    if NoneFailed(script, k + 1) {
      forall i | 0 <= i < k
        ensures !rest[i].ReadError?
      {
        assert rest[i] == script[i + 1];
      }
    }
    if !script[0].ReadError? && NoneFailed(rest, k) {
      forall i | 0 <= i < k + 1
        ensures !script[i].ReadError?
      {
        assert i > 0 ==> script[i] == rest[i - 1];
      }
    }
  }

  /** The loop got all it wanted, or all there was, and stopped short of both exactly when
      a reply it used up was a failure. */
  predicate ReadFacts(r: Got, script: seq<ReadReply>, count: nat, avail: nat) {
    && r.done <= count && r.done <= avail
    && (r.ending.Full? ==> r.done == count)
    && (r.ending.EndOfFile? ==> r.done == avail < count)
    && (r.ending.Broken? ==> r.done < count)
    && |r.rest| <= |script| && r.rest == script[|script| - |r.rest|..]
    && (r.ending.Broken? <==> !NoneFailed(script, |script| - |r.rest|))
  }

  /** The run `r` with a read of `n` bytes before it. */
  function AfterRead(n: nat, r: Got): Got {
    Got(n + r.done, r.rest, r.ending)
  }

  /** One more reply in front, which delivered `n` bytes. */
  lemma ReadOneMore(r: Got, script: seq<ReadReply>, n: nat, count: nat, avail: nat)
    requires ReadFacts(r, Rest(script), count, avail) && (script != [] ==> !script[0].ReadError?)
    ensures ReadFacts(AfterRead(n, r), script, n + count, n + avail)
  {
    if script != [] {
      NoneFailedStep(script, |script| - 1 - |r.rest|);
      assert r.rest == script[|script| - |r.rest|..];
    }
  }

  lemma ReadStops(script: seq<ReadReply>, count: nat, avail: nat)
    requires count > 0 && var o := ReadOutcome(script, count, avail); o.Error? || o == Bytes(0)
    ensures ReadFacts(ReadRun(script, count, avail), script, count, avail)
  {
    if script != [] {
      NoneFailedStep(script, 0);
    }
  }

  lemma ReadUnfolds(script: seq<ReadReply>, count: nat, avail: nat) returns (n: nat)
    requires count > 0 && var o := ReadOutcome(script, count, avail); !o.Error? && o != Bytes(0)
    ensures n <= count && n <= avail && (script != [] ==> !script[0].ReadError?)
    ensures |Rest(script)| + (count - n) < |script| + count
    ensures ReadRun(script, count, avail) == AfterRead(n, ReadRun(Rest(script), count - n, avail - n))
  {
    var o := ReadOutcome(script, count, avail);
    n := if o.Bytes? then o.n else 0;
  }

  /** That holds of every such loop. */
  lemma {:induction false} ReadRunExact(script: seq<ReadReply>, count: nat, avail: nat)
    ensures ReadFacts(ReadRun(script, count, avail), script, count, avail)
    decreases |script| + count
  {
    if count > 0 {
      var o := ReadOutcome(script, count, avail);
      if o.Error? || o == Bytes(0) {
        ReadStops(script, count, avail);
      } else {
        var n := ReadUnfolds(script, count, avail);
        ReadRunExact(Rest(script), count - n, avail - n);
        ReadOneMore(ReadRun(Rest(script), count - n, avail - n), script, n, count - n, avail - n);
      }
    }
  }

  /** `p` bytes of `all` have arrived at the front of the buffer, the rest is still there. */
  ghost predicate Arrived(src: Source, buf: array<byte>, all: seq<byte>, p: nat)
    reads src, buf
  {
    p <= buf.Length && buf[..p] + src.left == all
  }

  predicate OnwardRead(g: Got, done: nat, g': Got) {
    g.done == done + g'.done && g.rest == g'.rest && g.ending == g'.ending
  }

  /** In the middle of a read loop: `want` more bytes are wanted, and the run from here
      on completes `g`. */
  ghost predicate Reading(src: Source, buf: array<byte>, all: seq<byte>, p: nat, want: nat, g: Got)
    reads src, buf
  {
    Arrived(src, buf, all, p) && OnwardRead(g, p, ReadRun(src.script, want, |src.left|))
  }

  /** One read of such a loop. */
  method ReadMore(src: Source, buf: array<byte>, p: nat, want: nat, ghost all: seq<byte>, ghost g: Got)
    returns (o: Outcome)
    requires want > 0 && p + want <= buf.Length && Reading(src, buf, all, p, want, g)
    modifies src, buf
    ensures o.Eintr? ==> Reading(src, buf, all, p, want, g) && |src.script| < |old(src.script)|
    ensures o.Error? ==> Arrived(src, buf, all, p) && g == Got(p, src.script, Broken)
    ensures o.Bytes? && o.n == 0 ==> Arrived(src, buf, all, p) && g == Got(p, src.script, EndOfFile)
    ensures o.Bytes? && o.n > 0 ==>
      o.n <= want && Reading(src, buf, all, p + o.n, want - o.n, g) && |src.script| <= |old(src.script)|
  {
    ghost var left := src.left;
    o := src.Read(buf, p, want);
    if o.Bytes? {
      assert buf[..p + o.n] == buf[..p] + buf[p..p + o.n];
      assert left == left[..o.n] + src.left;
    } else {
      assert buf[..p] == buf[..][..p];
    }
  }

  /** `read_all`: the number of bytes read, short only at end of file; -1 on failure. */
  method ReadAll(src: Source, buf: array<byte>, count: nat) returns (r: int)
    requires count <= buf.Length
    modifies src, buf
    ensures var g := ReadRun(old(src.script), count, |old(src.left)|);
      && Arrived(src, buf, old(src.left), g.done)
      && src.script == g.rest
      && r == if g.ending.Broken? then -1 else g.done
  {
    ghost var all := src.left;
    ghost var g := ReadRun(src.script, count, |all|);
    var total: nat, left: nat := 0, count;
    while total < count
      invariant total + left == count && Reading(src, buf, all, total, left, g)
      decreases |src.script| + left
    {
      var n := ReadMore(src, buf, total, left, all, g);
      if n.Eintr? {
        continue;
      }
      if n.Error? {
        return -1;
      }
      if n.n == 0 {
        return total;
      }
      total, left := total + n.n, left - n.n;
    }
    r := total;
  }

  /** `read_full`: exactly `count` bytes or failure; end of file before that is a failure. */
  method ReadFull(src: Source, buf: array<byte>, count: nat) returns (r: int)
    requires count <= buf.Length
    modifies src, buf
    ensures var g := ReadRun(old(src.script), count, |old(src.left)|);
      && Arrived(src, buf, old(src.left), g.done)
      && src.script == g.rest
      && r == if g.ending.Full? then 0 else -1
  {
    ghost var all := src.left;
    ghost var g := ReadRun(src.script, count, |all|);
    var p: nat, left: nat := 0, count;
    while left > 0
      invariant p + left == count && Reading(src, buf, all, p, left, g)
      decreases |src.script| + left
    {
      var n := ReadMore(src, buf, p, left, all, g);
      match n {
        case Eintr =>
          continue;
        case Error =>
          return -1;
        case Bytes(k) =>
          if k == 0 {
            return -1;
          }
          p, left := p + k, left - k;
      }
    }
    r := 0;
  }
}
