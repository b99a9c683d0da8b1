/** The copy program. */
module FileCopy {
  import opened Bytes
  import opened IoCalls
  import opened WriteLoops

  /** `rs` and `ws` are what is left of the scripts. */
  datatype Copied = Copied(out: seq<byte>, ok: bool, rs: seq<ReadReply>, ws: seq<WriteReply>)

  /** The copy program: read a buffer full, write it all, until end of file. A read that
      is interrupted ends it like any other failed read: only writes are retried. */
  function CopyRun(rs: seq<ReadReply>, ws: seq<WriteReply>, input: seq<byte>, size: nat): Copied
    requires size > 0
    decreases |input|
  {
    match ReadOutcome(rs, size, |input|)
    case Eintr => Copied([], false, Rest(rs), ws)
    case Error => Copied([], false, Rest(rs), ws)
    case Bytes(n) =>
      if n == 0 then Copied([], true, Rest(rs), ws)
      else
        var w := WriteRun(false, ws, n);
        if !w.ok then Copied(input[..Min(w.done, n)], false, Rest(rs), w.rest)
        else
          var r := CopyRun(Rest(rs), w.rest, input[n..], size);
          Copied(input[..n] + r.out, r.ok, r.rs, r.ws)
  }

  /** The run `c` with `sent` before it. */
  function After(sent: seq<byte>, c: Copied): Copied {
    c.(out := sent + c.out)
  }

  lemma PrefixGrows(input: seq<byte>, n: nat, out: seq<byte>)
    requires n <= |input| && Prefix(out, input[n..])
    ensures Prefix(input[..n] + out, input)
    ensures out == input[n..] ==> input[..n] + out == input
  {
    assert input[..n + |out|] == input[..n] + input[n..][..|out|];
  }

  /** On success the destination equals the source; on any failure it is a prefix of it.
      No short read, short write or interrupted write can make it anything else. */
  lemma {:induction false} CopyExact(rs: seq<ReadReply>, ws: seq<WriteReply>, input: seq<byte>, size: nat)
    requires size > 0
    ensures var r := CopyRun(rs, ws, input, size); Prefix(r.out, input) && (r.ok ==> r.out == input)
    decreases |input|
  {
    var o := ReadOutcome(rs, size, |input|);
    if o.Bytes? && o.n > 0 {
      WriteRunCounts(false, ws, o.n);
      var w := WriteRun(false, ws, o.n);
      if w.ok {
        CopyExact(Rest(rs), w.rest, input[o.n..], size);
        PrefixGrows(input, o.n, CopyRun(Rest(rs), w.rest, input[o.n..], size).out);
      }
    }
  }

  /** Down to `rest` no read was interrupted and none failed. */
  predicate ReadsSmooth(rs: seq<ReadReply>, rest: seq<ReadReply>)
    requires |rest| <= |rs|
  {
    forall i :: 0 <= i < |rs| - |rest| ==> rs[i].Deliver?
  }

  lemma ReadsSmoothStep(rs: seq<ReadReply>, rest: seq<ReadReply>)
    requires |rest| <= |Rest(rs)| && (rs != [] ==> rs[0].Deliver?)
    ensures ReadsSmooth(rs, rest) <==> ReadsSmooth(Rest(rs), rest)
  {
    if rs != [] {
      var rs' := rs[1..];
      if ReadsSmooth(rs', rest) {
        forall i | 0 <= i < |rs| - |rest|
          ensures rs[i].Deliver?
        {
          assert i > 0 ==> rs[i] == rs'[i - 1];
        }
      }
      if ReadsSmooth(rs, rest) {
        forall i | 0 <= i < |rs'| - |rest|
          ensures rs'[i].Deliver?
        {
          assert rs'[i] == rs[i + 1];
        }
      }
    }
  }

  lemma SuffixOfSuffix<T>(whole: seq<T>, mid: seq<T>, rest: seq<T>)
    requires |rest| <= |mid| <= |whole| && mid == whole[|whole| - |mid|..] && rest == mid[|mid| - |rest|..]
    ensures rest == whole[|whole| - |rest|..]
  {
  }

  /** The copy `c` succeeded exactly when no reply that it used was a failing write, a
      failing read or an interrupted read: writes are retried, reads are not. */
  predicate CopyFacts(c: Copied, rs: seq<ReadReply>, ws: seq<WriteReply>) {
    && |c.rs| <= |rs| && c.rs == rs[|rs| - |c.rs|..]
    && |c.ws| <= |ws| && c.ws == ws[|ws| - |c.ws|..]
    && (c.ok <==> ReadsSmooth(rs, c.rs) && UsedUpSafely(ws, c.ws))
  }

  lemma CopyOneMore(rs: seq<ReadReply>, ws: seq<WriteReply>, mid: seq<WriteReply>, c: Copied)
    requires (rs != [] ==> rs[0].Deliver?) && CopyFacts(c, Rest(rs), mid)
    requires |mid| <= |ws| && mid == ws[|ws| - |mid|..] && UsedUpSafely(ws, mid)
    ensures CopyFacts(c, rs, ws)
  {
    SuffixOfSuffix(rs, Rest(rs), c.rs);
    SuffixOfSuffix(ws, mid, c.ws);
    ReadsSmoothStep(rs, c.rs);
    UsedUpTwice(ws, mid, c.ws);
  }

  lemma CopyFactsOfOutput(c: Copied, out: seq<byte>, rs: seq<ReadReply>, ws: seq<WriteReply>)
    requires CopyFacts(c, rs, ws)
    ensures CopyFacts(c.(out := out), rs, ws)
  {
  }

  lemma CopyUnfolds(rs: seq<ReadReply>, ws: seq<WriteReply>, input: seq<byte>, size: nat, n: nat)
    requires size > 0 && ReadOutcome(rs, size, |input|) == Bytes(n) && 0 < n <= |input|
    ensures var w := WriteRun(false, ws, n); var c := CopyRun(rs, ws, input, size);
      if w.ok then c == After(input[..n], CopyRun(Rest(rs), w.rest, input[n..], size))
      else c == Copied(input[..Min(w.done, n)], false, Rest(rs), w.rest)
  {
  }

  /** The last read of a run: end of file, a failure or an interruption. */
  lemma CopyStops(rs: seq<ReadReply>, ws: seq<WriteReply>, input: seq<byte>, size: nat)
    requires size > 0 && var o := ReadOutcome(rs, size, |input|); o.Bytes? ==> o.n == 0
    ensures CopyFacts(CopyRun(rs, ws, input, size), rs, ws)
  {
    assert |rs| - |Rest(rs)| == Min(1, |rs|);
  }

  /** The last write of a run that fails in writing. */
  lemma CopyBreaks(rs: seq<ReadReply>, ws: seq<WriteReply>, rest: seq<WriteReply>, out: seq<byte>)
    requires |rest| <= |ws| && rest == ws[|ws| - |rest|..] && !UsedUpSafely(ws, rest)
    ensures CopyFacts(Copied(out, false, Rest(rs), rest), rs, ws)
  {
  }

  lemma CopyGoesOn(rs: seq<ReadReply>, ws: seq<WriteReply>, input: seq<byte>, size: nat, n: nat)
    requires size > 0 && ReadOutcome(rs, size, |input|) == Bytes(n) && 0 < n <= |input|
    requires var w := WriteRun(false, ws, n);
      w.ok ==> CopyFacts(CopyRun(Rest(rs), w.rest, input[n..], size), Rest(rs), w.rest)
    ensures CopyFacts(CopyRun(rs, ws, input, size), rs, ws)
  {
    var w := WriteRun(false, ws, n);
    CopyUnfolds(rs, ws, input, size, n);
    FirstBuffer(ws, n);
    if w.ok {
      var c := CopyRun(Rest(rs), w.rest, input[n..], size);
      CopyOneMore(rs, ws, w.rest, c);
      CopyFactsOfOutput(c, input[..n] + c.out, rs, ws);
    } else {
      CopyBreaks(rs, ws, w.rest, input[..Min(w.done, n)]);
    }
  }

  /** That holds of every run of the copy program. */
  lemma {:induction false} CopySucceedsIff(rs: seq<ReadReply>, ws: seq<WriteReply>, input: seq<byte>, size: nat)
    requires size > 0
    ensures CopyFacts(CopyRun(rs, ws, input, size), rs, ws)
    decreases |input|
  {
    var o := ReadOutcome(rs, size, |input|);
    if o.Bytes? && o.n > 0 {
      var w := WriteRun(false, ws, o.n);
      CopySucceedsIff(Rest(rs), w.rest, input[o.n..], size);
      CopyGoesOn(rs, ws, input, size, o.n);
    } else {
      CopyStops(rs, ws, input, size);
    }
  }

  /** For instance, whenever the source is longer than the buffer, a signal during the
      second read leaves the copy cut off after the first buffer. */
  lemma {:induction false} InterruptedReadCutsCopy(input: seq<byte>, size: nat)
    requires 0 < size < |input|
    ensures var rs := [Deliver(size), ReadEintr]; CopyRun(rs, [], input, size) == Copied(input[..size], false, [], [])
  {
    var rs := [Deliver(size), ReadEintr];
    assert rs[1..] == [ReadEintr] && [ReadEintr][1..] == [];
    assert CopyRun([ReadEintr], [], input[size..], size) == Copied([], false, [], []);
    assert WriteRun(false, [], size) == Written(size, [], true);
    assert input[..size] + [] == input[..size];
  }

  /** After a read that returned `n`: what has been sent, and what the rest of the run
      will send, make up `c`. */
  ghost predicate CopyFrom(n: Outcome, buf: seq<byte>, ws: seq<WriteReply>, rs: seq<ReadReply>, left: seq<byte>,
                           size: nat, sent: seq<byte>, c: Copied)
    requires size > 0 && |buf| == size && (n.Bytes? ==> n.n <= size)
  {
    match n
    case Eintr => c == Copied(sent, false, rs, ws)
    case Error => c == Copied(sent, false, rs, ws)
    case Bytes(k) =>
      if k == 0 then c == Copied(sent, true, rs, ws)
      else
        var w := WriteRun(false, ws, k);
        if !w.ok then c == Copied(sent + buf[..Min(w.done, k)], false, rs, w.rest)
        else c == After(sent + buf[..k], CopyRun(rs, w.rest, left, size))
  }

  lemma CopyStarts(rs: seq<ReadReply>, ws: seq<WriteReply>, input: seq<byte>, size: nat, buf: seq<byte>)
    requires size > 0 && |buf| == size
    requires var n := ReadOutcome(rs, size, |input|); n.Bytes? ==> buf[..n.n] == input[..n.n]
    ensures var n := ReadOutcome(rs, size, |input|);
      CopyFrom(n, buf, ws, Rest(rs), if n.Bytes? then input[n.n..] else input, size, [], CopyRun(rs, ws, input, size))
  {
    var n := ReadOutcome(rs, size, |input|);
    if n.Bytes? && n.n > 0 {
      WriteRunCounts(false, ws, n.n);
      var w := WriteRun(false, ws, n.n);
      assert input[..w.done] == buf[..w.done];
      assert [] + buf[..n.n] == buf[..n.n] && [] + buf[..w.done] == buf[..w.done];
    }
  }

  /** The run continued from `sent` instead of from nothing. */
  lemma CopyShift(n: Outcome, buf: seq<byte>, ws: seq<WriteReply>, rs: seq<ReadReply>, left: seq<byte>,
                  size: nat, sent: seq<byte>, c: Copied)
    requires size > 0 && |buf| == size && (n.Bytes? ==> n.n <= size)
    requires CopyFrom(n, buf, ws, rs, left, size, [], c)
    ensures CopyFrom(n, buf, ws, rs, left, size, sent, After(sent, c))
  {
    if n.Bytes? && n.n > 0 {
      var w := WriteRun(false, ws, n.n);
      if w.ok {
        assert sent + ([] + buf[..n.n] + CopyRun(rs, w.rest, left, size).out)
            == sent + buf[..n.n] + CopyRun(rs, w.rest, left, size).out;
      }
    }
  }

  /** The call of read(2) in the copy loop. */
  method ReadForCopy(src: Source, ghost out: Sink, buf: array<byte>, ghost end: Copied) returns (n: Outcome)
    requires buf.Length > 0
    requires end == After(out.written, CopyRun(src.script, out.script, src.left, buf.Length))
    modifies src, buf
    ensures n.Bytes? ==> n.n <= buf.Length && |src.left| + n.n == |old(src.left)|
    ensures !n.Bytes? ==> src.left == old(src.left)
    ensures CopyFrom(n, buf[..], out.script, src.script, src.left, buf.Length, out.written, end)
  {
    ghost var rs, input := src.script, src.left;
    n := src.Read(buf, 0, buf.Length);
    assert n.Bytes? ==> buf[..][..n.n] == buf[0..n.n];
    CopyStarts(rs, out.script, input, buf.Length, buf[..]);
    CopyShift(n, buf[..], out.script, src.script, src.left, buf.Length, out.written,
      CopyRun(rs, out.script, input, buf.Length));
  }

  /** The call of `write_all` in the copy loop. `end` is what the whole program leaves behind. */
  method WriteForCopy(ghost src: Source, out: Sink, buf: array<byte>, k: nat, ghost end: Copied) returns (r: int)
    requires 0 < k <= buf.Length
    requires CopyFrom(Bytes(k), buf[..], out.script, src.script, src.left, buf.Length, out.written, end)
    modifies out
    ensures r == -1 ==> end == Copied(out.written, false, src.script, out.script)
    ensures r != -1 ==> end == After(out.written, CopyRun(src.script, out.script, src.left, buf.Length))
  {
    WriteRunCounts(false, out.script, k);
    r := WriteAll(out, buf, k);
  }

  method Copy(src: Source, out: Sink, size: nat, closeIn: bool, closeOut: bool) returns (code: int)
    requires size > 0
    modifies src, out
    ensures var c := CopyRun(old(src.script), old(out.script), old(src.left), size);
      && out.written == old(out.written) + c.out
      && src.script == c.rs && out.script == c.ws
      && code == if c.ok && closeIn && closeOut then 0 else 1
  {
    ghost var end := After(out.written, CopyRun(src.script, out.script, src.left, size));
    var buf := new byte[size];
    var n := ReadForCopy(src, out, buf, end);
    while n.Bytes? && n.n > 0
      invariant n.Bytes? ==> n.n <= size
      invariant CopyFrom(n, buf[..], out.script, src.script, src.left, size, out.written, end)
      decreases |src.left| + if n.Bytes? then n.n else 0
    {
      var r := WriteForCopy(src, out, buf, n.n, end);
      if r == -1 {
        return 1;
      }
      n := ReadForCopy(src, out, buf, end);
    }
    if !n.Bytes? || !closeIn || !closeOut {
      return 1;
    }
    code := 0;
  }
}
