/** One connection of the echo server. */
module EchoServer {
  import opened Bytes
  import opened IoCalls
  import ReadLoops
  import opened WriteLoops

  /** `taken` bytes were read and `left` were not, `rest` is what is left of the write
      script and `unread` of the read script, `eof` whether the peer's end was seen. */
  datatype Echoed = Echoed(
    out: seq<byte>, taken: nat, rest: seq<WriteReply>, unread: seq<ReadReply>, left: seq<byte>, eof: bool)

  /** A connection that begins with a buffer of `n` bytes, of which `sent` were echoed. */
  function WithBuffer(sent: seq<byte>, n: nat, r: Echoed): Echoed {
    r.(out := sent + r.out, taken := n + r.taken)
  }

  /** One connection of the echo server. A failing write is reported, the rest of that
      buffer is skipped, and the loop goes on reading. */
  function EchoRun(rs: seq<ReadReply>, ws: seq<WriteReply>, input: seq<byte>, size: nat): Echoed
    requires size > 0
    decreases |rs| + |input|
  {
    match ReadOutcome(rs, size, |input|)
    case Eintr => EchoRun(Rest(rs), ws, input, size)
    case Error => Echoed([], 0, ws, Rest(rs), input, false)
    case Bytes(n) =>
      if n == 0 then Echoed([], 0, ws, Rest(rs), input, true)
      else
        var w := WriteRun(false, ws, n);
        var r := EchoRun(Rest(rs), w.rest, input[n..], size);
        WithBuffer(input[..Min(w.done, n)], n, r)
  }

  /** The echo `e` is what has been read, byte for byte, exactly when no write used up a
      failing reply; otherwise it is shorter. */
  predicate EchoFacts(e: Echoed, ws: seq<WriteReply>, input: seq<byte>) {
    && e.taken <= |input| && (e.eof ==> e.taken == |input|)
    && |e.rest| <= |ws| && e.rest == ws[|ws| - |e.rest|..]
    && (e.out == input[..e.taken] <==> UsedUpSafely(ws, e.rest))
    && (e.out != input[..e.taken] ==> |e.out| < e.taken)
  }

  lemma EchoUnfolds(rs: seq<ReadReply>, ws: seq<WriteReply>, input: seq<byte>, size: nat, n: nat)
    requires size > 0 && ReadOutcome(rs, size, |input|) == Bytes(n) && 0 < n <= |input|
    ensures var w := WriteRun(false, ws, n);
      EchoRun(rs, ws, input, size)
        == WithBuffer(input[..Min(w.done, n)], n, EchoRun(Rest(rs), w.rest, input[n..], size))
  {
  }

  lemma JoinedOutput(input: seq<byte>, n: nat, done: nat, out: seq<byte>, taken: nat)
    requires done <= n <= |input| && taken <= |input| - n
    requires out == input[n..][..taken] || |out| < taken
    ensures var all := input[..done] + out;
      if done == n && out == input[n..][..taken] then all == input[..n + taken] else |all| < n + taken
  {
    assert input[..n + taken] == input[..n] + input[n..][..taken];
  }

  /** The first buffer and the rest of the connection, put together. */
  lemma EchoJoin(ws: seq<WriteReply>, input: seq<byte>, n: nat, w: Written, r: Echoed)
    requires 0 < n <= |input| && w.done <= n
    requires |w.rest| <= |ws| && w.rest == ws[|ws| - |w.rest|..]
    requires (if w.ok then w.done == n else w.done < n) && (w.ok <==> UsedUpSafely(ws, w.rest))
    requires EchoFacts(r, w.rest, input[n..])
    ensures EchoFacts(WithBuffer(input[..Min(w.done, n)], n, r), ws, input)
  {
    UsedUpTwice(ws, w.rest, r.rest);
    JoinedOutput(input, n, w.done, r.out, r.taken);
    assert r.rest == ws[|ws| - |r.rest|..];
  }

  lemma EchoOneMore(ws: seq<WriteReply>, input: seq<byte>, n: nat, r: Echoed)
    requires 0 < n <= |input|
    requires EchoFacts(r, WriteRun(false, ws, n).rest, input[n..])
    ensures var w := WriteRun(false, ws, n); EchoFacts(WithBuffer(input[..Min(w.done, n)], n, r), ws, input)
  {
    FirstBuffer(ws, n);
    EchoJoin(ws, input, n, WriteRun(false, ws, n), r);
  }

  /** That holds of every connection. Interrupted reads and writes and short transfers
      of any size leave no trace. */
  lemma {:induction false} EchoExact(rs: seq<ReadReply>, ws: seq<WriteReply>, input: seq<byte>, size: nat)
    requires size > 0
    ensures EchoFacts(EchoRun(rs, ws, input, size), ws, input)
    decreases |rs| + |input|
  {
    match ReadOutcome(rs, size, |input|)
    case Eintr =>
      EchoExact(Rest(rs), ws, input, size);
    case Error =>
    case Bytes(n) =>
      if n > 0 {
        var w := WriteRun(false, ws, n);
        var r := EchoRun(Rest(rs), w.rest, input[n..], size);
        EchoExact(Rest(rs), w.rest, input[n..], size);
        EchoOneMore(ws, input, n, r);
        EchoUnfolds(rs, ws, input, size, n);
      }
  }

  /** The connection ends at end of file exactly when no read that it used failed:
      interrupted reads do not end it. Up to there everything has been read. */
  predicate EchoReadFacts(e: Echoed, rs: seq<ReadReply>, input: seq<byte>) {
    && |e.unread| <= |rs| && e.unread == rs[|rs| - |e.unread|..]
    && (e.eof <==> ReadLoops.NoneFailed(rs, |rs| - |e.unread|))
    && e.taken <= |input| && e.left == input[e.taken..]
    && (e.eof ==> e.left == [])
  }

  lemma EchoReadsMore(e: Echoed, rs: seq<ReadReply>, input: seq<byte>, n: nat, sent: seq<byte>)
    requires n <= |input| && EchoReadFacts(e, Rest(rs), input[n..]) && (rs != [] ==> !rs[0].ReadError?)
    ensures EchoReadFacts(WithBuffer(sent, n, e), rs, input)
  {
    if rs != [] {
      ReadLoops.NoneFailedStep(rs, |rs| - 1 - |e.unread|);
      assert e.unread == rs[|rs| - |e.unread|..];
    }
    assert e.left == input[n + e.taken..];
  }

  lemma EchoReadsEnd(rs: seq<ReadReply>, ws: seq<WriteReply>, input: seq<byte>, size: nat)
    requires size > 0 && var o := ReadOutcome(rs, size, |input|); o.Error? || o == Bytes(0)
    ensures EchoReadFacts(EchoRun(rs, ws, input, size), rs, input)
  {
    if rs != [] {
      ReadLoops.NoneFailedStep(rs, 0);
    }
  }

  /** That holds of every connection, whatever becomes of its writes. */
  lemma {:induction false} EchoReads(rs: seq<ReadReply>, ws: seq<WriteReply>, input: seq<byte>, size: nat)
    requires size > 0
    ensures EchoReadFacts(EchoRun(rs, ws, input, size), rs, input)
    decreases |rs| + |input|
  {
    var o := ReadOutcome(rs, size, |input|);
    if o.Error? || o == Bytes(0) {
      EchoReadsEnd(rs, ws, input, size);
    } else if o.Eintr? {
      EchoReads(Rest(rs), ws, input, size);
      var r := EchoRun(Rest(rs), ws, input, size);
      assert input[0..] == input && [] + r.out == r.out;
      EchoReadsMore(r, rs, input, 0, []);
      assert WithBuffer([], 0, r) == r;
    } else {
      var w := WriteRun(false, ws, o.n);
      EchoReads(Rest(rs), w.rest, input[o.n..], size);
      EchoReadsMore(EchoRun(Rest(rs), w.rest, input[o.n..], size), rs, input, o.n, input[..Min(w.done, o.n)]);
      EchoUnfolds(rs, ws, input, size, o.n);
    }
  }

  predicate NoWriteTrouble(ws: seq<WriteReply>) {
    forall i :: 0 <= i < |ws| ==> !ws[i].WriteError?
  }

  /** With writes that at worst are interrupted or short, the peer gets back all it sent,
      and at no moment has it got anything else: of a sink that only ever grew, every
      earlier content is a beginning of the input too. */
  lemma {:induction false} EchoFaithful(rs: seq<ReadReply>, ws: seq<WriteReply>, input: seq<byte>, size: nat,
                                            history: seq<seq<byte>>)
    requires size > 0 && NoWriteTrouble(ws) && AllPrefixes(history, EchoRun(rs, ws, input, size).out)
    ensures var e := EchoRun(rs, ws, input, size); Prefix(e.out, input) && (e.eof ==> e.out == input)
    ensures AllPrefixes(history, input)
  {
    EchoExact(rs, ws, input, size);
    var e := EchoRun(rs, ws, input, size);
    assert UsedUpSafely(ws, e.rest);
    forall i | 0 <= i < |history|
      ensures Prefix(history[i], input)
    {
      assert history[i] == e.out[..|history[i]|] == input[..|history[i]|];
    }
  }

  predicate NoReadTrouble(rs: seq<ReadReply>) {
    forall i :: 0 <= i < |rs| ==> !rs[i].ReadError?
  }

  /** When no read and no write fails the connection ends at end of file, with all of the
      input read and echoed. */
  lemma {:induction false} EchoesAll(rs: seq<ReadReply>, ws: seq<WriteReply>, input: seq<byte>, size: nat)
    requires size > 0 && NoReadTrouble(rs) && NoWriteTrouble(ws)
    ensures var e := EchoRun(rs, ws, input, size); e.eof && e.left == [] && e.out == input
  {
    EchoReads(rs, ws, input, size);
    EchoFaithful(rs, ws, input, size, []);
  }

  /** A failing write leaves a gap: here the echo is not even a prefix of the input. */
  lemma {:induction false} EchoGap()
    ensures var e := EchoRun([], [WriteError], [1, 2, 3, 4], 2);
      e.eof && e.out == [3, 4] && !Prefix(e.out, [1, 2, 3, 4])
  {
    var input: seq<byte> := [1, 2, 3, 4];
    assert input[..2][0] == 1;
    var rest := EchoRun([], [], [3, 4], 2);
    assert [1, 2, 3, 4][2..] == [3, 4];
    assert [3, 4][2..] == [];
    assert EchoRun([], [], [], 2).out == [];
    assert rest.out == [3, 4];
  }

  /** The loop has ended at a failing write. */
  predicate Skipped(w: Written, off: nat, n: nat, script: seq<WriteReply>) {
    off == n && w.done < n && w.rest == script
  }

  /** The inner loop: one buffer of `n` bytes back to the peer. */
  method EchoBuffer(out: Sink, buf: array<byte>, n: nat)
    requires n <= buf.Length
    modifies out
    ensures var w := WriteRun(false, old(out.script), n);
      && w.done <= n
      && out.written == old(out.written) + buf[..w.done]
      && out.script == w.rest
    ensures old(out.Growing()) ==> out.Growing()
  {
    WriteRunCounts(false, out.script, n);
    ghost var w := WriteRun(false, out.script, n);
    var off: nat := 0;
    while off < n
      invariant off <= n
      invariant old(out.Growing()) ==> out.Growing()
      invariant if Skipped(w, off, n, out.script) then out.written == old(out.written) + buf[..w.done]
                else
                  && out.written == old(out.written) + buf[..off]
                  && OnwardWrite(w, off, WriteRun(false, out.script, n - off))
      decreases n - off + |out.script|
    {
      var o := WriteBehind(out, buf, off, n - off, false, old(out.written));
      match o {
        case Eintr =>
          continue;
        case Error =>
          off := n;
          break;
        case Bytes(k) =>
          off := off + k;
      }
    }
  }

  /** What the connection will leave behind. */
  ghost predicate EchoEnds(src: Source, out: Sink, size: nat, end: Echoed)
    requires size > 0
    reads src, out
  {
    var e := EchoRun(src.script, out.script, src.left, size);
    end == e.(out := out.written + e.out, taken := end.taken)
  }

  /** The connection is over, and has left that behind. */
  ghost predicate EchoEnded(src: Source, out: Sink, end: Echoed)
    reads src, out
  {
    && out.written == end.out && out.script == end.rest
    && src.script == end.unread && src.left == end.left
  }

  lemma EchoNext(rs: seq<ReadReply>, ws: seq<WriteReply>, input: seq<byte>, size: nat, n: nat,
                 written: seq<byte>, end: seq<byte>)
    requires size > 0 && 0 < n <= |input| && ReadOutcome(rs, size, |input|) == Bytes(n)
    requires end == written + EchoRun(rs, ws, input, size).out
    ensures var w := WriteRun(false, ws, n);
      var e, r := EchoRun(rs, ws, input, size), EchoRun(Rest(rs), w.rest, input[n..], size);
      && w.done <= n && end == written + input[..w.done] + r.out
      && e.(out := [], taken := 0) == r.(out := [], taken := 0)
  {
    WriteRunCounts(false, ws, n);
  }

  /** One round of the connection's loop; the result says whether to go on. */
  method EchoOnce(src: Source, out: Sink, buf: array<byte>, ghost end: Echoed) returns (going: bool)
    requires buf.Length > 0 && EchoEnds(src, out, buf.Length, end)
    modifies src, out, buf
    ensures going ==>
      && EchoEnds(src, out, buf.Length, end)
      && |src.script| + |src.left| < |old(src.script)| + |old(src.left)|
    ensures !going ==> EchoEnded(src, out, end)
    ensures old(out.Growing()) ==> out.Growing()
  {
    ghost var rs, ws, input, written := src.script, out.script, src.left, out.written;
    var o := src.Read(buf, 0, buf.Length);
    if o.Eintr? {
      return true;
    }
    if o.Error? || o.n == 0 {
      return false;
    }
    assert buf[..o.n] == buf[0..o.n] == input[..o.n];
    EchoNext(rs, ws, input, buf.Length, o.n, written, end.out);
    ghost var done := WriteRun(false, ws, o.n).done;
    assert buf[..done] == buf[..o.n][..done] == input[..done];
    EchoBuffer(out, buf, o.n);
    assert out.written == written + input[..done];
    return true;
  }

  /** The loop of one connection. Interruptions and short transfers do not show: when no
      read and no write fails, all that the peer sent has been read and sent back. */
  method EchoConnection(src: Source, out: Sink, size: nat)
    requires size > 0
    modifies src, out
    ensures var e := EchoRun(old(src.script), old(out.script), old(src.left), size);
      && out.written == old(out.written) + e.out && out.script == e.rest
      && src.script == e.unread && src.left == e.left
    ensures NoReadTrouble(old(src.script)) && NoWriteTrouble(old(out.script)) ==>
      src.left == [] && out.written == old(out.written) + old(src.left)
    ensures old(out.Growing()) ==> out.Growing()
    ensures old(out.Growing()) && old(out.written) == [] && NoWriteTrouble(old(out.script)) ==>
      AllPrefixes(out.history, old(src.left))
  {
    ghost var rs, ws, input, unused := src.script, out.script, src.left, out.Growing() && out.written == [];
    ghost var e := EchoRun(src.script, out.script, src.left, size);
    ghost var end := e.(out := out.written + e.out);
    var buf := new byte[size];
    var going := true;
    while going
      invariant if going then EchoEnds(src, out, size, end) else EchoEnded(src, out, end)
      invariant old(out.Growing()) ==> out.Growing()
      decreases going, |src.script| + |src.left|
    {
      going := EchoOnce(src, out, buf, end);
    }
    if NoWriteTrouble(ws) {
      if NoReadTrouble(rs) {
        EchoesAll(rs, ws, input, size);
      }
      if unused {
        assert [] + e.out == e.out;
        EchoFaithful(rs, ws, input, size, out.history);
      }
    }
  }
}
