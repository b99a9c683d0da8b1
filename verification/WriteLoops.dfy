/** The loops that write a whole buffer. */
module WriteLoops {
  import opened Bytes
  import opened IoCalls

  /** `done` bytes were accepted, `rest` is the script left, `ok` whether the loop
      finished without a failure. */
  datatype Written = Written(done: nat, rest: seq<WriteReply>, ok: bool)

  /** A write loop over `count` bytes. An accepted count of zero is either tried again
      or, when `zeroFails`, taken for an error. */
  function WriteRun(zeroFails: bool, script: seq<WriteReply>, count: nat): Written
    decreases |script|
  {
    if count == 0 then Written(0, script, true)
    else if script == [] then Written(count, [], true)
    else match WriteOutcome(script, count)
      case Eintr => WriteRun(zeroFails, script[1..], count)
      case Error => Written(0, script[1..], false)
      case Bytes(n) =>
        if n == 0 && zeroFails then Written(0, script[1..], false)
        else
          var r := WriteRun(zeroFails, script[1..], count - n);
          Written(n + r.done, r.rest, r.ok)
  }

  /** The loop writes everything or stops short of the end at a failure. */
  lemma {:induction false} WriteRunCounts(zeroFails: bool, script: seq<WriteReply>, count: nat)
    ensures var r := WriteRun(zeroFails, script, count);
      |r.rest| <= |script| && if r.ok then r.done == count else r.done < count
    decreases |script|
  {
    if count > 0 && script != [] {
      var o := WriteOutcome(script, count);
      WriteRunCounts(zeroFails, script[1..], if o.Bytes? then count - o.n else count);
    }
  }

  predicate Fatal(zeroFails: bool, reply: WriteReply) {
    reply.WriteError? || (zeroFails && reply == Accept(0))
  }

  /** None of the first `k` replies is fatal. */
  predicate NoneFatal(zeroFails: bool, script: seq<WriteReply>, k: nat)
    requires k <= |script|
  {
    forall i :: 0 <= i < k ==> !Fatal(zeroFails, script[i])
  }

  lemma NoneFatalStep(zeroFails: bool, script: seq<WriteReply>, k: nat)
    requires k < |script|
    ensures NoneFatal(zeroFails, script, k + 1) <==>
      !Fatal(zeroFails, script[0]) && NoneFatal(zeroFails, script[1..], k)
  {
    var rest := script[1..];
    if NoneFatal(zeroFails, script, k + 1) {
      forall i | 0 <= i < k
        ensures !Fatal(zeroFails, rest[i])
      {
        assert rest[i] == script[i + 1];
      }
    }
    if !Fatal(zeroFails, script[0]) && NoneFatal(zeroFails, rest, k) {
      forall i | 0 <= i < k + 1
        ensures !Fatal(zeroFails, script[i])
      {
        assert i > 0 ==> script[i] == rest[i - 1];
      }
    }
  }

  /** It fails exactly when a reply it used up was fatal. Interruptions and short writes
      do not show. */
  lemma {:induction false} WriteRunExact(zeroFails: bool, script: seq<WriteReply>, count: nat)
    ensures var r := WriteRun(zeroFails, script, count);
      && |r.rest| <= |script| && r.rest == script[|script| - |r.rest|..]
      && (r.ok <==> NoneFatal(zeroFails, script, |script| - |r.rest|))
    decreases |script|
  {
    if count > 0 && script != [] {
      if Fatal(zeroFails, script[0]) {
        NoneFatalStep(zeroFails, script, 0);
      } else {
        var o := WriteOutcome(script, count);
        var left := if o.Bytes? then count - o.n else count;
        WriteRunExact(zeroFails, script[1..], left);
        NoneFatalStep(zeroFails, script, |script| - 1 - |WriteRun(zeroFails, script[1..], left).rest|);
      }
    }
  }

  /** `w` is the run that goes on like `w'` after `done` bytes. */
  predicate OnwardWrite(w: Written, done: nat, w': Written) {
    w.done == done + w'.done && w.rest == w'.rest && w.ok == w'.ok
  }

  /** How a write with outcome `o` continues a run. */
  predicate WriteStep(zeroFails: bool, script: seq<WriteReply>, count: nat, o: Outcome, script': seq<WriteReply>)
    requires o.Bytes? ==> o.n <= count
  {
    var w := WriteRun(zeroFails, script, count);
    match o
    case Eintr => OnwardWrite(w, 0, WriteRun(zeroFails, script', count)) && |script'| < |script|
    case Error => w == Written(0, script', false)
    case Bytes(n) =>
      if n == 0 && zeroFails then w == Written(0, script', false)
      else
        && OnwardWrite(w, n, WriteRun(zeroFails, script', count - n))
        && (|script'| < |script| || (n == count && script' == script))
  }

  /** One write of what is left of a buffer after `p` bytes. `start` is what the sink
      held before the buffer. */
  method WriteBehind(out: Sink, buf: array<byte>, p: nat, count: nat, ghost zeroFails: bool, ghost start: seq<byte>)
    returns (o: Outcome)
    requires count > 0 && p + count <= buf.Length
    requires out.written == start + buf[..p]
    modifies out
    ensures o.Bytes? ==> o.n <= count
    ensures out.written == start + buf[..p + if o.Bytes? then o.n else 0]
    ensures WriteStep(zeroFails, old(out.script), count, o, out.script)
    ensures old(out.Growing()) ==> out.Growing()
  {
    o := out.Write(buf, p, count);
    var n := if o.Bytes? then o.n else 0;
    assert buf[..p + n] == buf[..p] + buf[p..p + n];
  }

  /** `write_all` of the copy program: an accepted count of zero is just tried again. */
  method WriteAll(out: Sink, buf: array<byte>, count: nat) returns (r: int)
    requires count <= buf.Length
    modifies out
    ensures var w := WriteRun(false, old(out.script), count);
      && w.done <= count
      && out.written == old(out.written) + buf[..w.done]
      && out.script == w.rest
      && r == if w.ok then 0 else -1
  {
    WriteRunCounts(false, out.script, count);
    ghost var w := WriteRun(false, out.script, count);
    var p: nat, left: nat := 0, count;
    while left > 0
      invariant p + left == count
      invariant out.written == old(out.written) + buf[..p]
      invariant OnwardWrite(w, p, WriteRun(false, out.script, left))
      decreases left + |out.script|
    {
      var n := WriteBehind(out, buf, p, left, false, old(out.written));
      match n {
        case Eintr =>
          continue;
        case Error =>
          return -1;
        case Bytes(k) =>
          p, left := p + k, left - k;
      }
    }
    r := 0;
  }

  /** `write_all` of the chapter: an accepted count of zero is an error. */
  method WriteAllStrict(out: Sink, buf: array<byte>, count: nat) returns (r: int)
    requires count <= buf.Length
    modifies out
    ensures var w := WriteRun(true, old(out.script), count);
      && w.done <= count
      && out.written == old(out.written) + buf[..w.done]
      && out.script == w.rest
      && r == if w.ok then 0 else -1
  {
    WriteRunCounts(true, out.script, count);
    ghost var w := WriteRun(true, out.script, count);
    var p: nat, left: nat := 0, count;
    while left > 0
      invariant p + left == count
      invariant out.written == old(out.written) + buf[..p]
      invariant OnwardWrite(w, p, WriteRun(true, out.script, left))
      decreases left + |out.script|
    {
      var n := WriteBehind(out, buf, p, left, true, old(out.written));
      match n {
        case Eintr =>
          continue;
        case Error =>
          return -1;
        case Bytes(k) =>
          if k == 0 {
            return -1;
          }
          p, left := p + k, left - k;
      }
    }
    r := 0;
  }

  /** `RETRY_ON_EINTR` around the write of `write_full`. */
  method WriteRetrying(out: Sink, buf: array<byte>, p: nat, count: nat, ghost start: seq<byte>) returns (o: Outcome)
    requires count > 0 && p + count <= buf.Length
    requires out.written == start + buf[..p]
    modifies out
    ensures !o.Eintr?
    ensures o.Bytes? ==> o.n <= count
    ensures out.written == start + buf[..p + if o.Bytes? then o.n else 0]
    ensures WriteStep(false, old(out.script), count, o, out.script)
  {
    o := WriteBehind(out, buf, p, count, false, start);
    while o.Eintr?
      invariant o.Bytes? ==> o.n <= count
      invariant out.written == start + buf[..p + if o.Bytes? then o.n else 0]
      invariant WriteStep(false, old(out.script), count, o, out.script)
      decreases o.Eintr?, |out.script|
    {
      o := WriteBehind(out, buf, p, count, false, start);
    }
  }

  /** `write_full`: the retry loop inside the write loop does the same as `write_all`,
      apart from the value returned. */
  method WriteFull(out: Sink, buf: array<byte>, count: nat) returns (r: int)
    requires count <= buf.Length
    modifies out
    ensures var w := WriteRun(false, old(out.script), count);
      && w.done <= count
      && out.written == old(out.written) + buf[..w.done]
      && out.script == w.rest
      && r == if w.ok then count else -1
  {
    WriteRunCounts(false, out.script, count);
    ghost var w := WriteRun(false, out.script, count);
    var p: nat, left: nat := 0, count;
    while left > 0
      invariant p + left == count
      invariant out.written == old(out.written) + buf[..p]
      invariant OnwardWrite(w, p, WriteRun(false, out.script, left))
      decreases left + |out.script|
    {
      var n := WriteRetrying(out, buf, p, left, old(out.written));
      if n.Error? {
        return -1;
      }
      p, left := p + n.n, left - n.n;
    }
    r := count;
  }

  predicate UsedUpSafely(ws: seq<WriteReply>, rest: seq<WriteReply>)
    requires |rest| <= |ws|
  {
    forall i :: 0 <= i < |ws| - |rest| ==> !ws[i].WriteError?
  }

  /** One buffer: either all of it is written, or a failing reply was used. */
  lemma FirstBuffer(ws: seq<WriteReply>, n: nat)
    ensures var w := WriteRun(false, ws, n);
      && w.done <= n && |w.rest| <= |ws| && w.rest == ws[|ws| - |w.rest|..]
      && (if w.ok then w.done == n else w.done < n) && (w.ok <==> UsedUpSafely(ws, w.rest))
  {
    WriteRunExact(false, ws, n);
    WriteRunCounts(false, ws, n);
    forall i | 0 <= i < |ws|
      ensures Fatal(false, ws[i]) <==> ws[i].WriteError?
    {
    }
  }

  lemma UsedUpTwice(ws: seq<WriteReply>, mid: seq<WriteReply>, rest: seq<WriteReply>)
    requires |rest| <= |mid| <= |ws| && mid == ws[|ws| - |mid|..]
    ensures UsedUpSafely(ws, rest) <==> UsedUpSafely(ws, mid) && UsedUpSafely(mid, rest)
  {
    var d := |ws| - |mid|;
    assert forall i :: 0 <= i < |mid| ==> mid[i] == ws[d + i];
    if UsedUpSafely(ws, mid) && UsedUpSafely(mid, rest) {
      forall i | 0 <= i < |ws| - |rest|
        ensures !ws[i].WriteError?
      {
        assert i >= d ==> ws[i] == mid[i - d];
      }
    }
    if UsedUpSafely(ws, rest) {
      forall i | 0 <= i < |mid| - |rest|
        ensures !mid[i].WriteError?
      {
        assert mid[i] == ws[d + i];
      }
    }
  }
}
