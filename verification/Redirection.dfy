/** Step 7 of the file demo: save standard output, point it at a file, print, and put it
    back. Printing goes through a stdio stream, which keeps text back: the calls restore
    every slot and every count in any case, but the text reaches the file only if the
    stream lets go of it in time. */
module Redirection {
  import opened Bytes
  import opened Options
  import opened Slots
  import opened Descriptors
  import opened DescriptorKernel

  function Concat(chunks: seq<seq<byte>>): seq<byte> {
    if chunks == [] then [] else Concat(chunks[..|chunks| - 1]) + chunks[|chunks| - 1]
  }

  lemma ConcatStep(chunks: seq<seq<byte>>, i: nat)
    requires i < |chunks|
    ensures Concat(chunks[..i + 1]) == Concat(chunks[..i]) + chunks[i]
  {
    assert chunks[..i + 1][..i] == chunks[..i];
  }

  lemma SpliceBehind(head: seq<byte>, tail: seq<byte>, b: seq<byte>)
    requires b != []
    ensures Splice(head + tail, |head|, b) == head + b + Drop(tail, |b|)
  {
    assert (head + tail)[..|head|] == head;
    if |b| <= |tail| {
      assert (head + tail)[|head| + |b|..] == tail[|b|..];
    }
  }

  /** Writing `a` and then `b` behind it is writing both at once, wherever in the file. */
  lemma SpliceTwice(file: seq<byte>, offset: nat, a: seq<byte>, b: seq<byte>)
    ensures Splice(Splice(file, offset, a), offset + |a|, b) == Splice(file, offset, a + b)
  {
    if a == [] {
      assert a + b == b;
    } else if b == [] {
      assert a + b == a;
    } else {
      var start := Padded(file, offset)[..offset];
      var tail := Drop(Padded(file, offset), offset + |a|);
      SpliceBehind(start + a, tail, b);
      assert start + a + b == start + (a + b);
      assert Drop(tail, |b|) == Drop(Padded(file, offset), offset + |a + b|);
    }
  }

  lemma {:induction false} WriteTwice(t: Table, pid: nat, fd: nat, a: seq<byte>, b: seq<byte>)
    requires t.Valid() && t.IsOpen(pid, fd)
    ensures var t' := t.Write(pid, fd, a).0;
      t'.Valid() && t'.IsOpen(pid, fd) && t'.Write(pid, fd, b).0 == t.Write(pid, fd, a + b).0
  {
    var at := t.At(pid, fd);
    assert t.slots[(pid, fd)] in t.slots.Values;
    SpliceTwice(t.files[at.inode], at.offset, a, b);
  }

  lemma WriteNothing(t: Table, pid: nat, fd: nat)
    requires t.Valid() && t.IsOpen(pid, fd)
    ensures t.Write(pid, fd, []).0 == t
  {
    assert t.slots[(pid, fd)] in t.slots.Values;
  }

  /** The table after the redirection part of the demo. */
  function Redirected(t: Table, pid: nat, inode: nat): Table
    requires pid in t.procs
  {
    var (t1, saved) := t.Dup(pid, 1);
    var (t2, fd) := t1.Open(pid, inode, true);
    t2.Dup2(pid, fd, 1).0.Close(pid, fd).0
  }

  lemma RedirectedSlots(t: Table, pid: nat, inode: nat)
    requires t.Valid() && pid in t.procs && t.IsOpen(pid, 1) && inode in t.files
    ensures var r := Redirected(t, pid, inode); var id := t.slots[(pid, 1)];
      && r.slots == t.slots[(pid, t.LowestFree(pid)) := id][(pid, 1) := t.nextId]
      && r == t.(nextId := t.nextId + 1, files := t.files[inode := []],
                 open := t.open[t.nextId := Description(inode, 0)]).Repoint(r.slots)
  {
    var t1 := t.Dup(pid, 1).0;
    var fd := t1.LowestFree(pid);
    var t2 := t1.Open(pid, inode, true).0;
    var s3 := t2.slots[(pid, 1) := t.nextId];
    assert t2.Dup2(pid, fd, 1).0 == t2.Repoint(s3);
    RepointTwice(t2, s3, (pid, fd));
    assert s3 - {(pid, fd)} == t1.slots[(pid, 1) := t.nextId];
  }

  /** Moving slot 1 aside and pointing it elsewhere loses no description. */
  lemma StillPointed(t: Table, slots': map<Slot, nat>, pid: nat, saved: nat, other: nat)
    requires t.Valid() && (pid, 1) in t.slots && (pid, saved) !in t.slots
    requires slots' == t.slots[(pid, saved) := t.slots[(pid, 1)]][(pid, 1) := other]
    ensures slots'.Values == t.slots.Values + {other}
  {
    assert slots'[(pid, 1)] == other && slots'[(pid, saved)] == t.slots[(pid, 1)];
    forall id | id in t.slots.Values
      ensures id in slots'.Values
    {
      var k :| k in t.slots && t.slots[k] == id;
      if k != (pid, 1) {
        assert slots'[k] == id;
      }
    }
    forall id | id in slots'.Values
      ensures id in t.slots.Values + {other}
    {
      var k :| k in slots' && slots'[k] == id;
      assert k == (pid, 1) || slots'[k] in t.slots.Values;
    }
  }

  /** After the redirection descriptor 1 is the file (or still the old output, when the
      file could not be opened), and the copy keeps the old output. */
  lemma RedirectedState(t: Table, pid: nat, inode: nat)
    requires t.Valid() && pid in t.procs && t.IsOpen(pid, 1)
    ensures var r := Redirected(t, pid, inode); var saved := t.LowestFree(pid); var id := t.slots[(pid, 1)];
      && saved != 1 && id in t.open && r.Valid() && r.IsOpen(pid, 1)
      && (inode in t.files ==> r == t.(slots := t.slots[(pid, saved) := id][(pid, 1) := t.nextId],
                                       open := t.open[t.nextId := Description(inode, 0)],
                                       files := t.files[inode := []],
                                       nextId := t.nextId + 1))
      && (inode !in t.files ==> r == t.(slots := t.slots[(pid, saved) := id]))
  {
    var saved := t.LowestFree(pid);
    var id := t.slots[(pid, 1)];
    assert id in t.slots.Values;
    var t1 := t.Dup(pid, 1).0;
    assert t1.slots == t.slots[(pid, saved) := id];
    InstalledValues(t.slots, (pid, saved), id);
    if inode in t.files {
      RedirectedSlots(t, pid, inode);
      StillPointed(t, t.slots[(pid, saved) := id][(pid, 1) := t.nextId], pid, saved, t.nextId);
    }
  }

  /** The table after the whole demo. */
  ghost function Restored(t: Table, pid: nat, inode: nat, data: seq<byte>): Table
    requires t.Valid() && pid in t.procs && t.IsOpen(pid, 1)
  {
    RedirectedState(t, pid, inode);
    var saved := t.LowestFree(pid);
    Redirected(t, pid, inode).Write(pid, 1, data).0.Dup2(pid, saved, 1).0.Close(pid, saved).0
  }

  /** Putting the saved copy back in slot 1 and closing the copy: the slots are as
      before, and of the descriptions those that were open before remain. */
  lemma PutBack(t: Table, t1: Table, pid: nat, saved: nat)
    requires t.Valid() && (pid, 1) in t.slots && saved != 1 && (pid, saved) !in t.slots
    requires (pid, saved) in t1.slots && t1.slots[(pid, saved)] == t.slots[(pid, 1)]
    requires t1.slots.Keys == t.slots.Keys + {(pid, saved)}
    requires forall k :: k in t.slots && k != (pid, 1) ==> t1.slots[k] == t.slots[k]
    ensures t1.Dup2(pid, saved, 1).0.Close(pid, saved).0
         == t1.(slots := t.slots, open := map id | id in t1.open && id in t.open :: t1.open[id])
  {
    var t2 := t1.Dup2(pid, saved, 1).0;
    assert t2.slots == t.slots[(pid, saved) := t.slots[(pid, 1)]];
    InstalledValues(t.slots, (pid, saved), t.slots[(pid, 1)]);
    assert t.slots[(pid, 1)] in t.slots.Values;
    assert t2.slots.Values == t.slots.Values;
    assert t2.slots - {(pid, saved)} == t.slots;
  }

  /** What has been written goes to the file just opened ... */
  lemma WrittenToFile(t: Table, pid: nat, inode: nat, data: seq<byte>)
    requires t.Valid() && pid in t.procs && t.IsOpen(pid, 1) && inode in t.files
    ensures var r := Redirected(t, pid, inode); r.Valid() && r.IsOpen(pid, 1) && var a := r.Write(pid, 1, data).0;
      && a.slots == r.slots && a.procs == t.procs && a.nextId == t.nextId + 1
      && a.open == t.open[t.nextId := Description(inode, |data|)] && a.files == t.files[inode := data]
  {
    RedirectedState(t, pid, inode);
    assert Splice([], 0, data) == data;
  }

  /** ... or to the old output. */
  lemma WrittenToOld(t: Table, pid: nat, inode: nat, data: seq<byte>)
    requires t.Valid() && pid in t.procs && t.IsOpen(pid, 1) && inode !in t.files
    ensures var r := Redirected(t, pid, inode); r.Valid() && r.IsOpen(pid, 1)
    ensures var a, direct := Redirected(t, pid, inode).Write(pid, 1, data).0, t.Write(pid, 1, data).0;
      && a.slots == Redirected(t, pid, inode).slots && a.procs == t.procs && a.nextId == t.nextId
      && a.open == direct.open && a.files == direct.files
  {
    RedirectedState(t, pid, inode);
  }

  lemma RestoredShape(t: Table, pid: nat, inode: nat, data: seq<byte>)
    requires t.Valid() && pid in t.procs && t.IsOpen(pid, 1)
    ensures var r := Redirected(t, pid, inode); r.Valid() && r.IsOpen(pid, 1) && var a := r.Write(pid, 1, data).0;
      Restored(t, pid, inode, data) == a.(slots := t.slots, open := map id | id in a.open && id in t.open :: a.open[id])
  {
    RedirectedState(t, pid, inode);
    if inode in t.files {
      WrittenToFile(t, pid, inode, data);
    } else {
      WrittenToOld(t, pid, inode, data);
    }
    PutBack(t, Redirected(t, pid, inode).Write(pid, 1, data).0, pid, t.LowestFree(pid));
  }

  /** Of the descriptions in `a` those stay that were in `t`. */
  lemma KeptOf(t: Table, a: Table)
    ensures var kept := map id | id in a.open && id in t.open :: a.open[id];
      && (a.open.Keys == t.open.Keys ==> kept == a.open)
      && ((t.open.Keys <= a.open.Keys && forall id :: id in t.open ==> a.open[id] == t.open[id]) ==> kept == t.open)
  {
  }

  lemma RestoredFromFile(t: Table, pid: nat, inode: nat, data: seq<byte>)
    requires t.Valid() && pid in t.procs && t.IsOpen(pid, 1) && inode in t.files
    ensures Restored(t, pid, inode, data) == t.(files := t.files[inode := data], nextId := t.nextId + 1)
  {
    RestoredShape(t, pid, inode, data);
    WrittenToFile(t, pid, inode, data);
    KeptOf(t, Redirected(t, pid, inode).Write(pid, 1, data).0);
    assert t.nextId !in t.open;
  }

  lemma RestoredFromOld(t: Table, pid: nat, inode: nat, data: seq<byte>)
    requires t.Valid() && pid in t.procs && t.IsOpen(pid, 1) && inode !in t.files
    ensures Restored(t, pid, inode, data) == t.Write(pid, 1, data).0
  {
    RestoredShape(t, pid, inode, data);
    WrittenToOld(t, pid, inode, data);
    KeptOf(t, Redirected(t, pid, inode).Write(pid, 1, data).0);
    assert t.slots[(pid, 1)] in t.slots.Values;
    assert t.Write(pid, 1, data).0.open.Keys == t.open.Keys;
  }

  /** The whole demo restores slots and descriptions; what was written in between is in
      the file. When the file could not be opened it is as if it had been written to the
      old output in the first place. */
  lemma {:induction false} RestoredState(t: Table, pid: nat, inode: nat, data: seq<byte>)
    requires t.Valid() && pid in t.procs && t.IsOpen(pid, 1)
    ensures inode in t.files ==>
      Restored(t, pid, inode, data) == t.(files := t.files[inode := data], nextId := t.nextId + 1)
    ensures inode !in t.files ==> Restored(t, pid, inode, data) == t.Write(pid, 1, data).0
  {
    if inode in t.files {
      RestoredFromFile(t, pid, inode, data);
    } else {
      RestoredFromOld(t, pid, inode, data);
    }
  }

  method RedirectOutput(k: Kernel, pid: nat, inode: nat) returns (saved: int)
    requires k.Valid() && pid in k.procs && (pid, 1) in k.slots
    modifies k
    ensures k.Valid() && k.View() == Redirected(old(k.View()), pid, inode)
    ensures saved == old(k.View()).LowestFree(pid)
  {
    saved := k.Dup(pid, 1);
    var fd := k.Open(pid, inode, true);
    var _ := k.Dup2(pid, fd, 1);
    var _ := k.Close(pid, fd);
  }

  // ------------------------------------------------------------------- printing

  /** A stream sends a finished line at once, or keeps up to `size` bytes back. */
  datatype Mode = LineBuffered | FullyBuffered(size: nat)

  const NEWLINE: byte := 10

  predicate EndsLine(text: seq<byte>) {
    text != [] && text[|text| - 1] == NEWLINE
  }

  predicate AllLines(texts: seq<seq<byte>>) {
    forall i :: 0 <= i < |texts| ==> EndsLine(texts[i])
  }

  /** A print of `text` on a stream with `pending` kept back: `n` bytes of both go to
      descriptor 1, at once and in order, and the rest is `kept`. */
  ghost predicate Printed(mode: Mode, was: Table, now: Table, pid: nat,
                          pending: seq<byte>, text: seq<byte>, n: nat, kept: seq<byte>) {
    && was.Valid() && n <= |pending + text|
    && now == was.Write(pid, 1, (pending + text)[..n]).0 && kept == (pending + text)[n..]
    && (mode.LineBuffered? && EndsLine(text) ==> n == |pending + text|)
    && (mode.FullyBuffered? && |pending + text| <= mode.size ==> n == 0)
  }

  /** `pending` is text printed and not yet written. Where the mode leaves it open how
      much a print writes, `script` says so. */
  class Stream {
    const mode: Mode
    var pending: seq<byte>
    var script: seq<nat>

    constructor (mode: Mode, script: seq<nat>)
      ensures this.mode == mode && pending == [] && this.script == script
    {
      this.mode, pending, this.script := mode, [], script;
    }

    method Print(k: Kernel, pid: nat, text: seq<byte>) returns (ghost n: nat)
      requires k.Valid() && k.View().IsOpen(pid, 1)
      modifies this, k`open, k`files
      ensures k.Valid() && Printed(mode, old(k.View()), k.View(), pid, old(pending), text, n, pending)
    {
      var all := pending + text;
      var leaving :=
        if mode.LineBuffered? && EndsLine(text) then |all|
        else if mode.FullyBuffered? && |all| <= mode.size then 0
        else Min(if script == [] then 0 else script[0], |all|);
      var _ := k.Write(pid, 1, all[..leaving]);
      pending := all[leaving..];
      script := if script == [] then [] else script[1..];
      n := leaving;
    }

    /** exit(3) writes what is still pending. */
    method Flush(k: Kernel, pid: nat)
      requires k.Valid() && k.View().IsOpen(pid, 1)
      modifies this, k`open, k`files
      ensures k.Valid() && pending == []
      ensures k.View() == old(k.View()).Write(pid, 1, old(pending)).0
    {
      var _ := k.Write(pid, 1, pending);
      pending := [];
    }
  }

  /** How much of the text pending `before` and of `texts` leaves the stream, where the
      mode decides it. */
  predicate Sent(mode: Mode, before: seq<byte>, texts: seq<seq<byte>>, sent: nat) {
    && sent <= |before + Concat(texts)|
    && (mode.LineBuffered? && texts != [] && AllLines(texts) ==> sent == |before + Concat(texts)|)
    && (mode.FullyBuffered? && |before + Concat(texts)| <= mode.size ==> sent == 0)
  }

  lemma SentMore(all: seq<byte>, sent: nat, text: seq<byte>, n: nat)
    requires sent <= |all| && n <= |all[sent..] + text|
    ensures (all + text)[..sent + n] == all[..sent] + (all[sent..] + text)[..n]
    ensures (all + text)[sent + n..] == (all[sent..] + text)[n..]
  {
    assert all + text == all[..sent] + (all[sent..] + text);
  }

  /** Of the text `all`, printed since the table was `t`, the first `sent` bytes have been
      written and the rest is pending. */
  ghost predicate Printing(t: Table, now: Table, pid: nat, all: seq<byte>, sent: nat, pending: seq<byte>) {
    t.Valid() && sent <= |all| && now == t.Write(pid, 1, all[..sent]).0 && pending == all[sent..]
  }

  lemma PrintingMore(t: Table, was: Table, now: Table, pid: nat, all: seq<byte>, sent: nat, pending: seq<byte>,
                     mode: Mode, text: seq<byte>, n: nat, kept: seq<byte>)
    requires t.Valid() && t.IsOpen(pid, 1) && Printing(t, was, pid, all, sent, pending)
    requires Printed(mode, was, now, pid, pending, text, n, kept)
    ensures Printing(t, now, pid, all + text, sent + n, kept)
  {
    WriteTwice(t, pid, 1, all[..sent], (pending + text)[..n]);
    SentMore(all, sent, text, n);
  }

  lemma PrintingOpen(t: Table, now: Table, pid: nat, all: seq<byte>, sent: nat, pending: seq<byte>)
    requires t.Valid() && t.IsOpen(pid, 1) && Printing(t, now, pid, all, sent, pending)
    ensures now.Valid() && now.IsOpen(pid, 1)
  {
    WriteTwice(t, pid, 1, all[..sent], []);
  }

  lemma NextText(before: seq<byte>, texts: seq<seq<byte>>, i: nat)
    requires i < |texts|
    ensures before + Concat(texts[..i + 1]) == before + Concat(texts[..i]) + texts[i]
  {
    ConcatStep(texts, i);
  }

  /** The step of `Sent` when text `i` is printed and `n` bytes leave. */
  lemma SentStep(mode: Mode, before: seq<byte>, texts: seq<seq<byte>>, i: nat, sent: nat, n: nat)
    requires i < |texts| && Sent(mode, before, texts[..i], sent)
    requires var waiting := (before + Concat(texts[..i]))[sent..] + texts[i];
      && n <= |waiting|
      && (mode.LineBuffered? && EndsLine(texts[i]) ==> n == |waiting|)
      && (mode.FullyBuffered? && |waiting| <= mode.size ==> n == 0)
    ensures Sent(mode, before, texts[..i + 1], sent + n)
  {
    NextText(before, texts, i);
    if AllLines(texts[..i + 1]) {
      assert EndsLine(texts[..i + 1][i]);
    }
  }

  lemma PrintingStarts(t: Table, pid: nat, mode: Mode, before: seq<byte>, texts: seq<seq<byte>>)
    requires t.Valid() && t.IsOpen(pid, 1)
    ensures Sent(mode, before, texts[..0], 0) && Printing(t, t, pid, before + Concat(texts[..0]), 0, before)
  {
    WriteNothing(t, pid, 1);
    assert before + Concat(texts[..0]) == before;
  }

  lemma NextPrint(t: Table, was: Table, now: Table, pid: nat, mode: Mode, before: seq<byte>, texts: seq<seq<byte>>,
                  i: nat, sent: nat, pending: seq<byte>, n: nat, kept: seq<byte>)
    requires i < |texts| && t.Valid() && t.IsOpen(pid, 1) && Sent(mode, before, texts[..i], sent)
    requires Printing(t, was, pid, before + Concat(texts[..i]), sent, pending)
    requires Printed(mode, was, now, pid, pending, texts[i], n, kept)
    ensures Sent(mode, before, texts[..i + 1], sent + n)
    ensures Printing(t, now, pid, before + Concat(texts[..i + 1]), sent + n, kept)
  {
    NextText(before, texts, i);
    SentStep(mode, before, texts, i, sent, n);
    PrintingMore(t, was, now, pid, before + Concat(texts[..i]), sent, pending, mode, texts[i], n, kept);
  }

  /** Prints text `i` after those before it. */
  method PrintNext(k: Kernel, pid: nat, out: Stream, texts: seq<seq<byte>>, i: nat,
                   ghost t: Table, ghost before: seq<byte>, ghost sent: nat) returns (ghost now: nat)
    requires i < |texts| && k.Valid() && t.Valid() && t.IsOpen(pid, 1) && Sent(out.mode, before, texts[..i], sent)
    requires Printing(t, k.View(), pid, before + Concat(texts[..i]), sent, out.pending)
    modifies out, k`open, k`files
    ensures k.Valid() && Sent(out.mode, before, texts[..i + 1], now)
    ensures Printing(t, k.View(), pid, before + Concat(texts[..i + 1]), now, out.pending)
  {
    ghost var was, pending := k.View(), out.pending;
    PrintingOpen(t, was, pid, before + Concat(texts[..i]), sent, pending);
    ghost var n := out.Print(k, pid, texts[i]);
    NextPrint(t, was, k.View(), pid, out.mode, before, texts, i, sent, pending, n, out.pending);
    now := sent + n;
  }

  /** Print after print: together one write of the part that has left the stream. */
  method PrintAll(k: Kernel, pid: nat, out: Stream, texts: seq<seq<byte>>) returns (ghost sent: nat)
    requires k.Valid() && k.View().IsOpen(pid, 1)
    modifies out, k`open, k`files
    ensures k.Valid() && Sent(out.mode, old(out.pending), texts, sent)
    ensures Printing(old(k.View()), k.View(), pid, old(out.pending) + Concat(texts), sent, out.pending)
  {
    ghost var t, before := k.View(), out.pending;
    sent := 0;
    PrintingStarts(t, pid, out.mode, before, texts);
    var i := 0;
    while i < |texts|
      invariant i <= |texts| && k.Valid() && Sent(out.mode, before, texts[..i], sent)
      invariant Printing(t, k.View(), pid, before + Concat(texts[..i]), sent, out.pending)
    {
      sent := PrintNext(k, pid, out, texts, i, t, before, sent);
      i := i + 1;
    }
    assert texts[..i] == texts;
  }

  /** What the calls leave when `now` is the table after the prints. */
  lemma RestoredAfterPrinting(t: Table, pid: nat, inode: nat, now: Table, all: seq<byte>, sent: nat, pending: seq<byte>)
    requires t.Valid() && pid in t.procs && t.IsOpen(pid, 1)
    requires Printing(Redirected(t, pid, inode), now, pid, all, sent, pending)
    ensures var saved := t.LowestFree(pid); var end := now.Dup2(pid, saved, 1).0.Close(pid, saved).0;
      && end.slots == t.slots
      && (inode in t.files ==> end == t.(files := t.files[inode := all[..sent]], nextId := t.nextId + 1))
      && (inode !in t.files ==> end == t.Write(pid, 1, all[..sent]).0)
  {
    RestoredState(t, pid, inode, all[..sent]);
  }

  method PrintToFile(k: Kernel, pid: nat, inode: nat, out: Stream, texts: seq<seq<byte>>)
    returns (saved: int, ghost sent: nat)
    requires k.Valid() && pid in k.procs && (pid, 1) in k.slots
    modifies k, out
    ensures k.Valid() && saved == old(k.View()).LowestFree(pid) && Sent(out.mode, old(out.pending), texts, sent)
    ensures var t, all := Redirected(old(k.View()), pid, inode), old(out.pending) + Concat(texts);
      Printing(t, k.View(), pid, all, sent, out.pending)
  {
    RedirectedState(k.View(), pid, inode);
    saved := RedirectOutput(k, pid, inode);
    sent := PrintAll(k, pid, out, texts);
  }

  /** The last two calls, after the prints. */
  method RestoreOutput(k: Kernel, pid: nat, saved: int,
                       ghost t: Table, ghost inode: nat, ghost all: seq<byte>, ghost sent: nat,
                       ghost pending: seq<byte>)
    requires k.Valid() && t.Valid() && pid in t.procs && t.IsOpen(pid, 1) && saved == t.LowestFree(pid)
    requires Printing(Redirected(t, pid, inode), k.View(), pid, all, sent, pending)
    modifies k
    ensures k.Valid() && k.slots == t.slots
    ensures inode in t.files ==> k.View() == t.(files := t.files[inode := all[..sent]], nextId := t.nextId + 1)
    ensures inode !in t.files ==> k.View() == t.Write(pid, 1, all[..sent]).0
  {
    RestoredAfterPrinting(t, pid, inode, k.View(), all, sent, pending);
    var _ := k.Dup2(pid, saved, 1);
    var _ := k.Close(pid, saved);
  }

  /** Save, redirect, print, restore. The slots and counts are as before; the file holds
      what left the stream in between, or, when it could not be opened, it is as if nothing
      had been redirected. */
  method PrintRedirected(k: Kernel, pid: nat, inode: nat, out: Stream, texts: seq<seq<byte>>) returns (ghost sent: nat)
    requires k.Valid() && pid in k.procs && (pid, 1) in k.slots
    modifies k, out
    ensures k.Valid() && k.slots == old(k.slots) && k.refs == old(k.refs)
    ensures Sent(out.mode, old(out.pending), texts, sent)
    ensures var t, all := old(k.View()), old(out.pending) + Concat(texts);
      && out.pending == all[sent..]
      && (inode in t.files ==> k.View() == t.(files := t.files[inode := all[..sent]], nextId := t.nextId + 1))
      && (inode !in t.files ==> k.View() == t.Write(pid, 1, all[..sent]).0)
  {
    ghost var t, counts, all := k.View(), k.refs, out.pending + Concat(texts);
    var saved;
    saved, sent := PrintToFile(k, pid, inode, out, texts);
    RestoreOutput(k, pid, saved, t, inode, all, sent, out.pending);
    SameSlotsSameCounts(k.slots, counts, k.refs);
  }

  /** Finished lines, which together with what is pending fit the buffer if there is one. */
  predicate Orderly(mode: Mode, pending: seq<byte>, texts: seq<seq<byte>>) {
    && texts != [] && AllLines(texts)
    && (mode.FullyBuffered? ==> |pending + Concat(texts)| <= mode.size)
  }

  lemma {:induction false} OrderlySent(mode: Mode, pending: seq<byte>, texts: seq<seq<byte>>, sent: nat)
    requires Orderly(mode, pending, texts) && Sent(mode, pending, texts, sent)
    ensures (pending + Concat(texts))[..sent] == Concat(texts) <==> mode.LineBuffered? && pending == []
  {
    assert EndsLine(texts[|texts| - 1]);
    assert pending == [] ==> pending + Concat(texts) == Concat(texts);
  }

  /** For instance, with a pipe or a file for its own output the demo has a line pending
      when it redirects; of the lines then printed nothing reaches the file. */
  lemma KeptBack(sent: nat)
    ensures var earlier, text: seq<byte> := [65, NEWLINE], [66, NEWLINE];
      Sent(FullyBuffered(4096), earlier, [text], sent) ==>
        (earlier + Concat([text]))[..sent] == [] && Concat([text]) == text
  {
    var text: seq<byte> := [66, NEWLINE];
    ConcatStep([text], 0);
    assert [text][..0] == [] && [text][..1] == [text];
  }

  /** The demo, for an output file that can be opened. The lines it prints are what the
      file holds exactly when the stream is line buffered and had nothing pending: a fully
      buffered one keeps everything back until standard output is restored. */
  method RedirectAndRestore(k: Kernel, pid: nat, inode: nat, out: Stream, texts: seq<seq<byte>>)
    returns (ghost sent: nat)
    requires k.Valid() && pid in k.procs && (pid, 1) in k.slots && inode in k.files
    modifies k, out
    ensures k.Valid() && k.slots == old(k.slots) && k.refs == old(k.refs) && k.open == old(k.open)
    ensures k.files.Keys == old(k.files.Keys)
    ensures Orderly(out.mode, old(out.pending), texts) ==>
      (k.files[inode] == Concat(texts) <==> out.mode.LineBuffered? && old(out.pending) == [])
  {
    ghost var before := out.pending;
    sent := PrintRedirected(k, pid, inode, out, texts);
    if Orderly(out.mode, before, texts) {
      OrderlySent(out.mode, before, texts, sent);
    }
  }

  /** Everything printed since `t` has been written once the rest is flushed. */
  lemma Flushed(t: Table, now: Table, pid: nat, all: seq<byte>, sent: nat, pending: seq<byte>)
    requires t.Valid() && t.IsOpen(pid, 1) && Printing(t, now, pid, all, sent, pending)
    ensures now.Valid() && now.IsOpen(pid, 1) && now.Write(pid, 1, pending).0 == t.Write(pid, 1, all).0
  {
    WriteTwice(t, pid, 1, all[..sent], all[sent..]);
    assert all[..sent] + all[sent..] == all;
  }

  /** The prints after the restore, and the exit of the process. */
  method PrintAndExit(k: Kernel, pid: nat, out: Stream, later: seq<seq<byte>>)
    requires k.Valid() && k.View().IsOpen(pid, 1)
    modifies out, k`open, k`files
    ensures k.Valid() && out.pending == []
    ensures k.View() == old(k.View()).Write(pid, 1, old(out.pending) + Concat(later)).0
  {
    ghost var t, all := k.View(), out.pending + Concat(later);
    ghost var sent := PrintAll(k, pid, out, later);
    Flushed(t, k.View(), pid, all, sent, out.pending);
    out.Flush(k, pid);
  }

  /** The demo to the end of the process: what the stream kept back goes to the restored
      output, before the later prints, and no byte is lost. */
  method RedirectToExit(k: Kernel, pid: nat, inode: nat, out: Stream, texts: seq<seq<byte>>, later: seq<seq<byte>>)
    returns (ghost sent: nat)
    requires k.Valid() && pid in k.procs && (pid, 1) in k.slots && inode in k.files
    modifies k, out
    ensures k.Valid() && out.pending == [] && Sent(out.mode, old(out.pending), texts, sent)
    ensures var t, all := old(k.View()), old(out.pending) + Concat(texts);
      var restored := t.(files := t.files[inode := all[..sent]], nextId := t.nextId + 1);
      restored.Valid() && k.View() == restored.Write(pid, 1, all[sent..] + Concat(later)).0
  {
    sent := PrintRedirected(k, pid, inode, out, texts);
    PrintAndExit(k, pid, out, later);
  }
}
