/** The allow-list filter: classic BPF, the pattern that turns a list of system call
    numbers into a program, and what the kernel makes of it. */
module SeccompFilter {

  datatype Verdict = Allow | Kill

  /** The three instructions the pattern uses. Jump offsets count from the next
      instruction. */
  datatype Instr =
    | LoadNr
    | JumpEq(k: nat, jt: nat, jf: nat)
    | Return(v: Verdict)

  /** A program stops at a return, or runs off its end. */
  datatype Result = Stopped(v: Verdict) | RanOff

  /** The filter machine: `acc` is the accumulator. */
  function Run(prog: seq<Instr>, nr: nat, pc: nat, acc: nat): Result
    decreases |prog| - pc
  {
    if pc >= |prog| then RanOff
    else match prog[pc]
      case LoadNr => Run(prog, nr, pc + 1, nr)
      case JumpEq(k, jt, jf) => Run(prog, nr, pc + 1 + (if acc == k then jt else jf), acc)
      case Return(v) => Stopped(v)
  }

  /** A jump and a return for every allowed number. */
  function Tests(allowed: seq<nat>): seq<Instr> {
    if allowed == [] then []
    else [JumpEq(allowed[0], 0, 1), Return(Allow)] + Tests(allowed[1..])
  }

  /** The pattern: load the number, test each allowed one, kill the rest. */
  function Compile(allowed: seq<nat>): seq<Instr> {
    [LoadNr] + Tests(allowed) + [Return(Kill)]
  }

  lemma {:induction false} TestsLength(allowed: seq<nat>)
    ensures |Tests(allowed)| == 2 * |allowed|
  {
    if allowed != [] {
      TestsLength(allowed[1..]);
    }
  }

  /** Instructions of the i-th test. */
  lemma {:induction false} TestsAt(allowed: seq<nat>, i: nat)
    requires i < |allowed|
    ensures |Tests(allowed)| == 2 * |allowed|
    ensures Tests(allowed)[2 * i] == JumpEq(allowed[i], 0, 1)
    ensures Tests(allowed)[2 * i + 1] == Return(Allow)
  {
    TestsLength(allowed);
    if i > 0 {
      TestsAt(allowed[1..], i - 1);
      var rest := Tests(allowed[1..]);
      assert Tests(allowed)[2 * i] == rest[2 * (i - 1)];
      assert Tests(allowed)[2 * i + 1] == rest[2 * (i - 1) + 1];
    }
  }

  lemma CompiledAt(allowed: seq<nat>, i: nat)
    requires i < |allowed|
    ensures |Compile(allowed)| == 2 * |allowed| + 2
    ensures Compile(allowed)[1 + 2 * i] == JumpEq(allowed[i], 0, 1)
    ensures Compile(allowed)[2 + 2 * i] == Return(Allow)
  {
    TestsAt(allowed, i);
  }

  /** From the i-th test on, the program allows exactly what the rest of the list allows. */
  lemma {:induction false} RunFromTest(allowed: seq<nat>, nr: nat, i: nat)
    requires i <= |allowed|
    ensures Run(Compile(allowed), nr, 1 + 2 * i, nr) == Stopped(if nr in allowed[i..] then Allow else Kill)
    decreases |allowed| - i
  {
    TestsLength(allowed);
    if i < |allowed| {
      CompiledAt(allowed, i);
      RunFromTest(allowed, nr, i + 1);
      assert allowed[i..] == [allowed[i]] + allowed[i + 1..];
    } else {
      assert Compile(allowed)[1 + 2 * i] == Return(Kill);
    }
  }

  /** The compiler is correct for every list and every number: listed numbers are
      allowed, all others killed, and the program always stops at a return. */
  lemma {:induction false} CompileCorrect(allowed: seq<nat>, nr: nat)
    ensures Run(Compile(allowed), nr, 0, 0) == Stopped(if nr in allowed then Allow else Kill)
  {
    RunFromTest(allowed, nr, 0);
    assert allowed[0..] == allowed;
  }

  /** BPF_MAXINSNS: the kernel refuses longer programs. */
  const MAX_INSTRUCTIONS := 4096

  /** What the kernel demands of a program before it installs it: neither empty nor too
      long, all jumps land inside, and the last instruction returns. */
  predicate Acceptable(prog: seq<Instr>) {
    && 1 <= |prog| <= MAX_INSTRUCTIONS
    && prog[|prog| - 1].Return?
    && (forall pc :: 0 <= pc < |prog| && prog[pc].JumpEq? ==>
          pc + 1 + prog[pc].jt < |prog| && pc + 1 + prog[pc].jf < |prog|)
  }

  /** An acceptable program never runs off its end. */
  lemma {:induction false} AcceptableStops(prog: seq<Instr>, nr: nat, pc: nat, acc: nat)
    requires Acceptable(prog) && pc < |prog|
    ensures Run(prog, nr, pc, acc).Stopped?
    decreases |prog| - pc
  {
    match prog[pc]
    case LoadNr =>
      AcceptableStops(prog, nr, pc + 1, nr);
    case JumpEq(k, jt, jf) =>
      AcceptableStops(prog, nr, pc + 1 + (if acc == k then jt else jf), acc);
    case Return(_) =>
  }

  /** Jumps go forward by nature of their offsets; the compiled ones also stay inside, so
      that length alone decides whether the kernel takes the program. */
  lemma {:induction false} CompiledAcceptable(allowed: seq<nat>)
    ensures Acceptable(Compile(allowed)) <==> 2 * |allowed| + 2 <= MAX_INSTRUCTIONS
  {
    var prog := Compile(allowed);
    TestsLength(allowed);
    forall pc | 0 <= pc < |prog| && prog[pc].JumpEq?
      ensures pc + 1 + prog[pc].jt < |prog| && pc + 1 + prog[pc].jf < |prog|
    {
      var i := (pc - 1) / 2;
      CompiledAt(allowed, i);
      assert pc == 1 + 2 * i || pc == 2 + 2 * i;
    }
  }

  const LEN_RANGE := 65536

  /** Installing: the length goes through an `unsigned short`, so the kernel sees that
      many instructions and no more. */
  function Install(prog: seq<Instr>): (r: (bool, seq<Instr>)) {
    var seen := prog[..|prog| % LEN_RANGE];
    (Acceptable(seen), seen)
  }

  /** A proper part of a compiled program, cut at an even length, is never acceptable: it
      is empty or ends in a test. */
  lemma {:induction false} CutRefused(allowed: seq<nat>, len: nat)
    requires len < 2 * |allowed| + 2 && len % 2 == 0
    ensures len <= |Compile(allowed)| && !Acceptable(Compile(allowed)[..len])
  {
    TestsLength(allowed);
    if len > 0 {
      CompiledAt(allowed, (len - 2) / 2);
      assert Compile(allowed)[..len][len - 1] == Compile(allowed)[1 + 2 * ((len - 2) / 2)];
    }
  }

  /** The pattern installs exactly when the program fits the kernel's limit, and then
      decides correctly. A longer list is refused as a whole: the 16-bit cut of its length
      never makes it installable. */
  lemma {:induction false} InstallsIffShort(allowed: seq<nat>)
    ensures Install(Compile(allowed)).0 <==> 2 * |allowed| + 2 <= MAX_INSTRUCTIONS
    ensures 2 * |allowed| + 2 <= MAX_INSTRUCTIONS ==>
      forall nr: nat :: Run(Install(Compile(allowed)).1, nr, 0, 0) == Stopped(if nr in allowed then Allow else Kill)
  {
    var prog := Compile(allowed);
    TestsLength(allowed);
    CompiledAcceptable(allowed);
    if |prog| < LEN_RANGE {
      assert prog[..|prog| % LEN_RANGE] == prog;
      forall nr: nat
        ensures Run(prog, nr, 0, 0) == Stopped(if nr in allowed then Allow else Kill)
      {
        CompileCorrect(allowed, nr);
      }
    } else {
      CutRefused(allowed, |prog| % LEN_RANGE);
    }
  }

  /** At the limit: 2047 numbers make 4096 instructions and install, 2048 are refused; with
      32767 numbers the length wraps to 0. */
  lemma {:induction false} ListsAtTheLimit(nr: nat)
    ensures Install(Compile(seq(2047, _ => nr))).0 && |Compile(seq(2047, _ => nr))| == 4096
    ensures !Install(Compile(seq(2048, _ => nr))).0 && |Compile(seq(2048, _ => nr))| == 4098
    ensures !Install(Compile(seq(32767, _ => nr))).0 && Install(Compile(seq(32767, _ => nr))).1 == []
  {
    InstallsIffShort(seq(2047, _ => nr));
    InstallsIffShort(seq(2048, _ => nr));
    InstallsIffShort(seq(32767, _ => nr));
    TestsLength(seq(2047, _ => nr));
    TestsLength(seq(2048, _ => nr));
    TestsLength(seq(32767, _ => nr));
  }

  /** The filter of the chapter, for any numbers of read, write and exit_group. */
  lemma {:induction false} BasicFilter(read: nat, write: nat, exitGroup: nat)
    ensures var filter := [
        LoadNr,
        JumpEq(read, 0, 1), Return(Allow),
        JumpEq(write, 0, 1), Return(Allow),
        JumpEq(exitGroup, 0, 1), Return(Allow),
        Return(Kill)];
      && Install(filter) == (true, filter)
      && forall nr: nat ::
        Run(filter, nr, 0, 0) == Stopped(if nr == read || nr == write || nr == exitGroup then Allow else Kill)
  {
    var allowed := [read, write, exitGroup];
    assert allowed[1..] == [write, exitGroup] && allowed[1..][1..] == [exitGroup] && allowed[1..][1..][1..] == [];
    var filter := [LoadNr, JumpEq(read, 0, 1), Return(Allow), JumpEq(write, 0, 1), Return(Allow),
                   JumpEq(exitGroup, 0, 1), Return(Allow), Return(Kill)];
    assert Tests([exitGroup]) == [JumpEq(exitGroup, 0, 1), Return(Allow)];
    assert Tests([write, exitGroup]) == [JumpEq(write, 0, 1), Return(Allow), JumpEq(exitGroup, 0, 1), Return(Allow)];
    assert Compile(allowed) == filter;
    InstallsIffShort(allowed);
    assert filter[..|filter| % LEN_RANGE] == filter;
    forall nr: nat
      ensures Run(filter, nr, 0, 0) == Stopped(if nr == read || nr == write || nr == exitGroup then Allow else Kill)
    {
      CompileCorrect(allowed, nr);
    }
  }
}
