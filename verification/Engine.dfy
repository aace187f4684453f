/**
  The two entry points: compiling a pattern, and running the program on a subject. Put
  together, they find the first result of the pattern at the smallest start.
 */
module Engine {
  import opened Bytes
  import opened Bytecode
  import opened Subjects
  import opened Patterns
  import opened CodeGen
  import opened StraightLine
  import opened RegisterAllocation
  import opened Terms
  import opened Emitter
  import opened Matching
  import opened SnapshotMachine
  import opened Simulation
  import opened Boundaries
  import PatternSemantics
  import BacktrackMachine

  // ----- compiling -----

  lemma NumbersPrologue()
    ensures Numbers(Prologue(), Prologue(), 0, 0, 0)
  {
    hide Numbers, Encode;
    var split, any, goto_ := Encode(Split(false, 6)), Encode(Instr.AnyChar), Encode(Goto(-11));
    NumbersInstr(Split(false, 6), 0);
    NumbersInstr(Instr.AnyChar, 0);
    NumbersInstr(Goto(-11), 0);
    NumbersThen(split, split, 0, 0, 0, any, any, 0, 0);
    NumbersThen(split + any, split + any, 0, 0, 0, goto_, goto_, 0, 0);
  }

  lemma NumbersWhole(c: seq<byte>, a: seq<byte>, peak: nat)
    requires Numbers(c, a, 0, 0, peak)
    ensures Allocate(c, 0, 0) == Allocation(a, 0, peak)
  {
    assert Pass(c, a, 0, 0, peak, [], 0);
    assert c + [] == c && a + [] == a;
  }

  /** Numbering the registers of a finished program gives the program that the matcher is proved correct for. */
  lemma ProgramNumbers(fold: nat -> nat, n: Node, sticky: bool)
    requires Encodable(n) && Paired(n)
    ensures Allocate(ProgramCode(fold, n, sticky, false), 0, 0) ==
            Allocation(ProgramCode(fold, n, sticky, true), 0, Registers(n, false))
  {
    hide Numbers, Encode, Code, Prologue, Allocate;
    var c, a := Code(fold, Group(n), 0, false, 0, false), Code(fold, Group(n), 0, false, 0, true);
    var pre, k := if sticky then [] else Prologue(), Registers(n, false);
    if sticky { NumbersNone(0); } else { NumbersPrologue(); }
    AllocateCode(fold, Group(n), 0, false, 0);
    NumbersInstr(Match, 0);
    NumbersThen(pre, pre, 0, 0, 0, c, a, 0, k);
    NumbersThen(pre + c, pre + a, 0, 0, k, Encode(Match), Encode(Match), 0, 0);
    NumbersWhole(pre + c + Encode(Match), pre + a + Encode(Match), k);
  }

  /** What the compiler accepts: no set, and no number of groups or registers, is too large. */
  predicate Compiles(n: Node) {
    SetsFit(n) && 1 + Groups(n) <= CAPTURE_COUNT_MAX && Registers(n, false) <= REGISTER_COUNT_MAX
  }

  /** The limits in numbers: 254 groups besides the whole match, 255 registers, 65534 intervals in a set. */
  lemma CompilesMeans(n: Node)
    ensures Compiles(n) <==> Groups(n) <= 254 && Registers(n, false) <= 255 && SetsFit(n)
    ensures n.Set? ==> (SetsFit(n) <==> |n.points| / 2 <= 65534)
  {
  }

  /** Compiles the pattern as group 0 of a program, with a search loop in front unless it is sticky. */
  method LreCompile(fold: nat -> nat, n: Node, sticky: bool) returns (r: Compiled)
    requires Resolved(n) && Paired(n)
    ensures r.Refused? <==> !Compiles(n)
    ensures r.Compiled? ==> r == Compiled(ProgramCode(fold, n, sticky, true), 1 + Groups(n), Registers(n, false))
  {
    hide Code, Encode, Allocate, Resolved, Paired, Encodable, Groups, SetsFit, Registers, ProgramCode;
    var s := new Compiler(fold);
    if !sticky {
      PrologueBytes();
      var _ := s.EmitOpU32(OP_SPLIT_GOTO_FIRST, 1 + 5);
      s.EmitOp(OP_ANY);
      var _ := s.EmitOpU32(OP_GOTO, -(5 + 1 + 5));
    }
    ghost var pre := if sticky then [] else Prologue();
    SaveBytes(false, 0);
    SaveBytes(true, 0);
    s.EmitOpU8(OP_SAVE_START, 0);
    var ok := s.ParseDisjunction(n, false);
    if !ok {
      return Refused;
    }
    s.EmitOpU8(OP_SAVE_START + 1, 0);
    s.EmitOp(OP_MATCH);
    ResolvedPaired(n);
    ProgramIs(fold, n, sticky, s.byteCode);
    ProgramNumbers(fold, n, sticky);
    var count := s.ComputeRegisterCount();
    if count < 0 {
      return Refused;
    }
    r := Compiled(s.byteCode, s.captureCount, count);
  }

  lemma PrologueBytes()
    ensures Prologue() == [] + ([OP_SPLIT_GOTO_FIRST] + LE32(6)) + [OP_ANY] + ([OP_GOTO] + LE32(-11))
  {
    hide LE32;
    JumpBytes(false, 6);
    JumpBytes(false, -11);
  }

  lemma ProgramIs(fold: nat -> nat, n: Node, sticky: bool, all: seq<byte>)
    requires Paired(n)
    requires all == (if sticky then [] else Prologue()) + Encode(Save(false, 0)) + RawCode(fold, n, 1, false) + Encode(Save(true, 0)) + [OP_MATCH]
    ensures all == ProgramCode(fold, n, sticky, false)
  {
    hide Code, Prologue;
    CodeGroupIs(fold, n, 0, false, 0, false);
    JoinedThree(if sticky then [] else Prologue(), Encode(Save(false, 0)), RawCode(fold, n, 1, false), Encode(Save(true, 0)));
  }

  // ----- running -----

  /** A start in the middle of a surrogate pair is moved to the beginning of the pair. */
  function Aligned(s: Subject, cindex: nat): (p: nat)
    requires cindex <= |s.units|
    ensures OnBoundary(s, p) && p <= cindex
    ensures p == cindex <==> OnBoundary(s, cindex)
    ensures forall q :: p < q <= cindex ==> !OnBoundary(s, q)
  {
    BoundaryIff(s, cindex);
    if 0 < cindex < |s.units| && s.utf16 && IsLow(s.units[cindex]) && IsHigh(s.units[cindex - 1]) then
      PairStart(s, cindex);
      cindex - 1
    else cindex
  }

  lemma PairStart(s: Subject, p: nat)
    requires s.utf16 && 0 < p < |s.units| && IsHigh(s.units[p - 1]) && IsLow(s.units[p])
    ensures OnBoundary(s, p - 1)
  {
    BoundaryIff(s, p - 1);
  }

  /** A program in memory. */
  ghost predicate InMemory(m: Prog, n: Node, sticky: bool, registers: nat) {
    && Ready(m)
    && Valid(m.env.fold, n, m.groups, |m.env.input|)
    && Paired(n)
    && m.groups == Groups(Group(n))
    && registers == Registers(n, false) <= REGISTER_COUNT_MAX
    && m.code == ProgramCode(m.env.fold, n, sticky, true)
  }

  /**
    Runs a compiled program from `cindex` on, in an array that has room for its slots. `e` is the number of the character at which
    the search starts: the last one that does not start after `cindex`. A match is
    reported just when the pattern has a result, and the array then shows the captures
    of the first one at the smallest start.
   */
  method LreExec(m: Prog, capture: array<int>, cindex: nat, ghost n: Node, ghost sticky: bool, ghost registers: nat)
    returns (matched: bool, ghost e: nat)
    requires InMemory(m, n, sticky, registers) && cindex <= |m.subject.units| && 2 * m.groups + registers <= capture.Length
    modifies capture
    ensures e <= |m.env.input| && Offset(m.subject, e) == Aligned(m.subject, cindex)
    ensures matched <==> Expected(m.env, n, sticky, e).Some?
    ensures matched ==> Shows(m, capture[..], Expected(m.env, n, sticky, e).value.caps, {})
  {
    hide Expected, Valid, ProgramCode, Ready, SnapshotMachine.Evaluates, Loaded, Shows, Aligned;
    ForgetCaptures(capture, m.groups);
    LoadedIs(m, capture[..], n, sticky, registers);
    ghost var regs: nat := capture.Length - 2 * m.groups;
    var cptr := Aligned(m.subject, cindex);
    e := StartOf(m, cptr);
    var machine := new BacktrackMachine.Machine(m, capture);
    ghost var r := CompiledCorrectly(m, n, sticky, capture[..], regs, e);
    matched := machine.Exec(0, cptr, r);
  }

  method ForgetCaptures(capture: array<int>, groups: nat)
    requires 2 * groups <= capture.Length
    modifies capture
    ensures forall k :: 0 <= k < 2 * groups ==> capture[..][k] == NULL
  {
    var i := 0;
    while i < 2 * groups
      invariant 0 <= i <= 2 * groups
      invariant forall k :: 0 <= k < i ==> capture[k] == NULL
    {
      capture[i] := NULL;
      i := i + 1;
    }
  }

  lemma LoadedIs(m: Prog, capture: seq<int>, n: Node, sticky: bool, registers: nat)
    requires InMemory(m, n, sticky, registers) && 2 * m.groups + registers <= |capture|
    requires forall k :: 0 <= k < 2 * m.groups ==> capture[k] == NULL
    ensures Ready(m) && Loaded(m, n, sticky, capture, |capture| - 2 * m.groups)
  {
    hide Valid, Ready, Paired, ProgramCode;
  }

  lemma StartOf(m: Prog, p: nat) returns (e: nat)
    requires Ready(m) && OnBoundary(m.subject, p)
    ensures e <= |m.env.input| && Offset(m.subject, e) == p
  {
    e :| 0 <= e <= |Input(m.subject)| && p == Offset(m.subject, e);
  }

  /** What the slots of a group say after a match: the bounds of the capture in units, or nothing. */
  lemma CaptureSlots(m: Prog, capture: seq<int>, y: PatternSemantics.State, g: nat)
    requires Shows(m, capture, y.caps, {}) && g < m.groups
    ensures y.caps[g].Unset? ==> capture[2 * g] == NULL && capture[2 * g + 1] == NULL
    ensures y.caps[g].Span? ==> capture[2 * g] == Offset(m.subject, y.caps[g].s) && capture[2 * g + 1] == Offset(m.subject, y.caps[g].t)
  {
    assert ShowsGroup(m, capture, y.caps, {}, g);
  }

  /** Nothing in a run of `LreExec` ever points between the two halves of a surrogate pair. */
  lemma RunOnBoundaries(m: Prog, capture: seq<int>, cindex: nat, n: nat, p: nat)
    requires cindex <= |m.subject.units| && forall k :: 0 <= k < 2 * m.groups && k < |capture| ==> capture[k] == NULL
    requires m.subject.utf16 && 0 < p < |m.subject.units|
    requires 0xD800 <= m.subject.units[p - 1] <= 0xDBFF && 0xDC00 <= m.subject.units[p] <= 0xDFFF
    ensures var c := Steps(m, Run(Thread(0, Aligned(m.subject, cindex), capture), []), n);
            && (c.Run? ==> c.t.pos != p && forall k :: 0 <= k < 2 * m.groups && k < |c.t.arr| ==> c.t.arr[k] != p)
            && (c.Run? || c.Fail? ==> forall k :: 0 <= k < |c.stk| ==> c.stk[k].t.pos != p)
            && (c.Done? && c.result.Some? ==> forall k :: 0 <= k < 2 * m.groups && k < |c.result.value.arr| ==> c.result.value.arr[k] != p)
  {
    var c := Run(Thread(0, Aligned(m.subject, cindex), capture), []);
    assert ConfigAligned(m, c);
    NeverInsidePair(m, c, n, p);
  }

  // ----- compiling and running -----

  datatype Outcome = Rejected | NoMatch | Matched(capture: seq<int>)

  /**
    From a parsed pattern to its captures: a pattern is rejected just when a set or the
    number of groups or registers is too large; otherwise the answer is that of the
    specification.
   */
  method CompileAndRun(n: Node, sticky: bool, fold: nat -> nat, space: nat -> bool, subject: Subject, cindex: nat)
    returns (r: Outcome, ghost m: Prog, ghost e: nat)
    requires Resolved(n) && cindex <= |subject.units|
    requires Compiles(n) ==> InMemory(Program(n, sticky, fold, space, subject), n, sticky, Registers(n, false))
    ensures m == Program(n, sticky, fold, space, subject)
    ensures e <= |Input(subject)| && Offset(subject, e) == Aligned(subject, cindex)
    ensures r.Rejected? <==> !Compiles(n)
    ensures r.NoMatch? ==> Expected(m.env, n, sticky, e).None?
    ensures r.Matched? ==> Expected(m.env, n, sticky, e).Some? && Shows(m, r.capture, Expected(m.env, n, sticky, e).value.caps, {})
  {
    hide Expected, Valid, ProgramCode, Ready, Code, Resolved, Paired, Shows;
    ResolvedPaired(n);
    m := Program(n, sticky, fold, space, subject);
    e :| 0 <= e <= |Input(subject)| && Aligned(subject, cindex) == Offset(subject, e);
    var c := LreCompile(fold, n, sticky);
    if c.Refused? {
      return Rejected, m, e;
    }
    var prog := Prog(c.code, c.groups, subject, PatternSemantics.Env(Input(subject), fold, space));
    var capture := new int[2 * c.groups + c.registers];
    var matched;
    matched, e := LreExec(prog, capture, cindex, n, sticky, c.registers);
    r := if matched then Matched(capture[..]) else NoMatch;
  }

  /** The compiled pattern with the subject it is to run on. */
  function Program(n: Node, sticky: bool, fold: nat -> nat, space: nat -> bool, subject: Subject): Prog
    requires Resolved(n)
  {
    ResolvedPaired(n);
    Prog(ProgramCode(fold, n, sticky, true), 1 + Groups(n), subject, PatternSemantics.Env(Input(subject), fold, space))
  }
}
