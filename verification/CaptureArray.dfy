/**
  The slots of the capture array that the instructions of a program name: two for each
  group, and one for each register behind them. A caller that lends the matcher an array
  of fixed size has to compare it with both counts of the program.
 */
module CaptureArray {
  import opened Bytes
  import opened Bytecode
  import opened Patterns
  import opened CodeGen
  import opened StraightLine
  import opened RegisterAllocation
  import opened Structure
  import opened Matching
  import opened Terms
  import Engine

  /** The size of the array that the Lua wrapper lends to the matcher. */
  const WRAPPER_SLOTS: nat := 2 * CAPTURE_COUNT_MAX

  /** The slots that an instruction reads or writes. */
  predicate Touches(i: Instr, groups: nat, slot: int) {
    match i
    case Save(atEnd, g) => slot == 2 * g + (if atEnd then 1 else 0)
    case Reset(lo, hi) => 2 * lo <= slot <= 2 * hi + 1
    case BackRef(_, _, gs) => exists k :: 0 <= k < |gs| && 2 * gs[k] <= slot <= 2 * gs[k] + 1
    case Loop(r, _) => slot == 2 * groups + r
    case LoopSplit(check, _, r, _, _) => 2 * groups + r <= slot <= 2 * groups + r + (if check then 1 else 0)
    case SetI32(r, _) => slot == 2 * groups + r
    case SetPos(r) => slot == 2 * groups + r
    case CheckAdvance(r) => slot == 2 * groups + r
    case _ => false
  }

  /** Reading the program from its beginning, the instruction `i` is found at `pc`. */
  ghost predicate Stands(code: seq<byte>, pc: int, i: Instr) {
    Complete(code) && pc in StartSet(code, 0) && Fetch(code, pc) == Some(i)
  }

  ghost predicate Names(code: seq<byte>, groups: nat, slot: int) {
    exists pc, i :: Stands(code, pc, i) && Touches(i, groups, slot)
  }

  ghost predicate NamesBeyond(code: seq<byte>, groups: nat, limit: int) {
    exists slot :: slot >= limit && Names(code, groups, slot)
  }

  // ----- one instruction of a program -----

  /** What holds of all instructions holds of the one at `pc`. */
  lemma {:induction false} HeadAt(c: seq<byte>, at: int, lim: Limits, pc: int)
    requires Complete(c) && AllFine(c, at, lim) && pc in StartSet(c, at) && pc - at < |c|
    ensures at <= pc && HeadSize(c[pc - at..]) <= |c| - (pc - at) && HeadFine(c[pc - at..], pc, lim)
    decreases |c|
  {
    hide HeadSize, HeadFine;
    StartsAfter(c, at, pc);
    if c != [] && pc != at {
      var k := HeadSize(c);
      StartsAfter(c[k..], at + k, pc);
      HeadAt(c[k..], at + k, lim, pc);
      assert c[k..][pc - at - k..] == c[pc - at..];
    } else if pc == at {
      assert c[0..] == c;
    }
  }

  lemma {:induction false} StartsAfter(c: seq<byte>, at: int, pc: int)
    requires Complete(c) && pc in StartSet(c, at)
    ensures at <= pc <= at + |c|
    decreases |c|
  {
    hide HeadSize;
    if c != [] && pc != at { StartsAfter(c[HeadSize(c)..], at + HeadSize(c), pc); }
  }

  /** Instructions are read from the bytes that follow, wherever these stand. */
  lemma FetchSuffix(p: seq<byte>, pc: nat)
    requires pc < |p|
    ensures Fetch(p, pc) == Fetch(p[pc..], 0)
  {
    hide FetchLoopOp, U16, U32, S32, ReadGroups;
    var q := p[pc..];
    if pc + FixedSize(p[pc]) <= |p| {
      WordsSuffix(p, pc);
      LoopOpSuffix(p, pc);
    }
  }

  lemma WordsSuffix(p: seq<byte>, pc: nat)
    requires pc < |p|
    ensures forall k: nat :: pc + k + 2 <= |p| ==> U16(p, pc + k) == U16(p[pc..], k)
    ensures forall k: nat :: pc + k + 4 <= |p| ==> U32(p, pc + k) == U32(p[pc..], k)
  {
  }

  lemma LoopOpSuffix(p: seq<byte>, pc: nat)
    requires pc < |p| && pc + FixedSize(p[pc]) <= |p|
    ensures FixedSize(p[pc..][0]) <= |p[pc..]| && FetchLoopOp(p, pc) == FetchLoopOp(p[pc..], 0)
  {
    hide U16, U32, S32;
    var q := p[pc..];
    WordsSuffix(p, pc);
    if 32 <= p[pc] <= 35 && pc + 2 + p[pc + 1] <= |p| {
      assert ReadGroups(p, pc + 2, p[pc + 1]) == ReadGroups(q, 2, q[1]);
    }
  }

  /** The operands of every instruction of a sound program. */
  lemma OperandsWithin(code: seq<byte>, low: nat, registers: nat, groups: nat, pc: int, i: Instr)
    requires Sound(code, low, registers, groups) && Stands(code, pc, i)
    ensures HasRegister(i) ==> low <= i.reg && i.reg + (if i.LoopSplit? && i.check then 1 else 0) < registers
    ensures GroupsBelow(i, groups)
  {
    hide HeadSize, Fetch, Complete, StartSet, AllFine, U32, S32;
    InsideCode(code, pc, i);
    HeadAt(code, 0, Limits(StartSet(code, 0), low, registers, groups), pc);
    FetchSuffix(code, pc);
    FetchedFields(code[pc..], i);
    FetchedList(code[pc..], i);
  }

  lemma InsideCode(code: seq<byte>, pc: int, i: Instr)
    requires Fetch(code, pc) == Some(i)
    ensures 0 <= pc < |code|
  {
  }

  /** No slot is named that the two counts do not allow for. */
  lemma NamedWithin(code: seq<byte>, registers: nat, groups: nat, slot: int)
    requires Sound(code, 0, registers, groups) && Names(code, groups, slot)
    ensures 0 <= slot < 2 * groups + registers
  {
    hide Sound, Stands;
    var pc, i :| Stands(code, pc, i) && Touches(i, groups, slot);
    OperandsWithin(code, 0, registers, groups, pc, i);
  }

  /**
    Loops that are running at the same time have different registers: the loop around a
    body uses registers below `d + LoopRegisters`, and no instruction of the body does.
   */
  lemma LiveLoopsApart(fold: nat -> nat, n: Node, lo: nat, back: bool, d: nat, g: nat, len: nat, pc: int, i: Instr)
    requires n.Repeat? && n.max != Fin(0) && Paired(n) && Valid(fold, n.body, g, len)
    requires lo + Groups(n) <= g <= 255 && d + Registers(n, back) <= 255
    requires var own := LoopRegisters(n.body, back, n.min, n.max);
             && |Code(fold, n.body, lo, back, d + own, true)| < TWO31
             && Stands(Code(fold, n.body, lo, back, d + own, true), pc, i)
    ensures HasRegister(i) ==> i.reg >= d + LoopRegisters(n.body, back, n.min, n.max)
  {
    hide Sound, Stands, Code, LoopRegisters;
    var own := LoopRegisters(n.body, back, n.min, n.max);
    CodeSound(fold, n.body, lo, back, d + own, d + own, d + Registers(n, back), g, len);
    OperandsWithin(Code(fold, n.body, lo, back, d + own, true), d + own, d + Registers(n, back), g, pc, i);
  }

  // ----- the highest register is used -----

  /** Numbering the head of the code does not change its length. */
  lemma HeadNumbered(bc: seq<byte>, depth: nat, rest: seq<byte>)
    requires bc != [] && HeadSize(bc) <= |bc|
    ensures HeadSize(Numbered(bc[..HeadSize(bc)], depth) + rest) == HeadSize(bc)
  {
    var unit := bc[..HeadSize(bc)];
    var c := Numbered(unit, depth) + rest;
    assert c[0] == bc[0];
    if StackEffect(bc[0]) == 0 && FixedSize(bc[0]) >= 2 { assert c[1] == bc[1]; }
    if StackEffect(bc[0]) == 0 && FixedSize(bc[0]) >= 3 { assert c[2] == bc[2]; }
  }

  /** The most registers in use at a time are reached by some instruction that sets the last of them. */
  lemma {:induction false} PeakIsSet(bc: seq<byte>, depth: nat, max: nat, at: int) returns (pc: int)
    requires Allocate(bc, depth, max).Allocation? && depth <= max < Allocate(bc, depth, max).max && depth < 256
    requires Complete(Allocate(bc, depth, max).code) && Allocate(bc, depth, max).max <= 256
    ensures var x := Allocate(bc, depth, max);
            && pc in StartSet(x.code, at) && at <= pc && pc - at + 2 <= |x.code|
            && StackEffect(x.code[pc - at]) == 1 && x.code[pc - at + 1] == x.max - 1
    decreases |bc|
  {
    hide HeadSize, Allocate, StackEffect, Numbered;
    AllocateNone(depth, max);
    AllocateStep(bc, depth, max);
    var x, size, depth' := Allocate(bc, depth, max), HeadSize(bc), depth + StackEffect(bc[0]);
    var y := Allocate(bc[size..], depth', Max(max, depth'));
    var unit := Numbered(bc[..size], depth);
    HeadNumbered(bc, depth, y.code);
    assert x.code == unit + y.code && x.code[size..] == y.code && x.max == y.max;
    AllocateMax(bc[size..], depth', Max(max, depth'));
    Effects(bc[0]);
    if y.max > Max(max, depth') {
      pc := PeakIsSet(bc[size..], depth', Max(max, depth'), at + size);
      assert x.code[pc - at] == y.code[pc - at - size] && x.code[pc - at + 1] == y.code[pc - at - size + 1];
    } else {
      pc := at;
      SetNumbered(bc[..size], depth);
      assert x.code[0] == unit[0] && x.code[1] == unit[1];
    }
  }

  lemma AllocateNone(depth: nat, max: nat)
    ensures Allocate([], depth, max) == Allocation([], depth, max)
  {
  }

  lemma Effects(op: byte)
    ensures -2 <= StackEffect(op) <= 1
  {
  }

  lemma SetNumbered(unit: seq<byte>, depth: nat)
    requires |unit| >= 2 && StackEffect(unit[0]) == 1 && depth < 256
    ensures Numbered(unit, depth)[0] == unit[0] && Numbered(unit, depth)[1] == depth
  {
  }

  /** The instruction that sets it, as the machine reads it. */
  lemma SetFetched(code: seq<byte>, pc: nat)
    requires pc + 2 <= |code| && StackEffect(code[pc]) == 1 && HeadSize(code[pc..]) <= |code| - pc
    ensures Fetch(code, pc).Some?
    ensures var i := Fetch(code, pc).value; (i.SetI32? || i.SetPos?) && i.reg == code[pc + 1]
  {
    hide U32;
    assert code[pc..][0] == code[pc];
  }

  /** The registers that a program is said to need are all used. */
  lemma LastRegisterNamed(fold: nat -> nat, n: Node, sticky: bool, len: nat)
    requires Paired(n) && Valid(fold, n, 1 + Groups(n), len) && Engine.Compiles(n) && Registers(n, false) > 0
    requires |ProgramCode(fold, n, sticky, true)| < TWO31
    ensures Names(ProgramCode(fold, n, sticky, true), 1 + Groups(n), 2 * (1 + Groups(n)) + Registers(n, false) - 1)
  {
    hide Valid, Paired, ProgramCode, Allocate, StartSet, AllFine, HeadFine, HeadSize, Registers, Groups, Fetch, StackEffect;
    var code, groups, registers := ProgramCode(fold, n, sticky, true), 1 + Groups(n), Registers(n, false);
    ProgramSound(fold, n, sticky, len);
    ValidEncodable(fold, n, groups, len);
    Engine.ProgramNumbers(fold, n, sticky);
    var pc := PeakIsSet(ProgramCode(fold, n, sticky, false), 0, 0, 0);
    HeadAt(code, 0, Limits(StartSet(code, 0), 0, registers, groups), pc);
    SetFetched(code, pc);
    assert Stands(code, pc, Fetch(code, pc).value);
  }

  // ----- arrays of a fixed size -----

  /**
    The slots that a compiled program names are exactly bounded by its counts: none at or
    above their sum, and with a register the last one below it.
   */
  lemma SlotsNamed(fold: nat -> nat, n: Node, sticky: bool, len: nat, slot: int)
    requires Paired(n) && Valid(fold, n, 1 + Groups(n), len) && Engine.Compiles(n)
    requires |ProgramCode(fold, n, sticky, true)| < TWO31
    ensures var code, top := ProgramCode(fold, n, sticky, true), 2 * (1 + Groups(n)) + Registers(n, false);
            && (Names(code, 1 + Groups(n), slot) ==> 0 <= slot < top)
            && (Registers(n, false) > 0 ==> Names(code, 1 + Groups(n), top - 1))
  {
    hide Valid, Paired, ProgramCode, Names, Registers, Groups, Sound;
    ProgramSound(fold, n, sticky, len);
    if Names(ProgramCode(fold, n, sticky, true), 1 + Groups(n), slot) {
      NamedWithin(ProgramCode(fold, n, sticky, true), Registers(n, false), 1 + Groups(n), slot);
    }
    if Registers(n, false) > 0 { LastRegisterNamed(fold, n, sticky, len); }
  }

  /** The compiler accepts programs that the wrapper has no room for; they are those whose counts say so. */
  lemma FitsTheWrapper(fold: nat -> nat, n: Node, sticky: bool, len: nat)
    requires Paired(n) && Valid(fold, n, 1 + Groups(n), len) && Engine.Compiles(n)
    requires |ProgramCode(fold, n, sticky, true)| < TWO31
    ensures NamesBeyond(ProgramCode(fold, n, sticky, true), 1 + Groups(n), WRAPPER_SLOTS) <==>
            2 * (1 + Groups(n)) + Registers(n, false) > WRAPPER_SLOTS
  {
    hide Valid, Paired, ProgramCode, Names, Registers, Groups;
    var code, groups := ProgramCode(fold, n, sticky, true), 1 + Groups(n);
    var top := 2 * groups + Registers(n, false);
    SlotsNamed(fold, n, sticky, len, top - 1);
    if NamesBeyond(code, groups, WRAPPER_SLOTS) {
      var slot :| slot >= WRAPPER_SLOTS && Names(code, groups, slot);
      SlotsNamed(fold, n, sticky, len, slot);
    }
  }

  // ----- a pattern that does not fit -----

  function Letter(c: nat): Node {
    Node.Char(c, false)
  }

  /** `(a)` so many times. */
  function ManyGroups(k: nat): Node {
    if k == 0 then Empty else Cat(ManyGroups(k - 1), Group(Letter(0x61)))
  }

  /** `(?:a|b){2,3}` */
  function ALoop(): Node {
    Repeat(Or(Letter(0x61), Letter(0x62)), 2, Fin(3), true)
  }

  /** `(a)(a)...(a)(?:a|b){2,3}` with 254 groups. */
  function ManyGroupsAndALoop(): Node {
    Cat(ManyGroups(254), ALoop())
  }

  /** A pattern that the compiler takes, with the size of its code. */
  ghost predicate Measures(fold: nat -> nat, n: Node, lo: nat, d: nat, groups: nat, registers: nat, size: nat) {
    && Resolved(n) && Paired(n) && SetsFit(n) && Groups(n) == groups && Registers(n, false) == registers
    && Valid(fold, n, CAPTURE_COUNT_MAX, 0) && |Code(fold, n, lo, false, d, true)| == size
  }

  lemma LetterMeasures(fold: nat -> nat, c: nat, lo: nat, d: nat)
    requires c < 128
    ensures Measures(fold, Letter(c), lo, d, 0, 0, 3)
  {
    hide Encode;
    assert |Encode(CharInstr(c, false))| == Bytecode.Size(CharInstr(c, false));
  }

  lemma GroupMeasures(fold: nat -> nat, c: nat, lo: nat, d: nat)
    requires c < 128
    ensures Measures(fold, Group(Letter(c)), lo, d, 1, 0, 7)
  {
    hide Encode, Code;
    LetterMeasures(fold, c, lo + 1, d);
    CodeGroupIs(fold, Letter(c), lo, false, d, true);
    assert |Encode(Save(false, lo))| == Bytecode.Size(Save(false, lo)) && |Encode(Save(true, lo))| == Bytecode.Size(Save(true, lo));
  }

  lemma CatMeasures(fold: nat -> nat, l: Node, r: Node, lo: nat, d: nat, g: nat, k: nat, size: nat, g': nat, k': nat, size': nat)
    requires Measures(fold, l, lo, d, g, k, size) && Measures(fold, r, lo + g, d, g', k', size')
    ensures Measures(fold, Cat(l, r), lo, d, g + g', Max(k, k'), size + size')
  {
    hide Code;
    CodeCatIs(fold, Cat(l, r), lo, false, d, true);
  }

  lemma {:induction false} ManyGroupsMeasure(fold: nat -> nat, k: nat, lo: nat, d: nat)
    ensures Measures(fold, ManyGroups(k), lo, d, k, 0, 7 * k)
    decreases k
  {
    hide Measures;
    if k == 0 {
      EmptyMeasures(fold, lo, d);
    } else {
      ManyGroupsMeasure(fold, k - 1, lo, d);
      GroupMeasures(fold, 0x61, lo + (k - 1), d);
      CatMeasures(fold, ManyGroups(k - 1), Group(Letter(0x61)), lo, d, k - 1, 0, 7 * (k - 1), 1, 0, 7);
    }
  }

  lemma EmptyMeasures(fold: nat -> nat, lo: nat, d: nat)
    ensures Measures(fold, Empty, lo, d, 0, 0, 0)
  {
  }

  lemma ChoiceMeasures(fold: nat -> nat, lo: nat, d: nat)
    ensures Measures(fold, Or(Letter(0x61), Letter(0x62)), lo, d, 0, 0, 16)
  {
    hide Encode, Code;
    var a, b := Letter(0x61), Letter(0x62);
    LetterMeasures(fold, 0x61, lo, d);
    LetterMeasures(fold, 0x62, lo, d);
    CodeOrIs(fold, a, b, lo, false, d, true);
    assert |Encode(Split(true, 8))| == Bytecode.Size(Split(true, 8)) && |Encode(Goto(3))| == Bytecode.Size(Goto(3));
  }

  /** The loop needs a counter, and a position since the analysis stops at the choice. */
  lemma LoopMeasures(fold: nat -> nat, lo: nat, d: nat)
    ensures Measures(fold, ALoop(), lo, d, 0, 2, 34)
  {
    hide Encode, Code;
    var n := ALoop();
    ChoiceMeasures(fold, lo, d + 2);
    CodeRepeatIs(fold, n, lo, false, d, true);
    assert |Encode(SetI32(d, 3))| == Bytecode.Size(SetI32(d, 3));
    var i := LoopInstr(18, 2, Fin(3), true, true, d);
    assert |Encode(i)| == Bytecode.Size(i);
  }

  /** This pattern compiles, and its program names a slot that the wrapper's array does not have. */
  lemma WrapperTooSmall(fold: nat -> nat, sticky: bool)
    ensures var n := ManyGroupsAndALoop();
            && Resolved(n) && Paired(n) && Engine.Compiles(n) && 1 + Groups(n) == CAPTURE_COUNT_MAX && Registers(n, false) == 2
            && NamesBeyond(ProgramCode(fold, n, sticky, true), 1 + Groups(n), WRAPPER_SLOTS)
  {
    hide Code, Encode, ManyGroups, ALoop, NamesBeyond, Groups, Registers, Prologue;
    var n := ManyGroupsAndALoop();
    ManyGroupsMeasure(fold, 254, 1, 0);
    LoopMeasures(fold, 255, 0);
    CatMeasures(fold, ManyGroups(254), ALoop(), 1, 0, 254, 0, 7 * 254, 0, 2, 34);
    CodeGroupIs(fold, n, 0, false, 0, true);
    assert |Encode(Save(false, 0))| == Bytecode.Size(Save(false, 0)) && |Encode(Save(true, 0))| == Bytecode.Size(Save(true, 0));
    assert |Encode(Match)| == Bytecode.Size(Match);
    FitsTheWrapper(fold, n, sticky, 0);
  }
}
