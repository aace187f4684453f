/**
  The shape of a compiled program: read from end to end, every jump leads to the start of
  an instruction, and every register and group operand exists, after all the inserting,
  reordering and patching.
 */
module Structure {
  import opened Bytes
  import opened Bytecode
  import opened Patterns
  import opened RangeTable
  import opened CodeGen
  import opened StraightLine
  import opened RegisterAllocation
  import Matching
  import Engine

  /** The code is a list of whole instructions. */
  predicate Complete(bc: seq<byte>)
    decreases |bc|
  {
    bc == [] || (HeadSize(bc) <= |bc| && Complete(bc[HeadSize(bc)..]))
  }

  /** The offsets at which instructions start, and the end; the code stands at offset `at`. */
  function StartSet(bc: seq<byte>, at: int): set<int>
    requires Complete(bc)
    decreases |bc|
  {
    if bc == [] then {at} else {at} + StartSet(bc[HeadSize(bc)..], at + HeadSize(bc))
  }

  /** Where the offset of a jump is found in its instruction; 0 for other instructions. */
  function OffsetField(op: byte): nat {
    if OP_GOTO <= op <= OP_SPLIT_NEXT_FIRST || op == OP_LOOKAHEAD || op == OP_LOOKAHEAD + 1 then 1
    else if op == OP_LOOP then 2
    else if OP_LOOP_SPLIT <= op < OP_LOOP_SPLIT + 4 then 6
    else 0
  }

  /** What is allowed: jump targets, registers from `low` up to `registers`, and a number of groups. */
  datatype Limits = Limits(targets: set<int>, low: nat, registers: nat, groups: nat)

  /** The instruction at the head of `bc`, which stands at `at`, keeps to the limits. */
  predicate HeadFine(bc: seq<byte>, at: int, lim: Limits)
    requires bc != [] && HeadSize(bc) <= |bc|
  {
    && (OffsetField(bc[0]) > 0 ==> OffsetField(bc[0]) + 4 <= |bc| && at + HeadSize(bc) + S32(U32(bc, OffsetField(bc[0]))) in lim.targets)
    && (StackEffect(bc[0]) != 0 ==> |bc| >= 2 && lim.low <= bc[1] && bc[1] + (if StackEffect(bc[0]) == -2 then 1 else 0) < lim.registers)
    && (bc[0] == OP_SAVE_START || bc[0] == OP_SAVE_END ==> |bc| >= 2 && bc[1] < lim.groups)
    && (bc[0] == OP_SAVE_RESET ==> |bc| >= 3 && bc[1] <= bc[2] < lim.groups)
    && (BackReferenceOp(bc[0]) ==> ListsGroups(bc, lim.groups))
  }

  /** The list of a back reference. */
  predicate ListsGroups(bc: seq<byte>, groups: nat) {
    |bc| >= 2 && 2 + bc[1] <= |bc| && forall k :: 0 <= k < bc[1] ==> ReadGroups(bc, 2, bc[1])[k] < groups
  }

  predicate AllFine(bc: seq<byte>, at: int, lim: Limits)
    requires Complete(bc)
    decreases |bc|
  {
    bc == [] || (HeadFine(bc, at, lim) && AllFine(bc[HeadSize(bc)..], at + HeadSize(bc), lim))
  }

  /** The code keeps to the limits, and its own instruction starts are among the targets. */
  ghost predicate Fine(bc: seq<byte>, at: int, lim: Limits) {
    Complete(bc) && AllFine(bc, at, lim) && StartSet(bc, at) <= lim.targets
  }

  // ----- putting code together -----

  lemma HeadSame(a: seq<byte>, b: seq<byte>)
    requires a != [] && HeadSize(a) <= |a|
    ensures HeadSize(a + b) == HeadSize(a) && (a + b)[HeadSize(a)..] == a[HeadSize(a)..] + b
  {
    if |a| >= 3 { assert (a + b)[1] == a[1] && (a + b)[2] == a[2]; }
    if |a| == 2 { assert (a + b)[1] == a[1]; }
  }

  lemma ListSame(a: seq<byte>, b: seq<byte>, groups: nat)
    ensures ListsGroups(a, groups) ==> ListsGroups(a + b, groups)
  {
    if ListsGroups(a, groups) {
      assert (a + b)[1] == a[1];
      assert ReadGroups(a + b, 2, a[1]) == ReadGroups(a, 2, a[1]);
    }
  }

  lemma HeadFineSame(a: seq<byte>, b: seq<byte>, at: int, lim: Limits)
    requires a != [] && HeadSize(a) <= |a|
    ensures HeadSize(a + b) == HeadSize(a) && (HeadFine(a + b, at, lim) <== HeadFine(a, at, lim))
  {
    hide HeadSize, ListsGroups;
    HeadSame(a, b);
    ListSame(a, b, lim.groups);
    var k := OffsetField(a[0]);
    if k > 0 && k + 4 <= |a| {
      assert (a + b)[k] == a[k] && (a + b)[k + 1] == a[k + 1] && (a + b)[k + 2] == a[k + 2] && (a + b)[k + 3] == a[k + 3];
    }
  }

  lemma {:induction false} FineConcat(a: seq<byte>, b: seq<byte>, at: int, lim: Limits)
    requires Fine(a, at, lim) && Fine(b, at + |a|, lim)
    ensures Fine(a + b, at, lim)
    ensures StartSet(a + b, at) == StartSet(a, at) + StartSet(b, at + |a|)
    decreases |a|
  {
    hide HeadSize, HeadFine;
    if a == [] {
      assert a + b == b;
      StartIn(b, at);
    } else {
      HeadSame(a, b);
      HeadFineSame(a, b, at, lim);
      FineConcat(a[HeadSize(a)..], b, at + HeadSize(a), lim);
    }
  }

  lemma StartIn(bc: seq<byte>, at: int)
    requires Complete(bc)
    ensures at in StartSet(bc, at)
  {
  }

  lemma {:induction false} EndIn(bc: seq<byte>, at: int)
    requires Complete(bc)
    ensures at in StartSet(bc, at) && at + |bc| in StartSet(bc, at)
    decreases |bc|
  {
    if bc != [] { EndIn(bc[HeadSize(bc)..], at + HeadSize(bc)); }
  }

  // ----- single instructions -----

  predicate GroupsBelow(i: Instr, groups: nat) {
    match i
    case Save(_, g) => g < groups
    case Reset(lo, hi) => lo <= hi < groups
    case BackRef(_, _, gs) => forall k :: 0 <= k < |gs| ==> gs[k] < groups
    case _ => true
  }

  /** An instruction and its table, checked on the instruction itself. */
  ghost predicate InstrFine(i: Instr, at: int, size: nat, lim: Limits) {
    && at in lim.targets && at + size in lim.targets
    && match i
       case Goto(off) => at + size + off in lim.targets
       case Split(_, off) => at + size + off in lim.targets
       case Look(_, off) => at + size + off in lim.targets
       case Loop(r, off) => at + size + off in lim.targets && lim.low <= r < lim.registers
       case LoopSplit(check, _, r, _, off) =>
         at + size + off in lim.targets && lim.low <= r && r + (if check then 1 else 0) < lim.registers
       case SetI32(r, _) => lim.low <= r < lim.registers
       case SetPos(r) => lim.low <= r < lim.registers
       case CheckAdvance(r) => lim.low <= r < lim.registers
       case _ => GroupsBelow(i, lim.groups)
  }

  lemma FineUnit(i: Instr, table: seq<byte>, at: int, lim: Limits)
    requires Unit(i, table) && Fits(i) && InstrFine(i, at, |Encode(i)| + |table|, lim)
    ensures Fine(Encode(i) + table, at, lim)
  {
    hide Encode, HeadSize, HeadFine, InstrFine;
    var bc := Encode(i) + table;
    assert bc + [] == bc;
    HeadOfUnit(i, table, []);
    HeadFineUnit(i, table, at, lim);
    InstrEnds(i, at, |bc|, lim);
    CompleteUnit(i, table, at);
    var rest := bc[|bc|..];
    assert rest == [] && AllFine(rest, at + |bc|, lim);
  }

  lemma CompleteUnit(i: Instr, table: seq<byte>, at: int)
    requires Unit(i, table)
    ensures var bc := Encode(i) + table; Complete(bc) && StartSet(bc, at) == {at, at + |bc|}
  {
    hide Encode, HeadSize;
    var bc := Encode(i) + table;
    assert bc + [] == bc;
    HeadOfUnit(i, table, []);
    var rest := bc[|bc|..];
    assert rest == [] && Complete(rest) && StartSet(rest, at + |bc|) == {at + |bc|};
  }

  lemma InstrEnds(i: Instr, at: int, size: nat, lim: Limits)
    requires InstrFine(i, at, size, lim)
    ensures at in lim.targets && at + size in lim.targets
  {
  }

  lemma HeadFineUnit(i: Instr, table: seq<byte>, at: int, lim: Limits)
    requires Unit(i, table) && Fits(i) && InstrFine(i, at, |Encode(i)| + |table|, lim)
    ensures HeadSize(Encode(i) + table) == |Encode(i) + table| && HeadFine(Encode(i) + table, at, lim)
  {
    hide Encode, HeadSize, Fetch, U32, S32;
    var bc := Encode(i) + table;
    assert bc + [] == bc;
    HeadOfUnit(i, table, []);
    assert At(bc, 0, Encode(i)) by { assert bc[0..|Encode(i)|] == Encode(i); }
    FetchEncode(bc, 0, i);
    FetchedFields(bc, i);
    FetchedJump(bc, i);
    FetchedList(bc, i);
  }

  /** The fields that are read back from the bytes are those of the instruction. */
  lemma FetchedFields(bc: seq<byte>, i: Instr)
    requires bc != [] && Fetch(bc, 0) == Some(i)
    ensures bc[0] == Opcode(i) && FixedSize(bc[0]) <= |bc|
    ensures HasRegister(i) <==> StackEffect(bc[0]) != 0
    ensures HasRegister(i) ==> bc[1] == i.reg && (StackEffect(bc[0]) == -2 <==> i.LoopSplit? && i.check)
    ensures i.Save? <==> bc[0] == OP_SAVE_START || bc[0] == OP_SAVE_END
    ensures i.Save? ==> bc[1] == i.group
    ensures i.Reset? <==> bc[0] == OP_SAVE_RESET
    ensures i.Reset? ==> bc[1] == i.lo && bc[2] == i.hi
  {
    hide U32, U16, S32, ReadGroups;
  }

  lemma FetchedJump(bc: seq<byte>, i: Instr)
    requires bc != [] && Fetch(bc, 0) == Some(i)
    ensures i.Goto? || i.Split? || i.Look? ==> OffsetField(bc[0]) == 1 && S32(U32(bc, 1)) == i.off
    ensures i.Loop? ==> OffsetField(bc[0]) == 2 && S32(U32(bc, 2)) == i.off
    ensures i.LoopSplit? ==> OffsetField(bc[0]) == 6 && S32(U32(bc, 6)) == i.off
    ensures !(i.Goto? || i.Split? || i.Look? || i.Loop? || i.LoopSplit?) ==> OffsetField(bc[0]) == 0
  {
    hide U32, U16, S32, ReadGroups;
  }

  lemma FetchedList(bc: seq<byte>, i: Instr)
    requires bc != [] && Fetch(bc, 0) == Some(i)
    ensures i.BackRef? <==> BackReferenceOp(bc[0])
    ensures i.BackRef? ==> |bc| >= 2 && 2 + bc[1] <= |bc| && i.groups == ReadGroups(bc, 2, bc[1])
  {
    hide U32, U16, S32, ReadGroups;
  }

  // ----- code that stands on its own -----

  /** Every jump stays inside the code; registers are between `low` and `registers`, and groups below `groups`. */
  ghost predicate Sound(c: seq<byte>, low: nat, registers: nat, groups: nat) {
    Complete(c) && AllFine(c, 0, Limits(StartSet(c, 0), low, registers, groups))
  }

  lemma {:induction false} StartShift(c: seq<byte>, at: int, k: int, t: int)
    requires Complete(c)
    ensures t in StartSet(c, at) <==> t + k in StartSet(c, at + k)
    decreases |c|
  {
    hide HeadSize;
    if c != [] { StartShift(c[HeadSize(c)..], at + HeadSize(c), k, t); }
  }

  lemma {:induction false} AllFineShift(c: seq<byte>, at: int, lim: Limits, k: int, lim': Limits)
    requires Complete(c) && AllFine(c, at, lim) && lim'.low <= lim.low && lim.registers <= lim'.registers && lim.groups <= lim'.groups
    requires forall t :: t in lim.targets ==> t + k in lim'.targets
    ensures AllFine(c, at + k, lim')
    decreases |c|
  {
    hide HeadSize, U32, S32;
    if c != [] { AllFineShift(c[HeadSize(c)..], at + HeadSize(c), lim, k, lim'); }
  }

  /** Sound code is fine wherever it is put, as long as its own starts are among the targets. */
  lemma SoundAt(c: seq<byte>, low: nat, registers: nat, groups: nat, at: int, lim: Limits)
    requires Sound(c, low, registers, groups) && StartSet(c, at) <= lim.targets && lim.low <= low && registers <= lim.registers && groups <= lim.groups
    ensures Fine(c, at, lim)
  {
    hide AllFine, Complete, StartSet;
    var own := Limits(StartSet(c, 0), low, registers, groups);
    forall t | t in own.targets ensures t + at in lim.targets { StartShift(c, 0, at, t); }
    AllFineShift(c, 0, own, at, lim);
  }

  lemma FineSound(c: seq<byte>, low: nat, registers: nat, groups: nat)
    requires Complete(c) && Fine(c, 0, Limits(StartSet(c, 0), low, registers, groups))
    ensures Sound(c, low, registers, groups)
  {
  }

  /** Two complete pieces, with the starts of both and the boundaries. */
  lemma {:induction false} Parts(a: seq<byte>, b: seq<byte>, at: int)
    requires Complete(a) && Complete(b)
    ensures Complete(a + b) && StartSet(a + b, at) == StartSet(a, at) + StartSet(b, at + |a|)
    ensures at in StartSet(a + b, at) && at + |a| in StartSet(a + b, at) && at + |a + b| in StartSet(a + b, at)
    decreases |a|
  {
    hide HeadSize;
    if a == [] {
      assert a + b == b;
      EndIn(b, at);
    } else {
      HeadSame(a, b);
      Parts(a[HeadSize(a)..], b, at + HeadSize(a));
      EndIn(a, at);
    }
    EndIn(b, at + |a|);
  }

  lemma SoundNone(low: nat, r: nat, g: nat)
    ensures Sound([], low, r, g)
  {
  }

  lemma SoundConcat(a: seq<byte>, b: seq<byte>, low: nat, r: nat, g: nat)
    requires Sound(a, low, r, g) && Sound(b, low, r, g)
    ensures Sound(a + b, low, r, g)
  {
    hide AllFine, Complete, StartSet, Fine;
    Parts(a, b, 0);
    var lim := Limits(StartSet(a + b, 0), low, r, g);
    SoundAt(a, low, r, g, 0, lim);
    SoundAt(b, low, r, g, |a|, lim);
    FineConcat(a, b, 0, lim);
    FineSound(a + b, low, r, g);
  }

  /** An instruction that does not jump. */
  lemma SoundUnit(i: Instr, table: seq<byte>, low: nat, r: nat, g: nat)
    requires Unit(i, table) && Fits(i) && !(i.Goto? || i.Split? || i.Look? || i.Loop? || i.LoopSplit?)
    requires (HasRegister(i) ==> low <= i.reg < r) && GroupsBelow(i, g)
    ensures Sound(Encode(i) + table, low, r, g)
  {
    hide Encode, AllFine, Fine;
    var c := Encode(i) + table;
    CompleteUnit(i, table, 0);
    FineUnit(i, table, 0, Limits(StartSet(c, 0), low, r, g));
    FineSound(c, low, r, g);
  }

  lemma SoundInstr(i: Instr, low: nat, r: nat, g: nat)
    requires Countable(i) && !i.Range? && Fits(i) && !(i.Goto? || i.Split? || i.Look? || i.Loop? || i.LoopSplit?)
    requires (HasRegister(i) ==> low <= i.reg < r) && GroupsBelow(i, g)
    ensures Sound(Encode(i), low, r, g)
  {
    hide Encode, Sound;
    SoundUnit(i, [], low, r, g);
    assert Encode(i) + [] == Encode(i);
  }

  /** A jump in front of code: to a place inside it, or to its end. */
  lemma SoundJump(i: Instr, c: seq<byte>, low: nat, r: nat, g: nat)
    requires i.Goto? || i.Split? || i.Look?
    requires Fits(i) && Sound(c, low, r, g) && i.off in StartSet(c, 0)
    ensures Sound(Encode(i) + c, low, r, g)
  {
    hide Encode, AllFine, Complete, StartSet, Fine;
    var e := Encode(i);
    assert e + [] == e;
    CompleteUnit(i, [], 0);
    Parts(e, c, 0);
    var lim := Limits(StartSet(e + c, 0), low, r, g);
    StartShift(c, 0, |e|, i.off);
    FineUnit(i, [], 0, lim);
    SoundAt(c, low, r, g, |e|, lim);
    FineConcat(e, c, 0, lim);
    FineSound(e + c, low, r, g);
  }

  /** A jump behind code, back to a place inside it. */
  lemma SoundLoop(c: seq<byte>, i: Instr, low: nat, r: nat, g: nat)
    requires i.Goto? || i.Split? || i.Loop? || i.LoopSplit?
    requires Fits(i) && Sound(c, low, r, g) && |c| + |Encode(i)| + i.off in StartSet(c, 0)
    requires HasRegister(i) ==> low <= i.reg && i.reg + (if i.LoopSplit? && i.check then 1 else 0) < r
    ensures Sound(c + Encode(i), low, r, g)
  {
    hide Encode, AllFine, Complete, StartSet, Fine;
    var e := Encode(i);
    assert e + [] == e;
    CompleteUnit(i, [], |c|);
    Parts(c, e, 0);
    var lim := Limits(StartSet(c + e, 0), low, r, g);
    FineUnit(i, [], |c|, lim);
    SoundAt(c, low, r, g, 0, lim);
    FineConcat(c, e, 0, lim);
    FineSound(c + e, low, r, g);
  }

  // ----- the pieces of a pattern -----

  lemma SoundOr(cl: seq<byte>, cr: seq<byte>, low: nat, r: nat, g: nat)
    requires Sound(cl, low, r, g) && Sound(cr, low, r, g) && |OrCode(cl, cr)| < TWO31
    ensures Sound(OrCode(cl, cr), low, r, g)
  {
    hide Encode, Sound, StartSet, Complete;
    SoundComplete(cl, low, r, g);
    SoundComplete(cr, low, r, g);
    var goto_, split := Goto(|cr|), Split(true, |cl| + 5);
    JumpSize(goto_);
    JumpSize(split);
    EndIn(cr, 0);
    SoundJump(goto_, cr, low, r, g);
    var rest := Encode(goto_) + cr;
    SoundConcat(cl, rest, low, r, g);
    assert Encode(goto_) + [] == Encode(goto_);
    CompleteUnit(goto_, [], |cl|);
    Parts(Encode(goto_), cr, |cl|);
    SoundComplete(rest, low, r, g);
    Parts(cl, rest, 0);
    SoundJump(split, cl + rest, low, r, g);
    assert OrCode(cl, cr) == Encode(split) + (cl + rest);
  }

  lemma SoundComplete(c: seq<byte>, low: nat, r: nat, g: nat)
    requires Sound(c, low, r, g)
    ensures Complete(c)
  {
  }

  lemma JumpSize(i: Instr)
    requires i.Goto? || i.Split? || i.Look?
    ensures |Encode(i)| == 5
  {
    assert |Encode(i)| == Bytecode.Size(i);
  }

  lemma SoundLook(neg: bool, c: seq<byte>, low: nat, r: nat, g: nat)
    requires Sound(c, low, r, g) && |LookCode(neg, c)| < TWO31
    ensures Sound(LookCode(neg, c), low, r, g)
  {
    hide Encode, Sound, StartSet, Complete;
    var i, leave := Instr.Look(neg, |c| + 1), LookMatch(neg);
    JumpSize(i);
    assert |Encode(leave)| == Bytecode.Size(leave);
    SoundInstr(leave, low, r, g);
    SoundConcat(c, Encode(leave), low, r, g);
    SoundComplete(c + Encode(leave), low, r, g);
    EndIn(c + Encode(leave), 0);
    SoundJump(i, c + Encode(leave), low, r, g);
    assert LookCode(neg, c) == Encode(i) + (c + Encode(leave));
  }

  /** A choice in front, code, and a jump back to the choice; the choice leads behind the jump. */
  lemma SoundStarLoop(greedy: bool, c: seq<byte>, low: nat, r: nat, g: nat)
    requires Sound(c, low, r, g) && |c| + 10 < TWO31
    ensures Sound(Encode(Split(greedy, |c| + 5)) + c + Encode(Goto(-(5 + |c| + 5))), low, r, g)
  {
    hide Encode, AllFine, Complete, StartSet, Fine;
    var i, j := Split(greedy, |c| + 5), Goto(-(5 + |c| + 5));
    var a, b := Encode(i), Encode(j);
    JumpSize(i);
    JumpSize(j);
    assert a + [] == a && b + [] == b;
    CompleteUnit(i, [], 0);
    CompleteUnit(j, [], 5 + |c|);
    Parts(a, c, 0);
    Parts(a + c, b, 0);
    var lim := Limits(StartSet(a + c + b, 0), low, r, g);
    FineUnit(i, [], 0, lim);
    FineUnit(j, [], 5 + |c|, lim);
    SoundAt(c, low, r, g, 5, lim);
    FineConcat(a, c, 0, lim);
    FineConcat(a + c, b, 0, lim);
    FineSound(a + c + b, low, r, g);
  }

  lemma SoundSetPos(check: bool, d: nat, low: nat, r: nat, g: nat)
    requires check ==> low <= d < r <= 255
    ensures Sound(SetPosCode(check, d), low, r, g) && Sound(CheckCode(check, d), low, r, g)
  {
    hide Encode, Sound;
    if check {
      SoundInstr(SetPos(d), low, r, g);
      SoundInstr(CheckAdvance(d), low, r, g);
    } else {
      SoundNone(low, r, g);
    }
  }

  lemma SoundStar(a: seq<byte>, loops: bool, greedy: bool, check: bool, d: nat, low: nat, r: nat, g: nat)
    requires Sound(a, low, r, g) && (check ==> low <= d < r) && r <= 255 && |StarCode(a, loops, greedy, check, d)| < TWO31
    ensures Sound(StarCode(a, loops, greedy, check, d), low, r, g)
  {
    hide Encode, Sound, StartSet, Complete, SetPosCode, CheckCode;
    var pos, adv := SetPosCode(check, d), CheckCode(check, d);
    var inner := pos + a + adv;
    SoundSetPos(check, d, low, r, g);
    SoundConcat(pos, a, low, r, g);
    SoundConcat(pos + a, adv, low, r, g);
    var split := Split(greedy, |inner| + (if loops then 5 else 0));
    JumpSize(split);
    if loops {
      JumpSize(Goto(-(5 + |inner| + 5)));
      SoundStarLoop(greedy, inner, low, r, g);
    } else {
      SoundComplete(inner, low, r, g);
      EndIn(inner, 0);
      SoundJump(split, inner, low, r, g);
      assert Encode(split) + inner + [] == Encode(split) + inner;
    }
  }

  lemma SoundCounted(a: seq<byte>, min: nat, max: Bound, greedy: bool, check: bool, d: nat, low: nat, r: nat, g: nat)
    requires Sound(a, low, r, g) && low <= d && d + (if check then 1 else 0) < r <= 255 && Limit(max) < TWO32 && (check ==> !(min > 0 && max == Fin(min)))
    requires |CountedCode(a, min, max, greedy, check, d, d + 1)| < TWO31
    ensures Sound(CountedCode(a, min, max, greedy, check, d, d + 1), low, r, g)
  {
    hide Encode, Sound, StartSet, Complete, SetPosCode;
    var pos := SetPosCode(check, d + 1);
    var inner := pos + a;
    SoundSetPos(check, d + 1, low, r, g);
    SoundConcat(pos, a, low, r, g);
    var i := LoopInstr(|inner|, min, max, greedy, check, d);
    assert |Encode(i)| == Bytecode.Size(i);
    SoundComplete(inner, low, r, g);
    EndIn(inner, 0);
    SoundLoop(inner, i, low, r, g);
    SoundInstr(SetI32(d, Limit(max)), low, r, g);
    SoundConcat(Encode(SetI32(d, Limit(max))), inner + Encode(i), low, r, g);
  }

  lemma SoundReset(b: Node, lo: nat, low: nat, r: nat, g: nat)
    requires lo + Groups(b) <= g <= 255
    ensures Sound(ResetCode(b, lo), low, r, g)
  {
    hide Encode, Sound;
    if Groups(b) > 0 {
      SoundInstr(Reset(lo, lo + Groups(b) - 1), low, r, g);
    } else {
      SoundNone(low, r, g);
    }
  }

  lemma SoundPre(b: Node, lo: nat, body: seq<byte>, low: nat, r: nat, g: nat)
    requires lo + Groups(b) <= g <= 255 && Sound(body, low, r, g)
    ensures Sound(PreCode(b, lo), low, r, g) && Sound(AtomCode(b, lo, body), low, r, g)
  {
    hide Sound, ResetCode, Plain;
    SoundReset(b, lo, low, r, g);
    SoundNone(low, r, g);
    SoundConcat(if Plain(b) then [] else ResetCode(b, lo), body, low, r, g);
  }

  // ----- whole patterns -----

  lemma {:induction false} ValidEncodable(fold: nat -> nat, n: Node, groups: nat, len: nat)
    requires Valid(fold, n, groups, len)
    ensures Encodable(n) && Paired(n)
  {
    match n
    case Cat(l, r) => ValidEncodable(fold, l, groups, len); ValidEncodable(fold, r, groups, len);
    case Or(l, r) => ValidEncodable(fold, l, groups, len); ValidEncodable(fold, r, groups, len);
    case Group(b) => ValidEncodable(fold, b, groups, len);
    case Look(_, _, b) => ValidEncodable(fold, b, groups, len);
    case Repeat(b, _, _, _) => ValidEncodable(fold, b, groups, len);
    case _ =>
  }

  lemma SoundOneChar(fold: nat -> nat, n: Node, low: nat, r: nat, g: nat, groups: nat, len: nat)
    requires n.OneChar() && Paired(n) && Valid(fold, n, groups, len)
    ensures Sound(OneCharCode(fold, n), low, r, g)
  {
    hide Encode, Sound, Table, Canonical;
    match n
    case Char(c, icase) => SoundInstr(CharInstr(Folded(fold, c, icase), icase), low, r, g);
    case Dot => SoundInstr(Instr.Dot, low, r, g);
    case AnyChar => SoundInstr(Instr.AnyChar, low, r, g);
    case Space(neg) => SoundInstr(Instr.Space(neg), low, r, g);
    case Set(points, icase) =>
      if points == [] {
        SoundInstr(Instr.Char(UINT32_MAX, true, false), low, r, g);
      } else {
        SoundUnit(Range(NeedsWide(points), icase, |points| / 2), Table(points, NeedsWide(points)), low, r, g);
      }
  }

  /**
    The code of every pattern is sound: whatever was inserted, moved or patched, each jump
    leads to an instruction start inside the code of the pattern or to its end, and the
    registers and groups it names are those that the pattern was given: none below `d`,
    so that the code inside a loop never names a register of that loop.
   */
  lemma {:induction false} CodeSound(fold: nat -> nat, n: Node, lo: nat, back: bool, d: nat, low: nat, r: nat, g: nat, len: nat)
    requires Paired(n) && Valid(fold, n, g, len) && |Code(fold, n, lo, back, d, true)| < TWO31
    requires lo + Groups(n) <= g <= 255 && low <= d && d + Registers(n, back) <= r <= 255
    ensures Sound(Code(fold, n, lo, back, d, true), low, r, g)
    decreases n, 1
  {
    hide Encode, Sound, OneCharCode, RepeatCode, OrCode, LookCode, LoopRegisters, Canonical;
    match n
    case Empty => SoundNone(low, r, g);
    case Line(atEnd, multi) => SoundInstr(Instr.Line(atEnd, multi), low, r, g);
    case Word(neg, icase) => SoundInstr(Instr.Word(neg, icase), low, r, g);
    case BackRef(gs, icase) => SoundInstr(Instr.BackRef(back, icase, gs), low, r, g);
    case Cat(_, _) => SoundCat(fold, n, lo, back, d, low, r, g, len);
    case Or(a, b) =>
      CodeOrIs(fold, a, b, lo, back, d, true);
      RegistersOr(a, b, back);
      OrSmaller(Code(fold, a, lo, back, d, true), Code(fold, b, lo + Groups(a), back, d, true));
      CodeSound(fold, a, lo, back, d, low, r, g, len);
      CodeSound(fold, b, lo + Groups(a), back, d, low, r, g, len);
      SoundOr(Code(fold, a, lo, back, d, true), Code(fold, b, lo + Groups(a), back, d, true), low, r, g);
    case Group(b) => SoundGroup(fold, b, lo, back, d, low, r, g, len);
    case Look(neg, behind, b) =>
      CodeLookIs(fold, neg, behind, b, lo, back, d, true);
      LookSmaller(neg, Code(fold, b, lo, behind, d, true));
      CodeSound(fold, b, lo, behind, d, low, r, g, len);
      SoundLook(neg, Code(fold, b, lo, behind, d, true), low, r, g);
    case Repeat(_, _, _, _) => SoundRepeat(fold, n, lo, back, d, low, r, g, len);
    case _ =>
      SoundOneChar(fold, n, low, r, g, g, len);
      if back {
        SoundInstr(Instr.Prev, low, r, g);
        SoundConcat(Encode(Instr.Prev), OneCharCode(fold, n), low, r, g);
        SoundConcat(Encode(Instr.Prev) + OneCharCode(fold, n), Encode(Instr.Prev), low, r, g);
      }
  }

  lemma OrSmaller(cl: seq<byte>, cr: seq<byte>)
    ensures |cl| < |OrCode(cl, cr)| && |cr| < |OrCode(cl, cr)|
  {
    hide Encode;
  }

  lemma LookSmaller(neg: bool, c: seq<byte>)
    ensures |c| < |LookCode(neg, c)|
  {
    hide Encode;
  }

  lemma {:induction false} SoundCat(fold: nat -> nat, n: Node, lo: nat, back: bool, d: nat, low: nat, r: nat, g: nat, len: nat)
    requires n.Cat? && Paired(n) && Valid(fold, n, g, len) && |Code(fold, n, lo, back, d, true)| < TWO31
    requires lo + Groups(n) <= g <= 255 && low <= d && d + Registers(n, back) <= r <= 255
    ensures Sound(Code(fold, n, lo, back, d, true), low, r, g)
    decreases n, 0
  {
    hide Sound, Code, Registers, FirstLo, SecondLo, Canonical;
    CodeCatIs(fold, n, lo, back, d, true);
    TermGroups(n, lo, back);
    var c1 := Code(fold, FirstTerm(n, back), FirstLo(n, lo, back), back, d, true);
    var c2 := Code(fold, SecondTerm(n, back), SecondLo(n, lo, back), back, d, true);
    CodeSound(fold, FirstTerm(n, back), FirstLo(n, lo, back), back, d, low, r, g, len);
    CodeSound(fold, SecondTerm(n, back), SecondLo(n, lo, back), back, d, low, r, g, len);
    SoundConcat(c1, c2, low, r, g);
  }

  lemma {:induction false} SoundGroup(fold: nat -> nat, b: Node, lo: nat, back: bool, d: nat, low: nat, r: nat, g: nat, len: nat)
    requires Paired(Group(b)) && Valid(fold, Group(b), g, len) && |Code(fold, Group(b), lo, back, d, true)| < TWO31
    requires lo + Groups(Group(b)) <= g <= 255 && low <= d && d + Registers(Group(b), back) <= r <= 255
    ensures Sound(Code(fold, Group(b), lo, back, d, true), low, r, g)
    decreases Group(b), 0
  {
    hide Sound, Code, Encode, Canonical;
    CodeGroupIs(fold, b, lo, back, d, true);
    var c := Code(fold, b, lo + 1, back, d, true);
    CodeSound(fold, b, lo + 1, back, d, low, r, g, len);
    SoundInstr(Save(back, lo), low, r, g);
    SoundInstr(Save(!back, lo), low, r, g);
    SoundConcat(Encode(Save(back, lo)), c, low, r, g);
    SoundConcat(Encode(Save(back, lo)) + c, Encode(Save(!back, lo)), low, r, g);
  }

  lemma {:induction false} SoundRepeat(fold: nat -> nat, n: Node, lo: nat, back: bool, d: nat, low: nat, r: nat, g: nat, len: nat)
    requires n.Repeat? && Paired(n) && Valid(fold, n, g, len) && |Code(fold, n, lo, back, d, true)| < TWO31
    requires lo + Groups(n) <= g <= 255 && low <= d && d + Registers(n, back) <= r <= 255
    ensures Sound(Code(fold, n, lo, back, d, true), low, r, g)
    decreases n, 0
  {
    hide Sound, Code, Encode, PreCode, AtomCode, StarCode, CountedCode, Registers, Canonical, StartSet, Complete;
    var b, min, max, greedy := n.body, n.min, n.max, n.greedy;
    var k, check := LoopRegisters(b, back, min, max), Checked(b, back, min, max);
    var body := Code(fold, b, lo, back, d + k, true);
    var a, pre := AtomCode(b, lo, body), PreCode(b, lo);
    CodeRepeatIs(fold, n, lo, back, d, true);
    RegistersRepeat(n, back);
    if max == Fin(0) {
      SoundNone(low, r, g);
      SoundPre(b, lo, [], low, r, g);
    } else {
      RepeatSmaller(b, lo, back, min, max, greedy, d, body);
      CodeSound(fold, b, lo, back, d + k, low, r, g, len);
      SoundPre(b, lo, body, low, r, g);
      match LayoutOf(b, back, min, max)
      case Dropped =>
      case Star =>
        SoundStar(a, max == Inf, greedy, check, d, low, r, g);
        SoundConcat(pre, StarCode(a, max == Inf, greedy, check, d), low, r, g);
      case Counted0 =>
        var loop := CountedCode(a, min, max, greedy, check, d, d + 1);
        SoundCounted(a, min, max, greedy, check, d, low, r, g);
        SoundComplete(loop, low, r, g);
        EndIn(loop, 0);
        SoundJump(Split(greedy, |loop|), loop, low, r, g);
        SoundConcat(pre, Encode(Split(greedy, |loop|)) + loop, low, r, g);
        assert pre + Encode(Split(greedy, |loop|)) + loop == pre + (Encode(Split(greedy, |loop|)) + loop);
      case Plus =>
        var i := Split(!greedy, -(|a| + 5));
        JumpSize(i);
        SoundComplete(a, low, r, g);
        EndIn(a, 0);
        SoundLoop(a, i, low, r, g);
      case Counted =>
        SoundCounted(a, min, max, greedy, check, d, low, r, g);
    }
  }

  lemma RepeatSmaller(b: Node, lo: nat, back: bool, min: nat, max: Bound, greedy: bool, d: nat, body: seq<byte>)
    requires max != Fin(0)
    ensures |body| <= |AtomCode(b, lo, body)| <= |RepeatCode(b, lo, back, min, max, greedy, d, true, body)|
  {
    hide Encode, Checked, Plain, ResetCode, SetPosCode, CheckCode;
  }

  /** Every compiled program is sound: the search loop in front, the pattern, and the final match. */
  lemma ProgramSound(fold: nat -> nat, n: Node, sticky: bool, len: nat)
    requires Paired(n) && Valid(fold, n, 1 + Groups(n), len) && Engine.Compiles(n)
    requires |Matching.ProgramCode(fold, n, sticky, true)| < TWO31
    ensures Sound(Matching.ProgramCode(fold, n, sticky, true), 0, Registers(n, false), 1 + Groups(n))
  {
    hide Sound, Code, Encode, Canonical, Matching.Prologue;
    var low, r, g := 0, Registers(n, false), 1 + Groups(n);
    var c := Code(fold, Group(n), 0, false, 0, true);
    var pre := if sticky then [] else Matching.Prologue();
    CodeSound(fold, Group(n), 0, false, 0, low, r, g, len);
    if sticky {
      SoundNone(low, r, g);
    } else {
      SoundPrologue(low, r, g);
    }
    SoundInstr(Match, low, r, g);
    SoundConcat(pre, c, low, r, g);
    SoundConcat(pre + c, Encode(Match), low, r, g);
  }

  lemma SoundPrologue(low: nat, r: nat, g: nat)
    ensures Sound(Matching.Prologue(), low, r, g)
  {
    hide Sound, Encode;
    SoundInstr(Instr.AnyChar, low, r, g);
    assert |Encode(Instr.AnyChar)| == Bytecode.Size(Instr.AnyChar);
    SoundStarLoop(false, Encode(Instr.AnyChar), low, r, g);
  }
}
