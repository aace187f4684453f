/**
  The numbering of registers: one pass over the finished program treats them as a
  stack. Instructions that set a register push it, those that end a loop pop.
 */
module RegisterAllocation {
  import opened Bytes
  import opened Bytecode
  import opened Patterns
  import opened RangeTable
  import opened CodeGen
  import opened StraightLine

  const REGISTER_COUNT_MAX: nat := 255
  const REOP_COUNT: nat := 45

  /** How many registers an opcode pushes (positive) or pops (negative). */
  function StackEffect(op: byte): int {
    if op == OP_SET_I32 || op == OP_SET_CHAR_POS then 1
    else if op == OP_CHECK_ADVANCE || op == OP_LOOP || op == OP_LOOP_SPLIT || op == OP_LOOP_SPLIT + 1 then -1
    else if op == OP_LOOP_SPLIT + 2 || op == OP_LOOP_SPLIT + 3 then -2
    else 0
  }

  /** The code with its register operands filled in, and the most registers in use at a time. */
  datatype Allocation = Allocation(code: seq<byte>, depth: nat, max: nat) | Unbalanced

  function Prepend(c: seq<byte>, a: Allocation): Allocation {
    match a
    case Allocation(code, depth, max) => Allocation(c + code, depth, max)
    case Unbalanced => Unbalanced
  }

  /** The register operand, if there is one, is set to the top of the stack. */
  function Numbered(unit: seq<byte>, depth: nat): (r: seq<byte>)
    requires |unit| >= 1
    ensures |r| == |unit|
  {
    var e := StackEffect(unit[0]);
    if e == 0 || |unit| < 2 then unit
    else unit[1 := (if e > 0 then depth else depth + e) % 256]
  }

  function Allocate(bc: seq<byte>, depth: nat, max: nat): Allocation
    decreases |bc|
  {
    if bc == [] then Allocation([], depth, max)
    else
      var size := HeadSize(bc);
      var depth' := depth + StackEffect(bc[0]);
      if bc[0] >= REOP_COUNT || size > |bc| || depth' < 0 then Unbalanced
      else Prepend(Numbered(bc[..size], depth), Allocate(bc[size..], depth', Max(max, depth')))
  }

  /** One turn of the pass, when the whole of it goes through. */
  lemma AllocateStep(bc: seq<byte>, depth: nat, max: nat)
    requires bc != [] && Allocate(bc, depth, max).Allocation?
    ensures var size, depth' := HeadSize(bc), depth + StackEffect(bc[0]);
            && bc[0] < REOP_COUNT && size <= |bc| && depth' >= 0 && (StackEffect(bc[0]) != 0 ==> size >= 2)
            && Allocate(bc[size..], depth', Max(max, depth')).Allocation?
            && Allocate(bc, depth, max) == Prepend(Numbered(bc[..size], depth), Allocate(bc[size..], depth', Max(max, depth')))
  {
  }

  lemma {:induction false} AllocateMax(bc: seq<byte>, depth: nat, max: nat)
    requires Allocate(bc, depth, max).Allocation?
    ensures Allocate(bc, depth, max).max >= max
    decreases |bc|
  {
    hide HeadSize, Numbered;
    if bc != [] {
      AllocateStep(bc, depth, max);
      AllocateMax(bc[HeadSize(bc)..], depth + StackEffect(bc[0]), Max(max, depth + StackEffect(bc[0])));
    }
  }

  // ----- what the pass makes of a piece of code -----

  /**
    Wherever it stands, the piece `c` is turned into `a`; the stack goes from `d` to
    `d'` registers and has at most `peak` on the way.
   */
  ghost predicate Numbers(c: seq<byte>, a: seq<byte>, d: nat, d': nat, peak: nat) {
    && |a| == |c| && d <= peak && d' <= peak
    && forall rest: seq<byte>, max: nat :: d <= max ==> Pass(c, a, d, d', peak, rest, max)
  }

  ghost predicate Pass(c: seq<byte>, a: seq<byte>, d: nat, d': nat, peak: nat, rest: seq<byte>, max: nat) {
    Allocate(c + rest, d, max) == Prepend(a, Allocate(rest, d', Max(max, peak)))
  }

  lemma PrependTwice(a: seq<byte>, b: seq<byte>, x: Allocation)
    ensures Prepend(a, Prepend(b, x)) == Prepend(a + b, x)
  {
    if x.Allocation? { assert a + (b + x.code) == (a + b) + x.code; }
  }

  lemma NumbersNone(d: nat)
    ensures Numbers([], [], d, d, d)
  {
    hide Allocate;
    forall rest: seq<byte>, max: nat | d <= max ensures Pass([], [], d, d, d, rest, max) {
      assert [] + rest == rest;
      var x := Allocate(rest, d, max);
      if x.Allocation? { assert [] + x.code == x.code; }
    }
  }

  lemma NumbersThen(c1: seq<byte>, a1: seq<byte>, d: nat, d1: nat, peak1: nat,
                    c2: seq<byte>, a2: seq<byte>, d2: nat, peak2: nat)
    requires Numbers(c1, a1, d, d1, peak1) && Numbers(c2, a2, d1, d2, peak2)
    ensures Numbers(c1 + c2, a1 + a2, d, d2, Max(peak1, peak2))
  {
    hide Allocate, Prepend;
    forall rest: seq<byte>, max: nat | d <= max ensures Pass(c1 + c2, a1 + a2, d, d2, Max(peak1, peak2), rest, max) {
      assert Pass(c1, a1, d, d1, peak1, c2 + rest, max);
      assert Pass(c2, a2, d1, d2, peak2, rest, Max(max, peak1));
      assert c1 + c2 + rest == c1 + (c2 + rest);
      PrependTwice(a1, a2, Allocate(rest, d2, Max(Max(max, peak1), peak2)));
      assert Max(Max(max, peak1), peak2) == Max(max, Max(peak1, peak2));
    }
  }

  lemma NumbersUnit(i: Instr, table: seq<byte>, d: nat)
    requires Unit(i, table) && d + StackEffect(Opcode(i)) >= 0
    ensures Numbers(Encode(i) + table, Numbered(Encode(i) + table, d), d, d + StackEffect(Opcode(i)), Max(d, d + StackEffect(Opcode(i))))
  {
    hide Encode, HeadSize, Numbered, StackEffect;
    var c, d' := Encode(i) + table, d + StackEffect(Opcode(i));
    forall rest: seq<byte>, max: nat | d <= max ensures Pass(c, Numbered(c, d), d, d', Max(d, d'), rest, max) {
      HeadOfUnit(i, table, rest);
      var bc := c + rest;
      assert bc[|c|..] == rest && bc[..|c|] == c;
    }
  }

  predicate HasRegister(i: Instr) {
    i.SetI32? || i.SetPos? || i.CheckAdvance? || i.Loop? || i.LoopSplit?
  }

  /** An instruction without a register, and its table, are left alone. */
  lemma NumbersPlain(i: Instr, table: seq<byte>, d: nat)
    requires Unit(i, table) && !HasRegister(i)
    ensures Numbers(Encode(i) + table, Encode(i) + table, d, d, d)
  {
    hide Numbers;
    NumbersUnit(i, table, d);
    assert StackEffect((Encode(i) + table)[0]) == 0;
  }

  lemma NumbersInstr(i: Instr, d: nat)
    requires Countable(i) && !i.Range? && !HasRegister(i)
    ensures Numbers(Encode(i), Encode(i), d, d, d)
  {
    hide Numbers, Encode;
    NumbersPlain(i, [], d);
    assert Encode(i) + [] == Encode(i);
  }

  function WithRegister(i: Instr, r: nat): Instr
    requires HasRegister(i)
  {
    i.(reg := r)
  }

  lemma SecondByte(i: Instr, a: byte, b: byte, b': byte, rest: seq<byte>)
    requires Encode(i) == [a, b] + rest
    ensures |Encode(i)| >= 2 && Encode(i)[1 := b'] == [a, b'] + rest
  {
    hide Encode;
  }

  lemma OpcodeSame(i: Instr, r: nat)
    requires HasRegister(i)
    ensures Opcode(WithRegister(i, r)) == Opcode(i)
  {
  }

  lemma EncodeRegister(i: Instr, r: nat)
    requires HasRegister(i)
    ensures |Encode(i)| >= 2 && Encode(i)[0] == Opcode(i)
    ensures Encode(WithRegister(i, r)) == Encode(i)[1 := r % 256]
  {
    hide LE16, LE32, GroupBytes, Opcode;
    OpcodeSame(i, r);
    var rest := Operands(i)[1..];
    assert Operands(i) == [i.reg % 256] + rest;
    assert Operands(WithRegister(i, r)) == [r % 256] + rest;
    assert Encode(i) == [Opcode(i), i.reg % 256] + rest;
    SecondByte(i, Opcode(i), i.reg % 256, r % 256, rest);
  }

  /** An instruction with a register gets the slot that it pushes, or the lowest of those it pops. */
  lemma NumbersRegister(i: Instr, d: nat, d': nat)
    requires HasRegister(i) && d' == d + StackEffect(Opcode(i))
    ensures Numbers(Encode(i), Encode(WithRegister(i, if d < d' then d else d')), d, d', Max(d, d'))
  {
    hide Numbers, Encode, WithRegister;
    assert Encode(i) + [] == Encode(i);
    EncodeRegister(i, if d < d' then d else d');
    assert StackEffect(Opcode(i)) != 0;
    NumbersUnit(i, [], d);
  }

  // ----- whole patterns -----

  /** What is to be shown of a pattern: the pass fills in the registers that the code function gives it. */
  ghost predicate Allocated(fold: nat -> nat, n: Node, lo: nat, back: bool, d: nat)
    requires Paired(n)
  {
    Numbers(Code(fold, n, lo, back, d, false), Code(fold, n, lo, back, d, true), d, d, d + Registers(n, back))
  }

  /**
    The pass over the code of a pattern fills in the registers that the code function
    gives it, leaves the stack as high as it was, and its highest point is `Registers`.
   */
  lemma {:induction false} AllocateCode(fold: nat -> nat, n: Node, lo: nat, back: bool, d: nat)
    requires Encodable(n) && Paired(n)
    ensures Allocated(fold, n, lo, back, d)
    decreases n, 1
  {
    hide Encode, Numbers, OneCharCode, RepeatCode, OrCode, LookCode, LoopRegisters;
    match n
    case Empty => NumbersNone(d);
    case Line(atEnd, multi) => NumbersInstr(Instr.Line(atEnd, multi), d);
    case Word(neg, icase) => NumbersInstr(Instr.Word(neg, icase), d);
    case BackRef(gs, icase) => NumbersInstr(Instr.BackRef(back, icase, gs), d);
    case Cat(_, _) => AllocateCat(fold, n, lo, back, d);
    case Or(l, r) => AllocateOr(fold, l, r, lo, back, d);
    case Group(b) => AllocateGroup(fold, b, lo, back, d);
    case Look(neg, behind, b) => AllocateLook(fold, neg, behind, b, lo, back, d);
    case Repeat(_, _, _, _) => AllocateRepeat(fold, n, lo, back, d);
    case _ => AllocateAtom(fold, n, lo, back, d);
  }

  lemma NumbersOneChar(fold: nat -> nat, n: Node, d: nat)
    requires n.OneChar() && Encodable(n)
    ensures Numbers(OneCharCode(fold, n), OneCharCode(fold, n), d, d, d)
  {
    hide Encode, Numbers, Table;
    match n
    case Char(c, icase) => NumbersInstr(CharInstr(Folded(fold, c, icase), icase), d);
    case Dot => NumbersInstr(Instr.Dot, d);
    case AnyChar => NumbersInstr(Instr.AnyChar, d);
    case Space(neg) => NumbersInstr(Instr.Space(neg), d);
    case Set(points, icase) =>
      if points == [] {
        NumbersInstr(Instr.Char(UINT32_MAX, true, false), d);
      } else {
        NumbersPlain(Range(NeedsWide(points), icase, |points| / 2), Table(points, NeedsWide(points)), d);
      }
  }

  lemma AllocateAtom(fold: nat -> nat, n: Node, lo: nat, back: bool, d: nat)
    requires n.OneChar() && Encodable(n) && Paired(n)
    ensures Allocated(fold, n, lo, back, d)
  {
    hide Encode, Numbers, OneCharCode;
    var c, prev := OneCharCode(fold, n), Encode(Instr.Prev);
    NumbersOneChar(fold, n, d);
    if back {
      NumbersInstr(Instr.Prev, d);
      NumbersThen(prev, prev, d, d, d, c, c, d, d);
      NumbersThen(prev + c, prev + c, d, d, d, prev, prev, d, d);
    }
  }

  lemma {:induction false} AllocateCat(fold: nat -> nat, n: Node, lo: nat, back: bool, d: nat)
    requires n.Cat? && Encodable(n) && Paired(n)
    ensures Allocated(fold, n, lo, back, d)
    decreases n, 0
  {
    hide Numbers, Code, Registers, FirstLo, SecondLo;
    var first, second := FirstTerm(n, back), SecondTerm(n, back);
    var flo, slo := FirstLo(n, lo, back), SecondLo(n, lo, back);
    CodeCatIs(fold, n, lo, back, d, false);
    CodeCatIs(fold, n, lo, back, d, true);
    AllocateCode(fold, first, flo, back, d);
    AllocateCode(fold, second, slo, back, d);
    NumbersThen(Code(fold, first, flo, back, d, false), Code(fold, first, flo, back, d, true), d, d, d + Registers(first, back),
                Code(fold, second, slo, back, d, false), Code(fold, second, slo, back, d, true), d, d + Registers(second, back));
  }

  lemma {:induction false} AllocateOr(fold: nat -> nat, l: Node, r: Node, lo: nat, back: bool, d: nat)
    requires Encodable(Or(l, r)) && Paired(Or(l, r))
    ensures Allocated(fold, Or(l, r), lo, back, d)
    decreases Or(l, r), 0
  {
    hide Numbers, Code, Encode, Groups, Registers, OrCode;
    var cl, cr := Code(fold, l, lo, back, d, false), Code(fold, r, lo + Groups(l), back, d, false);
    var al, ar := Code(fold, l, lo, back, d, true), Code(fold, r, lo + Groups(l), back, d, true);
    CodeOrIs(fold, l, r, lo, back, d, false);
    CodeOrIs(fold, l, r, lo, back, d, true);
    RegistersOr(l, r, back);
    AllocateCode(fold, l, lo, back, d);
    AllocateCode(fold, r, lo + Groups(l), back, d);
    NumbersOr(cl, al, cr, ar, d, d + Registers(l, back), d + Registers(r, back));
  }

  lemma NumbersOr(cl: seq<byte>, al: seq<byte>, cr: seq<byte>, ar: seq<byte>, d: nat, peak: nat, peak': nat)
    requires Numbers(cl, al, d, d, peak) && Numbers(cr, ar, d, d, peak')
    ensures Numbers(OrCode(cl, cr), OrCode(al, ar), d, d, Max(peak, peak'))
  {
    hide Numbers, Encode;
    NumbersMeans(cl, al, d, d, peak);
    NumbersMeans(cr, ar, d, d, peak');
    var split, goto_ := Encode(Split(true, |cl| + 5)), Encode(Goto(|cr|));
    NumbersInstr(Split(true, |cl| + 5), d);
    NumbersInstr(Goto(|cr|), d);
    NumbersThen(split, split, d, d, d, cl, al, d, peak);
    NumbersThen(split + cl, split + al, d, d, peak, goto_, goto_, d, d);
    NumbersThen(split + cl + goto_, split + al + goto_, d, d, peak, cr, ar, d, peak');
  }

  lemma NumbersMeans(c: seq<byte>, a: seq<byte>, d: nat, d': nat, peak: nat)
    requires Numbers(c, a, d, d', peak)
    ensures |a| == |c| && d <= peak && d' <= peak
  {
  }

  /** Instructions without registers around a piece. */
  lemma NumbersAround(i: Instr, c: seq<byte>, a: seq<byte>, j: Instr, d: nat, peak: nat)
    requires Numbers(c, a, d, d, peak)
    requires Countable(i) && !i.Range? && !HasRegister(i) && Countable(j) && !j.Range? && !HasRegister(j)
    ensures Numbers(Encode(i) + c + Encode(j), Encode(i) + a + Encode(j), d, d, peak)
  {
    hide Numbers, Encode;
    NumbersMeans(c, a, d, d, peak);
    NumbersInstr(i, d);
    NumbersInstr(j, d);
    NumbersThen(Encode(i), Encode(i), d, d, d, c, a, d, peak);
    NumbersThen(Encode(i) + c, Encode(i) + a, d, d, peak, Encode(j), Encode(j), d, d);
  }

  lemma {:induction false} AllocateGroup(fold: nat -> nat, b: Node, lo: nat, back: bool, d: nat)
    requires Encodable(Group(b)) && Paired(Group(b))
    ensures Allocated(fold, Group(b), lo, back, d)
    decreases Group(b), 0
  {
    hide Numbers, Code, Encode, Registers;
    CodeGroupIs(fold, b, lo, back, d, false);
    CodeGroupIs(fold, b, lo, back, d, true);
    AllocateCode(fold, b, lo + 1, back, d);
    NumbersAround(Save(back, lo), Code(fold, b, lo + 1, back, d, false), Code(fold, b, lo + 1, back, d, true), Save(!back, lo),
                  d, d + Registers(b, back));
  }

  lemma {:induction false} AllocateLook(fold: nat -> nat, neg: bool, behind: bool, b: Node, lo: nat, back: bool, d: nat)
    requires Encodable(Node.Look(neg, behind, b)) && Paired(Node.Look(neg, behind, b))
    ensures Allocated(fold, Node.Look(neg, behind, b), lo, back, d)
    decreases Node.Look(neg, behind, b), 0
  {
    hide Numbers, Code, Encode;
    var c, a := Code(fold, b, lo, behind, d, false), Code(fold, b, lo, behind, d, true);
    CodeLookIs(fold, neg, behind, b, lo, back, d, false);
    CodeLookIs(fold, neg, behind, b, lo, back, d, true);
    AllocateCode(fold, b, lo, behind, d);
    NumbersMeans(c, a, d, d, d + Registers(b, behind));
    NumbersAround(Instr.Look(neg, |c| + 1), c, a, LookMatch(neg), d, d + Registers(b, behind));
  }

  // ----- quantifiers -----

  lemma NumbersReset(b: Node, lo: nat, d: nat)
    ensures Numbers(ResetCode(b, lo), ResetCode(b, lo), d, d, d)
  {
    hide Numbers, Encode;
    if Groups(b) > 0 { NumbersInstr(Reset(lo, lo + Groups(b) - 1), d); } else { NumbersNone(d); }
  }

  lemma NumbersPre(b: Node, lo: nat, d: nat)
    ensures Numbers(PreCode(b, lo), PreCode(b, lo), d, d, d)
  {
    hide Numbers, ResetCode;
    NumbersReset(b, lo, d);
    NumbersNone(d);
  }

  lemma NumbersAtom(b: Node, lo: nat, c: seq<byte>, a: seq<byte>, d: nat, peak: nat)
    requires Numbers(c, a, d, d, peak)
    ensures Numbers(AtomCode(b, lo, c), AtomCode(b, lo, a), d, d, peak)
  {
    hide Numbers, ResetCode;
    var reset := if Plain(b) then [] else ResetCode(b, lo);
    NumbersReset(b, lo, d);
    NumbersNone(d);
    NumbersThen(reset, reset, d, d, d, c, a, d, peak);
    NumbersMeans(c, a, d, d, peak);
  }

  lemma NumbersSetPos(check: bool, d: nat)
    ensures Numbers(SetPosCode(check, 0), SetPosCode(check, d), d, if check then d + 1 else d, if check then d + 1 else d)
  {
    hide Numbers, Encode;
    if check { NumbersRegister(SetPos(0), d, d + 1); } else { NumbersNone(d); }
  }

  lemma NumbersCheck(check: bool, d: nat)
    ensures Numbers(CheckCode(check, 0), CheckCode(check, d), if check then d + 1 else d, d, if check then d + 1 else d)
  {
    hide Numbers, Encode;
    if check { NumbersRegister(CheckAdvance(0), d + 1, d); } else { NumbersNone(d); }
  }

  lemma NumbersStar(c: seq<byte>, a: seq<byte>, loops: bool, greedy: bool, check: bool, d: nat, peak: nat)
    requires var k := if check then 1 else 0; Numbers(c, a, d + k, d + k, peak)
    ensures Numbers(StarCode(c, loops, greedy, check, 0), StarCode(a, loops, greedy, check, d), d, d, peak)
  {
    hide Numbers, Encode, SetPosCode, CheckCode;
    var k := if check then 1 else 0;
    var s, s', e, e' := SetPosCode(check, 0), SetPosCode(check, d), CheckCode(check, 0), CheckCode(check, d);
    NumbersMeans(c, a, d + k, d + k, peak);
    NumbersSetPos(check, d);
    NumbersCheck(check, d);
    NumbersThen(s, s', d, d + k, d + k, c, a, d + k, peak);
    NumbersThen(s + c, s' + a, d, d + k, peak, e, e', d, d + k);
    var inner, inner' := s + c + e, s' + a + e';
    var split := Split(greedy, |inner| + (if loops then 5 else 0));
    var again := if loops then Encode(Goto(-(5 + |inner| + 5))) else [];
    NumbersInstr(split, d);
    NumbersThen(Encode(split), Encode(split), d, d, d, inner, inner', d, peak);
    if loops { NumbersInstr(Goto(-(5 + |inner| + 5)), d); } else { NumbersNone(d); }
    NumbersThen(Encode(split) + inner, Encode(split) + inner', d, d, peak, again, again, d, d);
  }

  lemma NumbersCounted(c: seq<byte>, a: seq<byte>, min: nat, max: Bound, greedy: bool, check: bool, d: nat, peak: nat)
    requires var k := if check then 2 else 1; Numbers(c, a, d + k, d + k, peak)
    requires check ==> !(min > 0 && max == Fin(min))
    ensures Numbers(CountedCode(c, min, max, greedy, check, 0, 0), CountedCode(a, min, max, greedy, check, d, d + 1), d, d, peak)
  {
    hide Numbers, Encode, SetPosCode;
    var k := if check then 2 else 1;
    var s, s' := SetPosCode(check, 0), SetPosCode(check, d + 1);
    NumbersMeans(c, a, d + k, d + k, peak);
    var set_, i := SetI32(0, Limit(max)), LoopInstr(|s + c|, min, max, greedy, check, 0);
    NumbersRegister(set_, d, d + 1);
    NumbersSetPos(check, d + 1);
    NumbersRegister(i, d + k, d);
    NumbersThen(s, s', d + 1, d + k, d + k, c, a, d + k, peak);
    NumbersThen(s + c, s' + a, d + 1, d + k, peak, Encode(i), Encode(WithRegister(i, d)), d, d + k);
    NumbersThen(Encode(set_), Encode(WithRegister(set_, d)), d, d + 1, d + 1,
                s + c + Encode(i), s' + a + Encode(WithRegister(i, d)), d, peak);
  }

  lemma {:induction false} AllocateRepeat(fold: nat -> nat, n: Node, lo: nat, back: bool, d: nat)
    requires n.Repeat? && Encodable(n) && Paired(n)
    ensures Allocated(fold, n, lo, back, d)
    decreases n, 0
  {
    hide Numbers, Code, Encode, PreCode, AtomCode, StarCode, CountedCode, Registers;
    var b, min, max, greedy := n.body, n.min, n.max, n.greedy;
    var k, check := LoopRegisters(b, back, min, max), Checked(b, back, min, max);
    var body, body' := Code(fold, b, lo, back, d + k, false), Code(fold, b, lo, back, d + k, true);
    var peak := d + k + Registers(b, back);
    var c, a := AtomCode(b, lo, body), AtomCode(b, lo, body');
    CodeRepeatIs(fold, n, lo, back, d, false);
    CodeRepeatIs(fold, n, lo, back, d, true);
    RegistersRepeat(n, back);
    AllocateCode(fold, b, lo, back, d + k);
    NumbersAtom(b, lo, body, body', d + k, peak);
    NumbersMeans(c, a, d + k, d + k, peak);
    NumbersPre(b, lo, d);
    var pre := PreCode(b, lo);
    match LayoutOf(b, back, min, max)
    case Dropped =>
    case Star =>
      NumbersStar(c, a, max == Inf, greedy, check, d, peak);
      NumbersThen(pre, pre, d, d, d, StarCode(c, max == Inf, greedy, check, 0), StarCode(a, max == Inf, greedy, check, d), d, peak);
    case Counted0 =>
      NumbersCounted(c, a, min, max, greedy, check, d, peak);
      var loop, loop' := CountedCode(c, min, max, greedy, check, 0, 0), CountedCode(a, min, max, greedy, check, d, d + 1);
      NumbersMeans(loop, loop', d, d, peak);
      var split := Encode(Split(greedy, |loop|));
      NumbersInstr(Split(greedy, |loop|), d);
      NumbersThen(pre, pre, d, d, d, split, split, d, d);
      NumbersThen(pre + split, pre + split, d, d, d, loop, loop', d, peak);
    case Plus =>
      NumbersInstr(Split(!greedy, -(|a| + 5)), d);
      NumbersThen(c, a, d, d, peak, Encode(Split(!greedy, -(|a| + 5))), Encode(Split(!greedy, -(|a| + 5))), d, d);
    case Counted =>
      NumbersCounted(c, a, min, max, greedy, check, d, peak);
  }

  lemma RegistersRepeat(n: Node, back: bool)
    requires n.Repeat?
    ensures Registers(n, back) ==
            if n.max == Fin(0) then 0 else LoopRegisters(n.body, back, n.min, n.max) + Registers(n.body, back)
  {
    hide LoopRegisters;
  }
}
