/**
  The byte code of a pattern, as a function. `lo` is the number of the first group
  inside, `back` the direction, `d` the number of registers already in use and `alloc`
  tells whether register operands are filled in: they are all 0 when the code is first
  written, and numbered by a pass over the finished program.
 */
module CodeGen {
  import opened Bytes
  import opened Bytecode
  import opened Patterns
  import opened RangeTable

  const INT32_MAX: int := 0x7FFF_FFFF

  // ----- analysis of the atom of a quantifier -----

  /** The code runs straight through: no jump, choice point or counter. */
  predicate Linear(n: Node) {
    match n
    case Cat(l, r) => Linear(l) && Linear(r)
    case Group(b) => Linear(b)
    case Or(_, _) => false
    case Look(_, _, _) => false
    case Repeat(_, _, max, _) => max == Fin(0)
    case _ => true
  }

  /** Straight-line code without back references: the captures need no reset between passes. */
  predicate Plain(n: Node) {
    match n
    case Cat(l, r) => Plain(l) && Plain(r)
    case Group(b) => Plain(b)
    case Or(_, _) => false
    case Look(_, _, _) => false
    case BackRef(_, _) => false
    case Repeat(_, _, max, _) => max == Fin(0)
    case _ => true
  }

  /** A character is consumed before the first jump, choice point or counter. */
  predicate Advances(n: Node, back: bool) {
    match n
    case Cat(_, _) =>
      var first := FirstTerm(n, back);
      Advances(first, back) || (Linear(first) && Advances(SecondTerm(n, back), back))
    case Group(b) => Advances(b, back)
    case Repeat(b, min, max, _) => min > 0 && max != Fin(0) && Advances(b, back)
    case _ => n.OneChar()
  }

  // ----- code -----

  function Reg(d: nat, alloc: bool): nat {
    if alloc then d else 0
  }

  function Folded(fold: nat -> nat, c: nat, icase: bool): nat {
    if icase then fold(c) else c
  }

  function CharInstr(c: nat, icase: bool): Instr {
    Instr.Char(c, c > 0xFFFF, icase)
  }

  function RangeCode(points: seq<nat>, icase: bool): seq<byte>
    requires |points| % 2 == 0
  {
    if points == [] then Encode(Instr.Char(UINT32_MAX, true, false))
    else Encode(Range(NeedsWide(points), icase, |points| / 2)) + Table(points, NeedsWide(points))
  }

  /** The code that reads one character going forward. */
  function OneCharCode(fold: nat -> nat, n: Node): seq<byte>
    requires n.OneChar() && (n.Set? ==> |n.points| % 2 == 0)
  {
    match n
    case Char(c, icase) => Encode(CharInstr(Folded(fold, c, icase), icase))
    case Dot => Encode(Instr.Dot)
    case AnyChar => Encode(Instr.AnyChar)
    case Space(neg) => Encode(Instr.Space(neg))
    case Set(points, icase) => RangeCode(points, icase)
  }

  /** Sets have paired end points. */
  predicate Paired(n: Node) {
    match n
    case Set(points, _) => |points| % 2 == 0
    case Cat(l, r) => Paired(l) && Paired(r)
    case Or(l, r) => Paired(l) && Paired(r)
    case Group(b) => Paired(b)
    case Look(_, _, b) => Paired(b)
    case Repeat(b, _, _, _) => Paired(b)
    case _ => true
  }

  function Code(fold: nat -> nat, n: Node, lo: nat, back: bool, d: nat, alloc: bool): seq<byte>
    requires Paired(n)
    decreases n, 0
  {
    match n
    case Empty => []
    case Line(atEnd, multi) => Encode(Instr.Line(atEnd, multi))
    case Word(neg, icase) => Encode(Instr.Word(neg, icase))
    case BackRef(groups, icase) => Encode(Instr.BackRef(back, icase, groups))
    case Cat(_, _) =>
      Code(fold, FirstTerm(n, back), FirstLo(n, lo, back), back, d, alloc) +
      Code(fold, SecondTerm(n, back), SecondLo(n, lo, back), back, d, alloc)
    case Or(l, r) =>
      OrCode(Code(fold, l, lo, back, d, alloc), Code(fold, r, lo + Groups(l), back, d, alloc))
    case Group(b) => Encode(Save(back, lo)) + Code(fold, b, lo + 1, back, d, alloc) + Encode(Save(!back, lo))
    case Look(neg, behind, b) => LookCode(neg, Code(fold, b, lo, behind, d, alloc))
    case Repeat(b, min, max, greedy) =>
      var body := Code(fold, b, lo, back, d + LoopRegisters(b, back, min, max), alloc);
      RepeatCode(b, lo, back, min, max, greedy, d, alloc, body)
    case _ => if back then Encode(Instr.Prev) + OneCharCode(fold, n) + Encode(Instr.Prev) else OneCharCode(fold, n)
  }

  function OrCode(cl: seq<byte>, cr: seq<byte>): seq<byte> {
    Encode(Split(true, |cl| + 5)) + cl + Encode(Goto(|cr|)) + cr
  }

  function LookCode(neg: bool, c: seq<byte>): seq<byte> {
    Encode(Instr.Look(neg, |c| + 1)) + c + Encode(LookMatch(neg))
  }

  // ----- quantifiers -----

  /** The five layouts of a quantifier. */
  datatype Layout = Dropped | Star | Counted0 | Plus | Counted

  function LayoutOf(b: Node, back: bool, min: nat, max: Bound): Layout {
    if max == Fin(0) then Dropped
    else if min == 0 then if max == Fin(1) || max == Inf then Star else Counted0
    else if min == 1 && max == Inf && Advances(b, back) then Plus
    else Counted
  }

  /** Passes after the required ones have to be checked for progress. */
  predicate Checked(b: Node, back: bool, min: nat, max: Bound) {
    !Advances(b, back) && !(min > 0 && max == Fin(min))
  }

  /** How many registers a quantifier uses around its atom. */
  function LoopRegisters(b: Node, back: bool, min: nat, max: Bound): nat {
    var check := if Checked(b, back, min, max) then 1 else 0;
    match LayoutOf(b, back, min, max)
    case Dropped => 0
    case Star => check
    case Plus => 0
    case _ => 1 + check
  }

  function Limit(max: Bound): nat {
    match max
    case Inf => INT32_MAX
    case Fin(n) => n
  }

  /** Forgets the captures of the atom, if it has any. */
  function ResetCode(b: Node, lo: nat): seq<byte> {
    if Groups(b) > 0 then Encode(Reset(lo, lo + Groups(b) - 1)) else []
  }

  function SetPosCode(check: bool, r: nat): (c: seq<byte>)
    ensures |c| == if check then 2 else 0
  {
    if check then Encode(SetPos(r)) else []
  }

  function CheckCode(check: bool, r: nat): (c: seq<byte>)
    ensures |c| == if check then 2 else 0
  {
    if check then Encode(CheckAdvance(r)) else []
  }

  /** The atom with the reset of its captures, when the analysis asks for one at each pass. */
  function AtomCode(b: Node, lo: nat, body: seq<byte>): seq<byte> {
    (if Plain(b) then [] else ResetCode(b, lo)) + body
  }

  /** A single reset in front of a quantifier that may run its atom zero times. */
  function PreCode(b: Node, lo: nat): seq<byte> {
    if Plain(b) then ResetCode(b, lo) else []
  }

  function RepeatCode(b: Node, lo: nat, back: bool, min: nat, max: Bound, greedy: bool, d: nat, alloc: bool,
                      body: seq<byte>): seq<byte>
  {
    var check := Checked(b, back, min, max);
    var a := AtomCode(b, lo, body);
    match LayoutOf(b, back, min, max)
    case Dropped => PreCode(b, lo)
    case Star => PreCode(b, lo) + StarCode(a, max == Inf, greedy, check, Reg(d, alloc))
    case Counted0 =>
      var loop := CountedCode(a, min, max, greedy, check, Reg(d, alloc), Reg(d + 1, alloc));
      PreCode(b, lo) + Encode(Split(greedy, |loop|)) + loop
    case Plus => a + Encode(Split(!greedy, -(|a| + 5)))
    case Counted => CountedCode(a, min, max, greedy, check, Reg(d, alloc), Reg(d + 1, alloc))
  }

  /** `?` and `*`. */
  function StarCode(a: seq<byte>, loops: bool, greedy: bool, check: bool, r: nat): seq<byte> {
    var inner := SetPosCode(check, r) + a + CheckCode(check, r);
    Encode(Split(greedy, |inner| + (if loops then 5 else 0))) + inner +
    (if loops then Encode(Goto(-(5 + |inner| + 5))) else [])
  }

  /** A counter set to the maximum, the atom, and an instruction that counts down. */
  function CountedCode(a: seq<byte>, min: nat, max: Bound, greedy: bool, check: bool, r: nat, r': nat): seq<byte> {
    Encode(SetI32(r, Limit(max))) + CountedLoop(a, min, max, greedy, check, r, r')
  }

  function CountedLoop(a: seq<byte>, min: nat, max: Bound, greedy: bool, check: bool, r: nat, r': nat): seq<byte> {
    var inner := SetPosCode(check, r') + a;
    inner + Encode(LoopInstr(|inner|, min, max, greedy, check, r))
  }

  function LoopInstr(size: nat, min: nat, max: Bound, greedy: bool, check: bool, r: nat): Instr {
    if min > 0 && max == Fin(min) then Loop(r, -(size + 6))
    else LoopSplit(check, !greedy, r, if Limit(max) < min then 0 else Limit(max) - min, -(size + 10))
  }

  // ----- what the compiler accepts -----

  /** The registers used by the code of `n`, above those already in use. */
  function Registers(n: Node, back: bool): nat {
    match n
    case Cat(l, r) => Max(Registers(l, back), Registers(r, back))
    case Or(l, r) => Max(Registers(l, back), Registers(r, back))
    case Group(b) => Registers(b, back)
    case Look(_, behind, b) => Registers(b, behind)
    case Repeat(b, min, max, _) =>
      if max == Fin(0) then 0 else LoopRegisters(b, back, min, max) + Registers(b, back)
    case _ => 0
  }

  function Max(a: nat, b: nat): nat {
    if a < b then b else a
  }

  /**
    Operands fit their fields, group references exist, and repetition counts stay
    below the value that stands for infinity: for an open quantifier, `len` plus the
    minimum does.
   */
  ghost predicate Valid(fold: nat -> nat, n: Node, groups: nat, len: nat) {
    match n
    case Char(c, icase) => Folded(fold, c, icase) < UINT32_MAX
    case Set(points, _) => Canonical(points) && |points| / 2 < 65535
    case BackRef(gs, _) => |gs| < 256 && forall k :: 0 <= k < |gs| ==> gs[k] < groups
    case Cat(l, r) => Valid(fold, l, groups, len) && Valid(fold, r, groups, len)
    case Or(l, r) => Valid(fold, l, groups, len) && Valid(fold, r, groups, len)
    case Group(b) => Valid(fold, b, groups, len)
    case Look(_, _, b) => Valid(fold, b, groups, len)
    case Repeat(b, min, max, _) =>
      && Valid(fold, b, groups, len)
      && match max { case Inf => min + len < INT32_MAX case Fin(n) => min <= n < INT32_MAX }
    case _ => true
  }

  // ----- the code of each kind of node -----

  lemma CodeCatIs(fold: nat -> nat, n: Node, lo: nat, back: bool, d: nat, alloc: bool)
    requires n.Cat? && Paired(n)
    ensures Paired(FirstTerm(n, back)) && Paired(SecondTerm(n, back))
    ensures Code(fold, n, lo, back, d, alloc) ==
            Code(fold, FirstTerm(n, back), FirstLo(n, lo, back), back, d, alloc) +
            Code(fold, SecondTerm(n, back), SecondLo(n, lo, back), back, d, alloc)
    ensures Registers(n, back) == Max(Registers(FirstTerm(n, back), back), Registers(SecondTerm(n, back), back))
  {
    hide Encode, OneCharCode, RepeatCode, OrCode, LookCode, LoopRegisters;
  }

  lemma CodeOrIs(fold: nat -> nat, l: Node, r: Node, lo: nat, back: bool, d: nat, alloc: bool)
    requires Paired(Or(l, r))
    ensures Paired(l) && Paired(r)
    ensures Code(fold, Or(l, r), lo, back, d, alloc) ==
            OrCode(Code(fold, l, lo, back, d, alloc), Code(fold, r, lo + Groups(l), back, d, alloc))
  {
    hide Encode, OneCharCode, RepeatCode, LookCode, OrCode, LoopRegisters;
  }

  lemma CodeGroupIs(fold: nat -> nat, b: Node, lo: nat, back: bool, d: nat, alloc: bool)
    requires Paired(Group(b))
    ensures Paired(b)
    ensures Code(fold, Group(b), lo, back, d, alloc) ==
            Encode(Save(back, lo)) + Code(fold, b, lo + 1, back, d, alloc) + Encode(Save(!back, lo))
    ensures Registers(Group(b), back) == Registers(b, back)
  {
    hide Encode, OneCharCode, RepeatCode, OrCode, LookCode, LoopRegisters;
  }

  lemma CodeLookIs(fold: nat -> nat, neg: bool, behind: bool, b: Node, lo: nat, back: bool, d: nat, alloc: bool)
    requires Paired(Node.Look(neg, behind, b))
    ensures Paired(b)
    ensures Code(fold, Node.Look(neg, behind, b), lo, back, d, alloc) == LookCode(neg, Code(fold, b, lo, behind, d, alloc))
    ensures Groups(Node.Look(neg, behind, b)) == Groups(b) && Registers(Node.Look(neg, behind, b), back) == Registers(b, behind)
  {
    hide Encode, OneCharCode, RepeatCode, OrCode, LookCode, LoopRegisters;
  }

  lemma CodeRepeatIs(fold: nat -> nat, n: Node, lo: nat, back: bool, d: nat, alloc: bool)
    requires n.Repeat? && Paired(n)
    ensures Code(fold, n, lo, back, d, alloc) ==
            RepeatCode(n.body, lo, back, n.min, n.max, n.greedy, d, alloc,
                       Code(fold, n.body, lo, back, d + LoopRegisters(n.body, back, n.min, n.max), alloc))
  {
    hide Encode, OneCharCode, RepeatCode, LookCode, OrCode, LoopRegisters;
  }

  lemma RegistersOr(l: Node, r: Node, back: bool)
    ensures Groups(Or(l, r)) == Groups(l) + Groups(r)
    ensures Registers(Or(l, r), back) == Max(Registers(l, back), Registers(r, back))
  {
  }
}
