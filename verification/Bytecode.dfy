/**
  The instruction set of the matcher: how one instruction is laid out in bytes and
  how it is read back. Jump offsets are relative to the end of the instruction.
 */
module Bytecode {
  import opened Bytes

  datatype Option<+T> = None | Some(value: T)

  datatype Instr =
    | Char(c: nat, big: bool, icase: bool)
    | Dot
    | AnyChar
    | Space(negated: bool)
    | Line(atEnd: bool, multi: bool)
    | Goto(off: int)
    | Split(nextFirst: bool, off: int)
    | Match
    | LookMatch(negated: bool)
    | Save(atEnd: bool, group: nat)
    | Reset(lo: nat, hi: nat)
    | Loop(reg: nat, off: int)
    | LoopSplit(check: bool, nextFirst: bool, reg: nat, limit: nat, off: int)
    | SetI32(reg: nat, val: nat)
    | Word(negated: bool, icase: bool)
    | BackRef(backward: bool, icase: bool, groups: seq<nat>)
    | Range(big: bool, icase: bool, n: nat)
    | Look(negated: bool, off: int)
    | SetPos(reg: nat)
    | CheckAdvance(reg: nat)
    | Prev

  const OP_CHAR: byte := 1
  const OP_CHAR32: byte := 3
  const OP_DOT: byte := 5
  const OP_ANY: byte := 6
  const OP_SPACE: byte := 7
  const OP_LINE_START: byte := 9
  const OP_GOTO: byte := 13
  const OP_SPLIT_GOTO_FIRST: byte := 14
  const OP_SPLIT_NEXT_FIRST: byte := 15
  const OP_MATCH: byte := 16
  const OP_LOOKAHEAD_MATCH: byte := 17
  const OP_SAVE_START: byte := 19
  const OP_SAVE_END: byte := 20
  const OP_SAVE_RESET: byte := 21
  const OP_LOOP: byte := 22
  const OP_LOOP_SPLIT: byte := 23
  const OP_SET_I32: byte := 27
  const OP_WORD_BOUNDARY: byte := 28
  const OP_BACK_REFERENCE: byte := 32
  const OP_RANGE: byte := 36
  const OP_RANGE32: byte := 38
  const OP_LOOKAHEAD: byte := 40
  const OP_SET_CHAR_POS: byte := 42
  const OP_CHECK_ADVANCE: byte := 43
  const OP_PREV: byte := 44

  function B(b: bool): (r: byte)
    ensures r <= 1
  {
    if b then 1 else 0
  }

  /** The opcode byte of an instruction: variants of one opcode are numbered consecutively. */
  function Opcode(i: Instr): (r: byte)
    ensures 1 <= r <= 44
  {
    match i
    case Char(_, big, icase) => (if big then OP_CHAR32 else OP_CHAR) + B(icase)
    case Dot => OP_DOT
    case AnyChar => OP_ANY
    case Space(neg) => OP_SPACE + B(neg)
    case Line(atEnd, multi) => OP_LINE_START + 2 * B(atEnd) + B(multi)
    case Goto(_) => OP_GOTO
    case Split(nf, _) => OP_SPLIT_GOTO_FIRST + B(nf)
    case Match => OP_MATCH
    case LookMatch(neg) => OP_LOOKAHEAD_MATCH + B(neg)
    case Save(atEnd, _) => OP_SAVE_START + B(atEnd)
    case Reset(_, _) => OP_SAVE_RESET
    case Loop(_, _) => OP_LOOP
    case LoopSplit(check, nf, _, _, _) => OP_LOOP_SPLIT + 2 * B(check) + B(nf)
    case SetI32(_, _) => OP_SET_I32
    case Word(neg, icase) => OP_WORD_BOUNDARY + 2 * B(neg) + B(icase)
    case BackRef(back, icase, _) => OP_BACK_REFERENCE + 2 * B(back) + B(icase)
    case Range(big, icase, _) => (if big then OP_RANGE32 else OP_RANGE) + B(icase)
    case Look(neg, _) => OP_LOOKAHEAD + B(neg)
    case SetPos(_) => OP_SET_CHAR_POS
    case CheckAdvance(_) => OP_CHECK_ADVANCE
    case Prev => OP_PREV
  }

  /** The operand bytes that follow the opcode. The table of a range instruction is not included. */
  function Operands(i: Instr): seq<byte> {
    match i
    case Char(c, big, _) => if big then LE32(c) else LE16(c)
    case Goto(off) => LE32(off)
    case Split(_, off) => LE32(off)
    case Save(_, g) => [g % 256]
    case Reset(lo, hi) => [lo % 256, hi % 256]
    case Loop(r, off) => [r % 256] + LE32(off)
    case LoopSplit(_, _, r, limit, off) => [r % 256] + LE32(limit) + LE32(off)
    case SetI32(r, v) => [r % 256] + LE32(v)
    case BackRef(_, _, gs) => [|gs| % 256] + GroupBytes(gs)
    case Range(_, _, n) => LE16(n)
    case Look(_, off) => LE32(off)
    case SetPos(r) => [r % 256]
    case CheckAdvance(r) => [r % 256]
    case _ => []
  }

  function GroupBytes(gs: seq<nat>): (r: seq<byte>)
    ensures |r| == |gs|
  {
    seq(|gs|, k requires 0 <= k < |gs| => gs[k] % 256)
  }

  function Encode(i: Instr): (r: seq<byte>)
    ensures |r| >= 1
  {
    [Opcode(i)] + Operands(i)
  }

  /** The operands fit the fields they are written to. */
  predicate Fits(i: Instr) {
    match i
    case Char(c, big, _) => if big then c < TWO32 else c < TWO16
    case Goto(off) => -TWO31 <= off < TWO31
    case Split(_, off) => -TWO31 <= off < TWO31
    case Save(_, g) => g < 256
    case Reset(lo, hi) => lo < 256 && hi < 256
    case Loop(r, off) => r < 256 && -TWO31 <= off < TWO31
    case LoopSplit(_, _, r, limit, off) => r < 256 && limit < TWO32 && -TWO31 <= off < TWO31
    case SetI32(r, v) => r < 256 && v < TWO32
    case BackRef(_, _, gs) => |gs| < 256 && forall k :: 0 <= k < |gs| ==> gs[k] < 256
    case Range(_, _, n) => n < TWO16
    case Look(_, off) => -TWO31 <= off < TWO31
    case SetPos(r) => r < 256
    case CheckAdvance(r) => r < 256
    case _ => true
  }

  /** The fixed size of an opcode, without the variable part of back references and ranges. */
  function FixedSize(op: byte): (r: nat)
    ensures 1 <= r <= 10
  {
    if op == OP_CHAR || op == OP_CHAR + 1 then 3
    else if op == OP_CHAR32 || op == OP_CHAR32 + 1 then 5
    else if OP_GOTO <= op <= OP_SPLIT_NEXT_FIRST then 5
    else if op == OP_SAVE_START || op == OP_SAVE_END then 2
    else if op == OP_SAVE_RESET then 3
    else if op == OP_LOOP || op == OP_SET_I32 then 6
    else if OP_LOOP_SPLIT <= op < OP_LOOP_SPLIT + 4 then 10
    else if OP_BACK_REFERENCE <= op < OP_BACK_REFERENCE + 4 then 2
    else if OP_RANGE <= op < OP_RANGE + 4 then 3
    else if op == OP_LOOKAHEAD || op == OP_LOOKAHEAD + 1 then 5
    else if op == OP_SET_CHAR_POS || op == OP_CHECK_ADVANCE then 2
    else 1
  }

  function ReadGroups(p: seq<byte>, pc: nat, n: nat): seq<nat>
    requires pc + n <= |p|
  {
    seq(n, k requires 0 <= k < n => p[pc + k] as nat)
  }

  /** Reads the instruction at `pc`, or None when there is none there. */
  function Fetch(p: seq<byte>, pc: int): Option<Instr> {
    if !(0 <= pc < |p|) || pc + FixedSize(p[pc]) > |p| then None
    else FetchOp(p, pc)
  }

  function FetchOp(p: seq<byte>, pc: nat): Option<Instr>
    requires pc < |p| && pc + FixedSize(p[pc]) <= |p|
  {
    var op := p[pc];
    if op == 1 || op == 2 then Some(Char(U16(p, pc + 1), false, op == 2))
    else if op == 3 || op == 4 then Some(Char(U32(p, pc + 1), true, op == 4))
    else if op == OP_DOT then Some(Dot)
    else if op == OP_ANY then Some(AnyChar)
    else if op == 7 || op == 8 then Some(Space(op == 8))
    else if 9 <= op <= 12 then Some(Line(op >= 11, op == 10 || op == 12))
    else if op == OP_GOTO then Some(Goto(S32(U32(p, pc + 1))))
    else if op == 14 || op == 15 then Some(Split(op == 15, S32(U32(p, pc + 1))))
    else if op == OP_MATCH then Some(Match)
    else if op == 17 || op == 18 then Some(LookMatch(op == 18))
    else if op == 19 || op == 20 then Some(Save(op == 20, p[pc + 1]))
    else if op == OP_SAVE_RESET then Some(Reset(p[pc + 1], p[pc + 2]))
    else FetchLoopOp(p, pc)
  }

  function FetchLoopOp(p: seq<byte>, pc: nat): Option<Instr>
    requires pc < |p| && pc + FixedSize(p[pc]) <= |p|
  {
    var op := p[pc];
    if op == OP_LOOP then Some(Loop(p[pc + 1], S32(U32(p, pc + 2))))
    else if 23 <= op <= 26 then
      Some(LoopSplit(op >= 25, op == 24 || op == 26, p[pc + 1], U32(p, pc + 2), S32(U32(p, pc + 6))))
    else if op == OP_SET_I32 then Some(SetI32(p[pc + 1], U32(p, pc + 2)))
    else if 28 <= op <= 31 then Some(Word(op >= 30, op == 29 || op == 31))
    else if 32 <= op <= 35 then
      if pc + 2 + p[pc + 1] > |p| then None
      else Some(BackRef(op >= 34, op == 33 || op == 35, ReadGroups(p, pc + 2, p[pc + 1])))
    else if 36 <= op <= 39 then Some(Range(op >= 38, op == 37 || op == 39, U16(p, pc + 1)))
    else if op == 40 || op == 41 then Some(Look(op == 41, S32(U32(p, pc + 1))))
    else if op == OP_SET_CHAR_POS then Some(SetPos(p[pc + 1]))
    else if op == OP_CHECK_ADVANCE then Some(CheckAdvance(p[pc + 1]))
    else if op == OP_PREV then Some(Prev)
    else None
  }

  lemma FetchedAt(p: seq<byte>, pc: int)
    requires Fetch(p, pc).Some?
    ensures 0 <= pc
  {
  }

  /** The length of an instruction, without the table of a range. */
  function Size(i: Instr): (r: nat)
    ensures r == |Encode(i)|
  {
    match i
    case Char(_, big, _) => if big then 5 else 3
    case Goto(_) => 5
    case Split(_, _) => 5
    case Save(_, _) => 2
    case Reset(_, _) => 3
    case Loop(_, _) => 6
    case LoopSplit(_, _, _, _, _) => 10
    case SetI32(_, _) => 6
    case BackRef(_, _, gs) => 2 + |gs|
    case Range(_, _, _) => 3
    case Look(_, _) => 5
    case SetPos(_) => 2
    case CheckAdvance(_) => 2
    case _ => 1
  }

  /** An encoded instruction is read back as it was written, wherever it stands. */
  lemma FetchEncode(p: seq<byte>, pc: int, i: Instr)
    requires At(p, pc, Encode(i)) && Fits(i)
    ensures Fetch(p, pc) == Some(i)
  {
    match i
    case Char(_, _, _) => FetchChar(p, pc, i);
    case Save(_, _) => FetchShort(p, pc, i);
    case Reset(_, _) => FetchShort(p, pc, i);
    case Range(_, _, _) => FetchChar(p, pc, i);
    case SetPos(_) => FetchShort(p, pc, i);
    case CheckAdvance(_) => FetchShort(p, pc, i);
    case Goto(_) => FetchJump(p, pc, i);
    case Split(_, _) => FetchJump(p, pc, i);
    case Look(_, _) => FetchJump(p, pc, i);
    case Loop(_, _) => FetchLoop(p, pc, i);
    case SetI32(_, _) => FetchSetI32(p, pc, i);
    case LoopSplit(_, _, _, _, _) => FetchLoopSplit(p, pc, i);
    case BackRef(_, _, _) => FetchBackRef(p, pc, i);
    case _ => FetchBare(p, pc, i);
  }

  lemma FetchBare(p: seq<byte>, pc: int, i: Instr)
    requires At(p, pc, Encode(i))
    requires i.Dot? || i.AnyChar? || i.Space? || i.Line? || i.Match? || i.LookMatch? || i.Word? || i.Prev?
    ensures Fetch(p, pc) == Some(i)
  {
    AtIndex(p, pc, Encode(i), 0);
  }

  lemma FetchShort(p: seq<byte>, pc: int, i: Instr)
    requires At(p, pc, Encode(i)) && Fits(i)
    requires i.Save? || i.Reset? || i.SetPos? || i.CheckAdvance?
    ensures Fetch(p, pc) == Some(i)
  {
    AtIndex(p, pc, Encode(i), 0);
    AtIndex(p, pc, Encode(i), 1);
    if i.Reset? { AtIndex(p, pc, Encode(i), 2); }
  }

  lemma FetchChar(p: seq<byte>, pc: int, i: Instr)
    requires At(p, pc, Encode(i)) && Fits(i)
    requires i.Char? || i.Range?
    ensures Fetch(p, pc) == Some(i)
  {
    hide LE16, LE32, U16, U32;
    AtIndex(p, pc, Encode(i), 0);
    AtSplit(p, pc, [Opcode(i)], Operands(i));
    if i.Char? && i.big {
      ReadWord(p, pc + 1, i.c);
    } else {
      ReadHalf(p, pc + 1, if i.Char? then i.c else i.n);
    }
  }

  lemma FetchJump(p: seq<byte>, pc: int, i: Instr)
    requires At(p, pc, Encode(i)) && Fits(i)
    requires i.Goto? || i.Split? || i.Look?
    ensures Fetch(p, pc) == Some(i)
  {
    AtIndex(p, pc, Encode(i), 0);
    AtSplit(p, pc, [Opcode(i)], Operands(i));
    ReadWord(p, pc + 1, i.off);
  }

  lemma FetchLoop(p: seq<byte>, pc: int, i: Instr)
    requires At(p, pc, Encode(i)) && Fits(i) && i.Loop?
    ensures Fetch(p, pc) == Some(i)
  {
    hide LE16, LE32, U16, U32;
    AtIndex(p, pc, Encode(i), 0);
    AtIndex(p, pc, Encode(i), 1);
    assert Encode(i) == [Opcode(i), i.reg % 256] + LE32(i.off);
    AtSplit(p, pc, [Opcode(i), i.reg % 256], LE32(i.off));
    ReadWord(p, pc + 2, i.off);
  }

  lemma FetchSetI32(p: seq<byte>, pc: int, i: Instr)
    requires At(p, pc, Encode(i)) && Fits(i) && i.SetI32?
    ensures Fetch(p, pc) == Some(i)
  {
    hide LE16, LE32, U16, U32;
    AtIndex(p, pc, Encode(i), 0);
    AtIndex(p, pc, Encode(i), 1);
    assert Encode(i) == [Opcode(i), i.reg % 256] + LE32(i.val);
    AtSplit(p, pc, [Opcode(i), i.reg % 256], LE32(i.val));
    ReadWord(p, pc + 2, i.val);
  }

  lemma FetchLoopSplit(p: seq<byte>, pc: int, i: Instr)
    requires At(p, pc, Encode(i)) && Fits(i) && i.LoopSplit?
    ensures Fetch(p, pc) == Some(i)
  {
    hide LE16, LE32, U16, U32;
    AtIndex(p, pc, Encode(i), 0);
    AtIndex(p, pc, Encode(i), 1);
    var head := [Opcode(i), i.reg % 256];
    assert Encode(i) == head + LE32(i.limit) + LE32(i.off);
    AtSplit(p, pc, head + LE32(i.limit), LE32(i.off));
    AtSplit(p, pc, head, LE32(i.limit));
    ReadWord(p, pc + 2, i.limit);
    ReadWord(p, pc + 6, i.off);
  }

  lemma ReadHalf(p: seq<byte>, pc: int, v: nat)
    requires At(p, pc, LE16(v)) && v < TWO16
    ensures 0 <= pc && pc + 2 <= |p| && U16(p, pc) == v
  {
    ReadLE16(v);
    AtU16(p, pc, LE16(v), 0);
  }

  lemma ReadWord(p: seq<byte>, pc: int, v: int)
    requires At(p, pc, LE32(v))
    ensures 0 <= pc && pc + 4 <= |p|
    ensures U32(p, pc) == v % TWO32
    ensures -TWO31 <= v < TWO31 ==> S32(U32(p, pc)) == v
  {
    AtU32(p, pc, LE32(v), 0);
    ReadLE32(v);
  }

  lemma FetchBackRef(p: seq<byte>, pc: int, i: Instr)
    requires At(p, pc, Encode(i)) && Fits(i) && i.BackRef?
    ensures Fetch(p, pc) == Some(i)
  {
    var e := Encode(i);
    var gs := i.groups;
    AtIndex(p, pc, e, 0);
    AtIndex(p, pc, e, 1);
    forall k | 0 <= k < |gs|
      ensures p[pc + 2 + k] == gs[k]
    {
      AtIndex(p, pc, e, 2 + k);
    }
    assert ReadGroups(p, pc + 2, |gs|) == gs;
  }
}
