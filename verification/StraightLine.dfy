/**
  The two passes that read byte code from end to end without following jumps: the
  analysis of the atom of a quantifier, and the numbering of registers.
 */
module StraightLine {
  import opened Bytes
  import opened Bytecode
  import opened Patterns
  import opened RangeTable
  import opened CodeGen

  /** The whole length of the instruction at the head of `bc`, tables and lists included. */
  function HeadSize(bc: seq<byte>): (k: nat)
    requires bc != []
    ensures k >= 1
  {
    var op := bc[0];
    var size := FixedSize(op);
    if |bc| < size then size
    else if OP_BACK_REFERENCE <= op < OP_BACK_REFERENCE + 4 then size + bc[1]
    else if OP_RANGE <= op < OP_RANGE + 2 then size + U16(bc, 1) * 4
    else if OP_RANGE32 <= op < OP_RANGE32 + 2 then size + U16(bc, 1) * 8
    else size
  }

  /** The number of groups or ranges fits its field. */
  predicate Countable(i: Instr) {
    match i
    case BackRef(_, _, gs) => |gs| < 256
    case Range(_, _, n) => n < TWO16
    case _ => true
  }

  /** An instruction followed by its table, if it has one, is one unit of the stream. */
  predicate Unit(i: Instr, table: seq<byte>) {
    && Countable(i)
    && |table| == if i.Range? then (if i.big then 8 else 4) * i.n else 0
  }

  lemma HeadOfUnit(i: Instr, table: seq<byte>, rest: seq<byte>)
    requires Unit(i, table)
    ensures HeadSize(Encode(i) + table + rest) == |Encode(i)| + |table|
    ensures (Encode(i) + table + rest)[0] == Opcode(i)
  {
    var bc := Encode(i) + table + rest;
    assert |Encode(i)| == Size(i);
    assert bc[0] == Opcode(i);
    if i.Range? {
      assert At(bc, 0, Encode(i)) by { assert bc[0..|Encode(i)|] == Encode(i); }
      FetchEncode(bc, 0, i);
    } else if i.BackRef? {
      assert bc[1] == Encode(i)[1] == |i.groups|;
    }
  }

  // ----- the analysis of an atom -----

  /** No character seen yet; captures may be stale; the rest cannot be predicted. */
  datatype Verdict = Verdict(check: bool, init: bool, stop: bool)

  predicate ConsumesOp(op: byte) {
    OP_CHAR <= op <= OP_SPACE + 1 || OP_RANGE <= op < OP_RANGE + 4
  }

  predicate NeutralOp(op: byte) {
    || OP_LINE_START <= op < OP_LINE_START + 4
    || op == OP_SET_I32
    || op == OP_SET_CHAR_POS
    || OP_WORD_BOUNDARY <= op < OP_WORD_BOUNDARY + 4
    || op == OP_PREV
    || OP_SAVE_START <= op <= OP_SAVE_RESET
  }

  predicate BackReferenceOp(op: byte) {
    OP_BACK_REFERENCE <= op < OP_BACK_REFERENCE + 4
  }

  function Judge(op: byte, v: Verdict): Verdict {
    if ConsumesOp(op) then v.(check := false)
    else if NeutralOp(op) then v
    else if BackReferenceOp(op) then v.(init := true)
    else v.(init := true, stop := true)
  }

  function Analyse(bc: seq<byte>, v: Verdict): Verdict
    decreases |bc|
  {
    if bc == [] || v.stop then v
    else if HeadSize(bc) >= |bc| then Judge(bc[0], v)
    else Analyse(bc[HeadSize(bc)..], Judge(bc[0], v))
  }

  /** The loop over the code of an atom: whether it needs a zero-advance check, and a reset of its captures. */
  method NeedCheckAdvAndCaptureInit(bc: seq<byte>) returns (needCheck: bool, needInit: bool)
    ensures var v := Analyse(bc, Verdict(true, false, false)); needCheck == v.check && needInit == v.init
  {
    hide HeadSize;
    needCheck, needInit := true, false;
    var pos := 0;
    assert bc[0..] == bc;
    while pos < |bc|
      invariant 0 <= pos
      invariant Analyse(bc, Verdict(true, false, false)) ==
                if pos <= |bc| then Analyse(bc[pos..], Verdict(needCheck, needInit, false)) else Verdict(needCheck, needInit, false)
    {
      var op := bc[pos];
      var len := HeadSize(bc[pos..]);
      if ConsumesOp(op) {
        needCheck := false;
      } else if NeutralOp(op) {
      } else if BackReferenceOp(op) {
        needInit := true;
      } else {
        needInit := true;
        break;
      }
      assert len < |bc| - pos ==> bc[pos..][len..] == bc[pos + len..];
      pos := pos + len;
    }
  }

  lemma AnalyseUnit(i: Instr, table: seq<byte>, rest: seq<byte>, v: Verdict)
    requires Unit(i, table)
    ensures Analyse(Encode(i) + table + rest, v) == if v.stop then v else Analyse(rest, Judge(Opcode(i), v))
  {
    hide Encode, HeadSize;
    HeadOfUnit(i, table, rest);
    var bc := Encode(i) + table + rest;
    assert bc[|Encode(i)| + |table|..] == rest;
  }

  lemma AnalyseInstr(i: Instr, rest: seq<byte>, v: Verdict)
    requires Countable(i) && !i.Range?
    ensures Analyse(Encode(i) + rest, v) == if v.stop then v else Analyse(rest, Judge(Opcode(i), v))
  {
    hide Encode;
    assert Encode(i) + [] + rest == Encode(i) + rest;
    AnalyseUnit(i, [], rest, v);
  }

  /** What the analysis makes of a pattern. */
  function Outcome(n: Node, back: bool, v: Verdict): Verdict {
    if v.stop then v
    else Verdict(v.check && !Advances(n, back), v.init || !Plain(n), !Linear(n))
  }

  /** Lists and tables of the pattern have lengths that fit their fields. */
  predicate Encodable(n: Node) {
    match n
    case Set(points, _) => |points| % 2 == 0 && |points| / 2 < 65535
    case BackRef(gs, _) => |gs| < 256
    case Cat(l, r) => Encodable(l) && Encodable(r)
    case Or(l, r) => Encodable(l) && Encodable(r)
    case Group(b) => Encodable(b)
    case Look(_, _, b) => Encodable(b)
    case Repeat(b, _, _, _) => Encodable(b)
    case _ => true
  }

  lemma AnalyseOneChar(fold: nat -> nat, n: Node, rest: seq<byte>, v: Verdict)
    requires n.OneChar() && Encodable(n)
    ensures Analyse(OneCharCode(fold, n) + rest, v) == if v.stop then v else Analyse(rest, v.(check := false))
  {
    hide Encode, Analyse;
    match n
    case Char(c, icase) => AnalyseInstr(CharInstr(Folded(fold, c, icase), icase), rest, v);
    case Dot => AnalyseInstr(Instr.Dot, rest, v);
    case AnyChar => AnalyseInstr(Instr.AnyChar, rest, v);
    case Space(neg) => AnalyseInstr(Instr.Space(neg), rest, v);
    case Set(points, icase) =>
      if points == [] {
        AnalyseInstr(Instr.Char(UINT32_MAX, true, false), rest, v);
      } else {
        AnalyseUnit(Range(NeedsWide(points), icase, |points| / 2), Table(points, NeedsWide(points)), rest, v);
      }
  }

  /** Straight-line reading of the code of a pattern gives what the analysis of the pattern says. */
  lemma {:induction false} AnalyseCode(fold: nat -> nat, n: Node, lo: nat, back: bool, d: nat, alloc: bool, rest: seq<byte>, v: Verdict)
    requires Encodable(n) && Paired(n)
    ensures Analyse(Code(fold, n, lo, back, d, alloc) + rest, v) == Analyse(rest, Outcome(n, back, v))
    decreases n, 1
  {
    hide Encode, Analyse, OneCharCode, RepeatCode, OrCode, LookCode;
    match n
    case Empty => assert [] + rest == rest;
    case Line(atEnd, multi) => AnalyseInstr(Instr.Line(atEnd, multi), rest, v); AnalyseStop(rest, v);
    case Word(neg, icase) => AnalyseInstr(Instr.Word(neg, icase), rest, v); AnalyseStop(rest, v);
    case BackRef(gs, icase) => AnalyseInstr(Instr.BackRef(back, icase, gs), rest, v); AnalyseStop(rest, v);
    case Cat(_, _) => AnalyseCat(fold, n, lo, back, d, alloc, rest, v);
    case Or(l, r) => AnalyseOr(fold, l, r, lo, back, d, alloc, rest, v);
    case Group(b) => AnalyseGroup(fold, b, lo, back, d, alloc, rest, v);
    case Look(neg, behind, b) => AnalyseLook(fold, neg, behind, b, lo, back, d, alloc, rest, v);
    case Repeat(_, _, _, _) => AnalyseRepeat(fold, n, lo, back, d, alloc, rest, v);
    case _ => AnalyseAtom(fold, n, lo, back, d, alloc, rest, v);
  }

  lemma AnalyseStop(rest: seq<byte>, v: Verdict)
    ensures v.stop ==> Analyse(rest, v) == v
  {
  }

  lemma AnalyseAtom(fold: nat -> nat, n: Node, lo: nat, back: bool, d: nat, alloc: bool, rest: seq<byte>, v: Verdict)
    requires n.OneChar() && Encodable(n) && Paired(n)
    ensures Analyse(Code(fold, n, lo, back, d, alloc) + rest, v) == Analyse(rest, Outcome(n, back, v))
  {
    hide Encode, Analyse, OneCharCode, RepeatCode, OrCode, LookCode;
    AnalyseStop(rest, v);
    AnalyseStop(rest, v.(check := false));
    var c, prev := OneCharCode(fold, n), Encode(Instr.Prev);
    if back {
      assert prev + c + prev + rest == prev + (c + (prev + rest));
      AnalyseInstr(Instr.Prev, c + (prev + rest), v);
      AnalyseOneChar(fold, n, prev + rest, v);
      AnalyseInstr(Instr.Prev, rest, v.(check := false));
    } else {
      AnalyseOneChar(fold, n, rest, v);
    }
  }

  lemma {:induction false} AnalyseCat(fold: nat -> nat, n: Node, lo: nat, back: bool, d: nat, alloc: bool, rest: seq<byte>, v: Verdict)
    requires n.Cat? && Encodable(n) && Paired(n)
    ensures Analyse(Code(fold, n, lo, back, d, alloc) + rest, v) == Analyse(rest, Outcome(n, back, v))
    decreases n, 0
  {
    hide Encode, Analyse, Code;
    CodeCatIs(fold, n, lo, back, d, alloc);
    var c1 := Code(fold, FirstTerm(n, back), FirstLo(n, lo, back), back, d, alloc);
    var c2 := Code(fold, SecondTerm(n, back), SecondLo(n, lo, back), back, d, alloc);
    assert Code(fold, n, lo, back, d, alloc) + rest == c1 + (c2 + rest);
    PlainLinear(n.l);
    PlainLinear(n.r);
    AnalyseCode(fold, FirstTerm(n, back), FirstLo(n, lo, back), back, d, alloc, c2 + rest, v);
    AnalyseCode(fold, SecondTerm(n, back), SecondLo(n, lo, back), back, d, alloc, rest, Outcome(FirstTerm(n, back), back, v));
  }

  lemma {:induction false} PlainLinear(n: Node)
    ensures Plain(n) ==> Linear(n)
  {
    match n
    case Cat(l, r) => PlainLinear(l); PlainLinear(r);
    case Group(b) => PlainLinear(b);
    case _ =>
  }

  lemma AnalyseOr(fold: nat -> nat, l: Node, r: Node, lo: nat, back: bool, d: nat, alloc: bool, rest: seq<byte>, v: Verdict)
    requires Encodable(Or(l, r)) && Paired(Or(l, r))
    ensures Analyse(Code(fold, Or(l, r), lo, back, d, alloc) + rest, v) == Analyse(rest, Outcome(Or(l, r), back, v))
  {
    hide Encode, Analyse, Code, OneCharCode, RepeatCode, LookCode;
    var cl, cr := Code(fold, l, lo, back, d, alloc), Code(fold, r, lo + Groups(l), back, d, alloc);
    var i := Split(true, |cl| + 5);
    var more := cl + Encode(Goto(|cr|)) + cr + rest;
    assert OrCode(cl, cr) + rest == Encode(i) + more;
    CodeOrIs(fold, l, r, lo, back, d, alloc);
    AnalyseInstr(i, more, v);
    AnalyseStop(more, Judge(Opcode(i), v));
    AnalyseStop(rest, v);
    AnalyseStop(rest, Outcome(Or(l, r), back, v));
  }

  lemma {:induction false} AnalyseGroup(fold: nat -> nat, b: Node, lo: nat, back: bool, d: nat, alloc: bool, rest: seq<byte>, v: Verdict)
    requires Encodable(Group(b)) && Paired(Group(b))
    ensures Analyse(Code(fold, Group(b), lo, back, d, alloc) + rest, v) == Analyse(rest, Outcome(Group(b), back, v))
    decreases Group(b), 0
  {
    hide Encode, Analyse, OneCharCode, RepeatCode, OrCode, LookCode;
    var s1, s2 := Encode(Save(back, lo)), Encode(Save(!back, lo));
    var c := Code(fold, b, lo + 1, back, d, alloc);
    assert Code(fold, Group(b), lo, back, d, alloc) + rest == s1 + (c + (s2 + rest));
    AnalyseInstr(Save(back, lo), c + (s2 + rest), v);
    AnalyseStop(rest, v);
    AnalyseCode(fold, b, lo + 1, back, d, alloc, s2 + rest, v);
    AnalyseInstr(Save(!back, lo), rest, Outcome(b, back, v));
    AnalyseStop(rest, Outcome(b, back, v));
  }

  lemma AnalyseLook(fold: nat -> nat, neg: bool, behind: bool, b: Node, lo: nat, back: bool, d: nat, alloc: bool, rest: seq<byte>, v: Verdict)
    requires Encodable(Node.Look(neg, behind, b)) && Paired(Node.Look(neg, behind, b))
    ensures Analyse(Code(fold, Node.Look(neg, behind, b), lo, back, d, alloc) + rest, v) ==
            Analyse(rest, Outcome(Node.Look(neg, behind, b), back, v))
  {
    hide Encode, Analyse, OneCharCode, RepeatCode, OrCode;
    var c := Code(fold, b, lo, behind, d, alloc);
    var i := Instr.Look(neg, |c| + 1);
    var more := c + Encode(LookMatch(neg)) + rest;
    assert LookCode(neg, c) + rest == Encode(i) + more;
    AnalyseInstr(i, more, v);
    AnalyseStop(more, Judge(Opcode(i), v));
    AnalyseStop(rest, v);
    AnalyseStop(rest, Outcome(Node.Look(neg, behind, b), back, v));
  }

  /** A reset has no influence on the analysis. */
  lemma AnalyseReset(b: Node, lo: nat, rest: seq<byte>, v: Verdict)
    ensures Analyse(ResetCode(b, lo) + rest, v) == Analyse(rest, v)
  {
    hide Encode, Analyse;
    if Groups(b) > 0 {
      AnalyseInstr(Reset(lo, lo + Groups(b) - 1), rest, v);
      AnalyseStop(rest, v);
    } else {
      assert [] + rest == rest;
    }
  }

  lemma {:induction false} AnalyseRepeat(fold: nat -> nat, n: Node, lo: nat, back: bool, d: nat, alloc: bool, rest: seq<byte>, v: Verdict)
    requires n.Repeat? && Encodable(n) && Paired(n)
    ensures Analyse(Code(fold, n, lo, back, d, alloc) + rest, v) == Analyse(rest, Outcome(n, back, v))
    decreases n, 0
  {
    hide Encode, Analyse, OneCharCode, Code, OrCode, LookCode, PreCode, AtomCode, CountedCode, StarCode;
    var b, min, max, greedy := n.body, n.min, n.max, n.greedy;
    var body := Code(fold, b, lo, back, d + LoopRegisters(b, back, min, max), alloc);
    var a, check := AtomCode(b, lo, body), Checked(b, back, min, max);
    var counted := CountedCode(a, min, max, greedy, check, Reg(d, alloc), Reg(d + 1, alloc));
    CodeRepeatIs(fold, n, lo, back, d, alloc);
    AnalyseStop(rest, Outcome(n, back, v));
    match LayoutOf(b, back, min, max)
    case Dropped => AnalysePre(b, lo, rest, v); AnalyseStop(rest, v);
    case Star =>
      assert PreCode(b, lo) + StarCode(a, max == Inf, greedy, check, Reg(d, alloc)) + rest ==
             PreCode(b, lo) + (StarCode(a, max == Inf, greedy, check, Reg(d, alloc)) + rest);
      AnalysePre(b, lo, StarCode(a, max == Inf, greedy, check, Reg(d, alloc)) + rest, v);
      AnalyseStar(a, max == Inf, greedy, check, Reg(d, alloc), rest, v);
    case Counted0 =>
      var split := Split(greedy, |counted|);
      assert PreCode(b, lo) + Encode(split) + counted + rest == PreCode(b, lo) + (Encode(split) + (counted + rest));
      AnalysePre(b, lo, Encode(split) + (counted + rest), v);
      AnalyseInstr(split, counted + rest, v);
      AnalyseStop(counted + rest, Judge(Opcode(split), v));
    case Plus =>
      var split := Split(!greedy, -(|a| + 5));
      assert a + Encode(split) + rest == a + (Encode(split) + rest);
      AnalyseAtomCode(fold, b, lo, back, d + LoopRegisters(b, back, min, max), alloc, Encode(split) + rest, v);
      AnalyseInstr(split, rest, Outcome(b, back, v));
      AnalyseStop(rest, Judge(Opcode(split), Outcome(b, back, v)));
      PlainLinear(b);
    case Counted =>
      AnalyseCounted(fold, n, lo, back, d, alloc, rest, v);
  }

  lemma AnalysePre(b: Node, lo: nat, rest: seq<byte>, v: Verdict)
    ensures Analyse(PreCode(b, lo) + rest, v) == Analyse(rest, v)
  {
    hide Analyse, ResetCode;
    AnalyseReset(b, lo, rest, v);
    assert [] + rest == rest;
  }

  lemma AnalyseStar(a: seq<byte>, loops: bool, greedy: bool, check: bool, r: nat, rest: seq<byte>, v: Verdict)
    ensures Analyse(StarCode(a, loops, greedy, check, r) + rest, v) == if v.stop then v else v.(init := true, stop := true)
  {
    hide Encode, Analyse;
    var inner := SetPosCode(check, r) + a + CheckCode(check, r);
    var split := Split(greedy, |inner| + (if loops then 5 else 0));
    var more := inner + (if loops then Encode(Goto(-(5 + |inner| + 5))) else []) + rest;
    assert StarCode(a, loops, greedy, check, r) + rest == Encode(split) + more;
    AnalyseInstr(split, more, v);
    AnalyseStop(more, Judge(Opcode(split), v));
  }

  lemma {:induction false} AnalyseAtomCode(fold: nat -> nat, b: Node, lo: nat, back: bool, d: nat, alloc: bool, rest: seq<byte>, v: Verdict)
    requires Encodable(b) && Paired(b)
    ensures Analyse(AtomCode(b, lo, Code(fold, b, lo, back, d, alloc)) + rest, v) == Analyse(rest, Outcome(b, back, v))
    decreases b, 2
  {
    hide Encode, Analyse, Code, ResetCode, Outcome;
    var body := Code(fold, b, lo, back, d, alloc);
    AnalyseCode(fold, b, lo, back, d, alloc, rest, v);
    AnalyseReset(b, lo, body + rest, v);
    assert ResetCode(b, lo) + body + rest == ResetCode(b, lo) + (body + rest);
    assert [] + body + rest == body + rest;
  }

  lemma {:induction false} AnalyseCounted(fold: nat -> nat, n: Node, lo: nat, back: bool, d: nat, alloc: bool, rest: seq<byte>, v: Verdict)
    requires n.Repeat? && Encodable(n) && Paired(n) && LayoutOf(n.body, back, n.min, n.max).Counted?
    ensures var a := AtomCode(n.body, lo, Code(fold, n.body, lo, back, d + LoopRegisters(n.body, back, n.min, n.max), alloc));
            Analyse(CountedCode(a, n.min, n.max, n.greedy, Checked(n.body, back, n.min, n.max), Reg(d, alloc), Reg(d + 1, alloc)) + rest, v)
            == Analyse(rest, Outcome(n, back, v))
    decreases n.body, 3
  {
    hide Encode, Analyse, Code, AtomCode, LoopRegisters;
    var b, check := n.body, Checked(n.body, back, n.min, n.max);
    var a := AtomCode(b, lo, Code(fold, b, lo, back, d + LoopRegisters(b, back, n.min, n.max), alloc));
    var set_ := SetI32(Reg(d, alloc), Limit(n.max));
    var i := LoopInstr((if check then 2 else 0) + |a|, n.min, n.max, n.greedy, check, Reg(d, alloc));
    var pos := SetPosCode(check, Reg(d + 1, alloc));
    var tail := Encode(i) + rest;
    assert CountedCode(a, n.min, n.max, n.greedy, check, Reg(d, alloc), Reg(d + 1, alloc)) + rest == Encode(set_) + (pos + (a + tail));
    AnalyseInstr(set_, pos + (a + tail), v);
    AnalyseSetPos(check, Reg(d + 1, alloc), a + tail, v);
    AnalyseAtomCode(fold, b, lo, back, d + LoopRegisters(b, back, n.min, n.max), alloc, tail, v);
    AnalyseStop(pos + (a + tail), v);
    AnalyseCounter(n, back, i, rest, v);
  }

  /** The instruction behind the atom ends the straight line, unless the line ended inside the atom. */
  lemma AnalyseCounter(n: Node, back: bool, i: Instr, rest: seq<byte>, v: Verdict)
    requires n.Repeat? && LayoutOf(n.body, back, n.min, n.max).Counted? && (i.Loop? || i.LoopSplit?)
    ensures Analyse(Encode(i) + rest, Outcome(n.body, back, v)) == Analyse(rest, Outcome(n, back, v))
  {
    hide Encode, Analyse;
    AnalyseInstr(i, rest, Outcome(n.body, back, v));
    AnalyseStop(rest, Judge(Opcode(i), Outcome(n.body, back, v)));
    AnalyseStop(rest, Outcome(n, back, v));
    PlainLinear(n.body);
  }

  lemma AnalyseSetPos(check: bool, r: nat, rest: seq<byte>, v: Verdict)
    ensures Analyse(SetPosCode(check, r) + rest, v) == Analyse(rest, v)
  {
    hide Encode, Analyse;
    if check {
      AnalyseInstr(SetPos(r), rest, v);
      AnalyseStop(rest, v);
    } else {
      assert [] + rest == rest;
    }
  }

  /** The analysis of the bytes of an atom is the analysis of the pattern. */
  lemma AtomVerdict(fold: nat -> nat, n: Node, lo: nat, back: bool, d: nat, alloc: bool)
    requires Encodable(n) && Paired(n)
    ensures var v := Analyse(Code(fold, n, lo, back, d, alloc), Verdict(true, false, false));
            v.check == !Advances(n, back) && v.init == !Plain(n)
  {
    hide Code;
    var c := Code(fold, n, lo, back, d, alloc);
    AnalyseCode(fold, n, lo, back, d, alloc, [], Verdict(true, false, false));
    assert c + [] == c;
  }
}
