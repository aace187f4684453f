/**
  The compiler as it works: it appends to a buffer, inserts instructions in front of
  code already written, moves terms when it goes backward, and patches jump offsets.
  Each method is specified by the code function of the pattern it compiles.
 */
module Emitter {
  import opened Bytes
  import opened Bytecode
  import opened Patterns
  import opened RangeTable
  import opened CodeGen
  import opened StraightLine
  import opened RegisterAllocation
  import opened Terms

  /** The compilation of a pattern, or the refusal of one. */
  datatype Compiled = Compiled(code: seq<byte>, groups: nat, registers: nat) | Refused

  // ----- how the instructions are spelled out in bytes -----

  lemma CharBytes(c: nat)
    ensures Encode(Instr.Char(c, true, false)) == [OP_CHAR32] + LE32(c)
  {
    hide LE32;
  }

  lemma RangeBytes(big: bool, icase: bool, n: nat)
    ensures Encode(Range(big, icase, n)) == [(if big then OP_RANGE32 else OP_RANGE) + B(icase)] + LE16(n)
  {
    hide LE16;
  }

  lemma BackRefBytes(groups: seq<nat>, back: bool, icase: bool)
    requires |groups| < 256
    ensures Encode(Instr.BackRef(back, icase, groups)) ==
            [OP_BACK_REFERENCE + 2 * B(back) + B(icase), |groups| % 256] + GroupBytes(groups)
  {
    hide GroupBytes;
  }

  lemma JumpBytes(nextFirst: bool, off: int)
    ensures Encode(Split(nextFirst, off)) == [OP_SPLIT_GOTO_FIRST + B(nextFirst)] + LE32(off)
    ensures Encode(Goto(off)) == [OP_GOTO] + LE32(off)
  {
    hide LE32;
  }

  function SetPosBytes(check: bool): seq<byte> {
    if check then [OP_SET_CHAR_POS, 0] else []
  }

  function CheckBytes(check: bool): seq<byte> {
    if check then [OP_CHECK_ADVANCE, 0] else []
  }

  lemma PosBytes(check: bool)
    ensures SetPosCode(check, 0) == SetPosBytes(check) && CheckCode(check, 0) == CheckBytes(check)
    ensures |SetPosBytes(check)| == |CheckBytes(check)| == if check then 2 else 0
  {
  }

  function ResetBytes(lo: nat, hi: nat): (r: seq<byte>)
    ensures |r| == 3
  {
    [OP_SAVE_RESET, lo % 256, hi % 256]
  }

  lemma ResetIs(b: Node, lo: nat)
    ensures ResetCode(b, lo) == if Groups(b) > 0 then ResetBytes(lo, lo + Groups(b) - 1) else []
  {
  }

  lemma StarBytes(a: seq<byte>, loops: bool, greedy: bool, check: bool)
    ensures StarCode(a, loops, greedy, check, 0) ==
            var pos, adv := SetPosBytes(check), CheckBytes(check);
            [OP_SPLIT_GOTO_FIRST + B(greedy)] + LE32(|a| + (if loops then 5 else 0) + (if check then 4 else 0)) + pos + a + adv +
            (if loops then [OP_GOTO] + LE32(-(5 + |pos + a + adv| + 5)) else [])
  {
    hide Encode, LE32, SetPosCode, CheckCode, SetPosBytes, CheckBytes;
    PosBytes(check);
    var inner := SetPosBytes(check) + a + CheckBytes(check);
    JumpBytes(greedy, |inner| + (if loops then 5 else 0));
    JumpBytes(greedy, -(5 + |inner| + 5));
  }

  lemma SetI32Bytes(v: nat)
    ensures Encode(SetI32(0, v)) == [OP_SET_I32, 0] + LE32(v)
  {
    hide LE32;
    assert [OP_SET_I32] + ([0] + LE32(v)) == [OP_SET_I32, 0] + LE32(v);
  }

  lemma LoopBytes(off: int)
    ensures Encode(Loop(0, off)) == [OP_LOOP, 0] + LE32(off)
  {
    hide LE32;
    assert [OP_LOOP] + ([0] + LE32(off)) == [OP_LOOP, 0] + LE32(off);
  }

  lemma LoopSplitBytes(check: bool, nextFirst: bool, limit: nat, off: int)
    ensures Encode(LoopSplit(check, nextFirst, 0, limit, off)) ==
            [OP_LOOP_SPLIT + 2 * B(check) + B(nextFirst), 0] + LE32(limit) + LE32(off)
  {
    hide LE32;
    var op := OP_LOOP_SPLIT + 2 * B(check) + B(nextFirst);
    assert [op] + ([0] + LE32(limit) + LE32(off)) == [op, 0] + LE32(limit) + LE32(off);
  }

  lemma LimitIs(max: Bound)
    requires Terms.Counts(0, max)
    ensures 0 <= Limit(max) && Limit(max) - 0 == Limit(max)
  {
  }

  lemma CountedBytes(a: seq<byte>, min: nat, max: Bound, greedy: bool, check: bool)
    requires Terms.Counts(min, max)
    ensures CountedCode(a, min, max, greedy, check, 0, 0) ==
            var inner := SetPosBytes(check) + a;
            [OP_SET_I32, 0] + LE32(Limit(max)) + inner +
            if min > 0 && Limit(max) == min then [OP_LOOP, 0] + LE32(-(|inner| + 6))
            else [OP_LOOP_SPLIT + 2 * B(check) + B(!greedy), 0] + LE32(Limit(max) - min) + LE32(-(|inner| + 10))
  {
    hide Encode, LE32, SetPosCode, SetPosBytes;
    PosBytes(check);
    var inner := SetPosBytes(check) + a;
    SetI32Bytes(Limit(max));
    LoopBytes(-(|inner| + 6));
    LoopSplitBytes(check, !greedy, Limit(max) - min, -(|inner| + 10));
  }

  lemma OrBytes(cl: seq<byte>, cr: seq<byte>)
    ensures OrCode(cl, cr) == ([OP_SPLIT_NEXT_FIRST] + LE32(|cl| + 5)) + cl + ([OP_GOTO] + LE32(|cr|)) + cr
  {
    hide Encode, LE32;
    JumpBytes(true, |cl| + 5);
    JumpBytes(true, |cr|);
  }

  lemma SaveBytes(atEnd: bool, g: nat)
    ensures Encode(Save(atEnd, g)) == [OP_SAVE_START + B(atEnd), g % 256]
  {
  }

  lemma LookBytes(neg: bool, c: seq<byte>)
    ensures LookCode(neg, c) == [OP_LOOKAHEAD + B(neg)] + LE32(|c| + 1) + c + [OP_LOOKAHEAD_MATCH + B(neg)]
  {
    hide LE32;
  }

  lemma PrevByte()
    ensures Encode(Instr.Prev) == [OP_PREV]
  {
  }

  // ----- first steps of the two loops -----

  lemma FirstAccepted(ns: seq<Node>, lo: nat)
    requires |ns| >= 1
    ensures GroupsAll(ns[..1]) == Groups(ns[0])
    ensures AllAccepted(ns[..1], lo) <==> Accepted(ns[0], lo)
    ensures AllAccepted(ns, lo) ==> Accepted(ns[0], lo)
  {
    AcceptNext(ns, 0, lo);
  }

  lemma ChoiceFirst(fold: nat -> nat, ns: seq<Node>, lo: nat, back: bool)
    requires |ns| >= 1 && AllPaired(ns)
    ensures AllPaired(ns[..1]) && ChoiceCode(fold, ns[..1], lo, back) == RawCode(fold, ns[0], lo, back)
  {
    hide RawCode;
  }

  lemma NoneAccepted(fold: nat -> nat, ns: seq<Node>, lo: nat, back: bool)
    ensures AllAccepted(ns[..0], lo) && GroupsAll(ns[..0]) == 0
    ensures AllPaired(ns[..0]) && SequenceCode(fold, ns[..0], lo, back) == []
  {
  }

  lemma Swapped(before: seq<byte>, rest: seq<byte>, last: seq<byte>, all: seq<byte>)
    requires all == before + rest + last
    ensures all == before + (rest + last)
    ensures all[..|before|] + all[|before + rest|..] + all[|before|..|before + rest|] == before + (last + rest)
  {
  }

  lemma Patched(head: seq<byte>, op: byte, v: int, v': int, tail: seq<byte>, all: seq<byte>)
    requires all == head + ([op] + LE32(v)) + tail
    ensures all[..|head| + 1] + LE32(v') + all[|head| + 5..] == head + ([op] + LE32(v')) + tail
    ensures |all| == |head| + 5 + |tail|
  {
    hide LE32;
  }

  lemma JoinedOr(before: seq<byte>, a: seq<byte>, b: seq<byte>, c: seq<byte>, d: seq<byte>)
    ensures (before + a + b) + c + d == before + (a + b + c + d)
  {
  }

  lemma Tailed(a: seq<byte>, b: seq<byte>, c: seq<byte>)
    ensures (a + b) + c == a + (b + c)
  {
  }

  lemma GroupGroups(n: Node)
    requires n.Group?
    ensures Groups(n) == 1 + Groups(n.body)
  {
  }

  lemma JoinedThree(before: seq<byte>, a: seq<byte>, b: seq<byte>, c: seq<byte>)
    ensures before + a + b + c == before + (a + b + c)
  {
  }

  lemma JoinedLoop(before: seq<byte>, split: seq<byte>, set_: seq<byte>, pos: seq<byte>, a: seq<byte>, tail: seq<byte>)
    ensures before + (split + set_ + pos) + a + tail == before + (split + (set_ + (pos + a) + tail))
  {
  }

  lemma JoinedLook(before: seq<byte>, a: seq<byte>, b: seq<byte>, c: seq<byte>)
    ensures before + a + (b + c) == before + (a + b + c)
  {
  }

  lemma PrependNone(x: Allocation)
    ensures Prepend([], x) == x
  {
    if x.Allocation? { assert [] + x.code == x.code; }
  }

  lemma AllDone(bc: seq<byte>, pos: nat, depth: nat, max: nat)
    requires pos == |bc|
    ensures Prepend(bc[..pos], Allocate(bc[pos..], depth, max)) == Allocation(bc, depth, max)
  {
    assert bc[pos..] == [] && bc[..pos] == bc && bc + [] == bc;
  }

  /** The instruction at `pos` with its register operand set. */
  lemma Renumbered(bc: seq<byte>, pos: nat, len: nat, depth: nat)
    requires pos + len <= |bc| && len >= 1 && depth <= 255
    requires StackEffect(bc[pos]) != 0 ==> len >= 2
    requires depth + StackEffect(bc[pos]) >= 0
    ensures var e := StackEffect(bc[pos]);
            var r := if e > 0 then depth else depth + e;
            var bc' := if e == 0 then bc else bc[..pos + 1] + [r] + bc[pos + 2..];
            && |bc'| == |bc|
            && bc'[..pos + len] == bc[..pos] + Numbered(bc[pos..][..len], depth)
            && bc'[pos + len..] == bc[pos..][len..]
  {
    hide StackEffect;
    var unit, rest := bc[pos..][..len], bc[pos..][len..];
    assert unit[0] == bc[pos];
    assert bc == bc[..pos] + unit + rest;
    var e := StackEffect(bc[pos]);
    if e != 0 {
      var r := if e > 0 then depth else depth + e;
      var bc' := bc[..pos + 1] + [r] + bc[pos + 2..];
      assert bc' == bc[..pos] + unit[1 := r] + rest;
    }
  }

  lemma Aside(before: seq<byte>, pre: seq<byte>, a: seq<byte>, all: seq<byte>)
    requires all == before + pre + a
    ensures all[..|before| + |pre|] == before + pre && all[|before| + |pre|..] == a
    ensures forall c: seq<byte> {:trigger before + pre + c} :: before + pre + c == before + (pre + c)
  {
  }

  /** A quantifier that asks for no pass: a reset, then nothing, a choice, or a choice and a counted loop. */
  lemma OptionalIs(b: Node, lo: nat, back: bool, max: Bound, greedy: bool, body: seq<byte>)
    ensures RepeatCode(b, lo, back, 0, max, greedy, 0, false, body) ==
            var a, check := AtomCode(b, lo, body), !Advances(b, back);
            var loop := CountedCode(a, 0, max, greedy, check, 0, 0);
            PreCode(b, lo) + if max == Fin(0) then []
                             else if max == Fin(1) || max == Inf then StarCode(a, max == Inf, greedy, check, 0)
                             else Encode(Split(greedy, |loop|)) + loop
  {
    hide Encode, Advances, AtomCode, PreCode, StarCode, CountedCode;
  }

  lemma AssertionBytes(n: Node)
    requires n.Assertion()
    ensures Encode(if n.Line? then Instr.Line(n.atEnd, n.multi) else Instr.Word(n.negated, n.icase)) ==
            [if n.Line? then OP_LINE_START + 2 * B(n.atEnd) + B(n.multi) else OP_WORD_BOUNDARY + 2 * B(n.negated) + B(n.icase)]
  {
  }

  lemma RepeatParts(fold: nat -> nat, n: Node, lo: nat, back: bool)
    requires n.Repeat? && Resolved(n) && Paired(n)
    ensures Resolved(n.body) && Paired(n.body) && Counts(n.min, n.max)
    ensures Groups(n) == Groups(n.body) && (Accepted(n, lo) <==> Accepted(n.body, lo))
    ensures Accepted(n.body, lo) ==> Encodable(n.body)
    ensures RawCode(fold, n, lo, back) ==
            RepeatCode(n.body, lo, back, n.min, n.max, n.greedy, 0, false, RawCode(fold, n.body, lo, back))
  {
    hide Code, RepeatCode;
    CodeRepeatIs(fold, n, lo, back, 0, false);
    Unnumbered(fold, n.body, lo, back, LoopRegisters(n.body, back, n.min, n.max));
    ResolvedPaired(n.body);
  }

  class Compiler {
    const fold: nat -> nat
    var byteCode: seq<byte>
    var captureCount: nat

    constructor (fold: nat -> nat)
      ensures this.fold == fold && byteCode == [] && captureCount == 1
    {
      this.fold := fold;
      byteCode, captureCount := [], 1;
    }

    // ----- the buffer -----

    method EmitOp(op: byte)
      modifies this`byteCode
      ensures byteCode == old(byteCode) + [op]
    {
      byteCode := byteCode + [op];
    }

    method EmitU16(v: int)
      modifies this`byteCode
      ensures byteCode == old(byteCode) + LE16(v)
    {
      byteCode := byteCode + LE16(v);
    }

    method EmitU32(v: int)
      modifies this`byteCode
      ensures byteCode == old(byteCode) + LE32(v)
    {
      byteCode := byteCode + LE32(v);
    }

    method EmitOpU8(op: byte, v: nat)
      modifies this`byteCode
      ensures byteCode == old(byteCode) + [op, v % 256]
    {
      EmitOp(op);
      EmitOp(v % 256);
    }

    method EmitOpU16(op: byte, v: int)
      modifies this`byteCode
      ensures byteCode == old(byteCode) + ([op] + LE16(v))
    {
      EmitOp(op);
      EmitU16(v);
    }

    /** Returns where the operand stands, so that it can be patched. */
    method EmitOpU32(op: byte, v: int) returns (pos: nat)
      modifies this`byteCode
      ensures byteCode == old(byteCode) + ([op] + LE32(v)) && pos == |old(byteCode)| + 1
    {
      EmitOp(op);
      pos := |byteCode|;
      EmitU32(v);
    }

    /** A jump to `target`: the offset counts from the end of the instruction. */
    method EmitGoto(op: byte, target: nat)
      modifies this`byteCode
      ensures byteCode == old(byteCode) + ([op] + LE32(target - (|old(byteCode)| + 5)))
    {
      EmitOp(op);
      var pos := |byteCode|;
      EmitU32(target - (pos + 4));
    }

    method EmitGotoU8(op: byte, arg: nat, target: nat)
      modifies this`byteCode
      ensures byteCode == old(byteCode) + ([op, arg % 256] + LE32(target - (|old(byteCode)| + 6)))
    {
      EmitOpU8(op, arg);
      var pos := |byteCode|;
      EmitU32(target - (pos + 4));
    }

    method EmitGotoU8U32(op: byte, arg0: nat, arg1: int, target: nat)
      modifies this`byteCode
      ensures byteCode == old(byteCode) + ([op, arg0 % 256] + LE32(arg1) + LE32(target - (|old(byteCode)| + 10)))
    {
      EmitOpU8(op, arg0);
      EmitU32(arg1);
      var pos := |byteCode|;
      EmitU32(target - (pos + 4));
    }

    /** Opens a gap of `len` bytes; what it holds is not specified. */
    method Insert(pos: nat, len: nat)
      requires pos <= |byteCode|
      modifies this`byteCode
      ensures |byteCode| == |old(byteCode)| + len
      ensures byteCode[..pos] == old(byteCode)[..pos] && byteCode[pos + len..] == old(byteCode)[pos..]
    {
      var gap := seq(len, _ => 0);
      byteCode := byteCode[..pos] + gap + byteCode[pos..];
    }

    /** Writes over bytes that are already there. */
    method Put(pos: nat, bytes: seq<byte>)
      requires pos + |bytes| <= |byteCode|
      modifies this`byteCode
      ensures byteCode == old(byteCode)[..pos] + bytes + old(byteCode)[pos + |bytes|..]
    {
      byteCode := byteCode[..pos] + bytes + byteCode[pos + |bytes|..];
    }

    method InsertCode(pos: nat, bytes: seq<byte>)
      requires pos <= |byteCode|
      modifies this`byteCode
      ensures byteCode == old(byteCode)[..pos] + bytes + old(byteCode)[pos..]
    {
      Insert(pos, |bytes|);
      Put(pos, bytes);
    }

    /** Brings the last term in front of the code from `start` on, with two block moves above the end of the buffer. */
    method MoveToFront(start: nat, termStart: nat)
      requires start <= termStart <= |byteCode|
      modifies this`byteCode
      ensures byteCode == old(byteCode)[..start] + old(byteCode)[termStart..] + old(byteCode)[start..termStart]
    {
      var end := |byteCode|;
      var size := end - termStart;
      var claimed := byteCode + seq(size, _ => 0);
      ghost var before, rest, last := byteCode[..start], byteCode[start..termStart], byteCode[termStart..];
      assert byteCode[start..end] == rest + last;
      claimed := claimed[..start + size] + byteCode[start..end];
      assert claimed[start + size..] == rest + last && claimed[..start] == before;
      assert claimed[end..end + size] == last;
      claimed := claimed[..start] + claimed[end..end + size] + claimed[start + size..];
      assert claimed == (before + last + rest) + last;
      byteCode := claimed[..end];
    }

    // ----- single characters and sets -----

    method EmitChar(c: nat, icase: bool)
      modifies this`byteCode
      ensures byteCode == old(byteCode) + Encode(CharInstr(c, icase))
    {
      if c <= 0xFFFF {
        EmitOpU16(OP_CHAR + B(icase), c);
      } else {
        var _ := EmitOpU32(OP_CHAR32 + B(icase), c);
      }
    }

    method EmitRange(points: seq<nat>, icase: bool) returns (ok: bool)
      requires |points| % 2 == 0
      modifies this`byteCode
      ensures ok <==> |points| / 2 < 65535
      ensures ok ==> byteCode == old(byteCode) + RangeCode(points, icase)
    {
      hide LE16, LE32, Encode, Table;
      var len := |points| / 2;
      if len >= 65535 {
        return false;
      }
      CharBytes(UINT32_MAX);
      if len == 0 {
        var _ := EmitOpU32(OP_CHAR32, UINT32_MAX);
      } else {
        var high := points[|points| - 1];
        if high == UINT32_MAX {
          high := points[|points| - 2];
        }
        var big := high > 0xFFFF;
        RangeBytes(big, icase, len);
        EmitOpU16((if big then OP_RANGE32 else OP_RANGE) + B(icase), len);
        EmitTable(points, big);
      }
      ok := true;
    }

    method EmitTable(points: seq<nat>, big: bool)
      requires |points| % 2 == 0
      modifies this`byteCode
      ensures byteCode == old(byteCode) + Table(points, big)
    {
      hide LE16, LE32;
      var i := 0;
      while i < |points|
        invariant 0 <= i <= |points| && i % 2 == 0
        invariant byteCode == old(byteCode) + Table(points[..i], big)
      {
        assert points[..i + 2][..i] == points[..i];
        var end: int := points[i + 1];
        if big {
          EmitU32(points[i]);
          EmitU32(end - 1);
        } else {
          var high: int := end - 1;
          if high == UINT32_MAX - 1 {
            high := 0xFFFF;
          }
          EmitU16(points[i]);
          EmitU16(high);
        }
        assert byteCode == old(byteCode) + (Table(points[..i], big) + Interval(points[i], points[i + 1], big));
        i := i + 2;
      }
      assert points[..i] == points;
    }

    method EmitBackReference(groups: seq<nat>, back: bool, icase: bool)
      requires |groups| < 256
      modifies this`byteCode
      ensures byteCode == old(byteCode) + Encode(Instr.BackRef(back, icase, groups))
    {
      hide Encode;
      var op := OP_BACK_REFERENCE + 2 * B(back) + B(icase);
      BackRefBytes(groups, back, icase);
      ghost var head := [op, |groups| % 256];
      EmitOpU8(op, |groups|);
      var k := 0;
      while k < |groups|
        invariant 0 <= k <= |groups|
        invariant byteCode == old(byteCode) + (head + GroupBytes(groups)[..k])
      {
        EmitOp(groups[k] % 256);
        assert GroupBytes(groups)[..k + 1] == GroupBytes(groups)[..k] + [groups[k] % 256];
        k := k + 1;
      }
      assert GroupBytes(groups)[..k] == GroupBytes(groups);
    }

    // ----- quantifiers -----

    /** The atom stands at the end of the buffer, from `start` on; `last` groups were there before it. */
    method Quantify(start: nat, last: nat, min: nat, max: Bound, greedy: bool, ghost b: Node, ghost back: bool)
      requires start <= |byteCode| && Encodable(b) && Paired(b) && Counts(min, max)
      requires byteCode[start..] == RawCode(fold, b, last, back) && captureCount == last + Groups(b)
      modifies this`byteCode
      ensures byteCode == old(byteCode)[..start] + RepeatCode(b, last, back, min, max, greedy, 0, false, old(byteCode)[start..])
    {
      hide Code, Encode, LE32, RepeatCode, ResetCode, Encodable, Paired, Plain, Advances, Counts, ResetBytes;
      ghost var body := byteCode[start..];
      var addCheck, needInit := NeedCheckAdvAndCaptureInit(byteCode[start..]);
      AtomVerdict(fold, b, last, back, 0, false);
      ResetIs(b, last);
      if needInit && last != captureCount {
        InsertCode(start, ResetBytes(last, captureCount - 1));
      }
      assert byteCode == old(byteCode)[..start] + AtomCode(b, last, body);
      if min == 0 {
        QuantifyOptional(start, last, max, greedy, addCheck, needInit, b, back, body);
      } else {
        QuantifyRequired(start, last, min, max, greedy, addCheck, b, back, body);
      }
      assert byteCode == old(byteCode)[..start] + RepeatCode(b, last, back, min, max, greedy, 0, false, body);
    }

    /** At least no pass. */
    method QuantifyOptional(start0: nat, last: nat, max: Bound, greedy: bool, addCheck: bool, needInit: bool,
                            ghost b: Node, ghost back: bool, ghost body: seq<byte>)
      requires start0 <= |byteCode| && Counts(0, max) && captureCount == last + Groups(b)
      requires byteCode[start0..] == AtomCode(b, last, body) && addCheck == !Advances(b, back) && needInit == !Plain(b)
      modifies this`byteCode
      ensures byteCode == old(byteCode)[..start0] + RepeatCode(b, last, back, 0, max, greedy, 0, false, body)
    {
      hide Encode, LE32, Plain, Advances, AtomCode, PreCode, StarCode, CountedCode, RepeatCode;
      ghost var before, pre, a := byteCode[..start0], PreCode(b, last), byteCode[start0..];
      OptionalIs(b, last, back, max, greedy, body);
      var len, quantMax := |byteCode| - start0, Limit(max);
      var start := InsertReset(start0, last, needInit, b);
      Aside(before, pre, a, byteCode);
      if quantMax == 0 {
        byteCode := byteCode[..start];
      } else if quantMax == 1 || quantMax == INT32_MAX {
        EmitStar(start, len, quantMax == INT32_MAX, greedy, addCheck, a);
      } else {
        EmitSkippable(start, len, max, greedy, addCheck, a);
      }
    }

    /** A single reset, in case the atom does not run. */
    method InsertReset(start: nat, last: nat, needInit: bool, ghost b: Node) returns (start': nat)
      requires start <= |byteCode| && captureCount == last + Groups(b) && needInit == !Plain(b)
      modifies this`byteCode
      ensures byteCode == old(byteCode)[..start] + PreCode(b, last) + old(byteCode)[start..]
      ensures start' == start + |PreCode(b, last)|
    {
      hide ResetCode, Plain, ResetBytes;
      start' := start;
      ResetIs(b, last);
      if !needInit && last != captureCount {
        InsertCode(start, ResetBytes(last, captureCount - 1));
        start' := start + 3;
      }
    }

    /** `?` and `*`: a choice in front of the atom, and for `*` a jump back to it. */
    method EmitStar(start: nat, len: nat, hasGoto: bool, greedy: bool, addCheck: bool, ghost a: seq<byte>)
      requires start <= |byteCode| && byteCode[start..] == a && len == |a|
      modifies this`byteCode
      ensures byteCode == old(byteCode)[..start] + StarCode(a, hasGoto, greedy, addCheck, 0)
    {
      hide LE32, StarCode, SetPosBytes, CheckBytes;
      PosBytes(addCheck);
      StarBytes(a, hasGoto, greedy, addCheck);
      ghost var before, pos, adv := byteCode[..start], SetPosBytes(addCheck), CheckBytes(addCheck);
      var split := [OP_SPLIT_GOTO_FIRST + B(greedy)] + LE32(len + (if hasGoto then 5 else 0) + (if addCheck then 4 else 0));
      InsertCode(start, split + SetPosBytes(addCheck));
      byteCode := byteCode + CheckBytes(addCheck);
      assert byteCode == before + (split + pos + a + adv);
      if hasGoto {
        EmitGoto(OP_GOTO, start);
      }
    }

    /** A counted loop that may be skipped: a choice and the counter in front of the atom. */
    method EmitSkippable(start0: nat, len: nat, max: Bound, greedy: bool, addCheck: bool, ghost a: seq<byte>)
      requires start0 <= |byteCode| && byteCode[start0..] == a && len == |a| && Counts(0, max)
      modifies this`byteCode
      ensures var loop := CountedCode(a, 0, max, greedy, addCheck, 0, 0);
              byteCode == old(byteCode)[..start0] + (Encode(Split(greedy, |loop|)) + loop)
    {
      hide LE32, CountedCode, SetPosBytes, Encode, Counts, Limit;
      PosBytes(addCheck);
      CountedBytes(a, 0, max, greedy, addCheck);
      LimitIs(max);
      ghost var before, pos, loop := byteCode[..start0], SetPosBytes(addCheck), CountedCode(a, 0, max, greedy, addCheck, 0, 0);
      JumpBytes(greedy, |loop|);
      var split := [OP_SPLIT_GOTO_FIRST + B(greedy)] + LE32(6 + (if addCheck then 2 else 0) + len + 10);
      var set_ := [OP_SET_I32, 0] + LE32(Limit(max));
      InsertCode(start0, split + set_ + SetPosBytes(addCheck));
      EmitGotoU8U32(OP_LOOP_SPLIT + 2 * B(addCheck) + B(!greedy), 0, Limit(max), start0 + 11);
      ghost var tail := [OP_LOOP_SPLIT + 2 * B(addCheck) + B(!greedy), 0] + LE32(Limit(max)) + LE32(-(|pos + a| + 10));
      JoinedLoop(before, split, set_, pos, a, tail);
    }

    /** At least one pass. */
    method QuantifyRequired(start0: nat, last: nat, min: nat, max: Bound, greedy: bool, addCheck0: bool,
                            ghost b: Node, ghost back: bool, ghost body: seq<byte>)
      requires start0 <= |byteCode| && min > 0 && Counts(min, max)
      requires byteCode[start0..] == AtomCode(b, last, body) && addCheck0 == !Advances(b, back)
      modifies this`byteCode
      ensures byteCode == old(byteCode)[..start0] + RepeatCode(b, last, back, min, max, greedy, 0, false, body)
    {
      hide Encode, LE32, ResetCode, Plain, Advances, AtomCode, CountedCode, SetPosBytes;
      var start, addCheck, quantMax := start0, addCheck0, Limit(max);
      ghost var before, a := byteCode[..start], byteCode[start..];
      if min == 1 && quantMax == INT32_MAX && !addCheck {
        JumpBytes(!greedy, -(|a| + 5));
        EmitGoto(OP_SPLIT_GOTO_FIRST + B(!greedy), start);
      } else {
        if min == quantMax {
          addCheck := false;
        }
        EmitCounted(start, min, max, greedy, addCheck, a);
      }
    }

    /** The counter in front of the atom, and the instruction that counts down behind it. */
    method EmitCounted(start: nat, min: nat, max: Bound, greedy: bool, addCheck: bool, ghost a: seq<byte>)
      requires start <= |byteCode| && byteCode[start..] == a && min > 0 && Counts(min, max)
      modifies this`byteCode
      ensures byteCode == old(byteCode)[..start] + CountedCode(a, min, max, greedy, addCheck, 0, 0)
    {
      hide LE32, CountedCode, SetPosBytes, Limit;
      PosBytes(addCheck);
      CountedBytes(a, min, max, greedy, addCheck);
      ghost var before, pos := byteCode[..start], SetPosBytes(addCheck);
      var set_, quantMax := [OP_SET_I32, 0] + LE32(Limit(max)), Limit(max);
      InsertCode(start, set_ + SetPosBytes(addCheck));
      assert byteCode == before + (set_ + (pos + a));
      if min == quantMax {
        EmitGotoU8(OP_LOOP, 0, start + 6);
      } else {
        EmitGotoU8U32(OP_LOOP_SPLIT + 2 * B(addCheck) + B(!greedy), 0, quantMax - min, start + 6);
      }
    }

    // ----- the recursive descent -----

    /** Alternatives are joined from left to right by a choice inserted in front and a jump patched behind. */
    method ParseDisjunction(n: Node, back: bool) returns (ok: bool)
      requires Resolved(n) && Paired(n)
      modifies this`byteCode, this`captureCount
      ensures ok <==> Accepted(n, old(captureCount))
      ensures ok ==> byteCode == old(byteCode) + RawCode(fold, n, old(captureCount), back)
      ensures ok ==> captureCount == old(captureCount) + Groups(n)
      decreases n, 4
    {
      hide RawCode, OrCode, Encode, LE32, Groups, GroupsAll, AllAccepted, Accepted, Resolved, Paired, AlternativesOf, ChoiceCode;
      var ns := AlternativesOf(n);
      ghost var lo, before := captureCount, byteCode;
      AlternativesAccepted(n, lo);
      AlternativesSmaller(n);
      ChoiceIs(fold, n, lo, back);
      var start := |byteCode|;
      FirstAccepted(ns, lo);
      ok := ParseAlternative(ns[0], back);
      if !ok {
        return;
      }
      ChoiceFirst(fold, ns, lo, back);
      var k := 1;
      while k < |ns|
        invariant 1 <= k <= |ns| && AllAccepted(ns[..k], lo) && captureCount == lo + GroupsAll(ns[..k])
        invariant AllPaired(ns[..k]) && byteCode == before + ChoiceCode(fold, ns[..k], lo, back)
      {
        AcceptNext(ns, k, lo);
        ChoiceNext(fold, ns, k, lo, back);
        ok := ParseAnother(ns[k], start, back, before, ChoiceCode(fold, ns[..k], lo, back));
        if !ok {
          return;
        }
        k := k + 1;
      }
      assert ns[..k] == ns;
    }

    /** One more alternative, after the code `cl` of those before it. */
    method ParseAnother(n: Node, start: nat, back: bool, ghost before: seq<byte>, ghost cl: seq<byte>) returns (ok: bool)
      requires Resolved(n) && Paired(n) && byteCode == before + cl && start == |before|
      modifies this`byteCode, this`captureCount
      ensures ok <==> Accepted(n, old(captureCount))
      ensures ok ==> byteCode == before + OrCode(cl, RawCode(fold, n, old(captureCount), back))
      ensures ok ==> captureCount == old(captureCount) + Groups(n)
      decreases n, 8
    {
      hide RawCode, OrCode, LE32, Groups, Accepted, Resolved, Paired;
      ghost var cr := RawCode(fold, n, captureCount, back);
      var len := |byteCode| - start;
      assert byteCode[..start] == before && byteCode[start..] == cl;
      InsertCode(start, [OP_SPLIT_NEXT_FIRST] + LE32(len + 5));
      ghost var head := before + ([OP_SPLIT_NEXT_FIRST] + LE32(len + 5)) + cl;
      var pos := EmitOpU32(OP_GOTO, 0);
      ok := ParseAlternative(n, back);
      if !ok {
        return;
      }
      Patched(head, OP_GOTO, 0, |cr|, cr, byteCode);
      Put(pos, LE32(|byteCode| - (pos + 4)));
      OrBytes(cl, cr);
      JoinedOr(before, [OP_SPLIT_NEXT_FIRST] + LE32(len + 5), cl, [OP_GOTO] + LE32(|cr|), cr);
    }

    /** Terms are appended going forward; going backward each new one is moved in front of the others. */
    method ParseAlternative(n: Node, back: bool) returns (ok: bool)
      requires Resolved(n) && Paired(n)
      modifies this`byteCode, this`captureCount
      ensures ok <==> Accepted(n, old(captureCount))
      ensures ok ==> byteCode == old(byteCode) + RawCode(fold, n, old(captureCount), back)
      ensures ok ==> captureCount == old(captureCount) + Groups(n)
      decreases n, if n.Or? then 7 else 3
    {
      hide RawCode, Encode, Groups, GroupsAll, AllAccepted, Accepted, Resolved, Paired, TermsOf, SequenceCode;
      var ns := TermsOf(n);
      ghost var lo, before := captureCount, byteCode;
      TermsAccepted(n, lo);
      TermsSmaller(n);
      SequenceIs(fold, n, lo, back);
      NoneAccepted(fold, ns, lo, back);
      ok := true;
      var start, k := |byteCode|, 0;
      while k < |ns|
        invariant 0 <= k <= |ns| && AllAccepted(ns[..k], lo) && captureCount == lo + GroupsAll(ns[..k])
        invariant AllPaired(ns[..k]) && byteCode == before + SequenceCode(fold, ns[..k], lo, back)
      {
        AcceptNext(ns, k, lo);
        SequenceNext(fold, ns, k, lo, back);
        ghost var rest := SequenceCode(fold, ns[..k], lo, back);
        ghost var last := RawCode(fold, ns[k], captureCount, back);
        var termStart := |byteCode|;
        ok := ParseTerm(ns[k], back);
        if !ok {
          return;
        }
        assert byteCode == before + (rest + last);
        Swapped(before, rest, last, byteCode);
        if back {
          MoveToFront(start, termStart);
        }
        k := k + 1;
      }
      assert ns[..k] == ns;
    }

    /** An atom, and the quantifier that may follow it. */
    method ParseTerm(n: Node, back: bool) returns (ok: bool)
      requires Resolved(n) && Paired(n)
      modifies this`byteCode, this`captureCount
      ensures ok <==> Accepted(n, old(captureCount))
      ensures ok ==> byteCode == old(byteCode) + RawCode(fold, n, old(captureCount), back)
      ensures ok ==> captureCount == old(captureCount) + Groups(n)
      decreases n, if n.Or? || n.Cat? || n.Empty? then 6 else 2
    {
      hide Code, RepeatCode, Groups;
      if n.Repeat? {
        ghost var before := byteCode;
        var start, last := |byteCode|, captureCount;
        RepeatParts(fold, n, last, back);
        ok := ParseAtom(n.body, back);
        if ok {
          assert byteCode[start..] == RawCode(fold, n.body, last, back) && byteCode[..start] == before;
          Quantify(start, last, n.min, n.max, n.greedy, n.body, back);
        }
      } else {
        ok := ParseAtom(n, back);
      }
    }

    /** Whatever is not a single character, a back reference, a group or an assertion stands between `(?:` and `)`. */
    method ParseAtom(n: Node, back: bool) returns (ok: bool)
      requires Resolved(n) && Paired(n)
      modifies this`byteCode, this`captureCount
      ensures ok <==> Accepted(n, old(captureCount))
      ensures ok ==> byteCode == old(byteCode) + RawCode(fold, n, old(captureCount), back)
      ensures ok ==> captureCount == old(captureCount) + Groups(n)
      decreases n, if n.Or? || n.Cat? || n.Repeat? || n.Empty? then 5 else 1
    {
      hide Encode, OneCharCode, RepeatCode, OrCode, LookCode, LoopRegisters;
      if n.Or? || n.Cat? || n.Repeat? || n.Empty? {
        ok := ParseDisjunction(n, back);
      } else if n.Group? {
        ok := ParseGroup(n, back);
      } else if n.Look? {
        ok := ParseLook(n, back);
      } else if n.BackRef? {
        EmitBackReference(n.groups, back, n.icase);
        ok := true;
      } else if n.Assertion() {
        AssertionBytes(n);
        EmitOp(if n.Line? then OP_LINE_START + 2 * B(n.atEnd) + B(n.multi) else OP_WORD_BOUNDARY + 2 * B(n.negated) + B(n.icase));
        ok := true;
      } else {
        ok := ParseChar(n, back);
      }
    }

    /** A capture group; going backward its end is saved first. */
    method ParseGroup(n: Node, back: bool) returns (ok: bool)
      requires n.Group? && Resolved(n) && Paired(n)
      modifies this`byteCode, this`captureCount
      ensures ok <==> Accepted(n, old(captureCount))
      ensures ok ==> byteCode == old(byteCode) + RawCode(fold, n, old(captureCount), back)
      ensures ok ==> captureCount == old(captureCount) + Groups(n)
      decreases n, 0
    {
      hide Code, Encode, Groups;
      GroupGroups(n);
      if captureCount >= CAPTURE_COUNT_MAX {
        return false;
      }
      ghost var before := byteCode;
      var index := captureCount;
      CodeGroupIs(fold, n.body, index, back, 0, false);
      SaveBytes(back, index);
      SaveBytes(!back, index);
      captureCount := captureCount + 1;
      EmitOpU8(OP_SAVE_START + B(back), index);
      ok := ParseDisjunction(n.body, back);
      if !ok {
        return;
      }
      EmitOpU8(OP_SAVE_START + 1 - B(back), index);
      JoinedThree(before, Encode(Save(back, index)), RawCode(fold, n.body, index + 1, back), Encode(Save(!back, index)));
    }

    /** A lookaround; its jump is patched once the size of its body is known. */
    method ParseLook(n: Node, back: bool) returns (ok: bool)
      requires n.Look? && Resolved(n) && Paired(n)
      modifies this`byteCode, this`captureCount
      ensures ok <==> Accepted(n, old(captureCount))
      ensures ok ==> byteCode == old(byteCode) + RawCode(fold, n, old(captureCount), back)
      ensures ok ==> captureCount == old(captureCount) + Groups(n)
      decreases n, 0
    {
      hide Code, LE32, LookCode;
      ghost var before, lo := byteCode, captureCount;
      CodeLookIs(fold, n.negated, n.behind, n.body, lo, back, 0, false);
      var pos := EmitOpU32(OP_LOOKAHEAD + B(n.negated), 0);
      ok := ParseDisjunction(n.body, n.behind);
      if !ok {
        return;
      }
      ghost var c := RawCode(fold, n.body, lo, n.behind);
      EmitOp(OP_LOOKAHEAD_MATCH + B(n.negated));
      ghost var tail := c + [OP_LOOKAHEAD_MATCH + B(n.negated)];
      Tailed(before + ([OP_LOOKAHEAD + B(n.negated)] + LE32(0)), c, [OP_LOOKAHEAD_MATCH + B(n.negated)]);
      Patched(before, OP_LOOKAHEAD + B(n.negated), 0, |c| + 1, tail, byteCode);
      Put(pos, LE32(|byteCode| - (pos + 4)));
      LookBytes(n.negated, c);
      JoinedLook(before, [OP_LOOKAHEAD + B(n.negated)] + LE32(|c| + 1), c, [OP_LOOKAHEAD_MATCH + B(n.negated)]);
    }

    /** One character; going backward it is read between two steps back. */
    method ParseChar(n: Node, back: bool) returns (ok: bool)
      requires n.OneChar() && Resolved(n) && Paired(n)
      modifies this`byteCode, this`captureCount
      ensures ok <==> Accepted(n, old(captureCount))
      ensures ok ==> byteCode == old(byteCode) + RawCode(fold, n, old(captureCount), back)
      ensures ok ==> captureCount == old(captureCount)
      decreases n, 0
    {
      hide Encode, RangeCode;
      PrevByte();
      if back {
        EmitOp(OP_PREV);
      }
      ok := EmitOneChar(n);
      if back {
        EmitOp(OP_PREV);
      }
    }

    method EmitOneChar(n: Node) returns (ok: bool)
      requires n.OneChar() && Resolved(n) && Paired(n)
      modifies this`byteCode
      ensures ok <==> SetsFit(n)
      ensures ok ==> byteCode == old(byteCode) + OneCharCode(fold, n)
    {
      hide RangeCode;
      ok := true;
      match n
      case Char(c, icase) => EmitChar(if icase then fold(c) else c, icase);
      case Dot => EmitOp(OP_DOT);
      case AnyChar => EmitOp(OP_ANY);
      case Space(neg) => EmitOp(OP_SPACE + B(neg));
      case Set(points, icase) => ok := EmitRange(points, icase);
    }

    // ----- the whole program -----

    /** Numbers the registers in place; -1 when there are too many. */
    method ComputeRegisterCount() returns (count: int)
      requires Allocate(byteCode, 0, 0).Allocation?
      modifies this`byteCode
      ensures var x := old(Allocate(byteCode, 0, 0));
              if x.max > REGISTER_COUNT_MAX then count == -1 else count == x.max && byteCode == x.code
    {
      hide Allocate, HeadSize;
      ghost var all := byteCode;
      var stackSize, stackMax, pos := 0, 0, 0;
      assert byteCode[..0] == [] && byteCode[0..] == byteCode;
      PrependNone(Allocate(byteCode, 0, 0));
      while pos < |byteCode|
        invariant 0 <= pos <= |byteCode| && 0 <= stackSize <= stackMax <= REGISTER_COUNT_MAX
        invariant Allocate(all, 0, 0) == Prepend(byteCode[..pos], Allocate(byteCode[pos..], stackSize, stackMax))
        decreases |byteCode| - pos
      {
        ghost var done, left := byteCode[..pos], byteCode[pos..];
        var op, len := byteCode[pos], HeadSize(byteCode[pos..]);
        AllocateStep(left, stackSize, stackMax);
        assert op < REOP_COUNT && pos + len <= |byteCode|;
        ghost var depth', rest := stackSize + StackEffect(op), left[len..];
        AllocateMax(rest, depth', Max(stackMax, depth'));
        PrependTwice(done, Numbered(left[..len], stackSize), Allocate(rest, depth', Max(stackMax, depth')));
        Renumbered(byteCode, pos, len, stackSize);
        if op == OP_SET_I32 || op == OP_SET_CHAR_POS {
          Put(pos + 1, [stackSize]);
          stackSize := stackSize + 1;
          if stackSize > stackMax {
            if stackSize > REGISTER_COUNT_MAX {
              return -1;
            }
            stackMax := stackSize;
          }
        } else if op == OP_CHECK_ADVANCE || op == OP_LOOP || op == OP_LOOP_SPLIT || op == OP_LOOP_SPLIT + 1 {
          assert stackSize > 0;
          stackSize := stackSize - 1;
          Put(pos + 1, [stackSize]);
        } else if op == OP_LOOP_SPLIT + 2 || op == OP_LOOP_SPLIT + 3 {
          assert stackSize >= 2;
          stackSize := stackSize - 2;
          Put(pos + 1, [stackSize]);
        }
        pos := pos + len;
      }
      count := stackMax;
      AllDone(byteCode, pos, stackSize, stackMax);
    }
  }
}
