/**
  The backtracking machine as it runs: one capture array updated in place, and one stack
  that interleaves choice points with the pairs that undo the updates made since. Each
  operation is specified by what it does to the choice points of the simple machine.
 */
module BacktrackMachine {
  import opened Bytes
  import opened Bytecode
  import opened Subjects
  import opened SnapshotMachine
  import opened UndoLog
  import opened Expansion
  import PatternSemantics

  /** Where the simple machine goes on after a failure. */
  function Resume(stk: Stack): Config {
    if stk == [] then Done(None)
    else if stk[0].kind == LookPoint then Resume(stk[1..])
    else Run(stk[0].t, stk[1..])
  }

  lemma {:induction false} ResumeSteps(m: Prog, stk: Stack, n: nat, r: Option<Thread>) returns (n': nat)
    requires Steps(m, Fail(stk), n) == Done(r)
    ensures n' <= n && Steps(m, Resume(stk), n') == Done(r)
  {
    assert n > 0;
    if stk == [] {
      DoneStays(m, None, n - 1);
      n' := 0;
    } else if stk[0].kind == LookPoint {
      n' := ResumeSteps(m, stk[1..], n - 1, r);
    } else {
      n' := n - 1;
    }
  }

  datatype Status = Running | Failed | Matched

  /** What an action of the simple machine amounts to, given the choice points before and after it. */
  ghost predicate Effect(a: Action, st: Status, t: Thread, before: Stack, after: Stack) {
    match a
    case Go(t') => st == Running && t == t' && after == before
    case Fork(first, other) => st == Running && t == first && after == [Frame(SplitPoint, other)] + before
    case Enter(neg, inner, resume) => st == Running && t == inner && after == [Frame(PointKind(neg), resume)] + before
    case Die => st == Failed && after == before
    case Accept => st == Matched && after == before
    case Leave(_) => false
    case Crash => false
  }

  class Machine {
    const prog: Prog
    const capture: array<int>
    var stack: seq<Elem>
    var bp: nat

    ghost predicate Valid()
      reads this, capture
    {
      WellFormed(stack, |stack|, bp, capture.Length)
    }

    /** The choice points that the simple machine would have. */
    ghost function Choices(): Stack
      reads this, capture
      requires Valid()
    {
      Snapshots(stack, |stack|, bp, capture[..])
    }

    constructor (prog: Prog, capture: array<int>)
      ensures this.prog == prog && this.capture == capture
      ensures Valid() && Choices() == []
    {
      this.prog, this.capture := prog, capture;
      stack, bp := [], 0;
    }

    // ----- updates that are undone on backtracking -----

    /** Saves the old value of a slot and overwrites it. */
    method SaveCapture(idx: nat, value: int)
      requires Valid() && idx < capture.Length
      modifies this`stack, capture
      ensures Valid() && capture[..] == old(capture[..])[idx := value] && Choices() == old(Choices())
    {
      ghost var arr := capture[..];
      ghost var pair := [Val(idx), Val(capture[idx])];
      stack := stack + [Val(idx), Val(capture[idx])];
      capture[idx] := value;
      assert Undo(pair, arr[idx := value]) == arr by {
        assert pair[..0] == [];
        assert arr[idx := value][idx := arr[idx]] == arr;
      }
      PushPairs(old(stack), |old(stack)|, bp, pair, arr[idx := value]);
      assert old(stack)[..|old(stack)|] + pair == stack;
    }

    /** As above, but a slot saved since the last choice point is not saved again. */
    method SaveCaptureCheck(idx: nat, value: int)
      requires Valid() && idx < capture.Length
      modifies this`stack, capture
      ensures Valid() && capture[..] == old(capture[..])[idx := value] && Choices() == old(Choices())
    {
      var sp1 := |stack|;
      while sp1 > bp && stack[sp1 - 2] != Val(idx)
        invariant bp <= sp1 <= |stack| && (|stack| - sp1) % 2 == 0
      {
        assert Pairs(stack[bp..|stack|], capture.Length);
        sp1 := sp1 - 2;
      }
      if sp1 > bp {
        ghost var arr := capture[..];
        ghost var top := stack[bp..|stack|];
        assert top[sp1 - 2 - bp] == Val(idx);
        assert Saved(top, idx);
        UndoOverwrites(top, arr, idx, value);
        capture[idx] := value;
        assert capture[..] == arr[idx := value];
      } else {
        SaveCapture(idx, value);
      }
    }

    method PushChoice(pc: int, pos: nat, kind: Kind)
      requires Valid()
      modifies this`stack, this`bp
      ensures Valid() && Choices() == [Frame(kind, Thread(pc, pos, capture[..]))] + old(Choices())
    {
      PushFrame(stack, |stack|, bp, capture[..], pc, pos, kind);
      assert stack[..|stack|] == stack;
      stack := stack + [Val(pc), Val(pos), Link(bp, kind)];
      bp := |stack|;
    }

    /** Undoes the pairs above the last choice point. */
    method UndoPairs()
      requires Valid()
      modifies this`stack, capture
      ensures stack == old(stack)[..bp] && bp <= |old(stack)| && Pairs(old(stack)[bp..|old(stack)|], capture.Length)
      ensures capture[..] == Undo(old(stack)[bp..|old(stack)|], old(capture[..]))
    {
      hide Snapshots, Undo, Pairs;
      ghost var stk0, arr0 := stack, capture[..];
      LogPairs(stack, bp, arr0);
      while |stack| > bp
        invariant bp <= |stack| <= |stk0| && stack == stk0[..|stack|] && (|stack| - bp) % 2 == 0
        invariant Pairs(stk0[bp..|stk0|], capture.Length) && Pairs(stack[bp..], capture.Length)
        invariant Undo(stack[bp..], capture[..]) == Undo(stk0[bp..|stk0|], arr0)
      {
        ghost var arr := capture[..];
        var n := |stack|;
        TopPair(stack, bp, arr);
        capture[stack[n - 2].v] := stack[n - 1].v;
        assert capture[..] == arr[stack[n - 2].v := stack[n - 1].v];
        assert stk0[..n][..n - 2] == stk0[..n - 2];
        stack := stack[..n - 2];
      }
      UndoNone(stack, bp, capture[..]);
    }

    /** Undoes the pairs above the last choice point and removes it. */
    method PopChoice() returns (pc: int, pos: nat, kind: Kind)
      requires Valid() && bp > 0
      modifies this`stack, this`bp, capture
      ensures Valid() && bp < old(bp)
      ensures old(Choices()) == [Frame(kind, Thread(pc, pos, capture[..]))] + Choices()
    {
      hide Snapshots, Undo, Pairs, WellFormed;
      ghost var stk0 := stack;
      TopFrame(stack, bp, capture[..]);
      UndoPairs();
      assert stack[bp - 3] == stk0[bp - 3] && stack[bp - 2] == stk0[bp - 2] && stack[bp - 1] == stk0[bp - 1];
      pc, pos, kind := stack[bp - 3].v, stack[bp - 2].v, stack[bp - 1].kind;
      assert stack[..bp - 3] == stk0[..bp - 3];
      bp, stack := stack[bp - 1].bp, stack[..bp - 3];
    }

    // ----- failure and lookaheads -----

    /** `no_match`: resumes at the last choice point that is not that of a lookahead. */
    method Backtrack() returns (ok: bool, pc: int, pos: nat)
      requires Valid()
      modifies this`stack, this`bp, capture
      ensures Valid()
      ensures Resume(old(Choices())) == if ok then Run(Thread(pc, pos, capture[..]), Choices()) else Done(None)
    {
      pc, pos := 0, 0;
      while true
        invariant Valid() && Resume(Choices()) == Resume(old(Choices()))
        decreases bp
      {
        if bp == 0 {
          return false, pc, pos;
        }
        var kind;
        ghost var before := Choices();
        pc, pos, kind := PopChoice();
        assert before[1..] == Choices();
        if kind != LookPoint {
          return true, pc, pos;
        }
      }
    }

    /** The body of a negative lookahead has matched: everything since its start is undone. */
    method LeaveNegative()
      requires Valid() && FirstOf(Choices(), NegLookPoint) < |Choices()|
      modifies this`stack, this`bp, capture
      ensures Valid() && LeaveLook(true, old(capture[..]), old(Choices())) == Fail(Choices())
      ensures capture[..] == EntryOf(old(Choices()))
    {
      ghost var all := Choices();
      while true
        invariant Valid() && FirstOf(Choices(), NegLookPoint) < |Choices()|
        invariant LeaveLook(true, old(capture[..]), Choices()) == LeaveLook(true, old(capture[..]), all)
        invariant EntryOf(Choices()) == EntryOf(all)
        decreases bp
      {
        ghost var before := Choices();
        var _, _, kind := PopChoice();
        assert before[1..] == Choices();
        assert kind == before[0].kind && capture[..] == before[0].t.arr;
        assert kind != NegLookPoint ==> FirstOf(before, NegLookPoint) == 1 + FirstOf(Choices(), NegLookPoint);
        LeaveStep(true, old(capture[..]), before);
        if kind == NegLookPoint {
          return;
        }
      }
    }

    /**
      The body of a lookahead has matched: its choice points are dropped, the captures are
      kept, and so is what is needed to undo them from the choice points that remain.
     */
    method CommitLook() returns (pc: int, pos: nat)
      requires Valid() && FirstOf(Choices(), LookPoint) < |Choices()|
      modifies this`stack, this`bp
      ensures Valid()
      ensures LeaveLook(false, capture[..], old(Choices())) == Run(Thread(pc, pos, capture[..]), Choices())
    {
      var top := |stack|;
      var sp;
      sp, pc, pos := UnlinkLook();
      if sp != 0 {
        Compact(sp, top);
      } else {
        stack := [];
      }
    }

    /** First pass: unlinks the choice points down to the lookahead, leaving in each the end of its pairs. */
    method UnlinkLook() returns (sp: nat, pc: int, pos: nat)
      requires Valid() && FirstOf(Choices(), LookPoint) < |Choices()|
      modifies this`stack, this`bp
      ensures |stack| == old(|stack|) && sp <= |stack|
      ensures Chain(stack, sp, |stack|, capture.Length) && WellFormed(stack, sp, bp, capture.Length)
      ensures LeaveLook(false, capture[..], old(Choices())) == Run(Thread(pc, pos, capture[..]), Remaining(stack, sp, bp, capture[..]))
    {
      hide Snapshots, Undo, Gather, Chain, WellFormed, FirstOf, LeaveLook, Remaining, FrameAt;
      ghost var arr, n, top := capture[..], capture.Length, |stack|;
      ghost var all := Choices();
      sp := |stack|;
      RemainingAll(stack, bp, arr);
      while true
        invariant |stack| == top && sp <= top && Chain(stack, sp, top, n) && WellFormed(stack, sp, bp, n)
        invariant FirstOf(Remaining(stack, sp, bp, arr), LookPoint) < |Remaining(stack, sp, bp, arr)|
        invariant LeaveLook(false, arr, Remaining(stack, sp, bp, arr)) == LeaveLook(false, arr, all)
        decreases bp
      {
        ghost var stk, rest := stack, Remaining(stack, sp, bp, arr);
        LeaveStep(false, arr, rest);
        RemainingSome(stk, sp, bp, arr);
        UnlinkOne(stk, stk[bp - 1 := Val(sp)], sp, bp, arr);
        var sp1 := sp;
        sp := bp;
        pc, pos := stack[sp - 3].v, stack[sp - 2].v;
        var kind := stack[sp - 1].kind;
        bp, stack := stack[sp - 1].bp, stack[sp - 1 := Val(sp1)];
        sp := sp - 3;
        assert rest[1..] == Remaining(stack, sp, bp, arr);
        if kind == LookPoint {
          break;
        }
      }
    }

    /** Second pass: the pairs are moved down over the unlinked choice points. */
    method Compact(base: nat, top: nat)
      requires top == |stack| && base <= top && Chain(stack, base, top, capture.Length)
      requires WellFormed(stack, base, bp, capture.Length)
      modifies this`stack
      ensures Valid()
      ensures Choices() == old(Remaining(stack, base, bp, capture[..]))
    {
      hide Gather, Chain, Undo, Snapshots, WellFormed, Pairs;
      ghost var stk, n := stack, capture.Length;
      ghost var pairs := Gather(stk, base, top, n);
      var sp, sp1 := base, base;
      while sp1 < top
        invariant base <= sp <= sp1 <= top == |stack| == |stk| && stack[sp1..] == stk[sp1..] && Chain(stk, sp1, top, n)
        invariant stack[..sp] + Gather(stk, sp1, top, n) == stk[..base] + pairs
      {
        ChainStep(stk, stack, sp1, top, n);
        var next := stack[sp1 + 2].v;
        ghost var before, moved, rest := stack[..sp], stk[sp1 + 3..next], Gather(stk, next, top, n);
        sp := CopyDown(sp, sp1 + 3, next);
        assert (before + moved) + rest == before + (moved + rest);
        sp1 := next;
      }
      ChainEnd(stk, top, n);
      assert stack[..sp] + [] == stack[..sp];
      stack := stack[..sp];
      PushPairs(stk, base, bp, pairs, capture[..]);
      assert |stack| == base + |pairs|;
    }

    /** Moves the elements from..next down to `sp`. */
    method CopyDown(sp: nat, from: nat, next: nat) returns (sp': nat)
      requires sp < from <= next <= |stack|
      modifies this`stack
      ensures sp' <= next && |stack| == old(|stack|)
      ensures stack[..sp'] == old(stack)[..sp] + old(stack)[from..next]
      ensures stack[next..] == old(stack)[next..]
    {
      var sp1 := from;
      sp' := sp;
      while sp1 < next
        invariant sp' < sp1 <= next && |stack| == old(|stack|)
        invariant stack[..sp'] == old(stack)[..sp] + old(stack)[from..sp1]
        invariant stack[sp1..] == old(stack)[sp1..]
      {
        assert stack[sp1] == stack[sp1..][0] == old(stack)[sp1..][0] == old(stack)[sp1];
        MoveDown(stack, stack[sp' := stack[sp1]], sp', sp1);
        assert stack[sp1 + 1..] == stack[sp1..][1..] == old(stack)[sp1..][1..] == old(stack)[sp1 + 1..];
        assert old(stack)[from..sp1 + 1] == old(stack)[from..sp1] + [old(stack)[sp1]];
        stack := stack[sp' := stack[sp1]];
        sp', sp1 := sp' + 1, sp1 + 1;
      }
    }

    // ----- instructions that only read -----

    /** The bisection of the range instruction. */
    method InRange(base: nat, big: bool, n: nat, c: nat) returns (found: bool)
      requires TableIn(prog.code, base, big, n) && n >= 1
      ensures found == InTable(prog.code, base, big, n, c)
    {
      hide Low, High, TableIn;
      var low := Low(prog.code, base, big, n, 0);
      if c < low { return false; }
      var min, max := 0, n - 1;
      var high := High(prog.code, base, big, n, max);
      if !big && c >= 0xFFFF && high == 0xFFFF { return true; }
      if c > high { return false; }
      while min <= max
        invariant 0 <= min <= max + 1 && 0 <= max < n
        invariant InTable(prog.code, base, big, n, c) == Search(prog.code, base, big, n, c, min, max)
        decreases max + 1 - min
      {
        var idx := (min + max) / 2;
        low := Low(prog.code, base, big, n, idx);
        high := High(prog.code, base, big, n, idx);
        if c < low {
          max := idx - 1;
        } else if c > high {
          min := idx + 1;
        } else {
          return true;
        }
      }
      return false;
    }

    /** Reads one character and tests it; `t` is the running thread. */
    method ReadChar(i: Instr, next: nat, pos: nat, ghost t: Thread) returns (ok: bool, pc': int, pos': nat)
      requires (i.Char? || i.Dot? || i.AnyChar? || i.Space? || i.Range?) && pos == t.pos <= |prog.subject.units|
      requires CharAction(prog, i, next, t) != Crash
      ensures CharAction(prog, i, next, t) == if ok then Go(t.(pc := pc', pos := pos')) else Die
    {
      hide InTable;
      ok, pc', pos' := false, next, pos;
      var s := prog.subject;
      if pos >= |s.units| { return; }
      var c := CharAt(s, pos, |s.units|);
      pos' := NextPos(s, pos, |s.units|);
      match i
      case Char(val, _, icase) => ok := (if icase then prog.env.fold(c) else c) == val;
      case Dot => ok := !PatternSemantics.IsLineTerminator(c);
      case Space(neg) => ok := prog.env.space(c) != neg;
      case Range(big, icase, n) =>
        ok := InRange(next, big, n, if icase then prog.env.fold(c) else c);
        pc' := next + (if big then 8 else 4) * n;
      case AnyChar => ok := true;
    }

    /** The comparison loop of a forward back reference. */
    method CompareForward(icase: bool, start: nat, end: nat, pos: nat) returns (r: Option<nat>)
      requires end <= |prog.subject.units| && pos <= |prog.subject.units|
      ensures r == MatchForward(prog, icase, start, end, pos)
    {
      var s := prog.subject;
      var p, q := start, pos;
      while p < end
        invariant 0 <= p && 0 <= q <= |s.units|
        invariant MatchForward(prog, icase, start, end, pos) == MatchForward(prog, icase, p, end, q)
        decreases end - p
      {
        if q >= |s.units| { return None; }
        var c1, c2 := CharAt(s, p, end), CharAt(s, q, |s.units|);
        if !PatternSemantics.SameChar(prog.env, c1, c2, icase) { return None; }
        p, q := NextPos(s, p, end), NextPos(s, q, |s.units|);
      }
      return Some(q);
    }

    method CompareBackward(icase: bool, start: nat, end: nat, pos: nat) returns (r: Option<nat>)
      requires end <= |prog.subject.units| && pos <= |prog.subject.units|
      ensures r == MatchBackward(prog, icase, start, end, pos)
    {
      var s := prog.subject;
      var p, q := end, pos;
      while p > start
        invariant 0 <= p <= |s.units| && 0 <= q <= |s.units|
        invariant MatchBackward(prog, icase, start, end, pos) == MatchBackward(prog, icase, start, p, q)
        decreases p
      {
        if q == 0 { return None; }
        var c1, c2 := CharBefore(s, p, start), CharBefore(s, q, 0);
        if !PatternSemantics.SameChar(prog.env, c1, c2, icase) { return None; }
        p, q := PrevPos(s, p, start), PrevPos(s, q, 0);
      }
      return Some(q);
    }

    /** Tests the first group of the list that is set; with none set the reference matches the empty string. */
    method BackReference(i: Instr, next: int, pos: nat, ghost t: Thread) returns (ok: bool, pos': nat)
      requires i.BackRef? && pos == t.pos <= |prog.subject.units| && 2 * prog.groups <= capture.Length && t.arr == capture[..]
      requires BackRefAction(prog, i, next, t) != Crash
      ensures BackRefAction(prog, i, next, t) == if ok then Go(t.(pc := next, pos := pos')) else Die
    {
      hide MatchForward, MatchBackward;
      var k := 0;
      while k < |i.groups|
        invariant 0 <= k <= |i.groups| && FirstSet(capture[..], prog.groups, i.groups) == k + FirstSet(capture[..], prog.groups, i.groups[k..])
      {
        var g := i.groups[k];
        if g >= prog.groups { return false, pos; }
        var start, end := capture[2 * g], capture[2 * g + 1];
        if start != NULL && end != NULL {
          var r;
          if i.backward { r := CompareBackward(i.icase, start, end, pos); }
          else { r := CompareForward(i.icase, start, end, pos); }
          if r.None? { return false, pos; }
          return true, r.value;
        }
        assert i.groups[k..][1..] == i.groups[k + 1..];
        k := k + 1;
      }
      return true, pos;
    }

    // ----- instructions that update the array -----

    /** Forgets the captures lo..hi, both included. */
    method ResetCaptures(lo: nat, hi: nat)
      requires Valid() && 2 * hi + 1 < capture.Length
      modifies this`stack, capture
      ensures Valid() && capture[..] == ResetSlots(old(capture[..]), lo, hi) && Choices() == old(Choices())
    {
      hide Snapshots, WellFormed;
      var val := lo;
      ghost var arr := capture[..];
      while val <= hi
        invariant lo <= val && Valid() && Choices() == old(Choices())
        invariant val <= hi + 1 || val == lo
        invariant forall k :: 0 <= k < capture.Length ==> capture[..][k] == if 2 * lo <= k < 2 * val then NULL else arr[k]
        decreases hi + 1 - val
      {
        SaveCapture(2 * val, NULL);
        SaveCapture(2 * val + 1, NULL);
        val := val + 1;
      }
      assert capture[..] == ResetSlots(arr, lo, hi);
    }

    /** Counts down, then goes back, gives up, splits or goes on. */
    method CountDown(i: Instr, next: nat, pos: nat, ghost t: Thread) returns (st: Status, pc': int)
      requires (i.Loop? || i.LoopSplit?) && Valid() && pos == t.pos && t.arr == capture[..]
      requires LoopAction(prog, i, next, t) != Crash
      modifies this`stack, this`bp, capture
      ensures Valid()
      ensures Effect(LoopAction(prog, i, next, t), st, Thread(pc', pos, capture[..]), old(Choices()), Choices())
      ensures st != Matched
    {
      hide Snapshots, WellFormed;
      var idx := 2 * prog.groups + i.reg;
      var count := (capture[idx] - 1) % TWO32;
      SaveCaptureCheck(idx, count);
      if i.Loop? {
        pc' := if count != 0 then next + i.off else next;
        return Running, pc';
      }
      if count > i.limit {
        return Running, next + i.off;
      }
      if i.check && capture[idx + 1] == pos && count != i.limit {
        return Failed, next;
      }
      pc' := next;
      if count != 0 {
        if i.nextFirst {
          PushChoice(next + i.off, pos, SplitPoint);
        } else {
          PushChoice(next, pos, SplitPoint);
          pc' := next + i.off;
        }
      }
      st := Running;
    }

    /** The register instructions. */
    method Register(i: Instr, next: nat, pos: nat, ghost t: Thread) returns (st: Status)
      requires (i.SetI32? || i.SetPos? || i.CheckAdvance?) && Valid() && pos == t.pos && t.arr == capture[..]
      requires RegisterAction(prog, i, next, t) != Crash
      modifies this`stack, capture
      ensures Valid()
      ensures Effect(RegisterAction(prog, i, next, t), st, Thread(next, pos, capture[..]), old(Choices()), Choices())
      ensures st != Matched
    {
      hide Snapshots, WellFormed;
      var idx := 2 * prog.groups + i.reg;
      st := Running;
      if i.SetI32? {
        SaveCaptureCheck(idx, i.val);
      } else if i.SetPos? {
        SaveCaptureCheck(idx, pos);
      } else if capture[idx] == pos {
        st := Failed;
      }
    }

    /** One instruction, other than those that leave a lookahead. */
    method Step(i: Instr, pc: int, pos: nat) returns (st: Status, pc': int, pos': nat)
      requires Valid() && Fetch(prog.code, pc) == Some(i) && !i.LookMatch?
      requires Act(prog, Thread(pc, pos, capture[..])) != Crash
      modifies this`stack, this`bp, capture
      ensures Valid()
      ensures Effect(old(Act(prog, Thread(pc, pos, capture[..]))), st, Thread(pc', pos', capture[..]), old(Choices()), Choices())
      ensures st == Matched ==> capture[..] == old(capture[..])
    {
      hide Snapshots, WellFormed, Fetch, CharAction, BackRefAction, LoopAction, RegisterAction, ResetSlots;
      ghost var t := Thread(pc, pos, capture[..]);
      FetchedAt(prog.code, pc);
      var next := pc + Size(i);
      assert Act(prog, t) == Execute(prog, i, next, t);
      st, pc', pos' := Running, next, pos;
      if i.Char? || i.Dot? || i.AnyChar? || i.Space? || i.Range? {
        var ok;
        ok, pc', pos' := ReadChar(i, next, pos, t);
        return if ok then Running else Failed, pc', pos';
      }
      match i
      case Goto(off) => pc' := next + off;
      case Split(nextFirst, off) =>
        if nextFirst {
          PushChoice(next + off, pos, SplitPoint);
        } else {
          PushChoice(next, pos, SplitPoint);
          pc' := next + off;
        }
      case Match => st := Matched;
      case Look(neg, off) => PushChoice(next + off, pos, PointKind(neg));
      case Save(atEnd, g) => SaveCapture(2 * g + (if atEnd then 1 else 0), pos);
      case Reset(lo, hi) => ResetCaptures(lo, hi);
      case Line(_, _) => if !LineTest(prog, i, pos) { st := Failed; }
      case Word(_, _) => if !WordTest(prog, i, pos) { st := Failed; }
      case BackRef(_, _, _) =>
        var ok;
        ok, pos' := BackReference(i, next, pos, t);
        if !ok { st := Failed; }
      case Prev => if pos == 0 { st := Failed; } else { pos' := PrevPos(prog.subject, pos, 0); }
      case Loop(_, _) => st, pc' := CountDown(i, next, pos, t);
      case LoopSplit(_, _, _, _, _) => st, pc' := CountDown(i, next, pos, t);
      case SetI32(_, _) => st := Register(i, next, pos, t);
      case SetPos(_) => st := Register(i, next, pos, t);
      case CheckAdvance(_) => st := Register(i, next, pos, t);
      case LookMatch(_) =>
    }

    // ----- the main loop -----

    /**
      Runs the program. `r` is the result of the simple machine started in the same state,
      which has to have one.
     */
    method Exec(pc0: int, pos0: nat, ghost r: Option<Thread>) returns (matched: bool)
      requires Valid() && Evaluates(prog, Run(Thread(pc0, pos0, capture[..]), Choices()), r)
      modifies this`stack, this`bp, capture
      ensures matched <==> r.Some?
      ensures matched ==> capture[..] == r.value.arr
    {
      hide Snapshots, WellFormed, Act, Fetch;
      var pc, pos := pc0, pos0;
      ghost var left: nat :| Steps(prog, Run(Thread(pc, pos, capture[..]), Choices()), left) == Done(r);
      while true
        invariant Valid() && 0 <= pos
        invariant Steps(prog, Run(Thread(pc, pos, capture[..]), Choices()), left) == Done(r)
        decreases left
      {
        ghost var t, before := Thread(pc, pos, capture[..]), Choices();
        NotCrashed(prog, t, before, left, r);
        var i := Fetch(prog.code, pc).value;
        var st := Running;
        if i.LookMatch? && !i.negated {
          pc, pos := CommitLook();
          left := left - 1;
        } else if i.LookMatch? {
          LeaveNegative();
          st := Failed;
          left := left - 1;
        } else {
          st, pc, pos := Step(i, pc, pos);
          StepEffect(prog, t, before, left, r, st, Thread(pc, pos, capture[..]), Choices());
          left := left - 1;
        }
        if st == Matched {
          return true;
        }
        if st == Failed {
          left := ResumeSteps(prog, Choices(), left, r);
          var ok;
          ok, pc, pos := Backtrack();
          if !ok {
            DoneStays(prog, None, left);
            return false;
          }
        }
      }
    }
  }

  /** The running thread of a machine that stops with a result can take its next step. */
  lemma NotCrashed(m: Prog, t: Thread, stk: Stack, n: nat, r: Option<Thread>)
    requires Steps(m, Run(t, stk), n) == Done(r)
    ensures n > 0 && Act(m, t) != Crash && Fetch(m.code, t.pc).Some?
    ensures var i := Fetch(m.code, t.pc).value;
            i.LookMatch? ==>
              && Act(m, t) == Leave(i.negated)
              && FirstOf(stk, PointKind(i.negated)) < |stk|
              && Steps(m, LeaveLook(i.negated, t.arr, stk), n - 1) == Done(r)
  {
    StuckStays(m, n - 1);
  }

  /** What one instruction did, seen from the simple machine. */
  lemma StepEffect(m: Prog, t: Thread, before: Stack, n: nat, r: Option<Thread>, st: Status, t': Thread, after: Stack)
    requires Steps(m, Run(t, before), n) == Done(r) && n > 0
    requires Effect(Act(m, t), st, t', before, after)
    ensures st == Running ==> Steps(m, Run(t', after), n - 1) == Done(r)
    ensures st == Failed ==> Steps(m, Fail(after), n - 1) == Done(r)
    ensures st == Matched ==> r == Some(t)
  {
    hide Act;
    if st == Matched { DoneStays(m, Some(t), n - 1); }
  }

  /** The choice points left when those above `sp` have been unlinked but their pairs are still to be kept. */
  /** The array on entry to the innermost negative lookahead. */
  ghost function EntryOf(stk: Stack): seq<int>
    requires FirstOf(stk, NegLookPoint) < |stk|
  {
    stk[FirstOf(stk, NegLookPoint)].t.arr
  }

  ghost function Remaining(stk: seq<Elem>, sp: nat, bp: nat, arr: seq<int>): Stack
    requires sp <= |stk| && Chain(stk, sp, |stk|, |arr|) && WellFormed(stk, sp, bp, |arr|)
  {
    Snapshots(stk, sp, bp, Undo(Gather(stk, sp, |stk|, |arr|), arr))
  }

  lemma RemainingSome(stk: seq<Elem>, sp: nat, bp: nat, arr: seq<int>)
    requires sp <= |stk| && Chain(stk, sp, |stk|, |arr|) && WellFormed(stk, sp, bp, |arr|)
    requires Remaining(stk, sp, bp, arr) != []
    ensures 3 <= bp <= sp
  {
  }

  lemma RemainingAll(stk: seq<Elem>, bp: nat, arr: seq<int>)
    requires WellFormed(stk, |stk|, bp, |arr|)
    ensures Chain(stk, |stk|, |stk|, |arr|) && Remaining(stk, |stk|, bp, arr) == Snapshots(stk, |stk|, bp, arr)
  {
  }

  lemma UnlinkOne(stk: seq<Elem>, stk': seq<Elem>, sp: nat, bp: nat, arr: seq<int>)
    requires sp <= |stk| && Chain(stk, sp, |stk|, |arr|) && WellFormed(stk, sp, bp, |arr|)
    requires 3 <= bp <= sp && stk' == stk[bp - 1 := Val(sp)]
    ensures FrameAt(stk, bp) && stk[bp - 3].Val? && stk[bp - 2].Val? && 0 <= stk[bp - 2].v && stk[bp - 1].Link?
    ensures stk[bp - 1].bp <= bp - 3
    ensures Chain(stk', bp - 3, |stk|, |arr|) && WellFormed(stk', bp - 3, stk[bp - 1].bp, |arr|)
    ensures var before, after := Remaining(stk, sp, bp, arr), Remaining(stk', bp - 3, stk[bp - 1].bp, arr);
            && before != [] && before[1..] == after
            && before[0].kind == stk[bp - 1].kind && before[0].t.pc == stk[bp - 3].v && before[0].t.pos == stk[bp - 2].v
  {
    hide Snapshots, Undo, Gather;
    WellFormedDown(stk, sp, bp, |arr|);
    ChainExtend(stk, stk', sp, bp, |stk|, arr);
  }

  lemma ChainStep(stk: seq<Elem>, stk': seq<Elem>, p: nat, top: nat, n: nat)
    requires top == |stk| == |stk'| && p < top && Chain(stk, p, top, n) && stk'[p..] == stk[p..]
    ensures p + 3 <= top && stk'[p + 2].Val? && p + 3 <= stk'[p + 2].v <= top
    ensures var next := stk'[p + 2].v;
            && Chain(stk, next, top, n)
            && Gather(stk, p, top, n) == stk[p + 3..next] + Gather(stk, next, top, n)
            && stk'[p + 3..next] == stk[p + 3..next] && stk'[next..] == stk[next..]
  {
    assert stk'[p + 2] == stk'[p..][2] == stk[p..][2] == stk[p + 2];
    Prefixes(stk', stk, p, p + 3, stk'[p + 2].v);
  }

  lemma ChainEnd(stk: seq<Elem>, top: nat, n: nat)
    requires top <= |stk|
    ensures Chain(stk, top, top, n) && Gather(stk, top, top, n) == []
  {
  }

  /** Undoing starts with the top pair. */
  lemma TopPair(stk: seq<Elem>, bp: nat, arr: seq<int>)
    requires bp < |stk| && Pairs(stk[bp..], |arr|)
    ensures var n := |stk|;
            && bp + 2 <= n && stk[n - 2].Val? && stk[n - 1].Val? && 0 <= stk[n - 2].v < |arr|
            && Pairs(stk[..n - 2][bp..], |arr|)
            && Undo(stk[bp..], arr) == Undo(stk[..n - 2][bp..], arr[stk[n - 2].v := stk[n - 1].v])
  {
    hide Pairs, Undo;
    UndoTop(stk[bp..], arr);
    SliceTop(stk, bp);
  }

  lemma LogPairs(stk: seq<Elem>, bp: nat, arr: seq<int>)
    requires WellFormed(stk, |stk|, bp, |arr|)
    ensures bp <= |stk| && stk[bp..|stk|] == stk[bp..] && Pairs(stk[bp..], |arr|) && (|stk| - bp) % 2 == 0
    ensures stk == stk[..|stk|]
  {
  }

  lemma UndoNone(stk: seq<Elem>, bp: nat, arr: seq<int>)
    requires |stk| == bp
    ensures Pairs(stk[bp..], |arr|) && Undo(stk[bp..], arr) == arr
  {
  }

  lemma SliceTop(stk: seq<Elem>, bp: nat)
    requires bp + 2 <= |stk|
    ensures var n, es := |stk|, stk[bp..];
            && es[|es| - 2] == stk[n - 2] && es[|es| - 1] == stk[n - 1]
            && stk[..n - 2][bp..] == es[..|es| - 2]
  {
  }

  lemma UndoTop(es: seq<Elem>, arr: seq<int>)
    requires es != [] && Pairs(es, |arr|)
    ensures 2 <= |es| && es[|es| - 2].Val? && es[|es| - 1].Val? && 0 <= es[|es| - 2].v < |arr|
    ensures Pairs(es[..|es| - 2], |arr|)
    ensures Undo(es, arr) == Undo(es[..|es| - 2], arr[es[|es| - 2].v := es[|es| - 1].v])
  {
    assert es[|es| - 2].Val? && es[|es| - 1].Val?;
    PairsPrefix(es, |es| - 2, |arr|);
  }

  lemma MoveDown(stk: seq<Elem>, stk': seq<Elem>, sp: nat, sp1: nat)
    requires sp < sp1 < |stk| && stk' == stk[sp := stk[sp1]]
    ensures stk'[..sp + 1] == stk[..sp] + [stk[sp1]] && stk'[sp1 + 1..] == stk[sp1 + 1..]
  {
  }

  lemma Prefixes(a: seq<Elem>, b: seq<Elem>, p: nat, q: nat, r: nat)
    requires |a| == |b| && p <= q <= r <= |a| && a[p..] == b[p..]
    ensures a[q..r] == b[q..r] && a[r..] == b[r..]
  {
    forall k | p <= k < |a| ensures a[k] == b[k] {
      assert a[k] == a[p..][k - p] && b[k] == b[p..][k - p];
    }
  }

  lemma LeaveStep(neg: bool, arr: seq<int>, stk: Stack)
    requires FirstOf(stk, PointKind(neg)) < |stk|
    ensures stk != []
    ensures stk[0].kind == PointKind(neg) ==>
              LeaveLook(neg, arr, stk) == if neg then Fail(stk[1..]) else Run(Thread(stk[0].t.pc, stk[0].t.pos, arr), stk[1..])
    ensures stk[0].kind != PointKind(neg) ==>
              LeaveLook(neg, arr, stk) == LeaveLook(neg, arr, stk[1..]) && FirstOf(stk[1..], PointKind(neg)) < |stk[1..]|
  {
    if stk[0].kind != PointKind(neg) {
      var k := FirstOf(stk[1..], PointKind(neg));
      assert stk[1..][k + 1..] == stk[k + 2..];
    }
  }
}
