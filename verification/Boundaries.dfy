/**
  Where the machine can stand: whatever the program, no position, saved choice point or
  capture ever falls between the two halves of a surrogate pair.
 */
module Boundaries {
  import opened Bytecode
  import opened Subjects
  import opened SnapshotMachine

  ghost predicate SlotAligned(m: Prog, v: int) {
    v == NULL || (0 <= v && OnBoundary(m.subject, v))
  }

  ghost predicate ThreadAligned(m: Prog, t: Thread) {
    && OnBoundary(m.subject, t.pos)
    && forall k :: 0 <= k < 2 * m.groups && k < |t.arr| ==> SlotAligned(m, t.arr[k])
  }

  ghost predicate ActionAligned(m: Prog, a: Action) {
    match a
    case Go(t) => ThreadAligned(m, t)
    case Fork(first, other) => ThreadAligned(m, first) && ThreadAligned(m, other)
    case Enter(_, inner, after) => ThreadAligned(m, inner) && ThreadAligned(m, after)
    case _ => true
  }

  ghost predicate ConfigAligned(m: Prog, c: Config) {
    match c
    case Run(t, stk) => ThreadAligned(m, t) && StackAligned(m, stk)
    case Fail(stk) => StackAligned(m, stk)
    case Done(r) => r.Some? ==> ThreadAligned(m, r.value)
    case Stuck => true
  }

  ghost predicate StackAligned(m: Prog, stk: Stack) {
    forall k :: 0 <= k < |stk| ==> ThreadAligned(m, stk[k].t)
  }

  lemma ForwardAligned(s: Subject, p: nat)
    requires OnBoundary(s, p) && p < |s.units|
    ensures OnBoundary(s, NextPos(s, p, |s.units|))
  {
    var e :| 0 <= e <= |Input(s)| && p == Offset(s, e);
    EndTest(s, e);
    StepForward(s, e);
  }

  lemma BackwardAligned(s: Subject, p: nat)
    requires OnBoundary(s, p) && 0 < p <= |s.units|
    ensures OnBoundary(s, PrevPos(s, p, 0))
  {
    var e :| 0 <= e <= |Input(s)| && p == Offset(s, e);
    EndTest(s, e);
    StepBackward(s, e);
  }

  lemma {:induction false} MatchForwardAligned(m: Prog, icase: bool, p: nat, end: nat, q: nat)
    requires end <= |m.subject.units| && q <= |m.subject.units| && OnBoundary(m.subject, q)
    ensures MatchForward(m, icase, p, end, q).Some? ==> OnBoundary(m.subject, MatchForward(m, icase, p, end, q).value)
    decreases end - p
  {
    hide OnBoundary;
    if p < end && q < |m.subject.units| {
      ForwardAligned(m.subject, q);
      MatchForwardAligned(m, icase, NextPos(m.subject, p, end), end, NextPos(m.subject, q, |m.subject.units|));
    }
  }

  lemma {:induction false} MatchBackwardAligned(m: Prog, icase: bool, start: nat, p: nat, q: nat)
    requires p <= |m.subject.units| && q <= |m.subject.units| && OnBoundary(m.subject, q)
    ensures MatchBackward(m, icase, start, p, q).Some? ==> OnBoundary(m.subject, MatchBackward(m, icase, start, p, q).value)
    decreases p
  {
    hide OnBoundary;
    if p > start && q > 0 {
      BackwardAligned(m.subject, q);
      MatchBackwardAligned(m, icase, start, PrevPos(m.subject, p, start), PrevPos(m.subject, q, 0));
    }
  }

  lemma CharAligned(m: Prog, i: Instr, next: nat, t: Thread)
    requires i.Char? || i.Dot? || i.AnyChar? || i.Space? || i.Range?
    requires t.pos <= |m.subject.units| && ThreadAligned(m, t)
    ensures ActionAligned(m, CharAction(m, i, next, t))
  {
    hide OnBoundary, CharTest, CharAt, NextPos;
    if t.pos < |m.subject.units| { ForwardAligned(m.subject, t.pos); }
  }

  lemma BackRefAligned(m: Prog, i: Instr, next: nat, t: Thread)
    requires i.BackRef? && t.pos <= |m.subject.units| && 2 * m.groups <= |t.arr| && ThreadAligned(m, t)
    ensures ActionAligned(m, BackRefAction(m, i, next, t))
  {
    hide OnBoundary, MatchForward, MatchBackward;
    var k := FirstSet(t.arr, m.groups, i.groups);
    if k < |i.groups| && i.groups[k] < m.groups {
      var start, end := t.arr[2 * i.groups[k]], t.arr[2 * i.groups[k] + 1];
      if 0 <= start <= |m.subject.units| && 0 <= end <= |m.subject.units| {
        MatchForwardAligned(m, i.icase, start, end, t.pos);
        MatchBackwardAligned(m, i.icase, start, end, t.pos);
      }
    }
  }

  /** Registers stand above the captures. */
  lemma RegistersAligned(m: Prog, i: Instr, next: nat, t: Thread)
    requires 2 * m.groups <= |t.arr| && ThreadAligned(m, t)
    ensures i.Loop? || i.LoopSplit? ==> ActionAligned(m, LoopAction(m, i, next, t))
    ensures i.SetI32? || i.SetPos? || i.CheckAdvance? ==> ActionAligned(m, RegisterAction(m, i, next, t))
  {
    hide OnBoundary;
  }

  lemma ActAligned(m: Prog, t: Thread)
    requires ThreadAligned(m, t)
    ensures ActionAligned(m, Act(m, t))
  {
    hide OnBoundary, Fetch, CharAction, BackRefAction, LineTest, WordTest, PrevPos, LoopAction, RegisterAction;
    var f := Fetch(m.code, t.pc);
    if t.pos <= |m.subject.units| && 2 * m.groups <= |t.arr| && f.Some? {
      FetchedAt(m.code, t.pc);
      var i := f.value;
      if i.Prev? && t.pos > 0 {
        BackwardAligned(m.subject, t.pos);
      } else if i.BackRef? {
        BackRefAligned(m, i, t.pc + Size(i), t);
      } else if i.Char? || i.Dot? || i.AnyChar? || i.Space? || i.Range? {
        CharAligned(m, i, t.pc + Size(i), t);
      } else if i.Loop? || i.LoopSplit? || i.SetI32? || i.SetPos? || i.CheckAdvance? {
        RegistersAligned(m, i, t.pc + Size(i), t);
      }
    }
  }

  /** One step of any program keeps every position and capture on a character boundary. */
  lemma StepAligned(m: Prog, c: Config)
    requires ConfigAligned(m, c)
    ensures ConfigAligned(m, Step(m, c))
  {
    hide ThreadAligned, Act;
    if c.Run? { ActAligned(m, c.t); }
    if c.Run? && Act(m, c.t).Leave? { LeaveAligned(m, Act(m, c.t).negated, c.t, c.stk); }
  }

  lemma LeaveAligned(m: Prog, neg: bool, t: Thread, stk: Stack)
    requires ThreadAligned(m, t) && StackAligned(m, stk)
    ensures ConfigAligned(m, LeaveLook(neg, t.arr, stk))
  {
    hide OnBoundary, FirstOf;
    var k := FirstOf(stk, PointKind(neg));
    if k < |stk| { assert ThreadAligned(m, stk[k].t); }
  }

  /** So does a whole run, from a start on a boundary with no capture set. */
  lemma {:induction false} StepsAligned(m: Prog, c: Config, n: nat)
    requires ConfigAligned(m, c)
    ensures ConfigAligned(m, Steps(m, c, n))
    decreases n
  {
    hide ConfigAligned;
    if n > 0 {
      StepAligned(m, c);
      StepsAligned(m, Step(m, c), n - 1);
    }
  }

  /** In a run over 16-bit units read as UTF-16, nothing ever points between the two halves of a pair. */
  lemma NeverInsidePair(m: Prog, c: Config, n: nat, p: nat)
    requires ConfigAligned(m, c) && m.subject.utf16
    requires 0 < p < |m.subject.units| && IsHigh(m.subject.units[p - 1]) && IsLow(m.subject.units[p])
    ensures var c' := Steps(m, c, n);
            && (c'.Run? ==> c'.t.pos != p && forall k :: 0 <= k < 2 * m.groups && k < |c'.t.arr| ==> c'.t.arr[k] != p)
            && (c'.Run? || c'.Fail? ==> forall k :: 0 <= k < |c'.stk| ==> c'.stk[k].t.pos != p)
            && (c'.Done? && c'.result.Some? ==> forall k :: 0 <= k < 2 * m.groups && k < |c'.result.value.arr| ==> c'.result.value.arr[k] != p)
  {
    hide OnBoundary, Steps;
    StepsAligned(m, c, n);
    BoundaryIff(m.subject, p);
    var c' := Steps(m, c, n);
    if c'.Run? { AlignedSlots(m, c'.t, p); }
    if c'.Done? && c'.result.Some? { AlignedSlots(m, c'.result.value, p); }
  }

  lemma AlignedSlots(m: Prog, t: Thread, p: nat)
    requires ThreadAligned(m, t) && !OnBoundary(m.subject, p)
    ensures t.pos != p && forall k :: 0 <= k < 2 * m.groups && k < |t.arr| ==> t.arr[k] != p
  {
    hide OnBoundary;
    forall k | 0 <= k < 2 * m.groups && k < |t.arr| ensures t.arr[k] != p {
      assert SlotAligned(m, t.arr[k]);
    }
  }
}
