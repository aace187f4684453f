/**
  What it means for a thread of the machine to stand for a state of the semantics, and
  what the instructions for single characters, assertions and back references do to it.
 */
module Simulation {
  import opened Bytes
  import opened Bytecode
  import opened Subjects
  import opened Patterns
  import opened PatternSemantics
  import opened RangeTable
  import opened CodeGen
  import opened SnapshotMachine
  import opened Expansion

  /** The subject is the input, in 8-bit or 16-bit units, and folding stays among code points. */
  ghost predicate Ready(m: Prog) {
    && m.env.input == Input(m.subject)
    && |m.code| < TWO31
    && m.groups <= 255
    && (forall c :: 0 <= c < 0x11_0000 ==> m.env.fold(c) < 0x11_0000)
    && (forall i :: 0 <= i < |m.subject.units| ==> m.subject.units[i] < 0x1_0000)
  }

  /** The two slots of group `g` hold the bounds of the capture `c`. */
  ghost predicate CaptureIs(m: Prog, arr: seq<int>, g: nat, c: Capture)
    requires 2 * g + 1 < |arr|
  {
    match c
    case Unset => arr[2 * g] == NULL && arr[2 * g + 1] == NULL
    case Span(s, t) => arr[2 * g] == Offset(m.subject, s) && arr[2 * g + 1] == Offset(m.subject, t)
  }

  /** Group `g` has been opened but not closed. */
  ghost predicate HalfSet(arr: seq<int>, g: nat, c: Capture)
    requires 2 * g + 1 < |arr|
  {
    c.Unset? && (arr[2 * g] == NULL || arr[2 * g + 1] == NULL)
  }

  /** The slots of `arr` hold the captures `caps`, apart from the groups that are open. */
  ghost predicate Shows(m: Prog, arr: seq<int>, caps: seq<Capture>, open: set<nat>) {
    && 2 * m.groups <= |arr|
    && |caps| == m.groups
    && forall g :: 0 <= g < m.groups ==> ShowsGroup(m, arr, caps, open, g)
  }

  ghost predicate ShowsGroup(m: Prog, arr: seq<int>, caps: seq<Capture>, open: set<nat>, g: nat)
    requires 2 * m.groups <= |arr| && |caps| == m.groups && g < m.groups
  {
    if g in open then HalfSet(arr, g, caps[g]) else CaptureIs(m, arr, g, caps[g])
  }

  /** The slots of open groups and the first `d` registers are as they were. */
  ghost predicate Keeps(m: Prog, old_: seq<int>, arr: seq<int>, open: set<nat>, d: nat) {
    && |arr| == |old_|
    && (forall k :: 0 <= k < |arr| && k < 2 * m.groups && k / 2 in open ==> arr[k] == old_[k])
    && (forall k :: 0 <= k < |arr| && 2 * m.groups <= k < 2 * m.groups + d ==> arr[k] == old_[k])
  }

  ghost predicate Image(m: Prog, t: Thread, pc: int, from: seq<int>, open: set<nat>, d: nat, y: State) {
    && t.pc == pc
    && t.pos == Offset(m.subject, y.e)
    && Shows(m, t.arr, y.caps, open)
    && Keeps(m, from, t.arr, open, d)
  }

  ghost predicate Images(m: Prog, ts: seq<Thread>, pc: int, from: seq<int>, open: set<nat>, d: nat, ys: seq<State>) {
    && |ts| == |ys|
    && forall j :: 0 <= j < |ts| ==> Image(m, ts[j], pc, from, open, d, ys[j])
  }

  /** The code of `n` stands at `pc`, with enough registers. */
  ghost predicate Placed(m: Prog, n: Node, lo: nat, back: bool, d: nat, pc: int, regs: nat) {
    && Ready(m)
    && Valid(m.env.fold, n, m.groups, |m.env.input|)
    && Paired(n)
    && lo + Groups(n) <= m.groups
    && d + Registers(n, back) <= regs && d + Registers(n, back) <= 255
    && At(m.code, pc, Code(m.env.fold, n, lo, back, d, true))
  }

  /** The machine is about to run code for groups lo..hi: they are unset and not open. */
  ghost predicate Entered(m: Prog, x: State, arr: seq<int>, lo: nat, hi: nat, open: set<nat>, regs: nat) {
    && Sound(m.env, x)
    && |arr| == 2 * m.groups + regs
    && Shows(m, arr, x.caps, open)
    && lo <= hi <= m.groups
    && forall g :: lo <= g < hi ==> g !in open && x.caps[g].Unset?
  }

  lemma KeepsSelf(m: Prog, arr: seq<int>, open: set<nat>, d: nat)
    ensures Keeps(m, arr, arr, open, d)
  {
  }

  lemma KeepsTrans(m: Prog, a: seq<int>, b: seq<int>, c: seq<int>, open: set<nat>, d: nat, open': set<nat>, d': nat)
    requires Keeps(m, a, b, open, d) && Keeps(m, b, c, open', d') && open <= open' && d <= d'
    ensures Keeps(m, a, c, open, d)
  {
  }

  // ----- characters -----

  lemma CharBelow(s: Subject, p: nat, end: nat)
    requires p < end <= |s.units| && forall i :: 0 <= i < |s.units| ==> s.units[i] < 0x1_0000
    ensures CharAt(s, p, end) < 0x11_0000
  {
  }

  /** The instruction for an atom tests what the semantics tests. */
  lemma TestIsAccepts(m: Prog, n: Node, pc: nat, ch: nat)
    requires Ready(m) && n.OneChar() && ch < 0x11_0000
    requires Valid(m.env.fold, n, m.groups, |m.env.input|) && Paired(n)
    requires At(m.code, pc, OneCharCode(m.env.fold, n))
    ensures var i := Fetch(m.code, pc);
            i.Some? && (i.value.Char? || i.value.Dot? || i.value.AnyChar? || i.value.Space? || i.value.Range?)
    ensures var i := Fetch(m.code, pc).value;
            && (i.Range? ==> i.n >= 1 && TableIn(m.code, pc + Size(i), i.big, i.n))
            && CharTest(m, i, pc + Size(i), ch) == Accepts(m.env, n, ch)
            && Size(i) + (if i.Range? then (if i.big then 8 else 4) * i.n else 0) == |OneCharCode(m.env.fold, n)|
  {
    hide At;
    match n
    case Char(c, icase) => FetchEncode(m.code, pc, CharInstr(Folded(m.env.fold, c, icase), icase));
    case Dot => FetchEncode(m.code, pc, Instr.Dot);
    case AnyChar => FetchEncode(m.code, pc, Instr.AnyChar);
    case Space(neg) => FetchEncode(m.code, pc, Instr.Space(neg));
    case Set(points, icase) => SetIsRange(m, points, icase, pc, ch);
  }

  lemma SetIsRange(m: Prog, points: seq<nat>, icase: bool, pc: nat, ch: nat)
    requires Ready(m) && ch < 0x11_0000 && Canonical(points) && |points| / 2 < 65535
    requires At(m.code, pc, RangeCode(points, icase))
    ensures Fetch(m.code, pc).Some?
    ensures var i := Fetch(m.code, pc).value;
            && (i.Char? || i.Range?)
            && (i.Range? ==> i.n >= 1 && TableIn(m.code, pc + Size(i), i.big, i.n))
            && CharTest(m, i, pc + Size(i), ch) == InPoints(points, if icase then m.env.fold(ch) else ch)
            && Size(i) + (if i.Range? then (if i.big then 8 else 4) * i.n else 0) == |RangeCode(points, icase)|
  {
    hide At, InTable, Table, NeedsWide, LE32, LE16;
    if points == [] {
      FetchEncode(m.code, pc, Instr.Char(UINT32_MAX, true, false));
    } else {
      var i := Range(NeedsWide(points), icase, |points| / 2);
      AtSplit(m.code, pc, Encode(i), Table(points, NeedsWide(points)));
      FetchEncode(m.code, pc, i);
      InTableCorrect(m.code, pc + Size(i), points, if icase then m.env.fold(ch) else ch);
    }
  }

  /** One character is read, forward. */
  lemma ActChar(m: Prog, n: Node, pc: nat, e: nat, arr: seq<int>)
    requires Ready(m) && n.OneChar() && e <= |m.env.input| && 2 * m.groups <= |arr|
    requires Valid(m.env.fold, n, m.groups, |m.env.input|) && Paired(n)
    requires At(m.code, pc, OneCharCode(m.env.fold, n))
    ensures Act(m, Thread(pc, Offset(m.subject, e), arr)) ==
            if e < |m.env.input| && Accepts(m.env, n, m.env.input[e])
            then Go(Thread(pc + |OneCharCode(m.env.fold, n)|, Offset(m.subject, e + 1), arr))
            else Die
  {
    hide At, Accepts, OneCharCode, Paired, Valid;
    if e < |m.env.input| {
      ActCharInside(m, n, pc, e, arr);
    } else {
      ActCharAtEnd(m, n, pc, e, arr);
    }
  }

  lemma ActCharInside(m: Prog, n: Node, pc: nat, e: nat, arr: seq<int>)
    requires Ready(m) && n.OneChar() && e < |m.env.input| && 2 * m.groups <= |arr|
    requires Valid(m.env.fold, n, m.groups, |m.env.input|) && Paired(n)
    requires At(m.code, pc, OneCharCode(m.env.fold, n))
    ensures Act(m, Thread(pc, Offset(m.subject, e), arr)) ==
            if Accepts(m.env, n, m.env.input[e])
            then Go(Thread(pc + |OneCharCode(m.env.fold, n)|, Offset(m.subject, e + 1), arr))
            else Die
  {
    hide At, CharTest, Fetch, Accepts, OneCharCode, Paired, Valid;
    EndTest(m.subject, e);
    StepForward(m.subject, e);
    CharBelow(m.subject, Offset(m.subject, e), |m.subject.units|);
    TestIsAccepts(m, n, pc, m.env.input[e]);
  }

  lemma ActCharAtEnd(m: Prog, n: Node, pc: nat, e: nat, arr: seq<int>)
    requires Ready(m) && n.OneChar() && e == |m.env.input| && 2 * m.groups <= |arr|
    requires Valid(m.env.fold, n, m.groups, |m.env.input|) && Paired(n)
    requires At(m.code, pc, OneCharCode(m.env.fold, n))
    ensures Act(m, Thread(pc, Offset(m.subject, e), arr)) == Die
  {
    hide At, CharTest, Fetch, Accepts, OneCharCode, Paired, Valid;
    EndTest(m.subject, e);
    TestIsAccepts(m, n, pc, 0);
  }

  lemma ActPrev(m: Prog, pc: nat, e: nat, arr: seq<int>)
    requires Ready(m) && e <= |m.env.input| && 2 * m.groups <= |arr|
    requires At(m.code, pc, Encode(Instr.Prev))
    ensures Act(m, Thread(pc, Offset(m.subject, e), arr)) ==
            if e > 0 then Go(Thread(pc + 1, Offset(m.subject, e - 1), arr)) else Die
  {
    FetchEncode(m.code, pc, Instr.Prev);
    EndTest(m.subject, e);
    if e > 0 { StepBackward(m.subject, e); }
  }

  /** An atom of one character, in either direction. */
  lemma ExpandsChar(m: Prog, n: Node, back: bool, pc: nat, x: State, arr: seq<int>)
    requires Ready(m) && n.OneChar() && Sound(m.env, x) && 2 * m.groups <= |arr|
    requires Valid(m.env.fold, n, m.groups, |m.env.input|) && Paired(n)
    requires At(m.code, pc, Code(m.env.fold, n, 0, back, 0, true))
    ensures var ys := OneCharStep(m.env, n, back, x);
            Expands(m, Thread(pc, Offset(m.subject, x.e), arr),
                    if ys == [] then [] else [Thread(pc + |Code(m.env.fold, n, 0, back, 0, true)|, Offset(m.subject, ys[0].e), arr)])
  {
    hide At, Act, Accepts, Expands, OneCharCode;
    if back {
      ExpandsCharBack(m, n, pc, x, arr);
    } else {
      var t := Thread(pc, Offset(m.subject, x.e), arr);
      ActChar(m, n, pc, x.e, arr);
      if OneCharStep(m.env, n, back, x) == [] { ExpandsDie(m, t); }
      else { ExpandsGo(m, t, Thread(pc + |OneCharCode(m.env.fold, n)|, Offset(m.subject, x.e + 1), arr)); }
    }
  }

  /** Going backward: a step back, the character, and another step back. */
  lemma ExpandsCharBack(m: Prog, n: Node, pc: nat, x: State, arr: seq<int>)
    requires Ready(m) && n.OneChar() && Sound(m.env, x) && 2 * m.groups <= |arr|
    requires Valid(m.env.fold, n, m.groups, |m.env.input|) && Paired(n)
    requires At(m.code, pc, Code(m.env.fold, n, 0, true, 0, true))
    ensures var ys := OneCharStep(m.env, n, true, x);
            Expands(m, Thread(pc, Offset(m.subject, x.e), arr),
                    if ys == [] then [] else [Thread(pc + |Code(m.env.fold, n, 0, true, 0, true)|, Offset(m.subject, ys[0].e), arr)])
  {
    hide At, Act, Accepts, Expands, OneCharCode, Offset, Ready, Valid;
    var c := OneCharCode(m.env.fold, n);
    var t := Thread(pc, Offset(m.subject, x.e), arr);
    var prev := Encode(Instr.Prev);
    AtSplit(m.code, pc, prev + c, prev);
    AtSplit(m.code, pc, prev, c);
    ActPrev(m, pc, x.e, arr);
    if x.e == 0 {
      ExpandsDie(m, t);
    } else {
      var t1 := Thread(pc + 1, Offset(m.subject, x.e - 1), arr);
      ExpandsGo(m, t, t1);
      ActChar(m, n, pc + 1, x.e - 1, arr);
      if OneCharStep(m.env, n, true, x) == [] {
        ExpandsDie(m, t1);
        Then(m, t, t1, []);
      } else {
        var t2 := Thread(pc + 1 + |c|, Offset(m.subject, x.e), arr);
        ExpandsGo(m, t1, t2);
        ActPrev(m, pc + 1 + |c|, x.e, arr);
        var t3 := Thread(pc + 2 + |c|, Offset(m.subject, x.e - 1), arr);
        ExpandsGo(m, t2, t3);
        Then(m, t1, t2, [t3]);
        Then(m, t, t1, [t3]);
      }
    }
  }

  // ----- assertions -----

  function AssertionInstr(n: Node): Instr
    requires n.Assertion()
  {
    match n
    case Line(atEnd, multi) => Instr.Line(atEnd, multi)
    case Word(neg, icase) => Instr.Word(neg, icase)
  }

  lemma LineTestIsHolds(m: Prog, n: Node, e: nat)
    requires Ready(m) && n.Line? && e <= |m.env.input|
    ensures LineTest(m, AssertionInstr(n), Offset(m.subject, e)) == Holds(m.env, n, e)
  {
    EndTest(m.subject, e);
    if e < |m.env.input| { StepForward(m.subject, e); }
    if e > 0 { StepBackward(m.subject, e); }
  }

  lemma WordTestIsHolds(m: Prog, n: Node, e: nat)
    requires Ready(m) && n.Word? && e <= |m.env.input|
    ensures WordTest(m, AssertionInstr(n), Offset(m.subject, e)) == Holds(m.env, n, e)
  {
    EndTest(m.subject, e);
    if e < |m.env.input| { StepForward(m.subject, e); }
    if e > 0 { StepBackward(m.subject, e); }
  }

  lemma ExpandsAssertion(m: Prog, n: Node, pc: nat, e: nat, arr: seq<int>)
    requires Ready(m) && n.Assertion() && e <= |m.env.input| && 2 * m.groups <= |arr|
    requires At(m.code, pc, Encode(AssertionInstr(n)))
    ensures Expands(m, Thread(pc, Offset(m.subject, e), arr),
                    if Holds(m.env, n, e) then [Thread(pc + 1, Offset(m.subject, e), arr)] else [])
  {
    hide Expands, Holds, LineTest, WordTest;
    var t := Thread(pc, Offset(m.subject, e), arr);
    FetchEncode(m.code, pc, AssertionInstr(n));
    if n.Line? { LineTestIsHolds(m, n, e); } else { WordTestIsHolds(m, n, e); }
    if Holds(m.env, n, e) { ExpandsGo(m, t, t.(pc := pc + 1)); } else { ExpandsDie(m, t); }
  }

  // ----- back references -----

  lemma RepeatedFront(env: Env, s: nat, t: nat, p: nat, icase: bool)
    requires s < t <= |env.input| && p + (t - s) <= |env.input|
    ensures Repeated(env, s, t, p, icase) <==>
            SameChar(env, env.input[s], env.input[p], icase) && Repeated(env, s + 1, t, p + 1, icase)
  {
    if SameChar(env, env.input[s], env.input[p], icase) && Repeated(env, s + 1, t, p + 1, icase) {
      forall i | 0 <= i < t - s ensures SameAt(env, s, p, i, icase) {
        assert i > 0 ==> SameAt(env, s + 1, p + 1, i - 1, icase);
      }
    }
    if Repeated(env, s, t, p, icase) {
      assert SameAt(env, s, p, 0, icase);
      var s', p' := s + 1, p + 1;
      forall i | 0 <= i < t - s' ensures SameAt(env, s', p', i, icase) {
        assert SameAt(env, s, p, i + 1, icase);
      }
    }
  }

  lemma RepeatedBack(env: Env, s: nat, t: nat, p: nat, icase: bool)
    requires s < t <= |env.input| && p + (t - s) <= |env.input|
    ensures Repeated(env, s, t, p, icase) <==>
            SameChar(env, env.input[t - 1], env.input[p + (t - s) - 1], icase) && Repeated(env, s, t - 1, p, icase)
  {
    if SameChar(env, env.input[t - 1], env.input[p + (t - s) - 1], icase) && Repeated(env, s, t - 1, p, icase) {
      forall i | 0 <= i < t - s ensures SameAt(env, s, p, i, icase) {
      }
    }
    if Repeated(env, s, t, p, icase) {
      assert SameAt(env, s, p, t - s - 1, icase);
      forall i | 0 <= i < t - 1 - s ensures SameAt(env, s, p, i, icase) {
      }
    }
  }

  /** The comparison loop of a forward back reference finds a repetition of the capture. */
  lemma {:induction false} MatchForwardIs(m: Prog, icase: bool, a: nat, b: nat, q: nat)
    requires Ready(m) && a <= b <= |m.env.input| && q <= |m.env.input|
    ensures MatchForward(m, icase, Offset(m.subject, a), Offset(m.subject, b), Offset(m.subject, q)) ==
            if q + (b - a) <= |m.env.input| && Repeated(m.env, a, b, q, icase)
            then Some(Offset(m.subject, q + (b - a))) else None
    decreases b - a
  {
    hide SameChar, Repeated;
    OffsetOrder(m.subject, a, b);
    EndTest(m.subject, q);
    if a == b {
      assert Repeated(m.env, a, b, q, icase) by { RepeatedEmpty(m.env, a, q, icase); }
    } else if q < |m.env.input| {
      BoundedForward(m.subject, a, b);
      StepForward(m.subject, q);
      if q + (b - a) <= |m.env.input| { RepeatedFront(m.env, a, b, q, icase); }
      MatchForwardIs(m, icase, a + 1, b, q + 1);
    }
  }

  lemma RepeatedEmpty(env: Env, a: nat, q: nat, icase: bool)
    requires a <= |env.input| && q <= |env.input|
    ensures Repeated(env, a, a, q, icase)
  {
  }

  lemma {:induction false} MatchBackwardIs(m: Prog, icase: bool, a: nat, b: nat, q: nat)
    requires Ready(m) && a <= b <= |m.env.input| && q <= |m.env.input|
    ensures MatchBackward(m, icase, Offset(m.subject, a), Offset(m.subject, b), Offset(m.subject, q)) ==
            if b - a <= q && Repeated(m.env, a, b, q - (b - a), icase)
            then Some(Offset(m.subject, q - (b - a))) else None
    decreases b - a
  {
    hide SameChar, Repeated;
    OffsetOrder(m.subject, a, b);
    EndTest(m.subject, q);
    if a == b {
      assert Repeated(m.env, a, b, q, icase) by { RepeatedEmpty(m.env, a, q, icase); }
    } else if q > 0 {
      BoundedBackward(m.subject, a, b);
      StepBackward(m.subject, q);
      if b - a <= q { RepeatedBack(m.env, a, b, q - (b - a), icase); }
      MatchBackwardIs(m, icase, a, b - 1, q - 1);
    }
  }

  /** The capture the machine refers to is the one the semantics refers to. */
  lemma {:induction false} FirstSetIs(m: Prog, arr: seq<int>, caps: seq<Capture>, open: set<nat>, groups: seq<nat>)
    requires Shows(m, arr, caps, open) && forall k :: 0 <= k < |groups| ==> groups[k] < m.groups
    ensures var k := FirstSet(arr, m.groups, groups);
            match Referenced(caps, groups)
            case Unset => k == |groups|
            case Span(s, t) => k < |groups| && arr[2 * groups[k]] == Offset(m.subject, s)
                               && arr[2 * groups[k] + 1] == Offset(m.subject, t)
  {
    if groups != [] {
      assert ShowsGroup(m, arr, caps, open, groups[0]);
      FirstSetIs(m, arr, caps, open, groups[1..]);
    }
  }

  lemma ReferencedSound(env: Env, x: State, groups: seq<nat>)
    requires Sound(env, x)
    ensures var c := Referenced(x.caps, groups); c.Span? ==> c.s <= c.t <= |env.input|
  {
  }

  lemma ActBackRef(m: Prog, i: Instr, next: int, x: State, arr: seq<int>, open: set<nat>)
    requires Ready(m) && i.BackRef? && Sound(m.env, x) && Shows(m, arr, x.caps, open)
    requires forall k :: 0 <= k < |i.groups| ==> i.groups[k] < m.groups
    ensures var ys := BackReference(m.env, i.groups, i.icase, i.backward, x);
            && (ys == [] || ys == [x.(e := ys[0].e)])
            && BackRefAction(m, i, next, Thread(next, Offset(m.subject, x.e), arr)) ==
               if ys == [] then Die else Go(Thread(next, Offset(m.subject, ys[0].e), arr))
  {
    hide Repeated, Shows;
    FirstSetIs(m, arr, x.caps, open, i.groups);
    ReferencedSound(m.env, x, i.groups);
    var c := Referenced(x.caps, i.groups);
    if c.Span? {
      if i.backward { MatchBackwardIs(m, i.icase, c.s, c.t, x.e); }
      else { MatchForwardIs(m, i.icase, c.s, c.t, x.e); }
    }
  }

  lemma ExpandsBackRef(m: Prog, groups: seq<nat>, icase: bool, back: bool, pc: nat, x: State, arr: seq<int>, open: set<nat>)
    requires Ready(m) && Sound(m.env, x) && Shows(m, arr, x.caps, open)
    requires |groups| < 256 && forall k :: 0 <= k < |groups| ==> groups[k] < m.groups
    requires At(m.code, pc, Encode(Instr.BackRef(back, icase, groups)))
    ensures var ys := BackReference(m.env, groups, icase, back, x);
            && (ys == [] || ys == [x.(e := ys[0].e)])
            && Expands(m, Thread(pc, Offset(m.subject, x.e), arr),
                       if ys == [] then [] else [Thread(pc + 2 + |groups|, Offset(m.subject, ys[0].e), arr)])
  {
    hide Expands, BackReference, Shows, At, Act, BackRefAction, Fetch;
    var i := Instr.BackRef(back, icase, groups);
    var t := Thread(pc, Offset(m.subject, x.e), arr);
    assert 2 * m.groups <= |arr| by { ShowsSize(m, arr, x.caps, open); }
    FetchEncode(m.code, pc, i);
    var next := pc + 2 + |groups|;
    ActBackRef(m, i, next, x, arr, open);
    assert Act(m, t) == BackRefAction(m, i, next, t.(pc := next)) by { ActIsBackRef(m, i, t); }
    var ys := BackReference(m.env, groups, icase, back, x);
    if ys == [] { ExpandsDie(m, t); } else { ExpandsGo(m, t, Thread(next, Offset(m.subject, ys[0].e), arr)); }
  }

  lemma ShowsSize(m: Prog, arr: seq<int>, caps: seq<Capture>, open: set<nat>)
    requires Shows(m, arr, caps, open)
    ensures 2 * m.groups <= |arr| && |caps| == m.groups
  {
  }

  lemma ActIsBackRef(m: Prog, i: Instr, t: Thread)
    requires i.BackRef? && t.pos <= |m.subject.units| && 2 * m.groups <= |t.arr|
    requires Fetch(m.code, t.pc) == Some(i)
    ensures var next := t.pc + 2 + |i.groups|;
            Act(m, t) == BackRefAction(m, i, next, t.(pc := next))
  {
    hide MatchForward, MatchBackward, Fetch;
  }

  // ----- captures and jumps -----

  lemma ActSave(m: Prog, pc: nat, atEnd: bool, g: nat, pos: nat, arr: seq<int>)
    requires Ready(m) && g < m.groups && pos <= |m.subject.units| && 2 * m.groups <= |arr|
    requires At(m.code, pc, Encode(Save(atEnd, g)))
    ensures Act(m, Thread(pc, pos, arr)) == Go(Thread(pc + 2, pos, arr[2 * g + B(atEnd) := pos]))
  {
    hide At;
    FetchEncode(m.code, pc, Save(atEnd, g));
  }

  lemma ActReset(m: Prog, pc: nat, lo: nat, hi: nat, pos: nat, arr: seq<int>)
    requires Ready(m) && lo < hi <= m.groups && pos <= |m.subject.units| && 2 * m.groups <= |arr|
    requires At(m.code, pc, Encode(Reset(lo, hi - 1)))
    ensures Act(m, Thread(pc, pos, arr)) == Go(Thread(pc + 3, pos, ResetSlots(arr, lo, hi - 1)))
  {
    hide At;
    FetchEncode(m.code, pc, Reset(lo, hi - 1));
  }

  lemma ActGoto(m: Prog, pc: nat, off: int, pos: nat, arr: seq<int>)
    requires Ready(m) && pos <= |m.subject.units| && 2 * m.groups <= |arr|
    requires At(m.code, pc, Encode(Goto(off))) && -TWO31 <= off < TWO31
    ensures Act(m, Thread(pc, pos, arr)) == Go(Thread(pc + 5 + off, pos, arr))
  {
    hide At;
    FetchEncode(m.code, pc, Goto(off));
  }

  lemma ActSplit(m: Prog, pc: nat, nextFirst: bool, off: int, pos: nat, arr: seq<int>)
    requires Ready(m) && pos <= |m.subject.units| && 2 * m.groups <= |arr|
    requires At(m.code, pc, Encode(Split(nextFirst, off))) && -TWO31 <= off < TWO31
    ensures Act(m, Thread(pc, pos, arr)) ==
            if nextFirst then Fork(Thread(pc + 5, pos, arr), Thread(pc + 5 + off, pos, arr))
            else Fork(Thread(pc + 5 + off, pos, arr), Thread(pc + 5, pos, arr))
  {
    hide At;
    FetchEncode(m.code, pc, Split(nextFirst, off));
  }

  lemma ActLook(m: Prog, pc: nat, neg: bool, off: int, pos: nat, arr: seq<int>)
    requires Ready(m) && pos <= |m.subject.units| && 2 * m.groups <= |arr|
    requires At(m.code, pc, Encode(Instr.Look(neg, off))) && -TWO31 <= off < TWO31
    ensures Act(m, Thread(pc, pos, arr)) == Enter(neg, Thread(pc + 5, pos, arr), Thread(pc + 5 + off, pos, arr))
  {
    hide At;
    FetchEncode(m.code, pc, Instr.Look(neg, off));
  }

  lemma ActLeave(m: Prog, pc: nat, neg: bool, pos: nat, arr: seq<int>)
    requires Ready(m) && pos <= |m.subject.units| && 2 * m.groups <= |arr|
    requires At(m.code, pc, Encode(LookMatch(neg)))
    ensures Act(m, Thread(pc, pos, arr)) == Leave(neg)
  {
    hide At;
    FetchEncode(m.code, pc, LookMatch(neg));
  }

  lemma ActSetPos(m: Prog, pc: nat, reg: nat, pos: nat, arr: seq<int>)
    requires Ready(m) && pos <= |m.subject.units| && 2 * m.groups + reg < |arr| && reg < 256
    requires At(m.code, pc, Encode(SetPos(reg)))
    ensures Act(m, Thread(pc, pos, arr)) == Go(Thread(pc + 2, pos, arr[2 * m.groups + reg := pos]))
  {
    hide At;
    FetchEncode(m.code, pc, SetPos(reg));
  }

  lemma ActCheckAdvance(m: Prog, pc: nat, reg: nat, pos: nat, arr: seq<int>)
    requires Ready(m) && pos <= |m.subject.units| && 2 * m.groups + reg < |arr| && reg < 256
    requires At(m.code, pc, Encode(CheckAdvance(reg)))
    ensures Act(m, Thread(pc, pos, arr)) ==
            if arr[2 * m.groups + reg] == pos then Die else Go(Thread(pc + 2, pos, arr))
  {
    hide At;
    FetchEncode(m.code, pc, CheckAdvance(reg));
  }

  lemma ActSetI32(m: Prog, pc: nat, reg: nat, val: nat, pos: nat, arr: seq<int>)
    requires Ready(m) && pos <= |m.subject.units| && 2 * m.groups + reg < |arr| && reg < 256 && val < TWO32
    requires At(m.code, pc, Encode(SetI32(reg, val)))
    ensures Act(m, Thread(pc, pos, arr)) == Go(Thread(pc + 6, pos, arr[2 * m.groups + reg := val]))
  {
    hide At;
    FetchEncode(m.code, pc, SetI32(reg, val));
  }

  /** Counting down: jump back while passes are still required, then give up, split or go on. */
  lemma ActLoop(m: Prog, pc: nat, i: Instr, pos: nat, arr: seq<int>)
    requires Ready(m) && pos <= |m.subject.units| && Fits(i) && (i.Loop? || i.LoopSplit?)
    requires At(m.code, pc, Encode(i))
    requires 2 * m.groups + i.reg + (if i.LoopSplit? && i.check then 1 else 0) < |arr|
    requires 1 <= arr[2 * m.groups + i.reg] <= TWO31
    ensures var idx := 2 * m.groups + i.reg;
            var count := arr[idx] - 1;
            var limit := if i.Loop? then 0 else i.limit;
            var out := Thread(pc + Size(i), pos, arr[idx := count]);
            var again := out.(pc := pc + Size(i) + i.off);
            Act(m, Thread(pc, pos, arr)) ==
            if count > limit then Go(again)
            else if i.LoopSplit? && i.check && arr[idx + 1] == pos && count != limit then Die
            else if count == 0 then Go(out)
            else if i.LoopSplit? && i.nextFirst then Fork(out, again)
            else Fork(again, out)
  {
    hide At, Fetch, Encode, Ready;
    FetchEncode(m.code, pc, i);
  }

  // ----- where the parts of a pattern are placed -----

  /** What `Placed` says apart from the code. */
  ghost predicate Legal(m: Prog, n: Node, lo: nat, back: bool, d: nat, regs: nat) {
    && Ready(m)
    && Valid(m.env.fold, n, m.groups, |m.env.input|)
    && Paired(n)
    && lo + Groups(n) <= m.groups
    && d + Registers(n, back) <= regs && d + Registers(n, back) <= 255
  }

  lemma LegalCat(m: Prog, n: Node, lo: nat, back: bool, d: nat, regs: nat)
    requires n.Cat? && Legal(m, n, lo, back, d, regs)
    ensures Legal(m, FirstTerm(n, back), FirstLo(n, lo, back), back, d, regs)
    ensures Legal(m, SecondTerm(n, back), SecondLo(n, lo, back), back, d, regs)
  {
    hide Ready;
    TermGroups(n, lo, back);
  }

  /** The two terms of a sequence, written one after the other. */
  lemma PlacedCat(m: Prog, n: Node, lo: nat, back: bool, d: nat, pc: nat, regs: nat)
    requires n.Cat? && Placed(m, n, lo, back, d, pc, regs)
    ensures lo + Groups(n) <= m.groups && Paired(n)
    ensures Paired(FirstTerm(n, back)) && Paired(SecondTerm(n, back))
    ensures var c1 := |Code(m.env.fold, FirstTerm(n, back), FirstLo(n, lo, back), back, d, true)|;
            && Placed(m, FirstTerm(n, back), FirstLo(n, lo, back), back, d, pc, regs)
            && Placed(m, SecondTerm(n, back), SecondLo(n, lo, back), back, d, pc + c1, regs)
            && |Code(m.env.fold, n, lo, back, d, true)| ==
               c1 + |Code(m.env.fold, SecondTerm(n, back), SecondLo(n, lo, back), back, d, true)|
  {
    hide At, Code, Ready, Valid, Registers, Paired, FirstTerm, SecondTerm, FirstLo, SecondLo, Groups;
    assert Legal(m, n, lo, back, d, regs);
    LegalCat(m, n, lo, back, d, regs);
    CodeCatIs(m.env.fold, n, lo, back, d, true);
    AtSplit(m.code, pc, Code(m.env.fold, FirstTerm(n, back), FirstLo(n, lo, back), back, d, true),
            Code(m.env.fold, SecondTerm(n, back), SecondLo(n, lo, back), back, d, true));
  }

  /** A group: its start is saved, its body runs, its end is saved (the other way round backward). */
  lemma PlacedGroup(m: Prog, b: Node, lo: nat, back: bool, d: nat, pc: nat, regs: nat)
    requires Placed(m, Group(b), lo, back, d, pc, regs)
    ensures Paired(b) && lo < m.groups
    ensures var c := |Code(m.env.fold, b, lo + 1, back, d, true)|;
            && At(m.code, pc, Encode(Save(back, lo)))
            && Placed(m, b, lo + 1, back, d, pc + 2, regs)
            && At(m.code, pc + 2 + c, Encode(Save(!back, lo)))
            && |Code(m.env.fold, Group(b), lo, back, d, true)| == c + 4
  {
    hide At, Code, Ready;
    var c := Code(m.env.fold, b, lo + 1, back, d, true);
    CodeGroupIs(m.env.fold, b, lo, back, d, true);
    assert Size(Save(back, lo)) == 2 == Size(Save(!back, lo));
    AtSplit(m.code, pc, Encode(Save(back, lo)) + c, Encode(Save(!back, lo)));
    AtSplit(m.code, pc, Encode(Save(back, lo)), c);
  }
}
