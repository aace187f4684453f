/**
  A simple backtracking machine for the byte code: every choice point keeps a copy of
  the whole capture and register array. It is the reference that the machine with an
  undo log refines, and the one that the compiler is proved correct for.
 */
module SnapshotMachine {
  import opened Bytes
  import opened Bytecode
  import opened Subjects
  import PatternSemantics

  type Env = PatternSemantics.Env

  const NULL: int := -1

  /** A program with its number of capture groups, and the subject it runs on. */
  datatype Prog = Prog(code: seq<byte>, groups: nat, subject: Subject, env: Env)

  /** `arr` holds a start and an end slot for each group, then the registers. */
  datatype Thread = Thread(pc: int, pos: nat, arr: seq<int>)

  datatype Action =
    | Go(t: Thread)
    | Fork(first: Thread, other: Thread)
    | Enter(negated: bool, inner: Thread, after: Thread)
    | Leave(negated: bool)
    | Die
    | Accept
    | Crash

  // ----- range tables -----

  predicate TableIn(p: seq<byte>, base: nat, big: bool, n: nat) {
    base + (if big then 8 else 4) * n <= |p|
  }

  function Low(p: seq<byte>, base: nat, big: bool, n: nat, k: nat): nat
    requires TableIn(p, base, big, n) && k < n
  {
    if big then U32(p, base + 8 * k) else U16(p, base + 4 * k)
  }

  function High(p: seq<byte>, base: nat, big: bool, n: nat, k: nat): nat
    requires TableIn(p, base, big, n) && k < n
  {
    if big then U32(p, base + 8 * k + 4) else U16(p, base + 4 * k + 2)
  }

  /** Binary search. Since `c` is not below the first interval, `idx - 1` never underflows. */
  predicate Search(p: seq<byte>, base: nat, big: bool, n: nat, c: nat, min: nat, max: nat)
    requires TableIn(p, base, big, n) && max < n && min <= max + 1 && Low(p, base, big, n, 0) <= c
    decreases max + 1 - min
  {
    if min > max then false
    else
      var idx := (min + max) / 2;
      if c < Low(p, base, big, n, idx) then Search(p, base, big, n, c, min, idx - 1)
      else if c > High(p, base, big, n, idx) then Search(p, base, big, n, c, idx + 1, max)
      else true
  }

  predicate InTable(p: seq<byte>, base: nat, big: bool, n: nat, c: nat)
    requires TableIn(p, base, big, n) && n >= 1
  {
    if c < Low(p, base, big, n, 0) then false
    else if !big && c >= 0xFFFF && High(p, base, big, n, n - 1) == 0xFFFF then true
    else if c > High(p, base, big, n, n - 1) then false
    else Search(p, base, big, n, c, 0, n - 1)
  }

  // ----- back references -----

  /** Compares units p..end with the units at q, one character at a time. */
  function MatchForward(m: Prog, icase: bool, p: nat, end: nat, q: nat): (r: Option<nat>)
    requires end <= |m.subject.units| && q <= |m.subject.units|
    ensures r.Some? ==> r.value <= |m.subject.units|
    decreases end - p
  {
    var s := m.subject;
    if p >= end then Some(q)
    else if q >= |s.units| then None
    else if PatternSemantics.SameChar(m.env, CharAt(s, p, end), CharAt(s, q, |s.units|), icase) then
      MatchForward(m, icase, NextPos(s, p, end), end, NextPos(s, q, |s.units|))
    else None
  }

  function MatchBackward(m: Prog, icase: bool, start: nat, p: nat, q: nat): (r: Option<nat>)
    requires p <= |m.subject.units| && q <= |m.subject.units|
    ensures r.Some? ==> r.value <= |m.subject.units|
    decreases p
  {
    var s := m.subject;
    if p <= start then Some(q)
    else if q == 0 then None
    else if PatternSemantics.SameChar(m.env, CharBefore(s, p, start), CharBefore(s, q, 0), icase) then
      MatchBackward(m, icase, start, PrevPos(s, p, start), PrevPos(s, q, 0))
    else None
  }

  /** The first group of the list with both ends set; |groups| when there is none. */
  function FirstSet(arr: seq<int>, cc: nat, groups: seq<nat>): (k: nat)
    requires 2 * cc <= |arr|
    ensures k <= |groups|
  {
    if groups == [] then 0
    else if groups[0] >= cc || (arr[2 * groups[0]] != NULL && arr[2 * groups[0] + 1] != NULL) then 0
    else 1 + FirstSet(arr, cc, groups[1..])
  }

  function BackRefAction(m: Prog, i: Instr, next: int, t: Thread): Action
    requires i.BackRef? && t.pos <= |m.subject.units| && 2 * m.groups <= |t.arr|
  {
    var k := FirstSet(t.arr, m.groups, i.groups);
    if k == |i.groups| then Go(t.(pc := next))
    else if i.groups[k] >= m.groups then Die
    else
      var start, end := t.arr[2 * i.groups[k]], t.arr[2 * i.groups[k] + 1];
      if !(0 <= start <= |m.subject.units| && 0 <= end <= |m.subject.units|) then Crash
      else
        var r := if i.backward then MatchBackward(m, i.icase, start, end, t.pos)
                 else MatchForward(m, i.icase, start, end, t.pos);
        if r.None? then Die else Go(t.(pc := next, pos := r.value))
  }

  // ----- single instructions -----

  /** The test of an instruction that reads one character; `next` is where a range table starts. */
  predicate CharTest(m: Prog, i: Instr, next: nat, ch: nat)
    requires i.Char? || i.Dot? || i.AnyChar? || i.Space? || (i.Range? && TableIn(m.code, next, i.big, i.n) && i.n >= 1)
  {
    match i
    case Char(c, _, icase) => (if icase then m.env.fold(ch) else ch) == c
    case Dot => !PatternSemantics.IsLineTerminator(ch)
    case AnyChar => true
    case Space(neg) => m.env.space(ch) != neg
    case Range(big, icase, n) => InTable(m.code, next, big, n, if icase then m.env.fold(ch) else ch)
  }

  function CharAction(m: Prog, i: Instr, next: int, t: Thread): Action
    requires (i.Char? || i.Dot? || i.AnyChar? || i.Space? || i.Range?) && t.pos <= |m.subject.units| && 0 <= next
  {
    var s := m.subject;
    if i.Range? && !(TableIn(m.code, next, i.big, i.n) && i.n >= 1) then Crash
    else if t.pos >= |s.units| then Die
    else if CharTest(m, i, next, CharAt(s, t.pos, |s.units|)) then
      var after := if i.Range? then next + (if i.big then 8 else 4) * i.n else next;
      Go(t.(pc := after, pos := NextPos(s, t.pos, |s.units|)))
    else Die
  }

  predicate LineTest(m: Prog, i: Instr, pos: nat)
    requires i.Line? && pos <= |m.subject.units|
  {
    var s := m.subject;
    if i.atEnd then
      pos == |s.units| || (i.multi && PatternSemantics.IsLineTerminator(CharAt(s, pos, |s.units|)))
    else
      pos == 0 || (i.multi && PatternSemantics.IsLineTerminator(CharBefore(s, pos, 0)))
  }

  predicate WordTest(m: Prog, i: Instr, pos: nat)
    requires i.Word? && pos <= |m.subject.units|
  {
    var s := m.subject;
    var v1 := pos != 0 && PatternSemantics.IsWordChar(CharBefore(s, pos, 0), i.icase);
    var v2 := pos < |s.units| && PatternSemantics.IsWordChar(CharAt(s, pos, |s.units|), i.icase);
    (v1 != v2) != i.negated
  }

  /** Slots lo..hi, both included, are set to NULL. */
  function ResetSlots(arr: seq<int>, lo: nat, hi: nat): (r: seq<int>)
    ensures |r| == |arr|
  {
    seq(|arr|, k requires 0 <= k < |arr| => if 2 * lo <= k <= 2 * hi + 1 then NULL else arr[k])
  }

  function LoopAction(m: Prog, i: Instr, next: int, t: Thread): Action
    requires i.Loop? || i.LoopSplit?
  {
    var idx := 2 * m.groups + i.reg;
    if idx + (if i.LoopSplit? && i.check then 1 else 0) >= |t.arr| then Crash
    else
      var count := (t.arr[idx] - 1) % TWO32;
      var t' := t.(arr := t.arr[idx := count]);
      if i.Loop? then
        if count != 0 then Go(t'.(pc := next + i.off)) else Go(t'.(pc := next))
      else if count > i.limit then Go(t'.(pc := next + i.off))
      else if i.check && t.arr[idx + 1] == t.pos && count != i.limit then Die
      else if count == 0 then Go(t'.(pc := next))
      else if i.nextFirst then Fork(t'.(pc := next), t'.(pc := next + i.off))
      else Fork(t'.(pc := next + i.off), t'.(pc := next))
  }

  function RegisterAction(m: Prog, i: Instr, next: int, t: Thread): Action
    requires i.SetI32? || i.SetPos? || i.CheckAdvance?
  {
    var idx := 2 * m.groups + i.reg;
    if idx >= |t.arr| then Crash
    else if i.SetI32? then Go(t.(pc := next, arr := t.arr[idx := i.val]))
    else if i.SetPos? then Go(t.(pc := next, arr := t.arr[idx := t.pos]))
    else if t.arr[idx] == t.pos then Die
    else Go(t.(pc := next))
  }

  /** What one instruction does to the running thread; `next` is the address after it. */
  function Execute(m: Prog, i: Instr, next: nat, t: Thread): Action
    requires t.pos <= |m.subject.units| && 2 * m.groups <= |t.arr|
  {
    match i
    case Goto(off) => Go(t.(pc := next + off))
    case Split(nextFirst, off) =>
      if nextFirst then Fork(t.(pc := next), t.(pc := next + off))
      else Fork(t.(pc := next + off), t.(pc := next))
    case Match => Accept
    case LookMatch(neg) => Leave(neg)
    case Look(neg, off) => Enter(neg, t.(pc := next), t.(pc := next + off))
    case Save(atEnd, g) =>
      if g < m.groups then Go(t.(pc := next, arr := t.arr[2 * g + (if atEnd then 1 else 0) := t.pos])) else Crash
    case Reset(lo, hi) => if hi < m.groups then Go(t.(pc := next, arr := ResetSlots(t.arr, lo, hi))) else Crash
    case Line(_, _) => if LineTest(m, i, t.pos) then Go(t.(pc := next)) else Die
    case Word(_, _) => if WordTest(m, i, t.pos) then Go(t.(pc := next)) else Die
    case BackRef(_, _, _) => BackRefAction(m, i, next, t)
    case Prev => if t.pos == 0 then Die else Go(t.(pc := next, pos := PrevPos(m.subject, t.pos, 0)))
    case Loop(_, _) => LoopAction(m, i, next, t)
    case LoopSplit(_, _, _, _, _) => LoopAction(m, i, next, t)
    case SetI32(_, _) => RegisterAction(m, i, next, t)
    case SetPos(_) => RegisterAction(m, i, next, t)
    case CheckAdvance(_) => RegisterAction(m, i, next, t)
    case _ => CharAction(m, i, next, t)
  }

  function Act(m: Prog, t: Thread): Action {
    if t.pos > |m.subject.units| || 2 * m.groups > |t.arr| then Crash
    else
      match Fetch(m.code, t.pc)
      case None => Crash
      case Some(i) => Execute(m, i, t.pc + Size(i), t)
  }

  // ----- the machine -----

  datatype Kind = SplitPoint | LookPoint | NegLookPoint

  function PointKind(neg: bool): Kind {
    if neg then NegLookPoint else LookPoint
  }

  datatype Frame = Frame(kind: Kind, t: Thread)

  /** The most recent frame comes first. */
  type Stack = seq<Frame>

  datatype Config =
    | Run(t: Thread, stk: Stack)
    | Fail(stk: Stack)
    | Done(result: Option<Thread>)
    | Stuck

  /** The index of the first frame of the given kind; |stk| when there is none. */
  function FirstOf(stk: Stack, kind: Kind): (k: nat)
    ensures k <= |stk|
    ensures k < |stk| ==> stk[k].kind == kind
  {
    if stk == [] || stk[0].kind == kind then 0 else 1 + FirstOf(stk[1..], kind)
  }

  /** Leaving a lookahead keeps the captures and drops every frame up to its own. */
  function LeaveLook(neg: bool, arr: seq<int>, stk: Stack): Config {
    var k := FirstOf(stk, PointKind(neg));
    if k == |stk| then Stuck
    else if neg then Fail(stk[k + 1..])
    else Run(Thread(stk[k].t.pc, stk[k].t.pos, arr), stk[k + 1..])
  }

  function Perform(a: Action, arr: seq<int>, stk: Stack): Config {
    match a
    case Go(t) => Run(t, stk)
    case Fork(first, other) => Run(first, [Frame(SplitPoint, other)] + stk)
    case Enter(neg, inner, after) => Run(inner, [Frame(PointKind(neg), after)] + stk)
    case Leave(neg) => LeaveLook(neg, arr, stk)
    case Die => Fail(stk)
    case Accept => Stuck
    case Crash => Stuck
  }

  function Step(m: Prog, c: Config): Config {
    match c
    case Run(t, stk) =>
      var a := Act(m, t);
      if a.Accept? then Done(Some(t)) else Perform(a, t.arr, stk)
    case Fail(stk) =>
      if stk == [] then Done(None)
      else if stk[0].kind == LookPoint then Fail(stk[1..])
      else Run(stk[0].t, stk[1..])
    case Done(_) => c
    case Stuck => c
  }

  function Steps(m: Prog, c: Config, n: nat): Config
    decreases n
  {
    if n == 0 then c else Steps(m, Step(m, c), n - 1)
  }

  /** The machine started in `c` stops with result `r`. */
  ghost predicate Evaluates(m: Prog, c: Config, r: Option<Thread>) {
    exists n: nat :: Steps(m, c, n) == Done(r)
  }
}
