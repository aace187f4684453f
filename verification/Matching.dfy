/**
  Whole programs: the search prologue, the pattern as group 0, and the final match.
  Running a program stops, and gives the first result of the pattern at the smallest
  start at which it has one.
 */
module Matching {
  import opened Bytes
  import opened Bytecode
  import opened Subjects
  import opened Patterns
  import opened PatternSemantics
  import opened CodeGen
  import opened SnapshotMachine
  import opened Expansion
  import opened Simulation
  import opened ThreadImages
  import opened CompilerCorrectness

  const PROLOGUE: nat := 11

  /** Steps over one character and starts again, unless the pattern matches here. */
  function Prologue(): (c: seq<byte>)
    ensures |c| == PROLOGUE
  {
    assert |Encode(Split(false, 6))| == Bytecode.Size(Split(false, 6));
    assert |Encode(Goto(-11))| == Bytecode.Size(Goto(-11));
    Encode(Split(false, 6)) + Encode(Instr.AnyChar) + Encode(Goto(-11))
  }

  function ProgramCode(fold: nat -> nat, n: Node, sticky: bool, alloc: bool): seq<byte>
    requires Paired(n)
  {
    (if sticky then [] else Prologue()) + Code(fold, Group(n), 0, false, 0, alloc) + Encode(Match)
  }

  function NoCaptures(groups: nat): (caps: seq<Capture>)
    ensures |caps| == groups
  {
    seq(groups, i => Unset)
  }

  lemma NoCapturesSound(env: Env, groups: nat, e: nat)
    requires e <= |env.input|
    ensures Sound(env, State(e, NoCaptures(groups)))
  {
  }

  /** The results of the pattern when it is tried at `e`; capture 0 is the whole match. */
  ghost function MatchesAt(env: Env, n: Node, e: nat): (ys: seq<State>)
    requires e <= |env.input|
  {
    NoCapturesSound(env, Groups(Group(n)), e);
    Results(env, Group(n), 0, false, State(e, NoCaptures(Groups(Group(n)))))
  }

  /** The first result at the smallest start from `e` on. */
  ghost function Search(env: Env, n: Node, e: nat): Option<State>
    requires e <= |env.input|
    decreases |env.input| - e
  {
    var ys := MatchesAt(env, n, e);
    if ys != [] then Some(ys[0])
    else if e < |env.input| then Search(env, n, e + 1)
    else None
  }

  ghost function Expected(env: Env, n: Node, sticky: bool, e: nat): Option<State>
    requires e <= |env.input|
  {
    if sticky then (if MatchesAt(env, n, e) == [] then None else Some(MatchesAt(env, n, e)[0])) else Search(env, n, e)
  }

  /** `Search` is what its name says: nothing matches before the start it reports. */
  lemma {:induction false} SearchMeans(env: Env, n: Node, e: nat)
    requires e <= |env.input|
    ensures Search(env, n, e).None? ==> forall s :: e <= s <= |env.input| ==> MatchesAt(env, n, s) == []
    ensures Search(env, n, e).Some? ==>
              exists s :: e <= s <= |env.input| && MatchesAt(env, n, s) != [] && Search(env, n, e).value == MatchesAt(env, n, s)[0]
                          && forall s' :: e <= s' < s ==> MatchesAt(env, n, s') == []
    decreases |env.input| - e
  {
    hide MatchesAt;
    if MatchesAt(env, n, e) == [] && e < |env.input| {
      SearchMeans(env, n, e + 1);
      if Search(env, n, e + 1).Some? {
        var s :| e + 1 <= s <= |env.input| && MatchesAt(env, n, s) != [] && Search(env, n, e + 1).value == MatchesAt(env, n, s)[0]
                 && forall s' :: e + 1 <= s' < s ==> MatchesAt(env, n, s') == [];
        assert forall s' :: e <= s' < s ==> MatchesAt(env, n, s') == [];
      }
    }
  }

  /** A program in memory, with the array it starts from: no capture is set. */
  ghost predicate Loaded(m: Prog, n: Node, sticky: bool, arr: seq<int>, regs: nat) {
    && Ready(m)
    && Valid(m.env.fold, n, m.groups, |m.env.input|)
    && Paired(n)
    && m.groups == Groups(Group(n))
    && Registers(n, false) <= regs && Registers(n, false) <= 255
    && m.code == ProgramCode(m.env.fold, n, sticky, true)
    && |arr| == 2 * m.groups + regs
    && forall k :: 0 <= k < 2 * m.groups ==> arr[k] == NULL
  }

  function BodyPc(sticky: bool): nat {
    if sticky then 0 else PROLOGUE
  }

  lemma ProgramParts(m: Prog, n: Node, sticky: bool, arr: seq<int>, regs: nat)
    requires Loaded(m, n, sticky, arr, regs)
    ensures Placed(m, Group(n), 0, false, 0, BodyPc(sticky), regs)
    ensures At(m.code, BodyPc(sticky) + CodeSize(m, Group(n), 0, false, 0), Encode(Match))
    ensures !sticky ==> At(m.code, 0, Prologue())
  {
    hide Code, Encode, Ready, Prologue;
    var pre := if sticky then [] else Prologue();
    var body := Code(m.env.fold, Group(n), 0, false, 0, true);
    assert m.code == pre + body + Encode(Match);
    assert At(m.code, 0, pre + body + Encode(Match));
    AtSplit(m.code, 0, pre + body, Encode(Match));
    AtSplit(m.code, 0, pre, body);
  }

  lemma StartEntered(m: Prog, n: Node, sticky: bool, arr: seq<int>, regs: nat, e: nat)
    requires Loaded(m, n, sticky, arr, regs) && e <= |m.env.input|
    ensures Entered(m, State(e, NoCaptures(m.groups)), arr, 0, Groups(Group(n)), {}, regs)
  {
    NoCapturesSound(m.env, m.groups, e);
  }

  /** The pattern tried at one start. */
  lemma SimBody(m: Prog, n: Node, sticky: bool, arr: seq<int>, regs: nat, e: nat) returns (ts: seq<Thread>)
    requires Loaded(m, n, sticky, arr, regs) && e <= |m.env.input|
    ensures Images(m, ts, BodyPc(sticky) + CodeSize(m, Group(n), 0, false, 0), arr, {}, 0, MatchesAt(m.env, n, e))
    ensures Expands(m, Thread(BodyPc(sticky), Offset(m.subject, e), arr), ts)
  {
    hide Images, Expands, Code, Results, Placed, Entered, Valid, ProgramCode;
    ProgramParts(m, n, sticky, arr, regs);
    StartEntered(m, n, sticky, arr, regs, e);
    ts := Sim(m, Group(n), 0, false, 0, BodyPc(sticky), regs, State(e, NoCaptures(m.groups)), arr, {});
  }

  /** The results at `e` and at every later start, in order. */
  ghost function MatchesFrom(env: Env, n: Node, e: nat): seq<State>
    requires e <= |env.input|
    decreases |env.input| - e
  {
    MatchesAt(env, n, e) + if e < |env.input| then MatchesFrom(env, n, e + 1) else []
  }

  lemma {:induction false} FirstIsSearch(env: Env, n: Node, e: nat)
    requires e <= |env.input|
    ensures var ys := MatchesFrom(env, n, e);
            Search(env, n, e) == if ys == [] then None else Some(ys[0])
    decreases |env.input| - e
  {
    hide MatchesAt;
    if MatchesAt(env, n, e) == [] && e < |env.input| { FirstIsSearch(env, n, e + 1); }
  }

  lemma PrologueParts(p: seq<byte>)
    requires At(p, 0, Prologue())
    ensures At(p, 0, Encode(Split(false, 6))) && At(p, 5, Encode(Instr.AnyChar)) && At(p, 6, Encode(Goto(-11)))
  {
    hide At, Encode;
    var split, any, goto_ := Encode(Split(false, 6)), Encode(Instr.AnyChar), Encode(Goto(-11));
    assert |split| == Bytecode.Size(Split(false, 6)) && |any| == Bytecode.Size(Instr.AnyChar);
    assert |goto_| == Bytecode.Size(Goto(-11));
    AtSplit(p, 0, split + any, goto_);
    AtSplit(p, 0, split, any);
  }

  lemma ActAny(m: Prog, pc: nat, e: nat, arr: seq<int>)
    requires Ready(m) && e <= |m.env.input| && 2 * m.groups <= |arr| && At(m.code, pc, Encode(Instr.AnyChar))
    ensures Act(m, Thread(pc, Offset(m.subject, e), arr)) ==
            if e < |m.env.input| then Go(Thread(pc + 1, Offset(m.subject, e + 1), arr)) else Die
  {
    hide Act, At, Ready;
    ActChar(m, Node.AnyChar, pc, e, arr);
  }

  /** The search prologue tries the pattern at each start in turn. */
  lemma {:induction false} SimSearch(m: Prog, n: Node, arr: seq<int>, regs: nat, e: nat) returns (ts: seq<Thread>)
    requires Loaded(m, n, false, arr, regs) && e <= |m.env.input|
    ensures Images(m, ts, BodyPc(false) + CodeSize(m, Group(n), 0, false, 0), arr, {}, 0, MatchesFrom(m.env, n, e))
    ensures Expands(m, Thread(0, Offset(m.subject, e), arr), ts)
    decreases |m.env.input| - e
  {
    hide Images, Expands, Code, Results, Placed, At, Encode, Valid, ProgramCode, Act, MatchesAt;
    ProgramParts(m, n, false, arr, regs);
    PrologueParts(m.code);
    var end := BodyPc(false) + CodeSize(m, Group(n), 0, false, 0);
    var pos := Offset(m.subject, e);
    var t, t1, t2 := Thread(0, pos, arr), Thread(11, pos, arr), Thread(5, pos, arr);
    ActSplit(m, 0, false, 6, pos, arr);
    ExpandsFork(m, t, t1, t2);
    var ts1 := SimBody(m, n, false, arr, regs, e);
    ActAny(m, 5, e, arr);
    var ts2: seq<Thread> := [];
    if e < |m.env.input| {
      var pos' := Offset(m.subject, e + 1);
      var u, v := Thread(6, pos', arr), Thread(0, pos', arr);
      ExpandsGo(m, t2, u);
      ActGoto(m, 6, -11, pos', arr);
      ExpandsGo(m, u, v);
      ts2 := SimSearch(m, n, arr, regs, e + 1);
      Then(m, u, v, ts2);
      Then(m, t2, u, ts2);
    } else {
      ExpandsDie(m, t2);
      ImagesNone(m, end, arr, {}, 0);
    }
    ts := ts1 + ts2;
    ExpandsOne(m, t2, ts2);
    ExpandsCons(m, t1, [t2], ts1, ts2);
    assert [t1] + [t2] == [t1, t2];
    Trans(m, t, [t1, t2], ts);
    ImagesAppend(m, ts1, ts2, end, arr, {}, 0, MatchesAt(m.env, n, e),
                 if e < |m.env.input| then MatchesFrom(m.env, n, e + 1) else []);
  }

  /** The array `arr` at the end shows the state `y`, and the machine has stopped. */
  ghost predicate Reports(m: Prog, r: Option<Thread>, expected: Option<State>) {
    match expected
    case None => r == None
    case Some(y) => r.Some? && r.value.pos == Offset(m.subject, y.e) && Shows(m, r.value.arr, y.caps, {})
  }

  lemma FirstThread(m: Prog, t: Thread, ts: seq<Thread>, pc: nat, arr: seq<int>, ys: seq<State>) returns (r: Option<Thread>)
    requires Expands(m, t, ts) && Images(m, ts, pc, arr, {}, 0, ys)
    requires Ready(m) && At(m.code, pc, Encode(Match))
    ensures Evaluates(m, Run(t, []), r) && Reports(m, r, if ys == [] then None else Some(ys[0]))
    ensures r.Some? ==> |r.value.arr| == |arr|
  {
    hide Images, At, Encode, Ready;
    ImagesHead(m, ts, pc, arr, {}, 0, ys);
    assert Frames(ts) + [] == Frames(ts);
    if ts == [] {
      r := None;
      assert Steps(m, Fail([]), 1) == Done(r);
      assert Evaluates(m, Fail(Frames(ts) + []), r);
    } else {
      r := Some(ts[0]);
      ImageMeans(m, ts[0], pc, arr, {}, 0, ys[0]);
      FetchEncode(m.code, pc, Match);
      var rest := Frames(ts)[1..];
      assert Step(m, Run(ts[0], rest)) == Done(r);
      assert Steps(m, Run(ts[0], rest), 1) == Done(r) by { assert Steps(m, Done(r), 0) == Done(r); }
      assert Evaluates(m, Run(ts[0], rest), r);
      assert Step(m, Fail(Frames(ts))) == Run(ts[0], rest);
      StepEvaluates(m, Fail(Frames(ts)), r);
    }
  }

  /**
    Every run of a compiled program stops, whatever the subject and the start. It
    reports the first result of the pattern, captures included, at the smallest start
    from `e` on that has one (at `e` itself when the program is sticky), or no match
    when there is none.
   */
  lemma CompiledCorrectly(m: Prog, n: Node, sticky: bool, arr: seq<int>, regs: nat, e: nat) returns (r: Option<Thread>)
    requires Loaded(m, n, sticky, arr, regs) && e <= |m.env.input|
    ensures Evaluates(m, Run(Thread(0, Offset(m.subject, e), arr), []), r)
    ensures Reports(m, r, Expected(m.env, n, sticky, e))
    ensures r.Some? ==> |r.value.arr| == |arr|
  {
    hide Images, Expands, Evaluates, Code, Placed, Valid, ProgramCode, MatchesAt, Reports;
    ProgramParts(m, n, sticky, arr, regs);
    var t := Thread(0, Offset(m.subject, e), arr);
    var pc := BodyPc(sticky) + CodeSize(m, Group(n), 0, false, 0);
    if sticky {
      var ts := SimBody(m, n, sticky, arr, regs, e);
      r := FirstThread(m, t, ts, pc, arr, MatchesAt(m.env, n, e));
    } else {
      var ts := SimSearch(m, n, arr, regs, e);
      r := FirstThread(m, t, ts, pc, arr, MatchesFrom(m.env, n, e));
      FirstIsSearch(m.env, n, e);
    }
  }
}
