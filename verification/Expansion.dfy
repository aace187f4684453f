/**
  A thread "expands" to a list of threads when, below any stack, running it comes to the
  same as trying the threads of the list one after the other. Expansions compose, which
  is how code fragments are put together.
 */
module Expansion {
  import opened Bytecode
  import opened SnapshotMachine

  function Frames(ts: seq<Thread>): (stk: Stack)
    ensures |stk| == |ts|
  {
    seq(|ts|, k requires 0 <= k < |ts| => Frame(SplitPoint, ts[k]))
  }

  ghost predicate Expands(m: Prog, t: Thread, us: seq<Thread>) {
    forall stk: Stack, r :: Evaluates(m, Fail(Frames(us) + stk), r) ==> Evaluates(m, Run(t, stk), r)
  }

  ghost predicate ExpandsAll(m: Prog, ts: seq<Thread>, us: seq<Thread>) {
    forall stk: Stack, r :: Evaluates(m, Fail(Frames(us) + stk), r) ==> Evaluates(m, Fail(Frames(ts) + stk), r)
  }

  lemma StepEvaluates(m: Prog, c: Config, r: Option<Thread>)
    requires Evaluates(m, Step(m, c), r)
    ensures Evaluates(m, c, r)
  {
    var n: nat :| Steps(m, Step(m, c), n) == Done(r);
    assert Steps(m, c, n + 1) == Done(r);
  }

  lemma {:induction false} StuckStays(m: Prog, n: nat)
    ensures Steps(m, Stuck, n) == Stuck
  {
    if n > 0 { StuckStays(m, n - 1); }
  }

  lemma {:induction false} DoneStays(m: Prog, r: Option<Thread>, n: nat)
    ensures Steps(m, Done(r), n) == Done(r)
  {
    if n > 0 { DoneStays(m, r, n - 1); }
  }

  /** Either the failing machine or the machine running a thread, with a given stack. */
  function Configured(o: Option<Thread>, stk: Stack): Config {
    match o
    case None => Fail(stk)
    case Some(t) => Run(t, stk)
  }

  lemma {:induction false} FirstOfAppend(a: Stack, b: Stack, kind: Kind)
    ensures FirstOf(a + b, kind) == if FirstOf(a, kind) < |a| then FirstOf(a, kind) else |a| + FirstOf(b, kind)
  {
    if a == [] {
      assert a + b == b;
    } else if a[0].kind != kind {
      assert (a + b)[1..] == a[1..] + b;
      FirstOfAppend(a[1..], b, kind);
    } else {
      assert (a + b)[0] == a[0];
    }
  }

  lemma {:induction false} NoneInFrames(ts: seq<Thread>, kind: Kind)
    requires kind != SplitPoint
    ensures FirstOf(Frames(ts), kind) == |ts|
  {
  }

  lemma DropInside(a: Stack, b: Stack, k: nat)
    requires k < |a|
    ensures (a + b)[k] == a[k] && (a + b)[k + 1..] == a[k + 1..] + b
  {
  }

  lemma DropBeyond(a: Stack, b: Stack, k: nat)
    requires k < |b|
    ensures (a + b)[|a| + k] == b[k] && (a + b)[|a| + k + 1..] == b[k + 1..]
  {
  }

  lemma LeaveAt(neg: bool, arr: seq<int>, stk: Stack, k: nat)
    requires FirstOf(stk, PointKind(neg)) == k < |stk|
    ensures LeaveLook(neg, arr, stk) ==
            if neg then Fail(stk[k + 1..]) else Run(Thread(stk[k].t.pc, stk[k].t.pos, arr), stk[k + 1..])
  {
  }

  /** Leaving a lookahead stops at its frame, wherever the rest of the stack comes from. */
  lemma LeaveInTop(neg: bool, arr: seq<int>, top: Stack, stk: Stack)
    requires FirstOf(top, PointKind(neg)) < |top|
    ensures var k := FirstOf(top, PointKind(neg));
            LeaveLook(neg, arr, top + stk) ==
            if neg then Fail(top[k + 1..] + stk) else Run(Thread(top[k].t.pc, top[k].t.pos, arr), top[k + 1..] + stk)
  {
    hide FirstOf, LeaveLook;
    var k := FirstOf(top, PointKind(neg));
    FirstOfAppend(top, stk, PointKind(neg));
    DropInside(top, stk, k);
    LeaveAt(neg, arr, top + stk, k);
  }

  /** Choice points above the frame of a lookahead are dropped when it is left. */
  lemma LeaveBelow(neg: bool, arr: seq<int>, top: Stack, stk: Stack)
    requires FirstOf(top, PointKind(neg)) == |top|
    ensures LeaveLook(neg, arr, top + stk) == LeaveLook(neg, arr, stk)
  {
    hide FirstOf;
    FirstOfAppend(top, stk, PointKind(neg));
    var j := FirstOf(stk, PointKind(neg));
    if j < |stk| { DropBeyond(top, stk, j); }
  }

  ghost predicate Replaceable(m: Prog, a: seq<Thread>, b: seq<Thread>, stk: Stack) {
    forall r :: Evaluates(m, Fail(Frames(a) + stk), r) ==> Evaluates(m, Fail(Frames(b) + stk), r)
  }

  /** A list of choice points may be replaced, anywhere in the stack, by another that evaluates to the same. */
  lemma {:induction false} Replace(m: Prog, o: Option<Thread>, top: Stack, a: seq<Thread>, b: seq<Thread>,
                                   stk: Stack, n: nat, r: Option<Thread>)
    requires Replaceable(m, a, b, stk)
    requires Steps(m, Configured(o, top + Frames(a) + stk), n) == Done(r)
    ensures Evaluates(m, Configured(o, top + Frames(b) + stk), r)
    decreases n, 2
  {
    var ca, cb := Configured(o, top + Frames(a) + stk), Configured(o, top + Frames(b) + stk);
    if o.None? {
      if top == [] {
        assert top + Frames(a) + stk == Frames(a) + stk;
        assert top + Frames(b) + stk == Frames(b) + stk;
        assert Evaluates(m, Fail(Frames(a) + stk), r);
      } else {
        assert (top + Frames(a) + stk)[1..] == top[1..] + Frames(a) + stk;
        assert (top + Frames(b) + stk)[1..] == top[1..] + Frames(b) + stk;
        var o' := if top[0].kind == LookPoint then None else Some(top[0].t);
        Replace(m, o', top[1..], a, b, stk, n - 1, r);
        StepEvaluates(m, cb, r);
      }
    } else {
      ReplaceRun(m, o.value, top, a, b, stk, n, r);
    }
  }

  lemma {:induction false} ReplaceRun(m: Prog, t: Thread, top: Stack, a: seq<Thread>, b: seq<Thread>,
                                      stk: Stack, n: nat, r: Option<Thread>)
    requires Replaceable(m, a, b, stk)
    requires Steps(m, Run(t, top + Frames(a) + stk), n) == Done(r)
    ensures Evaluates(m, Run(t, top + Frames(b) + stk), r)
    decreases n, 1
  {
    hide Act;
    var cb := Run(t, top + Frames(b) + stk);
    assert n > 0;
    match Act(m, t)
    case Go(t') =>
      Replace(m, Some(t'), top, a, b, stk, n - 1, r);
      StepEvaluates(m, cb, r);
    case Fork(t', other) =>
      ReplacePush(m, t', Frame(SplitPoint, other), top, a, b, stk, n - 1, r);
      StepEvaluates(m, cb, r);
    case Enter(neg, t', after) =>
      ReplacePush(m, t', Frame(PointKind(neg), after), top, a, b, stk, n - 1, r);
      StepEvaluates(m, cb, r);
    case Leave(neg) =>
      ReplaceLeave(m, neg, t, top, a, b, stk, n, r);
    case Die =>
      Replace(m, None, top, a, b, stk, n - 1, r);
      StepEvaluates(m, cb, r);
    case Accept =>
      DoneStays(m, Some(t), n - 1);
      assert Steps(m, Step(m, cb), 0) == Done(r);
      StepEvaluates(m, cb, r);
    case Crash =>
      StuckStays(m, n - 1);
  }

  lemma {:induction false} ReplacePush(m: Prog, t: Thread, f: Frame, top: Stack, a: seq<Thread>, b: seq<Thread>,
                                       stk: Stack, n: nat, r: Option<Thread>)
    requires Replaceable(m, a, b, stk)
    requires Steps(m, Run(t, [f] + (top + Frames(a) + stk)), n) == Done(r)
    ensures Evaluates(m, Run(t, [f] + (top + Frames(b) + stk)), r)
    decreases n, 2
  {
    assert [f] + (top + Frames(a) + stk) == ([f] + top) + Frames(a) + stk;
    assert [f] + (top + Frames(b) + stk) == ([f] + top) + Frames(b) + stk;
    ReplaceRun(m, t, [f] + top, a, b, stk, n, r);
  }

  lemma {:induction false} ReplaceLeave(m: Prog, neg: bool, t: Thread, top: Stack, a: seq<Thread>, b: seq<Thread>,
                                        stk: Stack, n: nat, r: Option<Thread>)
    requires Replaceable(m, a, b, stk) && n > 0 && Act(m, t) == Leave(neg)
    requires Steps(m, Run(t, top + Frames(a) + stk), n) == Done(r)
    ensures Evaluates(m, Run(t, top + Frames(b) + stk), r)
    decreases n, 0
  {
    hide Act;
    var kind := PointKind(neg);
    var k := FirstOf(top, kind);
    assert top + Frames(a) + stk == top + (Frames(a) + stk);
    assert top + Frames(b) + stk == top + (Frames(b) + stk);
    if k < |top| {
      LeaveInTop(neg, t.arr, top, Frames(a) + stk);
      LeaveInTop(neg, t.arr, top, Frames(b) + stk);
      assert top[k + 1..] + (Frames(a) + stk) == top[k + 1..] + Frames(a) + stk;
      assert top[k + 1..] + (Frames(b) + stk) == top[k + 1..] + Frames(b) + stk;
      var o' := if neg then None else Some(Thread(top[k].t.pc, top[k].t.pos, t.arr));
      Replace(m, o', top[k + 1..], a, b, stk, n - 1, r);
    } else {
      LeaveBelow(neg, t.arr, top, Frames(a) + stk);
      LeaveBelow(neg, t.arr, top, Frames(b) + stk);
      LeaveFrames(neg, t.arr, a, stk);
      LeaveFrames(neg, t.arr, b, stk);
      assert Steps(m, LeaveLook(neg, t.arr, stk), n - 1) == Done(r);
      assert Evaluates(m, LeaveLook(neg, t.arr, stk), r);
    }
    StepEvaluates(m, Run(t, top + Frames(b) + stk), r);
  }

  lemma LeaveFrames(neg: bool, arr: seq<int>, ts: seq<Thread>, stk: Stack)
    ensures LeaveLook(neg, arr, Frames(ts) + stk) == LeaveLook(neg, arr, stk)
  {
    NoneInFrames(ts, PointKind(neg));
    LeaveBelow(neg, arr, Frames(ts), stk);
  }

  // ----- how expansions compose -----

  lemma ExpandsOne(m: Prog, t: Thread, us: seq<Thread>)
    requires Expands(m, t, us)
    ensures ExpandsAll(m, [t], us)
  {
    forall stk: Stack, r | Evaluates(m, Fail(Frames(us) + stk), r)
      ensures Evaluates(m, Fail(Frames([t]) + stk), r)
    {
      assert (Frames([t]) + stk)[1..] == stk;
      assert (Frames([t]) + stk)[0] == Frame(SplitPoint, t);
      StepEvaluates(m, Fail(Frames([t]) + stk), r);
    }
  }

  lemma ExpandsSelf(m: Prog, ts: seq<Thread>)
    ensures ExpandsAll(m, ts, ts)
  {
  }

  lemma Trans(m: Prog, t: Thread, us: seq<Thread>, vs: seq<Thread>)
    requires Expands(m, t, us) && ExpandsAll(m, us, vs)
    ensures Expands(m, t, vs)
  {
  }

  lemma Then(m: Prog, t: Thread, t': Thread, us: seq<Thread>)
    requires Expands(m, t, [t']) && Expands(m, t', us)
    ensures Expands(m, t, us)
  {
    ExpandsOne(m, t', us);
  }

  /** The head of a list and its tail may be expanded independently. */
  lemma ExpandsCons(m: Prog, t: Thread, ts: seq<Thread>, us: seq<Thread>, vs: seq<Thread>)
    requires Expands(m, t, us) && ExpandsAll(m, ts, vs)
    ensures ExpandsAll(m, [t] + ts, us + vs)
  {
    forall stk: Stack, r | Evaluates(m, Fail(Frames(us + vs) + stk), r)
      ensures Evaluates(m, Fail(Frames([t] + ts) + stk), r)
    {
      assert Frames(us + vs) + stk == Frames(us) + (Frames(vs) + stk);
      assert Evaluates(m, Run(t, Frames(vs) + stk), r);
      var n: nat :| Steps(m, Run(t, Frames(vs) + stk), n) == Done(r);
      assert Replaceable(m, vs, ts, stk);
      assert Frames(vs) + stk == [] + Frames(vs) + stk;
      Replace(m, Some(t), [], vs, ts, stk, n, r);
      assert [] + Frames(ts) + stk == Frames(ts) + stk;
      assert Frames([t] + ts) + stk == [Frame(SplitPoint, t)] + (Frames(ts) + stk);
      StepEvaluates(m, Fail(Frames([t] + ts) + stk), r);
    }
  }

  lemma ExpandsAppend(m: Prog, a: seq<Thread>, b: seq<Thread>, us: seq<Thread>, vs: seq<Thread>)
    requires ExpandsAll(m, a, us) && ExpandsAll(m, b, vs)
    ensures ExpandsAll(m, a + b, us + vs)
  {
    forall stk: Stack, r | Evaluates(m, Fail(Frames(us + vs) + stk), r)
      ensures Evaluates(m, Fail(Frames(a + b) + stk), r)
    {
      assert Frames(us + vs) + stk == Frames(us) + (Frames(vs) + stk);
      assert Evaluates(m, Fail(Frames(a) + (Frames(vs) + stk)), r);
      var n: nat :| Steps(m, Fail(Frames(a) + (Frames(vs) + stk)), n) == Done(r);
      assert Replaceable(m, vs, b, stk);
      assert Frames(a) + (Frames(vs) + stk) == Frames(a) + Frames(vs) + stk;
      Replace(m, None, Frames(a), vs, b, stk, n, r);
      assert Frames(a + b) + stk == Frames(a) + Frames(b) + stk;
    }
  }

  // ----- expansions of single steps -----

  lemma ExpandsGo(m: Prog, t: Thread, t': Thread)
    requires Act(m, t) == Go(t')
    ensures Expands(m, t, [t'])
  {
    forall stk: Stack, r | Evaluates(m, Fail(Frames([t']) + stk), r)
      ensures Evaluates(m, Run(t, stk), r)
    {
      PopFrame(m, t', stk, r);
      StepEvaluates(m, Run(t, stk), r);
    }
  }

  lemma ExpandsRefl(m: Prog, t: Thread)
    ensures Expands(m, t, [t])
  {
    forall stk: Stack, r | Evaluates(m, Fail(Frames([t]) + stk), r)
      ensures Evaluates(m, Run(t, stk), r)
    {
      PopFrame(m, t, stk, r);
    }
  }

  /** Every thread of a list takes one step. */
  lemma {:induction false} ExpandsEach(m: Prog, ts: seq<Thread>, us: seq<Thread>)
    requires |us| == |ts| && forall j :: 0 <= j < |ts| ==> Act(m, ts[j]) == Go(us[j])
    ensures ExpandsAll(m, ts, us)
  {
    hide Expands, ExpandsAll, Act;
    if ts == [] {
      ExpandsSelf(m, []);
    } else {
      ExpandsGo(m, ts[0], us[0]);
      ExpandsEach(m, ts[1..], us[1..]);
      ExpandsCons(m, ts[0], ts[1..], [us[0]], us[1..]);
      assert [ts[0]] + ts[1..] == ts && [us[0]] + us[1..] == us;
    }
  }

  lemma PopFrame(m: Prog, t: Thread, stk: Stack, r: Option<Thread>)
    requires Evaluates(m, Fail(Frames([t]) + stk), r)
    ensures Evaluates(m, Run(t, stk), r)
  {
    var c := Fail(Frames([t]) + stk);
    var n: nat :| Steps(m, c, n) == Done(r);
    assert (Frames([t]) + stk)[0] == Frame(SplitPoint, t);
    assert (Frames([t]) + stk)[1..] == stk;
    assert n > 0 && Steps(m, Run(t, stk), n - 1) == Done(r);
  }

  lemma ExpandsFork(m: Prog, t: Thread, first: Thread, other: Thread)
    requires Act(m, t) == Fork(first, other)
    ensures Expands(m, t, [first, other])
  {
    forall stk: Stack, r | Evaluates(m, Fail(Frames([first, other]) + stk), r)
      ensures Evaluates(m, Run(t, stk), r)
    {
      var rest := [Frame(SplitPoint, other)] + stk;
      assert Frames([first, other]) + stk == Frames([first]) + rest;
      PopFrame(m, first, rest, r);
      StepEvaluates(m, Run(t, stk), r);
    }
  }

  lemma ExpandsDie(m: Prog, t: Thread)
    requires Act(m, t) == Die
    ensures Expands(m, t, [])
  {
    forall stk: Stack, r | Evaluates(m, Fail(Frames([]) + stk), r)
      ensures Evaluates(m, Run(t, stk), r)
    {
      assert Frames([]) + stk == stk;
      StepEvaluates(m, Run(t, stk), r);
    }
  }

  /**
    A lookaround whose body expands to `us`, each of which stands at the instruction that
    leaves it. A positive one resumes after it with the captures of the first of them; a
    negative one resumes with the captures held on entry, and only if there is none.
   */
  lemma ExpandsEnter(m: Prog, t: Thread, neg: bool, inner: Thread, after: Thread, us: seq<Thread>)
    requires Act(m, t) == Enter(neg, inner, after)
    requires Expands(m, inner, us)
    requires us != [] ==> Act(m, us[0]) == Leave(neg)
    ensures Expands(m, t, if neg then (if us == [] then [after] else [])
                          else if us == [] then [] else [Thread(after.pc, after.pos, us[0].arr)])
  {
    var vs := if neg then (if us == [] then [after] else [])
              else if us == [] then [] else [Thread(after.pc, after.pos, us[0].arr)];
    forall stk: Stack, r | Evaluates(m, Fail(Frames(vs) + stk), r)
      ensures Evaluates(m, Run(t, stk), r)
    {
      var kind := PointKind(neg);
      var barrier := [Frame(kind, after)] + stk;
      if us == [] {
        EmptyLook(m, neg, after, stk, r);
      } else {
        LeaveFirst(m, neg, after, us, stk, r);
      }
      assert Evaluates(m, Run(inner, barrier), r);
      StepEvaluates(m, Run(t, stk), r);
    }
  }

  lemma EmptyLook(m: Prog, neg: bool, after: Thread, stk: Stack, r: Option<Thread>)
    requires Evaluates(m, Fail(Frames(if neg then [after] else []) + stk), r)
    ensures Evaluates(m, Fail(Frames([]) + ([Frame(PointKind(neg), after)] + stk)), r)
  {
    var barrier := [Frame(PointKind(neg), after)] + stk;
    assert Frames([]) + barrier == barrier;
    assert barrier[1..] == stk;
    if neg { PopFrame(m, after, stk, r); } else { assert Frames([]) + stk == stk; }
    StepEvaluates(m, Fail(barrier), r);
  }

  lemma LeaveFirst(m: Prog, neg: bool, after: Thread, us: seq<Thread>, stk: Stack, r: Option<Thread>)
    requires us != [] && Act(m, us[0]) == Leave(neg)
    requires Evaluates(m, Fail(Frames(if neg then [] else [Thread(after.pc, after.pos, us[0].arr)]) + stk), r)
    ensures Evaluates(m, Fail(Frames(us) + ([Frame(PointKind(neg), after)] + stk)), r)
  {
    hide Act, FirstOf, LeaveLook;
    var frame := [Frame(PointKind(neg), after)];
    var u := us[0];
    var rest := Frames(us[1..]) + (frame + stk);
    LeaveFrames(neg, u.arr, us[1..], frame + stk);
    LeaveOwn(neg, u.arr, after, stk);
    if neg {
      assert Frames([]) + stk == stk;
    } else {
      PopFrame(m, Thread(after.pc, after.pos, u.arr), stk, r);
    }
    StepEvaluates(m, Run(u, rest), r);
    assert (Frames(us) + (frame + stk))[0] == Frame(SplitPoint, u);
    assert (Frames(us) + (frame + stk))[1..] == rest;
    StepEvaluates(m, Fail(Frames(us) + (frame + stk)), r);
  }

  lemma LeaveOwn(neg: bool, arr: seq<int>, after: Thread, stk: Stack)
    ensures LeaveLook(neg, arr, [Frame(PointKind(neg), after)] + stk) ==
            if neg then Fail(stk) else Run(Thread(after.pc, after.pos, arr), stk)
  {
    assert ([Frame(PointKind(neg), after)] + stk)[0] == Frame(PointKind(neg), after);
    assert ([Frame(PointKind(neg), after)] + stk)[1..] == stk;
  }
}
