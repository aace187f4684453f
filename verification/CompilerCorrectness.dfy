/**
  Compiling preserves meaning: the thread that enters the code of a pattern expands to
  one thread for each result of the pattern, in the same order, at the end of the code.
 */
module CompilerCorrectness {
  import opened Bytes
  import opened Bytecode
  import opened Subjects
  import opened Patterns
  import opened PatternSemantics
  import opened CodeGen
  import opened AtomAnalysis
  import opened SnapshotMachine
  import opened Expansion
  import opened Simulation
  import opened ThreadImages
  import opened PlainAtoms

  ghost function CodeSize(m: Prog, n: Node, lo: nat, back: bool, d: nat): nat
    requires Paired(n)
  {
    |Code(m.env.fold, n, lo, back, d, true)|
  }

  /** Code that has at most one result and does not touch the array. */
  lemma Leaf(m: Prog, x: State, arr: seq<int>, open: set<nat>, d: nat, end: int, ys: seq<State>) returns (ts: seq<Thread>)
    requires Shows(m, arr, x.caps, open) && (ys == [] || ys == [x.(e := ys[0].e)])
    ensures Images(m, ts, end, arr, open, d, ys)
    ensures ts == if ys == [] then [] else [Thread(end, Offset(m.subject, ys[0].e), arr)]
  {
    hide Shows, Image;
    if ys == [] {
      ts := [];
    } else {
      ImageSelf(m, x, ys[0], end, arr, open, d);
      ts := [Thread(end, Offset(m.subject, ys[0].e), arr)];
    }
  }

  lemma SimOneChar(m: Prog, n: Node, lo: nat, back: bool, d: nat, pc: nat, regs: nat, x: State, arr: seq<int>, open: set<nat>)
    returns (ts: seq<Thread>)
    requires n.OneChar()
    requires Placed(m, n, lo, back, d, pc, regs) && Entered(m, x, arr, lo, lo + Groups(n), open, regs)
    ensures Sound(m.env, x) && lo + Groups(n) <= |x.caps|
    ensures Images(m, ts, pc + CodeSize(m, n, lo, back, d), arr, open, d, Results(m.env, n, lo, back, x))
    ensures Expands(m, Thread(pc, Offset(m.subject, x.e), arr), ts)
  {
    hide At, Expands, Shows, Images, OneCharCode, Holds, Accepts, BackReference, AllAfter, Ready, Offset;
    EnteredMeans(m, x, arr, lo, lo + Groups(n), open, regs);
    ShowsSize(m, arr, x.caps, open);
    var end := pc + CodeSize(m, n, lo, back, d);
    ExpandsChar(m, n, back, pc, x, arr);
    ts := Leaf(m, x, arr, open, d, end, OneCharStep(m.env, n, back, x));
  }

  lemma SimLeaf(m: Prog, n: Node, lo: nat, back: bool, d: nat, pc: nat, regs: nat, x: State, arr: seq<int>, open: set<nat>)
    returns (ts: seq<Thread>)
    requires n.Assertion() || n.BackRef? || n.Empty?
    requires Placed(m, n, lo, back, d, pc, regs) && Entered(m, x, arr, lo, lo + Groups(n), open, regs)
    ensures Sound(m.env, x) && lo + Groups(n) <= |x.caps|
    ensures Images(m, ts, pc + CodeSize(m, n, lo, back, d), arr, open, d, Results(m.env, n, lo, back, x))
    ensures Expands(m, Thread(pc, Offset(m.subject, x.e), arr), ts)
  {
    hide At, Expands, Shows, Images, OneCharCode, Holds, Accepts, BackReference, AllAfter, Ready, Offset;
    EnteredMeans(m, x, arr, lo, lo + Groups(n), open, regs);
    ShowsSize(m, arr, x.caps, open);
    var end := pc + CodeSize(m, n, lo, back, d);
    if n.Assertion() {
      ExpandsAssertion(m, n, pc, x.e, arr);
      ts := Leaf(m, x, arr, open, d, end, if Holds(m.env, n, x.e) then [x] else []);
    } else if n.BackRef? {
      ExpandsBackRef(m, n.groups, n.icase, back, pc, x, arr, open);
      ts := Leaf(m, x, arr, open, d, end, BackReference(m.env, n.groups, n.icase, back, x));
    } else {
      ExpandsRefl(m, Thread(pc, Offset(m.subject, x.e), arr));
      ts := Leaf(m, x, arr, open, d, end, [x]);
    }
  }

  /** The captures lo..hi of a state are unset, and their groups are not open. */
  ghost predicate Fresh(y: State, lo: nat, hi: nat, open: set<nat>) {
    forall g :: lo <= g < hi && g < |y.caps| ==> g !in open && y.caps[g].Unset?
  }

  ghost predicate AllFresh(ys: seq<State>, lo: nat, hi: nat, open: set<nat>) {
    forall j :: 0 <= j < |ys| ==> Fresh(ys[j], lo, hi, open)
  }

  lemma FreshEntered(m: Prog, t: Thread, pc: int, from: seq<int>, open: set<nat>, d: nat, y: State, lo: nat, hi: nat, regs: nat)
    requires Image(m, t, pc, from, open, d, y) && Sound(m.env, y) && Fresh(y, lo, hi, open)
    requires lo <= hi <= m.groups && |from| == 2 * m.groups + regs
    ensures Entered(m, y, t.arr, lo, hi, open, regs)
  {
    hide Image, ShowsGroup;
    ImageMeans(m, t, pc, from, open, d, y);
  }

  lemma ImageKeeps(m: Prog, t: Thread, pc: int, from: seq<int>, open: set<nat>, d: nat, y: State)
    requires Image(m, t, pc, from, open, d, y)
    ensures Keeps(m, from, t.arr, open, d)
  {
  }

  /** One fragment run from each thread of a list. */
  lemma {:induction false} SimAll(m: Prog, n: Node, lo: nat, back: bool, d: nat, pc: nat, regs: nat, from: seq<int>,
                                  open: set<nat>, ts: seq<Thread>, ys: seq<State>, x: State, lo': nat, hi': nat)
    returns (us: seq<Thread>)
    requires Placed(m, n, lo, back, d, pc, regs)
    requires lo' <= lo && lo + Groups(n) <= hi' <= |x.caps| && AllAfter(m.env, x, ys, lo', hi', back)
    requires |from| == 2 * m.groups + regs
    requires Images(m, ts, pc, from, open, d, ys) && AllFresh(ys, lo, lo + Groups(n), open)
    ensures Images(m, us, pc + CodeSize(m, n, lo, back, d), from, open, d, BindAll(m.env, n, lo, back, x, lo', hi', ys))
    ensures ExpandsAll(m, ts, us)
    decreases n, 2 + |ts|
  {
    hide Expands, ExpandsAll, Results, Code, Placed, Images, Image, Shows, Keeps, Entered, Fresh;
    PlacedMeans(m, n, lo, back, d, pc, regs);
    var end := pc + CodeSize(m, n, lo, back, d);
    ImagesHead(m, ts, pc, from, open, d, ys);
    if ts == [] {
      us := [];
      ImagesNone(m, end, from, open, d);
      ExpandsSelf(m, []);
    } else {
      var t, y := ts[0], ys[0];
      assert y in ys;
      ImageMeans(m, t, pc, from, open, d, y);
      FreshEntered(m, t, pc, from, open, d, y, lo, lo + Groups(n), regs);
      var us1 := Sim(m, n, lo, back, d, pc, regs, y, t.arr, open);
      ImageKeeps(m, t, pc, from, open, d, y);
      ImagesFrom(m, us1, end, from, t.arr, open, d, d, Results(m.env, n, lo, back, y));
      var us2 := SimAll(m, n, lo, back, d, pc, regs, from, open, ts[1..], ys[1..], x, lo', hi');
      us := us1 + us2;
      ExpandsCons(m, t, ts[1..], us1, us2);
      assert [t] + ts[1..] == ts;
      ImagesAppend(m, us1, us2, end, from, open, d, Results(m.env, n, lo, back, y),
                   BindAll(m.env, n, lo, back, x, lo', hi', ys[1..]));
    }
  }

  lemma PlacedMeans(m: Prog, n: Node, lo: nat, back: bool, d: nat, pc: int, regs: nat)
    requires Placed(m, n, lo, back, d, pc, regs)
    ensures Ready(m) && Paired(n) && lo + Groups(n) <= m.groups && 0 <= pc
    ensures pc + CodeSize(m, n, lo, back, d) <= |m.code| < TWO31
  {
    hide Code, Valid;
  }

  /** The entry condition of the code of a pattern, and what is promised at its end. */
  lemma {:induction false} Sim(m: Prog, n: Node, lo: nat, back: bool, d: nat, pc: nat, regs: nat, x: State, arr: seq<int>,
                               open: set<nat>)
    returns (ts: seq<Thread>)
    requires Placed(m, n, lo, back, d, pc, regs) && Entered(m, x, arr, lo, lo + Groups(n), open, regs)
    ensures Sound(m.env, x) && lo + Groups(n) <= |x.caps|
    ensures Images(m, ts, pc + CodeSize(m, n, lo, back, d), arr, open, d, Results(m.env, n, lo, back, x))
    ensures Expands(m, Thread(pc, Offset(m.subject, x.e), arr), ts)
    decreases n, 1
  {
    hide Expands, Results, Code, Placed, Images, Entered;
    match n
    case Cat(_, _) => ts := SimCat(m, n, lo, back, d, pc, regs, x, arr, open);
    case Or(l, r) => ts := SimOr(m, l, r, lo, back, d, pc, regs, x, arr, open);
    case Group(b) => ts := SimGroup(m, b, lo, back, d, pc, regs, x, arr, open);
    case Look(neg, behind, b) => ts := SimLook(m, neg, behind, b, lo, back, d, pc, regs, x, arr, open);
    case Repeat(b, min, max, greedy) => ts := SimRepeat(m, b, min, max, greedy, lo, back, d, pc, regs, x, arr, open);
    case _ =>
      if n.OneChar() { ts := SimOneChar(m, n, lo, back, d, pc, regs, x, arr, open); }
      else { ts := SimLeaf(m, n, lo, back, d, pc, regs, x, arr, open); }
  }

  lemma {:induction false} SimCat(m: Prog, n: Node, lo: nat, back: bool, d: nat, pc: nat, regs: nat, x: State, arr: seq<int>,
                                  open: set<nat>)
    returns (ts: seq<Thread>)
    requires n.Cat? && Placed(m, n, lo, back, d, pc, regs) && Entered(m, x, arr, lo, lo + Groups(n), open, regs)
    ensures Sound(m.env, x) && lo + Groups(n) <= |x.caps| && Paired(n)
    ensures Images(m, ts, pc + CodeSize(m, n, lo, back, d), arr, open, d, Results(m.env, n, lo, back, x))
    ensures Expands(m, Thread(pc, Offset(m.subject, x.e), arr), ts)
    decreases n, 0
  {
    hide Expands, ExpandsAll, Results, Code, Placed, Images, Entered, Groups, FirstTerm, SecondTerm, FirstLo, SecondLo, Paired;
    hide AllAfter, AllFresh, Sound;
    var first, second := FirstTerm(n, back), SecondTerm(n, back);
    var flo, slo := FirstLo(n, lo, back), SecondLo(n, lo, back);
    EnteredMeans(m, x, arr, lo, lo + Groups(n), open, regs);
    PlacedCat(m, n, lo, back, d, pc, regs);
    TermGroups(n, lo, back);
    EnteredPart(m, x, arr, lo, lo + Groups(n), flo, flo + Groups(first), open, regs);
    TermSmaller(n, back);
    var ts1 := Sim(m, first, flo, back, d, pc, regs, x, arr, open);
    var ys := Results(m.env, first, flo, back, x);
    ResultsCat(m.env, n, lo, back, x);
    SecondFresh(m, n, lo, back, x, arr, ys, open, regs);
    ts := SimAll(m, second, slo, back, d, pc + CodeSize(m, first, flo, back, d), regs, arr, open, ts1, ys, x, lo, lo + Groups(n));
    Trans(m, Thread(pc, Offset(m.subject, x.e), arr), ts1, ts);
  }

  lemma TermSmaller(n: Node, back: bool)
    requires n.Cat?
    ensures FirstTerm(n, back) < n && SecondTerm(n, back) < n
  {
  }

  /** What the first term matches leaves the groups of the second untouched. */
  lemma SecondFresh(m: Prog, n: Node, lo: nat, back: bool, x: State, arr: seq<int>, ys: seq<State>, open: set<nat>, regs: nat)
    requires n.Cat? && Entered(m, x, arr, lo, lo + Groups(n), open, regs)
    requires var flo := FirstLo(n, lo, back); AllAfter(m.env, x, ys, flo, flo + Groups(FirstTerm(n, back)), back)
    ensures var slo := SecondLo(n, lo, back); AllFresh(ys, slo, slo + Groups(SecondTerm(n, back)), open)
  {
    hide Shows, Groups, FirstTerm, SecondTerm, FirstLo, SecondLo;
    TermGroups(n, lo, back);
    forall j | 0 <= j < |ys|
      ensures Fresh(ys[j], SecondLo(n, lo, back), SecondLo(n, lo, back) + Groups(SecondTerm(n, back)), open)
    {
      assert ys[j] in ys;
    }
  }

  // ----- alternatives -----

  lemma PlacedOr(m: Prog, l: Node, r: Node, lo: nat, back: bool, d: nat, pc: nat, regs: nat)
    requires Placed(m, Or(l, r), lo, back, d, pc, regs)
    ensures Paired(l) && Paired(r)
    ensures var cl, cr := CodeSize(m, l, lo, back, d), CodeSize(m, r, lo + Groups(l), back, d);
            && At(m.code, pc, Encode(Split(true, cl + 5)))
            && Placed(m, l, lo, back, d, pc + 5, regs)
            && At(m.code, pc + 5 + cl, Encode(Goto(cr)))
            && Placed(m, r, lo + Groups(l), back, d, pc + 5 + cl + 5, regs)
            && CodeSize(m, Or(l, r), lo, back, d) == 5 + cl + 5 + cr
            && cl < TWO31 - 5 && cr < TWO31
  {
    hide Ready, At, Encode, Code, Valid, OrCode, Groups, Registers;
    var cl := Code(m.env.fold, l, lo, back, d, true);
    var cr := Code(m.env.fold, r, lo + Groups(l), back, d, true);
    CodeOrIs(m.env.fold, l, r, lo, back, d, true);
    ValidOr(m.env.fold, l, r, m.groups, |m.env.input|);
    RegistersOr(l, r, back);
    PlacedMeans(m, Or(l, r), lo, back, d, pc, regs);
    OrParts(m.code, pc, cl, cr);
  }

  lemma ValidOr(fold: nat -> nat, l: Node, r: Node, groups: nat, len: nat)
    requires Valid(fold, Or(l, r), groups, len)
    ensures Valid(fold, l, groups, len) && Valid(fold, r, groups, len)
  {
  }

  lemma OrParts(p: seq<byte>, pc: nat, cl: seq<byte>, cr: seq<byte>)
    requires At(p, pc, OrCode(cl, cr))
    ensures |OrCode(cl, cr)| == 5 + |cl| + 5 + |cr|
    ensures At(p, pc, Encode(Split(true, |cl| + 5))) && At(p, pc + 5, cl)
    ensures At(p, pc + 5 + |cl|, Encode(Goto(|cr|))) && At(p, pc + 5 + |cl| + 5, cr)
  {
    hide At;
    var split, goto_ := Encode(Split(true, |cl| + 5)), Encode(Goto(|cr|));
    assert |split| == Bytecode.Size(Split(true, |cl| + 5)) && |goto_| == Bytecode.Size(Goto(|cr|));
    AtSplit(p, pc, split + cl + goto_, cr);
    AtSplit(p, pc, split + cl, goto_);
    AtSplit(p, pc, split, cl);
  }

  lemma {:induction false} SimOr(m: Prog, l: Node, r: Node, lo: nat, back: bool, d: nat, pc: nat, regs: nat, x: State,
                                 arr: seq<int>, open: set<nat>)
    returns (ts: seq<Thread>)
    requires Placed(m, Or(l, r), lo, back, d, pc, regs) && Entered(m, x, arr, lo, lo + Groups(Or(l, r)), open, regs)
    ensures Sound(m.env, x) && lo + Groups(Or(l, r)) <= |x.caps| && Paired(Or(l, r))
    ensures Images(m, ts, pc + CodeSize(m, Or(l, r), lo, back, d), arr, open, d, Results(m.env, Or(l, r), lo, back, x))
    ensures Expands(m, Thread(pc, Offset(m.subject, x.e), arr), ts)
    decreases Or(l, r), 0
  {
    hide Expands, ExpandsAll, Results, Code, Placed, Images, Entered, Act, At, Encode, AllAfter, Shows, Sound;
    var n, mid, hi := Or(l, r), lo + Groups(l), lo + Groups(Or(l, r));
    EnteredMeans(m, x, arr, lo, hi, open, regs);
    ShowsSize(m, arr, x.caps, open);
    PlacedMeans(m, n, lo, back, d, pc, regs);
    PlacedOr(m, l, r, lo, back, d, pc, regs);
    EnteredPart(m, x, arr, lo, hi, lo, mid, open, regs);
    EnteredPart(m, x, arr, lo, hi, mid, hi, open, regs);
    var cl, cr := CodeSize(m, l, lo, back, d), CodeSize(m, r, mid, back, d);
    var pos := Offset(m.subject, x.e);
    var t, t1, t2 := Thread(pc, pos, arr), Thread(pc + 5, pos, arr), Thread(pc + 5 + cl + 5, pos, arr);
    ActSplit(m, pc, true, cl + 5, pos, arr);
    ExpandsFork(m, t, t1, t2);
    var ts1 := Sim(m, l, lo, back, d, pc + 5, regs, x, arr, open);
    var ts2 := Sim(m, r, mid, back, d, pc + 5 + cl + 5, regs, x, arr, open);
    var ys1, ys2 := Results(m.env, l, lo, back, x), Results(m.env, r, mid, back, x);
    JumpAll(m, ts1, pc + 5 + cl, cr, arr, open, d, ys1);
    var us1 := AtPc(ts1, pc + 5 + cl + 5 + cr);
    ts := us1 + ts2;
    ImagesAppend(m, us1, ts2, pc + 5 + cl + 5 + cr, arr, open, d, ys1, ys2);
    ResultsOr(m.env, l, r, lo, back, x);
    Trans(m, t1, ts1, us1);
    ExpandsOne(m, t2, ts2);
    ExpandsCons(m, t1, [t2], us1, ts2);
    assert [t1] + [t2] == [t1, t2];
    Trans(m, t, [t1, t2], ts);
  }

  // ----- groups -----

  lemma {:induction false} SimGroup(m: Prog, b: Node, lo: nat, back: bool, d: nat, pc: nat, regs: nat, x: State,
                                    arr: seq<int>, open: set<nat>)
    returns (ts: seq<Thread>)
    requires Placed(m, Group(b), lo, back, d, pc, regs) && Entered(m, x, arr, lo, lo + Groups(Group(b)), open, regs)
    ensures Sound(m.env, x) && lo + Groups(Group(b)) <= |x.caps| && Paired(Group(b))
    ensures Images(m, ts, pc + CodeSize(m, Group(b), lo, back, d), arr, open, d, Results(m.env, Group(b), lo, back, x))
    ensures Expands(m, Thread(pc, Offset(m.subject, x.e), arr), ts)
    decreases Group(b), 0
  {
    hide Expands, ExpandsAll, Results, Code, Placed, Images, Entered, Act, At, Encode, AllAfter, Shows, Sound, Close;
    var n, hi := Group(b), lo + Groups(Group(b));
    EnteredMeans(m, x, arr, lo, hi, open, regs);
    EnteredOpen(m, x, arr, lo, hi, open, regs);
    PlacedMeans(m, n, lo, back, d, pc, regs);
    PlacedGroup(m, b, lo, back, d, pc, regs);
    var pos := Offset(m.subject, x.e);
    var t := Thread(pc, pos, arr);
    var arr1 := Marked(arr, lo, back, pos);
    var t1 := Thread(pc + 2, pos, arr1);
    ActSave(m, pc, back, lo, pos, arr);
    ExpandsGo(m, t, t1);
    OpenGroup(m, x, arr, lo, hi, open, regs, back, pos);
    var ts1 := Sim(m, b, lo + 1, back, d, pc + 2, regs, x, arr1, open + {lo});
    var ys := Results(m.env, b, lo + 1, back, x);
    ResultsGroup(m.env, b, lo, back, x);
    ts := SaveAll(m, ts1, ys, pc + 2 + CodeSize(m, b, lo + 1, back, d), lo, x.e, arr, open, d, back);
    Trans(m, t1, ts1, ts);
    Then(m, t, t1, ts);
  }

  lemma EnteredOpen(m: Prog, x: State, arr: seq<int>, lo: nat, hi: nat, open: set<nat>, regs: nat)
    requires Entered(m, x, arr, lo, hi, open, regs) && lo < hi
    ensures lo !in open
  {
  }

  /** The group is closed in every thread of the list. */
  lemma {:induction false} SaveAll(m: Prog, ts: seq<Thread>, ys: seq<State>, pc: nat, g: nat, e: nat, arr: seq<int>, open: set<nat>,
                                   d: nat, back: bool)
    returns (us: seq<Thread>)
    requires Ready(m) && g < m.groups && g !in open && 2 * m.groups <= |arr|
    requires Images(m, ts, pc, Marked(arr, g, back, Offset(m.subject, e)), open + {g}, d, ys)
    requires At(m.code, pc, Encode(Save(!back, g))) && forall y :: y in ys ==> g < |y.caps|
    ensures Images(m, us, pc + 2, arr, open, d, Close(ys, g, e, back))
    ensures ExpandsAll(m, ts, us)
    decreases |ts|
  {
    hide ExpandsAll, Expands, Images, Act, At, Encode, Shows, Image, CloseOne, Ready, Marked, Offset;
    var arr1 := Marked(arr, g, back, Offset(m.subject, e));
    ImagesHead(m, ts, pc, arr1, open + {g}, d, ys);
    if ts == [] {
      us := [];
      ImagesNone(m, pc + 2, arr, open, d);
      ExpandsSelf(m, []);
    } else {
      var t, y := ts[0], ys[0];
      ImageMeans(m, t, pc, arr1, open + {g}, d, y);
      CloseGroup(m, arr, t, pc, pc + 2, g, e, y, open, d, back);
      var u := Thread(pc + 2, t.pos, Marked(t.arr, g, !back, t.pos));
      assert Act(m, t) == Go(u) by { ActSaveMarked(m, t, pc, !back, g); }
      ExpandsGo(m, t, u);
      var us' := SaveAll(m, ts[1..], ys[1..], pc, g, e, arr, open, d, back);
      us := [u] + us';
      assert y in ys;
      ImagesOne(m, u, pc + 2, arr, open, d, CloseOne(y, g, e, back));
      ImagesAppend(m, [u], us', pc + 2, arr, open, d, [CloseOne(y, g, e, back)], Close(ys[1..], g, e, back));
      assert Close(ys, g, e, back) == [CloseOne(y, g, e, back)] + Close(ys[1..], g, e, back);
      ExpandsCons(m, t, ts[1..], [u], us');
      assert [t] + ts[1..] == ts;
    }
  }

  lemma ActSaveMarked(m: Prog, t: Thread, pc: nat, atEnd: bool, g: nat)
    requires Ready(m) && g < m.groups && t.pc == pc && t.pos <= |m.subject.units| && 2 * m.groups <= |t.arr|
    requires At(m.code, pc, Encode(Save(atEnd, g)))
    ensures Act(m, t) == Go(Thread(pc + 2, t.pos, Marked(t.arr, g, atEnd, t.pos)))
  {
    hide Act, At, Encode;
    ActSave(m, pc, atEnd, g, t.pos, t.arr);
    assert t == Thread(pc, t.pos, t.arr);
  }

  // ----- lookarounds -----

  lemma PlacedLook(m: Prog, neg: bool, behind: bool, b: Node, lo: nat, back: bool, d: nat, pc: nat, regs: nat)
    requires Placed(m, Node.Look(neg, behind, b), lo, back, d, pc, regs)
    ensures Paired(b)
    ensures var c := CodeSize(m, b, lo, behind, d);
            && At(m.code, pc, Encode(Instr.Look(neg, c + 1)))
            && Placed(m, b, lo, behind, d, pc + 5, regs)
            && At(m.code, pc + 5 + c, Encode(LookMatch(neg)))
            && CodeSize(m, Node.Look(neg, behind, b), lo, back, d) == 5 + c + 1
            && c + 1 < TWO31
  {
    hide Ready, At, Encode, Code, LookCode, Groups, Registers, Valid;
    var c := Code(m.env.fold, b, lo, behind, d, true);
    CodeLookIs(m.env.fold, neg, behind, b, lo, back, d, true);
    ValidLook(m.env.fold, neg, behind, b, m.groups, |m.env.input|);
    PlacedMeans(m, Node.Look(neg, behind, b), lo, back, d, pc, regs);
    LookParts(m.code, pc, neg, c);
  }

  lemma ValidLook(fold: nat -> nat, neg: bool, behind: bool, b: Node, groups: nat, len: nat)
    requires Valid(fold, Node.Look(neg, behind, b), groups, len)
    ensures Valid(fold, b, groups, len)
  {
  }

  lemma LookParts(p: seq<byte>, pc: nat, neg: bool, c: seq<byte>)
    requires At(p, pc, LookCode(neg, c))
    ensures |LookCode(neg, c)| == 5 + |c| + 1
    ensures At(p, pc, Encode(Instr.Look(neg, |c| + 1))) && At(p, pc + 5, c) && At(p, pc + 5 + |c|, Encode(LookMatch(neg)))
  {
    hide At, Encode;
    var enter, leave := Encode(Instr.Look(neg, |c| + 1)), Encode(LookMatch(neg));
    assert |enter| == Bytecode.Size(Instr.Look(neg, |c| + 1)) && |leave| == Bytecode.Size(LookMatch(neg));
    AtSplit(p, pc, enter + c, leave);
    AtSplit(p, pc, enter, c);
  }

  lemma {:induction false} SimLook(m: Prog, neg: bool, behind: bool, b: Node, lo: nat, back: bool, d: nat, pc: nat, regs: nat,
                                   x: State, arr: seq<int>, open: set<nat>)
    returns (ts: seq<Thread>)
    requires Placed(m, Node.Look(neg, behind, b), lo, back, d, pc, regs)
    requires Entered(m, x, arr, lo, lo + Groups(Node.Look(neg, behind, b)), open, regs)
    ensures Sound(m.env, x) && lo + Groups(Node.Look(neg, behind, b)) <= |x.caps| && Paired(Node.Look(neg, behind, b))
    ensures Images(m, ts, pc + CodeSize(m, Node.Look(neg, behind, b), lo, back, d), arr, open, d,
                   Results(m.env, Node.Look(neg, behind, b), lo, back, x))
    ensures Expands(m, Thread(pc, Offset(m.subject, x.e), arr), ts)
    decreases Node.Look(neg, behind, b), 0
  {
    hide Expands, ExpandsAll, Results, Code, Placed, Images, Entered, Act, At, Encode, AllAfter, Shows, Sound, Image, Ready, Offset;
    var n, hi := Node.Look(neg, behind, b), lo + Groups(b);
    EnteredMeans(m, x, arr, lo, hi, open, regs);
    ShowsSize(m, arr, x.caps, open);
    PlacedMeans(m, n, lo, back, d, pc, regs);
    PlacedLook(m, neg, behind, b, lo, back, d, pc, regs);
    var c := CodeSize(m, b, lo, behind, d);
    var pos, end := Offset(m.subject, x.e), pc + 5 + c + 1;
    var t, inner, after := Thread(pc, pos, arr), Thread(pc + 5, pos, arr), Thread(end, pos, arr);
    ActLook(m, pc, neg, c + 1, pos, arr);
    var us := Sim(m, b, lo, behind, d, pc + 5, regs, x, arr, open);
    var ys := Results(m.env, b, lo, behind, x);
    ImagesHead(m, us, pc + 5 + c, arr, open, d, ys);
    if us != [] {
      ImageMeans(m, us[0], pc + 5 + c, arr, open, d, ys[0]);
      ActLeave(m, pc + 5 + c, neg, us[0].pos, us[0].arr);
    }
    ExpandsEnter(m, t, neg, inner, after, us);
    ResultsLook(m.env, neg, behind, b, lo, back, x);
    ImagesNone(m, end, arr, open, d);
    ts := [];
    if neg && us == [] {
      ts := [after];
      ImageSelf(m, x, x, end, arr, open, d);
      ImagesOne(m, after, end, arr, open, d, x);
    } else if !neg && us != [] {
      ts := [Thread(end, pos, us[0].arr)];
      LookImage(m, us[0], pc + 5 + c, end, arr, open, d, ys[0], x.e);
      ImagesOne(m, ts[0], end, arr, open, d, State(x.e, ys[0].caps));
    }
  }

  lemma LookImage(m: Prog, t: Thread, pc: int, end: int, from: seq<int>, open: set<nat>, d: nat, y: State, e: nat)
    requires Image(m, t, pc, from, open, d, y)
    ensures Image(m, Thread(end, Offset(m.subject, e), t.arr), end, from, open, d, State(e, y.caps))
  {
  }

  // ----- one pass through the atom of a quantifier -----

  /** A pass may begin: the captures of the atom may be set, except those that nothing writes. */
  ghost predicate PassEntry(m: Prog, b: Node, lo: nat, x: State, arr: seq<int>, open: set<nat>, regs: nat) {
    && Sound(m.env, x)
    && lo + Groups(b) <= m.groups == |x.caps|
    && |arr| == 2 * m.groups + regs
    && Shows(m, arr, x.caps, open)
    && (forall g :: lo <= g < lo + Groups(b) ==> g !in open)
    && (Plain(b) ==> forall g: nat :: Dead(b, lo, g) && g < |x.caps| ==> x.caps[g].Unset?)
  }

  lemma EnteredPass(m: Prog, b: Node, lo: nat, x: State, arr: seq<int>, open: set<nat>, regs: nat)
    requires Entered(m, x, arr, lo, lo + Groups(b), open, regs)
    ensures PassEntry(m, b, lo, x, arr, open, regs)
  {
    forall g: nat | Dead(b, lo, g) && g < |x.caps| ensures x.caps[g].Unset? {
      DeadInside(b, lo, g);
    }
  }

  lemma PassMeans(m: Prog, b: Node, lo: nat, x: State, arr: seq<int>, open: set<nat>, regs: nat)
    requires PassEntry(m, b, lo, x, arr, open, regs)
    ensures Sound(m.env, x) && lo + Groups(b) <= m.groups == |x.caps| && |arr| == 2 * m.groups + regs
    ensures Shows(m, arr, x.caps, open)
    ensures forall g :: lo <= g < lo + Groups(b) ==> g !in open
  {
  }

  /** A register above the captures may be overwritten. */
  lemma PassWithRegister(m: Prog, b: Node, lo: nat, x: State, arr: seq<int>, open: set<nat>, regs: nat, r: nat, v: int)
    requires PassEntry(m, b, lo, x, arr, open, regs) && r < regs
    ensures PassEntry(m, b, lo, x, arr[2 * m.groups + r := v], open, regs)
    ensures Keeps(m, arr, arr[2 * m.groups + r := v], open, r)
  {
    var arr1 := arr[2 * m.groups + r := v];
    forall g | 0 <= g < m.groups ensures ShowsGroup(m, arr1, x.caps, open, g) {
      assert ShowsGroup(m, arr, x.caps, open, g);
    }
  }

  /** A result of a pass is again a state from which a pass may begin. */
  lemma PassNext(m: Prog, b: Node, lo: nat, back: bool, x: State, y: State, arr: seq<int>, t: Thread, pc: int,
                 open: set<nat>, d: nat, regs: nat)
    requires PassEntry(m, b, lo, x, arr, open, regs)
    requires Sound(m.env, Clear(x, lo, lo + Groups(b))) && y in Results(m.env, b, lo, back, Clear(x, lo, lo + Groups(b)))
    requires Image(m, t, pc, arr, open, d, y)
    ensures PassEntry(m, b, lo, y, t.arr, open, regs)
    ensures Distance(m.env, back, y.e) <= Distance(m.env, back, x.e)
    ensures y.e != x.e ==> Distance(m.env, back, y.e) < Distance(m.env, back, x.e)
  {
    hide Shows, Keeps, Results, Image;
    ImageMeans(m, t, pc, arr, open, d, y);
    var x' := Clear(x, lo, lo + Groups(b));
    if Plain(b) {
      forall g: nat | Dead(b, lo, g) && g < |y.caps| ensures y.caps[g].Unset? {
        DeadInside(b, lo, g);
        DeadKept(m.env, b, lo, back, x', y, g);
      }
    }
  }

  lemma LegalPlaced(m: Prog, b: Node, lo: nat, back: bool, d: nat, pc: int, regs: nat)
    requires Legal(m, b, lo, back, d, regs) && At(m.code, pc, Code(m.env.fold, b, lo, back, d, true))
    ensures Placed(m, b, lo, back, d, pc, regs)
  {
  }

  /** A pass gives the results of the atom after its captures have been forgotten. */
  lemma {:induction false} SimAtom(m: Prog, b: Node, lo: nat, back: bool, d: nat, pc: nat, regs: nat, x: State, arr: seq<int>,
                                   open: set<nat>)
    returns (ts: seq<Thread>)
    requires Legal(m, b, lo, back, d, regs) && PassEntry(m, b, lo, x, arr, open, regs)
    requires At(m.code, pc, AtomCode(b, lo, Code(m.env.fold, b, lo, back, d, true)))
    ensures Sound(m.env, Clear(x, lo, lo + Groups(b))) && lo + Groups(b) <= |x.caps|
    ensures Images(m, ts, pc + |AtomCode(b, lo, Code(m.env.fold, b, lo, back, d, true))|, arr, open, d,
                   Results(m.env, b, lo, back, Clear(x, lo, lo + Groups(b))))
    ensures Expands(m, Thread(pc, Offset(m.subject, x.e), arr), ts)
    decreases b, 2
  {
    hide At, Expands, Results, Code, Placed, Images, Entered, Act, Encode, Shows, Keeps, Sound, Legal;
    var hi := lo + Groups(b);
    LegalMeans(m, b, lo, back, d, regs);
    var body := Code(m.env.fold, b, lo, back, d, true);
    PassMeans(m, b, lo, x, arr, open, regs);
    ClearSound(m.env, x, lo, hi);
    var x' := Clear(x, lo, hi);
    var t := Thread(pc, Offset(m.subject, x.e), arr);
    if Plain(b) {
      assert [] + body == body;
      LegalPlaced(m, b, lo, back, d, pc, regs);
      ts := SimPlainPass(m, b, lo, back, d, pc, regs, x, arr, open);
    } else if Groups(b) == 0 {
      assert [] + body == body;
      LegalPlaced(m, b, lo, back, d, pc, regs);
      ClearIdle(x, lo, hi);
      PassEntered(m, b, lo, x, arr, open, regs);
      ts := Sim(m, b, lo, back, d, pc, regs, x, arr, open);
    } else {
      var reset := Encode(Reset(lo, hi - 1));
      assert |reset| == 3 by { assert |reset| == Bytecode.Size(Reset(lo, hi - 1)); }
      AtSplit(m.code, pc, reset, body);
      LegalPlaced(m, b, lo, back, d, pc + 3, regs);
      var arr1 := ResetSlots(arr, lo, hi - 1);
      var t1 := Thread(pc + 3, t.pos, arr1);
      ShowsSize(m, arr, x.caps, open);
      ActReset(m, pc, lo, hi, t.pos, arr);
      ExpandsGo(m, t, t1);
      ResetShows(m, x, arr, lo, hi, open);
      ResetKeeps(m, arr, lo, hi, open, d);
      ClearEntered(m, x, arr1, lo, hi, open, regs);
      ts := Sim(m, b, lo, back, d, pc + 3, regs, x', arr1, open);
      ImagesFrom(m, ts, pc + 3 + |body|, arr, arr1, open, d, d, Results(m.env, b, lo, back, x'));
      Then(m, t, t1, ts);
    }
  }

  lemma LegalMeans(m: Prog, b: Node, lo: nat, back: bool, d: nat, regs: nat)
    requires Legal(m, b, lo, back, d, regs)
    ensures Ready(m) && Paired(b) && lo + Groups(b) <= m.groups && d <= regs && d <= 255
  {
  }

  lemma PassEntered(m: Prog, b: Node, lo: nat, x: State, arr: seq<int>, open: set<nat>, regs: nat)
    requires PassEntry(m, b, lo, x, arr, open, regs) && Groups(b) == 0
    ensures Entered(m, x, arr, lo, lo + Groups(b), open, regs)
  {
  }

  lemma ClearEntered(m: Prog, x: State, arr: seq<int>, lo: nat, hi: nat, open: set<nat>, regs: nat)
    requires Shows(m, arr, Clear(x, lo, hi).caps, open) && Sound(m.env, Clear(x, lo, hi))
    requires |arr| == 2 * m.groups + regs && lo <= hi <= m.groups && forall g :: lo <= g < hi ==> g !in open
    ensures Entered(m, Clear(x, lo, hi), arr, lo, hi, open, regs)
  {
    hide ShowsGroup;
  }

  /** Without a reset, a plain atom still gives the results that it gives after one. */
  lemma SimPlainPass(m: Prog, b: Node, lo: nat, back: bool, d: nat, pc: nat, regs: nat, x: State, arr: seq<int>, open: set<nat>)
    returns (ts: seq<Thread>)
    requires Placed(m, b, lo, back, d, pc, regs) && PassEntry(m, b, lo, x, arr, open, regs) && Plain(b)
    ensures Sound(m.env, Clear(x, lo, lo + Groups(b))) && lo + Groups(b) <= |x.caps|
    ensures Images(m, ts, pc + CodeSize(m, b, lo, back, d), arr, open, d,
                   Results(m.env, b, lo, back, Clear(x, lo, lo + Groups(b))))
    ensures Expands(m, Thread(pc, Offset(m.subject, x.e), arr), ts)
  {
    hide At, Expands, Results, Code, Placed, Image, Shows, Keeps, Sound, Rewritten, PlainEntry, AllAfter;
    var hi := lo + Groups(b);
    PassMeans(m, b, lo, x, arr, open, regs);
    PlacedMeans(m, b, lo, back, d, pc, regs);
    ClearSound(m.env, x, lo, hi);
    var x' := Clear(x, lo, hi);
    PassPlainEntry(m, b, lo, x, arr, open, regs);
    var u := SimPlain(m, b, lo, back, d, pc, regs, x', arr);
    var ys := Results(m.env, b, lo, back, x');
    var end := pc + CodeSize(m, b, lo, back, d);
    if ys == [] {
      ts := [];
      ImagesNone(m, end, arr, open, d);
    } else {
      ts := [u];
      assert ys[0] in ys;
      PlainImage(m, b, lo, back, x, arr, open, regs, u, end, d, ys);
      ImagesOne(m, u, end, arr, open, d, ys[0]);
      assert ys == [ys[0]];
    }
  }

  lemma PassPlainEntry(m: Prog, b: Node, lo: nat, x: State, arr: seq<int>, open: set<nat>, regs: nat)
    requires PassEntry(m, b, lo, x, arr, open, regs) && Plain(b)
    ensures PlainEntry(m, b, lo, Clear(x, lo, lo + Groups(b)), arr, regs)
  {
    hide PassEntry, Dead, Plain, Sound, Shows;
    PassMeans(m, b, lo, x, arr, open, regs);
    ClearSound(m.env, x, lo, lo + Groups(b));
    forall g: nat | Dead(b, lo, g)
      ensures 2 * g + 1 < |arr| && arr[2 * g] == NULL && arr[2 * g + 1] == NULL
    {
      DeadSlots(m, b, lo, x, arr, open, regs, g);
    }
  }

  lemma DeadSlots(m: Prog, b: Node, lo: nat, x: State, arr: seq<int>, open: set<nat>, regs: nat, g: nat)
    requires PassEntry(m, b, lo, x, arr, open, regs) && Plain(b) && Dead(b, lo, g)
    ensures 2 * g + 1 < |arr| && arr[2 * g] == NULL && arr[2 * g + 1] == NULL
  {
    DeadInside(b, lo, g);
    assert ShowsGroup(m, arr, x.caps, open, g);
  }

  lemma PlainImage(m: Prog, b: Node, lo: nat, back: bool, x: State, arr: seq<int>, open: set<nat>, regs: nat, u: Thread,
                   end: int, d: nat, ys: seq<State>)
    requires PassEntry(m, b, lo, x, arr, open, regs) && ys != []
    requires AllAfter(m.env, Clear(x, lo, lo + Groups(b)), ys, lo, lo + Groups(b), back)
    requires u.pc == end && u.pos == Offset(m.subject, ys[0].e)
    requires Rewritten(m, arr, u.arr, lo, lo + Groups(b), ys[0].caps)
    ensures Image(m, u, end, arr, open, d, ys[0])
  {
    var hi, y := lo + Groups(b), ys[0];
    assert y in ys;
    forall g | 0 <= g < m.groups ensures ShowsGroup(m, u.arr, y.caps, open, g) {
      if lo <= g < hi {
        assert CaptureIs(m, u.arr, g, y.caps[g]);
      } else {
        assert ShowsGroup(m, arr, x.caps, open, g);
        assert u.arr[2 * g] == arr[2 * g] && u.arr[2 * g + 1] == arr[2 * g + 1];
      }
    }
  }

  // ----- the three kinds of loop -----

  /**
    Where a loop stands. `min` and `max` are those of the quantifier; the atom, the
    instruction after it and the end of the loop follow `pass`, the start of a pass.
   */
  datatype Site = Site(b: Node, lo: nat, back: bool, min: nat, max: Bound, greedy: bool, d: nat, regs: nat, pass: nat)

  ghost predicate ChecksAt(s: Site) {
    Checked(s.b, s.back, s.min, s.max)
  }

  /** The registers in use inside the atom. */
  ghost function Inner(s: Site): nat {
    s.d + LoopRegisters(s.b, s.back, s.min, s.max)
  }

  ghost function Atom(m: Prog, s: Site): seq<byte>
    requires Paired(s.b)
  {
    AtomCode(s.b, s.lo, Code(m.env.fold, s.b, s.lo, s.back, Inner(s), true))
  }

  ghost function AtomPc(s: Site): nat {
    s.pass + (if ChecksAt(s) then 2 else 0)
  }

  ghost function RestPc(m: Prog, s: Site): nat
    requires Paired(s.b)
  {
    AtomPc(s) + |Atom(m, s)|
  }

  ghost function Counter(m: Prog, s: Site): Instr
    requires Paired(s.b)
  {
    LoopInstr(RestPc(m, s) - s.pass, s.min, s.max, s.greedy, ChecksAt(s), s.d)
  }

  ghost function EndPc(m: Prog, s: Site): nat
    requires Paired(s.b)
  {
    match LayoutOf(s.b, s.back, s.min, s.max)
    case Star => RestPc(m, s) + (if ChecksAt(s) then 2 else 0) + (if s.max.Inf? then 5 else 0)
    case Plus => RestPc(m, s) + 5
    case _ => RestPc(m, s) + Bytecode.Size(Counter(m, s))
  }

  /** The instructions of the loop are where the layout says. */
  ghost predicate SitePlaced(m: Prog, s: Site) {
    && Legal(m, s.b, s.lo, s.back, Inner(s), s.regs)
    && Paired(s.b)
    && At(m.code, AtomPc(s), Atom(m, s))
    && (ChecksAt(s) ==> Inner(s) > 0 && At(m.code, s.pass, Encode(SetPos(Inner(s) - 1))))
    && EndPc(m, s) <= |m.code|
    && RestPlaced(m, s)
  }

  ghost predicate RestPlaced(m: Prog, s: Site)
    requires Paired(s.b)
  {
    var rest := RestPc(m, s);
    match LayoutOf(s.b, s.back, s.min, s.max)
    case Star =>
      var jump := rest + (if ChecksAt(s) then 2 else 0);
      && s.pass >= 5
      && At(m.code, s.pass - 5, Encode(Split(s.greedy, EndPc(m, s) - s.pass)))
      && (ChecksAt(s) ==> At(m.code, rest, Encode(CheckAdvance(Inner(s) - 1))))
      && (s.max.Inf? ==> At(m.code, jump, Encode(Goto(s.pass - 5 - (jump + 5)))))
    case Plus => At(m.code, rest, Encode(Split(!s.greedy, s.pass - (rest + 5))))
    case Dropped => false
    case _ =>
      && s.d < Inner(s)
      && 0 <= SiteLimit(s) && Limit(s.max) <= INT32_MAX
      && Fits(Counter(m, s)) && At(m.code, rest, Encode(Counter(m, s)))
  }

  ghost function SiteLimit(s: Site): int {
    Limit(s.max) - s.min
  }

  /**
    A pass begins with `mn` passes still required and `mx` allowed. A counted loop holds
    the number of passes left in register `d`; with no upper limit there is always at
    least one more left than required passes and characters together.
   */
  ghost predicate Counts(m: Prog, s: Site, mn: nat, mx: Bound, x: State, arr: seq<int>) {
    match LayoutOf(s.b, s.back, s.min, s.max)
    case Star => mn == 0 && mx == s.max
    case Plus => mn <= 1 && mx == Inf
    case _ =>
      && |arr| > 2 * m.groups + s.d
      && var count := arr[2 * m.groups + s.d];
         && 1 <= count <= Limit(s.max)
         && mn == (if count > SiteLimit(s) then count - SiteLimit(s) else 0)
         && mx == (if s.max.Inf? then Inf else Fin(count))
         && (s.max.Inf? ==> count > mn + Distance(m.env, s.back, x.e))
  }

  ghost function OneLess(mn: nat): nat {
    if mn > 0 then mn - 1 else 0
  }

  /** What follows a pass that ended in `y`, having begun in `x`. */
  ghost function Continue(m: Prog, s: Site, mn: nat, mx: Bound, x: State, y: State): seq<State>
    requires Sound(m.env, y) && s.lo + Groups(s.b) <= |y.caps|
  {
    if mn == 0 && y.e == x.e then []
    else RepeatFrom(m.env, s.b, s.lo, s.back, OneLess(mn), Less(mx), s.greedy, y)
  }

  ghost function Selected(mn: nat, x: State, ys: seq<State>): (zs: seq<State>)
    ensures forall z :: z in zs ==> z in ys && (mn == 0 ==> z.e != x.e)
  {
    if mn > 0 then ys else Moved(ys, x.e)
  }

  ghost function Reach(m: Prog, s: Site, mn: nat, x: State): int {
    if mn > 0 then |m.env.input| else Distance(m.env, s.back, x.e) - 1
  }

  ghost predicate FromPass(m: Prog, s: Site, x: State, ys: seq<State>)
    requires Sound(m.env, x) && s.lo + Groups(s.b) <= |x.caps|
  {
    var x' := Clear(x, s.lo, s.lo + Groups(s.b));
    Sound(m.env, x') && forall y :: y in ys ==> y in Results(m.env, s.b, s.lo, s.back, x')
  }

  /** What `RepeatAll` asks of the states it continues from. */
  lemma SelectedReach(m: Prog, s: Site, mn: nat, x: State, ys: seq<State>)
    requires Sound(m.env, x) && s.lo + Groups(s.b) <= |x.caps| && FromPass(m, s, x, ys)
    ensures AllAfter(m.env, x, Selected(mn, x, ys), s.lo, s.lo + Groups(s.b), s.back)
    ensures AllAfter(m.env, x, ys, s.lo, s.lo + Groups(s.b), s.back)
    ensures forall y :: y in Selected(mn, x, ys) ==> Distance(m.env, s.back, y.e) <= Reach(m, s, mn, x)
  {
    hide Results;
    var x' := Clear(x, s.lo, s.lo + Groups(s.b));
    forall y | y in ys ensures PatternSemantics.After(m.env, x, y, s.lo, s.lo + Groups(s.b), s.back) {
      assert PatternSemantics.After(m.env, x', y, s.lo, s.lo + Groups(s.b), s.back);
    }
  }

  ghost function Rest(m: Prog, s: Site, mn: nat, mx: Bound, x: State, ys: seq<State>): seq<State>
    requires Sound(m.env, x) && s.lo + Groups(s.b) <= |x.caps| && FromPass(m, s, x, ys)
  {
    SelectedReach(m, s, mn, x, ys);
    RepeatAll(m.env, s.b, s.lo, s.back, OneLess(mn), Less(mx), s.greedy, x, Selected(mn, x, ys), Reach(m, s, mn, x))
  }

  lemma RestStep(m: Prog, s: Site, mn: nat, mx: Bound, x: State, ys: seq<State>)
    requires Sound(m.env, x) && s.lo + Groups(s.b) <= |x.caps| && FromPass(m, s, x, ys) && ys != []
    ensures FromPass(m, s, x, ys[1..]) && Sound(m.env, ys[0]) && s.lo + Groups(s.b) <= |ys[0].caps|
    ensures Rest(m, s, mn, mx, x, ys) == Continue(m, s, mn, mx, x, ys[0]) + Rest(m, s, mn, mx, x, ys[1..])
  {
    hide Results, RepeatFrom, Sound;
    assert ys[0] in ys;
    SelectedReach(m, s, mn, x, ys);
    var zs := Selected(mn, x, ys);
    if mn == 0 && ys[0].e == x.e {
      assert zs == Selected(mn, x, ys[1..]);
    } else {
      assert zs[0] == ys[0] && zs[1..] == Selected(mn, x, ys[1..]);
    }
  }

  lemma IterateIsRest(m: Prog, s: Site, mn: nat, mx: Bound, x: State)
    requires Sound(m.env, x) && s.lo + Groups(s.b) <= |x.caps|
    ensures Sound(m.env, Clear(x, s.lo, s.lo + Groups(s.b)))
    ensures var ys := Results(m.env, s.b, s.lo, s.back, Clear(x, s.lo, s.lo + Groups(s.b)));
            FromPass(m, s, x, ys) &&
            Iterate(m.env, s.b, s.lo, s.back, mn, mx, s.greedy, x) == Rest(m, s, mn, mx, x, ys)
  {
    hide Results, RepeatAll, AllAfter;
    ClearSound(m.env, x, s.lo, s.lo + Groups(s.b));
    SelectedReach(m, s, mn, x, Results(m.env, s.b, s.lo, s.back, Clear(x, s.lo, s.lo + Groups(s.b))));
  }

  /** A choice between another pass and leaving the loop. */
  lemma JoinFork(m: Prog, t: Thread, again: Thread, out: Thread, greedy: bool, ts: seq<Thread>, end: int, from: seq<int>,
                 open: set<nat>, d: nat, zs: seq<State>, y: State)
    returns (us: seq<Thread>)
    requires Act(m, t) == if greedy then Fork(again, out) else Fork(out, again)
    requires Expands(m, again, ts) && Images(m, ts, end, from, open, d, zs) && Image(m, out, end, from, open, d, y)
    ensures Expands(m, t, us) && Images(m, us, end, from, open, d, if greedy then zs + [y] else [y] + zs)
  {
    hide Expands, ExpandsAll, Images, Image, Act;
    ImagesOne(m, out, end, from, open, d, y);
    ExpandsOne(m, again, ts);
    ExpandsSelf(m, [out]);
    if greedy {
      us := ts + [out];
      ExpandsFork(m, t, again, out);
      ExpandsAppend(m, [again], [out], ts, [out]);
      assert [again] + [out] == [again, out];
      Trans(m, t, [again, out], us);
      ImagesAppend(m, ts, [out], end, from, open, d, zs, [y]);
    } else {
      us := [out] + ts;
      ExpandsFork(m, t, out, again);
      ExpandsAppend(m, [out], [again], [out], ts);
      assert [out] + [again] == [out, again];
      Trans(m, t, [out, again], us);
      ImagesAppend(m, [out], ts, end, from, open, d, [y], zs);
    }
  }

  lemma SiteMeans(m: Prog, s: Site)
    requires SitePlaced(m, s)
    ensures Legal(m, s.b, s.lo, s.back, Inner(s), s.regs) && Ready(m) && Paired(s.b)
    ensures s.lo + Groups(s.b) <= m.groups && s.d <= Inner(s) <= s.regs && Inner(s) <= 255
    ensures At(m.code, AtomPc(s), Atom(m, s))
    ensures ChecksAt(s) ==> s.d < Inner(s) && At(m.code, s.pass, Encode(SetPos(Inner(s) - 1)))
    ensures RestPlaced(m, s) && s.pass <= RestPc(m, s) <= EndPc(m, s) <= |m.code| < TWO31
  {
    hide At, Valid, Encode, Registers;
  }

  /** Overwriting the register that holds the start of the pass does not disturb the count. */
  lemma CountsKept(m: Prog, s: Site, mn: nat, mx: Bound, x: State, arr: seq<int>, v: int)
    requires Counts(m, s, mn, mx, x, arr) && ChecksAt(s) && LayoutOf(s.b, s.back, s.min, s.max) != Dropped
    requires s.d < Inner(s) && 2 * m.groups + Inner(s) <= |arr|
    ensures Counts(m, s, mn, mx, x, arr[2 * m.groups + Inner(s) - 1 := v])
  {
  }

  lemma NotDropped(m: Prog, s: Site)
    requires SitePlaced(m, s)
    ensures LayoutOf(s.b, s.back, s.min, s.max) != Dropped
  {
  }

  /** A pass, and everything that may follow it. */
  lemma {:induction false} SimPass(m: Prog, s: Site, mn: nat, mx: Bound, x: State, arr: seq<int>, open: set<nat>)
    returns (ts: seq<Thread>)
    requires SitePlaced(m, s) && PassEntry(m, s.b, s.lo, x, arr, open, s.regs) && Counts(m, s, mn, mx, x, arr)
    requires mx != Fin(0)
    ensures Sound(m.env, x) && s.lo + Groups(s.b) <= |x.caps| && Paired(s.b)
    ensures Images(m, ts, EndPc(m, s), arr, open, s.d, Iterate(m.env, s.b, s.lo, s.back, mn, mx, s.greedy, x))
    ensures Expands(m, Thread(s.pass, Offset(m.subject, x.e), arr), ts)
    decreases s.b, mn + 3, Distance(m.env, s.back, x.e), 0
  {
    hide At, Expands, Results, Code, Images, Act, Encode, Shows, Keeps, Sound, Legal, SitePlaced, PassEntry, Counts;
    hide Iterate, Rest, RestPlaced, ChecksAt, Inner, EndPc, FromPass, AtomCode;
    SiteMeans(m, s);
    NotDropped(m, s);
    PassMeans(m, s.b, s.lo, x, arr, open, s.regs);
    IterateIsRest(m, s, mn, mx, x);
    var pos := Offset(m.subject, x.e);
    var t := Thread(s.pass, pos, arr);
    var arr1, t1 := arr, t;
    KeepsSelf(m, arr, open, s.d);
    if ChecksAt(s) {
      var r := Inner(s) - 1;
      arr1 := arr[2 * m.groups + r := pos];
      t1 := Thread(s.pass + 2, pos, arr1);
      ActSetPos(m, s.pass, r, pos, arr);
      ExpandsGo(m, t, t1);
      PassWithRegister(m, s.b, s.lo, x, arr, open, s.regs, r, pos);
      CountsKept(m, s, mn, mx, x, arr, pos);
      KeepsFewer(m, arr, arr1, open, s.d, r);
    } else {
      ExpandsRefl(m, t);
    }
    var ts1 := SimAtom(m, s.b, s.lo, s.back, Inner(s), AtomPc(s), s.regs, x, arr1, open);
    var ys := Results(m.env, s.b, s.lo, s.back, Clear(x, s.lo, s.lo + Groups(s.b)));
    ts := SimRest(m, s, mn, mx, x, arr1, open, ts1, ys);
    Trans(m, t1, ts1, ts);
    Then(m, t, t1, ts);
    ImagesFrom(m, ts, EndPc(m, s), arr, arr1, open, s.d, s.d, Rest(m, s, mn, mx, x, ys));
  }

  lemma KeepsFewer(m: Prog, a: seq<int>, b: seq<int>, open: set<nat>, d: nat, d': nat)
    requires Keeps(m, a, b, open, d') && d <= d'
    ensures Keeps(m, a, b, open, d)
  {
  }

  /** The threads at the end of a pass, one after the other. */
  lemma {:induction false} SimRest(m: Prog, s: Site, mn: nat, mx: Bound, x: State, arr: seq<int>, open: set<nat>,
                                   ts: seq<Thread>, ys: seq<State>)
    returns (us: seq<Thread>)
    requires SitePlaced(m, s) && PassEntry(m, s.b, s.lo, x, arr, open, s.regs) && Counts(m, s, mn, mx, x, arr)
    requires mx != Fin(0)
    requires Sound(m.env, x) && s.lo + Groups(s.b) <= |x.caps| && FromPass(m, s, x, ys) && Paired(s.b)
    requires Images(m, ts, RestPc(m, s), arr, open, Inner(s), ys)
    requires ChecksAt(s) ==> 0 < Inner(s) && 2 * m.groups + Inner(s) <= |arr|
                             && arr[2 * m.groups + Inner(s) - 1] == Offset(m.subject, x.e)
    ensures Images(m, us, EndPc(m, s), arr, open, s.d, Rest(m, s, mn, mx, x, ys))
    ensures ExpandsAll(m, ts, us)
    decreases s.b, OneLess(mn) + 3, Reach(m, s, mn, x), 4 + |ts|
  {
    hide Expands, ExpandsAll, Results, Code, Images, Image, Act, Shows, Keeps, Sound, SitePlaced, PassEntry, Counts;
    hide Rest, ChecksAt, Inner, EndPc, FromPass, RestPc, Reach;
    ImagesHead(m, ts, RestPc(m, s), arr, open, Inner(s), ys);
    if ts == [] {
      us := [];
      RestNone(m, s, mn, mx, x, ys);
      ImagesNone(m, EndPc(m, s), arr, open, s.d);
      ExpandsSelf(m, []);
    } else {
      RestStep(m, s, mn, mx, x, ys);
      FromPassHead(m, s, x, ys);
      var us1 := SimOne(m, s, mn, mx, x, arr, open, ts[0], ys[0]);
      var us2 := SimRest(m, s, mn, mx, x, arr, open, ts[1..], ys[1..]);
      us := us1 + us2;
      ExpandsCons(m, ts[0], ts[1..], us1, us2);
      assert [ts[0]] + ts[1..] == ts;
      ImagesAppend(m, us1, us2, EndPc(m, s), arr, open, s.d, Continue(m, s, mn, mx, x, ys[0]), Rest(m, s, mn, mx, x, ys[1..]));
    }
  }

  lemma RestNone(m: Prog, s: Site, mn: nat, mx: Bound, x: State, ys: seq<State>)
    requires Sound(m.env, x) && s.lo + Groups(s.b) <= |x.caps| && FromPass(m, s, x, ys) && ys == []
    ensures Rest(m, s, mn, mx, x, ys) == []
  {
  }

  lemma FromPassHead(m: Prog, s: Site, x: State, ys: seq<State>)
    requires Sound(m.env, x) && s.lo + Groups(s.b) <= |x.caps| && FromPass(m, s, x, ys) && ys != []
    ensures FromPass(m, s, x, [ys[0]])
  {
    hide Results;
    assert ys[0] in ys;
  }

  /** A thread at the end of a pass: it goes on, gives up, or leaves the loop. */
  lemma {:induction false} SimOne(m: Prog, s: Site, mn: nat, mx: Bound, x: State, arr: seq<int>, open: set<nat>, t: Thread, y: State)
    returns (us: seq<Thread>)
    requires SitePlaced(m, s) && PassEntry(m, s.b, s.lo, x, arr, open, s.regs) && Counts(m, s, mn, mx, x, arr)
    requires mx != Fin(0)
    requires Sound(m.env, x) && s.lo + Groups(s.b) <= |x.caps| && FromPass(m, s, x, [y]) && Paired(s.b)
    requires Image(m, t, RestPc(m, s), arr, open, Inner(s), y)
    requires ChecksAt(s) ==> 0 < Inner(s) && 2 * m.groups + Inner(s) <= |arr|
                             && arr[2 * m.groups + Inner(s) - 1] == Offset(m.subject, x.e)
    ensures Sound(m.env, y) && s.lo + Groups(s.b) <= |y.caps|
    ensures Images(m, us, EndPc(m, s), arr, open, s.d, Continue(m, s, mn, mx, x, y))
    ensures Expands(m, t, us)
    decreases s.b, OneLess(mn) + 3, Reach(m, s, mn, x), 3
  {
    hide At, Expands, Results, Code, Images, Image, Act, Encode, Shows, Keeps, Sound, Legal, SitePlaced, PassEntry, Counts;
    hide RestPlaced, ChecksAt, Inner, EndPc, RestPc, Reach, Continue, FromPass;
    NotDropped(m, s);
    FromPassSound(m, s, x, y);
    PassMeans(m, s.b, s.lo, x, arr, open, s.regs);
    FromPassNext(m, s, mn, x, y, arr, open, t);
    assert PassEnd(m, s, mn, mx, x, arr, open, t, y);
    if LayoutOf(s.b, s.back, s.min, s.max).Star? {
      us := SimOneStar(m, s, mn, mx, x, arr, open, t, y);
    } else if LayoutOf(s.b, s.back, s.min, s.max).Plus? {
      us := SimOnePlus(m, s, mn, mx, x, arr, open, t, y);
    } else {
      us := SimOneCounted(m, s, mn, mx, x, arr, open, t, y);
    }
    ImageKeeps(m, t, RestPc(m, s), arr, open, Inner(s), y);
    SiteDepth(s);
    KeepsFewer(m, arr, t.arr, open, s.d, Inner(s));
    ImagesFrom(m, us, EndPc(m, s), arr, t.arr, open, s.d, s.d, Continue(m, s, mn, mx, x, y));
  }

  lemma SiteDepth(s: Site)
    ensures s.d <= Inner(s)
  {
  }

  lemma FromPassSound(m: Prog, s: Site, x: State, y: State)
    requires Sound(m.env, x) && s.lo + Groups(s.b) <= |x.caps| && FromPass(m, s, x, [y])
    ensures Sound(m.env, Clear(x, s.lo, s.lo + Groups(s.b)))
    ensures y in Results(m.env, s.b, s.lo, s.back, Clear(x, s.lo, s.lo + Groups(s.b)))
    ensures Sound(m.env, y) && |y.caps| == |x.caps|
  {
    hide Results;
    assert y in [y];
  }

  /** The end of a pass is within reach: either the pass is not counted or it has moved. */
  lemma FromPassNext(m: Prog, s: Site, mn: nat, x: State, y: State, arr: seq<int>, open: set<nat>, t: Thread)
    requires PassEntry(m, s.b, s.lo, x, arr, open, s.regs) && Paired(s.b)
    requires Sound(m.env, x) && s.lo + Groups(s.b) <= |x.caps| && FromPass(m, s, x, [y])
    requires Image(m, t, RestPc(m, s), arr, open, Inner(s), y)
    ensures PassEntry(m, s.b, s.lo, y, t.arr, open, s.regs)
    ensures mn == 0 && y.e != x.e ==> Distance(m.env, s.back, y.e) <= Reach(m, s, mn, x)
    ensures mn > 0 ==> Distance(m.env, s.back, y.e) <= Reach(m, s, mn, x)
    ensures Distance(m.env, s.back, y.e) <= Distance(m.env, s.back, x.e)
    ensures y.e != x.e ==> Distance(m.env, s.back, y.e) < Distance(m.env, s.back, x.e)
  {
    hide Results, Image, PassEntry, RestPc, Inner;
    FromPassSound(m, s, x, y);
    PassNext(m, s.b, s.lo, s.back, x, y, arr, t, RestPc(m, s), open, Inner(s), s.regs);
  }

  /** Without a check at run time, a pass that is not required has moved all the same. */
  lemma UncheckedMoves(m: Prog, s: Site, mn: nat, mx: Bound, x: State, y: State, arr: seq<int>)
    requires !ChecksAt(s) && mn == 0 && Counts(m, s, mn, mx, x, arr)
    requires Sound(m.env, x) && s.lo + Groups(s.b) <= |x.caps| && FromPass(m, s, x, [y])
    requires LayoutOf(s.b, s.back, s.min, s.max) != Dropped
    ensures y.e != x.e
  {
    hide Results, Sound;
    FromPassSound(m, s, x, y);
    assert Advances(s.b, s.back);
    AdvancesSound(m.env, s.b, s.lo, s.back, Clear(x, s.lo, s.lo + Groups(s.b)));
  }

  /** The state of a thread at the end of a pass. */
  ghost predicate PassEnd(m: Prog, s: Site, mn: nat, mx: Bound, x: State, arr: seq<int>, open: set<nat>, t: Thread, y: State)
    requires Paired(s.b)
  {
    && SitePlaced(m, s)
    && Counts(m, s, mn, mx, x, arr)
    && mx != Fin(0)
    && Sound(m.env, x) && s.lo + Groups(s.b) <= |x.caps|
    && FromPass(m, s, x, [y])
    && Image(m, t, RestPc(m, s), arr, open, Inner(s), y)
    && PassEntry(m, s.b, s.lo, y, t.arr, open, s.regs)
    && (ChecksAt(s) ==> 0 < Inner(s) && 2 * m.groups + Inner(s) <= |arr|
                        && arr[2 * m.groups + Inner(s) - 1] == Offset(m.subject, x.e))
    && (mn > 0 || y.e != x.e ==> Distance(m.env, s.back, y.e) <= Reach(m, s, mn, x))
    && Distance(m.env, s.back, y.e) <= Distance(m.env, s.back, x.e)
    && (y.e != x.e ==> Distance(m.env, s.back, y.e) < Distance(m.env, s.back, x.e))
  }

  /** The position register of a checked loop still holds the start of the pass. */
  lemma PosRegister(m: Prog, s: Site, arr: seq<int>, open: set<nat>, t: Thread, x: State, y: State)
    requires Paired(s.b) && ChecksAt(s) && 0 < Inner(s) && 2 * m.groups + Inner(s) <= |arr|
    requires Image(m, t, RestPc(m, s), arr, open, Inner(s), y) && Ready(m)
    requires arr[2 * m.groups + Inner(s) - 1] == Offset(m.subject, x.e)
    requires x.e <= |m.env.input| && y.e <= |m.env.input|
    ensures 2 * m.groups + Inner(s) <= |t.arr|
    ensures t.arr[2 * m.groups + Inner(s) - 1] == t.pos <==> y.e == x.e
  {
    hide Shows;
    OffsetOrder(m.subject, x.e, y.e);
  }

  lemma EndMeans(m: Prog, s: Site, mn: nat, mx: Bound, x: State, arr: seq<int>, open: set<nat>, t: Thread, y: State)
    requires Paired(s.b) && PassEnd(m, s, mn, mx, x, arr, open, t, y)
    ensures SitePlaced(m, s) && RestPlaced(m, s) && Ready(m)
    ensures s.pass <= RestPc(m, s) <= EndPc(m, s) <= |m.code| < TWO31 && s.d <= Inner(s) <= s.regs && Inner(s) <= 255
    ensures Sound(m.env, y) && s.lo + Groups(s.b) <= |y.caps| && Shows(m, t.arr, y.caps, open)
    ensures t == Thread(RestPc(m, s), Offset(m.subject, y.e), t.arr) && |t.arr| == 2 * m.groups + s.regs == |arr|
    ensures PassEntry(m, s.b, s.lo, y, t.arr, open, s.regs)
    ensures mn > 0 || y.e != x.e ==> Distance(m.env, s.back, y.e) <= Reach(m, s, mn, x)
    ensures 0 <= Distance(m.env, s.back, y.e) <= Distance(m.env, s.back, x.e)
    ensures y.e != x.e ==> Distance(m.env, s.back, y.e) < Distance(m.env, s.back, x.e)
    ensures ChecksAt(s) ==> s.d < Inner(s) && (t.arr[2 * m.groups + Inner(s) - 1] == t.pos <==> y.e == x.e)
    ensures !ChecksAt(s) && mn == 0 && LayoutOf(s.b, s.back, s.min, s.max) != Dropped ==> y.e != x.e
    ensures Image(m, Thread(EndPc(m, s), t.pos, t.arr), EndPc(m, s), t.arr, open, s.d, y)
  {
    hide At, Results, Code, Image, Encode, Shows, Keeps, Sound, Legal, SitePlaced, PassEntry, Counts, RestPlaced, ChecksAt;
    hide Inner, EndPc, RestPc, Reach, FromPass;
    SiteMeans(m, s);
    FromPassSound(m, s, x, y);
    PassMeans(m, s.b, s.lo, y, t.arr, open, s.regs);
    ImageMeans(m, t, RestPc(m, s), arr, open, Inner(s), y);
    SoundMeans(m.env, x);
    SoundMeans(m.env, y);
    if ChecksAt(s) {
      PosRegister(m, s, arr, open, t, x, y);
    } else if mn == 0 && LayoutOf(s.b, s.back, s.min, s.max) != Dropped {
      UncheckedMoves(m, s, mn, mx, x, y, arr);
    }
    ImageSelf(m, y, y, EndPc(m, s), t.arr, open, s.d);
  }

  lemma SoundMeans(env: Env, x: State)
    requires Sound(env, x)
    ensures x.e <= |env.input|
  {
  }

  /** What may follow a pass of an unbounded or optional quantifier, spelled out. */
  lemma RepeatFromZero(m: Prog, s: Site, mx: Bound, y: State)
    requires Sound(m.env, y) && s.lo + Groups(s.b) <= |y.caps|
    ensures RepeatFrom(m.env, s.b, s.lo, s.back, 0, mx, s.greedy, y) ==
            if mx == Fin(0) then [y]
            else
              var it := Iterate(m.env, s.b, s.lo, s.back, 0, mx, s.greedy, y);
              if s.greedy then it + [y] else [y] + it
  {
    hide Iterate, Sound;
  }

  lemma {:induction false} SimOneStar(m: Prog, s: Site, mn: nat, mx: Bound, x: State, arr: seq<int>, open: set<nat>, t: Thread, y: State)
    returns (us: seq<Thread>)
    requires Paired(s.b) && LayoutOf(s.b, s.back, s.min, s.max).Star? && PassEnd(m, s, mn, mx, x, arr, open, t, y)
    ensures Sound(m.env, y) && s.lo + Groups(s.b) <= |y.caps|
    ensures Images(m, us, EndPc(m, s), t.arr, open, s.d, Continue(m, s, mn, mx, x, y))
    ensures Expands(m, t, us)
    decreases s.b, OneLess(mn) + 3, Reach(m, s, mn, x), 2
  {
    hide At, Expands, Results, Code, Images, Image, Act, Encode, Shows, Keeps, Sound, Legal, SitePlaced, PassEntry;
    hide ChecksAt, Inner, RestPc, Reach, FromPass, RepeatFrom, Iterate;
    EndMeans(m, s, mn, mx, x, arr, open, t, y);
    ImagesNone(m, EndPc(m, s), t.arr, open, s.d);
    var t1 := t;
    ExpandsRefl(m, t);
    if ChecksAt(s) {
      ActCheckAdvance(m, t.pc, Inner(s) - 1, t.pos, t.arr);
      t1 := t.(pc := t.pc + 2);
      if y.e == x.e { ExpandsDie(m, t); } else { ExpandsGo(m, t, t1); }
    }
    if y.e == x.e {
      us := [];
    } else {
      if s.max.Inf? {
        ActGoto(m, t1.pc, s.pass - 5 - (t1.pc + 5), t1.pos, t1.arr);
        var split := t1.(pc := s.pass - 5);
        ExpandsGo(m, t1, split);
        us := SimSplit(m, s, y, t.arr, open, split);
        Then(m, t1, split, us);
      } else {
        ExpandsRefl(m, t1);
        us := [t1];
        ImagesOne(m, t1, EndPc(m, s), t.arr, open, s.d, y);
        RepeatFromZero(m, s, Fin(0), y);
      }
      Then(m, t, t1, us);
    }
  }

  /** The split in front of an optional atom. */
  lemma {:induction false} SimSplit(m: Prog, s: Site, y: State, arr: seq<int>, open: set<nat>, t: Thread) returns (us: seq<Thread>)
    requires Paired(s.b) && LayoutOf(s.b, s.back, s.min, s.max).Star? && SitePlaced(m, s) && s.max != Fin(0)
    requires PassEntry(m, s.b, s.lo, y, arr, open, s.regs) && s.pass >= 5
    requires t == Thread(s.pass - 5, Offset(m.subject, y.e), arr)
    ensures Sound(m.env, y) && s.lo + Groups(s.b) <= |y.caps|
    ensures Images(m, us, EndPc(m, s), arr, open, s.d, RepeatFrom(m.env, s.b, s.lo, s.back, 0, s.max, s.greedy, y))
    ensures Expands(m, t, us)
    decreases s.b, 3, Distance(m.env, s.back, y.e), 1
  {
    hide At, Expands, Results, Code, Images, Image, Act, Encode, Shows, Keeps, Sound, Legal, SitePlaced, PassEntry;
    hide ChecksAt, Inner, RestPc, Reach, FromPass, RepeatFrom, Iterate, EndPc;
    SiteMeans(m, s);
    PassMeans(m, s.b, s.lo, y, arr, open, s.regs);
    var again, out := t.(pc := s.pass), t.(pc := EndPc(m, s));
    ActSplit(m, s.pass - 5, s.greedy, EndPc(m, s) - s.pass, t.pos, arr);
    var ts := SimPass(m, s, 0, s.max, y, arr, open);
    ImageSelf(m, y, y, EndPc(m, s), arr, open, s.d);
    us := JoinFork(m, t, again, out, s.greedy, ts, EndPc(m, s), arr, open, s.d,
                   Iterate(m.env, s.b, s.lo, s.back, 0, s.max, s.greedy, y), y);
    RepeatFromZero(m, s, s.max, y);
  }

  lemma {:induction false} SimOnePlus(m: Prog, s: Site, mn: nat, mx: Bound, x: State, arr: seq<int>, open: set<nat>, t: Thread, y: State)
    returns (us: seq<Thread>)
    requires Paired(s.b) && LayoutOf(s.b, s.back, s.min, s.max).Plus? && PassEnd(m, s, mn, mx, x, arr, open, t, y)
    ensures Sound(m.env, y) && s.lo + Groups(s.b) <= |y.caps|
    ensures Images(m, us, EndPc(m, s), t.arr, open, s.d, Continue(m, s, mn, mx, x, y))
    ensures Expands(m, t, us)
    decreases s.b, OneLess(mn) + 3, Reach(m, s, mn, x), 2
  {
    hide At, Expands, Results, Code, Images, Image, Act, Encode, Shows, Keeps, Sound, Legal, SitePlaced, PassEntry;
    hide Inner, RestPc, Reach, FromPass, RepeatFrom, Iterate;
    EndMeans(m, s, mn, mx, x, arr, open, t, y);
    var end := EndPc(m, s);
    var again, out := t.(pc := s.pass), t.(pc := end);
    ActSplit(m, t.pc, !s.greedy, s.pass - (t.pc + 5), t.pos, t.arr);
    var ts := SimPass(m, s, 0, Inf, y, t.arr, open);
    us := JoinFork(m, t, again, out, s.greedy, ts, end, t.arr, open, s.d,
                   Iterate(m.env, s.b, s.lo, s.back, 0, Inf, s.greedy, y), y);
    RepeatFromZero(m, s, Inf, y);
  }

  lemma {:induction false} SimOneCounted(m: Prog, s: Site, mn: nat, mx: Bound, x: State, arr: seq<int>, open: set<nat>, t: Thread, y: State)
    returns (us: seq<Thread>)
    requires Paired(s.b) && PassEnd(m, s, mn, mx, x, arr, open, t, y)
    requires LayoutOf(s.b, s.back, s.min, s.max).Counted0? || LayoutOf(s.b, s.back, s.min, s.max).Counted?
    ensures Sound(m.env, y) && s.lo + Groups(s.b) <= |y.caps|
    ensures Images(m, us, EndPc(m, s), t.arr, open, s.d, Continue(m, s, mn, mx, x, y))
    ensures Expands(m, t, us)
    decreases s.b, OneLess(mn) + 3, Reach(m, s, mn, x), 2
  {
    hide At, Expands, Results, Code, Images, Image, Act, Encode, Shows, Keeps, Sound, Legal, SitePlaced, PassEntry, PassEnd;
    hide ChecksAt, Inner, RestPc, Reach, FromPass, RepeatFrom, Iterate, RestPlaced, EndPc, Counts, SiteLimit, Limit, LayoutOf;
    EndMeans(m, s, mn, mx, x, arr, open, t, y);
    CounterAct(m, s, mn, mx, x, arr, open, t, y);
    CountedCases(m, s, mn, mx, x, arr, open, t, y);
    var count := t.arr[2 * m.groups + s.d] - 1;
    var arr2 := t.arr[2 * m.groups + s.d := count];
    var end := EndPc(m, s);
    var again, out := Thread(s.pass, t.pos, arr2), Thread(end, t.pos, arr2);
    PassWithRegister(m, s.b, s.lo, y, t.arr, open, s.regs, s.d, count);
    PassMeans(m, s.b, s.lo, y, arr2, open, s.regs);
    if count > SiteLimit(s) {
      us := SimPass(m, s, mn - 1, Less(mx), y, arr2, open);
      ExpandsGo(m, t, again);
      Then(m, t, again, us);
      RepeatFromMore(m, s, mn - 1, Less(mx), y);
    } else if mn == 0 && y.e == x.e {
      us := [];
      ExpandsDie(m, t);
      ImagesNone(m, end, arr2, open, s.d);
    } else {
      ImageSelf(m, y, y, end, arr2, open, s.d);
      RepeatFromZero(m, s, Less(mx), y);
      if count == 0 {
        us := [out];
        ExpandsGo(m, t, out);
        ImagesOne(m, out, end, arr2, open, s.d, y);
      } else {
        var ts := SimPass(m, s, 0, Less(mx), y, arr2, open);
        us := JoinFork(m, t, again, out, s.greedy, ts, end, arr2, open, s.d,
                       Iterate(m.env, s.b, s.lo, s.back, 0, Less(mx), s.greedy, y), y);
      }
    }
    ImagesFrom(m, us, end, t.arr, arr2, open, s.d, s.d, Continue(m, s, mn, mx, x, y));
  }

  lemma RepeatFromMore(m: Prog, s: Site, mn: nat, mx: Bound, y: State)
    requires Sound(m.env, y) && s.lo + Groups(s.b) <= |y.caps| && mn > 0 && mx != Fin(0)
    ensures RepeatFrom(m.env, s.b, s.lo, s.back, mn, mx, s.greedy, y) == Iterate(m.env, s.b, s.lo, s.back, mn, mx, s.greedy, y)
  {
    hide Iterate, Sound;
  }

  /** The instruction that ends a counted pass, in terms of the count. */
  lemma CounterAct(m: Prog, s: Site, mn: nat, mx: Bound, x: State, arr: seq<int>, open: set<nat>, t: Thread, y: State)
    requires Paired(s.b) && PassEnd(m, s, mn, mx, x, arr, open, t, y)
    requires LayoutOf(s.b, s.back, s.min, s.max).Counted0? || LayoutOf(s.b, s.back, s.min, s.max).Counted?
    ensures 2 * m.groups + s.d < |t.arr| == |arr| && t.arr[2 * m.groups + s.d] == arr[2 * m.groups + s.d]
    ensures 0 <= t.arr[2 * m.groups + s.d] - 1 && t.pos == Offset(m.subject, y.e) && s.d < s.regs
    ensures var count := t.arr[2 * m.groups + s.d] - 1;
            var arr2 := t.arr[2 * m.groups + s.d := count];
            var again, out := Thread(s.pass, t.pos, arr2), Thread(EndPc(m, s), t.pos, arr2);
            Act(m, t) ==
            if count > SiteLimit(s) then Go(again)
            else if ChecksAt(s) && y.e == x.e && count != SiteLimit(s) then Die
            else if count == 0 then Go(out)
            else if s.greedy then Fork(again, out) else Fork(out, again)
  {
    hide At, Results, Code, Image, Act, Encode, Shows, Keeps, Sound, Legal, SitePlaced, PassEntry, RestPc, FromPass, Fits, Advances;
    EndMeans(m, s, mn, mx, x, arr, open, t, y);
    ImageMeans(m, t, RestPc(m, s), arr, open, Inner(s), y);
    ActLoop(m, t.pc, Counter(m, s), t.pos, t.arr);
  }

  /** The count after the pass agrees with what the semantics still requires and allows. */
  lemma CountedCases(m: Prog, s: Site, mn: nat, mx: Bound, x: State, arr: seq<int>, open: set<nat>, t: Thread, y: State)
    requires Paired(s.b) && PassEnd(m, s, mn, mx, x, arr, open, t, y)
    requires LayoutOf(s.b, s.back, s.min, s.max).Counted0? || LayoutOf(s.b, s.back, s.min, s.max).Counted?
    ensures 2 * m.groups + s.d < |t.arr| && 0 <= t.arr[2 * m.groups + s.d] - 1
    ensures var count := t.arr[2 * m.groups + s.d] - 1;
            var arr2 := t.arr[2 * m.groups + s.d := count];
            if count > SiteLimit(s) then
              mn > 1 && Counts(m, s, mn - 1, Less(mx), y, arr2) && Less(mx) != Fin(0)
            else
              && mn <= 1
              && (count == SiteLimit(s) ==> mn == 1)
              && (count != SiteLimit(s) ==> mn == 0)
              && (mn == 0 && y.e == x.e ==> ChecksAt(s))
              && (mn == 1 || y.e != x.e ==>
                    if count == 0 then Less(mx) == Fin(0) else Counts(m, s, 0, Less(mx), y, arr2) && Less(mx) != Fin(0))
  {
    hide At, Results, Code, Image, Act, Encode, Shows, Keeps, Sound, Legal, SitePlaced, PassEntry, RestPc, FromPass, Fits, Advances;
    hide ChecksAt, Reach, Inner, EndPc;
    EndMeans(m, s, mn, mx, x, arr, open, t, y);
    ImageMeans(m, t, RestPc(m, s), arr, open, Inner(s), y);
  }

  // ----- where the parts of a quantifier are placed -----

  lemma StarParts(p: seq<byte>, pc: nat, a: seq<byte>, loops: bool, greedy: bool, check: bool, r: nat)
    requires At(p, pc, StarCode(a, loops, greedy, check, r))
    ensures var k := if check then 2 else 0;
            var end := pc + 5 + k + |a| + k + (if loops then 5 else 0);
            && |StarCode(a, loops, greedy, check, r)| == end - pc
            && At(p, pc, Encode(Split(greedy, end - (pc + 5))))
            && At(p, pc + 5 + k, a)
            && (check ==> At(p, pc + 5, Encode(SetPos(r))) && At(p, pc + 5 + k + |a|, Encode(CheckAdvance(r))))
            && (loops ==> At(p, pc + 5 + k + |a| + k, Encode(Goto(pc - end))))
  {
    hide At, Encode;
    var inner := SetPosCode(check, r) + a + CheckCode(check, r);
    var split := Encode(Split(greedy, |inner| + (if loops then 5 else 0)));
    var goto_ := if loops then Encode(Goto(-(5 + |inner| + 5))) else [];
    assert |split| == Bytecode.Size(Split(greedy, |inner| + (if loops then 5 else 0)));
    assert loops ==> |goto_| == Bytecode.Size(Goto(-(5 + |inner| + 5)));
    AtSplit(p, pc, split + inner, goto_);
    AtSplit(p, pc, split, inner);
    AtSplit(p, pc + 5, SetPosCode(check, r) + a, CheckCode(check, r));
    AtSplit(p, pc + 5, SetPosCode(check, r), a);
  }

  lemma CountedParts(p: seq<byte>, pc: nat, a: seq<byte>, min: nat, max: Bound, greedy: bool, check: bool, r: nat, r': nat)
    requires At(p, pc, CountedCode(a, min, max, greedy, check, r, r'))
    ensures var k := if check then 2 else 0;
            var i := LoopInstr(k + |a|, min, max, greedy, check, r);
            && |CountedCode(a, min, max, greedy, check, r, r')| == 6 + k + |a| + Bytecode.Size(i)
            && At(p, pc, Encode(SetI32(r, Limit(max))))
            && (check ==> At(p, pc + 6, Encode(SetPos(r'))))
            && At(p, pc + 6 + k, a)
            && At(p, pc + 6 + k + |a|, Encode(i))
  {
    hide At, Encode;
    var inner := SetPosCode(check, r') + a;
    var i := LoopInstr(|inner|, min, max, greedy, check, r);
    var set_ := Encode(SetI32(r, Limit(max)));
    assert |set_| == Bytecode.Size(SetI32(r, Limit(max))) && |Encode(i)| == Bytecode.Size(i);
    AtSplit(p, pc, set_, inner + Encode(i));
    AtSplit(p, pc + 6, inner, Encode(i));
    AtSplit(p, pc + 6, SetPosCode(check, r'), a);
  }

  /** What the compiler accepts of a quantifier that is not dropped. */
  ghost predicate RepeatLegal(m: Prog, b: Node, min: nat, max: Bound, lo: nat, back: bool, d: nat, regs: nat) {
    && Legal(m, b, lo, back, d + LoopRegisters(b, back, min, max), regs)
    && (match max case Inf => min + |m.env.input| < INT32_MAX case Fin(n) => min <= n < INT32_MAX)
    && max != Fin(0)
  }

  lemma PlacedRepeat(m: Prog, b: Node, min: nat, max: Bound, greedy: bool, lo: nat, back: bool, d: nat, pc: nat, regs: nat)
    requires Placed(m, Repeat(b, min, max, greedy), lo, back, d, pc, regs)
    ensures Paired(b) && Ready(m)
    ensures max != Fin(0) ==> RepeatLegal(m, b, min, max, lo, back, d, regs)
    ensures max == Fin(0) ==> min == 0
    ensures var body := Code(m.env.fold, b, lo, back, d + LoopRegisters(b, back, min, max), true);
            At(m.code, pc, RepeatCode(b, lo, back, min, max, greedy, d, true, body))
  {
    hide At, Code, Ready, RepeatCode, LoopRegisters;
    CodeRepeatIs(m.env.fold, Repeat(b, min, max, greedy), lo, back, d, true);
  }

  lemma StarPlaced(m: Prog, s: Site, pc: nat)
    requires RepeatLegal(m, s.b, s.min, s.max, s.lo, s.back, s.d, s.regs) && Paired(s.b)
    requires LayoutOf(s.b, s.back, s.min, s.max).Star? && s.pass == pc + 5
    requires At(m.code, pc, StarCode(Atom(m, s), s.max.Inf?, s.greedy, ChecksAt(s), s.d))
    ensures SitePlaced(m, s) && EndPc(m, s) == pc + |StarCode(Atom(m, s), s.max.Inf?, s.greedy, ChecksAt(s), s.d)|
  {
    hide Code, Ready, Encode, Valid, AtomCode, Advances, StarCode;
    StarParts(m.code, pc, Atom(m, s), s.max.Inf?, s.greedy, ChecksAt(s), s.d);
  }

  lemma PlusPlaced(m: Prog, s: Site, pc: nat)
    requires RepeatLegal(m, s.b, s.min, s.max, s.lo, s.back, s.d, s.regs) && Paired(s.b)
    requires LayoutOf(s.b, s.back, s.min, s.max).Plus? && s.pass == pc
    requires At(m.code, pc, Atom(m, s) + Encode(Split(!s.greedy, -(|Atom(m, s)| + 5))))
    ensures SitePlaced(m, s) && EndPc(m, s) == pc + |Atom(m, s)| + 5
  {
    hide Code, Ready, Encode, Valid, AtomCode;
    assert |Encode(Split(!s.greedy, -(|Atom(m, s)| + 5)))| == Bytecode.Size(Split(!s.greedy, -(|Atom(m, s)| + 5)));
    AtSplit(m.code, pc, Atom(m, s), Encode(Split(!s.greedy, -(|Atom(m, s)| + 5))));
  }

  lemma CountedPlaced(m: Prog, s: Site, pc: nat)
    requires RepeatLegal(m, s.b, s.min, s.max, s.lo, s.back, s.d, s.regs) && Paired(s.b)
    requires LayoutOf(s.b, s.back, s.min, s.max).Counted0? || LayoutOf(s.b, s.back, s.min, s.max).Counted?
    requires s.pass == pc + 6
    requires At(m.code, pc, CountedCode(Atom(m, s), s.min, s.max, s.greedy, ChecksAt(s), s.d, s.d + 1))
    ensures SitePlaced(m, s)
    ensures EndPc(m, s) == pc + |CountedCode(Atom(m, s), s.min, s.max, s.greedy, ChecksAt(s), s.d, s.d + 1)|
    ensures At(m.code, pc, Encode(SetI32(s.d, Limit(s.max)))) && s.d < s.regs && s.d < 255
  {
    hide Code, Encode, Valid, AtomCode, Advances, CountedCode;
    CountedParts(m.code, pc, Atom(m, s), s.min, s.max, s.greedy, ChecksAt(s), s.d, s.d + 1);
    CounterFits(m, s);
  }

  lemma CounterFits(m: Prog, s: Site)
    requires RepeatLegal(m, s.b, s.min, s.max, s.lo, s.back, s.d, s.regs) && Paired(s.b)
    requires s.d < Inner(s) <= s.regs && s.pass <= RestPc(m, s) <= |m.code| - Bytecode.Size(Counter(m, s))
    ensures Fits(Counter(m, s)) && 0 <= SiteLimit(s) && Limit(s.max) <= INT32_MAX
  {
    hide Code, AtomCode, Advances, RestPc, ChecksAt;
  }

  // ----- quantifiers as a whole -----

  lemma {:induction false} SimRepeat(m: Prog, b: Node, min: nat, max: Bound, greedy: bool, lo: nat, back: bool, d: nat, pc: nat,
                                     regs: nat, x: State, arr: seq<int>, open: set<nat>)
    returns (ts: seq<Thread>)
    requires Placed(m, Repeat(b, min, max, greedy), lo, back, d, pc, regs)
    requires Entered(m, x, arr, lo, lo + Groups(Repeat(b, min, max, greedy)), open, regs)
    ensures Sound(m.env, x) && lo + Groups(Repeat(b, min, max, greedy)) <= |x.caps| && Paired(Repeat(b, min, max, greedy))
    ensures Images(m, ts, pc + CodeSize(m, Repeat(b, min, max, greedy), lo, back, d), arr, open, d,
                   Results(m.env, Repeat(b, min, max, greedy), lo, back, x))
    ensures Expands(m, Thread(pc, Offset(m.subject, x.e), arr), ts)
    decreases Repeat(b, min, max, greedy), 0
  {
    hide At, Expands, Results, Code, Images, Act, Encode, Shows, Keeps, Sound, Legal, Entered, RepeatFrom, Placed, PassEntry;
    hide RepeatLegal, Ready, AtomCode, StarCode, CountedCode, SitePlaced, EndPc, Advances;
    var n, hi := Repeat(b, min, max, greedy), lo + Groups(b);
    EnteredMeans(m, x, arr, lo, hi, open, regs);
    PlacedMeans(m, n, lo, back, d, pc, regs);
    PlacedRepeat(m, b, min, max, greedy, lo, back, d, pc, regs);
    CodeRepeatIs(m.env.fold, Repeat(b, min, max, greedy), lo, back, d, true);
    ResultsRepeat(m.env, b, min, max, greedy, lo, back, x);
    EnteredPass(m, b, lo, x, arr, open, regs);
    var site := Site(b, lo, back, min, max, greedy, d, regs, pc);
    if LayoutOf(b, back, min, max).Plus? {
      PlusPlaced(m, site, pc);
      var split := Split(!greedy, -(|Atom(m, site)| + 5));
      assert |Encode(split)| == Bytecode.Size(split);
      ts := SimPass(m, site, 1, Inf, x, arr, open);
      RepeatFromMore(m, site, 1, Inf, x);
    } else if LayoutOf(b, back, min, max).Counted? {
      ts := SimCounted(m, site.(pass := pc + 6), x, arr, open);
      RepeatFromMore(m, site, min, max, x);
    } else {
      ts := SimWithPre(m, site, x, arr, open);
    }
  }

  lemma {:induction false} SimWithPre(m: Prog, s: Site, x: State, arr: seq<int>, open: set<nat>) returns (ts: seq<Thread>)
    requires Ready(m) && Paired(s.b) && s.min == 0
    requires s.max != Fin(0) ==> RepeatLegal(m, s.b, s.min, s.max, s.lo, s.back, s.d, s.regs)
    requires var l := LayoutOf(s.b, s.back, s.min, s.max); l.Dropped? || l.Star? || l.Counted0?
    requires Entered(m, x, arr, s.lo, s.lo + Groups(s.b), open, s.regs)
    requires At(m.code, s.pass, WholeRepeat(m, s))
    ensures Sound(m.env, x) && s.lo + Groups(s.b) <= |x.caps|
    ensures Images(m, ts, s.pass + |WholeRepeat(m, s)|, arr, open, s.d,
                   RepeatFrom(m.env, s.b, s.lo, s.back, s.min, s.max, s.greedy, x))
    ensures Expands(m, Thread(s.pass, Offset(m.subject, x.e), arr), ts)
    decreases s.b, 3, Distance(m.env, s.back, x.e), 4
  {
    hide At, Expands, Results, Code, Images, Act, Encode, Shows, Keeps, Sound, Legal, Entered, RepeatFrom, PassEntry;
    hide RepeatLegal, Ready, AfterPre, WholeRepeat, LayoutOf;
    EnteredMeans(m, x, arr, s.lo, s.lo + Groups(s.b), open, s.regs);
    EnteredPass(m, s.b, s.lo, x, arr, open, s.regs);
    var pre, rest := PreCode(s.b, s.lo), AfterPre(m, s);
    WholeIsPre(m, s);
    AtSplit(m.code, s.pass, pre, rest);
    SkipPre(m, s.b, s.lo, s.pass, x, arr, open, s.regs);
    ts := SimAfterPre(m, s, s.pass + |pre|, x, arr, open);
    Then(m, Thread(s.pass, Offset(m.subject, x.e), arr), Thread(s.pass + |pre|, Offset(m.subject, x.e), arr), ts);
  }

  ghost function WholeRepeat(m: Prog, s: Site): seq<byte>
    requires Paired(s.b)
  {
    RepeatCode(s.b, s.lo, s.back, s.min, s.max, s.greedy, s.d, true, Code(m.env.fold, s.b, s.lo, s.back, Inner(s), true))
  }

  lemma WholeIsPre(m: Prog, s: Site)
    requires Paired(s.b)
    requires var l := LayoutOf(s.b, s.back, s.min, s.max); l.Dropped? || l.Star? || l.Counted0?
    ensures WholeRepeat(m, s) == PreCode(s.b, s.lo) + AfterPre(m, s)
  {
    hide Code, Encode, PreCode, AtomCode, StarCode, CountedCode, Checked, LoopRegisters;
  }

  /** The code of a quantifier after the reset that may stand in front of it. */
  ghost function AfterPre(m: Prog, s: Site): seq<byte>
    requires Paired(s.b)
  {
    var loop := CountedCode(Atom(m, s), s.min, s.max, s.greedy, ChecksAt(s), s.d, s.d + 1);
    match LayoutOf(s.b, s.back, s.min, s.max)
    case Star => StarCode(Atom(m, s), s.max.Inf?, s.greedy, ChecksAt(s), s.d)
    case Counted0 => Encode(Split(s.greedy, |loop|)) + loop
    case _ => []
  }

  /** The reset in front of a quantifier finds nothing to reset. */
  lemma SkipPre(m: Prog, b: Node, lo: nat, pc: nat, x: State, arr: seq<int>, open: set<nat>, regs: nat)
    requires Ready(m) && At(m.code, pc, PreCode(b, lo)) && Entered(m, x, arr, lo, lo + Groups(b), open, regs)
    ensures Expands(m, Thread(pc, Offset(m.subject, x.e), arr), [Thread(pc + |PreCode(b, lo)|, Offset(m.subject, x.e), arr)])
  {
    hide At, Expands, Encode, Shows, Act, Plain, Ready;
    var t := Thread(pc, Offset(m.subject, x.e), arr);
    EnteredMeans(m, x, arr, lo, lo + Groups(b), open, regs);
    if Plain(b) && Groups(b) > 0 {
      assert |Encode(Reset(lo, lo + Groups(b) - 1))| == Bytecode.Size(Reset(lo, lo + Groups(b) - 1));
      ActReset(m, pc, lo, lo + Groups(b), t.pos, arr);
      ResetIdle(m, x, arr, lo, lo + Groups(b), open, regs);
      ExpandsGo(m, t, t.(pc := pc + 3));
    } else {
      ExpandsRefl(m, t);
    }
  }

  lemma {:induction false} SimAfterPre(m: Prog, s: Site, pc: nat, x: State, arr: seq<int>, open: set<nat>) returns (ts: seq<Thread>)
    requires Ready(m) && Paired(s.b) && At(m.code, pc, AfterPre(m, s)) && s.min == 0
    requires s.max != Fin(0) ==> RepeatLegal(m, s.b, s.min, s.max, s.lo, s.back, s.d, s.regs)
    requires var l := LayoutOf(s.b, s.back, s.min, s.max); l.Dropped? || l.Star? || l.Counted0?
    requires PassEntry(m, s.b, s.lo, x, arr, open, s.regs)
    ensures Sound(m.env, x) && s.lo + Groups(s.b) <= |x.caps|
    ensures Images(m, ts, pc + |AfterPre(m, s)|, arr, open, s.d,
                   RepeatFrom(m.env, s.b, s.lo, s.back, s.min, s.max, s.greedy, x))
    ensures Expands(m, Thread(pc, Offset(m.subject, x.e), arr), ts)
    decreases s.b, 3, Distance(m.env, s.back, x.e), 3
  {
    hide At, Expands, Results, Code, Images, Act, Encode, Shows, Keeps, Sound, Legal, PassEntry, Iterate, Image;
    hide RepeatLegal, Ready, AtomCode, CountedCode, StarCode, SitePlaced, EndPc, ChecksAt, Atom;
    PassMeans(m, s.b, s.lo, x, arr, open, s.regs);
    var t := Thread(pc, Offset(m.subject, x.e), arr);
    var layout := LayoutOf(s.b, s.back, s.min, s.max);
    if layout.Star? {
      var site := s.(pass := pc + 5);
      SameSite(m, s, site);
      StarPlaced(m, site, pc);
      ts := SimSplit(m, site, x, arr, open, t);
    } else if layout.Counted0? {
      ts := SimCounted0(m, s, pc, x, arr, open);
    } else {
      RepeatFromZero(m, s, s.max, x);
      ImageSelf(m, x, x, pc, arr, open, s.d);
      ts := [t];
      ExpandsRefl(m, t);
      ImagesOne(m, t, pc, arr, open, s.d, x);
    }
  }

  /** The code of the atom does not depend on where the loop stands. */
  lemma SameSite(m: Prog, s: Site, s': Site)
    requires Paired(s.b) && s' == s.(pass := s'.pass)
    ensures Atom(m, s') == Atom(m, s) && ChecksAt(s') == ChecksAt(s) && Inner(s') == Inner(s)
  {
  }

  lemma {:induction false} SimCounted0(m: Prog, s: Site, pc: nat, x: State, arr: seq<int>, open: set<nat>) returns (ts: seq<Thread>)
    requires Ready(m) && Paired(s.b) && At(m.code, pc, AfterPre(m, s)) && s.min == 0
    requires RepeatLegal(m, s.b, s.min, s.max, s.lo, s.back, s.d, s.regs)
    requires LayoutOf(s.b, s.back, s.min, s.max).Counted0?
    requires PassEntry(m, s.b, s.lo, x, arr, open, s.regs)
    ensures Sound(m.env, x) && s.lo + Groups(s.b) <= |x.caps|
    ensures Images(m, ts, pc + |AfterPre(m, s)|, arr, open, s.d,
                   RepeatFrom(m.env, s.b, s.lo, s.back, s.min, s.max, s.greedy, x))
    ensures Expands(m, Thread(pc, Offset(m.subject, x.e), arr), ts)
    decreases s.b, 3, Distance(m.env, s.back, x.e), 2
  {
    hide At, Expands, Results, Code, Images, Act, Encode, Shows, Keeps, Sound, Legal, PassEntry, Iterate, Image;
    hide RepeatLegal, AtomCode, CountedCode, StarCode, SitePlaced, EndPc, ChecksAt, Atom, LayoutOf, RepeatFrom;
    PassMeans(m, s.b, s.lo, x, arr, open, s.regs);
    LimitFits(m, s, x);
    var loop := CountedCode(Atom(m, s), s.min, s.max, s.greedy, ChecksAt(s), s.d, s.d + 1);
    var split := Encode(Split(s.greedy, |loop|));
    var site := s.(pass := pc + 11);
    var end := pc + 5 + |loop|;
    SameSite(m, s, site);
    assert |split| == Bytecode.Size(Split(s.greedy, |loop|));
    AtSplit(m.code, pc, split, loop);
    AtFits(m, pc + 5, loop);
    var t := Thread(pc, Offset(m.subject, x.e), arr);
    var again, out := t.(pc := pc + 5), t.(pc := end);
    ActSplit(m, pc, s.greedy, |loop|, t.pos, arr);
    var us := SimCounted(m, site, x, arr, open);
    ImageSelf(m, x, x, end, arr, open, s.d);
    ts := JoinFork(m, t, again, out, s.greedy, us, end, arr, open, s.d,
                   Iterate(m.env, s.b, s.lo, s.back, 0, s.max, s.greedy, x), x);
    RepeatFromZero(m, s, s.max, x);
  }

  lemma AtFits(m: Prog, pc: nat, bs: seq<byte>)
    requires Ready(m) && At(m.code, pc, bs)
    ensures pc + |bs| < TWO31
  {
  }

  /** A counted quantifier whose atom is entered at once. */
  lemma {:induction false} SimCounted(m: Prog, s: Site, x: State, arr: seq<int>, open: set<nat>) returns (ts: seq<Thread>)
    requires RepeatLegal(m, s.b, s.min, s.max, s.lo, s.back, s.d, s.regs) && Ready(m) && Paired(s.b) && s.pass >= 6
    requires LayoutOf(s.b, s.back, s.min, s.max).Counted0? || LayoutOf(s.b, s.back, s.min, s.max).Counted?
    requires At(m.code, s.pass - 6, CountedCode(Atom(m, s), s.min, s.max, s.greedy, ChecksAt(s), s.d, s.d + 1))
    requires PassEntry(m, s.b, s.lo, x, arr, open, s.regs)
    ensures Sound(m.env, x) && s.lo + Groups(s.b) <= |x.caps|
    ensures Images(m, ts, s.pass - 6 + |CountedCode(Atom(m, s), s.min, s.max, s.greedy, ChecksAt(s), s.d, s.d + 1)|,
                   arr, open, s.d, Iterate(m.env, s.b, s.lo, s.back, s.min, s.max, s.greedy, x))
    ensures Expands(m, Thread(s.pass - 6, Offset(m.subject, x.e), arr), ts)
    decreases s.b, s.min + 3, Distance(m.env, s.back, x.e), 1
  {
    hide At, Expands, Results, Code, Images, Act, Encode, Shows, Keeps, Sound, Legal, PassEntry, Iterate;
    hide RepeatLegal, Ready, AtomCode, CountedCode, SitePlaced, EndPc, ChecksAt, Atom, Counts;
    PassMeans(m, s.b, s.lo, x, arr, open, s.regs);
    CountedPlaced(m, s, s.pass - 6);
    LimitFits(m, s, x);
    var t := Thread(s.pass - 6, Offset(m.subject, x.e), arr);
    var arr1 := arr[2 * m.groups + s.d := Limit(s.max)];
    var t1 := Thread(s.pass, t.pos, arr1);
    ActSetI32(m, s.pass - 6, s.d, Limit(s.max), t.pos, arr);
    ExpandsGo(m, t, t1);
    PassWithRegister(m, s.b, s.lo, x, arr, open, s.regs, s.d, Limit(s.max));
    CountsStart(m, s, x, arr1);
    ts := SimPass(m, s, s.min, s.max, x, arr1, open);
    Then(m, t, t1, ts);
    ImagesFrom(m, ts, EndPc(m, s), arr, arr1, open, s.d, s.d, Iterate(m.env, s.b, s.lo, s.back, s.min, s.max, s.greedy, x));
  }

  lemma LimitFits(m: Prog, s: Site, x: State)
    requires RepeatLegal(m, s.b, s.min, s.max, s.lo, s.back, s.d, s.regs)
    ensures 0 < Limit(s.max) < TWO31 && s.max != Fin(0)
  {
  }

  lemma CountsStart(m: Prog, s: Site, x: State, arr: seq<int>)
    requires RepeatLegal(m, s.b, s.min, s.max, s.lo, s.back, s.d, s.regs) && Sound(m.env, x)
    requires LayoutOf(s.b, s.back, s.min, s.max).Counted0? || LayoutOf(s.b, s.back, s.min, s.max).Counted?
    requires |arr| > 2 * m.groups + s.d && arr[2 * m.groups + s.d] == Limit(s.max)
    ensures Counts(m, s, s.min, s.max, x, arr)
  {
    hide Legal, Advances;
  }
}
