/**
  Straight-line code run from an array that may still hold captures of an earlier pass:
  it gives the result that it gives after a reset, because it rewrites those captures.
 */
module PlainAtoms {
  import opened Bytes
  import opened Bytecode
  import opened Subjects
  import opened Patterns
  import opened PatternSemantics
  import opened CodeGen
  import opened AtomAnalysis
  import opened SnapshotMachine
  import opened Expansion
  import opened Simulation

  /** Groups whose code is dropped, because they stand under a quantifier {0}: nothing ever writes them. */
  ghost predicate Dead(n: Node, lo: nat, g: nat) {
    match n
    case Cat(l, r) => Dead(l, lo, g) || Dead(r, lo + Groups(l), g)
    case Group(b) => Dead(b, lo + 1, g)
    case Repeat(b, _, _, _) => !Plain(b) && lo <= g < lo + Groups(b)
    case _ => false
  }

  lemma {:induction false} DeadInside(n: Node, lo: nat, g: nat)
    requires Dead(n, lo, g)
    ensures lo <= g < lo + Groups(n)
  {
    match n
    case Cat(l, r) => if Dead(l, lo, g) { DeadInside(l, lo, g); } else { DeadInside(r, lo + Groups(l), g); }
    case Group(b) => DeadInside(b, lo + 1, g);
    case _ =>
  }

  /** A pass through a plain atom leaves the captures of dead groups alone. */
  lemma {:induction false} DeadKept(env: Env, n: Node, lo: nat, back: bool, x: State, y: State, g: nat)
    requires Sound(env, x) && lo + Groups(n) <= |x.caps| && Plain(n)
    requires y in Results(env, n, lo, back, x) && Dead(n, lo, g)
    ensures g < |x.caps| == |y.caps| && y.caps[g] == x.caps[g]
    decreases n, 1
  {
    DeadInside(n, lo, g);
    PlainSingle(env, n, lo, back, x);
    match n
    case Cat(_, _) => DeadKeptCat(env, n, lo, back, x, y, g);
    case Group(b) => DeadKeptGroup(env, b, lo, back, x, y, g);
    case _ =>
  }

  lemma {:induction false} DeadKeptGroup(env: Env, b: Node, lo: nat, back: bool, x: State, y: State, g: nat)
    requires Sound(env, x) && lo + Groups(Group(b)) <= |x.caps| && Plain(b)
    requires y in Results(env, Group(b), lo, back, x) && Dead(b, lo + 1, g)
    ensures g < |x.caps| == |y.caps| && y.caps[g] == x.caps[g]
    decreases b, 2
  {
    hide Results, Plain;
    var ys := Results(env, b, lo + 1, back, x);
    ResultsGroup(env, b, lo, back, x);
    PlainSingle(env, b, lo + 1, back, x);
    assert y == CloseOne(ys[0], lo, x.e, back);
    DeadInside(b, lo + 1, g);
    DeadKept(env, b, lo + 1, back, x, ys[0], g);
  }

  lemma {:induction false} DeadKeptCat(env: Env, n: Node, lo: nat, back: bool, x: State, y: State, g: nat)
    requires n.Cat? && Sound(env, x) && lo + Groups(n) <= |x.caps| && Plain(n)
    requires y in Results(env, n, lo, back, x) && Dead(n, lo, g)
    ensures g < |x.caps| == |y.caps| && y.caps[g] == x.caps[g]
    decreases n, 0
  {
    hide Results;
    var first, second := FirstTerm(n, back), SecondTerm(n, back);
    var flo, slo := FirstLo(n, lo, back), SecondLo(n, lo, back);
    TermGroups(n, lo, back);
    ResultsCat(env, n, lo, back, x);
    var ys := Results(env, first, flo, back, x);
    PlainSingle(env, first, flo, back, x);
    BindSingle(env, second, slo, back, x, lo, lo + Groups(n), ys);
    if Dead(first, flo, g) {
      DeadInside(first, flo, g);
      DeadKept(env, first, flo, back, x, ys[0], g);
    } else {
      DeadInside(second, slo, g);
      DeadKept(env, second, slo, back, ys[0], y, g);
    }
  }

  ghost predicate DeadNull(arr: seq<int>, n: Node, lo: nat) {
    forall g: nat :: Dead(n, lo, g) ==> 2 * g + 1 < |arr| && arr[2 * g] == NULL && arr[2 * g + 1] == NULL
  }

  /** Groups lo..hi are rewritten with the captures `caps`; nothing else changes. */
  ghost predicate Rewritten(m: Prog, old_: seq<int>, arr: seq<int>, lo: nat, hi: nat, caps: seq<Capture>) {
    && |arr| == |old_|
    && hi <= |caps|
    && 2 * hi <= |arr|
    && (forall k :: 0 <= k < |arr| && !(2 * lo <= k < 2 * hi) ==> arr[k] == old_[k])
    && (forall g :: lo <= g < hi ==> CaptureIs(m, arr, g, caps[g]))
  }

  ghost predicate UnsetIn(caps: seq<Capture>, lo: nat, hi: nat) {
    hi <= |caps| && forall g :: lo <= g < hi ==> caps[g].Unset?
  }

  ghost predicate PlainEntry(m: Prog, n: Node, lo: nat, x: State, arr: seq<int>, regs: nat) {
    && Sound(m.env, x)
    && |x.caps| == m.groups
    && |arr| == 2 * m.groups + regs
    && UnsetIn(x.caps, lo, lo + Groups(n))
    && DeadNull(arr, n, lo)
  }

  /** The outcome of a plain atom: no thread, or the single thread `u`. */
  ghost predicate PlainExit(m: Prog, n: Node, lo: nat, back: bool, pc: int, x: State, arr: seq<int>, end: int, u: Thread)
    requires Sound(m.env, x) && lo + Groups(n) <= |x.caps|
  {
    var ys := Results(m.env, n, lo, back, x);
    var t := Thread(pc, Offset(m.subject, x.e), arr);
    && |ys| <= 1
    && if ys == [] then Expands(m, t, [])
       else Expands(m, t, [u]) && u.pc == end && u.pos == Offset(m.subject, ys[0].e)
            && |u.arr| == |arr|
            && Rewritten(m, arr, u.arr, lo, lo + Groups(n), ys[0].caps)
  }

  lemma {:induction false} SimPlain(m: Prog, n: Node, lo: nat, back: bool, d: nat, pc: nat, regs: nat, x: State, arr: seq<int>)
    returns (u: Thread)
    requires Placed(m, n, lo, back, d, pc, regs) && Plain(n) && PlainEntry(m, n, lo, x, arr, regs)
    ensures PlainExit(m, n, lo, back, pc, x, arr, pc + |Code(m.env.fold, n, lo, back, d, true)|, u)
    decreases n, 1
  {
    hide At, Expands, Accepts, Holds, Rewritten, OneCharCode, DeadNull;
    var t := Thread(pc, Offset(m.subject, x.e), arr);
    u := t;
    if n.OneChar() {
      ExpandsChar(m, n, back, pc, x, arr);
      var ys := OneCharStep(m.env, n, back, x);
      if ys != [] {
        u := Thread(pc + |Code(m.env.fold, n, lo, back, d, true)|, Offset(m.subject, ys[0].e), arr);
        RewrittenSelf(m, arr, lo, ys[0].caps);
      }
    } else if n.Assertion() {
      ExpandsAssertion(m, n, pc, x.e, arr);
      u := t.(pc := pc + 1);
      RewrittenSelf(m, arr, lo, x.caps);
    } else if n.Cat? {
      u := SimPlainCat(m, n, lo, back, d, pc, regs, x, arr);
    } else if n.Group? {
      u := SimPlainGroup(m, n, lo, back, d, pc, regs, x, arr);
    } else if n.Repeat? {
      u := SimDropped(m, n, lo, back, d, pc, regs, x, arr);
    } else {
      ExpandsRefl(m, t);
      RewrittenSelf(m, arr, lo, x.caps);
    }
  }

  lemma RewrittenSelf(m: Prog, arr: seq<int>, lo: nat, caps: seq<Capture>)
    requires lo <= |caps| && 2 * lo <= |arr|
    ensures Rewritten(m, arr, arr, lo, lo, caps)
  {
  }

  lemma {:induction false} SimPlainCat(m: Prog, n: Node, lo: nat, back: bool, d: nat, pc: nat, regs: nat, x: State, arr: seq<int>)
    returns (u: Thread)
    requires n.Cat? && Placed(m, n, lo, back, d, pc, regs) && Plain(n) && PlainEntry(m, n, lo, x, arr, regs)
    ensures PlainExit(m, n, lo, back, pc, x, arr, pc + |Code(m.env.fold, n, lo, back, d, true)|, u)
    decreases n, 0
  {
    hide At, Expands, Results, Code, Placed, Rewritten, PlainEntry;
    var first, second := FirstTerm(n, back), SecondTerm(n, back);
    var flo, slo := FirstLo(n, lo, back), SecondLo(n, lo, back);
    var t := Thread(pc, Offset(m.subject, x.e), arr);
    PlacedCat(m, n, lo, back, d, pc, regs);
    PlainEntryFirst(m, n, lo, x, arr, regs, back);
    TermGroups(n, lo, back);
    ResultsCat(m.env, n, lo, back, x);
    var u1 := SimPlain(m, first, flo, back, d, pc, regs, x, arr);
    var ys := Results(m.env, first, flo, back, x);
    BindSingle(m.env, second, slo, back, x, lo, lo + Groups(n), ys);
    u := u1;
    if ys != [] {
      NextEntry(m, n, lo, x, ys[0], arr, u1.arr, regs, back);
      u := SimPlain(m, second, slo, back, d, u1.pc, regs, ys[0], u1.arr);
      var zs := Results(m.env, second, slo, back, ys[0]);
      if zs == [] {
        Then(m, t, u1, []);
      } else {
        Then(m, t, u1, [u]);
        assert zs[0] in zs;
        RewrittenTwice(m, arr, u1.arr, u.arr, flo, flo + Groups(first), slo, slo + Groups(second), ys[0].caps, zs[0].caps);
      }
    }
  }

  lemma PlainEntryFirst(m: Prog, n: Node, lo: nat, x: State, arr: seq<int>, regs: nat, back: bool)
    requires n.Cat? && PlainEntry(m, n, lo, x, arr, regs) && lo + Groups(n) <= m.groups
    ensures PlainEntry(m, FirstTerm(n, back), FirstLo(n, lo, back), x, arr, regs)
    ensures Sound(m.env, x) && |x.caps| == m.groups
  {
    TermGroups(n, lo, back);
    assert forall g: nat :: Dead(FirstTerm(n, back), FirstLo(n, lo, back), g) ==> Dead(n, lo, g);
  }

  /** What the first term of a sequence writes does not disturb the second. */
  lemma NextEntry(m: Prog, n: Node, lo: nat, x: State, y: State, arr: seq<int>, arr1: seq<int>, regs: nat, back: bool)
    requires n.Cat? && PlainEntry(m, n, lo, x, arr, regs) && lo + Groups(n) <= m.groups
    requires var flo, fhi := FirstLo(n, lo, back), FirstLo(n, lo, back) + Groups(FirstTerm(n, back));
             After(m.env, x, y, flo, fhi, back) && Rewritten(m, arr, arr1, flo, fhi, y.caps)
    ensures PlainEntry(m, SecondTerm(n, back), SecondLo(n, lo, back), y, arr1, regs)
  {
    var second, slo := SecondTerm(n, back), SecondLo(n, lo, back);
    TermGroups(n, lo, back);
    forall g: nat | Dead(second, slo, g)
      ensures 2 * g + 1 < |arr1| && arr1[2 * g] == NULL && arr1[2 * g + 1] == NULL
    {
      DeadInside(second, slo, g);
      assert Dead(n, lo, g);
    }
  }

  lemma RewrittenTwice(m: Prog, a: seq<int>, b: seq<int>, c: seq<int>, flo: nat, fhi: nat, slo: nat, shi: nat,
                       ycaps: seq<Capture>, zcaps: seq<Capture>)
    requires fhi == slo || shi == flo
    requires flo <= fhi && slo <= shi
    requires Rewritten(m, a, b, flo, fhi, ycaps) && Rewritten(m, b, c, slo, shi, zcaps)
    requires |ycaps| == |zcaps| && forall g :: 0 <= g < |ycaps| && !(slo <= g < shi) ==> zcaps[g] == ycaps[g]
    ensures Rewritten(m, a, c, if fhi == slo then flo else slo, if fhi == slo then shi else fhi, zcaps)
  {
    forall g | flo <= g < fhi ensures CaptureIs(m, c, g, zcaps[g]) {
      assert CaptureIs(m, b, g, ycaps[g]);
      assert c[2 * g] == b[2 * g] && c[2 * g + 1] == b[2 * g + 1];
    }
  }

  lemma {:induction false} SimPlainGroup(m: Prog, n: Node, lo: nat, back: bool, d: nat, pc: nat, regs: nat, x: State, arr: seq<int>)
    returns (u: Thread)
    requires n.Group? && Placed(m, n, lo, back, d, pc, regs) && Plain(n) && PlainEntry(m, n, lo, x, arr, regs)
    ensures PlainExit(m, n, lo, back, pc, x, arr, pc + |Code(m.env.fold, n, lo, back, d, true)|, u)
    decreases n, 0
  {
    hide At, Expands, Act, Results, Code, Rewritten, PlainEntry;
    var b := n.body;
    PlacedGroup(m, b, lo, back, d, pc, regs);
    PlainEntryMeans(m, n, lo, x, arr, regs);
    ResultsGroup(m.env, b, lo, back, x);
    var pos := Offset(m.subject, x.e);
    var t := Thread(pc, pos, arr);
    var arr1 := arr[2 * lo + B(back) := pos];
    var t1 := Thread(pc + 2, pos, arr1);
    ActSave(m, pc, back, lo, pos, arr);
    ExpandsGo(m, t, t1);
    GroupEntry(m, b, lo, x, arr, arr1, back, regs);
    var u1 := SimPlain(m, b, lo + 1, back, d, pc + 2, regs, x, arr1);
    var ys := Results(m.env, b, lo + 1, back, x);
    u := u1;
    if ys == [] {
      Then(m, t, t1, []);
    } else {
      var y := ys[0];
      var arr3 := u1.arr[2 * lo + B(!back) := u1.pos];
      u := Thread(u1.pc + 2, u1.pos, arr3);
      ActSave(m, u1.pc, !back, lo, u1.pos, u1.arr);
      ExpandsGo(m, u1, u);
      Then(m, t1, u1, [u]);
      Then(m, t, t1, [u]);
      assert y in ys;
      GroupRewritten(m, arr, u1.arr, lo, lo + 1 + Groups(b), x.e, y, back);
      assert Results(m.env, n, lo, back, x) == [CloseOne(y, lo, x.e, back)];
    }
  }

  lemma PlainEntryMeans(m: Prog, n: Node, lo: nat, x: State, arr: seq<int>, regs: nat)
    requires PlainEntry(m, n, lo, x, arr, regs)
    ensures Sound(m.env, x) && |x.caps| == m.groups && |arr| == 2 * m.groups + regs
  {
  }

  lemma GroupEntry(m: Prog, b: Node, lo: nat, x: State, arr: seq<int>, arr1: seq<int>, back: bool, regs: nat)
    requires PlainEntry(m, Group(b), lo, x, arr, regs) && lo < m.groups
    requires arr1 == arr[2 * lo + B(back) := Offset(m.subject, x.e)]
    ensures PlainEntry(m, b, lo + 1, x, arr1, regs)
  {
    forall g: nat | Dead(b, lo + 1, g)
      ensures 2 * g + 1 < |arr1| && arr1[2 * g] == NULL && arr1[2 * g + 1] == NULL
    {
      DeadInside(b, lo + 1, g);
      assert Dead(Group(b), lo, g);
    }
  }

  lemma GroupRewritten(m: Prog, arr: seq<int>, arr2: seq<int>, lo: nat, hi: nat, e: nat, y: State, back: bool)
    requires lo < hi <= m.groups && 2 * m.groups <= |arr| && |y.caps| == m.groups
    requires Rewritten(m, arr[2 * lo + B(back) := Offset(m.subject, e)], arr2, lo + 1, hi, y.caps)
    ensures Rewritten(m, arr, arr2[2 * lo + B(!back) := Offset(m.subject, y.e)], lo, hi, CloseOne(y, lo, e, back).caps)
  {
    var arr3 := arr2[2 * lo + B(!back) := Offset(m.subject, y.e)];
    var caps := CloseOne(y, lo, e, back).caps;
    assert arr2[2 * lo + B(back)] == Offset(m.subject, e);
    forall g | lo <= g < hi ensures CaptureIs(m, arr3, g, caps[g]) {
      if g > lo { assert CaptureIs(m, arr2, g, y.caps[g]); }
    }
  }

  /** A quantifier {0}: at most a reset of its groups is left. */
  lemma SimDropped(m: Prog, n: Node, lo: nat, back: bool, d: nat, pc: nat, regs: nat, x: State, arr: seq<int>)
    returns (u: Thread)
    requires n.Repeat? && Placed(m, n, lo, back, d, pc, regs) && Plain(n) && PlainEntry(m, n, lo, x, arr, regs)
    ensures PlainExit(m, n, lo, back, pc, x, arr, pc + |Code(m.env.fold, n, lo, back, d, true)|, u)
  {
    hide At, Expands, Act;
    var b := n.body;
    var hi := lo + Groups(b);
    var t := Thread(pc, Offset(m.subject, x.e), arr);
    assert Results(m.env, n, lo, back, x) == [x];
    if Plain(b) && Groups(b) > 0 {
      ActReset(m, pc, lo, hi, t.pos, arr);
      u := Thread(pc + 3, t.pos, ResetSlots(arr, lo, hi - 1));
      ExpandsGo(m, t, u);
    } else {
      u := t;
      ExpandsRefl(m, t);
      forall g | lo <= g < hi ensures CaptureIs(m, arr, g, x.caps[g]) {
        assert Dead(n, lo, g);
      }
    }
  }
}
