/**
  What the analysis of a quantified atom promises: an atom that "advances" never
  succeeds without moving, and a "plain" atom has at most one result, whose captures do
  not depend on those of the previous pass.
 */
module AtomAnalysis {
  import opened Patterns
  import opened PatternSemantics
  import opened CodeGen

  predicate Past(back: bool, e: nat, f: nat) {
    if back then f < e else e < f
  }

  ghost predicate AllPast(back: bool, e: nat, ys: seq<State>) {
    forall y :: y in ys ==> Past(back, e, y.e)
  }

  lemma {:induction false} BindPast(env: Env, n: Node, lo: nat, back: bool, x: State, lo': nat, hi': nat,
                                    xs: seq<State>, e: nat)
    requires lo' <= lo && lo + Groups(n) <= hi' <= |x.caps| && AllAfter(env, x, xs, lo', hi', back)
    requires AllPast(back, e, xs)
    ensures AllPast(back, e, BindAll(env, n, lo, back, x, lo', hi', xs))
  {
    if xs != [] {
      assert xs[0] in xs;
      BindPast(env, n, lo, back, x, lo', hi', xs[1..], e);
    }
  }

  lemma {:induction false} BindAdvances(env: Env, n: Node, lo: nat, back: bool, x: State, lo': nat, hi': nat,
                                        xs: seq<State>)
    requires lo' <= lo && lo + Groups(n) <= hi' <= |x.caps| && AllAfter(env, x, xs, lo', hi', back)
    requires Advances(n, back)
    ensures AllPast(back, x.e, BindAll(env, n, lo, back, x, lo', hi', xs))
    decreases n, 2 + |xs|
  {
    if xs != [] {
      assert xs[0] in xs;
      AdvancesSound(env, n, lo, back, xs[0]);
      BindAdvances(env, n, lo, back, x, lo', hi', xs[1..]);
    }
  }

  lemma {:induction false} RepeatPast(env: Env, b: Node, lo: nat, back: bool, min: nat, max: Bound, greedy: bool,
                                      x: State, ys: seq<State>, bound: int, e: nat)
    requires lo + Groups(b) <= |x.caps| && AllAfter(env, x, ys, lo, lo + Groups(b), back)
    requires forall y :: y in ys ==> Distance(env, back, y.e) <= bound
    requires AllPast(back, e, ys)
    ensures AllPast(back, e, RepeatAll(env, b, lo, back, min, max, greedy, x, ys, bound))
  {
    if ys != [] {
      assert ys[0] in ys;
      RepeatPast(env, b, lo, back, min, max, greedy, x, ys[1..], bound, e);
    }
  }

  /** An atom that needs no zero-advance check has moved in every one of its results. */
  lemma {:induction false} AdvancesSound(env: Env, n: Node, lo: nat, back: bool, x: State)
    requires Sound(env, x) && lo + Groups(n) <= |x.caps| && Advances(n, back)
    ensures AllPast(back, x.e, Results(env, n, lo, back, x))
    decreases n, 1
  {
    match n
    case Cat(_, _) => CatAdvances(env, n, lo, back, x);
    case Group(b) =>
      AdvancesSound(env, b, lo + 1, back, x);
      ResultsGroup(env, b, lo, back, x);
      ClosePast(Results(env, b, lo + 1, back, x), lo, x.e, back);
    case Repeat(b, min, max, greedy) =>
      IterateAdvances(env, b, lo, back, min, max, greedy, x);
      assert Results(env, n, lo, back, x) == Iterate(env, b, lo, back, min, max, greedy, x);
    case _ =>
  }

  lemma {:induction false} CatAdvances(env: Env, n: Node, lo: nat, back: bool, x: State)
    requires n.Cat? && Sound(env, x) && lo + Groups(n) <= |x.caps| && Advances(n, back)
    ensures AllPast(back, x.e, Results(env, n, lo, back, x))
    decreases n, 0
  {
    hide Results;
    TermGroups(n, lo, back);
    ResultsCat(env, n, lo, back, x);
    var ys := Results(env, FirstTerm(n, back), FirstLo(n, lo, back), back, x);
    if Advances(FirstTerm(n, back), back) {
      AdvancesSound(env, FirstTerm(n, back), FirstLo(n, lo, back), back, x);
      BindPast(env, SecondTerm(n, back), SecondLo(n, lo, back), back, x, lo, lo + Groups(n), ys, x.e);
    } else {
      BindAdvances(env, SecondTerm(n, back), SecondLo(n, lo, back), back, x, lo, lo + Groups(n), ys);
    }
  }

  lemma ClosePast(ys: seq<State>, g: nat, e: nat, back: bool)
    requires AllPast(back, e, ys) && forall y :: y in ys ==> g < |y.caps|
    ensures AllPast(back, e, Close(ys, g, e, back))
  {
    forall z | z in Close(ys, g, e, back) ensures Past(back, e, z.e) {
      var j :| 0 <= j < |ys| && z == Close(ys, g, e, back)[j];
      assert ys[j] in ys;
    }
  }

  lemma {:induction false} IterateAdvances(env: Env, b: Node, lo: nat, back: bool, min: nat, max: Bound, greedy: bool, x: State)
    requires Sound(env, x) && lo + Groups(b) <= |x.caps| && Advances(b, back) && min > 0
    ensures AllPast(back, x.e, Iterate(env, b, lo, back, min, max, greedy, x))
    decreases b, 2
  {
    var x' := Clear(x, lo, lo + Groups(b));
    AdvancesSound(env, b, lo, back, x');
    RepeatPast(env, b, lo, back, min - 1, Less(max), greedy, x, Results(env, b, lo, back, x'), |env.input|, x.e);
  }

  // ----- plain atoms -----

  lemma BindSingle(env: Env, n: Node, lo: nat, back: bool, x: State, lo': nat, hi': nat, xs: seq<State>)
    requires lo' <= lo && lo + Groups(n) <= hi' <= |x.caps| && AllAfter(env, x, xs, lo', hi', back)
    requires |xs| <= 1
    ensures xs == [] ==> BindAll(env, n, lo, back, x, lo', hi', xs) == []
    ensures xs != [] ==> xs[0] in xs && BindAll(env, n, lo, back, x, lo', hi', xs) == Results(env, n, lo, back, xs[0])
  {
    if xs != [] {
      assert xs[0] in xs;
      assert BindAll(env, n, lo, back, x, lo', hi', xs[1..]) == [];
      assert Results(env, n, lo, back, xs[0]) + [] == Results(env, n, lo, back, xs[0]);
    }
  }

  /** Straight-line code has at most one result. */
  lemma {:induction false} PlainSingle(env: Env, n: Node, lo: nat, back: bool, x: State)
    requires Sound(env, x) && lo + Groups(n) <= |x.caps| && Plain(n)
    ensures |Results(env, n, lo, back, x)| <= 1
  {
    match n
    case Cat(l, r) =>
      TermGroups(n, lo, back);
      ResultsCat(env, n, lo, back, x);
      var ys := Results(env, FirstTerm(n, back), FirstLo(n, lo, back), back, x);
      PlainSingle(env, FirstTerm(n, back), FirstLo(n, lo, back), back, x);
      BindSingle(env, SecondTerm(n, back), SecondLo(n, lo, back), back, x, lo, lo + Groups(n), ys);
      if ys != [] {
        PlainSingle(env, SecondTerm(n, back), SecondLo(n, lo, back), back, ys[0]);
      }
    case Group(b) => PlainSingle(env, b, lo + 1, back, x);
    case _ =>
  }
}
