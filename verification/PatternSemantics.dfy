/**
  The meaning of a pattern, after section 22.2.2 of ECMA-262, as the list of all its
  results in the order in which a backtracking matcher tries them. A state is a
  character index and the captures; a capture is a pair of character indices.
 */
module PatternSemantics {
  import opened Patterns

  datatype Capture = Unset | Span(s: nat, t: nat)

  datatype State = State(e: nat, caps: seq<Capture>)

  /** The input characters, the case folding function and the white space test. */
  datatype Env = Env(input: seq<nat>, fold: nat -> nat, space: nat -> bool)

  ghost predicate Sound(env: Env, x: State) {
    && x.e <= |env.input|
    && forall i :: 0 <= i < |x.caps| && x.caps[i].Span? ==> x.caps[i].s <= x.caps[i].t <= |env.input|
  }

  /** `y` is reached from `x` by moving in one direction and writing captures lo..hi only. */
  ghost predicate After(env: Env, x: State, y: State, lo: nat, hi: nat, back: bool) {
    && Sound(env, y)
    && |y.caps| == |x.caps|
    && (if back then y.e <= x.e else x.e <= y.e)
    && (forall i :: 0 <= i < |x.caps| && !(lo <= i < hi) ==> y.caps[i] == x.caps[i])
  }

  ghost predicate AllAfter(env: Env, x: State, ys: seq<State>, lo: nat, hi: nat, back: bool) {
    forall y :: y in ys ==> After(env, x, y, lo, hi, back)
  }

  predicate IsLineTerminator(c: nat) {
    c == 0x0A || c == 0x0D || c == 0x2028 || c == 0x2029
  }

  predicate IsWordChar(c: nat, icase: bool) {
    || 0x30 <= c <= 0x39
    || 0x41 <= c <= 0x5A
    || c == 0x5F
    || 0x61 <= c <= 0x7A
    || (icase && (c == 0x017F || c == 0x212A))
  }

  /** The character test of an atom that consumes one character. */
  predicate Accepts(env: Env, n: Node, ch: nat)
    requires n.OneChar()
  {
    match n
    case Char(c, icase) => if icase then env.fold(ch) == env.fold(c) else ch == c
    case Dot => !IsLineTerminator(ch)
    case AnyChar => true
    case Space(neg) => env.space(ch) != neg
    case Set(points, icase) => InPoints(points, if icase then env.fold(ch) else ch)
  }

  /** `^`, `$`, `\b` and `\B` at character index `e`. */
  predicate Holds(env: Env, n: Node, e: nat)
    requires n.Assertion() && e <= |env.input|
  {
    match n
    case Line(atEnd, multi) =>
      if atEnd then e == |env.input| || (multi && IsLineTerminator(env.input[e]))
      else e == 0 || (multi && IsLineTerminator(env.input[e - 1]))
    case Word(neg, icase) =>
      var before := 0 < e && IsWordChar(env.input[e - 1], icase);
      var here := e < |env.input| && IsWordChar(env.input[e], icase);
      (before != here) != neg
  }

  /** The first group of the list that has matched. */
  function Referenced(caps: seq<Capture>, groups: seq<nat>): (c: Capture)
    ensures c.Span? ==> exists i :: 0 <= i < |caps| && caps[i] == c
  {
    if groups == [] then Unset
    else if groups[0] < |caps| && caps[groups[0]].Span? then caps[groups[0]]
    else Referenced(caps, groups[1..])
  }

  predicate SameChar(env: Env, a: nat, b: nat, icase: bool) {
    if icase then env.fold(a) == env.fold(b) else a == b
  }

  /** Characters s..t of the input are repeated at p. */
  predicate Repeated(env: Env, s: nat, t: nat, p: nat, icase: bool)
    requires s <= t <= |env.input| && p + (t - s) <= |env.input|
  {
    forall i :: 0 <= i < t - s ==> SameAt(env, s, p, i, icase)
  }

  predicate SameAt(env: Env, s: nat, p: nat, i: nat, icase: bool)
    requires s + i < |env.input| && p + i < |env.input|
  {
    SameChar(env, env.input[s + i], env.input[p + i], icase)
  }

  function BackReference(env: Env, groups: seq<nat>, icase: bool, back: bool, x: State): seq<State>
    requires Sound(env, x)
  {
    var c := Referenced(x.caps, groups);
    if c.Unset? then [x]
    else
      var len := c.t - c.s;
      if back then
        if len <= x.e && Repeated(env, c.s, c.t, x.e - len, icase) then [x.(e := x.e - len)] else []
      else
        if x.e + len <= |env.input| && Repeated(env, c.s, c.t, x.e, icase) then [x.(e := x.e + len)] else []
  }

  /**
    BackreferenceMatcher in terms of the input: when group `groups[k]` is the first of the
    list that is set, the text it captured has to be repeated ahead of the current
    position, or behind it going backward, character by character, under ignore-case after
    folding both sides. There is one result then, and none otherwise.
   */
  lemma BackReferenceMeans(env: Env, groups: seq<nat>, icase: bool, back: bool, x: State, k: nat)
    requires Sound(env, x) && k < |groups| && groups[k] < |x.caps| && x.caps[groups[k]].Span?
    requires forall j :: 0 <= j < k && groups[j] < |x.caps| ==> x.caps[groups[j]].Unset?
    ensures var c := x.caps[groups[k]];
            var len := c.t - c.s;
            var p := if back then x.e - len else x.e;
            && c.s <= c.t <= |env.input|
            && BackReference(env, groups, icase, back, x) ==
               if 0 <= p && p + len <= |env.input|
                  && (var captured, here := env.input[c.s..c.t], env.input[p..p + len];
                      forall i :: 0 <= i < len ==>
                        if icase then env.fold(captured[i]) == env.fold(here[i]) else captured[i] == here[i])
               then [State(if back then x.e - len else x.e + len, x.caps)] else []
  {
    FirstReferenced(x.caps, groups, k);
    var c := x.caps[groups[k]];
    var len := c.t - c.s;
    var p := if back then x.e - len else x.e;
    if 0 <= p && p + len <= |env.input| {
      var captured, here := env.input[c.s..c.t], env.input[p..p + len];
      forall i | 0 <= i < len
        ensures SameAt(env, c.s, p, i, icase) <==>
                if icase then env.fold(captured[i]) == env.fold(here[i]) else captured[i] == here[i]
      {
        assert captured[i] == env.input[c.s + i] && here[i] == env.input[p + i];
      }
      assert Repeated(env, c.s, c.t, p, icase) <==>
             forall i :: 0 <= i < len ==> if icase then env.fold(captured[i]) == env.fold(here[i]) else captured[i] == here[i];
    }
  }

  /** With no group of the list set, the reference matches the empty string. */
  lemma {:induction false} BackReferenceUnset(env: Env, groups: seq<nat>, icase: bool, back: bool, x: State)
    requires Sound(env, x) && forall j :: 0 <= j < |groups| && groups[j] < |x.caps| ==> x.caps[groups[j]].Unset?
    ensures BackReference(env, groups, icase, back, x) == [x]
    decreases |groups|
  {
    if groups != [] { BackReferenceUnset(env, groups[1..], icase, back, x); }
  }

  lemma {:induction false} FirstReferenced(caps: seq<Capture>, groups: seq<nat>, k: nat)
    requires k < |groups| && groups[k] < |caps| && caps[groups[k]].Span?
    requires forall j :: 0 <= j < k && groups[j] < |caps| ==> caps[groups[j]].Unset?
    ensures Referenced(caps, groups) == caps[groups[k]]
    decreases k
  {
    if k > 0 {
      assert forall j :: 0 <= j < k - 1 ==> groups[1..][j] == groups[j + 1];
      FirstReferenced(caps, groups[1..], k - 1);
    }
  }

  /** `.` refuses exactly line feed, carriage return and the two Unicode separators. */
  lemma DotMeans(env: Env, ch: nat)
    ensures Accepts(env, Dot, ch) <==> ch != 0x0A && ch != 0x0D && ch != 0x2028 && ch != 0x2029
  {
  }

  /** `^` and `$`: the ends of the input, and with the multiline flag the ends of lines. */
  lemma LineMeans(env: Env, atEnd: bool, multi: bool, e: nat)
    requires e <= |env.input|
    ensures Holds(env, Line(atEnd, multi), e) <==>
            || (atEnd && e == |env.input|) || (!atEnd && e == 0)
            || (multi && atEnd && e < |env.input| && env.input[e] in {0x0A, 0x0D, 0x2028, 0x2029})
            || (multi && !atEnd && 0 < e && env.input[e - 1] in {0x0A, 0x0D, 0x2028, 0x2029})
  {
  }

  /** `\b` and `\B`: exactly one neighbour is a letter, digit or underscore; two more letters fold to such ones. */
  lemma WordMeans(env: Env, neg: bool, icase: bool, e: nat)
    requires e <= |env.input|
    ensures var word := (c: nat) => 0x30 <= c <= 0x39 || 0x41 <= c <= 0x5A || c == 0x5F || 0x61 <= c <= 0x7A
                                    || (icase && (c == 0x17F || c == 0x212A));
            Holds(env, Word(neg, icase), e) <==>
            neg != ((0 < e && word(env.input[e - 1])) != (e < |env.input| && word(env.input[e])))
  {
  }

  function OneCharStep(env: Env, n: Node, back: bool, x: State): seq<State>
    requires Sound(env, x) && n.OneChar()
  {
    if back then
      if 0 < x.e && Accepts(env, n, env.input[x.e - 1]) then [x.(e := x.e - 1)] else []
    else
      if x.e < |env.input| && Accepts(env, n, env.input[x.e]) then [x.(e := x.e + 1)] else []
  }

  /** Captures lo..hi are forgotten. */
  function Clear(x: State, lo: nat, hi: nat): (y: State)
    ensures y.e == x.e && |y.caps| == |x.caps|
  {
    x.(caps := seq(|x.caps|, i requires 0 <= i < |x.caps| => if lo <= i < hi then Unset else x.caps[i]))
  }

  /** Group `g`, opened at `e`, is closed in every result of its body. */
  function Close(ys: seq<State>, g: nat, e: nat, back: bool): (r: seq<State>)
    requires forall y :: y in ys ==> g < |y.caps|
    ensures |r| == |ys|
    ensures forall j :: 0 <= j < |ys| ==> r[j] == CloseOne(ys[j], g, e, back)
  {
    seq(|ys|, j requires 0 <= j < |ys| => assert ys[j] in ys; CloseOne(ys[j], g, e, back))
  }

  function CloseOne(y: State, g: nat, e: nat, back: bool): State
    requires g < |y.caps|
  {
    y.(caps := y.caps[g := if back then Span(y.e, e) else Span(e, y.e)])
  }

  /** The outcome of a lookaround whose body has results `ys`. */
  function LookResults(neg: bool, x: State, ys: seq<State>): seq<State> {
    if neg then
      if ys == [] then [x] else []
    else
      if ys == [] then [] else [State(x.e, ys[0].caps)]
  }

  /** The results that have moved away from `e`. */
  function Moved(ys: seq<State>, e: nat): (r: seq<State>)
    ensures forall y :: y in r ==> y in ys && y.e != e
  {
    if ys == [] then [] else (if ys[0].e != e then [ys[0]] else []) + Moved(ys[1..], e)
  }

  function Distance(env: Env, back: bool, e: nat): int {
    if back then e else |env.input| - e
  }

  function Less(b: Bound): Bound {
    match b
    case Inf => Inf
    case Fin(n) => if n == 0 then Fin(0) else Fin(n - 1)
  }

  lemma CloseAfter(env: Env, x: State, ys: seq<State>, lo: nat, hi: nat, back: bool)
    requires Sound(env, x) && lo < hi <= |x.caps| && AllAfter(env, x, ys, lo + 1, hi, back)
    ensures AllAfter(env, x, Close(ys, lo, x.e, back), lo, hi, back)
  {
    var zs := Close(ys, lo, x.e, back);
    forall z | z in zs
      ensures After(env, x, z, lo, hi, back)
    {
      var j :| 0 <= j < |ys| && z == zs[j];
      assert ys[j] in ys;
    }
  }

  /** All results of `n`, whose groups are numbered from `lo`, starting from `x`. */
  function Results(env: Env, n: Node, lo: nat, back: bool, x: State): (r: seq<State>)
    requires Sound(env, x) && lo + Groups(n) <= |x.caps|
    ensures AllAfter(env, x, r, lo, lo + Groups(n), back)
    decreases n, 0, 0, 0
  {
    match n
    case Empty => [x]
    case Line(_, _) => if Holds(env, n, x.e) then [x] else []
    case Word(_, _) => if Holds(env, n, x.e) then [x] else []
    case BackRef(groups, icase) => BackReference(env, groups, icase, back, x)
    case Cat(_, _) =>
      TermGroups(n, lo, back);
      BindAll(env, SecondTerm(n, back), SecondLo(n, lo, back), back, x, lo, lo + Groups(n),
              Results(env, FirstTerm(n, back), FirstLo(n, lo, back), back, x))
    case Or(l, r) => Results(env, l, lo, back, x) + Results(env, r, lo + Groups(l), back, x)
    case Group(b) =>
      var ys := Results(env, b, lo + 1, back, x);
      CloseAfter(env, x, ys, lo, lo + Groups(n), back);
      Close(ys, lo, x.e, back)
    case Look(neg, behind, b) =>
      var ys := Results(env, b, lo, behind, x);
      assert ys != [] ==> ys[0] in ys;
      LookResults(neg, x, ys)
    case Repeat(b, min, max, greedy) => RepeatFrom(env, b, lo, back, min, max, greedy, x)
    case _ => OneCharStep(env, n, back, x)
  }

  /** The results of `n` from each of the states `xs`, in order; `x` is where they all come from. */
  function BindAll(env: Env, n: Node, lo: nat, back: bool, ghost x: State, ghost lo': nat, ghost hi': nat,
                   xs: seq<State>): (r: seq<State>)
    requires lo' <= lo && lo + Groups(n) <= hi' <= |x.caps| && AllAfter(env, x, xs, lo', hi', back)
    ensures AllAfter(env, x, r, lo', hi', back)
    decreases n, 0, 0, 1 + |xs|
  {
    if xs == [] then [] else
      assert xs[0] in xs;
      Results(env, n, lo, back, xs[0]) + BindAll(env, n, lo, back, x, lo', hi', xs[1..])
  }

  /** RepeatMatcher: between `min` and `max` passes through `b`. */
  function RepeatFrom(env: Env, b: Node, lo: nat, back: bool, min: nat, max: Bound, greedy: bool, x: State): (r: seq<State>)
    requires Sound(env, x) && lo + Groups(b) <= |x.caps|
    ensures AllAfter(env, x, r, lo, lo + Groups(b), back)
    decreases b, min + 1, Distance(env, back, x.e), 1
  {
    if max == Fin(0) then [x]
    else if min > 0 then Iterate(env, b, lo, back, min, max, greedy, x)
    else if greedy then Iterate(env, b, lo, back, min, max, greedy, x) + [x]
    else [x] + Iterate(env, b, lo, back, min, max, greedy, x)
  }

  /** One more pass through `b`; a pass that is not required has to move. */
  function Iterate(env: Env, b: Node, lo: nat, back: bool, min: nat, max: Bound, greedy: bool, x: State): (r: seq<State>)
    requires Sound(env, x) && lo + Groups(b) <= |x.caps|
    ensures AllAfter(env, x, r, lo, lo + Groups(b), back)
    decreases b, min + 1, Distance(env, back, x.e), 0
  {
    var ys := Results(env, b, lo, back, Clear(x, lo, lo + Groups(b)));
    if min > 0 then
      RepeatAll(env, b, lo, back, min - 1, Less(max), greedy, x, ys, |env.input|)
    else
      RepeatAll(env, b, lo, back, 0, Less(max), greedy, x, Moved(ys, x.e), Distance(env, back, x.e) - 1)
  }

  function RepeatAll(env: Env, b: Node, lo: nat, back: bool, min: nat, max: Bound, greedy: bool,
                     ghost x: State, ys: seq<State>, ghost bound: int): (r: seq<State>)
    requires lo + Groups(b) <= |x.caps| && AllAfter(env, x, ys, lo, lo + Groups(b), back)
    requires forall y :: y in ys ==> Distance(env, back, y.e) <= bound
    ensures AllAfter(env, x, r, lo, lo + Groups(b), back)
    decreases b, min + 1, bound, 2 + |ys|
  {
    if ys == [] then [] else
      assert ys[0] in ys;
      RepeatFrom(env, b, lo, back, min, max, greedy, ys[0]) +
      RepeatAll(env, b, lo, back, min, max, greedy, x, ys[1..], bound)
  }

  // ----- the equations of `Results`, one by one -----

  lemma AfterWiden(env: Env, x: State, ys: seq<State>, lo: nat, hi: nat, lo': nat, hi': nat, back: bool)
    requires AllAfter(env, x, ys, lo, hi, back) && lo' <= lo && hi <= hi'
    ensures AllAfter(env, x, ys, lo', hi', back)
  {
  }

  lemma ResultsCat(env: Env, n: Node, lo: nat, back: bool, x: State)
    requires n.Cat? && Sound(env, x) && lo + Groups(n) <= |x.caps|
    ensures var ys := Results(env, FirstTerm(n, back), FirstLo(n, lo, back), back, x);
            && AllAfter(env, x, ys, lo, lo + Groups(n), back)
            && Results(env, n, lo, back, x) ==
               BindAll(env, SecondTerm(n, back), SecondLo(n, lo, back), back, x, lo, lo + Groups(n), ys)
  {
    hide AllAfter, After, Sound, Groups;
    TermGroups(n, lo, back);
    var flo := FirstLo(n, lo, back);
    var ys := Results(env, FirstTerm(n, back), flo, back, x);
    AfterWiden(env, x, ys, flo, flo + Groups(FirstTerm(n, back)), lo, lo + Groups(n), back);
  }

  lemma ResultsOr(env: Env, l: Node, r: Node, lo: nat, back: bool, x: State)
    requires Sound(env, x) && lo + Groups(Or(l, r)) <= |x.caps|
    ensures Results(env, Or(l, r), lo, back, x) ==
            Results(env, l, lo, back, x) + Results(env, r, lo + Groups(l), back, x)
  {
    hide AllAfter, After, Sound, OneCharStep, BackReference, LookResults, Holds, RepeatFrom, BindAll, Close;
  }

  lemma ResultsGroup(env: Env, b: Node, lo: nat, back: bool, x: State)
    requires Sound(env, x) && lo + Groups(Group(b)) <= |x.caps|
    ensures var ys := Results(env, b, lo + 1, back, x);
            && (forall y :: y in ys ==> lo < |y.caps|)
            && Results(env, Group(b), lo, back, x) == Close(ys, lo, x.e, back)
  {
    hide Sound, OneCharStep, BackReference, LookResults, Holds, RepeatFrom, BindAll, Close;
  }

  lemma ResultsLook(env: Env, neg: bool, behind: bool, b: Node, lo: nat, back: bool, x: State)
    requires Sound(env, x) && lo + Groups(b) <= |x.caps|
    ensures Results(env, Look(neg, behind, b), lo, back, x) == LookResults(neg, x, Results(env, b, lo, behind, x))
  {
    hide AllAfter, After, Sound, OneCharStep, BackReference, LookResults, Holds, RepeatFrom, BindAll, Close;
  }

  lemma ResultsRepeat(env: Env, b: Node, min: nat, max: Bound, greedy: bool, lo: nat, back: bool, x: State)
    requires Sound(env, x) && lo + Groups(b) <= |x.caps|
    ensures Results(env, Repeat(b, min, max, greedy), lo, back, x) == RepeatFrom(env, b, lo, back, min, max, greedy, x)
  {
    hide AllAfter, After, Sound, OneCharStep, BackReference, LookResults, Holds, RepeatFrom, BindAll, Close;
  }
}
