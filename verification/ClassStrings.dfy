/**
  The code of a character class that holds strings: the longest strings are tried first,
  then single characters, then the empty string. It is written as one run of blocks whose
  jumps to the end are first threaded through each other, and patched at the end; it is
  the code of a disjunction.
 */
module ClassStrings {
  import opened Bytes
  import opened Bytecode
  import opened Patterns
  import opened PatternSemantics
  import opened RangeTable
  import opened CodeGen
  import opened StraightLine
  import opened RegisterAllocation
  import opened Terms
  import opened Emitter
  import CharRanges
  import Sorting
  import opened StringSets

  /** The characters of a string, one after the other. */
  function StringNode(text: seq<nat>, icase: bool): Node {
    if text == [] then Empty else Cat(StringNode(text[..|text| - 1], icase), Node.Char(text[|text| - 1], icase))
  }

  /** Strings in order, then a set of characters, then the empty string. */
  function ListNode(strs: seq<seq<nat>>, points: seq<nat>, icase: bool, hasEmpty: bool): Node {
    if strs == [] then
      if points == [] then Empty
      else if hasEmpty then Repeat(Set(points, icase), 0, Fin(1), true)
      else Set(points, icase)
    else if |strs| == 1 && points == [] && !hasEmpty then StringNode(strs[0], icase)
    else Or(StringNode(strs[0], icase), ListNode(strs[1..], points, icase, hasEmpty))
  }

  // ----- what such a node means -----

  predicate CharMatches(env: Env, c: nat, icase: bool, ch: nat) {
    Accepts(env, Node.Char(c, icase), ch)
  }

  predicate TextAt(env: Env, text: seq<nat>, icase: bool, e: nat) {
    e + |text| <= |env.input| && forall j :: 0 <= j < |text| ==> CharMatches(env, text[j], icase, env.input[e + j])
  }

  function TryString(env: Env, text: seq<nat>, icase: bool, x: State): seq<State> {
    if TextAt(env, text, icase, x.e) then [x.(e := x.e + |text|)] else []
  }

  function TryPoints(env: Env, points: seq<nat>, icase: bool, x: State): seq<State>
    requires Sound(env, x)
  {
    if points == [] then [] else OneCharStep(env, Set(points, icase), false, x)
  }

  /** The members that match, in order: strings, then characters, then the empty string. */
  function Tries(env: Env, strs: seq<seq<nat>>, points: seq<nat>, icase: bool, hasEmpty: bool, x: State): seq<State>
    requires Sound(env, x)
  {
    if strs == [] then TryPoints(env, points, icase, x) + if hasEmpty then [x] else []
    else TryString(env, strs[0], icase, x) + Tries(env, strs[1..], points, icase, hasEmpty, x)
  }

  lemma {:induction false} NoGroupsString(text: seq<nat>, icase: bool)
    ensures Groups(StringNode(text, icase)) == 0
  {
    if text != [] { NoGroupsString(text[..|text| - 1], icase); }
  }

  lemma {:induction false} NoGroupsList(strs: seq<seq<nat>>, points: seq<nat>, icase: bool, hasEmpty: bool)
    ensures Groups(ListNode(strs, points, icase, hasEmpty)) == 0
  {
    if strs != [] {
      NoGroupsString(strs[0], icase);
      NoGroupsList(strs[1..], points, icase, hasEmpty);
    }
  }

  /** A string has one result, behind it, when it stands there. */
  lemma {:induction false} StringResults(env: Env, text: seq<nat>, icase: bool, lo: nat, x: State)
    requires Sound(env, x) && lo <= |x.caps|
    ensures Groups(StringNode(text, icase)) == 0
    ensures Results(env, StringNode(text, icase), lo, false, x) == TryString(env, text, icase, x)
  {
    hide Results, BindAll, Accepts;
    NoGroupsString(text, icase);
    if text == [] {
      ResultsEmpty(env, lo, x);
    } else {
      var n := |text| - 1;
      var front, c := text[..n], text[n];
      StringResults(env, front, icase, lo, x);
      var node := StringNode(text, icase);
      ResultsCat(env, node, lo, false, x);
      var ys := TryString(env, front, icase, x);
      BindOne(env, Node.Char(c, icase), lo, x, ys);
      assert forall j :: 0 <= j < n ==> front[j] == text[j];
      if TextAt(env, front, icase, x.e) {
        assert TextAt(env, text, icase, x.e) <==> x.e + n < |env.input| && CharMatches(env, c, icase, env.input[x.e + n]);
      }
    }
  }

  lemma ResultsEmpty(env: Env, lo: nat, x: State)
    requires Sound(env, x) && lo <= |x.caps|
    ensures Results(env, Empty, lo, false, x) == [x]
  {
  }

  /** A character after at most one state. */
  lemma BindOne(env: Env, n: Node, lo: nat, x: State, ys: seq<State>)
    requires n.OneChar() && Sound(env, x) && lo <= |x.caps| && |ys| <= 1 && AllAfter(env, x, ys, lo, lo, false)
    ensures Groups(n) == 0
    ensures BindAll(env, n, lo, false, x, lo, lo, ys) == if ys == [] then [] else assert ys[0] in ys; OneCharStep(env, n, false, ys[0])
  {
    if ys != [] {
      assert ys[0] in ys;
      assert ys[1..] == [];
      assert Results(env, n, lo, false, ys[0]) == OneCharStep(env, n, false, ys[0]);
      assert BindAll(env, n, lo, false, x, lo, lo, []) == [];
    }
  }

  /** The results of the whole list are its matching members, in order. */
  lemma {:induction false} ListResults(env: Env, strs: seq<seq<nat>>, points: seq<nat>, icase: bool, hasEmpty: bool, lo: nat, x: State)
    requires Sound(env, x) && lo <= |x.caps| && (strs != [] || points != [] || hasEmpty)
    ensures Groups(ListNode(strs, points, icase, hasEmpty)) == 0
    ensures Results(env, ListNode(strs, points, icase, hasEmpty), lo, false, x) == Tries(env, strs, points, icase, hasEmpty, x)
    decreases |strs|
  {
    hide Results, Accepts, InPoints;
    NoGroupsList(strs, points, icase, hasEmpty);
    if strs == [] {
      if points == [] {
        ResultsEmpty(env, lo, x);
      } else if hasEmpty {
        OptionalSet(env, points, icase, lo, x);
      } else {
        SetResults(env, points, icase, lo, x);
      }
    } else {
      StringResults(env, strs[0], icase, lo, x);
      if |strs| == 1 && points == [] && !hasEmpty {
        assert strs[1..] == [];
      } else {
        ListResults(env, strs[1..], points, icase, hasEmpty, lo, x);
        ResultsOr(env, StringNode(strs[0], icase), ListNode(strs[1..], points, icase, hasEmpty), lo, false, x);
      }
    }
  }

  lemma SetResults(env: Env, points: seq<nat>, icase: bool, lo: nat, x: State)
    requires Sound(env, x) && lo <= |x.caps|
    ensures Results(env, Set(points, icase), lo, false, x) == OneCharStep(env, Set(points, icase), false, x)
  {
  }

  lemma OptionalSet(env: Env, points: seq<nat>, icase: bool, lo: nat, x: State)
    requires Sound(env, x) && lo <= |x.caps|
    ensures Results(env, Repeat(Set(points, icase), 0, Fin(1), true), lo, false, x) ==
            OneCharStep(env, Set(points, icase), false, x) + [x]
  {
    hide Results, Accepts, InPoints;
    var b := Set(points, icase);
    ResultsRepeat(env, b, 0, Fin(1), true, lo, false, x);
    assert Clear(x, lo, lo + Groups(b)).caps == x.caps;
    assert Clear(x, lo, lo + Groups(b)) == x;
    SetResults(env, points, icase, lo, x);
    var ys := OneCharStep(env, b, false, x);
    assert Moved(ys, x.e) == ys;
    if ys != [] {
      var y := ys[0];
      assert y in ys && ys[1..] == [];
      assert RepeatFrom(env, b, lo, false, 0, Fin(0), true, y) == [y];
      var rest := RepeatAll(env, b, lo, false, 0, Fin(0), true, x, ys[1..], Distance(env, false, x.e) - 1);
      assert rest == [];
      assert RepeatAll(env, b, lo, false, 0, Fin(0), true, x, ys, Distance(env, false, x.e) - 1) == [y] + rest;
      assert Less(Fin(1)) == Fin(0);
      assert [y] + rest == ys;
    }
    assert Iterate(env, b, lo, false, 0, Fin(1), true, x) == ys;
  }

  /** Longer members come first. */
  lemma {:induction false} LongestFirst(env: Env, strs: seq<seq<nat>>, points: seq<nat>, icase: bool, hasEmpty: bool, x: State, i: nat, j: nat)
    requires Sound(env, x) && (forall k :: 0 <= k < |strs| ==> |strs[k]| >= 2)
    requires forall k, l :: 0 <= k < l < |strs| ==> |strs[k]| >= |strs[l]|
    requires i < j < |Tries(env, strs, points, icase, hasEmpty, x)|
    ensures Tries(env, strs, points, icase, hasEmpty, x)[i].e >= Tries(env, strs, points, icase, hasEmpty, x)[j].e
    decreases |strs|
  {
    hide TextAt, Accepts;
    if strs != [] {
      var first, rest := TryString(env, strs[0], icase, x), Tries(env, strs[1..], points, icase, hasEmpty, x);
      if i >= |first| {
        LongestFirst(env, strs[1..], points, icase, hasEmpty, x, i - |first|, j - |first|);
      } else {
        NoLonger(env, strs[1..], points, icase, hasEmpty, x, |strs[0]|, j - |first|);
      }
    }
  }

  lemma {:induction false} NoLonger(env: Env, strs: seq<seq<nat>>, points: seq<nat>, icase: bool, hasEmpty: bool, x: State, n: nat, j: nat)
    requires Sound(env, x) && n >= 2 && forall k :: 0 <= k < |strs| ==> |strs[k]| <= n
    requires j < |Tries(env, strs, points, icase, hasEmpty, x)|
    ensures Tries(env, strs, points, icase, hasEmpty, x)[j].e <= x.e + n
    decreases |strs|
  {
    hide TextAt, Accepts;
    if strs != [] {
      var first := TryString(env, strs[0], icase, x);
      if j >= |first| { NoLonger(env, strs[1..], points, icase, hasEmpty, x, n, j - |first|); }
    }
  }

  /** Some result lies at `e`. */
  ghost predicate Reaches(ys: seq<State>, e: nat) {
    exists y :: y in ys && y.e == e
  }

  function Folded(env: Env, icase: bool, ch: nat): nat {
    if icase then env.fold(ch) else ch
  }

  /** The string stands at `e`, character by character, under ignore-case after folding the input. */
  predicate Stands(env: Env, text: seq<nat>, icase: bool, e: nat) {
    e + |text| <= |env.input| && forall j :: 0 <= j < |text| ==> text[j] == Folded(env, icase, env.input[e + j])
  }

  ghost predicate SomeText(env: Env, strs: seq<seq<nat>>, icase: bool, e: nat, n: nat) {
    exists k :: 0 <= k < |strs| && |strs[k]| == n && TextAt(env, strs[k], icase, e)
  }

  /** Where the tries lead. */
  lemma {:induction false} TriesReach(env: Env, strs: seq<seq<nat>>, points: seq<nat>, icase: bool, hasEmpty: bool, x: State, n: nat)
    requires Sound(env, x)
    ensures Reaches(Tries(env, strs, points, icase, hasEmpty, x), x.e + n) <==>
            || SomeText(env, strs, icase, x.e, n)
            || (n == 1 && x.e < |env.input| && InPoints(points, Folded(env, icase, env.input[x.e])))
            || (n == 0 && hasEmpty)
    decreases |strs|
  {
    hide TextAt, InPoints;
    var ys := Tries(env, strs, points, icase, hasEmpty, x);
    if strs == [] {
      LastTries(env, points, icase, hasEmpty, x, n);
    } else {
      var first, rest := TryString(env, strs[0], icase, x), Tries(env, strs[1..], points, icase, hasEmpty, x);
      TriesReach(env, strs[1..], points, icase, hasEmpty, x, n);
      ReachEither(first, rest, x.e + n);
      SomeFirst(env, strs, icase, x.e, n);
      assert Reaches(first, x.e + n) <==> |strs[0]| == n && TextAt(env, strs[0], icase, x.e) by {
        if TextAt(env, strs[0], icase, x.e) { assert first[0] in first; }
      }
    }
  }

  lemma LastTries(env: Env, points: seq<nat>, icase: bool, hasEmpty: bool, x: State, n: nat)
    requires Sound(env, x)
    ensures Reaches(TryPoints(env, points, icase, x) + (if hasEmpty then [x] else []), x.e + n) <==>
            || (n == 1 && x.e < |env.input| && InPoints(points, Folded(env, icase, env.input[x.e])))
            || (n == 0 && hasEmpty)
  {
    var ys, last := TryPoints(env, points, icase, x), if hasEmpty then [x] else [];
    ReachEither(ys, last, x.e + n);
    if ys != [] { assert ys[0] in ys; }
    if hasEmpty { assert last[0] in last; }
  }

  lemma ReachEither(ys: seq<State>, zs: seq<State>, e: nat)
    ensures Reaches(ys + zs, e) <==> Reaches(ys, e) || Reaches(zs, e)
  {
    if y :| y in ys && y.e == e { assert y in ys + zs; }
    if z :| z in zs && z.e == e { assert z in ys + zs; }
  }

  lemma SomeFirst(env: Env, strs: seq<seq<nat>>, icase: bool, e: nat, n: nat)
    requires strs != []
    ensures SomeText(env, strs, icase, e, n) <==>
            (|strs[0]| == n && TextAt(env, strs[0], icase, e)) || SomeText(env, strs[1..], icase, e, n)
  {
    hide TextAt;
    if SomeText(env, strs, icase, e, n) {
      var k :| 0 <= k < |strs| && |strs[k]| == n && TextAt(env, strs[k], icase, e);
      if k > 0 { assert strs[1..][k - 1] == strs[k]; }
    }
    if SomeText(env, strs[1..], icase, e, n) {
      var k :| 0 <= k < |strs[1..]| && |strs[1..][k]| == n && TextAt(env, strs[1..][k], icase, e);
      assert strs[k + 1] == strs[1..][k];
    }
  }

  // ----- its code -----

  function TextCode(text: seq<nat>, icase: bool): seq<byte> {
    if text == [] then [] else TextCode(text[..|text| - 1], icase) + Encode(CharInstr(text[|text| - 1], icase))
  }

  function TextCodes(strs: seq<seq<nat>>, icase: bool): (cs: seq<seq<byte>>)
    ensures |cs| == |strs|
    ensures forall k :: 0 <= k < |strs| ==> cs[k] == TextCode(strs[k], icase)
  {
    seq(|strs|, k requires 0 <= k < |strs| => TextCode(strs[k], icase))
  }

  /** What stands behind the blocks: single characters, skipped when the empty string is a member too. */
  function TailCode(points: seq<nat>, icase: bool, hasEmpty: bool): seq<byte>
    requires |points| % 2 == 0
  {
    if points == [] then []
    else
      var r := RangeCode(points, icase);
      if hasEmpty then Encode(Split(true, |r|)) + r else r
  }

  /** Choices nested to the right. */
  function Nest(cs: seq<seq<byte>>, tail: seq<byte>): seq<byte> {
    if cs == [] then tail else OrCode(cs[0], Nest(cs[1..], tail))
  }

  lemma {:induction false} PairedString(text: seq<nat>, icase: bool)
    ensures Paired(StringNode(text, icase))
  {
    if text != [] { PairedString(text[..|text| - 1], icase); }
  }

  lemma {:induction false} PairedList(strs: seq<seq<nat>>, points: seq<nat>, icase: bool, hasEmpty: bool)
    requires |points| % 2 == 0
    ensures Paired(ListNode(strs, points, icase, hasEmpty))
  {
    if strs != [] {
      PairedString(strs[0], icase);
      PairedList(strs[1..], points, icase, hasEmpty);
    }
  }

  lemma {:induction false} TextCodeIs(fold: nat -> nat, text: seq<nat>, icase: bool, lo: nat)
    requires icase ==> forall j :: 0 <= j < |text| ==> fold(text[j]) == text[j]
    ensures Paired(StringNode(text, icase)) && RawCode(fold, StringNode(text, icase), lo, false) == TextCode(text, icase)
  {
    hide Encode, RepeatCode, OrCode, LookCode, LoopRegisters;
    PairedString(text, icase);
    if text != [] {
      var n := |text| - 1;
      TextCodeIs(fold, text[..n], icase, lo);
      CodeCatIs(fold, StringNode(text, icase), lo, false, 0, false);
    }
  }

  /** No jump is needed behind the last string when nothing follows it. */
  predicate LastAlone(strs: seq<seq<nat>>, points: seq<nat>, hasEmpty: bool) {
    strs != [] && points == [] && !hasEmpty
  }

  function BlockCount(strs: seq<seq<nat>>, points: seq<nat>, hasEmpty: bool): nat {
    if LastAlone(strs, points, hasEmpty) then |strs| - 1 else |strs|
  }

  function Behind(strs: seq<seq<nat>>, points: seq<nat>, icase: bool, hasEmpty: bool): seq<byte>
    requires |points| % 2 == 0
  {
    if LastAlone(strs, points, hasEmpty) then TextCode(strs[|strs| - 1], icase) else TailCode(points, icase, hasEmpty)
  }

  ghost predicate FoldFixed(fold: nat -> nat, strs: seq<seq<nat>>) {
    forall k, j :: 0 <= k < |strs| && 0 <= j < |strs[k]| ==> fold(strs[k][j]) == strs[k][j]
  }

  /** The code of the node: blocks nested to the right, then what stands behind them. */
  lemma {:induction false} ListCodeIs(fold: nat -> nat, strs: seq<seq<nat>>, points: seq<nat>, icase: bool, hasEmpty: bool, lo: nat)
    requires |points| % 2 == 0 && (icase ==> FoldFixed(fold, strs))
    ensures Paired(ListNode(strs, points, icase, hasEmpty))
    ensures RawCode(fold, ListNode(strs, points, icase, hasEmpty), lo, false) ==
            Nest(TextCodes(strs[..BlockCount(strs, points, hasEmpty)], icase), Behind(strs, points, icase, hasEmpty))
    decreases |strs|
  {
    hide Encode, RepeatCode, OrCode, LookCode, RangeCode, TextCode, TailCode, RawCode, StringNode, FoldFixed;
    PairedList(strs, points, icase, hasEmpty);
    FixedParts(fold, strs, icase);
    var m := BlockCount(strs, points, hasEmpty);
    if strs == [] {
      TailIs(fold, points, icase, hasEmpty, lo);
    } else {
      TextCodeIs(fold, strs[0], icase, lo);
      var rest := strs[1..];
      if |strs| == 1 && points == [] && !hasEmpty {
        assert strs[..m] == [];
      } else {
        NoGroupsString(strs[0], icase);
        ListCodeIs(fold, rest, points, icase, hasEmpty, lo);
        RawOr(fold, StringNode(strs[0], icase), ListNode(rest, points, icase, hasEmpty), lo);
        var cs := TextCodes(strs[..m], icase);
        assert cs[1..] == TextCodes(rest[..m - 1], icase);
      }
    }
  }

  lemma FixedParts(fold: nat -> nat, strs: seq<seq<nat>>, icase: bool)
    requires icase ==> FoldFixed(fold, strs)
    ensures strs != [] ==> (icase ==> forall j :: 0 <= j < |strs[0]| ==> fold(strs[0][j]) == strs[0][j])
    ensures strs != [] ==> (icase ==> FoldFixed(fold, strs[1..]))
  {
  }

  lemma RawOr(fold: nat -> nat, l: Node, r: Node, lo: nat)
    requires Paired(Or(l, r)) && Groups(l) == 0
    ensures RawCode(fold, Or(l, r), lo, false) == OrCode(RawCode(fold, l, lo, false), RawCode(fold, r, lo, false))
  {
    hide Code, OrCode;
    CodeOrIs(fold, l, r, lo, false, 0, false);
  }

  lemma TailIs(fold: nat -> nat, points: seq<nat>, icase: bool, hasEmpty: bool, lo: nat)
    requires |points| % 2 == 0
    ensures Paired(ListNode([], points, icase, hasEmpty))
    ensures RawCode(fold, ListNode([], points, icase, hasEmpty), lo, false) == TailCode(points, icase, hasEmpty)
  {
    hide Encode, OrCode, LookCode, RangeCode;
    var b := Set(points, icase);
    var r := RangeCode(points, icase);
    assert RawCode(fold, b, lo, false) == r;
    if points != [] && hasEmpty {
      var n := Repeat(b, 0, Fin(1), true);
      CodeRepeatIs(fold, n, lo, false, 0, false);
      assert PreCode(b, lo) == [] && AtomCode(b, lo, r) == r;
      assert StarCode(r, false, true, false, 0) == Encode(Split(true, |r|)) + r by {
        assert [] + r + [] == r;
      }
      assert [] + (Encode(Split(true, |r|)) + r) == Encode(Split(true, |r|)) + r;
    }
  }

  // ----- blocks whose jumps are still open -----

  function Block(c: seq<byte>, op: int): (r: seq<byte>)
    ensures |r| == |c| + 10
  {
    assert |Encode(Split(true, |c| + 5))| == Bytecode.Size(Split(true, |c| + 5));
    assert |Encode(Goto(op))| == Bytecode.Size(Goto(op));
    Encode(Split(true, |c| + 5)) + c + Encode(Goto(op))
  }

  function Blocks(cs: seq<seq<byte>>, ops: seq<int>): (r: seq<byte>)
    requires |cs| == |ops|
    ensures |r| == BlocksSize(cs)
  {
    if cs == [] then [] else Block(cs[0], ops[0]) + Blocks(cs[1..], ops[1..])
  }

  function BlocksSize(cs: seq<seq<byte>>): nat {
    if cs == [] then 0 else |cs[0]| + 10 + BlocksSize(cs[1..])
  }

  lemma {:induction false} BlocksSplit(cs: seq<seq<byte>>, ops: seq<int>, k: nat)
    requires |cs| == |ops| && k <= |cs|
    ensures Blocks(cs, ops) == Blocks(cs[..k], ops[..k]) + Blocks(cs[k..], ops[k..])
    decreases k
  {
    hide Block;
    if k == 0 {
      assert cs[0..] == cs && ops[0..] == ops && cs[..0] == [] && ops[..0] == [];
    } else {
      BlocksSplit(cs[1..], ops[1..], k - 1);
      assert cs[..k][1..] == cs[1..][..k - 1] && ops[..k][1..] == ops[1..][..k - 1];
      assert cs[1..][k - 1..] == cs[k..] && ops[1..][k - 1..] == ops[k..];
    }
  }

  lemma BlocksAppend(cs: seq<seq<byte>>, ops: seq<int>, c: seq<byte>, op: int)
    requires |cs| == |ops|
    ensures Blocks(cs + [c], ops + [op]) == Blocks(cs, ops) + Block(c, op)
  {
    hide Block;
    BlocksSplit(cs + [c], ops + [op], |cs|);
    assert (cs + [c])[..|cs|] == cs && (ops + [op])[..|cs|] == ops;
    assert (cs + [c])[|cs|..] == [c] && (ops + [op])[|cs|..] == [op];
    assert Blocks([c], [op]) == Block(c, op) + [];
  }

  /** The offset of each jump to the end. */
  function FinalOps(cs: seq<seq<byte>>, tail: seq<byte>): seq<int> {
    if cs == [] then [] else [|Nest(cs[1..], tail)|] + FinalOps(cs[1..], tail)
  }

  lemma {:induction false} NestIsBlocks(cs: seq<seq<byte>>, tail: seq<byte>)
    ensures |FinalOps(cs, tail)| == |cs|
    ensures Nest(cs, tail) == Blocks(cs, FinalOps(cs, tail)) + tail
  {
    hide Encode;
    if cs != [] {
      NestIsBlocks(cs[1..], tail);
      var ops, rest := FinalOps(cs, tail), Nest(cs[1..], tail);
      assert ops[0] == |rest| && ops[1..] == FinalOps(cs[1..], tail);
      assert OrCode(cs[0], rest) == Block(cs[0], |rest|) + rest;
    } else {
      assert [] + tail == tail;
    }
  }

  lemma {:induction false} FinalOpsAt(cs: seq<seq<byte>>, tail: seq<byte>, k: nat)
    requires k < |cs|
    ensures |FinalOps(cs, tail)| == |cs|
    ensures FinalOps(cs, tail)[k] == BlocksSize(cs[k + 1..]) + |tail|
    decreases |cs|
  {
    hide Nest;
    NestIsBlocks(cs, tail);
    NestIsBlocks(cs[1..], tail);
    if k > 0 {
      FinalOpsAt(cs[1..], tail, k - 1);
      assert cs[1..][k..] == cs[k + 1..];
    }
  }

  lemma SizeSplit(cs: seq<seq<byte>>, k: nat)
    requires k < |cs|
    ensures BlocksSize(cs) == BlocksSize(cs[..k]) + |cs[k]| + 10 + BlocksSize(cs[k + 1..])
  {
    var ops := seq(|cs|, i => 0);
    BlocksSplit(cs, ops, k);
    assert cs[k..][1..] == cs[k + 1..] && cs[k..][0] == cs[k];
    assert |Blocks(cs, ops)| == |Blocks(cs[..k], ops[..k])| + |Blocks(cs[k..], ops[k..])|;
  }

  /** Where the operand of jump `k` stands, when the blocks start at `base`. */
  function OperandAt(cs: seq<seq<byte>>, base: nat, k: nat): nat
    requires k < |cs|
  {
    base + BlocksSize(cs[..k]) + 5 + |cs[k]| + 1
  }

  /** While they are open, each jump holds the place of the one before it; -1 ends the list. */
  function ThreadedOps(cs: seq<seq<byte>>, base: nat): (ops: seq<int>)
    ensures |ops| == |cs|
  {
    seq(|cs|, j requires 0 <= j < |cs| => if j == 0 then -1 else OperandAt(cs, base, j - 1))
  }

  /** Jumps below `k` are still threaded; the others are done. */
  function MixedOps(cs: seq<seq<byte>>, base: nat, tail: seq<byte>, k: nat): (ops: seq<int>)
    requires k <= |cs|
    ensures |ops| == |cs|
  {
    NestIsBlocks(cs, tail);
    ThreadedOps(cs, base)[..k] + FinalOps(cs, tail)[k..]
  }

  lemma ThreadOne(cs: seq<seq<byte>>, base: nat, k: nat)
    requires k < |cs|
    ensures ThreadedOps(cs[..k + 1], base) == ThreadedOps(cs[..k], base) + [if k == 0 then -1 else OperandAt(cs, base, k - 1)]
  {
    var ops, ops' := ThreadedOps(cs[..k], base), ThreadedOps(cs[..k + 1], base);
    forall i | 0 <= i < k ensures OperandAt(cs[..k + 1], base, i) == OperandAt(cs, base, i) == OperandAt(cs[..k], base, i) {
      assert cs[..k + 1][..i] == cs[..i] == cs[..k][..i];
    }
    forall j | 0 <= j < k ensures ops'[j] == ops[j] {}
  }

  // ----- writing it -----

  ghost function Texts(strs: seq<Str>): (r: seq<seq<nat>>)
    ensures |r| == |strs|
  {
    seq(|strs|, k requires 0 <= k < |strs| => strs[k].text)
  }

  /** The non-empty strings, the longest first. */
  ghost predicate Ordering(e: multiset<Str>, strs: seq<Str>) {
    && (forall p: Str :: multiset(strs)[p] == if p.text == [] then 0 else e[p])
    && forall k, l :: 0 <= k < l < |strs| ==> |strs[k].text| >= |strs[l].text|
  }

  /** As much of the table as has been walked through. */
  ghost predicate Collected(table: Chains, i: nat, k: nat, tab: seq<Str>, hasEmpty: bool)
    requires i <= |table| && (i < |table| ==> k <= |table[i]|)
  {
    var e := Elements(table[..i]) + if i < |table| then multiset(table[i][..k]) else multiset{};
    && (forall p: Str :: multiset(tab)[p] == if p.text == [] then 0 else e[p])
    && (hasEmpty <==> exists p :: p in e && p.text == [])
  }

  lemma CollectOne(table: Chains, i: nat, k: nat, tab: seq<Str>, hasEmpty: bool)
    requires i < |table| && k < |table[i]| && Collected(table, i, k, tab, hasEmpty)
    ensures var p := table[i][k];
            if p.text == [] then Collected(table, i, k + 1, tab, true) else Collected(table, i, k + 1, tab + [p], hasEmpty)
  {
    hide Elements;
    var q := table[i][k];
    var before, after := Elements(table[..i]) + multiset(table[i][..k]), Elements(table[..i]) + multiset(table[i][..k + 1]);
    assert table[i][..k + 1] == table[i][..k] + [q];
    assert after == before + multiset{q};
    assert multiset(tab + [q]) == multiset(tab) + multiset{q};
    assert q in after;
    forall p: Str ensures p in after <==> p in before || p == q {}
  }

  lemma CollectChain(table: Chains, i: nat, tab: seq<Str>, hasEmpty: bool)
    requires i < |table| && Collected(table, i, |table[i]|, tab, hasEmpty)
    ensures Collected(table, i + 1, 0, tab, hasEmpty)
  {
    assert table[i][..|table[i]|] == table[i] && table[..i + 1][..i] == table[..i];
    if i + 1 < |table| { assert table[i + 1][..0] == []; }
  }

  lemma CollectStart(table: Chains)
    ensures Collected(table, 0, 0, [], false)
  {
    assert table[..0] == [];
    if |table| > 0 { assert table[0][..0] == []; }
  }

  /** The strings of the table apart from the empty one, and whether that is there. */
  method Collect(table: Chains) returns (tab: seq<Str>, hasEmpty: bool)
    ensures Collected(table, |table|, 0, tab, hasEmpty)
  {
    hide Collected;
    tab, hasEmpty := [], false;
    CollectStart(table);
    var i := 0;
    while i < |table|
      invariant 0 <= i <= |table| && Collected(table, i, 0, tab, hasEmpty)
    {
      var k := 0;
      while k < |table[i]|
        invariant 0 <= k <= |table[i]| && Collected(table, i, k, tab, hasEmpty)
      {
        var p := table[i][k];
        CollectOne(table, i, k, tab, hasEmpty);
        if |p.text| == 0 {
          hasEmpty := true;
        } else {
          tab := tab + [p];
        }
        k := k + 1;
      }
      CollectChain(table, i, tab, hasEmpty);
      i := i + 1;
    }
  }

  function ByLength(p: Str, q: Str): int {
    (if |p.text| < |q.text| then 1 else 0) - (if |p.text| > |q.text| then 1 else 0)
  }

  lemma ByLengthCompares()
    ensures Sorting.Comparison(ByLength)
  {
  }

  /** Sorts the strings, the longest first. */
  method SortStrings(tab: seq<Str>, ghost e: multiset<Str>) returns (strs: seq<Str>)
    requires forall p: Str :: multiset(tab)[p] == if p.text == [] then 0 else e[p]
    ensures Ordering(e, strs)
  {
    var a := new Str[|tab|](k requires 0 <= k < |tab| => tab[k]);
    assert a[..] == tab;
    ByLengthCompares();
    Sorting.Rqsort(a, ByLength);
    strs := a[..];
    forall k, l | 0 <= k < l < |strs| ensures |strs[k].text| >= |strs[l].text| {
      assert ByLength(strs[k], strs[l]) <= 0;
    }
  }

  lemma GotoBytes(op: int)
    ensures Encode(Goto(op)) == [OP_GOTO] + LE32(op)
  {
    JumpBytes(true, op);
  }

  /** Overwriting the operand of jump `k` changes that jump and nothing else. */
  lemma PatchOne(before: seq<byte>, cs: seq<seq<byte>>, ops: seq<int>, tail: seq<byte>, k: nat, v: int, all: seq<byte>)
    requires |cs| == |ops| && k < |cs| && all == before + Blocks(cs, ops) + tail
    ensures var pos := OperandAt(cs, |before|, k);
            && pos + 4 <= |all| && At(all, pos, LE32(ops[k]))
            && all[..pos] + LE32(v) + all[pos + 4..] == before + Blocks(cs, ops[k := v]) + tail
  {
    hide Block, LE32, Encode;
    var c := cs[k];
    var s1 := Encode(Split(true, |c| + 5));
    var x, y := Blocks(cs[..k], ops[..k]), Blocks(cs[k + 1..], ops[k + 1..]);
    BlocksAround(cs, ops, k);
    BlocksAround(cs, ops[k := v], k);
    assert ops[k := v][..k] == ops[..k] && ops[k := v][k + 1..] == ops[k + 1..];
    BlockIs(c, ops[k]);
    BlockIs(c, v);
    assert |s1| == 5 by { assert |s1| == Bytecode.Size(Split(true, |c| + 5)); }
    PatchInside(before, x, s1 + c, y, tail, ops[k], v, all);
  }

  lemma PatchInside(before: seq<byte>, x: seq<byte>, b: seq<byte>, y: seq<byte>, tail: seq<byte>, op: int, v: int, all: seq<byte>)
    requires all == before + (x + (b + ([OP_GOTO] + LE32(op))) + y) + tail
    ensures var pos := |before| + |x| + |b| + 1;
            && pos + 4 <= |all| && At(all, pos, LE32(op))
            && all[..pos] + LE32(v) + all[pos + 4..] == before + (x + (b + ([OP_GOTO] + LE32(v))) + y) + tail
  {
    hide LE32, At;
    var head := before + x + b;
    Regroup(before, x, b, [OP_GOTO] + LE32(op), y, tail);
    Regroup(before, x, b, [OP_GOTO] + LE32(v), y, tail);
    Patched(head, OP_GOTO, op, v, y + tail, all);
    OperandBytes(head, OP_GOTO, LE32(op), y + tail, all);
  }

  lemma OperandBytes(head: seq<byte>, op: byte, word: seq<byte>, rest: seq<byte>, all: seq<byte>)
    requires all == head + ([op] + word) + rest
    ensures At(all, |head| + 1, word)
  {
    assert all == (head + [op]) + word + rest;
    assert all[|head| + 1..|head| + 1 + |word|] == word;
  }

  lemma Regroup(before: seq<byte>, x: seq<byte>, b: seq<byte>, g: seq<byte>, y: seq<byte>, tail: seq<byte>)
    ensures before + (x + (b + g) + y) + tail == (before + x + b) + g + (y + tail)
  {
  }

  lemma BlocksAround(cs: seq<seq<byte>>, ops: seq<int>, k: nat)
    requires |cs| == |ops| && k < |cs|
    ensures Blocks(cs, ops) == Blocks(cs[..k], ops[..k]) + Block(cs[k], ops[k]) + Blocks(cs[k + 1..], ops[k + 1..])
    ensures |Blocks(cs[..k], ops[..k])| == BlocksSize(cs[..k])
  {
    hide Block;
    BlocksSplit(cs, ops, k);
    assert cs[k..][1..] == cs[k + 1..] && ops[k..][1..] == ops[k + 1..];
  }

  lemma BlockIs(c: seq<byte>, op: int)
    ensures Block(c, op) == (Encode(Split(true, |c| + 5)) + c) + ([OP_GOTO] + LE32(op))
  {
    hide LE32, Encode;
    GotoBytes(op);
  }

  /** The threaded jumps are followed from the last to the first, and made to lead to the end. */
  method PatchAll(s: Compiler, last0: int, ghost before: seq<byte>, ghost cs: seq<seq<byte>>, ghost tail: seq<byte>)
    requires s.byteCode == before + Blocks(cs, ThreadedOps(cs, |before|)) + tail && |s.byteCode| < TWO31
    requires last0 == if cs == [] then -1 else OperandAt(cs, |before|, |cs| - 1)
    modifies s`byteCode
    ensures s.byteCode == before + Nest(cs, tail)
  {
    hide Blocks, LE32, U32, S32, Nest, FinalOps, OperandAt, ThreadedOps, BlocksSize;
    ghost var k := |cs|;
    var last := last0;
    MixedStart(cs, |before|, tail);
    while last != -1
      invariant 0 <= k <= |cs| && last == if k == 0 then -1 else OperandAt(cs, |before|, k - 1)
      invariant s.byteCode == before + Blocks(cs, MixedOps(cs, |before|, tail, k)) + tail && |s.byteCode| < TWO31
      decreases k
    {
      k := k - 1;
      ghost var ops := MixedOps(cs, |before|, tail, k + 1);
      PatchOne(before, cs, ops, tail, k, |s.byteCode| - (last + 4), s.byteCode);
      MixedStep(cs, |before|, tail, k);
      OperandBound(cs, |before|, k, ops, tail);
      ReadBack(s.byteCode, last, ops[k]);
      var nextPos := S32(U32(s.byteCode, last));
      ghost var size := |s.byteCode|;
      s.Put(last, LE32(|s.byteCode| - (last + 4)));
      last := nextPos;
    }
    NestIsBlocks(cs, tail);
    MixedEnd(cs, |before|, tail);
  }

  lemma ReadBack(p: seq<byte>, pos: nat, v: int)
    requires At(p, pos, LE32(v)) && -1 <= v < TWO31
    ensures pos + 4 <= |p| && S32(U32(p, pos)) == v
  {
    ReadWord(p, pos, v);
  }

  lemma MixedStart(cs: seq<seq<byte>>, base: nat, tail: seq<byte>)
    ensures MixedOps(cs, base, tail, |cs|) == ThreadedOps(cs, base)
  {
    NestIsBlocks(cs, tail);
  }

  lemma MixedEnd(cs: seq<seq<byte>>, base: nat, tail: seq<byte>)
    ensures MixedOps(cs, base, tail, 0) == FinalOps(cs, tail)
  {
    NestIsBlocks(cs, tail);
  }

  lemma MixShift(a: seq<int>, b: seq<int>, k: nat)
    requires k < |a| == |b|
    ensures |a[..k + 1] + b[k + 1..]| == |a| && (a[..k + 1] + b[k + 1..])[k] == a[k]
    ensures a[..k] + b[k..] == (a[..k + 1] + b[k + 1..])[k := b[k]]
  {
  }

  lemma ThreadedAt(cs: seq<seq<byte>>, base: nat, k: nat)
    requires k < |cs|
    ensures ThreadedOps(cs, base)[k] == if k == 0 then -1 else OperandAt(cs, base, k - 1)
  {
  }

  lemma DistanceToEnd(cs: seq<seq<byte>>, base: nat, tail: seq<byte>, k: nat)
    requires k < |cs|
    ensures |FinalOps(cs, tail)| == |cs|
    ensures FinalOps(cs, tail)[k] == base + BlocksSize(cs) + |tail| - (OperandAt(cs, base, k) + 4)
  {
    hide Nest, BlocksSize, FinalOps;
    FinalOpsAt(cs, tail, k);
    SizeSplit(cs, k);
  }

  /** One more jump is done: its offset leads from its end to the end of everything. */
  lemma MixedStep(cs: seq<seq<byte>>, base: nat, tail: seq<byte>, k: nat)
    requires k < |cs|
    ensures var ops := MixedOps(cs, base, tail, k + 1);
            && ops[k] == (if k == 0 then -1 else OperandAt(cs, base, k - 1))
            && MixedOps(cs, base, tail, k) == ops[k := base + BlocksSize(cs) + |tail| - (OperandAt(cs, base, k) + 4)]
  {
    hide Nest, FinalOps, BlocksSize, OperandAt, ThreadedOps, MixedOps;
    DistanceToEnd(cs, base, tail, k);
    ThreadedAt(cs, base, k);
    MixedShift(cs, base, tail, k);
  }

  lemma MixedShift(cs: seq<seq<byte>>, base: nat, tail: seq<byte>, k: nat)
    requires k < |cs|
    ensures |FinalOps(cs, tail)| == |cs|
    ensures MixedOps(cs, base, tail, k + 1)[k] == ThreadedOps(cs, base)[k]
    ensures MixedOps(cs, base, tail, k) == MixedOps(cs, base, tail, k + 1)[k := FinalOps(cs, tail)[k]]
  {
    hide Nest, FinalOps, BlocksSize, OperandAt, ThreadedOps, MixedOps;
    MixedIs(cs, base, tail, k);
    MixedIs(cs, base, tail, k + 1);
    MixShift(ThreadedOps(cs, base), FinalOps(cs, tail), k);
  }

  lemma MixedIs(cs: seq<seq<byte>>, base: nat, tail: seq<byte>, k: nat)
    requires k <= |cs|
    ensures |FinalOps(cs, tail)| == |cs|
    ensures MixedOps(cs, base, tail, k) == ThreadedOps(cs, base)[..k] + FinalOps(cs, tail)[k..]
  {
    NestIsBlocks(cs, tail);
  }

  lemma OperandBound(cs: seq<seq<byte>>, base: nat, k: nat, ops: seq<int>, tail: seq<byte>)
    requires k < |cs| && |ops| == |cs|
    ensures k > 0 ==> 0 <= OperandAt(cs, base, k - 1) < base + BlocksSize(cs)
    ensures 0 <= OperandAt(cs, base, k) && |Blocks(cs, ops)| == BlocksSize(cs)
  {
    if k > 0 { SizeSplit(cs, k - 1); }
  }

  method EmitText(s: Compiler, text: seq<nat>, icase: bool)
    modifies s`byteCode
    ensures s.byteCode == old(s.byteCode) + TextCode(text, icase)
  {
    hide Encode;
    var j := 0;
    while j < |text|
      invariant 0 <= j <= |text| && s.byteCode == old(s.byteCode) + TextCode(text[..j], icase)
    {
      assert text[..j + 1][..j] == text[..j];
      s.EmitChar(text[j], icase);
      j := j + 1;
    }
    assert text[..j] == text;
  }

  /** A string that others follow: a choice in front, and an open jump behind that holds the place of the last one. */
  method EmitBlock(s: Compiler, text: seq<nat>, icase: bool, last: int) returns (pos: nat)
    modifies s`byteCode
    ensures s.byteCode == old(s.byteCode) + Block(TextCode(text, icase), last)
    ensures pos == |old(s.byteCode)| + 5 + |TextCode(text, icase)| + 1
  {
    hide LE32, TextCode, Encode, Block;
    ghost var before, c := s.byteCode, TextCode(text, icase);
    var splitPos := s.EmitOpU32(OP_SPLIT_NEXT_FIRST, 0);
    EmitText(s, text, icase);
    pos := s.EmitOpU32(OP_GOTO, last);
    ghost var g := [OP_GOTO] + LE32(last);
    Tailed(before + ([OP_SPLIT_NEXT_FIRST] + LE32(0)), c, g);
    Patched(before, OP_SPLIT_NEXT_FIRST, 0, |c| + 5, c + g, s.byteCode);
    s.Put(splitPos, LE32(|s.byteCode| - (splitPos + 4)));
    JumpBytes(true, |c| + 5);
    BlockIs(c, last);
    JoinedLook(before, [OP_SPLIT_NEXT_FIRST] + LE32(|c| + 5), c, g);
  }

  /** The strings that have a jump behind them. */
  method EmitBlocks(s: Compiler, strs: seq<Str>, m: nat, icase: bool) returns (last: int, ghost cs: seq<seq<byte>>)
    requires m <= |strs|
    modifies s`byteCode
    ensures cs == TextCodes(Texts(strs)[..m], icase)
    ensures s.byteCode == old(s.byteCode) + Blocks(cs, ThreadedOps(cs, |old(s.byteCode)|))
    ensures last == if cs == [] then -1 else OperandAt(cs, |old(s.byteCode)|, |cs| - 1)
  {
    hide Block, TextCode, OperandAt, ThreadedOps, Blocks;
    ghost var before := s.byteCode;
    cs := TextCodes(Texts(strs)[..m], icase);
    last := -1;
    var i := 0;
    NoBlocks(cs, |before|);
    while i < m
      invariant 0 <= i <= m && s.byteCode == before + Blocks(cs[..i], ThreadedOps(cs[..i], |before|))
      invariant last == if i == 0 then -1 else OperandAt(cs, |before|, i - 1)
    {
      ghost var ops := ThreadedOps(cs[..i], |before|);
      ThreadOne(cs, |before|, i);
      BlocksAppend(cs[..i], ops, cs[i], last);
      assert cs[..i + 1] == cs[..i] + [cs[i]];
      OperandIs(cs, |before|, i, ops);
      last := EmitBlock(s, strs[i].text, icase, last);
      i := i + 1;
    }
    assert cs[..i] == cs;
  }

  lemma NoBlocks(cs: seq<seq<byte>>, base: nat)
    ensures Blocks(cs[..0], ThreadedOps(cs[..0], base)) == []
  {
  }

  lemma OperandIs(cs: seq<seq<byte>>, base: nat, k: nat, ops: seq<int>)
    requires k < |cs| && |ops| == k
    ensures OperandAt(cs, base, k) == base + |Blocks(cs[..k], ops)| + 5 + |cs[k]| + 1
  {
  }

  /** The single characters, skipped by a choice when the empty string is a member. */
  method EmitTail(s: Compiler, points: seq<nat>, icase: bool, hasEmpty: bool) returns (ok: bool)
    requires |points| % 2 == 0
    modifies s`byteCode
    ensures ok <==> |points| / 2 < 65535
    ensures ok ==> s.byteCode == old(s.byteCode) + TailCode(points, icase, hasEmpty)
  {
    hide LE32, RangeCode, Encode;
    ok := true;
    if |points| != 0 {
      ghost var before, r := s.byteCode, RangeCode(points, icase);
      var splitPos := 0;
      if hasEmpty {
        splitPos := s.EmitOpU32(OP_SPLIT_NEXT_FIRST, 0);
      }
      ok := s.EmitRange(points, icase);
      if ok && hasEmpty {
        Patched(before, OP_SPLIT_NEXT_FIRST, 0, |r|, r, s.byteCode);
        s.Put(splitPos, LE32(|s.byteCode| - (splitPos + 4)));
        JumpBytes(true, |r|);
      }
    }
  }

  /** The pattern that a string list stands for. */
  ghost function ListAst(strs: seq<Str>, points: seq<nat>, icase: bool, hasEmpty: bool, count: nat): Node {
    if count == 0 then Set(points, icase) else ListNode(Texts(strs), points, icase, hasEmpty)
  }

  /** However strings of the same length are ordered, the code stays below 2^31 bytes. */
  ghost predicate CodeFits(fold: nat -> nat, size: nat, e: multiset<Str>, points: seq<nat>, icase: bool, hasEmpty: bool)
    requires |points| % 2 == 0
  {
    forall strs :: Ordering(e, strs) ==>
      PairedIs(strs, points, icase, hasEmpty) && size + |RawCode(fold, ListNode(Texts(strs), points, icase, hasEmpty), 0, false)| < TWO31
  }

  ghost predicate PairedIs(strs: seq<Str>, points: seq<nat>, icase: bool, hasEmpty: bool) {
    Paired(ListNode(Texts(strs), points, icase, hasEmpty))
  }

  /** The strings have been folded when the class was parsed. */
  ghost predicate AllFixed(fold: nat -> nat, e: multiset<Str>) {
    forall p :: p in e ==> forall j :: 0 <= j < |p.text| ==> fold(p.text[j]) == p.text[j]
  }

  lemma OrderedFixed(fold: nat -> nat, e: multiset<Str>, strs: seq<Str>)
    requires AllFixed(fold, e) && Ordering(e, strs)
    ensures FoldFixed(fold, Texts(strs))
  {
    var ts := Texts(strs);
    forall k, j | 0 <= k < |ts| && 0 <= j < |ts[k]| ensures fold(ts[k][j]) == ts[k][j] {
      assert strs[k] in multiset(strs);
      assert multiset(strs)[strs[k]] == e[strs[k]];
    }
  }

  lemma CollectEnd(table: Chains, bits: nat, tab: seq<Str>, hasEmpty: bool)
    requires InPlace(table, bits) && Collected(table, |table|, 0, tab, hasEmpty)
    ensures forall p: Str :: multiset(tab)[p] == if p.text == [] then 0 else Elements(table)[p]
    ensures hasEmpty <==> Entry([]) in Elements(table)
    ensures |tab| <= |Elements(table)|
  {
    hide Elements, HashOf;
    assert table[..|table|] == table;
    ElementsEntries(table, bits);
    var e := Elements(table);
    assert e + multiset{} == e;
    assert hasEmpty <==> exists p :: p in e && p.text == [];
    assert multiset(tab) <= e;
    assert |e| == |e - multiset(tab)| + |multiset(tab)| by { assert e == (e - multiset(tab)) + multiset(tab); }
    assert |multiset(tab)| == |tab|;
  }

  /** A list with strings has some to write, or the empty one. */
  lemma SomeString(e: multiset<Str>, strs: seq<Str>, hasEmpty: bool)
    requires Ordering(e, strs) && |e| > 0 && (hasEmpty <==> Entry([]) in e) && forall p :: p in e ==> p == Entry(p.text)
    ensures strs != [] || hasEmpty
  {
    hide HashOf;
    var p :| p in e;
    if p.text != [] { assert multiset(strs)[p] == e[p]; }
  }

  /**
    Writes the code of a whole list. `strs` are its non-empty strings, the longest first;
    the code is that of the disjunction of the strings, the characters and the empty
    string in this order.
   */
  method EmitStringList(s: Compiler, sl: StringList, icase: bool) returns (ok: bool, ghost strs: seq<Str>, ghost hasEmpty: bool)
    requires sl.Valid() && |sl.cr.points| % 2 == 0 && (icase ==> AllFixed(s.fold, Elements(sl.table)))
    requires CodeFits(s.fold, |s.byteCode|, Elements(sl.table), sl.cr.points, icase, Entry([]) in Elements(sl.table))
    modifies s`byteCode
    ensures ok <==> |sl.cr.points| / 2 < 65535
    ensures Ordering(Elements(sl.table), strs) && (hasEmpty <==> Entry([]) in Elements(sl.table))
    ensures sl.nStrings > 0 ==> strs != [] || hasEmpty
    ensures Paired(ListAst(strs, sl.cr.points, icase, hasEmpty, sl.nStrings))
    ensures ok ==> s.byteCode == old(s.byteCode) + RawCode(s.fold, ListAst(strs, sl.cr.points, icase, hasEmpty, sl.nStrings), 0, false)
  {
    hide Elements, HashOf, RawCode, Blocks, ThreadedOps, OperandAt, TailCode, TextCode, Nest, AllFixed, FoldFixed, InPlace, Distinct, Sized, Canonical,
         Paired, Ordering, CodeFits, ListNode;
    ghost var before, e, points := s.byteCode, Elements(sl.table), sl.cr.points;
    if sl.nStrings == 0 {
      ok := s.EmitRange(sl.cr.points, icase);
      strs, hasEmpty := [], false;
      NoStrings(sl.table);
      SetCode(s.fold, points, icase);
    } else {
      var tab, empty := Collect(sl.table);
      CollectEnd(sl.table, sl.hashBits, tab, empty);
      assert |tab| <= sl.nStrings;
      var order := SortStrings(tab, e);
      strs, hasEmpty := order, empty;
      ElementsEntries(sl.table, sl.hashBits);
      SomeString(e, strs, hasEmpty);
      ok := EmitOrdered(s, order, sl.cr.points, icase, empty, e);
    }
  }

  lemma NoStrings(table: Chains)
    requires |Elements(table)| == 0
    ensures Ordering(Elements(table), []) && Entry([]) !in Elements(table)
  {
    hide HashOf, Elements;
    ElementsNone(table);
  }

  lemma SetCode(fold: nat -> nat, points: seq<nat>, icase: bool)
    requires |points| % 2 == 0
    ensures Paired(Set(points, icase)) && RawCode(fold, Set(points, icase), 0, false) == RangeCode(points, icase)
  {
  }

  /**
    What the emitted alternation does on a subject: it has a result `n` characters on just
    when some string of that length that the list holds stands there.
   */
  lemma ListMatches(env: Env, sl: StringList, icase: bool, strs: seq<Str>, hasEmpty: bool, lo: nat, x: State, n: nat)
    requires sl.Valid() && Ordering(Elements(sl.table), strs) && (hasEmpty <==> Entry([]) in Elements(sl.table))
    requires sl.nStrings > 0 ==> strs != [] || hasEmpty
    requires (icase ==> AllFixed(env.fold, Elements(sl.table))) && Sound(env, x) && lo <= |x.caps|
    ensures Groups(ListAst(strs, sl.cr.points, icase, hasEmpty, sl.nStrings)) == 0
    ensures Reaches(Results(env, ListAst(strs, sl.cr.points, icase, hasEmpty, sl.nStrings), lo, false, x), x.e + n) <==>
            exists text: seq<nat> :: |text| == n && sl.Holds(text) && Stands(env, text, icase, x.e)
  {
    hide Elements, Results, Tries, TextAt, InPoints, Canonical, Stands, InPlace, Sized, Distinct, Ordering, AllFixed, SomeText, HeldIn, HashOf;
    var e, points, texts := Elements(sl.table), sl.cr.points, Texts(strs);
    TriesReach(env, texts, points, icase, hasEmpty, x, n);
    ElementsEntries(sl.table, sl.hashBits);
    if sl.nStrings == 0 {
      NoneOrdered(e, strs);
      SetResults(env, points, icase, lo, x);
      SetTries(env, points, icase, x);
    } else {
      ListResults(env, texts, points, icase, hasEmpty, lo, x);
    }
    if SomeText(env, texts, icase, x.e, n) { TextIsHeld(env, e, strs, icase, x.e, n, points); }
    if exists text: seq<nat> :: |text| == n && sl.Holds(text) && Stands(env, text, icase, x.e) {
      var text: seq<nat> :| |text| == n && sl.Holds(text) && Stands(env, text, icase, x.e);
      HeldIsText(env, e, strs, icase, x.e, text, points);
    }
    if n == 1 && x.e < |env.input| && InPoints(points, Folded(env, icase, env.input[x.e])) {
      OneStands(env, points, e, icase, x.e);
      assert sl.Holds([Folded(env, icase, env.input[x.e])]);
    }
    if n == 0 && hasEmpty {
      EmptyStands(env, points, e, icase, x.e);
      assert sl.Holds([]);
    }
  }

  lemma NoneOrdered(e: multiset<Str>, strs: seq<Str>)
    requires Ordering(e, strs) && |e| == 0
    ensures strs == [] && Entry([]) !in e
  {
    assert e == multiset{} && multiset(strs) == multiset{};
    assert |multiset(strs)| == |strs|;
  }

  lemma SetTries(env: Env, points: seq<nat>, icase: bool, x: State)
    requires Sound(env, x)
    ensures OneCharStep(env, Set(points, icase), false, x) == Tries(env, [], points, icase, false, x)
  {
  }

  lemma OneStands(env: Env, points: seq<nat>, e: multiset<Str>, icase: bool, at: nat)
    requires at < |env.input| && InPoints(points, Folded(env, icase, env.input[at]))
    ensures var text := [Folded(env, icase, env.input[at])]; HeldIn(points, e, text) && Stands(env, text, icase, at)
  {
  }

  lemma EmptyStands(env: Env, points: seq<nat>, e: multiset<Str>, icase: bool, at: nat)
    requires at <= |env.input| && Entry([]) in e
    ensures HeldIn(points, e, []) && Stands(env, [], icase, at)
  {
  }

  /** Comparing with the folded input is what the character instructions do on strings in canonical form. */
  lemma StandsIs(env: Env, e: multiset<Str>, p: Str, icase: bool, at: nat)
    requires (icase ==> AllFixed(env.fold, e)) && p in e
    ensures TextAt(env, p.text, icase, at) <==> Stands(env, p.text, icase, at)
  {
    if icase { assert forall j :: 0 <= j < |p.text| ==> env.fold(p.text[j]) == p.text[j]; }
    if TextAt(env, p.text, icase, at) {
      forall j | 0 <= j < |p.text| ensures p.text[j] == Folded(env, icase, env.input[at + j]) {
        assert CharMatches(env, p.text[j], icase, env.input[at + j]);
      }
    }
  }

  lemma TextIsHeld(env: Env, e: multiset<Str>, strs: seq<Str>, icase: bool, at: nat, n: nat, points: seq<nat>)
    requires Ordering(e, strs) && (icase ==> AllFixed(env.fold, e)) && SomeText(env, Texts(strs), icase, at, n)
    requires forall p :: p in e ==> p == Entry(p.text) && |p.text| != 1
    ensures exists text: seq<nat> :: |text| == n && HeldIn(points, e, text) && Stands(env, text, icase, at)
  {
    hide TextAt, InPoints, Stands, AllFixed, HashOf;
    var k :| 0 <= k < |strs| && |Texts(strs)[k]| == n && TextAt(env, Texts(strs)[k], icase, at);
    assert strs[k] in multiset(strs);
    assert strs[k] in e;
    StandsIs(env, e, strs[k], icase, at);
    assert HeldIn(points, e, strs[k].text);
  }

  lemma HeldIsText(env: Env, e: multiset<Str>, strs: seq<Str>, icase: bool, at: nat, text: seq<nat>, points: seq<nat>)
    requires Ordering(e, strs) && (icase ==> AllFixed(env.fold, e)) && HeldIn(points, e, text) && Stands(env, text, icase, at)
    ensures |text| >= 2 ==> SomeText(env, Texts(strs), icase, at, |text|)
    ensures |text| == 1 ==> at < |env.input| && InPoints(points, Folded(env, icase, env.input[at]))
    ensures |text| == 0 ==> Entry([]) in e
  {
    hide TextAt, InPoints, AllFixed, HashOf;
    if |text| >= 2 {
      var p := Entry(text);
      assert multiset(strs)[p] == e[p];
      assert p in multiset(strs);
      var k :| 0 <= k < |strs| && strs[k] == p;
      assert Texts(strs)[k] == text;
      StandsIs(env, e, p, icase, at);
    }
  }

  /** The strings in order, then the characters; then the jumps are patched. */
  method EmitOrdered(s: Compiler, strs: seq<Str>, points: seq<nat>, icase: bool, hasEmpty: bool, ghost e: multiset<Str>) returns (ok: bool)
    requires |points| % 2 == 0 && Ordering(e, strs) && (icase ==> AllFixed(s.fold, e))
    requires CodeFits(s.fold, |s.byteCode|, e, points, icase, hasEmpty)
    modifies s`byteCode
    ensures ok <==> |points| / 2 < 65535
    ensures Paired(ListNode(Texts(strs), points, icase, hasEmpty))
    ensures ok ==> s.byteCode == old(s.byteCode) + RawCode(s.fold, ListNode(Texts(strs), points, icase, hasEmpty), 0, false)
  {
    hide RawCode, Blocks, ThreadedOps, OperandAt, TailCode, TextCode, Nest, AllFixed, FoldFixed, Ordering, CodeFits, ListNode, FinalOps;
    ghost var before, ts := s.byteCode, Texts(strs);
    if icase { OrderedFixed(s.fold, e, strs); }
    ListCodeIs(s.fold, ts, points, icase, hasEmpty, 0);
    OrderedFits(s.fold, |before|, e, strs, points, icase, hasEmpty);
    ghost var behind := Behind(ts, points, icase, hasEmpty);
    var alone := |strs| > 0 && |points| == 0 && !hasEmpty;
    var m := if alone then |strs| - 1 else |strs|;
    var last; ghost var cs;
    last, cs := EmitBlocks(s, strs, m, icase);
    ok := true;
    if alone {
      EmitText(s, strs[m].text, icase);
    } else {
      ok := EmitTail(s, points, icase, hasEmpty);
      if !ok {
        return;
      }
    }
    NestIsBlocks(cs, behind);
    PatchAll(s, last, before, cs, behind);
  }

  lemma OrderedFits(fold: nat -> nat, size: nat, e: multiset<Str>, strs: seq<Str>, points: seq<nat>, icase: bool, hasEmpty: bool)
    requires |points| % 2 == 0 && Ordering(e, strs) && CodeFits(fold, size, e, points, icase, hasEmpty)
    ensures Paired(ListNode(Texts(strs), points, icase, hasEmpty))
    ensures size + |RawCode(fold, ListNode(Texts(strs), points, icase, hasEmpty), 0, false)| < TWO31
  {
    hide RawCode;
  }
}
