/**
  Patterns as the parser meets them: a disjunction is a list of alternatives, an
  alternative a list of terms. The code of a list is put together term by term.
 */
module Terms {
  import opened Bytes
  import opened Bytecode
  import opened Patterns
  import opened RangeTable
  import opened CodeGen
  import opened StraightLine

  const CAPTURE_COUNT_MAX: nat := 255

  /** The alternatives of a disjunction, from left to right. */
  function AlternativesOf(n: Node): (ns: seq<Node>)
    ensures |ns| >= 1
  {
    if n.Or? then AlternativesOf(n.l) + [n.r] else [n]
  }

  /** The terms of an alternative, from left to right. */
  function TermsOf(n: Node): seq<Node> {
    if n.Cat? then TermsOf(n.l) + [n.r] else if n.Empty? then [] else [n]
  }

  lemma {:induction false} AlternativesSmaller(n: Node)
    ensures forall k :: 0 <= k < |AlternativesOf(n)| ==> AlternativesOf(n)[k] < n || (AlternativesOf(n)[k] == n && !n.Or?)
    ensures |AlternativesOf(n)| > 1 ==> n.Or?
  {
    if n.Or? { AlternativesSmaller(n.l); }
  }

  lemma {:induction false} TermsSmaller(n: Node)
    ensures forall k :: 0 <= k < |TermsOf(n)| ==> TermsOf(n)[k] < n || (TermsOf(n)[k] == n && !n.Cat? && !n.Empty?)
  {
    if n.Cat? { TermsSmaller(n.l); }
  }

  function GroupsAll(ns: seq<Node>): nat {
    if ns == [] then 0 else GroupsAll(ns[..|ns| - 1]) + Groups(ns[|ns| - 1])
  }

  // ----- what is asked of a parsed pattern, and what the compiler refuses -----

  /**
    The parser has paired the end points of sets, resolved back references to at most
    255 groups, and read counts below the value that stands for infinity, in order.
   */
  predicate Resolved(n: Node) {
    match n
    case Set(points, _) => |points| % 2 == 0
    case BackRef(gs, _) => |gs| < 256
    case Cat(l, r) => Resolved(l) && Resolved(r)
    case Or(l, r) => Resolved(l) && Resolved(r)
    case Group(b) => Resolved(b)
    case Look(_, _, b) => Resolved(b)
    case Repeat(b, min, max, _) => Resolved(b) && Counts(min, max)
    case _ => true
  }

  predicate Counts(min: nat, max: Bound) {
    min < INT32_MAX && (max.Fin? ==> min <= max.n < INT32_MAX)
  }

  /** No set has too many ranges. */
  predicate SetsFit(n: Node) {
    match n
    case Set(points, _) => |points| / 2 < 65535
    case Cat(l, r) => SetsFit(l) && SetsFit(r)
    case Or(l, r) => SetsFit(l) && SetsFit(r)
    case Group(b) => SetsFit(b)
    case Look(_, _, b) => SetsFit(b)
    case Repeat(b, _, _, _) => SetsFit(b)
    case _ => true
  }

  /** With `lo` groups so far, the pattern neither has too large a set nor too many groups. */
  predicate Accepted(n: Node, lo: nat) {
    SetsFit(n) && (Groups(n) > 0 ==> lo + Groups(n) <= CAPTURE_COUNT_MAX)
  }

  lemma ResolvedPaired(n: Node)
    requires Resolved(n)
    ensures Paired(n)
    ensures SetsFit(n) ==> Encodable(n)
  {
  }

  predicate AllResolved(ns: seq<Node>) {
    forall k :: 0 <= k < |ns| ==> Resolved(ns[k])
  }

  predicate AllFit(ns: seq<Node>) {
    forall k :: 0 <= k < |ns| ==> SetsFit(ns[k])
  }

  predicate AllAccepted(ns: seq<Node>, lo: nat) {
    AllFit(ns) && (GroupsAll(ns) > 0 ==> lo + GroupsAll(ns) <= CAPTURE_COUNT_MAX)
  }

  lemma {:induction false} GroupsPrefix(ns: seq<Node>, k: nat)
    requires k <= |ns|
    ensures GroupsAll(ns[..k]) <= GroupsAll(ns)
  {
    if k < |ns| {
      GroupsPrefix(ns[..|ns| - 1], k);
      assert ns[..|ns| - 1][..k] == ns[..k];
    } else {
      assert ns[..k] == ns;
    }
  }

  /** One more term is accepted just when the terms with it are. */
  lemma AcceptNext(ns: seq<Node>, k: nat, lo: nat)
    requires k < |ns| && AllAccepted(ns[..k], lo)
    ensures GroupsAll(ns[..k + 1]) == GroupsAll(ns[..k]) + Groups(ns[k])
    ensures AllAccepted(ns[..k + 1], lo) <==> Accepted(ns[k], lo + GroupsAll(ns[..k]))
    ensures AllAccepted(ns, lo) ==> Accepted(ns[k], lo + GroupsAll(ns[..k]))
  {
    var next := ns[..k + 1];
    assert next[..k] == ns[..k] && next[k] == ns[k];
    GroupsPrefix(ns, k + 1);
    forall i | 0 <= i < k ensures SetsFit(next[i]) <==> SetsFit(ns[..k][i]) {}
    if AllAccepted(next, lo) { assert SetsFit(next[k]); }
  }

  lemma {:induction false} AlternativesAccepted(n: Node, lo: nat)
    ensures GroupsAll(AlternativesOf(n)) == Groups(n)
    ensures AllAccepted(AlternativesOf(n), lo) <==> Accepted(n, lo)
    ensures Resolved(n) ==> AllResolved(AlternativesOf(n))
  {
    var ns := AlternativesOf(n);
    if n.Or? {
      AlternativesAccepted(n.l, lo);
      assert ns[..|ns| - 1] == AlternativesOf(n.l) && ns[|ns| - 1] == n.r;
      JoinedFit(AlternativesOf(n.l), n.r);
      AlternativesFit(n.l);
    } else {
      assert ns == [n] && ns[..0] == [];
    }
  }

  lemma {:induction false} AlternativesFit(n: Node)
    ensures AllFit(AlternativesOf(n)) <==> SetsFit(n)
  {
    if n.Or? {
      AlternativesFit(n.l);
      JoinedFit(AlternativesOf(n.l), n.r);
    } else {
      assert AlternativesOf(n)[0] == n;
    }
  }

  lemma JoinedFit(ns: seq<Node>, n: Node)
    ensures AllFit(ns + [n]) <==> AllFit(ns) && SetsFit(n)
    ensures AllResolved(ns + [n]) <==> AllResolved(ns) && Resolved(n)
  {
    var all := ns + [n];
    assert all[|ns|] == n && forall k :: 0 <= k < |ns| ==> all[k] == ns[k];
  }

  lemma {:induction false} TermsAccepted(n: Node, lo: nat)
    ensures GroupsAll(TermsOf(n)) == Groups(n)
    ensures AllAccepted(TermsOf(n), lo) <==> Accepted(n, lo)
    ensures Resolved(n) ==> AllResolved(TermsOf(n))
  {
    var ns := TermsOf(n);
    if n.Cat? {
      TermsAccepted(n.l, lo);
      assert ns[..|ns| - 1] == TermsOf(n.l) && ns[|ns| - 1] == n.r;
      JoinedFit(TermsOf(n.l), n.r);
      TermsFit(n.l);
    } else if !n.Empty? {
      assert ns == [n] && ns[..0] == [];
    }
  }

  lemma {:induction false} TermsFit(n: Node)
    ensures AllFit(TermsOf(n)) <==> SetsFit(n)
  {
    if n.Cat? {
      TermsFit(n.l);
      JoinedFit(TermsOf(n.l), n.r);
    } else if !n.Empty? {
      assert TermsOf(n)[0] == n;
    }
  }

  // ----- code of lists -----

  /** Code as it is first written: register operands are 0. */
  function RawCode(fold: nat -> nat, n: Node, lo: nat, back: bool): seq<byte>
    requires Paired(n)
  {
    Code(fold, n, lo, back, 0, false)
  }

  /** Before registers are numbered, code does not depend on those in use around it. */
  lemma {:induction false} Unnumbered(fold: nat -> nat, n: Node, lo: nat, back: bool, d: nat)
    requires Paired(n)
    ensures Code(fold, n, lo, back, d, false) == RawCode(fold, n, lo, back)
    decreases n
  {
    hide Encode, OneCharCode, RepeatCode, OrCode, LookCode, LoopRegisters;
    match n
    case Cat(_, _) =>
      Unnumbered(fold, n.l, if back then SecondLo(n, lo, back) else FirstLo(n, lo, back), back, d);
      Unnumbered(fold, n.r, if back then FirstLo(n, lo, back) else SecondLo(n, lo, back), back, d);
    case Or(l, r) => Unnumbered(fold, l, lo, back, d); Unnumbered(fold, r, lo + Groups(l), back, d);
    case Group(b) => Unnumbered(fold, b, lo + 1, back, d);
    case Look(_, behind, b) => Unnumbered(fold, b, lo, behind, d);
    case Repeat(b, min, max, greedy) =>
      var k := LoopRegisters(b, back, min, max);
      Unnumbered(fold, b, lo, back, d + k);
      Unnumbered(fold, b, lo, back, 0 + k);
      RepeatUnnumbered(b, lo, back, min, max, greedy, d, RawCode(fold, b, lo, back));
    case _ =>
  }

  lemma RepeatUnnumbered(b: Node, lo: nat, back: bool, min: nat, max: Bound, greedy: bool, d: nat, body: seq<byte>)
    ensures RepeatCode(b, lo, back, min, max, greedy, d, false, body) == RepeatCode(b, lo, back, min, max, greedy, 0, false, body)
  {
    hide Encode, AtomCode, PreCode, StarCode, CountedCode;
  }

  predicate AllPaired(ns: seq<Node>) {
    forall k :: 0 <= k < |ns| ==> Paired(ns[k])
  }

  /** Each new term goes after those before it when matching forward, in front of them backward. */
  function SequenceCode(fold: nat -> nat, ns: seq<Node>, lo: nat, back: bool): seq<byte>
    requires AllPaired(ns)
  {
    if ns == [] then []
    else
      var before, n := ns[..|ns| - 1], ns[|ns| - 1];
      var rest, last := SequenceCode(fold, before, lo, back), RawCode(fold, n, lo + GroupsAll(before), back);
      if back then last + rest else rest + last
  }

  function ChoiceCode(fold: nat -> nat, ns: seq<Node>, lo: nat, back: bool): seq<byte>
    requires AllPaired(ns) && |ns| >= 1
  {
    var before, n := ns[..|ns| - 1], ns[|ns| - 1];
    if |ns| == 1 then RawCode(fold, n, lo, back)
    else OrCode(ChoiceCode(fold, before, lo, back), RawCode(fold, n, lo + GroupsAll(before), back))
  }

  /** The code of an alternative is put together from its terms, going forward or backward. */
  lemma {:induction false} SequenceIs(fold: nat -> nat, n: Node, lo: nat, back: bool)
    requires Paired(n)
    ensures AllPaired(TermsOf(n)) && SequenceCode(fold, TermsOf(n), lo, back) == RawCode(fold, n, lo, back)
  {
    hide Encode, OneCharCode, RepeatCode, OrCode, LookCode, LoopRegisters;
    var ns := TermsOf(n);
    if n.Cat? {
      SequenceIs(fold, n.l, lo, back);
      TermsAccepted(n.l, lo);
      assert ns[..|ns| - 1] == TermsOf(n.l) && ns[|ns| - 1] == n.r;
    } else if !n.Empty? {
      assert ns == [n] && ns[..0] == [];
      assert [] + RawCode(fold, n, lo, back) == RawCode(fold, n, lo, back) == RawCode(fold, n, lo, back) + [];
    }
  }

  /** The code of a disjunction is put together from its alternatives. */
  lemma {:induction false} ChoiceIs(fold: nat -> nat, n: Node, lo: nat, back: bool)
    requires Paired(n)
    ensures AllPaired(AlternativesOf(n)) && ChoiceCode(fold, AlternativesOf(n), lo, back) == RawCode(fold, n, lo, back)
  {
    hide Code, OrCode;
    var ns := AlternativesOf(n);
    if n.Or? {
      ChoiceIs(fold, n.l, lo, back);
      AlternativesAccepted(n.l, lo);
      assert ns[..|ns| - 1] == AlternativesOf(n.l) && ns[|ns| - 1] == n.r;
      CodeOrIs(fold, n.l, n.r, lo, back, 0, false);
    }
  }

  lemma SequenceNext(fold: nat -> nat, ns: seq<Node>, k: nat, lo: nat, back: bool)
    requires AllPaired(ns) && k < |ns|
    ensures AllPaired(ns[..k]) && AllPaired(ns[..k + 1])
    ensures SequenceCode(fold, ns[..k + 1], lo, back) ==
            var rest, last := SequenceCode(fold, ns[..k], lo, back), RawCode(fold, ns[k], lo + GroupsAll(ns[..k]), back);
            if back then last + rest else rest + last
  {
    hide RawCode;
    assert ns[..k + 1][..k] == ns[..k];
  }

  lemma ChoiceNext(fold: nat -> nat, ns: seq<Node>, k: nat, lo: nat, back: bool)
    requires AllPaired(ns) && 1 <= k < |ns|
    ensures AllPaired(ns[..k]) && AllPaired(ns[..k + 1])
    ensures ChoiceCode(fold, ns[..k + 1], lo, back) ==
            OrCode(ChoiceCode(fold, ns[..k], lo, back), RawCode(fold, ns[k], lo + GroupsAll(ns[..k]), back))
  {
    hide RawCode, OrCode;
    assert ns[..k + 1][..k] == ns[..k];
  }
}
