/**
  Patterns after parsing. Capture groups carry no number: a group is numbered by the
  order of its opening parenthesis, so every function over patterns takes the number
  `lo` of the first group inside.
 */
module Patterns {

  datatype Bound = Fin(n: nat) | Inf

  datatype Node =
    | Empty
    | Char(c: nat, icase: bool)
    | Dot
    | AnyChar
    | Space(negated: bool)
    | Set(points: seq<nat>, icase: bool)
    | Line(atEnd: bool, multi: bool)
    | Word(negated: bool, icase: bool)
    | BackRef(groups: seq<nat>, icase: bool)
    | Cat(l: Node, r: Node)
    | Or(l: Node, r: Node)
    | Group(body: Node)
    | Look(negated: bool, behind: bool, body: Node)
    | Repeat(body: Node, min: nat, max: Bound, greedy: bool)
  {
    predicate OneChar() {
      Char? || Dot? || AnyChar? || Space? || Set?
    }

    predicate Assertion() {
      Line? || Word?
    }
  }

  /** The number of capture groups inside a pattern. */
  function Groups(n: Node): nat {
    match n
    case Cat(l, r) => Groups(l) + Groups(r)
    case Or(l, r) => Groups(l) + Groups(r)
    case Group(b) => 1 + Groups(b)
    case Look(_, _, b) => Groups(b)
    case Repeat(b, _, _, _) => Groups(b)
    case _ => 0
  }

  // In a sequence, the term matched first is the left one going forward and the right
  // one going backward. These functions give the two terms and their first groups.

  function FirstTerm(n: Node, back: bool): Node
    requires n.Cat?
  {
    if back then n.r else n.l
  }

  function SecondTerm(n: Node, back: bool): Node
    requires n.Cat?
  {
    if back then n.l else n.r
  }

  function FirstLo(n: Node, lo: nat, back: bool): nat
    requires n.Cat?
  {
    if back then lo + Groups(n.l) else lo
  }

  function SecondLo(n: Node, lo: nat, back: bool): nat
    requires n.Cat?
  {
    if back then lo else lo + Groups(n.l)
  }

  /** The groups of the two terms are next to each other and make up those of the sequence. */
  lemma TermGroups(n: Node, lo: nat, back: bool)
    requires n.Cat?
    ensures Groups(n) == Groups(FirstTerm(n, back)) + Groups(SecondTerm(n, back))
    ensures lo <= FirstLo(n, lo, back) && FirstLo(n, lo, back) + Groups(FirstTerm(n, back)) <= lo + Groups(n)
    ensures lo <= SecondLo(n, lo, back) && SecondLo(n, lo, back) + Groups(SecondTerm(n, back)) <= lo + Groups(n)
    ensures if back then SecondLo(n, lo, back) + Groups(SecondTerm(n, back)) == FirstLo(n, lo, back)
            else FirstLo(n, lo, back) + Groups(FirstTerm(n, back)) == SecondLo(n, lo, back)
  {
  }

  /** A code point lies in the set given by a sorted list of end points: start, end, start, end, ... */
  predicate InPoints(points: seq<nat>, c: nat) {
    exists k :: 0 <= k < |points| / 2 && InInterval(points, k, c)
  }

  predicate InInterval(points: seq<nat>, k: nat, c: nat)
    requires 2 * k + 1 < |points|
  {
    points[2 * k] <= c < points[2 * k + 1]
  }
}
