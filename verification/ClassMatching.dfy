/**
  Character classes from end to end: built, compiled and run, a class accepts a character
  just when some member has the same form. Under ignore-case the form is the canonical one.
 */
module ClassMatching {
  import opened Bytes
  import opened Bytecode
  import opened Subjects
  import opened Patterns
  import opened PatternSemantics
  import opened RangeTable
  import opened CodeGen
  import opened Terms
  import opened Matching
  import opened Simulation
  import opened Engine
  import opened CaseFolding
  import opened Classes
  import SnapshotMachine

  /** Some member of the class has the form of `ch`. */
  ghost predicate HasForm(t: Tables, unicode: bool, icase: bool, items: seq<Item>, ch: nat)
    requires WellFormed(t)
  {
    exists k, c: nat :: 0 <= k < |items| && Member(items[k], c) && Form(t, unicode, icase, c) == Form(t, unicode, icase, ch)
  }

  lemma HasFormMeans(t: Tables, unicode: bool, icase: bool, items: seq<Item>, ch: nat)
    requires WellFormed(t)
    ensures HasForm(t, unicode, icase, items, ch) <==>
            if icase then
              exists k, c: nat :: 0 <= k < |items| && items[k].lo <= c <= items[k].hi && Canon(t, unicode, c) == Canon(t, unicode, ch)
            else
              exists k :: 0 <= k < |items| && items[k].lo <= ch <= items[k].hi
  {
    hide Canon, WellFormed;
    if HasForm(t, unicode, icase, items, ch) {
      var k, c: nat :| 0 <= k < |items| && Member(items[k], c) && Form(t, unicode, icase, c) == Form(t, unicode, icase, ch);
      assert items[k].lo <= c <= items[k].hi;
    }
    if icase {
      if k, c: nat :| 0 <= k < |items| && items[k].lo <= c <= items[k].hi && Canon(t, unicode, c) == Canon(t, unicode, ch) {
        assert Member(items[k], c) && Form(t, unicode, icase, c) == Form(t, unicode, icase, ch);
      }
    } else if k :| 0 <= k < |items| && items[k].lo <= ch <= items[k].hi {
      assert Member(items[k], ch) && Form(t, unicode, icase, ch) == Form(t, unicode, icase, ch);
    }
  }

  /** The folding of the matcher is that of the tables. */
  ghost predicate FoldsBy(fold: nat -> nat, t: Tables, unicode: bool)
    requires WellFormed(t)
  {
    forall c: nat :: fold(c) == Canon(t, unicode, c)
  }

  /** The set of a class, as the pattern semantics reads it; an empty set accepts nothing. */
  lemma ClassAccepts(env: Env, t: Tables, unicode: bool, icase: bool, items: seq<Item>, negated: bool, points: seq<nat>, ch: nat)
    requires WellFormed(t) && ClassIs(t, unicode, icase, items, negated, points) && FoldsBy(env.fold, t, unicode) && ch < 0x11_0000
    ensures Accepts(env, Node.Set(points, icase), ch) <==> (negated != HasForm(t, unicode, icase, items, ch))
  {
    hide InPoints, WellFormed, Canon, Canonical, Member;
    FormBound(t, unicode, icase, ch);
    var d := Form(t, unicode, icase, ch);
    assert InPoints(points, d) <==> negated != exists k :: 0 <= k < |items| && Gives(t, unicode, icase, items[k], d);
    if HasForm(t, unicode, icase, items, ch) {
      var k, c: nat :| 0 <= k < |items| && Member(items[k], c) && Form(t, unicode, icase, c) == d;
      assert Gives(t, unicode, icase, items[k], d);
    }
    if k :| 0 <= k < |items| && Gives(t, unicode, icase, items[k], d) {
      var c: nat :| Member(items[k], c) && Form(t, unicode, icase, c) == d;
      assert HasForm(t, unicode, icase, items, ch);
    }
  }

  /** The instruction emitted for the class, wherever it stands, accepts the same characters. */
  lemma CompiledClassAccepts(m: SnapshotMachine.Prog, t: Tables, unicode: bool, icase: bool, items: seq<Item>, negated: bool,
                             points: seq<nat>, pc: nat, ch: nat)
    requires WellFormed(t) && ClassIs(t, unicode, icase, items, negated, points) && FoldsBy(m.env.fold, t, unicode) && ch < 0x11_0000
    requires Ready(m) && |points| / 2 < 65535 && At(m.code, pc, RangeCode(points, icase))
    ensures Fetch(m.code, pc).Some?
    ensures var i := Fetch(m.code, pc).value;
            && (i.Char? || i.Range?)
            && (i.Range? ==> i.n >= 1 && SnapshotMachine.TableIn(m.code, pc + Size(i), i.big, i.n))
            && (SnapshotMachine.CharTest(m, i, pc + Size(i), ch) <==> (negated != HasForm(t, unicode, icase, items, ch)))
  {
    hide At, RangeCode, HasForm, Fetch, SnapshotMachine.CharTest, SnapshotMachine.TableIn, WellFormed;
    SetIsRange(m, points, icase, pc, ch);
    ClassAccepts(m.env, t, unicode, icase, items, negated, points, ch);
  }

  /** A pattern of one character matches at `e` just when the character there is accepted. */
  lemma OneCharMatches(env: Env, n: Node, e: nat)
    requires n.OneChar() && e <= |env.input|
    ensures Expected(env, n, true, e).Some? <==> e < |env.input| && Accepts(env, n, env.input[e])
  {
    hide Accepts;
    var x := State(e, NoCaptures(Groups(Group(n))));
    NoCapturesSound(env, Groups(Group(n)), e);
    ResultsGroup(env, n, 0, false, x);
    assert Results(env, n, 1, false, x) == OneCharStep(env, n, false, x);
  }

  lemma ClassProgramFits(fold: nat -> nat, points: seq<nat>, icase: bool)
    requires |points| % 2 == 0 && |points| / 2 < 65535
    ensures Paired(Node.Set(points, icase)) && |ProgramCode(fold, Node.Set(points, icase), true, true)| < TWO31
  {
    hide Encode, Table, NeedsWide;
    var n := Node.Set(points, icase);
    CodeGroupIs(fold, n, 0, false, 0, true);
    assert |Encode(Save(false, 0))| == Bytecode.Size(Save(false, 0)) && |Encode(Save(true, 0))| == Bytecode.Size(Save(true, 0));
    assert |Encode(Match)| == Bytecode.Size(Match);
    RangeCodeSize(points, icase);
  }

  lemma RangeCodeSize(points: seq<nat>, icase: bool)
    requires |points| % 2 == 0
    ensures |RangeCode(points, icase)| <= 5 + 4 * |points|
  {
    hide Encode, NeedsWide;
    if points == [] {
      assert |Encode(Instr.Char(UINT32_MAX, true, false))| == Bytecode.Size(Instr.Char(UINT32_MAX, true, false));
    } else {
      var i := Range(NeedsWide(points), icase, |points| / 2);
      assert |Encode(i)| == Bytecode.Size(i);
    }
  }

  lemma ClassInMemory(t: Tables, unicode: bool, icase: bool, points: seq<nat>, fold: nat -> nat, space: nat -> bool, subject: Subject)
    requires WellFormed(t) && FoldsBy(fold, t, unicode) && Canonical(points) && |points| / 2 < 65535
    requires forall i :: 0 <= i < |subject.units| ==> subject.units[i] < 0x1_0000
    ensures InMemory(Program(Node.Set(points, icase), true, fold, space, subject), Node.Set(points, icase), true, 0)
  {
    hide ProgramCode, Canon, WellFormed;
    ClassProgramFits(fold, points, icase);
    forall c | 0 <= c < 0x11_0000 ensures fold(c) < 0x11_0000 {
      FormBound(t, unicode, true, c);
    }
  }

  lemma CodePointsOnly(s: Subject, e: nat)
    requires e < |Input(s)| && forall i :: 0 <= i < |s.units| ==> s.units[i] < 0x1_0000
    ensures Input(s)[e] < 0x11_0000
  {
    StepForward(s, e);
    CharBelow(s, Offset(s, e), |s.units|);
  }

  /**
    Builds the class, compiles it as a pattern of its own and tries it at one place of the
    subject: there is a match just when a character is there and some member of the class
    has its form, or for a negated class none.
   */
  method MatchClass(t: Tables, unicode: bool, icase: bool, items: seq<Item>, negated: bool, fold: nat -> nat, space: nat -> bool,
                    subject: Subject, cindex: nat)
    returns (r: Outcome, points: seq<nat>)
    requires WellFormed(t) && AsciiAgrees(t, unicode) && AllCodePoints(items) && FoldsBy(fold, t, unicode)
    requires cindex <= |subject.units| && forall i :: 0 <= i < |subject.units| ==> subject.units[i] < 0x1_0000
    ensures ClassIs(t, unicode, icase, items, negated, points)
    ensures r.Rejected? <==> |points| / 2 >= 65535
    ensures !r.Rejected? ==>
              forall e :: 0 <= e <= |Input(subject)| && Offset(subject, e) == Aligned(subject, cindex) ==>
                (r.Matched? <==>
                 && e < |Input(subject)|
                 && negated != if icase then
                                 exists k, c: nat ::
                                   && 0 <= k < |items| && items[k].lo <= c <= items[k].hi
                                   && Canon(t, unicode, c) == Canon(t, unicode, Input(subject)[e])
                               else
                                 exists k :: 0 <= k < |items| && items[k].lo <= Input(subject)[e] <= items[k].hi)
  {
    hide WellFormed, AsciiAgrees, HasForm, FoldsBy, Canon, Expected, Accepts, Aligned, ProgramCode, Offset, Input, Valid;
    points := BuildClass(t, unicode, icase, items, negated);
    var n := Node.Set(points, icase);
    if Compiles(n) { ClassInMemory(t, unicode, icase, points, fold, space, subject); }
    ghost var m, start;
    r, m, start := CompileAndRun(n, true, fold, space, subject, cindex);
    OneCharMatches(m.env, n, start);
    if start < |Input(subject)| {
      CodePointsOnly(subject, start);
      ClassAccepts(m.env, t, unicode, icase, items, negated, points, Input(subject)[start]);
      HasFormMeans(t, unicode, icase, items, Input(subject)[start]);
    }
    forall e | 0 <= e <= |Input(subject)| && Offset(subject, e) == Aligned(subject, cindex) ensures e == start {
      OffsetOrder(subject, e, start);
    }
  }
}
