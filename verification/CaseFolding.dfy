/**
  Case folding for regular expressions: a table of runs of code points, a lookup by
  bisection, and the image of a whole set under the folding.
 */
module CaseFolding {
  import opened Bytecode
  import opened Patterns
  import opened RangeTable
  import opened CharRanges

  const RUN_UF := 2
  const RUN_LF := 3
  const RUN_UL := 4
  const RUN_LSU := 5
  const RUN_U2L_399_EXT2 := 6
  const RUN_UF_D20 := 7
  const RUN_UF_D1_EXT := 8
  const RUN_U_EXT := 9
  const RUN_LF_EXT := 10
  const RUN_LF_EXT2 := 12
  const RUN_UF_EXT3 := 13

  /** The generated tables: packed runs, the low byte of their data, and 16-bit code points. */
  datatype Tables = Tables(table1: seq<nat>, table2: seq<nat>, ext: nat -> nat)

  // A packed run holds, from the top: 17 bits of first code point, 7 bits of length,
  // 4 bits of type and 4 bits of data.

  function CodeOf(v: nat): nat {
    v / 0x8000
  }

  function LenOf(v: nat): nat {
    v / 0x100 % 0x80
  }

  function TypeOf(v: nat): nat {
    v / 0x10 % 0x10
  }

  predicate Covers(v: nat, c: nat) {
    CodeOf(v) <= c < CodeOf(v) + LenOf(v)
  }

  function DataOf(t: Tables, idx: nat): nat
    requires idx < |t.table1| == |t.table2|
  {
    t.table1[idx] % 0x10 * 0x100 + t.table2[idx]
  }

  /** Runs are sorted and disjoint; UL runs come in pairs, LSU runs in threes; indices are in range. */
  ghost predicate WellFormed(t: Tables) {
    && 0 < |t.table1| == |t.table2|
    && (forall i, j :: 0 <= i < j < |t.table1| ==> CodeOf(t.table1[i]) + LenOf(t.table1[i]) <= CodeOf(t.table1[j]))
    && (forall i :: 0 <= i < |t.table1| ==> RunFits(t, i))
    && (forall i :: t.ext(i) < 0x1_0000)
  }

  predicate RunFits(t: Tables, i: nat)
    requires i < |t.table1| == |t.table2|
  {
    var v := t.table1[i];
    && v < 0x1_0000_0000 && t.table2[i] < 0x100 && TypeOf(v) <= RUN_UF_EXT3
    && (TypeOf(v) == RUN_UL ==> LenOf(v) % 2 == 0)
    && (TypeOf(v) == RUN_LSU ==> LenOf(v) == 3)
    && (TypeOf(v) <= RUN_LF ==> DataOf(t, i) < |t.table1|)
  }

  /** Conversion by one entry: 0 is to upper case, 1 to lower case, 2 case folding. None when it gives several code points. */
  function ConvEntry(t: Tables, c: nat, conv: nat, idx: nat): Option<nat>
    requires WellFormed(t) && conv <= 2 && idx < |t.table1| && Covers(t.table1[idx], c)
  {
    assert RunFits(t, idx);
    var v, lower, data := t.table1[idx], conv != 0, DataOf(t, idx);
    var type_, a := TypeOf(v), c - CodeOf(v);
    if type_ <= RUN_LF then
      if conv == type_ % 2 || (type_ >= RUN_UF && conv == 2) then Some(a + CodeOf(t.table1[data])) else Some(c)
    else if type_ == RUN_UL then
      if a % 2 != (if lower then 0 else 1) then Some(c) else Some(CodeOf(v) + (if a % 2 == 0 then a + 1 else a - 1))
    else if type_ == RUN_LSU then
      if a == 1 then Some(if lower then c + 1 else c - 1)
      else if a == (if lower then 0 else 2) then Some(if lower then c + 2 else c - 2)
      else Some(c)
    else ConvSpecial(t, c, a, conv, type_, data)
  }

  function ConvSpecial(t: Tables, c: nat, a: nat, conv: nat, type_: nat, data: nat): Option<nat>
    requires conv <= 2
  {
    if type_ == RUN_U2L_399_EXT2 then
      if conv == 0 then None else Some(a + t.ext(data % 0x40))
    else if type_ == RUN_UF_D20 then
      Some(if conv == 1 then c else data + (if conv == 2 then 0x20 else 0))
    else if type_ == RUN_UF_D1_EXT then
      Some(if conv == 1 then c else t.ext(data) + (if conv == 2 then 1 else 0))
    else if type_ == RUN_U_EXT || type_ == RUN_LF_EXT then
      Some(if (if conv != 0 then 1 else 0) != type_ - RUN_U_EXT then c else t.ext(data))
    else if type_ == RUN_LF_EXT2 then
      if conv == 0 then Some(c) else None
    else
      if conv == 1 then Some(c) else None
  }

  function Upper(c: nat): nat {
    if 0x61 <= c <= 0x7A then c - 0x20 else c
  }

  function Lower(c: nat): nat {
    if 0x41 <= c <= 0x5A then c + 0x20 else c
  }

  function Fast(c: nat, unicode: bool): nat {
    if unicode then Lower(c) else Upper(c)
  }

  function FoldingEntry(t: Tables, c: nat, idx: nat, unicode: bool): nat
    requires WellFormed(t) && idx < |t.table1| && Covers(t.table1[idx], c)
  {
    if unicode then
      match ConvEntry(t, c, 2, idx)
      case Some(r) => r
      case None => if c == 0xFB06 then 0xFB05 else if c == 0x1FD3 then 0x390 else if c == 0x1FE3 then 0x3B0 else c
    else if c < 128 then Upper(c)
    else
      match ConvEntry(t, c, 0, idx)
      case Some(r) => if r >= 128 then r else c
      case None => c
  }

  /** The run that covers `c`; |table1| when there is none. */
  function FindRun(t: Tables, c: nat, i: nat): (r: nat)
    requires i <= |t.table1|
    ensures r <= |t.table1| && (r < |t.table1| ==> Covers(t.table1[r], c))
    decreases |t.table1| - i
  {
    if i == |t.table1| || Covers(t.table1[i], c) then i else FindRun(t, c, i + 1)
  }

  /** The canonical form of a code point (section 22.2.2.7.3 of ECMA-262). */
  function Canon(t: Tables, unicode: bool, c: nat): nat
    requires WellFormed(t)
  {
    if c < 128 then Fast(c, unicode)
    else
      var idx := FindRun(t, c, 0);
      if idx == |t.table1| then c else FoldingEntry(t, c, idx, unicode)
  }

  lemma RunUnique(t: Tables, i: nat, c: nat)
    requires WellFormed(t) && i < |t.table1| && Covers(t.table1[i], c)
    ensures FindRun(t, c, 0) == i
  {
    NotPassed(t, c, 0, i);
    RunOrder(t, i);
  }

  lemma {:induction false} NotPassed(t: Tables, c: nat, i: nat, k: nat)
    requires i <= k < |t.table1| && Covers(t.table1[k], c)
    ensures FindRun(t, c, i) <= k
    decreases k - i
  {
    if i < k { NotPassed(t, c, i + 1, k); }
  }

  lemma {:induction false} FoundFrom(t: Tables, c: nat, i: nat)
    requires i <= |t.table1|
    ensures forall k :: i <= k < FindRun(t, c, i) ==> !Covers(t.table1[k], c)
    decreases |t.table1| - i
  {
    if i < |t.table1| && !Covers(t.table1[i], c) { FoundFrom(t, c, i + 1); }
  }

  /** The lookup by bisection. */
  method LreCanonicalize(t: Tables, c: nat, unicode: bool) returns (r: nat)
    requires WellFormed(t)
    ensures r == Canon(t, unicode, c)
  {
    hide CodeOf, LenOf, FoldingEntry, WellFormed, FindRun;
    if c < 128 {
      return if unicode then (if 0x41 <= c <= 0x5A then c + 0x20 else c) else if 0x61 <= c <= 0x7A then c - 0x20 else c;
    }
    FoundFrom(t, c, 0);
    var idxMin: int, idxMax: int := 0, |t.table1| - 1;
    while idxMin <= idxMax
      invariant 0 <= idxMin <= idxMax + 1 <= |t.table1|
      invariant forall i :: 0 <= i < |t.table1| && Covers(t.table1[i], c) ==> idxMin <= i <= idxMax
      decreases idxMax - idxMin
    {
      var idx := (idxMax + idxMin) / 2;
      var v := t.table1[idx];
      RunOrder(t, idx);
      if c < CodeOf(v) {
        idxMax := idx - 1;
      } else if c >= CodeOf(v) + LenOf(v) {
        idxMin := idx + 1;
      } else {
        RunUnique(t, idx, c);
        return FoldingEntry(t, c, idx, unicode);
      }
    }
    NoRun(t, c);
    r := c;
  }

  lemma RunOrder(t: Tables, idx: nat)
    requires WellFormed(t) && idx < |t.table1|
    ensures forall i :: 0 <= i < idx ==> CodeOf(t.table1[i]) + LenOf(t.table1[i]) <= CodeOf(t.table1[idx])
    ensures forall i :: idx < i < |t.table1| ==> CodeOf(t.table1[idx]) + LenOf(t.table1[idx]) <= CodeOf(t.table1[i])
  {
  }

  lemma NoRun(t: Tables, c: nat)
    requires forall i :: 0 <= i < |t.table1| ==> !Covers(t.table1[i], c)
    ensures FindRun(t, c, 0) == |t.table1|
  {
  }

  // ----- the set of code points that folding may change -----

  /** Which conversions are asked about: to upper case, to lower case, folding. */
  datatype CaseMask = CaseMask(u: bool, l: bool, f: bool)

  const MASK_U: set<nat> := {0, 2, 4, 5, 6, 7, 8, 9, 11, 13}
  const MASK_L: set<nat> := {1, 3, 4, 5, 6, 10, 12}
  const MASK_F: set<nat> := {2, 3, 4, 5, 6, 7, 8, 10, 11, 12, 13}

  predicate Selected(m: CaseMask, type_: nat) {
    (m.u && type_ in MASK_U) || (m.l && type_ in MASK_L) || (m.f && type_ in MASK_F)
  }

  /** Both cases are asked about: runs of alternating case are taken whole. */
  predicate Whole(m: CaseMask) {
    m.u && (m.l || m.f)
  }

  /** Element `a` of a run of the given type is in the mask. */
  predicate Masked(m: CaseMask, type_: nat, a: nat) {
    && Selected(m, type_)
    && (Whole(m) || type_ != RUN_UL || a % 2 == if m.u then 1 else 0)
    && (Whole(m) || type_ != RUN_LSU || if m.u then 1 <= a <= 2 else a <= 1)
  }

  predicate InMask(t: Tables, m: CaseMask, idx: nat, c: nat)
    requires idx < |t.table1|
  {
    Covers(t.table1[idx], c) && Masked(m, TypeOf(t.table1[idx]), c - CodeOf(t.table1[idx]))
  }

  ghost predicate Affected(t: Tables, m: CaseMask, c: nat) {
    exists idx :: 0 <= idx < |t.table1| && InMask(t, m, idx, c)
  }

  /** What the mask says of the first `n` runs. */
  ghost predicate MaskedSoFar(t: Tables, m: CaseMask, n: nat, ps: seq<nat>)
    requires n <= |t.table1|
  {
    && NonDecreasing(ps) && |ps| % 2 == 0
    && (forall c: nat :: InPoints(ps, c) <==> exists idx :: 0 <= idx < n && InMask(t, m, idx, c))
    && (ps != [] && n < |t.table1| ==> ps[|ps| - 1] <= CodeOf(t.table1[n]))
    && forall v :: v in ps ==> v < 0x4_0000
  }

  /** The part of run `idx` that lies below `end` has been added. */
  ghost predicate PartAdded(t: Tables, m: CaseMask, idx: nat, before: seq<nat>, ps: seq<nat>, end: nat)
    requires idx < |t.table1|
  {
    && NonDecreasing(ps) && |ps| % 2 == 0
    && (forall c: nat :: InPoints(ps, c) <==> InPoints(before, c) || (InMask(t, m, idx, c) && c < end))
    && (ps != [] ==> ps[|ps| - 1] <= end)
    && forall v :: v in ps ==> v < 0x4_0000
  }

  lemma MaskStart(t: Tables, m: CaseMask)
    ensures MaskedSoFar(t, m, 0, [])
  {
  }

  lemma PartStart(t: Tables, m: CaseMask, idx: nat, ps: seq<nat>)
    requires idx < |t.table1| && MaskedSoFar(t, m, idx, ps)
    ensures PartAdded(t, m, idx, ps, ps, CodeOf(t.table1[idx]))
  {
    hide InPoints, Masked, CodeOf, LenOf;
  }

  /** One more interval of the run, with nothing of the mask around it. */
  lemma AddPiece(t: Tables, m: CaseMask, idx: nat, before: seq<nat>, ps: seq<nat>, end: nat, from: nat, to: nat, end': nat)
    requires idx < |t.table1| && PartAdded(t, m, idx, before, ps, end) && end <= from <= to <= end' < 0x4_0000
    requires forall c :: end <= c < end' ==> (InMask(t, m, idx, c) <==> from <= c < to)
    ensures PartAdded(t, m, idx, before, ps + [from, to], end')
  {
    hide InPoints, InMask;
    var qs := ps + [from, to];
    forall c: nat ensures InPoints(qs, c) <==> InPoints(before, c) || (InMask(t, m, idx, c) && c < end') {
      InPointsAppend(ps, from, to, c);
    }
    forall i, j | 0 <= i <= j < |qs| ensures qs[i] <= qs[j] {
      if i < |ps| { assert ps[i] <= ps[|ps| - 1]; }
    }
  }

  lemma NothingToAdd(t: Tables, m: CaseMask, idx: nat, before: seq<nat>, ps: seq<nat>, end: nat, end': nat)
    requires idx < |t.table1| && PartAdded(t, m, idx, before, ps, end) && end <= end'
    requires forall c :: end <= c < end' ==> !InMask(t, m, idx, c)
    ensures PartAdded(t, m, idx, before, ps, end')
  {
    hide InPoints, InMask;
  }

  lemma RunAdded(t: Tables, m: CaseMask, idx: nat, before: seq<nat>, ps: seq<nat>)
    requires WellFormed(t) && idx < |t.table1| && MaskedSoFar(t, m, idx, before)
    requires PartAdded(t, m, idx, before, ps, CodeOf(t.table1[idx]) + LenOf(t.table1[idx]))
    ensures MaskedSoFar(t, m, idx + 1, ps)
  {
    hide InPoints, Masked, CodeOf, LenOf;
    RunOrder(t, idx);
    forall c: nat ensures InPoints(ps, c) <==> exists i :: 0 <= i < idx + 1 && InMask(t, m, i, c) {
      assert InPoints(before, c) <==> exists i :: 0 <= i < idx && InMask(t, m, i, c);
      assert InMask(t, m, idx, c) ==> c < CodeOf(t.table1[idx]) + LenOf(t.table1[idx]);
    }
  }

  lemma RunBounds(t: Tables, idx: nat)
    requires WellFormed(t) && idx < |t.table1|
    ensures CodeOf(t.table1[idx]) < 0x2_0000 && LenOf(t.table1[idx]) < 0x80 && RunFits(t, idx)
  {
    assert RunFits(t, idx);
  }

  /** Adds what the runs of the table say, one run after the other. */
  method UnicodeCase1(t: Tables, cr: CharRange, m: CaseMask)
    requires WellFormed(t) && cr.points == []
    modifies cr
    ensures MaskedSoFar(t, m, |t.table1|, cr.points)
  {
    hide MaskedSoFar, PartAdded, CodeOf, LenOf, TypeOf, WellFormed;
    MaskStart(t, m);
    var idx := 0;
    while idx < |t.table1|
      invariant 0 <= idx <= |t.table1| && MaskedSoFar(t, m, idx, cr.points)
    {
      AddRun(t, cr, m, idx);
      idx := idx + 1;
    }
  }

  method AddRun(t: Tables, cr: CharRange, m: CaseMask, idx: nat)
    requires WellFormed(t) && idx < |t.table1| && MaskedSoFar(t, m, idx, cr.points)
    modifies cr
    ensures MaskedSoFar(t, m, idx + 1, cr.points)
  {
    hide MaskedSoFar, PartAdded, CodeOf, LenOf, TypeOf, WellFormed;
    var v := t.table1[idx];
    var type_, code, len := TypeOf(v), CodeOf(v), LenOf(v);
    ghost var before := cr.points;
    RunBounds(t, idx);
    PartStart(t, m, idx, before);
    if Selected(m, type_) {
      if type_ == RUN_UL && !Whole(m) {
        AddPairs(t, cr, m, idx, before);
      } else if type_ == RUN_LSU && !Whole(m) {
        AddTriple(t, cr, m, idx, before);
      } else {
        AddPiece(t, m, idx, before, cr.points, code, code, code + len, code + len);
        cr.AddInterval(code, code + len);
      }
    } else {
      NothingToAdd(t, m, idx, before, cr.points, code, code + len);
    }
    RunAdded(t, m, idx, before, cr.points);
  }

  /** Every other element of a run of pairs. */
  method AddPairs(t: Tables, cr: CharRange, m: CaseMask, idx: nat, ghost before: seq<nat>)
    requires WellFormed(t) && idx < |t.table1| && TypeOf(t.table1[idx]) == RUN_UL && Selected(m, RUN_UL) && !Whole(m)
    requires PartAdded(t, m, idx, before, cr.points, CodeOf(t.table1[idx]))
    modifies cr
    ensures PartAdded(t, m, idx, before, cr.points, CodeOf(t.table1[idx]) + LenOf(t.table1[idx]))
  {
    hide MaskedSoFar, PartAdded, CodeOf, LenOf, TypeOf, WellFormed, Selected;
    var code0, len := CodeOf(t.table1[idx]), LenOf(t.table1[idx]);
    var code := code0 + (if m.u then 1 else 0);
    RunBounds(t, idx);
    var i := 0;
    while i < len
      invariant 0 <= i <= len && i % 2 == 0 && PartAdded(t, m, idx, before, cr.points, code0 + i)
    {
      AddPiece(t, m, idx, before, cr.points, code0 + i, code + i, code + i + 1, code0 + i + 2);
      cr.AddInterval(code + i, code + i + 1);
      i := i + 2;
    }
  }

  /** Two elements of a run of three. */
  method AddTriple(t: Tables, cr: CharRange, m: CaseMask, idx: nat, ghost before: seq<nat>)
    requires WellFormed(t) && idx < |t.table1| && TypeOf(t.table1[idx]) == RUN_LSU && Selected(m, RUN_LSU) && !Whole(m)
    requires PartAdded(t, m, idx, before, cr.points, CodeOf(t.table1[idx]))
    modifies cr
    ensures PartAdded(t, m, idx, before, cr.points, CodeOf(t.table1[idx]) + LenOf(t.table1[idx]))
  {
    hide MaskedSoFar, PartAdded, CodeOf, LenOf, TypeOf, WellFormed, Selected;
    var code := CodeOf(t.table1[idx]);
    RunBounds(t, idx);
    if !m.u {
      AddPiece(t, m, idx, before, cr.points, code, code, code + 1, code + 1);
      cr.AddInterval(code, code + 1);
    } else {
      NothingToAdd(t, m, idx, before, cr.points, code, code + 1);
    }
    AddPiece(t, m, idx, before, cr.points, code + 1, code + 1, code + 2, code + 2);
    cr.AddInterval(code + 1, code + 2);
    if m.u {
      AddPiece(t, m, idx, before, cr.points, code + 2, code + 2, code + 3, code + 3);
      cr.AddInterval(code + 2, code + 3);
    } else {
      NothingToAdd(t, m, idx, before, cr.points, code + 2, code + 3);
    }
  }

  // ----- the image of a set -----

  function MaskFor(unicode: bool): CaseMask {
    CaseMask(!unicode, false, unicode)
  }

  /** For an ASCII code point the table and the fast path agree. */
  ghost predicate AsciiFits(t: Tables, unicode: bool, c: nat)
    requires WellFormed(t)
  {
    && (Fast(c, unicode) != c ==> Affected(t, MaskFor(unicode), c))
    && forall idx :: 0 <= idx < |t.table1| && InMask(t, MaskFor(unicode), idx, c) ==>
         FoldingEntry(t, c, idx, unicode) == Fast(c, unicode)
  }

  ghost predicate AsciiAgrees(t: Tables, unicode: bool)
    requires WellFormed(t)
  {
    forall c: nat :: c < 128 ==> AsciiFits(t, unicode, c)
  }

  /** The entry of an affected code point gives its canonical form. */
  lemma EntryIsCanon(t: Tables, unicode: bool, idx: nat, c: nat)
    requires WellFormed(t) && AsciiAgrees(t, unicode) && idx < |t.table1| && InMask(t, MaskFor(unicode), idx, c)
    ensures FoldingEntry(t, c, idx, unicode) == Canon(t, unicode, c)
  {
    hide FoldingEntry, Fast;
    if c < 128 { assert AsciiFits(t, unicode, c); } else { RunUnique(t, idx, c); }
  }

  /** A code point that the mask leaves out is its own canonical form. */
  lemma Unaffected(t: Tables, unicode: bool, c: nat)
    requires WellFormed(t) && AsciiAgrees(t, unicode) && !Affected(t, MaskFor(unicode), c)
    ensures Canon(t, unicode, c) == c
  {
    hide Fast, CodeOf, LenOf, TypeOf, WellFormed, Affected;
    if c < 128 {
      assert AsciiFits(t, unicode, c);
    } else {
      var idx := FindRun(t, c, 0);
      if idx < |t.table1| {
        NotMasked(t, unicode, c, idx);
        RunBounds(t, idx);
        EntryUnmasked(t, unicode, c, idx);
      }
    }
  }

  lemma NotMasked(t: Tables, unicode: bool, c: nat, idx: nat)
    requires idx < |t.table1| && Covers(t.table1[idx], c) && !Affected(t, MaskFor(unicode), c)
    ensures !Masked(MaskFor(unicode), TypeOf(t.table1[idx]), c - CodeOf(t.table1[idx]))
  {
    assert InMask(t, MaskFor(unicode), idx, c) <==> Masked(MaskFor(unicode), TypeOf(t.table1[idx]), c - CodeOf(t.table1[idx]));
  }

  lemma EntryUnmasked(t: Tables, unicode: bool, c: nat, idx: nat)
    requires WellFormed(t) && idx < |t.table1| && Covers(t.table1[idx], c) && c >= 128 && RunFits(t, idx)
    requires !Masked(MaskFor(unicode), TypeOf(t.table1[idx]), c - CodeOf(t.table1[idx]))
    ensures FoldingEntry(t, c, idx, unicode) == c
  {
    hide CodeOf, LenOf, TypeOf, WellFormed, DataOf;
    var type_ := TypeOf(t.table1[idx]);
    if unicode {
      assert type_ in {0, 1, 9} || type_ == RUN_UL || type_ == RUN_LSU;
    } else {
      assert type_ in {1, 3, 10, 12} || type_ == RUN_UL || type_ == RUN_LSU;
    }
  }

  /** `d` is the canonical form of some member. */
  ghost predicate Image(t: Tables, unicode: bool, ps: seq<nat>, d: nat)
    requires WellFormed(t)
  {
    exists c: nat :: InPoints(ps, c) && Canon(t, unicode, c) == d
  }

  /** A point list, with one more interval still being extended unless `dStart` is -1. */
  ghost predicate Held(ps: seq<nat>, dStart: int, dEnd: int, d: nat) {
    InPoints(ps, d) || (dStart != -1 && dStart <= d < dEnd)
  }

  /** The intervals collected so far are the image of `done`. */
  ghost predicate Folded(t: Tables, unicode: bool, done: seq<nat>, ps: seq<nat>, dStart: int, dEnd: int)
    requires WellFormed(t)
  {
    && Intervals(ps) && (dStart == dEnd == -1 || 0 <= dStart < dEnd <= 0x4_0000) && (forall v :: v in ps ==> v <= 0x4_0000)
    && forall d: nat :: Held(ps, dStart, dEnd, d) <==> Image(t, unicode, done, d)
  }

  lemma FoldedStart(t: Tables, unicode: bool)
    requires WellFormed(t)
    ensures Folded(t, unicode, [], [], -1, -1)
  {
  }

  /** The current interval is extended by `d`, or put away and a new one begun. */
  method Keep(result: CharRange, dStart0: int, dEnd0: int, d: nat) returns (dStart: int, dEnd: int)
    requires Intervals(result.points) && (dStart0 == -1 || 0 <= dStart0 < dEnd0)
    modifies result
    ensures Intervals(result.points) && 0 <= dStart < dEnd && (dEnd == d + 1)
    ensures forall v :: v in result.points ==> v in old(result.points) || v == dStart0 || v == dEnd0
    ensures forall x: nat :: Held(result.points, dStart, dEnd, x) <==> Held(old(result.points), dStart0, dEnd0, x) || x == d
  {
    dStart, dEnd := dStart0, dEnd0;
    if dStart == -1 {
      dStart, dEnd := d, d + 1;
    } else if dEnd == d {
      dEnd := dEnd + 1;
    } else {
      PutAway(result, dStart, dEnd);
      dStart, dEnd := d, d + 1;
    }
  }

  method PutAway(result: CharRange, dStart: nat, dEnd: nat)
    requires Intervals(result.points) && dStart < dEnd
    modifies result
    ensures Intervals(result.points) && result.points == old(result.points) + [dStart, dEnd]
    ensures forall x: nat :: InPoints(result.points, x) <==> InPoints(old(result.points), x) || dStart <= x < dEnd
  {
    hide InPoints;
    ghost var ps := result.points;
    result.AddInterval(dStart, dEnd);
    forall x: nat ensures InPoints(result.points, x) <==> InPoints(ps, x) || dStart <= x < dEnd {
      InPointsAppend(ps, dStart, dEnd, x);
    }
    IntervalsAppend(ps, dStart, dEnd);
  }

  lemma IntervalsAppend(ps: seq<nat>, start: nat, end: nat)
    requires Intervals(ps) && start < end
    ensures Intervals(ps + [start, end])
  {
    var qs := ps + [start, end];
    forall k | 0 <= k < |qs| / 2 ensures StartOf(qs, k) < EndOf(qs, k) {
      if k < |ps| / 2 { assert StartOf(ps, k) < EndOf(ps, k); }
    }
  }

  /** Going forward, the run of the next affected code point is never behind the current one. */
  method FindNext(t: Tables, c: nat, idx0: nat, ghost m: CaseMask) returns (idx: nat)
    requires WellFormed(t) && idx0 < |t.table1| && Affected(t, m, c)
    requires forall j :: 0 <= j < idx0 ==> CodeOf(t.table1[j]) + LenOf(t.table1[j]) <= c
    ensures idx < |t.table1| && InMask(t, m, idx, c)
    ensures forall j :: 0 <= j < idx ==> CodeOf(t.table1[j]) + LenOf(t.table1[j]) <= c
  {
    hide CodeOf, LenOf, TypeOf, Masked, WellFormed;
    ghost var k :| 0 <= k < |t.table1| && InMask(t, m, k, c);
    idx := idx0;
    while !(c >= CodeOf(t.table1[idx]) && c < CodeOf(t.table1[idx]) + LenOf(t.table1[idx]))
      invariant 0 <= idx <= k
      invariant forall j :: 0 <= j < idx ==> CodeOf(t.table1[j]) + LenOf(t.table1[j]) <= c
      decreases k - idx
    {
      RunOrder(t, idx);
      assert idx < k;
      idx := idx + 1;
      assert idx < |t.table1|;
    }
    RunOrder(t, idx);
  }

  ghost predicate OneMore(done: seq<nat>, done': seq<nat>, c: nat) {
    forall x: nat :: InPoints(done', x) <==> InPoints(done, x) || x == c
  }

  /** One more code point has been folded. */
  lemma FoldedMore(t: Tables, unicode: bool, done: seq<nat>, done': seq<nat>, c: nat, ps: seq<nat>, dStart: int, dEnd: int,
                   ps': seq<nat>, dStart': int, dEnd': int)
    requires WellFormed(t) && Folded(t, unicode, done, ps, dStart, dEnd)
    requires OneMore(done, done', c)
    requires Intervals(ps') && 0 <= dStart' < dEnd' == Canon(t, unicode, c) + 1 <= 0x4_0000
    requires forall v :: v in ps' ==> v in ps || v == dStart || v == dEnd
    requires forall x: nat :: Held(ps', dStart', dEnd', x) <==> Held(ps, dStart, dEnd, x) || x == Canon(t, unicode, c)
    ensures Folded(t, unicode, done', ps', dStart', dEnd')
  {
    hide InPoints, Canon, WellFormed, Intervals, Held;
    forall d: nat ensures Held(ps', dStart', dEnd', d) <==> Image(t, unicode, done', d) {
      assert Held(ps, dStart, dEnd, d) <==> Image(t, unicode, done, d);
      assert InPoints(done', c);
      if Image(t, unicode, done, d) {
        var x: nat :| InPoints(done, x) && Canon(t, unicode, x) == d;
        assert InPoints(done', x);
      }
      if Image(t, unicode, done', d) {
        var x: nat :| InPoints(done', x) && Canon(t, unicode, x) == d;
        assert x == c || InPoints(done, x);
      }
    }
  }

  lemma CanonBound(t: Tables, unicode: bool, c: nat)
    requires WellFormed(t) && c < 0x3_0000
    ensures Canon(t, unicode, c) < 0x3_0000
  {
    if c >= 128 {
      var idx := FindRun(t, c, 0);
      if idx < |t.table1| { EntryBound(t, unicode, c, idx); }
    }
  }

  lemma EntryBound(t: Tables, unicode: bool, c: nat, idx: nat)
    requires WellFormed(t) && c < 0x3_0000 && idx < |t.table1| && Covers(t.table1[idx], c)
    ensures FoldingEntry(t, c, idx, unicode) < 0x3_0000
  {
    hide CodeOf, LenOf, TypeOf, DataOf;
    RunBounds(t, idx);
    if TypeOf(t.table1[idx]) <= RUN_LF { RunBounds(t, DataOf(t, idx)); }
    DataBound(t, idx);
  }

  lemma DataBound(t: Tables, idx: nat)
    requires WellFormed(t) && idx < |t.table1|
    ensures DataOf(t, idx) < 0x1000
  {
    RunBounds(t, idx);
  }

  // ----- the two nested loops -----

  /** The points below index `i`, and those from `start` up to `c`. */
  function Walked(inter: seq<nat>, i: nat, start: nat, c: nat): seq<nat>
    requires i <= |inter|
  {
    inter[..i] + [start, c]
  }

  lemma WalkOne(inter: seq<nat>, i: nat, start: nat, c: nat)
    requires i <= |inter| && i % 2 == 0 && start <= c
    ensures OneMore(Walked(inter, i, start, c), Walked(inter, i, start, c + 1), c)
  {
    hide InPoints;
    forall x: nat ensures InPoints(Walked(inter, i, start, c + 1), x) <==> InPoints(Walked(inter, i, start, c), x) || x == c {
      InPointsAppend(inter[..i], start, c, x);
      InPointsAppend(inter[..i], start, c + 1, x);
    }
  }

  /** The same points, so the same image. */
  lemma SameImage(t: Tables, unicode: bool, p: seq<nat>, q: seq<nat>, ps: seq<nat>, dStart: int, dEnd: int)
    requires WellFormed(t) && Folded(t, unicode, p, ps, dStart, dEnd)
    requires forall x: nat :: InPoints(p, x) <==> InPoints(q, x)
    ensures Folded(t, unicode, q, ps, dStart, dEnd)
  {
    hide InPoints, Canon, WellFormed, Intervals, Held;
    forall d: nat ensures Held(ps, dStart, dEnd, d) <==> Image(t, unicode, q, d) {
      assert Held(ps, dStart, dEnd, d) <==> Image(t, unicode, p, d);
      if Image(t, unicode, p, d) {
        var x: nat :| InPoints(p, x) && Canon(t, unicode, x) == d;
        assert InPoints(q, x);
      }
      if Image(t, unicode, q, d) {
        var x: nat :| InPoints(q, x) && Canon(t, unicode, x) == d;
        assert InPoints(p, x);
      }
    }
  }

  lemma WalkNone(inter: seq<nat>, i: nat, start: nat)
    requires i <= |inter| && i % 2 == 0
    ensures forall x: nat :: InPoints(inter[..i], x) <==> InPoints(Walked(inter, i, start, start), x)
  {
    hide InPoints;
    forall x: nat ensures InPoints(inter[..i], x) <==> InPoints(Walked(inter, i, start, start), x) {
      InPointsAppend(inter[..i], start, start, x);
    }
  }

  lemma WalkAll(inter: seq<nat>, i: nat)
    requires i + 1 < |inter|
    ensures Walked(inter, i, inter[i], inter[i + 1]) == inter[..i + 2]
  {
  }

  lemma InterHolds(inter: seq<nat>, i: nat, c: nat)
    requires |inter| % 2 == 0 && i % 2 == 0 && i + 1 < |inter| && inter[i] <= c < inter[i + 1]
    ensures InPoints(inter, c)
  {
    assert InInterval(inter, i / 2, c);
  }

  /** Folds every affected member in turn; the run it belongs to is found by going forward through the table. */
  method FoldAll(t: Tables, unicode: bool, inter: seq<nat>, result: CharRange)
    requires WellFormed(t) && AsciiAgrees(t, unicode) && Strict(inter) && |inter| % 2 == 0 && result.points == []
    requires forall c: nat :: InPoints(inter, c) ==> c < 0x3_0000 && Affected(t, MaskFor(unicode), c)
    modifies result
    ensures Intervals(result.points) && forall v :: v in result.points ==> v <= 0x4_0000
    ensures forall d: nat :: InPoints(result.points, d) <==> Image(t, unicode, inter, d)
  {
    hide InPoints, Canon, WellFormed, Intervals, Held, Folded, AsciiAgrees, Walked, Affected, CodeOf, LenOf, Strict, FoldingEntry;
    var dStart: int, dEnd: int, idx := -1, -1, 0;
    var i := 0;
    FoldedStart(t, unicode);
    TableNonEmpty(t);
    assert inter[..0] == [];
    while i < |inter|
      invariant 0 <= i <= |inter| && i % 2 == 0 && 0 <= idx < |t.table1|
      invariant Folded(t, unicode, inter[..i], result.points, dStart, dEnd)
      invariant forall j :: 0 <= j < idx && i < |inter| ==> CodeOf(t.table1[j]) + LenOf(t.table1[j]) <= inter[i]
      decreases |inter| - i
    {
      StrictPair(inter, i);
      dStart, dEnd, idx := FoldInterval(t, unicode, inter, i, result, dStart, dEnd, idx);
      i := i + 2;
    }
    assert inter[..i] == inter;
    FoldedEnd(t, unicode, inter, result.points, dStart, dEnd);
    if dStart != -1 {
      PutAway(result, dStart, dEnd);
    }
  }

  lemma TableNonEmpty(t: Tables)
    requires WellFormed(t)
    ensures 0 < |t.table1|
  {
  }

  lemma StrictPair(inter: seq<nat>, i: nat)
    requires Strict(inter) && |inter| % 2 == 0 && i % 2 == 0 && i < |inter|
    ensures i + 1 < |inter| && inter[i] < inter[i + 1] && (i + 2 < |inter| ==> inter[i + 1] < inter[i + 2])
  {
  }

  lemma FoldedEnd(t: Tables, unicode: bool, done: seq<nat>, ps: seq<nat>, dStart: int, dEnd: int)
    requires WellFormed(t) && Folded(t, unicode, done, ps, dStart, dEnd)
    ensures Intervals(ps) && (dStart == -1 || 0 <= dStart < dEnd <= 0x4_0000) && forall v :: v in ps ==> v <= 0x4_0000
    ensures forall d: nat :: InPoints(ps, d) || (dStart != -1 && dStart <= d < dEnd) <==> Image(t, unicode, done, d)
  {
    hide InPoints, Image;
    forall d: nat ensures InPoints(ps, d) || (dStart != -1 && dStart <= d < dEnd) <==> Image(t, unicode, done, d) {
      assert Held(ps, dStart, dEnd, d) <==> Image(t, unicode, done, d);
    }
  }

  /** The members from one end point to the next. */
  method FoldInterval(t: Tables, unicode: bool, inter: seq<nat>, i: nat, result: CharRange, dStart0: int, dEnd0: int, idx0: nat)
    returns (dStart: int, dEnd: int, idx: nat)
    requires WellFormed(t) && AsciiAgrees(t, unicode) && |inter| % 2 == 0 && i % 2 == 0 && i + 1 < |inter| && inter[i] < inter[i + 1]
    requires forall c: nat :: InPoints(inter, c) ==> c < 0x3_0000 && Affected(t, MaskFor(unicode), c)
    requires Folded(t, unicode, inter[..i], result.points, dStart0, dEnd0) && idx0 < |t.table1|
    requires forall j :: 0 <= j < idx0 ==> CodeOf(t.table1[j]) + LenOf(t.table1[j]) <= inter[i]
    modifies result
    ensures Folded(t, unicode, inter[..i + 2], result.points, dStart, dEnd) && idx < |t.table1|
    ensures forall j :: 0 <= j < idx ==> CodeOf(t.table1[j]) + LenOf(t.table1[j]) <= inter[i + 1]
  {
    hide InPoints, Canon, WellFormed, Intervals, Held, Folded, AsciiAgrees, Walked, Affected, CodeOf, LenOf, FoldingEntry, Masked, TypeOf;
    dStart, dEnd, idx := dStart0, dEnd0, idx0;
    var start, end := inter[i], inter[i + 1];
    var c := start;
    WalkNone(inter, i, start);
    SameImage(t, unicode, inter[..i], Walked(inter, i, start, start), result.points, dStart, dEnd);
    while c < end
      invariant start <= c <= end && idx < |t.table1|
      invariant Folded(t, unicode, Walked(inter, i, start, c), result.points, dStart, dEnd)
      invariant forall j :: 0 <= j < idx ==> CodeOf(t.table1[j]) + LenOf(t.table1[j]) <= c
    {
      InterHolds(inter, i, c);
      idx := FindNext(t, c, idx, MaskFor(unicode));
      var d := FoldingEntry(t, c, idx, unicode);
      EntryIsCanon(t, unicode, idx, c);
      CanonBound(t, unicode, c);
      ghost var ps, s0, e0 := result.points, dStart, dEnd;
      FoldedEnd(t, unicode, Walked(inter, i, start, c), ps, s0, e0);
      dStart, dEnd := Keep(result, dStart, dEnd, d);
      WalkOne(inter, i, start, c);
      FoldedMore(t, unicode, Walked(inter, i, start, c), Walked(inter, i, start, c + 1), c, ps, s0, e0, result.points, dStart, dEnd);
      c := c + 1;
    }
    WalkAll(inter, i);
  }

  // ----- the whole computation -----

  lemma MaskIs(t: Tables, m: CaseMask, ps: seq<nat>)
    requires WellFormed(t) && MaskedSoFar(t, m, |t.table1|, ps)
    ensures NonDecreasing(ps) && |ps| % 2 == 0 && forall v :: v in ps ==> v <= UINT32_MAX
    ensures forall c: nat :: InPoints(ps, c) <==> Affected(t, m, c)
    ensures forall c: nat :: Affected(t, m, c) ==> c < 0x3_0000
  {
    hide InPoints, Masked, CodeOf, LenOf, TypeOf;
    forall c: nat | Affected(t, m, c) ensures c < 0x3_0000 {
      var idx :| 0 <= idx < |t.table1| && InMask(t, m, idx, c);
      RunBounds(t, idx);
    }
  }

  /** Affected members are folded, the others are kept: together this is the image. */
  lemma ImageSplit(t: Tables, unicode: bool, ps: seq<nat>, inter: seq<nat>, d: nat)
    requires WellFormed(t) && AsciiAgrees(t, unicode)
    requires forall c: nat :: InPoints(inter, c) <==> InPoints(ps, c) && Affected(t, MaskFor(unicode), c)
    ensures Image(t, unicode, ps, d) <==>
            Image(t, unicode, inter, d) || (InPoints(ps, d) && !Affected(t, MaskFor(unicode), d))
  {
    hide InPoints, Canon, WellFormed, AsciiAgrees, Affected;
    if Image(t, unicode, ps, d) {
      var c: nat :| InPoints(ps, c) && Canon(t, unicode, c) == d;
      if Affected(t, MaskFor(unicode), c) { assert InPoints(inter, c); } else { Unaffected(t, unicode, c); }
    }
    if Image(t, unicode, inter, d) {
      var c: nat :| InPoints(inter, c) && Canon(t, unicode, c) == d;
      assert InPoints(ps, c);
    }
    if InPoints(ps, d) && !Affected(t, MaskFor(unicode), d) { Unaffected(t, unicode, d); }
  }

  /** A set is replaced by the set of the canonical forms of its members. */
  method RegexpCanonicalize(t: Tables, unicode: bool, cr: CharRange)
    requires WellFormed(t) && AsciiAgrees(t, unicode) && Canonical(cr.points)
    modifies cr
    ensures Canonical(cr.points)
    ensures forall d: nat :: InPoints(cr.points, d) <==> Image(t, unicode, old(cr.points), d)
  {
    hide InPoints, Canon, WellFormed, AsciiAgrees, Affected, Canonical, NonDecreasing, Strict, Combines, MaskedSoFar, Image;
    ghost var ps := cr.points;
    CanonicalStrict(ps);
    var mask := new CharRange();
    var inter := new CharRange();
    var result := new CharRange();
    var sub := new CharRange();
    UnicodeCase1(t, mask, MaskFor(unicode));
    ghost var ms := mask.points;
    MaskIs(t, MaskFor(unicode), ms);
    inter.Op(mask.points, cr.points, Inter);
    mask.Invert();
    CanonicalStrict(mask.points);
    sub.Op(mask.points, cr.points, Inter);
    Divided(t, MaskFor(unicode), ps, ms, mask.points, inter.points, sub.points);
    FoldAll(t, unicode, inter.points, result);
    result.SortAndRemoveOverlap();
    StrictNonDecreasing(result.points);
    StrictNonDecreasing(sub.points);
    cr.points := [];
    cr.Op(result.points, sub.points, Union);
    StrictCanonical(cr.points);
    forall d: nat ensures InPoints(cr.points, d) <==> Image(t, unicode, ps, d) {
      OperationMeans(Union, result.points, sub.points, cr.points, d);
      ImageSplit(t, unicode, ps, inter.points, d);
    }
  }

  lemma StrictNonDecreasing(ps: seq<nat>)
    requires Strict(ps)
    ensures NonDecreasing(ps)
  {
  }

  /** The set is divided into its affected members and the others. */
  lemma Divided(t: Tables, m: CaseMask, ps: seq<nat>, mask: seq<nat>, unmask: seq<nat>, inter: seq<nat>, sub: seq<nat>)
    requires WellFormed(t) && Canonical(ps) && NonDecreasing(mask) && |mask| % 2 == 0 && Canonical(unmask) && Complement(mask, unmask)
    requires Strict(inter) && |inter| % 2 == 0 && Combines(Inter, mask, ps, inter)
    requires Strict(sub) && |sub| % 2 == 0 && Combines(Inter, unmask, ps, sub)
    requires forall c: nat :: InPoints(mask, c) <==> Affected(t, m, c)
    ensures forall c: nat :: InPoints(inter, c) <==> InPoints(ps, c) && Affected(t, m, c)
    ensures forall c: nat :: InPoints(sub, c) <==> InPoints(ps, c) && !Affected(t, m, c)
  {
    hide InPoints, WellFormed, Affected, Canonical, NonDecreasing, Strict, Combines;
    CanonicalStrict(ps);
    CanonicalStrict(unmask);
    forall c: nat ensures InPoints(inter, c) <==> InPoints(ps, c) && Affected(t, m, c) {
      OperationMeans(Inter, mask, ps, inter, c);
    }
    forall c: nat ensures InPoints(sub, c) <==> InPoints(ps, c) && !Affected(t, m, c) {
      OperationMeans(Inter, unmask, ps, sub, c);
      InIffPoints(mask, c);
      InIffPoints(unmask, c);
      if InPoints(ps, c) { BelowMax(ps, c); }
      assert In(unmask, c) <==> c < UINT32_MAX && !In(mask, c);
    }
  }

  lemma BelowMax(ps: seq<nat>, c: nat)
    requires Canonical(ps) && InPoints(ps, c)
    ensures c < UINT32_MAX
  {
  }
}
