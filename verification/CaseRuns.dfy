/**
  What the runs of the case table do to the code points they cover, read off the packed
  words: 17 bits of first code point, 7 of length, 4 of type and 4 of data, with the low
  byte of the data in the second table.
 */
module CaseRuns {
  import opened CaseFolding

  /** Element `a` of run `idx`. */
  ghost predicate Element(t: Tables, idx: nat, a: nat, type_: nat) {
    && WellFormed(t) && idx < |t.table1| && a < t.table1[idx] / 0x100 % 0x80
    && t.table1[idx] / 0x10 % 0x10 == type_
  }

  function First(t: Tables, idx: nat): nat
    requires idx < |t.table1|
  {
    t.table1[idx] / 0x8000
  }

  function Data(t: Tables, idx: nat): nat
    requires idx < |t.table1| == |t.table2|
  {
    t.table1[idx] % 0x10 * 0x100 + t.table2[idx]
  }

  /** The canonical form is that of the entry, for every code point that is not ASCII. */
  lemma FormIsEntry(t: Tables, unicode: bool, idx: nat, a: nat, type_: nat)
    requires Element(t, idx, a, type_) && First(t, idx) + a >= 128
    ensures Covers(t.table1[idx], First(t, idx) + a)
    ensures Canon(t, unicode, First(t, idx) + a) == FoldingEntry(t, First(t, idx) + a, idx, unicode)
  {
    RunUnique(t, idx, First(t, idx) + a);
  }

  /** Runs of types 0 to 3 are moved to where another run starts: to upper case, to lower case, and under folding. */
  lemma MovedRun(t: Tables, idx: nat, a: nat, type_: nat)
    requires Element(t, idx, a, type_) && type_ <= 3 && First(t, idx) + a >= 128
    ensures Data(t, idx) < |t.table1|
    ensures var c, r := First(t, idx) + a, t.table1[Data(t, idx)] / 0x8000 + a;
            && Canon(t, false, c) == (if type_ % 2 == 0 && r >= 128 then r else c)
            && Canon(t, true, c) == (if type_ >= 2 then r else c)
  {
    assert RunFits(t, idx);
    FormIsEntry(t, false, idx, a, type_);
    FormIsEntry(t, true, idx, a, type_);
  }

  /**
    A run of type 4 alternates between upper and lower case. The two elements of a pair
    have one form: the upper one, or in unicode mode the lower one.
   */
  lemma PairOfCases(t: Tables, idx: nat, k: nat)
    requires Element(t, idx, 2 * k + 1, 4) && First(t, idx) + 2 * k >= 128
    ensures var upper, lower := First(t, idx) + 2 * k, First(t, idx) + 2 * k + 1;
            && Canon(t, false, upper) == upper && Canon(t, false, lower) == upper
            && Canon(t, true, upper) == lower && Canon(t, true, lower) == lower
  {
    hide Canon, WellFormed;
    assert Element(t, idx, 2 * k, 4);
    EvenOdd(k);
    InPair(t, false, idx, 2 * k);
    InPair(t, false, idx, 2 * k + 1);
    InPair(t, true, idx, 2 * k);
    InPair(t, true, idx, 2 * k + 1);
  }

  lemma InPair(t: Tables, unicode: bool, idx: nat, a: nat)
    requires Element(t, idx, a, 4) && First(t, idx) + a - a % 2 >= 128
    ensures Canon(t, unicode, First(t, idx) + a) == First(t, idx) + a - a % 2 + (if unicode then 1 else 0)
  {
    hide Canon, WellFormed;
    FormIsEntry(t, unicode, idx, a, 4);
  }

  lemma EvenOdd(k: nat)
    ensures (2 * k) % 2 == 0 && (2 * k + 1) % 2 == 1
  {
  }

  /** Every element of such a run belongs to a pair. */
  lemma PairsAreWhole(t: Tables, idx: nat, a: nat)
    requires Element(t, idx, a, 4)
    ensures Element(t, idx, a / 2 * 2 + 1, 4)
  {
    assert RunFits(t, idx);
  }

  /** A run of type 5 is one letter in upper, title and lower case; all three have one form. */
  lemma ThreeCases(t: Tables, idx: nat, a: nat)
    requires Element(t, idx, a, 5) && First(t, idx) >= 128
    ensures a < 3
    ensures Canon(t, false, First(t, idx) + a) == First(t, idx)
    ensures Canon(t, true, First(t, idx) + a) == First(t, idx) + 2
  {
    assert RunFits(t, idx);
    FormIsEntry(t, false, idx, a, 5);
    FormIsEntry(t, true, idx, a, 5);
  }

  /** Runs whose targets stand in the data itself, or in the table of extra code points. */
  lemma TargetRun(t: Tables, idx: nat, a: nat, type_: nat)
    requires Element(t, idx, a, type_) && 6 <= type_ <= 10 && First(t, idx) + a >= 128
    ensures var c, data := First(t, idx) + a, Data(t, idx);
            && Canon(t, false, c) ==
               (if type_ == 7 && data >= 128 then data
                else if (type_ == 8 || type_ == 9) && t.ext(data) >= 128 then t.ext(data)
                else c)
            && Canon(t, true, c) ==
               (if type_ == 6 then t.ext(data % 0x40) + a
                else if type_ == 7 then data + 0x20
                else if type_ == 8 then t.ext(data) + 1
                else if type_ == 9 then c
                else t.ext(data))
  {
    FormIsEntry(t, false, idx, a, type_);
    FormIsEntry(t, true, idx, a, type_);
  }

  /** Runs that convert to several code points change nothing, but for three code points in unicode mode. */
  lemma LongRun(t: Tables, idx: nat, a: nat, type_: nat)
    requires Element(t, idx, a, type_) && 11 <= type_ && First(t, idx) + a >= 128
    ensures var c := First(t, idx) + a;
            && Canon(t, false, c) == c
            && Canon(t, true, c) ==
               (if c == 0xFB06 then 0xFB05 else if c == 0x1FD3 then 0x390 else if c == 0x1FE3 then 0x3B0 else c)
  {
    assert RunFits(t, idx);
    FormIsEntry(t, false, idx, a, type_);
    FormIsEntry(t, true, idx, a, type_);
  }

  /** ASCII letters have one form for both cases: the upper one, or in unicode mode the lower one. */
  lemma AsciiCases(t: Tables, c: nat)
    requires WellFormed(t) && c < 128
    ensures 0x41 <= c <= 0x5A ==> Canon(t, false, c) == Canon(t, false, c + 0x20) == c
    ensures 0x41 <= c <= 0x5A ==> Canon(t, true, c) == Canon(t, true, c + 0x20) == c + 0x20
    ensures !(0x41 <= c <= 0x5A || 0x61 <= c <= 0x7A) ==> Canon(t, false, c) == Canon(t, true, c) == c
  {
  }

  /** A code point outside all runs is its own form. */
  lemma OutsideRuns(t: Tables, unicode: bool, c: nat)
    requires WellFormed(t) && c >= 128
    requires forall i :: 0 <= i < |t.table1| ==>
               c < t.table1[i] / 0x8000 || t.table1[i] / 0x8000 + t.table1[i] / 0x100 % 0x80 <= c
    ensures Canon(t, unicode, c) == c
  {
    NoRun(t, c);
  }

  // ----- a small table -----

  /** Capital and small ASCII letters, and one pair behind them. */
  function SmallTable(): Tables {
    Tables([Packed(0x41, 26, 3, 0), Packed(0x61, 26, 0, 0), Packed(0x100, 2, 4, 0)], [1, 0, 0], (i: nat) => 0)
  }

  function Packed(first: nat, length: nat, type_: nat, data: nat): nat {
    first * 0x8000 + length * 0x100 + type_ * 0x10 + data
  }

  lemma Unpacked(first: nat, length: nat, type_: nat, data: nat)
    requires length < 0x80 && type_ < 0x10 && data < 0x10
    ensures var v := Packed(first, length, type_, data);
            CodeOf(v) == first && LenOf(v) == length && TypeOf(v) == type_ && v % 0x10 == data
  {
    var v := Packed(first, length, type_, data);
    LastDigit((first * 0x80 + length) * 0x10 + type_, data);
    LastDigit(first * 0x80 + length, type_);
    assert v / 0x10 == (first * 0x80 + length) * 0x10 + type_;
    assert v / 0x100 == first * 0x80 + length by { assert v / 0x100 == v / 0x10 / 0x10; }
    assert v / 0x8000 == first by { assert v / 0x8000 == v / 0x100 / 0x80; }
  }

  lemma LastDigit(x: nat, d: nat)
    requires d < 0x10
    ensures (x * 0x10 + d) / 0x10 == x && (x * 0x10 + d) % 0x10 == d
  {
  }

  /** It meets what is asked of tables, and folds as it should. */
  lemma SmallTableFits(unicode: bool)
    ensures WellFormed(SmallTable()) && AsciiAgrees(SmallTable(), unicode)
    ensures Canon(SmallTable(), false, 0x101) == 0x100 && Canon(SmallTable(), true, 0x100) == 0x101
  {
    hide Packed;
    var t := SmallTable();
    Unpacked(0x41, 26, 3, 0);
    Unpacked(0x61, 26, 0, 0);
    Unpacked(0x100, 2, 4, 0);
    assert t.table1[0] < 0x1_0000_0000 && t.table1[1] < 0x1_0000_0000 && t.table1[2] < 0x1_0000_0000 by { SmallWords(); }
    assert RunFits(t, 0) && RunFits(t, 1) && RunFits(t, 2);
    forall c: nat | c < 128 ensures AsciiFits(t, unicode, c) { SmallAscii(unicode, c); }
    SmallPair();
  }

  lemma SmallWords()
    ensures forall k :: 0 <= k < 3 ==> SmallTable().table1[k] < 0x1_0000_0000
  {
  }

  lemma SmallAscii(unicode: bool, c: nat)
    requires c < 128 && WellFormed(SmallTable())
    ensures AsciiFits(SmallTable(), unicode, c)
  {
    hide Packed;
    var t := SmallTable();
    Unpacked(0x41, 26, 3, 0);
    Unpacked(0x61, 26, 0, 0);
    Unpacked(0x100, 2, 4, 0);
    assert DataOf(t, 0) == 1 && DataOf(t, 1) == 0;
    if 0x41 <= c <= 0x5A { assert InMask(t, MaskFor(true), 0, c); }
    if 0x61 <= c <= 0x7A { assert InMask(t, MaskFor(false), 1, c); }
  }

  lemma SmallPair()
    requires WellFormed(SmallTable())
    ensures Canon(SmallTable(), false, 0x101) == 0x100 && Canon(SmallTable(), true, 0x100) == 0x101
  {
    hide Packed;
    var t := SmallTable();
    Unpacked(0x100, 2, 4, 0);
    assert Element(t, 2, 2 * 0 + 1, 4);
    PairOfCases(t, 2, 0);
  }
}
