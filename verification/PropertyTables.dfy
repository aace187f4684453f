/**
  Character properties as compressed run lengths: the decoder that turns a whole table
  into a set, and the lookup that starts from a block index and stops at one character.
 */
module PropertyTables {
  import opened Bytes
  import opened Bytecode
  import opened Patterns
  import opened RangeTable
  import opened CharRanges

  const BLOCK_LEN: nat := 32

  /** How many bytes the lengths that start with `b` take. */
  function GroupSize(b: byte): (k: nat)
    ensures 1 <= k <= 3
  {
    if b < 0x40 || b >= 0x80 then 1 else if b < 0x60 then 2 else 3
  }

  /** The length of the next run. */
  function FirstRun(table: seq<byte>, p: nat): (n: nat)
    requires p < |table| && p + GroupSize(table[p]) <= |table|
    ensures n >= 1
  {
    var b: int := table[p];
    if b < 0x40 then b / 8 + 1
    else if b >= 0x80 then b - 0x80 + 1
    else if b < 0x60 then (b - 0x40) * 0x100 + table[p + 1] + 1
    else (b - 0x60) * 0x1_0000 + (table[p + 1] as int) * 0x100 + table[p + 2] + 1
  }

  /** Two short runs are packed in one byte. */
  predicate TwoRuns(b: byte) {
    b < 0x40
  }

  function SecondRun(b: byte): nat
    requires TwoRuns(b)
  {
    b % 8 + 1
  }

  /** No length is cut off by the end of the table. */
  predicate Whole(table: seq<byte>, p: nat)
    requires p <= |table|
    decreases |table| - p
  {
    p == |table| || (p + GroupSize(table[p]) <= |table| && Whole(table, p + GroupSize(table[p])))
  }

  /** Where the runs of the next group end. */
  function AfterGroup(table: seq<byte>, p: nat, code: nat): (r: nat)
    requires p < |table| && p + GroupSize(table[p]) <= |table|
    ensures r > code
  {
    code + FirstRun(table, p) + if TwoRuns(table[p]) then SecondRun(table[p]) else 0
  }

  /**
    Membership of `c`, by walking from the group at `p`, whose first run starts at `code`
    and has the value `bit`. Runs alternate between false and true.
   */
  predicate InProp(table: seq<byte>, p: nat, code: nat, bit: bool, c: nat)
    requires p <= |table| && Whole(table, p)
    decreases |table| - p
  {
    if p == |table| then false
    else
      var c1 := code + FirstRun(table, p);
      if c < c1 then bit
      else if TwoRuns(table[p]) && c < c1 + SecondRun(table[p]) then !bit
      else InProp(table, p + GroupSize(table[p]), AfterGroup(table, p, code), if TwoRuns(table[p]) then bit else !bit, c)
  }

  /** Where the last run ends. */
  function EndCode(table: seq<byte>, p: nat, code: nat): (r: nat)
    requires p <= |table| && Whole(table, p)
    ensures r >= code
    decreases |table| - p
  {
    if p == |table| then code else EndCode(table, p + GroupSize(table[p]), AfterGroup(table, p, code))
  }

  /** The walk from group `p` comes to group `q` at code point `target`, about to read a false run. */
  predicate Reaches(table: seq<byte>, p: nat, code: nat, bit: bool, q: nat, target: nat)
    requires p <= |table| && Whole(table, p)
    decreases |table| - p
  {
    (p == q && code == target && !bit)
    || (p < q && p < |table| &&
        Reaches(table, p + GroupSize(table[p]), AfterGroup(table, p, code), if TwoRuns(table[p]) then bit else !bit, q, target))
  }

  /** Starting at a reached group gives the same answer for every character from there on. */
  lemma {:induction false} ReachedSame(table: seq<byte>, p: nat, code: nat, bit: bool, q: nat, target: nat, c: nat)
    requires p <= |table| && Whole(table, p) && Reaches(table, p, code, bit, q, target) && target <= c
    ensures q <= |table| && Whole(table, q) && code <= target
    ensures InProp(table, p, code, bit, c) == InProp(table, q, target, false, c)
    ensures EndCode(table, p, code) == EndCode(table, q, target)
    decreases |table| - p
  {
    if !(p == q && code == target && !bit) {
      ReachedSame(table, p + GroupSize(table[p]), AfterGroup(table, p, code), if TwoRuns(table[p]) then bit else !bit, q, target, c);
    }
  }

  // ----- the decoder -----

  /** A true run that starts at `code` does not touch the last interval. */
  predicate Below(ps: seq<nat>, code: nat, bit: bool) {
    ps != [] ==> if bit then ps[|ps| - 1] < code else ps[|ps| - 1] <= code
  }

  /** The part of the table in front of `p` has been added; `c` is where the walk stands. */
  ghost predicate Decoded(table: seq<byte>, p: nat, code: nat, bit: bool, ps: seq<nat>) {
    && p <= |table| && Whole(table, 0) && Whole(table, p)
    && Strict(ps) && |ps| % 2 == 0 && Below(ps, code, bit)
    && forall c: nat :: InProp(table, 0, 0, false, c) <==> InPoints(ps, c) || (code <= c && InProp(table, p, code, bit, c))
  }

  lemma DecodedStart(table: seq<byte>)
    requires Whole(table, 0)
    ensures Decoded(table, 0, 0, false, [])
  {
  }

  function AddRun(ps: seq<nat>, from: nat, to: nat, bit: bool): seq<nat> {
    if bit then ps + [from, to] else ps
  }

  lemma RunPoints(ps: seq<nat>, from: nat, to: nat, bit: bool)
    requires Strict(ps) && |ps| % 2 == 0 && from < to && Below(ps, from, bit)
    ensures var qs := AddRun(ps, from, to, bit);
            && Strict(qs) && |qs| % 2 == 0 && Below(qs, to, !bit)
            && forall c: nat :: InPoints(qs, c) <==> InPoints(ps, c) || (bit && from <= c < to)
  {
    hide InPoints;
    if bit {
      forall c: nat ensures InPoints(ps + [from, to], c) <==> InPoints(ps, c) || from <= c < to { InPointsAppend(ps, from, to, c); }
      StrictExtended(ps, from, to);
      assert ps + [from] + [to] == ps + [from, to];
    }
  }

  /** One group has been read. */
  lemma DecodedStep(table: seq<byte>, p: nat, code: nat, bit: bool, ps: seq<nat>)
    requires p < |table| && Decoded(table, p, code, bit, ps)
    ensures var c1, q := code + FirstRun(table, p), p + GroupSize(table[p]);
            var qs := AddRun(ps, code, c1, bit);
            if TwoRuns(table[p]) then
              Decoded(table, q, AfterGroup(table, p, code), bit, AddRun(qs, c1, c1 + SecondRun(table[p]), !bit))
            else Decoded(table, q, c1, !bit, qs)
  {
    hide InPoints, Strict;
    var c1, q := code + FirstRun(table, p), p + GroupSize(table[p]);
    var qs := AddRun(ps, code, c1, bit);
    RunPoints(ps, code, c1, bit);
    if TwoRuns(table[p]) { RunPoints(qs, c1, c1 + SecondRun(table[p]), !bit); }
  }

  /** Turns the table into a set. */
  method UnicodeProp1(table: seq<byte>, cr: CharRange)
    requires Whole(table, 0) && cr.points == []
    modifies cr
    ensures Strict(cr.points) && |cr.points| % 2 == 0
    ensures forall c: nat :: InPoints(cr.points, c) <==> InProp(table, 0, 0, false, c)
  {
    hide InPoints, Strict, InProp, Decoded;
    var p, c: nat, bit := 0, 0, false;
    DecodedStart(table);
    while p < |table|
      invariant 0 <= p <= |table| && Decoded(table, p, c, bit, cr.points)
      decreases |table| - p
    {
      var c0 := c;
      var b: int := table[p];
      DecodedWhole(table, p, c, bit, cr.points);
      DecodedStep(table, p, c, bit, cr.points);
      ghost var p0 := p;
      p := p + 1;
      if b < 0x40 {
        c := c + (b / 8 + 1);
        if bit {
          cr.AddInterval(c0, c);
        }
        bit := !bit;
        c0 := c;
        c := c + (b % 8 + 1);
      } else if b >= 0x80 {
        c := c + (b - 0x80 + 1);
      } else if b < 0x60 {
        c := c + ((b - 0x40) * 0x100 + table[p] + 1);
        p := p + 1;
      } else {
        c := c + ((b - 0x60) * 0x1_0000 + (table[p] as int) * 0x100 + table[p + 1] + 1);
        p := p + 2;
      }
      if bit {
        cr.AddInterval(c0, c);
      }
      bit := !bit;
    }
    DecodedEnd(table, p, c, bit, cr.points);
  }

  lemma DecodedWhole(table: seq<byte>, p: nat, code: nat, bit: bool, ps: seq<nat>)
    requires p < |table| && Decoded(table, p, code, bit, ps)
    ensures p + GroupSize(table[p]) <= |table|
  {
  }

  lemma DecodedEnd(table: seq<byte>, p: nat, code: nat, bit: bool, ps: seq<nat>)
    requires Decoded(table, p, code, bit, ps) && p == |table|
    ensures Strict(ps) && |ps| % 2 == 0 && forall c: nat :: InPoints(ps, c) <==> InProp(table, 0, 0, false, c)
  {
    hide InPoints;
  }

  // ----- the block index -----

  function Le24(index: seq<byte>, i: nat): (v: nat)
    requires 3 * i + 3 <= |index|
    ensures v < 0x100_0000
  {
    (index[3 * i] as int) + (index[3 * i + 1] as int) * 0x100 + (index[3 * i + 2] as int) * 0x1_0000
  }

  /** An entry: 21 bits of code point, and 3 bits of offset inside its block. */
  function EntryCode(index: seq<byte>, i: nat): nat
    requires 3 * i + 3 <= |index|
  {
    Le24(index, i) % 0x20_0000
  }

  function EntryPos(index: seq<byte>, i: nat): nat
    requires 3 * i + 3 <= |index|
  {
    (i + 1) * BLOCK_LEN + Le24(index, i) / 0x20_0000
  }

  /**
    Each entry but the last names the byte of a group that starts a false run at its code
    point; codes do not decrease; the last entry is a bound that nothing in the table
    reaches beyond, and up to which the table goes.
   */
  ghost predicate WellFormedIndex(table: seq<byte>, index: seq<byte>, len: nat) {
    && Whole(table, 0) && 1 <= len && |index| == 3 * len
    && (forall i :: 0 <= i < len - 1 ==> EntryReached(table, index, i))
    && (forall i, j :: 0 <= i <= j < len ==> EntryCode(index, i) <= EntryCode(index, j))
    && Le24(index, len - 1) == EntryCode(index, len - 1) <= EndCode(table, 0, 0)
    && forall c: nat :: EntryCode(index, len - 1) <= c ==> !InProp(table, 0, 0, false, c)
  }

  ghost predicate EntryReached(table: seq<byte>, index: seq<byte>, i: nat)
    requires Whole(table, 0) && 3 * i + 3 <= |index|
  {
    Reaches(table, 0, 0, false, EntryPos(index, i), EntryCode(index, i))
  }

  /** Finds the block of a code point by bisection; -1 when it lies beyond the table. */
  method GetIndexPos(c: nat, ghost table: seq<byte>, index: seq<byte>, len: nat) returns (pos: int, code: nat)
    requires WellFormedIndex(table, index, len)
    ensures pos == -1 <==> c >= EntryCode(index, len - 1)
    ensures pos != -1 ==> pos >= 0 && code <= c && Reaches(table, 0, 0, false, pos, code)
  {
    hide Reaches, Whole, EndCode, InProp, EntryCode, EntryPos, Le24;
    code := EntryCode(index, 0);
    if c < code {
      StartReached(table);
      assert EntryCode(index, 0) <= EntryCode(index, len - 1);
      return 0, 0;
    }
    var idxMin, idxMax := 0, len - 1;
    if c >= Le24(index, idxMax) {
      return -1, code;
    }
    while idxMax - idxMin > 1
      invariant 0 <= idxMin <= idxMax < len
      invariant EntryCode(index, idxMin) <= c < EntryCode(index, idxMax)
    {
      var idx := (idxMax + idxMin) / 2;
      if c < EntryCode(index, idx) {
        idxMax := idx;
      } else {
        idxMin := idx;
      }
    }
    code := EntryCode(index, idxMin);
    pos := EntryPos(index, idxMin);
    PosNat(index, idxMin);
    assert EntryReached(table, index, idxMin);
  }

  lemma PosNat(index: seq<byte>, i: nat)
    requires 3 * i + 3 <= |index|
    ensures EntryPos(index, i) >= 0
  {
  }

  lemma StartReached(table: seq<byte>)
    requires Whole(table, 0)
    ensures Reaches(table, 0, 0, false, 0, 0)
  {
  }

  /** The lookup agrees with the set that the whole table decodes to, and stops inside the table. */
  method IsInTable(c: nat, table: seq<byte>, index: seq<byte>, len: nat) returns (r: bool)
    requires WellFormedIndex(table, index, len)
    ensures r <==> InProp(table, 0, 0, false, c)
  {
    hide Reaches, EntryCode, Le24, WellFormedIndex, InProp, EndCode, Whole;
    var pos, code := GetIndexPos(c, table, index, len);
    IndexBounds(table, index, len, c);
    if pos < 0 {
      return false;
    }
    ReachedSame(table, 0, 0, false, pos, code, c);
    var p, bit := pos, false;
    while true
      invariant 0 <= p <= |table| && Whole(table, p) && 0 <= code <= c < EndCode(table, p, code)
      invariant InProp(table, 0, 0, false, c) == InProp(table, p, code, bit, c)
      decreases |table| - p
    {
      Turn(table, p, code, bit, c);
      assert p < |table|;
      var b: int := table[p];
      p := p + 1;
      if b < 0x40 {
        code := code + (b / 8 + 1);
        if c < code {
          return bit;
        }
        bit := !bit;
        code := code + (b % 8 + 1);
      } else if b >= 0x80 {
        code := code + (b - 0x80 + 1);
      } else if b < 0x60 {
        code := code + ((b - 0x40) * 0x100 + table[p] + 1);
        p := p + 1;
      } else {
        code := code + ((b - 0x60) * 0x1_0000 + (table[p] as int) * 0x100 + table[p + 1] + 1);
        p := p + 2;
      }
      if c < code {
        return bit;
      }
      bit := !bit;
    }
  }

  /** The answer is in the group at `p`, or the same from the next group on. */
  lemma Turn(table: seq<byte>, p: nat, code: nat, bit: bool, c: nat)
    requires p <= |table| && Whole(table, p) && code <= c < EndCode(table, p, code)
    ensures p < |table| && p + GroupSize(table[p]) <= |table| && Whole(table, p + GroupSize(table[p]))
    ensures var c1, next := code + FirstRun(table, p), AfterGroup(table, p, code);
            && (c < c1 ==> InProp(table, p, code, bit, c) == bit)
            && (c1 <= c < next ==> InProp(table, p, code, bit, c) == !bit)
            && (next <= c ==> c < EndCode(table, p + GroupSize(table[p]), next)
                              && InProp(table, p, code, bit, c) ==
                                 InProp(table, p + GroupSize(table[p]), next, if TwoRuns(table[p]) then bit else !bit, c))
  {
  }

  lemma IndexBounds(table: seq<byte>, index: seq<byte>, len: nat, c: nat)
    requires WellFormedIndex(table, index, len)
    ensures Whole(table, 0) && |index| == 3 * len && len >= 1
    ensures c >= EntryCode(index, len - 1) ==> !InProp(table, 0, 0, false, c)
    ensures c < EntryCode(index, len - 1) ==> c < EndCode(table, 0, 0)
  {
  }
}
