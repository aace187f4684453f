/**
  Character sets in byte code: a sorted list of end points is written as a table of
  closed intervals, of 16-bit words when it fits, and searched by bisection.
 */
module RangeTable {
  import opened Bytes
  import opened Patterns
  import opened SnapshotMachine

  const UINT32_MAX: int := 0xFFFF_FFFF

  /** Start and end points alternate and strictly increase. */
  ghost predicate Canonical(points: seq<nat>) {
    && |points| % 2 == 0
    && (forall i, j :: 0 <= i < j < |points| ==> points[i] < points[j])
    && (forall i :: 0 <= i < |points| ==> points[i] <= UINT32_MAX)
  }

  /** 32-bit words are needed unless every finite bound fits in 16 bits. */
  predicate NeedsWide(points: seq<nat>)
    requires |points| % 2 == 0 && |points| > 0
  {
    var last := points[|points| - 1];
    (if last == UINT32_MAX then points[|points| - 2] else last) > 0xFFFF
  }

  /** The upper bound written for an end point: 0xffff stands for infinity in the short form. */
  function UpperWord(end: nat, big: bool): int {
    if !big && end == UINT32_MAX then 0xFFFF else end - 1
  }

  function Interval(start: nat, end: nat, big: bool): (r: seq<byte>)
    ensures |r| == if big then 8 else 4
  {
    if big then LE32(start) + LE32(UpperWord(end, big)) else LE16(start) + LE16(UpperWord(end, big))
  }

  function Table(points: seq<nat>, big: bool): (r: seq<byte>)
    requires |points| % 2 == 0
    ensures |r| == (if big then 8 else 4) * (|points| / 2)
  {
    if points == [] then [] else
      Table(points[..|points| - 2], big) + Interval(points[|points| - 2], points[|points| - 1], big)
  }

  lemma {:induction false} TableAt(p: seq<byte>, base: nat, points: seq<nat>, big: bool, k: nat)
    requires |points| % 2 == 0 && At(p, base, Table(points, big)) && k < |points| / 2
    ensures base + (if big then 8 else 4) * (k + 1) <= |p|
    ensures At(p, base + (if big then 8 else 4) * k, Interval(points[2 * k], points[2 * k + 1], big))
  {
    hide At, Interval;
    var n := |points| - 2;
    AtSplit(p, base, Table(points[..n], big), Interval(points[n], points[n + 1], big));
    if 2 * k < n {
      TableAt(p, base, points[..n], big, k);
    }
  }

  /** Each entry of the table is read back as one interval of the set. */
  lemma TableEntry(p: seq<byte>, base: nat, points: seq<nat>, big: bool, k: nat)
    requires Canonical(points) && points != [] && big == NeedsWide(points)
    requires At(p, base, Table(points, big)) && k < |points| / 2
    ensures TableIn(p, base, big, |points| / 2)
    ensures Low(p, base, big, |points| / 2, k) == points[2 * k]
    ensures High(p, base, big, |points| / 2, k) == UpperWord(points[2 * k + 1], big)
  {
    hide LE16, LE32, U16, U32, Table, At;
    TableAt(p, base, points, big, k);
    TableAt(p, base, points, big, |points| / 2 - 1);
    var start, end := points[2 * k], points[2 * k + 1];
    var at := base + (if big then 8 else 4) * k;
    if big {
      EntryWide(p, at, start, UpperWord(end, big));
    } else {
      var last := |points| - 1;
      assert 2 * k < last ==> points[2 * k] < points[last];
      assert 2 * k + 1 < last ==> points[2 * k + 1] < points[last];
      assert 2 * k < last - 1 ==> points[2 * k] < points[last - 1];
      assert 2 * k + 1 < last - 1 ==> points[2 * k + 1] < points[last - 1];
      assert points[2 * k] < points[2 * k + 1];
      EntryShort(p, at, start, UpperWord(end, big));
    }
  }

  lemma EntryWide(p: seq<byte>, at: nat, lo: int, hi: int)
    requires At(p, at, LE32(lo) + LE32(hi)) && 0 <= lo < TWO32 && 0 <= hi < TWO32
    ensures U32(p, at) == lo && U32(p, at + 4) == hi
  {
    hide At;
    AtSplit(p, at, LE32(lo), LE32(hi));
    AtU32(p, at, LE32(lo), 0);
    AtU32(p, at + 4, LE32(hi), 0);
    ReadLE32(lo);
    ReadLE32(hi);
  }

  lemma EntryShort(p: seq<byte>, at: nat, lo: int, hi: int)
    requires At(p, at, LE16(lo) + LE16(hi)) && 0 <= lo < TWO16 && 0 <= hi < TWO16
    ensures U16(p, at) == lo && U16(p, at + 2) == hi
  {
    AtSplit(p, at, LE16(lo), LE16(hi));
    AtU16(p, at, LE16(lo), 0);
    AtU16(p, at + 2, LE16(hi), 0);
    ReadLE16(lo);
    ReadLE16(hi);
  }

  /** The table at `base` of `p` is that of the set `points`. */
  ghost predicate Represents(p: seq<byte>, base: nat, big: bool, points: seq<nat>) {
    && TableIn(p, base, big, |points| / 2)
    && forall k :: 0 <= k < |points| / 2 ==>
         Low(p, base, big, |points| / 2, k) == points[2 * k] &&
         High(p, base, big, |points| / 2, k) == UpperWord(points[2 * k + 1], big)
  }

  /** `c` lies in one of the intervals min..max. */
  ghost predicate Covered(points: seq<nat>, c: nat, min: nat, max: int) {
    exists k :: min <= k <= max && k < |points| / 2 && InInterval(points, k, c)
  }

  lemma BelowAll(points: seq<nat>, c: nat, idx: nat)
    requires Canonical(points) && idx < |points| / 2 && c < points[2 * idx]
    ensures forall k :: idx <= k < |points| / 2 ==> !InInterval(points, k, c)
  {
    forall k | idx <= k < |points| / 2 ensures !InInterval(points, k, c) {
      assert 2 * idx < 2 * k ==> points[2 * idx] < points[2 * k];
    }
  }

  lemma AboveAll(points: seq<nat>, c: nat, idx: nat)
    requires Canonical(points) && idx < |points| / 2 && points[2 * idx + 1] <= c
    ensures forall k :: 0 <= k <= idx ==> !InInterval(points, k, c)
  {
    forall k | 0 <= k <= idx ensures !InInterval(points, k, c) {
      assert 2 * k + 1 < 2 * idx + 1 ==> points[2 * k + 1] < points[2 * idx + 1];
    }
  }

  lemma {:induction false} SearchCorrect(p: seq<byte>, base: nat, big: bool, points: seq<nat>, c: nat, min: nat, max: nat)
    requires Canonical(points) && Represents(p, base, big, points) && max < |points| / 2 && min <= max + 1
    requires points[0] <= c
    requires points[|points| - 1] == UINT32_MAX && !big ==> c < 0xFFFF
    ensures Search(p, base, big, |points| / 2, c, min, max) <==> Covered(points, c, min, max)
    decreases max + 1 - min
  {
    hide Low, High, TableIn, Canonical;
    var n := |points| / 2;
    if min <= max {
      var idx := (min + max) / 2;
      UpperMeans(big, points, c, idx);
      if c < points[2 * idx] {
        BelowAll(points, c, idx);
        SearchCorrect(p, base, big, points, c, min, idx - 1);
      } else if c > UpperWord(points[2 * idx + 1], big) {
        AboveAll(points, c, idx);
        SearchCorrect(p, base, big, points, c, idx + 1, max);
      } else {
        assert InInterval(points, idx, c);
      }
    }
  }

  /** The stored upper bound separates members from larger code points. */
  lemma UpperMeans(big: bool, points: seq<nat>, c: nat, k: nat)
    requires Canonical(points) && k < |points| / 2
    requires points[|points| - 1] == UINT32_MAX && !big ==> c < 0xFFFF
    ensures c <= UpperWord(points[2 * k + 1], big) <==> c < points[2 * k + 1]
  {
    var last := |points| - 1;
    assert 2 * k + 1 < last ==> points[2 * k + 1] < points[last];
  }

  /** The range instruction accepts exactly the members of the set it was emitted for. */
  lemma InTableCorrect(p: seq<byte>, base: nat, points: seq<nat>, c: nat)
    requires Canonical(points) && points != [] && c < UINT32_MAX
    requires At(p, base, Table(points, NeedsWide(points)))
    ensures TableIn(p, base, NeedsWide(points), |points| / 2)
    ensures InTable(p, base, NeedsWide(points), |points| / 2, c) <==> InPoints(points, c)
  {
    hide Low, High, At, Table, Search;
    var big := NeedsWide(points);
    var n := |points| / 2;
    TableRepresents(p, base, points);
    assert points[2 * n - 2] < points[2 * n - 1];
    if c < points[0] {
      BelowAll(points, c, 0);
    } else if !big && c >= 0xFFFF && UpperWord(points[2 * n - 1], big) == 0xFFFF {
      assert InInterval(points, n - 1, c);
    } else if c > UpperWord(points[2 * n - 1], big) {
      AboveAll(points, c, n - 1);
    } else {
      SearchCorrect(p, base, big, points, c, 0, n - 1);
      assert Covered(points, c, 0, n - 1) <==> InPoints(points, c);
    }
  }

  lemma TableRepresents(p: seq<byte>, base: nat, points: seq<nat>)
    requires Canonical(points) && points != [] && At(p, base, Table(points, NeedsWide(points)))
    ensures Represents(p, base, NeedsWide(points), points)
  {
    hide Low, High, At;
    TableEntry(p, base, points, NeedsWide(points), 0);
    forall k | 0 <= k < |points| / 2
      ensures Low(p, base, NeedsWide(points), |points| / 2, k) == points[2 * k]
      ensures High(p, base, NeedsWide(points), |points| / 2, k) == UpperWord(points[2 * k + 1], NeedsWide(points))
    {
      TableEntry(p, base, points, NeedsWide(points), k);
    }
  }
}
