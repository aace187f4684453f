/**
  Character classes of single characters and ranges: how the set is put together item by
  item, and what the range instruction made from it accepts.
 */
module Classes {
  import opened Bytes
  import opened Patterns
  import opened RangeTable
  import opened CharRanges
  import opened CaseFolding

  /** A character of the class, or a range with both ends included. */
  datatype Item = Item(lo: nat, hi: nat)

  ghost predicate AllCodePoints(items: seq<Item>) {
    forall k :: 0 <= k < |items| ==> CodePoints(items[k])
  }

  predicate CodePoints(i: Item) {
    i.lo <= i.hi < 0x11_0000
  }

  predicate Member(i: Item, c: nat) {
    i.lo <= c <= i.hi
  }

  function Form(t: Tables, unicode: bool, icase: bool, c: nat): nat
    requires WellFormed(t)
  {
    if icase then Canon(t, unicode, c) else c
  }

  /** Some member of the item has the form `d`. */
  ghost predicate Gives(t: Tables, unicode: bool, icase: bool, i: Item, d: nat)
    requires WellFormed(t)
  {
    exists c: nat :: Member(i, c) && Form(t, unicode, icase, c) == d
  }

  /** The set holds exactly the forms of the members of the items. */
  ghost predicate Built(t: Tables, unicode: bool, icase: bool, items: seq<Item>, ps: seq<nat>)
    requires WellFormed(t)
  {
    forall d: nat :: InPoints(ps, d) <==> exists k :: 0 <= k < |items| && Gives(t, unicode, icase, items[k], d)
  }

  /** Adds one range; under ignore-case it is first replaced by its canonical forms. */
  method AddRange(t: Tables, unicode: bool, icase: bool, cr: CharRange, i: Item)
    requires WellFormed(t) && AsciiAgrees(t, unicode) && Canonical(cr.points) && CodePoints(i)
    modifies cr
    ensures Canonical(cr.points)
    ensures forall d: nat :: InPoints(cr.points, d) <==> InPoints(old(cr.points), d) || Gives(t, unicode, icase, i, d)
  {
    hide InPoints, Canon, WellFormed, AsciiAgrees, Canonical, Strict, NonDecreasing, Combines, CaseFolding.Image;
    ghost var ps := cr.points;
    if icase {
      var cr2 := new CharRange();
      cr2.AddInterval(i.lo, i.hi + 1);
      OneInterval(i.lo, i.hi + 1);
      ghost var qs := cr2.points;
      assert qs == [i.lo, i.hi + 1];
      RegexpCanonicalize(t, unicode, cr2);
      CanonicalStrict(cr.points);
      CanonicalStrict(cr2.points);
      cr.Op1(cr2.points, Union);
      StrictCanonical(cr.points);
      forall d: nat ensures InPoints(cr.points, d) <==> InPoints(ps, d) || Gives(t, unicode, icase, i, d) {
        OperationMeans(Union, ps, cr2.points, cr.points, d);
        ImageOfItem(t, unicode, i, qs, d);
      }
    } else {
      cr.UnionInterval(i.lo, i.hi);
      forall d: nat ensures InPoints(cr.points, d) <==> InPoints(ps, d) || Gives(t, unicode, icase, i, d) {
        assert Gives(t, unicode, icase, i, d) <==> Member(i, d) by {
          if Member(i, d) { assert Form(t, unicode, icase, d) == d; }
        }
      }
    }
  }

  lemma OneInterval(start: nat, end: nat)
    requires start < end <= UINT32_MAX
    ensures Canonical([start, end]) && forall c: nat :: InPoints([start, end], c) <==> start <= c < end
  {
    forall c: nat ensures InPoints([start, end], c) <==> start <= c < end {
      assert [] + [start, end] == [start, end];
      InPointsAppend([], start, end, c);
      NoPoints(c);
    }
  }

  lemma ImageOfItem(t: Tables, unicode: bool, i: Item, qs: seq<nat>, d: nat)
    requires WellFormed(t) && forall c: nat :: InPoints(qs, c) <==> i.lo <= c < i.hi + 1
    ensures CaseFolding.Image(t, unicode, qs, d) <==> Gives(t, unicode, true, i, d)
  {
    hide InPoints, Canon, WellFormed;
    if CaseFolding.Image(t, unicode, qs, d) {
      var c: nat :| InPoints(qs, c) && Canon(t, unicode, c) == d;
      assert Member(i, c) && Form(t, unicode, true, c) == d;
    }
    if Gives(t, unicode, true, i, d) {
      var c: nat :| Member(i, c) && Form(t, unicode, true, c) == d;
      assert InPoints(qs, c);
    }
  }

  /** A single character. */
  method AddChar(t: Tables, unicode: bool, icase: bool, cr: CharRange, c1: nat)
    requires WellFormed(t) && AsciiAgrees(t, unicode) && Canonical(cr.points) && c1 < 0x11_0000
    modifies cr
    ensures Canonical(cr.points)
    ensures forall d: nat :: InPoints(cr.points, d) <==> InPoints(old(cr.points), d) || Gives(t, unicode, icase, Item(c1, c1), d)
  {
    hide InPoints, Canon, WellFormed, AsciiAgrees, Canonical;
    ghost var ps := cr.points;
    var c := c1;
    if icase {
      c := LreCanonicalize(t, c1, unicode);
    }
    FormBound(t, unicode, icase, c1);
    cr.UnionInterval(c, c);
    forall d: nat ensures InPoints(cr.points, d) <==> InPoints(ps, d) || Gives(t, unicode, icase, Item(c1, c1), d) {
      assert Gives(t, unicode, icase, Item(c1, c1), d) <==> d == c by {
        assert Member(Item(c1, c1), c1) && Form(t, unicode, icase, c1) == c;
      }
    }
  }

  lemma FormBound(t: Tables, unicode: bool, icase: bool, c: nat)
    requires WellFormed(t) && c < 0x11_0000
    ensures Form(t, unicode, icase, c) < 0x11_0000
  {
    hide FoldingEntry;
    if c < 0x3_0000 {
      CanonBound(t, unicode, c);
    } else if icase {
      var idx := FindRun(t, c, 0);
      if idx < |t.table1| { RunBounds(t, idx); }
    }
  }

  /** The set of a class: the forms of its members, or all others. */
  ghost predicate ClassIs(t: Tables, unicode: bool, icase: bool, items: seq<Item>, negated: bool, points: seq<nat>)
    requires WellFormed(t)
  {
    && Canonical(points)
    && forall d: nat :: d < 0x11_0000 ==>
         (InPoints(points, d) <==> negated != exists k :: 0 <= k < |items| && Gives(t, unicode, icase, items[k], d))
  }

  /** Item after item; `negated` stands for a class that starts with `^`. */
  method BuildClass(t: Tables, unicode: bool, icase: bool, items: seq<Item>, negated: bool) returns (points: seq<nat>)
    requires WellFormed(t) && AsciiAgrees(t, unicode) && AllCodePoints(items)
    ensures ClassIs(t, unicode, icase, items, negated, points)
  {
    hide InPoints, WellFormed, AsciiAgrees, Canonical, Gives, CodePoints;
    var cr := new CharRange();
    NothingBuilt(t, unicode, icase, items);
    var k := 0;
    while k < |items|
      invariant 0 <= k <= |items| && Canonical(cr.points) && Built(t, unicode, icase, items[..k], cr.points)
    {
      ghost var ps := cr.points;
      ItemPoints(items, k);
      if items[k].lo == items[k].hi {
        AddChar(t, unicode, icase, cr, items[k].lo);
      } else {
        AddRange(t, unicode, icase, cr, items[k]);
      }
      BuiltMore(t, unicode, icase, items, k, ps, cr.points);
      k := k + 1;
    }
    assert items[..k] == items;
    ghost var ps := cr.points;
    CanonicalStrict(ps);
    if negated {
      cr.Invert();
      forall d: nat | d < 0x11_0000 ensures InPoints(cr.points, d) <==> !InPoints(ps, d) {
        ComplementMeans(ps, cr.points, d);
      }
    }
    points := cr.points;
  }

  lemma ItemPoints(items: seq<Item>, k: nat)
    requires AllCodePoints(items) && k < |items|
    ensures CodePoints(items[k]) && items[k].lo < 0x11_0000
    ensures items[k].lo == items[k].hi ==> items[k] == Item(items[k].lo, items[k].lo)
  {
  }

  lemma NothingBuilt(t: Tables, unicode: bool, icase: bool, items: seq<Item>)
    requires WellFormed(t)
    ensures Built(t, unicode, icase, items[..0], []) && Canonical([])
  {
  }

  lemma BuiltMore(t: Tables, unicode: bool, icase: bool, items: seq<Item>, k: nat, ps: seq<nat>, ps': seq<nat>)
    requires WellFormed(t) && k < |items| && Built(t, unicode, icase, items[..k], ps)
    requires forall d: nat :: InPoints(ps', d) <==> InPoints(ps, d) || Gives(t, unicode, icase, items[k], d)
    ensures Built(t, unicode, icase, items[..k + 1], ps')
  {
    hide InPoints, WellFormed, Gives;
    var before, after := items[..k], items[..k + 1];
    forall d: nat ensures InPoints(ps', d) <==> exists i :: 0 <= i < |after| && Gives(t, unicode, icase, after[i], d) {
      assert after[k] == items[k] && forall i :: 0 <= i < k ==> after[i] == before[i];
      assert InPoints(ps, d) <==> exists i :: 0 <= i < |before| && Gives(t, unicode, icase, before[i], d);
    }
  }
}
