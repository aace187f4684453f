/**
  Sets of code points as sorted lists of end points: start, end, start, end, ... The
  operations work by one merge of two lists, followed by a pass in place that joins
  touching intervals and drops empty ones.
 */
module CharRanges {
  import opened Patterns
  import opened RangeTable
  import Sorting

  ghost predicate NonDecreasing(ps: seq<nat>) {
    forall i, j :: 0 <= i <= j < |ps| ==> ps[i] <= ps[j]
  }

  ghost predicate Strict(ps: seq<nat>) {
    forall i, j :: 0 <= i < j < |ps| ==> ps[i] < ps[j]
  }

  /** An odd number of end points is at or below `c`. */
  predicate In(ps: seq<nat>, c: int) {
    if ps == [] then false else In(ps[..|ps| - 1], c) != (ps[|ps| - 1] <= c)
  }

  lemma InAppend(ps: seq<nat>, v: nat, c: int)
    ensures In(ps + [v], c) == (In(ps, c) != (v <= c))
  {
    assert (ps + [v])[..|ps|] == ps;
  }

  lemma {:induction false} InAll(ps: seq<nat>, c: int)
    requires forall i :: 0 <= i < |ps| ==> ps[i] <= c
    ensures In(ps, c) == (|ps| % 2 == 1)
  {
    if ps != [] { InAll(ps[..|ps| - 1], c); }
  }

  lemma {:induction false} InNone(ps: seq<nat>, c: int)
    requires forall i :: 0 <= i < |ps| ==> c < ps[i]
    ensures !In(ps, c)
  {
    if ps != [] { InNone(ps[..|ps| - 1], c); }
  }

  lemma InPointsAppend(ps: seq<nat>, start: nat, end: nat, c: nat)
    requires |ps| % 2 == 0
    ensures InPoints(ps + [start, end], c) <==> InPoints(ps, c) || start <= c < end
  {
    var qs := ps + [start, end];
    if InPoints(ps, c) {
      var k :| 0 <= k < |ps| / 2 && InInterval(ps, k, c);
      assert InInterval(qs, k, c);
    }
    if start <= c < end { assert InInterval(qs, |ps| / 2, c); }
    if InPoints(qs, c) {
      var k :| 0 <= k < |qs| / 2 && InInterval(qs, k, c);
      if k < |ps| / 2 { assert InInterval(ps, k, c); }
    }
  }

  /** For sorted lists, counting end points and looking for an interval come to the same. */
  lemma {:induction false} InIffPoints(ps: seq<nat>, c: nat)
    requires NonDecreasing(ps) && |ps| % 2 == 0
    ensures In(ps, c) <==> InPoints(ps, c)
  {
    if ps != [] {
      var n := |ps| - 2;
      var front, start, end := ps[..n], ps[n], ps[n + 1];
      assert ps == front + [start, end] == front + [start] + [end];
      InIffPoints(front, c);
      InAppend(front, start, c);
      InAppend(front + [start], end, c);
      InPointsAppend(front, start, end, c);
      if start <= c { InAll(front, c); }
    }
  }

  ghost predicate SameMembers(p: seq<nat>, q: seq<nat>) {
    forall c: nat :: In(p, c) == In(q, c)
  }

  /** Sorted lists without repetition that hold the same code points are the same list. */
  lemma {:induction false} Unique(p: seq<nat>, q: seq<nat>)
    requires Strict(p) && Strict(q) && SameMembers(p, q)
    ensures p == q
    decreases |p| + |q|
  {
    if p == [] && q == [] {
      return;
    }
    var v := if p == [] || (q != [] && p[|p| - 1] < q[|q| - 1]) then q[|q| - 1] else p[|p| - 1];
    InAll(p, v);
    InAll(q, v);
    assert In(p, v) == In(q, v);
    if v > 0 {
      assert In(p, v - 1) == In(q, v - 1);
    } else {
      InNone(p, -1);
      InNone(q, -1);
    }
    UniqueBelow(p, q, v);
    UniqueFront(p, q);
    Unique(p[..|p| - 1], q[..|q| - 1]);
    assert p == p[..|p| - 1] + [v] && q == q[..|q| - 1] + [v];
  }

  /** The largest end point of two such lists is in both: just below it membership is the other way round. */
  lemma UniqueBelow(p: seq<nat>, q: seq<nat>, v: nat)
    requires Strict(p) && Strict(q) && In(p, v - 1) == In(q, v - 1) && In(p, v) == In(q, v)
    requires forall i :: 0 <= i < |p| ==> p[i] <= v
    requires forall i :: 0 <= i < |q| ==> q[i] <= v
    requires (p != [] && p[|p| - 1] == v) || (q != [] && q[|q| - 1] == v)
    ensures p != [] && q != [] && p[|p| - 1] == v == q[|q| - 1]
  {
    InAll(p, v);
    InAll(q, v);
    LastFlips(p, v);
    LastFlips(q, v);
  }

  lemma LastFlips(p: seq<nat>, v: nat)
    requires Strict(p) && forall i :: 0 <= i < |p| ==> p[i] <= v
    ensures In(p, v - 1) != In(p, v) <==> p != [] && p[|p| - 1] == v
  {
    InAll(p, v);
    if p != [] && p[|p| - 1] == v {
      InAll(p[..|p| - 1], v - 1);
    } else {
      InAll(p, v - 1);
    }
  }

  lemma UniqueFront(p: seq<nat>, q: seq<nat>)
    requires p != [] && q != [] && p[|p| - 1] == q[|q| - 1] && SameMembers(p, q)
    ensures SameMembers(p[..|p| - 1], q[..|q| - 1])
  {
    var p', q' := p[..|p| - 1], q[..|q| - 1];
    forall c: nat ensures In(p', c) == In(q', c) {
      assert In(p, c) == In(q, c);
    }
  }

  // ----- the four operations -----

  datatype Operation = Union | Inter | Xor | Sub

  predicate Combine(op: Operation, a: bool, b: bool) {
    match op
    case Union => a || b
    case Inter => a && b
    case Xor => a != b
    case Sub => a && !b
  }

  /** The list `out` holds the code points that the operation gives for `a` and `b`. */
  ghost predicate Combines(op: Operation, a: seq<nat>, b: seq<nat>, out: seq<nat>) {
    forall c: nat :: In(out, c) == Combine(op, In(a, c), In(b, c))
  }

  /** Two prefixes have been merged into `out`, which is in or out just as they are. */
  ghost predicate Merged(op: Operation, a: seq<nat>, ai: nat, b: seq<nat>, bi: nat, out: seq<nat>) {
    && ai <= |a| && bi <= |b| && NonDecreasing(out) && Combines(op, a[..ai], b[..bi], out)
    && (|out| % 2 == 1) == Combine(op, ai % 2 == 1, bi % 2 == 1)
    && Behind(out, a, ai, b, bi)
    && forall v :: v in out ==> v in a || v in b
  }

  /** Nothing merged so far is above what is still to come. */
  ghost predicate Behind(out: seq<nat>, a: seq<nat>, ai: nat, b: seq<nat>, bi: nat)
    requires ai <= |a| && bi <= |b|
  {
    && (ai < |a| ==> UpTo(out, a[ai]) && UpTo(a[..ai], a[ai]) && UpTo(b[..bi], a[ai]))
    && (bi < |b| ==> UpTo(out, b[bi]) && UpTo(a[..ai], b[bi]) && UpTo(b[..bi], b[bi]))
  }

  ghost predicate UpTo(ps: seq<nat>, v: nat) {
    forall i :: 0 <= i < |ps| ==> ps[i] <= v
  }

  /** Taking one more end point `v`, of one list or of both, keeps the merge correct. */
  lemma MergeStep(op: Operation, a: seq<nat>, ai: nat, ai': nat, b: seq<nat>, bi: nat, bi': nat, out: seq<nat>, v: nat, out': seq<nat>)
    requires NonDecreasing(a) && NonDecreasing(b) && Merged(op, a, ai, b, bi, out)
    requires ai <= ai' <= ai + 1 && bi <= bi' <= bi + 1 && ai' <= |a| && bi' <= |b| && (ai < ai' || bi < bi')
    requires (ai < |a| ==> v <= a[ai]) && (bi < |b| ==> v <= b[bi])
    requires (ai < ai' ==> v == a[ai]) && (bi < bi' ==> v == b[bi])
    requires out' == if Combine(op, ai' % 2 == 1, bi' % 2 == 1) != (|out| % 2 == 1) then out + [v] else out
    ensures Merged(op, a, ai', b, bi', out')
  {
    hide NonDecreasing, Combine, Combines;
    assert UpTo(out, v) && UpTo(a[..ai], v) && UpTo(b[..bi], v);
    Taken(a, ai, ai', v);
    Taken(b, bi, bi', v);
    Grown(out, out', v);
    CombineStep(op, a[..ai], a[..ai'], b[..bi], b[..bi'], out, out', v);
    if ai' < |a| { Next(a, ai, ai', v); UpToMore(a[..ai'], v, a[ai']); UpToMore(b[..bi'], v, a[ai']); UpToMore(out', v, a[ai']); }
    if bi' < |b| { Next(b, bi, bi', v); UpToMore(a[..ai'], v, b[bi']); UpToMore(b[..bi'], v, b[bi']); UpToMore(out', v, b[bi']); }
  }

  lemma Next(a: seq<nat>, ai: nat, ai': nat, v: nat)
    requires NonDecreasing(a) && ai <= ai' < |a| && v <= a[ai]
    ensures v <= a[ai']
  {
  }

  lemma UpToMore(ps: seq<nat>, v: nat, w: nat)
    requires UpTo(ps, v) && v <= w
    ensures UpTo(ps, w)
  {
  }

  lemma Taken(a: seq<nat>, ai: nat, ai': nat, v: nat)
    requires ai <= ai' <= ai + 1 && ai' <= |a| && UpTo(a[..ai], v) && (ai < ai' ==> v == a[ai])
    ensures UpTo(a[..ai'], v) && a[..ai'] == if ai < ai' then a[..ai] + [v] else a[..ai]
  {
  }

  lemma Grown(out: seq<nat>, out': seq<nat>, v: nat)
    requires UpTo(out, v) && NonDecreasing(out) && (out' == out || out' == out + [v])
    ensures UpTo(out', v) && NonDecreasing(out')
  {
  }

  lemma CombineStep(op: Operation, a: seq<nat>, a': seq<nat>, b: seq<nat>, b': seq<nat>, out: seq<nat>, out': seq<nat>, v: nat)
    requires Combines(op, a, b, out) && UpTo(out', v) && UpTo(a', v) && UpTo(b', v)
    requires (a' == a || a' == a + [v]) && (b' == b || b' == b + [v]) && (out' == out || out' == out + [v])
    requires (|out'| % 2 == 1) == Combine(op, |a'| % 2 == 1, |b'| % 2 == 1)
    ensures Combines(op, a', b', out')
  {
    hide Combine, In;
    forall c: nat ensures In(out', c) == Combine(op, In(a', c), In(b', c)) {
      if v <= c {
        InAll(out', c);
        InAll(a', c);
        InAll(b', c);
      } else {
        assert In(out, c) == Combine(op, In(a, c), In(b, c));
        InAppend(a, v, c);
        InAppend(b, v, c);
        InAppend(out, v, c);
      }
    }
  }

  // ----- joining intervals -----

  /** The first `k` points of `ps` stand for the first `i` points of `p`; the others have not been touched. */
  ghost predicate Compressed(p: seq<nat>, i: nat, ps: seq<nat>, k: nat) {
    && |ps| == |p| && i % 2 == 0 && k % 2 == 0 && k <= i <= |p| && ps[i..] == p[i..]
    && Strict(ps[..k]) && SameMembers(ps[..k], p[..i])
    && (k > 0 && i < |p| ==> ps[k - 1] < p[i])
    && forall v :: v in ps[..k] ==> v in p
  }

  lemma CompressStart(p: seq<nat>)
    ensures Compressed(p, 0, p, 0)
  {
  }

  lemma SkipEmpty(p: seq<nat>, i: nat, ps: seq<nat>, k: nat)
    requires NonDecreasing(p) && Compressed(p, i, ps, k) && i + 1 < |p| && p[i] == p[i + 1] && |p| % 2 == 0
    ensures Compressed(p, i + 2, ps, k)
  {
    assert p[..i + 2] == p[..i] + [p[i]] + [p[i + 1]];
    forall c: nat ensures In(ps[..k], c) == In(p[..i + 2], c) {
      assert In(ps[..k], c) == In(p[..i], c);
      InAppend(p[..i], p[i], c);
      InAppend(p[..i] + [p[i]], p[i + 1], c);
    }
    assert ps[i + 2..] == ps[i..][2..] == p[i + 2..];
  }

  /** The points from `i` to `j + 1` are one run: each interval but the last ends where the next one starts. */
  ghost predicate Touching(p: seq<nat>, i: nat, j: nat) {
    && i <= j && j + 1 < |p| && (j - i) % 2 == 0 && p[i] < p[j + 1]
    && forall c: nat :: In(p[..j + 2], c) == (In(p[..i], c) != (p[i] <= c < p[j + 1]))
  }

  lemma TouchOne(p: seq<nat>, i: nat)
    requires NonDecreasing(p) && i + 1 < |p| && p[i] != p[i + 1]
    ensures Touching(p, i, i)
  {
    assert p[..i + 2] == p[..i] + [p[i]] + [p[i + 1]];
    forall c: nat ensures In(p[..i + 2], c) == (In(p[..i], c) != (p[i] <= c < p[i + 1])) {
      InAppend(p[..i], p[i], c);
      InAppend(p[..i] + [p[i]], p[i + 1], c);
    }
  }

  lemma TouchMore(p: seq<nat>, i: nat, j: nat)
    requires NonDecreasing(p) && Touching(p, i, j) && j + 3 < |p| && p[j + 1] == p[j + 2]
    ensures Touching(p, i, j + 2)
  {
    assert p[..j + 4] == p[..j + 2] + [p[j + 2]] + [p[j + 3]];
    forall c: nat ensures In(p[..j + 4], c) == (In(p[..i], c) != (p[i] <= c < p[j + 3])) {
      InAppend(p[..j + 2], p[j + 2], c);
      InAppend(p[..j + 2] + [p[j + 2]], p[j + 3], c);
    }
  }

  lemma CopyRun(p: seq<nat>, i: nat, j: nat, ps: seq<nat>, k: nat)
    requires NonDecreasing(p) && |p| % 2 == 0 && Compressed(p, i, ps, k) && Touching(p, i, j)
    requires j + 3 < |p| ==> p[j + 1] != p[j + 2]
    ensures Compressed(p, j + 2, ps[k := p[i]][k + 1 := p[j + 1]], k + 2)
  {
    var qs := ps[k := p[i]][k + 1 := p[j + 1]];
    assert qs[..k + 2] == ps[..k] + [p[i]] + [p[j + 1]];
    var qs', p' := qs[..k + 2], p[..j + 2];
    forall c: nat ensures In(qs', c) == In(p', c) {
      assert In(ps[..k], c) == In(p[..i], c);
      InAppend(ps[..k], p[i], c);
      InAppend(ps[..k] + [p[i]], p[j + 1], c);
    }
    assert qs[j + 2..] == ps[i..][j + 2 - i..] == p[j + 2..];
    StrictExtended(ps[..k], p[i], p[j + 1]);
  }

  lemma StrictExtended(ps: seq<nat>, start: nat, end: nat)
    requires Strict(ps) && (ps != [] ==> ps[|ps| - 1] < start) && start < end
    ensures Strict(ps + [start] + [end])
  {
    forall x | 0 <= x < |ps| ensures ps[x] < start { assert x < |ps| - 1 ==> ps[x] < ps[|ps| - 1]; }
  }

  lemma CompressEnd(p: seq<nat>, i: nat, ps: seq<nat>, k: nat)
    requires Compressed(p, i, ps, k) && i == |p|
    ensures k <= |ps| && Strict(ps[..k]) && k % 2 == 0 && SameMembers(ps[..k], p) && forall v :: v in ps[..k] ==> v in p
  {
    assert p[..i] == p;
  }

  class CharRange {
    var points: seq<nat>

    constructor ()
      ensures points == []
    {
      points := [];
    }

    method AddPoint(v: nat)
      modifies this
      ensures points == old(points) + [v]
    {
      points := points + [v];
    }

    method AddInterval(c1: nat, c2: nat)
      modifies this
      ensures points == old(points) + [c1, c2]
    {
      points := points + [c1];
      points := points + [c2];
    }

    /** Joins touching intervals and drops empty ones, in place. */
    method Compress()
      requires NonDecreasing(points) && |points| % 2 == 0
      modifies this
      ensures Strict(points) && |points| % 2 == 0 && SameMembers(points, old(points))
      ensures forall v :: v in points ==> v in old(points)
    {
      hide Compressed, Touching, NonDecreasing;
      ghost var p := points;
      var len, i, k := |points|, 0, 0;
      CompressStart(p);
      while i + 1 < len
        invariant 0 <= i <= len && i % 2 == 0 && 0 <= k && Compressed(p, i, points, k)
        invariant len == |p|
        decreases len - i
      {
        Untouched(p, i, points, k);
        if points[i] == points[i + 1] {
          SkipEmpty(p, i, points, k);
          i := i + 2;
        } else {
          var j := i;
          TouchOne(p, i);
          while j + 3 < len && points[j + 1] == points[j + 2]
            invariant i <= j && j + 1 < len && j % 2 == 0 && Touching(p, i, j) && Compressed(p, i, points, k)
            invariant |points| == len && forall x :: i <= x < len ==> points[x] == p[x]
            decreases len - j
          {
            TouchMore(p, i, j);
            j := j + 2;
          }
          CopyRun(p, i, j, points, k);
          points := points[k := points[i]];
          points := points[k + 1 := points[j + 1]];
          k := k + 2;
          i := j + 2;
        }
      }
      CompressEnd(p, i, points, k);
      points := points[..k];
    }

    /** The merge of two lists into an empty one. */
    method Op(a: seq<nat>, b: seq<nat>, op: Operation)
      requires points == [] && NonDecreasing(a) && NonDecreasing(b) && |a| % 2 == 0 && |b| % 2 == 0
      modifies this
      ensures Strict(points) && |points| % 2 == 0 && Combines(op, a, b, points)
      ensures forall v :: v in points ==> v in a || v in b
    {
      hide Merged, NonDecreasing;
      var ai, bi := 0, 0;
      MergeStart(op, a, b);
      while true
        invariant 0 <= ai <= |a| && 0 <= bi <= |b| && Merged(op, a, ai, b, bi, points)
        decreases |a| - ai + |b| - bi
      {
        ghost var out, ai0, bi0 := points, ai, bi;
        var v: nat;
        if ai < |a| && bi < |b| {
          if a[ai] < b[bi] {
            v := a[ai];
            ai := ai + 1;
          } else if a[ai] == b[bi] {
            v := a[ai];
            ai := ai + 1;
            bi := bi + 1;
          } else {
            v := b[bi];
            bi := bi + 1;
          }
        } else if ai < |a| {
          v := a[ai];
          ai := ai + 1;
        } else if bi < |b| {
          v := b[bi];
          bi := bi + 1;
        } else {
          break;
        }
        var isIn := Combine(op, ai % 2 == 1, bi % 2 == 1);
        if isIn != (|points| % 2 == 1) {
          AddPoint(v);
        }
        MergeStep(op, a, ai0, ai, b, bi0, bi, out, v, points);
      }
      MergeEnd(op, a, b, points);
      ghost var merged := points;
      Compress();
      CombinesSame(op, a, b, merged, points);
    }

    /** The set itself is the first operand. */
    method Op1(b: seq<nat>, op: Operation)
      requires NonDecreasing(points) && NonDecreasing(b) && |points| % 2 == 0 && |b| % 2 == 0
      modifies this
      ensures Strict(points) && |points| % 2 == 0 && Combines(op, old(points), b, points)
      ensures forall v :: v in points ==> v in old(points) || v in b
    {
      var a := points;
      points := [];
      Op(a, b, op);
    }

    /** Adds the code points from `c1` to `c2`, both included. */
    method UnionInterval(c1: nat, c2: nat)
      requires Canonical(points) && c1 <= c2 < UINT32_MAX
      modifies this
      ensures Canonical(points)
      ensures forall c: nat :: InPoints(points, c) <==> InPoints(old(points), c) || c1 <= c <= c2
    {
      var b := [c1, c2 + 1];
      CanonicalStrict(points);
      Op1(b, Union);
      StrictCanonical(points);
      UnionMeans(old(points), c1, c2, points);
    }

    /** All code points but those of the set. */
    method Invert()
      requires NonDecreasing(points) && |points| % 2 == 0 && forall v :: v in points ==> v <= UINT32_MAX
      modifies this
      ensures Canonical(points) && Complement(old(points), points)
    {
      hide Canonical, Strict, SameMembers;
      ghost var p := points;
      points := [0] + points + [UINT32_MAX];
      Framed(p);
      ghost var q := points;
      Compress();
      Inverted(p, q, points);
    }

    /** Puts intervals in order and joins those that overlap or touch. */
    method SortAndRemoveOverlap()
      requires Intervals(points)
      modifies this
      ensures Strict(points) && |points| % 2 == 0
      ensures forall c: nat :: InPoints(points, c) <==> InPoints(old(points), c)
      ensures forall v :: v in points ==> v in old(points)
    {
      SortIntervals();
      Join();
    }

    /** The sort works on pairs of end points, compared by the first. */
    method SortIntervals()
      requires Intervals(points)
      modifies this
      ensures Intervals(points) && Starts(points)
      ensures forall c: nat :: InPoints(points, c) <==> InPoints(old(points), c)
      ensures forall v :: v in points ==> v in old(points)
    {
      var ps := points;
      var pairs := new (nat, nat)[|ps| / 2](i requires 0 <= i < |ps| / 2 => (ps[2 * i], ps[2 * i + 1]));
      ghost var s := pairs[..];
      assert s == Pairs(ps);
      FlattenPairs(ps);
      ByStartCompares();
      Sorting.Rqsort(pairs, ByStart);
      points := Flatten(pairs[..]);
      SortedPairs(s, pairs[..]);
    }

    /** Joins intervals in order of their starts, in place. */
    method Join()
      requires Intervals(points) && Starts(points)
      modifies this
      ensures Strict(points) && |points| % 2 == 0
      ensures forall c: nat :: InPoints(points, c) <==> InPoints(old(points), c)
      ensures forall v :: v in points ==> v in old(points)
    {
      hide Intervals, Starts, Joined, Absorbed, Strict, InPoints;
      ghost var p := points;
      var len, i, j := |points|, 0, 0;
      JoinStart(p);
      while i < len
        invariant 0 <= i <= len == |p| && i % 2 == 0 && 0 <= j && Joined(p, i, points, j)
        decreases len - i
      {
        ghost var i0 := i;
        JoinedRange(p, i, points, j);
        var start, end := points[i], points[i + 1];
        AbsorbFirst(p, i);
        ghost var ps := points;
        i := i + 2;
        while i < len
          invariant points == ps
          invariant i0 < i <= len && i % 2 == 0 && Absorbed(p, i0, i, start, end)
          decreases len - i
        {
          var start1, end1 := points[i], points[i + 1];
          AbsorbMore(p, i0, i, start, end);
          if start1 > end {
            break;
          } else if end1 <= end {
            i := i + 2;
          } else {
            end := end1;
            i := i + 2;
          }
        }
        JoinOne(p, i0, i, start, end, points, j);
        points := points[j := start];
        points := points[j + 1 := end];
        j := j + 2;
      }
      JoinEnd(p, points, j);
      points := points[..j];
    }
  }

  // ----- intervals in any order -----

  /** Pairs of end points, none of them empty. */
  ghost predicate Intervals(ps: seq<nat>) {
    |ps| % 2 == 0 && forall k :: 0 <= k < |ps| / 2 ==> StartOf(ps, k) < EndOf(ps, k)
  }

  ghost predicate Starts(ps: seq<nat>) {
    forall k, l :: 0 <= k <= l < |ps| / 2 ==> StartOf(ps, k) <= StartOf(ps, l)
  }

  function StartOf(ps: seq<nat>, k: nat): nat
    requires k < |ps| / 2
  {
    ps[2 * k]
  }

  function EndOf(ps: seq<nat>, k: nat): nat
    requires k < |ps| / 2
  {
    ps[2 * k + 1]
  }

  function Pairs(ps: seq<nat>): seq<(nat, nat)> {
    seq(|ps| / 2, k requires 0 <= k < |ps| / 2 => (ps[2 * k], ps[2 * k + 1]))
  }

  function Flatten(s: seq<(nat, nat)>): (ps: seq<nat>)
    ensures |ps| == 2 * |s|
    ensures forall k :: 0 <= k < |s| ==> StartOf(ps, k) == s[k].0 && EndOf(ps, k) == s[k].1
  {
    seq(2 * |s|, x requires 0 <= x < 2 * |s| => if x % 2 == 0 then s[x / 2].0 else s[x / 2].1)
  }

  lemma FlattenPairs(ps: seq<nat>)
    requires |ps| % 2 == 0
    ensures Flatten(Pairs(ps)) == ps
  {
    hide StartOf, EndOf;
    var qs := Flatten(Pairs(ps));
    forall x | 0 <= x < |ps| ensures qs[x] == ps[x] {
      Halves(x);
    }
  }

  lemma Halves(x: nat)
    ensures x % 2 == 0 ==> 2 * (x / 2) == x
    ensures x % 2 != 0 ==> 2 * (x / 2) + 1 == x
  {
  }

  function ByStart(x: (nat, nat), y: (nat, nat)): int {
    if x.0 < y.0 then -1 else if x.0 > y.0 then 1 else 0
  }

  lemma ByStartCompares()
    ensures Sorting.Comparison(ByStart)
  {
  }

  lemma InFlatten(s: seq<(nat, nat)>, c: nat)
    ensures InPoints(Flatten(s), c) <==> exists pr :: pr in s && pr.0 <= c < pr.1
  {
    var ps := Flatten(s);
    if InPoints(ps, c) {
      var k :| 0 <= k < |ps| / 2 && InInterval(ps, k, c);
      assert s[k] in s && StartOf(ps, k) == s[k].0 && EndOf(ps, k) == s[k].1;
    }
    if exists pr :: pr in s && pr.0 <= c < pr.1 {
      var pr :| pr in s && pr.0 <= c < pr.1;
      var k :| 0 <= k < |s| && s[k] == pr;
      assert StartOf(ps, k) == s[k].0 && EndOf(ps, k) == s[k].1;
      assert InInterval(ps, k, c);
    }
  }

  lemma SamePairs(s: seq<(nat, nat)>, t: seq<(nat, nat)>)
    requires multiset(t) == multiset(s)
    ensures forall pr :: pr in t <==> pr in s
  {
    forall pr ensures pr in t <==> pr in s { assert pr in multiset(t) <==> pr in multiset(s); }
  }

  lemma PairOrigin(s: seq<(nat, nat)>, t: seq<(nat, nat)>, k: nat)
    requires (forall pr :: pr in t <==> pr in s) && k < |t| && Intervals(Flatten(s))
    ensures var p, q := Flatten(s), Flatten(t);
            StartOf(q, k) < EndOf(q, k) && StartOf(q, k) in p && EndOf(q, k) in p
  {
    var p, q := Flatten(s), Flatten(t);
    assert t[k] in s;
    var l :| 0 <= l < |s| && s[l] == t[k];
    assert StartOf(p, l) < EndOf(p, l) && StartOf(p, l) == p[2 * l] && EndOf(p, l) == p[2 * l + 1];
  }

  /** Sorting the pairs keeps the set, and every end point. */
  lemma SortedPairs(s: seq<(nat, nat)>, t: seq<(nat, nat)>)
    requires multiset(t) == multiset(s) && Sorting.SortedBy(ByStart, t) && Intervals(Flatten(s))
    ensures Intervals(Flatten(t)) && Starts(Flatten(t))
    ensures forall c: nat :: InPoints(Flatten(t), c) <==> InPoints(Flatten(s), c)
    ensures forall v :: v in Flatten(t) ==> v in Flatten(s)
  {
    hide InPoints, StartOf, EndOf, Flatten, Intervals, Starts, Sorting.SortedBy;
    SamePairs(s, t);
    PairsInOrder(t);
    PairsFromPairs(s, t);
    forall c: nat ensures InPoints(Flatten(t), c) <==> InPoints(Flatten(s), c) {
      InFlatten(s, c);
      InFlatten(t, c);
    }
  }

  lemma PairsInOrder(t: seq<(nat, nat)>)
    requires Sorting.SortedBy(ByStart, t)
    ensures Starts(Flatten(t))
  {
    hide StartOf, EndOf, Flatten;
    var q := Flatten(t);
    forall k, l | 0 <= k <= l < |q| / 2 ensures StartOf(q, k) <= StartOf(q, l) {
      if k < l { assert ByStart(t[k], t[l]) <= 0; }
    }
  }

  /** Every pair and every end point of the one list is one of the other. */
  lemma PairsFromPairs(s: seq<(nat, nat)>, t: seq<(nat, nat)>)
    requires (forall pr :: pr in t <==> pr in s) && Intervals(Flatten(s))
    ensures Intervals(Flatten(t)) && forall v :: v in Flatten(t) ==> v in Flatten(s)
  {
    hide StartOf, EndOf, Flatten;
    var p, q := Flatten(s), Flatten(t);
    forall k | 0 <= k < |q| / 2 ensures StartOf(q, k) < EndOf(q, k) { PairOrigin(s, t, k); }
    forall v | v in q ensures v in p {
      var x :| 0 <= x < |q| && q[x] == v;
      AnEndPoint(q, x);
      PairOrigin(s, t, x / 2);
    }
  }

  lemma AnEndPoint(ps: seq<nat>, x: nat)
    requires x < |ps| && |ps| % 2 == 0
    ensures ps[x] == StartOf(ps, x / 2) || ps[x] == EndOf(ps, x / 2)
  {
    Halves(x);
  }

  /** The first `j` points of `ps` cover what the first `i` points of `p` do; the others have not been touched. */
  ghost predicate Joined(p: seq<nat>, i: nat, ps: seq<nat>, j: nat) {
    && Intervals(p) && Starts(p)
    && |ps| == |p| && i % 2 == 0 && j % 2 == 0 && j <= i <= |p| && ps[i..] == p[i..]
    && Strict(ps[..j]) && SamePoints(ps[..j], p[..i])
    && (j > 0 && i < |p| ==> ps[j - 1] < p[i])
    && forall v :: v in ps[..j] ==> v in p
  }

  ghost predicate SamePoints(p: seq<nat>, q: seq<nat>) {
    forall c: nat :: InPoints(p, c) <==> InPoints(q, c)
  }

  /** The intervals from `i0` up to `i` make up the one from `start` to `end`. */
  ghost predicate Absorbed(p: seq<nat>, i0: nat, i: nat, start: nat, end: nat) {
    && Intervals(p) && Starts(p) && i0 < i <= |p| && i0 % 2 == 0 && i % 2 == 0
    && start == p[i0] && start < end && end in p
    && forall c: nat :: InPoints(p[..i], c) <==> InPoints(p[..i0], c) || start <= c < end
  }

  lemma JoinStart(p: seq<nat>)
    requires Intervals(p) && Starts(p)
    ensures Joined(p, 0, p, 0)
  {
  }

  lemma JoinedRange(p: seq<nat>, i: nat, ps: seq<nat>, j: nat)
    requires Joined(p, i, ps, j)
    ensures |ps| == |p| && i % 2 == 0 && |p| % 2 == 0 && j <= i && j % 2 == 0 && Intervals(p) && Starts(p)
    ensures forall x :: i <= x < |p| ==> ps[x] == p[x]
  {
    forall x | i <= x < |p| ensures ps[x] == p[x] { assert ps[x] == ps[i..][x - i] == p[i..][x - i]; }
  }

  lemma AbsorbFirst(p: seq<nat>, i: nat)
    requires Intervals(p) && Starts(p) && i + 1 < |p| && i % 2 == 0
    ensures Absorbed(p, i, i + 2, p[i], p[i + 1])
  {
    hide InPoints;
    assert StartOf(p, i / 2) < EndOf(p, i / 2);
    assert p[i + 1] in p;
    var before, after := p[..i], p[..i + 2];
    assert after == before + [p[i], p[i + 1]];
    forall c: nat ensures InPoints(after, c) <==> InPoints(before, c) || p[i] <= c < p[i + 1] {
      InPointsAppend(before, p[i], p[i + 1], c);
    }
  }

  lemma AbsorbMore(p: seq<nat>, i0: nat, i: nat, start: nat, end: nat)
    requires Absorbed(p, i0, i, start, end) && i < |p|
    ensures i + 1 < |p|
    ensures p[i] <= end && p[i + 1] <= end ==> Absorbed(p, i0, i + 2, start, end)
    ensures p[i] <= end && end < p[i + 1] ==> Absorbed(p, i0, i + 2, start, p[i + 1])
  {
    hide InPoints;
    assert StartOf(p, i0 / 2) <= StartOf(p, i / 2);
    var before, after := p[..i0], p[..i + 2];
    assert after == p[..i] + [p[i], p[i + 1]];
    var end' := if end < p[i + 1] then p[i + 1] else end;
    if p[i] <= end {
      forall c: nat ensures InPoints(after, c) <==> InPoints(before, c) || start <= c < end' {
        InPointsAppend(p[..i], p[i], p[i + 1], c);
        assert InPoints(p[..i], c) <==> InPoints(before, c) || start <= c < end;
      }
    }
  }

  lemma JoinOne(p: seq<nat>, i0: nat, i: nat, start: nat, end: nat, ps: seq<nat>, j: nat)
    requires Joined(p, i0, ps, j) && Absorbed(p, i0, i, start, end) && (i < |p| ==> end < p[i])
    ensures j + 1 < |ps| && Joined(p, i, ps[j := start][j + 1 := end], j + 2)
  {
    hide InPoints;
    var qs := ps[j := start][j + 1 := end];
    var done, done', all := ps[..j], qs[..j + 2], p[..i];
    assert done' == done + [start, end];
    forall c: nat ensures InPoints(done', c) <==> InPoints(all, c) {
      InPointsAppend(done, start, end, c);
      assert InPoints(done, c) <==> InPoints(p[..i0], c);
    }
    assert qs[i..] == ps[i0..][i - i0..] == p[i..];
    StrictExtended(done, start, end);
    assert done + [start] + [end] == done';
  }

  lemma JoinEnd(p: seq<nat>, ps: seq<nat>, j: nat)
    requires Joined(p, |p|, ps, j)
    ensures j <= |ps| && Strict(ps[..j]) && j % 2 == 0
    ensures forall c: nat :: InPoints(ps[..j], c) <==> InPoints(p, c)
    ensures forall v :: v in ps[..j] ==> v in p
  {
    assert p[..|p|] == p;
    var done := ps[..j];
    forall c: nat ensures InPoints(done, c) <==> InPoints(p, c) {
      assert InPoints(done, c) <==> InPoints(p[..|p|], c);
    }
  }

  lemma CanonicalStrict(ps: seq<nat>)
    requires Canonical(ps)
    ensures Strict(ps) && NonDecreasing(ps) && |ps| % 2 == 0
    ensures forall v :: v in ps ==> v <= UINT32_MAX
  {
  }

  lemma StrictCanonical(ps: seq<nat>)
    requires Strict(ps) && |ps| % 2 == 0 && forall v :: v in ps ==> v <= UINT32_MAX
    ensures Canonical(ps)
  {
    forall i | 0 <= i < |ps| ensures ps[i] <= UINT32_MAX { assert ps[i] in ps; }
  }

  lemma UnionMeans(p: seq<nat>, c1: nat, c2: nat, q: seq<nat>)
    requires NonDecreasing(p) && |p| % 2 == 0 && c1 <= c2 && Strict(q) && |q| % 2 == 0 && Combines(Union, p, [c1, c2 + 1], q)
    ensures forall c: nat :: InPoints(q, c) <==> InPoints(p, c) || c1 <= c <= c2
  {
    hide InPoints;
    var b := [c1, c2 + 1];
    forall c: nat ensures InPoints(q, c) <==> InPoints(p, c) || c1 <= c <= c2 {
      InIffPoints(p, c);
      InIffPoints(q, c);
      InIffPoints(b, c);
      assert [] + [c1, c2 + 1] == b;
      InPointsAppend([], c1, c2 + 1, c);
      NoPoints(c);
      assert In(q, c) == Combine(Union, In(p, c), In(b, c));
    }
  }

  lemma NoPoints(c: nat)
    ensures !InPoints([], c)
  {
  }

  /** `q` holds exactly the 32-bit code points that `p` does not. */
  ghost predicate Complement(p: seq<nat>, q: seq<nat>) {
    forall c: nat :: In(q, c) <==> c < UINT32_MAX && !In(p, c)
  }

  lemma Framed(p: seq<nat>)
    requires NonDecreasing(p) && |p| % 2 == 0 && forall v :: v in p ==> v <= UINT32_MAX
    ensures var q := [0] + p + [UINT32_MAX];
            NonDecreasing(q) && |q| % 2 == 0 && Complement(p, q) && forall v :: v in q ==> v <= UINT32_MAX
  {
    forall i | 0 <= i < |p| ensures p[i] <= UINT32_MAX { assert p[i] in p; }
    var q := [0] + p + [UINT32_MAX];
    forall c: nat ensures In(q, c) <==> c < UINT32_MAX && !In(p, c) {
      InAppend([0] + p, UINT32_MAX, c);
      InPrepend(p, c);
      if c >= UINT32_MAX { InAll(p, c); }
    }
  }

  lemma {:induction false} InPrepend(p: seq<nat>, c: nat)
    ensures In([0] + p, c) == !In(p, c)
  {
    if p == [] {
      assert [0] + p == [] + [0];
      InAppend([], 0, c);
    } else {
      var front, v := p[..|p| - 1], p[|p| - 1];
      assert [0] + p == [0] + front + [v] && p == front + [v];
      InPrepend(front, c);
      InAppend([0] + front, v, c);
      InAppend(front, v, c);
    }
  }

  lemma Inverted(p: seq<nat>, q: seq<nat>, r: seq<nat>)
    requires Complement(p, q) && Strict(r) && |r| % 2 == 0 && SameMembers(r, q)
    requires (forall v :: v in q ==> v <= UINT32_MAX) && (forall v :: v in r ==> v in q)
    ensures Canonical(r) && Complement(p, r)
  {
    StrictCanonical(r);
    forall c: nat ensures In(r, c) <==> c < UINT32_MAX && !In(p, c) { assert In(r, c) == In(q, c); }
  }

  /** Inverting twice gives back the same list. */
  lemma InvertTwice(p: seq<nat>, q: seq<nat>, r: seq<nat>)
    requires Canonical(p) && Canonical(q) && Canonical(r) && Complement(p, q) && Complement(q, r)
    ensures r == p
  {
    CanonicalStrict(p);
    CanonicalStrict(r);
    forall c: nat ensures In(r, c) == In(p, c) {
      assert In(q, c) <==> c < UINT32_MAX && !In(p, c);
      if c >= UINT32_MAX { InAll(p, c); }
    }
    Unique(r, p);
  }

  /** In terms of intervals: the result of an operation holds `c` just when the operands say so. */
  lemma OperationMeans(op: Operation, a: seq<nat>, b: seq<nat>, out: seq<nat>, c: nat)
    requires NonDecreasing(a) && NonDecreasing(b) && Strict(out) && |a| % 2 == 0 && |b| % 2 == 0 && |out| % 2 == 0
    requires Combines(op, a, b, out)
    ensures InPoints(out, c) <==> Combine(op, InPoints(a, c), InPoints(b, c))
    ensures op == Union ==> (InPoints(out, c) <==> InPoints(a, c) || InPoints(b, c))
    ensures op == Inter ==> (InPoints(out, c) <==> InPoints(a, c) && InPoints(b, c))
    ensures op == Xor ==> (InPoints(out, c) <==> (InPoints(a, c) <==> !InPoints(b, c)))
    ensures op == Sub ==> (InPoints(out, c) <==> InPoints(a, c) && !InPoints(b, c))
  {
    hide InPoints;
    InIffPoints(a, c);
    InIffPoints(b, c);
    InIffPoints(out, c);
    assert In(out, c) == Combine(op, In(a, c), In(b, c));
  }

  lemma ComplementMeans(p: seq<nat>, q: seq<nat>, c: nat)
    requires Canonical(p) && Canonical(q) && Complement(p, q)
    ensures InPoints(q, c) <==> c < UINT32_MAX && !InPoints(p, c)
  {
    hide InPoints;
    CanonicalStrict(p);
    CanonicalStrict(q);
    InIffPoints(p, c);
    InIffPoints(q, c);
    assert In(q, c) <==> c < UINT32_MAX && !In(p, c);
  }

  /** Two ways of computing the same set give the same list. */
  lemma OperationsAgree(op: Operation, a: seq<nat>, b: seq<nat>, p: seq<nat>, q: seq<nat>)
    requires Strict(p) && Strict(q) && Combines(op, a, b, p) && Combines(op, a, b, q)
    ensures p == q
  {
    forall c: nat ensures In(p, c) == In(q, c) { assert In(p, c) == Combine(op, In(a, c), In(b, c)); }
    Unique(p, q);
  }

  lemma MergeStart(op: Operation, a: seq<nat>, b: seq<nat>)
    ensures Merged(op, a, 0, b, 0, [])
  {
    assert a[..0] == [] && b[..0] == [];
  }

  lemma MergeEnd(op: Operation, a: seq<nat>, b: seq<nat>, out: seq<nat>)
    requires Merged(op, a, |a|, b, |b|, out) && |a| % 2 == 0 && |b| % 2 == 0
    ensures NonDecreasing(out) && |out| % 2 == 0 && Combines(op, a, b, out) && forall v :: v in out ==> v in a || v in b
  {
    assert a[..|a|] == a && b[..|b|] == b;
  }

  lemma CombinesSame(op: Operation, a: seq<nat>, b: seq<nat>, p: seq<nat>, q: seq<nat>)
    requires Combines(op, a, b, p) && SameMembers(q, p)
    ensures Combines(op, a, b, q)
  {
    forall c: nat ensures In(q, c) == Combine(op, In(a, c), In(b, c)) { assert In(q, c) == In(p, c); }
  }

  lemma Untouched(p: seq<nat>, i: nat, ps: seq<nat>, k: nat)
    requires Compressed(p, i, ps, k)
    ensures |ps| == |p| && k % 2 == 0 && k <= i && forall x :: i <= x < |p| ==> ps[x] == p[x]
  {
    forall x | i <= x < |p| ensures ps[x] == p[x] { assert ps[x] == ps[i..][x - i] == p[i..][x - i]; }
  }
}
