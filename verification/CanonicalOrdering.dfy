/**
  Canonical ordering of combining marks (section 3.11 of the Unicode Standard): each run of
  marks is sorted by combining class, in place and without exchanging equal ones. The class
  of a character is a parameter.
 */
module CanonicalOrdering {

  type Class = int -> nat

  /** The run of marks that starts at the head of `s`. */
  function RunLength(cc: Class, s: seq<int>): (r: nat)
    ensures r <= |s|
  {
    if s == [] || cc(s[0]) == 0 then 0 else 1 + RunLength(cc, s[1..])
  }

  /** Where `x` goes: behind the last element whose class is not above its own. */
  function Place(cc: Class, s: seq<int>, x: int): (p: nat)
    ensures p <= |s|
  {
    if s == [] || cc(s[|s| - 1]) <= cc(x) then |s| else Place(cc, s[..|s| - 1], x)
  }

  function Inserted(cc: Class, s: seq<int>, x: int): seq<int> {
    var p := Place(cc, s, x);
    s[..p] + [x] + s[p..]
  }

  function StableSort(cc: Class, s: seq<int>): (t: seq<int>)
    ensures |t| == |s|
  {
    if s == [] then [] else Inserted(cc, StableSort(cc, s[..|s| - 1]), s[|s| - 1])
  }

  /** Runs are sorted, starters stay. */
  function Reorder(cc: Class, s: seq<int>): (t: seq<int>)
    ensures |t| == |s|
    decreases |s|
  {
    if s == [] then []
    else if cc(s[0]) == 0 then [s[0]] + Reorder(cc, s[1..])
    else
      var r := RunLength(cc, s);
      StableSort(cc, s[..r]) + Reorder(cc, s[r..])
  }

  // ----- what it amounts to -----

  ghost predicate SortedBy(cc: Class, s: seq<int>) {
    forall i, j :: 0 <= i < j < |s| ==> cc(s[i]) <= cc(s[j])
  }

  /** The elements of one class, in order. */
  function OfClass(cc: Class, s: seq<int>, v: nat): seq<int> {
    if s == [] then [] else OfClass(cc, s[..|s| - 1], v) + if cc(s[|s| - 1]) == v then [s[|s| - 1]] else []
  }

  lemma {:induction false} OfClassAppend(cc: Class, s: seq<int>, t: seq<int>, v: nat)
    ensures OfClass(cc, s + t, v) == OfClass(cc, s, v) + OfClass(cc, t, v)
    decreases |t|
  {
    if t == [] {
      assert s + t == s;
    } else {
      OfClassAppend(cc, s, t[..|t| - 1], v);
      assert (s + t)[..|s + t| - 1] == s + t[..|t| - 1];
    }
  }

  lemma {:induction false} OfClassNone(cc: Class, s: seq<int>, v: nat)
    requires forall i :: 0 <= i < |s| ==> cc(s[i]) != v
    ensures OfClass(cc, s, v) == []
  {
    if s != [] { OfClassNone(cc, s[..|s| - 1], v); }
  }

  lemma {:induction false} PlaceMeans(cc: Class, s: seq<int>, x: int)
    ensures var p := Place(cc, s, x);
            (forall i :: p <= i < |s| ==> cc(s[i]) > cc(x)) && (p > 0 ==> cc(s[p - 1]) <= cc(x))
  {
    if s != [] && cc(s[|s| - 1]) > cc(x) { PlaceMeans(cc, s[..|s| - 1], x); }
  }

  ghost predicate SameByClass(cc: Class, s: seq<int>, t: seq<int>) {
    forall v :: OfClass(cc, s, v) == OfClass(cc, t, v)
  }

  lemma InsertedMeans(cc: Class, t: seq<int>, x: int)
    requires SortedBy(cc, t)
    ensures SortedBy(cc, Inserted(cc, t, x)) && multiset(Inserted(cc, t, x)) == multiset(t + [x])
    ensures SameByClass(cc, Inserted(cc, t, x), t + [x])
  {
    hide OfClass, Place, SortedBy;
    var p := Place(cc, t, x);
    PlaceMeans(cc, t, x);
    SortedAround(cc, t, p, x);
    InsertedSame(cc, t, p, x);
  }

  lemma InsertedSame(cc: Class, t: seq<int>, p: nat, x: int)
    requires p <= |t| && forall i :: p <= i < |t| ==> cc(t[i]) > cc(x)
    ensures multiset(t[..p] + [x] + t[p..]) == multiset(t + [x])
    ensures SameByClass(cc, t[..p] + [x] + t[p..], t + [x])
  {
    hide OfClass;
    var a, b := t[..p], t[p..];
    assert t == a + b;
    var u := a + [x] + b;
    assert multiset(u) == multiset(a) + multiset{x} + multiset(b);
    assert multiset(t + [x]) == multiset(a) + multiset(b) + multiset{x};
    forall v ensures OfClass(cc, u, v) == OfClass(cc, t + [x], v) {
      InsertedClass(cc, t, p, x, v);
      OfClassAppend(cc, t, [x], v);
    }
  }

  lemma SameAppend(cc: Class, s: seq<int>, t: seq<int>, x: int)
    requires SameByClass(cc, s, t)
    ensures SameByClass(cc, s + [x], t + [x])
  {
    hide OfClass;
    forall v ensures OfClass(cc, s + [x], v) == OfClass(cc, t + [x], v) {
      OfClassAppend(cc, s, [x], v);
      OfClassAppend(cc, t, [x], v);
    }
  }

  /** The sort is by class, loses nothing, and keeps the order of marks of the same class. */
  lemma {:induction false} StableSortMeans(cc: Class, s: seq<int>)
    ensures SortedBy(cc, StableSort(cc, s)) && multiset(StableSort(cc, s)) == multiset(s)
    ensures SameByClass(cc, StableSort(cc, s), s)
  {
    hide OfClass, Place, Inserted, SortedBy;
    if s == [] {
      NoneSorted(cc);
    } else {
      var front, x := s[..|s| - 1], s[|s| - 1];
      var t := StableSort(cc, front);
      assert s == front + [x];
      StableSortMeans(cc, front);
      InsertedMeans(cc, t, x);
      SameAppend(cc, t, front, x);
      assert multiset(t + [x]) == multiset(t) + multiset{x};
      assert multiset(front + [x]) == multiset(front) + multiset{x};
      SameTwice(cc, StableSort(cc, s), t + [x], s);
    }
  }

  lemma NoneSorted(cc: Class)
    ensures SortedBy(cc, [])
  {
  }

  lemma SameTwice(cc: Class, s: seq<int>, t: seq<int>, u: seq<int>)
    requires SameByClass(cc, s, t) && SameByClass(cc, t, u)
    ensures SameByClass(cc, s, u)
  {
    hide OfClass;
    forall v ensures OfClass(cc, s, v) == OfClass(cc, u, v) { assert OfClass(cc, s, v) == OfClass(cc, t, v); }
  }

  lemma SortedAround(cc: Class, t: seq<int>, p: nat, x: int)
    requires p <= |t| && SortedBy(cc, t)
    requires (forall i :: p <= i < |t| ==> cc(t[i]) > cc(x)) && (p > 0 ==> cc(t[p - 1]) <= cc(x))
    ensures SortedBy(cc, t[..p] + [x] + t[p..])
  {
    var u := t[..p] + [x] + t[p..];
    forall i, j | 0 <= i < j < |u| ensures cc(u[i]) <= cc(u[j]) {
      assert i < p ==> u[i] == t[i] && cc(t[i]) <= cc(t[p - 1]);
      assert j > p ==> u[j] == t[j - 1];
    }
  }

  lemma InsertedClass(cc: Class, t: seq<int>, p: nat, x: int, v: nat)
    requires p <= |t| && forall i :: p <= i < |t| ==> cc(t[i]) > cc(x)
    ensures OfClass(cc, t[..p] + [x] + t[p..], v) == OfClass(cc, t, v) + OfClass(cc, [x], v)
  {
    hide OfClass;
    OfClassAppend(cc, t[..p] + [x], t[p..], v);
    OfClassAppend(cc, t[..p], [x], v);
    OfClassAppend(cc, t[..p], t[p..], v);
    assert t[..p] + t[p..] == t;
    if v == cc(x) {
      OfClassNone(cc, t[p..], v);
    } else {
      OfClassNone(cc, [x], v);
    }
  }

  lemma {:induction false} RunMeans(cc: Class, s: seq<int>)
    ensures var r := RunLength(cc, s);
            (forall i :: 0 <= i < r ==> cc(s[i]) != 0) && (r < |s| ==> cc(s[r]) == 0)
  {
    if s != [] && cc(s[0]) != 0 {
      RunMeans(cc, s[1..]);
      var r := RunLength(cc, s[1..]);
      forall i | 0 <= i < r + 1 ensures cc(s[i]) != 0 {
        if i > 0 { assert s[1..][i - 1] == s[i]; }
      }
    }
  }

  // ----- the whole string -----

  /** Two marks next to each other in the wrong order. */
  predicate ReorderablePair(cc: Class, s: seq<int>, i: nat)
    requires i + 1 < |s|
  {
    cc(s[i]) > cc(s[i + 1]) > 0
  }

  ghost predicate CanonicallyOrdered(cc: Class, s: seq<int>) {
    forall i :: 0 <= i < |s| - 1 ==> !ReorderablePair(cc, s, i)
  }

  lemma SortedRun(cc: Class, s: seq<int>, rest: seq<int>)
    requires SortedBy(cc, s) && CanonicallyOrdered(cc, rest) && (rest != [] ==> cc(rest[0]) == 0)
    ensures CanonicallyOrdered(cc, s + rest)
  {
    var all := s + rest;
    forall i | 0 <= i < |all| - 1 ensures !ReorderablePair(cc, all, i) {
      if i + 1 < |s| {
        assert cc(s[i]) <= cc(s[i + 1]);
      } else if i >= |s| {
        assert !ReorderablePair(cc, rest, i - |s|);
      }
    }
  }

  lemma ReorderRun(cc: Class, s: seq<int>)
    requires s != [] && cc(s[0]) != 0
    ensures var r := RunLength(cc, s);
            r > 0 && Reorder(cc, s) == StableSort(cc, s[..r]) + Reorder(cc, s[r..])
  {
  }

  lemma ReorderStarter(cc: Class, s: seq<int>)
    requires s != [] && cc(s[0]) == 0
    ensures Reorder(cc, s) == [s[0]] + Reorder(cc, s[1..])
  {
  }

  /** The result has no reorderable pair, and a starter is at its head just when it was before. */
  lemma {:induction false} ReorderIsCanonical(cc: Class, s: seq<int>)
    ensures CanonicallyOrdered(cc, Reorder(cc, s))
    ensures s != [] && cc(s[0]) == 0 ==> Reorder(cc, s)[0] == s[0]
    decreases |s|
  {
    hide Reorder, StableSort, SortedBy, RunLength;
    if s == [] {
      ReorderNone(cc);
    } else if cc(s[0]) == 0 {
      ReorderStarter(cc, s);
      ReorderIsCanonical(cc, s[1..]);
      OneSorted(cc, s[0]);
      StarterFirst(cc, s[0], Reorder(cc, s[1..]));
    } else {
      var r := RunLength(cc, s);
      ReorderRun(cc, s);
      RunMeans(cc, s);
      StableSortMeans(cc, s[..r]);
      ReorderIsCanonical(cc, s[r..]);
      SortedRun(cc, StableSort(cc, s[..r]), Reorder(cc, s[r..]));
    }
  }

  lemma ReorderNone(cc: Class)
    ensures Reorder(cc, []) == []
  {
  }

  lemma OneSorted(cc: Class, x: int)
    ensures SortedBy(cc, [x])
  {
  }

  lemma StarterFirst(cc: Class, x: int, rest: seq<int>)
    requires cc(x) == 0 && CanonicallyOrdered(cc, rest)
    ensures CanonicallyOrdered(cc, [x] + rest)
  {
    var all := [x] + rest;
    forall i | 0 <= i < |all| - 1 ensures !ReorderablePair(cc, all, i) {
      if i > 0 { assert !ReorderablePair(cc, rest, i - 1); }
    }
  }

  /** Every starter keeps its place. */
  lemma {:induction false} StartersStay(cc: Class, s: seq<int>, i: nat)
    requires i < |s| && cc(s[i]) == 0
    ensures Reorder(cc, s)[i] == s[i]
    decreases |s|
  {
    hide Reorder, StableSort, RunLength;
    if cc(s[0]) == 0 {
      ReorderStarter(cc, s);
      if i > 0 { StartersStay(cc, s[1..], i - 1); }
    } else {
      var r := RunLength(cc, s);
      ReorderRun(cc, s);
      RunMeans(cc, s);
      StartersStay(cc, s[r..], i - r);
    }
  }

  /** The whole string is permuted, and marks of the same class keep their order throughout. */
  lemma {:induction false} ReorderKeeps(cc: Class, s: seq<int>)
    ensures multiset(Reorder(cc, s)) == multiset(s) && SameByClass(cc, Reorder(cc, s), s)
    decreases |s|
  {
    hide Reorder, StableSort, RunLength, OfClass, SortedBy;
    if s == [] {
      ReorderNone(cc);
    } else {
      var r := if cc(s[0]) == 0 then 1 else RunLength(cc, s);
      var head := if cc(s[0]) == 0 then [s[0]] else StableSort(cc, s[..r]);
      if cc(s[0]) == 0 {
        ReorderStarter(cc, s);
        assert s[..1] == [s[0]];
      } else {
        ReorderRun(cc, s);
        StableSortMeans(cc, s[..r]);
      }
      ReorderKeeps(cc, s[r..]);
      assert s == s[..r] + s[r..];
      SameJoined(cc, head, Reorder(cc, s[r..]), s[..r], s[r..]);
    }
  }

  lemma SameJoined(cc: Class, a: seq<int>, b: seq<int>, a': seq<int>, b': seq<int>)
    requires SameByClass(cc, a, a') && SameByClass(cc, b, b')
    requires multiset(a) == multiset(a') && multiset(b) == multiset(b')
    ensures SameByClass(cc, a + b, a' + b') && multiset(a + b) == multiset(a' + b')
  {
    hide OfClass;
    forall v ensures OfClass(cc, a + b, v) == OfClass(cc, a' + b', v) {
      OfClassAppend(cc, a, b, v);
      OfClassAppend(cc, a', b', v);
    }
  }

  // ----- the algorithm -----

  /** The run from `start` up to `j` has been sorted; what is behind `j` has not been touched. */
  ghost predicate RunSorted(cc: Class, s: seq<int>, start: nat, j: nat, t: seq<int>) {
    && start <= j <= |s| == |t| && t[..start] == s[..start] && t[j..] == s[j..]
    && t[start..j] == StableSort(cc, s[start..j])
  }

  /** The element `x` that stood at `j` is on its way down: there is a gap at `k + 1`. */
  ghost predicate Shifting(cc: Class, t0: seq<int>, start: nat, j: nat, k: int, t: seq<int>)
  {
    && start - 1 <= k < j < |t0| == |t| && start <= j
    && (forall i :: 0 <= i <= k ==> t[i] == t0[i])
    && (forall i :: k + 2 <= i <= j ==> t[i] == t0[i - 1] && cc(t0[i - 1]) > cc(t0[j]))
    && (forall i :: j < i < |t| ==> t[i] == t0[i])
  }

  lemma {:induction false} PlaceIs(cc: Class, s: seq<int>, x: int, p: nat)
    requires p <= |s| && (forall i :: p <= i < |s| ==> cc(s[i]) > cc(x)) && (p > 0 ==> cc(s[p - 1]) <= cc(x))
    ensures Place(cc, s, x) == p
  {
    if p < |s| { PlaceIs(cc, s[..|s| - 1], x, p); }
  }

  /** Dropping the element into the gap inserts it. */
  lemma Dropped(cc: Class, s: seq<int>, start: nat, j: nat, t0: seq<int>, k: int, t: seq<int>)
    requires RunSorted(cc, s, start, j, t0) && Shifting(cc, t0, start, j, k, t)
    requires k < start || cc(t0[k]) <= cc(t0[j])
    ensures RunSorted(cc, s, start, j + 1, t[k + 1 := t0[j]])
  {
    hide StableSort, Place, Inserted, Shifting;
    ShiftedAt(cc, t0, start, j, k, t);
    var run, x, p := t0[start..j], t0[j], k + 1 - start;
    assert x == t0[j..][0] == s[j..][0] == s[j];
    AboveGap(cc, t0, start, j, k, t);
    PlaceIs(cc, run, x, p);
    SortNext(cc, s, start, j);
    DroppedRun(cc, start, j, t0, k, t);
    DroppedAround(cc, s, start, j, t0, k, t);
  }

  lemma AboveGap(cc: Class, t0: seq<int>, start: nat, j: nat, k: int, t: seq<int>)
    requires Shifting(cc, t0, start, j, k, t)
    ensures forall i :: k + 1 - start <= i < |t0[start..j]| ==> cc(t0[start..j][i]) > cc(t0[j])
  {
    forall i | k + 1 - start <= i < |t0[start..j]| ensures cc(t0[start..j][i]) > cc(t0[j]) {
      assert t[start + i + 1] == t0[start + i];
    }
  }

  /** Nothing outside the run has changed. */
  lemma DroppedAround(cc: Class, s: seq<int>, start: nat, j: nat, t0: seq<int>, k: int, t: seq<int>)
    requires RunSorted(cc, s, start, j, t0) && Shifting(cc, t0, start, j, k, t)
    ensures var u := t[k + 1 := t0[j]]; |u| == |s| && u[..start] == s[..start] && u[j + 1..] == s[j + 1..]
  {
    hide StableSort;
    var u := t[k + 1 := t0[j]];
    assert u[..start] == t0[..start];
    assert u[j + 1..] == t0[j..][1..] == s[j..][1..] == s[j + 1..];
  }

  lemma SortNext(cc: Class, s: seq<int>, start: nat, j: nat)
    requires start <= j < |s|
    ensures StableSort(cc, s[start..j + 1]) == Inserted(cc, StableSort(cc, s[start..j]), s[j])
    ensures forall t: seq<int> :: var p := Place(cc, t, s[j]); Inserted(cc, t, s[j]) == t[..p] + [s[j]] + t[p..]
  {
    assert s[start..j + 1][..j - start] == s[start..j];
  }

  lemma DroppedRun(cc: Class, start: nat, j: nat, t0: seq<int>, k: int, t: seq<int>)
    requires Shifting(cc, t0, start, j, k, t)
    ensures var run, p := t0[start..j], k + 1 - start;
            t[k + 1 := t0[j]][start..j + 1] == run[..p] + [t0[j]] + run[p..]
  {
  }

  lemma ShiftStart(cc: Class, t0: seq<int>, start: nat, j: nat)
    requires start < j < |t0|
    ensures Shifting(cc, t0, start, j, j - 1, t0)
  {
  }

  lemma ShiftOne(cc: Class, t0: seq<int>, start: nat, j: nat, k: int, t: seq<int>)
    requires Shifting(cc, t0, start, j, k, t) && k >= start && cc(t[k]) > cc(t0[j])
    ensures Shifting(cc, t0, start, j, k - 1, t[k + 1 := t[k]])
  {
  }

  lemma ShiftedAt(cc: Class, t0: seq<int>, start: nat, j: nat, k: int, t: seq<int>)
    requires Shifting(cc, t0, start, j, k, t)
    ensures k >= start ==> k < |t| == |t0| && t[k] == t0[k]
    ensures start - 1 <= k < j < |t| == |t0|
  {
  }

  /** Moves the mark at `j` down into the sorted run in front of it. */
  method InsertMark(cc: Class, buf: array<int>, start: nat, j: nat, ghost s: seq<int>)
    requires start < j < buf.Length && RunSorted(cc, s, start, j, buf[..])
    modifies buf
    ensures RunSorted(cc, s, start, j + 1, buf[..])
  {
    hide RunSorted, Shifting;
    ghost var t0 := buf[..];
    ShiftStart(cc, t0, start, j);
    var ch1 := buf[j];
    var cc1 := cc(ch1);
    var k: int := j - 1;
    while k >= start
      invariant start - 1 <= k < j && Shifting(cc, t0, start, j, k, buf[..])
    {
      if cc(buf[k]) <= cc1 {
        break;
      }
      ghost var t := buf[..];
      ShiftOne(cc, t0, start, j, k, t);
      buf[k + 1] := buf[k];
      assert buf[..] == t[k + 1 := t[k]];
      k := k - 1;
    }
    ghost var t := buf[..];
    ShiftedAt(cc, t0, start, j, k, t);
    Dropped(cc, s, start, j, t0, k, t);
    buf[k + 1] := ch1;
    assert buf[..] == t[k + 1 := ch1];
  }

  /** Everything before `i` is as it should be; the rest has not been touched. */
  ghost predicate DoneUpTo(cc: Class, s: seq<int>, i: nat, t: seq<int>) {
    i <= |s| == |t| && t[i..] == s[i..] && Reorder(cc, s) == t[..i] + Reorder(cc, s[i..])
  }

  lemma DoneStarter(cc: Class, s: seq<int>, i: nat, t: seq<int>)
    requires i < |s| && DoneUpTo(cc, s, i, t) && cc(t[i]) == 0
    ensures DoneUpTo(cc, s, i + 1, t)
  {
    hide Reorder;
    assert t[i] == t[i..][0] == s[i..][0] == s[i];
    ReorderStarter(cc, s[i..]);
    assert s[i..][1..] == s[i + 1..] && t[i..][1..] == t[i + 1..];
    assert t[..i + 1] == t[..i] + [s[i]];
  }

  lemma RunEnds(cc: Class, s: seq<int>, start: nat, j: nat)
    requires start < j <= |s| && (forall i :: start <= i < j ==> cc(s[i]) != 0) && (j < |s| ==> cc(s[j]) == 0)
    ensures RunLength(cc, s[start..]) == j - start
  {
    RunMeans(cc, s[start..]);
    var r := RunLength(cc, s[start..]);
    forall x | 0 <= x < |s| - start ensures s[start..][x] == s[start + x] {}
  }

  lemma DoneRun(cc: Class, s: seq<int>, start: nat, j: nat, t0: seq<int>, t: seq<int>)
    requires DoneUpTo(cc, s, start, t0) && RunSorted(cc, t0, start, j, t) && start < j
    requires (forall i :: start <= i < j ==> cc(t0[i]) != 0) && (j < |t0| ==> cc(t0[j]) == 0)
    ensures DoneUpTo(cc, s, j, t)
  {
    hide Reorder, StableSort, RunLength;
    var rest := s[start..];
    assert t0[start..] == rest;
    RunEnds(cc, t0, start, j);
    assert rest[0] == t0[start];
    ReorderRun(cc, rest);
    assert rest[..j - start] == t0[start..j] && rest[j - start..] == s[j..];
    assert t[..j] == t[..start] + t[start..j];
    assert t[j..] == t0[j..] == t0[start..][j - start..];
  }

  /** The run that starts at `start`. */
  method SortRun(cc: Class, buf: array<int>, start: nat) returns (j: nat)
    requires start < buf.Length && cc(buf[start]) != 0
    modifies buf
    ensures start < j <= buf.Length && RunSorted(cc, old(buf[..]), start, j, buf[..])
    ensures forall i :: start <= i < j ==> cc(old(buf[i])) != 0
    ensures j < buf.Length ==> cc(old(buf[j])) == 0
  {
    hide RunSorted;
    ghost var s := buf[..];
    j := start + 1;
    OneMark(cc, s, start);
    while j < buf.Length
      invariant start < j <= buf.Length && RunSorted(cc, s, start, j, buf[..])
      invariant forall i :: start <= i < j ==> cc(s[i]) != 0
    {
      BehindRun(cc, s, start, j, buf[..]);
      if cc(buf[j]) == 0 {
        break;
      }
      InsertMark(cc, buf, start, j, s);
      j := j + 1;
    }
  }

  lemma OneMark(cc: Class, s: seq<int>, start: nat)
    requires start < |s|
    ensures RunSorted(cc, s, start, start + 1, s)
  {
    assert s[start..start + 1] == [s[start]];
    assert StableSort(cc, [s[start]]) == [s[start]];
  }

  lemma BehindRun(cc: Class, s: seq<int>, start: nat, j: nat, t: seq<int>)
    requires RunSorted(cc, s, start, j, t) && j < |s|
    ensures |t| == |s| && t[j] == s[j]
  {
    assert t[j] == t[j..][0] == s[j..][0];
  }

  /** Sorts every run of the buffer. */
  method SortCC(cc: Class, buf: array<int>)
    modifies buf
    ensures buf[..] == Reorder(cc, old(buf[..]))
  {
    hide Reorder, RunSorted, DoneUpTo;
    ghost var s := buf[..];
    var i := 0;
    NothingDone(cc, s);
    while i < buf.Length
      invariant 0 <= i <= buf.Length && DoneUpTo(cc, s, i, buf[..])
    {
      if cc(buf[i]) != 0 {
        ghost var t0 := buf[..];
        var j := SortRun(cc, buf, i);
        DoneRun(cc, s, i, j, t0, buf[..]);
        if j < buf.Length {
          BehindRun(cc, t0, i, j, buf[..]);
        }
        i := j;
      }
      if i < buf.Length {
        DoneStarter(cc, s, i, buf[..]);
        i := i + 1;
      }
    }
    AllDone(cc, s, i, buf[..]);
  }

  lemma NothingDone(cc: Class, s: seq<int>)
    ensures DoneUpTo(cc, s, 0, s)
  {
    assert s[0..] == s && s[..0] == [] && [] + Reorder(cc, s) == Reorder(cc, s);
  }

  lemma AllDone(cc: Class, s: seq<int>, i: nat, t: seq<int>)
    requires DoneUpTo(cc, s, i, t) && i == |t|
    ensures t == Reorder(cc, s)
  {
    assert s[i..] == [] && t[..i] == t;
  }
}
