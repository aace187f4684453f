/**
  The sort that character sets and string lists are built on: a three-way quicksort with
  a stack of 50 pending segments, a heapsort for segments cut too often, and an insertion
  sort for small ones. All of it works in place, by exchanges.
 */
module Sorting {

  /** `cmp` compares like a total preorder: two elements may be equal without being the same. */
  ghost predicate Comparison<T(!new)>(cmp: (T, T) -> int) {
    && (forall x, y :: cmp(x, y) < 0 <==> cmp(y, x) > 0)
    && (forall x, y, z :: cmp(x, y) <= 0 && cmp(y, z) <= 0 ==> cmp(x, z) <= 0)
  }

  lemma Transitive<T(!new)>(cmp: (T, T) -> int, x: T, y: T, z: T)
    requires Comparison(cmp) && cmp(x, y) <= 0 && cmp(y, z) <= 0
    ensures cmp(x, z) <= 0
    ensures cmp(x, y) < 0 || cmp(y, z) < 0 ==> cmp(x, z) < 0
  {
    if cmp(x, z) >= 0 {
      assert cmp(z, x) <= 0;
      assert cmp(y, x) <= 0 && cmp(z, y) <= 0;
    }
  }

  lemma Signs<T(!new)>(cmp: (T, T) -> int, x: T, y: T)
    requires Comparison(cmp)
    ensures cmp(x, y) < 0 <==> cmp(y, x) > 0
    ensures cmp(x, y) > 0 <==> cmp(y, x) < 0
    ensures cmp(x, y) == 0 <==> cmp(y, x) == 0
  {
  }

  ghost predicate SortedBy<T(!new)>(cmp: (T, T) -> int, s: seq<T>) {
    forall i, j :: 0 <= i < j < |s| ==> cmp(s[i], s[j]) <= 0
  }

  // ----- rearranging part of an array -----

  /** `t` is `s` with the elements from `lo` up to `hi` put in another order. */
  ghost predicate Rearranged<T>(s: seq<T>, t: seq<T>, lo: int, hi: int) {
    && |t| == |s| && 0 <= lo <= hi <= |s|
    && t[..lo] == s[..lo] && t[hi..] == s[hi..]
    && multiset(t[lo..hi]) == multiset(s[lo..hi])
  }

  lemma RearrangedSame<T>(s: seq<T>, lo: int, hi: int)
    requires 0 <= lo <= hi <= |s|
    ensures Rearranged(s, s, lo, hi)
  {
  }

  lemma RearrangedTwice<T>(s: seq<T>, t: seq<T>, u: seq<T>, lo: int, hi: int)
    requires Rearranged(s, t, lo, hi) && Rearranged(t, u, lo, hi)
    ensures Rearranged(s, u, lo, hi)
  {
  }

  lemma Split3<T>(s: seq<T>, lo: int, lo': int, hi': int, hi: int)
    requires 0 <= lo <= lo' <= hi' <= hi <= |s|
    ensures s[lo..hi] == s[lo..lo'] + s[lo'..hi'] + s[hi'..hi]
  {
  }

  lemma RearrangedWider<T>(s: seq<T>, t: seq<T>, lo: int, hi: int, lo': int, hi': int)
    requires Rearranged(s, t, lo', hi') && 0 <= lo <= lo' && hi' <= hi <= |s|
    ensures Rearranged(s, t, lo, hi)
  {
    assert t[..lo] == t[..lo'][..lo] && s[..lo] == s[..lo'][..lo];
    assert t[hi..] == t[hi'..][hi - hi'..] && s[hi..] == s[hi'..][hi - hi'..];
    assert t[lo..lo'] == t[..lo'][lo..] == s[..lo'][lo..] == s[lo..lo'];
    assert t[hi'..hi] == t[hi'..][..hi - hi'] == s[hi'..][..hi - hi'] == s[hi'..hi];
    Split3(s, lo, lo', hi', hi);
    Split3(t, lo, lo', hi', hi);
  }

  /** Outside of the range nothing moved; inside, each element was there before. */
  lemma RearrangedAt<T>(s: seq<T>, t: seq<T>, lo: int, hi: int, k: int)
    requires Rearranged(s, t, lo, hi) && 0 <= k < |s|
    ensures k < lo || hi <= k ==> t[k] == s[k]
    ensures lo <= k < hi ==> exists k' :: lo <= k' < hi && t[k] == s[k']
  {
    if k < lo {
      assert t[k] == t[..lo][k] == s[..lo][k];
    } else if hi <= k {
      assert t[k] == t[hi..][k - hi] == s[hi..][k - hi];
    } else {
      assert t[k] in multiset(t[lo..hi]) by { assert t[k] == t[lo..hi][k - lo]; }
      assert t[k] in s[lo..hi];
      var i :| 0 <= i < hi - lo && s[lo..hi][i] == t[k];
      assert s[lo + i] == t[k];
    }
  }

  function Swapped<T>(s: seq<T>, i: int, j: int): (t: seq<T>)
    requires 0 <= i < |s| && 0 <= j < |s|
    ensures |t| == |s|
  {
    s[i := s[j]][j := s[i]]
  }

  lemma SwapRearranges<T>(s: seq<T>, i: int, j: int, lo: int, hi: int)
    requires 0 <= lo <= i < hi <= |s| && lo <= j < hi
    ensures Rearranged(s, Swapped(s, i, j), lo, hi)
  {
    var t := Swapped(s, i, j);
    var v := s[lo..hi];
    assert t[lo..hi] == v[i - lo := v[j - lo]][j - lo := v[i - lo]];
    assert multiset(v[i - lo := v[j - lo]]) == multiset(v) - multiset{v[i - lo]} + multiset{v[j - lo]};
  }

  method Swap<T>(a: array<T>, i: int, j: int, ghost lo: int, ghost hi: int)
    requires 0 <= lo <= i < hi <= a.Length && lo <= j < hi
    modifies a
    ensures a[..] == Swapped(old(a[..]), i, j)
    ensures Rearranged(old(a[..]), a[..], lo, hi)
  {
    a[i], a[j] := a[j], a[i];
    SwapRearranges(old(a[..]), i, j, lo, hi);
    assert a[..] == Swapped(old(a[..]), i, j);
  }

  /** Where element `k` comes from when the `d` elements from `i` on are exchanged with those from `j` on. */
  function Origin(i: int, j: int, d: int, k: int): int {
    if i <= k < i + d then j + (k - i) else if j <= k < j + d then i + (k - j) else k
  }

  ghost predicate Exchanged<T>(s: seq<T>, t: seq<T>, i: int, j: int, d: int)
    requires 0 <= i && 0 <= d && i + d <= j && j + d <= |s|
  {
    |t| == |s| && forall k :: 0 <= k < |s| ==> t[k] == s[Origin(i, j, d, k)]
  }

  lemma ExchangeOne<T>(s: seq<T>, t: seq<T>, i: int, j: int, d: int)
    requires 0 <= i && 0 <= d && i + d < j && j + d < |s| && Exchanged(s, t, i, j, d)
    ensures Exchanged(s, Swapped(t, i + d, j + d), i, j, d + 1)
  {
    assert t[i + d] == s[i + d] && t[j + d] == s[j + d];
  }

  /** Exchanges two blocks of `n` elements that do not overlap. */
  method SwapBlocks<T>(a: array<T>, i: int, j: int, n: int, ghost lo: int, ghost hi: int)
    requires 0 <= lo <= i && 0 <= n && i + n <= j && j + n <= hi <= a.Length
    modifies a
    ensures Rearranged(old(a[..]), a[..], lo, hi)
    ensures Exchanged(old(a[..]), a[..], i, j, n)
  {
    hide Rearranged, Exchanged, Swapped;
    var d := 0;
    RearrangedSame(a[..], lo, hi);
    ExchangeNone(a[..], i, j);
    while d < n
      invariant 0 <= d <= n
      invariant Rearranged(old(a[..]), a[..], lo, hi) && Exchanged(old(a[..]), a[..], i, j, d)
    {
      ghost var s := a[..];
      Swap(a, i + d, j + d, lo, hi);
      RearrangedTwice(old(a[..]), s, a[..], lo, hi);
      ExchangeOne(old(a[..]), s, i, j, d);
      d := d + 1;
    }
  }

  lemma ExchangeNone<T>(s: seq<T>, i: int, j: int)
    requires 0 <= i <= j <= |s|
    ensures Exchanged(s, s, i, j, 0)
  {
  }

  // ----- insertion sort -----

  ghost predicate SortedRange<T(!new)>(cmp: (T, T) -> int, s: seq<T>, lo: int, hi: int)
    requires 0 <= lo <= hi <= |s|
  {
    forall i, j :: lo <= i < j < hi ==> cmp(s[i], s[j]) <= 0
  }

  /** In order, apart from what comes before the element at `p`. */
  ghost predicate Gap<T(!new)>(cmp: (T, T) -> int, s: seq<T>, lo: int, hi: int, p: int)
    requires 0 <= lo <= hi <= |s|
  {
    forall i, j :: lo <= i < j < hi && j != p ==> cmp(s[i], s[j]) <= 0
  }

  lemma GapStep<T(!new)>(cmp: (T, T) -> int, s: seq<T>, lo: int, hi: int, p: int)
    requires 0 <= lo < p < hi <= |s| && Comparison(cmp) && Gap(cmp, s, lo, hi, p) && cmp(s[p - 1], s[p]) > 0
    ensures Gap(cmp, Swapped(s, p, p - 1), lo, hi, p - 1)
  {
    var t := Swapped(s, p, p - 1);
    Signs(cmp, s[p - 1], s[p]);
    forall i, j | lo <= i < j < hi && j != p - 1 ensures cmp(t[i], t[j]) <= 0 {
      assert i < p - 1 ==> cmp(s[i], s[p - 1]) <= 0;
      assert j > p ==> cmp(s[p], s[j]) <= 0 && cmp(s[p - 1], s[j]) <= 0;
    }
  }

  lemma GapClose<T(!new)>(cmp: (T, T) -> int, s: seq<T>, lo: int, hi: int, p: int)
    requires 0 <= lo <= p < hi <= |s| && Comparison(cmp) && Gap(cmp, s, lo, hi, p)
    requires p == lo || cmp(s[p - 1], s[p]) <= 0
    ensures SortedRange(cmp, s, lo, hi)
  {
    forall i | lo <= i < p ensures cmp(s[i], s[p]) <= 0 {
      if i < p - 1 { Transitive(cmp, s[i], s[p - 1], s[p]); }
    }
  }

  method InsertionSort<T(!new)>(a: array<T>, cmp: (T, T) -> int, lo: int, hi: int)
    requires 0 <= lo <= hi <= a.Length && Comparison(cmp)
    modifies a
    ensures Rearranged(old(a[..]), a[..], lo, hi) && SortedRange(cmp, a[..], lo, hi)
  {
    hide Rearranged, Comparison, Gap, SortedRange, Swapped;
    RearrangedSame(a[..], lo, hi);
    SortedOne(cmp, a[..], lo, if lo < hi then lo + 1 else lo);
    if lo == hi { return; }
    var pi := lo + 1;
    while pi < hi
      invariant lo < pi <= hi
      invariant Rearranged(old(a[..]), a[..], lo, hi) && SortedRange(cmp, a[..], lo, pi)
    {
      ghost var s := a[..];
      InsertLast(a, cmp, lo, pi, hi);
      RearrangedTwice(old(a[..]), s, a[..], lo, hi);
      pi := pi + 1;
    }
  }

  /** Moves the element at `pi` down to its place. */
  method InsertLast<T(!new)>(a: array<T>, cmp: (T, T) -> int, lo: int, pi: int, ghost hi: int)
    requires 0 <= lo <= pi < hi <= a.Length && Comparison(cmp) && SortedRange(cmp, a[..], lo, pi)
    modifies a
    ensures Rearranged(old(a[..]), a[..], lo, hi) && SortedRange(cmp, a[..], lo, pi + 1)
  {
    hide Rearranged, Comparison, Gap, SortedRange, Swapped;
    RearrangedSame(a[..], lo, hi);
    var pj := pi;
    SortedGap(cmp, a[..], lo, pi);
    while pj > lo && cmp(a[pj - 1], a[pj]) > 0
      invariant lo <= pj <= pi
      invariant Rearranged(old(a[..]), a[..], lo, hi) && Gap(cmp, a[..], lo, pi + 1, pj)
    {
      ghost var s := a[..];
      Swap(a, pj, pj - 1, lo, hi);
      RearrangedTwice(old(a[..]), s, a[..], lo, hi);
      GapStep(cmp, s, lo, pi + 1, pj);
      pj := pj - 1;
    }
    GapClose(cmp, a[..], lo, pi + 1, pj);
  }

  lemma SortedOne<T(!new)>(cmp: (T, T) -> int, s: seq<T>, lo: int, hi: int)
    requires 0 <= lo <= hi <= |s| && hi <= lo + 1
    ensures SortedRange(cmp, s, lo, hi)
  {
  }

  lemma SortedGap<T(!new)>(cmp: (T, T) -> int, s: seq<T>, lo: int, p: int)
    requires 0 <= lo <= p < |s| && SortedRange(cmp, s, lo, p)
    ensures Gap(cmp, s, lo, p + 1, p)
  {
  }

  // ----- heapsort -----

  /** Element number `p` of the heap in lo..hi is not below its children. */
  ghost predicate HeapAt<T(!new)>(cmp: (T, T) -> int, s: seq<T>, lo: int, hi: int, p: int)
    requires 0 <= lo <= hi <= |s|
  {
    0 <= p ==>
      && (lo + 2 * p + 1 < hi ==> cmp(s[lo + 2 * p + 1], s[lo + p]) <= 0)
      && (lo + 2 * p + 2 < hi ==> cmp(s[lo + 2 * p + 2], s[lo + p]) <= 0)
  }

  ghost predicate HeapFrom<T(!new)>(cmp: (T, T) -> int, s: seq<T>, lo: int, hi: int, r: int)
    requires 0 <= lo <= hi <= |s|
  {
    forall p :: r <= p < hi - lo ==> HeapAt(cmp, s, lo, hi, p)
  }

  /** A heap from `r0` on but for element `r`, whose children are not above its parent. */
  ghost predicate Sifting<T(!new)>(cmp: (T, T) -> int, s: seq<T>, lo: int, hi: int, r0: int, r: int)
    requires 0 <= lo <= hi <= |s|
  {
    && (forall p :: r0 <= p < hi - lo && p != r ==> HeapAt(cmp, s, lo, hi, p))
    && (forall q :: r0 <= q < r ==> Grandchildren(cmp, s, lo, hi, q, r))
  }

  ghost predicate Grandchildren<T(!new)>(cmp: (T, T) -> int, s: seq<T>, lo: int, hi: int, q: int, r: int)
    requires 0 <= lo <= hi <= |s|
  {
    0 <= q && 2 * q + 1 <= r <= 2 * q + 2 ==>
      && (lo + 2 * r + 1 < hi ==> cmp(s[lo + 2 * r + 1], s[lo + q]) <= 0)
      && (lo + 2 * r + 2 < hi ==> cmp(s[lo + 2 * r + 2], s[lo + q]) <= 0)
  }

  /** `c` is the larger child of `r`. */
  ghost predicate LargerChild<T(!new)>(cmp: (T, T) -> int, s: seq<T>, lo: int, hi: int, r: int, c: int)
    requires 0 <= lo <= hi <= |s|
  {
    && 0 <= r && 2 * r + 1 <= c <= 2 * r + 2 && lo + c < hi
    && (c == 2 * r + 1 && lo + c + 1 < hi ==> cmp(s[lo + c + 1], s[lo + c]) <= 0)
    && (c == 2 * r + 2 ==> cmp(s[lo + c - 1], s[lo + c]) <= 0)
  }

  /** Element `r` changes places with its larger child `c`. */
  lemma SiftStep<T(!new)>(cmp: (T, T) -> int, s: seq<T>, lo: int, hi: int, r0: int, r: int, c: int)
    requires 0 <= lo <= hi <= |s| && 0 <= r0 <= r && LargerChild(cmp, s, lo, hi, r, c)
    requires Sifting(cmp, s, lo, hi, r0, r) && cmp(s[lo + r], s[lo + c]) <= 0
    ensures Sifting(cmp, Swapped(s, lo + r, lo + c), lo, hi, r0, c)
  {
    hide HeapAt, LargerChild, Grandchildren, Swapped;
    LargerRange(cmp, s, lo, hi, r, c);
    var t := Swapped(s, lo + r, lo + c);
    forall p | r0 <= p < hi - lo && p != c ensures HeapAt(cmp, t, lo, hi, p) {
      if p != r { assert HeapAt(cmp, s, lo, hi, p); }
      if p < r { assert Grandchildren(cmp, s, lo, hi, p, r); }
      SiftParent(cmp, s, lo, hi, r, c, p);
    }
    forall q | r0 <= q < c ensures Grandchildren(cmp, t, lo, hi, q, c) {
      assert HeapAt(cmp, s, lo, hi, c);
      SiftLink(cmp, s, lo, hi, r, c, q);
    }
  }

  lemma LargerRange<T(!new)>(cmp: (T, T) -> int, s: seq<T>, lo: int, hi: int, r: int, c: int)
    requires 0 <= lo <= hi <= |s| && LargerChild(cmp, s, lo, hi, r, c)
    ensures 0 <= r < c < hi - lo
  {
  }

  lemma SiftParent<T(!new)>(cmp: (T, T) -> int, s: seq<T>, lo: int, hi: int, r: int, c: int, p: int)
    requires 0 <= lo <= hi <= |s| && LargerChild(cmp, s, lo, hi, r, c) && 0 <= p < hi - lo && p != c
    requires p != r ==> HeapAt(cmp, s, lo, hi, p)
    requires p < r ==> Grandchildren(cmp, s, lo, hi, p, r)
    requires cmp(s[lo + r], s[lo + c]) <= 0
    ensures HeapAt(cmp, Swapped(s, lo + r, lo + c), lo, hi, p)
  {
  }

  lemma SiftLink<T(!new)>(cmp: (T, T) -> int, s: seq<T>, lo: int, hi: int, r: int, c: int, q: int)
    requires 0 <= lo <= hi <= |s| && LargerChild(cmp, s, lo, hi, r, c) && HeapAt(cmp, s, lo, hi, c)
    ensures Grandchildren(cmp, Swapped(s, lo + r, lo + c), lo, hi, q, c)
  {
  }

  lemma SiftDone<T(!new)>(cmp: (T, T) -> int, s: seq<T>, lo: int, hi: int, r0: int, r: int)
    requires 0 <= lo <= hi <= |s| && Sifting(cmp, s, lo, hi, r0, r) && HeapAt(cmp, s, lo, hi, r)
    ensures HeapFrom(cmp, s, lo, hi, r0)
  {
  }

  lemma SiftStart<T(!new)>(cmp: (T, T) -> int, s: seq<T>, lo: int, hi: int, r0: int)
    requires 0 <= lo <= hi <= |s| && HeapFrom(cmp, s, lo, hi, r0 + 1)
    ensures Sifting(cmp, s, lo, hi, r0, r0)
  {
  }

  /** Lets element `r0` sink until its children are not above it. */
  method SiftDown<T(!new)>(a: array<T>, cmp: (T, T) -> int, lo: int, hi: int, r0: int, ghost top: int)
    requires 0 <= lo <= lo + r0 < hi <= top <= a.Length && 0 <= r0 && Comparison(cmp)
    requires HeapFrom(cmp, a[..], lo, hi, r0 + 1)
    modifies a
    ensures Rearranged(old(a[..]), a[..], lo, hi) && HeapFrom(cmp, a[..], lo, hi, r0)
  {
    hide Rearranged, Comparison, Sifting, Swapped, HeapFrom;
    RearrangedSame(a[..], lo, hi);
    SiftStart(cmp, a[..], lo, hi, r0);
    var r := r0;
    while lo + 2 * r + 1 < hi
      invariant r0 <= r && lo + r < hi
      invariant Rearranged(old(a[..]), a[..], lo, hi) && Sifting(cmp, a[..], lo, hi, r0, r)
      decreases hi - r
    {
      var c := 2 * r + 1;
      ghost var s := a[..];
      if lo + c < hi - 1 {
        Signs(cmp, a[lo + c], a[lo + c + 1]);
        if cmp(a[lo + c], a[lo + c + 1]) <= 0 {
          c := c + 1;
        }
      }
      Signs(cmp, a[lo + r], a[lo + c]);
      if cmp(a[lo + r], a[lo + c]) > 0 {
        NotBelowChildren(cmp, s, lo, hi, r, c);
        break;
      }
      Swap(a, lo + r, lo + c, lo, hi);
      RearrangedTwice(old(a[..]), s, a[..], lo, hi);
      SiftStep(cmp, s, lo, hi, r0, r, c);
      r := c;
    }
    SiftDone(cmp, a[..], lo, hi, r0, r);
  }

  lemma NotBelowChildren<T(!new)>(cmp: (T, T) -> int, s: seq<T>, lo: int, hi: int, r: int, c: int)
    requires 0 <= lo <= hi <= |s| && LargerChild(cmp, s, lo, hi, r, c)
    requires Comparison(cmp) && cmp(s[lo + c], s[lo + r]) <= 0
    ensures HeapAt(cmp, s, lo, hi, r)
  {
    if c == 2 * r + 1 && lo + c + 1 < hi { Transitive(cmp, s[lo + c + 1], s[lo + c], s[lo + r]); }
    if c == 2 * r + 2 { Transitive(cmp, s[lo + c - 1], s[lo + c], s[lo + r]); }
  }

  /** The root of a heap is not below any element. */
  lemma {:induction false} HeapRoot<T(!new)>(cmp: (T, T) -> int, s: seq<T>, lo: int, hi: int, k: int)
    requires 0 <= lo <= lo + k < hi <= |s| && 0 <= k && Comparison(cmp) && HeapFrom(cmp, s, lo, hi, 0)
    ensures cmp(s[lo + k], s[lo]) <= 0
    decreases k
  {
    if k == 0 {
      Signs(cmp, s[lo], s[lo]);
    } else {
      var p := (k - 1) / 2;
      assert HeapAt(cmp, s, lo, hi, p);
      HeapRoot(cmp, s, lo, hi, p);
      Transitive(cmp, s[lo + k], s[lo + p], s[lo]);
    }
  }

  /** Nothing in lo..mid is above anything in mid..hi. */
  ghost predicate Below<T(!new)>(cmp: (T, T) -> int, s: seq<T>, lo: int, mid: int, hi: int)
    requires 0 <= lo <= mid <= hi <= |s|
  {
    forall i, j :: lo <= i < mid <= j < hi ==> cmp(s[i], s[j]) <= 0
  }

  lemma BelowRearranged<T(!new)>(cmp: (T, T) -> int, s: seq<T>, t: seq<T>, lo: int, mid: int, hi: int)
    requires 0 <= lo <= mid <= hi <= |s| && Below(cmp, s, lo, mid, hi) && SortedRange(cmp, s, mid, hi)
    requires Rearranged(s, t, lo, mid)
    ensures Below(cmp, t, lo, mid, hi) && SortedRange(cmp, t, mid, hi)
  {
    hide Rearranged;
    assert |t| == |s| by { RearrangedLength(s, t, lo, mid); }
    forall k | mid <= k < hi ensures t[k] == s[k] { RearrangedAt(s, t, lo, mid, k); }
    forall i, j | lo <= i < mid <= j < hi ensures cmp(t[i], t[j]) <= 0 {
      RearrangedAt(s, t, lo, mid, i);
      var i' :| lo <= i' < mid && t[i] == s[i'];
      assert cmp(s[i'], s[j]) <= 0;
    }
  }

  lemma RearrangedLength<T>(s: seq<T>, t: seq<T>, lo: int, hi: int)
    requires Rearranged(s, t, lo, hi)
    ensures |t| == |s| && 0 <= lo <= hi <= |s|
  {
  }

  /** The root of the heap lo..i+1 is exchanged with the element at `i`, which is then in place. */
  lemma RootMoved<T(!new)>(cmp: (T, T) -> int, s: seq<T>, lo: int, i: int, hi: int)
    requires 0 <= lo < i < hi <= |s| && Comparison(cmp) && HeapFrom(cmp, s, lo, i + 1, 0)
    requires Below(cmp, s, lo, i + 1, hi) && SortedRange(cmp, s, i + 1, hi)
    ensures var t := Swapped(s, lo, i);
            HeapFrom(cmp, t, lo, i, 1) && Below(cmp, t, lo, i, hi) && SortedRange(cmp, t, i, hi)
  {
    var t := Swapped(s, lo, i);
    forall x | lo <= x <= i ensures cmp(s[x], s[lo]) <= 0 { HeapRoot(cmp, s, lo, i + 1, x - lo); }
    forall p | 1 <= p < i - lo ensures HeapAt(cmp, t, lo, i, p) { assert HeapAt(cmp, s, lo, i + 1, p); }
    RootBelow(cmp, s, lo, i, hi);
  }

  lemma RootBelow<T(!new)>(cmp: (T, T) -> int, s: seq<T>, lo: int, i: int, hi: int)
    requires 0 <= lo < i < hi <= |s|
    requires forall x :: lo <= x <= i ==> cmp(s[x], s[lo]) <= 0
    requires Below(cmp, s, lo, i + 1, hi) && SortedRange(cmp, s, i + 1, hi)
    ensures Below(cmp, Swapped(s, lo, i), lo, i, hi) && SortedRange(cmp, Swapped(s, lo, i), i, hi)
  {
    var t := Swapped(s, lo, i);
    forall x, y | lo <= x < i <= y < hi ensures cmp(t[x], t[y]) <= 0 {
      var x' := if x == lo then i else x;
      assert t[x] == s[x'];
      if y == i { assert cmp(s[x'], s[lo]) <= 0; } else { assert cmp(s[x'], s[y]) <= 0; }
    }
    forall x, y | i <= x < y < hi ensures cmp(t[x], t[y]) <= 0 {
      if x == i { assert cmp(s[lo], s[y]) <= 0; }
    }
  }

  method Heapsort<T(!new)>(a: array<T>, cmp: (T, T) -> int, lo: int, hi: int)
    requires 0 <= lo <= hi <= a.Length && Comparison(cmp)
    modifies a
    ensures Rearranged(old(a[..]), a[..], lo, hi) && SortedRange(cmp, a[..], lo, hi)
  {
    hide Rearranged, Comparison, HeapFrom, SortedRange, Below, Swapped;
    RearrangedSame(a[..], lo, hi);
    SortedOne(cmp, a[..], hi, hi);
    if hi - lo <= 1 {
      SortedOne(cmp, a[..], lo, hi);
      return;
    }
    var i := (hi - lo) / 2;
    LeavesAreHeaps(cmp, a[..], lo, hi, i);
    while i > 0
      invariant 0 <= i <= (hi - lo) / 2
      invariant Rearranged(old(a[..]), a[..], lo, hi) && HeapFrom(cmp, a[..], lo, hi, i)
    {
      ghost var s := a[..];
      i := i - 1;
      SiftDown(a, cmp, lo, hi, i, hi);
      RearrangedTwice(old(a[..]), s, a[..], lo, hi);
    }
    i := hi - 1;
    NothingAbove(cmp, a[..], lo, hi);
    while i > lo
      invariant lo <= i < hi
      invariant Rearranged(old(a[..]), a[..], lo, hi) && HeapFrom(cmp, a[..], lo, i + 1, 0)
      invariant Below(cmp, a[..], lo, i + 1, hi) && SortedRange(cmp, a[..], i + 1, hi)
    {
      ghost var s := a[..];
      RootMoved(cmp, s, lo, i, hi);
      Swap(a, lo, i, lo, hi);
      ghost var t := a[..];
      SiftDown(a, cmp, lo, i, 0, hi);
      BelowRearranged(cmp, t, a[..], lo, i, hi);
      RearrangedWider(t, a[..], lo, hi, lo, i);
      RearrangedTwice(old(a[..]), s, t, lo, hi);
      RearrangedTwice(old(a[..]), t, a[..], lo, hi);
      i := i - 1;
    }
    LastBelow(cmp, a[..], lo, hi);
  }

  lemma LeavesAreHeaps<T(!new)>(cmp: (T, T) -> int, s: seq<T>, lo: int, hi: int, r: int)
    requires 0 <= lo <= hi <= |s| && r == (hi - lo) / 2
    ensures HeapFrom(cmp, s, lo, hi, r)
  {
  }

  lemma NothingAbove<T(!new)>(cmp: (T, T) -> int, s: seq<T>, lo: int, hi: int)
    requires 0 <= lo <= hi <= |s|
    ensures Below(cmp, s, lo, hi, hi) && SortedRange(cmp, s, hi, hi)
  {
  }

  lemma LastBelow<T(!new)>(cmp: (T, T) -> int, s: seq<T>, lo: int, hi: int)
    requires 0 <= lo < hi <= |s| && Below(cmp, s, lo, lo + 1, hi) && SortedRange(cmp, s, lo + 1, hi)
    ensures SortedRange(cmp, s, lo, hi)
  {
  }

  // ----- three-way partition -----

  /** `m` is neither below nor above both `p` and `q`. */
  ghost predicate Median<T>(cmp: (T, T) -> int, m: T, p: T, q: T) {
    (cmp(p, m) <= 0 && cmp(m, q) <= 0) || (cmp(q, m) <= 0 && cmp(m, p) <= 0)
  }

  /** The index of the median of three elements. */
  method Med3<T(!new)>(a: array<T>, cmp: (T, T) -> int, x: int, y: int, z: int) returns (m: int)
    requires 0 <= x < a.Length && 0 <= y < a.Length && 0 <= z < a.Length && Comparison(cmp)
    ensures || (m == x && Median(cmp, a[x], a[y], a[z]))
            || (m == y && Median(cmp, a[y], a[x], a[z]))
            || (m == z && Median(cmp, a[z], a[x], a[y]))
  {
    hide Comparison;
    Signs(cmp, a[x], a[y]);
    Signs(cmp, a[y], a[z]);
    Signs(cmp, a[x], a[z]);
    m := if cmp(a[x], a[y]) < 0 then (if cmp(a[y], a[z]) < 0 then y else if cmp(a[x], a[z]) < 0 then z else x)
         else (if cmp(a[y], a[z]) > 0 then y else if cmp(a[x], a[z]) < 0 then x else z);
  }

  function Sign(x: int): int {
    if x < 0 then -1 else if x == 0 then 0 else 1
  }

  /** All the elements from `lo` up to `hi` are on the same side of `v`. */
  ghost predicate Zone<T(!new)>(cmp: (T, T) -> int, s: seq<T>, v: T, lo: int, hi: int, side: int) {
    0 <= lo && hi <= |s| && forall k :: lo <= k < hi ==> Sign(cmp(s[k], v)) == side
  }

  /** Equal to `v`, below it, unknown, above it, equal to it. */
  ghost predicate Parting<T(!new)>(cmp: (T, T) -> int, s: seq<T>, v: T, lo: int, lt: int, i: int, j: int, gt: int, hi: int) {
    && 0 <= lo < lt <= i <= j <= gt <= hi <= |s| && s[lo] == v
    && Zone(cmp, s, v, lo, lt, 0) && Zone(cmp, s, v, lt, i, -1) && Zone(cmp, s, v, j, gt, 1) && Zone(cmp, s, v, gt, hi, 0)
  }

  lemma PartUp<T(!new)>(cmp: (T, T) -> int, s: seq<T>, v: T, lo: int, lt: int, i: int, j: int, gt: int, hi: int)
    requires Parting(cmp, s, v, lo, lt, i, j, gt, hi) && i < j
    ensures cmp(s[i], v) < 0 ==> Parting(cmp, s, v, lo, lt, i + 1, j, gt, hi)
    ensures cmp(s[i], v) == 0 ==> Parting(cmp, Swapped(s, lt, i), v, lo, lt + 1, i + 1, j, gt, hi)
  {
  }

  lemma PartDown<T(!new)>(cmp: (T, T) -> int, s: seq<T>, v: T, lo: int, lt: int, i: int, j: int, gt: int, hi: int)
    requires Parting(cmp, s, v, lo, lt, i, j, gt, hi) && i < j
    ensures cmp(s[j - 1], v) > 0 ==> Parting(cmp, s, v, lo, lt, i, j - 1, gt, hi)
    ensures cmp(s[j - 1], v) == 0 ==> Parting(cmp, Swapped(s, gt - 1, j - 1), v, lo, lt, i, j - 1, gt - 1, hi)
  {
  }

  lemma PartCross<T(!new)>(cmp: (T, T) -> int, s: seq<T>, v: T, lo: int, lt: int, i: int, j: int, gt: int, hi: int)
    requires Parting(cmp, s, v, lo, lt, i, j, gt, hi) && i < j - 1 && cmp(s[i], v) > 0 && cmp(s[j - 1], v) < 0
    ensures Parting(cmp, Swapped(s, i, j - 1), v, lo, lt, i + 1, j - 1, gt, hi)
  {
  }

  /** Two neighbouring zones change places when their smaller ends are exchanged. */
  lemma ZonesTurned<T(!new)>(cmp: (T, T) -> int, s: seq<T>, t: seq<T>, v: T, a: int, b: int, c: int, x: int, y: int)
    requires 0 <= a <= b <= c <= |s| && Zone(cmp, s, v, a, b, x) && Zone(cmp, s, v, b, c, y)
    requires Exchanged(s, t, a, c - Span(a, b, c), Span(a, b, c))
    ensures Zone(cmp, t, v, a, a + (c - b), y) && Zone(cmp, t, v, a + (c - b), c, x)
  {
  }

  lemma ZoneKept<T(!new)>(cmp: (T, T) -> int, s: seq<T>, t: seq<T>, v: T, a: int, c: int, span: int, lo: int, hi: int, x: int)
    requires 0 <= a <= a + span <= c - span <= c <= |s| && Exchanged(s, t, a, c - span, span)
    requires Zone(cmp, s, v, lo, hi, x) && (hi <= a || c <= lo)
    ensures Zone(cmp, t, v, lo, hi, x)
  {
  }

  /** Every element of one part is in order with every element of a later part. */
  lemma ZonesOrdered<T(!new)>(cmp: (T, T) -> int, s: seq<T>, v: T, lo: int, lt: int, gt: int, hi: int, i: int, j: int)
    requires Comparison(cmp) && 0 <= lo <= lt <= gt <= hi <= |s|
    requires Zone(cmp, s, v, lo, lt, -1) && Zone(cmp, s, v, lt, gt, 0) && Zone(cmp, s, v, gt, hi, 1)
    requires lo <= i < j < hi && !(j < lt) && !(gt <= i)
    ensures cmp(s[i], s[j]) <= 0
  {
    assert cmp(s[i], v) <= 0 && cmp(s[j], v) >= 0;
    Signs(cmp, s[j], v);
    Transitive(cmp, s[i], v, s[j]);
  }

  /** What a partition promises: only elements of the same outer part may still be out of order. */
  ghost predicate Parted<T(!new)>(cmp: (T, T) -> int, s: seq<T>, lo: int, lt: int, gt: int, hi: int)
    requires 0 <= lo <= lt <= gt <= hi <= |s|
  {
    forall i, j :: lo <= i < j < hi && !(j < lt) && !(gt <= i) ==> cmp(s[i], s[j]) <= 0
  }

  /** Splits lo..hi around a median: smaller elements go below `lt`, larger ones from `gt` on. */
  method Partition<T(!new)>(a: array<T>, cmp: (T, T) -> int, lo: int, hi: int) returns (lt: int, gt: int)
    requires 0 <= lo && lo + 6 < hi <= a.Length && Comparison(cmp)
    modifies a
    ensures Rearranged(old(a[..]), a[..], lo, hi)
    ensures lo <= lt < gt <= hi && Parted(cmp, a[..], lo, lt, gt, hi)
  {
    hide Rearranged, Comparison, Zone, Exchanged, Swapped;
    var m4 := (hi - lo) / 4;
    var m := Med3(a, cmp, lo + m4, lo + 2 * m4, lo + 3 * m4);
    Swap(a, lo, m, lo, hi);
    ghost var s0 := a[..];
    ghost var v := a[lo];
    var plt, pi, pgt := Classify(a, cmp, lo, hi, v);
    ghost var s1 := a[..];
    RearrangedTwice(old(a[..]), s0, s1, lo, hi);
    TurnZones(a, lo, plt, pi, lo, hi);
    ghost var s2 := a[..];
    RearrangedTwice(old(a[..]), s1, s2, lo, hi);
    lt := lo + (pi - plt);
    TurnZones(a, pi, pgt, hi, lo, hi);
    RearrangedTwice(old(a[..]), s2, a[..], lo, hi);
    gt := hi - (pgt - pi);
    TurnedZones(cmp, s1, s2, a[..], v, lo, plt, pi, pgt, hi);
    ThreeZones(cmp, a[..], v, lo, lt, gt, hi);
  }

  /** The shorter of two neighbouring blocks is exchanged with the far end of the longer one. */
  function Span(a: int, b: int, c: int): int {
    if b - a > c - b then c - b else b - a
  }

  method TurnZones<T>(a: array<T>, x: int, y: int, z: int, ghost lo: int, ghost hi: int)
    requires 0 <= lo <= x <= y <= z <= hi <= a.Length
    modifies a
    ensures Rearranged(old(a[..]), a[..], lo, hi)
    ensures Exchanged(old(a[..]), a[..], x, z - Span(x, y, z), Span(x, y, z))
  {
    hide Rearranged, Exchanged;
    var span := y - x;
    if span > z - y {
      span := z - y;
    }
    SwapBlocks(a, x, z - span, span, lo, hi);
  }

  /** After both exchanges: smaller elements, then the equal ones, then the larger. */
  lemma TurnedZones<T(!new)>(cmp: (T, T) -> int, s: seq<T>, t: seq<T>, u: seq<T>, v: T, lo: int, plt: int, pi: int, pgt: int, hi: int)
    requires 0 <= lo <= plt <= pi <= pgt <= hi <= |s| && |t| == |s|
    requires Zone(cmp, s, v, lo, plt, 0) && Zone(cmp, s, v, plt, pi, -1) && Zone(cmp, s, v, pi, pgt, 1) && Zone(cmp, s, v, pgt, hi, 0)
    requires Exchanged(s, t, lo, pi - Span(lo, plt, pi), Span(lo, plt, pi))
    requires Exchanged(t, u, pi, hi - Span(pi, pgt, hi), Span(pi, pgt, hi))
    ensures var lt, gt := lo + (pi - plt), hi - (pgt - pi);
            Zone(cmp, u, v, lo, lt, -1) && Zone(cmp, u, v, lt, gt, 0) && Zone(cmp, u, v, gt, hi, 1)
  {
    hide Zone, Exchanged;
    var lt, gt := lo + (pi - plt), hi - (pgt - pi);
    ZonesTurned(cmp, s, t, v, lo, plt, pi, 0, -1);
    ZoneKept(cmp, s, t, v, lo, pi, Span(lo, plt, pi), pi, pgt, 1);
    ZoneKept(cmp, s, t, v, lo, pi, Span(lo, plt, pi), pgt, hi, 0);
    ZonesTurned(cmp, t, u, v, pi, pgt, hi, 1, 0);
    ZoneKept(cmp, t, u, v, pi, hi, Span(pi, pgt, hi), lo, lt, -1);
    ZoneKept(cmp, t, u, v, pi, hi, Span(pi, pgt, hi), lt, pi, 0);
    ZoneJoined(cmp, u, v, lt, pi, gt, 0);
  }

  lemma ThreeZones<T(!new)>(cmp: (T, T) -> int, s: seq<T>, v: T, lo: int, lt: int, gt: int, hi: int)
    requires Comparison(cmp) && 0 <= lo <= lt <= gt <= hi <= |s|
    requires Zone(cmp, s, v, lo, lt, -1) && Zone(cmp, s, v, lt, gt, 0) && Zone(cmp, s, v, gt, hi, 1)
    ensures Parted(cmp, s, lo, lt, gt, hi)
  {
    hide Comparison, Zone;
    forall i, j | lo <= i < j < hi && !(j < lt) && !(gt <= i) ensures cmp(s[i], s[j]) <= 0 {
      ZonesOrdered(cmp, s, v, lo, lt, gt, hi, i, j);
    }
  }

  lemma ZoneJoined<T(!new)>(cmp: (T, T) -> int, s: seq<T>, v: T, lo: int, mid: int, hi: int, side: int)
    requires Zone(cmp, s, v, lo, mid, side) && Zone(cmp, s, v, mid, hi, side)
    ensures Zone(cmp, s, v, lo, hi, side)
  {
  }

  lemma PartingZones<T(!new)>(cmp: (T, T) -> int, s: seq<T>, v: T, lo: int, lt: int, i: int, j: int, gt: int, hi: int)
    requires Parting(cmp, s, v, lo, lt, i, j, gt, hi)
    ensures 0 <= lo < lt <= i <= j <= gt <= hi <= |s| && s[lo] == v
    ensures Zone(cmp, s, v, lo, lt, 0) && Zone(cmp, s, v, lt, i, -1) && Zone(cmp, s, v, j, gt, 1) && Zone(cmp, s, v, gt, hi, 0)
  {
  }

  /** Four zones: equal, smaller, larger, equal. */
  method Classify<T(!new)>(a: array<T>, cmp: (T, T) -> int, lo: int, hi: int, ghost v: T) returns (plt: int, pi: int, pgt: int)
    requires 0 <= lo && lo + 1 < hi <= a.Length && Comparison(cmp) && a[lo] == v
    modifies a
    ensures Rearranged(old(a[..]), a[..], lo, hi)
    ensures lo < plt <= pi <= pgt <= hi
    ensures Zone(cmp, a[..], v, lo, plt, 0) && Zone(cmp, a[..], v, plt, pi, -1)
    ensures Zone(cmp, a[..], v, pi, pgt, 1) && Zone(cmp, a[..], v, pgt, hi, 0)
  {
    hide Rearranged, Comparison, Parting, Zone, Swapped;
    pi, plt, pgt := lo + 1, lo + 1, hi;
    var pj := hi;
    RearrangedSame(a[..], lo, hi);
    PartingStart(cmp, a[..], v, lo, hi);
    while true
      invariant pi <= pj && Parting(cmp, a[..], v, lo, plt, pi, pj, pgt, hi) && a.Length == |a[..]|
      invariant Rearranged(old(a[..]), a[..], lo, hi)
      decreases pj - pi
    {
      ghost var s, pi0 := a[..], pi;
      plt, pi := ScanUp(a, cmp, lo, plt, pi, pj, pgt, hi, v);
      RearrangedTwice(old(a[..]), s, a[..], lo, hi);
      s := a[..];
      pj, pgt := ScanDown(a, cmp, lo, plt, pi, pj, pgt, hi, v);
      RearrangedTwice(old(a[..]), s, a[..], lo, hi);
      if pi >= pj {
        break;
      }
      s := a[..];
      PartingZones(cmp, s, v, lo, plt, pi, pj + 1, pgt, hi);
      Swap(a, pi, pj, lo, hi);
      RearrangedTwice(old(a[..]), s, a[..], lo, hi);
      PartCross(cmp, s, v, lo, plt, pi, pj + 1, pgt, hi);
      pi := pi + 1;
    }
    PartingZones(cmp, a[..], v, lo, plt, pi, pi, pgt, hi);
  }

  lemma PartingStart<T(!new)>(cmp: (T, T) -> int, s: seq<T>, v: T, lo: int, hi: int)
    requires 0 <= lo && lo + 1 < hi <= |s| && Comparison(cmp) && s[lo] == v
    ensures Parting(cmp, s, v, lo, lo + 1, lo + 1, hi, hi, hi)
  {
    Signs(cmp, v, v);
  }

  /** Upward to the first element above the pivot; equal ones are collected on the left. */
  method ScanUp<T(!new)>(a: array<T>, cmp: (T, T) -> int, lo: int, lt: int, i: int, j: int, gt: int, hi: int, ghost v: T)
    returns (plt: int, pi: int)
    requires Comparison(cmp) && Parting(cmp, a[..], v, lo, lt, i, j, gt, hi)
    modifies a
    ensures Rearranged(old(a[..]), a[..], lo, hi)
    ensures Parting(cmp, a[..], v, lo, plt, pi, j, gt, hi) && i <= pi <= j
    ensures pi < j ==> cmp(a[..][pi], v) > 0
  {
    hide Rearranged, Comparison, Zone, Parting, Swapped;
    plt, pi := lt, i;
    PartingZones(cmp, a[..], v, lo, plt, pi, j, gt, hi);
    RearrangedSame(a[..], lo, hi);
    while pi < j && cmp(a[lo], a[pi]) >= 0
      invariant i <= pi <= j && 0 <= lo < plt <= pi && gt <= hi <= a.Length && j <= gt
      invariant Parting(cmp, a[..], v, lo, plt, pi, j, gt, hi) && Rearranged(old(a[..]), a[..], lo, hi) && a[lo] == v
    {
      ghost var s := a[..];
      Signs(cmp, v, a[pi]);
      PartUp(cmp, s, v, lo, plt, pi, j, gt, hi);
      if cmp(a[lo], a[pi]) == 0 {
        Swap(a, plt, pi, lo, hi);
        RearrangedTwice(old(a[..]), s, a[..], lo, hi);
        plt := plt + 1;
      }
      pi := pi + 1;
      PartingZones(cmp, a[..], v, lo, plt, pi, j, gt, hi);
    }
    if pi < j { Signs(cmp, v, a[pi]); }
  }

  /** Downward to the first element below the pivot; equal ones are collected on the right. */
  method ScanDown<T(!new)>(a: array<T>, cmp: (T, T) -> int, lo: int, lt: int, i: int, j: int, gt: int, hi: int, ghost v: T)
    returns (pj: int, pgt: int)
    requires Comparison(cmp) && Parting(cmp, a[..], v, lo, lt, i, j, gt, hi)
    requires i < j ==> cmp(a[..][i], v) > 0
    modifies a
    ensures Rearranged(old(a[..]), a[..], lo, hi) && pj < j
    ensures pj <= i ==> Parting(cmp, a[..], v, lo, lt, i, i, pgt, hi)
    ensures i < pj ==> Parting(cmp, a[..], v, lo, lt, i, pj + 1, pgt, hi) && cmp(a[..][i], v) > 0 && cmp(a[..][pj], v) < 0
  {
    hide Rearranged, Comparison, Zone, Parting, Swapped;
    pj, pgt := j - 1, gt;
    PartingZones(cmp, a[..], v, lo, lt, i, j, gt, hi);
    RearrangedSame(a[..], lo, hi);
    while i < pj && cmp(a[lo], a[pj]) <= 0
      invariant i - 1 <= pj < j && 0 <= lo < lt <= i && pj < pgt <= hi <= a.Length
      invariant Parting(cmp, a[..], v, lo, lt, i, pj + 1, pgt, hi) && Rearranged(old(a[..]), a[..], lo, hi) && a[lo] == v
      invariant i <= pj ==> cmp(a[i], v) > 0
    {
      ghost var s := a[..];
      Signs(cmp, v, s[pj]);
      PartDown(cmp, s, v, lo, lt, i, pj + 1, pgt, hi);
      if cmp(a[lo], a[pj]) == 0 {
        pgt := pgt - 1;
        CollectRight(a, lo, i, pj, pgt, hi);
        RearrangedTwice(old(a[..]), s, a[..], lo, hi);
      }
      pj := pj - 1;
      PartingZones(cmp, a[..], v, lo, lt, i, pj + 1, pgt, hi);
    }
    if i == pj { PartDown(cmp, a[..], v, lo, lt, i, pj + 1, pgt, hi); }
    if i < pj { Signs(cmp, v, a[pj]); }
  }

  method CollectRight<T>(a: array<T>, lo: int, ghost i: int, pj: int, pgt: int, ghost hi: int)
    requires 0 <= lo <= i < pj <= pgt < hi <= a.Length
    modifies a
    ensures a[..] == Swapped(old(a[..]), pgt, pj) && Rearranged(old(a[..]), a[..], lo, hi) && a[i] == old(a[i])
  {
    hide Rearranged, Swapped;
    Elsewhere(a[..], pgt, pj, i);
    Swap(a, pgt, pj, lo, hi);
    assert a[..][i] == old(a[..])[i];
  }

  lemma Elsewhere<T>(s: seq<T>, i: int, j: int, k: int)
    requires 0 <= i < |s| && 0 <= j < |s| && 0 <= k < |s| && k != i && k != j
    ensures Swapped(s, i, j)[k] == s[k]
  {
  }

  // ----- the whole sort -----

  const STACK_SIZE: int := 50

  datatype Segment = Segment(base: int, count: int, depth: int)

  predicate Inside(g: Segment, i: int) {
    g.base <= i < g.base + g.count
  }

  ghost predicate Together(segs: seq<Segment>, i: int, j: int) {
    exists q :: 0 <= q < |segs| && Inside(segs[q], i) && Inside(segs[q], j)
  }

  /** Only elements of one pending segment may still be out of order. */
  ghost predicate Pending<T(!new)>(cmp: (T, T) -> int, s: seq<T>, segs: seq<Segment>) {
    forall i, j :: 0 <= i < j < |s| ==> cmp(s[i], s[j]) <= 0 || Together(segs, i, j)
  }

  predicate Apart(g: Segment, h: Segment) {
    g.base + g.count <= h.base || h.base + h.count <= g.base
  }

  ghost predicate Disjoint(segs: seq<Segment>, n: int) {
    && (forall q :: 0 <= q < |segs| ==> 0 <= segs[q].base && 0 <= segs[q].count && segs[q].base + segs[q].count <= n)
    && (forall q, r :: 0 <= q < r < |segs| ==> Apart(segs[q], segs[r]))
  }

  /** The last segment has been worked on: what is still out of order in it is in the segments that replace it. */
  lemma Replaced<T(!new)>(cmp: (T, T) -> int, s: seq<T>, t: seq<T>, segs: seq<Segment>, g: Segment, new_: seq<Segment>)
    requires Pending(cmp, s, segs + [g]) && Disjoint(segs + [g], |s|) && Rearranged(s, t, g.base, g.base + g.count)
    requires forall i, j :: 0 <= i < j < |t| && Inside(g, i) && Inside(g, j) ==> cmp(t[i], t[j]) <= 0 || Together(new_, i, j)
    ensures Pending(cmp, t, segs + new_)
  {
    hide Rearranged, Pending, Disjoint, Together;
    RearrangedLength(s, t, g.base, g.base + g.count);
    forall i, j | 0 <= i < j < |t| ensures cmp(t[i], t[j]) <= 0 || Together(segs + new_, i, j) {
      if Inside(g, i) && Inside(g, j) {
        TogetherMore(segs, new_, i, j);
      } else {
        ReplacedAcross(cmp, s, t, segs, g, i, j);
        TogetherMore(segs, new_, i, j);
      }
    }
    PendingIf(cmp, t, segs + new_);
  }

  lemma PendingIf<T(!new)>(cmp: (T, T) -> int, s: seq<T>, segs: seq<Segment>)
    requires forall i, j :: 0 <= i < j < |s| ==> cmp(s[i], s[j]) <= 0 || Together(segs, i, j)
    ensures Pending(cmp, s, segs)
  {
  }

  lemma TogetherMore(segs: seq<Segment>, new_: seq<Segment>, i: int, j: int)
    ensures Together(segs, i, j) || Together(new_, i, j) ==> Together(segs + new_, i, j)
  {
    if Together(segs, i, j) {
      var q :| 0 <= q < |segs| && Inside(segs[q], i) && Inside(segs[q], j);
      assert (segs + new_)[q] == segs[q];
    } else if Together(new_, i, j) {
      var q :| 0 <= q < |new_| && Inside(new_[q], i) && Inside(new_[q], j);
      assert (segs + new_)[|segs| + q] == new_[q];
    }
  }

  lemma Source<T(!new)>(s: seq<T>, t: seq<T>, g: Segment, k: int) returns (k': int)
    requires Rearranged(s, t, g.base, g.base + g.count) && 0 <= k < |s| == |t|
    ensures 0 <= k' < |s| && t[k] == s[k'] && if Inside(g, k) then Inside(g, k') else k' == k
  {
    hide Rearranged;
    RearrangedLength(s, t, g.base, g.base + g.count);
    RearrangedAt(s, t, g.base, g.base + g.count, k);
    if Inside(g, k) {
      k' :| g.base <= k' < g.base + g.count && 0 <= k' < |s| && t[k] == s[k'];
    } else {
      k' := k;
    }
  }

  /** Elements that are not both in the segment keep the order they had, whatever moved inside it. */
  lemma ReplacedAcross<T(!new)>(cmp: (T, T) -> int, s: seq<T>, t: seq<T>, segs: seq<Segment>, g: Segment, i: int, j: int)
    requires Pending(cmp, s, segs + [g]) && Disjoint(segs + [g], |s|) && Rearranged(s, t, g.base, g.base + g.count)
    requires 0 <= i < j < |s| == |t| && !(Inside(g, i) && Inside(g, j))
    ensures cmp(t[i], t[j]) <= 0 || Together(segs, i, j)
  {
    hide Rearranged, Disjoint;
    RearrangedLength(s, t, g.base, g.base + g.count);
    var i' := Source(s, t, g, i);
    var j' := Source(s, t, g, j);
    assert i' < j';
    if Together(segs + [g], i', j') {
      var q :| 0 <= q < |segs + [g]| && Inside((segs + [g])[q], i') && Inside((segs + [g])[q], j');
      DisjointLast(segs, g, |s|, q, i');
      DisjointLast(segs, g, |s|, q, j');
      assert Inside(segs[q], i) && Inside(segs[q], j);
    }
  }

  lemma DisjointLast(segs: seq<Segment>, g: Segment, n: int, q: int, k: int)
    requires Disjoint(segs + [g], n) && 0 <= q < |segs + [g]| && Inside((segs + [g])[q], k)
    ensures q < |segs| ==> !Inside(g, k) && (segs + [g])[q] == segs[q]
    ensures q == |segs| ==> (segs + [g])[q] == g
  {
    if q < |segs| { assert Apart((segs + [g])[q], (segs + [g])[|segs|]); }
  }

  // ----- pending work -----

  /** How much is left to do, counting one for each segment. */
  ghost function Work(segs: seq<Segment>): int {
    if segs == [] then 0 else Work(segs[..|segs| - 1]) + segs[|segs| - 1].count + 1
  }

  ghost predicate Depths(segs: seq<Segment>) {
    forall q :: 0 <= q < |segs| ==> q <= segs[q].depth <= STACK_SIZE
  }

  lemma WorkLast(segs: seq<Segment>, g: Segment)
    ensures Work(segs + [g]) == Work(segs) + g.count + 1
  {
    assert (segs + [g])[..|segs|] == segs;
  }

  lemma {:induction false} WorkPositive(segs: seq<Segment>, n: int)
    requires Disjoint(segs, n)
    ensures Work(segs) >= 0
  {
    if segs != [] {
      var front, g := segs[..|segs| - 1], segs[|segs| - 1];
      assert front + [g] == segs;
      DisjointPrefix(front, g, n);
      WorkPositive(front, n);
    }
  }

  lemma DisjointPrefix(segs: seq<Segment>, g: Segment, n: int)
    requires Disjoint(segs + [g], n)
    ensures Disjoint(segs, n) && 0 <= g.base && 0 <= g.count && g.base + g.count <= n
  {
    var all := segs + [g];
    assert all[|segs|] == g;
    forall q, r | 0 <= q < r < |segs| ensures Apart(segs[q], segs[r]) { assert Apart(all[q], all[r]); }
    forall q | 0 <= q < |segs| ensures 0 <= segs[q].base && 0 <= segs[q].count && segs[q].base + segs[q].count <= n {
      assert segs[q] == all[q];
    }
  }

  predicate Within(g: Segment, h: Segment) {
    h.base <= g.base && 0 <= g.count && g.base + g.count <= h.base + h.count
  }

  /** A pending segment may be replaced by two parts of it. */
  lemma DisjointSplit(segs: seq<Segment>, g: Segment, x: Segment, y: Segment, n: int)
    requires Disjoint(segs + [g], n) && Within(x, g) && Within(y, g) && Apart(x, y)
    ensures Disjoint(segs + [x] + [y], n)
  {
    DisjointPrefix(segs, g, n);
    var all, new_ := segs + [g], segs + [x] + [y];
    forall q, r | 0 <= q < r < |new_| ensures Apart(new_[q], new_[r]) {
      if q < |segs| && |segs| <= r {
        assert Apart(all[q], all[|segs|]);
      } else if r < |segs| {
        assert Apart(segs[q], segs[r]);
      }
    }
  }

  lemma DisjointShrunk(segs: seq<Segment>, g: Segment, x: Segment, n: int)
    requires Disjoint(segs + [g], n) && Within(x, g)
    ensures Disjoint(segs + [x], n)
  {
    var none := Segment(x.base, 0, 0);
    DisjointSplit(segs, g, x, Segment(g.base + g.count, 0, 0), n);
    DisjointPrefix(segs + [x], Segment(g.base + g.count, 0, 0), n);
  }

  /** What the sort keeps true between two steps: `segs` are pending, `g` is the segment in hand. */
  ghost predicate Underway<T(!new)>(cmp: (T, T) -> int, s0: seq<T>, s: seq<T>, segs: seq<Segment>, g: Segment) {
    && Rearranged(s0, s, 0, |s0|)
    && Pending(cmp, s, segs + [g]) && Disjoint(segs + [g], |s|)
    && Depths(segs) && |segs| <= g.depth <= STACK_SIZE
  }

  /** The segment in hand has been put in order. */
  lemma Finished<T(!new)>(cmp: (T, T) -> int, s0: seq<T>, s: seq<T>, t: seq<T>, segs: seq<Segment>, g: Segment)
    requires Underway(cmp, s0, s, segs, g) && Rearranged(s, t, g.base, g.base + g.count)
    requires |t| == |s| && 0 <= g.base <= g.base + g.count <= |s| && SortedRange(cmp, t, g.base, g.base + g.count)
    ensures Rearranged(s0, t, 0, |s0|) && Pending(cmp, t, segs) && Disjoint(segs, |t|) && Depths(segs)
  {
    hide Rearranged, Pending, Disjoint, Together;
    RearrangedLength(s0, s, 0, |s0|);
    RearrangedWider(s, t, 0, |s0|, g.base, g.base + g.count);
    RearrangedTwice(s0, s, t, 0, |s0|);
    Replaced(cmp, s, t, segs, g, []);
    assert segs + [] == segs;
    DisjointPrefix(segs, g, |s|);
  }

  /** The segment in hand has been partitioned: its larger outer part becomes pending, the other one is next. */
  lemma SplitUp<T(!new)>(cmp: (T, T) -> int, s0: seq<T>, s: seq<T>, t: seq<T>, segs: seq<Segment>, g: Segment, lt: int, gt: int,
                         x: Segment, y: Segment)
    requires Underway(cmp, s0, s, segs, g) && Rearranged(s, t, g.base, g.base + g.count) && |t| == |s|
    requires 0 <= g.base <= lt < gt <= g.base + g.count <= |s| && Parted(cmp, t, g.base, lt, gt, g.base + g.count)
    requires g.depth < STACK_SIZE && x.depth == y.depth == g.depth + 1
    requires var l, r := Segment(g.base, lt - g.base, g.depth + 1), Segment(gt, g.base + g.count - gt, g.depth + 1);
             (x == l && y == r) || (x == r && y == l)
    ensures Underway(cmp, s0, t, segs + [x], y)
    ensures Work(segs + [x]) + y.count + 1 <= Work(segs) + g.count + 1 && 0 <= y.count < g.count
  {
    hide Rearranged, Pending, Disjoint;
    RearrangedLength(s0, s, 0, |s0|);
    RearrangedWider(s, t, 0, |s0|, g.base, g.base + g.count);
    RearrangedTwice(s0, s, t, 0, |s0|);
    forall i, j | 0 <= i < j < |t| && Inside(g, i) && Inside(g, j) ensures cmp(t[i], t[j]) <= 0 || Together([x, y], i, j) {
      if j < lt || gt <= i {
        assert (Inside([x, y][0], i) && Inside([x, y][0], j)) || (Inside([x, y][1], i) && Inside([x, y][1], j));
      }
    }
    Replaced(cmp, s, t, segs, g, [x, y]);
    assert segs + [x, y] == segs + [x] + [y];
    DisjointSplit(segs, g, x, y, |s|);
    WorkLast(segs, x);
  }

  /** Partitions the segment in hand until it is small; the larger parts go on the stack. */
  method Narrow<T(!new)>(a: array<T>, cmp: (T, T) -> int, stack: array<Segment>, sp0: int, g0: Segment, ghost s0: seq<T>)
    returns (sp: int, g: Segment)
    requires Comparison(cmp) && stack.Length == STACK_SIZE && 0 <= sp0 <= STACK_SIZE && a as object != stack
    requires Underway(cmp, s0, a[..], stack[..sp0], g0)
    modifies a, stack
    ensures 0 <= sp <= STACK_SIZE
    ensures Underway(cmp, s0, a[..], stack[..sp], g) && g.count <= 6
    ensures Work(stack[..sp]) + g.count + 1 <= old(Work(stack[..sp0])) + g0.count + 1
  {
    hide Comparison, Rearranged, Pending, Disjoint, Work, Parted, SortedRange, Underway;
    sp, g := sp0, g0;
    while g.count > 6
      invariant 0 <= sp <= STACK_SIZE && Underway(cmp, s0, a[..], stack[..sp], g)
      invariant Work(stack[..sp]) + g.count + 1 <= old(Work(stack[..sp0])) + g0.count + 1
      decreases g.count
    {
      ghost var s, segs := a[..], stack[..sp];
      UnderwayBounds(cmp, s0, s, segs, g);
      if g.depth + 1 > STACK_SIZE {
        Heapsort(a, cmp, g.base, g.base + g.count);
        Finished(cmp, s0, s, a[..], segs, g);
        NothingInHand(cmp, s0, a[..], segs, g);
        g := Segment(g.base, 0, g.depth);
      } else {
        var lt, gt := Partition(a, cmp, g.base, g.base + g.count);
        var left, right := Segment(g.base, lt - g.base, g.depth + 1), Segment(gt, g.base + g.count - gt, g.depth + 1);
        if left.count > right.count {
          SplitUp(cmp, s0, s, a[..], segs, g, lt, gt, left, right);
          stack[sp], g := left, right;
        } else {
          SplitUp(cmp, s0, s, a[..], segs, g, lt, gt, right, left);
          stack[sp], g := right, left;
        }
        sp := sp + 1;
        assert stack[..sp] == segs + [stack[sp - 1]];
      }
    }
  }

  lemma UnderwayBounds<T(!new)>(cmp: (T, T) -> int, s0: seq<T>, s: seq<T>, segs: seq<Segment>, g: Segment)
    requires Underway(cmp, s0, s, segs, g)
    ensures 0 <= g.base && 0 <= g.count && g.base + g.count <= |s| && |segs| <= g.depth <= STACK_SIZE
    ensures Disjoint(segs + [g], |s|)
  {
    DisjointPrefix(segs, g, |s|);
  }

  lemma NothingInHand<T(!new)>(cmp: (T, T) -> int, s0: seq<T>, s: seq<T>, segs: seq<Segment>, g: Segment)
    requires Rearranged(s0, s, 0, |s0|) && Pending(cmp, s, segs) && Disjoint(segs + [g], |s|) && Depths(segs)
    requires |segs| <= g.depth <= STACK_SIZE
    ensures Underway(cmp, s0, s, segs, Segment(g.base, 0, g.depth))
  {
    hide Rearranged, Disjoint;
    var none := Segment(g.base, 0, g.depth);
    DisjointPrefix(segs, g, |s|);
    DisjointShrunk(segs, g, none, |s|);
    forall i, j | 0 <= i < j < |s| ensures cmp(s[i], s[j]) <= 0 || Together(segs + [none], i, j) {
      TogetherMore(segs, [none], i, j);
    }
  }

  /**
    Sorts the whole array. Its stack of 50 segments never overflows: the depths of
    pending segments grow from the bottom up, and none is above 50.
   */
  method Rqsort<T(!new)>(a: array<T>, cmp: (T, T) -> int)
    requires Comparison(cmp)
    modifies a
    ensures SortedBy(cmp, a[..]) && multiset(a[..]) == multiset(old(a[..]))
  {
    hide Comparison, Rearranged, Pending, Disjoint, Work, SortedRange, Underway;
    if a.Length < 2 {
      return;
    }
    ghost var s0 := a[..];
    var stack := new Segment[STACK_SIZE](_ => Segment(0, 0, 0));
    var sp := 1;
    stack[0] := Segment(0, a.Length, 0);
    assert stack[..sp] == [Segment(0, a.Length, 0)];
    StartPending(cmp, s0);
    while sp > 0
      invariant 0 <= sp <= STACK_SIZE
      invariant Rearranged(s0, a[..], 0, |s0|) && Pending(cmp, a[..], stack[..sp])
      invariant Disjoint(stack[..sp], |s0|) && Depths(stack[..sp])
      decreases Work(stack[..sp])
    {
      ghost var segs := stack[..sp];
      sp := sp - 1;
      var g := stack[sp];
      assert segs[..sp] == stack[..sp];
      Popped(cmp, s0, a[..], segs);
      sp, g := Narrow(a, cmp, stack, sp, g, s0);
      ghost var s := a[..];
      UnderwayBounds(cmp, s0, s, stack[..sp], g);
      InsertionSort(a, cmp, g.base, g.base + g.count);
      Finished(cmp, s0, s, a[..], stack[..sp], g);
      WorkPositive(stack[..sp], |s0|);
    }
    assert stack[..0] == [];
    AllSorted(cmp, s0, a[..]);
  }

  lemma StartPending<T(!new)>(cmp: (T, T) -> int, s: seq<T>)
    ensures var segs := [Segment(0, |s|, 0)];
            Rearranged(s, s, 0, |s|) && Pending(cmp, s, segs) && Disjoint(segs, |s|) && Depths(segs) && Work(segs) >= 0
  {
    var segs := [Segment(0, |s|, 0)];
    forall i, j | 0 <= i < j < |s| ensures Together(segs, i, j) { assert Inside(segs[0], i) && Inside(segs[0], j); }
    WorkPositive(segs, |s|);
  }

  lemma Popped<T(!new)>(cmp: (T, T) -> int, s0: seq<T>, s: seq<T>, segs: seq<Segment>)
    requires |segs| > 0 && Rearranged(s0, s, 0, |s0|) && Pending(cmp, s, segs) && Disjoint(segs, |s0|) && Depths(segs)
    ensures var front, g := segs[..|segs| - 1], segs[|segs| - 1];
            Underway(cmp, s0, s, front, g) && Work(segs) == Work(front) + g.count + 1 && Work(front) >= 0
  {
    hide Rearranged, Pending, Disjoint;
    var front, g := segs[..|segs| - 1], segs[|segs| - 1];
    assert front + [g] == segs;
    RearrangedLength(s0, s, 0, |s0|);
    DisjointPrefix(front, g, |s0|);
    WorkPositive(front, |s0|);
  }

  lemma AllSorted<T(!new)>(cmp: (T, T) -> int, s0: seq<T>, s: seq<T>)
    requires Rearranged(s0, s, 0, |s0|) && Pending(cmp, s, [])
    ensures SortedBy(cmp, s) && multiset(s) == multiset(s0)
  {
    assert s[0..|s|] == s && s0[0..|s0|] == s0;
  }
}
