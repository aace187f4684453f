/**
  The stack of the real machine: choice points are triples (address, position, link to
  the previous one), and between them stand pairs (slot, previous value). `Snapshots`
  rebuilds from it the copies of the array that the simple machine would have kept.
 */
module UndoLog {
  import opened SnapshotMachine

  /** A saved value or slot number, or the third element of a choice point. */
  datatype Elem = Val(v: int) | Link(bp: nat, kind: Kind)

  /** Slot numbers and values alternate. */
  ghost predicate Pairs(es: seq<Elem>, n: nat) {
    && |es| % 2 == 0
    && forall k :: 0 <= k < |es| ==> es[k].Val? && (k % 2 == 0 ==> 0 <= es[k].v < n)
  }

  /** Restores the pairs `es`, the last one first. */
  ghost function Undo(es: seq<Elem>, arr: seq<int>): (r: seq<int>)
    requires Pairs(es, |arr|)
    ensures |r| == |arr|
    decreases |es|
  {
    if es == [] then arr
    else
      assert es[|es| - 2].Val? && es[|es| - 1].Val?;
      Undo(es[..|es| - 2], arr[es[|es| - 2].v := es[|es| - 1].v])
  }

  /** Choice points linked from `bp` down, each above its pairs; pairs bp..sp are on top. */
  ghost predicate WellFormed(stk: seq<Elem>, sp: nat, bp: nat, n: nat)
    decreases bp
  {
    && bp <= sp <= |stk|
    && Pairs(stk[bp..sp], n)
    && (bp == 0 || (3 <= bp && FrameAt(stk, bp) && stk[bp - 1].bp <= bp - 3
                    && WellFormed(stk, bp - 3, stk[bp - 1].bp, n)))
  }

  ghost predicate FrameAt(stk: seq<Elem>, bp: nat)
    requires 3 <= bp <= |stk|
  {
    stk[bp - 3].Val? && stk[bp - 2].Val? && 0 <= stk[bp - 2].v && stk[bp - 1].Link?
  }

  /** The choice points with the copies of the array that undoing rebuilds. */
  ghost function Snapshots(stk: seq<Elem>, sp: nat, bp: nat, arr: seq<int>): Stack
    requires WellFormed(stk, sp, bp, |arr|)
    decreases bp
  {
    if bp == 0 then []
    else
      var a := Undo(stk[bp..sp], arr);
      [Frame(stk[bp - 1].kind, Thread(stk[bp - 3].v, stk[bp - 2].v, a))] + Snapshots(stk, bp - 3, stk[bp - 1].bp, a)
  }

  // ----- laws of undoing -----

  lemma PairsAppend(a: seq<Elem>, b: seq<Elem>, n: nat)
    requires Pairs(a, n) && Pairs(b, n)
    ensures Pairs(a + b, n)
  {
    forall k | 0 <= k < |a + b| ensures (a + b)[k].Val? && (k % 2 == 0 ==> 0 <= (a + b)[k].v < n) {
      if k < |a| {
        assert (a + b)[k] == a[k];
      } else {
        EvenShift(k, |a|);
        assert (a + b)[k] == b[k - |a|];
      }
    }
    EvenShift(|a + b|, |a|);
  }

  lemma EvenShift(k: nat, m: nat)
    requires m <= k && m % 2 == 0
    ensures (k - m) % 2 == k % 2
  {
  }

  lemma PairsPrefix(a: seq<Elem>, k: nat, n: nat)
    requires Pairs(a, n) && k <= |a| && k % 2 == 0
    ensures Pairs(a[..k], n) && Pairs(a[k..], n)
  {
  }

  lemma {:induction false} UndoAppend(a: seq<Elem>, b: seq<Elem>, arr: seq<int>)
    requires Pairs(a, |arr|) && Pairs(b, |arr|)
    ensures Pairs(a + b, |arr|) && Undo(a + b, arr) == Undo(a, Undo(b, arr))
    decreases |b|
  {
    PairsAppend(a, b, |arr|);
    if b == [] {
      assert a + b == a;
    } else {
      var b' := b[..|b| - 2];
      assert b[|b| - 2].Val? && b[|b| - 1].Val?;
      var arr' := arr[b[|b| - 2].v := b[|b| - 1].v];
      assert (a + b)[..|a + b| - 2] == a + b';
      assert (a + b)[|a + b| - 2] == b[|b| - 2] && (a + b)[|a + b| - 1] == b[|b| - 1];
      PairsPrefix(b, |b| - 2, |arr|);
      UndoAppend(a, b', arr');
    }
  }

  /** Slot `idx` is among the slots saved by the pairs. */
  ghost predicate Saved(es: seq<Elem>, idx: nat) {
    exists k :: 0 <= k < |es| && k % 2 == 0 && es[k] == Val(idx)
  }

  /** A slot that is saved already may be overwritten without saving it again. */
  lemma {:induction false} UndoOverwrites(es: seq<Elem>, arr: seq<int>, idx: nat, v: int)
    requires Pairs(es, |arr|) && Saved(es, idx) && idx < |arr|
    ensures Undo(es, arr[idx := v]) == Undo(es, arr)
    decreases |es|
  {
    var n := |es|;
    var es' := es[..n - 2];
    assert es[n - 2].Val? && es[n - 1].Val?;
    var s, w := es[n - 2].v, es[n - 1].v;
    if s == idx {
      assert arr[idx := v][s := w] == arr[s := w];
    } else {
      var k :| 0 <= k < n && k % 2 == 0 && es[k] == Val(idx);
      assert k < n - 2 && es'[k] == Val(idx);
      assert arr[idx := v][s := w] == arr[s := w][idx := v];
      PairsPrefix(es, n - 2, |arr|);
      UndoOverwrites(es', arr[s := w], idx, v);
    }
  }

  // ----- the log depends on what is below the stack pointer only -----

  lemma {:induction false} Local(stk: seq<Elem>, stk': seq<Elem>, sp: nat, bp: nat, arr: seq<int>)
    requires WellFormed(stk, sp, bp, |arr|) && sp <= |stk'| && stk'[..sp] == stk[..sp]
    ensures WellFormed(stk', sp, bp, |arr|) && Snapshots(stk', sp, bp, arr) == Snapshots(stk, sp, bp, arr)
    decreases bp
  {
    assert stk'[bp..sp] == stk'[..sp][bp..] == stk[bp..sp];
    if bp > 0 {
      assert forall k :: 0 <= k < sp ==> stk'[k] == stk'[..sp][k] == stk[k];
      assert stk'[..bp - 3] == stk'[..sp][..bp - 3] == stk[..bp - 3];
      Local(stk, stk', bp - 3, stk[bp - 1].bp, Undo(stk[bp..sp], arr));
    }
  }

  lemma WellFormedDown(stk: seq<Elem>, sp: nat, bp: nat, n: nat)
    requires WellFormed(stk, sp, bp, n) && bp > 0
    ensures 3 <= bp && FrameAt(stk, bp) && stk[bp - 1].bp <= bp - 3 && WellFormed(stk, bp - 3, stk[bp - 1].bp, n)
  {
  }

  /** Pairs added on top are undone first. */
  lemma PushPairs(stk: seq<Elem>, sp: nat, bp: nat, es: seq<Elem>, arr: seq<int>)
    requires WellFormed(stk, sp, bp, |arr|) && Pairs(es, |arr|)
    ensures var stk' := stk[..sp] + es;
            && WellFormed(stk', sp + |es|, bp, |arr|)
            && Snapshots(stk', sp + |es|, bp, arr) == Snapshots(stk, sp, bp, Undo(es, arr))
  {
    hide Undo, Pairs;
    var stk' := stk[..sp] + es;
    assert stk'[bp..sp + |es|] == stk[bp..sp] + es;
    UndoAppend(stk[bp..sp], es, arr);
    assert stk'[..bp] == stk[..bp];
    if bp > 0 { SameBelow(stk, stk', sp, bp, Undo(stk[bp..sp], Undo(es, arr))); }
  }

  /** The last choice point and everything under it depend on what is below `bp` only. */
  lemma SameBelow(stk: seq<Elem>, stk': seq<Elem>, sp: nat, bp: nat, a: seq<int>)
    requires bp > 0 && WellFormed(stk, sp, bp, |a|) && bp <= |stk'| && stk'[..bp] == stk[..bp]
    ensures 3 <= bp && FrameAt(stk', bp) && forall k :: bp - 3 <= k < bp ==> stk'[k] == stk[k]
    ensures stk[bp - 1].bp <= bp - 3 && WellFormed(stk, bp - 3, stk[bp - 1].bp, |a|)
    ensures WellFormed(stk', bp - 3, stk[bp - 1].bp, |a|)
    ensures Snapshots(stk', bp - 3, stk[bp - 1].bp, a) == Snapshots(stk, bp - 3, stk[bp - 1].bp, a)
  {
    hide Snapshots;
    assert forall k :: 0 <= k < bp ==> stk'[k] == stk'[..bp][k] == stk[..bp][k] == stk[k];
    assert stk'[..bp - 3] == stk[..bp - 3];
    Local(stk, stk', bp - 3, stk[bp - 1].bp, a);
  }

  /** A new choice point copies the array as it is. */
  lemma PushFrame(stk: seq<Elem>, sp: nat, bp: nat, arr: seq<int>, pc: int, pos: nat, kind: Kind)
    requires WellFormed(stk, sp, bp, |arr|)
    ensures var stk' := stk[..sp] + [Val(pc), Val(pos), Link(bp, kind)];
            && WellFormed(stk', sp + 3, sp + 3, |arr|)
            && Snapshots(stk', sp + 3, sp + 3, arr) == [Frame(kind, Thread(pc, pos, arr))] + Snapshots(stk, sp, bp, arr)
  {
    var stk' := stk[..sp] + [Val(pc), Val(pos), Link(bp, kind)];
    assert stk'[sp + 3..sp + 3] == [];
    assert stk'[..sp] == stk[..sp];
    Local(stk, stk', sp, bp, arr);
  }

  /** The most recent choice point, and the log without it. */
  lemma TopFrame(stk: seq<Elem>, bp: nat, arr: seq<int>)
    requires WellFormed(stk, |stk|, bp, |arr|) && bp > 0
    ensures 3 <= bp && FrameAt(stk, bp) && stk[bp - 1].bp <= bp - 3
    ensures var a := Undo(stk[bp..|stk|], arr);
            && WellFormed(stk[..bp - 3], bp - 3, stk[bp - 1].bp, |arr|)
            && Snapshots(stk, |stk|, bp, arr) ==
               [Frame(stk[bp - 1].kind, Thread(stk[bp - 3].v, stk[bp - 2].v, a))] + Snapshots(stk[..bp - 3], bp - 3, stk[bp - 1].bp, a)
  {
    hide Undo;
    WellFormedDown(stk, |stk|, bp, |arr|);
    Local(stk, stk[..bp - 3], bp - 3, stk[bp - 1].bp, Undo(stk[bp..|stk|], arr));
  }

  // ----- committing a lookahead -----

  /**
    The stack from `p` to `top` is a run of triples each followed by its pairs; the third
    element of a triple holds the end of its pairs.
   */
  ghost predicate Chain(stk: seq<Elem>, p: nat, top: nat, n: nat)
    requires top <= |stk|
    decreases top - p
  {
    p == top ||
    (p + 3 <= top && stk[p + 2].Val? && p + 3 <= stk[p + 2].v <= top
     && Pairs(stk[p + 3..stk[p + 2].v], n) && Chain(stk, stk[p + 2].v, top, n))
  }

  /** All the pairs of a chain, without the triples. */
  ghost function Gather(stk: seq<Elem>, p: nat, top: nat, n: nat): (es: seq<Elem>)
    requires top <= |stk| && Chain(stk, p, top, n)
    ensures Pairs(es, n)
    ensures |es| <= top - p
    decreases top - p
  {
    if p == top then []
    else
      PairsAppend(stk[p + 3..stk[p + 2].v], Gather(stk, stk[p + 2].v, top, n), n);
      stk[p + 3..stk[p + 2].v] + Gather(stk, stk[p + 2].v, top, n)
  }

  /** A chain is not disturbed by changes below it. */
  lemma {:induction false} ChainLocal(stk: seq<Elem>, stk': seq<Elem>, p: nat, top: nat, n: nat)
    requires top <= |stk| && |stk'| == |stk| && Chain(stk, p, top, n) && p <= top && stk'[p..] == stk[p..]
    ensures Chain(stk', p, top, n) && Gather(stk', p, top, n) == Gather(stk, p, top, n)
    decreases top - p
  {
    if p < top {
      assert forall k :: p <= k < |stk| ==> stk'[k] == stk'[p..][k - p] == stk[p..][k - p] == stk[k];
      var q := stk[p + 2].v;
      assert stk'[p + 3..q] == stk[p + 3..q];
      assert stk'[q..] == stk[q..];
      ChainLocal(stk, stk', q, top, n);
    }
  }

  /** Dropping a choice point lengthens the chain by its triple and its pairs. */
  lemma ChainExtend(stk: seq<Elem>, stk': seq<Elem>, sp: nat, bp: nat, top: nat, arr: seq<int>)
    requires top <= |stk| && sp <= top && Chain(stk, sp, top, |arr|)
    requires var a := Undo(Gather(stk, sp, top, |arr|), arr); WellFormed(stk, sp, bp, |arr|) && bp > 0
    requires stk' == stk[bp - 1 := Val(sp)]
    ensures Chain(stk', bp - 3, top, |arr|) && stk[bp - 1].Link? && stk[bp - 1].bp <= bp - 3
    ensures WellFormed(stk', bp - 3, stk[bp - 1].bp, |arr|)
    ensures var a := Undo(Gather(stk, sp, top, |arr|), arr);
            Snapshots(stk, sp, bp, a) ==
            [Frame(stk[bp - 1].kind, Thread(stk[bp - 3].v, stk[bp - 2].v, Undo(Gather(stk', bp - 3, top, |arr|), arr)))]
            + Snapshots(stk', bp - 3, stk[bp - 1].bp, Undo(Gather(stk', bp - 3, top, |arr|), arr))
  {
    var n := |arr|;
    var a := Undo(Gather(stk, sp, top, n), arr);
    WellFormedDown(stk, sp, bp, n);
    assert stk'[sp..] == stk[sp..];
    ChainLocal(stk, stk', sp, top, n);
    assert stk'[bp..sp] == stk[bp..sp];
    UndoAppend(stk[bp..sp], Gather(stk, sp, top, n), arr);
    assert stk'[..bp - 3] == stk[..bp - 3];
    Local(stk, stk', bp - 3, stk[bp - 1].bp, Undo(stk[bp..sp], a));
  }
}
