/**
  How the relation between threads and states is carried through: by sequences, by the
  opening and closing of groups, and from one reference array to another.
 */
module ThreadImages {
  import opened Bytes
  import opened Bytecode
  import opened Subjects
  import opened Patterns
  import opened PatternSemantics
  import opened CodeGen
  import opened SnapshotMachine
  import opened Expansion
  import opened Simulation

  lemma EnteredMeans(m: Prog, x: State, arr: seq<int>, lo: nat, hi: nat, open: set<nat>, regs: nat)
    requires Entered(m, x, arr, lo, hi, open, regs)
    ensures Sound(m.env, x) && |x.caps| == m.groups && |arr| == 2 * m.groups + regs && lo <= hi <= m.groups
    ensures Shows(m, arr, x.caps, open)
  {
  }

  lemma EnteredPart(m: Prog, x: State, arr: seq<int>, lo: nat, hi: nat, lo': nat, hi': nat, open: set<nat>, regs: nat)
    requires Entered(m, x, arr, lo, hi, open, regs) && lo <= lo' <= hi' <= hi
    ensures Entered(m, x, arr, lo', hi', open, regs)
  {
  }

  lemma ImageMeans(m: Prog, t: Thread, pc: int, from: seq<int>, open: set<nat>, d: nat, y: State)
    requires Image(m, t, pc, from, open, d, y)
    ensures t == Thread(pc, Offset(m.subject, y.e), t.arr) && |t.arr| == |from| && Shows(m, t.arr, y.caps, open)
    ensures 2 * m.groups <= |from| && |y.caps| == m.groups
    ensures forall k :: 2 * m.groups <= k < 2 * m.groups + d && k < |from| ==> t.arr[k] == from[k]
  {
  }

  /** A thread whose array has not changed stands for a state with the same captures. */
  lemma ImageSelf(m: Prog, x: State, y: State, pc: int, arr: seq<int>, open: set<nat>, d: nat)
    requires Shows(m, arr, x.caps, open) && y.caps == x.caps
    ensures Image(m, Thread(pc, Offset(m.subject, y.e), arr), pc, arr, open, d, y)
  {
  }

  lemma ImagesNone(m: Prog, pc: int, from: seq<int>, open: set<nat>, d: nat)
    ensures Images(m, [], pc, from, open, d, [])
  {
  }

  lemma ImagesOne(m: Prog, t: Thread, pc: int, from: seq<int>, open: set<nat>, d: nat, y: State)
    requires Image(m, t, pc, from, open, d, y)
    ensures Images(m, [t], pc, from, open, d, [y])
  {
  }

  lemma ImagesHead(m: Prog, ts: seq<Thread>, pc: int, from: seq<int>, open: set<nat>, d: nat, ys: seq<State>)
    requires Images(m, ts, pc, from, open, d, ys)
    ensures |ts| == |ys|
    ensures ts != [] ==> Image(m, ts[0], pc, from, open, d, ys[0]) && Images(m, ts[1..], pc, from, open, d, ys[1..])
  {
  }

  lemma ImagesAppend(m: Prog, ts: seq<Thread>, us: seq<Thread>, pc: int, from: seq<int>, open: set<nat>, d: nat,
                     ys: seq<State>, zs: seq<State>)
    requires Images(m, ts, pc, from, open, d, ys) && Images(m, us, pc, from, open, d, zs)
    ensures Images(m, ts + us, pc, from, open, d, ys + zs)
  {
    hide Image;
  }

  /** What a thread keeps of an array it also keeps of the array that one came from. */
  lemma ImagesFrom(m: Prog, ts: seq<Thread>, pc: int, from: seq<int>, from': seq<int>, open: set<nat>, d: nat, d': nat,
                   ys: seq<State>)
    requires Images(m, ts, pc, from', open, d', ys) && Keeps(m, from, from', open, d) && d <= d'
    ensures Images(m, ts, pc, from, open, d, ys)
  {
    hide Shows;
    forall j | 0 <= j < |ts| ensures Image(m, ts[j], pc, from, open, d, ys[j]) {
      assert Image(m, ts[j], pc, from', open, d', ys[j]);
      KeepsTrans(m, from, from', ts[j].arr, open, d, open, d');
    }
  }

  function AtPc(ts: seq<Thread>, pc: int): (us: seq<Thread>)
    ensures |us| == |ts|
  {
    seq(|ts|, j requires 0 <= j < |ts| => ts[j].(pc := pc))
  }

  lemma ImagesAtPc(m: Prog, ts: seq<Thread>, pc: int, pc': int, from: seq<int>, open: set<nat>, d: nat, ys: seq<State>)
    requires Images(m, ts, pc, from, open, d, ys)
    ensures Images(m, AtPc(ts, pc'), pc', from, open, d, ys)
  {
    hide Shows, Keeps;
    forall j | 0 <= j < |ts| ensures Image(m, AtPc(ts, pc')[j], pc', from, open, d, ys[j]) {
      assert Image(m, ts[j], pc, from, open, d, ys[j]);
    }
  }

  /** Every thread of the list stands at an unconditional jump. */
  lemma JumpAll(m: Prog, ts: seq<Thread>, pc: nat, off: int, from: seq<int>, open: set<nat>, d: nat, ys: seq<State>)
    requires Ready(m) && Images(m, ts, pc, from, open, d, ys)
    requires At(m.code, pc, Encode(Goto(off))) && -TWO31 <= off < TWO31
    ensures Images(m, AtPc(ts, pc + 5 + off), pc + 5 + off, from, open, d, ys)
    ensures ExpandsAll(m, ts, AtPc(ts, pc + 5 + off))
  {
    hide At, Ready, ExpandsAll, Act, Encode, Shows;
    var us := AtPc(ts, pc + 5 + off);
    forall j | 0 <= j < |ts| ensures Act(m, ts[j]) == Go(us[j]) {
      assert Image(m, ts[j], pc, from, open, d, ys[j]);
      ImageMeans(m, ts[j], pc, from, open, d, ys[j]);
      ActGoto(m, pc, off, ts[j].pos, ts[j].arr);
    }
    ExpandsEach(m, ts, us);
    ImagesAtPc(m, ts, pc, pc + 5 + off, from, open, d, ys);
  }

  // ----- groups -----

  function Marked(arr: seq<int>, g: nat, atEnd: bool, pos: int): (r: seq<int>)
    requires 2 * g + 1 < |arr|
    ensures |r| == |arr|
  {
    arr[2 * g + B(atEnd) := pos]
  }

  lemma OpenGroup(m: Prog, x: State, arr: seq<int>, lo: nat, hi: nat, open: set<nat>, regs: nat, back: bool, pos: int)
    requires Entered(m, x, arr, lo, hi, open, regs) && lo < hi
    ensures 2 * lo + 1 < |arr|
    ensures Entered(m, x, Marked(arr, lo, back, pos), lo + 1, hi, open + {lo}, regs)
  {
    var arr1 := Marked(arr, lo, back, pos);
    assert ShowsGroup(m, arr, x.caps, open, lo);
    forall g | 0 <= g < m.groups ensures ShowsGroup(m, arr1, x.caps, open + {lo}, g) {
      assert ShowsGroup(m, arr, x.caps, open, g);
    }
  }

  lemma CloseGroup(m: Prog, arr: seq<int>, t: Thread, pc: int, pc': int, g: nat, e: nat, y: State, open: set<nat>, d: nat,
                   back: bool)
    requires g < m.groups && 2 * m.groups <= |arr| && |y.caps| == m.groups && g !in open
    requires Image(m, t, pc, Marked(arr, g, back, Offset(m.subject, e)), open + {g}, d, y)
    ensures 2 * g + 1 < |t.arr|
    ensures Image(m, Thread(pc', t.pos, Marked(t.arr, g, !back, t.pos)), pc', arr, open, d, CloseOne(y, g, e, back))
  {
    var arr1 := Marked(arr, g, back, Offset(m.subject, e));
    var arr3 := Marked(t.arr, g, !back, t.pos);
    var y' := CloseOne(y, g, e, back);
    assert t.arr[2 * g + B(back)] == arr1[2 * g + B(back)];
    forall h | 0 <= h < m.groups ensures ShowsGroup(m, arr3, y'.caps, open, h) {
      assert ShowsGroup(m, t.arr, y.caps, open + {g}, h);
    }
    KeepsThroughGroup(m, arr, t.arr, g, open, d, back, Offset(m.subject, e), t.pos);
  }

  lemma KeepsThroughGroup(m: Prog, a: seq<int>, b: seq<int>, g: nat, open: set<nat>, d: nat, back: bool, p: int, q: int)
    requires g < m.groups && 2 * m.groups <= |a| && g !in open
    requires Keeps(m, Marked(a, g, back, p), b, open + {g}, d)
    ensures Keeps(m, a, Marked(b, g, !back, q), open, d)
  {
  }

  // ----- resets -----

  lemma ResetShows(m: Prog, x: State, arr: seq<int>, lo: nat, hi: nat, open: set<nat>)
    requires Shows(m, arr, x.caps, open) && lo < hi <= m.groups
    requires forall g :: lo <= g < hi ==> g !in open
    ensures Shows(m, ResetSlots(arr, lo, hi - 1), Clear(x, lo, hi).caps, open)
  {
    var arr1, x1 := ResetSlots(arr, lo, hi - 1), Clear(x, lo, hi);
    forall g | 0 <= g < m.groups ensures ShowsGroup(m, arr1, x1.caps, open, g) {
      assert ShowsGroup(m, arr, x.caps, open, g);
    }
  }

  lemma ResetKeeps(m: Prog, arr: seq<int>, lo: nat, hi: nat, open: set<nat>, d: nat)
    requires lo < hi <= m.groups
    requires forall g :: lo <= g < hi ==> g !in open
    ensures Keeps(m, arr, ResetSlots(arr, lo, hi - 1), open, d)
  {
  }

  /** Resetting captures that are already unset changes nothing. */
  lemma ResetIdle(m: Prog, x: State, arr: seq<int>, lo: nat, hi: nat, open: set<nat>, regs: nat)
    requires Entered(m, x, arr, lo, hi, open, regs) && lo < hi
    ensures ResetSlots(arr, lo, hi - 1) == arr
  {
    forall k | 0 <= k < |arr| ensures ResetSlots(arr, lo, hi - 1)[k] == arr[k] {
      if 2 * lo <= k <= 2 * (hi - 1) + 1 {
        assert lo <= k / 2 < hi;
        assert ShowsGroup(m, arr, x.caps, open, k / 2);
        assert k == 2 * (k / 2) || k == 2 * (k / 2) + 1;
      }
    }
  }

  lemma ClearIdle(x: State, lo: nat, hi: nat)
    requires forall g :: lo <= g < hi && g < |x.caps| ==> x.caps[g].Unset?
    ensures Clear(x, lo, hi) == x
  {
  }

  lemma ClearSound(env: Env, x: State, lo: nat, hi: nat)
    requires Sound(env, x)
    ensures Sound(env, Clear(x, lo, hi))
  {
  }
}
