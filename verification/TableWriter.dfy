/**
  Property tables as they are written: a list of run lengths, put into bytes by the format
  that the decoder's comment describes, and the entries of a block index. What the decoder
  and the lookup make of such bytes is stated in terms of the runs.
 */
module TableWriter {
  import opened Bytes
  import opened Patterns
  import opened CharRanges
  import opened PropertyTables

  /** One or two lengths as they are packed. */
  datatype Group =
    | Packed(first: nat, second: nat)
    | Short(length: nat)
    | Medium(length: nat)
    | Long(length: nat)
  {
    /** The lengths that each form has room for; each is stored less one. */
    predicate Fits() {
      match this
      case Packed(a, b) => 1 <= a <= 8 && 1 <= b <= 8
      case Short(n) => 1 <= n <= 128
      case Medium(n) => 1 <= n <= 0x2000
      case Long(n) => 1 <= n <= 0x20_0000
    }

    function Runs(): (r: seq<nat>) {
      match this
      case Packed(a, b) => [a, b]
      case Short(n) => [n]
      case Medium(n) => [n]
      case Long(n) => [n]
    }

    /** 00..3F: 3 and 3 bits; 80..FF: 7 bits; 40..5F: 5 bits and a byte; 60..7F: 5 bits and two bytes. */
    function Written(): (bs: seq<byte>)
      requires Fits()
      ensures 1 <= |bs| <= 3
    {
      match this
      case Packed(a, b) => [8 * (a - 1) + (b - 1)]
      case Short(n) => [0x80 + (n - 1)]
      case Medium(n) => [0x40 + (n - 1) / 0x100, (n - 1) % 0x100]
      case Long(n) => [0x60 + (n - 1) / 0x1_0000, (n - 1) / 0x100 % 0x100, (n - 1) % 0x100]
    }
  }

  ghost predicate AllFit(gs: seq<Group>) {
    forall k :: 0 <= k < |gs| ==> gs[k].Fits()
  }

  function Table(gs: seq<Group>): (bs: seq<byte>)
    requires AllFit(gs)
  {
    if gs == [] then [] else gs[0].Written() + Table(gs[1..])
  }

  function AllRuns(gs: seq<Group>): seq<nat> {
    if gs == [] then [] else gs[0].Runs() + AllRuns(gs[1..])
  }

  function Sum(runs: seq<nat>): nat {
    if runs == [] then 0 else runs[0] + Sum(runs[1..])
  }

  /** The code point at which run `k` begins. */
  function Start(runs: seq<nat>, k: nat): nat
    requires k <= |runs|
  {
    Sum(runs[..k])
  }

  predicate InRun(runs: seq<nat>, k: nat, c: nat)
    requires k < |runs|
  {
    Start(runs, k) <= c < Start(runs, k + 1)
  }

  /** `c` lies in one of the runs that say true: the second, the fourth, and so on. */
  ghost predicate InOddRun(runs: seq<nat>, c: nat) {
    exists k :: 0 <= k < |runs| && k % 2 == 1 && InRun(runs, k, c)
  }

  // ----- every list of lengths can be written -----

  /** Short neighbours are packed; otherwise each length takes the shortest form. */
  function Grouped(runs: seq<nat>): (gs: seq<Group>)
    requires forall k :: 0 <= k < |runs| ==> 1 <= runs[k] <= 0x20_0000
    ensures AllFit(gs) && AllRuns(gs) == runs
    decreases |runs|
  {
    if runs == [] then []
    else if |runs| >= 2 && runs[0] <= 8 && runs[1] <= 8 then
      assert runs == [runs[0], runs[1]] + runs[2..];
      [Packed(runs[0], runs[1])] + Grouped(runs[2..])
    else
      var g := if runs[0] <= 128 then Short(runs[0]) else if runs[0] <= 0x2000 then Medium(runs[0]) else Long(runs[0]);
      assert runs == [runs[0]] + runs[1..];
      [g] + Grouped(runs[1..])
  }

  // ----- reading it back -----

  /** Membership by walking along the runs from `code` on, the first of which says `bit`. */
  predicate Along(runs: seq<nat>, code: nat, bit: bool, c: nat) {
    runs != [] && if c < code + runs[0] then bit else Along(runs[1..], code + runs[0], !bit, c)
  }

  /** The group that stands at `p`. */
  lemma GroupRead(g: Group, before: seq<byte>, rest: seq<byte>)
    requires g.Fits()
    ensures var table, p := before + g.Written() + rest, |before|;
            && p + GroupSize(table[p]) == p + |g.Written()| <= |table|
            && FirstRun(table, p) == g.Runs()[0]
            && (TwoRuns(table[p]) <==> g.Packed?) && (g.Packed? ==> SecondRun(table[p]) == g.second)
  {
    var table, p := before + g.Written() + rest, |before|;
    assert forall k :: 0 <= k < |g.Written()| ==> table[p + k] == g.Written()[k];
    assert table[p + 0] == g.Written()[0];
    match g
    case Packed(a, b) => PackedBack(a - 1, b - 1);
    case Short(n) =>
    case Medium(n) => assert table[p + 1] == g.Written()[1];
    case Long(n) =>
      assert table[p + 1] == g.Written()[1] && table[p + 2] == g.Written()[2];
      LongBack(n - 1);
  }

  lemma PackedBack(a: nat, b: nat)
    requires a < 8 && b < 8
    ensures (8 * a + b) / 8 == a && (8 * a + b) % 8 == b && 8 * a + b < 0x40
  {
  }

  lemma LongBack(n: nat)
    requires n < 0x20_0000
    ensures n / 0x1_0000 * 0x1_0000 + n / 0x100 % 0x100 * 0x100 + n % 0x100 == n
  {
    assert n / 0x100 / 0x100 == n / 0x1_0000;
  }

  lemma TableSplit(gs: seq<Group>)
    requires AllFit(gs) && gs != []
    ensures gs[0].Fits() && AllFit(gs[1..]) && Table(gs) == gs[0].Written() + Table(gs[1..])
  {
  }

  /** From any group on, the walk over the bytes is the walk along the runs. */
  lemma {:induction false} WalkRead(gs: seq<Group>, before: seq<byte>, code: nat, bit: bool, c: nat)
    requires AllFit(gs)
    ensures Whole(before + Table(gs), |before|)
    ensures InProp(before + Table(gs), |before|, code, bit, c) <==> Along(AllRuns(gs), code, bit, c)
    ensures EndCode(before + Table(gs), |before|, code) == code + Sum(AllRuns(gs))
    decreases |gs|
  {
    hide FirstRun, SecondRun, TwoRuns, GroupSize;
    var table := before + Table(gs);
    if gs == [] {
      assert table == before;
    } else {
      var g, tail := gs[0], gs[1..];
      TableSplit(gs);
      assert table == before + g.Written() + Table(tail);
      assert table == (before + g.Written()) + Table(tail);
      GroupRead(g, before, Table(tail));
      var next := AfterGroup(table, |before|, code);
      WalkRead(tail, before + g.Written(), next, if g.Packed? then bit else !bit, c);
      RunsSplit(g, AllRuns(tail), code, bit, c);
      assert AllRuns(gs) == g.Runs() + AllRuns(tail);
    }
  }

  lemma RunsSplit(g: Group, rest: seq<nat>, code: nat, bit: bool, c: nat)
    ensures var c1 := code + g.Runs()[0];
            var next := c1 + if g.Packed? then g.second else 0;
            && (Along(g.Runs() + rest, code, bit, c) <==>
                if c < c1 then bit
                else if g.Packed? && c < next then !bit
                else Along(rest, next, if g.Packed? then bit else !bit, c))
            && code + Sum(g.Runs() + rest) == next + Sum(rest)
  {
    var all := g.Runs() + rest;
    if g.Packed? {
      assert all[1..] == [g.second] + rest;
      assert all[1..][1..] == rest;
    } else {
      assert all[1..] == rest;
    }
  }

  /** `c` lies in a run whose number has the given parity, counting from `code`. */
  ghost predicate InParity(runs: seq<nat>, code: nat, parity: nat, c: nat) {
    exists k :: 0 <= k < |runs| && k % 2 == parity && RunFrom(runs, code, k, c)
  }

  predicate RunFrom(runs: seq<nat>, code: nat, k: nat, c: nat)
    requires k < |runs|
  {
    code + Start(runs, k) <= c < code + Start(runs, k + 1)
  }

  lemma StartNext(runs: seq<nat>, k: nat)
    requires k < |runs|
    ensures Start(runs, k + 1) == runs[0] + Start(runs[1..], k) && Start(runs, 0) == 0
  {
    assert runs[..k + 1][0] == runs[0] && runs[..k + 1][1..] == runs[1..][..k];
  }

  /** Run `k` of the rest is run `k + 1` of the whole. */
  lemma SameRun(runs: seq<nat>, code: nat, k: nat, c: nat)
    requires k + 1 < |runs|
    ensures RunFrom(runs[1..], code + runs[0], k, c) <==> RunFrom(runs, code, k + 1, c)
  {
    hide Start;
    StartNext(runs, k);
    StartNext(runs, k + 1);
  }

  lemma ParityNext(runs: seq<nat>, code: nat, parity: nat, c: nat)
    requires runs != [] && c >= code + runs[0] && parity < 2
    ensures InParity(runs, code, parity, c) <==> InParity(runs[1..], code + runs[0], 1 - parity, c)
  {
    hide RunFrom;
    var rest, code' := runs[1..], code + runs[0];
    if InParity(rest, code', 1 - parity, c) {
      var k :| 0 <= k < |rest| && k % 2 == 1 - parity && RunFrom(rest, code', k, c);
      SameRun(runs, code, k, c);
      OtherParity(k);
      assert RunFrom(runs, code, k + 1, c);
    }
    if InParity(runs, code, parity, c) {
      var k :| 0 <= k < |runs| && k % 2 == parity && RunFrom(runs, code, k, c);
      NotInFirst(runs, code, c);
      SameRun(runs, code, k - 1, c);
      OtherParity(k - 1);
      assert RunFrom(rest, code', k - 1, c);
    }
  }

  lemma NotInFirst(runs: seq<nat>, code: nat, c: nat)
    requires runs != [] && c >= code + runs[0]
    ensures !RunFrom(runs, code, 0, c)
  {
    StartOfFirst(runs);
  }

  lemma OtherParity(k: nat)
    ensures (k + 1) % 2 == 1 - k % 2
  {
  }

  /** The walk along the runs is membership in every other run. */
  lemma {:induction false} AlongMeans(runs: seq<nat>, code: nat, bit: bool, c: nat)
    requires code <= c
    ensures Along(runs, code, bit, c) <==> InParity(runs, code, if bit then 0 else 1, c)
    decreases |runs|
  {
    hide Start;
    if runs != [] {
      if c >= code + runs[0] {
        AlongMeans(runs[1..], code + runs[0], !bit, c);
        ParityNext(runs, code, if bit then 0 else 1, c);
      } else {
        FirstRunHolds(runs, code, if bit then 0 else 1, c);
      }
    }
  }

  lemma FirstRunHolds(runs: seq<nat>, code: nat, parity: nat, c: nat)
    requires runs != [] && code <= c < code + runs[0] && parity < 2
    ensures InParity(runs, code, parity, c) <==> parity == 0
  {
    hide Start;
    StartNext(runs, 0);
    StartOfFirst(runs);
    StartsAscend(runs, c - code);
    if parity == 0 {
      assert RunFrom(runs, code, 0, c);
    } else {
      forall k | 0 <= k < |runs| && k % 2 == 1 ensures !RunFrom(runs, code, k, c) {
        assert k >= 1;
      }
    }
  }

  lemma StartOfFirst(runs: seq<nat>)
    requires runs != []
    ensures Start(runs, 1) == runs[0]
  {
    StartNext(runs, 0);
    assert runs[1..][..0] == [];
  }

  /** Only the first run reaches below its end. */
  lemma StartsAscend(runs: seq<nat>, c: nat)
    requires runs != [] && c < runs[0]
    ensures forall k :: 1 <= k <= |runs| ==> Start(runs, k) > c
  {
    forall k | 1 <= k <= |runs| ensures Start(runs, k) > c {
      assert runs[..k][0] == runs[0];
    }
  }

  /** The set that a written table denotes. */
  lemma TableMeans(gs: seq<Group>, c: nat)
    requires AllFit(gs)
    ensures Whole(Table(gs), 0)
    ensures InProp(Table(gs), 0, 0, false, c) <==> InOddRun(AllRuns(gs), c)
    ensures EndCode(Table(gs), 0, 0) == Sum(AllRuns(gs))
  {
    hide InProp, EndCode;
    var runs := AllRuns(gs);
    assert [] + Table(gs) == Table(gs);
    WalkRead(gs, [], 0, false, c);
    AlongMeans(runs, 0, false, c);
    if InOddRun(runs, c) {
      var k :| 0 <= k < |runs| && k % 2 == 1 && InRun(runs, k, c);
      assert RunFrom(runs, 0, k, c);
    }
    if InParity(runs, 0, 1, c) {
      var k :| 0 <= k < |runs| && k % 2 == 1 && RunFrom(runs, 0, k, c);
      assert InRun(runs, k, c);
    }
  }

  /** The decoder, on a table written from runs, gives exactly the runs that say true. */
  method DecodeWritten(gs: seq<Group>, cr: CharRange)
    requires AllFit(gs) && cr.points == []
    modifies cr
    ensures Strict(cr.points) && |cr.points| % 2 == 0
    ensures forall c: nat :: InPoints(cr.points, c) <==> InOddRun(AllRuns(gs), c)
  {
    hide InPoints, InProp, Strict, InOddRun, Whole;
    TableMeans(gs, 0);
    UnicodeProp1(Table(gs), cr);
    forall c: nat ensures InPoints(cr.points, c) <==> InOddRun(AllRuns(gs), c) { TableMeans(gs, c); }
  }

  // ----- the block index -----

  /** Where block `i` is entered: behind so many groups, with so many bytes over. */
  datatype Cut = Cut(groups: nat, over: nat)

  function EntryBytes(code: nat, over: nat): (bs: seq<byte>)
    requires code < 0x20_0000 && over < 8
    ensures |bs| == 3
  {
    var v := code + over * 0x20_0000;
    [v % 0x100, v / 0x100 % 0x100, v / 0x1_0000]
  }

  /** An entry is read back as it was written. */
  lemma EntryRead(before: seq<byte>, rest: seq<byte>, i: nat, code: nat, over: nat)
    requires |before| == 3 * i && code < 0x20_0000 && over < 8
    ensures var index := before + EntryBytes(code, over) + rest;
            EntryCode(index, i) == code && EntryPos(index, i) == 32 * (i + 1) + over
            && Le24(index, i) == code + over * 0x20_0000
  {
    var index, e := before + EntryBytes(code, over) + rest, EntryBytes(code, over);
    assert index[3 * i] == e[0] && index[3 * i + 1] == e[1] && index[3 * i + 2] == e[2];
    EntryWord(code + over * 0x20_0000);
  }

  lemma EntryWord(v: nat)
    ensures v % 0x100 + v / 0x100 % 0x100 * 0x100 + v / 0x1_0000 * 0x1_0000 == v
  {
    assert v / 0x100 / 0x100 == v / 0x1_0000;
  }

  /** The code point behind so many groups. */
  function CodeAt(gs: seq<Group>, k: nat): nat
    requires k <= |gs|
  {
    Sum(AllRuns(gs[..k]))
  }

  /** Each cut but the bound at the end stands in its block, in front of a run that says false. */
  ghost predicate CutsFit(gs: seq<Group>, cuts: seq<Cut>)
    requires AllFit(gs)
  {
    && Sum(AllRuns(gs)) < 0x20_0000
    && (forall i :: 0 <= i < |cuts| ==> CutFits(gs, cuts[i], i))
    && (forall i, j :: 0 <= i <= j < |cuts| ==> cuts[i].groups <= cuts[j].groups)
  }

  ghost predicate CutFits(gs: seq<Group>, cut: Cut, i: nat)
    requires AllFit(gs)
  {
    && cut.groups <= |gs| && cut.over < 8
    && |Table(gs[..cut.groups])| == 32 * (i + 1) + cut.over
    && |AllRuns(gs[..cut.groups])| % 2 == 0
  }

  /** The entries one after the other. */
  ghost function Entries(gs: seq<Group>, cuts: seq<Cut>): (bs: seq<byte>)
    requires AllFit(gs) && CutsFit(gs, cuts)
    ensures |bs| == 3 * |cuts|
  {
    if cuts == [] then []
    else
      var last := |cuts| - 1;
      assert CutFits(gs, cuts[last], last);
      CodesAscend(gs, cuts[last].groups, |gs|);
      Entries(gs, cuts[..last]) + EntryBytes(CodeAt(gs, cuts[last].groups), cuts[last].over)
  }

  /** Behind them, the end of the last run. */
  ghost function Index(gs: seq<Group>, cuts: seq<Cut>): (bs: seq<byte>)
    requires AllFit(gs) && CutsFit(gs, cuts)
    ensures |bs| == 3 * (|cuts| + 1)
  {
    Entries(gs, cuts) + EntryBytes(Sum(AllRuns(gs)), 0)
  }

  lemma {:induction false} RunsAppend(gs: seq<Group>, hs: seq<Group>)
    ensures AllRuns(gs + hs) == AllRuns(gs) + AllRuns(hs)
    decreases |gs|
  {
    if gs == [] {
      assert gs + hs == hs;
    } else {
      assert (gs + hs)[1..] == gs[1..] + hs;
      RunsAppend(gs[1..], hs);
    }
  }

  lemma {:induction false} SumAppend(a: seq<nat>, b: seq<nat>)
    ensures Sum(a + b) == Sum(a) + Sum(b)
    decreases |a|
  {
    if a == [] {
      assert a + b == b;
    } else {
      assert (a + b)[1..] == a[1..] + b;
      SumAppend(a[1..], b);
    }
  }

  lemma CodesAscend(gs: seq<Group>, j: nat, k: nat)
    requires j <= k <= |gs|
    ensures CodeAt(gs, j) <= CodeAt(gs, k) <= Sum(AllRuns(gs))
  {
    assert gs[..k] == gs[..j] + gs[j..k] && gs == gs[..k] + gs[k..];
    RunsAppend(gs[..j], gs[j..k]);
    SumAppend(AllRuns(gs[..j]), AllRuns(gs[j..k]));
    RunsAppend(gs[..k], gs[k..]);
    SumAppend(AllRuns(gs[..k]), AllRuns(gs[k..]));
  }

  lemma {:induction false} EntryAt(gs: seq<Group>, cuts: seq<Cut>, rest: seq<byte>, i: nat)
    requires AllFit(gs) && CutsFit(gs, cuts) && i < |cuts|
    ensures var index := Entries(gs, cuts) + rest;
            EntryCode(index, i) == CodeAt(gs, cuts[i].groups) && EntryPos(index, i) == |Table(gs[..cuts[i].groups])|
    decreases |cuts|
  {
    hide EntryCode, EntryPos, Le24, EntryBytes, CodeAt, Table, AllRuns;
    var last := |cuts| - 1;
    assert CutFits(gs, cuts[last], last);
    CodesAscend(gs, cuts[last].groups, |gs|);
    var before, e := Entries(gs, cuts[..last]), EntryBytes(CodeAt(gs, cuts[last].groups), cuts[last].over);
    if i == last {
      EntryRead(before, rest, i, CodeAt(gs, cuts[last].groups), cuts[last].over);
    } else {
      EntryAt(gs, cuts[..last], e + rest, i);
      assert Entries(gs, cuts) + rest == before + (e + rest);
    }
  }

  /** The walk from one group comes to every later one that a run of value false starts. */
  lemma {:induction false} ReachWritten(gs: seq<Group>, k: nat, before: seq<byte>, code: nat, bit: bool)
    requires AllFit(gs) && k <= |gs| && |AllRuns(gs[..k])| % 2 == (if bit then 1 else 0)
    ensures Whole(before + Table(gs), |before|) && AllFit(gs[..k])
    ensures Reaches(before + Table(gs), |before|, code, bit, |before| + |Table(gs[..k])|, code + Sum(AllRuns(gs[..k])))
    decreases |gs|
  {
    hide FirstRun, SecondRun, TwoRuns, GroupSize, Reaches, Table, AllRuns, InProp, EndCode, Whole, Along, Sum;
    var table := before + Table(gs);
    WalkRead(gs, before, code, bit, 0);
    if k == 0 {
      assert gs[..0] == [];
      ReachHere(table, |before|, code);
      NoRuns();
    } else {
      var g, tail := gs[0], gs[1..];
      TableSplit(gs);
      assert table == before + g.Written() + Table(tail);
      assert table == (before + g.Written()) + Table(tail);
      GroupRead(g, before, Table(tail));
      assert gs[..k][0] == g && gs[..k][1..] == tail[..k - 1];
      RunsSplit(g, AllRuns(tail[..k - 1]), code, bit, 0);
      RunsOfFirst(gs[..k]);
      TableSplit(gs[..k]);
      var next := AfterGroup(table, |before|, code);
      ReachWritten(tail, k - 1, before + g.Written(), next, if g.Packed? then bit else !bit);
      ReachOn(table, |before|, code, bit, |before| + |Table(gs[..k])|, code + Sum(AllRuns(gs[..k])));
    }
  }

  lemma NoRuns()
    ensures Table([]) == [] && AllRuns([]) == [] && Sum([]) == 0
  {
  }

  lemma RunsOfFirst(gs: seq<Group>)
    requires gs != []
    ensures AllRuns(gs) == gs[0].Runs() + AllRuns(gs[1..])
    ensures |AllRuns(gs)| == (if gs[0].Packed? then 2 else 1) + |AllRuns(gs[1..])|
  {
  }

  lemma ReachHere(table: seq<byte>, p: nat, code: nat)
    requires p <= |table| && Whole(table, p)
    ensures Reaches(table, p, code, false, p, code)
  {
  }

  lemma ReachOn(table: seq<byte>, p: nat, code: nat, bit: bool, q: nat, target: nat)
    requires p < q && p < |table| && Whole(table, p) && p + GroupSize(table[p]) <= |table| && Whole(table, p + GroupSize(table[p]))
    requires Reaches(table, p + GroupSize(table[p]), AfterGroup(table, p, code), if TwoRuns(table[p]) then bit else !bit, q, target)
    ensures Reaches(table, p, code, bit, q, target)
  {
  }

  /** A written index fits its table. */
  lemma IndexFits(gs: seq<Group>, cuts: seq<Cut>)
    requires AllFit(gs) && CutsFit(gs, cuts)
    ensures WellFormedIndex(Table(gs), Index(gs, cuts), |cuts| + 1)
  {
    hide EntryCode, EntryPos, Le24, EntryBytes, Entries, CodeAt, Table, AllRuns, InProp, EndCode, Reaches, Whole, Sum, InOddRun;
    var table, index, end := Table(gs), Index(gs, cuts), Sum(AllRuns(gs));
    TableMeans(gs, 0);
    EntryRead(Entries(gs, cuts), [], |cuts|, end, 0);
    assert Entries(gs, cuts) + EntryBytes(end, 0) + [] == index;
    assert EntryCode(index, |cuts|) == end;
    forall i | 0 <= i < |cuts| ensures EntryReached(table, index, i) && EntryCode(index, i) == CodeAt(gs, cuts[i].groups) {
      assert CutFits(gs, cuts[i], i);
      EntryAt(gs, cuts, EntryBytes(end, 0), i);
      CutReached(gs, cuts[i].groups);
    }
    forall i, j | 0 <= i <= j < |cuts| + 1 ensures EntryCode(index, i) <= EntryCode(index, j) {
      if i < |cuts| {
        assert CutFits(gs, cuts[i], i);
        if j < |cuts| { assert CutFits(gs, cuts[j], j); }
        CodesAscend(gs, cuts[i].groups, if j < |cuts| then cuts[j].groups else |gs|);
      }
    }
    forall c: nat | end <= c ensures !InProp(table, 0, 0, false, c) {
      TableMeans(gs, c);
      BehindAll(AllRuns(gs), c);
    }
  }

  lemma CutReached(gs: seq<Group>, k: nat)
    requires AllFit(gs) && k <= |gs| && |AllRuns(gs[..k])| % 2 == 0
    ensures AllFit(gs[..k]) && Whole(Table(gs), 0)
    ensures Reaches(Table(gs), 0, 0, false, |Table(gs[..k])|, CodeAt(gs, k))
  {
    hide Reaches, Whole;
    assert [] + Table(gs) == Table(gs);
    ReachWritten(gs, k, [], 0, false);
  }

  lemma BehindAll(runs: seq<nat>, c: nat)
    requires Sum(runs) <= c
    ensures !InOddRun(runs, c)
  {
    hide Sum;
    forall k | 0 <= k <= |runs| ensures Start(runs, k) <= c {
      assert runs == runs[..k] + runs[k..];
      SumAppend(runs[..k], runs[k..]);
    }
  }

  /** The lookup, on a written table and index, says whether the code point lies in a run that says true. */
  method LookupWritten(gs: seq<Group>, ghost cuts: seq<Cut>, index: seq<byte>, c: nat) returns (r: bool)
    requires AllFit(gs) && CutsFit(gs, cuts) && index == Index(gs, cuts)
    ensures r <==> InOddRun(AllRuns(gs), c)
  {
    hide WellFormedIndex, InProp, InOddRun, Index, CutsFit, Whole;
    IndexFits(gs, cuts);
    TableMeans(gs, c);
    r := IsInTable(c, Table(gs), index, |index| / 3);
  }
}
