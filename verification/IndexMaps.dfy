/**
  From UTF-8 to UTF-16, with the two maps between byte offsets and unit offsets.
 */
module IndexMaps {
  import opened Bytes
  import opened Bytecode
  import opened Subjects

  const UTF8_CHAR_LEN_MAX: nat := 6

  /** A C string: a zero follows the last byte. */
  function ByteAt(input: seq<byte>, i: nat): byte {
    if i < |input| then input[i] else 0
  }

  /** How many continuation bytes follow a lead byte; 0 when it is none. */
  function Continuations(lead: byte): nat {
    if 0xC0 <= lead <= 0xDF then 1
    else if 0xE0 <= lead <= 0xEF then 2
    else if 0xF0 <= lead <= 0xF7 then 3
    else if 0xF8 <= lead <= 0xFB then 4
    else if 0xFC <= lead <= 0xFD then 5
    else 0
  }

  /** The bits of the lead byte that belong to the code point. */
  function LeadBits(lead: byte, l: nat): nat {
    if l == 1 then lead % 0x20 else if l == 2 then lead % 0x10 else if l == 3 then lead % 8 else if l == 4 then lead % 4 else lead % 2
  }

  function MinCode(l: nat): nat {
    if l == 1 then 0x80 else if l == 2 then 0x800 else if l == 3 then 0x1_0000 else if l == 4 then 0x20_0000 else 0x400_0000
  }

  /** The code point made of the bits `c` and of `l` more continuation bytes from `pos` on. */
  function Continue(input: seq<byte>, pos: nat, l: nat, c: nat): Option<nat>
    decreases l
  {
    if l == 0 then Some(c)
    else
      var b := ByteAt(input, pos);
      if b < 0x80 || b >= 0xC0 then None else Continue(input, pos + 1, l - 1, c * 0x40 + b % 0x40)
  }

  datatype Point = Point(at: nat, c: nat, next: nat)

  /** The code point that starts at `pos`. */
  function DecodeAt(input: seq<byte>, pos: nat): (r: Option<Point>)
    requires pos < |input|
  {
    var lead, l := input[pos], Continuations(input[pos]);
    if lead < 0x80 then Some(Point(pos, lead, pos + 1))
    else if l == 0 then None
    else
      match Continue(input, pos + 1, l, LeadBits(lead, l))
      case None => None
      case Some(c) => if c < MinCode(l) then None else Some(Point(pos, c, pos + 1 + l))
  }

  lemma {:induction false} ContinueInside(input: seq<byte>, pos: nat, l: nat, c: nat)
    requires pos <= |input| && Continue(input, pos, l, c).Some?
    ensures pos + l <= |input|
    decreases l
  {
    if l > 0 { ContinueInside(input, pos + 1, l - 1, c * 0x40 + ByteAt(input, pos) % 0x40); }
  }

  lemma DecodeInside(input: seq<byte>, pos: nat)
    requires pos < |input| && DecodeAt(input, pos).Some?
    ensures var p := DecodeAt(input, pos).value;
            p.at == pos && pos < p.next <= |input| && (p.c > 0xFFFF ==> p.next >= pos + 4)
  {
    var lead, l := input[pos], Continuations(input[pos]);
    if lead >= 0x80 {
      ContinueInside(input, pos + 1, l, LeadBits(lead, l));
      if l <= 2 { SmallCode(input, pos + 1, l, LeadBits(lead, l)); }
    }
  }

  lemma SmallCode(input: seq<byte>, pos: nat, l: nat, c: nat)
    requires 1 <= l <= 2 && c < (if l == 1 then 0x20 else 0x10) && Continue(input, pos, l, c).Some?
    ensures Continue(input, pos, l, c).value <= 0xFFFF
  {
    var b0, b1 := ByteAt(input, pos), ByteAt(input, pos + 1);
    var c1 := c * 0x40 + b0 % 0x40;
    assert Continue(input, pos, l, c) == Continue(input, pos + 1, l - 1, c1);
    if l == 2 { assert Continue(input, pos + 1, 1, c1) == Continue(input, pos + 2, 0, c1 * 0x40 + b1 % 0x40); }
  }

  /** The decoder; `r` is None where the C function returns -1. */
  method UnicodeFromUtf8(input: seq<byte>, pos: nat, maxLen: nat) returns (r: Option<Point>)
    requires pos < |input| && maxLen >= UTF8_CHAR_LEN_MAX
    ensures r == DecodeAt(input, pos)
  {
    var c: nat := input[pos];
    if c < 0x80 {
      return Some(Point(pos, c, pos + 1));
    }
    var l := Continuations(input[pos]);
    if l == 0 || l > maxLen - 1 {
      return None;
    }
    c := LeadBits(input[pos], l);
    var p, i := pos + 1, 0;
    while i < l
      invariant 0 <= i <= l && p == pos + 1 + i
      invariant Continue(input, pos + 1, l, LeadBits(input[pos], l)) == Continue(input, p, l - i, c)
    {
      var b := ByteAt(input, p);
      p := p + 1;
      if b < 0x80 || b >= 0xC0 {
        return None;
      }
      c := c * 0x40 + b % 0x40;
      i := i + 1;
    }
    if c < MinCode(l) {
      return None;
    }
    r := Some(Point(pos, c, p));
  }

  // ----- the whole text -----

  /** The code points of the input in order, or None when it is malformed. */
  function Walk(input: seq<byte>, pos: nat): Option<seq<Point>>
    requires pos <= |input|
    decreases |input| - pos
  {
    if pos == |input| then Some([])
    else
      match DecodeAt(input, pos)
      case None => None
      case Some(p) =>
        DecodeInside(input, pos);
        match Walk(input, p.next)
        case None => None
        case Some(ps) => Some([p] + ps)
  }

  function UnitsOf(c: nat): (us: seq<nat>)
    ensures 1 <= |us| <= 2
  {
    if c > 0xFFFF then [0xD800 + (c - 0x1_0000) / 0x400, 0xDC00 + (c - 0x1_0000) % 0x400] else [c]
  }

  function AllUnits(ps: seq<Point>): seq<nat> {
    if ps == [] then [] else AllUnits(ps[..|ps| - 1]) + UnitsOf(ps[|ps| - 1].c)
  }

  /** Where code point `k` starts in units, and in bytes; `k` may be one past the last. */
  function UnitAt(ps: seq<Point>, k: nat): nat
    requires k <= |ps|
  {
    |AllUnits(ps[..k])|
  }

  function ByteOf(ps: seq<Point>, n: nat, k: nat): nat
    requires k <= |ps|
  {
    if k == |ps| then n else ps[k].at
  }

  /** Code points follow each other without gaps from `pos` to the end. */
  ghost predicate Contiguous(ps: seq<Point>, pos: nat, n: nat) {
    && (forall k :: 0 <= k < |ps| ==> ps[k].next == ByteOf(ps, n, k + 1))
    && ByteOf(ps, n, 0) == pos
    && forall k :: 0 <= k < |ps| ==> Shape(ps[k])
  }

  predicate Shape(p: Point) {
    p.at < p.next && (p.c > 0xFFFF ==> p.next >= p.at + 4)
  }

  lemma {:induction false} WalkContiguous(input: seq<byte>, pos: nat)
    requires pos <= |input| && Walk(input, pos).Some?
    ensures Contiguous(Walk(input, pos).value, pos, |input|)
    decreases |input| - pos
  {
    if pos < |input| {
      var p := DecodeAt(input, pos).value;
      DecodeInside(input, pos);
      WalkContiguous(input, p.next);
      var rest, ps := Walk(input, p.next).value, Walk(input, pos).value;
      assert ps == [p] + rest;
      forall k | 0 <= k < |ps| ensures ps[k].next == ByteOf(ps, |input|, k + 1) && Shape(ps[k]) {
        if k > 0 { assert ps[k] == rest[k - 1] && ByteOf(ps, |input|, k + 1) == ByteOf(rest, |input|, k); }
      }
    }
  }

  lemma UnitsNext(ps: seq<Point>, k: nat)
    requires k < |ps|
    ensures AllUnits(ps[..k + 1]) == AllUnits(ps[..k]) + UnitsOf(ps[k].c)
    ensures UnitAt(ps, k + 1) == UnitAt(ps, k) + |UnitsOf(ps[k].c)|
  {
    assert ps[..k + 1][..k] == ps[..k];
  }

  /** Both offsets strictly increase, and the units are never ahead of the bytes. */
  lemma {:induction false} OffsetsIncrease(ps: seq<Point>, n: nat, i: nat, k: nat)
    requires Contiguous(ps, 0, n) && i <= k <= |ps|
    ensures UnitAt(ps, k) <= ByteOf(ps, n, k) <= n
    ensures i < k ==> UnitAt(ps, i) < UnitAt(ps, k) && ByteOf(ps, n, i) < ByteOf(ps, n, k)
    decreases k, |ps| - k + 1
  {
    if k == 0 {
      if |ps| > 0 { ReachesEnd(ps, n, 0); }
    } else {
      OffsetsIncrease(ps, n, if i < k then i else k - 1, k - 1);
      UnitsNext(ps, k - 1);
      assert Shape(ps[k - 1]) && ps[k - 1].next == ByteOf(ps, n, k);
      ReachesEnd(ps, n, k);
    }
  }

  lemma {:induction false} ReachesEnd(ps: seq<Point>, n: nat, k: nat)
    requires Contiguous(ps, 0, n) && k <= |ps|
    ensures ByteOf(ps, n, k) <= n
    decreases |ps| - k
  {
    if k < |ps| {
      assert Shape(ps[k]);
      ReachesEnd(ps, n, k + 1);
    }
  }

  // ----- the two maps -----

  /** The converted string with its maps: unit offset to byte offset, and back. */
  datatype Converted = Converted(units: seq<nat>, indices: seq<nat>, revIndices: seq<nat>)

  ghost predicate IsStart(ps: seq<Point>, i: nat) {
    exists k :: 0 <= k < |ps| && ps[k].at == i
  }

  /** Each code point so far is entered in both maps; nothing else is in the map from bytes. */
  ghost predicate MapsSoFar(done: seq<Point>, pos: nat, n: nat, indices: seq<nat>, rev: seq<nat>) {
    && |indices| == |rev| == n + 1 && Contiguous(done, 0, pos) && pos <= n && |AllUnits(done)| <= pos
    && (forall k :: 0 <= k < |done| ==> Entered(done, indices, rev, k))
    && forall i :: 0 <= i <= n && !IsStart(done, i) ==> rev[i] == 0
  }

  ghost predicate Entered(done: seq<Point>, indices: seq<nat>, rev: seq<nat>, k: nat)
    requires k < |done|
  {
    var u, b := UnitAt(done, k), done[k].at;
    u < |indices| && b < |rev| && indices[u] == b && rev[b] == u
  }

  lemma MapsStart(n: nat)
    ensures MapsSoFar([], 0, n, seq(n + 1, _ => 0), seq(n + 1, _ => 0))
  {
  }

  /** One more code point is entered. */
  lemma MapsStep(done: seq<Point>, p: Point, n: nat, indices: seq<nat>, rev: seq<nat>)
    requires MapsSoFar(done, p.at, n, indices, rev) && Shape(p) && p.next <= n
    ensures var q := |AllUnits(done)|;
            q <= n && p.at <= n && MapsSoFar(done + [p], p.next, n, indices[q := p.at], rev[p.at := q])
            && AllUnits(done + [p]) == AllUnits(done) + UnitsOf(p.c) && |AllUnits(done + [p])| <= n
  {
    var done', q := done + [p], |AllUnits(done)|;
    assert done'[..|done|] == done;
    var indices', rev' := indices[q := p.at], rev[p.at := q];
    ContiguousMore(done, p);
    forall k | 0 <= k < |done'| ensures Entered(done', indices', rev', k) {
      assert done'[..k] == done[..k];
      if k < |done| {
        assert Entered(done, indices, rev, k);
        OffsetsIncrease(done, p.at, k, |done|);
        assert done[..|done|] == done;
      }
    }
    forall i | 0 <= i <= n && !IsStart(done', i) ensures rev'[i] == 0 {
      assert done'[|done|].at == p.at;
      StartKept(done, p, i);
    }
  }

  lemma StartKept(done: seq<Point>, p: Point, i: nat)
    ensures IsStart(done, i) ==> IsStart(done + [p], i)
  {
    if IsStart(done, i) {
      var k :| 0 <= k < |done| && done[k].at == i;
      assert (done + [p])[k].at == i;
    }
  }

  lemma ContiguousMore(done: seq<Point>, p: Point)
    requires Contiguous(done, 0, p.at) && Shape(p)
    ensures Contiguous(done + [p], 0, p.next)
  {
    var all := done + [p];
    forall k | 0 <= k < |all| ensures all[k].next == ByteOf(all, p.next, k + 1) && Shape(all[k]) {
      if k < |done| { assert all[k] == done[k] && done[k].next == ByteOf(done, p.at, k + 1) && Shape(done[k]); }
    }
  }

  /** Both maps are right at every code point start and at the end; the byte map is 0 elsewhere. */
  ghost predicate Mapped(ps: seq<Point>, n: nat, r: Converted) {
    && |r.indices| == |r.revIndices| == n + 1 && Contiguous(ps, 0, n)
    && r.units == AllUnits(ps) && |r.units| <= n
    && (forall k :: 0 <= k <= |ps| ==> MappedAt(ps, n, r, k))
    && forall i :: 0 <= i < n && !IsStart(ps, i) ==> r.revIndices[i] == 0
  }

  ghost predicate MappedAt(ps: seq<Point>, n: nat, r: Converted, k: nat)
    requires k <= |ps|
  {
    var u, b := UnitAt(ps, k), ByteOf(ps, n, k);
    u < |r.indices| && b < |r.revIndices| && r.indices[u] == b && r.revIndices[b] == u
  }

  lemma MapsEnd(ps: seq<Point>, n: nat, indices: seq<nat>, rev: seq<nat>)
    requires MapsSoFar(ps, n, n, indices, rev)
    ensures var q := |AllUnits(ps)|; q <= n && Mapped(ps, n, Converted(AllUnits(ps), indices[q := n], rev[n := q]))
  {
    var q := |AllUnits(ps)|;
    var r := Converted(AllUnits(ps), indices[q := n], rev[n := q]);
    forall k | 0 <= k <= |ps| ensures MappedAt(ps, n, r, k) {
      if k < |ps| {
        assert Entered(ps, indices, rev, k);
        OffsetsIncrease(ps, n, k, |ps|);
      }
      assert ps[..|ps|] == ps;
    }
  }

  /** What is left to decode, after `done`. */
  ghost predicate Rest(input: seq<byte>, done: seq<Point>, pos: nat)
    requires pos <= |input|
  {
    match Walk(input, pos)
    case None => Walk(input, 0).None?
    case Some(ps) => Walk(input, 0) == Some(done + ps)
  }

  lemma RestStep(input: seq<byte>, done: seq<Point>, pos: nat)
    requires pos < |input| && Rest(input, done, pos)
    ensures DecodeAt(input, pos).None? ==> Walk(input, 0).None?
    ensures DecodeAt(input, pos).Some? ==>
              var p := DecodeAt(input, pos).value;
              p.at == pos && Shape(p) && p.next <= |input| && Rest(input, done + [p], p.next)
  {
    if DecodeAt(input, pos).Some? {
      var p := DecodeAt(input, pos).value;
      DecodeInside(input, pos);
      if Walk(input, p.next).Some? {
        var ps := Walk(input, p.next).value;
        assert done + ([p] + ps) == done + [p] + ps;
      }
    }
  }

  lemma RestStart(input: seq<byte>)
    ensures Rest(input, [], 0)
  {
    if Walk(input, 0).Some? { assert [] + Walk(input, 0).value == Walk(input, 0).value; }
  }

  lemma WalkEnd(input: seq<byte>)
    ensures Walk(input, |input|) == Some([])
  {
  }

  lemma NoUnits()
    ensures AllUnits([]) == []
  {
  }

  lemma MapsBounds(done: seq<Point>, pos: nat, n: nat, indices: seq<nat>, rev: seq<nat>)
    requires MapsSoFar(done, pos, n, indices, rev)
    ensures |AllUnits(done)| <= pos <= n && |indices| == |rev| == n + 1
  {
  }

  ghost predicate CodePointsFit(input: seq<byte>) {
    forall pos :: 0 <= pos < |input| ==> DecodeAt(input, pos).Some? ==> DecodeAt(input, pos).value.c <= 0x10_FFFF
  }

  /** Converts the input and fills the two maps as it goes; None for malformed input. */
  method Utf8ToUtf16(input: seq<byte>) returns (r: Option<Converted>)
    requires 0 !in input && CodePointsFit(input)
    ensures r.None? <==> Walk(input, 0).None?
    ensures r.Some? ==> Mapped(Walk(input, 0).value, |input|, r.value)
  {
    hide Walk, DecodeAt, MapsSoFar, Mapped, AllUnits;
    var n := |input|;
    var indices := new nat[n + 1](_ => 0);
    var rev := new nat[n + 1](_ => 0);
    var str := new nat[n + 1];
    var q: nat, pos: nat := 0, 0;
    ghost var done: seq<Point> := [];
    MapsStart(n);
    assert indices[..] == seq(n + 1, _ => 0) && rev[..] == seq(n + 1, _ => 0);
    RestStart(input);
    NoUnits();
    while ByteAt(input, pos) != 0
      invariant 0 <= q <= pos <= n && MapsSoFar(done, pos, n, indices[..], rev[..]) && Rest(input, done, pos)
      invariant q == |AllUnits(done)| && str[..q] == AllUnits(done)
      decreases n - pos
    {
      ghost var i0, r0, us, q0 := indices[..], rev[..], str[..q], q;
      RestStep(input, done, pos);
      MapsBounds(done, pos, n, i0, r0);
      indices[q] := pos;
      rev[pos] := q;
      var d := UnicodeFromUtf8(input, pos, UTF8_CHAR_LEN_MAX);
      if d.None? {
        return None;
      }
      MapsStep(done, d.value, n, i0, r0);
      assert indices[..] == i0[q := pos] && rev[..] == r0[pos := q];
      var c := d.value.c;
      assert c <= 0x10_FFFF;
      if c > 0xFFFF {
        c := c - 0x1_0000;
        str[q] := 0xD800 + c / 0x400;
        q := q + 1;
        str[q] := 0xDC00 + c % 0x400;
        q := q + 1;
      } else {
        str[q] := c;
        q := q + 1;
      }
      assert str[..q] == us + UnitsOf(d.value.c);
      done := done + [d.value];
      pos := d.value.next;
    }
    MapsBounds(done, pos, n, indices[..], rev[..]);
    MapsEnd(done, n, indices[..], rev[..]);
    WalkEnd(input);
    assert done + [] == done;
    indices[q] := n;
    rev[n] := q;
    r := Some(Converted(str[..q], indices[..], rev[..]));
  }

  // ----- the maps are inverse to each other -----

  /** Going to bytes and back, or to units and back, from a code point start or the end. */
  lemma MapsInverse(ps: seq<Point>, n: nat, r: Converted, k: nat)
    requires Mapped(ps, n, r) && k <= |ps|
    ensures var u, b := UnitAt(ps, k), ByteOf(ps, n, k);
            && u <= |r.units| <= n && b <= n
            && r.revIndices[b] <= n && r.indices[r.revIndices[b]] == b
            && r.indices[u] <= n && r.revIndices[r.indices[u]] == u
  {
    hide AllUnits, Contiguous;
    assert MappedAt(ps, n, r, k);
    OffsetsIncrease(ps, n, k, |ps|);
    OffsetsIncrease(ps, n, k, k);
    assert ps[..|ps|] == ps;
  }

  /** Both maps strictly increase along the code points. */
  lemma MapsIncrease(ps: seq<Point>, n: nat, r: Converted, i: nat, k: nat)
    requires Mapped(ps, n, r) && i < k <= |ps|
    ensures UnitAt(ps, i) < UnitAt(ps, k) <= n && ByteOf(ps, n, i) < ByteOf(ps, n, k) <= n
    ensures r.indices[UnitAt(ps, i)] < r.indices[UnitAt(ps, k)]
    ensures r.revIndices[ByteOf(ps, n, i)] < r.revIndices[ByteOf(ps, n, k)]
  {
    hide AllUnits, Contiguous;
    assert MappedAt(ps, n, r, i) && MappedAt(ps, n, r, k);
    OffsetsIncrease(ps, n, i, k);
    OffsetsIncrease(ps, n, k, k);
  }

  // ----- encoding -----

  /** The UTF-8 bytes of a code point. */
  function Utf8(c: nat): (bs: seq<byte>)
    requires c <= 0x10_FFFF
    ensures 1 <= |bs| <= 4
  {
    if c < 0x80 then [c]
    else if c < 0x800 then [0xC0 + c / 0x40, 0x80 + c % 0x40]
    else if c < 0x1_0000 then [0xE0 + c / 0x1000, 0x80 + c / 0x40 % 0x40, 0x80 + c % 0x40]
    else [0xF0 + c / 0x4_0000, 0x80 + c / 0x1000 % 0x40, 0x80 + c / 0x40 % 0x40, 0x80 + c % 0x40]
  }

  /** The six bits of a continuation byte. */
  function Low(b: byte): int {
    (b as int) - 0x80
  }

  /** The forms of RFC 3629: how many bytes, what they start with, and the bits they carry. */
  lemma Utf8Form(c: nat)
    requires c <= 0x10_FFFF
    ensures var bs := Utf8(c);
            && |bs| == (if c <= 0x7F then 1 else if c <= 0x7FF then 2 else if c <= 0xFFFF then 3 else 4)
            && (forall k :: 1 <= k < |bs| ==> 0x80 <= bs[k] <= 0xBF)
            && (|bs| == 1 ==> bs[0] == c)
            && (|bs| == 2 ==> 0xC2 <= bs[0] <= 0xDF && c == (bs[0] - 0xC0) * 0x40 + Low(bs[1]))
            && (|bs| == 3 ==> 0xE0 <= bs[0] <= 0xEF && c == (bs[0] - 0xE0) * 0x1000 + Low(bs[1]) * 0x40 + Low(bs[2]))
            && (|bs| == 4 ==> 0xF0 <= bs[0] <= 0xF4
                              && c == (bs[0] - 0xF0) * 0x4_0000 + Low(bs[1]) * 0x1000 + Low(bs[2]) * 0x40 + Low(bs[3]))
  {
    Sixths(c);
  }

  ghost predicate CodePoints(text: seq<nat>) {
    forall k :: 0 <= k < |text| ==> text[k] <= 0x10_FFFF
  }

  function Utf8Text(text: seq<nat>): seq<byte>
    requires CodePoints(text)
  {
    if text == [] then [] else Utf8(text[0]) + Utf8Text(text[1..])
  }

  lemma ContinueOne(input: seq<byte>, pos: nat, l: nat, c: nat, b: nat)
    requires l > 0 && b < 0x40 && ByteAt(input, pos) == 0x80 + b
    ensures Continue(input, pos, l, c) == Continue(input, pos + 1, l - 1, c * 0x40 + b)
  {
  }

  lemma Sixths(c: nat)
    requires c <= 0x10_FFFF
    ensures c / 0x40 * 0x40 + c % 0x40 == c
    ensures c / 0x1000 * 0x40 + c / 0x40 % 0x40 == c / 0x40
    ensures c / 0x4_0000 * 0x40 + c / 0x1000 % 0x40 == c / 0x1000
  {
  }

  /** The continuation bytes of a code point bring its other bits back. */
  lemma ContinueUtf8(input: seq<byte>, pos: nat, c: nat)
    requires 0x80 <= c <= 0x10_FFFF && forall k :: 0 <= k < |Utf8(c)| ==> ByteAt(input, pos + k) == Utf8(c)[k]
    ensures var l := |Utf8(c)| - 1;
            Continue(input, pos + 1, l, if l == 1 then c / 0x40 else if l == 2 then c / 0x1000 else c / 0x4_0000) == Some(c)
  {
    hide Continue;
    Sixths(c);
    var l := |Utf8(c)| - 1;
    assert ByteAt(input, pos + 1) == Utf8(c)[1];
    assert l >= 2 ==> ByteAt(input, pos + 2) == Utf8(c)[2];
    assert l >= 3 ==> ByteAt(input, pos + 3) == Utf8(c)[3];
    if l == 1 {
      ContinueOne(input, pos + 1, 1, c / 0x40, c % 0x40);
    } else if l == 2 {
      ContinueOne(input, pos + 1, 2, c / 0x1000, c / 0x40 % 0x40);
      ContinueOne(input, pos + 2, 1, c / 0x40, c % 0x40);
    } else {
      ContinueOne(input, pos + 1, 3, c / 0x4_0000, c / 0x1000 % 0x40);
      ContinueOne(input, pos + 2, 2, c / 0x1000, c / 0x40 % 0x40);
      ContinueOne(input, pos + 3, 1, c / 0x40, c % 0x40);
    }
    ContinueDone(input, pos + 1 + l, c);
  }

  lemma LeadUtf8(c: nat)
    requires 0x80 <= c <= 0x10_FFFF
    ensures var l := |Utf8(c)| - 1;
            && Continuations(Utf8(c)[0]) == l && MinCode(l) <= c && Utf8(c)[0] >= 0x80
            && LeadBits(Utf8(c)[0], l) == if l == 1 then c / 0x40 else if l == 2 then c / 0x1000 else c / 0x4_0000
  {
  }

  /** Decoding the bytes of a code point gives it back. */
  lemma DecodeUtf8(input: seq<byte>, pos: nat, c: nat)
    requires c <= 0x10_FFFF && At(input, pos, Utf8(c)) && pos < |input|
    ensures DecodeAt(input, pos) == Some(Point(pos, c, pos + |Utf8(c)|))
  {
    hide Continue, Continuations, LeadBits, MinCode;
    var bs := Utf8(c);
    forall k | 0 <= k < |bs| ensures ByteAt(input, pos + k) == bs[k] { AtIndex(input, pos, bs, k); }
    assert ByteAt(input, pos + 0) == bs[0];
    if c >= 0x80 {
      LeadUtf8(c);
      ContinueUtf8(input, pos, c);
    }
  }

  lemma ContinueDone(input: seq<byte>, pos: nat, c: nat)
    ensures Continue(input, pos, 0, c) == Some(c)
  {
  }

  /** Any text written in UTF-8 is decoded to itself. */
  lemma {:induction false} WalkUtf8(before: seq<byte>, text: seq<nat>)
    requires CodePoints(text)
    ensures var r := Walk(before + Utf8Text(text), |before|);
            && r.Some? && |r.value| == |text|
            && forall k :: 0 <= k < |text| ==> r.value[k].c == text[k] && r.value[k].at == |before| + |Utf8Text(text[..k])|
    decreases |text|
  {
    hide DecodeAt, Utf8;
    var input := before + Utf8Text(text);
    if text != [] {
      var bs := Utf8(text[0]);
      assert input == before + bs + Utf8Text(text[1..]);
      assert At(input, |before|, bs) by { assert input[|before|..|before| + |bs|] == bs; }
      DecodeUtf8(input, |before|, text[0]);
      WalkUtf8(before + bs, text[1..]);
      forall k | 1 <= k < |text| ensures Utf8Text(text[..k]) == bs + Utf8Text(text[1..][..k - 1]) {
        assert text[..k][0] == text[0] && text[..k][1..] == text[1..][..k - 1];
      }
    }
  }

  // ----- the converted string as a subject -----

  predicate Surrogate(c: nat) {
    0xD800 <= c < 0xE000
  }

  /** In unicode mode no code point is a surrogate; otherwise none needs two units. */
  ghost predicate TextFits(ps: seq<Point>, utf16: bool) {
    forall k :: 0 <= k < |ps| ==> CharFits(ps[k].c, utf16)
  }

  predicate CharFits(c: nat, utf16: bool) {
    c <= 0x10_FFFF && if utf16 then !Surrogate(c) else c <= 0xFFFF
  }

  function CodesOf(ps: seq<Point>): (text: seq<nat>)
    ensures |text| == |ps|
  {
    seq(|ps|, k requires 0 <= k < |ps| => ps[k].c)
  }

  lemma {:induction false} UnitsSplit(ps: seq<Point>, k: nat)
    requires k < |ps|
    ensures UnitAt(ps, k) <= UnitAt(ps, k + 1) <= |AllUnits(ps)|
    ensures AllUnits(ps)[UnitAt(ps, k)..UnitAt(ps, k + 1)] == UnitsOf(ps[k].c)
    decreases |ps|
  {
    hide AllUnits, UnitsOf;
    var n := |ps| - 1;
    UnitsNext(ps, k);
    if k == n {
      assert ps[..k + 1] == ps;
    } else {
      var front := ps[..n];
      UnitsSplit(front, k);
      assert front[..k] == ps[..k] && front[..k + 1] == ps[..k + 1];
      UnitsNext(ps, n);
      assert ps[..n + 1] == ps;
      SliceFirst(AllUnits(front), UnitsOf(ps[n].c), UnitAt(ps, k), UnitAt(ps, k + 1));
    }
  }

  lemma SliceFirst(a: seq<nat>, b: seq<nat>, i: nat, j: nat)
    requires i <= j <= |a|
    ensures (a + b)[i..j] == a[i..j]
  {
  }

  /** Each code point is read as one character, and the next one follows. */
  lemma ReadPoint(ps: seq<Point>, utf16: bool, k: nat)
    requires k < |ps| && TextFits(ps, utf16)
    ensures var s := Subject(AllUnits(ps), utf16);
            && UnitAt(ps, k) < |s.units|
            && CharAt(s, UnitAt(ps, k), |s.units|) == ps[k].c
            && NextPos(s, UnitAt(ps, k), |s.units|) == UnitAt(ps, k + 1)
  {
    hide AllUnits;
    UnitsSplit(ps, k);
    UnitsNext(ps, k);
    var us, u := AllUnits(ps), UnitAt(ps, k);
    var c, own := ps[k].c, UnitsOf(ps[k].c);
    assert CharFits(c, utf16);
    assert us[u] == us[u..u + |own|][0] == own[0];
    if |own| == 2 { assert us[u + 1] == us[u..u + |own|][1] == own[1]; }
  }

  lemma {:induction false} SubjectOffset(ps: seq<Point>, utf16: bool, k: nat)
    requires k <= |ps| && TextFits(ps, utf16)
    ensures Offset(Subject(AllUnits(ps), utf16), k) == UnitAt(ps, k)
  {
    hide AllUnits;
    if k == 0 {
      NoUnits();
      assert ps[..0] == [];
    } else {
      SubjectOffset(ps, utf16, k - 1);
      ReadPoint(ps, utf16, k - 1);
    }
  }

  lemma {:induction false} SubjectChars(ps: seq<Point>, utf16: bool, k: nat)
    requires k <= |ps| && TextFits(ps, utf16)
    ensures UnitAt(ps, k) <= |AllUnits(ps)|
    ensures CharsFrom(Subject(AllUnits(ps), utf16), UnitAt(ps, k)) == CodesOf(ps)[k..]
    decreases |ps| - k
  {
    hide AllUnits;
    if k == |ps| {
      assert ps[..k] == ps;
    } else {
      ReadPoint(ps, utf16, k);
      SubjectChars(ps, utf16, k + 1);
      assert CodesOf(ps)[k..] == [ps[k].c] + CodesOf(ps)[k + 1..];
    }
  }

  /** The characters of the converted string are the code points of the input. */
  lemma SubjectIsText(ps: seq<Point>, utf16: bool)
    requires TextFits(ps, utf16)
    ensures Input(Subject(AllUnits(ps), utf16)) == CodesOf(ps)
  {
    hide AllUnits;
    NoUnits();
    assert ps[..0] == [];
    SubjectChars(ps, utf16, 0);
  }
}
