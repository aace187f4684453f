/**
  Little-endian operands inside a byte buffer, and the predicate `At` that says
  that a given run of bytes is found at a given offset of a program.
 */
module Bytes {

  type byte = b: int | 0 <= b < 256

  const TWO16: int := 0x1_0000
  const TWO31: int := 0x8000_0000
  const TWO32: int := 0x1_0000_0000

  /** The bytes of a 16-bit operand; a value out of range is truncated. */
  function LE16(v: int): (r: seq<byte>)
    ensures |r| == 2
  {
    [v % 256, v / 256 % 256]
  }

  /** The bytes of a 32-bit operand; a negative value is stored in two's complement. */
  function LE32(v: int): (r: seq<byte>)
    ensures |r| == 4
  {
    [v % 256, v / 256 % 256, v / 256 / 256 % 256, v / 256 / 256 / 256 % 256]
  }

  function U16(p: seq<byte>, i: nat): (r: nat)
    requires i + 2 <= |p|
    ensures r < TWO16
  {
    var b0: int, b1: int := p[i], p[i + 1];
    b0 + 256 * b1
  }

  function U32(p: seq<byte>, i: nat): (r: nat)
    requires i + 4 <= |p|
    ensures r < TWO32
  {
    var b0: int, b1: int, b2: int, b3: int := p[i], p[i + 1], p[i + 2], p[i + 3];
    b0 + 256 * (b1 + 256 * (b2 + 256 * b3))
  }

  /** A 32-bit word read as a signed offset. */
  function S32(v: nat): int {
    if v < TWO31 then v else v - TWO32
  }

  /** The bytes `bs` are found at offset `pc` of `p`. */
  predicate At(p: seq<byte>, pc: int, bs: seq<byte>) {
    0 <= pc && pc + |bs| <= |p| && p[pc..pc + |bs|] == bs
  }

  lemma ReadLE16(v: int)
    ensures U16(LE16(v), 0) == v % TWO16
  {
  }

  lemma ReadLE32(v: int)
    ensures U32(LE32(v), 0) == v % TWO32
    ensures -TWO31 <= v < TWO31 ==> S32(U32(LE32(v), 0)) == v
  {
    var q1 := v / 256;
    var q2 := q1 / 256;
    var q3 := q2 / 256;
    var q4 := q3 / 256;
    assert v == U32(LE32(v), 0) + TWO32 * q4;
  }

  lemma AtSplit(p: seq<byte>, pc: int, a: seq<byte>, b: seq<byte>)
    requires At(p, pc, a + b)
    ensures At(p, pc, a) && At(p, pc + |a|, b)
  {
    assert p[pc..pc + |a|] == (a + b)[..|a|];
    assert p[pc + |a|..pc + |a| + |b|] == (a + b)[|a|..];
  }

  lemma AtIndex(p: seq<byte>, pc: int, bs: seq<byte>, k: nat)
    requires At(p, pc, bs) && k < |bs|
    ensures p[pc + k] == bs[k]
  {
    assert p[pc..pc + |bs|][k] == bs[k];
  }

  lemma AtU16(p: seq<byte>, pc: int, bs: seq<byte>, k: nat)
    requires At(p, pc, bs) && k + 2 <= |bs|
    ensures U16(p, pc + k) == U16(bs, k)
  {
    AtIndex(p, pc, bs, k);
    AtIndex(p, pc, bs, k + 1);
  }

  lemma AtU32(p: seq<byte>, pc: int, bs: seq<byte>, k: nat)
    requires At(p, pc, bs) && k + 4 <= |bs|
    ensures U32(p, pc + k) == U32(bs, k)
  {
    AtIndex(p, pc, bs, k);
    AtIndex(p, pc, bs, k + 1);
    AtIndex(p, pc, bs, k + 2);
    AtIndex(p, pc, bs, k + 3);
  }
}
