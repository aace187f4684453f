/**
  The string that is searched: an array of 8-bit or 16-bit units, stepped through one
  character at a time. With `utf16` set, a high surrogate followed by a low surrogate
  is one character. `Input` is the list of characters that ECMA-262 speaks of, and
  `Offset` says at which unit each character starts.
 */
module Subjects {

  datatype Subject = Subject(units: seq<nat>, utf16: bool)

  predicate IsHigh(c: nat) {
    0xD800 <= c < 0xDC00
  }

  predicate IsLow(c: nat) {
    0xDC00 <= c < 0xE000
  }

  function FromSurrogates(hi: nat, lo: nat): (c: nat)
    requires IsHigh(hi) && IsLow(lo)
    ensures 0x10000 <= c < 0x110000
  {
    0x10000 + 0x400 * (hi - 0xD800) + (lo - 0xDC00)
  }

  /** Units `p` and `p + 1` are the two halves of one character, both before `end`. */
  predicate PairAt(s: Subject, p: nat, end: nat)
    requires p < end <= |s.units|
  {
    s.utf16 && IsHigh(s.units[p]) && p + 1 < end && IsLow(s.units[p + 1])
  }

  /** The character read at `p` going forward, and the position after it. */
  function CharAt(s: Subject, p: nat, end: nat): nat
    requires p < end <= |s.units|
  {
    if PairAt(s, p, end) then FromSurrogates(s.units[p], s.units[p + 1]) else s.units[p]
  }

  function NextPos(s: Subject, p: nat, end: nat): (q: nat)
    requires p < end <= |s.units|
    ensures p < q <= end
  {
    if PairAt(s, p, end) then p + 2 else p + 1
  }

  /** Units `p - 2` and `p - 1` are the two halves of one character, none before `start`. */
  predicate PairBefore(s: Subject, p: nat, start: nat)
    requires start < p <= |s.units|
  {
    s.utf16 && IsLow(s.units[p - 1]) && start < p - 1 && IsHigh(s.units[p - 2])
  }

  /** The character read at `p` going backward, and the position before it. */
  function CharBefore(s: Subject, p: nat, start: nat): nat
    requires start < p <= |s.units|
  {
    if PairBefore(s, p, start) then FromSurrogates(s.units[p - 2], s.units[p - 1]) else s.units[p - 1]
  }

  function PrevPos(s: Subject, p: nat, start: nat): (q: nat)
    requires start < p <= |s.units|
    ensures start <= q < p
  {
    if PairBefore(s, p, start) then p - 2 else p - 1
  }

  function CharsFrom(s: Subject, p: nat): seq<nat>
    requires p <= |s.units|
    decreases |s.units| - p
  {
    if p == |s.units| then [] else [CharAt(s, p, |s.units|)] + CharsFrom(s, NextPos(s, p, |s.units|))
  }

  function Input(s: Subject): seq<nat> {
    CharsFrom(s, 0)
  }

  /** The unit at which character number `e` starts. */
  function Offset(s: Subject, e: nat): (p: nat)
    ensures p <= |s.units|
  {
    if e == 0 then 0
    else
      var q := Offset(s, e - 1);
      if q < |s.units| then NextPos(s, q, |s.units|) else q
  }

  /** Position `p` is where some character starts, or the end. */
  ghost predicate OnBoundary(s: Subject, p: nat) {
    exists e :: 0 <= e <= |Input(s)| && p == Offset(s, e)
  }

  lemma {:induction false} InputFrom(s: Subject, e: nat)
    requires e <= |Input(s)|
    ensures CharsFrom(s, Offset(s, e)) == Input(s)[e..]
  {
    if e > 0 { InputFrom(s, e - 1); }
  }

  /** Stepping forward from a character start reads that character and reaches the next start. */
  lemma StepForward(s: Subject, e: nat)
    requires e < |Input(s)|
    ensures Offset(s, e) < |s.units|
    ensures CharAt(s, Offset(s, e), |s.units|) == Input(s)[e]
    ensures NextPos(s, Offset(s, e), |s.units|) == Offset(s, e + 1)
  {
    InputFrom(s, e);
    assert CharsFrom(s, Offset(s, e))[0] == Input(s)[e..][0] == Input(s)[e];
  }

  lemma AtEnd(s: Subject)
    ensures Offset(s, |Input(s)|) == |s.units|
  {
    InputFrom(s, |Input(s)|);
  }

  lemma {:induction false} Increasing(s: Subject, a: nat, b: nat)
    requires a < b <= |Input(s)|
    ensures Offset(s, a) < Offset(s, b)
    decreases b
  {
    StepForward(s, b - 1);
    if a < b - 1 { Increasing(s, a, b - 1); }
  }

  lemma OffsetOrder(s: Subject, a: nat, b: nat)
    requires a <= |Input(s)| && b <= |Input(s)|
    ensures (a < b) == (Offset(s, a) < Offset(s, b))
    ensures (a == b) == (Offset(s, a) == Offset(s, b))
  {
    if a < b { Increasing(s, a, b); }
    if b < a { Increasing(s, b, a); }
  }

  /** The end test of the machine is the end test of the specification. */
  lemma EndTest(s: Subject, e: nat)
    requires e <= |Input(s)|
    ensures Offset(s, e) == |s.units| <==> e == |Input(s)|
    ensures Offset(s, e) == 0 <==> e == 0
  {
    AtEnd(s);
    OffsetOrder(s, e, |Input(s)|);
    OffsetOrder(s, e, 0);
  }

  /**
    The characters of a subject in numbers: with `utf16` set, a unit of D800..DBFF and one
    of DC00..DFFF behind it are one code point; any other unit is a character of its own.
   */
  lemma CharacterMeans(s: Subject, e: nat)
    requires e < |Input(s)|
    ensures var p := Offset(s, e);
            var pair := s.utf16 && p + 1 < |s.units| && 0xD800 <= s.units[p] <= 0xDBFF && 0xDC00 <= s.units[p + 1] <= 0xDFFF;
            && Offset(s, 0) == 0 && p < |s.units|
            && Input(s)[e] == (if pair then 0x1_0000 + (s.units[p] - 0xD800) * 0x400 + (s.units[p + 1] - 0xDC00) else s.units[p])
            && Offset(s, e + 1) == (if pair then p + 2 else p + 1)
            && (Offset(s, e + 1) == |s.units| <==> e + 1 == |Input(s)|)
  {
    StepForward(s, e);
    EndTest(s, e + 1);
  }

  /** Without it the characters are the units. */
  lemma {:induction false} UnitsAreCharacters(s: Subject, p: nat)
    requires !s.utf16 && p <= |s.units|
    ensures CharsFrom(s, p) == s.units[p..]
    decreases |s.units| - p
  {
    if p < |s.units| {
      UnitsAreCharacters(s, p + 1);
      assert s.units[p..] == [s.units[p]] + s.units[p + 1..];
    }
  }

  /** A high surrogate just before a character start is a whole character: its pair would have been read. */
  lemma NoSplitPair(s: Subject, e: nat)
    requires s.utf16 && 0 < e < |Input(s)|
    requires IsHigh(s.units[Offset(s, e) - 1])
    ensures Offset(s, e) < |s.units| && !IsLow(s.units[Offset(s, e)])
  {
    StepForward(s, e - 1);
    StepForward(s, e);
  }

  /** Stepping backward from a character start is the exact inverse of stepping forward. */
  lemma StepBackward(s: Subject, e: nat)
    requires 0 < e <= |Input(s)|
    ensures 0 < Offset(s, e)
    ensures CharBefore(s, Offset(s, e), 0) == Input(s)[e - 1]
    ensures PrevPos(s, Offset(s, e), 0) == Offset(s, e - 1)
  {
    StepForward(s, e - 1);
    var p, q := Offset(s, e - 1), Offset(s, e);
    if q == p + 1 && s.utf16 && 0 < p && IsHigh(s.units[p - 1]) {
      if e - 1 > 0 { NoSplitPair(s, e - 1); }
    }
  }

  /** A bound that is itself a character start does not change what is read before it. */
  lemma BoundedForward(s: Subject, e: nat, end: nat)
    requires e < end <= |Input(s)|
    ensures Offset(s, e) < Offset(s, end)
    ensures CharAt(s, Offset(s, e), Offset(s, end)) == Input(s)[e]
    ensures NextPos(s, Offset(s, e), Offset(s, end)) == Offset(s, e + 1)
  {
    StepForward(s, e);
    OffsetOrder(s, e, end);
    OffsetOrder(s, e + 1, end);
  }

  lemma BoundedBackward(s: Subject, start: nat, e: nat)
    requires start < e <= |Input(s)|
    ensures Offset(s, start) < Offset(s, e)
    ensures CharBefore(s, Offset(s, e), Offset(s, start)) == Input(s)[e - 1]
    ensures PrevPos(s, Offset(s, e), Offset(s, start)) == Offset(s, e - 1)
  {
    StepBackward(s, e);
    OffsetOrder(s, start, e);
    OffsetOrder(s, start, e - 1);
  }

  /** Character starts are exactly the positions that do not fall between two halves of a pair. */
  lemma {:induction false} BoundaryBetween(s: Subject, p: nat, e: nat)
    requires p <= |s.units| && e <= |Input(s)| && Offset(s, e) <= p
    requires s.utf16 ==> !(0 < p < |s.units| && IsHigh(s.units[p - 1]) && IsLow(s.units[p]))
    ensures OnBoundary(s, p)
    decreases |Input(s)| - e
  {
    if Offset(s, e) < p {
      EndTest(s, e);
      StepForward(s, e);
      BoundaryBetween(s, p, e + 1);
    }
  }

  lemma BoundaryIff(s: Subject, p: nat)
    requires p <= |s.units|
    ensures OnBoundary(s, p) <==>
            !(s.utf16 && 0 < p < |s.units| && IsHigh(s.units[p - 1]) && IsLow(s.units[p]))
  {
    if OnBoundary(s, p) {
      var e :| 0 <= e <= |Input(s)| && p == Offset(s, e);
      EndTest(s, e);
      if s.utf16 && 0 < p < |s.units| && IsHigh(s.units[p - 1]) { NoSplitPair(s, e); }
    } else {
      if !(s.utf16 && 0 < p < |s.units| && IsHigh(s.units[p - 1]) && IsLow(s.units[p])) {
        BoundaryBetween(s, p, 0);
      }
    }
  }
}
