/**
  The regular expression object: running it on a UTF-8 string from its last index, and
  the loops that collect all matches.
 */
module RegExpObject {
  import opened Bytes
  import opened Bytecode
  import opened Subjects
  import opened Patterns
  import opened IndexMaps
  import opened Matching
  import opened Engine
  import SnapshotMachine
  import opened Simulation
  import Emitter
  import CodeGen
  import opened PatternSemantics
  import opened CaptureArray

  // ----- strings -----

  /** A string as it was passed in, and the units that are searched: its bytes, or UTF-16 with the two maps. */
  datatype JsString = JsString(wide: bool, units: seq<nat>, bytes: seq<byte>, indices: seq<nat>, revIndices: seq<nat>)

  ghost predicate ValidString(js: JsString) {
    && Walk(js.bytes, 0).Some?
    && var ps, n := Walk(js.bytes, 0).value, |js.bytes|;
       if js.wide then Mapped(ps, n, Converted(js.units, js.indices, js.revIndices))
       else Ascii(js.bytes) && js.units == ToUnits(js.bytes)
  }

  predicate Ascii(input: seq<byte>) {
    forall i :: 0 <= i < |input| ==> input[i] < 0x80
  }

  function ToUnits(input: seq<byte>): (us: seq<nat>)
    ensures |us| == |input|
  {
    seq(|input|, i requires 0 <= i < |input| => input[i] as nat)
  }

  method ContainsNonAscii(input: seq<byte>) returns (r: bool)
    requires 0 !in input
    ensures r <==> !Ascii(input)
  {
    var i := 0;
    while ByteAt(input, i) != 0
      invariant 0 <= i <= |input| && forall j :: 0 <= j < i ==> input[j] < 0x80
      decreases |input| - i
    {
      if input[i] >= 0x80 {
        return true;
      }
      i := i + 1;
    }
    r := false;
  }

  /** None when the input is malformed. */
  method JsStringNew(input: seq<byte>) returns (r: Option<JsString>)
    requires 0 !in input && CodePointsFit(input)
    ensures r.None? <==> Walk(input, 0).None?
    ensures r.Some? ==> ValidString(r.value) && r.value.bytes == input
  {
    hide Mapped, Walk;
    var wide := ContainsNonAscii(input);
    if wide {
      var c := Utf8ToUtf16(input);
      match c
      case None => r := None;
      case Some(v) => r := Some(JsString(true, v.units, input, v.indices, v.revIndices));
    } else {
      AsciiWalk(input, 0);
      r := Some(JsString(false, ToUnits(input), input, [], []));
    }
  }

  /** An ASCII string has one code point, of one unit, for each byte. */
  lemma {:induction false} AsciiWalk(input: seq<byte>, pos: nat)
    requires Ascii(input) && pos <= |input|
    ensures Walk(input, pos).Some? && |Walk(input, pos).value| == |input| - pos
    ensures forall k :: 0 <= k < |input| - pos ==> Walk(input, pos).value[k] == Point(pos + k, input[pos + k], pos + k + 1)
    decreases |input| - pos
  {
    if pos < |input| {
      assert DecodeAt(input, pos) == Some(Point(pos, input[pos], pos + 1));
      AsciiWalk(input, pos + 1);
    }
  }

  lemma {:induction false} AsciiUnits(ps: seq<Point>)
    requires forall k :: 0 <= k < |ps| ==> ps[k].c < 0x80
    ensures |AllUnits(ps)| == |ps| && forall k :: 0 <= k < |ps| ==> AllUnits(ps)[k] == ps[k].c
  {
    if ps != [] { AsciiUnits(ps[..|ps| - 1]); }
  }

  /** Unit offset of code point `k`, byte offset of code point `k`; `k` may be one past the last. */
  ghost function UnitPos(js: JsString, k: nat): nat
    requires ValidString(js) && k <= |Walk(js.bytes, 0).value|
  {
    UnitAt(Walk(js.bytes, 0).value, k)
  }

  ghost function BytePos(js: JsString, k: nat): nat
    requires ValidString(js) && k <= |Walk(js.bytes, 0).value|
  {
    ByteOf(Walk(js.bytes, 0).value, |js.bytes|, k)
  }

  ghost function Chars(js: JsString): nat
    requires ValidString(js)
  {
    |Walk(js.bytes, 0).value|
  }

  /** The byte offset that the object reports for a unit offset. */
  function ToByte(js: JsString, u: nat): nat
    requires js.wide ==> u < |js.indices|
  {
    if js.wide then js.indices[u] else u
  }

  /** Both kinds of string, in one statement: positions of code points in units and bytes. */
  lemma StringPositions(js: JsString, k: nat)
    requires ValidString(js) && k <= Chars(js)
    ensures UnitPos(js, k) <= BytePos(js, k) <= |js.bytes| && UnitPos(js, k) <= |js.units| <= |js.bytes|
    ensures js.wide ==> UnitPos(js, k) < |js.indices| && BytePos(js, k) < |js.revIndices| && js.revIndices[BytePos(js, k)] == UnitPos(js, k)
    ensures ToByte(js, UnitPos(js, k)) == BytePos(js, k)
    ensures !js.wide ==> UnitPos(js, k) == BytePos(js, k) == k
    ensures js.units == AllUnits(Walk(js.bytes, 0).value)
  {
    hide Walk, AllUnits, Contiguous;
    var ps := Walk(js.bytes, 0).value;
    WalkContiguous(js.bytes, 0);
    OffsetsIncrease(ps, |js.bytes|, k, k);
    OffsetsIncrease(ps, |js.bytes|, k, |ps|);
    assert ps[..|ps|] == ps;
    if js.wide {
      assert MappedAt(ps, |js.bytes|, Converted(js.units, js.indices, js.revIndices), k);
    } else {
      AsciiWalk(js.bytes, 0);
      AsciiUnits(ps);
      AsciiUnits(ps[..k]);
      assert js.units == AllUnits(ps);
    }
  }

  lemma PositionsIncrease(js: JsString, i: nat, k: nat)
    requires ValidString(js) && i < k <= Chars(js)
    ensures BytePos(js, i) < BytePos(js, k) && UnitPos(js, i) < UnitPos(js, k)
  {
    hide Walk, AllUnits;
    WalkContiguous(js.bytes, 0);
    OffsetsIncrease(Walk(js.bytes, 0).value, |js.bytes|, i, k);
  }

  /** The first code point that does not start before byte `b`. */
  ghost function FirstFrom(js: JsString, b: nat, k: nat): (r: nat)
    requires ValidString(js) && k <= Chars(js)
    ensures k <= r <= Chars(js)
    decreases Chars(js) - k
  {
    if k == Chars(js) || BytePos(js, k) >= b then k else FirstFrom(js, b, k + 1)
  }

  lemma {:induction false} FirstFromMeans(js: JsString, b: nat, k: nat)
    requires ValidString(js) && k <= Chars(js) && b <= |js.bytes|
    ensures b <= BytePos(js, FirstFrom(js, b, k))
    ensures forall i :: k <= i < FirstFrom(js, b, k) ==> BytePos(js, i) < b
    decreases Chars(js) - k
  {
    if k < Chars(js) && BytePos(js, k) < b { FirstFromMeans(js, b, k + 1); }
  }

  /** A code point start is its own first one from there. */
  lemma FirstFromStart(js: JsString, k: nat)
    requires ValidString(js) && k <= Chars(js)
    ensures FirstFrom(js, BytePos(js, k), 0) == k
    ensures k < Chars(js) ==> FirstFrom(js, BytePos(js, k) + 1, 0) == k + 1
  {
    hide BytePos, UnitPos, ValidString;
    StringPositions(js, k);
    if k > 0 { PositionsIncrease(js, k - 1, k); }
    FirstUnique(js, BytePos(js, k), k);
    if k < Chars(js) {
      PositionsIncrease(js, k, k + 1);
      StringPositions(js, k + 1);
      FirstUnique(js, BytePos(js, k) + 1, k + 1);
    }
  }

  lemma FirstUnique(js: JsString, b: nat, r: nat)
    requires ValidString(js) && r <= Chars(js) && b <= |js.bytes| && b <= BytePos(js, r) && (r > 0 ==> BytePos(js, r - 1) < b)
    ensures FirstFrom(js, b, 0) == r
  {
    hide BytePos;
    FirstFromMeans(js, b, 0);
    var q := FirstFrom(js, b, 0);
    if q < r - 1 { PositionsIncrease(js, q, r - 1); }
  }

  // ----- the object -----

  /** A match: its 1-based index, and the byte bounds of each group that took part. */
  datatype MatchResult = MatchResult(index: nat, groups: seq<Option<(nat, nat)>>)

  /** The result says in bytes what the state says in characters. */
  ghost predicate Says(js: JsString, y: State, m: MatchResult)
    requires ValidString(js)
  {
    && |m.groups| == |y.caps| > 0
    && (forall g :: 0 <= g < |y.caps| ==> GroupSays(js, y.caps[g], m.groups[g]))
    && y.caps[0].Span? && y.caps[0].s <= Chars(js) && m.index == BytePos(js, y.caps[0].s) + 1
  }

  ghost predicate GroupSays(js: JsString, c: Capture, m: Option<(nat, nat)>)
    requires ValidString(js)
  {
    match c
    case Unset => m == None
    case Span(s, t) => s <= t <= Chars(js) && m == Some((BytePos(js, s), BytePos(js, t)))
  }

  /** In a string written in UTF-8 the byte position of a character is the length of the text in front of it. */
  lemma BytePosMeans(js: JsString, text: seq<nat>, k: nat)
    requires ValidString(js) && CodePoints(text) && js.bytes == Utf8Text(text) && k <= |text|
    ensures Chars(js) == |text| && BytePos(js, k) == |Utf8Text(text[..k])|
  {
    hide Utf8Text, Utf8;
    assert [] + js.bytes == js.bytes;
    WalkUtf8([], text);
    assert text[..|text|] == text;
  }

  /** What a result says: the index counts from 1, and every group that took part has its bounds in bytes. */
  lemma SaysMeans(js: JsString, y: State, m: MatchResult)
    requires ValidString(js) && Says(js, y, m)
    ensures |y.caps| == |m.groups| > 0 && y.caps[0].Span? && y.caps[0].s <= Chars(js) && m.index == 1 + BytePos(js, y.caps[0].s)
    ensures forall g :: 0 <= g < |y.caps| ==>
              match y.caps[g]
              case Unset => m.groups[g] == None
              case Span(s, t) => s <= t <= Chars(js) && m.groups[g] == Some((BytePos(js, s), BytePos(js, t)))
  {
    hide ValidString, BytePos;
    forall g | 0 <= g < |y.caps| ensures GroupSays(js, y.caps[g], m.groups[g]) { }
  }

  class RegExp {
    const program: Emitter.Compiled
    const fold: nat -> nat
    const space: nat -> bool
    const global: bool
    const sticky: bool
    const unicode: bool
    ghost const pattern: Node
    var lastIndex: nat

    /** The program and the string as the matcher sees them. */
    function Setting(js: JsString): SnapshotMachine.Prog
      requires program.Compiled?
    {
      var subject := Subject(js.units, js.wide && unicode);
      SnapshotMachine.Prog(program.code, program.groups, subject, Env(Input(subject), fold, space))
    }

    /**
      The program was compiled from the pattern, and the array of the wrapper has room for
      its slots; every code point of the string is one character.
     */
    ghost predicate Fits(js: JsString) {
      && program.Compiled? && ValidString(js)
      && 2 * program.groups + program.registers <= WRAPPER_SLOTS
      && InMemory(Setting(js), pattern, sticky, program.registers)
      && TextFits(Walk(js.bytes, 0).value, js.wide && unicode)
    }

    /** The character at which a search starts, for a last index. */
    ghost function StartChar(js: JsString, last: nat): nat
      requires ValidString(js)
    {
      if global || sticky then FirstFrom(js, last, 0) else 0
    }

    /** The result of one run, and what it makes of the last index. */
    ghost predicate Executed(js: JsString, last: nat, r: Option<MatchResult>, last': nat)
      requires Fits(js)
    {
      if (global || sticky) && last > |js.bytes| then r == None && last' == 0
      else
        var a := Answer(js, StartChar(js, last));
        && (r.None? <==> a.None?)
        && (r.Some? ==> Says(js, a.value, r.value) && |a.value.caps| > 0 && a.value.caps[0].Span?)
        && last' == if (global || sticky) && r.Some? then BytePos(js, a.value.caps[0].t) else 0
    }

    ghost function Answer(js: JsString, e: nat): Option<State>
      requires Fits(js) && e <= Chars(js)
    {
      SettingIs(js);
      Expected(Setting(js).env, pattern, sticky, e)
    }

    lemma SettingIs(js: JsString)
      requires Fits(js)
      ensures |Setting(js).env.input| == Chars(js)
      ensures forall k :: 0 <= k <= Chars(js) ==> Offset(Setting(js).subject, k) == UnitPos(js, k)
    {
      hide Walk, AllUnits, InMemory, TextFits, Offset, Input;
      var ps := Walk(js.bytes, 0).value;
      StringPositions(js, 0);
      SubjectIsText(ps, js.wide && unicode);
      forall k | 0 <= k <= Chars(js) ensures Offset(Setting(js).subject, k) == UnitPos(js, k) {
        SubjectOffset(ps, js.wide && unicode, k);
      }
    }

    constructor (program: Emitter.Compiled, fold: nat -> nat, space: nat -> bool, global: bool, sticky: bool, unicode: bool, ghost pattern: Node)
      ensures this.program == program && this.fold == fold && this.space == space && this.pattern == pattern
      ensures this.global == global && this.sticky == sticky && this.unicode == unicode && lastIndex == 0
    {
      this.program, this.fold, this.space, this.pattern := program, fold, space, pattern;
      this.global, this.sticky, this.unicode := global, sticky, unicode;
      lastIndex := 0;
    }

    /** From a byte offset to the unit offset of the first code point that does not start before it. */
    method Translate(js: JsString) returns (r: nat)
      requires ValidString(js)
      ensures lastIndex <= |js.bytes| ==> r == UnitPos(js, FirstFrom(js, lastIndex, 0))
      ensures lastIndex > |js.bytes| ==> r > |js.units|
    {
      hide Walk, AllUnits;
      r := lastIndex;
      StringPositions(js, 0);
      if lastIndex <= |js.bytes| {
        ghost var k := FirstFrom(js, lastIndex, 0);
        FirstFromMeans(js, lastIndex, 0);
        StringPositions(js, k);
        if js.wide && r > 0 {
          while r < |js.bytes| && js.revIndices[r] == 0
            invariant lastIndex <= r <= BytePos(js, k)
            decreases BytePos(js, k) - r
          {
            NotAStart(js, r, k);
            r := r + 1;
          }
          Reached(js, r, k, lastIndex);
          r := js.revIndices[r];
        } else if !js.wide {
          NarrowStart(js, k, lastIndex);
        } else {
          FirstFromStart(js, 0);
        }
      }
    }

    /** Runs the expression on a string, from the last index when it is global or sticky. */
    method Exec(js: JsString) returns (r: Option<MatchResult>)
      requires Fits(js)
      modifies this
      ensures Executed(js, old(lastIndex), r, lastIndex)
    {
      hide Walk, AllUnits, InMemory, TextFits, Offset, Input, Expected, Shows, Simulation.Ready, CodeGen.Valid,
           ValidString, UnitPos, BytePos, Says, FirstFrom, Bounded, Aligned;
      var m := Setting(js);
      SettingIs(js);
      var start := Translate(js);
      ghost var e0 := StartChar(js, lastIndex);
      StringPositions(js, e0);
      StringPositions(js, 0);
      FirstPosition(js);
      if !global && !sticky {
        start := 0;
        lastIndex := 0;
      } else if start > |js.units| {
        lastIndex := 0;
        return None;
      }
      assert start == UnitPos(js, e0);
      var capture := new int[WRAPPER_SLOTS];
      var matched; ghost var e;
      matched, e := LreExec(m, capture, start, pattern, sticky, program.registers);
      SameStart(js, e, e0);
      if !matched {
        if global || sticky {
          lastIndex := 0;
        }
        return None;
      }
      ghost var y := Answer(js, e0).value;
      AnswerBounds(js, e0);
      var result := Report(js, capture[..], y);
      if global || sticky {
        SlotBytes(js, capture[..], y, 0);
        lastIndex := ToByte(js, capture[1]);
      }
      r := Some(result);
    }

    /** The whole match of an answer, in bytes. */
    lemma WholeBytes(js: JsString, e: nat, m: MatchResult)
      requires Fits(js) && e <= Chars(js) && Answer(js, e).Some? && Says(js, Answer(js, e).value, m)
      ensures var y := Answer(js, e).value;
              && |y.caps| > 0 && y.caps[0].Span? && e <= y.caps[0].s <= y.caps[0].t <= Chars(js)
              && |m.groups| > 0 && m.groups[0] == Some((BytePos(js, y.caps[0].s), BytePos(js, y.caps[0].t)))
              && BytePos(js, e) <= BytePos(js, y.caps[0].s) <= BytePos(js, y.caps[0].t) <= |js.bytes|
    {
      hide Fits, Answer, Walk, ValidString, BytePos, UnitPos;
      FitsString(js);
      AnswerBounds(js, e);
      var y := Answer(js, e).value;
      assert SpanBounded(y.caps[0], Chars(js)) && GroupSays(js, y.caps[0], m.groups[0]);
      PositionsInOrder(js, e, y.caps[0].s);
      PositionsInOrder(js, y.caps[0].s, y.caps[0].t);
    }

    /** With neither flag a run starts at the first character, and the last index is reset. */
    lemma RunsFromTheBeginning(js: JsString, last: nat, r: Option<MatchResult>, last': nat)
      requires Fits(js) && !global && !sticky && Executed(js, last, r, last')
      ensures last' == 0 && |Setting(js).env.input| == Chars(js)
      ensures var a := Expected(Setting(js).env, pattern, false, 0);
              (r.None? <==> a.None?) && (r.Some? ==> Says(js, a.value, r.value))
    {
      hide Expected, Says, ValidString, InMemory, TextFits;
      SettingIs(js);
    }

    /**
      With either flag a match starts at or behind the last index and the new last index
      is its end; without a match, and always when the last index is beyond the string,
      the last index is reset.
     */
    lemma RunsFromTheLastIndex(js: JsString, last: nat, r: Option<MatchResult>, last': nat)
      requires Fits(js) && (global || sticky) && Executed(js, last, r, last')
      ensures last > |js.bytes| ==> r.None?
      ensures r.None? ==> last' == 0
      ensures r.Some? ==> |r.value.groups| > 0 && r.value.groups[0].Some?
                          && last <= r.value.groups[0].value.0 <= r.value.groups[0].value.1 == last' <= |js.bytes|
    {
      hide Fits, Answer, Says, ValidString, BytePos, UnitPos;
      FitsString(js);
      if r.Some? {
        var e := FirstFrom(js, last, 0);
        FirstFromMeans(js, last, 0);
        WholeBytes(js, e, r.value);
      }
    }

    /**
      A sticky expression is tried at one place only: the least character start `k` at or
      behind the last index.
     */
    lemma SticksToTheLastIndex(js: JsString, last: nat, r: Option<MatchResult>, last': nat, k: nat)
      requires Fits(js) && sticky && last <= |js.bytes| && Executed(js, last, r, last')
      requires k <= Chars(js) && last <= BytePos(js, k) && forall i :: 0 <= i < k ==> BytePos(js, i) < last
      ensures |Setting(js).env.input| == Chars(js)
      ensures r.Some? <==> MatchesAt(Setting(js).env, pattern, k) != []
      ensures r.Some? ==> |r.value.groups| > 0 && r.value.groups[0].Some? && r.value.groups[0].value.0 == BytePos(js, k)
    {
      hide MatchesAt, Says, ValidString, BytePos, UnitPos, InMemory, TextFits;
      SettingIs(js);
      FirstUnique(js, last, k);
      if r.Some? {
        WholeBytes(js, k, r.value);
        MatchBounds(Setting(js).env, pattern, k);
      }
    }

    /** A global expression that is not sticky finds the first place from there on at which the pattern matches. */
    lemma SearchesFromTheLastIndex(js: JsString, last: nat, r: Option<MatchResult>, last': nat, k: nat)
      requires Fits(js) && global && !sticky && last <= |js.bytes| && Executed(js, last, r, last')
      requires k <= Chars(js) && last <= BytePos(js, k) && forall i :: 0 <= i < k ==> BytePos(js, i) < last
      ensures |Setting(js).env.input| == Chars(js)
      ensures r.None? ==> forall s :: k <= s <= Chars(js) ==> MatchesAt(Setting(js).env, pattern, s) == []
      ensures r.Some? ==> |r.value.groups| > 0 && r.value.groups[0].Some?
      ensures r.Some? ==>
                exists s :: k <= s <= Chars(js) && MatchesAt(Setting(js).env, pattern, s) != []
                            && r.value.groups[0].value.0 == BytePos(js, s)
                            && forall s' :: k <= s' < s ==> MatchesAt(Setting(js).env, pattern, s') == []
    {
      hide MatchesAt, Says, ValidString, BytePos, UnitPos, InMemory, TextFits, Search;
      SettingIs(js);
      FirstUnique(js, last, k);
      var env := Setting(js).env;
      SearchMeans(env, pattern, k);
      if r.Some? {
        WholeBytes(js, k, r.value);
        var s :| k <= s <= Chars(js) && MatchesAt(env, pattern, s) != [] && Search(env, pattern, k).value == MatchesAt(env, pattern, s)[0]
                 && forall s' :: k <= s' < s ==> MatchesAt(env, pattern, s') == [];
        MatchBounds(env, pattern, s);
      }
    }

    /** The bounds of each group, from units to bytes. */
    method Report(js: JsString, capture: seq<int>, ghost y: State) returns (r: MatchResult)
      requires program.Compiled? && Fits(js) && Shows(Setting(js), capture, y.caps, {}) && |y.caps| == program.groups > 0
      requires Bounded(y, Chars(js)) && y.caps[0].Span?
      ensures Says(js, y, r)
    {
      hide Walk, AllUnits, InMemory, TextFits, Offset, Input, Shows, Fits, ValidString;
      SlotBytes(js, capture, y, 0);
      var index := 1 + ToByte(js, capture[0]);
      var groups: seq<Option<(nat, nat)>> := [];
      var i := 0;
      while i < program.groups
        invariant 0 <= i <= program.groups && |groups| == i
        invariant forall g :: 0 <= g < i ==> GroupSays(js, y.caps[g], groups[g])
      {
        SlotBytes(js, capture, y, i);
        if capture[2 * i] == SnapshotMachine.NULL {
          groups := groups + [None];
        } else {
          groups := groups + [Some((ToByte(js, capture[2 * i]), ToByte(js, capture[2 * i + 1])))];
        }
        i := i + 1;
      }
      r := MatchResult(index, groups);
    }

    /** What the two slots of a group give in bytes. */
    lemma SlotBytes(js: JsString, capture: seq<int>, y: State, g: nat)
      requires Fits(js) && Shows(Setting(js), capture, y.caps, {}) && g < |y.caps| == program.groups && Bounded(y, Chars(js))
      ensures ValidString(js) && 2 * g + 1 < |capture|
      ensures y.caps[g].Unset? <==> capture[2 * g] == SnapshotMachine.NULL
      ensures y.caps[g].Span? ==>
                var (s, t) := (y.caps[g].s, y.caps[g].t);
                && s <= t <= Chars(js) && capture[2 * g] >= 0 && capture[2 * g + 1] >= 0
                && (js.wide ==> capture[2 * g] < |js.indices| && capture[2 * g + 1] < |js.indices|)
                && ToByte(js, capture[2 * g]) == BytePos(js, s) && ToByte(js, capture[2 * g + 1]) == BytePos(js, t)
    {
      hide Walk, AllUnits, InMemory, TextFits, Offset, Input, ValidString, UnitPos, BytePos;
      SettingIs(js);
      assert ShowsGroup(Setting(js), capture, y.caps, {}, g);
      if y.caps[g].Span? {
        assert SpanBounded(y.caps[g], Chars(js));
        StringPositions(js, y.caps[g].s);
        StringPositions(js, y.caps[g].t);
      }
    }

    lemma SameStart(js: JsString, e: nat, e0: nat)
      requires Fits(js) && e <= Chars(js) && e0 <= Chars(js)
      requires UnitPos(js, e0) <= |js.units| && Offset(Setting(js).subject, e) == Aligned(Setting(js).subject, UnitPos(js, e0))
      ensures e == e0
    {
      hide Walk, AllUnits, InMemory, TextFits, Aligned, Offset;
      SettingIs(js);
      var s := Setting(js).subject;
      assert UnitPos(js, e0) == Offset(s, e0);
      assert OnBoundary(s, UnitPos(js, e0));
      OffsetOrder(s, e, e0);
    }

    lemma AnswerBounds(js: JsString, e: nat)
      requires Fits(js) && e <= Chars(js) && Answer(js, e).Some?
      ensures var y := Answer(js, e).value;
              |y.caps| == program.groups > 0 && Bounded(y, Chars(js)) && y.caps[0].Span? && e <= y.caps[0].s
    {
      hide Expected, Walk, AllUnits, TextFits, Offset, Input, CodeGen.Valid, Simulation.Ready;
      SettingIs(js);
      ExpectedBounds(Setting(js).env, pattern, sticky, e);
    }

    lemma FitsString(js: JsString)
      requires Fits(js)
      ensures program.Compiled? && ValidString(js)
    {
    }

    // ----- all matches -----

    /** A match of no characters is stepped over. */
    ghost function NextStart(y: State): nat
      requires |y.caps| > 0 && y.caps[0].Span?
    {
      if y.caps[0].t == y.caps[0].s then y.caps[0].t + 1 else y.caps[0].t
    }

    /** Every match from character `e` on, each search starting where the last match ended. */
    ghost function AllFrom(js: JsString, e: nat): seq<State>
      requires Fits(js) && e <= Chars(js)
      decreases Chars(js) - e
    {
      match Answer(js, e)
      case None => []
      case Some(y) =>
        AnswerBounds(js, e);
        assert SpanBounded(y.caps[0], Chars(js));
        if NextStart(y) > Chars(js) then [y] else [y] + AllFrom(js, NextStart(y))
    }

    ghost predicate AllSay(js: JsString, ys: seq<State>, ms: seq<MatchResult>)
      requires ValidString(js)
    {
      |ms| == |ys| && forall k :: 0 <= k < |ys| ==> Says(js, ys[k], ms[k])
    }

    /** What is still to come from the current last index on. */
    ghost function Coming(js: JsString): seq<State>
      requires Fits(js)
      reads this
    {
      if lastIndex > |js.bytes| then [] else AllFrom(js, FirstFrom(js, lastIndex, 0))
    }

    /** One round of the loop: a match, and a step forward if it is empty. The last index strictly grows. */
    method Next(js: JsString) returns (r: Option<MatchResult>)
      requires Fits(js) && global
      modifies this
      ensures r.None? ==> old(Coming(js)) == [] && lastIndex == 0
      ensures r.Some? ==>
                && old(Coming(js)) != [] && Says(js, old(Coming(js))[0], r.value)
                && Coming(js) == old(Coming(js))[1..]
                && old(lastIndex) < lastIndex <= |js.bytes| + 1
    {
      hide Fits, AllFrom, Answer, ValidString, Walk, BytePos, UnitPos;
      FitsString(js);
      ghost var last := lastIndex;
      r := Exec(js);
      ghost var e := if last <= |js.bytes| then FirstFrom(js, last, 0) else 0;
      AllFromStep(js, e);
      if r.Some? {
        ghost var y := Answer(js, e).value;
        WholeMatch(js, e, last, r.value);
        var whole := r.value.groups[0];
        if whole.value.1 == whole.value.0 {
          lastIndex := lastIndex + 1;
        }
        ComesNext(js, y, e, last, lastIndex);
      }
    }

    lemma AllFromStep(js: JsString, e: nat)
      requires Fits(js) && e <= Chars(js)
      ensures Answer(js, e).None? ==> AllFrom(js, e) == []
      ensures Answer(js, e).Some? ==>
                var y := Answer(js, e).value;
                && |y.caps| > 0 && y.caps[0].Span? && e <= y.caps[0].s <= y.caps[0].t <= Chars(js)
                && AllFrom(js, e) == [y] + if NextStart(y) > Chars(js) then [] else AllFrom(js, NextStart(y))
    {
      hide Fits, Answer, ValidString;
      FitsString(js);
      if Answer(js, e).Some? {
        AnswerBounds(js, e);
        assert SpanBounded(Answer(js, e).value.caps[0], Chars(js));
      }
    }

    /** The whole match is empty in bytes just when it is in characters. */
    lemma WholeMatch(js: JsString, e: nat, last: nat, m: MatchResult)
      requires Fits(js) && last <= |js.bytes| && e == FirstFrom(js, last, 0) && Answer(js, e).Some? && Says(js, Answer(js, e).value, m)
      ensures var y := Answer(js, e).value;
              && |y.caps| > 0 && y.caps[0].Span? && e <= y.caps[0].s <= y.caps[0].t <= Chars(js)
              && |m.groups| > 0 && m.groups[0] == Some((BytePos(js, y.caps[0].s), BytePos(js, y.caps[0].t)))
              && (BytePos(js, y.caps[0].s) == BytePos(js, y.caps[0].t) <==> y.caps[0].s == y.caps[0].t)
              && last <= BytePos(js, y.caps[0].s) <= BytePos(js, y.caps[0].t) <= |js.bytes|
    {
      hide Fits, Answer, AllFrom, Walk, ValidString, BytePos, UnitPos;
      FitsString(js);
      AllFromStep(js, e);
      var y := Answer(js, e).value;
      assert GroupSays(js, y.caps[0], m.groups[0]);
      FirstFromMeans(js, last, 0);
      if y.caps[0].s < y.caps[0].t { PositionsIncrease(js, y.caps[0].s, y.caps[0].t); }
      if e < y.caps[0].s { PositionsIncrease(js, e, y.caps[0].s); }
      StringPositions(js, y.caps[0].t);
    }

    lemma ComesNext(js: JsString, y: State, e: nat, last: nat, next: nat)
      requires Fits(js) && |y.caps| > 0 && y.caps[0].Span? && e <= y.caps[0].s <= y.caps[0].t <= Chars(js)
      requires last <= BytePos(js, y.caps[0].s)
      requires next == BytePos(js, y.caps[0].t) + if y.caps[0].s == y.caps[0].t then 1 else 0
      ensures last < next <= |js.bytes| + 1
      ensures next > |js.bytes| <==> NextStart(y) > Chars(js)
      ensures next <= |js.bytes| ==> FirstFrom(js, next, 0) == NextStart(y)
    {
      hide Fits, Answer, AllFrom, Walk, ValidString, BytePos, UnitPos;
      FitsString(js);
      var (s, t) := (y.caps[0].s, y.caps[0].t);
      StringPositions(js, t);
      FirstFromStart(js, t);
      if s < t { PositionsIncrease(js, s, t); }
      if t < Chars(js) {
        PositionsIncrease(js, t, t + 1);
        StringPositions(js, t + 1);
      } else {
        LastPosition(js);
      }
    }

    /** The loop that `match`, `match_all` and `match_all_list` share; it stops because the last index grows. */
    method Collect(js: JsString) returns (matches: seq<MatchResult>)
      requires Fits(js) && global
      modifies this
      ensures AllSay(js, old(Coming(js)), matches) && lastIndex == 0
    {
      hide Fits, AllFrom, Answer, Says, Coming, ValidString;
      FitsString(js);
      ghost var all := Coming(js);
      matches := [];
      while true
        invariant |matches| <= |all| && Coming(js) == all[|matches|..]
        invariant forall k :: 0 <= k < |matches| ==> Says(js, all[k], matches[k])
        decreases |js.bytes| + 1 - lastIndex
      {
        var m := Next(js);
        if m.None? {
          break;
        }
        assert all[|matches|..][0] == all[|matches|];
        assert all[|matches|..][1..] == all[|matches| + 1..];
        matches := matches + [m.value];
      }
    }

    /**
      One match, or for a global expression the texts of all matches from the beginning of
      the string, and nothing when there is none.
     */
    method Match(js: JsString) returns (r: Matched)
      requires Fits(js)
      modifies this
      ensures !global ==> !r.Texts? && Executed(js, old(lastIndex), if r.One? then Some(r.match_) else None, lastIndex)
      ensures global ==> lastIndex == 0 && r == (if AllFrom(js, 0) == [] then Nothing else Texts(TextsOf(js, AllFrom(js, 0))))
    {
      hide Fits, AllFrom, Answer, Says, ValidString, BytePos, Executed;
      FitsString(js);
      if !global {
        var m := Exec(js);
        return if m.Some? then One(m.value) else Nothing;
      }
      lastIndex := 0;
      FirstFromStart(js, 0);
      FirstPosition(js);
      var matches := Collect(js);
      var texts: seq<seq<byte>> := [];
      var i := 0;
      while i < |matches|
        invariant 0 <= i <= |matches| && lastIndex == 0 && texts == TextsOf(js, AllFrom(js, 0))[..i]
      {
        TextSaid(js, AllFrom(js, 0)[i], matches[i]);
        var (a, b) := matches[i].groups[0].value;
        texts := texts + [js.bytes[a..b]];
        i := i + 1;
      }
      assert texts == TextsOf(js, AllFrom(js, 0));
      r := if |texts| == 0 then Nothing else Texts(texts);
    }

    /** All matches from the last index on, found with a copy; None for an expression that is not global. */
    method MatchAllList(js: JsString) returns (matches: Option<seq<MatchResult>>)
      requires Fits(js)
      ensures matches.None? <==> !global
      ensures global ==> AllSay(js, Coming(js), matches.value)
    {
      hide Fits, Answer, AllFrom, ValidString, Coming;
      if !global {
        return None;
      }
      var copy := new RegExp(program, fold, space, global, sticky, unicode, pattern);
      copy.lastIndex := lastIndex;
      SameComing(copy, js);
      var all := copy.Collect(js);
      matches := Some(all);
    }

    /** A copy has the same matches to come. */
    lemma SameComing(copy: RegExp, js: JsString)
      requires Fits(js) && copy.program == program && copy.fold == fold && copy.space == space && copy.pattern == pattern
      requires copy.global == global && copy.sticky == sticky && copy.unicode == unicode && copy.lastIndex == lastIndex
      ensures copy.Fits(js) && copy.Coming(js) == Coming(js)
    {
      hide AllFrom, ValidString, InMemory, TextFits;
      assert copy.Fits(js);
      if lastIndex <= |js.bytes| { SameMatches(copy, js, FirstFrom(js, lastIndex, 0)); }
    }

    lemma {:induction false} SameMatches(copy: RegExp, js: JsString, e: nat)
      requires Fits(js) && copy.Fits(js) && e <= Chars(js)
      requires copy.program == program && copy.fold == fold && copy.space == space && copy.pattern == pattern
      requires copy.sticky == sticky && copy.unicode == unicode
      ensures copy.AllFrom(js, e) == AllFrom(js, e)
      decreases Chars(js) - e
    {
      hide Fits, ValidString, Expected;
      FitsString(js);
      AllFromStep(js, e);
      copy.AllFromStep(js, e);
      SameAnswer(copy, js, e);
      if Answer(js, e).Some? {
        var y := Answer(js, e).value;
        if NextStart(y) <= Chars(js) { SameMatches(copy, js, NextStart(y)); }
      }
    }

    lemma SameAnswer(copy: RegExp, js: JsString, e: nat)
      requires Fits(js) && copy.Fits(js) && e <= Chars(js)
      requires copy.program == program && copy.fold == fold && copy.space == space && copy.pattern == pattern
      requires copy.sticky == sticky && copy.unicode == unicode
      ensures copy.Answer(js, e) == Answer(js, e)
    {
      hide ValidString, InMemory, TextFits, Expected;
    }
  }

  // ----- texts of matches -----

  /** What `match` returns. */
  datatype Matched = Nothing | One(match_: MatchResult) | Texts(texts: seq<seq<byte>>)

  /** The bytes of the characters from s to t. */
  ghost function TextOf(js: JsString, c: Capture): seq<byte>
    requires ValidString(js)
  {
    if c.Span? && c.s <= c.t <= Chars(js) then
      PositionsInOrder(js, c.s, c.t);
      js.bytes[BytePos(js, c.s)..BytePos(js, c.t)]
    else []
  }

  ghost function TextsOf(js: JsString, ys: seq<State>): (r: seq<seq<byte>>)
    requires ValidString(js)
    ensures |r| == |ys|
  {
    seq(|ys|, k requires 0 <= k < |ys| => if |ys[k].caps| > 0 then TextOf(js, ys[k].caps[0]) else [])
  }

  lemma PositionsInOrder(js: JsString, s: nat, t: nat)
    requires ValidString(js) && s <= t <= Chars(js)
    ensures BytePos(js, s) <= BytePos(js, t) <= |js.bytes|
  {
    hide ValidString, BytePos, UnitPos;
    if s < t { PositionsIncrease(js, s, t); }
    StringPositions(js, t);
  }

  /** The bounds of the whole match cut out its text. */
  lemma TextSaid(js: JsString, y: State, m: MatchResult)
    requires ValidString(js) && Says(js, y, m)
    ensures |y.caps| > 0 && |m.groups| > 0 && m.groups[0].Some?
    ensures var (a, b) := m.groups[0].value; a <= b <= |js.bytes| && js.bytes[a..b] == TextOf(js, y.caps[0])
  {
    hide ValidString, BytePos;
    assert GroupSays(js, y.caps[0], m.groups[0]);
    PositionsInOrder(js, y.caps[0].s, y.caps[0].t);
  }

  lemma LastPosition(js: JsString)
    requires ValidString(js)
    ensures BytePos(js, Chars(js)) == |js.bytes|
  {
  }

  predicate SpanBounded(c: Capture, n: nat) {
    c.Span? ==> c.s <= c.t <= n
  }

  ghost predicate Bounded(y: State, n: nat) {
    forall g :: 0 <= g < |y.caps| ==> SpanBounded(y.caps[g], n)
  }

  /** A result has its whole match in group 0, at or after the start. */
  lemma ExpectedBounds(env: Env, n: Node, sticky: bool, e: nat)
    requires e <= |env.input| && Expected(env, n, sticky, e).Some?
    ensures var y := Expected(env, n, sticky, e).value;
            |y.caps| == 1 + Groups(n) && Bounded(y, |env.input|) && y.caps[0].Span? && e <= y.caps[0].s
  {
    hide MatchesAt;
    if sticky {
      MatchBounds(env, n, e);
    } else {
      SearchMeans(env, n, e);
      var s :| e <= s <= |env.input| && MatchesAt(env, n, s) != [] && Search(env, n, e).value == MatchesAt(env, n, s)[0];
      MatchBounds(env, n, s);
    }
  }

  lemma MatchBounds(env: Env, n: Node, e: nat)
    requires e <= |env.input| && MatchesAt(env, n, e) != []
    ensures var y := MatchesAt(env, n, e)[0];
            |y.caps| == 1 + Groups(n) && Bounded(y, |env.input|) && y.caps[0].Span? && y.caps[0].s == e
  {
    hide Results, AllAfter, After, Sound, Close, CloseOne, MatchesAt, Bounded, Groups, NoCaptures;
    var x, ys := MatchParts(env, n, e);
    AfterBounds(env, x, MatchesAt(env, n, e), 0, Groups(Group(n)));
    ClosedFirst(ys, e);
    GroupCount(n);
  }

  lemma GroupCount(n: Node)
    ensures Groups(Group(n)) == 1 + Groups(n)
  {
  }

  lemma MatchParts(env: Env, n: Node, e: nat) returns (x: State, ys: seq<State>)
    requires e <= |env.input|
    ensures |x.caps| == Groups(Group(n)) && forall y :: y in ys ==> 0 < |y.caps|
    ensures MatchesAt(env, n, e) == Close(ys, 0, e, false)
    ensures AllAfter(env, x, MatchesAt(env, n, e), 0, Groups(Group(n)), false)
  {
    hide Results, AllAfter, After, Sound, Close, CloseOne, NoCaptures;
    NoCapturesSound(env, Groups(Group(n)), e);
    x := State(e, NoCaptures(Groups(Group(n))));
    ys := Results(env, n, 1, false, x);
    ResultsGroup(env, n, 0, false, x);
  }

  lemma AfterBounds(env: Env, x: State, zs: seq<State>, lo: nat, hi: nat)
    requires AllAfter(env, x, zs, lo, hi, false) && zs != []
    ensures |zs[0].caps| == |x.caps| && Bounded(zs[0], |env.input|)
  {
    assert zs[0] in zs;
    assert After(env, x, zs[0], lo, hi, false);
    forall g | 0 <= g < |zs[0].caps| ensures SpanBounded(zs[0].caps[g], |env.input|) {}
  }

  lemma ClosedFirst(ys: seq<State>, e: nat)
    requires (forall y :: y in ys ==> 0 < |y.caps|) && Close(ys, 0, e, false) != []
    ensures var z := Close(ys, 0, e, false)[0]; |z.caps| > 0 && z.caps[0].Span? && z.caps[0].s == e
  {
    assert ys[0] in ys;
  }

  // ----- walking to the next code point start -----

  lemma NotAStart(js: JsString, r: nat, k: nat)
    requires ValidString(js) && js.wide && k <= Chars(js) && 0 < r <= BytePos(js, k) <= |js.bytes| && r < |js.bytes|
    requires r < |js.revIndices| && js.revIndices[r] == 0
    ensures r < BytePos(js, k)
  {
    hide Walk, AllUnits, ValidString;
    StringPositions(js, k);
    StringPositions(js, 0);
    FirstPosition(js);
    if k > 0 { PositionsIncrease(js, 0, k); }
  }

  lemma FirstPosition(js: JsString)
    requires ValidString(js)
    ensures BytePos(js, 0) == 0
  {
    hide Walk;
    WalkContiguous(js.bytes, 0);
  }

  lemma Reached(js: JsString, r: nat, k: nat, b: nat)
    requires ValidString(js) && js.wide && k == FirstFrom(js, b, 0) && 0 < b <= r <= BytePos(js, k) <= |js.bytes|
    requires r < |js.bytes| ==> r < |js.revIndices| && js.revIndices[r] != 0
    ensures r == BytePos(js, k)
  {
    hide Walk, AllUnits;
    var ps := Walk(js.bytes, 0).value;
    FirstFromMeans(js, b, 0);
    if r < |js.bytes| {
      assert IsStart(ps, r);
      var i :| 0 <= i < |ps| && ps[i].at == r;
      assert BytePos(js, i) == r;
      if k < i { PositionsIncrease(js, k, i); }
    }
  }

  lemma NarrowStart(js: JsString, k: nat, b: nat)
    requires ValidString(js) && !js.wide && k == FirstFrom(js, b, 0) && b <= |js.bytes|
    ensures UnitPos(js, k) == b
  {
    hide Walk, AllUnits;
    FirstFromMeans(js, b, 0);
    StringPositions(js, k);
    if k > 0 { StringPositions(js, k - 1); }
  }
}
