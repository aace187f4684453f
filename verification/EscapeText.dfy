/**
  Escaping a string so that it can be used as a pattern, and how the parser reads the
  terms of a pattern that are plain characters (not in unicode mode).
 */
module EscapeText {
  import opened Bytes
  import opened Bytecode
  import opened CodeGen
  import opened Emitter
  import opened IndexMaps
  import ClassStrings

  // ----- escaping -----

  predicate Digit(c: nat) {
    0x30 <= c <= 0x39
  }

  predicate Letter(c: nat) {
    0x41 <= c <= 0x5A || 0x61 <= c <= 0x7A
  }

  /** Lower-case hexadecimal. */
  function HexDigit(v: nat): (c: byte)
    requires v < 16
  {
    if v < 10 then 0x30 + v else 0x61 + (v - 10)
  }

  const BACKSLASH: byte := 0x5C

  function Hex2(c: byte): seq<byte> {
    [BACKSLASH, 0x78, HexDigit(c / 16), HexDigit(c % 16)]
  }

  /** Punctuation that is written in hexadecimal: , - = < > # & ! % : ; @ ~ ' ` " */
  const HEX_PUNCTUATION: seq<byte> :=
    [0x2C, 0x2D, 0x3D, 0x3C, 0x3E, 0x23, 0x26, 0x21, 0x25, 0x3A, 0x3B, 0x40, 0x7E, 0x27, 0x60, 0x22]

  /** The letters t, n, v, f, r. */
  const CONTROLS: seq<byte> := [0x74, 0x6E, 0x76, 0x66, 0x72]

  /** How one byte is escaped; letters and digits only need it at the start. */
  function EscapeOne(c: byte, first: bool): (e: seq<byte>)
    ensures |e| >= 1
  {
    if c < 33 then
      if 9 <= c <= 13 then [BACKSLASH, CONTROLS[c - 9]] else Hex2(c)
    else if c < 128 then
      if Digit(c) || Letter(c) then if first then Hex2(c) else [c]
      else if c in HEX_PUNCTUATION then Hex2(c)
      else if c != 0x5F then [BACKSLASH, c]
      else [c]
    else Hex2(c)
  }

  /** The bytes from `i` on, escaped. */
  function EscapeFrom(str: seq<byte>, i: nat): seq<byte>
    requires i <= |str|
    decreases |str| - i
  {
    if i == |str| then [] else EscapeOne(str[i], i == 0) + EscapeFrom(str, i + 1)
  }

  /** The bytes of a text of ASCII characters. */
  ghost function Text(s: string): (bs: seq<byte>)
    ensures |bs| == |s|
  {
    seq(|s|, i requires 0 <= i < |s| => (s[i] as int) % 0x100)
  }

  /** `\x` and two digits. */
  ghost function InHex(c: byte): seq<byte> {
    Text("\\x") + Text(['0', '1', '2', '3', '4', '5', '6', '7', '8', '9', 'a', 'b', 'c', 'd', 'e', 'f'][c / 16..c / 16 + 1])
                 + Text(['0', '1', '2', '3', '4', '5', '6', '7', '8', '9', 'a', 'b', 'c', 'd', 'e', 'f'][c % 16..c % 16 + 1])
  }

  /** The spelling of every byte; `first` tells whether it leads the string. */
  ghost predicate Spelled(c: byte, first: bool, e: seq<byte>) {
    var letterOrDigit := 'A' as int <= c <= 'Z' as int || 'a' as int <= c <= 'z' as int || '0' as int <= c <= '9' as int;
    && (letterOrDigit && first ==> e == InHex(c))
    && (letterOrDigit && !first ==> e == [c])
    && (c == '_' as int ==> e == [c])
    && (c == 9 ==> e == Text("\\t"))
    && (c == 10 ==> e == Text("\\n"))
    && (c == 11 ==> e == Text("\\v"))
    && (c == 12 ==> e == Text("\\f"))
    && (c == 13 ==> e == Text("\\r"))
    && (c <= 8 || 14 <= c <= 32 || 128 <= c ==> e == InHex(c))
    && (c in Text(",-=<>#&!%:;@~'`\"") ==> e == InHex(c))
    && (c in Text("$()*+./?[\\]^{|}") || c == 127 ==> e == Text("\\") + [c])
  }

  /** Nothing is left open: every byte has one spelling. */
  lemma SpelledOnce(c: byte, first: bool, e: seq<byte>, e': seq<byte>)
    requires Spelled(c, first, e) && Spelled(c, first, e')
    ensures e == e'
  {
    hide InHex;
    ListedBytes();
  }

  lemma ListedBytes()
    ensures Text(",-=<>#&!%:;@~'`\"") == [0x2C, 0x2D, 0x3D, 0x3C, 0x3E, 0x23, 0x26, 0x21, 0x25, 0x3A, 0x3B, 0x40, 0x7E, 0x27, 0x60, 0x22]
    ensures Text("$()*+./?[\\]^{|}") == [0x24, 0x28, 0x29, 0x2A, 0x2B, 0x2E, 0x2F, 0x3F, 0x5B, 0x5C, 0x5D, 0x5E, 0x7B, 0x7C, 0x7D]
    ensures Text("\\") == [0x5C]
  {
  }

  lemma EscapeSpelled(c: byte, first: bool)
    ensures Spelled(c, first, EscapeOne(c, first))
  {
    hide Hex2, InHex;
    ListedBytes();
    HexSpelled(c);
  }

  lemma HexSpelled(c: byte)
    ensures Hex2(c) == InHex(c)
  {
    var digits := ['0', '1', '2', '3', '4', '5', '6', '7', '8', '9', 'a', 'b', 'c', 'd', 'e', 'f'];
    forall v | 0 <= v < 16 ensures Text(digits[v..v + 1]) == [HexDigit(v)] { }
    assert Text("\\x") == [0x5C, 0x78];
  }

  function Joined(parts: seq<seq<byte>>): seq<byte> {
    if parts == [] then [] else parts[0] + Joined(parts[1..])
  }

  /** Each byte in its spelling, one after the other. */
  ghost predicate SpelledOut(str: seq<byte>, buffer: seq<byte>) {
    exists parts: seq<seq<byte>> ::
      |parts| == |str| && buffer == Joined(parts) && forall i :: 0 <= i < |str| ==> Spelled(str[i], i == 0, parts[i])
  }

  lemma EscapeSpelledOut(str: seq<byte>)
    ensures SpelledOut(str, EscapeFrom(str, 0))
  {
    hide Spelled, EscapeOne;
    var parts := seq(|str|, i requires 0 <= i < |str| => EscapeOne(str[i], i == 0));
    forall i | 0 <= i < |str| ensures Spelled(str[i], i == 0, parts[i]) { EscapeSpelled(str[i], i == 0); }
    PartsJoined(str, parts, 0);
    assert parts[0..] == parts;
  }

  lemma {:induction false} PartsJoined(str: seq<byte>, parts: seq<seq<byte>>, i: nat)
    requires |parts| == |str| && i <= |str| && forall k :: 0 <= k < |str| ==> parts[k] == EscapeOne(str[k], k == 0)
    ensures Joined(parts[i..]) == EscapeFrom(str, i)
    decreases |str| - i
  {
    hide EscapeOne;
    if i < |str| {
      PartsJoined(str, parts, i + 1);
      assert parts[i..][0] == parts[i] && parts[i..][1..] == parts[i + 1..];
    }
  }

  method Escape(str: seq<byte>) returns (buffer: seq<byte>)
    ensures buffer == EscapeFrom(str, 0)
    ensures SpelledOut(str, buffer)
  {
    hide EscapeOne, SpelledOut;
    EscapeSpelledOut(str);
    buffer := [];
    var i := 0;
    while i < |str|
      invariant 0 <= i <= |str| && EscapeFrom(str, 0) == buffer + EscapeFrom(str, i)
    {
      var c := str[i];
      ghost var before := buffer;
      var e := EscapeByte(c, i);
      buffer := buffer + e;
      i := i + 1;
    }
  }

  method EscapeByte(c: byte, i: nat) returns (e: seq<byte>)
    ensures e == EscapeOne(c, i == 0)
  {
    var hex, plain := false, false;
    e := [];
    if c < 33 {
      if c >= 9 && c <= 13 {
        e := [BACKSLASH, CONTROLS[c - 9]];
      } else {
        hex := true;
      }
    } else if c < 128 {
      if Digit(c) || Letter(c) {
        hex := i == 0;
      } else if c in HEX_PUNCTUATION {
        hex := true;
      } else if c != 0x5F {
        e := [BACKSLASH];
      }
      plain := !hex;
    } else {
      hex := true;
    }
    if hex {
      e := Hex2(c);
    } else if plain {
      e := e + [c];
    }
  }

  // ----- reading escapes -----

  function FromHex(c: byte): Option<nat> {
    if 0x30 <= c <= 0x39 then Some(c - 0x30)
    else if 0x41 <= c <= 0x46 then Some(c - 0x41 + 10)
    else if 0x61 <= c <= 0x66 then Some(c - 0x61 + 10)
    else None
  }

  /** `n` hexadecimal digits from `pos` on. */
  function HexValue(p: seq<byte>, pos: nat, n: nat, v: nat): Option<nat>
    decreases n
  {
    if n == 0 then Some(v)
    else
      match FromHex(ByteAt(p, pos))
      case None => None
      case Some(h) => HexValue(p, pos + 1, n - 1, v * 16 + h)
  }

  /** A character, and where the text goes on. */
  datatype Read = Read(c: nat, next: nat)

  predicate OctalDigit(c: byte) {
    0x30 <= c <= 0x37
  }

  /** The escape sequence whose letter stands at `pos`; None for anything that is none. */
  function ParseEscape(p: seq<byte>, pos: nat): Option<Read> {
    var c := ByteAt(p, pos);
    if c == 0x62 then Some(Read(8, pos + 1))
    else if c == 0x66 then Some(Read(12, pos + 1))
    else if c == 0x6E then Some(Read(10, pos + 1))
    else if c == 0x72 then Some(Read(13, pos + 1))
    else if c == 0x74 then Some(Read(9, pos + 1))
    else if c == 0x76 then Some(Read(11, pos + 1))
    else if c == 0x78 then ReadHex(p, pos, 2)
    else if c == 0x75 then ReadHex(p, pos, 4)
    else if OctalDigit(c) then Some(ReadOctal(p, pos))
    else None
  }

  function ReadHex(p: seq<byte>, pos: nat, n: nat): Option<Read> {
    match HexValue(p, pos + 1, n, 0)
    case None => None
    case Some(v) => Some(Read(v, pos + 1 + n))
  }

  /** Up to three octal digits, the third only while the value stays in a byte. */
  function ReadOctal(p: seq<byte>, pos: nat): Read
    requires OctalDigit(ByteAt(p, pos))
  {
    var c: nat, d, e := ByteAt(p, pos) - 0x30, ByteAt(p, pos + 1), ByteAt(p, pos + 2);
    if !OctalDigit(d) then Read(c, pos + 1)
    else
      var c2 := c * 8 + (d - 0x30);
      if c2 >= 32 || !OctalDigit(e) then Read(c2, pos + 2) else Read(c2 * 8 + (e - 0x30), pos + 3)
  }

  // ----- reading terms -----

  /** A term is one plain character, or something else: an assertion, a group, a class, a quantified term, or an error. */
  datatype Term = OneChar(c: nat, next: nat) | Other

  /** Letters that name a class, and characters that may always be escaped. */
  const CLASS_LETTERS: seq<byte> := [0x64, 0x44, 0x73, 0x53, 0x77, 0x57]
  const ALWAYS_ESCAPABLE: seq<byte> :=
    [0x2D, 0x5E, 0x24, 0x5C, 0x2E, 0x2A, 0x2B, 0x3F, 0x28, 0x29, 0x5B, 0x5D, 0x7B, 0x7D, 0x7C, 0x2F]

  function NormalChar(p: seq<byte>, pos: nat): Term
    requires pos < |p|
  {
    if p[pos] < 0x80 then OneChar(p[pos], pos + 1)
    else
      match DecodeAt(p, pos)
      case None => Other
      case Some(d) => if d.c > 0xFFFF then Other else OneChar(d.c, d.next)
  }

  /** What follows a backslash at `pos - 1`. An unknown escape is the character itself. */
  function EscapedAtom(p: seq<byte>, pos: nat): Term {
    if pos >= |p| then Other
    else
      var c := p[pos];
      if c in CLASS_LETTERS then Other
      else if c == 0x63 then
        if Letter(ByteAt(p, pos + 1)) then OneChar(ByteAt(p, pos + 1) % 0x20, pos + 2) else OneChar(BACKSLASH, pos)
      else if c in ALWAYS_ESCAPABLE then OneChar(c, pos + 1)
      else
        match ParseEscape(p, pos)
        case Some(r) => OneChar(r.c, r.next)
        case None => NormalChar(p, pos)
  }

  function ClassAtom(p: seq<byte>, pos: nat): Term
    requires pos < |p|
  {
    if p[pos] == BACKSLASH then EscapedAtom(p, pos + 1) else NormalChar(p, pos)
  }

  /** ^ $ . * + ? ( [ | ) */
  const SYNTAX: seq<byte> := [0x5E, 0x24, 0x2E, 0x2A, 0x2B, 0x3F, 0x28, 0x5B, 0x7C, 0x29]

  /** Escapes that are not characters: \b \B \k and back references. */
  predicate SpecialEscape(c: byte) {
    c == 0x62 || c == 0x42 || c == 0x6B || Digit(c)
  }

  predicate QuantifierAt(p: seq<byte>, pos: nat) {
    var c := ByteAt(p, pos);
    c == 0x2A || c == 0x2B || c == 0x3F || (c == 0x7B && Digit(ByteAt(p, pos + 1)))
  }

  function TermAt(p: seq<byte>, pos: nat): Term
    requires pos < |p|
  {
    var c := p[pos];
    if c in SYNTAX || (c == 0x7B && Digit(ByteAt(p, pos + 1))) then Other
    else if c == BACKSLASH && SpecialEscape(ByteAt(p, pos + 1)) then Other
    else
      var a := ClassAtom(p, pos);
      if a.OneChar? && QuantifierAt(p, a.next) then Other else a
  }

  lemma {:induction false} HexInside(p: seq<byte>, pos: nat, n: nat, v: nat)
    requires pos <= |p| && HexValue(p, pos, n, v).Some?
    ensures pos + n <= |p|
    decreases n
  {
    if n > 0 { HexInside(p, pos + 1, n - 1, v * 16 + FromHex(ByteAt(p, pos)).value); }
  }

  /** A term ends behind its start, and inside the text. */
  lemma TermInside(p: seq<byte>, pos: nat)
    requires pos < |p| && TermAt(p, pos).OneChar?
    ensures pos < TermAt(p, pos).next <= |p|
  {
    hide DecodeAt, HexValue;
    if p[pos] == BACKSLASH {
      EscapeInside(p, pos + 1);
    } else if p[pos] >= 0x80 {
      DecodeInside(p, pos);
    }
  }

  lemma EscapeInside(p: seq<byte>, pos: nat)
    requires EscapedAtom(p, pos).OneChar?
    ensures pos <= EscapedAtom(p, pos).next <= |p|
  {
    hide DecodeAt, HexValue;
    var c := ByteAt(p, pos);
    if c == 0x78 && HexValue(p, pos + 1, 2, 0).Some? { HexInside(p, pos + 1, 2, 0); }
    if c == 0x75 && HexValue(p, pos + 1, 4, 0).Some? { HexInside(p, pos + 1, 4, 0); }
    if c >= 0x80 { DecodeInside(p, pos); }
  }

  /** The characters of a text all of whose terms are plain characters. */
  function Plain(p: seq<byte>, pos: nat): Option<seq<nat>>
    requires pos <= |p|
    decreases |p| - pos
  {
    if pos == |p| then Some([])
    else
      match TermAt(p, pos)
      case Other => None
      case OneChar(c, next) =>
        TermInside(p, pos);
        Prefixed([c], Plain(p, next))
  }

  function Prefixed(text: seq<nat>, rest: Option<seq<nat>>): Option<seq<nat>> {
    match rest
    case None => None
    case Some(r) => Some(text + r)
  }

  lemma PrefixedMore(text: seq<nat>, c: nat, rest: Option<seq<nat>>)
    ensures Prefixed(text, Prefixed([c], rest)) == Prefixed(text + [c], rest)
    ensures Prefixed([], rest) == rest
  {
    if rest.Some? {
      assert text + ([c] + rest.value) == text + [c] + rest.value;
      assert [] + rest.value == rest.value;
    }
  }

  /**
    The loop over the terms of an alternative, as long as they are plain characters (case
    sensitive, going forward). `ok` tells whether the whole text was read in this way.
   */
  method ParsePlain(s: Compiler, p: seq<byte>) returns (ok: bool, ghost text: seq<nat>)
    modifies s`byteCode
    ensures ok <==> Plain(p, 0).Some?
    ensures ok ==> Plain(p, 0) == Some(text) && s.byteCode == old(s.byteCode) + ClassStrings.TextCode(text, false)
  {
    hide TermAt, Encode;
    text := [];
    var pos := 0;
    PrefixedMore([], 0, Plain(p, 0));
    while pos < |p|
      invariant 0 <= pos <= |p| && Plain(p, 0) == Prefixed(text, Plain(p, pos))
      invariant s.byteCode == old(s.byteCode) + ClassStrings.TextCode(text, false)
      decreases |p| - pos
    {
      var t := TermAt(p, pos);
      if t.Other? {
        return false, text;
      }
      TermInside(p, pos);
      s.EmitChar(t.c, false);
      assert (text + [t.c])[..|text|] == text;
      PrefixedMore(text, t.c, Plain(p, t.next));
      text := text + [t.c];
      pos := t.next;
    }
    ok := true;
    assert text + [] == text;
  }

  // ----- the round trip -----

  lemma HexBack(v: nat)
    requires v < 16
    ensures FromHex(HexDigit(v)) == Some(v)
  {
  }

  /** What is found at `pos` when `e` stands there. */
  ghost predicate Standing(p: seq<byte>, pos: nat, e: seq<byte>) {
    forall k :: 0 <= k < |e| ==> ByteAt(p, pos + k) == e[k]
  }

  lemma HexTerm(p: seq<byte>, pos: nat, c: byte)
    requires pos + 4 <= |p| && Standing(p, pos, Hex2(c)) && !QuantifierAt(p, pos + 4)
    ensures TermAt(p, pos) == OneChar(c, pos + 4)
  {
    hide HexDigit, FromHex;
    HexBack(c / 16);
    HexBack(c % 16);
    var e := Hex2(c);
    assert ByteAt(p, pos + 0) == e[0] && ByteAt(p, pos + 1) == e[1] && ByteAt(p, pos + 2) == e[2] && ByteAt(p, pos + 3) == e[3];
    assert HexValue(p, pos + 4, 0, c / 16 * 16 + c % 16) == Some(c as nat);
    assert HexValue(p, pos + 3, 1, c / 16) == Some(c as nat);
    assert HexValue(p, pos + 2, 2, 0) == Some(c as nat);
  }

  // ----- what is no plain character -----

  /** A syntax character, the name of a class, of a boundary or of a reference, and anything quantified. */
  lemma NotPlain(p: seq<byte>, pos: nat)
    requires pos < |p|
    ensures p[pos] in Text("^$.*+?([|)") ==> TermAt(p, pos) == Other
    ensures p[pos] == '{' as int && '0' as int <= ByteAt(p, pos + 1) <= '9' as int ==> TermAt(p, pos) == Other
    ensures p[pos] == '\\' as int && pos + 1 < |p| && p[pos + 1] in Text("dDsSwWbBk0123456789") ==> TermAt(p, pos) == Other
    ensures p[pos] == '\\' as int && pos + 1 == |p| ==> TermAt(p, pos) == Other
    ensures TermAt(p, pos).OneChar? ==> ByteAt(p, TermAt(p, pos).next) !in Text("*+?")
  {
    SyntaxBytes();
  }

  lemma SyntaxBytes()
    ensures Text("^$.*+?([|)") == SYNTAX && Text("*+?") == [0x2A, 0x2B, 0x3F]
    ensures Text("dDsSwWbBk0123456789") ==
            CLASS_LETTERS + [0x62, 0x42, 0x6B] + [0x30, 0x31, 0x32, 0x33, 0x34, 0x35, 0x36, 0x37, 0x38, 0x39]
  {
  }

  // ----- escapes that `Escape` does not write -----

  /** A hexadecimal digit in either case. */
  function HexChar(v: nat, upper: bool): (c: byte)
    requires v < 16
  {
    if v < 10 then 0x30 + v else (if upper then 0x41 else 0x61) + (v - 10)
  }

  lemma HexCharRead(v: nat, upper: bool)
    requires v < 16
    ensures FromHex(HexChar(v, upper)) == Some(v)
  {
  }

  /** One more digit in front. */
  lemma HexStep(p: seq<byte>, pos: nat, n: nat, v: nat, h: nat, upper: bool)
    requires h < 16 && ByteAt(p, pos) == HexChar(h, upper)
    ensures HexValue(p, pos, n + 1, v) == HexValue(p, pos + 1, n, v * 16 + h)
  {
    hide HexChar, FromHex;
    HexCharRead(h, upper);
  }

  /** `\xhh`, with digits in either case. */
  lemma ByteEscapeTerm(p: seq<byte>, pos: nat, v: nat, up: seq<bool>)
    requires v < 0x100 && |up| == 2 && pos + 4 <= |p| && !QuantifierAt(p, pos + 4)
    requires Standing(p, pos, [BACKSLASH, 0x78, HexChar(v / 16, up[0]), HexChar(v % 16, up[1])])
    ensures TermAt(p, pos) == OneChar(v, pos + 4)
  {
    hide HexChar, HexValue, FromHex, QuantifierAt;
    var e := [BACKSLASH, 0x78, HexChar(v / 16, up[0]), HexChar(v % 16, up[1])];
    assert ByteAt(p, pos + 0) == e[0] && ByteAt(p, pos + 1) == e[1] && ByteAt(p, pos + 2) == e[2] && ByteAt(p, pos + 3) == e[3];
    HexStep(p, pos + 2, 1, 0, v / 16, up[0]);
    HexStep(p, pos + 3, 0, v / 16, v % 16, up[1]);
    HexDone(p, pos + 4, v / 16 * 16 + v % 16);
    assert HexValue(p, pos + 2, 2, 0) == Some(v);
  }

  lemma HexDone(p: seq<byte>, pos: nat, v: nat)
    ensures HexValue(p, pos, 0, v) == Some(v)
  {
  }

  /** `\uhhhh`, with digits in either case. */
  lemma UnicodeEscapeTerm(p: seq<byte>, pos: nat, v: nat, up: seq<bool>)
    requires v < 0x1_0000 && |up| == 4 && pos + 6 <= |p| && !QuantifierAt(p, pos + 6)
    requires Standing(p, pos, [BACKSLASH, 0x75, HexChar(v / 0x1000, up[0]), HexChar(v / 0x100 % 16, up[1]),
                               HexChar(v / 0x10 % 16, up[2]), HexChar(v % 16, up[3])])
    ensures TermAt(p, pos) == OneChar(v, pos + 6)
  {
    hide HexChar, HexValue, FromHex, QuantifierAt;
    var a, b, c, d := v / 0x1000, v / 0x100 % 16, v / 0x10 % 16, v % 16;
    var e := [BACKSLASH, 0x75, HexChar(a, up[0]), HexChar(b, up[1]), HexChar(c, up[2]), HexChar(d, up[3])];
    assert ByteAt(p, pos + 0) == e[0] && ByteAt(p, pos + 1) == e[1] && ByteAt(p, pos + 2) == e[2] && ByteAt(p, pos + 3) == e[3]
           && ByteAt(p, pos + 4) == e[4] && ByteAt(p, pos + 5) == e[5];
    HexStep(p, pos + 2, 3, 0, a, up[0]);
    HexStep(p, pos + 3, 2, a, b, up[1]);
    HexStep(p, pos + 4, 1, a * 16 + b, c, up[2]);
    HexStep(p, pos + 5, 0, (a * 16 + b) * 16 + c, d, up[3]);
    HexDone(p, pos + 6, ((a * 16 + b) * 16 + c) * 16 + d);
    FourDigits(v);
    assert HexValue(p, pos + 2, 4, 0) == Some(v);
  }

  lemma FourDigits(v: nat)
    ensures ((v / 0x1000 * 16 + v / 0x100 % 16) * 16 + v / 0x10 % 16) * 16 + v % 16 == v
  {
    assert v / 0x10 / 0x10 == v / 0x100 && v / 0x100 / 0x10 == v / 0x1000;
  }

  /** `\c` and letter number `k` of the alphabet, in either case, is control character `k`, counted from 1. */
  lemma ControlLetterTerm(p: seq<byte>, pos: nat, k: nat, upper: bool)
    requires 1 <= k <= 26 && pos + 3 <= |p| && !QuantifierAt(p, pos + 3)
    requires Standing(p, pos, [BACKSLASH, 0x63, (if upper then 0x40 else 0x60) + k])
    ensures TermAt(p, pos) == OneChar(k, pos + 3)
  {
    hide HexValue, QuantifierAt;
    var e: seq<byte> := [BACKSLASH, 0x63, (if upper then 0x40 else 0x60) + k];
    assert ByteAt(p, pos + 0) == e[0] && ByteAt(p, pos + 1) == e[1] && ByteAt(p, pos + 2) == e[2];
  }

  lemma EscapedTerm(p: seq<byte>, pos: nat, c: byte)
    requires pos + 2 <= |p| && Standing(p, pos, [BACKSLASH, c]) && !QuantifierAt(p, pos + 2)
    requires 33 <= c < 128 && !Digit(c) && !Letter(c) && c !in HEX_PUNCTUATION && c != 0x5F
    ensures TermAt(p, pos) == OneChar(c, pos + 2)
  {
    hide HexValue;
    var e := [BACKSLASH, c];
    assert ByteAt(p, pos + 0) == e[0] && ByteAt(p, pos + 1) == e[1];
  }

  lemma ControlTerm(p: seq<byte>, pos: nat, c: byte)
    requires pos + 2 <= |p| && 9 <= c <= 13 && Standing(p, pos, [BACKSLASH, CONTROLS[c - 9]]) && !QuantifierAt(p, pos + 2)
    ensures TermAt(p, pos) == OneChar(c, pos + 2)
  {
    hide HexValue;
    var e := [BACKSLASH, CONTROLS[c - 9]];
    assert ByteAt(p, pos + 0) == e[0] && ByteAt(p, pos + 1) == e[1];
  }

  lemma PlainTerm(p: seq<byte>, pos: nat, c: byte)
    requires pos + 1 <= |p| && Standing(p, pos, [c]) && !QuantifierAt(p, pos + 1)
    requires Digit(c) || Letter(c) || c == 0x5F
    ensures TermAt(p, pos) == OneChar(c, pos + 1)
  {
    var e := [c];
    assert ByteAt(p, pos + 0) == e[0];
  }

  /** An escaped byte is read back as one plain character, whatever follows that is no quantifier. */
  lemma EscapedByte(p: seq<byte>, pos: nat, c: byte, first: bool)
    requires c < 128 && pos + |EscapeOne(c, first)| <= |p| && Standing(p, pos, EscapeOne(c, first))
    requires !QuantifierAt(p, pos + |EscapeOne(c, first)|)
    ensures TermAt(p, pos) == OneChar(c, pos + |EscapeOne(c, first)|)
  {
    hide TermAt, Standing, QuantifierAt, Hex2;
    if 9 <= c <= 13 {
      ControlTerm(p, pos, c);
    } else if EscapeOne(c, first) == Hex2(c) {
      HexLength(c);
      HexTerm(p, pos, c);
    } else if Digit(c) || Letter(c) || c == 0x5F {
      PlainTerm(p, pos, c);
    } else {
      EscapedTerm(p, pos, c);
    }
  }

  lemma HexLength(c: byte)
    ensures |Hex2(c)| == 4
  {
  }

  /** What is escaped never starts with a quantifier. */
  lemma NoQuantifier(p: seq<byte>, pos: nat, c: byte, first: bool)
    requires pos < |p| && Standing(p, pos, EscapeOne(c, first))
    ensures !QuantifierAt(p, pos)
  {
    assert ByteAt(p, pos + 0) == EscapeOne(c, first)[0];
  }

  lemma StandingAt(before: seq<byte>, e: seq<byte>, rest: seq<byte>)
    ensures Standing(before + e + rest, |before|, e)
  {
  }

  ghost predicate AllAscii(str: seq<byte>) {
    forall k :: 0 <= k < |str| ==> str[k] < 128
  }

  function CharsFrom(str: seq<byte>, i: nat): (text: seq<nat>)
    requires i <= |str|
    ensures |text| == |str| - i
    decreases |str| - i
  {
    if i == |str| then [] else [str[i] as nat] + CharsFrom(str, i + 1)
  }

  lemma {:induction false} ReadFrom(str: seq<byte>, i: nat, before: seq<byte>)
    requires AllAscii(str) && i <= |str|
    ensures Plain(before + EscapeFrom(str, i), |before|) == Some(CharsFrom(str, i))
    decreases |str| - i
  {
    hide EscapeOne, TermAt, QuantifierAt, Standing;
    var p := before + EscapeFrom(str, i);
    if i < |str| {
      var e, rest := EscapeOne(str[i], i == 0), EscapeFrom(str, i + 1);
      assert p == before + e + rest;
      StandingAt(before, e, rest);
      if i + 1 < |str| {
        var e', rest' := EscapeOne(str[i + 1], false), EscapeFrom(str, i + 2);
        assert p == (before + e) + e' + rest';
        StandingAt(before + e, e', rest');
        NoQuantifier(p, |before + e|, str[i + 1], false);
      } else {
        AtTheEnd(p, |before + e|);
      }
      EscapedByte(p, |before|, str[i], i == 0);
      ReadFrom(str, i + 1, before + e);
    }
  }

  lemma AtTheEnd(p: seq<byte>, pos: nat)
    requires pos >= |p|
    ensures !QuantifierAt(p, pos)
  {
  }

  /** Every ASCII string, escaped and parsed, gives exactly its own characters, in order, and nothing else. */
  lemma EscapeRoundTrip(str: seq<byte>)
    requires AllAscii(str)
    ensures Plain(EscapeFrom(str, 0), 0).Some?
    ensures var text := Plain(EscapeFrom(str, 0), 0).value;
            |text| == |str| && forall k :: 0 <= k < |str| ==> text[k] == str[k]
  {
    hide Plain, EscapeFrom, CharsFrom;
    assert [] + EscapeFrom(str, 0) == EscapeFrom(str, 0);
    ReadFrom(str, 0, []);
    forall k | 0 <= k < |str| ensures CharsFrom(str, 0)[k] == str[k] { CharsAt(str, 0, k); }
  }

  lemma {:induction false} CharsAt(str: seq<byte>, i: nat, k: nat)
    requires i + k < |str|
    ensures k < |CharsFrom(str, i)| && CharsFrom(str, i)[k] == str[i + k]
    decreases k
  {
    if k > 0 {
      CharsAt(str, i + 1, k - 1);
      assert CharsFrom(str, i)[k] == CharsFrom(str, i + 1)[k - 1];
    }
  }

  /** The compiler emits one character instruction for each byte of an escaped string, in order. */
  method CompileEscaped(s: Compiler, str: seq<byte>) returns (ghost text: seq<nat>)
    requires AllAscii(str)
    modifies s`byteCode
    ensures |text| == |str| && forall k :: 0 <= k < |str| ==> text[k] == str[k]
    ensures s.byteCode == old(s.byteCode) + ClassStrings.TextCode(text, false)
  {
    hide Plain, EscapeFrom, AllAscii;
    EscapeRoundTrip(str);
    var pattern := Escape(str);
    var ok;
    ok, text := ParsePlain(s, pattern);
  }
}
