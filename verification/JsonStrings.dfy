/**
 JSON string literals: the escaping of option strings and the parser's string routine, over bytes.
 Section 7 of RFC 8259.
 */
module JsonStrings {
  import opened Common
  import opened Utf8

  const QUOTE: byte := 0x22
  const SLASH: byte := 0x2F
  const BACKSLASH: byte := 0x5C
  const BACKSPACE: byte := 0x08
  const TAB: byte := 0x09
  const NEWLINE: byte := 0x0A
  const FORMFEED: byte := 0x0C
  const CARRIAGE_RETURN: byte := 0x0D
  const LETTER_B: byte := 0x62
  const LETTER_F: byte := 0x66
  const LETTER_N: byte := 0x6E
  const LETTER_R: byte := 0x72
  const LETTER_T: byte := 0x74
  const LETTER_U: byte := 0x75

  datatype JsonError =
    | UnexpectedEnd
    | ControlCharacter
    | InvalidEscape
    | HexEnd
    | BadHex
    | BadSurrogate
    | ExpectingName
    | ExpectingColon
    | ExpectingCommaOrBrace
    | UnknownValue
    | TypeMismatch
    | OutsideModel

  /** What was read and what follows it. */
  datatype Parsed = Parsed(value: Bytes, rest: Bytes)

  type StringResult = Result<Parsed, JsonError>

  // ----- escaping

  /** The letter of the short escape of c, if it has one. */
  function ShortEscape(c: byte): Option<byte> {
    if c == QUOTE then Some(QUOTE)
    else if c == BACKSLASH then Some(BACKSLASH)
    else if c == BACKSPACE then Some(LETTER_B)
    else if c == FORMFEED then Some(LETTER_F)
    else if c == NEWLINE then Some(LETTER_N)
    else if c == CARRIAGE_RETURN then Some(LETTER_R)
    else if c == TAB then Some(LETTER_T)
    else None
  }

  /** A byte that can be written inside a string literal at all. */
  predicate Escapable(c: byte) {
    ShortEscape(c).Some? || 0x20 <= c
  }

  function EscapeByte(c: byte): Bytes
    requires Escapable(c)
  {
    if ShortEscape(c).Some? then [BACKSLASH, ShortEscape(c).value] else [c]
  }

  ghost predicate AllEscapable(s: Bytes) {
    forall i | 0 <= i < |s| :: Escapable(s[i])
  }

  ghost function Escape(s: Bytes): Bytes
    requires AllEscapable(s)
  {
    if s == [] then [] else EscapeByte(s[0]) + Escape(s[1..])
  }

  lemma {:induction false} EscapeAppend(s: Bytes, c: byte)
    requires AllEscapable(s + [c])
    ensures AllEscapable(s) && Escapable(c) && Escape(s + [c]) == Escape(s) + EscapeByte(c)
  {
    hide Escapable, EscapeByte;
    assert forall i | 0 <= i < |s| :: (s + [c])[i] == s[i];
    assert (s + [c])[|s|] == c;
    if s == [] {
      assert Escape([c]) == EscapeByte(c) + Escape([c][1..]);
      assert s + [c] == [c];
    } else {
      assert (s + [c])[1..] == s[1..] + [c];
      EscapeAppend(s[1..], c);
    }
  }

  /** Escapes a string; it fails exactly on control characters that have no short escape. */
  method EscapeJsonString(s: Bytes) returns (r: Result<Bytes, JsonError>)
    ensures r.Success? <==> AllEscapable(s)
    ensures r.Success? <==> forall i | 0 <= i < |s| :: 0x20 <= s[i] || s[i] in {0x08, 0x09, 0x0A, 0x0C, 0x0D}
    ensures r.Success? ==> r.value == Escape(s)
    ensures r.Failure? ==> r.error == ControlCharacter
  {
    hide Escape, EscapeByte, Escapable;
    EscapableBytes();
    var result: Bytes := [];
    NoneEscaped();
    for i := 0 to |s|
      invariant AllEscapable(s[..i]) && result == Escape(s[..i])
    {
      assert s[..i + 1] == s[..i] + [s[i]];
      if Escapable(s[i]) {
        EscapeAppend(s[..i], s[i]);
        result := result + EscapeByte(s[i]);
      } else {
        return Failure(ControlCharacter);
      }
    }
    assert s[..|s|] == s;
    return Success(result);
  }

  lemma {:induction false} EscapableBytes()
    ensures forall c: byte :: Escapable(c) <==> 0x20 <= c || c in {0x08, 0x09, 0x0A, 0x0C, 0x0D}
  {}

  lemma {:induction false} NoneEscaped()
    ensures Escape([]) == []
  {}

  // ----- parsing, as a function of what is left to read

  function HexDigit(c: byte): Option<nat> {
    if 0x30 <= c <= 0x39 then Some(c - 0x30)
    else if 0x41 <= c <= 0x46 then Some(c - 0x41 + 10)
    else if 0x61 <= c <= 0x66 then Some(c - 0x61 + 10)
    else None
  }

  /** Four hexadecimal digits at the start of s. */
  function Hex4(s: Bytes): (r: Result<nat, JsonError>)
    ensures r.Success? ==> 4 <= |s| && r.value < 0x1_0000
  {
    if |s| < 4 then Failure(HexEnd)
    else if HexDigit(s[0]).None? || HexDigit(s[1]).None? || HexDigit(s[2]).None?
      || HexDigit(s[3]).None? then Failure(BadHex)
    else
      Success(((HexDigit(s[0]).value * 16 + HexDigit(s[1]).value) * 16 + HexDigit(s[2]).value) * 16
        + HexDigit(s[3]).value)
  }

  predicate IsHigh(x: nat) {
    0xD800 <= x <= 0xDBFF
  }

  predicate IsLow(x: nat) {
    0xDC00 <= x <= 0xDFFF
  }

  /** The scalar value of a surrogate pair. */
  function Combine(high: nat, low: nat): Scalar
    requires IsHigh(high) && IsLow(low)
  {
    0x1_0000 + (high - 0xD800) * 1024 + (low - 0xDC00)
  }

  /** What follows a backslash and a u. */
  function UnicodeEscape(s: Bytes): (r: StringResult)
    ensures r.Success? ==> |r.value.rest| < |s|
  {
    match Hex4(s)
    case Failure(e) => Failure(e)
    case Success(x) =>
      if IsHigh(x) then
        if |s| < 6 || s[4] != BACKSLASH || s[5] != LETTER_U then Failure(BadSurrogate)
        else
          match Hex4(s[6..])
          case Failure(e) => Failure(e)
          case Success(y) => if IsLow(y) then Success(Parsed(Encode(Combine(x, y)), s[10..])) else Failure(BadSurrogate)
      else if IsLow(x) then Failure(BadSurrogate)
      else Success(Parsed(Encode(x), s[4..]))
  }

  /** The byte a short escape stands for. */
  function Unescape(c: byte): Option<byte> {
    if c == QUOTE || c == BACKSLASH || c == SLASH then Some(c)
    else if c == LETTER_B then Some(BACKSPACE)
    else if c == LETTER_N then Some(NEWLINE)
    else if c == LETTER_F then Some(FORMFEED)
    else if c == LETTER_R then Some(CARRIAGE_RETURN)
    else if c == LETTER_T then Some(TAB)
    else None
  }

  /** What follows a backslash. */
  function EscapeSequence(s: Bytes): (r: StringResult)
    ensures r.Success? ==> |r.value.rest| < |s|
  {
    if s == [] then Failure(UnexpectedEnd)
    else if s[0] == LETTER_U then UnicodeEscape(s[1..])
    else if Unescape(s[0]).Some? then Success(Parsed([Unescape(s[0]).value], s[1..]))
    else Failure(InvalidEscape)
  }

  /** One character of a string literal other than its closing quote. */
  function Character(s: Bytes): (r: StringResult)
    ensures r.Success? ==> |r.value.rest| < |s|
  {
    if s == [] then Failure(UnexpectedEnd)
    else if s[0] < 0x20 then Failure(ControlCharacter)
    else if s[0] == BACKSLASH then EscapeSequence(s[1..])
    else Success(Parsed([s[0]], s[1..]))
  }

  /** The rest of a string literal whose opening quote was read. */
  function StringTail(s: Bytes): (r: StringResult)
    ensures r.Success? ==> |r.value.rest| < |s|
    decreases |s|
  {
    if s != [] && s[0] == QUOTE then Success(Parsed([], s[1..]))
    else
      match Character(s)
      case Failure(e) => Failure(e)
      case Success(first) => Prepend(first.value, StringTail(first.rest))
  }

  function Prepend(b: Bytes, r: StringResult): (r': StringResult)
    ensures r'.Success? <==> r.Success?
    ensures r.Success? ==> r' == Success(Parsed(b + r.value.value, r.value.rest))
    ensures r.Failure? ==> r' == r
  {
    match r
    case Failure(e) => Failure(e)
    case Success(p) => Success(Parsed(b + p.value, p.rest))
  }

  // ----- round trip

  lemma {:induction false} EscapedCharacter(c: byte, rest: Bytes)
    requires Escapable(c)
    ensures Character(EscapeByte(c) + rest) == Success(Parsed([c], rest))
    ensures (EscapeByte(c) + rest)[0] != QUOTE
  {
    var s := EscapeByte(c) + rest;
    if ShortEscape(c).Some? {
      assert s[1..] == [ShortEscape(c).value] + rest;
      assert s[1..][1..] == rest;
    } else {
      assert s[1..] == rest;
    }
  }

  /** Reading back an escaped string and its closing quote gives the string, and stops right after the quote. */
  lemma {:induction false} RoundTrip(s: Bytes, rest: Bytes)
    requires AllEscapable(s)
    ensures StringTail(Escape(s) + [QUOTE] + rest) == Success(Parsed(s, rest))
  {
    hide Character, EscapeByte, Escapable;
    if s == [] {
      assert Escape(s) + [QUOTE] + rest == [QUOTE] + rest;
      assert ([QUOTE] + rest)[1..] == rest;
    } else {
      var tail := Escape(s[1..]) + [QUOTE] + rest;
      RoundTrip(s[1..], rest);
      EscapedCharacter(s[0], tail);
      assert Escape(s) + [QUOTE] + rest == EscapeByte(s[0]) + tail;
      assert [s[0]] + s[1..] == s;
    }
  }

  // ----- UTF-8

  lemma {:induction false} AcceptsAsciiTail(s: Bytes)
    requires s != [] && Accepts(s) && s[0] < 0x80
    ensures Accepts(s[1..])
  {}

  lemma {:induction false} AcceptsSkip(s: Bytes, n: nat)
    requires n <= |s| && Accepts(s) && forall i | 0 <= i < n :: s[i] < 0x80
    ensures Accepts(s[n..])
    decreases n
  {
    hide Accepts;
    if n == 0 {
      assert s[0..] == s;
    } else {
      AcceptsSkip(s, n - 1);
      AcceptsAsciiTail(s[n - 1..]);
      assert s[n - 1..][1..] == s[n..];
    }
  }

  lemma {:induction false} AcceptsPrepend(c: Scalar, v: Bytes)
    requires Accepts(v)
    ensures Accepts(Encode(c) + v)
  {
    hide Encode, AcceptsFirst;
    AcceptsEncoded(c, v);
    assert (Encode(c) + v)[|Encode(c)|..] == v;
  }

  lemma {:induction false} HexIsAscii(s: Bytes)
    requires Hex4(s).Success?
    ensures forall i | 0 <= i < 4 :: s[i] < 0x80
  {}

  /** An escape of valid UTF-8 gives one scalar value and stops at a character boundary. */
  lemma {:induction false} UnicodeEscapeScalar(s: Bytes) returns (c: Scalar)
    requires Accepts(s) && UnicodeEscape(s).Success?
    ensures UnicodeEscape(s).value.value == Encode(c) && Accepts(UnicodeEscape(s).value.rest)
  {
    hide Encode, Accepts;
    HexIsAscii(s);
    var x := Hex4(s).value;
    if IsHigh(x) {
      HexIsAscii(s[6..]);
      c := Combine(x, Hex4(s[6..]).value);
      forall i | 0 <= i < 10 ensures s[i] < 0x80 { if 6 <= i { assert s[6..][i - 6] < 0x80; } }
      AcceptsSkip(s, 10);
    } else {
      c := x;
      AcceptsSkip(s, 4);
    }
  }

  lemma {:induction false} EscapeSequenceScalar(s: Bytes) returns (c: Scalar)
    requires Accepts(s) && EscapeSequence(s).Success?
    ensures EscapeSequence(s).value.value == Encode(c) && Accepts(EscapeSequence(s).value.rest)
  {
    hide Accepts, UnicodeEscape;
    AcceptsAsciiTail(s);
    if s[0] == LETTER_U {
      c := UnicodeEscapeScalar(s[1..]);
    } else {
      c := Unescape(s[0]).value;
    }
  }

  /** A run of bytes from 0x80 on is copied as it is. */
  lemma {:induction false} CopiesHigh(s: Bytes, n: nat)
    requires n <= |s| && forall i | 0 <= i < n :: 0x80 <= s[i]
    ensures StringTail(s) == Prepend(s[..n], StringTail(s[n..]))
    decreases n
  {
    if n == 0 {
      assert s[0..] == s && s[..0] == [];
      PrependNothing(StringTail(s));
    } else {
      var t := s[1..];
      assert t[n - 1..] == s[n..] && [s[0]] + t[..n - 1] == s[..n];
      CopiesHigh(t, n - 1);
      assert StringTail(s) == Prepend([s[0]], StringTail(t));
      PrependTwice([s[0]], t[..n - 1], StringTail(s[n..]));
    }
  }

  lemma {:induction false} PrependNothing(r: StringResult)
    ensures Prepend([], r) == r
  {
    if r.Success? { assert [] + r.value.value == r.value.value; }
  }

  lemma {:induction false} PrependTwice(a: Bytes, b: Bytes, r: StringResult)
    ensures Prepend(a, Prepend(b, r)) == Prepend(a + b, r)
  {
    if r.Success? { assert a + (b + r.value.value) == a + b + r.value.value; }
  }

  /** Parsing a string inside valid UTF-8 text gives valid UTF-8 and leaves the reader at a character boundary. */
  lemma {:induction false} StringKeepsUtf8(s: Bytes)
    requires Accepts(s) && StringTail(s).Success?
    ensures Accepts(StringTail(s).value.value) && Accepts(StringTail(s).value.rest)
    decreases |s|
  {
    hide AcceptsFirst, EscapeSequence, Encode;
    if s[0] == QUOTE {
      AcceptsAsciiTail(s);
    } else if s[0] == BACKSLASH {
      AcceptsAsciiTail(s);
      var c := EscapeSequenceScalar(s[1..]);
      var rest := EscapeSequence(s[1..]).value.rest;
      StringKeepsUtf8(rest);
      AcceptsPrepend(c, StringTail(rest).value.value);
    } else {
      FirstSequence(s);
      var n := SequenceLength(s[0]);
      StringKeepsUtf8(s[n..]);
      EncodeDecoded(s);
      AcceptsPrepend(DecodeFirst(s), StringTail(s[n..]).value.value);
    }
  }

  lemma {:induction false} FirstSequence(s: Bytes)
    requires s != [] && Accepts(s) && s[0] != QUOTE && s[0] != BACKSLASH && StringTail(s).Success?
    ensures AcceptsFirst(s) && 1 <= SequenceLength(s[0]) <= |s|
    ensures StringTail(s) == Prepend(s[..SequenceLength(s[0])], StringTail(s[SequenceLength(s[0])..]))
    ensures Accepts(s[SequenceLength(s[0])..])
  {
    var n := SequenceLength(s[0]);
    if 1 < n {
      assert forall i | 1 <= i < n :: IsContinuation(s[i]);
      CopiesHigh(s, n);
    } else {
      assert s[..1] == [s[0]];
    }
  }

  /** The same in terms of encodings: if the text is one, so are the value and the rest. */
  lemma {:induction false} ParsedStringIsUtf8(s: Bytes)
    requires WellFormed(s) && StringTail(s).Success?
    ensures WellFormed(StringTail(s).value.value) && WellFormed(StringTail(s).value.rest)
  {
    hide WellFormed, Accepts, StringTail;
    AcceptsIsWellFormed(s);
    StringKeepsUtf8(s);
    AcceptsIsWellFormed(StringTail(s).value.value);
    AcceptsIsWellFormed(StringTail(s).value.rest);
  }

  // ----- every scalar value can be written as an escape

  function Digit(x: nat): byte
    requires x < 16
  {
    if x < 10 then 0x30 + x else 0x61 + x - 10
  }

  function HexOf(x: nat): Bytes
    requires x < 0x1_0000
  {
    [Digit(x / 4096), Digit(x / 256 % 16), Digit(x / 16 % 16), Digit(x % 16)]
  }

  lemma {:induction false} HexRoundTrip(x: nat, rest: Bytes)
    requires x < 0x1_0000
    ensures Hex4(HexOf(x) + rest) == Success(x) && (HexOf(x) + rest)[4..] == rest
  {
    var s := HexOf(x) + rest;
    assert s[0] == Digit(x / 4096) && s[1] == Digit(x / 256 % 16) && s[2] == Digit(x / 16 % 16)
           && s[3] == Digit(x % 16);
    DigitRoundTrip(x / 4096);
    DigitRoundTrip(x / 256 % 16);
    DigitRoundTrip(x / 16 % 16);
    DigitRoundTrip(x % 16);
    hide Digit, HexDigit;
    Digits(x);
  }

  lemma {:induction false} Digits(x: nat)
    ensures ((x / 4096 * 16 + x / 256 % 16) * 16 + x / 16 % 16) * 16 + x % 16 == x
  {
    assert x / 256 / 16 == x / 4096 && x / 16 / 16 == x / 256;
  }

  lemma {:induction false} DigitRoundTrip(x: nat)
    requires x < 16
    ensures HexDigit(Digit(x)) == Some(x)
  {}

  /** The escape of a scalar value: one unit, or a surrogate pair. */
  function UnicodeUnits(c: Scalar): Bytes {
    if c < 0x1_0000 then HexOf(c)
    else HexOf(0xD800 + (c - 0x1_0000) / 1024) + [BACKSLASH, LETTER_U] + HexOf(0xDC00 + (c - 0x1_0000) % 1024)
  }

  /** Reading the escape of any scalar value gives its UTF-8 encoding. */
  lemma {:induction false} UnicodeRoundTrip(c: Scalar, rest: Bytes)
    ensures UnicodeEscape(UnicodeUnits(c) + rest) == Success(Parsed(Encode(c), rest))
  {
    hide Hex4, HexOf, Encode;
    var s := UnicodeUnits(c) + rest;
    if c < 0x1_0000 {
      HexRoundTrip(c, rest);
    } else {
      var high, low := 0xD800 + (c - 0x1_0000) / 1024, 0xDC00 + (c - 0x1_0000) % 1024;
      var tail := HexOf(low) + rest;
      HexLength(high);
      HexLength(low);
      assert s == HexOf(high) + ([BACKSLASH, LETTER_U] + tail);
      HexRoundTrip(high, [BACKSLASH, LETTER_U] + tail);
      HexRoundTrip(low, rest);
      assert s[4..] == [BACKSLASH, LETTER_U] + tail;
      assert s[6..] == tail && s[10..] == tail[4..];
      assert Combine(high, low) == c;
    }
  }

  lemma {:induction false} HexLength(x: nat)
    requires x < 0x1_0000
    ensures |HexOf(x)| == 4
  {}

  // ----- white space and literals

  predicate IsSpace(c: byte) {
    c == 0x20 || c == 0x09 || c == 0x0D || c == 0x0A
  }

  function SkipSpace(s: Bytes): (r: Bytes)
    ensures |r| <= |s|
    ensures s != [] && !IsSpace(s[0]) ==> r == s
  {
    if s != [] && IsSpace(s[0]) then SkipSpace(s[1..]) else s
  }

  /** The rest of a literal; it must not end the text. */
  predicate Literal(s: Bytes, rest: Bytes) {
    |rest| < |s| && s[..|rest|] == rest
  }

  // ----- the reader

  class JsonReader {
    const text: Bytes
    var at: nat

    ghost predicate Valid()
      reads this
    {
      at <= |text|
    }

    /** What is left to read. */
    ghost function Left(): Bytes
      requires Valid()
      reads this
    {
      text[at..]
    }

    constructor (text: Bytes)
      ensures Valid() && this.text == text && Left() == text
    {
      this.text := text;
      at := 0;
    }

    method GetChar() returns (c: Option<byte>)
      requires Valid()
      modifies this
      ensures Valid() && at >= old(at)
      ensures if old(Left()) == [] then c == None && Left() == []
              else c == Some(old(Left())[0]) && Left() == old(Left())[1..]
    {
      if at == |text| { return None; }
      c := Some(text[at]);
      at := at + 1;
    }

    method Skip(c: byte) returns (skipped: bool)
      requires Valid()
      modifies this
      ensures Valid() && at >= old(at)
      ensures skipped <==> old(Left()) != [] && old(Left())[0] == c
      ensures Left() == if skipped then old(Left())[1..] else old(Left())
    {
      if at == |text| || text[at] != c { return false; }
      at := at + 1;
      skipped := true;
    }

    method ParseWhitespace()
      requires Valid()
      modifies this
      ensures Valid() && at >= old(at) && Left() == SkipSpace(old(Left()))
    {
      while at != |text|
        invariant Valid() && at >= old(at) && SkipSpace(Left()) == SkipSpace(old(Left()))
      {
        if !IsSpace(text[at]) { return; }
        assert Left()[1..] == text[at + 1..];
        at := at + 1;
      }
    }

    /** Skips the rest of a literal, unless that would reach the end of the text. */
    method SkipLiteral(rest: Bytes) returns (skipped: bool)
      requires Valid()
      modifies this
      ensures Valid() && at >= old(at)
      ensures skipped <==> Literal(old(Left()), rest)
      ensures !skipped ==> at == old(at)
    {
      if at + |rest| >= |text| || text[at..at + |rest|] != rest {
        assert at + |rest| < |text| ==> Left()[..|rest|] == text[at..at + |rest|];
        return false;
      }
      assert Left()[..|rest|] == text[at..at + |rest|];
      at := at + |rest|;
      skipped := true;
    }

    method ParseHex4() returns (r: Result<nat, JsonError>)
      requires Valid()
      modifies this
      ensures Valid() && r == Hex4(old(Left()))
      ensures r.Success? ==> Left() == old(Left())[4..]
    {
      ghost var s := Left();
      if at + 4 > |text| { return Failure(HexEnd); }
      var value := 0;
      for i := 0 to 4
        invariant at == old(at)
        invariant forall j | 0 <= j < i :: HexDigit(s[j]).Some?
        invariant value == Leading(s, i)
      {
        assert text[at + i] == s[i];
        var digit := HexDigit(text[at + i]);
        if digit.None? { return Failure(BadHex); }
        value := value * 16 + digit.value;
      }
      LeadingFour(s);
      at := at + 4;
      r := Success(value);
    }

    /** The bytes an escape stands for. */
    method ParseEscape() returns (r: Result<Bytes, JsonError>)
      requires Valid()
      modifies this
      ensures Valid() && Agrees(r, Left(), EscapeSequence(old(Left())))
    {
      hide Encode, Hex4;
      ghost var s := Left();
      var c := GetChar();
      if c.None? { return Failure(UnexpectedEnd); }
      if c.value == LETTER_U {
        var first := ParseHex4();
        if first.Failure? { return Failure(first.error); }
        var codepoint := first.value;
        if IsHigh(codepoint) {
          ghost var t := s[1..];
          var backslash := Skip(BACKSLASH);
          if !backslash { return Failure(BadSurrogate); }
          var u := Skip(LETTER_U);
          if !u { return Failure(BadSurrogate); }
          assert Left() == t[6..];
          var second := ParseHex4();
          if second.Failure? { return Failure(second.error); }
          if !IsLow(second.value) { return Failure(BadSurrogate); }
          assert Left() == t[10..];
          return Success(Encode(Combine(codepoint, second.value)));
        }
        if IsLow(codepoint) { return Failure(BadSurrogate); }
        return Success(Encode(codepoint));
      }
      var short := Unescape(c.value);
      if short.None? { return Failure(InvalidEscape); }
      r := Success([short.value]);
    }

    /** Reads the rest of a string literal. */
    method ParseString() returns (r: Result<Bytes, JsonError>)
      requires Valid()
      modifies this
      ensures Valid() && Agrees(r, Left(), StringTail(old(Left())))
    {
      hide EscapeSequence;
      ghost var s := Left();
      var value: Bytes := [];
      PrependNothing(StringTail(s));
      while true
        invariant Valid() && StringTail(s) == Prepend(value, StringTail(Left()))
        decreases |text| - at
      {
        ghost var t := Left();
        var c := GetChar();
        if c.None? { return Failure(UnexpectedEnd); }
        assert value + [] == value;
        if c.value == QUOTE { return Success(value); }
        if c.value < 0x20 { return Failure(ControlCharacter); }
        if c.value == BACKSLASH {
          var escaped := ParseEscape();
          if escaped.Failure? { return Failure(escaped.error); }
          PrependTwice(value, escaped.value, StringTail(Left()));
          value := value + escaped.value;
        } else {
          PrependTwice(value, [c.value], StringTail(Left()));
          value := value + [c.value];
        }
      }
    }
  }

  /** A result and what is left agree with a function of what there was to read. */
  ghost predicate Agrees(r: Result<Bytes, JsonError>, left: Bytes, spec: StringResult) {
    match spec
    case Failure(e) => r == Failure(e)
    case Success(p) => r == Success(p.value) && left == p.rest
  }

  ghost function Leading(s: Bytes, n: nat): nat
    requires n <= |s| && forall j | 0 <= j < n :: HexDigit(s[j]).Some?
  {
    if n == 0 then 0 else Leading(s, n - 1) * 16 + HexDigit(s[n - 1]).value
  }

  lemma {:induction false} LeadingFour(s: Bytes)
    requires 4 <= |s| && forall j | 0 <= j < 4 :: HexDigit(s[j]).Some?
    ensures Hex4(s) == Success(Leading(s, 4))
  {
    hide HexDigit;
    assert Leading(s, 1) == HexDigit(s[0]).value;
    assert Leading(s, 2) == Leading(s, 1) * 16 + HexDigit(s[1]).value;
    assert Leading(s, 3) == Leading(s, 2) * 16 + HexDigit(s[2]).value;
  }
}
