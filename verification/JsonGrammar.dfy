/** The grammar of JSON strings, section 7 of RFC 8259: the string routine reads exactly it. */
module JsonGrammar {
  import opened Common
  import opened Utf8
  import opened JsonStrings

  /** A character of a string literal: written as itself, with a two-character escape, or as one or two code units. */
  datatype Token = Plain(c: byte) | Short(letter: byte) | Unit(digits: Bytes) | Pair(high: Bytes, low: Bytes)

  /** The two-character escapes and what they stand for: " \ / b f n r t. */
  const SHORT: map<byte, byte> :=
    map[0x22 := 0x22, 0x5C := 0x5C, 0x2F := 0x2F, 0x62 := 0x08, 0x66 := 0x0C, 0x6E := 0x0A, 0x72 := 0x0D, 0x74 := 0x09]

  /** 0 to 9, a to f and A to F; -1 for anything else. */
  ghost function DigitValue(d: byte): int {
    if 0x30 <= d < 0x3A then d - 0x30
    else if 0x61 <= d < 0x67 then d - 0x57
    else if 0x41 <= d < 0x47 then d - 0x37
    else -1
  }

  ghost predicate IsHex(ds: Bytes) {
    |ds| == 4 && forall i | 0 <= i < 4 :: 0 <= DigitValue(ds[i])
  }

  ghost function HexValue(ds: Bytes): (x: nat)
    requires IsHex(ds)
    ensures x < 0x1_0000
  {
    DigitValue(ds[0]) * 4096 + DigitValue(ds[1]) * 256 + DigitValue(ds[2]) * 16 + DigitValue(ds[3])
  }

  ghost predicate ValidToken(t: Token) {
    match t
    case Plain(c) => 0x20 <= c && c != 0x22 && c != 0x5C
    case Short(letter) => letter in SHORT
    case Unit(ds) => IsHex(ds) && !(0xD800 <= HexValue(ds) <= 0xDFFF)
    case Pair(high, low) =>
      IsHex(high) && IsHex(low) && 0xD800 <= HexValue(high) <= 0xDBFF && 0xDC00 <= HexValue(low) <= 0xDFFF
  }

  ghost function Spelling(t: Token): Bytes {
    match t
    case Plain(c) => [c]
    case Short(letter) => [0x5C, letter]
    case Unit(ds) => [0x5C, 0x75] + ds
    case Pair(high, low) => [0x5C, 0x75] + high + [0x5C, 0x75] + low
  }

  ghost function Meaning(t: Token): Bytes
    requires ValidToken(t)
  {
    match t
    case Plain(c) => [c]
    case Short(letter) => [SHORT[letter]]
    case Unit(ds) => Encode(HexValue(ds))
    case Pair(high, low) => Encode(0x1_0000 + (HexValue(high) - 0xD800) * 0x400 + (HexValue(low) - 0xDC00))
  }

  ghost predicate AllValid(ts: seq<Token>) {
    forall i | 0 <= i < |ts| :: ValidToken(ts[i])
  }

  ghost function Spellings(ts: seq<Token>): Bytes {
    if ts == [] then [] else Spelling(ts[0]) + Spellings(ts[1..])
  }

  ghost function Meanings(ts: seq<Token>): Bytes
    requires AllValid(ts)
  {
    if ts == [] then [] else Meaning(ts[0]) + Meanings(ts[1..])
  }

  // ----- code units

  lemma {:induction false} DigitIs(d: byte)
    ensures HexDigit(d) == if 0 <= DigitValue(d) then Some(DigitValue(d)) else None
  {}

  lemma {:induction false} HexIs(s: Bytes)
    requires 4 <= |s|
    ensures Hex4(s).Success? <==> IsHex(s[..4])
    ensures IsHex(s[..4]) ==> Hex4(s).value == HexValue(s[..4])
  {
    hide HexDigit, DigitValue;
    var ds := s[..4];
    assert ds[0] == s[0] && ds[1] == s[1] && ds[2] == s[2] && ds[3] == s[3];
    DigitIs(s[0]);
    DigitIs(s[1]);
    DigitIs(s[2]);
    DigitIs(s[3]);
  }

  lemma {:induction false} HexReads(ds: Bytes, rest: Bytes)
    requires IsHex(ds)
    ensures Hex4(ds + rest) == Success(HexValue(ds)) && (ds + rest)[4..] == rest
  {
    hide Hex4, HexValue;
    assert (ds + rest)[..4] == ds;
    HexIs(ds + rest);
  }

  // ----- one character

  /** Every spelling is read as what it means. */
  lemma {:induction false} CharacterReads(t: Token, rest: Bytes)
    requires ValidToken(t)
    ensures Character(Spelling(t) + rest) == Success(Parsed(Meaning(t), rest))
    ensures Spelling(t) != [] && Spelling(t)[0] != QUOTE
  {
    hide Character, Meaning;
    match t
    case Plain(c) => PlainReads(c, rest);
    case Short(letter) => ShortReads(letter, rest);
    case Unit(ds) => UnitReads(ds, rest);
    case Pair(high, low) => PairReads(high, low, rest);
  }

  lemma {:induction false} PlainReads(c: byte, rest: Bytes)
    requires ValidToken(Plain(c))
    ensures Character(Spelling(Plain(c)) + rest) == Success(Parsed(Meaning(Plain(c)), rest))
  {
    assert ([c] + rest)[1..] == rest;
  }

  lemma {:induction false} ShortReads(letter: byte, rest: Bytes)
    requires ValidToken(Short(letter))
    ensures Character(Spelling(Short(letter)) + rest) == Success(Parsed(Meaning(Short(letter)), rest))
  {
    hide UnicodeEscape, Unescape;
    ShortIs(letter);
    var s := [0x5C, letter] + rest;
    assert s[1..] == [letter] + rest && s[1..][1..] == rest;
  }

  lemma {:induction false} UnicodeReads(s: Bytes)
    ensures Character([BACKSLASH, LETTER_U] + s) == UnicodeEscape(s)
  {
    var all := [BACKSLASH, LETTER_U] + s;
    assert all[1..] == [LETTER_U] + s && all[1..][1..] == s;
  }

  lemma {:induction false} UnitReads(ds: Bytes, rest: Bytes)
    requires ValidToken(Unit(ds))
    ensures Character(Spelling(Unit(ds)) + rest) == Success(Parsed(Meaning(Unit(ds)), rest))
  {
    hide Hex4, Encode, HexValue, Character;
    HexReads(ds, rest);
    assert Spelling(Unit(ds)) + rest == [BACKSLASH, LETTER_U] + (ds + rest);
    UnicodeReads(ds + rest);
  }

  lemma {:induction false} PairReads(high: Bytes, low: Bytes, rest: Bytes)
    requires ValidToken(Pair(high, low))
    ensures Character(Spelling(Pair(high, low)) + rest) == Success(Parsed(Meaning(Pair(high, low)), rest))
  {
    hide Character, UnicodeEscape, HexValue, Encode;
    var tail := [BACKSLASH, LETTER_U] + (low + rest);
    assert Spelling(Pair(high, low)) + rest == [BACKSLASH, LETTER_U] + (high + tail);
    UnicodeReads(high + tail);
    UnitsRead(high, low, rest, tail);
  }

  lemma {:induction false} UnitsRead(high: Bytes, low: Bytes, rest: Bytes, tail: Bytes)
    requires ValidToken(Pair(high, low)) && tail == [BACKSLASH, LETTER_U] + (low + rest)
    ensures UnicodeEscape(high + tail) == Success(Parsed(Meaning(Pair(high, low)), rest))
  {
    hide Hex4, Encode, HexValue;
    var s := high + tail;
    HexReads(high, tail);
    HexReads(low, rest);
    assert s[4] == tail[0] && s[5] == tail[1] && s[6..] == low + rest && s[10..] == rest;
  }

  /** Whatever is read as a character is spelled as one that means what was read. */
  lemma {:induction false} CharacterIs(s: Bytes) returns (t: Token)
    requires s != [] && s[0] != QUOTE && Character(s).Success?
    ensures ValidToken(t) && s == Spelling(t) + Character(s).value.rest && Character(s).value.value == Meaning(t)
  {
    hide UnicodeEscape;
    if s[0] != BACKSLASH {
      t := Plain(s[0]);
    } else if s[1] != LETTER_U {
      t := Short(s[1]);
      ShortIs(s[1]);
      assert s[1..][1..] == s[2..] && s == [0x5C, s[1]] + s[2..];
    } else {
      assert s[1..][1..] == s[2..] && s == [0x5C, 0x75] + s[2..];
      t := UnicodeIs(s[2..]);
    }
  }

  lemma {:induction false} ShortIs(letter: byte)
    ensures Unescape(letter) == if letter in SHORT then Some(SHORT[letter]) else None
  {}

  lemma {:induction false} UnicodeIs(s: Bytes) returns (t: Token)
    requires UnicodeEscape(s).Success?
    ensures ValidToken(t) && [0x5C, 0x75] + s == Spelling(t) + UnicodeEscape(s).value.rest
    ensures UnicodeEscape(s).value.value == Meaning(t)
  {
    hide Hex4, Encode, HexValue, IsHex;
    HexIs(s);
    var x := Hex4(s).value;
    assert s == s[..4] + s[4..];
    if IsHigh(x) {
      HexIs(s[6..]);
      t := Pair(s[..4], s[6..][..4]);
      assert s == s[..4] + [0x5C, 0x75] + s[6..][..4] + s[10..];
    } else {
      t := Unit(s[..4]);
    }
  }

  // ----- whole strings

  /** Every sequence of spelled characters and a quote is read as what it means, up to that quote. */
  lemma {:induction false} StringReads(ts: seq<Token>, rest: Bytes)
    requires AllValid(ts)
    ensures StringTail(Spellings(ts) + [QUOTE] + rest) == Success(Parsed(Meanings(ts), rest))
  {
    hide Character, ValidToken, Spelling, Meaning;
    var s := Spellings(ts) + [QUOTE] + rest;
    if ts == [] {
      assert s == [QUOTE] + rest && s[1..] == rest;
    } else {
      var tail := Spellings(ts[1..]) + [QUOTE] + rest;
      StringReads(ts[1..], rest);
      CharacterReads(ts[0], tail);
      assert s == Spelling(ts[0]) + tail && s[0] == Spelling(ts[0])[0];
    }
  }

  /** And nothing else is read: what the routine accepts is such a sequence, with that meaning. */
  lemma {:induction false} StringIs(s: Bytes) returns (ts: seq<Token>)
    requires StringTail(s).Success?
    ensures AllValid(ts) && s == Spellings(ts) + [QUOTE] + StringTail(s).value.rest
    ensures StringTail(s).value.value == Meanings(ts)
    decreases |s|
  {
    hide Character, ValidToken, Spelling, Meaning;
    if s[0] == QUOTE {
      ts := [];
      assert s == [QUOTE] + s[1..];
    } else {
      CharacterSome(s);
      var t := CharacterIs(s);
      var more := StringIs(Character(s).value.rest);
      ts := [t] + more;
      assert ts[1..] == more;
      assert Spelling(t) + (Spellings(more) + [QUOTE] + StringTail(s).value.rest) ==
             Spellings(ts) + [QUOTE] + StringTail(s).value.rest;
    }
  }

  lemma {:induction false} CharacterSome(s: Bytes)
    requires s != [] && s[0] != QUOTE && StringTail(s).Success?
    ensures Character(s).Success?
    ensures StringTail(s) == Prepend(Character(s).value.value, StringTail(Character(s).value.rest))
  {
    hide Character;
  }

  // ----- white space

  /** The reader skips all of a run of blanks, tabs and line ends, and nothing else. */
  lemma {:induction false} SpaceSkipped(space: Bytes, rest: Bytes)
    requires forall i | 0 <= i < |space| :: space[i] in {0x20, 0x09, 0x0A, 0x0D}
    requires rest != [] ==> rest[0] !in {0x20, 0x09, 0x0A, 0x0D}
    ensures SkipSpace(space + rest) == rest
  {
    if space == [] {
      assert space + rest == rest;
    } else {
      assert (space + rest)[1..] == space[1..] + rest;
      SpaceSkipped(space[1..], rest);
    }
  }
}
