/**
 Any document made of strings and objects, with white space wherever the grammar of section 2 of RFC 8259 has it: the
 parser gives every member to its handler, in order, and reads to the end.
 */
module ProviderDocuments {
  import opened Common
  import opened JsonStrings
  import opened JsonGrammar
  import opened ProviderParsing

  // ----- documents and their text

  datatype Val = Str(chars: seq<Token>) | Empty(space: Bytes) | Object(members: Members)

  datatype Members = Last(m: Member) | Then(m: Member, rest: Members)

  /** A member with the white space before its name, around its colon and behind its value. */
  datatype Member =
    Member(before: Bytes, name: seq<Token>, gap: Bytes, beforeValue: Bytes, value: Val, after: Bytes)

  ghost predicate Spaces(w: Bytes) {
    forall i | 0 <= i < |w| :: w[i] in {0x20, 0x09, 0x0A, 0x0D}
  }

  ghost predicate ValidVal(v: Val) {
    match v
    case Str(ts) => AllValid(ts)
    case Empty(w) => Spaces(w)
    case Object(ms) => ValidMembers(ms)
  }

  ghost predicate ValidMembers(ms: Members) {
    ValidMember(ms.m) && (ms.Then? ==> ValidMembers(ms.rest))
  }

  ghost predicate ValidMember(m: Member) {
    && Spaces(m.before) && AllValid(m.name) && Spaces(m.gap) && Spaces(m.beforeValue) && ValidVal(m.value)
    && Spaces(m.after)
  }

  ghost function Quoted(ts: seq<Token>): Bytes {
    [QUOTE] + Spellings(ts) + [QUOTE]
  }

  ghost function ValText(v: Val): Bytes {
    match v
    case Str(ts) => Quoted(ts)
    case Empty(w) => [LEFT_BRACE] + w + [RIGHT_BRACE]
    case Object(ms) => [LEFT_BRACE] + MembersText(ms)
  }

  ghost function MembersText(ms: Members): Bytes {
    match ms
    case Last(m) => m.before + MemberText(m) + [RIGHT_BRACE]
    case Then(m, rest) => m.before + MemberText(m) + [COMMA] + MembersText(rest)
  }

  /** A member from its name on. */
  ghost function MemberText(m: Member): Bytes {
    Quoted(m.name) + m.gap + [COLON] + m.beforeValue + ValText(m.value) + m.after
  }

  // ----- what the handlers make of it

  type Effect = Result<seq<Provider>, JsonError>

  ghost function ValEffect(e: Element, name: Bytes, v: Val, ps: seq<Provider>): Effect
    requires ValidVal(v)
    decreases v
  {
    match v
    case Str(ts) => OnValue(e, name, Meanings(ts), ps)
    case Empty(_) =>
      (match OnObject(e, name, ps)
       case Failure(f) => Failure(f)
       case Success(o) => Success(o.ps))
    case Object(ms) =>
      match OnObject(e, name, ps)
      case Failure(f) => Failure(f)
      case Success(o) => MembersEffect(o.element, ms, o.ps)
  }

  ghost function MembersEffect(e: Element, ms: Members, ps: seq<Provider>): Effect
    requires ValidMembers(ms)
    decreases ms
  {
    assert ValidMember(ms.m);
    var first := ValEffect(e, Meanings(ms.m.name), ms.m.value, ps);
    if first.Failure? || ms.Last? then first else MembersEffect(e, ms.rest, first.value)
  }

  /** The parse succeeds exactly when the handlers do, with their list, having read up to rest. */
  ghost predicate Follows(r: ParseResult, effect: Effect, rest: Bytes) {
    match effect
    case Failure(f) => r == Failure(f)
    case Success(ps) => r == Success(State(ps, rest))
  }

  ghost predicate NoSpace(s: Bytes) {
    s != [] ==> s[0] !in {0x20, 0x09, 0x0A, 0x0D}
  }

  // ----- values

  lemma {:induction false} Skips(w: Bytes, s: Bytes)
    requires Spaces(w) && NoSpace(s)
    ensures SkipSpace(w + s) == s
  {
    SpaceSkipped(w, s);
  }

  lemma {:induction false} QuotedReads(ts: seq<Token>, rest: Bytes)
    requires AllValid(ts)
    ensures StringTail((Quoted(ts) + rest)[1..]) == Success(Parsed(Meanings(ts), rest))
    ensures Quoted(ts) != [] && (Quoted(ts) + rest)[0] == QUOTE
  {
    hide StringTail, Spellings, Meanings;
    assert (Quoted(ts) + rest)[1..] == Spellings(ts) + [QUOTE] + rest;
    StringReads(ts, rest);
  }

  /** A value between white space. */
  lemma {:induction false} ValReads(e: Element, name: Bytes, v: Val, before: Bytes, after: Bytes, rest: Bytes,
                                    ps: seq<Provider>)
    requires ValidVal(v) && Spaces(before) && Spaces(after) && NoSpace(rest)
    ensures Follows(ParseValue(e, name, before + ValText(v) + after + rest, ps), ValEffect(e, name, v, ps), rest)
    decreases v, 0
  {
    hide SkipSpace, ParseObject, StringTail, Spellings, Meanings, OnObject, OnValue, Spaces, AllValid;
    var tail := after + rest;
    var s := ValText(v) + tail;
    assert before + ValText(v) + after + rest == before + s;
    ValStarts(v, tail);
    Skips(before, s);
    Skips(after, rest);
    match v
    case Str(ts) =>
      QuotedReads(ts, tail);
      hide Quoted;
    case Empty(w) =>
      EmptyReads(w, tail);
      assert s[1..] == w + [RIGHT_BRACE] + tail;
      if OnObject(e, name, ps).Success? {
        EmptyObject(OnObject(e, name, ps).value.element, s[1..], tail, OnObject(e, name, ps).value.ps);
      }
    case Object(ms) =>
      assert s[1..] == MembersText(ms) + tail;
      if OnObject(e, name, ps).Success? {
        var o := OnObject(e, name, ps).value;
        MembersRead(o.element, ms, tail, o.ps);
        ObjectReads(o.element, ms, tail, o.ps);
      }
  }

  lemma {:induction false} ValStarts(v: Val, rest: Bytes)
    ensures ValText(v) != [] && NoSpace(ValText(v) + rest)
    ensures (ValText(v) + rest)[0] == if v.Str? then QUOTE else LEFT_BRACE
  {
    hide Spellings, MembersText;
  }

  lemma {:induction false} EmptyReads(w: Bytes, rest: Bytes)
    requires Spaces(w)
    ensures SkipSpace(w + [RIGHT_BRACE] + rest) == [RIGHT_BRACE] + rest
  {
    assert w + [RIGHT_BRACE] + rest == w + ([RIGHT_BRACE] + rest);
    Skips(w, [RIGHT_BRACE] + rest);
  }

  lemma {:induction false} EmptyObject(e: Element, s: Bytes, rest: Bytes, ps: seq<Provider>)
    requires SkipSpace(s) == [RIGHT_BRACE] + rest
    ensures ParseObject(e, s, ps) == Success(State(ps, rest))
  {
    hide SkipSpace, ParseMembers;
    assert ([RIGHT_BRACE] + rest)[1..] == rest;
  }

  // ----- members

  /** An object is its members, read from the first name on. */
  lemma {:induction false} ObjectReads(e: Element, ms: Members, rest: Bytes, ps: seq<Provider>)
    requires ValidMembers(ms)
    ensures ParseObject(e, MembersText(ms) + rest, ps) == ParseMembers(e, SkipSpace(MembersText(ms) + rest), ps)
  {
    hide ParseMembers, SkipSpace, ValidMembers;
    FirstName(ms, rest);
  }

  /** After white space comes the name of the first member. */
  lemma {:induction false} FirstName(ms: Members, rest: Bytes)
    requires ValidMembers(ms)
    ensures var s := SkipSpace(MembersText(ms) + rest); s == Behind(ms, rest) && s != [] && s[0] == QUOTE
  {
    hide SkipSpace, Spaces, AllValid, ValidVal, Spellings, ValText;
    var s := Behind(ms, rest);
    assert MembersText(ms) + rest == ms.m.before + s;
    Skips(ms.m.before, s);
  }

  /** The text from the first name on. */
  ghost function Behind(ms: Members, rest: Bytes): Bytes {
    MemberText(ms.m) +
    match ms
    case Last(_) => [RIGHT_BRACE] + rest
    case Then(_, more) => [COMMA] + MembersText(more) + rest
  }

  lemma {:induction false} MembersRead(e: Element, ms: Members, rest: Bytes, ps: seq<Provider>)
    requires ValidMembers(ms)
    ensures Follows(ParseMembers(e, SkipSpace(MembersText(ms) + rest), ps), MembersEffect(e, ms, ps), rest)
    decreases ms, 1
  {
    hide SkipSpace, ParseMember, ValEffect, Spaces, AllValid, ValidVal, MemberText, Meanings;
    var s := SkipSpace(MembersText(ms) + rest);
    FirstName(ms, rest);
    var first := ValEffect(e, Meanings(ms.m.name), ms.m.value, ps);
    match ms
    case Last(m) =>
      MemberReads(e, m, [RIGHT_BRACE] + rest, ps);
      assert ([RIGHT_BRACE] + rest)[1..] == rest;
    case Then(m, more) =>
      var tail := MembersText(more) + rest;
      assert [COMMA] + MembersText(more) + rest == [COMMA] + tail && ([COMMA] + tail)[1..] == tail;
      MemberReads(e, m, [COMMA] + tail, ps);
      if first.Success? { MembersRead(e, more, rest, first.value); }
  }

  /** One member and the comma or brace behind it. */
  lemma {:induction false} MemberReads(e: Element, m: Member, rest: Bytes, ps: seq<Provider>)
    requires ValidMember(m) && rest != [] && (rest[0] == COMMA || rest[0] == RIGHT_BRACE)
    ensures var first := ValEffect(e, Meanings(m.name), m.value, ps);
            ParseMember(e, MemberText(m) + rest, ps) ==
            match first
            case Failure(f) => Failure(f)
            case Success(ps') =>
              if rest[0] == COMMA then Success(OneMember(State(ps', SkipSpace(rest[1..])), true))
              else Success(OneMember(State(ps', rest[1..]), false))
    decreases m, 1
  {
    hide SkipSpace, ParseValue, ValEffect, MemberName, Spaces, AllValid, ValidVal, ValText, Quoted, Meanings;
    var value := m.beforeValue + ValText(m.value) + m.after + rest;
    assert MemberText(m) + rest == Quoted(m.name) + m.gap + [COLON] + value;
    NameReads(m.name, m.gap, value);
    ValReads(e, Meanings(m.name), m.value, m.beforeValue, m.after, rest, ps);
  }

  lemma {:induction false} NameReads(name: seq<Token>, gap: Bytes, value: Bytes)
    requires AllValid(name) && Spaces(gap)
    ensures MemberName(Quoted(name) + gap + [COLON] + value) == Success(Parsed(Meanings(name), value))
  {
    hide SkipSpace, StringTail, Meanings, Spaces, AllValid;
    var tail := gap + ([COLON] + value);
    var s := Quoted(name) + gap + [COLON] + value;
    assert s == Quoted(name) + tail;
    QuotedReads(name, tail);
    Skips(gap, [COLON] + value);
    assert ([COLON] + value)[1..] == value;
  }

  /** A whole document: the parser does exactly what the handlers do with its members in turn. */
  lemma {:induction false} DocumentReads(v: Val, before: Bytes, after: Bytes, ps: seq<Provider>)
    requires ValidVal(v) && Spaces(before) && Spaces(after)
    ensures Follows(ParseValue(Root, [], before + ValText(v) + after, ps), ValEffect(Root, [], v, ps), [])
  {
    hide ParseValue, ValText, ValidVal, Spaces;
    assert before + ValText(v) + after == before + ValText(v) + after + [];
    ValReads(Root, [], v, before, after, [], ps);
  }
}
