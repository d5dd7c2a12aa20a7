/**
 The object path of the JSON parser as provider options use it: a root value, an object of providers, and
 an object of options per provider, whose handlers update the list of providers.
 */
module ProviderParsing {
  import opened Common
  import opened JsonStrings

  const LEFT_BRACE: byte := 0x7B
  const RIGHT_BRACE: byte := 0x7D
  const COLON: byte := 0x3A
  const COMMA: byte := 0x2C

  datatype NamedString = NamedString(name: Bytes, value: Bytes)

  datatype Provider = Provider(name: Bytes, options: seq<NamedString>)

  /** The handlers: of the document, of its object, and of the object of one provider. */
  datatype Element = Root | Providers | Options(index: nat)

  const FILTERING: Bytes :=
    [0x64, 0x65, 0x76, 0x69, 0x63, 0x65, 0x5F, 0x66, 0x69, 0x6C, 0x74, 0x65, 0x72, 0x69, 0x6E, 0x67, 0x5F,
     0x6F, 0x70, 0x74, 0x69, 0x6F, 0x6E, 0x73] // device_filtering_options

  // ----- the handlers

  /** The first provider of a name, or their number. */
  function IndexOf(ps: seq<Provider>, name: Bytes): (i: nat)
    ensures i <= |ps|
    ensures i < |ps| ==> ps[i].name == name
    ensures forall j | 0 <= j < i :: ps[j].name != name
  {
    if ps == [] then 0 else if ps[0].name == name then 0 else
      var i := IndexOf(ps[1..], name);
      assert forall j | 1 <= j < i + 1 :: ps[j] == ps[1..][j - 1];
      i + 1
  }

  datatype Opened = Opened(element: Element, ps: seq<Provider>)

  function OnObject(e: Element, name: Bytes, ps: seq<Provider>): Result<Opened, JsonError> {
    match e
    case Root => Success(Opened(Providers, ps))
    case Providers =>
      var i := IndexOf(ps, name);
      Success(Opened(Options(i), if i < |ps| then ps else ps + [Provider(name, [])]))
    case Options(_) => Failure(if name == FILTERING then OutsideModel else UnknownValue)
  }

  function OnValue(e: Element, name: Bytes, value: Bytes, ps: seq<Provider>): Result<seq<Provider>, JsonError> {
    match e
    case Root => Failure(UnknownValue)
    case Providers => Failure(UnknownValue)
    case Options(i) =>
      Success(if i < |ps| then ps[i := ps[i].(options := ps[i].options + [NamedString(name, value)])] else ps)
  }

  /** A value of another type, given to a handler that accepts strings at most. */
  function OnOther(e: Element): JsonError {
    if e.Options? then TypeMismatch else UnknownValue
  }

  // ----- the parser as a function of what is left to read

  datatype State = State(ps: seq<Provider>, rest: Bytes)

  type ParseResult = Result<State, JsonError>

  const RUE: Bytes := [0x72, 0x75, 0x65]
  const ALSE: Bytes := [0x61, 0x6C, 0x73, 0x65]
  const ULL: Bytes := [0x75, 0x6C, 0x6C]

  function LiteralRest(c: byte): Option<Bytes> {
    if c == LETTER_T then Some(RUE) else if c == LETTER_F then Some(ALSE) else if c == LETTER_N then Some(ULL) else None
  }

  predicate StartsNumber(c: byte) {
    0x30 <= c <= 0x39 || c == 0x2D
  }

  /** A value that is neither an object nor a string. A misspelt literal is passed over. */
  function OtherValue(e: Element, c: byte, s: Bytes, ps: seq<Provider>): (r: ParseResult)
    ensures r.Success? ==> |r.value.rest| <= |s|
  {
    if LiteralRest(c).Some? then
      if Literal(s, LiteralRest(c).value) then Failure(OnOther(e)) else Success(State(ps, SkipSpace(s)))
    else if StartsNumber(c) then Failure(OutsideModel)
    else Failure(UnknownValue)
  }

  function StringValue(e: Element, name: Bytes, s: Bytes, ps: seq<Provider>): (r: ParseResult)
    ensures r.Success? ==> |r.value.rest| <= |s|
  {
    match StringTail(s)
    case Failure(f) => Failure(f)
    case Success(p) =>
      match OnValue(e, name, p.value, ps)
      case Failure(f) => Failure(f)
      case Success(ps') => Success(State(ps', SkipSpace(p.rest)))
  }

  function ParseValue(e: Element, name: Bytes, s: Bytes, ps: seq<Provider>): (r: ParseResult)
    ensures r.Success? ==> |r.value.rest| < |s|
    decreases |s|, 3
  {
    var s1 := SkipSpace(s);
    if s1 == [] then Failure(UnexpectedEnd)
    else if s1[0] == LEFT_BRACE then
      match OnObject(e, name, ps)
      case Failure(f) => Failure(f)
      case Success(o) =>
        match ParseObject(o.element, s1[1..], o.ps)
        case Failure(f) => Failure(f)
        case Success(q) => Success(State(q.ps, SkipSpace(q.rest)))
    else if s1[0] == QUOTE then StringValue(e, name, s1[1..], ps)
    else OtherValue(e, s1[0], s1[1..], ps)
  }

  function ParseObject(e: Element, s: Bytes, ps: seq<Provider>): (r: ParseResult)
    ensures r.Success? ==> |r.value.rest| < |s|
    decreases |s|, 2
  {
    var s1 := SkipSpace(s);
    if s1 != [] && s1[0] == RIGHT_BRACE then Success(State(ps, s1[1..])) else ParseMembers(e, s1, ps)
  }

  function ParseMembers(e: Element, s: Bytes, ps: seq<Provider>): (r: ParseResult)
    ensures r.Success? ==> |r.value.rest| < |s|
    decreases |s|, 1
  {
    match ParseMember(e, s, ps)
    case Failure(f) => Failure(f)
    case Success(m) => if m.more then ParseMembers(e, m.state.rest, m.state.ps) else Success(m.state)
  }

  /** The state after one member and the comma or brace behind it, and whether more members follow. */
  datatype OneMember = OneMember(state: State, more: bool)

  function ParseMember(e: Element, s: Bytes, ps: seq<Provider>): (r: Result<OneMember, JsonError>)
    ensures r.Success? ==> |r.value.state.rest| < |s|
    decreases |s|, 0
  {
    match MemberName(s)
    case Failure(f) => Failure(f)
    case Success(name) =>
      match ParseValue(e, name.value, name.rest, ps)
      case Failure(f) => Failure(f)
      case Success(q) =>
        if q.rest == [] then Failure(UnexpectedEnd)
        else if q.rest[0] == COMMA then Success(OneMember(State(q.ps, SkipSpace(q.rest[1..])), true))
        else if q.rest[0] == RIGHT_BRACE then Success(OneMember(State(q.ps, q.rest[1..]), false))
        else Failure(ExpectingCommaOrBrace)
  }

  /** A member's name and the colon behind it. */
  function MemberName(s: Bytes): (r: StringResult)
    ensures r.Success? ==> |r.value.rest| < |s|
  {
    if s == [] || s[0] != QUOTE then Failure(ExpectingName)
    else
      match StringTail(s[1..])
      case Failure(f) => Failure(f)
      case Success(name) =>
        var s1 := SkipSpace(name.rest);
        if s1 == [] then Failure(UnexpectedEnd)
        else if s1[0] != COLON then Failure(ExpectingColon)
        else Success(Parsed(name.value, s1[1..]))
  }

  lemma {:induction false} ReadsName(name: Bytes, rest: Bytes, s: Bytes)
    requires AllEscapable(name) && s == [QUOTE] + Escape(name) + [QUOTE, COLON] + rest
    ensures MemberName(s) == Success(Parsed(name, rest)) && s != [] && s[0] == QUOTE
  {
    hide StringTail, Escape;
    var tail: Bytes := [COLON] + rest;
    assert s[1..] == Escape(name) + [QUOTE] + tail;
    RoundTrip(name, tail);
    assert tail[1..] == rest;
  }

  // ----- the documents that set an option

  /** A member "name":"value". */
  ghost function Member(name: Bytes, value: Bytes): Bytes
    requires AllEscapable(name) && AllEscapable(value)
  {
    [QUOTE] + Escape(name) + [QUOTE, COLON, QUOTE] + Escape(value) + [QUOTE]
  }

  /** inner is the text of at most one option. */
  ghost predicate IsInner(inner: Bytes, added: seq<NamedString>) {
    if added == [] then inner == []
    else
      && |added| == 1 && AllEscapable(added[0].name) && AllEscapable(added[0].value)
      && inner == Member(added[0].name, added[0].value)
  }

  /** {"provider":{ inner }} */
  ghost function Document(provider: Bytes, inner: Bytes): Bytes
    requires AllEscapable(provider)
  {
    [LEFT_BRACE, QUOTE] + Escape(provider) + [QUOTE, COLON, LEFT_BRACE] + inner + [RIGHT_BRACE, RIGHT_BRACE]
  }

  /** The list after an option of a provider is appended; with no option the provider is only made present. */
  ghost function Applied(ps: seq<Provider>, provider: Bytes, added: seq<NamedString>): seq<Provider> {
    var i := IndexOf(ps, provider);
    if i < |ps| then ps[i := ps[i].(options := ps[i].options + added)] else ps + [Provider(provider, added)]
  }

  lemma {:induction false} MemberValue(e: Element, name: Bytes, value: Bytes, s: Bytes, ps: seq<Provider>, i: nat)
    requires AllEscapable(value) && e == Options(i) && i < |ps|
             && s == [QUOTE] + Escape(value) + [QUOTE, RIGHT_BRACE, RIGHT_BRACE]
    ensures ParseValue(e, name, s, ps) ==
            Success(State(ps[i := ps[i].(options := ps[i].options + [NamedString(name, value)])],
              [RIGHT_BRACE, RIGHT_BRACE]))
  {
    var rest: Bytes := [RIGHT_BRACE, RIGHT_BRACE];
    hide StringTail, Escape;
    RoundTrip(value, rest);
    assert s[1..] == Escape(value) + [QUOTE] + rest;
  }

  lemma {:induction false} ParsesMember(name: Bytes, value: Bytes, s: Bytes, ps: seq<Provider>, i: nat)
    requires AllEscapable(name) && AllEscapable(value) && i < |ps|
             && s == Member(name, value) + [RIGHT_BRACE, RIGHT_BRACE]
    ensures ParseObject(Options(i), s, ps) ==
            Success(State(ps[i := ps[i].(options := ps[i].options + [NamedString(name, value)])], [RIGHT_BRACE]))
  {
    hide Escape, ParseValue, MemberName;
    var tail: Bytes := [QUOTE] + Escape(value) + [QUOTE, RIGHT_BRACE, RIGHT_BRACE];
    assert s == [QUOTE] + Escape(name) + [QUOTE, COLON] + tail;
    ReadsName(name, tail, s);
    MemberValue(Options(i), name, value, tail, ps, i);
    var end: Bytes := [RIGHT_BRACE, RIGHT_BRACE];
    assert end[1..] == [RIGHT_BRACE];
    LastMember(Options(i), s, ps);
  }

  /** An object whose first member is its last. */
  lemma {:induction false} LastMember(e: Element, s: Bytes, ps: seq<Provider>)
    requires s != [] && s[0] == QUOTE && ParseMember(e, s, ps).Success? && !ParseMember(e, s, ps).value.more
    ensures ParseObject(e, s, ps) == Success(ParseMember(e, s, ps).value.state)
  {
    hide ParseMember;
    assert ParseMembers(e, s, ps) == Success(ParseMember(e, s, ps).value.state);
  }

  lemma {:induction false} ParsesNothing(ps: seq<Provider>, i: nat)
    ensures ParseObject(Options(i), [RIGHT_BRACE, RIGHT_BRACE], ps) == Success(State(ps, [RIGHT_BRACE]))
  {
    var end: Bytes := [RIGHT_BRACE, RIGHT_BRACE];
    assert end[1..] == [RIGHT_BRACE];
  }

  /** The inner object, in the list that its provider's handler returned. */
  lemma {:induction false} ParsesInner(inner: Bytes, added: seq<NamedString>, ps: seq<Provider>, i: nat)
    requires i < |ps|
    requires IsInner(inner, added)
    ensures ParseObject(Options(i), inner + [RIGHT_BRACE, RIGHT_BRACE], ps) ==
            Success(State(ps[i := ps[i].(options := ps[i].options + added)], [RIGHT_BRACE]))
  {
    hide ParseObject, Member;
    var end: Bytes := [RIGHT_BRACE, RIGHT_BRACE];
    if added == [] {
      assert inner + end == end;
      ParsesNothing(ps, i);
      assert ps[i].options + [] == ps[i].options;
      assert ps[i := ps[i]] == ps;
    } else {
      ParsesMember(added[0].name, added[0].value, inner + end, ps, i);
      assert added == [added[0]];
    }
  }

  lemma {:induction false} ParsesProvider(provider: Bytes, inner: Bytes, added: seq<NamedString>, s: Bytes,
                                          ps: seq<Provider>)
    requires IsInner(inner, added)
    requires s == [LEFT_BRACE] + (inner + [RIGHT_BRACE, RIGHT_BRACE])
    ensures ParseValue(Providers, provider, s, ps) == Success(State(Applied(ps, provider, added), [RIGHT_BRACE]))
  {
    hide ParseObject, Member;
    assert s[1..] == inner + [RIGHT_BRACE, RIGHT_BRACE];
    var i := IndexOf(ps, provider);
    var ps1 := if i < |ps| then ps else ps + [Provider(provider, [])];
    ParsesInner(inner, added, ps1, i);
    if i == |ps| {
      assert [] + added == added;
      assert ps1[i := ps1[i].(options := ps1[i].options + added)] == ps + [Provider(provider, added)];
    }
    assert SkipSpace([RIGHT_BRACE]) == [RIGHT_BRACE];
  }

  /** Parsing the document adds exactly the option to exactly the provider, and reads to the end. */
  lemma {:induction false} ParsesDocument(provider: Bytes, inner: Bytes, added: seq<NamedString>, ps: seq<Provider>)
    requires AllEscapable(provider)
    requires IsInner(inner, added)
    ensures ParseValue(Root, [], Document(provider, inner), ps) == Success(State(Applied(ps, provider, added), []))
  {
    hide Escape, Member, Applied, ParseMember, MemberName;
    var s := Document(provider, inner);
    var value: Bytes := [LEFT_BRACE] + (inner + [RIGHT_BRACE, RIGHT_BRACE]);
    var member: Bytes := [QUOTE] + Escape(provider) + [QUOTE, COLON] + value;
    assert s == [LEFT_BRACE] + member;
    assert s[1..] == member;
    ReadsName(provider, value, member);
    ParsesFirst(provider, inner, added, value, member, ps);
    LastMember(Providers, member, ps);
  }

  lemma {:induction false} ParsesFirst(provider: Bytes, inner: Bytes, added: seq<NamedString>, value: Bytes,
                                       member: Bytes, ps: seq<Provider>)
    requires IsInner(inner, added) && value == [LEFT_BRACE] + (inner + [RIGHT_BRACE, RIGHT_BRACE])
    requires MemberName(member) == Success(Parsed(provider, value))
    ensures ParseMember(Providers, member, ps) == Success(OneMember(State(Applied(ps, provider, added), []), false))
  {
    hide MemberName, ParseValue, Member, Applied;
    ParsesProvider(provider, inner, added, value, ps);
    var end: Bytes := [RIGHT_BRACE];
    assert end[1..] == [];
  }

  // ----- the parser as it runs

  class OptionParser {
    const reader: JsonReader
    var ps: seq<Provider>

    ghost predicate Valid()
      reads this, reader
    {
      reader.Valid()
    }

    constructor (text: Bytes, ps: seq<Provider>)
      ensures Valid() && fresh(reader) && reader.Left() == text && this.ps == ps
    {
      reader := new JsonReader(text);
      this.ps := ps;
    }

    /** A run agrees with the function: the same failure, or the same providers and the same rest. */
    ghost predicate Agrees(r: Result<(), JsonError>, spec: ParseResult)
      requires Valid()
      reads this, reader
    {
      match spec
      case Failure(f) => r == Failure(f)
      case Success(q) => r == Success(()) && ps == q.ps && reader.Left() == q.rest
    }

    method RunValue(e: Element, name: Bytes) returns (r: Result<(), JsonError>)
      requires Valid()
      modifies this, reader
      ensures Valid() && Agrees(r, ParseValue(e, name, old(reader.Left()), old(ps)))
      ensures r.Success? ==> old(reader.at) < reader.at
      decreases |reader.text| - reader.at, 2
    {
      hide StringTail, ParseObject, ParseMembers;
      ghost var s := reader.Left();
      reader.ParseWhitespace();
      var c := reader.GetChar();
      if c.None? { return Failure(UnexpectedEnd); }
      if c.value == LEFT_BRACE {
        var target := OnObject(e, name, ps);
        if target.Failure? { return Failure(target.error); }
        ps := target.value.ps;
        r := RunObject(target.value.element);
        if r.Failure? { return; }
      } else if c.value == QUOTE {
        var value := reader.ParseString();
        if value.Failure? { return Failure(value.error); }
        var added := OnValue(e, name, value.value, ps);
        if added.Failure? { return Failure(added.error); }
        ps := added.value;
      } else if LiteralRest(c.value).Some? {
        var found := reader.SkipLiteral(LiteralRest(c.value).value);
        if found { return Failure(OnOther(e)); }
      } else {
        return Failure(if StartsNumber(c.value) then OutsideModel else UnknownValue);
      }
      reader.ParseWhitespace();
      r := Success(());
    }

    method RunObject(e: Element) returns (r: Result<(), JsonError>)
      requires Valid()
      modifies this, reader
      ensures Valid() && Agrees(r, ParseObject(e, old(reader.Left()), old(ps)))
      ensures r.Success? ==> old(reader.at) <= reader.at
      decreases |reader.text| - reader.at, 1
    {
      hide StringTail, ParseValue, ParseMember;
      ghost var spec := ParseObject(e, reader.Left(), ps);
      reader.ParseWhitespace();
      var closed := reader.Skip(RIGHT_BRACE);
      if closed { return Success(()); }
      while true
        invariant Valid() && old(reader.at) <= reader.at && spec == ParseMembers(e, reader.Left(), ps)
        decreases |reader.text| - reader.at
      {
        var more;
        r, more := RunMember(e);
        if r.Failure? || !more { return; }
      }
    }

    method RunMember(e: Element) returns (r: Result<(), JsonError>, more: bool)
      requires Valid()
      modifies this, reader
      ensures Valid() && MemberAgrees(r, more, ParseMember(e, old(reader.Left()), old(ps)))
      ensures r.Success? ==> old(reader.at) < reader.at
      decreases |reader.text| - reader.at, 0
    {
      hide MemberName, ParseValue;
      more := false;
      var name := RunName();
      if name.Failure? { return Failure(name.error), false; }
      r := RunValue(e, name.value);
      if r.Failure? { return; }
      var c := reader.GetChar();
      if c.None? { return Failure(UnexpectedEnd), false; }
      if c.value == RIGHT_BRACE { return; }
      if c.value != COMMA { return Failure(ExpectingCommaOrBrace), false; }
      reader.ParseWhitespace();
      more := true;
    }

    method RunName() returns (r: Result<Bytes, JsonError>)
      requires Valid()
      modifies reader
      ensures Valid() && JsonStrings.Agrees(r, reader.Left(), MemberName(old(reader.Left())))
      ensures r.Success? ==> old(reader.at) < reader.at
    {
      hide StringTail;
      ghost var s := reader.Left();
      var quoted := reader.Skip(QUOTE);
      if !quoted { return Failure(ExpectingName); }
      var name := reader.ParseString();
      if name.Failure? { return name; }
      reader.ParseWhitespace();
      var colon := reader.GetChar();
      if colon.None? { return Failure(UnexpectedEnd); }
      if colon.value != COLON { return Failure(ExpectingColon); }
      r := name;
    }

    ghost predicate MemberAgrees(r: Result<(), JsonError>, more: bool, spec: Result<OneMember, JsonError>)
      requires Valid()
      reads this, reader
    {
      match spec
      case Failure(f) => r == Failure(f)
      case Success(m) => r == Success(()) && more == m.more && ps == m.state.ps && reader.Left() == m.state.rest
    }
  }
}
