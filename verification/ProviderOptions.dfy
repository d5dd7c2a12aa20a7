/** Setting one option of one execution provider, by way of a generated JSON document. */
module ProviderOptions {
  import opened Common
  import opened JsonStrings
  import opened ProviderNames
  import opened ProviderParsing

  type Entry = ProviderParsing.Provider

  // ----- what the steps do to the list

  function WithoutName(options: seq<NamedString>, name: Bytes): seq<NamedString> {
    if options == [] then []
    else
      var n := |options| - 1;
      WithoutName(options[..n], name) + if options[n].name == name then [] else [options[n]]
  }

  function ErasedEntry(e: Entry, provider: Bytes, name: Bytes): Entry {
    if e.name == provider && name != [] then e.(options := WithoutName(e.options, name)) else e
  }

  function Erased(ps: seq<Entry>, provider: Bytes, name: Bytes): (r: seq<Entry>)
    ensures |r| == |ps|
  {
    if ps == [] then [] else
      var n := |ps| - 1;
      Erased(ps[..n], provider, name) + [ErasedEntry(ps[n], provider, name)]
  }

  function Renamed(ps: seq<Entry>): (r: seq<Entry>)
    ensures |r| == |ps|
  {
    if ps == [] then [] else
      var n := |ps| - 1;
      Renamed(ps[..n]) + [ps[n].(name := NormalizeProviderName(ps[n].name))]
  }

  ghost function Added(name: Bytes, value: Bytes): seq<NamedString> {
    if name == [] then [] else [NamedString(name, value)]
  }

  /** The list after a successful call. */
  ghost function Updated(ps: seq<Entry>, provider: Bytes, name: Bytes, value: Bytes): seq<Entry> {
    Renamed(Applied(Erased(ps, provider, name), provider, Added(name, value)))
  }

  // ----- the values stored under an option

  ghost function ValuesIn(options: seq<NamedString>, name: Bytes): seq<Bytes> {
    if options == [] then [] else
      var n := |options| - 1;
      ValuesIn(options[..n], name) + if options[n].name == name then [options[n].value] else []
  }

  /** All values of an option of a provider, in the order of the list. */
  ghost function Values(ps: seq<Entry>, provider: Bytes, name: Bytes): seq<Bytes> {
    if ps == [] then [] else
      var n := |ps| - 1;
      Values(ps[..n], provider, name) + if ps[n].name == provider then ValuesIn(ps[n].options, name) else []
  }

  lemma {:induction false} ValuesConcat(a: seq<NamedString>, b: seq<NamedString>, name: Bytes)
    ensures ValuesIn(a + b, name) == ValuesIn(a, name) + ValuesIn(b, name)
  {
    if b == [] {
      assert a + b == a;
    } else {
      var n := |b| - 1;
      assert (a + b)[..|a + b| - 1] == a + b[..n];
      ValuesConcat(a, b[..n], name);
    }
  }

  lemma {:induction false} ValuesPush(ps: seq<Entry>, x: Entry, provider: Bytes, name: Bytes)
    ensures Values(ps + [x], provider, name) ==
            Values(ps, provider, name) + if x.name == provider then ValuesIn(x.options, name) else []
  {
    assert (ps + [x])[..|ps|] == ps;
  }

  /** Erasing a name takes its values and no others. */
  lemma {:induction false} ValuesWithout(options: seq<NamedString>, erased: Bytes, name: Bytes)
    ensures ValuesIn(WithoutName(options, erased), name) == if name == erased then [] else ValuesIn(options, name)
  {
    if options != [] {
      var n := |options| - 1;
      ValuesWithout(options[..n], erased, name);
      var kept := WithoutName(options[..n], erased);
      if options[n].name == erased {
        assert kept + [] == kept;
      } else {
        assert (kept + [options[n]])[..|kept|] == kept;
      }
    }
  }

  lemma {:induction false} ValuesErased(ps: seq<Entry>, p: Bytes, erased: Bytes, q: Bytes, name: Bytes)
    ensures Values(Erased(ps, p, erased), q, name) ==
            if p == q && name == erased && name != [] then [] else Values(ps, q, name)
  {
    hide WithoutName, ValuesIn;
    if ps != [] {
      var n := |ps| - 1;
      ValuesErased(ps[..n], p, erased, q, name);
      ValuesWithout(ps[n].options, erased, name);
      ValuesPush(Erased(ps[..n], p, erased), ErasedEntry(ps[n], p, erased), q, name);
    }
  }

  /** Appending options to one entry of a provider. */
  lemma {:induction false} ValuesReplace(ps: seq<Entry>, i: nat, added: seq<NamedString>, q: Bytes, name: Bytes)
    requires i < |ps|
    ensures var ps' := ps[i := ps[i].(options := ps[i].options + added)];
            && (q != ps[i].name || ValuesIn(added, name) == [] ==> Values(ps', q, name) == Values(ps, q, name))
            && (q == ps[i].name && Values(ps, q, name) == [] ==> Values(ps', q, name) == ValuesIn(added, name))
  {
    hide ValuesIn;
    var x := ps[i].(options := ps[i].options + added);
    var n := |ps| - 1;
    if i == n {
      assert ps[i := x][..n] == ps[..n];
      ValuesConcat(ps[i].options, added, name);
      assert ValuesIn(ps[i].options, name) + [] == ValuesIn(ps[i].options, name);
    } else {
      assert ps[i := x][..n] == ps[..n][i := x];
      ValuesReplace(ps[..n], i, added, q, name);
    }
  }

  lemma {:induction false} ValuesApplied(ps: seq<Entry>, p: Bytes, added: seq<NamedString>, q: Bytes, name: Bytes)
    ensures p != q || ValuesIn(added, name) == [] ==> Values(Applied(ps, p, added), q, name) == Values(ps, q, name)
    ensures p == q && Values(ps, q, name) == [] ==> Values(Applied(ps, p, added), q, name) == ValuesIn(added, name)
  {
    hide Values, ValuesIn;
    var i := IndexOf(ps, p);
    if i < |ps| {
      ValuesReplace(ps, i, added, q, name);
    } else {
      ValuesPush(ps, ProviderParsing.Provider(p, added), q, name);
      assert Values(ps, q, name) + [] == Values(ps, q, name);
    }
  }

  // ----- every list there ever is has normalized names

  ghost predicate Normalized(ps: seq<Entry>) {
    forall i | 0 <= i < |ps| :: IsNormal(ps[i].name)
  }

  predicate IsNormal(name: Bytes) {
    NormalizeProviderName(name) == name
  }

  lemma {:induction false} NamesAreNormal(name: Bytes)
    ensures IsNormal(NormalizeProviderName(name))
  {
    NormalizeIdempotent(name);
  }

  /** What a parsed document leaves is normalized, whatever it held. */
  lemma {:induction false} RenamedNormalized(ps: seq<Entry>)
    ensures Normalized(Renamed(ps))
  {
    hide NormalizeProviderName, IsNormal;
    if ps != [] {
      var n := |ps| - 1;
      RenamedNormalized(ps[..n]);
      NamesAreNormal(ps[n].name);
    }
  }

  lemma {:induction false} RenamedSame(ps: seq<Entry>)
    requires Normalized(ps)
    ensures Renamed(ps) == ps
  {
    hide NormalizeProviderName;
    if ps != [] {
      var n := |ps| - 1;
      RenamedSame(ps[..n]);
      assert ps == ps[..n] + [ps[n]];
    }
  }

  lemma {:induction false} ErasedNormalized(ps: seq<Entry>, p: Bytes, name: Bytes)
    requires Normalized(ps)
    ensures Normalized(Erased(ps, p, name))
  {
    hide IsNormal, WithoutName;
    if ps != [] { ErasedNormalized(ps[..|ps| - 1], p, name); }
  }

  lemma {:induction false} AppliedNormalized(ps: seq<Entry>, p: Bytes, added: seq<NamedString>)
    requires Normalized(ps) && IsNormal(p)
    ensures Normalized(Applied(ps, p, added))
  {
    hide IsNormal;
  }

  /** A successful call on a normalized list: the option has the given value and no other, every other option of
      every provider keeps its values, and the list stays normalized. */
  lemma {:induction false} SetStores(ps: seq<Entry>, p: Bytes, name: Bytes, value: Bytes, q: Bytes, other: Bytes)
    requires Normalized(ps) && IsNormal(p)
    ensures Normalized(Updated(ps, p, name, value))
    ensures Values(Updated(ps, p, name, value), q, other) ==
            if p == q && name == other && name != [] then [value] else Values(ps, q, other)
  {
    hide Values, ValuesIn, Erased, Applied, Renamed, IsNormal, Normalized;
    var erased, added := Erased(ps, p, name), Added(name, value);
    ErasedNormalized(ps, p, name);
    AppliedNormalized(erased, p, added);
    RenamedSame(Applied(erased, p, added));
    ValuesErased(ps, p, name, q, other);
    ValuesAdded(name, value, other);
    ValuesApplied(erased, p, added, q, other);
  }

  lemma {:induction false} ValuesAdded(name: Bytes, value: Bytes, other: Bytes)
    ensures ValuesIn(Added(name, value), other) == if name == other && name != [] then [value] else []
  {
    var added := Added(name, value);
    if name != [] { assert added[..0] == [] && ValuesIn(added[..0], other) == []; }
  }

  // ----- any sequence of calls

  datatype Call = Call(provider: Bytes, name: Bytes, value: Bytes)

  ghost predicate Succeeds(c: Call) {
    Writable(NormalizeProviderName(c.provider), c.name, c.value)
  }

  /** The list after one call: updated, or with the old values erased when a string cannot be escaped. */
  ghost function AfterCall(ps: seq<Entry>, c: Call): seq<Entry> {
    var p := NormalizeProviderName(c.provider);
    if Succeeds(c) then Updated(ps, p, c.name, c.value) else Erased(ps, p, c.name)
  }

  ghost function AfterCalls(ps: seq<Entry>, calls: seq<Call>): seq<Entry> {
    if calls == [] then ps else AfterCall(AfterCalls(ps, calls[..|calls| - 1]), calls[|calls| - 1])
  }

  /** The call concerns this option of this provider. */
  predicate Names(c: Call, provider: Bytes, name: Bytes) {
    NormalizeProviderName(c.provider) == provider && c.name == name
  }

  lemma {:induction false} OneCall(ps: seq<Entry>, c: Call, provider: Bytes, name: Bytes)
    requires Normalized(ps) && name != []
    ensures Normalized(AfterCall(ps, c))
    ensures Values(AfterCall(ps, c), provider, name) ==
            if !Names(c, provider, name) then Values(ps, provider, name) else if Succeeds(c) then [c.value] else []
  {
    hide Values, Updated, Erased, NormalizeProviderName, IsNormal, Normalized, Writable;
    var p := NormalizeProviderName(c.provider);
    NamesAreNormal(c.provider);
    if Succeeds(c) {
      SetStores(ps, p, c.name, c.value, provider, name);
    } else {
      ErasedNormalized(ps, p, c.name);
      ValuesErased(ps, p, c.name, provider, name);
    }
  }

  /** Over any sequence of calls on any list a document left, an option holds exactly what the last call for it
      set: that value once, nothing when that call failed, and what was loaded when there was no such call. */
  lemma {:induction false} LastCallDecides(loaded: seq<Entry>, calls: seq<Call>, provider: Bytes, name: Bytes)
    requires name != []
    ensures Normalized(AfterCalls(Renamed(loaded), calls))
    ensures Values(AfterCalls(Renamed(loaded), calls), provider, name) ==
            match LastCall(calls, provider, name)
            case None => Values(Renamed(loaded), provider, name)
            case Some(c) => if Succeeds(c) then [c.value] else []
  {
    hide Values, Renamed, AfterCall, Normalized, Names, Succeeds;
    if calls == [] {
      RenamedNormalized(loaded);
    } else {
      var n := |calls| - 1;
      LastCallDecides(loaded, calls[..n], provider, name);
      OneCall(AfterCalls(Renamed(loaded), calls[..n]), calls[n], provider, name);
    }
  }

  /** The last call for an option. */
  function LastCall(calls: seq<Call>, provider: Bytes, name: Bytes): Option<Call> {
    if calls == [] then None else
      var n := |calls| - 1;
      if Names(calls[n], provider, name) then Some(calls[n]) else LastCall(calls[..n], provider, name)
  }

  /** The byte 0x01 has no short escape, so a call with it as the value fails and takes a stored value with it. */
  lemma {:induction false} OptionLost(loaded: seq<Entry>, provider: Bytes, name: Bytes, value: Bytes)
    requires name != [] && Succeeds(Call(provider, name, value))
    ensures var stored, failing := Call(provider, name, value), Call(provider, name, [0x01]);
            var p := NormalizeProviderName(provider);
            && Values(AfterCalls(Renamed(loaded), [stored]), p, name) == [value]
            && !Succeeds(failing) && Values(AfterCalls(Renamed(loaded), [stored, failing]), p, name) == []
  {
    hide Values, AfterCalls, Renamed, NormalizeProviderName, Normalized;
    var stored, failing := Call(provider, name, value), Call(provider, name, [0x01]);
    var p := NormalizeProviderName(provider);
    var unescapable: Bytes := [0x01];
    assert !Escapable(unescapable[0]);
    LastCallDecides(loaded, [stored], p, name);
    LastCallDecides(loaded, [stored, failing], p, name);
    assert LastCall([stored, failing], p, name) == Some(failing);
  }

  // ----- the call

  class Config {
    var providers: seq<Bytes>
    var options: seq<Entry>

    /** A configuration as a document leaves it: every name in its normal form. */
    constructor (providers: seq<Bytes>, loaded: seq<Entry>)
      ensures this.providers == providers && options == Renamed(loaded) && Normalized(options)
    {
      this.providers := providers;
      var renamed := RenameAll(loaded);
      options := renamed;
      RenamedNormalized(loaded);
    }

    /** Removes an option's old values from every entry of the provider. */
    method Erase(provider: Bytes, name: Bytes)
      modifies this`options
      ensures options == Erased(old(options), provider, name)
    {
      ghost var was := options;
      for i := 0 to |options|
        invariant |options| == |was| && options[..i] == Erased(was[..i], provider, name) && options[i..] == was[i..]
      {
        assert was[..i + 1][..i] == was[..i];
        assert options[i] == options[i..][0] == was[i..][0] == was[i];
        if options[i].name == provider && name != [] {
          var rest := RemoveNamed(options[i].options, name);
          options := options[i := options[i].(options := rest)];
        }
        NextErased(was, options, provider, name, i);
      }
      assert was[..|was|] == was && options[..|was|] == options;
    }

    static method RemoveNamed(list: seq<NamedString>, name: Bytes) returns (kept: seq<NamedString>)
      ensures kept == WithoutName(list, name)
    {
      kept := [];
      for i := 0 to |list|
        invariant kept == WithoutName(list[..i], name)
      {
        assert list[..i + 1][..i] == list[..i];
        if list[i].name != name { kept := kept + [list[i]]; }
      }
      assert list[..|list|] == list;
    }

    /** The names of all entries in their normal form. */
    static method RenameAll(ps: seq<Entry>) returns (r: seq<Entry>)
      ensures r == Renamed(ps)
    {
      r := [];
      for i := 0 to |ps|
        invariant r == Renamed(ps[..i])
      {
        assert ps[..i + 1][..i] == ps[..i];
        r := r + [ps[i].(name := NormalizeProviderName(ps[i].name))];
      }
      assert ps[..|ps|] == ps;
    }

    /** The document to parse; it fails where a string cannot be escaped. */
    static method BuildDocument(provider: Bytes, name: Bytes, value: Bytes) returns (r: Result<Bytes, JsonError>)
      ensures r.Success? <==> Writable(provider, name, value)
      ensures r.Success? ==> exists inner :: IsInner(inner, Added(name, value)) && r.value == Document(provider, inner)
      ensures r.Failure? ==> r.error == ControlCharacter
    {
      hide Escape, AllEscapable;
      var p := EscapeJsonString(provider);
      if p.Failure? { return p; }
      var inner: Bytes := [];
      if name != [] {
        var n := EscapeJsonString(name);
        if n.Failure? { return n; }
        var v := EscapeJsonString(value);
        if v.Failure? { return v; }
        inner := [QUOTE] + n.value + [QUOTE, COLON, QUOTE] + v.value + [QUOTE];
        assert inner == Member(name, value);
      }
      assert IsInner(inner, Added(name, value));
      r := Success([LEFT_BRACE, QUOTE] + p.value + [QUOTE, COLON, LEFT_BRACE] + inner + [RIGHT_BRACE, RIGHT_BRACE]);
      assert r.value == Document(provider, inner);
    }

    /** Sets an option. With a string that cannot be escaped it fails after the provider was listed and the old
        values were erased; otherwise the generated document parses and stores the value. */
    method SetProviderOption(providerName: Bytes, name: Bytes, value: Bytes) returns (r: Result<(), JsonError>)
      modifies this
      ensures var provider := NormalizeProviderName(providerName);
              && providers == (if provider in old(providers) then old(providers) else old(providers) + [provider])
              && (r.Success? <==> Writable(provider, name, value))
              && options == if r.Success? then Updated(old(options), provider, name, value)
                else Erased(old(options), provider, name)
    {
      hide Erased, Renamed, Applied, Document, IsInner, ParseValue, NormalizeProviderName, Added, Writable;
      var provider := NormalizeProviderName(providerName);
      if provider !in providers {
        providers := providers + [provider];
      }
      Erase(provider, name);
      var document := BuildDocument(provider, name, value);
      if document.Failure? { return Failure(document.error); }
      IsWritable(provider, name, value);
      ghost var inner :| IsInner(inner, Added(name, value)) && document.value == Document(provider, inner);
      ParsesDocument(provider, inner, Added(name, value), options);
      var parser := new OptionParser(document.value, options);
      r := parser.RunValue(Root, []);
      options := RenameAll(parser.ps);
    }

    /** A sequence of calls, and what it leaves. */
    method SetAll(calls: seq<Call>)
      modifies this
      ensures options == AfterCalls(old(options), calls)
      ensures Normalized(old(options)) ==> Normalized(options)
    {
      hide AfterCall, Normalized, Updated, Erased, Writable, NormalizeProviderName;
      assert calls[..0] == [];
      for i := 0 to |calls|
        invariant options == AfterCalls(old(options), calls[..i])
        invariant Normalized(old(options)) ==> Normalized(options)
      {
        assert calls[..i + 1][..i] == calls[..i];
        ghost var before := options;
        var r := SetProviderOption(calls[i].provider, calls[i].name, calls[i].value);
        CallDone(before, calls[i], options, r.Success?);
      }
      assert calls[..|calls|] == calls;
    }
  }

  lemma {:induction false} CallDone(before: seq<Entry>, c: Call, after: seq<Entry>, ok: bool)
    requires ok <==> Succeeds(c)
    requires var p := NormalizeProviderName(c.provider);
             after == if ok then Updated(before, p, c.name, c.value) else Erased(before, p, c.name)
    ensures after == AfterCall(before, c) && (Normalized(before) ==> Normalized(after))
  {
    hide NormalizeProviderName, Normalized, Updated, Erased, Writable, IsNormal;
    var p := NormalizeProviderName(c.provider);
    NamesAreNormal(c.provider);
    if Normalized(before) {
      SetStores(before, p, c.name, c.value, p, c.name);
      ErasedNormalized(before, p, c.name);
    }
  }

  /** The strings of a call that the document can hold. */
  ghost predicate Writable(provider: Bytes, name: Bytes, value: Bytes) {
    AllEscapable(provider) && (name != [] ==> AllEscapable(name) && AllEscapable(value))
  }

  lemma {:induction false} IsWritable(provider: Bytes, name: Bytes, value: Bytes)
    requires Writable(provider, name, value)
    ensures AllEscapable(provider)
  {}

  lemma {:induction false} NextErased(was: seq<Entry>, now: seq<Entry>, provider: Bytes, name: Bytes, i: nat)
    requires i < |was| == |now| && now[..i] == Erased(was[..i], provider, name)
             && now[i] == ErasedEntry(was[i], provider, name)
    requires now[i + 1..] == was[i + 1..]
    ensures now[..i + 1] == Erased(was[..i + 1], provider, name)
  {
    hide ErasedEntry;
    assert was[..i + 1][..i] == was[..i];
    assert now[..i + 1] == now[..i] + [now[i]];
  }
}
