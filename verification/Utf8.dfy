/**
 UTF-8 as section 3 of RFC 3629 defines it, and the validity test of the stop-string code.
 */
module Utf8 {
  import opened Common

  /** A Unicode scalar value: a code point that is not a surrogate. */
  type Scalar = c: int | 0 <= c < 0xD800 || 0xE000 <= c < 0x11_0000

  /** A continuation byte carrying the low six bits of x. */
  function Tail(x: nat): byte {
    0x80 + x % 64
  }

  /** The shortest-form encoding of one scalar value. */
  function Encode(c: Scalar): (b: Bytes)
    ensures 1 <= |b| <= 4
  {
    var r1 := c / 64;
    var r2 := r1 / 64;
    var r3 := r2 / 64;
    if c < 0x80 then [c as byte]
    else if c < 0x800 then [(0xC0 + r1) as byte, Tail(c)]
    else if c < 0x1_0000 then [(0xE0 + r2) as byte, Tail(r1), Tail(c)]
    else [(0xF0 + r3) as byte, Tail(r2), Tail(r1), Tail(c)]
  }

  function EncodeAll(cs: seq<Scalar>): Bytes {
    if cs == [] then [] else Encode(cs[0]) + EncodeAll(cs[1..])
  }

  /** b is the encoding of some sequence of scalar values. */
  ghost predicate WellFormed(b: Bytes) {
    exists cs: seq<Scalar> :: EncodeAll(cs) == b
  }

  // ----- the byte-wise test

  function SequenceLength(lead: byte): (n: nat)
    ensures n <= 4
  {
    if lead < 0x80 then 1
    else if 0xC2 <= lead <= 0xDF then 2
    else if 0xE0 <= lead <= 0xEF then 3
    else if 0xF0 <= lead <= 0xF4 then 4
    else 0
  }

  predicate IsContinuation(b: byte) {
    0x80 <= b <= 0xBF
  }

  /** b starts with a sequence the test accepts. */
  predicate AcceptsFirst(b: Bytes)
    requires b != []
  {
    var n := SequenceLength(b[0]);
    && 1 <= n <= |b|
    && (forall k | 1 <= k < n :: IsContinuation(b[k]))
    && !(n == 3 && b[0] == 0xE0 && b[1] < 0xA0)
    && !(n == 3 && b[0] == 0xED && b[1] > 0x9F)
    && !(n == 4 && b[0] == 0xF0 && b[1] < 0x90)
    && !(n == 4 && b[0] == 0xF4 && b[1] > 0x8F)
  }

  predicate Accepts(b: Bytes) {
    b == [] || (AcceptsFirst(b) && Accepts(b[SequenceLength(b[0])..]))
  }

  /** The scalar value of the accepted sequence at the start of b. */
  function DecodeFirst(b: Bytes): (c: Scalar)
    requires b != [] && AcceptsFirst(b)
  {
    var n := SequenceLength(b[0]);
    var b0: int := b[0];
    if n == 1 then b0
    else
      var b1: int := b[1];
      assert IsContinuation(b[1]);
      if n == 2 then (b0 - 0xC0) * 64 + (b1 - 0x80)
      else
        var b2: int := b[2];
        assert IsContinuation(b[2]);
        if n == 3 then ((b0 - 0xE0) * 64 + (b1 - 0x80)) * 64 + (b2 - 0x80)
        else
          var b3: int := b[3];
          assert IsContinuation(b[3]);
          (((b0 - 0xF0) * 64 + (b1 - 0x80)) * 64 + (b2 - 0x80)) * 64 + (b3 - 0x80)
  }

  lemma {:induction false} Shift6(x: nat, d: nat)
    requires d < 64
    ensures (x * 64 + d) / 64 == x && (x * 64 + d) % 64 == d
  {}

  lemma {:induction false} EncodeDecoded(b: Bytes)
    requires b != [] && AcceptsFirst(b)
    ensures Encode(DecodeFirst(b)) == b[..SequenceLength(b[0])]
  {
    var n := SequenceLength(b[0]);
    if n == 3 {
      EncodeDecoded3(b);
    } else if n == 4 {
      EncodeDecoded4(b);
    } else if n == 2 {
      assert IsContinuation(b[1]);
      Shift6(b[0] - 0xC0, b[1] - 0x80);
    }
  }

  lemma {:induction false} EncodeDecoded3(b: Bytes)
    requires b != [] && AcceptsFirst(b) && SequenceLength(b[0]) == 3
    ensures Encode(DecodeFirst(b)) == b[..3]
  {
    assert IsContinuation(b[1]) && IsContinuation(b[2]);
    var b0: int := b[0];
    Shift6(b0 - 0xE0, b[1] - 0x80);
    Shift6((b0 - 0xE0) * 64 + (b[1] - 0x80), b[2] - 0x80);
  }

  lemma {:induction false} EncodeDecoded4(b: Bytes)
    requires b != [] && AcceptsFirst(b) && SequenceLength(b[0]) == 4
    ensures Encode(DecodeFirst(b)) == b[..4]
  {
    assert IsContinuation(b[1]) && IsContinuation(b[2]) && IsContinuation(b[3]);
    var b0: int := b[0];
    var x := (b0 - 0xF0) * 64 + (b[1] - 0x80);
    Shift6(b0 - 0xF0, b[1] - 0x80);
    Shift6(x, b[2] - 0x80);
    Shift6(x * 64 + (b[2] - 0x80), b[3] - 0x80);
  }

  lemma {:induction false} AcceptsEncoded(c: Scalar, rest: Bytes)
    ensures AcceptsFirst(Encode(c) + rest)
    ensures SequenceLength((Encode(c) + rest)[0]) == |Encode(c)|
  {
    var b, e := Encode(c) + rest, Encode(c);
    assert forall k | 0 <= k < |e| :: b[k] == e[k];
    assert SequenceLength(e[0]) == |e|;
    assert forall k | 1 <= k < |e| :: IsContinuation(e[k]);
  }

  /** The test accepts exactly the concatenations of encoded scalar values. */
  lemma {:induction false} AcceptsIsWellFormed(b: Bytes)
    ensures Accepts(b) <==> WellFormed(b)
  {
    if Accepts(b) {
      var cs := DecodeAll(b);
    }
    if cs: seq<Scalar> :| EncodeAll(cs) == b {
      AcceptsEncodeAll(cs);
    }
  }

  lemma {:induction false} AcceptsSplit(b: Bytes)
    requires b != [] && Accepts(b)
    ensures AcceptsFirst(b) && 1 <= SequenceLength(b[0]) <= |b| && Accepts(b[SequenceLength(b[0])..])
  {}

  lemma {:induction false} EncodeMore(c: Scalar, cs: seq<Scalar>)
    ensures EncodeAll([c] + cs) == Encode(c) + EncodeAll(cs)
  {
    hide Encode;
    assert ([c] + cs)[1..] == cs;
  }

  lemma {:induction false} DecodeOneMore(b: Bytes, rest: seq<Scalar>)
    requires b != [] && AcceptsFirst(b) && 1 <= SequenceLength(b[0]) <= |b|
    requires EncodeAll(rest) == b[SequenceLength(b[0])..]
    ensures EncodeAll([DecodeFirst(b)] + rest) == b
  {
    hide *;
    EncodeDecoded(b);
    EncodeMore(DecodeFirst(b), rest);
    assert b[..SequenceLength(b[0])] + b[SequenceLength(b[0])..] == b;
  }

  lemma {:induction false} DecodeAll(b: Bytes) returns (cs: seq<Scalar>)
    requires Accepts(b)
    ensures EncodeAll(cs) == b
  {
    if b == [] {
      cs := [];
      assert EncodeAll(cs) == b;
    } else {
      hide *;
      AcceptsSplit(b);
      var n := SequenceLength(b[0]);
      var rest := DecodeAll(b[n..]);
      DecodeOneMore(b, rest);
      cs := [DecodeFirst(b)] + rest;
    }
  }

  lemma {:induction false} AcceptsEncodeAll(cs: seq<Scalar>)
    ensures Accepts(EncodeAll(cs))
  {
    if cs != [] {
      AcceptsEncodeAll(cs[1..]);
      AcceptsEncoded(cs[0], EncodeAll(cs[1..]));
      assert EncodeAll(cs)[|Encode(cs[0])|..] == EncodeAll(cs[1..]);
    }
  }

  /** Decoding is unambiguous: different scalar sequences have different encodings. */
  lemma {:induction false} EncodeAllInjective(cs: seq<Scalar>, ds: seq<Scalar>)
    requires EncodeAll(cs) == EncodeAll(ds)
    ensures cs == ds
  {
    if cs == [] || ds == [] {
    } else {
      var b := EncodeAll(cs);
      AcceptsEncoded(cs[0], EncodeAll(cs[1..]));
      AcceptsEncoded(ds[0], EncodeAll(ds[1..]));
      var n := SequenceLength(b[0]);
      assert b[..n] == Encode(cs[0]) == Encode(ds[0]);
      assert b[n..] == EncodeAll(cs[1..]) == EncodeAll(ds[1..]);
      EncodeInjective(cs[0], ds[0]);
      EncodeAllInjective(cs[1..], ds[1..]);
    }
  }

  lemma {:induction false} EncodeInjective(c: Scalar, d: Scalar)
    requires Encode(c) == Encode(d)
    ensures c == d
  {
    DecodeEncoded(c);
    DecodeEncoded(d);
  }

  lemma {:induction false} DecodeEncoded(c: Scalar)
    ensures AcceptsFirst(Encode(c)) && DecodeFirst(Encode(c)) == c
  {
    AcceptsEncoded(c, []);
    assert Encode(c) + [] == Encode(c);
  }

  method IsValidUtf8(bytes: Bytes) returns (valid: bool)
    ensures valid <==> WellFormed(bytes)
  {
    AcceptsIsWellFormed(bytes);
    var i := 0;
    while i < |bytes|
      invariant i <= |bytes|
      invariant Accepts(bytes) <==> Accepts(bytes[i..])
    {
      var lead := bytes[i];
      var length := SequenceLength(lead);
      if length == 0 || i + length > |bytes| { return false; }
      for k := 1 to length
        invariant forall j | 1 <= j < k :: IsContinuation(bytes[i..][j])
      {
        var continuation := bytes[i + k];
        if continuation < 0x80 || continuation > 0xBF {
          assert !IsContinuation(bytes[i..][k]);
          return false;
        }
      }
      var second := if length > 1 then bytes[i + 1] else 0;
      if length == 3 && lead == 0xE0 && second < 0xA0 { return false; }
      if length == 3 && lead == 0xED && second > 0x9F { return false; }
      if length == 4 && lead == 0xF0 && second < 0x90 { return false; }
      if length == 4 && lead == 0xF4 && second > 0x8F { return false; }
      assert bytes[i..][length..] == bytes[i + length..];
      i := i + length;
    }
    return true;
  }
}
