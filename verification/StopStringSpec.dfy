/**
 The naive meaning of stop-string matching: a scan over the whole byte stream, with no automaton,
 no chunks and no buffering. The streaming matcher is proved against these definitions.
 */
module StopStringSpec {
  import opened Common

  predicate EndsWith(s: Bytes, p: Bytes) {
    |p| <= |s| && s[|s| - |p|..] == p
  }

  /** s ends with the first k bytes of p, and with no longer prefix of it. */
  ghost predicate LongestPrefix(p: Bytes, s: Bytes, k: nat) {
    && k <= |p|
    && EndsWith(s, p[..k])
    && forall j | k < j <= |p| :: !EndsWith(s, p[..j])
  }

  function PrefixLengthUpTo(p: Bytes, s: Bytes, n: nat): (k: nat)
    requires n <= |p|
    ensures k <= n && k <= |s|
  {
    if EndsWith(s, p[..n]) then n else PrefixLengthUpTo(p, s, n - 1)
  }

  function PrefixLength(p: Bytes, s: Bytes): (k: nat)
    ensures k <= |p| && k <= |s|
  {
    PrefixLengthUpTo(p, s, |p|)
  }

  lemma {:induction false} PrefixLengthUpToIsLongest(p: Bytes, s: Bytes, n: nat)
    requires n <= |p|
    ensures var k := PrefixLengthUpTo(p, s, n);
            && EndsWith(s, p[..k])
            && forall j | k < j <= n :: !EndsWith(s, p[..j])
  {
    if !EndsWith(s, p[..n]) { PrefixLengthUpToIsLongest(p, s, n - 1); }
  }

  lemma {:induction false} PrefixLengthIsLongest(p: Bytes, s: Bytes)
    ensures LongestPrefix(p, s, PrefixLength(p, s))
  {
    PrefixLengthUpToIsLongest(p, s, |p|);
  }

  lemma {:induction false} LongestPrefixUnique(p: Bytes, s: Bytes, k: nat)
    requires LongestPrefix(p, s, k)
    ensures k == PrefixLength(p, s)
  {
    hide EndsWith, FirstMatch, BestEnding, PrefixLengthUpTo, HeldUpTo;
    var l := PrefixLength(p, s);
    PrefixLengthIsLongest(p, s);
    assert EndsWith(s, p[..l]) && EndsWith(s, p[..k]);
  }

  datatype Match = Match(index: nat, start: nat, end: nat)

  ghost predicate NonEmpty(ps: seq<Bytes>) {
    forall i | 0 <= i < |ps| :: ps[i] != []
  }

  /** Stop string i has an occurrence in s that ends just before offset e. */
  ghost predicate OccursAt(ps: seq<Bytes>, s: Bytes, i: nat, e: nat) {
    i < |ps| && e <= |s| && EndsWith(s[..e], ps[i])
  }

  ghost predicate HasMatch(ps: seq<Bytes>, s: Bytes) {
    exists i: nat, e: nat :: OccursAt(ps, s, i, e)
  }

  /** Occurrence (i, e) is preferred: earliest end, then longest, then lowest index. */
  ghost predicate Preferred(ps: seq<Bytes>, s: Bytes, i: nat, e: nat)
    requires OccursAt(ps, s, i, e)
  {
    forall j: nat, f: nat | OccursAt(ps, s, j, f) ::
      || e < f
      || (e == f && |ps[j]| < |ps[i]|)
      || (e == f && |ps[j]| == |ps[i]| && i <= j)
  }

  ghost predicate IsFirstMatch(ps: seq<Bytes>, s: Bytes, m: Match) {
    && OccursAt(ps, s, m.index, m.end)
    && m.start == m.end - |ps[m.index]|
    && Preferred(ps, s, m.index, m.end)
  }

  /** Among the first n stop strings, the longest that s ends with, lowest index first. */
  function BestEnding(ps: seq<Bytes>, s: Bytes, n: nat): (best: Option<nat>)
    requires n <= |ps|
    ensures best.Some? ==> best.value < n && |ps[best.value]| <= |s|
  {
    if n == 0 then None
    else
      var best := BestEnding(ps, s, n - 1);
      if EndsWith(s, ps[n - 1]) && (best.None? || |ps[best.value]| < |ps[n - 1]|) then Some(n - 1) else best
  }

  lemma {:induction false} BestEndingIsBest(ps: seq<Bytes>, s: Bytes, n: nat)
    requires n <= |ps|
    ensures var best := BestEnding(ps, s, n);
            && (best.Some? ==>
                  && EndsWith(s, ps[best.value])
                  && forall j | 0 <= j < n && EndsWith(s, ps[j]) ::
                       |ps[j]| < |ps[best.value]| || (|ps[j]| == |ps[best.value]| && best.value <= j))
            && (best.None? ==> forall j | 0 <= j < n :: !EndsWith(s, ps[j]))
  {
    hide EndsWith;
    if 0 < n { BestEndingIsBest(ps, s, n - 1); }
  }

  /** The scan: the first prefix of s at which some stop string ends. */
  function FirstMatch(ps: seq<Bytes>, s: Bytes): (m: Option<Match>)
    ensures m.Some? ==> m.value.index < |ps| && m.value.start + |ps[m.value.index]| == m.value.end <= |s|
  {
    if s == [] then None
    else
      var earlier := FirstMatch(ps, s[..|s| - 1]);
      if earlier.Some? then earlier
      else
        var best := BestEnding(ps, s, |ps|);
        if best.None? then None else Some(Match(best.value, |s| - |ps[best.value]|, |s|))
  }

  lemma {:induction false} OccursInPrefix(ps: seq<Bytes>, s: Bytes, n: nat, i: nat, e: nat)
    requires e <= n <= |s|
    ensures OccursAt(ps, s[..n], i, e) <==> OccursAt(ps, s, i, e)
  {
    assert s[..n][..e] == s[..e];
  }

  /** The scan computes exactly the match the documentation promises, and reports none exactly when none exists. */
  lemma {:induction false} FirstMatchIsFirst(ps: seq<Bytes>, s: Bytes)
    requires NonEmpty(ps)
    ensures FirstMatch(ps, s).Some? ==> IsFirstMatch(ps, s, FirstMatch(ps, s).value)
    ensures FirstMatch(ps, s).None? ==> !HasMatch(ps, s)
  {
    if s == [] {
      forall i: nat, e: nat ensures !OccursAt(ps, s, i, e) {}
    } else {
      var t := s[..|s| - 1];
      FirstMatchIsFirst(ps, t);
      BestEndingIsBest(ps, s, |ps|);
      forall i: nat, e: nat ensures OccursAt(ps, s, i, e) ==> e == |s| || OccursAt(ps, t, i, e) {
        if e < |s| { OccursInPrefix(ps, s, |s| - 1, i, e); }
      }
      assert s[..|s|] == s;
      var m := FirstMatch(ps, s);
      if FirstMatch(ps, t).Some? {
        OccursInPrefix(ps, s, |s| - 1, m.value.index, m.value.end);
      } else if m.Some? {
        forall j: nat, f: nat | OccursAt(ps, s, j, f) ensures f == |s| && EndsWith(s, ps[j]) {
          assert !OccursAt(ps, t, j, f);
        }
      } else {
        assert forall j: nat, f: nat :: !OccursAt(ps, t, j, f);
      }
    }
  }

  lemma {:induction false} FirstMatchUnique(ps: seq<Bytes>, s: Bytes, m: Match)
    requires NonEmpty(ps)
    requires IsFirstMatch(ps, s, m)
    ensures FirstMatch(ps, s) == Some(m)
  {
    hide FirstMatch, BestEnding, PrefixLengthUpTo, HeldUpTo;
    FirstMatchIsFirst(ps, s);
    assert HasMatch(ps, s);
    var n := FirstMatch(ps, s).value;
    assert OccursAt(ps, s, n.index, n.end);
  }

  /** Once found, the match is not changed by any later bytes. */
  lemma {:induction false} FirstMatchSticky(ps: seq<Bytes>, s: Bytes, t: Bytes)
    requires FirstMatch(ps, s).Some?
    ensures FirstMatch(ps, s + t) == FirstMatch(ps, s)
  {
    if t == [] {
      assert s + t == s;
    } else {
      var u := t[..|t| - 1];
      FirstMatchSticky(ps, s, u);
      assert (s + t)[..|s + t| - 1] == s + u;
    }
  }

  // ----- hold-back

  /** The longest suffix of s that is a prefix of one of the first n stop strings. */
  function HeldUpTo(ps: seq<Bytes>, s: Bytes, n: nat): (h: nat)
    requires n <= |ps|
    ensures h <= |s|
  {
    if n == 0 then 0
    else
      var h := HeldUpTo(ps, s, n - 1);
      var k := PrefixLength(ps[n - 1], s);
      if h < k then k else h
  }

  lemma {:induction false} HeldUpToIsMax(ps: seq<Bytes>, s: Bytes, n: nat)
    requires n <= |ps|
    ensures var h := HeldUpTo(ps, s, n);
            && (forall i | 0 <= i < n :: PrefixLength(ps[i], s) <= h)
            && (h == 0 || exists i :: 0 <= i < n && PrefixLength(ps[i], s) == h)
  {
    hide EndsWith;
    if 0 < n { HeldUpToIsMax(ps, s, n - 1); }
  }

  function Held(ps: seq<Bytes>, s: Bytes): (h: nat)
    ensures h <= |s|
  {
    HeldUpTo(ps, s, |ps|)
  }

  /** Suffix u of s could still grow into a stop string. */
  ghost predicate Extendable(ps: seq<Bytes>, s: Bytes, u: nat) {
    u <= |s| && exists i :: 0 <= i < |ps| && u < |ps[i]| && s[|s| - u..] == ps[i][..u]
  }

  /** Before a match, the held-back length is the longest extendable suffix. */
  lemma {:induction false} HeldIsLongestExtendable(ps: seq<Bytes>, s: Bytes, u: nat)
    requires NonEmpty(ps)
    requires FirstMatch(ps, s).None?
    ensures ps != [] ==> Extendable(ps, s, Held(ps, s))
    ensures Extendable(ps, s, u) ==> u <= Held(ps, s)
  {
    hide FirstMatch, BestEnding, PrefixLengthUpTo, HeldUpTo;
    var h := Held(ps, s);
    FirstMatchIsFirst(ps, s);
    HeldUpToIsMax(ps, s, |ps|);
    if ps != [] {
      var i :| 0 <= i < |ps| && (h == 0 || PrefixLength(ps[i], s) == h);
      PrefixLengthIsLongest(ps[i], s);
      assert ps[i][..|ps[i]|] == ps[i] && s[..|s|] == s;
      assert !OccursAt(ps, s, i, |s|);
      assert s[|s| - h..] == ps[i][..h];
    }
    if Extendable(ps, s, u) {
      var i :| 0 <= i < |ps| && u < |ps[i]| && s[|s| - u..] == ps[i][..u];
      assert EndsWith(s, ps[i][..u]);
      PrefixLengthIsLongest(ps[i], s);
    }
  }

  /** Everything published by the time stream s has been fed. */
  function Released(ps: seq<Bytes>, s: Bytes): (r: Bytes)
    ensures r <= s
  {
    var m := FirstMatch(ps, s);
    if m.Some? then s[..m.value.start] else s[..|s| - Held(ps, s)]
  }

  /** How much is released: everything before the match, or everything before the longest suffix that could still
      grow into a stop string. */
  lemma {:induction false} ReleasedExactly(ps: seq<Bytes>, s: Bytes, u: nat)
    requires NonEmpty(ps)
    ensures FirstMatch(ps, s).Some? ==> Released(ps, s) == s[..FirstMatch(ps, s).value.start]
    ensures FirstMatch(ps, s).None? ==>
              var held := |s| - |Released(ps, s)|;
              && (0 < held ==> Extendable(ps, s, held))
              && (Extendable(ps, s, u) ==> u <= held)
  {
    hide FirstMatch, Held, Extendable;
    if FirstMatch(ps, s).None? {
      HeldIsLongestExtendable(ps, s, u);
      if ps == [] { NothingHeld(s); }
    }
  }

  lemma {:induction false} NothingHeld(s: Bytes)
    ensures Held([], s) == 0
  {}

  /** The stream up to and including the match, which is all the automata ever see. */
  function Live(ps: seq<Bytes>, s: Bytes): Bytes {
    var m := FirstMatch(ps, s);
    if m.Some? then s[..m.value.end] else s
  }

  /** A match completed by later bytes ends in them, and what s contributes to it is extendable. */
  lemma {:induction false} MatchAcross(ps: seq<Bytes>, s: Bytes, t: Bytes)
    requires NonEmpty(ps)
    requires FirstMatch(ps, s).None? && FirstMatch(ps, s + t).Some?
    ensures var m := FirstMatch(ps, s + t).value;
            && |s| < m.end
            && (m.start < |s| ==> Extendable(ps, s, |s| - m.start))
  {
    hide FirstMatch, BestEnding, PrefixLengthUpTo, HeldUpTo;
    var w := s + t;
    var m := FirstMatch(ps, w).value;
    FirstMatchIsFirst(ps, s);
    FirstMatchIsFirst(ps, w);
    assert w[..|s|] == s;
    if m.end <= |s| {
      OccursInPrefix(ps, w, |s|, m.index, m.end);
      assert false;
    }
    if m.start < |s| {
      var p := ps[m.index];
      assert w[..m.end][m.end - |p|..] == p;
      assert s[m.start..] == p[..|s| - m.start];
    }
  }

  /** No byte released before a match belongs to the match that comes later. */
  lemma {:induction false} ReleasedBeforeMatch(ps: seq<Bytes>, s: Bytes, t: Bytes)
    requires NonEmpty(ps)
    requires FirstMatch(ps, s).None? && FirstMatch(ps, s + t).Some?
    ensures |Released(ps, s)| <= FirstMatch(ps, s + t).value.start
  {
    hide EndsWith, FirstMatch, BestEnding, PrefixLengthUpTo, HeldUpTo;
    MatchAcross(ps, s, t);
    var m := FirstMatch(ps, s + t).value;
    if m.start < |s| { HeldIsLongestExtendable(ps, s, |s| - m.start); }
  }

  lemma {:induction false} EndsWithSplit(s: Bytes, t: Bytes, p: Bytes, h: nat)
    requires |t| <= h <= |p|
    requires EndsWith(s + t, p[..h])
    ensures EndsWith(s, p[..h - |t|])
  {
    var u := h - |t|;
    var w := s + t;
    assert w[|w| - h..] == p[..h];
    forall k | 0 <= k < u ensures s[|s| - u + k] == p[k] {
      assert w[|w| - h..][k] == p[..h][k];
    }
  }

  /** What is held back after t more bytes was held back before or is new. */
  lemma {:induction false} HeldGrowth(ps: seq<Bytes>, s: Bytes, t: Bytes)
    ensures Held(ps, s + t) <= Held(ps, s) + |t|
  {
    hide FirstMatch, BestEnding, PrefixLengthUpTo, HeldUpTo;
    var h := Held(ps, s + t);
    HeldUpToIsMax(ps, s + t, |ps|);
    HeldUpToIsMax(ps, s, |ps|);
    if |t| < h {
      var i :| 0 <= i < |ps| && PrefixLength(ps[i], s + t) == h;
      PrefixLengthIsLongest(ps[i], s + t);
      EndsWithSplit(s, t, ps[i], h);
      PrefixLengthIsLongest(ps[i], s);
      assert PrefixLength(ps[i], s) <= Held(ps, s);
    }
  }

  /** Released output only grows. */
  lemma {:induction false} ReleasedMonotone(ps: seq<Bytes>, s: Bytes, t: Bytes)
    requires NonEmpty(ps)
    ensures Released(ps, s) <= Released(ps, s + t)
  {
    hide EndsWith, FirstMatch, BestEnding, PrefixLengthUpTo, HeldUpTo;
    if FirstMatch(ps, s).Some? {
      FirstMatchSticky(ps, s, t);
    } else if FirstMatch(ps, s + t).Some? {
      ReleasedBeforeMatch(ps, s, t);
    } else {
      HeldGrowth(ps, s, t);
    }
  }

  // ----- when holding back is necessary

  /** The continuation t makes the first held byte the first byte of the match. */
  ghost predicate StartsHeldMatch(ps: seq<Bytes>, s: Bytes, t: Bytes) {
    var m := FirstMatch(ps, s + t);
    m.Some? && m.value.start == |s| - Held(ps, s)
  }

  /** No stop string lies strictly inside p: after its first byte and before its last. */
  ghost predicate InnerFree(ps: seq<Bytes>, p: Bytes) {
    forall j, e | 0 <= j < |ps| && |ps[j]| < e < |p| :: !EndsWith(p[..e], ps[j])
  }

  /** p starts with the held suffix and is not all of it. */
  ghost predicate Continues(s: Bytes, h: nat, p: Bytes) {
    h < |p| && h <= |s| && p[..h] == s[|s| - h..]
  }

  lemma {:induction false} PartOfPart(w: Bytes, start: nat, n: nat, k: nat, e: nat)
    requires k <= e <= n && start + n <= |w|
    ensures w[..start + e][start + k..] == w[start..start + n][..e][k..]
  {
    var a, b := w[..start + e][start + k..], w[start..start + n][..e][k..];
    forall x | 0 <= x < e - k ensures a[x] == b[x] { assert a[x] == w[start + k + x]; }
  }

  /** An occurrence inside a part of a stream is one of the stream. */
  lemma {:induction false} OccursInPart(ps: seq<Bytes>, w: Bytes, start: nat, p: Bytes, j: nat, e: nat)
    requires j < |ps| && start + |p| <= |w| && w[start..start + |p|] == p && |ps[j]| <= e <= |p|
    ensures OccursAt(ps, w, j, start + e) <==> EndsWith(p[..e], ps[j])
  {
    var k := e - |ps[j]|;
    PartOfPart(w, start, |p|, k, e);
  }

  /** Some continuation makes the first held byte the first byte of the match exactly when some stop string
      starts with the held suffix, goes on beyond it, and has no stop string strictly inside it. */
  lemma {:induction false} HeldIsNecessaryIff(ps: seq<Bytes>, s: Bytes)
    requires NonEmpty(ps) && FirstMatch(ps, s).None?
    ensures (exists t: Bytes :: StartsHeldMatch(ps, s, t))
            <==> exists i :: 0 <= i < |ps| && Continues(s, Held(ps, s), ps[i]) && InnerFree(ps, ps[i])
  {
    hide FirstMatch, Held, InnerFree, Continues, StartsHeldMatch;
    if t: Bytes :| StartsHeldMatch(ps, s, t) { var i := HeldMatchIsFree(ps, s, t); }
    if i :| 0 <= i < |ps| && Continues(s, Held(ps, s), ps[i]) && InnerFree(ps, ps[i]) {
      var t := FreeStartsMatch(ps, s, i);
    }
  }

  /** Had the matched string another inside it, that one would have ended first. */
  lemma {:induction false} HeldMatchIsFree(ps: seq<Bytes>, s: Bytes, t: Bytes) returns (i: nat)
    requires NonEmpty(ps) && FirstMatch(ps, s).None? && StartsHeldMatch(ps, s, t)
    ensures i < |ps| && Continues(s, Held(ps, s), ps[i]) && InnerFree(ps, ps[i])
  {
    hide FirstMatch, Held, EndsWith;
    var w := s + t;
    var m := FirstMatch(ps, w).value;
    i := m.index;
    var p := ps[i];
    FirstMatchIsFirst(ps, w);
    MatchAcross(ps, s, t);
    MatchedPart(ps, w, m);
    assert w[m.start..m.end][..|s| - m.start] == s[m.start..];
    forall j, e | 0 <= j < |ps| && |ps[j]| < e < |p| ensures !EndsWith(p[..e], ps[j]) {
      OccursInPart(ps, w, m.start, p, j, e);
    }
  }

  lemma {:induction false} MatchedPart(ps: seq<Bytes>, w: Bytes, m: Match)
    requires IsFirstMatch(ps, w, m)
    ensures m.end <= |w| && m.start + |ps[m.index]| == m.end && w[m.start..m.end] == ps[m.index]
  {
    hide Preferred;
    assert w[..m.end][m.start..] == w[m.start..m.end];
  }

  /** Completing such a string gives a match that starts with it. */
  lemma {:induction false} FreeStartsMatch(ps: seq<Bytes>, s: Bytes, i: nat) returns (t: Bytes)
    requires NonEmpty(ps) && FirstMatch(ps, s).None?
    requires i < |ps| && Continues(s, Held(ps, s), ps[i]) && InnerFree(ps, ps[i])
    ensures StartsHeldMatch(ps, s, t)
  {
    hide FirstMatch, Held, EndsWith, InnerFree;
    var h, p := Held(ps, s), ps[i];
    t := p[h..];
    var w, start := s + t, |s| - h;
    Completed(s, h, p);
    OccursInPart(ps, w, start, p, i, |p|);
    WholeEnds(p);
    FirstMatchIsFirst(ps, w);
    assert OccursAt(ps, w, i, |w|);
    var m := FirstMatch(ps, w).value;
    MatchedPart(ps, w, m);
    ReleasedBeforeMatch(ps, s, t);
    if start < m.start {
      OccursInPart(ps, w, start, p, m.index, m.end - start);
      InnerFreeAt(ps, p, m.index, m.end - start);
    }
  }

  lemma {:induction false} InnerFreeAt(ps: seq<Bytes>, p: Bytes, j: nat, e: nat)
    requires InnerFree(ps, p) && j < |ps| && |ps[j]| < e <= |p| && EndsWith(p[..e], ps[j])
    ensures e == |p|
  {}

  lemma {:induction false} WholeEnds(p: Bytes)
    ensures EndsWith(p[..|p|], p)
  {}

  lemma {:induction false} Completed(s: Bytes, h: nat, p: Bytes)
    requires Continues(s, h, p)
    ensures (s + p[h..])[|s| - h..] == p && |s + p[h..]| == |s| - h + |p|
    ensures (s + p[h..])[|s| - h..|s| - h + |p|] == p
  {
    assert (s + p[h..])[|s| - h..] == s[|s| - h..] + p[h..];
  }

  /** A held byte may be one that no continuation can match: with stop strings "abcd" and "c",
      the text "ab" is held although every "c" ends the stream at that "c". */
  lemma {:induction false} HeldMayBeUnnecessary(ps: seq<Bytes>, s: Bytes, t: Bytes)
    requires ps == [[97, 98, 99, 100], [99]] && s == [97, 98]
    ensures FirstMatch(ps, s).None? && Held(ps, s) == 2 && !StartsHeldMatch(ps, s, t)
  {
    UnnecessaryHold(ps, s);
    hide FirstMatch, Held, StartsHeldMatch;
    assert EndsWith(ps[0][..3], ps[1]);
    if StartsHeldMatch(ps, s, t) {
      var i := HeldMatchIsFree(ps, s, t);
    }
  }

  lemma {:induction false} UnnecessaryHold(ps: seq<Bytes>, s: Bytes)
    requires ps == [[97, 98, 99, 100], [99]] && s == [97, 98]
    ensures FirstMatch(ps, s).None? && Held(ps, s) == 2
  {
    hide FirstMatch, Held, Extendable;
    NotFound(ps, s);
    TwoHeld(ps, s);
    HeldIsLongestExtendable(ps, s, 2);
  }

  lemma {:induction false} NotFound(ps: seq<Bytes>, s: Bytes)
    requires ps == [[97, 98, 99, 100], [99]] && s == [97, 98]
    ensures NonEmpty(ps) && FirstMatch(ps, s).None?
  {
    hide FirstMatch;
    FirstMatchIsFirst(ps, s);
    forall i, e | 0 <= i < |ps| && 0 <= e <= |s| ensures !OccursAt(ps, s, i, e) {
      if i == 1 && 0 < e { assert s[..e][e - 1..][0] != ps[1][0]; }
    }
  }

  lemma {:induction false} TwoHeld(ps: seq<Bytes>, s: Bytes)
    requires ps == [[97, 98, 99, 100], [99]] && s == [97, 98]
    ensures Extendable(ps, s, 2)
  {
    assert s[|s| - 2..] == ps[0][..2];
  }
}
