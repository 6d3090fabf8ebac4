/** Secret references and template rendering: `crates/cache-warden-cli/src/refs.rs`.

    A template is a byte string. A reference is the scheme followed by
    `[NS/]KEY`; the scanner finds references left to right in one pass, and the
    renderer replaces each by its value (reveal) or by a mask (dry run). */
module Refs {
  import opened Wrappers
  import opened Bytes
  import opened Namespace

  type Text = seq<Byte>

  /** `cache-warden://` */
  const SCHEME: Text := [99, 97, 99, 104, 101, 45, 119, 97, 114, 100, 101, 110, 58, 47, 47]
  const SCHEME_LEN: nat := 15

  // ---- what a reference is ----

  predicate SchemeAt(t: Text, i: nat) {
    i + SCHEME_LEN <= |t| && t[i..i + SCHEME_LEN] == SCHEME
  }

  /** The scheme followed by an identifier byte stands at `i`. */
  predicate RefAt(t: Text, i: nat) {
    SchemeAt(t, i) && i + SCHEME_LEN < |t| && IsIdentByte(t[i + SCHEME_LEN])
  }

  lemma SchemeByte(t: Text, i: nat, k: nat)
    requires k < SCHEME_LEN
    ensures SchemeAt(t, i) ==> t[i + k] == SCHEME[k]
  {
    if SchemeAt(t, i) {
      assert t[i + k] == t[i..i + SCHEME_LEN][k];
    }
  }

  /** Length of the maximal run of identifier bytes at the start of `t`. */
  function Segment(t: Text): (n: nat)
    ensures n <= |t|
    ensures forall j :: 0 <= j < n ==> IsIdentByte(t[j])
    ensures n < |t| ==> !IsIdentByte(t[n])
  {
    if t == [] || !IsIdentByte(t[0]) then 0 else 1 + Segment(t[1..])
  }

  /** The maximal `[NS/]KEY` at the start of `t`. */
  function MatchReferenceKey(t: Text): (r: Option<nat>)
    ensures r.Some? <==> t != [] && IsIdentByte(t[0])
    ensures r.Some? ==> 0 < r.value <= |t|
  {
    var first := Segment(t);
    if first == 0 then None
    else if first < |t| && t[first] == SLASH && Segment(t[first + 1..]) > 0 then
      Some(first + 1 + Segment(t[first + 1..]))
    else Some(first)
  }

  /** A key as it may be written in a reference: `KEY` or `NS/KEY`. */
  predicate IsReferenceKey(k: Text) {
    IsIdentifier(k) || SplitComposed(k).Some?
  }

  /** `t[..n]` is the longest prefix of `t` that is a reference key. */
  ghost predicate IsLongestKey(t: Text, n: nat) {
    && n <= |t|
    && IsReferenceKey(t[..n])
    && forall m :: n < m <= |t| ==> !IsReferenceKey(t[..m])
  }

  /** The matcher is greedy: it answers with the longest prefix that is a key. */
  lemma MatchIsLongestKey(t: Text, n: nat)
    ensures MatchReferenceKey(t) == Some(n) <==> IsLongestKey(t, n)
  {
    if MatchReferenceKey(t) == Some(n) {
      MatchIsKey(t, n);
      forall m | n < m <= |t| ensures !IsReferenceKey(t[..m]) {
        LongerIsNoKey(t, n, m);
      }
    }
    if IsLongestKey(t, n) {
      KeyFirstByte(t[..n]);
      assert t[..n][0] == t[0];
      var m := MatchReferenceKey(t).value;
      MatchIsKey(t, m);
      if m < n {
        LongerIsNoKey(t, m, n);
      }
    }
  }

  lemma MatchIsKey(t: Text, n: nat)
    requires MatchReferenceKey(t) == Some(n)
    ensures IsReferenceKey(t[..n])
  {
    var first := Segment(t);
    assert IsIdentifier(t[..first]);
    if n != first {
      assert t[..n] == Compose(t[..first], t[first + 1..n]);
      SplitIffComposed(t[..n], t[..first], t[first + 1..n]);
    }
  }

  lemma LongerIsNoKey(t: Text, n: nat, m: nat)
    requires MatchReferenceKey(t) == Some(n) && n < m <= |t|
    ensures !IsReferenceKey(t[..m])
  {
    var first := Segment(t);
    var p := t[..m];
    assert p[first] == t[first] && !IsIdentByte(p[first]);
    if SplitComposed(p).Some? {
      var (ns, key) := SplitComposed(p).value;
      SplitIffComposed(p, ns, key);
      assert p[|ns|] == SLASH;
      assert forall j :: 0 <= j < |ns| ==> p[j] == ns[j];
      assert |ns| == first;
      var tail := t[first + 1..];
      assert tail[..|key|] == key;
      SegmentAtLeast(tail, |key|);
    }
  }

  lemma SegmentAtLeast(t: Text, n: nat)
    requires n <= |t| && IsIdentifier(t[..n])
    ensures Segment(t) >= n
  {
    assert forall j :: 0 <= j < n ==> IsIdentByte(t[j]) by {
      assert forall j :: 0 <= j < n ==> t[j] == t[..n][j];
    }
  }

  // ---- the scanner ----

  datatype Located = Located(key: Text, start: nat, end: nat)

  /** Spans lie in order, disjoint, within `t[cursor..]`. */
  predicate WellPlaced(t: Text, locs: seq<Located>, cursor: nat) {
    if locs == [] then cursor <= |t|
    else cursor <= locs[0].start < locs[0].end <= |t| && WellPlaced(t, locs[1..], locs[0].end)
  }

  /** One turn of the scanner's loop at `i`: the span it records, if any, and
      where it looks next. */
  function ScanStep(t: Text, i: nat): (r: (Option<Located>, nat))
    requires i < |t|
    ensures i < r.1 <= |t|
    ensures r.0.Some? <==> RefAt(t, i)
    ensures r.0.None? ==> r.1 == if SchemeAt(t, i) then i + SCHEME_LEN else i + 1
    ensures r.0.Some? ==>
      && r.0.value.start == i
      && r.0.value.end == r.1 > i + SCHEME_LEN
      && r.0.value.key == t[i + SCHEME_LEN..r.1]
      && MatchReferenceKey(t[i + SCHEME_LEN..]) == Some(r.1 - i - SCHEME_LEN)
  {
    if SchemeAt(t, i) then
      var keyStart := i + SCHEME_LEN;
      match MatchReferenceKey(t[keyStart..])
      case Some(len) =>
        var end := keyStart + len;
        (Some(Located(t[keyStart..end], i, end)), end)
      case None => (None, keyStart)
    else (None, i + 1)
  }

  /** One pass over `t` from `i`. */
  function ScanFrom(t: Text, i: nat): (r: seq<Located>)
    requires i <= |t|
    decreases |t| - i
  {
    if i == |t| then []
    else
      var (found, next) := ScanStep(t, i);
      if found.Some? then [found.value] + ScanFrom(t, next) else ScanFrom(t, next)
  }

  function References(t: Text): seq<Located> {
    ScanFrom(t, 0)
  }

  method FindReferences(template: Text) returns (out: seq<Located>)
    ensures out == References(template)
  {
    hide MatchReferenceKey, ScanStep, ScanFrom;
    ScanEnds(template);
    out := [];
    var i := 0;
    while i < |template|
      invariant 0 <= i <= |template|
      invariant out + ScanFrom(template, i) == References(template)
      decreases |template| - i
    {
      ScanUnfold(template, i);
      if SchemeAt(template, i) {
        var keyStart := i + SCHEME_LEN;
        var m := MatchReferenceKey(template[keyStart..]);
        match m {
          case Some(len) =>
            var span := Located(template[keyStart..keyStart + len], i, keyStart + len);
            assert out + ([span] + ScanFrom(template, span.end)) == out + [span] + ScanFrom(template, span.end);
            out := out + [span];
            i := span.end;
          case None =>
            i := keyStart;
        }
      } else {
        i := i + 1;
      }
    }
  }

  lemma ScanEnds(t: Text)
    ensures forall out: seq<Located> :: out + ScanFrom(t, |t|) == out
    ensures [] + ScanFrom(t, 0) == References(t)
  {
  }

  lemma ScanUnfold(t: Text, i: nat)
    requires i < |t|
    ensures !SchemeAt(t, i) ==> ScanFrom(t, i) == ScanFrom(t, i + 1)
    ensures SchemeAt(t, i) ==>
      match MatchReferenceKey(t[i + SCHEME_LEN..])
      case None => ScanFrom(t, i) == ScanFrom(t, i + SCHEME_LEN)
      case Some(len) =>
        var end := i + SCHEME_LEN + len;
        ScanFrom(t, i) == [Located(t[i + SCHEME_LEN..end], i, end)] + ScanFrom(t, end)
  {
    hide SchemeAt, MatchReferenceKey;
  }

  /** The scheme has no border: two occurrences never overlap. */
  lemma SchemeHasNoBorder(t: Text, i: nat, j: nat)
    requires SchemeAt(t, i) && i < j < i + SCHEME_LEN
    ensures !SchemeAt(t, j)
  {
    SchemeByte(t, i, j - i);
    if j - i == 2 {
      SchemeByte(t, i, 3);
    }
    SchemeByte(t, j, 0);
    SchemeByte(t, j, 1);
  }

  lemma SchemeFits(t: Text, i: nat)
    ensures SchemeAt(t, i) ==> i + SCHEME_LEN <= |t|
  {
  }

  /** Where the scan from `i` finds its first reference is where the first
      occurrence at or after `i` stands; finding none means there is none. */
  lemma {:induction false} ScanFirst(t: Text, i: nat)
    requires i <= |t|
    ensures var r := ScanFrom(t, i);
            if r == [] then forall j :: i <= j ==> !RefAt(t, j)
            else
              && i <= r[0].start < |t| && RefAt(t, r[0].start)
              && (forall j :: i <= j < r[0].start ==> !RefAt(t, j))
              && ScanStep(t, r[0].start) == (Some(r[0]), r[0].end)
              && r[1..] == ScanFrom(t, r[0].end)
    decreases |t| - i
  {
    hide SchemeAt, MatchReferenceKey;
    SchemeFits(t, i);
    if i < |t| && !RefAt(t, i) {
      if SchemeAt(t, i) {
        forall j | i < j < i + SCHEME_LEN ensures !SchemeAt(t, j) {
          SchemeHasNoBorder(t, i, j);
        }
        ScanFirst(t, i + SCHEME_LEN);
      } else {
        ScanFirst(t, i + 1);
      }
    }
  }

  // ---- soundness, completeness and uniqueness of the scan ----

  /** The reference text of a span: scheme plus the longest key that follows. */
  ghost predicate SpanIsReference(t: Text, loc: Located) {
    && loc.start + SCHEME_LEN < loc.end <= |t|
    && t[loc.start..loc.end] == SCHEME + loc.key
    && IsLongestKey(t[loc.start + SCHEME_LEN..], |loc.key|)
  }

  /** Occurrence `i` is a located start, or is swallowed by an earlier span,
      whose key then ends exactly with the word `cache` of the occurrence. */
  ghost predicate Covered(t: Text, locs: seq<Located>, i: nat) {
    exists k :: 0 <= k < |locs| && (locs[k].start == i || (locs[k].start < i && locs[k].end == i + 5))
  }

  ghost predicate IsScan(t: Text, locs: seq<Located>, i: nat) {
    && WellPlaced(t, locs, i)
    && (forall k :: 0 <= k < |locs| ==> SpanIsReference(t, locs[k]))
    && (forall j :: i <= j && RefAt(t, j) ==> Covered(t, locs, j))
  }

  lemma KeyBytes(k: Text, j: nat)
    requires IsReferenceKey(k) && j < |k|
    ensures IsIdentByte(k[j]) || k[j] == SLASH
  {
    if !IsIdentifier(k) {
      var (ns, key) := SplitComposed(k).value;
      SplitIffComposed(k, ns, key);
      assert j < |ns| ==> k[j] == ns[j];
      assert j > |ns| ==> k[j] == key[j - |ns| - 1];
    }
  }

  lemma SpanBytes(t: Text, loc: Located)
    requires SpanIsReference(t, loc)
    ensures SchemeAt(t, loc.start) && |loc.key| == loc.end - loc.start - SCHEME_LEN
    ensures t[loc.start + SCHEME_LEN..loc.end] == loc.key
    ensures t[loc.start + SCHEME_LEN..][..|loc.key|] == loc.key
  {
    var span := t[loc.start..loc.end];
    assert span[..SCHEME_LEN] == t[loc.start..loc.start + SCHEME_LEN];
    assert span[SCHEME_LEN..] == t[loc.start + SCHEME_LEN..loc.end];
  }

  /** An occurrence that begins inside a span begins five bytes before its end. */
  lemma SwallowedOccurrence(t: Text, loc: Located, j: nat)
    requires SpanIsReference(t, loc) && loc.start < j < loc.end && SchemeAt(t, j)
    ensures loc.end == j + 5
  {
    SpanBytes(t, loc);
    var keyStart := loc.start + SCHEME_LEN;
    if j < keyStart {
      SchemeHasNoBorder(t, loc.start, j);
    } else {
      SchemeByte(t, j, 5);
      assert forall m :: 0 <= m < |loc.key| ==> loc.key[m] == t[keyStart + m];
      if j + 5 < loc.end {
        KeyBytes(loc.key, j + 5 - keyStart);
      }
      if loc.end < j + 5 {
        // the key could have been extended through the rest of `cache`
        var tail := t[keyStart..];
        forall m | j - keyStart <= m < j + 5 - keyStart ensures IsIdentByte(tail[m]) {
          SchemeByte(t, j, m + keyStart - j);
        }
        ExtendKey(tail, |loc.key|, j + 5 - keyStart, j - keyStart);
      }
    }
  }

  /** A key that ends inside a run of identifier bytes is not the longest one. */
  lemma ExtendKey(t: Text, n: nat, m: nat, from: nat)
    requires from < n < m <= |t|
    requires IsReferenceKey(t[..n])
    requires forall j :: from <= j < m ==> IsIdentByte(t[j])
    ensures IsReferenceKey(t[..m])
  {
    if IsIdentifier(t[..n]) {
      assert forall j :: 0 <= j < n ==> t[..n][j] == t[j];
      assert IsIdentifier(t[..m]);
    } else {
      hide SplitComposed, IsIdentByte;
      var (ns, key) := SplitComposed(t[..n]).value;
      SplitIffComposed(t[..n], ns, key);
      var more := t[n..m];
      assert t[..m] == t[..n] + more == Compose(ns, key + more);
      assert forall j :: 0 <= j < |more| ==> more[j] == t[n + j];
      SplitIffComposed(t[..m], ns, key + more);
    }
  }

  lemma {:induction false} ScanIsScan(t: Text, i: nat)
    requires i <= |t|
    ensures IsScan(t, ScanFrom(t, i), i)
    decreases |t| - i
  {
    ScanFirst(t, i);
    var r := ScanFrom(t, i);
    if r != [] {
      var loc := r[0];
      FirstSpanIsReference(t, i);
      ScanIsScan(t, loc.end);
      forall j | i <= j && RefAt(t, j) ensures Covered(t, r, j) {
        if loc.start < j < loc.end {
          SwallowedOccurrence(t, loc, j);
          assert r[0].end == j + 5;
        } else if j >= loc.end {
          assert Covered(t, r[1..], j);
          var k :| 0 <= k < |r[1..]| && (r[1..][k].start == j || (r[1..][k].start < j && r[1..][k].end == j + 5));
          assert r[k + 1] == r[1..][k];
        }
      }
      forall k | 0 <= k < |r| ensures SpanIsReference(t, r[k]) {
        if k > 0 { assert r[k] == r[1..][k - 1]; }
      }
    }
  }

  lemma FirstSpanIsReference(t: Text, i: nat)
    requires i <= |t| && ScanFrom(t, i) != []
    ensures SpanIsReference(t, ScanFrom(t, i)[0])
  {
    hide MatchReferenceKey, SpanIsReference, ScanFrom;
    ScanFirst(t, i);
    MakeSpan(t, ScanFrom(t, i)[0]);
  }

  lemma MakeSpan(t: Text, loc: Located)
    requires SchemeAt(t, loc.start) && loc.start + SCHEME_LEN < loc.end <= |t|
    requires loc.key == t[loc.start + SCHEME_LEN..loc.end]
    requires MatchReferenceKey(t[loc.start + SCHEME_LEN..]) == Some(|loc.key|)
    ensures SpanIsReference(t, loc)
  {
    var keyStart := loc.start + SCHEME_LEN;
    assert t[loc.start..loc.end] == t[loc.start..keyStart] + t[keyStart..loc.end];
    MatchIsLongestKey(t[keyStart..], |loc.key|);
  }

  /** Soundness and completeness together leave one possible answer. */
  lemma HeadIsReference(t: Text, a: seq<Located>, i: nat)
    requires IsScan(t, a, i) && a != []
    ensures SpanIsReference(t, a[0])
  {
  }

  lemma ScanNothing(t: Text, a: seq<Located>, b: seq<Located>, i: nat)
    requires IsScan(t, a, i) && IsScan(t, b, i) && (a == [] || b == [])
    ensures a == b
  {
    if b != [] {
      SpanStartsReference(t, b[0]);
    }
    if a != [] {
      SpanStartsReference(t, a[0]);
    }
  }

  lemma {:induction false} ScanUnique(t: Text, a: seq<Located>, b: seq<Located>, i: nat)
    requires IsScan(t, a, i) && IsScan(t, b, i)
    ensures a == b
    decreases |a|
  {
    if a == [] || b == [] {
      ScanNothing(t, a, b, i);
    } else {
      hide IsScan;
      assert SpanIsReference(t, a[0]) && SpanIsReference(t, b[0]) by { HeadIsReference(t, a, i); HeadIsReference(t, b, i); }
      FirstStartLeast(t, a, b, i);
      FirstStartLeast(t, b, a, i);
      SameStartSameSpan(t, a[0], b[0]);
      TailIsScan(t, a, i);
      TailIsScan(t, b, i);
      ScanUnique(t, a[1..], b[1..], a[0].end);
      assert a == [a[0]] + a[1..] && b == [b[0]] + b[1..];
    }
  }

  lemma SpanStartsReference(t: Text, loc: Located)
    requires SpanIsReference(t, loc)
    ensures RefAt(t, loc.start)
  {
    SpanBytes(t, loc);
    KeyFirstByte(loc.key);
    assert loc.key[0] == t[loc.start + SCHEME_LEN];
  }

  lemma KeyFirstByte(k: Text)
    requires IsReferenceKey(k)
    ensures k != [] && IsIdentByte(k[0])
  {
    if !IsIdentifier(k) {
      var (ns, key) := SplitComposed(k).value;
      SplitIffComposed(k, ns, key);
      assert k[0] == ns[0];
    }
  }

  lemma WellPlacedAfter(t: Text, locs: seq<Located>, i: nat, k: nat)
    requires WellPlaced(t, locs, i) && k < |locs|
    ensures i <= locs[k].start < locs[k].end
    ensures k > 0 ==> locs[0].end <= locs[k].start
  {
    if k > 0 {
      WellPlacedAfter(t, locs[1..], locs[0].end, k - 1);
      assert locs[k] == locs[1..][k - 1];
    }
  }

  lemma FirstStartLeast(t: Text, a: seq<Located>, b: seq<Located>, i: nat)
    requires IsScan(t, a, i) && IsScan(t, b, i) && a != [] && b != []
    ensures a[0].start <= b[0].start
  {
    SpanStartsReference(t, b[0]);
    var j := b[0].start;
    assert Covered(t, a, j);
    var k :| 0 <= k < |a| && (a[k].start == j || (a[k].start < j && a[k].end == j + 5));
    WellPlacedAfter(t, a, i, k);
  }

  lemma SameStartSameSpan(t: Text, a: Located, b: Located)
    requires SpanIsReference(t, a) && SpanIsReference(t, b) && a.start == b.start
    ensures a == b
  {
    SpanBytes(t, a);
    SpanBytes(t, b);
  }

  lemma TailIsScan(t: Text, a: seq<Located>, i: nat)
    requires IsScan(t, a, i) && a != []
    ensures IsScan(t, a[1..], a[0].end)
  {
    forall j | a[0].end <= j && RefAt(t, j) ensures Covered(t, a[1..], j) {
      assert Covered(t, a, j);
      var k :| 0 <= k < |a| && (a[k].start == j || (a[k].start < j && a[k].end == j + 5));
      assert k > 0;
      assert a[1..][k - 1] == a[k];
    }
  }

  /** The scanner returns the one sound and complete list of spans. */
  lemma ReferencesCharacterised(t: Text, locs: seq<Located>)
    ensures locs == References(t) <==> IsScan(t, locs, 0)
  {
    ScanIsScan(t, 0);
    if IsScan(t, locs, 0) {
      ScanUnique(t, locs, References(t), 0);
    }
  }
}
