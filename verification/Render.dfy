/** Resolving references and rendering templates: the second half of
    `crates/cache-warden-cli/src/refs.rs` and the `inject` pipeline. */
module Render {
  import opened Wrappers
  import opened Bytes
  import opened Namespace
  import opened Refs

  datatype Mode = Reveal | DryRun

  /** A value carried back (reveal), or only checked (dry run). */
  datatype Resolved = Bytes(bytes: Text) | Verified

  type Answer = Result<Resolved, Text>

  datatype Rendered = Rendered(bytes: Text, failures: seq<Text>)

  /** `<cache-warden:` */
  const MASK_OPEN: Text := [60, 99, 97, 99, 104, 101, 45, 119, 97, 114, 100, 101, 110, 58]
  /** `:masked>` */
  const MASK_OK: Text := [58, 109, 97, 115, 107, 101, 100, 62]
  /** `:failed>` */
  const MASK_BAD: Text := [58, 102, 97, 105, 108, 101, 100, 62]

  function Mask(key: Text, ok: bool): Text {
    MASK_OPEN + key + (if ok then MASK_OK else MASK_BAD)
  }

  predicate Succeeds(m: map<Text, Answer>, key: Text) {
    key in m && m[key].Ok?
  }

  /** What replaces one reference. A failed reference in reveal mode keeps its
      own text, but nothing of that output is ever handed out. */
  function Piece(loc: Located, m: map<Text, Answer>, mode: Mode, ctx: Text): Text {
    var key := Qualify(loc.key, ctx);
    if !Succeeds(m, key) then
      if mode == DryRun then Mask(key, false) else SCHEME + loc.key
    else if mode == Reveal && m[key].value.Bytes? then m[key].value.bytes
    else Mask(key, true)
  }

  function Pieces(locs: seq<Located>, m: map<Text, Answer>, mode: Mode, ctx: Text): (r: seq<Text>)
    ensures |r| == |locs|
    ensures forall k :: 0 <= k < |locs| ==> r[k] == Piece(locs[k], m, mode, ctx)
  {
    seq(|locs|, k requires 0 <= k < |locs| => Piece(locs[k], m, mode, ctx))
  }

  /** `t[cursor..]` with every span replaced by its piece. */
  function Splice(t: Text, locs: seq<Located>, cursor: nat, pieces: seq<Text>): Text
    requires WellPlaced(t, locs, cursor) && |pieces| == |locs|
  {
    if locs == [] then t[cursor..]
    else t[cursor..locs[0].start] + pieces[0] + Splice(t, locs[1..], locs[0].end, pieces[1..])
  }

  function FailedKeys(locs: seq<Located>, m: map<Text, Answer>, ctx: Text): (r: seq<Text>)
    ensures forall k :: k in r <==>
      exists i :: 0 <= i < |locs| && Qualify(locs[i].key, ctx) == k && !Succeeds(m, k)
  {
    if locs == [] then []
    else
      var key := Qualify(locs[0].key, ctx);
      var rest := FailedKeys(locs[1..], m, ctx);
      assert locs == [locs[0]] + locs[1..];
      if Succeeds(m, key) then rest else [key] + rest
  }

  lemma ReferencesPlaced(t: Text)
    ensures WellPlaced(t, References(t), 0)
  {
    ScanIsScan(t, 0);
  }

  lemma ReferenceText(t: Text, k: nat)
    requires k < |References(t)|
    ensures var loc := References(t)[k];
            loc.start <= loc.end <= |t| && t[loc.start..loc.end] == SCHEME + loc.key
  {
    ScanIsScan(t, 0);
    assert SpanIsReference(t, References(t)[k]);
  }

  function RenderTemplate(t: Text, m: map<Text, Answer>, mode: Mode, ctx: Text): Result<Rendered, seq<Text>> {
    var locs := References(t);
    ReferencesPlaced(t);
    var failures := SortDedup(FailedKeys(locs, m, ctx));
    if mode == Reveal && failures != [] then Err(failures)
    else Ok(Rendered(Splice(t, locs, 0, Pieces(locs, m, mode, ctx)), failures))
  }

  method Render(template: Text, resolved: map<Text, Answer>, mode: Mode, ctx: Text)
    returns (r: Result<Rendered, seq<Text>>)
    ensures r == RenderTemplate(template, resolved, mode, ctx)
  {
    hide Splice, FailedKeys, Qualify, Mask, WellPlaced, References, Pieces;
    var locs := FindReferences(template);
    ReferencesPlaced(template);
    ghost var pieces := Pieces(locs, resolved, mode, ctx);
    var out: Text := [];
    var cursor: nat := 0;
    var failures: seq<Text> := [];
    for k := 0 to |locs|
      invariant WellPlaced(template, locs[k..], cursor)
      invariant out + Splice(template, locs[k..], cursor, pieces[k..]) == Splice(template, locs, 0, pieces)
      invariant failures + FailedKeys(locs[k..], resolved, ctx) == FailedKeys(locs, resolved, ctx)
    {
      var loc := locs[k];
      var key := Qualify(loc.key, ctx);
      SpliceUnfold(template, locs, cursor, pieces, k, out);
      FailedUnfold(locs, resolved, ctx, k, failures);
      var piece := [];
      if key in resolved && resolved[key].Ok? {
        match resolved[key].value {
          case Bytes(bytes) => piece := if mode == DryRun then Mask(key, true) else bytes;
          case Verified => piece := Mask(key, true);
        }
      } else {
        failures := failures + [key];
        if mode == DryRun {
          piece := Mask(key, false);
        } else {
          ReferenceText(template, k);
          piece := template[loc.start..loc.end];
        }
      }
      assert piece == pieces[k];
      out := out + template[cursor..loc.start] + piece;
      cursor := loc.end;
    }
    assert locs[|locs|..] == [] && pieces[|locs|..] == [];
    SpliceRest(template, cursor);
    assert failures + FailedKeys([], resolved, ctx) == failures by { assert failures + [] == failures; NoneFailed(resolved, ctx); }
    out := out + template[cursor..];
    failures := SortDedup(failures);
    r := if mode == Reveal && failures != [] then Err(failures) else Ok(Rendered(out, failures));
  }

  lemma SpliceRest(t: Text, cursor: nat)
    requires WellPlaced(t, [], cursor)
    ensures cursor <= |t| && Splice(t, [], cursor, []) == t[cursor..]
  {
  }

  lemma NoneFailed(m: map<Text, Answer>, ctx: Text)
    ensures FailedKeys([], m, ctx) == []
  {
  }

  lemma SpliceUnfold(t: Text, locs: seq<Located>, cursor: nat, pieces: seq<Text>, k: nat, out: Text)
    requires k < |locs| == |pieces| && WellPlaced(t, locs[k..], cursor)
    ensures WellPlaced(t, locs[k + 1..], locs[k].end) && cursor <= locs[k].start <= |t|
    ensures out + Splice(t, locs[k..], cursor, pieces[k..])
         == out + t[cursor..locs[k].start] + pieces[k] + Splice(t, locs[k + 1..], locs[k].end, pieces[k + 1..])
  {
    assert locs[k..][0] == locs[k] && locs[k..][1..] == locs[k + 1..];
    assert pieces[k..][0] == pieces[k] && pieces[k..][1..] == pieces[k + 1..];
  }

  lemma FailedUnfold(locs: seq<Located>, m: map<Text, Answer>, ctx: Text, k: nat, acc: seq<Text>)
    requires k < |locs|
    ensures acc + FailedKeys(locs[k..], m, ctx)
         == acc + (if Succeeds(m, Qualify(locs[k].key, ctx)) then [] else [Qualify(locs[k].key, ctx)])
            + FailedKeys(locs[k + 1..], m, ctx)
  {
    hide Qualify, Succeeds;
    assert locs[k..][0] == locs[k] && locs[k..][1..] == locs[k + 1..];
    var first := if Succeeds(m, Qualify(locs[k].key, ctx)) then [] else [Qualify(locs[k].key, ctx)];
    assert FailedKeys(locs[k..], m, ctx) == first + FailedKeys(locs[k + 1..], m, ctx);
    Associative(acc, first, FailedKeys(locs[k + 1..], m, ctx));
  }

  lemma Associative<T>(a: seq<T>, b: seq<T>, c: seq<T>)
    ensures a + (b + c) == a + b + c
  {
  }

  // ---- splicing accounts for every byte ----

  function OwnTexts(locs: seq<Located>): (r: seq<Text>)
    ensures |r| == |locs|
  {
    seq(|locs|, k requires 0 <= k < |locs| => SCHEME + locs[k].key)
  }

  lemma OwnTextOfSpan(t: Text, loc: Located)
    requires SpanIsReference(t, loc)
    ensures loc.start <= loc.end <= |t| && t[loc.start..loc.end] == SCHEME + loc.key
  {
  }

  /** Putting every reference back gives the template: no byte of it is lost,
      repeated or moved by the splice. */
  lemma {:induction false} SpliceOwnTexts(t: Text, locs: seq<Located>, cursor: nat)
    requires WellPlaced(t, locs, cursor)
    requires forall k :: 0 <= k < |locs| ==> SpanIsReference(t, locs[k])
    ensures Splice(t, locs, cursor, OwnTexts(locs)) == t[cursor..]
  {
    if locs != [] {
      hide SpanIsReference;
      var loc := locs[0];
      OwnTextOfSpan(t, loc);
      assert OwnTexts(locs)[1..] == OwnTexts(locs[1..]);
      SpliceOwnTexts(t, locs[1..], loc.end);
      assert t[cursor..] == t[cursor..loc.start] + t[loc.start..loc.end] + t[loc.end..];
    }
  }

  // ---- dry-run output holds no reference ----

  ghost predicate NoReference(t: Text) {
    forall i: nat :: !RefAt(t, i)
  }

  lemma NoReferenceIff(t: Text)
    ensures NoReference(t) <==> References(t) == []
  {
    ScanFirst(t, 0);
  }

  predicate IsBarrier(b: Byte) {
    b == 60 || b == 62
  }

  lemma StraddlesNoBarrier(a: Text, b: Text, i: nat)
    requires RefAt(a + b, i)
    requires a == [] || b == [] || IsBarrier(a[|a| - 1]) || IsBarrier(b[0])
    ensures RefAt(a, i) || (i >= |a| && RefAt(b, i - |a|))
  {
    var c := a + b;
    forall p | i <= p <= i + SCHEME_LEN ensures !IsBarrier(c[p]) {
      if p < i + SCHEME_LEN { SchemeByte(c, i, p - i); }
    }
    assert a != [] ==> c[|a| - 1] == a[|a| - 1];
    assert b != [] ==> c[|a|] == b[0];
    if i + SCHEME_LEN < |a| {
      assert a[i..i + SCHEME_LEN] == c[i..i + SCHEME_LEN];
    } else if i >= |a| {
      assert b[i - |a|..i - |a| + SCHEME_LEN] == c[i..i + SCHEME_LEN];
    }
  }

  /** No reference straddles a `<` or a `>`. */
  lemma NoReferenceAcross(a: Text, b: Text)
    requires NoReference(a) && NoReference(b)
    requires a == [] || b == [] || IsBarrier(a[|a| - 1]) || IsBarrier(b[0])
    ensures NoReference(a + b)
  {
    forall i: nat ensures !RefAt(a + b, i) {
      if RefAt(a + b, i) { StraddlesNoBarrier(a, b, i); }
    }
  }

  /** A qualified key has a single slash. */
  lemma QualifiedSlash(k: Text, ctx: Text, i: nat)
    requires IsReferenceKey(k) && IsIdentifier(ctx)
    requires i + 1 < |Qualify(k, ctx)|
    ensures !(Qualify(k, ctx)[i] == SLASH && Qualify(k, ctx)[i + 1] == SLASH)
  {
    if SLASH in k {
      assert !IsIdentifier(k);
      var (ns, key) := SplitComposed(k).value;
      SplitIffComposed(k, ns, key);
    } else if !IsIdentifier(k) {
      var (ns, key) := SplitComposed(k).value;
      SplitIffComposed(k, ns, key);
    }
  }

  lemma MaskHasNoReference(k: Text, ctx: Text, ok: bool)
    requires IsReferenceKey(k) && IsIdentifier(ctx)
    ensures NoReference(Mask(Qualify(k, ctx), ok))
  {
    var key := Qualify(k, ctx);
    var m := Mask(key, ok);
    assert forall j :: 14 <= j < 14 + |key| ==> m[j] == key[j - 14];
    forall i: nat ensures !RefAt(m, i) {
      SchemeByte(m, i, 13);
      SchemeByte(m, i, 14);
      if 1 <= i && i + 14 < 14 + |key| {
        QualifiedSlash(k, ctx, i - 1);
      }
    }
  }

  /** The bytes between two consecutive located spans hold no reference. */
  lemma GapHasNoReference(t: Text, i: nat, j: nat)
    requires i <= j <= |t|
    requires forall k :: i <= k < j ==> !RefAt(t, k)
    ensures NoReference(t[i..j])
  {
    forall k: nat ensures !RefAt(t[i..j], k) {
      if k + SCHEME_LEN < j - i {
        SliceOfSlice(t, i, j, k, k + SCHEME_LEN);
        assert !RefAt(t, i + k);
      }
    }
  }

  lemma {:induction false} DryRunFrom(t: Text, i: nat, m: map<Text, Answer>, ctx: Text)
    requires i <= |t| && IsIdentifier(ctx)
    ensures WellPlaced(t, ScanFrom(t, i), i)
    ensures var locs := ScanFrom(t, i);
            NoReference(Splice(t, locs, i, Pieces(locs, m, DryRun, ctx)))
    decreases |t| - i
  {
    hide RefAt, SchemeAt, ScanStep, IsIdentifier, NoReference, Succeeds, Qualify, SpanIsReference, Mask, Piece;
    ScanIsScan(t, i);
    ScanFirst(t, i);
    var locs := ScanFrom(t, i);
    if locs == [] {
      GapHasNoReference(t, i, |t|);
      assert t[i..] == t[i..|t|];
    } else {
      var loc := locs[0];
      var pieces := Pieces(locs, m, DryRun, ctx);
      assert pieces[1..] == Pieces(locs[1..], m, DryRun, ctx);
      DryRunFrom(t, loc.end, m, ctx);
      GapHasNoReference(t, i, loc.start);
      assert SpanIsReference(t, loc);
      MaskedSpan(t, loc, m, ctx);
      BetweenBarriers(t[i..loc.start], pieces[0], Splice(t, locs[1..], loc.end, pieces[1..]));
    }
  }

  /** The piece a dry run puts for a span: a mask, which holds no reference. */
  lemma MaskedSpan(t: Text, loc: Located, m: map<Text, Answer>, ctx: Text)
    requires SpanIsReference(t, loc) && IsIdentifier(ctx)
    ensures var p := Piece(loc, m, DryRun, ctx);
            NoReference(p) && p != [] && p[0] == 60 && p[|p| - 1] == 62
  {
    hide RefAt, SchemeAt, IsIdentifier, NoReference, Succeeds;
    var key := Qualify(loc.key, ctx);
    var ok := Succeeds(m, key);
    assert Piece(loc, m, DryRun, ctx) == Mask(key, ok);
    SpanBytes(t, loc);
    MaskHasNoReference(loc.key, ctx, ok);
  }

  lemma BetweenBarriers(gap: Text, piece: Text, rest: Text)
    requires NoReference(gap) && NoReference(piece) && NoReference(rest)
    requires piece != [] && piece[0] == 60 && piece[|piece| - 1] == 62
    ensures NoReference(gap + piece + rest)
  {
    hide NoReference;
    NoReferenceAcross(gap, piece);
    assert (gap + piece)[|gap + piece| - 1] == 62;
    NoReferenceAcross(gap + piece, rest);
  }

  /** Whatever the template and the answers, dry-run output contains no
      reference: not in a gap, not in a mask, not across a splice. */
  lemma DryRunHasNoReference(t: Text, m: map<Text, Answer>, ctx: Text)
    requires IsIdentifier(ctx)
    ensures RenderTemplate(t, m, DryRun, ctx).Ok?
    ensures NoReference(RenderTemplate(t, m, DryRun, ctx).value.bytes)
  {
    DryRunFrom(t, 0, m, ctx);
  }

  /** Rendering dry-run output again, in any mode, with any answers and any
      context, returns it unchanged and reports no failure. */
  lemma DryRunIsFixedPoint(t: Text, m: map<Text, Answer>, ctx: Text,
                           m': map<Text, Answer>, mode': Mode, ctx': Text)
    requires IsIdentifier(ctx)
    ensures var out := RenderTemplate(t, m, DryRun, ctx).value.bytes;
            RenderTemplate(out, m', mode', ctx') == Ok(Rendered(out, []))
  {
    DryRunHasNoReference(t, m, ctx);
    var out := RenderTemplate(t, m, DryRun, ctx).value.bytes;
    NoReferenceIff(out);
    assert out[0..] == out;
  }

  /** Dry-run output depends only on which keys succeeded, never on a value. */
  lemma DryRunNonInterference(t: Text, m1: map<Text, Answer>, m2: map<Text, Answer>, ctx: Text)
    requires forall k :: 0 <= k < |References(t)| ==>
      var key := Qualify(References(t)[k].key, ctx);
      Succeeds(m1, key) == Succeeds(m2, key)
    ensures RenderTemplate(t, m1, DryRun, ctx) == RenderTemplate(t, m2, DryRun, ctx)
  {
    var locs := References(t);
    assert Pieces(locs, m1, DryRun, ctx) == Pieces(locs, m2, DryRun, ctx);
    SameFailures(locs, m1, m2, ctx);
  }

  lemma {:induction false} SameFailures(locs: seq<Located>, m1: map<Text, Answer>, m2: map<Text, Answer>, ctx: Text)
    requires forall k :: 0 <= k < |locs| ==>
      Succeeds(m1, Qualify(locs[k].key, ctx)) == Succeeds(m2, Qualify(locs[k].key, ctx))
    ensures FailedKeys(locs, m1, ctx) == FailedKeys(locs, m2, ctx)
  {
    if locs != [] {
      assert forall k :: 0 <= k < |locs| - 1 ==> locs[1..][k] == locs[k + 1];
      SameFailures(locs[1..], m1, m2, ctx);
    }
  }

  // ---- reveal fails closed ----

  /** Reveal hands out bytes exactly when every reference resolved; otherwise it
      names exactly the keys that did not, in increasing order. */
  lemma RevealFailsClosed(t: Text, m: map<Text, Answer>, ctx: Text)
    ensures var r := RenderTemplate(t, m, Reveal, ctx);
            var locs := References(t);
            && (r.Ok? <==> forall k :: 0 <= k < |locs| ==> Succeeds(m, Qualify(locs[k].key, ctx)))
            && (r.Ok? ==> r.value.failures == [])
            && (r.Err? ==> StrictlySorted(r.error) && forall key :: key in r.error <==>
                  !Succeeds(m, key) && exists k :: 0 <= k < |locs| && Qualify(locs[k].key, ctx) == key)
  {
    var locs := References(t);
    var failed := FailedKeys(locs, m, ctx);
    SortDedupSorted(failed);
    if SortDedup(failed) == [] {
      forall k | 0 <= k < |locs| ensures Succeeds(m, Qualify(locs[k].key, ctx)) {
        assert Qualify(locs[k].key, ctx) !in SortDedup(failed);
      }
    } else {
      assert SortDedup(failed)[0] in failed;
    }
  }

  // ---- a whole value that is one reference ----

  /** `Some(key)` when `s` is one reference and nothing else. */
  function WholeValueKey(s: Text): Option<Text> {
    if !SchemeAt(s, 0) then None
    else
      var rest := s[SCHEME_LEN..];
      if MatchReferenceKey(rest) == Some(|rest|) then Some(rest) else None
  }

  lemma WholeValueIsSingleSpan(s: Text, key: Text)
    ensures WholeValueKey(s) == Some(key) <==> References(s) == [Located(key, 0, |s|)]
  {
    if WholeValueKey(s) == Some(key) {
      ScanUnfold(s, 0);
      assert s[SCHEME_LEN..|s|] == s[SCHEME_LEN..];
      assert ScanFrom(s, |s|) == [];
    }
    if References(s) == [Located(key, 0, |s|)] {
      ScanFirst(s, 0);
      assert s[SCHEME_LEN..|s|] == s[SCHEME_LEN..];
    }
  }

  predicate ContainsReference(s: Text) {
    References(s) != []
  }

  lemma ContainsReferenceIff(s: Text)
    ensures ContainsReference(s) <==> exists i: nat :: RefAt(s, i)
  {
    ScanFirst(s, 0);
  }

  // ---- resolution ----

  function QualifiedKeys(keys: seq<Text>, ctx: Text): (r: seq<Text>)
    ensures |r| == |keys|
    ensures forall k :: 0 <= k < |keys| ==> r[k] == Qualify(keys[k], ctx)
  {
    seq(|keys|, k requires 0 <= k < |keys| => Qualify(keys[k], ctx))
  }

  /** The caller's resolver. It may answer differently at every call; it keeps
      the list of the keys it was asked for. */
  class Resolver {
    const oracle: (nat, Text) -> Answer
    var calls: seq<Text>

    constructor (oracle: (nat, Text) -> Answer)
      ensures calls == [] && this.oracle == oracle
    {
      this.oracle := oracle;
      calls := [];
    }

    method Resolve(key: Text) returns (r: Answer)
      modifies this
      ensures r == oracle(|old(calls)|, key)
      ensures calls == old(calls) + [key]
    {
      r := oracle(|calls|, key);
      calls := calls + [key];
    }
  }

  /** The answers to `keys` asked in turn, the first as call number `base`. */
  function Answers(oracle: (nat, Text) -> Answer, base: nat, keys: seq<Text>): (m: map<Text, Answer>)
    ensures forall k :: k in m <==> k in keys
  {
    if keys == [] then map[]
    else
      var last := |keys| - 1;
      assert keys == keys[..last] + [keys[last]];
      Answers(oracle, base, keys[..last])[keys[last] := oracle(base + last, keys[last])]
  }

  lemma NoAnswers(oracle: (nat, Text) -> Answer, base: nat)
    ensures Answers(oracle, base, []) == map[]
  {
  }

  lemma AnswersSnoc(oracle: (nat, Text) -> Answer, base: nat, keys: seq<Text>, i: nat)
    requires i < |keys|
    ensures Answers(oracle, base, keys[..i + 1]) == Answers(oracle, base, keys[..i])[keys[i] := oracle(base + i, keys[i])]
  {
    assert keys[..i + 1][..i] == keys[..i];
  }

  /** Each distinct qualified key is asked for once, in increasing order. */
  method ResolveAll(keys: seq<Text>, ctx: Text, resolver: Resolver) returns (m: map<Text, Answer>)
    modifies resolver
    ensures var unique := SortDedup(QualifiedKeys(keys, ctx));
            && resolver.calls == old(resolver.calls) + unique
            && m == Answers(resolver.oracle, |old(resolver.calls)|, unique)
  {
    hide SortDedup, QualifiedKeys, Answers;
    NoAnswers(resolver.oracle, |resolver.calls|);
    var unique := SortDedup(QualifiedKeys(keys, ctx));
    m := map[];
    assert resolver.calls == old(resolver.calls) + unique[..0];
    for i := 0 to |unique|
      invariant resolver.calls == old(resolver.calls) + unique[..i]
      invariant m == Answers(resolver.oracle, |old(resolver.calls)|, unique[..i])
    {
      var r := resolver.Resolve(unique[i]);
      m := m[unique[i] := r];
      AnswersSnoc(resolver.oracle, |old(resolver.calls)|, unique, i);
      assert unique[..i + 1] == unique[..i] + [unique[i]];
    }
    assert unique[..|unique|] == unique;
  }

  function KeysOf(locs: seq<Located>): (r: seq<Text>)
    ensures |r| == |locs|
    ensures forall k :: 0 <= k < |locs| ==> r[k] == locs[k].key
  {
    seq(|locs|, k requires 0 <= k < |locs| => locs[k].key)
  }

  /** The keys a rendering of `t` asks for. */
  function WantedKeys(t: Text, ctx: Text): seq<Text> {
    SortDedup(QualifiedKeys(KeysOf(References(t)), ctx))
  }

  /** Asked in strictly increasing order, each key at most once, and exactly the
      qualified keys of the references. */
  lemma WantedKeysOnce(t: Text, ctx: Text)
    ensures StrictlySorted(WantedKeys(t, ctx))
    ensures forall i, j :: 0 <= i < j < |WantedKeys(t, ctx)| ==> WantedKeys(t, ctx)[i] != WantedKeys(t, ctx)[j]
    ensures forall key :: key in WantedKeys(t, ctx) <==>
      exists k :: 0 <= k < |References(t)| && Qualify(References(t)[k].key, ctx) == key
  {
    var locs := References(t);
    var q := QualifiedKeys(KeysOf(locs), ctx);
    SortDedupSorted(q);
    forall i, j | 0 <= i < j < |WantedKeys(t, ctx)| ensures WantedKeys(t, ctx)[i] != WantedKeys(t, ctx)[j] {
      LessIrreflexive(WantedKeys(t, ctx)[i]);
    }
    forall k | 0 <= k < |locs| ensures Qualify(locs[k].key, ctx) in q {
      assert q[k] == Qualify(locs[k].key, ctx);
    }
  }

  lemma {:induction false} AnswerAt(oracle: (nat, Text) -> Answer, base: nat, keys: seq<Text>, i: nat)
    requires i < |keys| && StrictlySorted(keys)
    ensures Answers(oracle, base, keys)[keys[i]] == oracle(base + i, keys[i])
  {
    var last := |keys| - 1;
    if i < last {
      LessIrreflexive(keys[i]);
      assert Less(keys[i], keys[last]);
      AnswerAt(oracle, base, keys[..last], i);
      assert keys[..last][i] == keys[i];
    }
  }

  /** Scan, resolve, render: the `inject` command on one template. */
  method Inject(template: Text, mode: Mode, ctx: Text, resolver: Resolver)
    returns (r: Result<Rendered, seq<Text>>)
    modifies resolver
    ensures resolver.calls == old(resolver.calls) + WantedKeys(template, ctx)
    ensures r == RenderTemplate(template,
                                Answers(resolver.oracle, |old(resolver.calls)|, WantedKeys(template, ctx)), mode, ctx)
  {
    var locs := FindReferences(template);
    var resolved := ResolveAll(KeysOf(locs), ctx, resolver);
    r := Render(template, resolved, mode, ctx);
  }

  /** Through the pipeline a reveal succeeds exactly when every answer the
      resolver gave was good: no reference is left unasked. */
  lemma PipelineReveal(t: Text, ctx: Text, oracle: (nat, Text) -> Answer, base: nat)
    ensures RenderTemplate(t, Answers(oracle, base, WantedKeys(t, ctx)), Reveal, ctx).Ok?
       <==> forall i :: 0 <= i < |WantedKeys(t, ctx)| ==> oracle(base + i, WantedKeys(t, ctx)[i]).Ok?
  {
    hide WantedKeys, RenderTemplate, References, Qualify, Answers;
    var wanted := WantedKeys(t, ctx);
    var m := Answers(oracle, base, wanted);
    var locs := References(t);
    WantedKeysOnce(t, ctx);
    RevealFailsClosed(t, m, ctx);
    if forall i :: 0 <= i < |wanted| ==> oracle(base + i, wanted[i]).Ok? {
      forall k | 0 <= k < |locs| ensures Succeeds(m, Qualify(locs[k].key, ctx)) {
        var key := Qualify(locs[k].key, ctx);
        assert key in wanted;
        var i :| 0 <= i < |wanted| && wanted[i] == key;
        AnswerAt(oracle, base, wanted, i);
      }
    }
    if RenderTemplate(t, m, Reveal, ctx).Ok? {
      forall i | 0 <= i < |wanted| ensures oracle(base + i, wanted[i]).Ok? {
        assert wanted[i] in wanted;
        var k :| 0 <= k < |locs| && Qualify(locs[k].key, ctx) == wanted[i];
        AnswerAt(oracle, base, wanted, i);
      }
    }
  }
}
