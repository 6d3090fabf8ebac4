/** Multiple-precision integers: `encode_mpint`, `encode_signature_blob` and the
    scalar normalisation of `parse_openssh_ecdsa_fallback`, in
    `crates/cache-warden-authsock/src/signer.rs`. */
module Mpint {
  import opened Wrappers
  import opened Buffers
  import opened Bytes
  import opened Bits
  import opened SshWire

  // ---- the meaning of an mpint: section 5 of RFC 4251 ----

  /** Two's complement, most significant byte first. */
  function SignedValue(m: seq<Byte>): int {
    if m != [] && m[0] >= 128 then Value(m) - Pow256(|m|) else Value(m)
  }

  /** No leading byte could be dropped without changing the value. */
  predicate IsMinimal(m: seq<Byte>) {
    && !(m != [] && m[0] == 0 && (|m| == 1 || m[1] < 128))
    && !(|m| >= 2 && m[0] == 255 && m[1] >= 128)
  }

  // ---- the encoder ----

  function Trim(b: seq<Byte>): (r: seq<Byte>)
    ensures r == [] || r[0] != 0
    ensures |r| <= |b| && r == b[|b| - |r|..]
    ensures forall i :: 0 <= i < |b| - |r| ==> b[i] == 0
  {
    if b == [] || b[0] != 0 then b else Trim(b[1..])
  }

  function MpintBody(be: seq<Byte>): seq<Byte> {
    SignPadded(Trim(be))
  }

  lemma HighBit(b: Byte)
    ensures BitAnd(b, 0x80) != 0 <==> b >= 128
  {
    assert 0x80 / 2 == 64 && 64 / 2 == 32 && 32 / 2 == 16 && 16 / 2 == 8 && 8 / 2 == 4 && 4 / 2 == 2 && 2 / 2 == 1;
    var b1 := b / 2;
    var b2, b3 := b1 / 2, b1 / 2 / 2;
    var b4, b5 := b3 / 2, b3 / 2 / 2;
    var b6, b7 := b5 / 2, b5 / 2 / 2;
    assert BitAnd(b7, 1) == b7 % 2;
    assert BitAnd(b6, 2) == 2 * BitAnd(b7, 1);
    assert BitAnd(b5, 4) == 2 * BitAnd(b6, 2);
    assert BitAnd(b4, 8) == 2 * BitAnd(b5, 4);
    assert BitAnd(b3, 16) == 2 * BitAnd(b4, 8);
    assert BitAnd(b2, 32) == 2 * BitAnd(b3, 16);
    assert BitAnd(b1, 64) == 2 * BitAnd(b2, 32);
    assert BitAnd(b, 128) == 2 * BitAnd(b1, 64);
  }

  method FirstNonzero(b: seq<Byte>) returns (start: nat)
    ensures start == |b| - |Trim(b)|
  {
    start := 0;
    while start < |b| && b[start] == 0
      invariant start <= |b| && Trim(b[start..]) == Trim(b)
    {
      assert b[start..][1..] == b[start + 1..];
      start := start + 1;
    }
    assert Trim(b[start..]) == b[start..];
  }

  method EncodeMpint(be: seq<Byte>, out: Buffer)
    modifies out
    ensures out.bytes == old(out.bytes) + PutString(MpintBody(be))
  {
    hide BitAnd, Trim, PutU32;
    var start := FirstNonzero(be);
    var trimmed := be[start..];
    var needPad := false;
    if trimmed != [] {
      HighBit(trimmed[0]);
      needPad := BitAnd(trimmed[0], 0x80) != 0;
    }
    var len := |trimmed| + if needPad then 1 else 0;
    ghost var before := out.bytes;
    out.Extend(PutU32(len));
    if needPad {
      out.Extend([0]);
    }
    out.Extend(trimmed);
    assert out.bytes == before + PutString(MpintBody(be));
  }

  // ---- what the encoder writes ----

  lemma {:induction false} LeadingZeros(b: seq<Byte>, k: nat)
    requires k <= |b| && forall i :: 0 <= i < k ==> b[i] == 0
    ensures Value(b) == Value(b[k..])
  {
    ValueAppend(b[..k], b[k..]);
    ZeroValue(b[..k]);
    assert b == b[..k] + b[k..];
  }

  lemma {:induction false} ZeroValue(z: seq<Byte>)
    requires forall i :: 0 <= i < |z| ==> z[i] == 0
    ensures Value(z) == 0
  {
    if z != [] {
      ZeroValue(z[..|z| - 1]);
    }
  }

  /** A leading nonzero byte puts the value at or above the next lower power. */
  lemma LeadingNonzero(b: seq<Byte>)
    requires b != [] && b[0] != 0
    ensures Value(b) >= Pow256(|b| - 1)
  {
    ValueAppend(b[..1], b[1..]);
    assert b == b[..1] + b[1..];
    assert Value(b[..1]) == b[0] by { assert b[..1][..0] == []; }
    ProductAtLeast(b[0], Pow256(|b| - 1));
  }

  /** Strings without a leading zero are determined by their value. */
  lemma CanonicalUnique(a: seq<Byte>, b: seq<Byte>)
    requires (a == [] || a[0] != 0) && (b == [] || b[0] != 0) && Value(a) == Value(b)
    ensures a == b
  {
    if |a| > |b| {
      LeadingNonzero(a);
      Pow256Monotone(|b|, |a| - 1);
    } else if |b| > |a| {
      LeadingNonzero(b);
      Pow256Monotone(|a|, |b| - 1);
    }
    BigEndianOfValue(a);
    BigEndianOfValue(b);
  }

  lemma MpintValue(be: seq<Byte>)
    ensures Value(MpintBody(be)) == Value(be) == SignedValue(MpintBody(be)) && IsMinimal(MpintBody(be))
  {
    hide Value, Pow256, Trim;
    var t := Trim(be);
    LeadingZeros(be, |be| - |t|);
    LeadingZeros([0] + t, 1);
    assert ([0] + t)[1..] == t;
  }

  function Magnitude(m: seq<Byte>): seq<Byte> {
    if m != [] && m[0] == 0 then m[1..] else m
  }

  function SignPadded(t: seq<Byte>): seq<Byte> {
    if t != [] && t[0] >= 128 then [0] + t else t
  }

  /** A minimal non-negative string is its padded magnitude. */
  lemma MinimalIsPadded(m: seq<Byte>)
    requires IsMinimal(m) && (m == [] || m[0] < 128)
    ensures var t := Magnitude(m); (t == [] || t[0] != 0) && Value(t) == Value(m) && m == SignPadded(t)
  {
    hide Value, Pow256;
    if m != [] && m[0] == 0 {
      LeadingZeros(m, 1);
      assert m == [0] + m[1..];
    }
  }

  lemma NegativeWhenHigh(m: seq<Byte>)
    requires m != [] && m[0] >= 128
    ensures SignedValue(m) < 0
  {
    hide Value, Pow256;
  }

  /** The encoding of an unsigned number is the one minimal two's-complement
      string with that value. */
  lemma MpintIff(be: seq<Byte>, m: seq<Byte>)
    ensures m == MpintBody(be) <==> IsMinimal(m) && SignedValue(m) == Value(be)
  {
    hide Value, Pow256, Trim, IsMinimal;
    MpintValue(be);
    if IsMinimal(m) && SignedValue(m) == Value(be) {
      if m != [] && m[0] >= 128 {
        NegativeWhenHigh(m);
      }
      var t := Trim(be);
      LeadingZeros(be, |be| - |t|);
      MinimalIsPadded(m);
      CanonicalUnique(Magnitude(m), t);
    }
  }

  // ---- normalising back to a fixed width ----

  /** Drop one leading zero, refuse what is wider than the field, pad on the left. */
  function ScalarOfMpint(m: seq<Byte>, width: nat): (r: Option<seq<Byte>>)
    ensures r.Some? ==> |r.value| == width
  {
    var magnitude := Magnitude(m);
    if |magnitude| > width then None
    else Some(Zeros(width - |magnitude|) + magnitude)
  }

  lemma MpintFits(be: seq<Byte>, width: nat)
    ensures |Trim(be)| <= width <==> Value(be) < Pow256(width)
  {
    hide Value, Pow256, Trim;
    var t := Trim(be);
    LeadingZeros(be, |be| - |t|);
    if |t| <= width {
      Pow256Monotone(|t|, width);
    } else {
      LeadingNonzero(t);
      Pow256Monotone(width, |t| - 1);
    }
  }

  lemma PaddedValue(n: nat, b: seq<Byte>)
    ensures Value(Zeros(n) + b) == Value(b)
  {
    LeadingZeros(Zeros(n) + b, n);
    assert (Zeros(n) + b)[n..] == b;
  }

  /** Whatever width a number was held in, its mpint normalises to `width` bytes
      exactly when the number fits, and to the same number. */
  lemma ScalarFitsIff(be: seq<Byte>, width: nat)
    ensures var r := ScalarOfMpint(MpintBody(be), width);
            && (r.Some? <==> Value(be) < Pow256(width))
            && (r.Some? ==> |r.value| == width && Value(r.value) == Value(be))
  {
    hide Value, Pow256, Trim;
    var t := Trim(be);
    MpintFits(be, width);
    var m := MpintBody(be);
    assert (if m != [] && m[0] == 0 then m[1..] else m) == t;
    LeadingZeros(be, |be| - |t|);
    if |t| <= width {
      PaddedValue(width - |t|, t);
    }
  }

  /** A fixed-width scalar survives the round trip byte for byte, for every width. */
  lemma ScalarRoundTrip(scalar: seq<Byte>)
    ensures ScalarOfMpint(MpintBody(scalar), |scalar|) == Some(scalar)
  {
    ScalarFitsIff(scalar, |scalar|);
    var r := ScalarOfMpint(MpintBody(scalar), |scalar|).value;
    BigEndianOfValue(scalar);
    BigEndianOfValue(r);
  }

  /** On any bytes at all, the normaliser reads the magnitude as unsigned: it
      agrees with the mpint's value exactly when that is not negative. */
  lemma AgreesWithMpintIff(m: seq<Byte>, width: nat)
    requires ScalarOfMpint(m, width).Some?
    ensures Value(ScalarOfMpint(m, width).value) == Value(m)
    ensures Value(ScalarOfMpint(m, width).value) == SignedValue(m) <==> m == [] || m[0] < 128
  {
    if m != [] && m[0] == 0 {
      LeadingZeros(m, 1);
      PaddedValue(width - |m[1..]|, m[1..]);
    } else {
      PaddedValue(width - |m|, m);
    }
  }

  // ---- signature blobs ----

  method EncodeSignatureBlob(name: seq<Byte>, sig: seq<Byte>) returns (blob: seq<Byte>)
    ensures blob == PutString(name) + PutString(sig)
  {
    blob := PutU32(|name|);
    blob := blob + name;
    blob := blob + PutU32(|sig|);
    blob := blob + sig;
    assert PutU32(|name|) + name + PutU32(|sig|) + sig == (PutU32(|name|) + name) + (PutU32(|sig|) + sig);
  }

  /** `sign_ecdsa` after the curve arithmetic: the two halves `r` and `s` of a
      signature, wrapped as mpints inside a blob. */
  method EcdsaBlob(name: seq<Byte>, r: seq<Byte>, s: seq<Byte>) returns (blob: seq<Byte>)
    ensures blob == PutString(name) + PutString(PutString(MpintBody(r)) + PutString(MpintBody(s)))
  {
    var sig := new Buffer();
    EncodeMpint(r, sig);
    EncodeMpint(s, sig);
    assert sig.bytes == PutString(MpintBody(r)) + PutString(MpintBody(s));
    blob := EncodeSignatureBlob(name, sig.bytes);
  }

  const U32_MAX: nat := 0xFFFF_FFFF

  /** What a verifier reads: the algorithm name, then `r` and `s`, nothing left. */
  function ReadEcdsaBlob(blob: seq<Byte>, width: nat): Option<(seq<Byte>, seq<Byte>, seq<Byte>)> {
    var (name, rest) :- GetString(blob, U32_MAX).ToOption();
    var (sig, rest) :- GetString(rest, U32_MAX).ToOption();
    if rest != [] then None
    else
      var (r, c) :- GetString(sig, U32_MAX).ToOption();
      var (s, c) :- GetString(c, U32_MAX).ToOption();
      if c != [] then None
      else
        var r :- ScalarOfMpint(r, width);
        var s :- ScalarOfMpint(s, width);
        Some((name, r, s))
  }

  /** The verifier recovers the algorithm and both halves exactly. */
  lemma EcdsaBlobRoundTrip(name: seq<Byte>, r: seq<Byte>, s: seq<Byte>)
    requires |name| <= U32_MAX && |r| == |s| <= 0x1000_0000
    ensures ReadEcdsaBlob(PutString(name) + PutString(PutString(MpintBody(r)) + PutString(MpintBody(s))), |r|)
         == Some((name, r, s))
  {
    hide GetString, PutU32, Trim, ScalarOfMpint;
    var mr, ms := MpintBody(r), MpintBody(s);
    var sig := PutString(mr) + PutString(ms);
    assert PutString(sig) + [] == PutString(sig) && PutString(ms) + [] == PutString(ms);
    GetStringIff(PutString(name) + PutString(sig), U32_MAX, name, PutString(sig));
    GetStringIff(PutString(sig), U32_MAX, sig, []);
    GetStringIff(sig, U32_MAX, mr, PutString(ms));
    GetStringIff(PutString(ms), U32_MAX, ms, []);
    ScalarRoundTrip(r);
    ScalarRoundTrip(s);
  }
}
