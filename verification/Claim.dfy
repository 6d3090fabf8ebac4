/** Claim tokens: `ClaimToken` and `base64url_encode` of
    `crates/cache-warden-vault/src/claim.rs`. Text is its UTF-8 bytes. */
module Claim {
  import opened Wrappers
  import opened Bytes
  import opened Bits

  datatype VaultError = MalformedClaimToken

  const TOKEN_BYTES := 16
  const TOKEN_CHARS := 22

  /** Entry `v` of the URL-safe alphabet: `A-Z a-z 0-9 - _`. */
  function Letter(v: nat): Byte
    requires v < 64
  {
    if v < 26 then 65 + v
    else if v < 52 then 97 + v - 26
    else if v < 62 then 48 + v - 52
    else if v == 62 then 45
    else 95
  }

  predicate IsBase64UrlChar(c: Byte) {
    65 <= c <= 90 || 97 <= c <= 122 || 48 <= c <= 57 || c == 45 || c == 95
  }

  predicate AllBase64Url(s: seq<Byte>) {
    forall i :: 0 <= i < |s| ==> IsBase64UrlChar(s[i])
  }

  function ParseToken(s: seq<Byte>): Result<seq<Byte>, VaultError> {
    if |s| != TOKEN_CHARS || !AllBase64Url(s) then Err(MalformedClaimToken)
    else Ok(s)
  }

  // ---- the layout of RFC 4648 section 5 ----

  /** The six-bit groups of one to three bytes; those that carry input bits. */
  function Sextets(g: seq<Byte>): (qs: seq<nat>)
    requires 1 <= |g| <= 3
    ensures |qs| == |g| + 1 && forall i :: 0 <= i < |qs| ==> qs[i] < 64
  {
    match |g|
    case 1 => [g[0] / 4, g[0] % 4 * 16]
    case 2 => [g[0] / 4, g[0] % 4 * 16 + g[1] / 16, g[1] % 16 * 4]
    case _ => [g[0] / 4, g[0] % 4 * 16 + g[1] / 16, g[1] % 16 * 4 + g[2] / 64, g[2] % 64]
  }

  function Letters(qs: seq<nat>): (s: seq<Byte>)
    requires forall i :: 0 <= i < |qs| ==> qs[i] < 64
    ensures |s| == |qs|
  {
    seq(|qs|, i requires 0 <= i < |qs| => Letter(qs[i]))
  }

  function Min(a: nat, b: nat): nat {
    if a < b then a else b
  }

  function Encode(b: seq<Byte>): seq<Byte> {
    if b == [] then []
    else var k := Min(3, |b|); Letters(Sextets(b[..k])) + Encode(b[k..])
  }

  /** The encoder: each chunk's 24-bit word is built with shifts and ors and read
      back six bits at a time. */
  method Base64UrlEncode(bytes: seq<Byte>) returns (out: seq<Byte>)
    ensures out == Encode(bytes)
  {
    hide BitOr, BitAnd, Pow2, Letter, Sextets, Letters;
    out := [];
    var pos := 0;
    while pos < |bytes|
      invariant 0 <= pos <= |bytes|
      invariant Encode(bytes) == out + Encode(bytes[pos..])
    {
      var size := Min(3, |bytes| - pos);
      var chunk := bytes[pos..pos + size];
      assert bytes[pos..][..size] == chunk && bytes[pos..][size..] == bytes[pos + size..];
      var word := EncodeChunk(chunk);
      out := out + word;
      pos := pos + size;
    }
  }

  method EncodeChunk(chunk: seq<Byte>) returns (out: seq<Byte>)
    requires 1 <= |chunk| <= 3
    ensures out == Letters(Sextets(chunk))
  {
    hide BitOr, BitAnd, Pow2, Letter, Sextets, Shl, Shr;
    var b0 := chunk[0];
    var b1: Byte := if |chunk| > 1 then chunk[1] else 0;
    var b2: Byte := if |chunk| > 2 then chunk[2] else 0;
    var n := BitOr(BitOr(Shl(b0, 16, 32), Shl(b1, 8, 32)), b2);
    out := [];
    var chars := |chunk| + 1;
    for i := 0 to chars
      invariant out == Letters(Sextets(chunk))[..i]
    {
      SextetOfWord(chunk, i);
      var v := BitAnd(Shr(n, 18 - 6 * i), 0x3f);
      out := out + [Letter(v)];
    }
  }

  lemma ShiftsToWord(b0: Byte, b1: Byte, b2: Byte)
    ensures BitOr(BitOr(Shl(b0, 16, 32), Shl(b1, 8, 32)), b2) == 0x1_0000 * (b0 as int) + 0x100 * (b1 as int) + b2 as int
  {
    hide BitOr, Pow2;
    PowersOf2();
    WordPowers();
    OrDisjoint(b0, 16, 256 * (b1 as int));
    OrDisjoint(256 * (b0 as int) + b1 as int, 8, b2);
  }

  lemma MaskedShift(n: nat, i: nat)
    requires i < 4
    ensures BitAnd(Shr(n, 18 - 6 * i), 0x3f) == n / (match i case 0 => 0x4_0000 case 1 => 0x1000 case 2 => 64 case _ => 1) % 64
  {
    hide BitAnd, Pow2;
    PowersOf2();
    AndMask(Shr(n, 18 - 6 * i), 6);
    Pow2Add(6, 6);
    Pow2Add(12, 6);
  }

  lemma DigitsOf64(n: nat, x: nat, y: nat, z: nat, w: nat)
    requires x < 64 && y < 64 && z < 64 && w < 64 && n == 0x4_0000 * x + 0x1000 * y + 64 * z + w
    ensures n / 0x4_0000 % 64 == x && n / 0x1000 % 64 == y && n / 64 % 64 == z && n / 1 % 64 == w
  {
    assert n / 0x1000 == 64 * x + y;
    assert n / 64 == 0x1000 * x + 64 * y + z;
  }

  lemma WordSextets(b0: Byte, b1: Byte, b2: Byte)
    ensures var n := 0x1_0000 * (b0 as int) + 0x100 * (b1 as int) + b2 as int;
            && n / 0x4_0000 % 64 == b0 / 4
            && n / 0x1000 % 64 == b0 % 4 * 16 + b1 / 16
            && n / 64 % 64 == b1 % 16 * 4 + b2 / 64
            && n / 1 % 64 == b2 % 64
  {
    var n := 0x1_0000 * (b0 as int) + 0x100 * (b1 as int) + b2 as int;
    DigitsOf64(n, b0 / 4, b0 % 4 * 16 + b1 / 16, b1 % 16 * 4 + b2 / 64, b2 % 64);
  }

  function Word(g: seq<Byte>): nat
    requires 1 <= |g| <= 3
  {
    var b1: Byte := if |g| > 1 then g[1] else 0;
    var b2: Byte := if |g| > 2 then g[2] else 0;
    BitOr(BitOr(Shl(g[0], 16, 32), Shl(b1, 8, 32)), b2)
  }

  lemma SextetOfWord(g: seq<Byte>, i: nat)
    requires 1 <= |g| <= 3 && i <= |g|
    ensures BitAnd(Shr(Word(g), 18 - 6 * i), 0x3f) == Sextets(g)[i]
  {
    hide BitOr, BitAnd, Pow2, Shl, Shr;
    var b1: Byte := if |g| > 1 then g[1] else 0;
    var b2: Byte := if |g| > 2 then g[2] else 0;
    ShiftsToWord(g[0], b1, b2);
    WordSextets(g[0], b1, b2);
    MaskedShift(Word(g), i);
  }

  // ---- the decoder of RFC 4648 section 5 ----

  function Sextet(c: Byte): (r: Option<nat>)
    ensures r.Some? ==> r.value < 64
  {
    if 65 <= c <= 90 then Some(c - 65)
    else if 97 <= c <= 122 then Some(c - 97 + 26)
    else if 48 <= c <= 57 then Some(c - 48 + 52)
    else if c == 45 then Some(62)
    else if c == 95 then Some(63)
    else None
  }

  predicate AreSextets(q: seq<nat>) {
    forall i :: 0 <= i < |q| ==> q[i] < 64
  }

  /** The bytes of two to four six-bit groups; bits that carry no input must be 0. */
  function Join(q: seq<nat>): Option<seq<Byte>>
    requires 1 <= |q| <= 4 && AreSextets(q)
  {
    match |q|
    case 1 => None
    case 2 => if q[1] % 16 == 0 then Some([q[0] * 4 + q[1] / 16]) else None
    case 3 => if q[2] % 4 == 0 then Some([q[0] * 4 + q[1] / 16, q[1] % 16 * 16 + q[2] / 4]) else None
    case _ => Some([q[0] * 4 + q[1] / 16, q[1] % 16 * 16 + q[2] / 4, q[2] % 4 * 64 + q[3]])
  }

  function Ungroup(t: seq<Byte>): Option<seq<Byte>>
    requires 1 <= |t| <= 4
  {
    if exists i :: 0 <= i < |t| && Sextet(t[i]) == None then None
    else Join(Values(t))
  }

  function Values(t: seq<Byte>): (q: seq<nat>)
    requires forall i :: 0 <= i < |t| ==> Sextet(t[i]).Some?
    ensures |q| == |t| && AreSextets(q)
  {
    seq(|t|, i requires 0 <= i < |t| => Sextet(t[i]).value)
  }

  function Decode(s: seq<Byte>): Option<seq<Byte>> {
    if s == [] then Some([])
    else
      var k := Min(4, |s|);
      match (Ungroup(s[..k]), Decode(s[k..]))
      case (Some(g), Some(rest)) => Some(g + rest)
      case _ => None
  }

  lemma LetterSextet(v: nat)
    requires v < 64
    ensures Sextet(Letter(v)) == Some(v) && IsBase64UrlChar(Letter(v))
  {
  }

  lemma SextetLetter(c: Byte)
    ensures Sextet(c).Some? <==> IsBase64UrlChar(c)
    ensures Sextet(c).Some? ==> Letter(Sextet(c).value) == c
  {
  }

  lemma JoinInvertsSextets(g: seq<Byte>)
    requires 1 <= |g| <= 3
    ensures Join(Sextets(g)) == Some(g)
  {
    var q := Sextets(g);
    assert q[0] * 4 + q[1] / 16 == g[0];
    if |g| > 1 { assert q[1] % 16 * 16 + q[2] / 4 == g[1]; }
    if |g| > 2 { assert q[2] % 4 * 64 + q[3] == g[2]; }
    assert Join(q).value == g;
  }

  lemma SextetsInvertJoin(q: seq<nat>)
    requires 1 <= |q| <= 4 && AreSextets(q) && Join(q).Some?
    ensures |Join(q).value| == |q| - 1 && Sextets(Join(q).value) == q
  {
    var g := Join(q).value;
    assert g[0] / 4 == q[0];
    if |q| == 2 {
      assert g[0] % 4 * 16 == q[1];
    } else {
      assert g[0] % 4 * 16 + g[1] / 16 == q[1];
      if |q| == 3 {
        assert g[1] % 16 * 4 == q[2];
      } else {
        assert g[1] % 16 * 4 + g[2] / 64 == q[2] && g[2] % 64 == q[3];
      }
    }
  }

  lemma UngroupInvertsLetters(g: seq<Byte>)
    requires 1 <= |g| <= 3
    ensures Ungroup(Letters(Sextets(g))) == Some(g)
  {
    hide Letter, Sextet, Join, Sextets;
    var qs := Sextets(g);
    var t := Letters(qs);
    forall i | 0 <= i < |t| ensures Sextet(t[i]) == Some(qs[i]) { LetterSextet(qs[i]); }
    assert Values(t) == qs;
    JoinInvertsSextets(g);
  }

  lemma LettersInvertUngroup(t: seq<Byte>)
    requires 1 <= |t| <= 4 && Ungroup(t).Some?
    ensures var g := Ungroup(t).value; |g| == |t| - 1 && Letters(Sextets(g)) == t
  {
    hide Letter, Sextet, Join, Sextets;
    var q := Values(t);
    forall i | 0 <= i < |t| ensures Letter(q[i]) == t[i] { SextetLetter(t[i]); }
    SextetsInvertJoin(q);
  }

  lemma {:induction false} DecodeInvertsEncode(b: seq<Byte>)
    ensures Decode(Encode(b)) == Some(b)
  {
    if b != [] {
      hide Letters, Sextets, Ungroup;
      var k := Min(3, |b|);
      var t := Letters(Sextets(b[..k]));
      UngroupInvertsLetters(b[..k]);
      DecodeInvertsEncode(b[k..]);
      assert Encode(b)[..k + 1] == t && Encode(b)[k + 1..] == Encode(b[k..]);
      assert b == b[..k] + b[k..];
    }
  }

  lemma EncodeGroup(g: seq<Byte>, rest: seq<Byte>)
    requires 1 <= |g| <= 3 && (|g| == 3 || rest == [])
    ensures Encode(g + rest) == Letters(Sextets(g)) + Encode(rest)
  {
    hide Letters, Sextets;
    assert (g + rest)[..|g|] == g && (g + rest)[|g|..] == rest;
  }

  lemma {:induction false} EncodeInvertsDecode(s: seq<Byte>)
    requires Decode(s).Some?
    ensures Encode(Decode(s).value) == s
  {
    if s != [] {
      hide Letters, Sextets, Ungroup, Encode;
      var k := Min(4, |s|);
      LettersInvertUngroup(s[..k]);
      var g, rest := Ungroup(s[..k]).value, Decode(s[k..]).value;
      EncodeInvertsDecode(s[k..]);
      EncodeGroup(g, rest);
      assert s == s[..k] + s[k..];
    }
  }

  /** The encoder is exactly the inverse of the decoder: it is injective, and the
      texts the decoder accepts are exactly those the encoder writes. */
  lemma DecodesIffEncodes(s: seq<Byte>, b: seq<Byte>)
    ensures Decode(s) == Some(b) <==> s == Encode(b)
  {
    if Decode(s) == Some(b) {
      EncodeInvertsDecode(s);
    }
    DecodeInvertsEncode(b);
  }

  lemma {:induction false} EncodedLength(b: seq<Byte>)
    ensures |Encode(b)| == (4 * |b| + 2) / 3
    ensures forall i :: 0 <= i < |Encode(b)| ==> IsBase64UrlChar(Encode(b)[i])
  {
    if b != [] {
      var k := Min(3, |b|);
      EncodedLength(b[k..]);
      var qs := Sextets(b[..k]);
      forall i | 0 <= i < |qs| ensures IsBase64UrlChar(Letters(qs)[i]) { LetterSextet(qs[i]); }
    }
  }

  /** No bits of the last character of an `n`-character text are stray. */
  predicate NoStrayBits(n: nat, last: nat) {
    match n % 4
    case 0 => true
    case 1 => false
    case 2 => last % 16 == 0
    case _ => last % 4 == 0
  }

  predicate FitsLength(s: seq<Byte>)
    requires s != []
  {
    AllBase64Url(s) && NoStrayBits(|s|, Sextet(s[|s| - 1]).value)
  }

  lemma UngroupIff(t: seq<Byte>)
    requires 1 <= |t| <= 4
    ensures Ungroup(t).Some? <==> FitsLength(t)
  {
    hide Letter, Sextet, IsBase64UrlChar;
    forall i | 0 <= i < |t| ensures Sextet(t[i]).Some? <==> IsBase64UrlChar(t[i]) { SextetLetter(t[i]); }
  }

  /** A text decodes exactly when it is in the alphabet, is not one character
      over a multiple of four, and its last character has no stray bits. */
  lemma {:induction false} DecodableIff(s: seq<Byte>)
    requires s != []
    ensures Decode(s).Some? <==> FitsLength(s)
  {
    hide Ungroup;
    if |s| <= 4 {
      UngroupIff(s);
      assert s[..|s|] == s && s[|s|..] == [];
    } else {
      hide Decode, FitsLength;
      UngroupIff(s[..4]);
      DecodableIff(s[4..]);
      DecodeUnfold(s);
      FitsInTwo(s);
    }
  }

  lemma DecodeUnfold(s: seq<Byte>)
    requires |s| > 4
    ensures Decode(s).Some? <==> Ungroup(s[..4]).Some? && Decode(s[4..]).Some?
  {
    hide Ungroup;
  }

  lemma FitsInTwo(s: seq<Byte>)
    requires |s| > 4
    ensures FitsLength(s) <==> FitsLength(s[..4]) && FitsLength(s[4..])
  {
    hide IsBase64UrlChar, Sextet;
    forall i | 0 <= i < |s| ensures s[i] == if i < 4 then s[..4][i] else s[4..][i - 4] {}
  }

  // ---- claim tokens ----

  /** Every minted token passes the parser unchanged, and tokens are equal only
      when the bytes behind them are. */
  lemma MintedTokenParses(raw: seq<Byte>, other: seq<Byte>)
    requires |raw| == TOKEN_BYTES && |other| == TOKEN_BYTES
    ensures ParseToken(Encode(raw)) == Ok(Encode(raw))
    ensures Encode(raw) == Encode(other) <==> raw == other
  {
    EncodedLength(raw);
    DecodeInvertsEncode(raw);
    DecodeInvertsEncode(other);
  }

  /** The parser checks the shape only: an accepted text could have been minted
      exactly when its last character has its low four bits clear. */
  lemma AcceptedTokenIsMintedIff(s: seq<Byte>)
    requires ParseToken(s).Ok?
    ensures (exists raw :: |raw| == TOKEN_BYTES && Encode(raw) == s) <==> Sextet(s[TOKEN_CHARS - 1]).value % 16 == 0
  {
    DecodableIff(s);
    if Decode(s).Some? {
      EncodeInvertsDecode(s);
      EncodedLength(Decode(s).value);
    }
    forall raw | |raw| == TOKEN_BYTES && Encode(raw) == s ensures Decode(s).Some? { DecodeInvertsEncode(raw); }
  }
}
