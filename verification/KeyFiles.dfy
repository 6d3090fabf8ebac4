/** The hand-written OpenSSH private-key reader of
    `crates/cache-warden-authsock/src/signer.rs`: `parse_openssh_ecdsa_fallback`. */
module KeyFiles {
  import opened Wrappers
  import opened Bytes
  import opened SshWire
  import opened Mpint

  // ---- PEM ----

  type Text = seq<Byte>

  const NEWLINE: Byte := 10
  const RETURN: Byte := 13
  const DASHES: Text := [45, 45, 45, 45, 45]

  /** Base64 decoding is a library's. */
  type Base64 = Text -> Option<seq<Byte>>

  function WithoutReturn(line: Text): Text {
    if line != [] && line[|line| - 1] == RETURN then line[..|line| - 1] else line
  }

  /** Rust's `str::lines`: a line ends at a newline, with or without a return
      before it; what follows the last newline is a line if it is not empty. */
  function Lines(t: Text): seq<Text>
    decreases |t|
  {
    var i := Find(t, NEWLINE);
    if t == [] then []
    else if i == |t| then [t]
    else [WithoutReturn(t[..i])] + Lines(t[i + 1..])
  }

  function Unarmoured(lines: seq<Text>): Text {
    if lines == [] then []
    else (if DASHES <= lines[0] then [] else lines[0]) + Unarmoured(lines[1..])
  }

  /** The base64 text: all lines that do not start with five dashes, joined. */
  function PemBody(pem: Text): Text {
    Unarmoured(Lines(pem))
  }

  method JoinBody(lines: seq<Text>) returns (body: Text)
    ensures body == Unarmoured(lines)
  {
    body := [];
    for i := 0 to |lines|
      invariant body + Unarmoured(lines[i..]) == Unarmoured(lines)
    {
      assert lines[i..][1..] == lines[i + 1..];
      if !(DASHES <= lines[i]) {
        body := body + lines[i];
      }
    }
    assert body + [] == body;
  }

  /** An armoured text: a marker line, lines of base64, a marker line; each with
      the same line ending. */
  function Ended(lines: seq<Text>, ending: Text): Text {
    if lines == [] then [] else lines[0] + ending + Ended(lines[1..], ending)
  }

  predicate IsEnding(ending: Text) {
    ending == [NEWLINE] || ending == [RETURN, NEWLINE]
  }

  predicate PlainLine(line: Text) {
    NEWLINE !in line && RETURN !in line
  }

  lemma FindFirst(a: Text, b: Byte, rest: Text)
    requires b !in a
    ensures Find(a + [b] + rest, b) == |a|
  {
    var t := a + [b] + rest;
    assert t[|a|] == b && forall j :: 0 <= j < |a| ==> t[j] == a[j];
  }

  lemma LinesFirst(l: Text, ending: Text, rest: Text)
    requires IsEnding(ending) && PlainLine(l)
    ensures Lines(l + ending + rest) == [l] + Lines(rest)
  {
    hide Find;
    var head := l + ending[..|ending| - 1];
    var t := l + ending + rest;
    assert t == head + [NEWLINE] + rest;
    FindFirst(head, NEWLINE, rest);
    assert t[..|head|] == head && t[|head| + 1..] == rest;
    assert WithoutReturn(head) == l by {
      if ending == [NEWLINE] {
        assert head == l;
      } else {
        assert head == l + [RETURN];
      }
    }
  }

  /** Lines printed with either ending are read back. */
  lemma {:induction false} LinesOfEnded(lines: seq<Text>, ending: Text)
    requires IsEnding(ending) && forall i :: 0 <= i < |lines| ==> PlainLine(lines[i])
    ensures Lines(Ended(lines, ending)) == lines
  {
    if lines != [] {
      hide Lines, IsEnding, PlainLine;
      LinesOfEnded(lines[1..], ending);
      LinesFirst(lines[0], ending, Ended(lines[1..], ending));
      assert lines == [lines[0]] + lines[1..];
    } else {
      assert Ended(lines, ending) == [];
    }
  }

  // ---- the OpenSSH container ----

  datatype Curve = NistP256 | NistP384 | NistP521

  datatype EcdsaKey = EcdsaKey(curve: Curve, scalar: seq<Byte>)

  function KeyType(c: Curve): seq<Byte> {
    Ascii(match c case NistP256 => "ecdsa-sha2-nistp256" case NistP384 => "ecdsa-sha2-nistp384" case NistP521 => "ecdsa-sha2-nistp521")
  }

  function CurveName(c: Curve): seq<Byte> {
    Ascii(match c case NistP256 => "nistp256" case NistP384 => "nistp384" case NistP521 => "nistp521")
  }

  function Width(c: Curve): nat {
    match c case NistP256 => 32 case NistP384 => 48 case NistP521 => 66
  }

  function CurveOfKeyType(t: seq<Byte>): Option<Curve> {
    if t == KeyType(NistP256) then Some(NistP256)
    else if t == KeyType(NistP384) then Some(NistP384)
    else if t == KeyType(NistP521) then Some(NistP521)
    else None
  }

  /** Everything in the container up to the encrypted-or-not private section. */
  datatype Outer = Outer(kdfName: seq<Byte>, kdfOptions: seq<Byte>, publicKey: seq<Byte>, privateSection: seq<Byte>, tail: seq<Byte>)

  datatype Inner = Inner(check: U32, keyType: seq<Byte>, curveName: seq<Byte>, point: seq<Byte>, mpint: seq<Byte>, tail: seq<Byte>)

  function Magic(): (m: seq<Byte>)
    ensures |m| == 15
  {
    Ascii("openssh-key-v1") + [0]
  }

  function Unencrypted(): (m: seq<Byte>)
    ensures |m| == 4
  {
    Ascii("none")
  }

  function OuterBytes(o: Outer): seq<Byte> {
    Magic() + (PutString(Unencrypted()) + (PutString(o.kdfName) + (PutString(o.kdfOptions)
    + (PutU32(1) + (PutString(o.publicKey) + (PutString(o.privateSection) + o.tail))))))
  }

  function InnerBytes(i: Inner): seq<Byte> {
    PutU32(i.check) + (PutU32(i.check) + (PutString(i.keyType) + (PutString(i.curveName)
    + (PutString(i.point) + (PutString(i.mpint) + i.tail)))))
  }

  predicate OuterFits(o: Outer, cap: U32) {
    4 <= cap && |o.kdfName| <= cap && |o.kdfOptions| <= cap && |o.publicKey| <= cap && |o.privateSection| <= cap
  }

  predicate InnerFits(i: Inner, cap: U32) {
    |i.keyType| <= cap && |i.curveName| <= cap && |i.point| <= cap && |i.mpint| <= cap
  }

  function ParseOuter(data: seq<Byte>, cap: U32): Option<Outer> {
    if |data| < 15 || data[..15] != Magic() then None
    else
      var (cipher, c) :- GetString(data[15..], cap).ToOption();
      if cipher != Unencrypted() then None
      else
        var (kdfName, c) :- GetString(c, cap).ToOption();
        var (kdfOptions, c) :- GetString(c, cap).ToOption();
        var (nkeys, c) :- GetU32(c).ToOption();
        if nkeys != 1 then None
        else
          var (publicKey, c) :- GetString(c, cap).ToOption();
          var (privateSection, c) :- GetString(c, cap).ToOption();
          Some(Outer(kdfName, kdfOptions, publicKey, privateSection, c))
  }

  function ParseInner(p: seq<Byte>, cap: U32): Option<Inner> {
    var (check1, c) :- GetU32(p).ToOption();
    var (check2, c) :- GetU32(c).ToOption();
    if check1 != check2 then None
    else
      var (keyType, c) :- GetString(c, cap).ToOption();
      var (curveName, c) :- GetString(c, cap).ToOption();
      var (point, c) :- GetString(c, cap).ToOption();
      var (mpint, c) :- GetString(c, cap).ToOption();
      Some(Inner(check1, keyType, curveName, point, mpint, c))
  }

  /** The key of a private section; the curve library may still refuse the scalar. */
  function KeyOf(i: Inner, accepts: EcdsaKey -> bool): Option<EcdsaKey> {
    var curve :- CurveOfKeyType(i.keyType);
    var scalar :- ScalarOfMpint(i.mpint, Width(curve));
    if i.curveName == CurveName(curve) && accepts(EcdsaKey(curve, scalar)) then Some(EcdsaKey(curve, scalar)) else None
  }

  function Fallback(data: seq<Byte>, cap: U32, accepts: EcdsaKey -> bool): Option<EcdsaKey> {
    var o :- ParseOuter(data, cap);
    var i :- ParseInner(o.privateSection, cap);
    KeyOf(i, accepts)
  }

  function FallbackPem(pem: Text, base64: Base64, cap: U32, accepts: EcdsaKey -> bool): Option<EcdsaKey> {
    var data :- base64(PemBody(pem));
    Fallback(data, cap, accepts)
  }

  // ---- the reader as it runs ----

  method ReadOuter(data: seq<Byte>, cap: U32) returns (r: Option<seq<Byte>>)
    ensures r == match ParseOuter(data, cap) case Some(o) => Some(o.privateSection) case None => None
  {
    hide GetString, GetU32, Magic, Unencrypted;
    if |data| < 15 || data[..15] != Magic() {
      return None;
    }
    var reader := new Reader(data[15..]);
    var cipher := reader.ReadString(cap);
    if cipher.Err? || cipher.value != Unencrypted() {
      return None;
    }
    var kdfName := reader.ReadString(cap);
    if kdfName.Err? { return None; }
    var kdfOptions := reader.ReadString(cap);
    if kdfOptions.Err? { return None; }
    var nkeys := reader.ReadU32();
    if nkeys.Err? || nkeys.value != 1 {
      return None;
    }
    var publicKey := reader.ReadString(cap);
    if publicKey.Err? { return None; }
    var privateSection := reader.ReadString(cap);
    r := privateSection.ToOption();
  }

  /** A fixed-width big-endian buffer with the magnitude copied to its end. */
  method PadScalar(magnitude: seq<Byte>, width: nat) returns (scalar: array<Byte>)
    requires |magnitude| <= width
    ensures fresh(scalar) && scalar[..] == Zeros(width - |magnitude|) + magnitude
  {
    scalar := new Byte[width](_ => 0);
    var start := width - |magnitude|;
    for k := 0 to |magnitude|
      invariant forall j :: 0 <= j < start ==> scalar[j] == 0
      invariant forall j :: 0 <= j < k ==> scalar[start + j] == magnitude[j]
    {
      scalar[start + k] := magnitude[k];
    }
  }

  method ParseOpenSshEcdsaFallback(pem: Text, base64: Base64, cap: U32, accepts: EcdsaKey -> bool)
    returns (r: Option<EcdsaKey>)
    ensures r == FallbackPem(pem, base64, cap, accepts)
  {
    var body := JoinBody(Lines(pem));
    var data := base64(body);
    if data.None? { return None; }
    r := ParseContainer(data.value, cap, accepts);
  }

  method ParseContainer(data: seq<Byte>, cap: U32, accepts: EcdsaKey -> bool) returns (r: Option<EcdsaKey>)
    ensures r == Fallback(data, cap, accepts)
  {
    hide GetString, GetU32, Magic, Unencrypted, KeyType, CurveName, ParseOuter;
    var privateSection := ReadOuter(data, cap);
    if privateSection.None? { return None; }
    var reader := new Reader(privateSection.value);
    var check1 := reader.ReadU32();
    if check1.Err? { return None; }
    var check2 := reader.ReadU32();
    if check2.Err? || check1.value != check2.value {
      return None;
    }
    var keyType := reader.ReadString(cap);
    if keyType.Err? { return None; }
    var curveName := reader.ReadString(cap);
    if curveName.Err? { return None; }
    var point := reader.ReadString(cap);
    if point.Err? { return None; }
    var scalarMpint := reader.ReadString(cap);
    if scalarMpint.Err? { return None; }
    var m := scalarMpint.value;
    var magnitude := if m != [] && m[0] == 0 then m[1..] else m;
    var curve := CurveOfKeyType(keyType.value);
    if curve.None? { return None; }
    if |magnitude| > Width(curve.value) {
      return None;
    }
    var scalar := PadScalar(magnitude, Width(curve.value));
    var key := EcdsaKey(curve.value, scalar[..]);
    r := if curveName.value == CurveName(curve.value) && accepts(key) then Some(key) else None;
  }

  // ---- which containers it reads ----

  lemma OuterIff(data: seq<Byte>, cap: U32, o: Outer)
    ensures ParseOuter(data, cap) == Some(o) <==> OuterFits(o, cap) && data == OuterBytes(o)
  {
    if ParseOuter(data, cap) == Some(o) {
      OuterSound(data, cap, o);
    }
    if OuterFits(o, cap) && data == OuterBytes(o) {
      OuterComplete(o, cap);
    }
  }

  lemma OuterSound(data: seq<Byte>, cap: U32, o: Outer)
    requires ParseOuter(data, cap) == Some(o)
    ensures OuterFits(o, cap) && data == OuterBytes(o)
  {
    hide GetString, GetU32, PutString, PutU32, Magic, Unencrypted;
    var (cipher, c1) := GetString(data[15..], cap).value;
    var (kdfName, c2) := GetString(c1, cap).value;
    var (kdfOptions, c3) := GetString(c2, cap).value;
    var (nkeys, c4) := GetU32(c3).value;
    var (publicKey, c5) := GetString(c4, cap).value;
    var (privateSection, c6) := GetString(c5, cap).value;
    GetStringIff(data[15..], cap, cipher, c1);
    GetStringIff(c1, cap, kdfName, c2);
    GetStringIff(c2, cap, kdfOptions, c3);
    GetU32Iff(c3, nkeys, c4);
    GetStringIff(c4, cap, publicKey, c5);
    GetStringIff(c5, cap, privateSection, c6);
    assert data == Magic() + data[15..];
  }

  lemma OuterComplete(o: Outer, cap: U32)
    requires OuterFits(o, cap)
    ensures ParseOuter(OuterBytes(o), cap) == Some(o)
  {
    hide GetString, GetU32, PutString, PutU32, Magic, Unencrypted;
    var c5 := PutString(o.privateSection) + o.tail;
    var c4 := PutString(o.publicKey) + c5;
    var c3 := PutU32(1) + c4;
    var c2 := PutString(o.kdfOptions) + c3;
    var c1 := PutString(o.kdfName) + c2;
    var c0 := PutString(Unencrypted()) + c1;
    assert OuterBytes(o)[..15] == Magic() && OuterBytes(o)[15..] == c0;
    GetStringIff(c0, cap, Unencrypted(), c1);
    GetStringIff(c1, cap, o.kdfName, c2);
    GetStringIff(c2, cap, o.kdfOptions, c3);
    GetU32Iff(c3, 1, c4);
    GetStringIff(c4, cap, o.publicKey, c5);
    GetStringIff(c5, cap, o.privateSection, o.tail);
  }

  lemma InnerIff(p: seq<Byte>, cap: U32, i: Inner)
    ensures ParseInner(p, cap) == Some(i) <==> InnerFits(i, cap) && p == InnerBytes(i)
  {
    if ParseInner(p, cap) == Some(i) {
      InnerSound(p, cap, i);
    }
    if InnerFits(i, cap) && p == InnerBytes(i) {
      InnerComplete(i, cap);
    }
  }

  lemma InnerSound(p: seq<Byte>, cap: U32, i: Inner)
    requires ParseInner(p, cap) == Some(i)
    ensures InnerFits(i, cap) && p == InnerBytes(i)
  {
    hide GetString, GetU32, PutString, PutU32;
    var (check1, c1) := GetU32(p).value;
    var (check2, c2) := GetU32(c1).value;
    var (keyType, c3) := GetString(c2, cap).value;
    var (curveName, c4) := GetString(c3, cap).value;
    var (point, c5) := GetString(c4, cap).value;
    var (mpint, c6) := GetString(c5, cap).value;
    GetU32Iff(p, check1, c1);
    GetU32Iff(c1, check2, c2);
    GetStringIff(c2, cap, keyType, c3);
    GetStringIff(c3, cap, curveName, c4);
    GetStringIff(c4, cap, point, c5);
    GetStringIff(c5, cap, mpint, c6);
  }

  lemma InnerComplete(i: Inner, cap: U32)
    requires InnerFits(i, cap)
    ensures ParseInner(InnerBytes(i), cap) == Some(i)
  {
    hide GetString, GetU32, PutString, PutU32;
    var c5 := PutString(i.mpint) + i.tail;
    var c4 := PutString(i.point) + c5;
    var c3 := PutString(i.curveName) + c4;
    var c2 := PutString(i.keyType) + c3;
    var c1 := PutU32(i.check) + c2;
    GetU32Iff(PutU32(i.check) + c1, i.check, c1);
    GetU32Iff(c1, i.check, c2);
    GetStringIff(c2, cap, i.keyType, c3);
    GetStringIff(c3, cap, i.curveName, c4);
    GetStringIff(c4, cap, i.point, c5);
    GetStringIff(c5, cap, i.mpint, i.tail);
  }

  /** A single unencrypted key whose two names agree and whose mpint normalises
      to `key.scalar`. */
  predicate Describes(o: Outer, i: Inner, key: EcdsaKey, cap: U32) {
    && OuterFits(o, cap) && InnerFits(i, cap) && o.privateSection == InnerBytes(i)
    && i.keyType == KeyType(key.curve) && i.curveName == CurveName(key.curve)
    && ScalarOfMpint(i.mpint, Width(key.curve)) == Some(key.scalar)
  }

  lemma KeyTypesDiffer(c: Curve)
    ensures CurveOfKeyType(KeyType(c)) == Some(c)
  {
    assert KeyType(NistP256)[16] == 50 && KeyType(NistP384)[16] == 51 && KeyType(NistP521)[16] == 53;
  }

  /** A key is read exactly from the containers that describe it. */
  lemma ContainerIff(data: seq<Byte>, cap: U32, accepts: EcdsaKey -> bool, key: EcdsaKey)
    ensures Fallback(data, cap, accepts) == Some(key)
       <==> accepts(key) && exists o, i :: Describes(o, i, key, cap) && data == OuterBytes(o)
  {
    hide KeyType, CurveName, ParseOuter, ParseInner, OuterBytes, InnerBytes, ScalarOfMpint;
    if Fallback(data, cap, accepts) == Some(key) {
      var o := ParseOuter(data, cap).value;
      var i := ParseInner(o.privateSection, cap).value;
      OuterIff(data, cap, o);
      InnerIff(o.privateSection, cap, i);
      assert Describes(o, i, key, cap);
    }
    forall o, i | accepts(key) && Describes(o, i, key, cap) && data == OuterBytes(o)
      ensures Fallback(data, cap, accepts) == Some(key)
    {
      OuterIff(data, cap, o);
      InnerIff(o.privateSection, cap, i);
      KeyTypesDiffer(key.curve);
    }
  }

  /** So a key is read from a PEM text exactly when its body is the base64 of such
      a container. */
  lemma FallbackIff(pem: Text, base64: Base64, cap: U32, accepts: EcdsaKey -> bool, key: EcdsaKey)
    ensures FallbackPem(pem, base64, cap, accepts) == Some(key)
       <==> accepts(key) && exists o, i :: Describes(o, i, key, cap) && base64(PemBody(pem)) == Some(OuterBytes(o))
  {
    hide Fallback, Describes, OuterBytes, PemBody;
    var data := base64(PemBody(pem));
    if data.Some? {
      ContainerIff(data.value, cap, accepts, key);
      if Fallback(data.value, cap, accepts) == Some(key) {
        var o, i :| Describes(o, i, key, cap) && data.value == OuterBytes(o);
        assert Describes(o, i, key, cap) && base64(PemBody(pem)) == Some(OuterBytes(o));
      }
    }
  }

  lemma {:induction false} UnarmouredAppend(a: seq<Text>, b: seq<Text>)
    ensures Unarmoured(a + b) == Unarmoured(a) + Unarmoured(b)
  {
    if a == [] {
      assert a + b == b;
    } else {
      assert (a + b)[1..] == a[1..] + b && (a + b)[0] == a[0];
      UnarmouredAppend(a[1..], b);
      var first := if DASHES <= a[0] then [] else a[0];
      assert Unarmoured(a + b) == first + (Unarmoured(a[1..]) + Unarmoured(b));
      assert first + (Unarmoured(a[1..]) + Unarmoured(b)) == first + Unarmoured(a[1..]) + Unarmoured(b);
    }
  }

  function Joined(lines: seq<Text>): Text {
    if lines == [] then [] else lines[0] + Joined(lines[1..])
  }

  lemma {:induction false} UnarmouredPlain(lines: seq<Text>)
    requires forall i :: 0 <= i < |lines| ==> !(DASHES <= lines[i])
    ensures Unarmoured(lines) == Joined(lines)
  {
    if lines != [] {
      UnarmouredPlain(lines[1..]);
    }
  }

  /** The body of an armoured text is its base64 lines joined, with either line
      ending. */
  lemma PemBodyOf(begin: Text, lines: seq<Text>, end: Text, ending: Text)
    requires IsEnding(ending) && PlainLine(begin) && PlainLine(end) && DASHES <= begin && DASHES <= end
    requires forall i :: 0 <= i < |lines| ==> PlainLine(lines[i]) && !(DASHES <= lines[i])
    ensures PemBody(Ended([begin] + lines + [end], ending)) == Joined(lines)
  {
    LinesOfEnded([begin] + lines + [end], ending);
    UnarmouredAppend([begin] + lines, [end]);
    UnarmouredAppend([begin], lines);
    UnarmouredPlain(lines);
    assert [begin][1..] == [] && [end][1..] == [];
    assert Unarmoured([begin]) == [] && Unarmoured([end]) == [];
  }

  /** A scalar of the curve's width, written as an mpint, is read back exactly,
      whether the mpint is shorter (leading zeros) or longer (sign padding), from
      PEM lines with either line ending. */
  lemma FallbackRecoversScalar(o: Outer, i: Inner, key: EcdsaKey, cap: U32, accepts: EcdsaKey -> bool,
                               pem: Text, base64: Base64)
    requires base64(PemBody(pem)) == Some(OuterBytes(o))
    requires OuterFits(o, cap) && InnerFits(i, cap) && o.privateSection == InnerBytes(i)
    requires i.keyType == KeyType(key.curve) && i.curveName == CurveName(key.curve)
    requires |key.scalar| == Width(key.curve) && i.mpint == MpintBody(key.scalar) && accepts(key)
    ensures FallbackPem(pem, base64, cap, accepts) == Some(key)
  {
    ScalarRoundTrip(key.scalar);
    assert Describes(o, i, key, cap);
    FallbackIff(pem, base64, cap, accepts, key);
  }
}
