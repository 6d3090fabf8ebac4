/** The Ed25519 seed inside a PKCS#8 blob: `extract_ed25519_seed_from_pkcs8` of
    `crates/cache-warden-authsock/src/signer.rs`. */
module Pkcs8 {
  import opened Wrappers
  import opened Bytes

  datatype SeedError =
    | NoOid
    | NoOctetString
    | OuterTooShort
    | OuterTruncated
    | NoInnerOctetString
    | SeedLength(n: Byte)
    | SeedTruncated

  const ED25519_OID: seq<Byte> := [0x06, 0x03, 0x2b, 0x65, 0x70]
  const OCTET_STRING: Byte := 0x04
  const SEED_LEN := 32

  predicate OidAt(der: seq<Byte>, i: nat) {
    i + 5 <= |der| && der[i..i + 5] == ED25519_OID
  }

  /** The first position of the object identifier, or `None`. */
  function FirstOid(der: seq<Byte>, from: nat): (r: Option<nat>)
    ensures r.Some? ==> from <= r.value && OidAt(der, r.value) && forall j :: from <= j < r.value ==> !OidAt(der, j)
    ensures r.None? ==> forall j :: from <= j ==> !OidAt(der, j)
    decreases |der| - from
  {
    if from + 5 > |der| then None else if OidAt(der, from) then Some(from) else FirstOid(der, from + 1)
  }

  function FirstOctetString(s: seq<Byte>, from: nat): (r: Option<nat>)
    requires from <= |s|
    ensures r.Some? ==> from <= r.value < |s| && s[r.value] == OCTET_STRING
    ensures r.Some? ==> forall j :: from <= j < r.value ==> s[j] != OCTET_STRING
    ensures r.None? ==> forall j :: from <= j < |s| ==> s[j] != OCTET_STRING
    decreases |s| - from
  {
    if from == |s| then None else if s[from] == OCTET_STRING then Some(from) else FirstOctetString(s, from + 1)
  }

  /** The seed of an outer octet string starting at `outer[0]`. */
  function SeedOfOuter(outer: seq<Byte>): Result<seq<Byte>, SeedError> {
    if |outer| < 2 then Err(OuterTooShort)
    else if 2 + (outer[1] as int) > |outer| then Err(OuterTruncated)
    else
      var content := outer[2..2 + outer[1] as int];
      if content == [] || content[0] != OCTET_STRING || |content| < 2 then Err(NoInnerOctetString)
      else if content[1] != SEED_LEN then Err(SeedLength(content[1]))
      else if |content| < 2 + SEED_LEN then Err(SeedTruncated)
      else Ok(content[2..2 + SEED_LEN])
  }

  function ExtractSeed(der: seq<Byte>): Result<seq<Byte>, SeedError> {
    match FirstOid(der, 0)
    case None => Err(NoOid)
    case Some(p) =>
      var rest := der[p + 5..];
      match FirstOctetString(rest, 0)
      case None => Err(NoOctetString)
      case Some(q) => SeedOfOuter(rest[q..])
  }

  method ExtractEd25519Seed(der: seq<Byte>) returns (r: Result<seq<Byte>, SeedError>)
    ensures r == ExtractSeed(der)
  {
    var p := 0;
    while p + 5 <= |der| && der[p..p + 5] != ED25519_OID
      invariant FirstOid(der, p) == FirstOid(der, 0)
    {
      p := p + 1;
    }
    if p + 5 > |der| {
      return Err(NoOid);
    }
    var rest := der[p + 5..];
    var q := 0;
    while q < |rest| && rest[q] != OCTET_STRING
      invariant q <= |rest| && FirstOctetString(rest, q) == FirstOctetString(rest, 0)
    {
      q := q + 1;
    }
    if q == |rest| {
      return Err(NoOctetString);
    }
    var outer := rest[q..];
    if |outer| < 2 {
      return Err(OuterTooShort);
    }
    var outerLen := outer[1];
    if 2 + (outerLen as int) > |outer| {
      return Err(OuterTruncated);
    }
    var content := outer[2..2 + outerLen as int];
    if content == [] || content[0] != OCTET_STRING || |content| < 2 {
      return Err(NoInnerOctetString);
    }
    var innerLen := content[1];
    if innerLen != SEED_LEN {
      return Err(SeedLength(innerLen));
    }
    if 2 + (innerLen as int) > |content| {
      return Err(SeedTruncated);
    }
    r := Ok(content[2..2 + innerLen as int]);
  }

  // ---- the layout it accepts ----

  /** The pieces of an accepted blob around the seed. */
  datatype Layout = Layout(before: seq<Byte>, between: seq<Byte>, outerLen: Byte, seed: seq<Byte>, after: seq<Byte>)

  function Octets(l: Layout): seq<Byte> {
    [OCTET_STRING, l.outerLen, OCTET_STRING, SEED_LEN] + l.seed + l.after
  }

  function LayoutBytes(l: Layout): seq<Byte> {
    l.before + ED25519_OID + (l.between + Octets(l))
  }

  /** The identifier starts nowhere earlier, no stray octet-string tag follows
      it, and the outer length covers the inner string and stays within the blob. */
  predicate WellLaid(l: Layout) {
    && (forall j :: 0 <= j < |l.before| ==> !OidAt(LayoutBytes(l), j))
    && OCTET_STRING !in l.between
    && |l.seed| == SEED_LEN
    && 34 <= l.outerLen <= 34 + |l.after|
  }

  lemma LayoutFound(l: Layout)
    requires WellLaid(l)
    ensures ExtractSeed(LayoutBytes(l)) == Ok(l.seed)
  {
    var der := LayoutBytes(l);
    var p := |l.before|;
    assert der[p..p + 5] == ED25519_OID && der[p + 5..] == l.between + Octets(l);
    assert OidAt(der, p);
    assert FirstOid(der, 0) == Some(p);
    var rest := l.between + Octets(l);
    var q := |l.between|;
    assert rest[q] == OCTET_STRING && forall j :: 0 <= j < q ==> rest[j] == l.between[j];
    assert FirstOctetString(rest, 0) == Some(q);
    assert rest[q..] == Octets(l);
    SeedOfOctets(l);
  }

  lemma SeedOfOctets(l: Layout)
    requires |l.seed| == SEED_LEN && 34 <= l.outerLen <= 34 + |l.after|
    ensures SeedOfOuter(Octets(l)) == Ok(l.seed)
  {
    var outer := Octets(l);
    var content := outer[2..2 + l.outerLen as int];
    assert content[0] == OCTET_STRING && content[1] == SEED_LEN;
    SliceOfSlice(outer, 2, 2 + l.outerLen as int, 2, 34);
    assert outer[4..36] == l.seed;
  }

  lemma OctetsOfSeed(outer: seq<Byte>)
    requires outer != [] && outer[0] == OCTET_STRING && SeedOfOuter(outer).Ok?
    ensures |outer| >= 36 && 34 <= outer[1] <= |outer| - 2
    ensures outer == [OCTET_STRING, outer[1], OCTET_STRING, SEED_LEN] + outer[4..36] + outer[36..]
    ensures SeedOfOuter(outer) == Ok(outer[4..36])
  {
    var content := outer[2..2 + outer[1] as int];
    assert content[0] == outer[2] && content[1] == outer[3];
    assert |content| >= 34;
    SliceOfSlice(outer, 2, 2 + |content|, 2, 34);
  }

  lemma OuterIsOctets(outer: seq<Byte>, before: seq<Byte>, between: seq<Byte>)
    requires outer != [] && outer[0] == OCTET_STRING && SeedOfOuter(outer).Ok?
    ensures |outer| >= 36
    ensures var l := Layout(before, between, outer[1], outer[4..36], outer[36..]);
            Octets(l) == outer && SeedOfOuter(outer) == Ok(l.seed) && 34 <= l.outerLen <= 34 + |l.after|
  {
    OctetsOfSeed(outer);
  }

  lemma FoundIsLaid(der: seq<Byte>) returns (l: Layout)
    requires ExtractSeed(der).Ok?
    ensures WellLaid(l) && der == LayoutBytes(l) && ExtractSeed(der) == Ok(l.seed)
  {
    hide SeedOfOuter, FirstOid, FirstOctetString, Octets, OidAt;
    var p := FirstOid(der, 0).value;
    Concatenated(der, p);
    var rest := der[p + 5..];
    var q := FirstOctetString(rest, 0).value;
    var outer := rest[q..];
    OuterIsOctets(outer, der[..p], rest[..q]);
    l := Layout(der[..p], rest[..q], outer[1], outer[4..36], outer[36..]);
    assert rest == l.between + outer;
    assert OCTET_STRING !in l.between;
  }

  lemma Concatenated(der: seq<Byte>, p: nat)
    requires OidAt(der, p)
    ensures p + 5 <= |der| && der == der[..p] + ED25519_OID + der[p + 5..]
  {
    assert der == der[..p] + der[p..p + 5] + der[p + 5..];
  }

  /** A seed is extracted exactly from the blobs laid out around it. */
  lemma ExtractIff(der: seq<Byte>, seed: seq<Byte>)
    ensures ExtractSeed(der) == Ok(seed) <==> exists l :: WellLaid(l) && der == LayoutBytes(l) && l.seed == seed
  {
    if ExtractSeed(der) == Ok(seed) {
      var l := FoundIsLaid(der);
    }
    forall l | WellLaid(l) && der == LayoutBytes(l) && l.seed == seed ensures ExtractSeed(der) == Ok(seed) {
      LayoutFound(l);
    }
  }

  /** The 48-byte encoding of RFC 8410 section 7 gives its seed, with any
      attributes or public key after it. */
  lemma StandardEncoding(seed: seq<Byte>, after: seq<Byte>, totalLen: Byte, version: Byte)
    requires |seed| == SEED_LEN && version <= 1 && totalLen != 0x06
    ensures ExtractSeed([0x30, totalLen, 0x02, 0x01, version, 0x30, 0x05] + ED25519_OID + [0x04, 0x22, 0x04, 0x20] + seed + after)
         == Ok(seed)
  {
    hide ExtractSeed;
    var head := [0x30, totalLen, 0x02, 0x01, version, 0x30, 0x05];
    var octets := [0x04, 0x22, 0x04, 0x20];
    var l := Layout(head, [], 0x22, seed, after);
    var der := LayoutBytes(l);
    assert der == head + ED25519_OID + octets + seed + after by {
      assert octets == [OCTET_STRING, l.outerLen, OCTET_STRING, SEED_LEN];
      assert [] + Octets(l) == Octets(l);
      assert head + ED25519_OID + (octets + seed + after) == head + ED25519_OID + octets + seed + after;
    }
    forall j: nat | j < 7 ensures !OidAt(der, j) {
      assert der[j] == head[j] != 0x06;
      NoOidWithoutTag(der, j);
    }
    LayoutFound(l);
  }

  lemma NoOidWithoutTag(der: seq<Byte>, j: nat)
    requires j < |der| && der[j] != 0x06
    ensures !OidAt(der, j)
  {
    assert j + 5 <= |der| ==> der[j..j + 5][0] == der[j];
    assert ED25519_OID[0] == 0x06;
  }
}
