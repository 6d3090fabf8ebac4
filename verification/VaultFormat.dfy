/** The on-disk vault format: `crates/cache-warden-vault/src/format.rs`.

    A readable header with one slot per recipient comes first, the encrypted body
    last. The body is sealed against the header bytes as they were read, so what
    matters is that the bytes determine the fields and the fields the bytes. */
module VaultFormat {
  import opened Wrappers
  import opened Bytes
  import opened Utf8

  /** `CWVAULT\0` */
  const MAGIC: seq<Byte> := [67, 87, 86, 65, 85, 76, 84, 0]
  const FORMAT_VERSION: U32 := 2
  const MIN_SUPPORTED_VERSION: U32 := 2
  const MAX_SLOTS: nat := 1024
  const MAX_SLOT_FIELD_LEN: nat := 64 * 1024
  const MAX_BODY_LEN: nat := 64 * 1024 * 1024
  const MAX_FILE_LEN: nat := MAX_BODY_LEN + 16 * 1024 * 1024
  const NONCE_LEN: nat := 24
  const TAG_LEN: nat := 16

  type Id = s: seq<Byte> | |s| == 16 witness seq(16, _ => 0)
  type Block = s: seq<Byte> | |s| == 32 witness seq(32, _ => 0)

  datatype AeadAlg = XChaCha20Poly1305
  datatype KdfAlg = HkdfSha256
  datatype SlotKind = PasskeyPrf | Recovery

  datatype WrappedDek = WrappedDek(ephemeralPub: Block, sealed: seq<Byte>)

  datatype Slot = Slot(
    id: Id,
    kind: SlotKind,
    pubkey: Block,
    salt: Block,
    createdAt: U64,
    wrappedPrivkey: seq<Byte>,
    wrappedDek: WrappedDek,
    rpId: Str,
    credentialId: seq<Byte>,
    slotLabel: Str,
    credentialPublicKey: seq<Byte>)

  /** The header fields; their encoding authenticates the body. */
  datatype Header = Header(
    formatVersion: U32,
    vaultId: Id,
    dekGeneration: U64,
    aead: AeadAlg,
    kdf: KdfAlg,
    slots: seq<Slot>)

  datatype VaultFile = VaultFile(header: Header, sealedBody: seq<Byte>)

  datatype VaultError =
    | Truncated
    | BadMagic
    | UnsupportedVersion(got: U32)
    | UnsupportedAlgorithm(field: string, id: U16)
    | UnknownSlotKind(id: U16)
    | FieldTooLarge(field: string, len: nat)
    | Malformed(reason: string)

  /** A parsed value and what is left of the input. */
  type Parsed<T> = Result<(T, seq<Byte>), VaultError>

  // ---- identifiers on the wire ----

  function AeadId(a: AeadAlg): U16 { 1 }

  function AeadFromId(id: U16): Result<AeadAlg, VaultError> {
    if id == 1 then Ok(XChaCha20Poly1305) else Err(UnsupportedAlgorithm("aead_alg_id", id))
  }

  function KdfId(k: KdfAlg): U16 { 1 }

  function KdfFromId(id: U16): Result<KdfAlg, VaultError> {
    if id == 1 then Ok(HkdfSha256) else Err(UnsupportedAlgorithm("kdf_alg_id", id))
  }

  function KindId(k: SlotKind): U16 {
    match k case PasskeyPrf => 1 case Recovery => 2
  }

  function KindFromId(id: U16): Result<SlotKind, VaultError> {
    if id == 1 then Ok(PasskeyPrf) else if id == 2 then Ok(Recovery) else Err(UnknownSlotKind(id))
  }

  // ---- primitive parsers ----

  function Take(c: seq<Byte>, n: nat): Parsed<seq<Byte>> {
    if |c| < n then Err(Truncated) else Ok((c[..n], c[n..]))
  }

  function TakeNat(c: seq<Byte>, w: nat): Parsed<nat> {
    var (b, rest) :- Take(c, w);
    Ok((Value(b), rest))
  }

  function TakeU16(c: seq<Byte>): Parsed<U16> {
    PowersOf256();
    var (v, rest) :- TakeNat(c, 2);
    Ok((v, rest))
  }

  function TakeU32(c: seq<Byte>): Parsed<U32> {
    PowersOf256();
    var (v, rest) :- TakeNat(c, 4);
    Ok((v, rest))
  }

  function TakeU64(c: seq<Byte>): Parsed<U64> {
    PowersOf256();
    var (v, rest) :- TakeNat(c, 8);
    Ok((v, rest))
  }

  function TakeId(c: seq<Byte>): Parsed<Id> {
    var (b, rest) :- Take(c, 16);
    Ok((b, rest))
  }

  function TakeBlock(c: seq<Byte>): Parsed<Block> {
    var (b, rest) :- Take(c, 32);
    Ok((b, rest))
  }

  function TakeBlob(c: seq<Byte>, field: string): Parsed<seq<Byte>> {
    var (len, rest) :- TakeU32(c);
    if len > MAX_SLOT_FIELD_LEN then Err(FieldTooLarge(field, len)) else Take(rest, len)
  }

  function TakeUtf8(c: seq<Byte>, field: string): Parsed<Str> {
    var (b, rest) :- TakeBlob(c, field);
    if IsUtf8(b) then Ok((b, rest)) else Err(Malformed("a text field is not valid UTF-8"))
  }

  function TakeKind(c: seq<Byte>): Parsed<SlotKind> {
    var (id, rest) :- TakeU16(c);
    var kind :- KindFromId(id);
    Ok((kind, rest))
  }

  // ---- primitive printers ----

  function PutU16(v: U16): seq<Byte> { BigEndian(v, 2) }
  function PutU64(v: U64): seq<Byte> { BigEndian(v, 8) }

  /** The length is narrowed to 32 bits, as the source's cast does. */
  function PutBlob(b: seq<Byte>): seq<Byte> {
    PutU32(|b| % 0x1_0000_0000) + b
  }

  // ---- each primitive parser inverts its printer, and accepts nothing else ----

  lemma SplitAt(c: seq<Byte>, a: seq<Byte>, rest: seq<Byte>)
    ensures c == a + rest <==> |c| >= |a| && c[..|a|] == a && c[|a|..] == rest
  {
    if |c| >= |a| && c[..|a|] == a && c[|a|..] == rest {
      assert c == c[..|a|] + c[|a|..];
    }
  }

  lemma TakeIff(c: seq<Byte>, n: nat, b: seq<Byte>, rest: seq<Byte>)
    ensures Take(c, n) == Ok((b, rest)) <==> |b| == n && c == b + rest
  {
    SplitAt(c, b, rest);
  }

  lemma TakeNatIff(c: seq<Byte>, w: nat, v: nat, rest: seq<Byte>)
    ensures TakeNat(c, w) == Ok((v, rest)) <==> v < Pow256(w) && c == BigEndian(v, w) + rest
  {
    if TakeNat(c, w) == Ok((v, rest)) {
      TakeIff(c, w, c[..w], rest);
      BigEndianOfValue(c[..w]);
    }
    if v < Pow256(w) && c == BigEndian(v, w) + rest {
      TakeIff(c, w, BigEndian(v, w), rest);
      ValueOfBigEndian(v, w);
    }
  }

  lemma TakeU16Iff(c: seq<Byte>, v: U16, rest: seq<Byte>)
    ensures TakeU16(c) == Ok((v, rest)) <==> c == PutU16(v) + rest
  {
    PowersOf256();
    TakeNatIff(c, 2, v, rest);
  }

  lemma TakeU32Iff(c: seq<Byte>, v: U32, rest: seq<Byte>)
    ensures TakeU32(c) == Ok((v, rest)) <==> c == PutU32(v) + rest
  {
    PowersOf256();
    TakeNatIff(c, 4, v, rest);
  }

  lemma TakeU64Iff(c: seq<Byte>, v: U64, rest: seq<Byte>)
    ensures TakeU64(c) == Ok((v, rest)) <==> c == PutU64(v) + rest
  {
    PowersOf256();
    TakeNatIff(c, 8, v, rest);
  }

  lemma TakeIdIff(c: seq<Byte>, b: Id, rest: seq<Byte>)
    ensures TakeId(c) == Ok((b, rest)) <==> c == b + rest
  {
    TakeIff(c, 16, b, rest);
  }

  lemma TakeBlockIff(c: seq<Byte>, b: Block, rest: seq<Byte>)
    ensures TakeBlock(c) == Ok((b, rest)) <==> c == b + rest
  {
    TakeIff(c, 32, b, rest);
  }

  lemma TakeBlobIff(c: seq<Byte>, field: string, b: seq<Byte>, rest: seq<Byte>)
    ensures TakeBlob(c, field) == Ok((b, rest)) <==> |b| <= MAX_SLOT_FIELD_LEN && c == PutBlob(b) + rest
  {
    hide TakeU32, Take, PutU32;
    assert PutBlob(b) + rest == PutU32(|b| % 0x1_0000_0000) + (b + rest);
    if TakeBlob(c, field) == Ok((b, rest)) {
      var (len, c1) := TakeU32(c).value;
      TakeU32Iff(c, len, c1);
      TakeIff(c1, len, b, rest);
    }
    if |b| <= MAX_SLOT_FIELD_LEN && c == PutBlob(b) + rest {
      TakeU32Iff(c, |b|, b + rest);
      TakeIff(b + rest, |b|, b, rest);
    }
  }

  lemma TakeUtf8Iff(c: seq<Byte>, field: string, s: Str, rest: seq<Byte>)
    ensures TakeUtf8(c, field) == Ok((s, rest)) <==> |s| <= MAX_SLOT_FIELD_LEN && c == PutBlob(s) + rest
  {
    TakeBlobIff(c, field, s, rest);
  }

  lemma TakeKindIff(c: seq<Byte>, k: SlotKind, rest: seq<Byte>)
    ensures TakeKind(c) == Ok((k, rest)) <==> c == PutU16(KindId(k)) + rest
  {
    TakeU16Iff(c, KindId(k), rest);
    if TakeU16(c).Ok? {
      var (id, c1) := TakeU16(c).value;
      TakeU16Iff(c, id, c1);
    }
  }

  // ---- slots ----

  // A slot is read in three stretches: who it is, its wrapped keys, its labels.

  datatype SlotHead = SlotHead(id: Id, kind: SlotKind, pubkey: Block, salt: Block, createdAt: U64)
  datatype SlotKeys = SlotKeys(wrappedPrivkey: seq<Byte>, wrappedDek: WrappedDek)
  datatype SlotMeta = SlotMeta(rpId: Str, credentialId: seq<Byte>, slotLabel: Str, credentialPublicKey: seq<Byte>)

  function ParseSlotHead(c: seq<Byte>): Parsed<SlotHead> {
    var (id, c) :- TakeId(c);
    var (kind, c) :- TakeKind(c);
    var (pubkey, c) :- TakeBlock(c);
    var (salt, c) :- TakeBlock(c);
    var (createdAt, c) :- TakeU64(c);
    Ok((SlotHead(id, kind, pubkey, salt, createdAt), c))
  }

  function ParseSlotKeys(c: seq<Byte>): Parsed<SlotKeys> {
    var (wrappedPrivkey, c) :- TakeBlob(c, "wrapped_privkey");
    var (ephemeralPub, c) :- TakeBlock(c);
    var (sealed, c) :- TakeBlob(c, "wrapped_dek");
    Ok((SlotKeys(wrappedPrivkey, WrappedDek(ephemeralPub, sealed)), c))
  }

  function ParseSlotMeta(c: seq<Byte>): Parsed<SlotMeta> {
    var (rpId, c) :- TakeUtf8(c, "rp_id");
    var (credentialId, c) :- TakeBlob(c, "credential_id");
    var (slotLabel, c) :- TakeUtf8(c, "label");
    var (credentialPublicKey, c) :- TakeBlob(c, "credential_public_key");
    Ok((SlotMeta(rpId, credentialId, slotLabel, credentialPublicKey), c))
  }

  function ParseSlot(c: seq<Byte>): Parsed<Slot> {
    var (h, c) :- ParseSlotHead(c);
    var (k, c) :- ParseSlotKeys(c);
    var (m, c) :- ParseSlotMeta(c);
    Ok((MakeSlot(h, k, m), c))
  }

  function MakeSlot(h: SlotHead, k: SlotKeys, m: SlotMeta): Slot {
    Slot(h.id, h.kind, h.pubkey, h.salt, h.createdAt, k.wrappedPrivkey, k.wrappedDek,
         m.rpId, m.credentialId, m.slotLabel, m.credentialPublicKey)
  }

  function HeadOf(s: Slot): SlotHead {
    SlotHead(s.id, s.kind, s.pubkey, s.salt, s.createdAt)
  }

  function KeysOf(s: Slot): SlotKeys {
    SlotKeys(s.wrappedPrivkey, s.wrappedDek)
  }

  function MetaOf(s: Slot): SlotMeta {
    SlotMeta(s.rpId, s.credentialId, s.slotLabel, s.credentialPublicKey)
  }

  function HeadThen(h: SlotHead, rest: seq<Byte>): seq<Byte> {
    h.id + (PutU16(KindId(h.kind)) + (h.pubkey + (h.salt + (PutU64(h.createdAt) + rest))))
  }

  function KeysThen(k: SlotKeys, rest: seq<Byte>): seq<Byte> {
    PutBlob(k.wrappedPrivkey) + (k.wrappedDek.ephemeralPub + (PutBlob(k.wrappedDek.sealed) + rest))
  }

  function MetaThen(m: SlotMeta, rest: seq<Byte>): seq<Byte> {
    PutBlob(m.rpId) + (PutBlob(m.credentialId) + (PutBlob(m.slotLabel) + (PutBlob(m.credentialPublicKey) + rest)))
  }

  /** The bytes of a slot followed by `rest`. */
  function SlotThen(s: Slot, rest: seq<Byte>): seq<Byte> {
    HeadThen(HeadOf(s), KeysThen(KeysOf(s), MetaThen(MetaOf(s), rest)))
  }

  function EncodeSlot(s: Slot): seq<Byte> {
    SlotThen(s, [])
  }

  predicate Bounded(b: seq<Byte>) {
    |b| <= MAX_SLOT_FIELD_LEN
  }

  predicate ValidKeys(k: SlotKeys) {
    Bounded(k.wrappedPrivkey) && Bounded(k.wrappedDek.sealed)
  }

  predicate ValidMeta(m: SlotMeta) {
    Bounded(m.rpId) && Bounded(m.credentialId) && Bounded(m.slotLabel) && Bounded(m.credentialPublicKey)
  }

  /** Every length-prefixed field is within the bound the reader accepts. */
  predicate ValidSlot(s: Slot) {
    ValidKeys(KeysOf(s)) && ValidMeta(MetaOf(s))
  }

  lemma ParseHeadIff(c: seq<Byte>, h: SlotHead, rest: seq<Byte>)
    ensures ParseSlotHead(c) == Ok((h, rest)) <==> c == HeadThen(h, rest)
  {
    var c4 := PutU64(h.createdAt) + rest;
    var c3 := h.salt + c4;
    var c2 := h.pubkey + c3;
    var c1 := PutU16(KindId(h.kind)) + c2;
    TakeIdIff(c, h.id, c1);
    TakeKindIff(c1, h.kind, c2);
    TakeBlockIff(c2, h.pubkey, c3);
    TakeBlockIff(c3, h.salt, c4);
    TakeU64Iff(c4, h.createdAt, rest);
    if ParseSlotHead(c) == Ok((h, rest)) {
      var (_, d1) := TakeId(c).value;
      var (_, d2) := TakeKind(d1).value;
      var (_, d3) := TakeBlock(d2).value;
      var (_, d4) := TakeBlock(d3).value;
      TakeIdIff(c, h.id, d1);
      TakeKindIff(d1, h.kind, d2);
      TakeBlockIff(d2, h.pubkey, d3);
      TakeBlockIff(d3, h.salt, d4);
      TakeU64Iff(d4, h.createdAt, rest);
    }
  }

  lemma ParseKeysIff(c: seq<Byte>, k: SlotKeys, rest: seq<Byte>)
    ensures ParseSlotKeys(c) == Ok((k, rest)) <==> ValidKeys(k) && c == KeysThen(k, rest)
  {
    var c2 := PutBlob(k.wrappedDek.sealed) + rest;
    var c1 := k.wrappedDek.ephemeralPub + c2;
    TakeBlobIff(c, "wrapped_privkey", k.wrappedPrivkey, c1);
    TakeBlockIff(c1, k.wrappedDek.ephemeralPub, c2);
    TakeBlobIff(c2, "wrapped_dek", k.wrappedDek.sealed, rest);
    if ParseSlotKeys(c) == Ok((k, rest)) {
      var (_, d1) := TakeBlob(c, "wrapped_privkey").value;
      var (_, d2) := TakeBlock(d1).value;
      TakeBlobIff(c, "wrapped_privkey", k.wrappedPrivkey, d1);
      TakeBlockIff(d1, k.wrappedDek.ephemeralPub, d2);
      TakeBlobIff(d2, "wrapped_dek", k.wrappedDek.sealed, rest);
    }
  }

  lemma ParseMetaSound(c: seq<Byte>, m: SlotMeta, rest: seq<Byte>)
    requires ParseSlotMeta(c) == Ok((m, rest))
    ensures ValidMeta(m) && c == MetaThen(m, rest)
  {
    hide TakeBlob, TakeUtf8, PutBlob, IsUtf8;
    var (rpId, d1) := TakeUtf8(c, "rp_id").value;
    var (credentialId, d2) := TakeBlob(d1, "credential_id").value;
    var (slotLabel, d3) := TakeUtf8(d2, "label").value;
    var (credentialPublicKey, d4) := TakeBlob(d3, "credential_public_key").value;
    TakeUtf8Iff(c, "rp_id", rpId, d1);
    TakeBlobIff(d1, "credential_id", credentialId, d2);
    TakeUtf8Iff(d2, "label", slotLabel, d3);
    TakeBlobIff(d3, "credential_public_key", credentialPublicKey, d4);
  }

  lemma ParseMetaComplete(m: SlotMeta, rest: seq<Byte>)
    requires ValidMeta(m)
    ensures ParseSlotMeta(MetaThen(m, rest)) == Ok((m, rest))
  {
    hide TakeBlob, TakeUtf8, PutBlob, IsUtf8;
    var d3 := PutBlob(m.credentialPublicKey) + rest;
    var d2 := PutBlob(m.slotLabel) + d3;
    var d1 := PutBlob(m.credentialId) + d2;
    TakeUtf8Iff(PutBlob(m.rpId) + d1, "rp_id", m.rpId, d1);
    TakeBlobIff(d1, "credential_id", m.credentialId, d2);
    TakeUtf8Iff(d2, "label", m.slotLabel, d3);
    TakeBlobIff(d3, "credential_public_key", m.credentialPublicKey, rest);
  }

  lemma ParseSlotStages(c: seq<Byte>, s: Slot, d1: seq<Byte>, d2: seq<Byte>, rest: seq<Byte>)
    requires ParseSlotHead(c) == Ok((HeadOf(s), d1))
    requires ParseSlotKeys(d1) == Ok((KeysOf(s), d2))
    requires ParseSlotMeta(d2) == Ok((MetaOf(s), rest))
    ensures ParseSlot(c) == Ok((s, rest))
  {
  }

  lemma ParseSlotSound(c: seq<Byte>, s: Slot, rest: seq<Byte>)
    requires ParseSlot(c) == Ok((s, rest))
    ensures ValidSlot(s) && c == SlotThen(s, rest)
  {
    var (h, d1) := ParseSlotHead(c).value;
    var (k, d2) := ParseSlotKeys(d1).value;
    var (m, d3) := ParseSlotMeta(d2).value;
    assert h == HeadOf(s) && k == KeysOf(s) && m == MetaOf(s) && d3 == rest;
    ParseHeadIff(c, h, d1);
    ParseKeysIff(d1, k, d2);
    ParseMetaSound(d2, m, rest);
  }

  lemma ParseSlotComplete(s: Slot, rest: seq<Byte>)
    requires ValidSlot(s)
    ensures ParseSlot(SlotThen(s, rest)) == Ok((s, rest))
  {
    var d2 := MetaThen(MetaOf(s), rest);
    var d1 := KeysThen(KeysOf(s), d2);
    var c := HeadThen(HeadOf(s), d1);
    ParseMetaComplete(MetaOf(s), rest);
    ParseKeysIff(d1, KeysOf(s), d2);
    ParseHeadIff(c, HeadOf(s), d1);
    ParseSlotStages(c, s, d1, d2, rest);
  }

  /** A slot parses to `s` exactly when the bytes are those of a bounded `s`. */
  lemma ParseSlotIff(c: seq<Byte>, s: Slot, rest: seq<Byte>)
    ensures ParseSlot(c) == Ok((s, rest)) <==> ValidSlot(s) && c == SlotThen(s, rest)
  {
    if ParseSlot(c) == Ok((s, rest)) {
      ParseSlotSound(c, s, rest);
    }
    if ValidSlot(s) && c == SlotThen(s, rest) {
      ParseSlotComplete(s, rest);
    }
  }

  // ---- the header ----

  function ParseSlots(c: seq<Byte>, n: nat): Parsed<seq<Slot>>
    decreases n
  {
    hide ParseSlot;
    if n == 0 then Ok(([], c))
    else
      var (s, c) :- ParseSlot(c);
      var (ss, c) :- ParseSlots(c, n - 1);
      Ok(([s] + ss, c))
  }

  function SlotsThen(ss: seq<Slot>, rest: seq<Byte>): seq<Byte> {
    if ss == [] then rest else SlotThen(ss[0], SlotsThen(ss[1..], rest))
  }

  ghost predicate AllValid(ss: seq<Slot>) {
    forall i :: 0 <= i < |ss| ==> ValidSlot(ss[i])
  }

  lemma {:induction false} ParseSlotsIff(c: seq<Byte>, n: nat, ss: seq<Slot>, rest: seq<Byte>)
    ensures ParseSlots(c, n) == Ok((ss, rest)) <==> |ss| == n && AllValid(ss) && c == SlotsThen(ss, rest)
    decreases n
  {
    hide ParseSlot, SlotThen, ValidSlot;
    if n > 0 && ss != [] {
      assert ss == [ss[0]] + ss[1..];
      var d := SlotsThen(ss[1..], rest);
      ParseSlotIff(c, ss[0], d);
      ParseSlotsIff(d, n - 1, ss[1..], rest);
      if ParseSlots(c, n) == Ok((ss, rest)) {
        var (s, c1) := ParseSlot(c).value;
        assert s == ss[0];
        ParseSlotIff(c, s, c1);
        ParseSlotsIff(c1, n - 1, ss[1..], rest);
        assert AllValid(ss[1..]);
        forall i | 0 <= i < |ss| ensures ValidSlot(ss[i]) {
          if i > 0 { assert ss[i] == ss[1..][i - 1]; }
        }
      }
      if AllValid(ss) {
        assert AllValid(ss[1..]);
      }
    }
  }

  datatype Preamble = Preamble(
    formatVersion: U32, vaultId: Id, dekGeneration: U64, aead: AeadAlg, kdf: KdfAlg, slotCount: U32)

  function TakeMagic(c: seq<Byte>): Result<seq<Byte>, VaultError> {
    var (magic, c) :- Take(c, 8);
    if magic != MAGIC then Err(BadMagic) else Ok(c)
  }

  function TakeVersion(c: seq<Byte>): Parsed<U32> {
    var (v, c) :- TakeU32(c);
    if MIN_SUPPORTED_VERSION <= v <= FORMAT_VERSION then Ok((v, c)) else Err(UnsupportedVersion(v))
  }

  function TakeAead(c: seq<Byte>): Parsed<AeadAlg> {
    var (id, c) :- TakeU16(c);
    var a :- AeadFromId(id);
    Ok((a, c))
  }

  function TakeKdf(c: seq<Byte>): Parsed<KdfAlg> {
    var (id, c) :- TakeU16(c);
    var k :- KdfFromId(id);
    Ok((k, c))
  }

  function TakeSlotCount(c: seq<Byte>): Parsed<U32> {
    var (n, c) :- TakeU32(c);
    if n == 0 then Err(Malformed("a vault with no slots can never be opened"))
    else if n > MAX_SLOTS then Err(FieldTooLarge("slot_count", n))
    else Ok((n, c))
  }

  function ParsePreamble(c: seq<Byte>): Parsed<Preamble> {
    var c :- TakeMagic(c);
    var (version, c) :- TakeVersion(c);
    var (vaultId, c) :- TakeId(c);
    var (generation, c) :- TakeU64(c);
    var (aead, c) :- TakeAead(c);
    var (kdf, c) :- TakeKdf(c);
    var (n, c) :- TakeSlotCount(c);
    Ok((Preamble(version, vaultId, generation, aead, kdf, n), c))
  }

  function PreambleThen(p: Preamble, rest: seq<Byte>): seq<Byte> {
    MAGIC + (PutU32(p.formatVersion) + (p.vaultId + (PutU64(p.dekGeneration)
    + (PutU16(AeadId(p.aead)) + (PutU16(KdfId(p.kdf)) + (PutU32(p.slotCount) + rest))))))
  }

  predicate ValidPreamble(p: Preamble) {
    MIN_SUPPORTED_VERSION <= p.formatVersion <= FORMAT_VERSION && 1 <= p.slotCount <= MAX_SLOTS
  }

  lemma TakeMagicIff(c: seq<Byte>, rest: seq<Byte>)
    ensures TakeMagic(c) == Ok(rest) <==> c == MAGIC + rest
  {
    TakeIff(c, 8, MAGIC, rest);
    SplitAt(c, MAGIC, rest);
  }

  lemma TakeAlgIff(c: seq<Byte>, a: AeadAlg, k: KdfAlg, rest: seq<Byte>)
    ensures TakeAead(c) == Ok((a, rest)) <==> c == PutU16(AeadId(a)) + rest
    ensures TakeKdf(c) == Ok((k, rest)) <==> c == PutU16(KdfId(k)) + rest
  {
    TakeU16Iff(c, 1, rest);
    if TakeU16(c).Ok? {
      var (id, c1) := TakeU16(c).value;
      TakeU16Iff(c, id, c1);
    }
  }

  lemma ParsePreambleSound(c: seq<Byte>, p: Preamble, rest: seq<Byte>)
    requires ParsePreamble(c) == Ok((p, rest))
    ensures ValidPreamble(p) && c == PreambleThen(p, rest)
  {
    var d0 := TakeMagic(c).value;
    var (_, d1) := TakeVersion(d0).value;
    var (_, d2) := TakeId(d1).value;
    var (_, d3) := TakeU64(d2).value;
    var (_, d4) := TakeAead(d3).value;
    var (_, d5) := TakeKdf(d4).value;
    TakeMagicIff(c, d0);
    TakeU32Iff(d0, p.formatVersion, d1);
    TakeIdIff(d1, p.vaultId, d2);
    TakeU64Iff(d2, p.dekGeneration, d3);
    TakeAlgIff(d3, p.aead, p.kdf, d4);
    TakeAlgIff(d4, p.aead, p.kdf, d5);
    TakeU32Iff(d5, p.slotCount, rest);
  }

  lemma ParsePreambleComplete(p: Preamble, rest: seq<Byte>)
    requires ValidPreamble(p)
    ensures ParsePreamble(PreambleThen(p, rest)) == Ok((p, rest))
  {
    var d5 := PutU32(p.slotCount) + rest;
    var d4 := PutU16(KdfId(p.kdf)) + d5;
    var d3 := PutU16(AeadId(p.aead)) + d4;
    var d2 := PutU64(p.dekGeneration) + d3;
    var d1 := p.vaultId + d2;
    var d0 := PutU32(p.formatVersion) + d1;
    TakeMagicIff(MAGIC + d0, d0);
    TakeU32Iff(d0, p.formatVersion, d1);
    TakeIdIff(d1, p.vaultId, d2);
    TakeU64Iff(d2, p.dekGeneration, d3);
    TakeAlgIff(d3, p.aead, p.kdf, d4);
    TakeAlgIff(d4, p.aead, p.kdf, d5);
    TakeU32Iff(d5, p.slotCount, rest);
  }

  ghost predicate DistinctIds(ss: seq<Slot>) {
    forall i, j :: 0 <= i < j < |ss| ==> ss[i].id != ss[j].id
  }

  /** Whether some slot repeats an earlier slot's id. */
  function HasDuplicate(ss: seq<Slot>): (r: bool)
    ensures r <==> !DistinctIds(ss)
  {
    if ss == [] then false
    else
      var last := |ss| - 1;
      var earlier := exists i :: 0 <= i < last && ss[i].id == ss[last].id;
      assert DistinctIds(ss) <==> DistinctIds(ss[..last]) && !earlier;
      HasDuplicate(ss[..last]) || earlier
  }

  function ParseHeader(c: seq<Byte>): Parsed<Header> {
    var (p, c) :- ParsePreamble(c);
    var (ss, c) :- ParseSlots(c, p.slotCount);
    if HasDuplicate(ss) then Err(Malformed("two slots share one slot_id"))
    else Ok((Header(p.formatVersion, p.vaultId, p.dekGeneration, p.aead, p.kdf, ss), c))
  }

  function PreambleOf(h: Header): Preamble {
    Preamble(h.formatVersion, h.vaultId, h.dekGeneration, h.aead, h.kdf, |h.slots| % 0x1_0000_0000)
  }

  function HeaderThen(h: Header, rest: seq<Byte>): seq<Byte> {
    PreambleThen(PreambleOf(h), SlotsThen(h.slots, rest))
  }

  /** What the body is sealed against. */
  function EncodeHeader(h: Header): seq<Byte> {
    HeaderThen(h, [])
  }

  ghost predicate ValidHeader(h: Header) {
    && MIN_SUPPORTED_VERSION <= h.formatVersion <= FORMAT_VERSION
    && 1 <= |h.slots| <= MAX_SLOTS
    && AllValid(h.slots)
    && DistinctIds(h.slots)
  }

  lemma ParseHeaderSound(c: seq<Byte>, h: Header, rest: seq<Byte>)
    requires ParseHeader(c) == Ok((h, rest))
    ensures ValidHeader(h) && c == HeaderThen(h, rest)
  {
    hide ParsePreamble, ParseSlots, PreambleThen, SlotsThen, HasDuplicate, ValidSlot;
    var (p, c1) := ParsePreamble(c).value;
    ParsePreambleSound(c, p, c1);
    var (ss, c2) := ParseSlots(c1, p.slotCount).value;
    ParseSlotsIff(c1, p.slotCount, ss, c2);
  }

  lemma ParseHeaderComplete(h: Header, rest: seq<Byte>)
    requires ValidHeader(h)
    ensures ParseHeader(HeaderThen(h, rest)) == Ok((h, rest))
  {
    hide ParsePreamble, ParseSlots, PreambleThen, SlotsThen, HasDuplicate, ValidSlot;
    ParsePreambleComplete(PreambleOf(h), SlotsThen(h.slots, rest));
    ParseSlotsIff(SlotsThen(h.slots, rest), |h.slots|, h.slots, rest);
  }

  lemma ParseHeaderIff(c: seq<Byte>, h: Header, rest: seq<Byte>)
    ensures ParseHeader(c) == Ok((h, rest)) <==> ValidHeader(h) && c == HeaderThen(h, rest)
  {
    hide ParseHeader, ValidHeader, HeaderThen;
    if ParseHeader(c) == Ok((h, rest)) {
      ParseHeaderSound(c, h, rest);
    }
    if ValidHeader(h) && c == HeaderThen(h, rest) {
      ParseHeaderComplete(h, rest);
    }
  }

  // ---- the whole file ----

  function BodyBytes(body: seq<Byte>): seq<Byte> {
    PutU64(|body| % 0x1_0000_0000_0000_0000) + body
  }

  function EncodeFile(f: VaultFile): seq<Byte> {
    EncodeHeader(f.header) + BodyBytes(f.sealedBody)
  }

  function ParseBody(c: seq<Byte>): Result<seq<Byte>, VaultError> {
    var (n, c) :- TakeU64(c);
    if n > MAX_BODY_LEN then Err(FieldTooLarge("body_len", n))
    else if n < NONCE_LEN + TAG_LEN then
      Err(Malformed("body is too short to hold a nonce and an authentication tag"))
    else
      var (body, c) :- Take(c, n);
      if c != [] then Err(Malformed("trailing bytes after the vault body")) else Ok(body)
  }

  /** The file and the header bytes as they were read. */
  function DecodeFile(bytes: seq<Byte>): Result<(VaultFile, seq<Byte>), VaultError> {
    var (h, rest) :- ParseHeader(bytes);
    HeaderLeavesSuffix(bytes, h, rest);
    var aad := bytes[..|bytes| - |rest|];
    var body :- ParseBody(rest);
    Ok((VaultFile(h, body), aad))
  }

  ghost predicate ValidFile(f: VaultFile) {
    ValidHeader(f.header) && NONCE_LEN + TAG_LEN <= |f.sealedBody| <= MAX_BODY_LEN
  }

  lemma HeadAppend(h: SlotHead, a: seq<Byte>, b: seq<Byte>)
    ensures HeadThen(h, a + b) == HeadThen(h, a) + b
  {
    var t4 := PutU64(h.createdAt) + a;
    assert PutU64(h.createdAt) + (a + b) == t4 + b;
    var t3 := h.salt + t4;
    assert h.salt + (t4 + b) == t3 + b;
    var t2 := h.pubkey + t3;
    assert h.pubkey + (t3 + b) == t2 + b;
    var t1 := PutU16(KindId(h.kind)) + t2;
    assert PutU16(KindId(h.kind)) + (t2 + b) == t1 + b;
    assert h.id + (t1 + b) == (h.id + t1) + b;
  }

  lemma KeysAppend(k: SlotKeys, a: seq<Byte>, b: seq<Byte>)
    ensures KeysThen(k, a + b) == KeysThen(k, a) + b
  {
    var t2 := PutBlob(k.wrappedDek.sealed) + a;
    assert PutBlob(k.wrappedDek.sealed) + (a + b) == t2 + b;
    var t1 := k.wrappedDek.ephemeralPub + t2;
    assert k.wrappedDek.ephemeralPub + (t2 + b) == t1 + b;
    assert PutBlob(k.wrappedPrivkey) + (t1 + b) == (PutBlob(k.wrappedPrivkey) + t1) + b;
  }

  lemma MetaAppend(m: SlotMeta, a: seq<Byte>, b: seq<Byte>)
    ensures MetaThen(m, a + b) == MetaThen(m, a) + b
  {
    var t3 := PutBlob(m.credentialPublicKey) + a;
    assert PutBlob(m.credentialPublicKey) + (a + b) == t3 + b;
    var t2 := PutBlob(m.slotLabel) + t3;
    assert PutBlob(m.slotLabel) + (t3 + b) == t2 + b;
    var t1 := PutBlob(m.credentialId) + t2;
    assert PutBlob(m.credentialId) + (t2 + b) == t1 + b;
    assert PutBlob(m.rpId) + (t1 + b) == (PutBlob(m.rpId) + t1) + b;
  }

  lemma SlotAppend(s: Slot, a: seq<Byte>, b: seq<Byte>)
    ensures SlotThen(s, a + b) == SlotThen(s, a) + b
  {
    var d2 := MetaThen(MetaOf(s), a);
    var d1 := KeysThen(KeysOf(s), d2);
    MetaAppend(MetaOf(s), a, b);
    KeysAppend(KeysOf(s), d2, b);
    HeadAppend(HeadOf(s), d1, b);
  }

  lemma {:induction false} SlotsAppend(ss: seq<Slot>, a: seq<Byte>, b: seq<Byte>)
    ensures SlotsThen(ss, a + b) == SlotsThen(ss, a) + b
  {
    if ss != [] {
      SlotsAppend(ss[1..], a, b);
      SlotAppend(ss[0], SlotsThen(ss[1..], a), b);
    }
  }

  lemma PreambleAppend(p: Preamble, a: seq<Byte>, b: seq<Byte>)
    ensures PreambleThen(p, a + b) == PreambleThen(p, a) + b
  {
    var t6 := PutU32(p.slotCount) + a;
    assert PutU32(p.slotCount) + (a + b) == t6 + b;
    var t5 := PutU16(KdfId(p.kdf)) + t6;
    assert PutU16(KdfId(p.kdf)) + (t6 + b) == t5 + b;
    var t4 := PutU16(AeadId(p.aead)) + t5;
    assert PutU16(AeadId(p.aead)) + (t5 + b) == t4 + b;
    var t3 := PutU64(p.dekGeneration) + t4;
    assert PutU64(p.dekGeneration) + (t4 + b) == t3 + b;
    var t2 := p.vaultId + t3;
    assert p.vaultId + (t3 + b) == t2 + b;
    var t1 := PutU32(p.formatVersion) + t2;
    assert PutU32(p.formatVersion) + (t2 + b) == t1 + b;
    assert MAGIC + (t1 + b) == (MAGIC + t1) + b;
  }

  lemma HeaderAppend(h: Header, a: seq<Byte>, b: seq<Byte>)
    ensures HeaderThen(h, a + b) == HeaderThen(h, a) + b
  {
    SlotsAppend(h.slots, a, b);
    PreambleAppend(PreambleOf(h), SlotsThen(h.slots, a), b);
  }

  lemma HeaderLeavesSuffix(bytes: seq<Byte>, h: Header, rest: seq<Byte>)
    requires ParseHeader(bytes) == Ok((h, rest))
    ensures |rest| <= |bytes| && bytes == EncodeHeader(h) + rest
    ensures bytes[..|bytes| - |rest|] == EncodeHeader(h)
  {
    ParseHeaderIff(bytes, h, rest);
    HeaderAppend(h, [], rest);
    assert [] + rest == rest;
  }

  lemma ParseBodyIff(c: seq<Byte>, body: seq<Byte>)
    ensures ParseBody(c) == Ok(body)
       <==> NONCE_LEN + TAG_LEN <= |body| <= MAX_BODY_LEN && c == BodyBytes(body)
  {
    hide TakeU64, Take, PutU64;
    if ParseBody(c) == Ok(body) {
      var (n, d) := TakeU64(c).value;
      TakeU64Iff(c, n, d);
      var (b, e) := Take(d, n).value;
      TakeIff(d, n, b, e);
      assert b + e == body;
    }
    if NONCE_LEN + TAG_LEN <= |body| <= MAX_BODY_LEN && c == BodyBytes(body) {
      TakeU64Iff(c, |body|, body);
      TakeIff(body, |body|, body, []);
      assert body + [] == body;
    }
  }

  /** The accepted files are exactly the encodings of valid files, each read
      back as itself, with its own encoded header as authenticated data. */
  lemma DecodeIff(bytes: seq<Byte>, f: VaultFile, aad: seq<Byte>)
    ensures DecodeFile(bytes) == Ok((f, aad))
       <==> ValidFile(f) && bytes == EncodeFile(f) && aad == EncodeHeader(f.header)
  {
    hide ParseHeader, ParseBody, BodyBytes, HeaderThen, ValidHeader;
    var tail := BodyBytes(f.sealedBody);
    if DecodeFile(bytes) == Ok((f, aad)) {
      var (h, rest) := ParseHeader(bytes).value;
      HeaderLeavesSuffix(bytes, h, rest);
      ParseHeaderIff(bytes, h, rest);
      ParseBodyIff(rest, f.sealedBody);
    }
    if ValidFile(f) && bytes == EncodeFile(f) && aad == EncodeHeader(f.header) {
      HeaderAppend(f.header, [], tail);
      assert [] + tail == tail;
      ParseHeaderIff(bytes, f.header, tail);
      HeaderLeavesSuffix(bytes, f.header, tail);
      ParseBodyIff(tail, f.sealedBody);
    }
  }

  /** Equal authenticated data means equal header fields, slots included. */
  lemma AadDeterminesHeader(b1: seq<Byte>, b2: seq<Byte>)
    requires DecodeFile(b1).Ok? && DecodeFile(b2).Ok?
    requires DecodeFile(b1).value.1 == DecodeFile(b2).value.1
    ensures DecodeFile(b1).value.0.header == DecodeFile(b2).value.0.header
  {
    var (f1, aad1) := DecodeFile(b1).value;
    var (f2, aad2) := DecodeFile(b2).value;
    DecodeIff(b1, f1, aad1);
    DecodeIff(b2, f2, aad2);
    ParseHeaderIff(aad1, f1.header, []);
    ParseHeaderIff(aad2, f2.header, []);
  }

  /** No accepted file is a proper prefix of another. */
  lemma AcceptedFilesPrefixFree(b: seq<Byte>, extra: seq<Byte>)
    requires DecodeFile(b).Ok? && DecodeFile(b + extra).Ok?
    ensures extra == []
  {
    hide ParseHeader, ParseBody, HeaderThen, BodyBytes;
    var (h, rest) := ParseHeader(b).value;
    HeaderLeavesSuffix(b, h, rest);
    ParseHeaderIff(b, h, rest);
    HeaderAppend(h, rest, extra);
    ParseHeaderIff(b + extra, h, rest + extra);
    var body := ParseBody(rest).value;
    var body' := ParseBody(rest + extra).value;
    ParseBodyIff(rest, body);
    ParseBodyIff(rest + extra, body');
    BodyLengthFixed(rest, body, rest + extra, body');
  }

  lemma BodyLengthFixed(c: seq<Byte>, body: seq<Byte>, c': seq<Byte>, body': seq<Byte>)
    requires c <= c' && c == BodyBytes(body) && c' == BodyBytes(body')
    requires |body| <= MAX_BODY_LEN && |body'| <= MAX_BODY_LEN
    ensures |c| == |c'|
  {
    hide BigEndian, Value, Pow256;
    var n, n' := PutU64(|body|), PutU64(|body'|);
    assert n == c[..8] == c'[..8] == n';
    PowersOf256();
    ValueOfBigEndian(|body|, 8);
    ValueOfBigEndian(|body'|, 8);
  }
}
