/** The reader and writer of the vault format as the source runs them: a cursor
    advanced in place, and a byte vector appended to in place. Each method is
    tied to the specification functions of `VaultFormat`. */
module VaultCodec {
  import opened Wrappers
  import opened Buffers
  import opened Bytes
  import opened Utf8
  import F = VaultFormat
  import opened VaultFormat

  /** A cursor did what a parser specifies: on success the value is returned and
      the cursor stands behind it; on failure the error is the parser's. */
  ghost predicate Did<T(!new)>(spec: Parsed<T>, r: Result<T, VaultError>, rest: seq<Byte>) {
    match spec
    case Ok(p) => r == Ok(p.0) && rest == p.1
    case Err(e) => r == Err(e)
  }

  class Cursor {
    var rest: seq<Byte>

    constructor (bytes: seq<Byte>)
      ensures rest == bytes
    {
      rest := bytes;
    }

    method Take(n: nat) returns (r: Result<seq<Byte>, VaultError>)
      modifies this
      ensures Did(F.Take(old(rest), n), r, rest)
    {
      if |rest| < n {
        return Err(Truncated);
      }
      r := Ok(rest[..n]);
      rest := rest[n..];
    }

    method TakeU16() returns (r: Result<U16, VaultError>)
      modifies this
      ensures Did(F.TakeU16(old(rest)), r, rest)
    {
      PowersOf256();
      var b :- Take(2);
      r := Ok(Value(b));
    }

    method TakeU32() returns (r: Result<U32, VaultError>)
      modifies this
      ensures Did(F.TakeU32(old(rest)), r, rest)
    {
      PowersOf256();
      var b :- Take(4);
      r := Ok(Value(b));
    }

    method TakeU64() returns (r: Result<U64, VaultError>)
      modifies this
      ensures Did(F.TakeU64(old(rest)), r, rest)
    {
      PowersOf256();
      var b :- Take(8);
      r := Ok(Value(b));
    }

    method TakeId() returns (r: Result<Id, VaultError>)
      modifies this
      ensures Did(F.TakeId(old(rest)), r, rest)
    {
      var b :- Take(16);
      r := Ok(b);
    }

    method TakeBlock() returns (r: Result<Block, VaultError>)
      modifies this
      ensures Did(F.TakeBlock(old(rest)), r, rest)
    {
      var b :- Take(32);
      r := Ok(b);
    }

    method TakeKind() returns (r: Result<SlotKind, VaultError>)
      modifies this
      ensures Did(F.TakeKind(old(rest)), r, rest)
    {
      var id :- TakeU16();
      r := KindFromId(id);
    }

    method TakeBlob(field: string) returns (r: Result<seq<Byte>, VaultError>)
      modifies this
      ensures Did(F.TakeBlob(old(rest), field), r, rest)
    {
      var len :- TakeU32();
      if len > MAX_SLOT_FIELD_LEN {
        return Err(FieldTooLarge(field, len));
      }
      r := Take(len);
    }

    method TakeUtf8(field: string) returns (r: Result<Str, VaultError>)
      modifies this
      ensures Did(F.TakeUtf8(old(rest), field), r, rest)
    {
      var b :- TakeBlob(field);
      if !IsUtf8(b) {
        return Err(Malformed("a text field is not valid UTF-8"));
      }
      r := Ok(b);
    }

    method DecodeSlot() returns (r: Result<Slot, VaultError>)
      modifies this
      ensures Did(ParseSlot(old(rest)), r, rest)
    {
      hide F.TakeId, F.TakeKind, F.TakeBlock, F.TakeU64, F.TakeBlob, F.TakeUtf8, IsUtf8;
      var id :- TakeId();
      var kind :- TakeKind();
      var pubkey :- TakeBlock();
      var salt :- TakeBlock();
      var createdAt :- TakeU64();
      var wrappedPrivkey :- TakeBlob("wrapped_privkey");
      var ephemeralPub :- TakeBlock();
      var sealed :- TakeBlob("wrapped_dek");
      var rpId :- TakeUtf8("rp_id");
      var credentialId :- TakeBlob("credential_id");
      var slotLabel :- TakeUtf8("label");
      var credentialPublicKey :- TakeBlob("credential_public_key");
      r := Ok(Slot(id, kind, pubkey, salt, createdAt, wrappedPrivkey, WrappedDek(ephemeralPub, sealed),
                   rpId, credentialId, slotLabel, credentialPublicKey));
    }
  }

  /** The slots read so far followed by those still to come. */
  function After(done: seq<Slot>, spec: Parsed<seq<Slot>>): Parsed<seq<Slot>> {
    match spec
    case Ok(p) => Ok((done + p.0, p.1))
    case Err(e) => Err(e)
  }

  method DecodeSlots(c: Cursor, n: nat) returns (r: Result<seq<Slot>, VaultError>)
    modifies c
    ensures Did(ParseSlots(old(c.rest), n), r, c.rest)
  {
    hide ParseSlot;
    var slots := [];
    assert ParseSlots(c.rest, n).Ok? ==> [] + ParseSlots(c.rest, n).value.0 == ParseSlots(c.rest, n).value.0;
    for i := 0 to n
      invariant ParseSlots(old(c.rest), n) == After(slots, ParseSlots(c.rest, n - i))
    {
      ghost var before := c.rest;
      var s :- c.DecodeSlot();
      ghost var later := ParseSlots(c.rest, n - i - 1);
      assert later.Ok? ==> slots + ([s] + later.value.0) == slots + [s] + later.value.0;
      slots := slots + [s];
    }
    assert slots + [] == slots;
    r := Ok(slots);
  }

  method AnyDuplicate(slots: seq<Slot>) returns (dup: bool)
    ensures dup == HasDuplicate(slots)
  {
    for i := 0 to |slots|
      invariant DistinctIds(slots[..i])
    {
      for j := 0 to i
        invariant forall k :: 0 <= k < j ==> slots[k].id != slots[i].id
      {
        if slots[j].id == slots[i].id {
          return true;
        }
      }
    }
    assert slots[..|slots|] == slots;
    dup := false;
  }

  /** Parse a vault file, with the header bytes exactly as they were read. */
  method Decode(bytes: seq<Byte>) returns (r: Result<(VaultFile, seq<Byte>), VaultError>)
    ensures r == DecodeFile(bytes)
  {
    hide F.TakeU32, F.TakeId, F.TakeU64, F.TakeU16, ParseSlots, HasDuplicate;
    var cursor := new Cursor(bytes);
    var magic :- cursor.Take(8);
    if magic != MAGIC {
      return Err(BadMagic);
    }
    var version :- cursor.TakeU32();
    if !(MIN_SUPPORTED_VERSION <= version <= FORMAT_VERSION) {
      return Err(UnsupportedVersion(version));
    }
    var vaultId :- cursor.TakeId();
    var generation :- cursor.TakeU64();
    var aeadId :- cursor.TakeU16();
    var aead :- AeadFromId(aeadId);
    var kdfId :- cursor.TakeU16();
    var kdf :- KdfFromId(kdfId);
    var slotCount :- cursor.TakeU32();
    if slotCount == 0 {
      return Err(Malformed("a vault with no slots can never be opened"));
    }
    if slotCount > MAX_SLOTS {
      return Err(FieldTooLarge("slot_count", slotCount));
    }
    var slots :- DecodeSlots(cursor, slotCount);
    var dup := AnyDuplicate(slots);
    if dup {
      return Err(Malformed("two slots share one slot_id"));
    }
    var h := Header(version, vaultId, generation, aead, kdf, slots);
    assert ParseHeader(bytes) == Ok((h, cursor.rest));
    HeaderLeavesSuffix(bytes, h, cursor.rest);
    var aad := bytes[..|bytes| - |cursor.rest|];
    var body :- DecodeBody(cursor);
    r := Ok((VaultFile(h, body), aad));
  }

  method DecodeBody(cursor: Cursor) returns (r: Result<seq<Byte>, VaultError>)
    modifies cursor
    ensures r == ParseBody(old(cursor.rest))
  {
    hide F.TakeU64;
    var n :- cursor.TakeU64();
    if n > MAX_BODY_LEN {
      return Err(FieldTooLarge("body_len", n));
    }
    if n < NONCE_LEN + TAG_LEN {
      return Err(Malformed("body is too short to hold a nonce and an authentication tag"));
    }
    var body :- cursor.Take(n);
    if cursor.rest != [] {
      return Err(Malformed("trailing bytes after the vault body"));
    }
    r := Ok(body);
  }

  // ---- the writer ----

  method PutBlobInto(out: Buffer, b: seq<Byte>)
    modifies out
    ensures out.bytes == old(out.bytes) + F.PutBlob(b)
    ensures forall rest: seq<Byte> :: out.bytes + rest == old(out.bytes) + (F.PutBlob(b) + rest)
  {
    ghost var before := out.bytes;
    out.Extend(PutU32(|b| % 0x1_0000_0000));
    out.Extend(b);
    assert out.bytes == before + F.PutBlob(b);
    assert forall rest: seq<Byte> :: (before + F.PutBlob(b)) + rest == before + (F.PutBlob(b) + rest);
  }

  method EncodeSlotInto(s: Slot, out: Buffer)
    modifies out
    ensures out.bytes == old(out.bytes) + EncodeSlot(s)
  {
    hide F.PutBlob, PutU16, PutU64, IsUtf8;
    ghost var before := out.bytes;
    EncodeHeadInto(s, out);
    ghost var middle := out.bytes;
    EncodeKeysInto(s, out);
    ghost var last := out.bytes;
    EncodeMetaInto(s, out);
    SlotInParts(s);
    assert before + HeadThen(HeadOf(s), []) + KeysThen(KeysOf(s), []) + MetaThen(MetaOf(s), [])
        == before + (HeadThen(HeadOf(s), []) + KeysThen(KeysOf(s), []) + MetaThen(MetaOf(s), []));
  }

  lemma SlotInParts(s: Slot)
    ensures EncodeSlot(s) == HeadThen(HeadOf(s), []) + KeysThen(KeysOf(s), []) + MetaThen(MetaOf(s), [])
  {
    hide HeadThen, KeysThen, MetaThen;
    var m := MetaThen(MetaOf(s), []);
    var k := KeysThen(KeysOf(s), []);
    HeadAppend(HeadOf(s), [], KeysThen(KeysOf(s), m));
    KeysAppend(KeysOf(s), [], m);
    assert [] + m == m && [] + (k + m) == k + m;
    assert [] + KeysThen(KeysOf(s), m) == KeysThen(KeysOf(s), m);
    assert HeadThen(HeadOf(s), []) + (k + m) == HeadThen(HeadOf(s), []) + k + m;
  }

  method EncodeHeadInto(s: Slot, out: Buffer)
    modifies out
    ensures out.bytes == old(out.bytes) + HeadThen(HeadOf(s), [])
  {
    hide PutU16, PutU64;
    out.Extend(s.id);
    out.Extend(PutU16(KindId(s.kind)));
    out.Extend(s.pubkey);
    out.Extend(s.salt);
    out.Extend(PutU64(s.createdAt));
    assert out.bytes + [] == out.bytes;
  }

  method EncodeKeysInto(s: Slot, out: Buffer)
    modifies out
    ensures out.bytes == old(out.bytes) + KeysThen(KeysOf(s), [])
  {
    hide F.PutBlob;
    PutBlobInto(out, s.wrappedPrivkey);
    out.Extend(s.wrappedDek.ephemeralPub);
    PutBlobInto(out, s.wrappedDek.sealed);
    assert out.bytes + [] == out.bytes;
  }

  method EncodeMetaInto(s: Slot, out: Buffer)
    modifies out
    ensures out.bytes == old(out.bytes) + MetaThen(MetaOf(s), [])
  {
    hide F.PutBlob, IsUtf8;
    PutBlobInto(out, s.rpId);
    PutBlobInto(out, s.credentialId);
    PutBlobInto(out, s.slotLabel);
    PutBlobInto(out, s.credentialPublicKey);
    assert out.bytes + [] == out.bytes;
  }

  method EncodeSlotsInto(slots: seq<Slot>, b: Buffer)
    modifies b
    ensures b.bytes == old(b.bytes) + SlotsThen(slots, [])
  {
    hide EncodeSlot, SlotThen;
    for i := 0 to |slots|
      invariant b.bytes + SlotsThen(slots[i..], []) == old(b.bytes) + SlotsThen(slots, [])
    {
      ghost var tail := SlotsThen(slots[i + 1..], []);
      SlotsUnfold(slots, i);
      assert b.bytes + (EncodeSlot(slots[i]) + tail) == b.bytes + EncodeSlot(slots[i]) + tail;
      EncodeSlotInto(slots[i], b);
    }
    assert b.bytes + [] == b.bytes;
  }

  lemma SlotsUnfold(slots: seq<Slot>, i: nat)
    requires i < |slots|
    ensures SlotsThen(slots[i..], []) == EncodeSlot(slots[i]) + SlotsThen(slots[i + 1..], [])
  {
    hide HeadThen, KeysThen, MetaThen;
    var tail := SlotsThen(slots[i + 1..], []);
    assert slots[i..][1..] == slots[i + 1..];
    SlotAppend(slots[i], [], tail);
    assert [] + tail == tail;
  }

  method EncodePreambleInto(p: Preamble, b: Buffer)
    modifies b
    ensures b.bytes == old(b.bytes) + PreambleThen(p, [])
  {
    hide PutU16, PutU32, PutU64;
    b.Extend(MAGIC);
    b.Extend(PutU32(p.formatVersion));
    b.Extend(p.vaultId);
    b.Extend(PutU64(p.dekGeneration));
    b.Extend(PutU16(AeadId(p.aead)));
    b.Extend(PutU16(KdfId(p.kdf)));
    b.Extend(PutU32(p.slotCount));
    assert b.bytes + [] == b.bytes;
  }

  method EncodeHeaderBytes(h: Header) returns (out: seq<Byte>)
    ensures out == EncodeHeader(h)
  {
    hide SlotsThen, PreambleThen;
    var b := new Buffer();
    EncodePreambleInto(PreambleOf(h), b);
    EncodeSlotsInto(h.slots, b);
    PreambleAppend(PreambleOf(h), [], SlotsThen(h.slots, []));
    assert [] + SlotsThen(h.slots, []) == SlotsThen(h.slots, []);
    out := b.bytes;
  }

  method Encode(f: VaultFile) returns (out: seq<Byte>)
    ensures out == EncodeFile(f)
  {
    out := EncodeHeaderBytes(f.header);
    assert out + (PutU64(|f.sealedBody| % 0x1_0000_0000_0000_0000) + f.sealedBody)
        == out + PutU64(|f.sealedBody| % 0x1_0000_0000_0000_0000) + f.sealedBody;
    out := out + PutU64(|f.sealedBody| % 0x1_0000_0000_0000_0000) + f.sealedBody;
  }
}
