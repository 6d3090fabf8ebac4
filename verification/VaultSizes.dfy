/** How long a vault file is, and which vaults the file-size limit admits. */
module VaultSizes {
  import opened Bytes
  import opened Utf8
  import opened VaultFormat

  const MAX_SLOT_LEN: nat := 393362

  function SlotLen(s: Slot): nat {
    146 + |s.wrappedPrivkey| + |s.wrappedDek.sealed| + |s.rpId| + |s.credentialId| + |s.slotLabel|
    + |s.credentialPublicKey|
  }

  function SlotsLen(ss: seq<Slot>): nat {
    if ss == [] then 0 else SlotLen(ss[0]) + SlotsLen(ss[1..])
  }

  lemma SlotThenLen(s: Slot, rest: seq<Byte>)
    ensures |SlotThen(s, rest)| == SlotLen(s) + |rest|
  {
  }

  lemma {:induction false} SlotsThenLen(ss: seq<Slot>)
    ensures |SlotsThen(ss, [])| == SlotsLen(ss)
  {
    if ss != [] {
      SlotsThenLen(ss[1..]);
      SlotThenLen(ss[0], SlotsThen(ss[1..], []));
    }
  }

  /** A valid slot takes at most 393362 bytes; a file is 44 bytes of fixed
      header, its slots, 8 bytes of body length, and the body. */
  lemma FileLen(f: VaultFile)
    ensures |EncodeFile(f)| == 44 + SlotsLen(f.header.slots) + 8 + |f.sealedBody|
    ensures AllValid(f.header.slots) ==> SlotsLen(f.header.slots) <= MAX_SLOT_LEN * |f.header.slots|
  {
    SlotsThenLen(f.header.slots);
    if AllValid(f.header.slots) {
      SlotsLenBound(f.header.slots);
    }
  }

  lemma {:induction false} SlotsLenBound(ss: seq<Slot>)
    requires AllValid(ss)
    ensures SlotsLen(ss) <= MAX_SLOT_LEN * |ss|
  {
    if ss != [] {
      assert ValidSlot(ss[0]);
      assert AllValid(ss[1..]) by {
        assert forall i :: 0 <= i < |ss| - 1 ==> ss[1..][i] == ss[i + 1];
      }
      SlotsLenBound(ss[1..]);
    }
  }

  // ---- the largest vault with a given number of slots ----

  lemma {:induction false} ZerosAreText(z: seq<Byte>)
    requires forall i :: 0 <= i < |z| ==> z[i] == 0
    ensures IsUtf8(z)
  {
    if z != [] {
      ZerosAreText(z[1..]);
    }
  }

  function LargestSlot(i: nat): (s: Slot)
    ensures ValidSlot(s) && SlotLen(s) == MAX_SLOT_LEN && s.id == BigEndian(i, 16)
  {
    var z := Zeros(MAX_SLOT_FIELD_LEN);
    ZerosAreText(z);
    Slot(BigEndian(i, 16), PasskeyPrf, Zeros(32), Zeros(32), 0, z, WrappedDek(Zeros(32), z), z, z, z, z)
  }

  function LargestFile(n: nat): VaultFile {
    VaultFile(Header(FORMAT_VERSION, Zeros(16), 0, XChaCha20Poly1305, HkdfSha256,
                     seq(n, i requires 0 <= i < n => LargestSlot(i))),
              Zeros(MAX_BODY_LEN))
  }

  lemma LargestFileIsValid(n: nat)
    requires 1 <= n <= MAX_SLOTS
    ensures ValidFile(LargestFile(n)) && |LargestFile(n).header.slots| == n
  {
    var ss := LargestFile(n).header.slots;
    PowersOf256();
    Pow256Monotone(8, 16);
    forall i, j | 0 <= i < j < |ss| ensures ss[i].id != ss[j].id {
      ValueOfBigEndian(i, 16);
      ValueOfBigEndian(j, 16);
    }
  }

  lemma {:induction false} LargestSlotsLen(ss: seq<Slot>)
    requires forall i :: 0 <= i < |ss| ==> SlotLen(ss[i]) == MAX_SLOT_LEN
    ensures SlotsLen(ss) == MAX_SLOT_LEN * |ss|
  {
    if ss != [] {
      LargestSlotsLen(ss[1..]);
    }
  }

  /** The size limit on a whole file admits every valid vault of `n` slots
      exactly when `n` is at most 42, although 1024 slots are legal. */
  lemma FileLimitAdmitsIff(n: nat)
    requires 1 <= n <= MAX_SLOTS
    ensures (forall f | ValidFile(f) && |f.header.slots| == n :: |EncodeFile(f)| <= MAX_FILE_LEN) <==> n <= 42
  {
    if n <= 42 {
      forall f | ValidFile(f) && |f.header.slots| == n ensures |EncodeFile(f)| <= MAX_FILE_LEN {
        FileLen(f);
      }
    } else {
      var f := LargestFile(n);
      LargestFileIsValid(n);
      FileLen(f);
      LargestSlotsLen(f.header.slots);
      assert |EncodeFile(f)| > MAX_FILE_LEN;
    }
  }

  // ---- the binding data of a slot's blobs ----

  /** What each wrapped blob of a slot is sealed against. */
  function BindingAad(vaultId: Id, version: U32, slotId: Id, kind: SlotKind, pubkey: Block): seq<Byte> {
    vaultId + PutU32(version) + slotId + PutU16(KindId(kind)) + pubkey
  }

  /** No two different bindings share their data. */
  lemma BindingAadInjective(v1: Id, n1: U32, s1: Id, k1: SlotKind, p1: Block,
                            v2: Id, n2: U32, s2: Id, k2: SlotKind, p2: Block)
    requires BindingAad(v1, n1, s1, k1, p1) == BindingAad(v2, n2, s2, k2, p2)
    ensures v1 == v2 && n1 == n2 && s1 == s2 && k1 == k2 && p1 == p2
  {
    var a, b := BindingAad(v1, n1, s1, k1, p1), BindingAad(v2, n2, s2, k2, p2);
    assert v1 == a[..16] == b[..16] == v2;
    assert PutU32(n1) == a[16..20] == b[16..20] == PutU32(n2);
    assert s1 == a[20..36] == b[20..36] == s2;
    assert PutU16(KindId(k1)) == a[36..38] == b[36..38] == PutU16(KindId(k2));
    assert p1 == a[38..] == b[38..] == p2;
    PowersOf256();
    ValueOfBigEndian(n1, 4);
    ValueOfBigEndian(n2, 4);
    ValueOfBigEndian(KindId(k1), 2);
    ValueOfBigEndian(KindId(k2), 2);
  }
}
