/** Identity lists and sign requests: the payload builders and parsers of
    `crates/cache-warden-authsock/src/message.rs`. */
module AgentPayloads {
  import opened Wrappers
  import opened Buffers
  import opened Bytes
  import opened Utf8
  import opened SshWire
  import opened AgentWire

  /** `String::from_utf8_lossy`: the identity on well-formed text. */
  type Lossy = seq<Byte> -> Str

  ghost predicate IsLossy(lossy: Lossy) {
    forall s: Str :: lossy(s) == s
  }

  type Parsed<T> = Result<(T, seq<Byte>), AgentError>

  function SizePrefixed(c: seq<Byte>, name: string): Parsed<seq<Byte>> {
    match GetString(c, MAX_BLOB_SIZE)
    case Ok(p) => Ok(p)
    case Err(e) => Err(BadField(name, e))
  }

  method ReadSizePrefixed(reader: Reader, name: string) returns (r: Result<seq<Byte>, AgentError>)
    modifies reader
    ensures match SizePrefixed(old(reader.rest), name)
            case Ok(p) => r == Ok(p.0) && reader.rest == p.1
            case Err(e) => r == Err(e)
  {
    var field := reader.ReadString(MAX_BLOB_SIZE);
    match field {
      case Ok(b) => r := Ok(b);
      case Err(e) => r := Err(BadField(name, e));
    }
  }

  // ---- identity lists ----

  function ParseEntries(c: seq<Byte>, count: nat, lossy: Lossy): Parsed<seq<Identity>>
    decreases count
  {
    if count == 0 then Ok(([], c))
    else
      var (keyBlob, c) :- SizePrefixed(c, "Key blob");
      var (comment, c) :- SizePrefixed(c, "Comment");
      var (ids, c) :- ParseEntries(c, count - 1, lossy);
      Ok(([Identity(keyBlob, lossy(comment))] + ids, c))
  }

  function ParseIdentities(m: Message, lossy: Lossy): Result<seq<Identity>, AgentError> {
    if m.msgType != IdentitiesAnswer then Err(WrongType(IdentitiesAnswer, m.msgType))
    else
      match GetU32(m.payload)
      case Err(_) => Err(TooShort)
      case Ok((count, c)) =>
        if count > MAX_IDENTITIES then Err(TooManyIdentities(count))
        else
          var (ids, _) :- ParseEntries(c, count, lossy);
          Ok(ids)
  }

  /** The identities read so far followed by those still to come. */
  function After(done: seq<Identity>, spec: Parsed<seq<Identity>>): Parsed<seq<Identity>> {
    match spec
    case Ok(p) => Ok((done + p.0, p.1))
    case Err(e) => Err(e)
  }

  method ReadIdentities(m: Message, lossy: Lossy) returns (r: Result<seq<Identity>, AgentError>)
    ensures r == ParseIdentities(m, lossy)
  {
    hide SizePrefixed, GetU32, GetString;
    if m.msgType != IdentitiesAnswer {
      return Err(WrongType(IdentitiesAnswer, m.msgType));
    }
    var buf := new Reader(m.payload);
    var counted := buf.ReadU32();
    if counted.Err? {
      return Err(TooShort);
    }
    var count := counted.value;
    if count > MAX_IDENTITIES {
      return Err(TooManyIdentities(count));
    }
    ghost var spec := ParseEntries(buf.rest, count, lossy);
    var identities: seq<Identity> := [];
    assert spec.Ok? ==> [] + spec.value.0 == spec.value.0;
    for i := 0 to count
      invariant spec == After(identities, ParseEntries(buf.rest, count - i, lossy))
    {
      var keyBlob :- ReadSizePrefixed(buf, "Key blob");
      var comment :- ReadSizePrefixed(buf, "Comment");
      var id := Identity(keyBlob, lossy(comment));
      ghost var later := ParseEntries(buf.rest, count - i - 1, lossy);
      assert later.Ok? ==> identities + ([id] + later.value.0) == identities + [id] + later.value.0;
      identities := identities + [id];
    }
    assert identities + [] == identities;
    r := Ok(identities);
  }

  function EntriesThen(ids: seq<Identity>, rest: seq<Byte>): seq<Byte> {
    if ids == [] then rest
    else PutString(ids[0].keyBlob) + (PutString(ids[0].comment) + EntriesThen(ids[1..], rest))
  }

  lemma EntryUnfold(ids: seq<Identity>, i: nat, before: seq<Byte>)
    requires i < |ids|
    ensures before + EntriesThen(ids[i..], [])
         == before + PutString(ids[i].keyBlob) + PutString(ids[i].comment) + EntriesThen(ids[i + 1..], [])
  {
    hide PutString;
    var k, c, tail := PutString(ids[i].keyBlob), PutString(ids[i].comment), EntriesThen(ids[i + 1..], []);
    assert ids[i..][1..] == ids[i + 1..];
    assert before + k + c + tail == before + (k + (c + tail));
  }

  lemma NoEntries(ids: seq<Identity>, before: seq<Byte>)
    ensures before + EntriesThen(ids[|ids|..], []) == before
  {
    assert before + [] == before;
  }

  /** Every length fits in 32 bits; the builder panics otherwise. */
  predicate Buildable(ids: seq<Identity>) {
    && |ids| < 0x1_0000_0000
    && forall i :: 0 <= i < |ids| ==> |ids[i].keyBlob| < 0x1_0000_0000 && |ids[i].comment| < 0x1_0000_0000
  }

  method BuildIdentitiesAnswer(ids: seq<Identity>) returns (m: Message)
    requires Buildable(ids)
    ensures m == Message(IdentitiesAnswer, PutU32(|ids|) + EntriesThen(ids, []))
  {
    hide PutString, PutU32, EntriesThen;
    var out := new Buffer();
    out.Extend(PutU32(|ids|));
    assert ids[0..] == ids;
    for i := 0 to |ids|
      invariant out.bytes + EntriesThen(ids[i..], []) == PutU32(|ids|) + EntriesThen(ids, [])
    {
      EntryUnfold(ids, i, out.bytes);
      PutStringInto(out, ids[i].keyBlob);
      PutStringInto(out, ids[i].comment);
    }
    NoEntries(ids, out.bytes);
    m := Message(IdentitiesAnswer, out.bytes);
  }

  predicate WithinCaps(id: Identity) {
    |id.keyBlob| <= MAX_BLOB_SIZE && |id.comment| <= MAX_BLOB_SIZE
  }

  predicate AllWithinCaps(ids: seq<Identity>) {
    forall i :: 0 <= i < |ids| ==> WithinCaps(ids[i])
  }

  /** Entries as bytes, before the comments are made text. */
  function RawEntriesThen(raws: seq<(seq<Byte>, seq<Byte>)>, rest: seq<Byte>): seq<Byte> {
    if raws == [] then rest
    else PutString(raws[0].0) + (PutString(raws[0].1) + RawEntriesThen(raws[1..], rest))
  }

  predicate RawWithinCaps(raws: seq<(seq<Byte>, seq<Byte>)>) {
    forall i :: 0 <= i < |raws| ==> |raws[i].0| <= MAX_BLOB_SIZE && |raws[i].1| <= MAX_BLOB_SIZE
  }

  function Readable(raws: seq<(seq<Byte>, seq<Byte>)>, lossy: Lossy): (ids: seq<Identity>)
    ensures |ids| == |raws|
  {
    seq(|raws|, i requires 0 <= i < |raws| => Identity(raws[i].0, lossy(raws[i].1)))
  }

  lemma SizePrefixedIff(c: seq<Byte>, name: string, s: seq<Byte>, rest: seq<Byte>)
    ensures SizePrefixed(c, name) == Ok((s, rest)) <==> |s| <= MAX_BLOB_SIZE && c == PutString(s) + rest
  {
    hide GetString, PutString;
    GetStringIff(c, MAX_BLOB_SIZE, s, rest);
  }

  lemma {:induction false} EntriesSound(c: seq<Byte>, count: nat, lossy: Lossy, ids: seq<Identity>, rest: seq<Byte>)
    returns (raws: seq<(seq<Byte>, seq<Byte>)>)
    requires ParseEntries(c, count, lossy) == Ok((ids, rest))
    ensures |raws| == count && RawWithinCaps(raws) && c == RawEntriesThen(raws, rest) && ids == Readable(raws, lossy)
    decreases count
  {
    hide SizePrefixed, PutString;
    if count == 0 {
      raws := [];
    } else {
      var (keyBlob, c1) := SizePrefixed(c, "Key blob").value;
      var (comment, c2) := SizePrefixed(c1, "Comment").value;
      SizePrefixedIff(c, "Key blob", keyBlob, c1);
      SizePrefixedIff(c1, "Comment", comment, c2);
      var later := ParseEntries(c2, count - 1, lossy).value.0;
      var more := EntriesSound(c2, count - 1, lossy, later, rest);
      raws := [(keyBlob, comment)] + more;
      assert raws[1..] == more;
      assert Readable(raws, lossy) == [Identity(keyBlob, lossy(comment))] + Readable(more, lossy);
    }
  }

  lemma {:induction false} EntriesComplete(raws: seq<(seq<Byte>, seq<Byte>)>, lossy: Lossy, rest: seq<Byte>)
    requires RawWithinCaps(raws)
    ensures ParseEntries(RawEntriesThen(raws, rest), |raws|, lossy) == Ok((Readable(raws, lossy), rest))
    decreases |raws|
  {
    hide SizePrefixed, PutString;
    if raws == [] {
      assert Readable(raws, lossy) == [];
    } else {
      var c2 := RawEntriesThen(raws[1..], rest);
      SizePrefixedIff(RawEntriesThen(raws, rest), "Key blob", raws[0].0, PutString(raws[0].1) + c2);
      SizePrefixedIff(PutString(raws[0].1) + c2, "Comment", raws[0].1, c2);
      EntriesComplete(raws[1..], lossy, rest);
      assert Readable(raws, lossy) == [Identity(raws[0].0, lossy(raws[0].1))] + Readable(raws[1..], lossy);
    }
  }

  /** A payload is accepted exactly when it is a count of at most 10000, that
      many pairs within the size cap, and then anything at all. */
  lemma IdentitiesAcceptedIff(payload: seq<Byte>, ids: seq<Identity>, lossy: Lossy)
    ensures ParseIdentities(Message(IdentitiesAnswer, payload), lossy) == Ok(ids)
       <==> exists raws, rest ::
              && |raws| <= MAX_IDENTITIES && RawWithinCaps(raws) && ids == Readable(raws, lossy)
              && payload == PutU32(|raws|) + RawEntriesThen(raws, rest)
  {
    hide ParseEntries, RawEntriesThen, GetU32, PutU32, RawWithinCaps;
    var m := Message(IdentitiesAnswer, payload);
    if ParseIdentities(m, lossy) == Ok(ids) {
      var (count, c) := GetU32(payload).value;
      GetU32Iff(payload, count, c);
      var rest := ParseEntries(c, count, lossy).value.1;
      var raws := EntriesSound(c, count, lossy, ids, rest);
    }
    forall raws, rest |
      && |raws| <= MAX_IDENTITIES && RawWithinCaps(raws) && ids == Readable(raws, lossy)
      && payload == PutU32(|raws|) + RawEntriesThen(raws, rest)
      ensures ParseIdentities(m, lossy) == Ok(ids)
    {
      GetU32Iff(payload, |raws|, RawEntriesThen(raws, rest));
      EntriesComplete(raws, lossy, rest);
    }
  }

  lemma {:induction false} RawOf(ids: seq<Identity>, rest: seq<Byte>) returns (raws: seq<(seq<Byte>, seq<Byte>)>)
    ensures |raws| == |ids| && forall i :: 0 <= i < |ids| ==> raws[i] == (ids[i].keyBlob, ids[i].comment)
    ensures RawEntriesThen(raws, rest) == EntriesThen(ids, rest)
  {
    hide PutString;
    if ids == [] {
      raws := [];
    } else {
      var more := RawOf(ids[1..], rest);
      var first: (seq<Byte>, seq<Byte>) := (ids[0].keyBlob, ids[0].comment);
      raws := [first] + more;
      assert raws[1..] == more;
    }
  }

  lemma PrefixedWithinCap(s: seq<Byte>, rest: seq<Byte>, name: string)
    requires |s| < 0x1_0000_0000
    ensures SizePrefixed(PutString(s) + rest, name)
         == if |s| <= MAX_BLOB_SIZE then Ok((s, rest)) else Err(BadField(name, TooLarge(|s|)))
  {
    hide GetU32, PutU32;
    assert PutString(s) + rest == PutU32(|s|) + (s + rest);
    GetU32Iff(PutString(s) + rest, |s|, s + rest);
    SizePrefixedIff(PutString(s) + rest, name, s, rest);
  }

  /** One field over the cap refuses the list. */
  lemma {:induction false} OversizedRefused(ids: seq<Identity>, lossy: Lossy, rest: seq<Byte>)
    requires Buildable(ids) && ParseEntries(EntriesThen(ids, rest), |ids|, lossy).Ok?
    ensures AllWithinCaps(ids)
  {
    hide SizePrefixed, PutString;
    if ids != [] {
      var c2 := EntriesThen(ids[1..], rest);
      PrefixedWithinCap(ids[0].keyBlob, PutString(ids[0].comment) + c2, "Key blob");
      PrefixedWithinCap(ids[0].comment, c2, "Comment");
      OversizedRefused(ids[1..], lossy, rest);
      assert forall i :: 0 < i < |ids| ==> ids[i] == ids[1..][i - 1];
    }
  }

  /** A built list reads back as itself exactly when it is within the caps, with
      or without bytes after it. */
  lemma IdentitiesRoundTripIff(ids: seq<Identity>, lossy: Lossy, trailing: seq<Byte>)
    requires IsLossy(lossy) && Buildable(ids)
    ensures ParseIdentities(Message(IdentitiesAnswer, PutU32(|ids|) + EntriesThen(ids, trailing)), lossy) == Ok(ids)
       <==> |ids| <= MAX_IDENTITIES && AllWithinCaps(ids)
  {
    hide ParseEntries, EntriesThen, RawEntriesThen, GetU32, PutU32, Readable;
    var c := EntriesThen(ids, trailing);
    GetU32Iff(PutU32(|ids|) + c, |ids|, c);
    if ParseEntries(c, |ids|, lossy).Ok? {
      OversizedRefused(ids, lossy, trailing);
    }
    if AllWithinCaps(ids) {
      var raws := RawOf(ids, trailing);
      forall i | 0 <= i < |raws| ensures |raws[i].0| <= MAX_BLOB_SIZE && |raws[i].1| <= MAX_BLOB_SIZE {
        assert WithinCaps(ids[i]);
      }
      EntriesComplete(raws, lossy, trailing);
      ReadableRaw(ids, raws, lossy);
    }
  }

  lemma ReadableRaw(ids: seq<Identity>, raws: seq<(seq<Byte>, seq<Byte>)>, lossy: Lossy)
    requires IsLossy(lossy) && |raws| == |ids|
    requires forall i :: 0 <= i < |ids| ==> raws[i] == (ids[i].keyBlob, ids[i].comment)
    ensures Readable(raws, lossy) == ids
  {
  }

  // ---- sign requests ----

  function ParseSignRequest(m: Message): Result<SignFields, AgentError> {
    if m.msgType != SignRequest then Err(WrongType(SignRequest, m.msgType))
    else
      var (keyBlob, c) :- SizePrefixed(m.payload, "Key blob");
      var (data, c) :- SizePrefixed(c, "Sign data");
      PowersOf256();
      Ok(SignFields(keyBlob, data, if |c| >= 4 then Value(c[..4]) else 0))
  }

  method ReadSignRequest(m: Message) returns (r: Result<SignFields, AgentError>)
    ensures r == ParseSignRequest(m)
  {
    hide SizePrefixed;
    if m.msgType != SignRequest {
      return Err(WrongType(SignRequest, m.msgType));
    }
    var buf := new Reader(m.payload);
    var keyBlob :- ReadSizePrefixed(buf, "Key blob");
    var data :- ReadSizePrefixed(buf, "Sign data");
    var flags: U32 := 0;
    if |buf.rest| >= 4 {
      var read := buf.ReadU32();
      flags := read.value;
    }
    r := Ok(SignFields(keyBlob, data, flags));
  }

  /** A request is accepted exactly when it is two capped strings and a tail; the
      flags are the tail's first four bytes, or 0 when it has fewer. */
  lemma SignRequestIff(payload: seq<Byte>, f: SignFields)
    ensures ParseSignRequest(Message(SignRequest, payload)) == Ok(f)
       <==> exists tail ::
              && |f.keyBlob| <= MAX_BLOB_SIZE && |f.data| <= MAX_BLOB_SIZE
              && payload == PutString(f.keyBlob) + (PutString(f.data) + tail)
              && (if |tail| < 4 then f.flags == 0 else PutU32(f.flags) == tail[..4])
  {
    hide SizePrefixed, PutString, PutU32;
    var m := Message(SignRequest, payload);
    if ParseSignRequest(m) == Ok(f) {
      var (keyBlob, c) := SizePrefixed(payload, "Key blob").value;
      var (data, tail) := SizePrefixed(c, "Sign data").value;
      SizePrefixedIff(payload, "Key blob", keyBlob, c);
      SizePrefixedIff(c, "Sign data", data, tail);
      if |tail| >= 4 { FlagsOfTail(tail, f.flags); }
      assert payload == PutString(f.keyBlob) + (PutString(f.data) + tail);
    }
    forall tail |
      && |f.keyBlob| <= MAX_BLOB_SIZE && |f.data| <= MAX_BLOB_SIZE
      && payload == PutString(f.keyBlob) + (PutString(f.data) + tail)
      && (if |tail| < 4 then f.flags == 0 else PutU32(f.flags) == tail[..4])
      ensures ParseSignRequest(m) == Ok(f)
    {
      SizePrefixedIff(payload, "Key blob", f.keyBlob, PutString(f.data) + tail);
      SizePrefixedIff(PutString(f.data) + tail, "Sign data", f.data, tail);
      if |tail| >= 4 { FlagsOfTail(tail, f.flags); }
    }
  }

  lemma FlagsOfTail(tail: seq<Byte>, flags: U32)
    requires |tail| >= 4
    ensures PutU32(flags) == tail[..4] <==> Value(tail[..4]) == flags
  {
    PowersOf256();
    ValueOfBigEndian(flags, 4);
    BigEndianOfValue(tail[..4]);
  }
}
