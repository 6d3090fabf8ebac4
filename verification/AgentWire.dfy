/** SSH agent messages and their framing: `crates/cache-warden-authsock/src/message.rs`
    and `codec.rs` (sections 3 to 5 of draft-miller-ssh-agent-04). */
module AgentWire {
  import opened Wrappers
  import opened Buffers
  import opened Bytes
  import opened Utf8
  import opened SshWire

  const MAX_IDENTITIES: U32 := 10000
  const MAX_BLOB_SIZE: U32 := 0x100_0000
  const MAX_MESSAGE_SIZE: U32 := 0x100_0000

  datatype MessageType =
    | RequestIdentities | SignRequest | AddIdentity | RemoveIdentity | RemoveAllIdentities
    | AddIdConstrained | AddSmartcardKey | RemoveSmartcardKey | Lock | Unlock
    | AddSmartcardKeyConstrained | Extension
    | Failure | Success | IdentitiesAnswer | SignResponse | ExtensionFailure
    | Unknown

  function ToByte(t: MessageType): Byte {
    match t
    case RequestIdentities => 11
    case SignRequest => 13
    case AddIdentity => 17
    case RemoveIdentity => 18
    case RemoveAllIdentities => 19
    case AddIdConstrained => 25
    case AddSmartcardKey => 20
    case RemoveSmartcardKey => 21
    case Lock => 22
    case Unlock => 23
    case AddSmartcardKeyConstrained => 26
    case Extension => 27
    case Failure => 5
    case Success => 6
    case IdentitiesAnswer => 12
    case SignResponse => 14
    case ExtensionFailure => 28
    case Unknown => 0
  }

  function FromByte(b: Byte): MessageType {
    match b
    case 11 => RequestIdentities
    case 13 => SignRequest
    case 17 => AddIdentity
    case 18 => RemoveIdentity
    case 19 => RemoveAllIdentities
    case 25 => AddIdConstrained
    case 20 => AddSmartcardKey
    case 21 => RemoveSmartcardKey
    case 22 => Lock
    case 23 => Unlock
    case 26 => AddSmartcardKeyConstrained
    case 27 => Extension
    case 5 => Failure
    case 6 => Success
    case 12 => IdentitiesAnswer
    case 14 => SignResponse
    case 28 => ExtensionFailure
    case _ => Unknown
  }

  datatype Message = Message(msgType: MessageType, payload: seq<Byte>)

  /** The key parsed from the blob is a function of the blob and is left out. */
  datatype Identity = Identity(keyBlob: seq<Byte>, comment: Str)

  datatype SignFields = SignFields(keyBlob: seq<Byte>, data: seq<Byte>, flags: U32)

  datatype AgentError =
    | WrongType(expected: MessageType, got: MessageType)
    | TooShort
    | TooManyIdentities(count: U32)
    | BadField(name: string, error: WireError)
    | EmptyMessage
    | ZeroLength
    | MessageTooLarge(len: U32)
    | UnexpectedEof
    | StreamError

  // ---- one message ----

  predicate Encodable(m: Message) {
    1 + |m.payload| < 0x1_0000_0000
  }

  function EncodeMessage(m: Message): seq<Byte>
    requires Encodable(m)
  {
    PutU32(1 + |m.payload|) + ([ToByte(m.msgType)] + m.payload)
  }

  function DecodeMessage(data: seq<Byte>): Result<Message, AgentError> {
    if data == [] then Err(EmptyMessage) else Ok(Message(FromByte(data[0]), data[1..]))
  }

  /** Every type is read back from its byte; a byte is written back from its type
      exactly when it is assigned (or zero). */
  lemma TypeBytes(t: MessageType, b: Byte)
    ensures FromByte(ToByte(t)) == t
    ensures ToByte(FromByte(b)) == b
       <==> b in {0, 5, 6, 11, 12, 13, 14, 17, 18, 19, 20, 21, 22, 23, 25, 26, 27, 28}
  {
  }

  // ---- the framed stream ----

  /** How a stream ends: closed by the peer, or broken by an I/O error. */
  datatype StreamEnd = Closed | Broken

  /** A read that the end of the stream cuts short. */
  function CutShort(end: StreamEnd): AgentError {
    match end case Closed => UnexpectedEof case Broken => StreamError
  }

  /** A read of the next length that finds the end: a clean end only if closed. */
  function AtEnd(end: StreamEnd): Option<AgentError> {
    match end case Closed => None case Broken => Some(StreamError)
  }

  /** One read from what is left of the stream: the message, or `None` at its
      end; and what is left after it. */
  function ReadMessage(c: seq<Byte>, end: StreamEnd): (Result<Option<Message>, AgentError>, seq<Byte>) {
    if |c| < 4 then (match AtEnd(end) case None => Ok(None) case Some(e) => Err(e), [])
    else
      PowersOf256();
      var len := Value(c[..4]);
      if len == 0 then (Err(ZeroLength), c[4..])
      else if len > MAX_MESSAGE_SIZE then (Err(MessageTooLarge(len)), c[4..])
      else if |c| < 4 + len then (Err(CutShort(end)), [])
      else
        match DecodeMessage(c[4..4 + len])
        case Ok(m) => (Ok(Some(m)), c[4 + len..])
        case Err(e) => (Err(e), c[4 + len..])
  }

  /** `AgentMessage::encode`: the prefix, the type byte and the payload, put in turn. */
  method Encode(m: Message) returns (encoded: seq<Byte>)
    requires Encodable(m)
    ensures encoded == EncodeMessage(m)
  {
    var totalLen := 1 + |m.payload|;
    var buf := new Buffer();
    buf.Extend(PutU32(totalLen));
    buf.Extend([ToByte(m.msgType)]);
    buf.Extend(m.payload);
    encoded := buf.bytes;
    assert encoded == PutU32(totalLen) + ([ToByte(m.msgType)] + m.payload);
  }

  class Stream {
    var pending: seq<Byte>
    const end: StreamEnd

    constructor (end: StreamEnd)
      ensures pending == [] && this.end == end
    {
      pending := [];
      this.end := end;
    }

    /** `read_exact`: `None` when the stream ends first, which uses it up. */
    method ReadExact(n: nat) returns (r: Option<seq<Byte>>)
      modifies this
      ensures if |old(pending)| < n then r == None && pending == []
              else r == Some(old(pending)[..n]) && pending == old(pending)[n..]
    {
      if |pending| < n {
        pending := [];
        return None;
      }
      r := Some(pending[..n]);
      pending := pending[n..];
    }

    method Read() returns (r: Result<Option<Message>, AgentError>)
      modifies this
      ensures (r, pending) == ReadMessage(old(pending), end)
    {
      var lenBuf := ReadExact(4);
      if lenBuf.None? {
        match end {
          case Closed => return Ok(None);
          case Broken => return Err(StreamError);
        }
      }
      PowersOf256();
      var len := Value(lenBuf.value);
      if len == 0 {
        return Err(ZeroLength);
      }
      if len > MAX_MESSAGE_SIZE {
        return Err(MessageTooLarge(len));
      }
      var buf := ReadExact(len);
      if buf.None? {
        return Err(CutShort(end));
      }
      assert old(pending)[4..][..len] == old(pending)[4..4 + len];
      assert old(pending)[4..][len..] == old(pending)[4 + len..];
      match DecodeMessage(buf.value) {
        case Ok(m) => r := Ok(Some(m));
        case Err(e) => r := Err(e);
      }
    }

    method Write(m: Message)
      requires Encodable(m)
      modifies this
      ensures pending == old(pending) + EncodeMessage(m)
    {
      var encoded := Encode(m);
      pending := pending + encoded;
    }
  }

  /** How a stream read to its end comes out. */
  datatype Transcript = Transcript(messages: seq<Message>, end: Option<AgentError>)

  lemma ReadShrinks(c: seq<Byte>, end: StreamEnd)
    ensures ReadMessage(c, end).0.Ok? && ReadMessage(c, end).0.value.Some? ==> |ReadMessage(c, end).1| < |c|
  {
  }

  function ReadAll(c: seq<Byte>, end: StreamEnd): Transcript
    decreases |c|
  {
    ReadShrinks(c, end);
    match ReadMessage(c, end)
    case (Err(e), _) => Transcript([], Some(e))
    case (Ok(None), _) => Transcript([], None)
    case (Ok(Some(m)), rest) =>
      var t := ReadAll(rest, end);
      Transcript([m] + t.messages, t.end)
  }

  predicate AllEncodable(ms: seq<Message>) {
    forall i :: 0 <= i < |ms| ==> Encodable(ms[i])
  }

  function WriteAll(ms: seq<Message>): seq<Byte>
    requires AllEncodable(ms)
  {
    if ms == [] then [] else EncodeMessage(ms[0]) + WriteAll(ms[1..])
  }

  predicate Fits(m: Message) {
    1 + |m.payload| <= MAX_MESSAGE_SIZE
  }

  /** Reading what was written, with anything at all after it. */
  lemma ReadWritten(m: Message, rest: seq<Byte>, end: StreamEnd)
    requires Encodable(m)
    ensures ReadMessage(EncodeMessage(m) + rest, end)
         == if Fits(m) then (Ok(Some(m)), rest)
            else (Err(MessageTooLarge(1 + |m.payload|)), [ToByte(m.msgType)] + m.payload + rest)
  {
    hide ToByte, FromByte, PutU32;
    var n := 1 + |m.payload|;
    var c := EncodeMessage(m) + rest;
    var body := [ToByte(m.msgType)] + m.payload;
    PowersOf256();
    LengthReadBack(n);
    assert c[..4] == PutU32(n) && c[4..] == body + rest;
    assert Fits(m) ==> c[4..4 + n] == body && c[4 + n..] == rest;
    TypeBytes(m.msgType, 0);
    assert body[1..] == m.payload;
  }

  lemma LengthReadBack(n: nat)
    requires n < 0x1_0000_0000
    ensures Value(PutU32(n)) == n
  {
    PowersOf256();
    ValueOfBigEndian(n, 4);
  }

  /** The exact bytes of a message cut short. */
  lemma ReadTruncated(m: Message, k: nat, end: StreamEnd)
    requires Encodable(m) && Fits(m) && k < |EncodeMessage(m)|
    ensures ReadMessage(EncodeMessage(m)[..k], end) == if k < 4 then ReadMessage([], end) else (Err(CutShort(end)), [])
  {
    var c := EncodeMessage(m);
    if k >= 4 {
      PowersOf256();
      LengthReadBack(1 + |m.payload|);
      assert c[..k][..4] == c[..4] == PutU32(1 + |m.payload|);
    }
  }

  /** A written list reads back as itself and then the stream's end exactly when every
      message is within the size limit. */
  lemma {:induction false} StreamRoundTripIff(ms: seq<Message>, end: StreamEnd)
    requires AllEncodable(ms)
    ensures ReadAll(WriteAll(ms), end) == Transcript(ms, AtEnd(end)) <==> forall i :: 0 <= i < |ms| ==> Fits(ms[i])
  {
    if ms != [] {
      hide ReadMessage, EncodeMessage, Fits, Encodable;
      assert ms == [ms[0]] + ms[1..];
      ReadWritten(ms[0], WriteAll(ms[1..]), end);
      StreamRoundTripIff(ms[1..], end);
    }
  }

  /** The first oversized message stops the reader there, after everything
      before it. */
  lemma {:induction false} OversizedStops(ms: seq<Message>, i: nat, end: StreamEnd)
    requires AllEncodable(ms) && i < |ms| && !Fits(ms[i]) && forall j :: 0 <= j < i ==> Fits(ms[j])
    ensures ReadAll(WriteAll(ms), end) == Transcript(ms[..i], Some(MessageTooLarge(1 + |ms[i].payload|)))
  {
    hide ReadMessage, EncodeMessage, Fits, Encodable;
    ReadWritten(ms[0], WriteAll(ms[1..]), end);
    if i > 0 {
      OversizedStops(ms[1..], i - 1, end);
      assert ms[..i] == [ms[0]] + ms[1..][..i - 1];
    }
  }

  /** How many messages lie wholly within the first `k` bytes. */
  function Whole(ms: seq<Message>, k: nat): (j: nat)
    requires AllEncodable(ms)
    ensures j <= |ms| && |WriteAll(ms[..j])| <= k
    ensures j < |ms| ==> k < |WriteAll(ms[..j])| + |EncodeMessage(ms[j])|
  {
    assert ms[..0] == [];
    if ms == [] || k < |EncodeMessage(ms[0])| then 0
    else
      var j := Whole(ms[1..], k - |EncodeMessage(ms[0])|);
      assert ms[..j + 1][0] == ms[0] && ms[..j + 1][1..] == ms[1..][..j];
      j + 1
  }

  /** A stream cut after `k` bytes gives the messages that lie wholly before the
      cut; then the stream's end if fewer than four bytes of the next are left, else an
      error. */
  lemma {:induction false} TruncatedStream(ms: seq<Message>, k: nat, end: StreamEnd)
    requires AllEncodable(ms) && (forall i :: 0 <= i < |ms| ==> Fits(ms[i])) && k <= |WriteAll(ms)|
    ensures ReadAll(WriteAll(ms)[..k], end)
         == Transcript(ms[..Whole(ms, k)],
                       if k - |WriteAll(ms[..Whole(ms, k)])| < 4 then AtEnd(end) else Some(CutShort(end)))
  {
    hide ReadMessage, Fits, Encodable, EncodeMessage;
    if ms == [] {
      ReadNothing(end);
    } else {
      var n := |EncodeMessage(ms[0])|;
      if k < n {
        CutInFirst(ms, k, end);
      } else {
        hide ReadAll, WriteAll, Whole;
        CutLater(ms, k);
        TruncatedStream(ms[1..], k - n, end);
        ReadLater(ms[0], WriteAll(ms[1..])[..k - n], end);
      }
    }
  }

  lemma CutInFirst(ms: seq<Message>, k: nat, end: StreamEnd)
    requires AllEncodable(ms) && ms != [] && Fits(ms[0]) && k < |EncodeMessage(ms[0])|
    ensures k <= |WriteAll(ms)| && Whole(ms, k) == 0 && WriteAll(ms[..0]) == []
    ensures ReadAll(WriteAll(ms)[..k], end) == Transcript([], if k < 4 then AtEnd(end) else Some(CutShort(end)))
  {
    hide ReadMessage, Fits, Encodable, EncodeMessage;
    assert WriteAll(ms)[..k] == EncodeMessage(ms[0])[..k];
    ReadTruncated(ms[0], k, end);
    ReadNothing(end);
  }

  lemma ReadLater(m: Message, tail: seq<Byte>, end: StreamEnd)
    requires Encodable(m) && Fits(m)
    ensures ReadAll(EncodeMessage(m) + tail, end) == Transcript([m] + ReadAll(tail, end).messages, ReadAll(tail, end).end)
  {
    hide ReadMessage, Fits, Encodable, EncodeMessage;
    ReadWritten(m, tail, end);
  }

  lemma CutLater(ms: seq<Message>, k: nat)
    requires AllEncodable(ms) && ms != [] && Fits(ms[0]) && |EncodeMessage(ms[0])| <= k <= |WriteAll(ms)|
    ensures AllEncodable(ms[1..]) && |EncodeMessage(ms[0])| + |WriteAll(ms[1..])| == |WriteAll(ms)|
    ensures var m, n := ms[0], |EncodeMessage(ms[0])|;
            var j := Whole(ms[1..], k - n);
            && Whole(ms, k) == j + 1 && ms[..j + 1] == [m] + ms[1..][..j]
            && |WriteAll(ms[..j + 1])| == n + |WriteAll(ms[1..][..j])|
            && WriteAll(ms)[..k] == EncodeMessage(m) + WriteAll(ms[1..])[..k - n]
  {
    hide Fits, Encodable, EncodeMessage;
    var j := Whole(ms[1..], k - |EncodeMessage(ms[0])|);
    assert ms[..j + 1][0] == ms[0] && ms[..j + 1][1..] == ms[1..][..j];
  }

  lemma ReadNothing(end: StreamEnd)
    ensures ReadMessage([], end) == (match AtEnd(end) case None => Ok(None) case Some(e) => Err(e), [])
  {
  }

  /** Writing a message back gives the bytes it was read from exactly when its
      type byte is assigned (or zero). */
  lemma RewrittenIff(c: seq<Byte>, end: StreamEnd, m: Message, rest: seq<Byte>)
    requires ReadMessage(c, end) == (Ok(Some(m)), rest)
    ensures |c| >= 5 && Encodable(m)
    ensures EncodeMessage(m) + rest == c <==> ToByte(FromByte(c[4])) == c[4]
  {
    hide ToByte, FromByte;
    PowersOf256();
    var len := Value(c[..4]);
    BigEndianOfValue(c[..4]);
    assert c[4..4 + len][1..] == m.payload;
    assert c == c[..4] + ([c[4]] + m.payload) + rest;
    var w := EncodeMessage(m) + rest;
    assert w[4] == ToByte(FromByte(c[4]));
  }
}
