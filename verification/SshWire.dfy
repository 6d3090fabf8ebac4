/** The SSH wire primitives `uint32` and `string` (section 5 of RFC 4251), read
    with a size cap, as a specification and as a cursor advanced in place. */
module SshWire {
  import opened Wrappers
  import opened Buffers
  import opened Bytes

  datatype WireError = LengthMissing | TooLarge(len: U32) | Truncated

  type Read<T> = Result<(T, seq<Byte>), WireError>

  function PutString(b: seq<Byte>): seq<Byte> {
    PutU32(|b|) + b
  }

  function GetU32(c: seq<Byte>): Read<U32> {
    if |c| < 4 then Err(LengthMissing)
    else
      PowersOf256();
      Ok((Value(c[..4]), c[4..]))
  }

  function GetString(c: seq<Byte>, cap: nat): Read<seq<Byte>> {
    var (n, c) :- GetU32(c);
    if n > cap then Err(TooLarge(n))
    else if |c| < n then Err(Truncated)
    else Ok((c[..n], c[n..]))
  }

  lemma GetU32Iff(c: seq<Byte>, n: U32, rest: seq<Byte>)
    ensures GetU32(c) == Ok((n, rest)) <==> c == PutU32(n) + rest
  {
    PowersOf256();
    if |c| >= 4 {
      BigEndianOfValue(c[..4]);
      assert c == c[..4] + c[4..];
    }
    if c == PutU32(n) + rest {
      ValueOfBigEndian(n, 4);
      assert c[..4] == PutU32(n) && c[4..] == rest;
    }
  }

  /** A string reads to `s` exactly when the bytes are its prefix and `s`. */
  lemma GetStringIff(c: seq<Byte>, cap: nat, s: seq<Byte>, rest: seq<Byte>)
    requires cap < 0x1_0000_0000
    ensures GetString(c, cap) == Ok((s, rest)) <==> |s| <= cap && c == PutString(s) + rest
  {
    hide GetU32, PutU32;
    if GetString(c, cap) == Ok((s, rest)) {
      var (n, d) := GetU32(c).value;
      GetU32Iff(c, n, d);
      assert n == |s| && d == s + rest;
      assert c == PutU32(n) + (s + rest) == PutString(s) + rest;
    }
    if |s| <= cap && c == PutString(s) + rest {
      assert c == PutU32(|s|) + (s + rest);
      GetU32Iff(c, |s|, s + rest);
      assert (s + rest)[..|s|] == s && (s + rest)[|s|..] == rest;
    }
  }

  /** A reader did what its specification says: on success it stands behind the
      value it returned. */
  ghost predicate Did<T(!new)>(spec: Read<T>, r: Result<T, WireError>, rest: seq<Byte>) {
    match spec
    case Ok(p) => r == Ok(p.0) && rest == p.1
    case Err(e) => r == Err(e)
  }

  class Reader {
    var rest: seq<Byte>

    constructor (bytes: seq<Byte>)
      ensures rest == bytes
    {
      rest := bytes;
    }

    method ReadU32() returns (r: Result<U32, WireError>)
      modifies this
      ensures Did(GetU32(old(rest)), r, rest)
    {
      if |rest| < 4 {
        return Err(LengthMissing);
      }
      PowersOf256();
      r := Ok(Value(rest[..4]));
      rest := rest[4..];
    }

    method ReadString(cap: nat) returns (r: Result<seq<Byte>, WireError>)
      modifies this
      ensures Did(GetString(old(rest), cap), r, rest)
    {
      var len :- ReadU32();
      if len > cap {
        return Err(TooLarge(len));
      }
      if |rest| < len {
        return Err(Truncated);
      }
      r := Ok(rest[..len]);
      rest := rest[len..];
    }
  }

  method PutStringInto(out: Buffer, b: seq<Byte>)
    modifies out
    ensures out.bytes == old(out.bytes) + PutString(b)
  {
    ghost var before := out.bytes;
    out.Extend(PutU32(|b|));
    out.Extend(b);
    assert out.bytes == before + PutString(b);
  }
}
