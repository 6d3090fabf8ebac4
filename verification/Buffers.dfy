/** Rust's `Vec<u8>` and `BytesMut` as the encoders use them. */
module Buffers {
  import opened Bytes

  /** A byte vector that only grows. */
  class Buffer {
    var bytes: seq<Byte>

    constructor ()
      ensures bytes == []
    {
      bytes := [];
    }

    method Extend(b: seq<Byte>)
      modifies this
      ensures bytes == old(bytes) + b
      ensures forall rest: seq<Byte> :: bytes + rest == old(bytes) + (b + rest)
    {
      bytes := bytes + b;
      assert forall rest: seq<Byte> :: (old(bytes) + b) + rest == old(bytes) + (b + rest);
    }
  }
}
