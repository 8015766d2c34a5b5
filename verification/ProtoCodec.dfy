/** pb_encode into a buffer, and pb_decode out of it. */
module ProtoCodec {
  import opened Bytes
  import opened Options
  import opened ProtoDecode
  import opened ProtoDecoder
  import opened ProtoEncoder
  import opened ProtoIterator
  import opened ProtoRoundTrip
  import opened ProtoSchema
  import opened ProtoStream
  import opened Varint

  /** pb_get_encoded_size. */
  method EncodedSize(d: Desc, v: Value) returns (size: Option<nat>)
    requires Typed(TMessage(d), v) && WellFormed(d) && |MessageBytes(d, v, 0)| < WORD32
    ensures size == if Encodable(TMessage(d), v) then Some(|MessageBytes(d, v, 0)|) else None
  {
    var stream := new OStream(true, 0);
    var ok := Encode(stream, d, v);
    size := if ok then Some(stream.bytesWritten) else None;
  }

  /** pb_encode into a buffer succeeds exactly when the message is valid and its size, as
      pb_get_encoded_size finds it, fits; and pb_decode gives the message back. */
  method EncodeToBuffer(d: Desc, v: Value, bufferSize: nat) returns (buffer: Option<seq<Byte>>)
    requires Typed(TMessage(d), v) && WellFormed(d) && |MessageBytes(d, v, 0)| < WORD32 - 1
    ensures buffer.Some? <==> Encodable(TMessage(d), v) && |MessageBytes(d, v, 0)| <= bufferSize
    ensures buffer.Some? ==>
      |buffer.value| == |MessageBytes(d, v, 0)| && Decode(d, buffer.value) == Some(Present(TMessage(d), v))
  {
    hide Typed, WellFormed, Encodable, MessageBytes, Present;
    var stream := new OStream(false, bufferSize);
    var ok := Encode(stream, d, v);
    if ok {
      assert [] + MessageBytes(d, v, 0) == MessageBytes(d, v, 0);
      RoundTrip(d, v);
    }
    buffer := if ok then Some(stream.written) else None;
  }

  /** pb_decode, of a whole buffer. */
  method DecodeBuffer(d: Desc, buffer: seq<Byte>, layout: Layout) returns (v: Option<Value>)
    requires WellFormed(d)
    ensures v == ProtoDecode.Decode(d, buffer)
  {
    var stream := new IStream(buffer, 0, |buffer|);
    assert stream.Left() == buffer;
    var slots := DecodeInner(stream, d, Default(TMessage(d)).slots, layout);
    v := if slots == None then None else Some(Message(slots.value));
  }
}
