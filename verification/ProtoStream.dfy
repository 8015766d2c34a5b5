/** pb_istream_t, on a buffer in memory. */
module ProtoStream {
  import opened Bytes
  import opened Options

  class IStream {
    const buffer: seq<Byte>
    var position: nat        // where `state` points to
    var bytesLeft: nat

    function End(): (e: nat)
      reads this
    {
      position + bytesLeft
    }

    ghost predicate Valid()
      reads this
    {
      End() <= |buffer|
    }

    ghost function Left(): (b: seq<Byte>)
      requires Valid()
      reads this
    {
      buffer[position..position + bytesLeft]
    }

    /** pb_istream_from_buffer, on a part of the buffer. */
    constructor (buffer: seq<Byte>, position: nat, bytesLeft: nat)
      requires position + bytesLeft <= |buffer|
      ensures Valid() && Left() == buffer[position..position + bytesLeft]
      ensures this.buffer == buffer && this.position == position && this.bytesLeft == bytesLeft
    {
      this.buffer, this.position, this.bytesLeft := buffer, position, bytesLeft;
    }

    /** pb_readbyte. */
    method ReadByte() returns (byte: Option<Byte>)
      requires Valid()
      modifies this
      ensures Valid() && End() == old(End())
      ensures if old(Left()) == [] then byte == None else byte == Some(old(Left())[0]) && Left() == old(Left())[1..]
    {
      if bytesLeft == 0 {
        return None;
      }
      byte := Some(buffer[position]);
      position := position + 1;
      bytesLeft := bytesLeft - 1;
    }

    /** pb_read, also where it only skips. */
    method Read(count: nat) returns (data: Option<seq<Byte>>)
      requires Valid()
      modifies this
      ensures Valid() && End() == old(End())
      ensures if count > |old(Left())| then data == None
        else data == Some(old(Left())[..count]) && Left() == old(Left())[count..]
    {
      assert Left()[..0] == [] && Left()[0..] == Left();
      if count == 0 {
        return Some([]);
      }
      if bytesLeft < count {
        return None;
      }
      ghost var left := Left();
      data := Some(buffer[position..position + count]);
      assert left[..count] == data.value && left[count..] == buffer[position + count..End()];
      position := position + count;
      bytesLeft := bytesLeft - count;
    }
  }
}
