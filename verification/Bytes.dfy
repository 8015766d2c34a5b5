/** Bytes, and copying them into and out of a buffer. */
module Bytes {
  type Byte = n: int | 0 <= n < 256

  function Read(buffer: seq<Byte>, at: nat, n: nat): (r: seq<Byte>)
    requires at + n <= |buffer|
    ensures |r| == n
  {
    buffer[at..at + n]
  }

  function Written(buffer: seq<Byte>, at: nat, data: seq<Byte>): (r: seq<Byte>)
    requires at + |data| <= |buffer|
    ensures |r| == |buffer|
  {
    buffer[..at] + data + buffer[at + |data|..]
  }

  lemma ReadBack(buffer: seq<Byte>, at: nat, data: seq<Byte>)
    requires at + |data| <= |buffer|
    ensures Read(Written(buffer, at, data), at, |data|) == data
  {
  }

  lemma ReadElsewhere(buffer: seq<Byte>, at: nat, data: seq<Byte>, from: nat, n: nat)
    requires at + |data| <= |buffer| && from + n <= |buffer| && (from + n <= at || at + |data| <= from)
    ensures Read(Written(buffer, at, data), from, n) == Read(buffer, from, n)
  {
  }

  /** memcpy into a buffer. */
  method CopyIn(buffer: array<Byte>, at: nat, data: seq<Byte>)
    requires at + |data| <= buffer.Length
    modifies buffer
    ensures buffer[..] == Written(old(buffer[..]), at, data)
  {
    for i := 0 to |data|
      invariant buffer[..at] == old(buffer[..at]) && buffer[at..at + i] == data[..i]
      invariant buffer[at + i..] == old(buffer[at + i..])
    {
      buffer[at + i] := data[i];
    }
    assert buffer[..] == buffer[..at] + buffer[at..at + |data|] + buffer[at + |data|..];
  }

  /** memcpy out of a buffer. */
  method CopyOut(buffer: array<Byte>, at: nat, n: nat) returns (data: seq<Byte>)
    requires at + n <= buffer.Length
    ensures data == Read(buffer[..], at, n)
  {
    data := buffer[at..at + n];
  }
}
