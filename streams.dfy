/** The two streams the extractor reads through: a memory stream over the
    input buffer, and a push-back stream wrapped around it for a one-byte
    lookahead. */
module Streams {
  import opened Asn1

  /** An in-memory stream over a fixed buffer with a read position. */
  class MemoryStream {
    const buffer: seq<byte>
    var position: nat

    ghost predicate Valid()
      reads this
    {
      position <= |buffer|
    }

    constructor (buffer: seq<byte>)
      ensures Valid()
      ensures this.buffer == buffer && position == 0
    {
      this.buffer := buffer;
      position := 0;
    }

    /** The next byte, or -1 at the end of the buffer. */
    method ReadByte() returns (b: int)
      requires Valid()
      modifies this
      ensures Valid()
      ensures old(position) < |buffer| ==> b == buffer[old(position)] as int && position == old(position) + 1
      ensures old(position) == |buffer| ==> b == -1 && position == old(position)
    {
      if position < |buffer| {
        b := buffer[position] as int;
        position := position + 1;
      } else {
        b := -1;
      }
    }
  }

  /** A stream with a single push-back slot in front of a memory stream;
      `pushed` is -1 while the slot is empty. */
  class PushbackStream {
    const inner: MemoryStream
    var pushed: int

    ghost predicate Valid()
      reads this, inner
    {
      inner.Valid() && -1 <= pushed < 0x100
    }

    /** The bytes a reader of this stream will see, in order. */
    function Unconsumed(): seq<byte>
      reads this, inner
      requires Valid()
    {
      (if pushed == -1 then [] else [pushed as byte]) + inner.buffer[inner.position..]
    }

    constructor (inner: MemoryStream)
      requires inner.Valid()
      ensures Valid()
      ensures this.inner == inner && pushed == -1
      ensures Unconsumed() == inner.buffer[inner.position..]
    {
      this.inner := inner;
      pushed := -1;
    }

    /** Takes the pushed-back byte if there is one, else reads the inner
        stream; -1 when nothing is left. */
    method ReadByte() returns (b: int)
      requires Valid()
      modifies this, inner
      ensures Valid()
      ensures old(Unconsumed()) == [] ==> b == -1 && Unconsumed() == []
      ensures old(Unconsumed()) != [] ==> b == old(Unconsumed())[0] as int && Unconsumed() == old(Unconsumed())[1..]
      ensures pushed == -1
    {
      if pushed != -1 {
        b := pushed;
        pushed := -1;
        assert inner.buffer[inner.position..] == old(Unconsumed())[1..];
      } else {
        b := inner.ReadByte();
        if b != -1 {
          assert inner.buffer[inner.position..] == old(Unconsumed())[1..];
        }
      }
    }

    /** Puts one byte back in front of the stream. The slot holds one byte,
        so a second push-back before a read is not allowed. */
    method Unread(b: int)
      requires Valid() && pushed == -1 && 0 <= b < 0x100
      modifies this
      ensures Valid() && pushed == b
      ensures Unconsumed() == [b as byte] + old(Unconsumed())
    {
      pushed := b;
    }

    /** Decodes one object from the bytes this stream holds and consumes
        exactly those bytes, the pushed-back one first. */
    method ReadObject(decode: Decoder) returns (r: Decoded)
      requires Valid() && ValidDecoder(decode)
      modifies this, inner
      ensures Valid()
      ensures r == decode(old(Unconsumed()))
      ensures r.Decoded? ==> pushed == -1 && Unconsumed() == old(Unconsumed())[r.length..]
    {
      var before := Unconsumed();
      r := decode(before);
      if r.Decoded? {
        if pushed != -1 {
          inner.position := inner.position + r.length - 1;
          pushed := -1;
          assert Unconsumed() == before[r.length..];
        } else {
          inner.position := inner.position + r.length;
          assert Unconsumed() == before[r.length..];
        }
      }
    }
  }
}
