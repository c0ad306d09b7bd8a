// CSimpleBuffer: a growable byte buffer written at its end and read from its
// front.
module SimpleBuffer {
  import opened Bytes

  class Buffer {
    var data: array<byte>
    var writeOffset: nat

    ghost predicate Valid()
      reads this
    {
      writeOffset <= data.Length
    }

    ghost function Contents(): (s: seq<byte>)
      reads this, data
      requires Valid()
      ensures |s| == writeOffset
    {
      data[..writeOffset]
    }

    constructor ()
      ensures Valid() && Contents() == [] && fresh(data)
    {
      data := new byte[0];
      writeOffset := 0;
    }

    /** Room for `len` more bytes and a quarter on top; the size is a 32-bit
        counter. */
    method Extend(len: nat)
      requires Valid() && writeOffset + len + (writeOffset + len) / 4 < TWO_32
      modifies this`data
      ensures Valid() && fresh(data) && writeOffset == old(writeOffset)
      ensures data.Length == writeOffset + len + (writeOffset + len) / 4
      ensures Contents() == old(Contents())
    {
      var size := writeOffset + len;
      size := size + size / 4;
      var grown := new byte[size];
      var i := 0;
      while i < writeOffset
        invariant 0 <= i <= writeOffset <= size && grown.Length == size
        invariant Valid() && data == old(data) && Contents() == old(Contents())
        invariant grown[..i] == data[..i]
      {
        grown[i] := data[i];
        i := i + 1;
      }
      data := grown;
    }

    /** memcpy to the write offset. */
    method Put(s: seq<byte>)
      requires Valid() && writeOffset + |s| <= data.Length
      modifies this`writeOffset, data
      ensures Valid() && data == old(data) && Contents() == old(Contents()) + s
    {
      forall i | 0 <= i < |s| {
        data[writeOffset + i] := s[i];
      }
      writeOffset := writeOffset + |s|;
    }

    method Write(s: seq<byte>)
      requires Valid() && writeOffset + |s| + (writeOffset + |s|) / 4 < TWO_32
      modifies this, data
      ensures Valid() && (data == old(data) || fresh(data))
      ensures Contents() == old(Contents()) + s
    {
      if writeOffset + |s| > data.Length {
        Extend(|s|);
      }
      Put(s);
    }

    /** Drops up to `len` bytes from the front and moves the rest down. */
    method Read(len: nat) returns (s: seq<byte>)
      requires Valid()
      modifies this`writeOffset, data
      ensures Valid() && data == old(data)
      ensures |s| == (if len <= old(writeOffset) then len else old(writeOffset))
      ensures old(Contents()) == s + Contents()
    {
      var n := if len > writeOffset then writeOffset else len;
      s := data[..n];
      writeOffset := writeOffset - n;
      forall i | 0 <= i < writeOffset {
        data[i] := data[n + i];
      }
      assert Contents() == old(Contents())[n..];
    }
  }
}
