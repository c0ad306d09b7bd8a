// CDbAttachData and CPduAttachData: what a server attaches to a request so that
// the answer finds its way back, written to a buffer and read from one.
module AttachData {
  import opened Bytes
  import opened SimpleBuffer

  datatype Attach = Attach(kind: uint32, handle: uint32, serviceType: uint32, pdu: seq<byte>)

  function Serialized(a: Attach): seq<byte>
    requires |a.pdu| < TWO_32
  {
    Put32(a.kind) + Put32(a.handle) + Put32(a.serviceType) + Put32(|a.pdu|) + a.pdu
  }

  // The fields read, with the place and length of the pdu inside the buffer.
  datatype Fields = Fields(kind: uint32, handle: uint32, serviceType: uint32, at: uint32, length: uint32)

  // The exception of a stream that ends too early, or the value.
  datatype Result<T> = ParseFailed | Parsed(value: T)

  function FieldsIn(buf: seq<byte>): Result<Fields> {
    if |buf| < 16 then ParseFailed
    else
      var length := Get32(buf[12..]);
      if (16 + length) % TWO_32 > |buf| then ParseFailed
      else Parsed(Fields(Get32(buf), Get32(buf[4..]), Get32(buf[8..]), 16, length))
  }

  /** Reading undoes writing, whatever follows in the buffer. */
  lemma FieldsOfSerialized(a: Attach, more: seq<byte>)
    requires |a.pdu| + 16 < TWO_32
    ensures
      var buf := Serialized(a) + more;
      && FieldsIn(buf) == Parsed(Fields(a.kind, a.handle, a.serviceType, 16, |a.pdu|))
      && buf[16..16 + |a.pdu|] == a.pdu
  {
    hide Put32, Get32;
    var s12 := Put32(|a.pdu|) + (a.pdu + more);
    var s8 := Put32(a.serviceType) + s12;
    var s4 := Put32(a.handle) + s8;
    var s := Put32(a.kind) + s4;
    assert Serialized(a) + more == s;
    assert s[4..] == s4 && s[8..] == s8 && s[12..] == s12;
    GetPut32(a.kind, s4);
    GetPut32(a.handle, s8);
    GetPut32(a.serviceType, s12);
    GetPut32(|a.pdu|, a.pdu + more);
  }

  /** The check after skipping the pdu is made on a position that has wrapped: the
      pdu of an accepted buffer lies inside it exactly when its length field is
      below 2^32 - 16. */
  lemma AcceptedPduLiesInside(buf: seq<byte>)
    requires FieldsIn(buf).Parsed? && |buf| < TWO_32
    ensures
      var f := FieldsIn(buf).value;
      f.at + f.length <= |buf| <==> f.length < TWO_32 - 16
  {
    hide Get32;
    var length := Get32(buf[12..]);
    if length < TWO_32 - 16 {
      assert (16 + length) % TWO_32 == 16 + length;
    }
  }

  /** Twelve zero bytes and the length 2^32 - 16: the wrapped position is 0, so the
      buffer is accepted, and its pdu would end far behind it. */
  lemma PduOutsideIsAccepted()
    ensures
      var buf: seq<byte> := Put32(0) + Put32(0) + Put32(0) + Put32(TWO_32 - 16);
      && |buf| == 16
      && FieldsIn(buf) == Parsed(Fields(0, 0, 0, 16, TWO_32 - 16))
      && 16 + (TWO_32 - 16) > |buf|
  {
    hide Put32, Get32;
    var buf: seq<byte> := Put32(0) + Put32(0) + Put32(0) + Put32(TWO_32 - 16);
    var s12, s8, s4 := Put32(TWO_32 - 16), Put32(0) + Put32(TWO_32 - 16), Put32(0) + Put32(0) + Put32(TWO_32 - 16);
    GetPut32(TWO_32 - 16, []);
    GetPut32(0, s12);
    GetPut32(0, s8);
    GetPut32(0, s4);
    assert s12 + [] == s12;
    assert Put32(0) + s12 == s8 && Put32(0) + s8 == s4 && Put32(0) + s4 == buf;
    assert buf[12..] == s12 && buf[8..] == s8 && buf[4..] == s4;
  }

  /** CByteStream over a received array. */
  class InStream {
    const buf: seq<byte>
    var pos: uint32

    constructor (buf: seq<byte>)
      ensures this.buf == buf && pos == 0
    {
      this.buf, pos := buf, 0;
    }

    method Read32() returns (r: Result<uint32>)
      requires pos + 4 < TWO_32
      modifies this
      ensures if old(pos) + 4 > |buf| then r.ParseFailed? && pos == old(pos)
              else r == Parsed(Get32(buf[old(pos)..])) && pos == old(pos) + 4
    {
      if pos + 4 > |buf| {
        return ParseFailed;
      }
      r := Parsed(Get32(buf[pos..]));
      pos := pos + 4;
    }

    method Skip(len: uint32) returns (ok: bool)
      modifies this
      ensures pos == (old(pos) + len) % TWO_32 && ok == (pos <= |buf|)
    {
      pos := (pos + len) % TWO_32;
      ok := pos <= |buf|;
    }
  }

  /** The constructor that serialises. */
  method Serialize(a: Attach) returns (b: Buffer)
    requires |a.pdu| < 0xC000_0000
    ensures b.Valid() && b.Contents() == Serialized(a)
  {
    hide Put32;
    b := new Buffer();
    b.Write(Put32(a.kind));
    b.Write(Put32(a.handle));
    b.Write(Put32(a.serviceType));
    b.Write(Put32(|a.pdu|));
    b.Write(a.pdu);
  }

  /** The constructor that parses. */
  method Parse(buf: seq<byte>) returns (r: Result<Fields>)
    requires |buf| < TWO_32
    ensures r == FieldsIn(buf)
  {
    hide Get32;
    var s := new InStream(buf);
    var kind := s.Read32();
    if kind.ParseFailed? {
      return ParseFailed;
    }
    var handle := s.Read32();
    if handle.ParseFailed? {
      return ParseFailed;
    }
    var serviceType := s.Read32();
    if serviceType.ParseFailed? {
      return ParseFailed;
    }
    var length := s.Read32();
    if length.ParseFailed? {
      return ParseFailed;
    }
    var at := s.pos;
    var ok := s.Skip(length.value);
    if !ok {
      return ParseFailed;
    }
    assert buf[0..] == buf;
    r := Parsed(Fields(kind.value, handle.value, serviceType.value, at, length.value));
  }
}
