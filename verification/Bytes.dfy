// Bytes and the big-endian integers that CByteStream's static readers and
// writers move in and out of a buffer.
module Bytes {

  type byte = x: int | 0 <= x < 256

  const TWO_16 := 0x1_0000
  const TWO_32 := 0x1_0000_0000

  type uint16 = x: int | 0 <= x < TWO_16
  type uint32 = x: int | 0 <= x < TWO_32

  function Put16(v: uint16): (s: seq<byte>)
    ensures |s| == 2
  {
    [v / 256, v % 256]
  }

  function Get16(s: seq<byte>): uint16
    requires |s| >= 2
  {
    s[0] as int * 256 + s[1]
  }

  function Put32(v: uint32): (s: seq<byte>)
    ensures |s| == 4
  {
    var v8 := v / 256;
    var v16 := v8 / 256;
    [v16 / 256, v16 % 256, v8 % 256, v % 256]
  }

  function Get32(s: seq<byte>): uint32
    requires |s| >= 4
  {
    s[0] as int * 0x100_0000 + s[1] as int * 0x1_0000 + s[2] as int * 0x100 + s[3]
  }

  lemma GetPut16(v: uint16, rest: seq<byte>)
    ensures Get16(Put16(v) + rest) == v
  {
  }

  lemma GetPut32(v: uint32, rest: seq<byte>)
    ensures Get32(Put32(v) + rest) == v
  {
    var v8 := v / 256;
    var v16 := v8 / 256;
    var s := Put32(v) + rest;
    assert s[0] == v16 / 256 && s[1] == v16 % 256 && s[2] == v8 % 256 && s[3] == v % 256;
  }
}
