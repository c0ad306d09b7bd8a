// Protocol data units: the 16-byte header, and the frames that IsPduAvailable
// and ReadPdu cut out of a byte stream.
module Pdu {
  import opened Bytes

  const HEADER_LEN := 16
  const PDU_VERSION: uint16 := 1

  datatype PduHeader = PduHeader(length: uint32, version: uint16, flag: uint16, serviceId: uint16,
                                 commandId: uint16, seqNum: uint16, reserved: uint16)

  function HeaderBytes(h: PduHeader): (s: seq<byte>)
    ensures |s| == HEADER_LEN
  {
    Put32(h.length) + Put16(h.version) + Put16(h.flag) + Put16(h.serviceId) + Put16(h.commandId)
    + Put16(h.seqNum) + Put16(h.reserved)
  }

  function ParseHeader(s: seq<byte>): PduHeader
    requires |s| >= HEADER_LEN
  {
    PduHeader(Get32(s), Get16(s[4..]), Get16(s[6..]), Get16(s[8..]), Get16(s[10..]), Get16(s[12..]), Get16(s[14..]))
  }

  lemma HeaderRoundTrip(h: PduHeader, body: seq<byte>)
    ensures ParseHeader(HeaderBytes(h) + body) == h
  {
    hide Put16, Get16, Put32, Get32;
    var s := HeaderBytes(h) + body;
    var s14 := Put16(h.reserved) + body;
    var s12 := Put16(h.seqNum) + s14;
    var s10 := Put16(h.commandId) + s12;
    var s8 := Put16(h.serviceId) + s10;
    var s6 := Put16(h.flag) + s8;
    var s4 := Put16(h.version) + s6;
    assert s == Put32(h.length) + s4;
    assert s[4..] == s4 && s[6..] == s6 && s[8..] == s8 && s[10..] == s10 && s[12..] == s12 && s[14..] == s14;
    GetPut32(h.length, s4);
    GetPut16(h.version, s6);
    GetPut16(h.flag, s8);
    GetPut16(h.serviceId, s10);
    GetPut16(h.commandId, s12);
    GetPut16(h.seqNum, s14);
    GetPut16(h.reserved, body);
  }

  /** A pdu on the wire is its header, with the true length, and its body. */
  predicate WellFormed(p: seq<byte>) {
    |p| >= HEADER_LEN && Get32(p) == |p|
  }

  // ------------------------------------------------------------------ frames

  datatype Frame = Frame(bytes: seq<byte>, header: PduHeader)

  /** What a byte stream holds: whole frames, then bytes that are not yet a
      frame, or that can never be one because their length field is zero. */
  datatype Split = Split(frames: seq<Frame>, rest: seq<byte>, failed: bool)

  function SplitStream(s: seq<byte>): Split
    decreases |s|
  {
    if |s| < HEADER_LEN || Get32(s) > |s| then Split([], s, false)
    else if Get32(s) == 0 then Split([], s, true)
    else Before([Frame(s[..Get32(s)], ParseHeader(s))], SplitStream(s[Get32(s)..]))
  }

  function Before(frames: seq<Frame>, split: Split): Split {
    split.(frames := frames + split.frames)
  }

  lemma SameHeader(a: seq<byte>, b: seq<byte>)
    requires |a| >= HEADER_LEN
    ensures ParseHeader(a + b) == ParseHeader(a) && Get32(a + b) == Get32(a)
  {
    assert (a + b)[4..] == a[4..] + b && (a + b)[6..] == a[6..] + b && (a + b)[8..] == a[8..] + b;
    assert (a + b)[10..] == a[10..] + b && (a + b)[12..] == a[12..] + b && (a + b)[14..] == a[14..] + b;
  }

  /** The first frame of a stream is cut off whatever follows. */
  lemma FirstFrame(a: seq<byte>, b: seq<byte>)
    requires |a| >= HEADER_LEN && 0 < Get32(a) <= |a|
    ensures SplitStream(a + b) == Before([Frame(a[..Get32(a)], ParseHeader(a))], SplitStream(a[Get32(a)..] + b))
  {
    hide ParseHeader, Get32;
    SameHeader(a, b);
    var n := Get32(a);
    assert (a + b)[..n] == a[..n] && (a + b)[n..] == a[n..] + b;
  }

  /** Bytes that arrive later never change the frames already cut: splitting
      can stop anywhere and go on from the rest. */
  lemma {:induction false} SplitInPieces(a: seq<byte>, b: seq<byte>)
    ensures SplitStream(a + b) == Before(SplitStream(a).frames, SplitStream(SplitStream(a).rest + b))
    decreases |a|
  {
    hide ParseHeader, Get32;
    if |a| >= HEADER_LEN && 0 < Get32(a) <= |a| {
      var n := Get32(a);
      SplitInPieces(a[n..], b);
      FirstFrame(a, b);
      var head := [Frame(a[..n], ParseHeader(a))];
      var tail := SplitStream(a[n..]);
      var more := SplitStream(tail.rest + b);
      assert head + (tail.frames + more.frames) == (head + tail.frames) + more.frames;
    } else {
      assert SplitStream(a).frames == [] && SplitStream(a).rest == a;
      assert [] + SplitStream(a + b).frames == SplitStream(a + b).frames;
    }
  }

  function Concat(ps: seq<seq<byte>>): seq<byte> {
    if ps == [] then [] else ps[0] + Concat(ps[1..])
  }

  predicate AllWellFormed(ps: seq<seq<byte>>) {
    forall i :: 0 <= i < |ps| ==> WellFormed(ps[i])
  }

  function FramesOf(ps: seq<seq<byte>>): (frames: seq<Frame>)
    requires AllWellFormed(ps)
    ensures |frames| == |ps|
  {
    if ps == [] then [] else [Frame(ps[0], ParseHeader(ps[0]))] + FramesOf(ps[1..])
  }

  /** What has arrived of a stream of well-formed pdus splits into the first
      few of them, in order, and a strict prefix of the next. */
  ghost predicate PartWay(ps: seq<seq<byte>>, split: Split)
    requires AllWellFormed(ps)
  {
    var k := |split.frames|;
    && !split.failed
    && k <= |ps|
    && split.frames == FramesOf(ps[..k])
    && (if k == |ps| then split.rest == [] else split.rest < ps[k])
  }

  lemma {:induction false} FramesInOrder(ps: seq<seq<byte>>, s: seq<byte>)
    requires AllWellFormed(ps) && s <= Concat(ps)
    ensures PartWay(ps, SplitStream(s))
    decreases |ps|
  {
    hide ParseHeader, Get32;
    if ps == [] {
      assert s == [];
    } else if |s| < |ps[0]| {
      assert s == Concat(ps)[..|s|] == ps[0][..|s|];
      if |s| >= HEADER_LEN {
        SameHeader(s, ps[0][|s|..]);
        assert s + ps[0][|s|..] == ps[0];
      }
      assert SplitStream(s) == Split([], s, false);
      assert ps[..0] == [];
    } else {
      var p, t := ps[0], s[|ps[0]|..];
      assert p == Concat(ps)[..|p|] == s[..|p|];
      assert Concat(ps[1..]) == Concat(ps)[|p|..];
      assert t <= Concat(ps[1..]);
      FramesInOrder(ps[1..], t);
      assert s == p + t && p[|p|..] + t == t && p[..|p|] == p;
      FirstFrame(p, t);
      var k := |SplitStream(t).frames|;
      assert ps[..k + 1][0] == p && ps[..k + 1][1..] == ps[1..][..k];
    }
  }

  // ---------------------------------------------------------------- messages

  /** A message as a sender means it: header fields and body. */
  datatype Message = Message(header: PduHeader, body: seq<byte>)

  predicate Sendable(m: Message) {
    m.header.length == HEADER_LEN + |m.body|
  }

  function Wire(m: Message): seq<byte> {
    HeaderBytes(m.header) + m.body
  }

  function WireAll(ms: seq<Message>): (ps: seq<seq<byte>>)
    ensures |ps| == |ms|
  {
    if ms == [] then [] else [Wire(ms[0])] + WireAll(ms[1..])
  }

  /** What a receiver makes of a frame. */
  function Received(f: Frame): Message
    requires |f.bytes| >= HEADER_LEN
  {
    Message(f.header, f.bytes[HEADER_LEN..])
  }

  lemma WireIsWellFormed(m: Message)
    requires Sendable(m)
    ensures WellFormed(Wire(m)) && Received(Frame(Wire(m), ParseHeader(Wire(m)))) == m
  {
    HeaderRoundTrip(m.header, m.body);
    assert Wire(m)[HEADER_LEN..] == m.body;
  }

  /** End to end: whatever sendable messages are serialised one after the
      other, cutting the stream gives back those messages and leaves nothing. */
  lemma {:induction false} MessagesRoundTrip(ms: seq<Message>)
    requires forall m :: m in ms ==> Sendable(m)
    ensures
      var split := SplitStream(Concat(WireAll(ms)));
      && !split.failed && split.rest == [] && |split.frames| == |ms|
      && forall i :: 0 <= i < |ms| ==> |split.frames[i].bytes| >= HEADER_LEN && Received(split.frames[i]) == ms[i]
    decreases |ms|
  {
    hide ParseHeader, Get32, HeaderBytes;
    if ms != [] {
      var w, rest := Wire(ms[0]), Concat(WireAll(ms[1..]));
      WireIsWellFormed(ms[0]);
      MessagesRoundTrip(ms[1..]);
      assert WireAll(ms)[0] == w && WireAll(ms)[1..] == WireAll(ms[1..]);
      assert w[|w|..] + rest == rest && w[..|w|] == w;
      FirstFrame(w, rest);
    }
  }
}
