// CImPdu as an object, and CImConn: one connection's input buffer, cut into
// pdus, and its output buffer, drained into a socket that takes what it likes.
module ImConn {
  import opened Bytes
  import opened SimpleBuffer
  import opened Pdu

  const READ_BUF_SIZE := 2048
  const MAX_SOCKET_BUF_SIZE := 0x2_0000

  // Buffer offsets are 32-bit, and a buffer grows to a quarter over its need.
  const MAX_BUFFERED := 0xC000_0000

  datatype Field = Version | Flag | ServiceId | CommandId | SeqNum | Reserved

  function Offset(f: Field): (k: nat)
    ensures 4 <= k <= 14
  {
    match f
    case Version => 4
    case Flag => 6
    case ServiceId => 8
    case CommandId => 10
    case SeqNum => 12
    case Reserved => 14
  }

  function WithField(h: PduHeader, f: Field, v: uint16): PduHeader {
    match f
    case Version => h.(version := v)
    case Flag => h.(flag := v)
    case ServiceId => h.(serviceId := v)
    case CommandId => h.(commandId := v)
    case SeqNum => h.(seqNum := v)
    case Reserved => h.(reserved := v)
  }

  lemma FieldInPlace(h: PduHeader, body: seq<byte>, f: Field, v: uint16)
    ensures
      var s := HeaderBytes(h) + body;
      s[..Offset(f)] + Put16(v) + s[Offset(f) + 2..] == HeaderBytes(WithField(h, f, v)) + body
  {
    hide Put32;
  }

  class ImPdu {
    const buf: Buffer
    var header: PduHeader

    ghost predicate Valid()
      reads this, buf
    {
      buf.Valid()
    }

    /** The bytes of the pdu are message `m` on the wire. */
    ghost predicate Holds(m: Message)
      reads this, buf, buf.data
    {
      Valid() && buf.Contents() == Wire(m)
    }

    constructor ()
      ensures Valid() && fresh(buf) && fresh(buf.data) && buf.Contents() == []
      ensures header == PduHeader(0, PDU_VERSION, 0, 0, 0, 0, 0)
    {
      buf := new Buffer();
      header := PduHeader(0, PDU_VERSION, 0, 0, 0, 0, 0);
    }

    /** Header space, then the serialised body, then the header in place. */
    method SetPBMsg(body: seq<byte>)
      requires Valid() && |body| < MAX_BUFFERED - HEADER_LEN
      modifies buf, buf.data
      ensures buf.data == old(buf.data) || fresh(buf.data)
      ensures Holds(Message(header.(length := HEADER_LEN + |body|), body))
    {
      var dropped := buf.Read(buf.writeOffset);
      buf.Write(seq(HEADER_LEN, _ => 0));
      buf.Write(body);
      WriteHeader();
      assert buf.Contents()[HEADER_LEN..] == body;
    }

    method WriteHeader()
      requires Valid() && HEADER_LEN <= buf.writeOffset < TWO_32
      modifies buf.data
      ensures Valid() && buf.writeOffset == old(buf.writeOffset)
      ensures buf.Contents() == HeaderBytes(header.(length := buf.writeOffset)) + old(buf.Contents())[HEADER_LEN..]
    {
      var h := HeaderBytes(header.(length := buf.writeOffset));
      forall i | 0 <= i < HEADER_LEN {
        buf.data[i] := h[i];
      }
    }

    /** The setters write into the buffer only, not into `header`. */
    method SetField(f: Field, v: uint16, ghost m: Message)
      requires Holds(m)
      modifies buf.data
      ensures Holds(m.(header := WithField(m.header, f, v)))
    {
      hide HeaderBytes, Put16, Offset, WithField;
      var k, b := Offset(f), Put16(v);
      buf.data[k] := b[0];
      buf.data[k + 1] := b[1];
      FieldInPlace(m.header, m.body, f, v);
      ghost var was := Wire(m);
      assert buf.Contents() == was[..k] + b + was[k + 2..];
    }

    method ReadPduHeader(s: seq<byte>) returns (ret: int)
      modifies this`header
      ensures ret == (if |s| >= HEADER_LEN then 0 else -1)
      ensures header == if ret == 0 then ParseHeader(s) else old(header)
    {
      ret := -1;
      if |s| >= HEADER_LEN {
        header := PduHeader(Get32(s), Get16(s[4..]), Get16(s[6..]), Get16(s[8..]), Get16(s[10..]), Get16(s[12..]),
                            Get16(s[14..]));
        ret := 0;
      }
    }
  }

  // CPduException, a null pointer, or a pdu.
  datatype ReadResult = Failed | NotYet | Got(pdu: ImPdu)

  /** ReadPdu cuts the first frame, and its copy is a separate buffer. */
  method ReadPdu(buf: Buffer) returns (r: ReadResult)
    requires buf.Valid() && buf.writeOffset < MAX_BUFFERED
    ensures
      var s := SplitStream(buf.Contents());
      && (r.Failed? <==> s.frames == [] && s.failed)
      && (r.NotYet? <==> s.frames == [] && !s.failed)
      && (r.Got? ==>
            && fresh(r.pdu) && fresh(r.pdu.buf) && fresh(r.pdu.buf.data) && r.pdu.Valid() && s.frames != []
            && s.frames[0] == Frame(r.pdu.buf.Contents(), r.pdu.header)
            && 0 < r.pdu.buf.writeOffset <= |buf.Contents()|
            && s == Before([s.frames[0]], SplitStream(buf.Contents()[r.pdu.buf.writeOffset..])))
  {
    hide ParseHeader, Get32;
    ghost var s := buf.Contents();
    if buf.writeOffset < HEADER_LEN {
      return NotYet;
    }
    var pduLen := Get32(buf.data[..buf.writeOffset]);
    if pduLen > buf.writeOffset {
      return NotYet;
    }
    if pduLen == 0 {
      return Failed;
    }
    var pdu := new ImPdu();
    pdu.buf.Write(buf.data[..pduLen]);
    assert buf.data[..pduLen] == s[..pduLen];
    var ret := pdu.ReadPduHeader(buf.data[..buf.writeOffset]);
    r := Got(pdu);
  }

  /** The operating system's end. `incoming` has arrived and waits to be read;
      how much one call moves is the socket's choice. */
  class Socket {
    var incoming: seq<byte>
    ghost var delivered: seq<byte>
    ghost var accepted: seq<byte>

    constructor ()
      ensures incoming == [] && delivered == [] && accepted == []
    {
      incoming, delivered, accepted := [], [], [];
    }

    method Recv(size: nat) returns (chunk: seq<byte>)
      modifies this`incoming, this`delivered
      ensures |chunk| <= size && old(incoming) == chunk + incoming
      ensures delivered == old(delivered) + chunk
    {
      var n: nat :| n <= size && n <= |incoming|;
      chunk, incoming := incoming[..n], incoming[n..];
      delivered := delivered + chunk;
    }

    method Send(data: seq<byte>) returns (ret: int)
      modifies this`accepted
      ensures ret <= |data|
      ensures accepted == if ret > 0 then old(accepted) + data[..ret] else old(accepted)
    {
      ret :| ret <= |data|;
      if ret > 0 {
        accepted := accepted + data[..ret];
      }
    }
  }

  class Conn {
    const socket: Socket
    const inBuf: Buffer
    const outBuf: Buffer
    var busy: bool
    var closed: bool
    // Every frame passed to HandlePdu and all data passed to Send, in order.
    ghost var handled: seq<Frame>
    ghost var sent: seq<byte>

    ghost predicate Apart()
      reads this, inBuf, outBuf
    {
      inBuf != outBuf && inBuf.Valid() && outBuf.Valid() && inBuf.data != outBuf.data
    }

    /** The frames handled are those of all bytes ever delivered, however they
        were cut into reads, and the input buffer holds what is left. */
    ghost predicate InputInOrder()
      reads this, socket, inBuf, outBuf, inBuf.data
    {
      && Apart()
      && SplitStream(socket.delivered) == Split(handled, inBuf.Contents(), closed)
    }

    /** Nothing sent is lost or reordered, and the connection is busy just when
        something still waits. */
    ghost predicate OutputInOrder()
      reads this, socket, inBuf, outBuf, outBuf.data
    {
      && Apart()
      && sent == socket.accepted + outBuf.Contents()
      && (busy <==> outBuf.Contents() != [])
    }

    constructor ()
      ensures InputInOrder() && OutputInOrder()
      ensures handled == [] && sent == [] && socket.delivered == [] && socket.incoming == []
      ensures fresh(socket) && fresh(inBuf) && fresh(outBuf) && fresh(inBuf.data) && fresh(outBuf.data)
    {
      socket := new Socket();
      inBuf := new Buffer();
      outBuf := new Buffer();
      busy, closed := false, false;
      handled, sent := [], [];
    }

    /** The send loop: it ends when all is gone or the socket takes no more. */
    method SendNow(data: seq<byte>) returns (offset: nat)
      modifies socket`accepted
      ensures offset <= |data| && socket.accepted == old(socket.accepted) + data[..offset]
    {
      offset := 0;
      var remain := |data|;
      while remain > 0
        invariant 0 <= offset && 0 <= remain && offset + remain == |data|
        invariant socket.accepted == old(socket.accepted) + data[..offset]
        decreases remain
      {
        var sendSize := if remain > MAX_SOCKET_BUF_SIZE then MAX_SOCKET_BUF_SIZE else remain;
        var ret := socket.Send(data[offset..offset + sendSize]);
        if ret <= 0 {
          break;
        }
        assert data[..offset + ret] == data[..offset] + data[offset..offset + sendSize][..ret];
        offset := offset + ret;
        remain := remain - ret;
      }
    }

    method Send(data: seq<byte>)
      requires OutputInOrder() && outBuf.writeOffset + |data| < MAX_BUFFERED
      modifies this`busy, this`sent, socket`accepted, outBuf, outBuf.data
      ensures outBuf.data == old(outBuf.data) || fresh(outBuf.data)
      ensures OutputInOrder() && sent == old(sent) + data
    {
      if busy {
        outBuf.Write(data);
        sent := sent + data;
        return;
      }
      var offset := SendNow(data);
      sent := sent + data;
      assert data == data[..offset] + data[offset..];
      if offset < |data| {
        outBuf.Write(data[offset..]);
        busy := true;
      }
    }

    method OnWrite()
      requires OutputInOrder()
      modifies this`busy, socket`accepted, outBuf`writeOffset, outBuf.data
      ensures OutputInOrder() && sent == old(sent)
    {
      if !busy {
        return;
      }
      while outBuf.writeOffset > 0
        invariant Apart() && outBuf.data == old(outBuf.data)
        invariant sent == socket.accepted + outBuf.Contents()
        decreases outBuf.writeOffset
        modifies socket`accepted, outBuf`writeOffset, outBuf.data
      {
        ghost var waiting, before := outBuf.Contents(), socket.accepted;
        var sendSize := if outBuf.writeOffset > MAX_SOCKET_BUF_SIZE then MAX_SOCKET_BUF_SIZE else outBuf.writeOffset;
        var offered := outBuf.data[..sendSize];
        assert offered == waiting[..sendSize];
        var ret := socket.Send(offered);
        if ret <= 0 {
          break;
        }
        var gone := outBuf.Read(ret);
        Moved(before, waiting, sendSize, ret, gone, outBuf.Contents());
      }
      if outBuf.writeOffset == 0 {
        busy := false;
      }
    }

    method OnRead()
      requires InputInOrder() && inBuf.writeOffset + |socket.incoming| < MAX_BUFFERED - READ_BUF_SIZE
      modifies this`closed, this`handled, socket`incoming, socket`delivered, inBuf, inBuf.data
      ensures inBuf.data == old(inBuf.data) || fresh(inBuf.data)
      ensures InputInOrder()
      ensures old(socket.delivered) <= socket.delivered
      ensures socket.delivered + socket.incoming == old(socket.delivered + socket.incoming)
    {
      hide SplitStream;
      WholeRest(inBuf.Contents());
      ReadAll();
      ghost var before, more := old(socket.delivered), socket.delivered[|old(socket.delivered)|..];
      assert socket.delivered == before + more;
      SplitInPieces(before, more);
      if closed {
        FailedStays(before, more);
      }
      HandleAll();
    }

    /** The receive loop: everything read goes to the end of the input buffer. */
    method ReadAll()
      requires Apart() && inBuf.writeOffset + |socket.incoming| < MAX_BUFFERED - READ_BUF_SIZE
      modifies socket`incoming, socket`delivered, inBuf, inBuf.data
      ensures inBuf.data == old(inBuf.data) || fresh(inBuf.data)
      ensures Apart() && inBuf.writeOffset < MAX_BUFFERED
      ensures old(socket.delivered) <= socket.delivered
      ensures inBuf.Contents() == old(inBuf.Contents()) + socket.delivered[|old(socket.delivered)|..]
      ensures socket.delivered + socket.incoming == old(socket.delivered + socket.incoming)
    {
      while true
        invariant Apart() && (inBuf.data == old(inBuf.data) || fresh(inBuf.data))
        invariant inBuf.writeOffset + |socket.incoming| < MAX_BUFFERED - READ_BUF_SIZE
        invariant old(socket.delivered) <= socket.delivered
        invariant inBuf.Contents() == old(inBuf.Contents()) + socket.delivered[|old(socket.delivered)|..]
        invariant socket.delivered + socket.incoming == old(socket.delivered + socket.incoming)
        decreases |socket.incoming|
      {
        if inBuf.data.Length - inBuf.writeOffset < READ_BUF_SIZE {
          inBuf.Extend(READ_BUF_SIZE);
        }
        ghost var before, buffered := socket.delivered, inBuf.Contents();
        var chunk := socket.Recv(READ_BUF_SIZE);
        if |chunk| == 0 {
          break;
        }
        inBuf.Put(chunk);
        Appended(old(socket.delivered), before, chunk, old(inBuf.Contents()), buffered);
        assert before + chunk + socket.incoming == before + (chunk + socket.incoming);
      }
    }

    /** The dispatch loop: a zero length field closes the connection. */
    method HandleAll()
      requires Apart() && inBuf.writeOffset < MAX_BUFFERED
      requires SplitStream(socket.delivered) == Before(handled, SplitStream(inBuf.Contents()))
      requires closed ==> SplitStream(inBuf.Contents()).failed
      modifies this`closed, this`handled, inBuf`writeOffset, inBuf.data
      ensures InputInOrder()
    {
      hide SplitStream;
      while true
        invariant Apart() && inBuf.data == old(inBuf.data) && inBuf.writeOffset < MAX_BUFFERED
        invariant SplitStream(socket.delivered) == Before(handled, SplitStream(inBuf.Contents()))
        invariant closed ==> SplitStream(inBuf.Contents()).failed
        decreases inBuf.writeOffset
      {
        ghost var bytes := inBuf.Contents();
        WholeRest(bytes);
        var r := ReadPdu(inBuf);
        match r {
          case NotYet =>
            return;
          case Failed =>
            closed := true;
            return;
          case Got(pdu) =>
            ghost var was := handled;
            ghost var frame := Frame(pdu.buf.Contents(), pdu.header);
            handled := handled + [frame];
            var gone := inBuf.Read(pdu.buf.writeOffset);
            assert inBuf.Contents() == bytes[|gone|..];
            NextFrame(was, frame, SplitStream(inBuf.Contents()));
        }
      }
    }
  }

  lemma Moved(before: seq<byte>, waiting: seq<byte>, n: nat, ret: nat, gone: seq<byte>, rest: seq<byte>)
    requires ret <= n <= |waiting| && |gone| == ret && waiting == gone + rest
    ensures before + waiting == (before + waiting[..n][..ret]) + rest
  {
    assert waiting[..n][..ret] == gone;
  }

  lemma Appended(first: seq<byte>, before: seq<byte>, chunk: seq<byte>, held: seq<byte>, buffered: seq<byte>)
    requires first <= before && buffered == held + before[|first|..]
    ensures first <= before + chunk && buffered + chunk == held + (before + chunk)[|first|..]
  {
    assert (before + chunk)[|first|..] == before[|first|..] + chunk;
  }

  lemma FailedStays(a: seq<byte>, b: seq<byte>)
    requires SplitStream(a).failed
    ensures SplitStream(a + b).failed && SplitStream(SplitStream(a).rest + b).failed
  {
    hide ParseHeader, Get32;
    SplitInPieces(a, b);
    RestFails(a);
    SameHeader(SplitStream(a).rest, b);
  }

  lemma {:induction false} RestFails(a: seq<byte>)
    requires SplitStream(a).failed
    ensures |SplitStream(a).rest| >= HEADER_LEN && Get32(SplitStream(a).rest) == 0
    decreases |a|
  {
    hide ParseHeader, Get32;
    if Get32(a) != 0 {
      RestFails(a[Get32(a)..]);
    }
  }

  lemma WholeRest(s: seq<byte>)
    ensures SplitStream(s).frames == [] ==> SplitStream(s).rest == s
    ensures forall frames: seq<Frame> :: SplitStream(s).frames == [] ==> Before(frames, SplitStream(s)).frames == frames
  {
  }

  lemma NextFrame(frames: seq<Frame>, f: Frame, split: Split)
    ensures Before(frames, Before([f], split)) == Before(frames + [f], split)
  {
    assert frames + ([f] + split.frames) == (frames + [f]) + split.frames;
  }

  // ------------------------------------------------------------- whole runs

  // What can happen to a connection: the program sends, the socket becomes
  // writable, bytes arrive, or it becomes readable.
  datatype Event = Sent(data: seq<byte>) | Writable | Arrived(bytes: seq<byte>) | Readable

  function AllSent(events: seq<Event>): seq<byte> {
    if events == [] then []
    else AllSent(events[..|events| - 1]) + (match events[|events| - 1] case Sent(data) => data case _ => [])
  }

  function AllArrived(events: seq<Event>): seq<byte> {
    if events == [] then []
    else AllArrived(events[..|events| - 1]) + (match events[|events| - 1] case Arrived(bytes) => bytes case _ => [])
  }

  /** What waits would no longer fit its buffer, whose sizes have 32 bits. */
  predicate Overfills(c: Conn, e: Event)
    reads c, c.socket, c.inBuf, c.outBuf
  {
    match e
    case Sent(data) => c.outBuf.writeOffset + |data| >= MAX_BUFFERED
    case Readable => c.inBuf.writeOffset + |c.socket.incoming| >= MAX_BUFFERED - READ_BUF_SIZE
    case _ => false
  }

  /** Any run, with the socket moving any amounts: every byte sent is accepted
      or waits in order, and every byte delivered is handled or waits in order.
      It stops only before an event that would overfill a buffer. */
  method Drive(events: seq<Event>) returns (c: Conn, done: nat)
    ensures done <= |events| && (done < |events| ==> Overfills(c, events[done]))
    ensures c.InputInOrder() && c.OutputInOrder()
    ensures c.sent == AllSent(events[..done])
    ensures c.socket.delivered + c.socket.incoming == AllArrived(events[..done])
  {
    hide SplitStream;
    c := new Conn();
    done := 0;
    while done < |events|
      invariant done <= |events|
      invariant c.InputInOrder() && c.OutputInOrder()
      invariant c.sent == AllSent(events[..done])
      invariant c.socket.delivered + c.socket.incoming == AllArrived(events[..done])
      invariant fresh(c) && fresh(c.socket) && fresh(c.inBuf) && fresh(c.outBuf)
      invariant fresh(c.inBuf.data) && fresh(c.outBuf.data)
    {
      if Overfills(c, events[done]) {
        return;
      }
      assert events[..done + 1][..done] == events[..done];
      Step(c, events[done]);
      done := done + 1;
    }
  }

  method Step(c: Conn, e: Event)
    requires c.InputInOrder() && c.OutputInOrder()
    requires !Overfills(c, e)
    modifies c, c.socket, c.inBuf, c.outBuf, c.inBuf.data, c.outBuf.data
    ensures c.inBuf.data == old(c.inBuf.data) || fresh(c.inBuf.data)
    ensures c.outBuf.data == old(c.outBuf.data) || fresh(c.outBuf.data)
    ensures c.InputInOrder() && c.OutputInOrder()
    ensures c.sent == old(c.sent) + (match e case Sent(data) => data case _ => [])
    ensures c.socket.delivered + c.socket.incoming
         == old(c.socket.delivered + c.socket.incoming) + (match e case Arrived(bytes) => bytes case _ => [])
  {
    hide SplitStream;
    match e {
      case Sent(data) =>
        c.Send(data);
      case Writable =>
        c.OnWrite();
      case Arrived(bytes) =>
        ghost var delivered, incoming := c.socket.delivered, c.socket.incoming;
        c.socket.incoming := c.socket.incoming + bytes;
        assert delivered + (incoming + bytes) == (delivered + incoming) + bytes;
      case Readable =>
        c.OnRead();
    }
  }

  /** The handled frames are exactly the pdus sent by the peer, in order, as far
      as they have been delivered. */
  lemma HandledInOrder(c: Conn, ps: seq<seq<byte>>)
    requires c.InputInOrder() && AllWellFormed(ps) && c.socket.delivered <= Concat(ps)
    ensures PartWay(ps, Split(c.handled, c.inBuf.Contents(), c.closed))
  {
    FramesInOrder(ps, c.socket.delivered);
  }
}
