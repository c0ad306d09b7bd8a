// Chunked bodies (section 3.6.1 of RFC 2616): decoding inverts encoding.
module HttpChunks {
  import opened Decimal
  import opened HttpTypes
  import opened HttpStep
  import opened HttpInvariant
  import opened HttpExecute
  import opened HttpHeaders
  import opened HttpLength
  import opened HttpFraming

  predicate AllHex(d: string) {
    d != "" && forall i :: 0 <= i < |d| ==> IsHex(d[i])
  }

  function HexDigit(c: char): (v: nat)
    requires IsHex(c)
    ensures v <= 15
  {
    if IsNum(c) then c as int - '0' as int
    else if 'A' <= c <= 'F' then c as int - 'A' as int + 10
    else c as int - 'a' as int + 10
  }

  /** The value of a hexadecimal numeral of either case. */
  function HexValue(d: string): nat
    requires forall i :: 0 <= i < |d| ==> IsHex(d[i])
  {
    if d == "" then 0 else HexValue(d[..|d| - 1]) * 16 + HexDigit(d[|d| - 1])
  }

  lemma UnhexIsHexDigit(c: char)
    requires IsHex(c)
    ensures Unhex(c) == HexDigit(c) && c != '\r'
  {
  }

  datatype Chunk = Chunk(size: string, data: string)

  /** A non-empty chunk whose size text is the number of its data bytes. */
  predicate GoodChunk(k: Chunk) {
    && AllHex(k.size) && k.data != "" && HexValue(k.size) == |k.data| < NO_LENGTH
    && |k.size| + 2 <= MAX_HEADER_SIZE
  }

  function Encode(k: Chunk): string { k.size + "\r\n" + k.data + "\r\n" }

  function EncodeAll(ks: seq<Chunk>): string {
    if ks == [] then "" else Encode(ks[0]) + EncodeAll(ks[1..])
  }

  function Payload(ks: seq<Chunk>): string {
    if ks == [] then "" else ks[0].data + Payload(ks[1..])
  }

  /** The end of a chunked body without trailers. */
  predicate LastChunk(size: string) {
    AllHex(size) && HexValue(size) == 0 && |size| + 2 <= MAX_HEADER_SIZE
  }

  predicate AtChunk(c: Config) {
    Running(c) && Inv(c.p) && c.p.state.ChunkSizeStart?
  }

  lemma AtChunkMeans(c: Config)
    requires AtChunk(c)
    ensures Running(c) && c.p.state.ChunkSizeStart? && c.p.flags.chunked && c.p.nread == 0
  {
  }

  lemma FirstSizeByte(p: Parser, ch: char)
    requires p.errno.Ok? && p.state.ChunkSizeStart? && p.flags.chunked && p.nread == 1 && IsHex(ch)
    ensures React(p, ch) == Reaction(p.(contentLength := HexDigit(ch), state := ChunkSize), [], Advance)
  {
    hide HexDigit, IsHex, Unhex;
    UnhexIsHexDigit(ch);
  }

  lemma NextSizeByte(p: Parser, ch: char)
    requires p.errno.Ok? && p.state.ChunkSize? && p.flags.chunked && IsHex(ch)
    requires p.contentLength <= p.contentLength * 16 + HexDigit(ch) < NO_LENGTH
    ensures React(p, ch) ==
      Reaction(p.(contentLength := p.contentLength * 16 + HexDigit(ch)), [], Advance)
  {
    hide HexDigit, IsHex, Unhex, AppendDigit;
    UnhexIsHexDigit(ch);
    AppendExact(p.contentLength, HexDigit(ch), 16);
  }

  /** The size line accumulates the value of its numeral. */
  lemma {:induction false} SizeIsRead(c: Config, d: string)
    requires AtChunk(c) && AllHex(d) && HexValue(d) < NO_LENGTH && |d| <= MAX_HEADER_SIZE
    ensures Run(c, d) == Config(c.p.(state := ChunkSize, contentLength := HexValue(d), nread := |d|),
                                c.trace, c.taken + |d|, false)
  {
    hide React, Step, Inv, IsHex, HexDigit, AtChunk;
    var v, ch := d[..|d| - 1], d[|d| - 1];
    AtChunkMeans(c);
    assert c.trace + [] == c.trace;
    if v == "" {
      assert Run(c, v) == c by { RunEmpty(c); }
      ChunkStartStep(c.p, ch);
    } else {
      SizeIsRead(c, v);
      var q := Run(c, v).p;
      CountedStep(q, ch);
      NextSizeByte(q.(nread := q.nread + 1), ch);
    }
  }

  lemma ChunkStartStep(p: Parser, ch: char)
    requires p.errno.Ok? && p.state.ChunkSizeStart? && p.flags.chunked && p.nread == 0 && IsHex(ch)
    ensures Step(p, ch) ==
      Reaction(p.(contentLength := HexDigit(ch), state := ChunkSize, nread := 1), [], Advance)
  {
    hide React, IsHex, HexDigit;
    CountedStep(p, ch);
    FirstSizeByte(p.(nread := 1), ch);
  }

  /** Any later digit: appended, or refused by the overflow test. */
  lemma AnySizeByte(p: Parser, ch: char)
    requires p.errno.Ok? && p.state.ChunkSize? && p.flags.chunked && IsHex(ch)
    ensures React(p, ch) ==
      match AppendDigit(p.contentLength, HexDigit(ch), 16)
      case None => Fail(p, InvalidContentLength)
      case Some(t) => Reaction(p.(contentLength := t), [], Advance)
  {
    hide HexDigit, IsHex, Unhex, AppendDigit;
    UnhexIsHexDigit(ch);
  }

  /** While digits are read without an error the size stays below the limit. */
  lemma {:induction false} SizeStaysBelow(c: Config, d: string)
    requires AtChunk(c) && AllHex(d) && |d| <= MAX_HEADER_SIZE
    ensures var r := Run(c, d);
      Running(r) ==>
        && r.p.state.ChunkSize? && r.p.flags.chunked && r.p.contentLength < NO_LENGTH && r.p.nread == |d|
  {
    hide React, Step, Inv, IsHex, HexDigit, AtChunk;
    var v, ch := d[..|d| - 1], d[|d| - 1];
    AtChunkMeans(c);
    if v == "" {
      assert Run(c, v) == c by { RunEmpty(c); }
      ChunkStartStep(c.p, ch);
    } else {
      SizeStaysBelow(c, v);
      var q := Run(c, v).p;
      if Running(Run(c, v)) {
        CountedStep(q, ch);
        AnySizeByte(q.(nread := q.nread + 1), ch);
      }
    }
  }

  /** The size read is the value of the numeral exactly when that is below 2^64 - 1. */
  lemma SizeExactlyBelow(c: Config, d: string)
    requires AtChunk(c) && AllHex(d) && |d| <= MAX_HEADER_SIZE
    ensures var r := Run(c, d);
      Running(r) && r.p.contentLength == HexValue(d) <==> HexValue(d) < NO_LENGTH
  {
    hide Run, AtChunk;
    SizeStaysBelow(c, d);
    AtChunkMeans(c);
    if HexValue(d) < NO_LENGTH {
      SizeIsRead(c, d);
    }
  }

  function Pow16(n: nat): nat { if n == 0 then 1 else 16 * Pow16(n - 1) }

  lemma {:induction false} TwelveThen(d: string, n: nat)
    requires |d| == n + 2 && d[0] == '1' && d[1] == '2' && forall i :: 1 < i < |d| ==> d[i] == '0'
    ensures AllHex(d) && HexValue(d) == 18 * Pow16(n)
  {
    if n == 0 {
      assert d[..1] == "1" && "1"[..0] == "";
      assert HexValue("1") == 1;
    } else {
      TwelveThen(d[..n + 1], n - 1);
    }
  }

  /** The overflow test does not catch every larger size either: 12 and fifteen
      zeros, 2^64 + 2^61, is accepted as 2^61. */
  lemma SizeWraps(c: Config)
    requires AtChunk(c)
    ensures var d := "12000000000000000";
      && AllHex(d) && HexValue(d) == 0x1_2000_0000_0000_0000
      && Running(Run(c, d)) && Run(c, d).p.contentLength == 0x2000_0000_0000_0000
  {
    hide React, Feed, Run, HexValue, AllHex, AtChunk, AppendDigit, HexDigit;
    var d := "12000000000000000";
    var e := "1200000000000000";
    WrapNumbers(d, e);
    SizeIsRead(c, e);
    AtChunkMeans(c);
    assert e + ['0'] == d;
    RunLast(c, e, '0');
    var q := Run(c, e);
    var p := q.p.(nread := q.p.nread + 1);
    AnySizeByte(p, '0');
    FeedCounted(q, '0', React(p, '0'));
  }

  lemma WrapNumbers(d: string, e: string)
    requires d == "12000000000000000" && e == "1200000000000000"
    ensures AllHex(d) && HexValue(d) == 0x1_2000_0000_0000_0000
    ensures AllHex(e) && HexValue(e) == 0x1200_0000_0000_0000
    ensures IsHex('0') && AppendDigit(0x1200_0000_0000_0000, HexDigit('0'), 16) == Some(0x2000_0000_0000_0000)
  {
    hide HexValue, AllHex;
    assert Pow16(7) == 0x1000_0000;
    assert Pow16(14) == 0x100_0000_0000_0000;
    TwelveThen(d, 15);
    TwelveThen(e, 14);
  }

  lemma SizeReturn(p: Parser)
    requires p.errno.Ok? && p.state.ChunkSize? && p.flags.chunked
    ensures React(p, '\r') == Reaction(p.(state := ChunkSizeAlmostDone), [], Advance)
  {
    hide AppendDigit;
  }

  lemma SizeNewline(p: Parser)
    requires p.errno.Ok? && p.state.ChunkSizeAlmostDone? && p.flags.chunked
    ensures React(p, '\n') ==
      Reaction(if p.contentLength == 0
               then p.(nread := 0, flags := p.flags.(trailing := true), state := HeaderFieldStart)
               else p.(nread := 0, state := ChunkData), [], Advance)
  {
  }

  /** A size line: the data, or the trailer, comes next. */
  lemma SizeLineIsRead(c: Config, d: string)
    requires AtChunk(c) && AllHex(d) && HexValue(d) < NO_LENGTH && |d| + 2 <= MAX_HEADER_SIZE
    ensures var q := c.p.(contentLength := HexValue(d));
      Run(c, d + "\r\n") ==
        Config(if HexValue(d) == 0 then q.(flags := q.flags.(trailing := true), state := HeaderFieldStart)
               else q.(state := ChunkData),
               c.trace, c.taken + |d| + 2, false)
  {
    hide Run, React, Step, Inv, AllHex, HexValue, AtChunk;
    AtChunkMeans(c);
    RunConcat(c, d, "\r\n");
    SizeIsRead(c, d);
    var a := Run(c, d);
    TwoBytes(a, '\r', '\n');
    CountedStep(a.p, '\r');
    SizeReturn(a.p.(nread := a.p.nread + 1));
    var b := Feed(a, '\r');
    CountedStep(b.p, '\n');
    SizeNewline(b.p.(nread := b.p.nread + 1));
    assert c.trace + [] == c.trace;
  }

  lemma DataReturn(p: Parser)
    requires p.errno.Ok? && p.state.ChunkDataAlmostDone? && p.flags.chunked && p.contentLength == 0
    ensures Step(p, '\r') == Reaction(p.(state := ChunkDataDone), [], Advance)
  {
  }

  lemma DataNewline(p: Parser)
    requires p.errno.Ok? && p.state.ChunkDataDone? && p.flags.chunked
    ensures Step(p, '\n') == Reaction(p.(nread := 0, state := ChunkSizeStart), [], Advance)
  {
  }

  /** The data of a chunk and its line end. */
  lemma DataIsRead(c: Config, data: string)
    requires Running(c) && Inv(c.p) && c.p.state.ChunkData? && c.p.contentLength == |data| > 0
    ensures Run(c, data + "\r\n") ==
      Config(c.p.(contentLength := 0, nread := 0, state := ChunkSizeStart),
             c.trace + Bytes(Body, data), c.taken + |data| + 2, false)
  {
    hide Run, React, Step, Inv, Bytes;
    LengthIsPending(c.p);
    RunConcat(c, data, "\r\n");
    ChunkBytesAreRead(c, data);
    var a := Run(c, data);
    TwoBytes(a, '\r', '\n');
    DataReturn(a.p);
    DataNewline(Feed(a, '\r').p);
    assert a.trace + [] == a.trace;
  }

  lemma ChunkBytesAreRead(c: Config, data: string)
    requires Running(c) && Inv(c.p) && c.p.state.ChunkData? && c.p.contentLength == |data| > 0
    ensures Run(c, data) == Config(c.p.(contentLength := 0, state := ChunkDataAlmostDone),
                                   c.trace + Bytes(Body, data), c.taken + |data|, false)
  {
    hide Step, Inv;
    LengthIsPending(c.p);
    var s, ch := data[..|data| - 1], data[|data| - 1];
    JumpIsRun(c, s);
    LastChunkByte(Run(c, s).p, ch);
    BytesSnoc(Body, s, ch);
    assert data == s + [ch];
    assert (c.trace + Bytes(Body, s)) + [Data(Body, ch)] == c.trace + Bytes(Body, data);
  }

  /** One chunk: its data is delivered and the next chunk is expected. */
  lemma ChunkIsRead(c: Config, k: Chunk)
    requires AtChunk(c) && GoodChunk(k)
    ensures var r := Run(c, Encode(k));
      && AtChunk(r) && r.trace == c.trace + Bytes(Body, k.data) && r.taken == c.taken + |Encode(k)|
      && r.p == c.p.(contentLength := 0)
  {
    hide Run, Inv, HexValue, AllHex, Bytes;
    var sizeLine, dataLine := k.size + "\r\n", k.data + "\r\n";
    assert Encode(k) == sizeLine + dataLine;
    RunConcat(c, sizeLine, dataLine);
    SizeLineIsRead(c, k.size);
    InvSettled(c.p);
    RunKeepsInv(c, sizeLine);
    var a := Run(c, sizeLine);
    DataIsRead(a, k.data);
    InvSettled(a.p);
    RunKeepsInv(a, dataLine);
    AtChunkMeans(c);
  }

  lemma {:induction false} ChunksAreRead(c: Config, ks: seq<Chunk>)
    requires AtChunk(c) && forall i :: 0 <= i < |ks| ==> GoodChunk(ks[i])
    ensures var r := Run(c, EncodeAll(ks));
      && AtChunk(r) && r.trace == c.trace + Bytes(Body, Payload(ks)) && r.taken == c.taken + |EncodeAll(ks)|
      && r.p == c.p.(contentLength := r.p.contentLength)
    decreases |ks|
  {
    hide Run, AtChunk, GoodChunk, Encode, Bytes;
    if ks == [] {
      RunEmpty(c);
      NoBytes(c.trace);
    } else {
      ChunkIsRead(c, ks[0]);
      var a := Run(c, Encode(ks[0]));
      ChunksAreRead(a, ks[1..]);
      RunConcat(c, Encode(ks[0]), EncodeAll(ks[1..]));
      BytesConcat(Body, ks[0].data, Payload(ks[1..]));
      assert (c.trace + Bytes(Body, ks[0].data)) + Bytes(Body, Payload(ks[1..]))
        == c.trace + Bytes(Body, Payload(ks));
    }
  }

  lemma NoBytes(trace: seq<Event>)
    ensures trace + Bytes(Body, "") == trace
  {
  }

  lemma TrailerNewline(p: Parser)
    requires p.errno.Ok? && p.state.HeadersAlmostDone? && p.flags.trailing
    ensures React(p, '\n') == Reaction(p.(state := NewMessage(p)), [Notify(MessageComplete)], Advance)
  {
    hide NewMessage, MessageNeedsEof;
  }

  /** After a chunked body: the message is complete and its data delivered. */
  predicate ChunksTaken(c: Config, data: string, n: nat, r: Config) {
    r == Config(c.p.(state := NewMessage(c.p), contentLength := 0, nread := 2, flags := c.p.flags.(trailing := true)),
                c.trace + Bytes(Body, data) + [Notify(MessageComplete)], c.taken + n, false)
  }

  /** Behind chunks a new message starts as before them. */
  lemma NewMessageAfterChunks(p: Parser, s: State, length: nat, n: nat, trailing: bool)
    requires p.flags.chunked
    ensures NewMessage(p.(state := s, contentLength := length, nread := n, flags := p.flags.(trailing := trailing)))
         == NewMessage(p)
  {
  }

  /** The zero chunk and the blank line complete the message. */
  lemma LastChunkIsRead(c: Config, size: string)
    requires AtChunk(c) && LastChunk(size)
    ensures ChunksTaken(c, "", |size| + 4, Run(c, size + "\r\n" + "\r\n"))
  {
    hide Run, React, Step, Inv, AllHex, HexValue, AtChunk, NewMessage;
    RunConcat(c, size + "\r\n", "\r\n");
    SizeLineIsRead(c, size);
    AtChunkMeans(c);
    var a := Run(c, size + "\r\n");
    TwoBytes(a, '\r', '\n');
    CountedStep(a.p, '\r');
    FieldReturn(a.p.(nread := a.p.nread + 1));
    var b := Feed(a, '\r');
    CountedStep(b.p, '\n');
    TrailerNewline(b.p.(nread := b.p.nread + 1));
    NewMessageAfterChunks(c.p, HeadersAlmostDone, 0, 2, true);
    NoBytes(c.trace);
    assert c.trace + [] == c.trace;
  }

  /** Decoding inverts encoding: any chunks, closed by a zero chunk, deliver
      exactly their data and exactly one end of message. */
  lemma ChunkedBodyIsDecoded(c: Config, ks: seq<Chunk>, last: string)
    requires AtChunk(c) && LastChunk(last) && forall i :: 0 <= i < |ks| ==> GoodChunk(ks[i])
    ensures var body := EncodeAll(ks) + (last + "\r\n" + "\r\n");
      ChunksTaken(c, Payload(ks), |body|, Run(c, body))
  {
    hide Run, AtChunk, GoodChunk, LastChunk, Bytes, NewMessage;
    ChunksAreRead(c, ks);
    var a := Run(c, EncodeAll(ks));
    LastChunkIsRead(a, last);
    RunConcat(c, EncodeAll(ks), last + "\r\n" + "\r\n");
    AtChunkMeans(c);
    NoBytes(a.trace);
    NewMessageAfterChunks(c.p, c.p.state, a.p.contentLength, c.p.nread, c.p.flags.trailing);
  }
}
