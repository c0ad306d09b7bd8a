// Whole messages, told from their text alone: start line, header lines and body,
// one after another, and cut into any non-empty pieces.
module HttpMessages {
  import opened Decimal
  import opened HttpTypes
  import opened HttpStep
  import opened HttpInvariant
  import opened HttpExecute
  import opened HttpMethodToken
  import opened HttpFraming
  import opened HttpLines
  import opened HttpChunks
  import S = HttpStartLines

  // ------------------------------------------------------------------ bodies

  // What follows the empty line: nothing, a body of the announced length, chunks
  // closed by a zero chunk, or bytes up to the end of the connection.
  datatype Content = Nothing | Fixed(body: string) | Pieces(ks: seq<Chunk>, last: string) | Endless(body: string)

  function ContentWire(x: Content): string {
    match x
    case Nothing => ""
    case Fixed(body) => body
    case Pieces(ks, last) => EncodeAll(ks) + (last + "\r\n" + "\r\n")
    case Endless(body) => body
  }

  function ContentEvents(x: Content): seq<Event> {
    match x
    case Nothing => [Notify(MessageComplete)]
    case Fixed(body) => Bytes(Body, body) + [Notify(MessageComplete)]
    case Pieces(ks, _) => Bytes(Body, Payload(ks)) + [Notify(MessageComplete)]
    case Endless(body) => Bytes(Body, body)
  }

  /** The content that a framing asks for, with announced length `n`. */
  predicate ContentFits(f: Framing, n: nat, x: Content) {
    match f
    case UpgradeNow => x.Nothing?
    case NoBody => x.Nothing?
    case ByLength => x.Fixed? && |x.body| == n
    case ByChunks => x.Pieces? && LastChunk(x.last) && forall i :: 0 <= i < |x.ks| ==> GoodChunk(x.ks[i])
    case UntilEof => x.Endless?
  }

  /** After the empty line and the content. */
  predicate ContentTaken(c: Config, x: Content, r: Config) {
    var up := FramingOf(c.p).UpgradeNow?;
    r == Config(c.p.(state := if x.Endless? then BodyIdentityEof else NewMessage(c.p),
                     nread := if x.Pieces? then 2 else 0, upgrade := up,
                     contentLength := if x.Fixed? || x.Pieces? then 0 else c.p.contentLength,
                     flags := if x.Pieces? then c.p.flags.(trailing := true) else c.p.flags),
                c.trace + ([Notify(HeadersComplete)] + ContentEvents(x)), c.taken + 2 + |ContentWire(x)|, up)
  }

  /** The empty line alone, with the parser at the start of the content. */
  lemma BodyBegins(c: Config)
    requires AtLine(c, 2) && InHead(c.p)
    ensures
      var a := Run(c, "\r\n");
      && a == Config(AfterHead(c.p), c.trace + ([Notify(HeadersComplete)] + EndOf(FramingOf(c.p))), c.taken + 2,
                     FramingOf(c.p).UpgradeNow?)
      && (Running(a) ==> Inv(a.p))
  {
    hide Run, Inv, AfterHead, FramingOf, EndOf;
    BlankLine(c);
    InvSettled(c.p);
    RunKeepsInv(c, "\r\n");
  }

  lemma NothingIsRead(c: Config)
    requires AtLine(c, 2) && InHead(c.p) && Bodiless(FramingOf(c.p))
    ensures ContentTaken(c, Nothing, Run(c, "\r\n"))
  {
    hide Run, Inv, NewMessage, MessageNeedsEof;
    BodyBegins(c);
  }

  /** The parser at the start of a body. */
  predicate BodyStarts(c: Config, s: State, a: Config) {
    a == Config(c.p.(nread := 0, upgrade := false, state := s), c.trace + [Notify(HeadersComplete)], c.taken + 2, false)
  }

  lemma BodyFollows(c: Config)
    requires AtLine(c, 2) && InHead(c.p) && !Bodiless(FramingOf(c.p))
    ensures
      var a := Run(c, "\r\n");
      && BodyStarts(c, AfterHead(c.p).state, a) && Inv(a.p)
      && AfterHead(c.p).state == (match FramingOf(c.p) case ByLength => BodyIdentity case ByChunks => ChunkSizeStart
                                                       case _ => BodyIdentityEof)
  {
    hide Run, Inv, NewMessage, FramingOf;
    BodyBegins(c);
  }

  lemma FixedIsRead(c: Config, body: string)
    requires AtLine(c, 2) && InHead(c.p) && FramingOf(c.p).ByLength? && c.p.contentLength == |body|
    ensures ContentTaken(c, Fixed(body), Run(Run(c, "\r\n"), body))
  {
    hide Run, Inv, NewMessage, AfterHead, Bytes, ContentTaken, BodyStarts, InHead;
    BodyFollows(c);
    LengthSays(c.p);
    var a := Run(c, "\r\n");
    StartsMeans(c, BodyIdentity, a);
    BodyIsRead(a, body);
    FixedJoins(c, body, a, Run(a, body));
  }

  lemma StartsMeans(c: Config, s: State, a: Config)
    requires Running(c) && BodyStarts(c, s, a)
    ensures Running(a) && a.p.state == s && a.p.contentLength == c.p.contentLength
  {
  }

  lemma FixedJoins(c: Config, body: string, a: Config, r: Config)
    requires FramingOf(c.p).ByLength? && BodyStarts(c, BodyIdentity, a)
    requires var q := a.p.(contentLength := 0);
      r == Config(q.(state := NewMessage(q)), a.trace + Bytes(Body, body) + [Notify(MessageComplete)],
                  a.taken + |body|, false)
    ensures ContentTaken(c, Fixed(body), r)
  {
    LengthSays(c.p);
    hide NewMessage, FramingOf, Bytes;
    assert c.trace + [Notify(HeadersComplete)] + Bytes(Body, body) + [Notify(MessageComplete)]
      == c.trace + ([Notify(HeadersComplete)] + ContentEvents(Fixed(body)));
  }

  lemma LengthSays(p: Parser)
    requires FramingOf(p).ByLength?
    ensures p.contentLength > 0
    ensures NewMessage(p.(contentLength := 0, nread := 0, upgrade := false, state := BodyIdentity)) == NewMessage(p)
  {
  }

  lemma PiecesAreRead(c: Config, ks: seq<Chunk>, last: string)
    requires AtLine(c, 2) && InHead(c.p) && FramingOf(c.p).ByChunks?
    requires LastChunk(last) && forall i :: 0 <= i < |ks| ==> GoodChunk(ks[i])
    ensures ContentTaken(c, Pieces(ks, last), Run(Run(c, "\r\n"), ContentWire(Pieces(ks, last))))
  {
    hide Run, Inv, NewMessage, AfterHead, Bytes, GoodChunk, LastChunk;
    BodyFollows(c);
    NewMessageAnywhere(c.p, ChunkSizeStart);
    hide FramingOf, InHead, AtLine;
    var a := Run(c, "\r\n");
    ChunkedBodyIsDecoded(a, ks, last);
    assert c.trace + [Notify(HeadersComplete)] + Bytes(Body, Payload(ks)) + [Notify(MessageComplete)]
      == c.trace + ([Notify(HeadersComplete)] + ContentEvents(Pieces(ks, last)));
  }

  lemma NewMessageAnywhere(p: Parser, s: State)
    ensures NewMessage(p.(nread := 0, upgrade := false, state := s)) == NewMessage(p)
  {
  }

  lemma EndlessIsRead(c: Config, body: string)
    requires AtLine(c, 2) && InHead(c.p) && FramingOf(c.p).UntilEof?
    ensures ContentTaken(c, Endless(body), Run(Run(c, "\r\n"), body))
  {
    hide Run, Inv, NewMessage, AfterHead, Bytes;
    BodyFollows(c);
    hide FramingOf, InHead, AtLine;
    var a := Run(c, "\r\n");
    EndlessBodyIsRead(a, body);
    assert c.trace + [Notify(HeadersComplete)] + Bytes(Body, body)
      == c.trace + ([Notify(HeadersComplete)] + ContentEvents(Endless(body)));
  }

  /** The empty line and any content that the framing asks for. */
  lemma ContentIsRead(c: Config, x: Content)
    requires AtLine(c, 2) && InHead(c.p) && ContentFits(FramingOf(c.p), c.p.contentLength, x)
    ensures ContentTaken(c, x, Run(c, "\r\n" + ContentWire(x)))
  {
    hide Run, Inv, FramingOf, InHead, GoodChunk, LastChunk, ContentTaken;
    RunConcat(c, "\r\n", ContentWire(x));
    match x {
      case Nothing =>
        RunEmpty(Run(c, "\r\n"));
        NothingIsRead(c);
      case Fixed(body) => FixedIsRead(c, body);
      case Pieces(ks, last) => PiecesAreRead(c, ks, last);
      case Endless(body) => EndlessIsRead(c, body);
    }
  }

  // ---------------------------------------------------------------- sections

  lemma {:induction false} NoOtherFlags(f: Flags, ls: seq<Line>)
    requires GoodLines(ls)
    ensures FlagsOf(f, ls).trailing == f.trailing && FlagsOf(f, ls).skipBody == f.skipBody
    decreases |ls|
  {
    if ls != [] {
      GoodMeans(ls[0]);
      LineSetsFlags(f, ls[0]);
      hide LineFlags, GoodLine;
      NoOtherFlags(LineFlags(f, ls[0]), ls[1..]);
    }
  }

  /** A header section with its content. */
  function SectionWire(ls: seq<Line>, x: Content): string {
    WireAll(ls) + ("\r\n" + ContentWire(x))
  }

  function SectionEvents(ls: seq<Line>, x: Content): seq<Event> {
    EventsOf(ls) + ([Notify(HeadersComplete)] + ContentEvents(x))
  }

  /** The parser once the lines of a section are read. */
  function Informed(p: Parser, ls: seq<Line>): Parser
    requires GoodLines(ls)
  {
    p.(flags := FlagsOf(p.flags, ls), contentLength := LengthOf(p.contentLength, ls))
  }

  /** After a section: its events, and a parser that is between messages, in an
      endless body, or has left for another protocol. */
  predicate SectionTaken(c: Config, ls: seq<Line>, x: Content, r: Config)
    requires GoodLines(ls)
  {
    var q := Informed(c.p, ls);
    && r.p.errno.Ok? && r.left == FramingOf(q).UpgradeNow? == r.p.upgrade
    && r.p.state == (if x.Endless? then BodyIdentityEof else NewMessage(q))
    && r.p.nread <= 2
    && r.p.ptype == c.p.ptype && r.p.verb == c.p.verb && r.p.statusCode == c.p.statusCode
    && r.p.httpMajor == c.p.httpMajor && r.p.httpMinor == c.p.httpMinor
    && r.trace == c.trace + SectionEvents(ls, x) && r.taken == c.taken + |SectionWire(ls, x)|
  }

  /** Framing and keep-alive do not look at where the parser stands. */
  lemma StandsAnywhere(p: Parser, q: Parser)
    requires q == p.(state := q.state, index := q.index, headerState := q.headerState, nread := q.nread)
    ensures NewMessage(q) == NewMessage(p) && FramingOf(q) == FramingOf(p)
  {
  }

  lemma SectionIsRead(c: Config, ls: seq<Line>, x: Content)
    requires GoodLines(ls) && AtLine(c, |WireAll(ls)| + 2) && InHead(c.p)
    requires var q := Informed(c.p, ls); ContentFits(FramingOf(q), q.contentLength, x)
    ensures SectionTaken(c, ls, x, Run(c, SectionWire(ls, x)))
  {
    hide Run, Inv, FramingOf, NewMessage, GoodLine, FlagsOf, LengthOf, EventsOf, ContentFits, ContentEvents, ContentWire;
    LinesAreRead(c, ls);
    RunConcat(c, WireAll(ls), "\r\n" + ContentWire(x));
    var a := Run(c, WireAll(ls));
    SectionKeepsInv(c, ls);
    NoOtherFlags(c.p.flags, ls);
    StandsAnywhere(Informed(c.p, ls), a.p);
    ContentIsRead(a, x);
    assert c.trace + EventsOf(ls) + ([Notify(HeadersComplete)] + ContentEvents(x)) == c.trace + SectionEvents(ls, x);
  }

  lemma SectionKeepsInv(c: Config, ls: seq<Line>)
    requires GoodLines(ls) && AtLine(c, |WireAll(ls)|) && LinesTaken(c, ls, Run(c, WireAll(ls)))
    ensures Running(Run(c, WireAll(ls))) && Inv(Run(c, WireAll(ls)).p)
  {
    hide Run, Inv, GoodLine, FlagsOf, LengthOf, EventsOf;
    InvSettled(c.p);
    RunKeepsInv(c, WireAll(ls));
  }

  // ---------------------------------------------------------------- requests

  datatype Request = Request(line: S.RequestLine, lines: seq<Line>, content: Content)

  function RequestWire(r: Request): string {
    r.line.Wire() + SectionWire(r.lines, r.content)
  }

  function RequestEvents(r: Request): seq<Event> {
    [Notify(MessageBegin)] + Bytes(Url, r.line.target) + SectionEvents(r.lines, r.content)
  }

  predicate GoodRequestLine(r: Request) { r.line.Good() && r.line.Accepted() }

  /** How a request goes on behind its headers, told from its method and lines. */
  function RequestFraming(r: Request): Framing
    requires GoodLines(r.lines)
  {
    var f, n := FlagsOf(NO_FLAGS, r.lines), LengthOf(NO_LENGTH, r.lines);
    if f.upgrade || r.line.verb.CONNECT? then UpgradeNow
    else if f.chunked then ByChunks
    else if n == 0 || n == NO_LENGTH then NoBody
    else ByLength
  }

  /** HTTP/1.1 keeps the connection unless told to close it, HTTP/1.0 only if told
      to keep it. */
  predicate KeepsAlive(r: Request)
    requires GoodLines(r.lines) && GoodRequestLine(r)
  {
    var f := FlagsOf(NO_FLAGS, r.lines);
    if r.line.version.Major() > 0 && r.line.version.Minor() > 0 then !f.close else f.keepAlive
  }

  predicate GoodRequest(r: Request) {
    && GoodRequestLine(r) && GoodLines(r.lines)
    && ContentFits(RequestFraming(r), LengthOf(NO_LENGTH, r.lines), r.content)
  }

  /** The bytes counted against the header limit. */
  function HeadSize(r: Request): nat {
    |r.line.Wire()| + |WireAll(r.lines)| + 2
  }

  /** A parser for requests, or for both kinds of messages, before a request, with
      room for a head of `n` bytes. */
  predicate Ready(c: Config, n: nat) {
    && Running(c) && Inv(c.p) && c.p.nread + n <= MAX_HEADER_SIZE
    && ((c.p.state.StartReq? && c.p.ptype.HttpRequest?) || c.p.state.StartReqOrRes?)
  }

  /** After a request: exactly its events, every byte of it taken and no more, and
      a parser for the next request, or dead, as the keep-alive rule says. */
  predicate RequestTaken(c: Config, r: Request, d: Config)
    requires GoodRequest(r)
  {
    && d.p.errno.Ok? && d.left == RequestFraming(r).UpgradeNow? == d.p.upgrade
    && d.trace == c.trace + RequestEvents(r) && d.taken == c.taken + |RequestWire(r)|
    && d.p.verb == r.line.verb && d.p.httpMajor == r.line.version.Major() && d.p.httpMinor == r.line.version.Minor()
    && d.p.state == (if KeepsAlive(r) then StartReq else Dead)
    && d.p.ptype.HttpRequest? && d.p.nread <= 2
  }

  lemma RequestLineRead(c: Config, r: Request)
    requires GoodRequestLine(r) && Ready(c, |r.line.Wire()|)
    ensures var d := Run(c, r.line.Wire()); S.RequestLineTaken(c, r.line, d) && Inv(d.p)
  {
    hide Run, Inv, S.RequestLineTaken;
    S.RequestLineIsRead(c, r.line);
    InvSettled(c.p);
    RunKeepsInv(c, r.line.Wire());
    TakenRuns(c, r.line, Run(c, r.line.Wire()));
  }

  lemma TakenRuns(c: Config, l: S.RequestLine, d: Config)
    requires Running(c) && l.Good() && S.RequestLineTaken(c, l, d)
    ensures Running(d) && AtLineStart(d.p.state)
    ensures d.p.nread == c.p.nread + |l.Wire()| && d.taken == c.taken + |l.Wire()|
    ensures d.p.flags == NO_FLAGS && d.p.contentLength == NO_LENGTH && d.p.ptype == AsRequest(c).p.ptype
    ensures d.p.verb == l.verb && d.p.httpMajor == l.version.Major() && d.p.httpMinor == l.version.Minor()
    ensures d.trace == c.trace + [Notify(MessageBegin)] + Bytes(Url, l.target)
  {
    hide Bytes, MethodString, DecValue;
  }

  /** What the parser holds after the lines decides as the text does. */
  lemma RequestDecides(c: Config, r: Request, d: Config)
    requires GoodRequest(r) && AsRequest(c).p.ptype.HttpRequest? && Running(c) && S.RequestLineTaken(c, r.line, d)
    ensures
      var q := Informed(d.p, r.lines);
      && FramingOf(q) == RequestFraming(r) && q.contentLength == LengthOf(NO_LENGTH, r.lines)
      && NewMessage(q) == (if KeepsAlive(r) then StartReq else Dead)
      && InHead(d.p) && !r.content.Endless?
  {
    NeverEndless(r);
    TakenRuns(c, r.line, d);
    hide S.RequestLineTaken, FlagsOf, LengthOf, GoodLines, ContentFits, DecValue, Bytes, MethodString;
  }

  lemma NeverEndless(r: Request)
    requires GoodRequest(r)
    ensures !r.content.Endless?
  {
    hide FlagsOf, LengthOf, GoodLines, GoodRequestLine;
  }

  /** A whole request, from its text alone. */
  lemma RequestIsRead(c: Config, r: Request)
    requires GoodRequest(r) && Ready(c, HeadSize(r))
    ensures RequestTaken(c, r, Run(c, RequestWire(r)))
  {
    hide Run, Inv, DecValue, FlagsOf, LengthOf, GoodLines, ContentFits, FramingOf, RequestFraming, KeepsAlive,
      NewMessage, Informed, SectionEvents, SectionWire, Bytes, MethodString, S.RequestLineTaken, RequestTaken;
    var d := Run(c, r.line.Wire());
    RequestLineRead(c, r);
    TakenRuns(c, r.line, d);
    RequestDecides(c, r, d);
    SectionIsRead(d, r.lines, r.content);
    RunConcat(c, r.line.Wire(), SectionWire(r.lines, r.content));
    RequestJoins(c, r, d, Run(c, RequestWire(r)));
  }

  lemma RequestJoins(c: Config, r: Request, d: Config, e: Config)
    requires GoodRequest(r) && AsRequest(c).p.ptype.HttpRequest? && Running(c) && S.RequestLineTaken(c, r.line, d)
    requires SectionTaken(d, r.lines, r.content, e)
    ensures RequestTaken(c, r, e)
  {
    hide S.RequestLineTaken, S.RequestLine.Wire, S.RequestLine.Good, S.RequestLine.Accepted, S.Version.Good,
      S.Version.Major, S.Version.Minor, FlagsOf, LengthOf, GoodLines, ContentFits, FramingOf, RequestFraming, KeepsAlive,
      NewMessage, Informed, SectionEvents, SectionWire, Bytes, MethodString;
    TakenRuns(c, r.line, d);
    RequestDecides(c, r, d);
    Regrouped(c.trace, [Notify(MessageBegin)], Bytes(Url, r.line.target), SectionEvents(r.lines, r.content));
  }

  lemma Regrouped(a: seq<Event>, b: seq<Event>, d: seq<Event>, e: seq<Event>)
    ensures a + b + d + e == a + (b + d + e)
  {
  }

  // ------------------------------------------------------ requests in a row

  function WireOfAll(rs: seq<Request>): string {
    if rs == [] then "" else RequestWire(rs[0]) + WireOfAll(rs[1..])
  }

  function EventsOfAll(rs: seq<Request>): seq<Event> {
    if rs == [] then [] else RequestEvents(rs[0]) + EventsOfAll(rs[1..])
  }

  /** Requests of which all but the last keep the connection, and the first two
      bytes of whose room may be taken by the end of a chunked body. */
  predicate Pipeline(rs: seq<Request>) {
    forall i :: 0 <= i < |rs| ==>
      && GoodRequest(rs[i]) && HeadSize(rs[i]) + 2 <= MAX_HEADER_SIZE
      && (i < |rs| - 1 ==> KeepsAlive(rs[i]) && !RequestFraming(rs[i]).UpgradeNow?)
  }

  lemma PipelineRest(rs: seq<Request>)
    requires Pipeline(rs) && rs != []
    ensures Pipeline(rs[1..]) && GoodRequest(rs[0]) && HeadSize(rs[0]) + 2 <= MAX_HEADER_SIZE
    ensures |rs| > 1 ==> KeepsAlive(rs[0]) && !RequestFraming(rs[0]).UpgradeNow?
  {
    hide GoodRequest, HeadSize, KeepsAlive, RequestFraming;
    assert forall i :: 0 <= i < |rs[1..]| ==> rs[1..][i] == rs[i + 1];
  }

  /** After requests in a row: the events of each, in order, and the end of the last. */
  predicate AllTaken(c: Config, rs: seq<Request>, d: Config)
    requires Pipeline(rs)
  {
    && d.p.errno.Ok? && d.trace == c.trace + EventsOfAll(rs) && d.taken == c.taken + |WireOfAll(rs)|
    && (rs != [] ==>
          var r := rs[|rs| - 1];
          && GoodRequest(r)
          && d.left == RequestFraming(r).UpgradeNow? && d.p.state == (if KeepsAlive(r) then StartReq else Dead))
    && (rs == [] ==> d == c)
  }

  lemma TakenIsReady(c: Config, r: Request, d: Config)
    requires GoodRequest(r) && KeepsAlive(r) && !RequestFraming(r).UpgradeNow? && RequestTaken(c, r, d) && Settled(d.p)
    ensures Ready(d, MAX_HEADER_SIZE - 2)
  {
    hide Inv, GoodRequest, KeepsAlive, RequestFraming, RequestEvents, RequestWire;
  }

  lemma AllJoin(c: Config, rs: seq<Request>, a: Config, d: Config)
    requires Pipeline(rs) && rs != [] && Pipeline(rs[1..]) && GoodRequest(rs[0])
    requires RequestTaken(c, rs[0], a) && AllTaken(a, rs[1..], d)
    ensures AllTaken(c, rs, d)
  {
    hide GoodRequest, KeepsAlive, RequestFraming, RequestEvents, RequestWire, Pipeline;
    assert c.trace + RequestEvents(rs[0]) + EventsOfAll(rs[1..]) == c.trace + EventsOfAll(rs);
    if |rs| > 1 {
      assert rs[1..][|rs| - 2] == rs[|rs| - 1];
    }
  }

  /** Pipelined requests are read one by one, each to its own last byte. */
  lemma {:induction false} PipelineIsRead(c: Config, rs: seq<Request>)
    requires Pipeline(rs) && Ready(c, MAX_HEADER_SIZE - 2)
    ensures AllTaken(c, rs, Run(c, WireOfAll(rs)))
    decreases |rs|
  {
    hide Run, Inv, Pipeline, GoodRequest, KeepsAlive, RequestFraming, RequestEvents, RequestWire, AllTaken,
      RequestTaken, HeadSize;
    if rs == [] {
      RunEmpty(c);
      NoRequests(c);
    } else {
      PipelineRest(rs);
      RequestIsRead(c, rs[0]);
      var a := Run(c, RequestWire(rs[0]));
      RunConcat(c, RequestWire(rs[0]), WireOfAll(rs[1..]));
      if |rs| > 1 {
        InvSettled(c.p);
        RunKeepsInv(c, RequestWire(rs[0]));
        TakenIsReady(c, rs[0], a);
        PipelineIsRead(a, rs[1..]);
      } else {
        RunEmpty(a);
        TakenIsOk(c, rs[0], a);
      }
      AllJoin(c, rs, a, Run(a, WireOfAll(rs[1..])));
    }
  }

  lemma NoRequests(c: Config)
    requires Running(c)
    ensures AllTaken(c, [], c)
  {
    assert c.trace + [] == c.trace;
  }

  lemma TakenIsOk(c: Config, r: Request, d: Config)
    requires GoodRequest(r) && RequestTaken(c, r, d)
    ensures AllTaken(d, [], d)
  {
    hide GoodRequest, KeepsAlive, RequestFraming, RequestEvents, RequestWire;
    assert d.trace + [] == d.trace;
  }

  /** Behind a request that closes the connection no further message is taken. */
  lemma NothingAfterClose(c: Config, r: Request, more: string)
    requires GoodRequest(r) && Ready(c, HeadSize(r)) && !KeepsAlive(r) && !RequestFraming(r).UpgradeNow?
    requires more != "" && !IsLineEnd(more[0])
    ensures var d := Run(c, RequestWire(r) + more); d.p.errno.ClosedConnection? && d.trace == c.trace + RequestEvents(r)
  {
    hide Run, Inv, GoodRequest, KeepsAlive, RequestFraming, RequestEvents, RequestWire, HeadSize, IsLineEnd;
    RequestIsRead(c, r);
    var d := Run(c, RequestWire(r));
    RunConcat(c, RequestWire(r), more);
    RunCons(d, more);
    DeadByte(d, more[0]);
    RunHalted(Feed(d, more[0]), more[1..]);
  }

  lemma DeadByte(d: Config, ch: char)
    requires Running(d) && d.p.state.Dead? && d.p.nread <= 2 && !IsLineEnd(ch)
    ensures Feed(d, ch).p.errno.ClosedConnection? && Feed(d, ch).trace == d.trace
  {
    var p := d.p.(nread := d.p.nread + 1);
    assert Handle(p, ch) == StartByte(p, ch);
    assert React(p, ch) == Fail(p, ClosedConnection);
    assert d.trace + [] == d.trace;
    hide Handle, StartByte;
  }

  /** Behind an upgrade the parser has left: it takes no byte of what follows. */
  lemma NothingAfterUpgrade(c: Config, r: Request, more: string)
    requires GoodRequest(r) && Ready(c, HeadSize(r)) && RequestFraming(r).UpgradeNow?
    ensures RequestTaken(c, r, Run(c, RequestWire(r) + more))
  {
    hide Run, Inv, GoodRequest, KeepsAlive, RequestFraming, RequestEvents, RequestWire, HeadSize;
    RequestIsRead(c, r);
    RunConcat(c, RequestWire(r), more);
    RunHalted(Run(c, RequestWire(r)), more);
  }

  // --------------------------------------------------------------- responses

  datatype Response = Response(line: S.StatusLine, lines: seq<Line>, content: Content)

  predicate GoodStatusLine(r: Response) { r.line.Good() && r.line.Accepted() }

  /** No length and no chunks, and a code that may have a body. */
  predicate OpenEnded(r: Response)
    requires GoodStatusLine(r) && GoodLines(r.lines)
  {
    var code := DecValue(r.line.code);
    && !FlagsOf(NO_FLAGS, r.lines).chunked && LengthOf(NO_LENGTH, r.lines) == NO_LENGTH
    && code / 100 != 1 && code != 204 && code != 304
  }

  function ResponseFraming(r: Response): Framing
    requires GoodStatusLine(r) && GoodLines(r.lines)
  {
    var f, n := FlagsOf(NO_FLAGS, r.lines), LengthOf(NO_LENGTH, r.lines);
    if f.upgrade then UpgradeNow
    else if f.chunked then ByChunks
    else if n == 0 then NoBody
    else if n != NO_LENGTH then ByLength
    else if OpenEnded(r) then UntilEof
    else NoBody
  }

  predicate ResponseKeepsAlive(r: Response)
    requires GoodStatusLine(r) && GoodLines(r.lines)
  {
    var f := FlagsOf(NO_FLAGS, r.lines);
    && (if DecValue(r.line.major) > 0 && DecValue(r.line.minor) > 0 then !f.close else f.keepAlive)
    && !OpenEnded(r)
  }

  predicate GoodResponse(r: Response) {
    && GoodStatusLine(r) && GoodLines(r.lines)
    && ContentFits(ResponseFraming(r), LengthOf(NO_LENGTH, r.lines), r.content)
  }

  function ResponseWire(r: Response): string { r.line.Wire() + SectionWire(r.lines, r.content) }

  function ResponseEvents(r: Response): seq<Event> {
    [Notify(MessageBegin)] + S.StatusEnd(r.line.crlf) + SectionEvents(r.lines, r.content)
  }

  /** A parser for responses, or for both kinds of messages, before a response, with
      room for a head of `n` bytes. Its method is the one that it was made with. */
  predicate ReadyForResponse(c: Config, n: nat) {
    && Running(c) && Inv(c.p) && !c.p.verb.CONNECT?
    && ((c.p.state.StartRes? && c.p.ptype.HttpResponse?) || c.p.state.StartReqOrRes?)
    && c.p.nread + n <= MAX_HEADER_SIZE
  }

  predicate ResponseTaken(c: Config, r: Response, d: Config)
    requires GoodResponse(r)
  {
    && d.p.errno.Ok? && d.left == ResponseFraming(r).UpgradeNow? == d.p.upgrade
    && d.trace == c.trace + ResponseEvents(r) && d.taken == c.taken + |ResponseWire(r)|
    && d.p.httpMajor == DecValue(r.line.major) && d.p.httpMinor == DecValue(r.line.minor)
    && d.p.statusCode == DecValue(r.line.code)
    && d.p.state == (if ResponseFraming(r).UntilEof? then BodyIdentityEof
                     else if ResponseKeepsAlive(r) then StartRes else Dead)
  }

  lemma StatusLineRead(c: Config, r: Response)
    requires GoodStatusLine(r) && ReadyForResponse(c, |r.line.Wire()|)
    ensures var d := Run(c, r.line.Wire()); S.StatusLineTaken(c, r.line, d) && Inv(d.p)
  {
    hide Run, Inv, S.StatusLineTaken;
    S.StatusLineIsRead(c, r.line);
    InvSettled(c.p);
    RunKeepsInv(c, r.line.Wire());
    StatusRuns(c, r.line, Run(c, r.line.Wire()));
  }

  lemma StatusRuns(c: Config, l: S.StatusLine, d: Config)
    requires Running(c) && l.Good() && S.StatusLineTaken(c, l, d)
    ensures Running(d) && AtLineStart(d.p.state)
    ensures d.p.nread == c.p.nread + |l.Wire()| && d.taken == c.taken + |l.Wire()|
    ensures d.p.flags == NO_FLAGS && d.p.contentLength == NO_LENGTH && d.p.verb == c.p.verb
    ensures d.p.ptype == S.AsResponse(c).p.ptype
    ensures d.p.httpMajor == DecValue(l.major) && d.p.httpMinor == DecValue(l.minor)
    ensures d.p.statusCode == DecValue(l.code)
    ensures d.trace == c.trace + [Notify(MessageBegin)] + S.StatusEnd(l.crlf)
  {
    hide DecValue, S.StatusEnd;
  }

  lemma ResponseDecides(c: Config, r: Response, d: Config)
    requires GoodResponse(r) && S.AsResponse(c).p.ptype.HttpResponse? && !c.p.verb.CONNECT?
    requires Running(c) && S.StatusLineTaken(c, r.line, d)
    ensures
      var q := Informed(d.p, r.lines);
      && FramingOf(q) == ResponseFraming(r) && q.contentLength == LengthOf(NO_LENGTH, r.lines)
      && NewMessage(q) == (if ResponseKeepsAlive(r) then StartRes else Dead)
      && InHead(d.p) && (r.content.Endless? <==> ResponseFraming(r).UntilEof?)
  {
    NoOtherFlags(NO_FLAGS, r.lines);
    StatusRuns(c, r.line, d);
    hide S.StatusLineTaken, S.StatusLine.Good, FlagsOf, LengthOf, GoodLines, FramingOf, ResponseFraming, NewMessage,
      ResponseKeepsAlive, DecValue;
    ResponseRules(Informed(d.p, r.lines), r);
    EndlessOnlyUntilEof(r);
  }

  /** The framing and keep-alive rules on a parser that holds a response's head. */
  lemma ResponseRules(q: Parser, r: Response)
    requires GoodStatusLine(r) && GoodLines(r.lines)
    requires q.flags == FlagsOf(NO_FLAGS, r.lines) && q.contentLength == LengthOf(NO_LENGTH, r.lines)
    requires !q.flags.skipBody
    requires q.ptype.HttpResponse? && !q.verb.CONNECT? && q.statusCode == DecValue(r.line.code)
    requires q.httpMajor == DecValue(r.line.major) && q.httpMinor == DecValue(r.line.minor)
    ensures FramingOf(q) == ResponseFraming(r) && NewMessage(q) == (if ResponseKeepsAlive(r) then StartRes else Dead)
  {
    hide FlagsOf, LengthOf, GoodLines, DecValue, S.StatusLine.Accepted;
  }

  lemma EndlessOnlyUntilEof(r: Response)
    requires GoodResponse(r)
    ensures r.content.Endless? <==> ResponseFraming(r).UntilEof?
  {
    hide FlagsOf, LengthOf, GoodLines, DecValue, ResponseFraming, S.StatusLine.Good;
  }

  /** A whole response, from its text alone. */
  lemma ResponseIsRead(c: Config, r: Response)
    requires GoodResponse(r) && ReadyForResponse(c, |r.line.Wire()| + |WireAll(r.lines)| + 2)
    ensures ResponseTaken(c, r, Run(c, ResponseWire(r)))
  {
    hide Run, Inv, DecValue, FlagsOf, LengthOf, GoodLines, FramingOf, ResponseFraming,
      ResponseKeepsAlive, NewMessage, Informed, SectionEvents, SectionWire, S.StatusLineTaken, ResponseTaken;
    var d := Run(c, r.line.Wire());
    StatusLineRead(c, r);
    StatusRuns(c, r.line, d);
    ResponseDecides(c, r, d);
    SectionIsRead(d, r.lines, r.content);
    RunConcat(c, r.line.Wire(), SectionWire(r.lines, r.content));
    ResponseJoins(c, r, d, Run(c, ResponseWire(r)));
  }

  lemma ResponseJoins(c: Config, r: Response, d: Config, e: Config)
    requires GoodResponse(r) && S.AsResponse(c).p.ptype.HttpResponse? && !c.p.verb.CONNECT?
    requires Running(c) && S.StatusLineTaken(c, r.line, d)
    requires SectionTaken(d, r.lines, r.content, e)
    ensures ResponseTaken(c, r, e)
  {
    hide S.StatusLineTaken, S.StatusLine.Wire, S.StatusLine.Good, S.StatusLine.Accepted, S.StatusEnd, DecValue, FlagsOf,
      LengthOf, GoodLines, ContentFits, FramingOf, ResponseFraming, ResponseKeepsAlive, NewMessage, Informed,
      SectionEvents, SectionWire;
    StatusRuns(c, r.line, d);
    ResponseDecides(c, r, d);
    Regrouped(c.trace, [Notify(MessageBegin)], S.StatusEnd(r.line.crlf), SectionEvents(r.lines, r.content));
  }

  // ------------------------------------------------------- the parser object

  /** A new parser for requests, or for both kinds of messages, fed pipelined requests
      in any non-empty pieces, delivers exactly their events. */
  method ReceiveRequests(kind: ParserType, pieces: seq<string>, ghost rs: seq<Request>) returns (parser: HttpParser)
    requires !kind.HttpResponse? && forall k :: 0 <= k < |pieces| ==> pieces[k] != ""
    requires Pipeline(rs) && rs != [] && !RequestFraming(rs[|rs| - 1]).UpgradeNow?
    requires Flatten(pieces) == WireOfAll(rs)
    ensures parser.p.errno.Ok? && parser.trace == EventsOfAll(rs)
    ensures parser.p.state == if KeepsAlive(rs[|rs| - 1]) then StartReq else Dead
  {
    hide Run, Inv, Pipeline, GoodRequest, KeepsAlive, RequestFraming, EventsOfAll, WireOfAll, Flatten, Settled;
    parser := new HttpParser(kind);
    ghost var c := Config(parser.p, [], 0, false);
    StartsReady();
    PipelineIsRead(c, rs);
    assert [] + EventsOfAll(rs) == EventsOfAll(rs);
    parser.ExecuteAll(pieces);
  }

  lemma StartsReady()
    ensures Ready(Config(Init(HttpRequest), [], 0, false), MAX_HEADER_SIZE - 2)
    ensures Ready(Config(Init(HttpBoth), [], 0, false), MAX_HEADER_SIZE - 2)
    ensures Settled(Init(HttpRequest)) && Settled(Init(HttpResponse)) && Settled(Init(HttpBoth))
    ensures ReadyForResponse(Config(Init(HttpResponse), [], 0, false), MAX_HEADER_SIZE)
    ensures ReadyForResponse(Config(Init(HttpBoth), [], 0, false), MAX_HEADER_SIZE)
  {
  }

  /** So does a new parser for responses, or for both kinds of messages. */
  method ReceiveResponse(kind: ParserType, pieces: seq<string>, ghost r: Response) returns (parser: HttpParser)
    requires !kind.HttpRequest? && forall k :: 0 <= k < |pieces| ==> pieces[k] != ""
    requires GoodResponse(r) && |r.line.Wire()| + |WireAll(r.lines)| + 2 <= MAX_HEADER_SIZE
    requires !ResponseFraming(r).UpgradeNow? && Flatten(pieces) == ResponseWire(r)
    ensures parser.p.errno.Ok? && parser.trace == ResponseEvents(r)
  {
    hide Run, Inv, GoodResponse, ResponseKeepsAlive, ResponseFraming, ResponseEvents, ResponseWire, Flatten, Settled;
    parser := new HttpParser(kind);
    ghost var c := Config(parser.p, [], 0, false);
    StartsReady();
    ResponseIsRead(c, r);
    assert [] + ResponseEvents(r) == ResponseEvents(r);
    parser.ExecuteAll(pieces);
  }

  /** A chunked body delivers its data and one end of message however it is cut. */
  method ReceiveChunked(parser: HttpParser, pieces: seq<string>, ghost ks: seq<Chunk>, ghost last: string)
    requires Settled(parser.p) && AtChunk(Config(parser.p, parser.trace, 0, false))
    requires forall k :: 0 <= k < |pieces| ==> pieces[k] != ""
    requires LastChunk(last) && forall i :: 0 <= i < |ks| ==> GoodChunk(ks[i])
    requires Flatten(pieces) == EncodeAll(ks) + (last + "\r\n" + "\r\n")
    modifies parser
    ensures parser.p.errno.Ok? && BetweenMessages(parser.p.state)
    ensures parser.trace == old(parser.trace) + Bytes(Body, Payload(ks)) + [Notify(MessageComplete)]
  {
    ghost var c := Config(parser.p, parser.trace, 0, false);
    AtChunkMeans(c);
    hide Run, AtChunk, GoodChunk, LastChunk, Bytes, Settled, Flatten;
    ChunkedBodyIsDecoded(c, ks, last);
    parser.ExecuteAll(pieces);
  }
}
