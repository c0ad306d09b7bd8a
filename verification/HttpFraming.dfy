// Whole messages: header lines, the blank line, and the two kinds of framed
// bodies (sections 3.6.1 and 4.4 of RFC 2616).
module HttpFraming {
  import opened HttpTypes
  import opened HttpStep
  import opened HttpInvariant
  import opened HttpExecute
  import opened HttpHeaders

  // ---- header lines -------------------------------------------------------

  predicate Blank(c: char) { c == ' ' || c == '\t' }

  datatype Line = Line(name: string, value: string)

  predicate WellFormed(l: Line) {
    IsTokenWord(l.name) && forall i :: 0 <= i < |l.value| ==> !IsLineEnd(l.value[i])
  }

  function Wire(l: Line): string { l.name + ":" + l.value + "\r\n" }

  /** Where the next header line, or the blank line, is expected. */
  predicate AtLineStart(s: State) { s.HeaderFieldStart? || s.HeaderValueLws? }

  lemma InvSettled(p: Parser)
    requires Inv(p)
    ensures Settled(p)
  {
  }

  lemma TwoBytes(c: Config, a: char, b: char)
    ensures Run(c, [a, b]) == Feed(Feed(c, a), b)
  {
    hide Feed;
    RunConcat(c, [a], [b]);
    assert [a] + [b] == [a, b];
    RunOne(c, a);
    RunOne(Feed(c, a), b);
  }

  lemma ThreeParts(c: Config, a: string, b: string, d: string)
    ensures Run(c, a + b + d) == Run(Run(Run(c, a), b), d)
  {
    RunConcat(c, a + b, d);
    RunConcat(c, a, b);
  }

  /** The first byte of a field name is seen again from the state between lines. */
  lemma LineStartByte(p: Parser, ch: char)
    requires p.errno.Ok? && AtLineStart(p.state) && (IsToken(ch) || ch == '\r')
    ensures React(p, ch) == React(p.(state := HeaderFieldStart), ch)
  {
    hide FieldNameByte;
    assert p.state.HeaderValueLws? ==> Handle(p, ch) == Reaction(p.(state := HeaderFieldStart), [], Again);
    var again := React(p.(state := HeaderFieldStart), ch);
    assert [] + again.events == again.events;
  }

  lemma LineStartStep(c: Config, ch: char)
    requires Running(c) && AtLineStart(c.p.state) && (IsToken(ch) || ch == '\r')
    requires c.p.nread < MAX_HEADER_SIZE
    ensures Feed(c, ch) == Feed(c.(p := c.p.(state := HeaderFieldStart)), ch)
  {
    hide React, Step, IsToken;
    CountedStep(c.p, ch);
    CountedStep(c.p.(state := HeaderFieldStart), ch);
    LineStartByte(c.p.(nread := c.p.nread + 1), ch);
  }

  lemma NameFromLineStart(c: Config, w: string)
    requires Running(c) && AtLineStart(c.p.state) && IsTokenWord(w) && c.p.nread + |w| <= MAX_HEADER_SIZE
    ensures Run(c, w) == Run(c.(p := c.p.(state := HeaderFieldStart)), w)
  {
    hide Feed, Run, IsToken;
    RunCons(c, w);
    RunCons(c.(p := c.p.(state := HeaderFieldStart)), w);
    LineStartStep(c, w[0]);
  }

  lemma ColonByte(p: Parser)
    requires p.errno.Ok? && p.state.HeaderField?
    ensures React(p, ':') == Reaction(p.(state := HeaderValueStart), [], Advance)
  {
    hide NameMatcher;
  }

  lemma ColonIsRead(c: Config)
    requires Running(c) && c.p.state.HeaderField? && c.p.nread < MAX_HEADER_SIZE
    ensures Run(c, ":") ==
      Config(c.p.(state := HeaderValueStart, nread := c.p.nread + 1), c.trace, c.taken + 1, false)
  {
    hide React, Step;
    RunOne(c, ':');
    CountedStep(c.p, ':');
    ColonByte(c.p.(nread := c.p.nread + 1));
    assert c.trace + [] == c.trace;
  }

  /** After a field name and its colon. */
  predicate AfterColon(c: Config, w: string, r: Config)
    requires IsTokenWord(w)
  {
    r == Config(c.p.(state := HeaderValueStart, index := r.p.index, headerState := Recognised(Folded(w)),
                     nread := c.p.nread + |w| + 1),
                c.trace + Bytes(Field, w), c.taken + |w| + 1, false)
  }

  lemma NameAndColon(c: Config, w: string)
    requires Running(c) && AtLineStart(c.p.state) && IsTokenWord(w)
    requires c.p.nread + |w| + 1 <= MAX_HEADER_SIZE
    ensures AfterColon(c, w, Run(c, w + ":"))
  {
    hide Run, React, Step, IsToken, TokenOf, Recognised, Agrees, Bytes;
    NameFromLineStart(c, w);
    NameIsRead(c.(p := c.p.(state := HeaderFieldStart)), w);
    RunConcat(c, w, ":");
    ColonIsRead(Run(c, w));
  }

  function WireAll(ls: seq<Line>): string {
    if ls == [] then "" else Wire(ls[0]) + WireAll(ls[1..])
  }

  // ---- blanks in front of a value -----------------------------------------

  lemma BlankStep(c: Config, ch: char)
    requires Running(c) && c.p.state.HeaderValueStart? && Blank(ch) && c.p.nread < MAX_HEADER_SIZE
    ensures Feed(c, ch) == Config(c.p.(nread := c.p.nread + 1), c.trace, c.taken + 1, false)
  {
    hide ValueStart;
    CountedStep(c.p, ch);
    assert c.trace + [] == c.trace;
  }

  lemma {:induction false} BlanksAreSkipped(c: Config, pad: string)
    requires Running(c) && c.p.state.HeaderValueStart?
    requires c.p.nread + |pad| <= MAX_HEADER_SIZE && forall i :: 0 <= i < |pad| ==> Blank(pad[i])
    ensures Run(c, pad) == Config(c.p.(nread := c.p.nread + |pad|), c.trace, c.taken + |pad|, false)
  {
    hide Feed;
    if pad != "" {
      BlanksAreSkipped(c, pad[..|pad| - 1]);
      BlankStep(Run(c, pad[..|pad| - 1]), pad[|pad| - 1]);
    }
  }

  // ---- the blank line and a length-delimited body -------------------------

  // How a message goes on behind its headers (section 4.4 of RFC 2616).
  datatype Framing = UpgradeNow | NoBody | ByLength | ByChunks | UntilEof

  /** The end of a header section and not of a trailer. */
  predicate InHead(p: Parser) { !p.flags.trailing && !p.flags.skipBody }

  function FramingOf(p: Parser): Framing {
    if p.flags.upgrade || p.verb.CONNECT? then UpgradeNow
    else if p.flags.chunked then ByChunks
    else if p.contentLength == 0 then NoBody
    else if p.contentLength != NO_LENGTH then ByLength
    else if MessageNeedsEof(p) then UntilEof
    else NoBody
  }

  /** The message ends with its headers. */
  predicate Bodiless(f: Framing) { f.UpgradeNow? || f.NoBody? }

  function AfterHead(p: Parser): Parser {
    var f := FramingOf(p);
    p.(nread := 0, upgrade := f.UpgradeNow?,
       state := if Bodiless(f) then NewMessage(p)
                else if f.ByLength? then BodyIdentity
                else if f.ByChunks? then ChunkSizeStart
                else BodyIdentityEof)
  }

  function EndOf(f: Framing): seq<Event> {
    if Bodiless(f) then [Notify(MessageComplete)] else []
  }

  lemma LineStartReturn(p: Parser)
    requires p.errno.Ok? && AtLineStart(p.state)
    ensures React(p, '\r') == Reaction(p.(state := HeadersAlmostDone), [], Advance)
  {
    hide FieldNameByte;
    LineStartByte(p, '\r');
    var q := p.(state := HeaderFieldStart);
    FieldReturn(q);
  }

  lemma FieldReturn(p: Parser)
    requires p.errno.Ok? && p.state.HeaderFieldStart?
    ensures React(p, '\r') == Reaction(p.(state := HeadersAlmostDone), [], Advance)
  {
    hide NameMatcher;
  }

  lemma HeadersDoneNewline(p: Parser)
    requires p.errno.Ok? && p.state.HeadersDone? && InHead(p) && p.upgrade == FramingOf(p).UpgradeNow?
    ensures React(p, '\n')
         == Reaction(AfterHead(p), EndOf(FramingOf(p)), if FramingOf(p).UpgradeNow? then Leave else Advance)
  {
    DoneIsHandled(p);
    NewMessageIgnores(p, HeadersDone, p.upgrade);
    hide NewMessage, MessageNeedsEof;
  }

  lemma DoneIsHandled(p: Parser)
    requires p.state.HeadersDone?
    ensures React(p, '\n') == HeadersEndByte(p, '\n')
  {
  }

  lemma HeadersAlmostDoneNewline(p: Parser)
    requires p.errno.Ok? && p.state.HeadersAlmostDone? && InHead(p)
    ensures var d := React(p.(state := HeadersDone, upgrade := FramingOf(p).UpgradeNow?), '\n');
      React(p, '\n') == d.(events := [Notify(HeadersComplete)] + d.events)
  {
    hide NewMessage, MessageNeedsEof;
    var d := p.(state := HeadersDone, upgrade := FramingOf(p).UpgradeNow?);
    assert Handle(p, '\n') == Reaction(d, [Notify(HeadersComplete)], Again);
  }

  /** Where a new message starts depends on what was read and on no position. */
  lemma NewMessageIgnores(p: Parser, s: State, upgrade: bool)
    ensures forall n: nat :: NewMessage(p.(state := s, upgrade := upgrade, nread := n)) == NewMessage(p)
    ensures forall n: nat :: FramingOf(p.(state := s, upgrade := upgrade, nread := n)) == FramingOf(p)
  {
  }

  /** The line feed of the blank line. */
  lemma BlankNewline(p: Parser)
    requires p.errno.Ok? && p.state.HeadersAlmostDone? && InHead(p)
    ensures React(p, '\n')
         == Reaction(AfterHead(p), [Notify(HeadersComplete)] + EndOf(FramingOf(p)),
                     if FramingOf(p).UpgradeNow? then Leave else Advance)
  {
    hide React, NewMessage, FramingOf;
    var up := FramingOf(p).UpgradeNow?;
    var d := p.(state := HeadersDone, upgrade := up);
    NewMessageIgnores(p, HeadersDone, up);
    assert d == p.(state := HeadersDone, upgrade := up, nread := p.nread);
    HeadersAlmostDoneNewline(p);
    HeadersDoneNewline(d);
  }

  /** A byte within the size limit that is no error. */
  lemma FeedTaken(c: Config, ch: char, r: Reaction)
    requires Running(c) && ParsingHeader(c.p.state) && c.p.nread < MAX_HEADER_SIZE
    requires React(c.p.(nread := c.p.nread + 1), ch) == r && r.p.errno.Ok?
    ensures Feed(c, ch) == Config(r.p, c.trace + r.events, c.taken + 1, r.next.Leave?)
  {
    hide React;
  }

  /** The empty line ends the headers and, if no body is due, the message; on an
      upgrade or CONNECT the parser also leaves. */
  lemma BlankLine(c: Config)
    requires Running(c) && AtLineStart(c.p.state) && InHead(c.p) && c.p.nread + 2 <= MAX_HEADER_SIZE
    ensures Run(c, "\r\n")
         == Config(AfterHead(c.p), c.trace + ([Notify(HeadersComplete)] + EndOf(FramingOf(c.p))), c.taken + 2,
                   FramingOf(c.p).UpgradeNow?)
  {
    hide React, Feed, Run, NewMessage, FramingOf, EndOf;
    TwoBytes(c, '\r', '\n');
    var p := c.p.(nread := c.p.nread + 1);
    LineStartReturn(p);
    FeedCounted(c, '\r', React(p, '\r'));
    assert c.trace + [] == c.trace;
    var a := Feed(c, '\r');
    var q := a.p.(nread := a.p.nread + 1);
    BlankNewline(q);
    FeedTaken(a, '\n', React(q, '\n'));
    NewMessageIgnores(c.p, HeadersAlmostDone, c.p.upgrade);
    assert q == c.p.(state := HeadersAlmostDone, upgrade := c.p.upgrade, nread := c.p.nread + 2);
  }

  lemma BodyEnds(p: Parser, ch: char)
    requires p.errno.Ok? && p.state.BodyIdentity? && p.contentLength == 1
    ensures var q := p.(contentLength := 0);
      Step(p, ch) == Reaction(q.(state := NewMessage(q)), [Data(Body, ch), Notify(MessageComplete)], Advance)
  {
    LastBodyByte(p, ch);
    DoneCompletes(p.(contentLength := 0, state := MessageDone), ch);
    hide Step, React, NewMessage;
    NewMessageIgnores(p.(contentLength := 0), MessageDone, p.upgrade);
    var q := p.(contentLength := 0);
    assert q.(state := MessageDone) == q.(state := MessageDone, upgrade := q.upgrade, nread := q.nread);
    assert [Data(Body, ch)] + [Notify(MessageComplete)] == [Data(Body, ch), Notify(MessageComplete)];
  }

  lemma DoneCompletes(p: Parser, ch: char)
    requires p.errno.Ok? && p.state.MessageDone?
    ensures React(p, ch) == Complete(p)
  {
    hide NewMessage;
  }

  /** A body of the announced length is delivered byte for byte and then complete, once. */
  lemma BodyIsRead(c: Config, body: string)
    requires Running(c) && Inv(c.p) && c.p.state.BodyIdentity? && c.p.contentLength == |body| > 0
    ensures var q := c.p.(contentLength := 0);
      Run(c, body) == Config(q.(state := NewMessage(q)),
        c.trace + Bytes(Body, body) + [Notify(MessageComplete)], c.taken + |body|, false)
  {
    hide Step, Inv, NewMessage;
    var s, ch := body[..|body| - 1], body[|body| - 1];
    JumpIsRun(c, s);
    BodyEnds(Run(c, s).p, ch);
    BytesSnoc(Body, s, ch);
    assert body == s + [ch];
    assert (c.trace + Bytes(Body, s)) + [Data(Body, ch), Notify(MessageComplete)]
      == c.trace + Bytes(Body, body) + [Notify(MessageComplete)];
  }

  /** Behind headers that announce no end, every byte is body. */
  lemma EndlessBodyIsRead(c: Config, body: string)
    requires Running(c) && Inv(c.p) && c.p.state.BodyIdentityEof?
    ensures Run(c, body) == Config(c.p, c.trace + Bytes(Body, body), c.taken + |body|, false)
  {
    JumpIsRun(c, body);
  }

  lemma RunEmpty(c: Config)
    ensures Run(c, "") == c
  {
  }
}
