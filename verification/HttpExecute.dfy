// http_parser_execute: the loop over a buffer that remembers where a data run
// started (a mark), jumps over body bytes in one go, and calls back with
// slices. It refines the byte-at-a-time automaton of HttpStep.
module HttpExecute {
  import opened HttpTypes
  import opened HttpStep
  import opened HttpInvariant

  const NO_MARK := -1

  /** The four marks of one call; each is an index into the buffer or NO_MARK. */
  datatype Marks = Marks(field: int, value: int, url: int, body: int)

  /** Bytes marked but not yet called back, up to index `to`. */
  function Slice(kind: DataKind, mark: int, data: string, to: nat): seq<Event>
    requires mark <= to <= |data|
  {
    if mark < 0 then [] else Bytes(kind, data[mark..to])
  }

  predicate Within(m: Marks, to: nat) {
    m.field <= to && m.value <= to && m.url <= to && m.body <= to
  }

  function Pending(m: Marks, data: string, to: nat): seq<Event>
    requires to <= |data| && Within(m, to)
  {
    Slice(Field, m.field, data, to) + Slice(Value, m.value, data, to)
    + Slice(Url, m.url, data, to) + Slice(Body, m.body, data, to)
  }

  /** Which mark is set in which state: at most one, and only where data is running. */
  predicate MarksFit(s: State, m: Marks) {
    && (m.field >= 0 <==> s.HeaderField?)
    && (m.value >= 0 <==> s.HeaderValue?)
    && (m.url >= 0 <==> InUrl(s))
    && (m.body >= 0 ==> s.ChunkData? || s.ChunkDataAlmostDone? || s.BodyIdentity? || s.BodyIdentityEof?)
  }

  /** States whose bytes are taken in one jump. */
  predicate Jumps(s: State) { s.BodyIdentity? || s.BodyIdentityEof? || s.ChunkData? }

  /** The parser after `k` body bytes that do not finish the body. */
  function Skip(p: Parser, k: nat): Parser
    requires p.state.BodyIdentityEof? || k <= p.contentLength
  {
    if p.state.BodyIdentityEof? then p else p.(contentLength := p.contentLength - k)
  }

  lemma JumpIsStep(p: Parser, ch: char)
    requires p.errno.Ok? && Inv(p) && Jumps(p.state)
    requires p.state.BodyIdentityEof? || 1 < p.contentLength
    ensures Step(p, ch) == Reaction(Skip(p, 1), [Data(Body, ch)], Advance)
  {
  }

  lemma SkipKeepsInv(p: Parser, k: nat)
    requires p.errno.Ok? && Inv(p) && Jumps(p.state)
    requires p.state.BodyIdentityEof? || k < p.contentLength
    ensures Inv(Skip(p, k))
  {
  }

  /** Body bytes short of the end change nothing but the remaining length. */
  lemma {:induction false} JumpIsRun(c: Config, s: string)
    requires Running(c) && Inv(c.p) && Jumps(c.p.state)
    requires c.p.state.BodyIdentityEof? || |s| < c.p.contentLength
    ensures Run(c, s) == Config(Skip(c.p, |s|), c.trace + Bytes(Body, s), c.taken + |s|, false)
  {
    hide Step, Inv, ParsingHeader;
    if s == "" {
      assert c.trace + Bytes(Body, s) == c.trace;
    } else {
      var s', ch := s[..|s| - 1], s[|s| - 1];
      JumpIsRun(c, s');
      SkipKeepsInv(c.p, |s'|);
      JumpIsStep(Skip(c.p, |s'|), ch);
      BytesSnoc(Body, s', ch);
      assert s' + [ch] == s;
      assert Feed(Run(c, s'), ch).trace == c.trace + (Bytes(Body, s') + [Data(Body, ch)]);
    }
  }

  /** The data callback a byte belongs to outside the jumping states. */
  function DataAt(s: State, ch: char): Option<DataKind> {
    if s.ReqSpacesBeforeUrl? then if ch == ' ' then None else Some(Url)
    else if InUrl(s) then if ch == ' ' || IsLineEnd(ch) then None else Some(Url)
    else if s.HeaderFieldStart? then if IsLineEnd(ch) then None else Some(Field)
    else if s.HeaderField? then if IsToken(ch) then Some(Field) else None
    else if s.HeaderValueStart? then
      if ch == ' ' || ch == '\t' || IsLineEnd(ch) then None else Some(Value)
    else if s.HeaderValue? then if IsLineEnd(ch) then None else Some(Value)
    else None
  }

  predicate NoticesOnly(events: seq<Event>) {
    events == [] || (|events| == 1 && events[0].Notify?)
  }

  /** What one pass through the switch delivers, and where it leads. */
  predicate Delivers(s: State, ch: char, r: Reaction) {
    if !r.p.errno.Ok? then r.events == []
    else
      var d := DataAt(s, ch);
      && (d.Some? ==> r.events == [Data(d.value, ch)] && r.next.Advance?)
      && (d.None? ==> NoticesOnly(r.events))
      && (d == Some(Url) <==> InUrl(r.p.state))
      && (d == Some(Field) <==> r.p.state.HeaderField?)
      && (d == Some(Value) <==> r.p.state.HeaderValue?)
      && (r.next.Again? ==> !Jumps(r.p.state))
  }

  lemma UrlDelivers(p: Parser, ch: char)
    requires p.errno.Ok? && (p.state.ReqSpacesBeforeUrl? || InUrl(p.state))
    ensures Delivers(p.state, ch, UrlByte(p, ch))
  {
    hide ParseUrlChar;
  }

  lemma NameDelivers(p: Parser, ch: char)
    requires p.errno.Ok? && InFieldName(p.state)
    ensures Delivers(p.state, ch, FieldNameByte(p, ch))
  {
    hide Literal, Matched, MatchingName, NameMatched;
  }

  lemma ValueStates(p: Parser, ch: char)
    ensures ValueStart(p, ch).state == HeaderValue
    ensures ValueMore(p, ch).state == p.state
  {
    hide AppendDigit;
  }

  lemma ValueDelivers(p: Parser, ch: char)
    requires p.errno.Ok? && InValue(p.state)
    ensures Delivers(p.state, ch, ValueByte(p, ch))
  {
    hide ValueStart, ValueMore;
    ValueStates(p, ch);
  }

  lemma StartDelivers(p: Parser, ch: char)
    requires p.errno.Ok? && InStart(p.state)
    ensures Delivers(p.state, ch, StartByte(p, ch))
  {
  }

  lemma StatusWordDelivers(p: Parser, ch: char)
    requires p.errno.Ok? && InStatusWord(p.state)
    ensures Delivers(p.state, ch, StatusLineByte(p, ch))
  {
    MoreStays(p, ch);
    hide MoreMajor, MoreMinor;
  }

  lemma StatusRestDelivers(p: Parser, ch: char)
    requires p.errno.Ok? && InStatusLine(p.state) && !InStatusWord(p.state)
    ensures Delivers(p.state, ch, StatusLineByte(p, ch))
  {
    MoreStays(p, ch);
    hide MoreMajor, MoreMinor;
  }

  lemma StatusLineDelivers(p: Parser, ch: char)
    requires p.errno.Ok? && InStatusLine(p.state)
    ensures Delivers(p.state, ch, StatusLineByte(p, ch))
  {
    if InStatusWord(p.state) {
      StatusWordDelivers(p, ch);
    } else {
      StatusRestDelivers(p, ch);
    }
    hide StatusLineByte, Delivers;
  }

  lemma MoreStays(p: Parser, ch: char)
    requires p.errno.Ok?
    ensures MoreMajor(p, ch) == Reaction(MoreMajor(p, ch).p, [], Advance) && MoreMajor(p, ch).p.state == p.state
    ensures MoreMinor(p, ch) == Reaction(MoreMinor(p, ch).p, [], Advance) && MoreMinor(p, ch).p.state == p.state
  {
  }

  lemma MethodDelivers(p: Parser, ch: char)
    requires p.errno.Ok? && p.state.ReqMethod?
    ensures Delivers(p.state, ch, MethodByte(p, ch))
  {
    hide Divert;
  }

  lemma VersionDelivers(p: Parser, ch: char)
    requires p.errno.Ok? && InVersion(p.state)
    ensures Delivers(p.state, ch, VersionByte(p, ch))
  {
    MoreStays(p, ch);
    hide MoreMajor, MoreMinor;
  }

  lemma EndDelivers(p: Parser, ch: char)
    requires p.errno.Ok? && (InHeadersEnd(p.state) || p.state.MessageDone?)
    ensures Delivers(p.state, ch, if InHeadersEnd(p.state) then HeadersEndByte(p, ch) else BodyByte(p, ch))
  {
  }

  lemma ChunkDelivers(p: Parser, ch: char)
    requires p.errno.Ok? && InChunk(p.state) && !p.state.ChunkData?
    ensures Delivers(p.state, ch, ChunkByte(p, ch))
  {
  }

  lemma DeliversMeans(s: State, ch: char, r: Reaction)
    requires Delivers(s, ch, r)
    ensures !r.p.errno.Ok? ==> r.events == []
    ensures r.p.errno.Ok? && r.next.Again? ==> !Jumps(r.p.state) && DataAt(s, ch).None?
  {
  }

  lemma HandleDelivers(p: Parser, ch: char)
    requires p.errno.Ok? && !Jumps(p.state)
    ensures Delivers(p.state, ch, Handle(p, ch))
  {
    hide StartByte, StatusLineByte, MethodByte, UrlByte, VersionByte, FieldNameByte,
      ValueByte, HeadersEndByte, BodyByte, ChunkByte, Delivers;
    if InStart(p.state) {
      StartDelivers(p, ch);
    } else if InStatusLine(p.state) {
      StatusLineDelivers(p, ch);
    } else if p.state.ReqMethod? {
      MethodDelivers(p, ch);
    } else if p.state.ReqSpacesBeforeUrl? || InUrl(p.state) {
      UrlDelivers(p, ch);
    } else if InVersion(p.state) {
      VersionDelivers(p, ch);
    } else if InFieldName(p.state) {
      NameDelivers(p, ch);
    } else if InValue(p.state) {
      ValueDelivers(p, ch);
    } else if InHeadersEnd(p.state) || p.state.MessageDone? {
      EndDelivers(p, ch);
    } else {
      ChunkDelivers(p, ch);
    }
  }

  /** With one mark at most, what is pending is one slice. */
  lemma PendingIs(s: State, m: Marks, data: string, to: nat)
    requires to <= |data| && Within(m, to) && MarksFit(s, m)
    ensures Pending(m, data, to) ==
      if s.HeaderField? then Slice(Field, m.field, data, to)
      else if s.HeaderValue? then Slice(Value, m.value, data, to)
      else if InUrl(s) then Slice(Url, m.url, data, to)
      else Slice(Body, m.body, data, to)
  {
  }

  /** The marks after a byte that belongs to `d`. */
  function MarksAfter(s: State, d: Option<DataKind>, m: Marks, i: nat): Marks {
    if d.None? then
      if s.HeaderField? then m.(field := NO_MARK)
      else if s.HeaderValue? then m.(value := NO_MARK)
      else if InUrl(s) then m.(url := NO_MARK)
      else m.(body := NO_MARK)
    else if s.HeaderFieldStart? then m.(field := i)
    else if s.HeaderValueStart? then m.(value := i)
    else if s.ReqSpacesBeforeUrl? then m.(url := i)
    else m
  }

  lemma MarksAfterFit(s: State, ch: char, m: Marks, i: nat, r: Reaction)
    requires Within(m, i) && MarksFit(s, m) && !Jumps(s)
    requires Delivers(s, ch, r) && r.p.errno.Ok?
    ensures var m' := MarksAfter(s, DataAt(s, ch), m, i);
      Within(m', i) && MarksFit(r.p.state, m')
  {
  }

  /** From `s` to `t` on a byte of data: a run starts or goes on. */
  predicate DataMoves(s: State, d: DataKind, t: State) {
    match d
    case Url => (s.ReqSpacesBeforeUrl? || InUrl(s)) && InUrl(t)
    case Field => (s.HeaderFieldStart? || s.HeaderField?) && t.HeaderField?
    case Value => (s.HeaderValueStart? || s.HeaderValue?) && t.HeaderValue?
    case Body => false
  }

  /** With data running on, the marked run grows by the byte. */
  lemma PendingRuns(s: State, m: Marks, data: string, i: nat, d: DataKind, t: State)
    requires i < |data| && Within(m, i) && MarksFit(s, m) && DataMoves(s, d, t)
    ensures var m' := MarksAfter(s, Some(d), m, i);
      Within(m', i) && (MarksFit(t, m') ==> Pending(m', data, i + 1) == Pending(m, data, i) + [Data(d, data[i])])
  {
    hide Pending, Slice;
    var m' := MarksAfter(s, Some(d), m, i);
    if MarksFit(t, m') {
      PendingIs(s, m, data, i);
      PendingIs(t, m', data, i + 1);
      var mark := if d.Field? then m'.field else if d.Value? then m'.value else m'.url;
      SliceGrows(d, mark, data, i);
      SliceStarts(d, data, i);
      SliceNone(Body, m.body, data, i);
    }
  }

  lemma SliceNone(kind: DataKind, mark: int, data: string, to: nat)
    requires mark <= to <= |data|
    ensures mark < 0 ==> Slice(kind, mark, data, to) == []
  {
  }

  /** What is still pending afterwards: the marked run with the new byte, or nothing. */
  lemma PendingAfter(s: State, ch: char, m: Marks, data: string, i: nat, r: Reaction)
    requires i < |data| && ch == data[i] && Within(m, i) && MarksFit(s, m) && !Jumps(s)
    requires Delivers(s, ch, r) && r.p.errno.Ok?
    ensures var d := DataAt(s, ch); var m' := MarksAfter(s, d, m, i);
      && Within(m', i)
      && (d.Some? ==> Pending(m', data, i + 1) == Pending(m, data, i) + r.events)
      && (d.None? ==> Pending(m', data, i) == [] && Pending(m', data, i + 1) == [])
  {
    hide Pending, DataAt, Slice;
    var d := DataAt(s, ch);
    var m' := MarksAfter(s, d, m, i);
    MarksAfterFit(s, ch, m, i, r);
    if d.Some? {
      DataMovesOn(s, ch, r);
      PendingRuns(s, m, data, i, d.value, r.p.state);
    } else {
      PendingIs(r.p.state, m', data, i);
      PendingIs(r.p.state, m', data, i + 1);
      SliceNone(Body, m'.body, data, i);
      SliceNone(Body, m'.body, data, i + 1);
    }
  }

  lemma DataMovesOn(s: State, ch: char, r: Reaction)
    requires Delivers(s, ch, r) && r.p.errno.Ok? && DataAt(s, ch).Some?
    ensures DataMoves(s, DataAt(s, ch).value, r.p.state)
  {
    hide IsToken, IsLineEnd;
  }

  lemma SliceGrows(kind: DataKind, mark: int, data: string, i: nat)
    requires i < |data| && mark <= i
    ensures Slice(kind, mark, data, i + 1)
      == Slice(kind, mark, data, i) + if mark >= 0 then [Data(kind, data[i])] else []
  {
    if mark >= 0 {
      assert data[mark..i + 1] == data[mark..i] + [data[i]];
      BytesSnoc(kind, data[mark..i], data[i]);
    }
  }

  /** A fresh mark leaves exactly the marked byte pending. */
  lemma SliceStarts(kind: DataKind, data: string, i: nat)
    requires i < |data|
    ensures Slice(kind, i, data, i) == []
    ensures Slice(kind, i, data, i + 1) == [Data(kind, data[i])]
  {
  }

  /** The last byte of a length-delimited body is seen again as the end of the message. */
  lemma LastBodyByte(p: Parser, ch: char)
    requires p.errno.Ok? && p.state.BodyIdentity? && p.contentLength == 1
    ensures var q := p.(contentLength := 0, state := MessageDone);
      Step(p, ch) == Reaction(React(q, ch).p, [Data(Body, ch)] + React(q, ch).events, React(q, ch).next)
  {
  }

  lemma LastChunkByte(p: Parser, ch: char)
    requires p.errno.Ok? && p.state.ChunkData? && p.contentLength == 1 && p.flags.chunked
    ensures Step(p, ch) ==
      Reaction(p.(contentLength := 0, state := ChunkDataAlmostDone), [Data(Body, ch)], Advance)
  {
  }

  /** MARK(body): a mark that is already set stays. */
  function MarkBody(m: Marks, i: nat): Marks {
    m.(body := if m.body < 0 then i else m.body)
  }

  lemma JumpMarksFit(s: State, m: Marks, i: nat)
    requires Within(m, i) && MarksFit(s, m) && Jumps(s)
    ensures var m' := MarkBody(m, i);
      && Within(m', i) && MarksFit(s, m') && m'.body >= 0
      && (s.ChunkData? ==> MarksFit(ChunkDataAlmostDone, m'))
      && MarksFit(MessageDone, m'.(body := NO_MARK))
      && !s.HeaderField? && !s.HeaderValue? && !InUrl(s)
  {
  }

  lemma JumpSlice(m: Marks, data: string, i: nat, to: nat)
    requires i <= to <= |data| && Within(m, i)
    ensures Slice(Body, MarkBody(m, i).body, data, to) == Slice(Body, m.body, data, i) + Bytes(Body, data[i..to])
  {
    if m.body >= 0 {
      assert data[m.body..to] == data[m.body..i] + data[i..to];
      BytesConcat(Body, data[m.body..i], data[i..to]);
    }
  }

  lemma JumpPending(s: State, m: Marks, data: string, i: nat, to: nat)
    requires i <= to <= |data| && Within(m, i) && MarksFit(s, m) && Jumps(s)
    ensures var m' := MarkBody(m, i);
      && Within(m', to) && MarksFit(s, m')
      && (s.ChunkData? ==> MarksFit(ChunkDataAlmostDone, m'))
      && Slice(Body, m'.body, data, to) == Pending(m, data, i) + Bytes(Body, data[i..to])
      && Pending(m', data, to) == Pending(m, data, i) + Bytes(Body, data[i..to])
      && MarksFit(MessageDone, m'.(body := NO_MARK))
      && Pending(m'.(body := NO_MARK), data, i) == []
  {
    hide Pending, MarksFit, Slice, Bytes, Jumps, InUrl;
    JumpMarksFit(s, m, i);
    JumpSlice(m, data, i, to);
    var m' := MarkBody(m, i);
    PendingIs(s, m, data, i);
    PendingIs(s, m', data, to);
    NothingPending(Dead, m'.(body := NO_MARK), data, i) by { NoMarksAnywhere(m'.(body := NO_MARK)); }
  }

  lemma NoMarksAnywhere(m: Marks)
    requires MarksFit(MessageDone, m)
    ensures MarksFit(Dead, m)
  {
  }

  /** The parser after a jump over `take` body bytes. */
  function Jump(p: Parser, take: nat): Parser
    requires p.state.BodyIdentityEof? || take <= p.contentLength
  {
    var q := Skip(p, take);
    if p.state.BodyIdentityEof? || q.contentLength > 0 then q
    else if p.state.BodyIdentity? then q.(state := MessageDone)
    else q.(state := ChunkDataAlmostDone)
  }

  /** A jump against the automaton: all bytes but the last leave the state
      alone, and the last one leads where the jump leads. */
  lemma JumpRefines(c: Config, s: string)
    requires Running(c) && Inv(c.p) && Jumps(c.p.state) && s != ""
    requires c.p.state.BodyIdentityEof? || |s| <= c.p.contentLength
    ensures var k := |s| - 1; var q := Skip(c.p, k);
      && Run(c, s[..k]) == Config(q, c.trace + Bytes(Body, s[..k]), c.taken + k, false)
      && (if c.p.state.BodyIdentity? && |s| == c.p.contentLength then
            var rest := React(Jump(c.p, |s|), s[k]);
            Step(q, s[k]) == rest.(events := [Data(Body, s[k])] + rest.events)
          else Step(q, s[k]) == Reaction(Jump(c.p, |s|), [Data(Body, s[k])], Advance))
  {
    hide Step;
    var k := |s| - 1;
    JumpIsRun(c, s[..k]);
    SkipKeepsInv(c.p, k);
    if c.p.state.BodyIdentityEof? || |s| < c.p.contentLength {
      JumpIsStep(Skip(c.p, k), s[k]);
    } else if c.p.state.BodyIdentity? {
      LastBodyByte(Skip(c.p, k), s[k]);
    } else {
      LengthIsPending(c.p);
      LastChunkByte(Skip(c.p, k), s[k]);
    }
  }

  lemma LengthIsPending(p: Parser)
    requires Inv(p) && p.errno.Ok? && (p.state.BodyIdentity? || p.state.ChunkData?)
    ensures 0 < p.contentLength < NO_LENGTH && (p.state.ChunkData? ==> p.flags.chunked)
  {
  }

  /** On an error the bytes that were marked but not yet called back are lost. */
  ghost predicate LostRun(delivered: seq<Event>, full: seq<Event>, data: string, to: nat)
    requires to <= |data|
  {
    exists kind: DataKind, mark: nat ::
      mark <= to && full == delivered + Bytes(kind, data[mark..to])
  }

  lemma PendingIsLost(s: State, m: Marks, data: string, to: nat, delivered: seq<Event>)
    requires to <= |data| && Within(m, to) && MarksFit(s, m)
    ensures LostRun(delivered, delivered + Pending(m, data, to), data, to)
  {
    PendingIs(s, m, data, to);
    var kind := if s.HeaderField? then Field else if s.HeaderValue? then Value
      else if InUrl(s) then Url else Body;
    var mark := if s.HeaderField? then m.field else if s.HeaderValue? then m.value
      else if InUrl(s) then m.url else m.body;
    var k: nat := if mark < 0 then to else mark;
    assert Pending(m, data, to) == Bytes(kind, data[k..to]);
  }

  /** A reaction whose first events `seen` are already delivered. */
  ghost predicate Continues(full: Reaction, seen: seq<Event>, rest: Reaction) {
    full == rest.(events := seen + rest.events)
  }

  lemma ReactUnfolds(p: Parser, ch: char, full: Reaction, seen: seq<Event>)
    requires Continues(full, seen, React(p, ch))
    ensures var r := Handle(p, ch);
      if r.next.Again? && r.p.errno.Ok? then Continues(full, seen + r.events, React(r.p, ch))
      else full == r.(events := seen + r.events)
  {
    hide Handle;
    var r := Handle(p, ch);
    if r.next.Again? && r.p.errno.Ok? {
      assert seen + (r.events + React(r.p, ch).events) == (seen + r.events) + React(r.p, ch).events;
    }
  }

  lemma RunExtends(c: Config, data: string, i: nat, j: nat)
    requires i <= j < |data|
    ensures Run(c, data[i..j + 1]) == Feed(Run(c, data[i..j]), data[j])
    ensures Run(c, data[i..i]) == c
  {
    hide Feed;
    assert data[i..j + 1][..j - i] == data[i..j];
  }

  /** Whether a jump over `take` bytes reaches the end of a length-delimited body. */
  predicate EndsBody(p: Parser, take: nat) { p.state.BodyIdentity? && take == p.contentLength }

  /** A jump from data[i] to data[j] against the automaton. */
  lemma JumpSteps(c: Config, data: string, i: nat, j: nat)
    requires i <= j < |data| && Running(c) && Inv(c.p) && Jumps(c.p.state)
    requires c.p.state.BodyIdentityEof? || j - i + 1 <= c.p.contentLength
    ensures var base := Run(c, data[i..j]); var q := Jump(c.p, j - i + 1);
      && Running(base) && base.taken == c.taken + (j - i) && q.errno.Ok?
      && base.trace + [Data(Body, data[j])] == c.trace + Bytes(Body, data[i..j + 1])
      && (if EndsBody(c.p, j - i + 1)
          then Continues(Step(base.p, data[j]), [Data(Body, data[j])], React(q, data[j]))
          else Step(base.p, data[j]) == Reaction(q, [Data(Body, data[j])], Advance))
  {
    hide Step, React, Inv;
    var s := data[i..j + 1];
    assert s[..|s| - 1] == data[i..j] && s[|s| - 1] == data[j];
    JumpRefines(c, s);
    BytesSnoc(Body, data[i..j], data[j]);
    assert s == data[i..j] + [data[j]];
  }

  /** The marks after the same jump. */
  lemma JumpMarks(p: Parser, m: Marks, data: string, i: nat, j: nat)
    requires i <= j < |data| && p.errno.Ok? && Inv(p) && Jumps(p.state)
    requires Within(m, i) && MarksFit(p.state, m)
    requires p.state.BodyIdentityEof? || j - i + 1 <= p.contentLength
    ensures var q, b := Jump(p, j - i + 1), MarkBody(m, i);
      var b' := b.(body := NO_MARK);
      && Within(b, j + 1)
      && Slice(Body, b.body, data, j + 1) == Pending(m, data, i) + Bytes(Body, data[i..j + 1])
      && (if EndsBody(p, j - i + 1)
          then Within(b', i) && MarksFit(q.state, b') && !Jumps(q.state) && Pending(b', data, j) == []
          else MarksFit(q.state, b) && Pending(b, data, j + 1) == Slice(Body, b.body, data, j + 1))
  {
    hide Inv;
    JumpPending(p.state, m, data, i, j + 1);
    if EndsBody(p, j - i + 1) {
      PendingIs(MessageDone, MarkBody(m, i).(body := NO_MARK), data, j);
    }
  }

  /** At the start of a call a run that is under way goes on at the first byte. */
  function InitialMarks(s: State): Marks {
    Marks(if s.HeaderField? then 0 else NO_MARK, if s.HeaderValue? then 0 else NO_MARK,
          if InUrl(s) then 0 else NO_MARK, NO_MARK)
  }

  lemma InitialMarksFit(s: State, data: string)
    ensures var m := InitialMarks(s); Within(m, 0) && MarksFit(s, m) && Pending(m, data, 0) == []
  {
  }

  lemma NothingPending(s: State, m: Marks, data: string, to: nat)
    requires to <= |data| && Within(m, to) && MarksFit(s, m) && BetweenMessages(s)
    ensures Pending(m, data, to) == []
  {
    PendingIs(s, m, data, to);
  }

  lemma {:induction false} LeftBetweenMessages(c: Config, data: string)
    requires !c.left
    ensures Run(c, data).left ==> BetweenMessages(Run(c, data).p.state)
  {
    hide React;
    if data != "" {
      LeftBetweenMessages(c, data[..|data| - 1]);
    }
  }

  /** A call with an empty buffer announces the end of the stream. */
  predicate EndOfStream(p: Parser, trace: seq<Event>, p': Parser, trace': seq<Event>, n: nat) {
    if p.state.BodyIdentityEof? then p' == p && trace' == trace + [Notify(MessageComplete)] && n == 0
    else if BetweenMessages(p.state) || p.state.StartReqOrRes? then p' == p && trace' == trace && n == 0
    else p' == p.(errno := InvalidEofState) && trace' == trace && n == 1
  }

  /** A call with a non-empty buffer is the automaton's run over it, except
      that an error loses the bytes not yet called back. */
  ghost predicate Refines(p: Parser, trace: seq<Event>, data: string, p': Parser, trace': seq<Event>, n: nat) {
    var r := Run(Config(p, trace, 0, false), data);
    && p' == r.p && n == r.taken && n <= |data|
    && (if p'.errno.Ok? then trace' == r.trace else LostRun(trace', r.trace, data, n))
  }

  /** The call so far: the automaton over data[..i], with the marked bytes pending. */
  ghost predicate SoFar(c: Config, data: string, i: nat, p: Parser, trace: seq<Event>, m: Marks) {
    && i <= |data| && Within(m, i) && MarksFit(p.state, m)
    && Run(c, data[..i]) == Config(p, trace + Pending(m, data, i), i, false)
    && p.errno.Ok? && Inv(p)
  }

  lemma SoFarStarts(c: Config, data: string)
    requires Inv(c.p) && Running(c) && c.taken == 0
    ensures SoFar(c, data, 0, c.p, c.trace, InitialMarks(c.p.state))
  {
    InitialMarksFit(c.p.state, data);
    assert data[..0] == "";
    assert c.trace + [] == c.trace;
  }

  lemma SoFarEnds(c: Config, data: string, p: Parser, trace: seq<Event>, m: Marks)
    requires SoFar(c, data, |data|, p, trace, m)
    ensures Run(c, data) ==
      Config(p, trace + Slice(Field, m.field, data, |data|) + Slice(Value, m.value, data, |data|)
                + Slice(Url, m.url, data, |data|) + Slice(Body, m.body, data, |data|), |data|, false)
    ensures Settled(p)
  {
    hide Run, Slice, Inv, MarksFit;
    assert data[..|data|] == data;
    assert Pending(m, data, |data|) == Slice(Field, m.field, data, |data|) + Slice(Value, m.value, data, |data|)
      + Slice(Url, m.url, data, |data|) + Slice(Body, m.body, data, |data|);
  }

  lemma TurnAdvances(c: Config, data: string, i: nat, p: Parser, trace: seq<Event>, m: Marks,
                     j: nat, p': Parser, trace': seq<Event>, m': Marks, stop: bool)
    requires SoFar(c, data, i, p, trace, m) && i <= j < |data| && !c.left
    requires TurnOutcome(Run(Config(p, trace + Pending(m, data, i), i, false), data[i..j + 1]),
                         p', trace', data, j, m', stop)
    ensures Settled(p')
    ensures if stop then
        var r := Run(c, data);
        && p' == r.p && r.taken == (if p'.errno.Ok? then j + 1 else j)
        && (if p'.errno.Ok? then trace' == r.trace else LostRun(trace', r.trace, data, j))
      else SoFar(c, data, j + 1, p', trace', m')
  {
    hide Pending, MarksFit, Inv, Feed, Run;
    var f := Run(c, data[..j + 1]);
    assert data[..i] + data[i..j + 1] == data[..j + 1];
    RunConcat(c, data[..i], data[i..j + 1]);
    RunKeepsInv(Run(c, data[..i]), data[i..j + 1]);
    if stop {
      assert data[..j + 1] + data[j + 1..] == data;
      RunConcat(c, data[..j + 1], data[j + 1..]);
      RunHalted(f, data[j + 1..]);
      if f.p.errno.Ok? {
        LeftBetweenMessages(c, data[..j + 1]);
        NothingPending(p'.state, m', data, j + 1);
      }
    }
  }

  // ---- inputs cut into pieces ---------------------------------------------

  function Flatten(pieces: seq<string>): string {
    if pieces == [] then "" else Flatten(pieces[..|pieces| - 1]) + pieces[|pieces| - 1]
  }

  /** What was delivered before has no influence on what a run does. */
  lemma {:induction false} RunFrame(c: Config, data: string)
    ensures var r := Run(Config(c.p, [], 0, c.left), data);
      Run(c, data) == Config(r.p, c.trace + r.trace, c.taken + r.taken, r.left)
  {
    hide Step;
    if data == "" {
      assert c.trace + [] == c.trace;
    } else {
      var d := data[..|data| - 1];
      RunFrame(c, d);
      var r := Run(Config(c.p, [], 0, c.left), d);
      if Running(r) {
        var e := Step(r.p, data[|data| - 1]).events;
        assert (c.trace + r.trace) + e == c.trace + (r.trace + e);
      }
    }
  }

  class HttpParser {
    var p: Parser
    var trace: seq<Event>

    constructor (t: ParserType)
      ensures p == Init(t) && trace == []
    {
      p := Init(t);
      trace := [];
    }

    /** CALLBACK_DATA: hand over the bytes from the mark, if it is set. */
    method Callback(kind: DataKind, mark: int, data: string, to: nat)
      requires mark <= to <= |data|
      modifies this`trace
      ensures trace == old(trace) + Slice(kind, mark, data, to)
    {
      if mark >= 0 {
        trace := trace + Bytes(kind, data[mark..to]);
      }
    }

    /** One pass through the switch in a state that does not jump. */
    method Dispatch(data: string, i: nat, m: Marks) returns (m': Marks, again: bool, leave: bool)
      requires i < |data| && p.errno.Ok? && !Jumps(p.state)
      requires Within(m, i) && MarksFit(p.state, m)
      modifies this
      ensures var r := Handle(old(p), data[i]);
        && p == r.p
        && (if !p.errno.Ok? then trace == old(trace) && r.events == []
            else
              && again == r.next.Again? && leave == r.next.Leave?
              && Within(m', i) && MarksFit(p.state, m')
              && (again ==> !Jumps(p.state))
              && trace + Pending(m', data, if again then i else i + 1)
                 == old(trace) + Pending(m, data, i) + r.events)
    {
      hide Handle, Delivers, MarksFit, Pending, Slice, MarksAfter, DataAt, Jumps;
      var s, ch := p.state, data[i];
      HandleDelivers(p, ch);
      var r := Handle(p, ch);
      DeliversMeans(s, ch, r);
      p := r.p;
      m', again, leave := m, r.next.Again?, r.next.Leave?;
      if !p.errno.Ok? {
        return;
      }
      PendingAfter(s, ch, m, data, i, r);
      MarksAfterFit(s, ch, m, i, r);
      var d := DataAt(s, ch);
      m' := MarksAfter(s, d, m, i);
      if d.None? {
        // the end of a run: call back, then notify
        EndRun(s, data, i, m);
        trace := trace + r.events;
      }
    }

    /** The data callback for the run that state `s` was in. */
    method EndRun(s: State, data: string, i: nat, m: Marks)
      requires i < |data| && Within(m, i) && MarksFit(s, m)
      modifies this`trace
      ensures trace == old(trace) + Pending(m, data, i)
    {
      hide MarksFit, Pending, Slice;
      PendingIs(s, m, data, i);
      if s.HeaderField? {
        Callback(Field, m.field, data, i);
      } else if s.HeaderValue? {
        Callback(Value, m.value, data, i);
      } else if InUrl(s) {
        Callback(Url, m.url, data, i);
      } else {
        Callback(Body, m.body, data, i);
      }
    }

    /** A jump over body bytes: to the end of the body or of the buffer. */
    method TakeBody(data: string, i: nat, m: Marks) returns (i': nat, m': Marks, again: bool)
      requires i < |data| && p.errno.Ok? && Jumps(p.state) && Inv(p) && Within(m, i)
      modifies this
      ensures i <= i' < |data|
      ensures var q, take := old(p), i' - i + 1;
        && (q.state.BodyIdentityEof? || take <= q.contentLength)
        && p == Jump(q, take)
        && again == EndsBody(q, take)
        && m' == (if again then MarkBody(m, i).(body := NO_MARK) else MarkBody(m, i))
        && trace == old(trace) + if again then Slice(Body, MarkBody(m, i).body, data, i' + 1) else []
    {
      m', again, i' := MarkBody(m, i), false, |data| - 1;
      if !p.state.BodyIdentityEof? {
        LengthIsPending(p);
        assert 0 < p.contentLength < NO_LENGTH;   // the assert of the source
        var toRead := if p.contentLength < |data| - i then p.contentLength else |data| - i;
        p := p.(contentLength := p.contentLength - toRead);
        i' := i + toRead - 1;
        if p.contentLength == 0 {
          if p.state.BodyIdentity? {
            p := p.(state := MessageDone);
            Callback(Body, m'.body, data, i' + 1);
            m', again := m'.(body := NO_MARK), true;
          } else {
            p := p.(state := ChunkDataAlmostDone);
          }
        }
      }
    }

    /** The rest of a turn: passes through the switch until no goto is taken.
        `full` is the automaton's reaction to the byte, `before` all it had delivered. */
    method Passes(data: string, i: nat, m: Marks, ghost full: Reaction, ghost seen: seq<Event>,
                  ghost before: seq<Event>) returns (m': Marks, stop: bool)
      requires i < |data| && p.errno.Ok? && !Jumps(p.state) && Within(m, i) && MarksFit(p.state, m)
      requires Continues(full, seen, React(p, data[i]))
      requires before + seen == trace + Pending(m, data, i)
      modifies this
      ensures p == full.p && stop == (!p.errno.Ok? || full.next.Leave?)
      ensures if p.errno.Ok? then
          && Within(m', i) && MarksFit(p.state, m')
          && before + full.events == trace + Pending(m', data, i + 1)
        else LostRun(trace, before + full.events, data, i)
    {
      hide Handle, MarksFit, Pending, LostRun, Jumps, React, Continues;
      ghost var done := seen;
      var again := true;
      m', stop := m, false;
      while again
        invariant p.errno.Ok? && Within(m', i) && MarksFit(p.state, m')
        invariant again ==> !Jumps(p.state) && Continues(full, done, React(p, data[i]))
        invariant before + done == trace + Pending(m', data, if again then i else i + 1)
        invariant !again ==> full == Reaction(p, done, if stop then Leave else Advance)
        decreases if again then 1 + Rank(p.state) else 0
      {
        ghost var q, ms := p, m';
        ReactUnfolds(p, data[i], full, done);
        m', again, stop := Dispatch(data, i, m');
        ghost var heard := done;
        done := done + Handle(q, data[i]).events;
        if !p.errno.Ok? {
          stop := true;
          assert full.events == heard;
          PendingIsLost(q.state, ms, data, i, trace);
          return;
        }
      }
    }

    /** A turn that jumps over body bytes. */
    method TurnJump(data: string, i: nat, m: Marks) returns (i': nat, m': Marks, stop: bool)
      requires i < |data| && p.errno.Ok? && Inv(p) && Jumps(p.state)
      requires Within(m, i) && MarksFit(p.state, m)
      modifies this
      ensures i <= i' < |data|
      ensures var f := Run(Config(old(p), old(trace) + Pending(m, data, i), i, false), data[i..i' + 1]);
        TurnOutcome(f, p, trace, data, i', m', stop)
    {
      hide Inv, MarksFit, Pending, LostRun, React, Step, Jumps, Jump, MarkBody, Slice, EndsBody, Continues, TurnOutcome,
        Feed, Run;
      ghost var c := Config(p, trace + Pending(m, data, i), i, false);
      ghost var heard := trace;
      var again;
      stop := false;
      i', m', again := TakeBody(data, i, m);
      JumpTurn(c, heard, data, i, i', m);
      RunExtends(c, data, i, i');
      if again {
        ghost var base, last := Run(c, data[i..i']), [Data(Body, data[i'])];
        m', stop := Passes(data, i', m', Step(base.p, data[i']), last, base.trace);
        PassOutcome(base, data, i', p, trace, m', stop);
      } else {
        assert heard + [] == heard && trace == heard;
      }
    }

    /** A turn that takes one byte, counted while headers are read. */
    method TurnByte(data: string, i: nat, m: Marks) returns (m': Marks, stop: bool)
      requires i < |data| && p.errno.Ok? && Inv(p) && !Jumps(p.state)
      requires Within(m, i) && MarksFit(p.state, m)
      modifies this
      ensures var f := Feed(Config(old(p), old(trace) + Pending(m, data, i), i, false), data[i]);
        TurnOutcome(f, p, trace, data, i, m', stop)
    {
      hide Inv, MarksFit, Pending, LostRun, React, Jumps;
      ghost var c := Config(p, trace + Pending(m, data, i), i, false);
      m' := m;
      if ParsingHeader(p.state) {
        p := p.(nread := p.nread + 1);
        if p.nread > MAX_HEADER_SIZE {
          p, stop := p.(errno := HeaderOverflow), true;
          assert c.trace + [] == c.trace;
          PendingIsLost(c.p.state, m, data, i, trace);
          return;
        }
      }
      assert Continues(Step(c.p, data[i]), [], React(p, data[i]));
      m', stop := Passes(data, i, m, Step(c.p, data[i]), [], c.trace);
    }

    /** The byte loop over a non-empty buffer and the callbacks left over at its end. */
    method TakeBuffer(data: string) returns (n: nat)
      requires p.errno.Ok? && Inv(p)
      modifies this
      ensures Settled(p)
      ensures Refines(old(p), old(trace), data, p, trace, n)
    {
      hide Inv, MarksFit, Pending, TurnOutcome, Run, LostRun, Jumps, Feed, Slice, InitialMarks;
      ghost var c := Config(p, trace, 0, false);
      var m, i := InitialMarks(p.state), 0;
      SoFarStarts(c, data);
      while i < |data|
        invariant SoFar(c, data, i, p, trace, m)
      {
        ghost var q, t, k, ms := p, trace, i, m;
        var stop;
        if Jumps(p.state) {
          i, m, stop := TurnJump(data, i, m);
        } else {
          m, stop := TurnByte(data, i, m);
          RunExtends(Config(q, t + Pending(ms, data, i), i, false), data, i, i);
        }
        TurnAdvances(c, data, k, q, t, ms, i, p, trace, m, stop);
        if stop {
          return if p.errno.Ok? then i + 1 else i;
        }
        i := i + 1;
      }
      SoFarEnds(c, data, p, trace, m);
      Callback(Field, m.field, data, i);
      Callback(Value, m.value, data, i);
      Callback(Url, m.url, data, i);
      Callback(Body, m.body, data, i);
      return i;
    }

    /** http_parser_execute. */
    method Execute(data: string) returns (n: nat)
      requires Settled(p)
      modifies this
      ensures Settled(p)
      ensures !old(p).errno.Ok? ==> p == old(p) && trace == old(trace) && n == 0
      ensures old(p).errno.Ok? && data == "" ==> EndOfStream(old(p), old(trace), p, trace, n)
      ensures old(p).errno.Ok? && data != "" ==> Refines(old(p), old(trace), data, p, trace, n)
    {
      hide Inv, Refines;
      if !p.errno.Ok? {
        return 0;
      } else if data != "" {
        n := TakeBuffer(data);
      } else if p.state.BodyIdentityEof? {
        trace := trace + [Notify(MessageComplete)];
        return 0;
      } else if BetweenMessages(p.state) || p.state.StartReqOrRes? {
        return 0;
      } else {
        p := p.(errno := InvalidEofState);
        return 1;
      }
    }

    /** An input that arrives in non-empty pieces, one call per piece: without
        an upgrade the fields, and without an error also everything delivered,
        are those of the automaton over the whole input. */
    method ExecuteAll(pieces: seq<string>)
      requires Settled(p) && p.errno.Ok?
      requires forall k :: 0 <= k < |pieces| ==> pieces[k] != ""
      modifies this
      ensures Settled(p)
      ensures var r := Run(Config(old(p), old(trace), 0, false), Flatten(pieces));
        !r.left ==> p == r.p && (p.errno.Ok? ==> trace == r.trace)
    {
      hide Feed, Settled, LostRun;
      ghost var c := Config(p, trace, 0, false);
      for k := 0 to |pieces|
        invariant Settled(p)
        invariant var r := Run(c, Flatten(pieces[..k]));
          !r.left ==> p == r.p && (p.errno.Ok? ==> trace == r.trace)
      {
        ghost var before := Run(c, Flatten(pieces[..k]));
        ghost var q, t := p, trace;
        assert pieces[..k + 1][..k] == pieces[..k];
        RunConcat(c, Flatten(pieces[..k]), pieces[k]);
        if !before.p.errno.Ok? || before.left {
          RunHalted(before, pieces[k]);
        } else {
          RunFrame(before, pieces[k]);
          RunFrame(Config(q, t, 0, false), pieces[k]);
        }
        var n := Execute(pieces[k]);
      }
      assert pieces[..|pieces|] == pieces;
    }
  }

  /** A jump over the bytes from `i` to `j`, against that many bytes of the automaton:
      either the turn is over, or byte `j` has yet to pass through the state behind
      the body. */
  lemma JumpTurn(c: Config, heard: seq<Event>, data: string, i: nat, j: nat, m: Marks)
    requires i <= j < |data| && c.taken == i && Running(c) && Inv(c.p) && Jumps(c.p.state)
    requires c.p.state.BodyIdentityEof? || j - i + 1 <= c.p.contentLength
    requires Within(m, i) && MarksFit(c.p.state, m) && c.trace == heard + Pending(m, data, i)
    ensures
      var base, q, b := Run(c, data[i..j]), Jump(c.p, j - i + 1), MarkBody(m, i);
      && Running(base) && base.taken == j && q.errno.Ok?
      && (if EndsBody(c.p, j - i + 1) then
            var b' := b.(body := NO_MARK);
            && Within(b', j) && MarksFit(q.state, b') && !Jumps(q.state) && Pending(b', data, j) == []
            && Continues(Step(base.p, data[j]), [Data(Body, data[j])], React(q, data[j]))
            && base.trace + [Data(Body, data[j])] == heard + Slice(Body, b.body, data, j + 1)
          else TurnOutcome(Feed(base, data[j]), q, heard, data, j, b, false))
  {
    hide Inv, MarksFit, Pending, LostRun, React, Step, Jumps, Jump, MarkBody, Slice, EndsBody, Continues, Run;
    JumpSteps(c, data, i, j);
    JumpMarks(c.p, m, data, i, j);
    var base, b := Run(c, data[i..j]), MarkBody(m, i);
    assert base.trace + [Data(Body, data[j])] == heard + Slice(Body, b.body, data, j + 1);
  }

  /** What a byte passed through the switch leaves is the outcome of the turn. */
  lemma PassOutcome(base: Config, data: string, j: nat, p: Parser, trace: seq<Event>, m: Marks, stop: bool)
    requires j < |data| && Running(base) && base.taken == j
    requires p == Step(base.p, data[j]).p && stop == (!p.errno.Ok? || Step(base.p, data[j]).next.Leave?)
    requires
      if p.errno.Ok? then
        && Within(m, j) && MarksFit(p.state, m)
        && base.trace + Step(base.p, data[j]).events == trace + Pending(m, data, j + 1)
      else LostRun(trace, base.trace + Step(base.p, data[j]).events, data, j)
    ensures TurnOutcome(Feed(base, data[j]), p, trace, data, j, m, stop)
  {
    hide Step, MarksFit, Pending, LostRun;
  }

  /** The state of a call after a turn, against the automaton's configuration. */
  ghost predicate TurnOutcome(f: Config, p: Parser, trace: seq<Event>, data: string, i: nat,
                              m: Marks, stop: bool)
    requires i < |data|
  {
    && p == f.p && stop == !Running(f)
    && (if p.errno.Ok? then
          && f.taken == i + 1 && Within(m, i + 1) && MarksFit(p.state, m)
          && f.trace == trace + Pending(m, data, i + 1)
        else f.taken == i && LostRun(trace, f.trace, data, i))
  }
}
