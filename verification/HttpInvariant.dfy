// What every reachable parser satisfies: no assert() of the source can fire,
// the literal matcher never leaves its literal, and the header byte count
// stays within its limit.
module HttpInvariant {
  import opened HttpTypes
  import opened HttpStep

  /** The header matcher while a field name is read. */
  predicate NameMatcherOk(p: Parser) {
    var h := p.headerState;
    h.General? || NameMatched(h)
    || (h.C? && p.index == 0) || (h.CO? && p.index == 1) || (h.CON? && p.index == 2)
    || (MatchingName(h) && p.index < |Literal(h)| - 1)
  }

  /** The header matcher while a value is read. */
  predicate ValueMatcherOk(p: Parser) {
    var h := p.headerState;
    h.General? || h.ContentLength? || ValueMatched(h)
    || (MatchingValue(h) && p.index < |Literal(h)| - 1)
  }

  predicate LengthPending(p: Parser) { 0 < p.contentLength < NO_LENGTH }

  predicate Inv(p: Parser) {
    && p.nread <= MAX_HEADER_SIZE
    && p.contentLength < TWO_64
    && !p.errno.AssertFailed?
    && (p.errno.Ok? ==>
      && (p.state.ReqMethod? ==> 1 <= p.index <= |MethodString(p.verb)|)
      && (p.state.HeaderField? ==> NameMatcherOk(p))
      && (p.state.HeaderValue? ==> ValueMatcherOk(p))
      && (InChunk(p.state) ==> p.flags.chunked)
      && (p.state.ChunkSizeStart? ==> p.nread == 0)
      && (p.state.ChunkSize? || p.state.ChunkParameters? || p.state.ChunkSizeAlmostDone?
          ==> p.contentLength < NO_LENGTH)
      && (p.state.ChunkData? || p.state.BodyIdentity? ==> LengthPending(p))
      && (p.state.ChunkDataAlmostDone? ==> p.contentLength == 0))
  }

  /** Inv after the byte count of the current byte was added. */
  predicate Counted(p: Parser) {
    if p.state.ChunkSizeStart? then p.nread == 1 && Inv(p.(nread := 0)) else Inv(p)
  }

  /** What one byte leaves behind: the invariant, or an error other than an assert. */
  predicate Settled(p: Parser) {
    !p.errno.AssertFailed? && (p.errno.Ok? ==> Inv(p))
  }

  lemma {:induction false} DivertKeepsPrefix(m: Method, i: nat, ch: char)
    requires 1 <= i <= |MethodString(m)|
    ensures Divert(m, i, ch).Some? ==>
      var t := MethodString(Divert(m, i, ch).value);
      i < |t| && t[..i] == MethodString(m)[..i] && t[i] == ch
  {
    if Divert(m, i, ch).Some? {
      var s, t := MethodString(m), MethodString(Divert(m, i, ch).value);
      forall k | 0 <= k < i
        ensures t[k] == s[k]
      {
      }
    }
  }

  lemma MethodKeepsInv(p: Parser, ch: char)
    requires Counted(p) && p.errno.Ok? && p.state.ReqMethod?
    ensures Settled(MethodByte(p, ch).p)
  {
    DivertKeepsPrefix(p.verb, p.index, ch);
  }

  lemma MatchByteOk(p: Parser, c: int)
    requires MatchingName(p.headerState) || MatchingValue(p.headerState)
    requires p.index < |Literal(p.headerState)| - 1
    ensures var q := MatchByte(p, c);
      && q == p.(index := q.index, headerState := q.headerState)
      && (MatchingName(p.headerState) ==> NameMatcherOk(q))
      && (MatchingValue(p.headerState) ==> ValueMatcherOk(q))
  {
  }

  lemma NameMatcherKeeps(p: Parser, c: char)
    requires NameMatcherOk(p)
    ensures var q := NameMatcher(p, c);
      q == p.(index := q.index, headerState := q.headerState) && NameMatcherOk(q)
  {
    if MatchingName(p.headerState) {
      MatchByteOk(p, c as int);
    }
  }

  lemma NameKeepsInv(p: Parser, ch: char)
    requires Inv(p) && p.errno.Ok? && InFieldName(p.state)
    ensures Settled(FieldNameByte(p, ch).p)
  {
    if p.state.HeaderField? && IsToken(ch) {
      NameMatcherKeeps(p, TokenOf(ch));
    }
  }

  lemma ValueStartKeeps(p: Parser, ch: char)
    requires Inv(p) && p.errno.Ok? && p.state.HeaderValueStart?
    ensures Settled(ValueStart(p, ch))
  {
  }

  lemma ValueMoreKeeps(p: Parser, ch: char)
    requires Inv(p) && p.errno.Ok? && p.state.HeaderValue?
    ensures Settled(ValueMore(p, ch))
  {
    if MatchingValue(p.headerState) {
      MatchByteOk(p, Lower(ch));
    }
  }

  lemma ValueKeepsInv(p: Parser, ch: char)
    requires Inv(p) && p.errno.Ok? && InValue(p.state)
    ensures Settled(ValueByte(p, ch).p)
  {
    if p.state.HeaderValueStart? {
      ValueStartKeeps(p, ch);
    } else if p.state.HeaderValue? {
      ValueMoreKeeps(p, ch);
    }
  }

  lemma ChunkKeepsInv(p: Parser, ch: char)
    requires Counted(p) && p.errno.Ok? && InChunk(p.state)
    ensures Settled(ChunkByte(p, ch).p)
  {
  }

  /** States the invariant says nothing particular about. */
  predicate Idle(s: State) {
    !(s.ReqMethod? || s.HeaderField? || s.HeaderValue? || s.ChunkSizeStart? || s.ChunkSize?
      || s.ChunkParameters? || s.ChunkSizeAlmostDone? || s.ChunkData? || s.ChunkDataAlmostDone?
      || s.ChunkDataDone? || s.BodyIdentity?)
  }

  /** A reaction that touches neither counter and reaches an idle state. */
  predicate Quiet(p: Parser, q: Parser) {
    Idle(q.state) && q.nread == p.nread && !q.errno.AssertFailed?
    && (q.contentLength == p.contentLength || q.contentLength == NO_LENGTH)
  }

  lemma QuietKeepsInv(p: Parser, q: Parser)
    requires Inv(p) && Quiet(p, q)
    ensures Settled(q)
  {
  }

  lemma StartKeepsInv(p: Parser, ch: char)
    requires Inv(p) && p.errno.Ok? && InStart(p.state)
    ensures Settled(StartByte(p, ch).p)
  {
    if !StartByte(p, ch).p.state.ReqMethod? {
      StartIsQuiet(p, ch);
      hide StartByte, Inv;
      QuietKeepsInv(p, StartByte(p, ch).p);
    } else {
      StartsMethod(p, ch);
    }
  }

  lemma StartIsQuiet(p: Parser, ch: char)
    requires !p.errno.AssertFailed? && InStart(p.state) && !StartByte(p, ch).p.state.ReqMethod?
    ensures Quiet(p, StartByte(p, ch).p)
  {
    hide FirstMethod, HasMethodLetter, IsAlpha;
  }

  lemma StartsMethod(p: Parser, ch: char)
    requires Inv(p) && p.errno.Ok? && InStart(p.state) && StartByte(p, ch).p.state.ReqMethod?
    ensures Settled(StartByte(p, ch).p)
  {
    hide FirstMethod, HasMethodLetter, IsAlpha;
  }

  lemma MoreIsQuiet(p: Parser, ch: char)
    requires !p.errno.AssertFailed?
    ensures
      var q := MoreMajor(p, ch).p;
      q.state == p.state && q.nread == p.nread && q.contentLength == p.contentLength && !q.errno.AssertFailed?
    ensures
      var q := MoreMinor(p, ch).p;
      q.state == p.state && q.nread == p.nread && q.contentLength == p.contentLength && !q.errno.AssertFailed?
  {
  }

  /** The status line up to its version's major number. */
  predicate InStatusWord(s: State) {
    s.ResH? || s.ResHT? || s.ResHTT? || s.ResHTTP? || s.ResFirstHttpMajor? || s.ResHttpMajor?
  }

  lemma StatusWordIsQuiet(p: Parser, ch: char)
    requires !p.errno.AssertFailed? && InStatusWord(p.state)
    ensures Quiet(p, StatusLineByte(p, ch).p)
  {
    MoreIsQuiet(p, ch);
    hide MoreMajor, MoreMinor;
  }

  lemma StatusRestIsQuiet(p: Parser, ch: char)
    requires !p.errno.AssertFailed? && InStatusLine(p.state) && !InStatusWord(p.state)
    ensures Quiet(p, StatusLineByte(p, ch).p)
  {
    MoreIsQuiet(p, ch);
    hide MoreMajor, MoreMinor;
  }

  lemma StatusLineIsQuiet(p: Parser, ch: char)
    requires !p.errno.AssertFailed? && InStatusLine(p.state)
    ensures Quiet(p, StatusLineByte(p, ch).p)
  {
    if InStatusWord(p.state) {
      StatusWordIsQuiet(p, ch);
    } else {
      StatusRestIsQuiet(p, ch);
    }
    hide StatusLineByte, Quiet;
  }

  lemma VersionIsQuiet(p: Parser, ch: char)
    requires !p.errno.AssertFailed? && InVersion(p.state)
    ensures Quiet(p, VersionByte(p, ch).p)
  {
    MoreIsQuiet(p, ch);
    hide MoreMajor, MoreMinor;
  }

  lemma UrlKeepsInv(p: Parser, ch: char)
    requires Inv(p) && p.errno.Ok? && (p.state.ReqSpacesBeforeUrl? || InUrl(p.state))
    ensures Settled(UrlByte(p, ch).p)
  {
    UrlIsQuiet(p, ch);
    hide UrlByte;
    QuietKeepsInv(p, UrlByte(p, ch).p);
  }

  lemma UrlIsQuiet(p: Parser, ch: char)
    requires !p.errno.AssertFailed? && (p.state.ReqSpacesBeforeUrl? || InUrl(p.state))
    ensures Quiet(p, UrlByte(p, ch).p)
  {
    hide ParseUrlChar;
  }

  lemma HeadersEndKeepsInv(p: Parser, ch: char)
    requires Inv(p) && p.errno.Ok? && InHeadersEnd(p.state)
    ensures Settled(HeadersEndByte(p, ch).p)
  {
  }

  lemma BodyKeepsInv(p: Parser, ch: char)
    requires Inv(p) && p.errno.Ok? && InBody(p.state)
    ensures Settled(BodyByte(p, ch).p)
  {
  }

  lemma HandleKeepsInv(p: Parser, ch: char)
    requires Counted(p) && p.errno.Ok?
    ensures Settled(Handle(p, ch).p)
  {
    hide StartByte, StatusLineByte, MethodByte, UrlByte, VersionByte, FieldNameByte,
      ValueByte, HeadersEndByte, BodyByte, ChunkByte, Settled;
    if InStart(p.state) {
      StartKeepsInv(p, ch);
    } else if InStatusLine(p.state) {
      StatusLineIsQuiet(p, ch);
      QuietKeepsInv(p, StatusLineByte(p, ch).p);
    } else if p.state.ReqMethod? {
      MethodKeepsInv(p, ch);
    } else if p.state.ReqSpacesBeforeUrl? || InUrl(p.state) {
      UrlKeepsInv(p, ch);
    } else if InVersion(p.state) {
      VersionIsQuiet(p, ch);
      QuietKeepsInv(p, VersionByte(p, ch).p);
    } else if InFieldName(p.state) {
      NameKeepsInv(p, ch);
    } else if InValue(p.state) {
      ValueKeepsInv(p, ch);
    } else if InHeadersEnd(p.state) {
      HeadersEndKeepsInv(p, ch);
    } else if InBody(p.state) {
      BodyKeepsInv(p, ch);
    } else {
      ChunkKeepsInv(p, ch);
    }
  }

  lemma {:induction false} ReactKeepsInv(p: Parser, ch: char)
    requires Counted(p) && p.errno.Ok?
    ensures Settled(React(p, ch).p)
    decreases Rank(p.state)
  {
    HandleKeepsInv(p, ch);
    var r := Handle(p, ch);
    if r.next.Again? && r.p.errno.Ok? {
      ReactKeepsInv(r.p, ch);
    }
  }

  lemma StepKeepsInv(p: Parser, ch: char)
    requires Inv(p) && p.errno.Ok?
    ensures Settled(Step(p, ch).p)
  {
    hide React;
    if ParsingHeader(p.state) {
      var q := p.(nread := p.nread + 1);
      if q.nread <= MAX_HEADER_SIZE {
        assert p.state.ChunkSizeStart? ==> q.(nread := 0) == p;
        ReactKeepsInv(q, ch);
      }
    } else {
      ReactKeepsInv(p, ch);
    }
  }

  /** Over every input: the invariant holds or the parser stopped in a
      parsing error, never in an assert. */
  lemma {:induction false} RunKeepsInv(c: Config, data: string)
    requires Settled(c.p)
    ensures Settled(Run(c, data).p)
  {
    if data != "" {
      var before := Run(c, data[..|data| - 1]);
      RunKeepsInv(c, data[..|data| - 1]);
      if Running(before) {
        StepKeepsInv(before.p, data[|data| - 1]);
      }
    }
  }

  lemma NoAssertFires(t: ParserType, data: string)
    ensures var p := Run(Config(Init(t), [], 0, false), data).p;
      && !p.errno.AssertFailed?
      && (p.errno.Ok? ==> p.nread <= MAX_HEADER_SIZE)
      && (p.errno.Ok? && p.state.HeaderField? && MatchingName(p.headerState) ==>
            p.index < |Literal(p.headerState)|)
      && (p.errno.Ok? && p.state.HeaderValue? && MatchingValue(p.headerState) ==>
            p.index < |Literal(p.headerState)|)
      && (p.errno.Ok? && p.state.ReqMethod? ==> p.index <= |MethodString(p.verb)|)
  {
    RunKeepsInv(Config(Init(t), [], 0, false), data);
  }
}
