// The reaction of the parser to one byte, state family by state family.
module HttpStep {
  import opened Decimal
  import opened HttpTypes

  /** Whether the byte is consumed, seen again in the new state (the source's
      goto), or consumed with a return to the caller (upgrade). */
  datatype Next = Advance | Again | Leave

  datatype Reaction = Reaction(p: Parser, events: seq<Event>, next: Next)

  function Move(p: Parser, s: State): Reaction { Reaction(p.(state := s), [], Advance) }

  function Stay(p: Parser): Reaction { Reaction(p, [], Advance) }

  function Fail(p: Parser, e: Errno): Reaction { Reaction(p.(errno := e), [], Advance) }

  function Retry(p: Parser, s: State): Reaction { Reaction(p.(state := s), [], Again) }

  function MoveNotify(p: Parser, s: State, n: Notice): Reaction {
    Reaction(p.(state := s), [Notify(n)], Advance)
  }

  function StartState(p: Parser): State {
    if p.ptype.HttpRequest? then StartReq else StartRes
  }

  predicate MessageNeedsEof(p: Parser) {
    !p.ptype.HttpRequest?
    && !(p.statusCode / 100 == 1 || p.statusCode == 204 || p.statusCode == 304 || p.flags.skipBody)
    && !p.flags.chunked && p.contentLength == NO_LENGTH
  }

  predicate ShouldKeepAlive(p: Parser) {
    (if p.httpMajor > 0 && p.httpMinor > 0 then !p.flags.close else p.flags.keepAlive)
    && !MessageNeedsEof(p)
  }

  function NewMessage(p: Parser): State {
    if ShouldKeepAlive(p) then StartState(p) else Dead
  }

  predicate BetweenMessages(s: State) { s.Dead? || s.StartReq? || s.StartRes? }

  function Complete(p: Parser): Reaction { MoveNotify(p, NewMessage(p), MessageComplete) }

  // ---- start of a message -------------------------------------------------

  predicate InStart(s: State) {
    s.Dead? || s.StartReqOrRes? || s.ResOrRespH? || s.StartRes? || s.StartReq?
  }

  function Fresh(p: Parser): Parser { p.(flags := NO_FLAGS, contentLength := NO_LENGTH) }

  predicate HasMethodLetter(c: char) {
    c == 'C' || c == 'D' || c == 'G' || c == 'H' || c == 'L' || c == 'M' || c == 'N'
    || c == 'O' || c == 'P' || c == 'R' || c == 'S' || c == 'T' || c == 'U'
  }

  /** The method assumed after its first letter. */
  function FirstMethod(c: char): Method {
    if c == 'C' then CONNECT else if c == 'D' then DELETE else if c == 'G' then GET
    else if c == 'H' then HEAD else if c == 'L' then LOCK else if c == 'M' then MKCOL
    else if c == 'N' then NOTIFY else if c == 'O' then OPTIONS else if c == 'P' then POST
    else if c == 'R' then REPORT else if c == 'S' then SUBSCRIBE
    else if c == 'T' then TRACE else if c == 'U' then UNLOCK else DELETE
  }

  function StartByte(p: Parser, ch: char): (r: Reaction)
    requires InStart(p.state)
    ensures r.next.Again? ==> Rank(r.p.state) < Rank(p.state)
    ensures r.next.Leave? ==> BetweenMessages(r.p.state)
  {
    match p.state
    case Dead => if IsLineEnd(ch) then Stay(p) else Fail(p, ClosedConnection)
    case StartReqOrRes =>
      if IsLineEnd(ch) then Stay(p)
      else if ch == 'H' then MoveNotify(Fresh(p), ResOrRespH, MessageBegin)
      else Retry(Fresh(p).(ptype := HttpRequest), StartReq)
    case ResOrRespH =>
      if ch == 'T' then Move(p.(ptype := HttpResponse), ResHT)
      else if ch != 'E' then Fail(p, InvalidConstant)
      else Move(p.(ptype := HttpRequest, verb := HEAD, index := 2), ReqMethod)
    case StartRes =>
      // a blank line before the status line also announces a message
      if ch == 'H' then MoveNotify(Fresh(p), ResH, MessageBegin)
      else if IsLineEnd(ch) then MoveNotify(Fresh(p), StartRes, MessageBegin)
      else Fail(Fresh(p), InvalidConstant)
    case StartReq =>
      if IsLineEnd(ch) then Stay(p)
      else if !IsAlpha(ch) then Fail(Fresh(p), InvalidMethod)
      else
        var q := Fresh(p).(verb := FirstMethod(ch), index := 1);
        if HasMethodLetter(ch) then MoveNotify(q, ReqMethod, MessageBegin)
        else Fail(q, InvalidMethod)
  }

  // ---- status line --------------------------------------------------------

  predicate InStatusLine(s: State) {
    s.ResH? || s.ResHT? || s.ResHTT? || s.ResHTTP? || s.ResFirstHttpMajor? || s.ResHttpMajor?
    || s.ResFirstHttpMinor? || s.ResHttpMinor? || s.ResFirstStatusCode? || s.ResStatusCode?
    || s.ResStatus? || s.ResLineAlmostDone?
  }

  /** STRICT_CHECK: the byte has to be the expected one. */
  function Expect(p: Parser, ch: char, want: char, s: State): Reaction {
    if ch == want then Move(p, s) else Fail(p, Strict)
  }

  function MoreMajor(p: Parser, ch: char): Reaction {
    if !IsNum(ch) then Fail(p, InvalidVersion)
    else
      var q := p.(httpMajor := p.httpMajor * 10 + Digit(ch));
      if q.httpMajor > 999 then Fail(q, InvalidVersion) else Stay(q)
  }

  function MoreMinor(p: Parser, ch: char): Reaction {
    if !IsNum(ch) then Fail(p, InvalidVersion)
    else
      var q := p.(httpMinor := p.httpMinor * 10 + Digit(ch));
      if q.httpMinor > 999 then Fail(q, InvalidVersion) else Stay(q)
  }

  function StatusLineByte(p: Parser, ch: char): (r: Reaction)
    requires InStatusLine(p.state)
    ensures r.next.Again? ==> Rank(r.p.state) < Rank(p.state)
    ensures r.next.Leave? ==> BetweenMessages(r.p.state)
  {
    match p.state
    case ResH => Expect(p, ch, 'T', ResHT)
    case ResHT => Expect(p, ch, 'T', ResHTT)
    case ResHTT => Expect(p, ch, 'P', ResHTTP)
    case ResHTTP => Expect(p, ch, '/', ResFirstHttpMajor)
    case ResFirstHttpMajor =>
      if !IsNum(ch) then Fail(p, InvalidVersion)
      else Move(p.(httpMajor := Digit(ch)), ResHttpMajor)
    case ResHttpMajor =>
      if ch == '.' then Move(p, ResFirstHttpMinor) else MoreMajor(p, ch)
    case ResFirstHttpMinor =>
      if !IsNum(ch) then Fail(p, InvalidVersion)
      else Move(p.(httpMinor := Digit(ch)), ResHttpMinor)
    case ResHttpMinor =>
      if ch == ' ' then Move(p, ResFirstStatusCode) else MoreMinor(p, ch)
    case ResFirstStatusCode =>
      if IsNum(ch) then Move(p.(statusCode := Digit(ch)), ResStatusCode)
      else if ch == ' ' then Stay(p)
      else Fail(p, InvalidStatus)
    case ResStatusCode =>
      if IsNum(ch) then
        var q := p.(statusCode := p.statusCode * 10 + Digit(ch));
        if q.statusCode > 999 then Fail(q, InvalidStatus) else Stay(q)
      else if ch == ' ' then Move(p, ResStatus)
      else if ch == '\r' then Move(p, ResLineAlmostDone)
      else if ch == '\n' then Move(p, HeaderFieldStart)
      else Fail(p, InvalidStatus)
    case ResStatus =>
      if ch == '\r' then Move(p, ResLineAlmostDone)
      else if ch == '\n' then Move(p, HeaderFieldStart)
      else Stay(p)
    case ResLineAlmostDone =>
      if ch == '\n' then MoveNotify(p, HeaderFieldStart, StatusComplete) else Fail(p, Strict)
  }

  // ---- request method -----------------------------------------------------

  /** The method that `m`, matched for `i` bytes, turns into when `ch` is not
      its next byte; None when no method fits. */
  function Divert(m: Method, i: nat, ch: char): (r: Option<Method>) {
    match m
    case CONNECT =>
      if i == 1 && ch == 'H' then Some(CHECKOUT)
      else if i == 2 && ch == 'P' then Some(COPY) else None
    case MKCOL =>
      if i == 1 && ch == 'O' then Some(MOVE)
      else if i == 1 && ch == 'E' then Some(MERGE)
      else if i == 1 && ch == '-' then Some(MSEARCH)
      else if i == 2 && ch == 'A' then Some(MKACTIVITY) else None
    case SUBSCRIBE => if i == 1 && ch == 'E' then Some(SEARCH) else None
    case POST =>
      if i != 1 then None
      else if ch == 'R' then Some(PROPFIND)
      else if ch == 'U' then Some(PUT)
      else if ch == 'A' then Some(PATCH) else None
    case PUT => if i == 2 && ch == 'R' then Some(PURGE) else None
    case UNLOCK => if i == 2 && ch == 'S' then Some(UNSUBSCRIBE) else None
    case PROPFIND => if i == 4 && ch == 'P' then Some(PROPPATCH) else None
    case _ => None
  }

  datatype Option<T> = None | Some(value: T)

  function MethodByte(p: Parser, ch: char): (r: Reaction)
    requires p.state.ReqMethod?
    ensures r.next.Again? ==> Rank(r.p.state) < Rank(p.state)
    ensures r.next.Leave? ==> BetweenMessages(r.p.state)
  {
    var matcher := MethodString(p.verb);
    var q := p.(index := p.index + 1);
    if ch == '\0' then Fail(p, InvalidMethod)
    else if ch == ' ' && p.index == |matcher| then Move(q, ReqSpacesBeforeUrl)
    else if p.index < |matcher| && ch == matcher[p.index] then Stay(q)
    else
      match Divert(p.verb, p.index, ch)
      case Some(m) => Stay(q.(verb := m))
      case None => Fail(p, InvalidMethod)
  }

  // ---- request target -----------------------------------------------------

  /** States whose bytes belong to the request target. */
  predicate InUrl(s: State) {
    s.ReqSchema? || s.ReqSchemaSlash? || s.ReqSchemaSlashSlash? || s.ReqServerStart?
    || s.ReqServer? || s.ReqServerWithAt? || s.ReqPath? || s.ReqQueryStringStart?
    || s.ReqQueryString? || s.ReqFragmentStart? || s.ReqFragment?
  }

  /** The subset after which the target may end. */
  predicate InUrlTail(s: State) {
    s.ReqServer? || s.ReqServerWithAt? || s.ReqPath? || s.ReqQueryStringStart?
    || s.ReqQueryString? || s.ReqFragmentStart? || s.ReqFragment?
  }

  /** parse_url_char: the next URL state, Dead when the byte does not fit. */
  function ParseUrlChar(s: State, ch: char): (t: State)
    ensures t.Dead? || InUrl(t)
  {
    if ch == ' ' || ch == '\r' || ch == '\n' || ch == '\t' || ch == FORM_FEED then Dead
    else
      match s
      case ReqSpacesBeforeUrl =>
        if ch == '/' || ch == '*' then ReqPath else if IsAlpha(ch) then ReqSchema else Dead
      case ReqSchema =>
        if IsAlpha(ch) then ReqSchema else if ch == ':' then ReqSchemaSlash else Dead
      case ReqSchemaSlash => if ch == '/' then ReqSchemaSlashSlash else Dead
      case ReqSchemaSlashSlash => if ch == '/' then ReqServerStart else Dead
      case ReqServerWithAt => if ch == '@' then Dead else ServerChar(ch)
      case ReqServerStart => ServerChar(ch)
      case ReqServer => ServerChar(ch)
      case ReqPath =>
        if IsUrlChar(ch) then ReqPath
        else if ch == '?' then ReqQueryStringStart
        else if ch == '#' then ReqFragmentStart else Dead
      case ReqQueryStringStart => QueryChar(ch)
      case ReqQueryString => QueryChar(ch)
      case ReqFragmentStart =>
        if IsUrlChar(ch) || ch == '?' then ReqFragment
        else if ch == '#' then ReqFragmentStart else Dead
      case ReqFragment =>
        if IsUrlChar(ch) || ch == '?' || ch == '#' then ReqFragment else Dead
      case _ => Dead
  }

  function ServerChar(ch: char): State {
    if ch == '/' then ReqPath
    else if ch == '?' then ReqQueryStringStart
    else if ch == '@' then ReqServerWithAt
    else if IsUserInfoChar(ch) || ch == '[' || ch == ']' then ReqServer
    else Dead
  }

  function QueryChar(ch: char): State {
    if IsUrlChar(ch) || ch == '?' then ReqQueryString
    else if ch == '#' then ReqFragmentStart else Dead
  }

  function UrlChar(p: Parser, from: State, ch: char): Reaction {
    var t := ParseUrlChar(from, ch);
    if t.Dead? then Fail(p.(state := Dead), InvalidUrl)
    else Reaction(p.(state := t), [Data(Url, ch)], Advance)
  }

  function UrlByte(p: Parser, ch: char): (r: Reaction)
    requires p.state.ReqSpacesBeforeUrl? || InUrl(p.state)
    ensures r.next.Again? ==> Rank(r.p.state) < Rank(p.state)
    ensures r.next.Leave? ==> BetweenMessages(r.p.state)
  {
    if p.state.ReqSpacesBeforeUrl? then
      if ch == ' ' then Stay(p)
      else UrlChar(p, if p.verb.CONNECT? then ReqServerStart else ReqSpacesBeforeUrl, ch)
    else if ch == ' ' then
      if InUrlTail(p.state) then Move(p, ReqHttpStart) else Fail(p, InvalidUrl)
    else if IsLineEnd(ch) then
      if InUrlTail(p.state) then
        Move(p.(httpMajor := 0, httpMinor := 9),
             if ch == '\r' then ReqLineAlmostDone else HeaderFieldStart)
      else Fail(p, InvalidUrl)
    else UrlChar(p, p.state, ch)
  }

  // ---- request version ----------------------------------------------------

  predicate InVersion(s: State) {
    s.ReqHttpStart? || s.ReqHttpH? || s.ReqHttpHT? || s.ReqHttpHTT? || s.ReqHttpHTTP?
    || s.ReqFirstHttpMajor? || s.ReqHttpMajor? || s.ReqFirstHttpMinor? || s.ReqHttpMinor?
    || s.ReqLineAlmostDone?
  }

  function VersionByte(p: Parser, ch: char): (r: Reaction)
    requires InVersion(p.state)
    ensures r.next.Again? ==> Rank(r.p.state) < Rank(p.state)
    ensures r.next.Leave? ==> BetweenMessages(r.p.state)
  {
    match p.state
    case ReqHttpStart =>
      if ch == 'H' then Move(p, ReqHttpH)
      else if ch == ' ' then Stay(p)
      else Fail(p, InvalidConstant)
    case ReqHttpH => Expect(p, ch, 'T', ReqHttpHT)
    case ReqHttpHT => Expect(p, ch, 'T', ReqHttpHTT)
    case ReqHttpHTT => Expect(p, ch, 'P', ReqHttpHTTP)
    case ReqHttpHTTP => Expect(p, ch, '/', ReqFirstHttpMajor)
    case ReqFirstHttpMajor =>
      if !('1' <= ch <= '9') then Fail(p, InvalidVersion)
      else Move(p.(httpMajor := Digit(ch)), ReqHttpMajor)
    case ReqHttpMajor =>
      if ch == '.' then Move(p, ReqFirstHttpMinor) else MoreMajor(p, ch)
    case ReqFirstHttpMinor =>
      if !IsNum(ch) then Fail(p, InvalidVersion)
      else Move(p.(httpMinor := Digit(ch)), ReqHttpMinor)
    case ReqHttpMinor =>
      if ch == '\r' then Move(p, ReqLineAlmostDone)
      else if ch == '\n' then Move(p, HeaderFieldStart)
      else MoreMinor(p, ch)
    case ReqLineAlmostDone =>
      if ch != '\n' then Fail(p, LfExpected) else Move(p, HeaderFieldStart)
  }

  // ---- header field names -------------------------------------------------

  const CONNECTION := "connection"
  const PROXY_CONNECTION := "proxy-connection"
  const CONTENT_LENGTH := "content-length"
  const TRANSFER_ENCODING := "transfer-encoding"
  const UPGRADE := "upgrade"
  const CHUNKED := "chunked"
  const KEEP_ALIVE := "keep-alive"
  const CLOSE := "close"

  /** The literal a matching state compares against. */
  function Literal(h: HeaderState): string {
    match h
    case MatchingConnection => CONNECTION
    case MatchingProxyConnection => PROXY_CONNECTION
    case MatchingContentLength => CONTENT_LENGTH
    case MatchingTransferEncoding => TRANSFER_ENCODING
    case MatchingUpgrade => UPGRADE
    case MatchingChunked => CHUNKED
    case MatchingKeepAlive => KEEP_ALIVE
    case MatchingClose => CLOSE
    case _ => ""
  }

  /** The state a matching state ends in when the whole literal was seen. */
  function Matched(h: HeaderState): HeaderState {
    match h
    case MatchingConnection => Connection
    case MatchingProxyConnection => Connection
    case MatchingContentLength => ContentLength
    case MatchingTransferEncoding => TransferEncoding
    case MatchingUpgrade => Upgrade
    case MatchingChunked => Chunked
    case MatchingKeepAlive => KeepAlive
    case MatchingClose => Close
    case _ => General
  }

  /** One byte (already folded to lower case) against the current literal. */
  function MatchByte(p: Parser, c: int): Parser {
    var lit := Literal(p.headerState);
    var i := p.index + 1;
    p.(index := i,
       headerState :=
         if i >= |lit| || c != lit[i] as int then General
         else if i == |lit| - 1 then Matched(p.headerState)
         else p.headerState)
  }

  predicate InFieldName(s: State) { s.HeaderFieldStart? || s.HeaderField? }

  predicate MatchingName(h: HeaderState) {
    h.MatchingConnection? || h.MatchingProxyConnection? || h.MatchingContentLength?
    || h.MatchingTransferEncoding? || h.MatchingUpgrade?
  }

  predicate NameMatched(h: HeaderState) {
    h.Connection? || h.ContentLength? || h.TransferEncoding? || h.Upgrade?
  }

  /** The header matcher after one more token byte of the field name. */
  function NameMatcher(p: Parser, c: char): Parser {
    var q := p.(index := p.index + 1);
    var h := p.headerState;
    if h.General? then p
    else if h.C? then q.(headerState := if c == 'o' then CO else General)
    else if h.CO? then q.(headerState := if c == 'n' then CON else General)
    else if h.CON? then
      q.(headerState := if c == 'n' then MatchingConnection
                        else if c == 't' then MatchingContentLength else General)
    else if MatchingName(h) then MatchByte(p, c as int)
    else if NameMatched(h) then p.(headerState := General)   // a token byte is never a space
    else p.(errno := AssertFailed)
  }

  function FieldNameByte(p: Parser, ch: char): (r: Reaction)
    requires InFieldName(p.state)
    ensures r.next.Again? ==> Rank(r.p.state) < Rank(p.state)
    ensures r.next.Leave? ==> BetweenMessages(r.p.state)
  {
    if p.state.HeaderFieldStart? then
      if ch == '\r' then Move(p, HeadersAlmostDone)
      else if ch == '\n' then Retry(p, HeadersAlmostDone)
      else if !IsToken(ch) then Fail(p, InvalidHeaderToken)
      else
        var c := TokenOf(ch);
        var h := if c == 'c' then C else if c == 'p' then MatchingProxyConnection
                 else if c == 't' then MatchingTransferEncoding
                 else if c == 'u' then MatchingUpgrade else General;
        Reaction(p.(state := HeaderField, index := 0, headerState := h), [Data(Field, ch)], Advance)
    else if IsToken(ch) then
      var q := NameMatcher(p, TokenOf(ch));
      Reaction(q, if q.errno.Ok? then [Data(Field, ch)] else [], Advance)
    else if ch == ':' then Move(p, HeaderValueStart)
    else if ch == '\r' then Move(p, HeaderAlmostDone)
    else if ch == '\n' then Move(p, HeaderFieldStart)
    else Fail(p, InvalidHeaderToken)
  }

  // ---- header values ------------------------------------------------------

  predicate InValue(s: State) {
    s.HeaderValueStart? || s.HeaderValue? || s.HeaderValueLws? || s.HeaderAlmostDone?
  }

  predicate MatchingValue(h: HeaderState) {
    h.MatchingChunked? || h.MatchingKeepAlive? || h.MatchingClose?
  }

  predicate ValueMatched(h: HeaderState) { h.Chunked? || h.KeepAlive? || h.Close? }

  /** One decimal digit appended to a 64-bit length; None on the overflow the source detects. */
  function AppendDigit(length: nat, d: nat, base: nat): Option<nat> {
    var t := ((length * base) % TWO_64 + d) % TWO_64;
    if t < length || t == NO_LENGTH then None else Some(t)
  }

  /** First byte of a header value. */
  function ValueStart(p: Parser, ch: char): Parser {
    var q := p.(state := HeaderValue, index := 0);
    var c := Lower(ch);
    match p.headerState
    case Upgrade => q.(flags := q.flags.(upgrade := true), headerState := General)
    case TransferEncoding =>
      q.(headerState := if c == 'c' as int then MatchingChunked else General)
    case ContentLength =>
      if !IsNum(ch) then q.(errno := InvalidContentLength) else q.(contentLength := Digit(ch))
    case Connection =>
      q.(headerState := if c == 'k' as int then MatchingKeepAlive
                        else if c == 'c' as int then MatchingClose else General)
    case _ => q.(headerState := General)
  }

  /** A later byte of a header value. */
  function ValueMore(p: Parser, ch: char): Parser {
    var h := p.headerState;
    if h.General? then p
    else if h.Connection? || h.TransferEncoding? then p.(errno := AssertFailed)
    else if h.ContentLength? then
      if ch == ' ' then p
      else if !IsNum(ch) then p.(errno := InvalidContentLength)
      else
        match AppendDigit(p.contentLength, Digit(ch), 10)
        case None => p.(errno := InvalidContentLength)
        case Some(t) => p.(contentLength := t)
    else if MatchingValue(h) then MatchByte(p, Lower(ch))
    else if ValueMatched(h) then if ch != ' ' then p.(headerState := General) else p
    else p.(headerState := General)
  }

  function ValueData(q: Parser, ch: char): Reaction {
    Reaction(q, if q.errno.Ok? then [Data(Value, ch)] else [], Advance)
  }

  function ValueByte(p: Parser, ch: char): (r: Reaction)
    requires InValue(p.state)
    ensures r.next.Again? ==> Rank(r.p.state) < Rank(p.state)
    ensures r.next.Leave? ==> BetweenMessages(r.p.state)
  {
    match p.state
    case HeaderValueStart =>
      if ch == ' ' || ch == '\t' then Stay(p)
      else if ch == '\r' then Move(p.(index := 0, headerState := General), HeaderAlmostDone)
      else if ch == '\n' then Move(p.(index := 0), HeaderFieldStart)
      else ValueData(ValueStart(p, ch), ch)
    case HeaderValue =>
      if ch == '\r' then Move(p, HeaderAlmostDone)
      else if ch == '\n' then Retry(p, HeaderAlmostDone)
      else ValueData(ValueMore(p, ch), ch)
    case HeaderAlmostDone =>
      if ch != '\n' then Fail(p, Strict)
      else
        var f := p.flags;
        var g := match p.headerState
          case KeepAlive => f.(keepAlive := true)
          case Close => f.(close := true)
          case Chunked => f.(chunked := true)
          case _ => f;
        Move(p.(flags := g), HeaderValueLws)
    case HeaderValueLws =>
      if ch == ' ' || ch == '\t' then Move(p, HeaderValueStart)
      else Retry(p, HeaderFieldStart)
  }

  // ---- end of the headers -------------------------------------------------

  predicate InHeadersEnd(s: State) { s.HeadersAlmostDone? || s.HeadersDone? }

  function HeadersEndByte(p: Parser, ch: char): (r: Reaction)
    requires InHeadersEnd(p.state)
    ensures r.next.Again? ==> Rank(r.p.state) < Rank(p.state)
    ensures r.next.Leave? ==> BetweenMessages(r.p.state)
  {
    if ch != '\n' then Fail(p, Strict)
    else if p.state.HeadersAlmostDone? then
      if p.flags.trailing then Complete(p)
      else
        var q := p.(state := HeadersDone, upgrade := p.flags.upgrade || p.verb.CONNECT?);
        Reaction(q, [Notify(HeadersComplete)], Again)
    else
      var q := p.(nread := 0);
      if q.upgrade then Complete(q).(next := Leave)
      else if q.flags.skipBody then Complete(q)
      else if q.flags.chunked then Move(q, ChunkSizeStart)
      else if q.contentLength == 0 then Complete(q)
      else if q.contentLength != NO_LENGTH then Move(q, BodyIdentity)
      else if q.ptype.HttpRequest? || !MessageNeedsEof(q) then Complete(q)
      else Move(q, BodyIdentityEof)
  }

  // ---- bodies -------------------------------------------------------------

  predicate InBody(s: State) { s.BodyIdentity? || s.BodyIdentityEof? || s.MessageDone? }

  function BodyByte(p: Parser, ch: char): (r: Reaction)
    requires InBody(p.state)
    ensures r.next.Again? ==> Rank(r.p.state) < Rank(p.state)
    ensures r.next.Leave? ==> BetweenMessages(r.p.state)
  {
    match p.state
    case BodyIdentity =>
      if p.contentLength == 0 || p.contentLength == NO_LENGTH then Fail(p, AssertFailed)
      else
        var q := p.(contentLength := p.contentLength - 1);
        if q.contentLength == 0 then Reaction(q.(state := MessageDone), [Data(Body, ch)], Again)
        else Reaction(q, [Data(Body, ch)], Advance)
    case BodyIdentityEof => Reaction(p, [Data(Body, ch)], Advance)
    case MessageDone => Complete(p)
  }

  predicate InChunk(s: State) {
    s.ChunkSizeStart? || s.ChunkSize? || s.ChunkParameters? || s.ChunkSizeAlmostDone?
    || s.ChunkData? || s.ChunkDataAlmostDone? || s.ChunkDataDone?
  }

  function ChunkSizeByte(p: Parser, ch: char): Reaction {
    if ch == '\r' then Move(p, ChunkSizeAlmostDone)
    else if Unhex(ch) == -1 then
      if ch == ';' || ch == ' ' then Move(p, ChunkParameters) else Fail(p, InvalidChunkSize)
    else
      match AppendDigit(p.contentLength, Unhex(ch), 16)
      case None => Fail(p, InvalidContentLength)
      case Some(t) => Stay(p.(contentLength := t))
  }

  function ChunkByte(p: Parser, ch: char): (r: Reaction)
    requires InChunk(p.state)
    ensures r.next.Again? ==> Rank(r.p.state) < Rank(p.state)
    ensures r.next.Leave? ==> BetweenMessages(r.p.state)
  {
    if !p.flags.chunked then Fail(p, AssertFailed)
    else
      match p.state
      case ChunkSizeStart =>
        if p.nread != 1 then Fail(p, AssertFailed)
        else if Unhex(ch) == -1 then Fail(p, InvalidChunkSize)
        else Move(p.(contentLength := Unhex(ch)), ChunkSize)
      case ChunkSize => ChunkSizeByte(p, ch)
      case ChunkParameters => if ch == '\r' then Move(p, ChunkSizeAlmostDone) else Stay(p)
      case ChunkSizeAlmostDone =>
        if ch != '\n' then Fail(p, Strict)
        else
          var q := p.(nread := 0);
          if q.contentLength == 0
          then Move(q.(flags := q.flags.(trailing := true)), HeaderFieldStart)
          else Move(q, ChunkData)
      case ChunkData =>
        if p.contentLength == 0 || p.contentLength == NO_LENGTH then Fail(p, AssertFailed)
        else
          var q := p.(contentLength := p.contentLength - 1);
          Reaction(if q.contentLength == 0 then q.(state := ChunkDataAlmostDone) else q,
                   [Data(Body, ch)], Advance)
      case ChunkDataAlmostDone =>
        if p.contentLength != 0 then Fail(p, AssertFailed)
        else Expect(p, ch, '\r', ChunkDataDone)
      case ChunkDataDone =>
        if ch != '\n' then Fail(p, Strict) else Move(p.(nread := 0), ChunkSizeStart)
  }

  // ---- one byte -----------------------------------------------------------

  /** The switch on the state. */
  function Handle(p: Parser, ch: char): (r: Reaction)
    ensures r.next.Again? ==> Rank(r.p.state) < Rank(p.state)
    ensures r.next.Leave? ==> BetweenMessages(r.p.state)
  {
    var s := p.state;
    if InStart(s) then StartByte(p, ch)
    else if InStatusLine(s) then StatusLineByte(p, ch)
    else if s.ReqMethod? then MethodByte(p, ch)
    else if s.ReqSpacesBeforeUrl? || InUrl(s) then UrlByte(p, ch)
    else if InVersion(s) then VersionByte(p, ch)
    else if InFieldName(s) then FieldNameByte(p, ch)
    else if InValue(s) then ValueByte(p, ch)
    else if InHeadersEnd(s) then HeadersEndByte(p, ch)
    else if InBody(s) then BodyByte(p, ch)
    else ChunkByte(p, ch)
  }

  /** How many times the byte can still be seen again. */
  function Rank(s: State): nat {
    match s
    case HeaderValueLws => 3
    case HeaderFieldStart => 2
    case HeadersAlmostDone => 1
    case HeaderValue => 1
    case StartReqOrRes => 1
    case BodyIdentity => 1
    case _ => 0
  }

  /** A byte together with every goto it causes. */
  function React(p: Parser, ch: char): (r: Reaction)
    ensures r.next.Leave? ==> BetweenMessages(r.p.state)
    decreases Rank(p.state)
  {
    var r := Handle(p, ch);
    if r.next.Again? && r.p.errno.Ok? then
      var again := React(r.p, ch);
      again.(events := r.events + again.events)
    else r
  }

  /** One turn of the byte loop, with the header size limit. */
  function Step(p: Parser, ch: char): Reaction {
    var q := if ParsingHeader(p.state) then p.(nread := p.nread + 1) else p;
    if q.nread > MAX_HEADER_SIZE && ParsingHeader(p.state) then Fail(q, HeaderOverflow)
    else React(q, ch)
  }

  // ---- whole inputs -------------------------------------------------------

  /** A parser with everything it has delivered so far, the number of bytes
      taken, and whether it left early for an upgrade. */
  datatype Config = Config(p: Parser, trace: seq<Event>, taken: nat, left: bool)

  predicate Running(c: Config) { c.p.errno.Ok? && !c.left }

  function Feed(c: Config, ch: char): Config {
    if !Running(c) then c
    else
      var r := Step(c.p, ch);
      Config(r.p, c.trace + r.events, if r.p.errno.Ok? then c.taken + 1 else c.taken,
             r.p.errno.Ok? && r.next.Leave?)
  }

  /** The byte-at-a-time automaton. */
  function Run(c: Config, data: string): Config {
    if data == "" then c else Feed(Run(c, data[..|data| - 1]), data[|data| - 1])
  }

  lemma {:induction false} RunConcat(c: Config, a: string, b: string)
    ensures Run(c, a + b) == Run(Run(c, a), b)
  {
    if b == "" {
      assert a + b == a;
    } else {
      var b' := b[..|b| - 1];
      assert (a + b)[..|a + b| - 1] == a + b';
      RunConcat(c, a, b');
    }
  }

  lemma RunOne(c: Config, ch: char)
    ensures Run(c, [ch]) == Feed(c, ch)
  {
    assert [ch][..0] == "";
    assert Run(c, [ch][..0]) == c;
  }

  lemma RunLast(c: Config, v: string, ch: char)
    ensures Run(c, v + [ch]) == Feed(Run(c, v), ch)
  {
    RunConcat(c, v, [ch]);
    RunOne(Run(c, v), ch);
  }

  /** A byte within the size limit that is neither an error nor an exit. */
  lemma FeedCounted(c: Config, ch: char, r: Reaction)
    requires Running(c) && ParsingHeader(c.p.state) && c.p.nread < MAX_HEADER_SIZE
    requires React(c.p.(nread := c.p.nread + 1), ch) == r && r.next.Advance? && r.p.errno.Ok?
    ensures Feed(c, ch) == Config(r.p, c.trace + r.events, c.taken + 1, false)
  {
    hide React;
  }

  lemma FeedFails(c: Config, ch: char)
    requires Running(c) && ParsingHeader(c.p.state) && c.p.nread < MAX_HEADER_SIZE
    requires !React(c.p.(nread := c.p.nread + 1), ch).p.errno.Ok?
    ensures !Running(Feed(c, ch))
  {
    hide React;
  }

  /** The head form of Run. */
  lemma RunCons(c: Config, data: string)
    requires data != ""
    ensures Run(c, data) == Run(Feed(c, data[0]), data[1..])
  {
    assert data == [data[0]] + data[1..];
    RunConcat(c, [data[0]], data[1..]);
    RunOne(c, data[0]);
  }

  /** An error or an upgrade ends a run. */
  lemma {:induction false} RunHalted(c: Config, data: string)
    requires !Running(c)
    ensures Run(c, data) == c
  {
    if data != "" {
      RunHalted(c, data[..|data| - 1]);
    }
  }
}
