// The data of the incremental HTTP parser: parser states, methods, errors,
// the parser record, and the events its callbacks deliver.
module HttpTypes {
  import opened Decimal

  const MAX_HEADER_SIZE: nat := 80 * 1024
  const TWO_64: nat := 0x1_0000_0000_0000_0000
  const NO_LENGTH: nat := TWO_64 - 1

  datatype ParserType = HttpRequest | HttpResponse | HttpBoth

  datatype State =
    | Dead
    | StartReqOrRes | ResOrRespH | StartRes
    | ResH | ResHT | ResHTT | ResHTTP
    | ResFirstHttpMajor | ResHttpMajor | ResFirstHttpMinor | ResHttpMinor
    | ResFirstStatusCode | ResStatusCode | ResStatus | ResLineAlmostDone
    | StartReq | ReqMethod
    | ReqSpacesBeforeUrl | ReqSchema | ReqSchemaSlash | ReqSchemaSlashSlash
    | ReqServerStart | ReqServer | ReqServerWithAt | ReqPath
    | ReqQueryStringStart | ReqQueryString | ReqFragmentStart | ReqFragment
    | ReqHttpStart | ReqHttpH | ReqHttpHT | ReqHttpHTT | ReqHttpHTTP
    | ReqFirstHttpMajor | ReqHttpMajor | ReqFirstHttpMinor | ReqHttpMinor
    | ReqLineAlmostDone
    | HeaderFieldStart | HeaderField
    | HeaderValueStart | HeaderValue | HeaderValueLws | HeaderAlmostDone
    | ChunkSizeStart | ChunkSize | ChunkParameters | ChunkSizeAlmostDone
    | HeadersAlmostDone | HeadersDone
    | ChunkData | ChunkDataAlmostDone | ChunkDataDone
    | BodyIdentity | BodyIdentityEof | MessageDone

  /** States up to HeadersDone count their bytes against MAX_HEADER_SIZE. */
  predicate ParsingHeader(s: State) {
    !(s.ChunkData? || s.ChunkDataAlmostDone? || s.ChunkDataDone?
      || s.BodyIdentity? || s.BodyIdentityEof? || s.MessageDone?)
  }

  /** What the header matcher believes about the current header line. */
  datatype HeaderState =
    | General | C | CO | CON
    | MatchingConnection | MatchingProxyConnection | MatchingContentLength
    | MatchingTransferEncoding | MatchingUpgrade
    | Connection | ContentLength | TransferEncoding | Upgrade
    | MatchingChunked | MatchingKeepAlive | MatchingClose
    | Chunked | KeepAlive | Close

  datatype Method =
    | DELETE | GET | HEAD | POST | PUT | CONNECT | OPTIONS | TRACE
    | COPY | LOCK | MKCOL | MOVE | PROPFIND | PROPPATCH | SEARCH | UNLOCK
    | REPORT | MKACTIVITY | CHECKOUT | MERGE | MSEARCH | NOTIFY | SUBSCRIBE
    | UNSUBSCRIBE | PATCH | PURGE

  function MethodString(m: Method): string {
    match m
    case DELETE => "DELETE" case GET => "GET" case HEAD => "HEAD"
    case POST => "POST" case PUT => "PUT" case CONNECT => "CONNECT"
    case OPTIONS => "OPTIONS" case TRACE => "TRACE" case COPY => "COPY"
    case LOCK => "LOCK" case MKCOL => "MKCOL" case MOVE => "MOVE"
    case PROPFIND => "PROPFIND" case PROPPATCH => "PROPPATCH"
    case SEARCH => "SEARCH" case UNLOCK => "UNLOCK" case REPORT => "REPORT"
    case MKACTIVITY => "MKACTIVITY" case CHECKOUT => "CHECKOUT"
    case MERGE => "MERGE" case MSEARCH => "M-SEARCH" case NOTIFY => "NOTIFY"
    case SUBSCRIBE => "SUBSCRIBE" case UNSUBSCRIBE => "UNSUBSCRIBE"
    case PATCH => "PATCH" case PURGE => "PURGE"
  }

  /** AssertFailed stands for the abort of a C assert(). */
  datatype Errno =
    | Ok | InvalidEofState | HeaderOverflow | ClosedConnection | InvalidVersion
    | InvalidStatus | InvalidMethod | InvalidUrl | LfExpected
    | InvalidHeaderToken | InvalidContentLength | InvalidChunkSize
    | InvalidConstant | Strict | AssertFailed

  datatype Flags = Flags(chunked: bool, keepAlive: bool, close: bool,
                         trailing: bool, upgrade: bool, skipBody: bool)

  const NO_FLAGS := Flags(false, false, false, false, false, false)

  datatype Parser = Parser(
    ptype: ParserType, flags: Flags, state: State, headerState: HeaderState,
    index: nat, nread: nat, contentLength: nat,
    httpMajor: nat, httpMinor: nat, statusCode: nat,
    verb: Method, errno: Errno, upgrade: bool)

  function Init(t: ParserType): Parser {
    var start := match t
      case HttpRequest => StartReq
      case HttpResponse => StartRes
      case HttpBoth => StartReqOrRes;
    Parser(t, NO_FLAGS, start, General, 0, 0, 0, 0, 0, 0, DELETE, Ok, false)
  }

  datatype DataKind = Url | Field | Value | Body
  datatype Notice = MessageBegin | StatusComplete | HeadersComplete | MessageComplete

  /** One event per byte handed to a data callback, one per notification. */
  datatype Event = Data(kind: DataKind, b: char) | Notify(notice: Notice)

  function Bytes(kind: DataKind, s: string): (events: seq<Event>)
    ensures |events| == |s|
    ensures forall i :: 0 <= i < |s| ==> events[i] == Data(kind, s[i])
  {
    seq(|s|, i requires 0 <= i < |s| => Data(kind, s[i]))
  }

  lemma BytesSnoc(kind: DataKind, s: string, c: char)
    ensures Bytes(kind, s + [c]) == Bytes(kind, s) + [Data(kind, c)]
  {
  }

  lemma BytesConcat(kind: DataKind, s: string, t: string)
    ensures Bytes(kind, s + t) == Bytes(kind, s) + Bytes(kind, t)
  {
  }

  // Character classes, strict mode.

  const FORM_FEED: char := 12 as char

  predicate IsLineEnd(c: char) { c == '\r' || c == '\n' }

  /** c | 0x20 */
  function Lower(c: char): int {
    if (c as int / 32) % 2 == 0 then c as int + 32 else c as int
  }

  predicate IsAlpha(c: char) { 'a' <= c <= 'z' || 'A' <= c <= 'Z' }

  predicate IsAlphaNum(c: char) { IsAlpha(c) || IsNum(c) }

  predicate IsHex(c: char) { IsNum(c) || 'a' <= c <= 'f' || 'A' <= c <= 'F' }

  /** The value of a hexadecimal digit; the table leaves bytes >= 0x80 at 0. */
  function Unhex(c: char): (v: int)
    ensures -1 <= v <= 15
  {
    if IsNum(c) then c as int - '0' as int
    else if 'A' <= c <= 'F' then c as int - 'A' as int + 10
    else if 'a' <= c <= 'f' then c as int - 'a' as int + 10
    else if c as int >= 128 then 0
    else -1
  }

  predicate IsMark(c: char) {
    c == '-' || c == '_' || c == '.' || c == '!' || c == '~' || c == '*'
    || c == '\'' || c == '(' || c == ')'
  }

  predicate IsUserInfoChar(c: char) {
    IsAlphaNum(c) || IsMark(c) || c == '%' || c == ';' || c == ':' || c == '&'
    || c == '=' || c == '+' || c == '$' || c == ','
  }

  predicate IsHostChar(c: char) { IsAlphaNum(c) || c == '.' || c == '-' }

  predicate IsUrlChar(c: char) { '!' <= c <= '~' && c != '#' && c != '?' }

  predicate IsToken(c: char) {
    IsAlphaNum(c) || c == '!' || c == '#' || c == '$' || c == '%' || c == '&'
    || c == '\'' || c == '*' || c == '+' || c == '-' || c == '.' || c == '^'
    || c == '_' || c == '`' || c == '|' || c == '~'
  }

  /** The token table: tokens, with upper-case letters folded to lower case. */
  function TokenOf(c: char): char
    requires IsToken(c)
  {
    if 'A' <= c <= 'Z' then (c as int + 32) as char else c
  }
}
