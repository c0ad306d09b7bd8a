// http_parser_parse_url and http_parse_host: splitting a URL into parts
// (section 3 of RFC 3986).
module HttpUrl {
  import opened Decimal
  import opened HttpTypes
  import opened HttpStep

  datatype Part = Schema | UserInfo | Host | Port | Path | Query | Fragment

  /** The order in which parts appear in a URL. */
  function Place(f: Part): nat {
    match f
    case Schema => 0 case UserInfo => 1 case Host => 2 case Port => 3
    case Path => 4 case Query => 5 case Fragment => 6
  }

  datatype Span = Span(off: nat, len: nat) {
    function End(): nat { off + len }
  }

  /** The parts that are set, with their position in the buffer. */
  type Parts = map<Part, Span>

  /** Non-empty, in bounds, and in URL order without overlap. */
  ghost predicate Arranged(u: Parts, to: nat) {
    && (forall f :: f in u ==> u[f].len > 0 && u[f].End() <= to)
    && (forall f, g :: f in u && g in u && Place(f) < Place(g) ==> u[f].End() <= u[g].off)
  }

  function Text(buf: string, s: Span): string
    requires s.End() <= |buf|
  {
    buf[s.off..s.End()]
  }

  /** Bytes between parts. */
  predicate Delimiter(c: char) {
    c == ':' || c == '/' || c == '@' || c == '[' || c == ']' || c == '?' || c == '#'
  }

  // ---- the authority ------------------------------------------------------

  datatype HostState =
    | HostDead | UserInfoStart | InUserInfo | HostStart | V6Start | InHost | InV6 | V6End
    | PortStart | InPort

  /** http_parse_host_char */
  function HostChar(s: HostState, ch: char): HostState {
    match s
    case InUserInfo => UserInfoChar(ch)
    case UserInfoStart => UserInfoChar(ch)
    case HostStart =>
      if ch == '[' then V6Start else if IsHostChar(ch) then InHost else HostDead
    case InHost => if IsHostChar(ch) then InHost else if ch == ':' then PortStart else HostDead
    case V6End => if ch == ':' then PortStart else HostDead
    case InV6 => if ch == ']' then V6End else if V6Char(ch) then InV6 else HostDead
    case V6Start => if V6Char(ch) then InV6 else HostDead
    case InPort => if IsNum(ch) then InPort else HostDead
    case PortStart => if IsNum(ch) then InPort else HostDead
    case HostDead => HostDead
  }

  function UserInfoChar(ch: char): HostState {
    if ch == '@' then HostStart else if IsUserInfoChar(ch) then InUserInfo else HostDead
  }

  predicate V6Char(ch: char) { IsHex(ch) || ch == ':' || ch == '.' }

  function HostRun(s: HostState, text: string): HostState {
    if text == "" then s else HostChar(HostRun(s, text[..|text| - 1]), text[|text| - 1])
  }

  lemma {:induction false} DeadHostRun(s: HostState, text: string, k: nat)
    requires k <= |text| && HostRun(s, text[..k]).HostDead?
    ensures HostRun(s, text).HostDead?
  {
    if k < |text| {
      var t := text[..|text| - 1];
      assert t[..k] == text[..k];
      DeadHostRun(s, t, k);
    } else {
      assert text[..k] == text;
    }
  }

  /** The states an authority may end in. */
  predicate HostEnds(s: HostState) { s.InHost? || s.V6End? || s.InPort? }

  function HostBegin(foundAt: bool): HostState {
    if foundAt then UserInfoStart else HostStart
  }

  /** Reading user information, or not past its end yet. */
  predicate BeforeHost(s: HostState) { s.UserInfoStart? || s.InUserInfo? }

  /** User information: everything before the '@', if there is one. */
  ghost predicate UserOk(buf: string, from: nat, p: nat, s: HostState, foundAt: bool, user: Span) {
    && from <= p <= |buf|
    && (s.UserInfoStart? ==> from == p && user.len == 0)
    && (s.InUserInfo? ==> user.len > 0 && user.End() == p)
    && (user.len > 0 ==> foundAt && user.off == from && user.End() <= p)
    && (user.len > 0 ==> forall i :: user.off <= i < user.End() ==> IsUserInfoChar(buf[i]))
    && (user.len > 0 && !s.InUserInfo? ==> user.End() < p && buf[user.End()] == '@')
    && (foundAt && !BeforeHost(s) && user.len == 0 ==> from < p && buf[from] == '@')
    && (BeforeHost(s) ==> foundAt)
  }

  ghost predicate HostText(buf: string, host: Span) {
    host.End() <= |buf| && forall i :: host.off <= i < host.End() ==> IsHostChar(buf[i])
  }

  ghost predicate V6Text(buf: string, host: Span) {
    && 0 < host.off && host.End() <= |buf| && buf[host.off - 1] == '['
    && forall i :: host.off <= i < host.End() ==> V6Char(buf[i])
  }

  /** A host is bare, or an address in brackets that `p` is past, if closed. */
  ghost predicate HostShape(buf: string, p: nat, host: Span, closed: bool)
    requires p <= |buf|
  {
    HostText(buf, host)
    || (V6Text(buf, host) && (closed ==> host.End() < p && buf[host.End()] == ']'))
  }

  /** The host: bare or in brackets, behind the user information. */
  ghost predicate HostOk(buf: string, from: nat, p: nat, s: HostState, user: Span, host: Span) {
    && from <= p <= |buf|
    && (host.len > 0 <==> s.InHost? || s.InV6? || s.V6End? || s.PortStart? || s.InPort?)
    && (s.InHost? ==> host.End() == p && HostText(buf, host))
    && (s.V6Start? ==> p > from && buf[p - 1] == '[' && (user.len > 0 ==> user.End() < p - 1))
    && (s.InV6? ==> host.End() == p && V6Text(buf, host))
    && (s.V6End? ==> host.End() + 1 == p && V6Text(buf, host) && buf[host.End()] == ']')
    && (host.len > 0 ==> from <= host.off && host.End() <= p && (user.len > 0 ==> user.End() < host.off))
    && (host.len > 0 ==> HostShape(buf, p, host, !s.InV6?))
  }

  /** The port: digits behind a ':' behind the host. */
  ghost predicate PortOk(buf: string, p: nat, s: HostState, host: Span, port: Span)
    requires p <= |buf|
  {
    && (port.len > 0 <==> s.InPort?)
    && (s.PortStart? ==> host.End() < p && buf[p - 1] == ':')
    && (s.InPort? ==> host.End() < port.off && port.End() == p && buf[port.off - 1] == ':')
    && (s.InPort? ==> forall i :: port.off <= i < p ==> IsNum(buf[i]))
  }

  /** The parts found in buf[from..p] when the host automaton is in state `s`. */
  ghost predicate HostParts(buf: string, from: nat, p: nat, s: HostState, foundAt: bool,
                            user: Span, host: Span, port: Span) {
    UserOk(buf, from, p, s, foundAt, user) && HostOk(buf, from, p, s, user, host)
    && PortOk(buf, p, s, host, port)
  }

  /** A span that goes on while the automaton stays in its state, and starts when it enters it. */
  function Track(span: Span, staying: bool, entering: bool, p: nat): Span {
    if !entering then span else if staying then span.(len := span.len + 1) else Span(p, 1)
  }

  lemma HostPartsStep(buf: string, from: nat, p: nat, s: HostState, foundAt: bool,
                      user: Span, host: Span, port: Span)
    requires p < |buf| && HostParts(buf, from, p, s, foundAt, user, host, port)
    requires !HostChar(s, buf[p]).HostDead?
    ensures var t := HostChar(s, buf[p]);
      HostParts(buf, from, p + 1, t, foundAt, Track(user, s.InUserInfo?, t.InUserInfo?, p),
                Track(host, s == t, t.InHost? || t.InV6?, p), Track(port, s.InPort?, t.InPort?, p))
  {
    hide IsHostChar, IsUserInfoChar, V6Char;
    var t := HostChar(s, buf[p]);
    var user', host', port' := Track(user, s.InUserInfo?, t.InUserInfo?, p),
      Track(host, s == t, t.InHost? || t.InV6?, p), Track(port, s.InPort?, t.InPort?, p);
    assert UserOk(buf, from, p + 1, t, foundAt, user');
    assert HostOk(buf, from, p + 1, t, user', host');
    assert PortOk(buf, p + 1, t, host', port');
  }

  predicate Inside(k: nat, s: Span) { s.off <= k < s.End() }

  /** Nothing but delimiters lies outside the three parts. */
  ghost predicate AuthorityCovered(buf: string, from: nat, p: nat, user: Span, host: Span, port: Span) {
    from <= p <= |buf|
    && forall k :: from <= k < p ==> Inside(k, user) || Inside(k, host) || Inside(k, port) || Delimiter(buf[k])
  }

  lemma HostDelimiters(s: HostState, ch: char)
    ensures var t := HostChar(s, ch);
      !t.HostDead? && !t.InUserInfo? && !t.InHost? && !t.InV6? && !t.InPort? ==> Delimiter(ch)
  {
    hide IsHostChar, IsUserInfoChar, V6Char;
  }

  lemma CoveredHostStep(buf: string, from: nat, p: nat, s: HostState, foundAt: bool,
                        user: Span, host: Span, port: Span)
    requires p < |buf| && HostParts(buf, from, p, s, foundAt, user, host, port)
    requires AuthorityCovered(buf, from, p, user, host, port) && !HostChar(s, buf[p]).HostDead?
    ensures var t := HostChar(s, buf[p]);
      AuthorityCovered(buf, from, p + 1, Track(user, s.InUserInfo?, t.InUserInfo?, p),
                       Track(host, s == t, t.InHost? || t.InV6?, p), Track(port, s.InPort?, t.InPort?, p))
  {
    hide IsHostChar, IsUserInfoChar, V6Char, Delimiter;
    HostDelimiters(s, buf[p]);
  }

  const NOWHERE := Span(0, 0)

  function Set(u: Parts, f: Part, s: Span): Parts { if s.len > 0 then u[f := s] else u }

  lemma HostPartsStart(buf: string, from: nat, foundAt: bool)
    requires from <= |buf|
    ensures HostParts(buf, from, from, HostBegin(foundAt), foundAt, NOWHERE, NOWHERE, NOWHERE)
  {
  }

  /** http_parse_host: the authority buf[area] into user information, host and port. */
  method ParseHost(buf: string, area: Span, foundAt: bool)
    returns (ok: bool, user: Span, host: Span, port: Span)
    requires area.End() <= |buf|
    ensures ok == HostEnds(HostRun(HostBegin(foundAt), Text(buf, area)))
    ensures ok ==> HostParts(buf, area.off, area.End(), HostRun(HostBegin(foundAt), Text(buf, area)),
                             foundAt, user, host, port)
    ensures ok ==> AuthorityCovered(buf, area.off, area.End(), user, host, port)
  {
    hide HostChar, HostParts;
    var s := HostBegin(foundAt);
    HostPartsStart(buf, area.off, foundAt);
    user, host, port := NOWHERE, NOWHERE, NOWHERE;
    var p := area.off;
    while p < area.End()
      invariant area.off <= p <= area.End()
      invariant s == HostRun(HostBegin(foundAt), buf[area.off..p]) && !s.HostDead?
      invariant HostParts(buf, area.off, p, s, foundAt, user, host, port)
      invariant AuthorityCovered(buf, area.off, p, user, host, port)
    {
      var t := HostChar(s, buf[p]);
      assert buf[area.off..p + 1][..p - area.off] == buf[area.off..p];
      if t.HostDead? {
        assert Text(buf, area)[..p + 1 - area.off] == buf[area.off..p + 1];
        DeadHostRun(HostBegin(foundAt), Text(buf, area), p + 1 - area.off);
        return false, user, host, port;
      }
      HostPartsStep(buf, area.off, p, s, foundAt, user, host, port);
      CoveredHostStep(buf, area.off, p, s, foundAt, user, host, port);
      if t.InHost? || t.InV6? {
        host := if s == t then host.(len := host.len + 1) else Span(p, 1);
      } else if t.InPort? {
        port := if s == t then port.(len := port.len + 1) else Span(p, 1);
      } else if t.InUserInfo? {
        user := if s == t then user.(len := user.len + 1) else Span(p, 1);
      }
      s := t;
      p := p + 1;
    }
    ok := HostEnds(s);
  }

  // ---- the whole URL ------------------------------------------------------

  function UrlBegin(isConnect: bool): State {
    if isConnect then ReqServerStart else ReqSpacesBeforeUrl
  }

  function UrlRun(s: State, text: string): State {
    if text == "" then s else ParseUrlChar(UrlRun(s, text[..|text| - 1]), text[|text| - 1])
  }

  lemma {:induction false} DeadUrlRun(s: State, text: string, k: nat)
    requires k <= |text| && UrlRun(s, text[..k]).Dead?
    ensures UrlRun(s, text).Dead?
  {
    hide IsUrlChar, IsUserInfoChar, IsAlpha;
    if k < |text| {
      var t := text[..|text| - 1];
      assert t[..k] == text[..k];
      DeadUrlRun(s, t, k);
    } else {
      assert text[..k] == text;
    }
  }

  datatype MaybePart = NoPart | Of(part: Part)

  /** The part a byte belongs to that leads to this state; delimiters belong to none. */
  function PartOf(s: State): MaybePart {
    match s
    case ReqSchema => Of(Schema)
    case ReqServer => Of(Host)
    case ReqServerWithAt => Of(Host)
    case ReqPath => Of(Path)
    case ReqQueryString => Of(Query)
    case ReqFragment => Of(Fragment)
    case _ => NoPart
  }

  /** Where the last part lies, given the state. */
  predicate LastPartFits(s: State, last: MaybePart, isConnect: bool, i: nat) {
    match s
    case ReqSpacesBeforeUrl => last.NoPart? && i == 0 && !isConnect
    case ReqSchema => last == Of(Schema) && !isConnect
    case ReqSchemaSlash => last == Of(Schema) && !isConnect
    case ReqSchemaSlashSlash => last == Of(Schema) && !isConnect
    case ReqServerStart => if isConnect then last.NoPart? && i == 0 else last == Of(Schema)
    case ReqQueryStringStart => last.NoPart? || Place(last.part) < Place(Query)
    case ReqFragmentStart => last.NoPart? || Place(last.part) < Place(Fragment)
    case _ => PartOf(s).Of? && last == PartOf(s)
  }

  /** Bytes of an authority that is not yet taken apart. */
  predicate AuthorityChar(c: char) { IsUserInfoChar(c) || c == '@' || c == '[' || c == ']' }

  /** The scheme: letters from the start, then as much of "://" as was read. */
  ghost predicate SchemeOk(buf: string, u: Parts, s: State, isConnect: bool, i: nat)
    requires i <= |buf|
  {
    if Schema in u then
      var e := u[Schema].End();
      && !isConnect && u[Schema].off == 0 && 0 < e <= i
      && (forall k :: 0 <= k < e ==> IsAlpha(buf[k]))
      && (if s.ReqSchema? then e == i
          else if s.ReqSchemaSlash? then e + 1 == i && buf[e] == ':'
          else if s.ReqSchemaSlashSlash? then e + 2 == i && buf[e] == ':' && buf[e + 1] == '/'
          else e + 3 <= i && buf[e] == ':' && buf[e + 1] == '/' && buf[e + 2] == '/'
               && (s.ReqServerStart? ==> e + 3 == i))
    else
      !s.ReqSchema? && (!isConnect && i > 0 ==> !IsAlpha(buf[0]))
  }

  function AuthorityBegin(u: Parts): nat { if Schema in u then u[Schema].End() + 3 else 0 }

  predicate InAuthority(s: State) { s.ReqServerStart? || s.ReqServer? || s.ReqServerWithAt? }

  predicate PastAuthority(s: State) {
    s.ReqPath? || s.ReqQueryStringStart? || s.ReqQueryString? || s.ReqFragmentStart? || s.ReqFragment?
  }

  /** The authority: up to the first '/' or '?'. */
  ghost predicate AuthorityOk(buf: string, u: Parts, s: State, foundAt: bool, isConnect: bool, i: nat)
    requires i <= |buf|
  {
    && (s.ReqServer? || s.ReqServerWithAt? ==> Host in u && u[Host].End() == i)
    && (Host in u ==>
          && u[Host].off == AuthorityBegin(u) && u[Host].len > 0 && u[Host].End() <= i
          && (Schema in u || isConnect)
          && (forall k :: u[Host].off <= k < u[Host].End() ==> AuthorityChar(buf[k]))
          && (InAuthority(s) || (u[Host].End() < i && (buf[u[Host].End()] == '/' || buf[u[Host].End()] == '?')))
          && (foundAt <==> exists k :: u[Host].off <= k < u[Host].End() && buf[k] == '@'))
    && (Host !in u ==> !foundAt)
    && (Host !in u && (Schema in u || isConnect) && PastAuthority(s) ==>
          AuthorityBegin(u) < i && (buf[AuthorityBegin(u)] == '/' || buf[AuthorityBegin(u)] == '?'))
  }

  /** The delimiters in front of the later parts. */
  ghost predicate TailOk(buf: string, u: Parts, s: State, i: nat)
    requires i <= |buf|
  {
    && (Path in u ==> u[Path].off < i && (buf[u[Path].off] == '/' || buf[u[Path].off] == '*'))
    && (s.ReqQueryStringStart? ==> i > 0 && buf[i - 1] == '?')
    && (s.ReqFragmentStart? ==> i > 0 && buf[i - 1] == '#')
    && (Query in u ==> 0 < u[Query].off <= i && buf[u[Query].off - 1] == '?')
    && (Fragment in u ==> 0 < u[Fragment].off <= i && buf[u[Fragment].off - 1] == '#')
  }

  /** The coarse split of buf[..i]: user information and port are still in the authority. */
  ghost predicate Split(buf: string, u: Parts, s: State, last: MaybePart, isConnect: bool, i: nat) {
    && i <= |buf| && !s.Dead? && LastPartFits(s, last, isConnect, i)
    && (i == 0 ==> s == UrlBegin(isConnect) && u == map[])
    && Arranged(u, i) && UserInfo !in u && Port !in u
    && (last.NoPart? ==> u == map[])
    && (last.Of? ==> last.part in u && forall f :: f in u ==> Place(f) <= Place(last.part))
    && (PartOf(s).Of? ==> PartOf(s).part in u && u[PartOf(s).part].End() == i)
  }

  /** The parts after one more byte in state `t`. */
  function Extend(u: Parts, last: MaybePart, t: State, i: nat): Parts {
    if PartOf(t).NoPart? then u
    else
      var f := PartOf(t).part;
      if last == Of(f) && f in u then u[f := u[f].(len := u[f].len + 1)] else u[f := Span(i, 1)]
  }

  function LastAfter(last: MaybePart, t: State): MaybePart {
    if PartOf(t).NoPart? then last else PartOf(t)
  }

  /** Parts only ever come in URL order. */
  lemma LastPartStep(s: State, last: MaybePart, isConnect: bool, i: nat, ch: char)
    requires !s.Dead? && LastPartFits(s, last, isConnect, i) && !ParseUrlChar(s, ch).Dead?
    ensures var t := ParseUrlChar(s, ch);
      && LastPartFits(t, LastAfter(last, t), isConnect, i + 1)
      && (PartOf(t).Of? ==>
            last.NoPart? || Place(last.part) < Place(PartOf(t).part) || (last == PartOf(t) && PartOf(s) == PartOf(t)))
      && (PartOf(t).Of? ==> PartOf(t).part != UserInfo && PartOf(t).part != Port)
  {
    hide IsUrlChar, IsUserInfoChar, IsAlpha;
  }

  /** A part that goes on, or a later one that starts, keeps the arrangement. */
  lemma ExtendArranged(u: Parts, last: MaybePart, f: Part, i: nat)
    requires Arranged(u, i)
    requires last.NoPart? ==> u == map[]
    requires last.Of? ==> last.part in u && forall g :: g in u ==> Place(g) <= Place(last.part)
    requires last.NoPart? || Place(last.part) < Place(f) || (last == Of(f) && u[f].End() == i)
    ensures var v := if last == Of(f) && f in u then u[f := u[f].(len := u[f].len + 1)] else u[f := Span(i, 1)];
      && Arranged(v, i + 1) && f in v && v[f].End() == i + 1
      && forall g :: g in v ==> Place(g) <= Place(f)
  {
    PlacesDiffer();
  }

  lemma PlacesDiffer()
    ensures forall f, g :: Place(f) == Place(g) ==> f == g
  {
  }

  lemma SplitStep(buf: string, u: Parts, s: State, last: MaybePart, isConnect: bool, i: nat)
    requires i < |buf| && Split(buf, u, s, last, isConnect, i)
    requires !ParseUrlChar(s, buf[i]).Dead?
    ensures var t := ParseUrlChar(s, buf[i]);
      Split(buf, Extend(u, last, t, i), t, LastAfter(last, t), isConnect, i + 1)
  {
    hide ParseUrlChar, Arranged, LastPartFits;
    var t := ParseUrlChar(s, buf[i]);
    LastPartStep(s, last, isConnect, i, buf[i]);
    if PartOf(t).Of? {
      ExtendArranged(u, last, PartOf(t).part, i);
    } else {
      ArrangedFurther(u, i);
    }
  }

  lemma ArrangedFurther(u: Parts, i: nat)
    requires Arranged(u, i)
    ensures Arranged(u, i + 1)
  {
  }

  lemma SchemeMoves(s: State, ch: char)
    requires !ParseUrlChar(s, ch).Dead?
    ensures var t := ParseUrlChar(s, ch);
      && !t.ReqSpacesBeforeUrl?
      && (s.ReqSpacesBeforeUrl? ==> if IsAlpha(ch) then t.ReqSchema? else t.ReqPath?)
      && (t.ReqSchema? ==> (s.ReqSpacesBeforeUrl? || s.ReqSchema?) && IsAlpha(ch))
      && (s.ReqSchema? ==> t.ReqSchema? || t.ReqSchemaSlash?)
      && (s.ReqSchemaSlash? <==> t.ReqSchemaSlashSlash?) && (s.ReqSchemaSlashSlash? <==> t.ReqServerStart?)
      && (t.ReqSchemaSlash? ==> s.ReqSchema? && ch == ':')
      && (t.ReqSchemaSlashSlash? || t.ReqServerStart? ==> ch == '/')
  {
    hide IsUrlChar, IsUserInfoChar;
  }

  /** A byte changes no part but the one it belongs to. */
  lemma ExtendOnly(u: Parts, last: MaybePart, t: State, i: nat, f: Part)
    ensures var v := Extend(u, last, t, i);
      && (PartOf(t) != Of(f) ==> (f in v <==> f in u) && (f in u ==> v[f] == u[f]))
      && (PartOf(t) == Of(f) ==>
            f in v && v[f] == if last == Of(f) && f in u then u[f].(len := u[f].len + 1) else Span(i, 1))
  {
  }

  lemma SchemeFacts(buf: string, u: Parts, s: State, last: MaybePart, isConnect: bool, i: nat)
    requires Split(buf, u, s, last, isConnect, i)
    ensures s.ReqSpacesBeforeUrl? ==> i == 0 && !isConnect && u == map[] && last.NoPart?
    ensures s.ReqSchema? ==> last == Of(Schema) && Schema in u
    ensures i == 0 ==> s == UrlBegin(isConnect) && u == map[]
    ensures s.ReqSchema? || s.ReqSchemaSlash? || s.ReqSchemaSlashSlash? ==> Schema in u && !isConnect
  {
    hide Arranged;
  }

  lemma SchemeStep(buf: string, u: Parts, s: State, last: MaybePart, isConnect: bool, i: nat)
    requires i < |buf| && Split(buf, u, s, last, isConnect, i) && SchemeOk(buf, u, s, isConnect, i)
    requires !ParseUrlChar(s, buf[i]).Dead?
    ensures var t := ParseUrlChar(s, buf[i]);
      SchemeOk(buf, Extend(u, last, t, i), t, isConnect, i + 1)
  {
    hide ParseUrlChar, Split, Extend, IsAlpha;
    SchemeFacts(buf, u, s, last, isConnect, i);
    SchemeMoves(s, buf[i]);
    ExtendOnly(u, last, ParseUrlChar(s, buf[i]), i, Schema);
  }

  lemma AuthorityMoves(s: State, ch: char)
    requires !ParseUrlChar(s, ch).Dead?
    ensures var t := ParseUrlChar(s, ch);
      && (t.ReqServer? || t.ReqServerWithAt? ==> InAuthority(s) && AuthorityChar(ch))
      && (t.ReqServerWithAt? <==> InAuthority(s) && ch == '@')
      && (InAuthority(s) && !InAuthority(t) ==> ch == '/' || ch == '?')
      && (t.ReqServerStart? ==> s.ReqSchemaSlashSlash?)
      && (PastAuthority(t) ==> PastAuthority(s) || InAuthority(s) || s.ReqSpacesBeforeUrl?)
  {
    hide IsUrlChar, IsUserInfoChar;
    AtIsNoUserInfo();
  }

  lemma AtIsNoUserInfo()
    ensures !IsUserInfoChar('@') && !IsUserInfoChar('/') && !IsUserInfoChar('?')
  {
  }

  lemma AuthorityStep(buf: string, u: Parts, s: State, last: MaybePart, foundAt: bool, isConnect: bool, i: nat)
    requires i < |buf| && Split(buf, u, s, last, isConnect, i) && SchemeOk(buf, u, s, isConnect, i)
    requires AuthorityOk(buf, u, s, foundAt, isConnect, i)
    requires !ParseUrlChar(s, buf[i]).Dead?
    ensures var t := ParseUrlChar(s, buf[i]);
      AuthorityOk(buf, Extend(u, last, t, i), t, foundAt || t.ReqServerWithAt?, isConnect, i + 1)
  {
    hide AuthorityOk, SchemeOk, Split, ParseUrlChar, Extend;
    if PartOf(ParseUrlChar(s, buf[i])) == Of(Host) {
      AuthorityGrows(buf, u, s, last, foundAt, isConnect, i);
    } else {
      AuthorityStays(buf, u, s, last, foundAt, isConnect, i);
    }
  }

  lemma AuthorityGrows(buf: string, u: Parts, s: State, last: MaybePart, foundAt: bool, isConnect: bool, i: nat)
    requires i < |buf| && Split(buf, u, s, last, isConnect, i) && SchemeOk(buf, u, s, isConnect, i)
    requires AuthorityOk(buf, u, s, foundAt, isConnect, i)
    requires !ParseUrlChar(s, buf[i]).Dead? && PartOf(ParseUrlChar(s, buf[i])) == Of(Host)
    ensures var t := ParseUrlChar(s, buf[i]);
      AuthorityOk(buf, Extend(u, last, t, i), t, foundAt || t.ReqServerWithAt?, isConnect, i + 1)
  {
    hide ParseUrlChar, Arranged, Extend, AuthorityChar;
    var t := ParseUrlChar(s, buf[i]);
    AuthorityMoves(s, buf[i]);
    ExtendOnly(u, last, t, i, Schema);
    ExtendOnly(u, last, t, i, Host);
  }

  lemma AuthorityStays(buf: string, u: Parts, s: State, last: MaybePart, foundAt: bool, isConnect: bool, i: nat)
    requires i < |buf| && Split(buf, u, s, last, isConnect, i) && SchemeOk(buf, u, s, isConnect, i)
    requires AuthorityOk(buf, u, s, foundAt, isConnect, i)
    requires !ParseUrlChar(s, buf[i]).Dead? && PartOf(ParseUrlChar(s, buf[i])) != Of(Host)
    ensures var t := ParseUrlChar(s, buf[i]);
      AuthorityOk(buf, Extend(u, last, t, i), t, foundAt || t.ReqServerWithAt?, isConnect, i + 1)
  {
    hide ParseUrlChar, Arranged, Extend, AuthorityChar;
    var t := ParseUrlChar(s, buf[i]);
    AuthorityMoves(s, buf[i]);
    SchemeMoves(s, buf[i]);
    ExtendOnly(u, last, t, i, Schema);
    ExtendOnly(u, last, t, i, Host);
  }

  lemma TailStep(buf: string, u: Parts, s: State, last: MaybePart, isConnect: bool, i: nat)
    requires i < |buf| && Split(buf, u, s, last, isConnect, i) && TailOk(buf, u, s, i)
    requires !ParseUrlChar(s, buf[i]).Dead?
    ensures var t := ParseUrlChar(s, buf[i]);
      TailOk(buf, Extend(u, last, t, i), t, i + 1)
  {
    hide ParseUrlChar, Arranged, Extend;
    var t := ParseUrlChar(s, buf[i]);
    TailMoves(s, buf[i]);
    ExtendOnly(u, last, t, i, Path);
    ExtendOnly(u, last, t, i, Query);
    ExtendOnly(u, last, t, i, Fragment);
  }

  lemma TailMoves(s: State, ch: char)
    requires !ParseUrlChar(s, ch).Dead?
    ensures var t := ParseUrlChar(s, ch);
      && (t.ReqPath? && !s.ReqPath? ==> ch == '/' || ch == '*')
      && (t.ReqQueryStringStart? ==> ch == '?')
      && (t.ReqFragmentStart? ==> ch == '#')
      && (t.ReqQueryString? && !s.ReqQueryString? ==> s.ReqQueryStringStart?)
      && (t.ReqFragment? && !s.ReqFragment? ==> s.ReqFragmentStart?)
  {
    hide IsUrlChar, IsUserInfoChar, IsAlpha;
  }

  ghost predicate InSomePart(u: Parts, k: nat) {
    exists f :: f in u && u[f].off <= k < u[f].End()
  }

  /** Nothing but delimiters lies outside the parts. */
  ghost predicate Covered(buf: string, u: Parts, i: nat)
    requires i <= |buf|
  {
    forall k :: 0 <= k < i ==> InSomePart(u, k) || Delimiter(buf[k])
  }

  lemma CoveredStep(buf: string, u: Parts, s: State, last: MaybePart, isConnect: bool, i: nat)
    requires i < |buf| && Split(buf, u, s, last, isConnect, i) && Covered(buf, u, i)
    requires !ParseUrlChar(s, buf[i]).Dead?
    ensures Covered(buf, Extend(u, last, ParseUrlChar(s, buf[i]), i), i + 1)
  {
    hide ParseUrlChar, Split, Extend;
    var t := ParseUrlChar(s, buf[i]);
    var v := Extend(u, last, t, i);
    if PartOf(t).NoPart? {
      DelimiterMoves(s, buf[i]);
    } else {
      var f := PartOf(t).part;
      ExtendOnly(u, last, t, i, f);
      SplitStep(buf, u, s, last, isConnect, i);
      SplitEnds(buf, v, t, LastAfter(last, t), isConnect, i + 1);
      assert v[f].off <= i < v[f].End();
    }
    forall k | 0 <= k < i
      ensures InSomePart(v, k) || Delimiter(buf[k])
    {
      if InSomePart(u, k) {
        var g :| g in u && u[g].off <= k < u[g].End();
        ExtendOnly(u, last, t, i, g);
        ContinuedPart(buf, u, s, last, isConnect, i);
        assert g in v && v[g].off <= k < v[g].End();
      }
    }
  }

  lemma SplitEnds(buf: string, u: Parts, s: State, last: MaybePart, isConnect: bool, i: nat)
    requires Split(buf, u, s, last, isConnect, i)
    ensures PartOf(s).Of? ==> PartOf(s).part in u && u[PartOf(s).part].End() == i && u[PartOf(s).part].len > 0
  {
  }

  /** A part that is already set is the one that goes on. */
  lemma ContinuedPart(buf: string, u: Parts, s: State, last: MaybePart, isConnect: bool, i: nat)
    requires i < |buf| && Split(buf, u, s, last, isConnect, i) && !ParseUrlChar(s, buf[i]).Dead?
    ensures var t := ParseUrlChar(s, buf[i]);
      PartOf(t).Of? && PartOf(t).part in u ==> last == PartOf(t)
  {
    hide ParseUrlChar, Arranged, LastPartFits;
    LastPartStep(s, last, isConnect, i, buf[i]);
  }

  lemma DelimiterMoves(s: State, ch: char)
    requires !ParseUrlChar(s, ch).Dead? && PartOf(ParseUrlChar(s, ch)).NoPart?
    ensures Delimiter(ch)
  {
    hide IsUrlChar, IsUserInfoChar, IsAlpha;
  }

  // ---- the split refined --------------------------------------------------

  function Refine(u: Parts, user: Span, host: Span, port: Span): Parts {
    Set(Set(Set(u, Host, host), UserInfo, user), Port, port)
  }

  /** What holds of the coarse split at the end of the buffer. */
  ghost predicate CoarseSplit(buf: string, u: Parts, s: State, last: MaybePart, foundAt: bool, isConnect: bool, i: nat) {
    && Split(buf, u, s, last, isConnect, i) && SchemeOk(buf, u, s, isConnect, i)
    && AuthorityOk(buf, u, s, foundAt, isConnect, i) && TailOk(buf, u, s, i) && Covered(buf, u, i)
  }

  /** A part may be set between its neighbours. */
  lemma SetArranged(u: Parts, to: nat, f: Part, s: Span)
    requires Arranged(u, to) && s.End() <= to
    requires forall g :: g in u && Place(g) < Place(f) ==> u[g].End() <= s.off
    requires forall g :: g in u && Place(f) < Place(g) ==> s.End() <= u[g].off
    ensures Arranged(Set(u, f, s), to)
  {
  }

  /** Everything but the host lies on either side of [lo, hi]. */
  ghost predicate Around(u: Parts, lo: nat, hi: nat) {
    forall g :: g in u && g != UserInfo && g != Host && g != Port ==>
      if Place(g) < 2 then u[g].End() <= lo else hi <= u[g].off
  }

  lemma AroundHost(u: Parts, to: nat)
    requires Arranged(u, to) && Host in u
    ensures Around(u, u[Host].off, u[Host].End()) && u[Host].End() <= to
  {
  }

  lemma SetHost(u: Parts, to: nat, host: Span, lo: nat, hi: nat)
    requires Arranged(u, to) && Around(u, lo, hi) && hi <= to && UserInfo !in u && Port !in u
    requires host.len > 0 && lo <= host.off && host.End() <= hi
    ensures var v := Set(u, Host, host);
      && Arranged(v, to) && Around(v, lo, hi) && UserInfo !in v && Port !in v && Host in v && v[Host] == host
  {
    SetArranged(u, to, Host, host);
  }

  lemma SetUser(u: Parts, to: nat, user: Span, lo: nat, hi: nat)
    requires Arranged(u, to) && Around(u, lo, hi) && hi <= to && Host in u && Port !in u
    requires user.len > 0 && lo <= user.off && user.End() <= u[Host].off && u[Host].End() <= hi
    ensures var v := Set(u, UserInfo, user);
      && Arranged(v, to) && Around(v, lo, hi) && Port !in v && Host in v && v[Host] == u[Host]
      && UserInfo in v && v[UserInfo] == user
  {
    hide Arranged;
    forall g | g in u && Place(UserInfo) < Place(g) ensures user.End() <= u[g].off {
      assert g == Host || hi <= u[g].off;
    }
    SetArranged(u, to, UserInfo, user);
  }

  lemma SetPort(u: Parts, to: nat, port: Span, lo: nat, hi: nat)
    requires Arranged(u, to) && Around(u, lo, hi) && hi <= to && Host in u
    requires port.len > 0 && u[Host].End() <= port.off && port.End() <= hi
    ensures Arranged(Set(u, Port, port), to)
  {
    assert UserInfo in u ==> u[UserInfo].End() <= u[Host].off;
    SetArranged(u, to, Port, port);
  }

  /** Three parts inside the authority replace it without overlap. */
  lemma RefineArranged(u: Parts, to: nat, user: Span, host: Span, port: Span)
    requires Arranged(u, to) && Host in u && UserInfo !in u && Port !in u
    requires host.len > 0 && u[Host].off <= host.off && host.End() <= u[Host].End()
    requires user.len > 0 ==> u[Host].off <= user.off && user.End() <= host.off
    requires port.len > 0 ==> host.End() <= port.off && port.End() <= u[Host].End()
    ensures Arranged(Refine(u, user, host, port), to)
  {
    hide Arranged, Around;
    var lo, hi := u[Host].off, u[Host].End();
    AroundHost(u, to);
    SetHost(u, to, host, lo, hi);
    var v := Set(u, Host, host);
    if user.len > 0 {
      SetUser(v, to, user, lo, hi);
    }
    if port.len > 0 {
      SetPort(Set(v, UserInfo, user), to, port, lo, hi);
    }
  }

  lemma RefineCovered(buf: string, u: Parts, user: Span, host: Span, port: Span)
    requires Covered(buf, u, |buf|) && Host in u && UserInfo !in u && Port !in u && host.len > 0
    requires AuthorityCovered(buf, u[Host].off, u[Host].End(), user, host, port)
    ensures Covered(buf, Refine(u, user, host, port), |buf|)
  {
    hide Delimiter;
    var v := Refine(u, user, host, port);
    forall k | 0 <= k < |buf|
      ensures InSomePart(v, k) || Delimiter(buf[k])
    {
      if InSomePart(u, k) {
        var g :| g in u && u[g].off <= k < u[g].End();
        if g != Host {
          assert g in v && v[g] == u[g];
        } else if Inside(k, user) {
          assert UserInfo in v && v[UserInfo] == user;
        } else if Inside(k, host) {
          assert Host in v && v[Host] == host;
        } else if Inside(k, port) {
          assert Port in v && v[Port] == port;
        }
      }
    }
  }

  /** "scheme://" at the start, and a host behind it. */
  ghost predicate SchemeParsed(buf: string, u: Parts) {
    Schema in u ==>
      var e := u[Schema].End();
      && Host in u && u[Schema].off == 0 && e + 3 <= |buf|
      && (forall k :: 0 <= k < e ==> IsAlpha(buf[k]))
      && buf[e] == ':' && buf[e + 1] == '/' && buf[e + 2] == '/'
  }

  ghost predicate UserParsed(buf: string, u: Parts) {
    UserInfo in u ==>
      && u[UserInfo].End() < |buf| && buf[u[UserInfo].End()] == '@'
      && forall k :: u[UserInfo].off <= k < u[UserInfo].End() ==> IsUserInfoChar(buf[k])
  }

  predicate DigitSpan(buf: string, s: Span) {
    s.End() <= |buf| && forall k :: s.off <= k < s.End() ==> IsNum(buf[k])
  }

  function SpanValue(buf: string, s: Span): nat
    requires DigitSpan(buf, s)
  {
    DecValue(Text(buf, s))
  }

  /** The port is the decimal value of its field and fits 16 bits. */
  ghost predicate PortParsed(buf: string, u: Parts, port: nat) {
    if Port in u then
      && 0 < u[Port].off && DigitSpan(buf, u[Port]) && buf[u[Port].off - 1] == ':'
      && port == SpanValue(buf, u[Port]) <= 0xffff
    else port == 0
  }

  ghost predicate TailParsed(buf: string, u: Parts) {
    && (Path in u ==> u[Path].off < |buf| && (buf[u[Path].off] == '/' || buf[u[Path].off] == '*'))
    && (Query in u ==> 0 < u[Query].off <= |buf| && buf[u[Query].off - 1] == '?')
    && (Fragment in u ==> 0 < u[Fragment].off <= |buf| && buf[u[Fragment].off - 1] == '#')
  }

  /** What an accepted URL looks like: parts in bounds, in URL order, disjoint,
      with their delimiters, and nothing but delimiters between them. */
  ghost predicate WellParsed(buf: string, u: Parts, port: nat, isConnect: bool) {
    && Arranged(u, |buf|) && Covered(buf, u, |buf|)
    && SchemeParsed(buf, u) && UserParsed(buf, u) && PortParsed(buf, u, port) && TailParsed(buf, u)
    && (Host in u ==> HostShape(buf, |buf|, u[Host], true))
    && (isConnect ==> u.Keys == {Host, Port})
  }

  // ---- which URLs are accepted --------------------------------------------

  function WhileAlpha(buf: string, i: nat): (e: nat)
    requires i <= |buf|
    ensures i <= e <= |buf| && (forall k :: i <= k < e ==> IsAlpha(buf[k])) && (e < |buf| ==> !IsAlpha(buf[e]))
    decreases |buf| - i
  {
    if i < |buf| && IsAlpha(buf[i]) then WhileAlpha(buf, i + 1) else i
  }

  function UntilPath(buf: string, i: nat): (e: nat)
    requires i <= |buf|
    ensures i <= e <= |buf| && (forall k :: i <= k < e ==> buf[k] != '/' && buf[k] != '?')
    ensures e < |buf| ==> buf[e] == '/' || buf[e] == '?'
    decreases |buf| - i
  {
    if i < |buf| && buf[i] != '/' && buf[i] != '?' then UntilPath(buf, i + 1) else i
  }

  /** An authority is needed behind a scheme, and for CONNECT. */
  predicate NeedsAuthority(buf: string, isConnect: bool) {
    isConnect || (buf != "" && IsAlpha(buf[0]))
  }

  /** The text from behind "scheme://" up to the first '/' or '?'. */
  function AuthorityText(buf: string, isConnect: bool): string {
    var a := if isConnect then 0 else WhileAlpha(buf, 0) + 3;
    if a <= |buf| then buf[a..UntilPath(buf, a)] else ""
  }

  predicate AuthorityAccepted(auth: string) {
    HostEnds(HostRun(HostBegin('@' in auth), auth))
  }

  predicate HasPort(auth: string) {
    HostRun(HostBegin('@' in auth), auth).InPort?
  }

  /** The user information is not empty. */
  predicate HasUser(auth: string) {
    '@' in auth && auth[0] != '@'
  }

  /** The digits at the end of a text. */
  function DigitSuffix(s: string): (d: string)
    ensures forall k :: 0 <= k < |d| ==> IsNum(d[k])
  {
    if s == "" || !IsNum(s[|s| - 1]) then "" else DigitSuffix(s[..|s| - 1]) + [s[|s| - 1]]
  }

  /** The port that an accepted authority names. */
  function PortValue(auth: string): nat {
    if HasPort(auth) then DecValue(DigitSuffix(auth)) else 0
  }

  /** Bytes from `e` to `i` that belong to no part: nothing, or '?' and then only '#'. */
  predicate NoTail(buf: string, e: nat, i: nat)
    requires e <= i <= |buf|
  {
    e == i || (buf[e] == '?' && forall k :: e < k < i ==> buf[k] == '#')
  }

  /** Which texts are URLs, told from the text alone. The target of CONNECT is a
      host and a port and no more. */
  predicate Accepts(buf: string, isConnect: bool) {
    && !UrlRun(UrlBegin(isConnect), buf).Dead?
    && (NeedsAuthority(buf, isConnect) ==>
          AuthorityAccepted(AuthorityText(buf, isConnect)) && PortValue(AuthorityText(buf, isConnect)) <= 0xffff)
    && (isConnect ==>
          && HasPort(AuthorityText(buf, true)) && !HasUser(AuthorityText(buf, true))
          && NoTail(buf, |AuthorityText(buf, true)|, |buf|))
  }

  lemma AuthorityStart(buf: string, u: Parts, s: State, last: MaybePart, foundAt: bool, isConnect: bool)
    requires CoarseSplit(buf, u, s, last, foundAt, isConnect, |buf|)
    requires isConnect || Schema in u
    ensures AuthorityBegin(u) == if isConnect then 0 else WhileAlpha(buf, 0) + 3
  {
    hide Arranged, Covered, TailOk, AuthorityOk, IsAlpha;
    if !isConnect {
      ColonIsNoLetter();
      assert WhileAlpha(buf, 0) == u[Schema].End();
    }
  }

  /** A stretch of authority bytes is followed as far as it goes. */
  lemma StretchFound(buf: string, from: nat, to: nat, foundAt: bool)
    requires from <= to <= |buf| && (to < |buf| ==> buf[to] == '/' || buf[to] == '?')
    requires forall k :: from <= k < to ==> AuthorityChar(buf[k])
    requires foundAt <==> exists k :: from <= k < to && buf[k] == '@'
    ensures UntilPath(buf, from) == to && (foundAt <==> '@' in buf[from..to])
  {
    NoSlashInAuthority();
    hide AuthorityChar;
    var e := UntilPath(buf, from);
    assert e == to;
    if foundAt {
      var k :| from <= k < to && buf[k] == '@';
      assert buf[from..to][k - from] == '@';
    }
  }

  lemma HostEndsWell(buf: string, u: Parts, s: State, last: MaybePart, foundAt: bool, isConnect: bool)
    requires CoarseSplit(buf, u, s, last, foundAt, isConnect, |buf|) && Host in u
    ensures var e := u[Host].End();
      u[Host].off == AuthorityBegin(u) && e <= |buf| && (e < |buf| ==> buf[e] == '/' || buf[e] == '?')
  {
    hide Arranged, Covered, TailOk, SchemeOk, AuthorityChar;
  }

  lemma HostFound(buf: string, u: Parts, s: State, last: MaybePart, foundAt: bool, isConnect: bool)
    requires CoarseSplit(buf, u, s, last, foundAt, isConnect, |buf|) && Host in u
    ensures u[Host].End() <= |buf| && AuthorityBegin(u) <= |buf|
    ensures buf[AuthorityBegin(u)..UntilPath(buf, AuthorityBegin(u))] == Text(buf, u[Host])
    ensures foundAt <==> '@' in Text(buf, u[Host])
  {
    HostEndsWell(buf, u, s, last, foundAt, isConnect);
    hide Arranged, Covered, TailOk, SchemeOk, Split, AuthorityChar, UntilPath;
    StretchFound(buf, u[Host].off, u[Host].End(), foundAt);
  }

  lemma HostFromStart(buf: string, u: Parts, s: State, last: MaybePart, foundAt: bool)
    requires CoarseSplit(buf, u, s, last, foundAt, true, |buf|) && Host in u && Schema !in u
    ensures u[Host].off == 0
  {
    HostEndsWell(buf, u, s, last, foundAt, true);
  }

  lemma NoHostFound(buf: string, u: Parts, s: State, last: MaybePart, foundAt: bool, isConnect: bool)
    requires CoarseSplit(buf, u, s, last, foundAt, isConnect, |buf|) && Host !in u
    requires isConnect || Schema in u
    ensures AuthorityBegin(u) <= |buf| ==> UntilPath(buf, AuthorityBegin(u)) == AuthorityBegin(u)
  {
    hide Arranged, Covered, TailOk, IsAlpha, AuthorityChar, IsUserInfoChar;
  }

  lemma AuthorityFound(buf: string, u: Parts, s: State, last: MaybePart, foundAt: bool, isConnect: bool)
    requires CoarseSplit(buf, u, s, last, foundAt, isConnect, |buf|)
    requires isConnect || Schema in u
    ensures var auth := AuthorityText(buf, isConnect);
      if Host in u then
        && u[Host].End() <= |buf|
        && auth == Text(buf, u[Host]) && (foundAt <==> '@' in auth)
      else auth == ""
  {
    hide Split, SchemeOk, AuthorityOk, TailOk, Covered, UntilPath;
    AuthorityStart(buf, u, s, last, foundAt, isConnect);
    if Host in u {
      HostFound(buf, u, s, last, foundAt, isConnect);
    } else {
      NoHostFound(buf, u, s, last, foundAt, isConnect);
    }
  }

  lemma {:induction false} SuffixFound(s: string, k: nat)
    requires k <= |s| && (forall i :: k <= i < |s| ==> IsNum(s[i])) && (k > 0 ==> !IsNum(s[k - 1]))
    ensures DigitSuffix(s) == s[k..]
  {
    if k < |s| {
      SuffixFound(s[..|s| - 1], k);
      assert s[..|s| - 1][k..] + [s[|s| - 1]] == s[k..];
    }
  }

  /** What the host loop found, read off the text of the authority. */
  lemma AuthorityMeans(buf: string, area: Span, h: HostState, foundAt: bool, user: Span, host: Span, port: Span)
    requires area.End() <= |buf| && (foundAt <==> '@' in Text(buf, area))
    requires h == HostRun(HostBegin(foundAt), Text(buf, area)) && HostEnds(h)
    requires HostParts(buf, area.off, area.End(), h, foundAt, user, host, port)
    ensures port.len > 0 <==> HasPort(Text(buf, area))
    ensures user.len > 0 <==> HasUser(Text(buf, area))
    ensures port.len > 0 ==> port.End() <= |buf| && DigitSuffix(Text(buf, area)) == Text(buf, port)
  {
    hide HostRun, DigitSuffix, IsHostChar, IsUserInfoChar, V6Char, HostShape, HostText, V6Text;
    AtIsNoUserInfo();
    var a := Text(buf, area);
    if user.len > 0 {
      assert a[0] == buf[area.off];
    } else if foundAt {
      assert a[0] == buf[area.off];
    }
    if port.len > 0 {
      assert buf[port.off - 1] == ':' && a[port.off - area.off..] == Text(buf, port);
      SuffixFound(a, port.off - area.off);
    }
  }

  predicate Bare(u: Parts) { Path !in u && Query !in u && Fragment !in u }

  /** Where the authority of a CONNECT target ends. */
  function ConnectEnd(u: Parts): nat { if Host in u then u[Host].End() else 0 }

  /** A CONNECT target has no parts behind its authority just when no byte there
      belongs to one. */
  ghost predicate ConnectTail(buf: string, u: Parts, s: State, i: nat) {
    && i <= |buf|
    && (InAuthority(s) ==> Bare(u) && ConnectEnd(u) == i)
    && (!InAuthority(s) ==>
          && PastAuthority(s) && ConnectEnd(u) < i && (Bare(u) <==> NoTail(buf, ConnectEnd(u), i))
          && (Bare(u) ==> s.ReqQueryStringStart? || s.ReqFragmentStart?))
  }

  lemma ConnectMoves(s: State, ch: char)
    requires (InAuthority(s) || PastAuthority(s)) && !ParseUrlChar(s, ch).Dead?
    ensures
      var t := ParseUrlChar(s, ch);
      && (InAuthority(s) ==> 
            t.ReqServer? || t.ReqServerWithAt? || (t.ReqPath? && ch == '/') || (t.ReqQueryStringStart? && ch == '?'))
      && (t.ReqQueryStringStart? ==> ch == '?')
      && (PastAuthority(s) ==> PastAuthority(t))
      && (s.ReqQueryStringStart? || s.ReqFragmentStart? ==>
            if ch == '#' then t.ReqFragmentStart? else t.ReqQueryString? || t.ReqFragment?)
  {
    hide IsUrlChar, IsUserInfoChar, IsAlpha;
    HashIsNoUrlChar();
  }

  lemma HashIsNoUrlChar()
    ensures !IsUrlChar('#')
  {
  }

  lemma ConnectTailStep(buf: string, u: Parts, s: State, last: MaybePart, i: nat)
    requires i < |buf| && Split(buf, u, s, last, true, i) && ConnectTail(buf, u, s, i)
    requires !ParseUrlChar(s, buf[i]).Dead?
    ensures ConnectTail(buf, Extend(u, last, ParseUrlChar(s, buf[i]), i), ParseUrlChar(s, buf[i]), i + 1)
  {
    hide ParseUrlChar, Split, Extend, Arranged;
    var t := ParseUrlChar(s, buf[i]);
    var v := Extend(u, last, t, i);
    ConnectMoves(s, buf[i]);
    SplitStep(buf, u, s, last, true, i);
    SplitEnds(buf, v, t, LastAfter(last, t), true, i + 1);
    ExtendOnly(u, last, t, i, Host);
    ExtendOnly(u, last, t, i, Path);
    ExtendOnly(u, last, t, i, Query);
    ExtendOnly(u, last, t, i, Fragment);
  }

  lemma ConnectTailStart(buf: string)
    ensures ConnectTail(buf, map[], UrlBegin(true), 0)
  {
  }

  lemma NoSlashInAuthority()
    ensures !AuthorityChar('/') && !AuthorityChar('?')
  {
  }

  lemma ColonIsNoLetter()
    ensures !IsAlpha(':')
  {
  }

  // ---- http_parser_parse_url ----------------------------------------------

  /** The byte loop: the coarse split, with user information and port still in the host. */
  method SplitUrl(buf: string, isConnect: bool)
    returns (ok: bool, u: Parts, foundAt: bool, ghost s: State, ghost last: MaybePart)
    ensures ok == !UrlRun(UrlBegin(isConnect), buf).Dead?
    ensures ok ==> CoarseSplit(buf, u, s, last, foundAt, isConnect, |buf|)
    ensures ok && isConnect ==> ConnectTail(buf, u, s, |buf|)
  {
    hide ParseUrlChar, CoarseSplit, Extend, ConnectTail;
    var state := UrlBegin(isConnect);
    var previous: MaybePart := NoPart;
    u, foundAt, s, last := map[], false, state, NoPart;
    CoarseStart(buf, isConnect);
    ConnectTailStart(buf);
    for i := 0 to |buf|
      invariant state == UrlRun(UrlBegin(isConnect), buf[..i]) && !state.Dead?
      invariant CoarseSplit(buf, u, state, previous, foundAt, isConnect, i)
      invariant isConnect ==> ConnectTail(buf, u, state, i)
    {
      assert buf[..i + 1][..i] == buf[..i];
      var t := ParseUrlChar(state, buf[i]);
      if t.Dead? {
        DeadUrlRun(UrlBegin(isConnect), buf, i + 1);
        ok := false;
        return;
      }
      CoarseStep(buf, u, state, previous, foundAt, isConnect, i);
      if isConnect {
        ConnectTailGoesOn(buf, u, state, previous, foundAt, i);
      }
      ghost var before := u;
      foundAt := foundAt || t.ReqServerWithAt?;
      if PartOf(t).Of? {
        var f := PartOf(t).part;
        if PartOf(t) == previous && f in u {
          u := u[f := u[f].(len := u[f].len + 1)];
        } else {
          u := u[f := Span(i, 1)];
        }
        ExtendIs(before, previous, t, i);
        previous := PartOf(t);
      } else {
        ExtendIs(before, previous, t, i);
      }
      state := t;
    }
    assert buf[..|buf|] == buf;
    ok, s, last := true, state, previous;
  }

  lemma ConnectTailGoesOn(buf: string, u: Parts, s: State, last: MaybePart, foundAt: bool, i: nat)
    requires i < |buf| && CoarseSplit(buf, u, s, last, foundAt, true, i) && ConnectTail(buf, u, s, i)
    requires !ParseUrlChar(s, buf[i]).Dead?
    ensures ConnectTail(buf, Extend(u, last, ParseUrlChar(s, buf[i]), i), ParseUrlChar(s, buf[i]), i + 1)
  {
    hide ParseUrlChar, Extend, ConnectTail, Split, SchemeOk, AuthorityOk, TailOk, Covered;
    ConnectTailStep(buf, u, s, last, i);
  }

  lemma ExtendIs(u: Parts, last: MaybePart, t: State, i: nat)
    ensures Extend(u, last, t, i) ==
      if PartOf(t).NoPart? then u
      else if last == PartOf(t) && PartOf(t).part in u
      then u[PartOf(t).part := u[PartOf(t).part].(len := u[PartOf(t).part].len + 1)]
      else u[PartOf(t).part := Span(i, 1)]
  {
  }

  lemma CoarseStart(buf: string, isConnect: bool)
    ensures CoarseSplit(buf, map[], UrlBegin(isConnect), NoPart, false, isConnect, 0)
  {
  }

  lemma CoarseStep(buf: string, u: Parts, s: State, last: MaybePart, foundAt: bool, isConnect: bool, i: nat)
    requires i < |buf| && CoarseSplit(buf, u, s, last, foundAt, isConnect, i)
    requires !ParseUrlChar(s, buf[i]).Dead?
    ensures var t := ParseUrlChar(s, buf[i]);
      CoarseSplit(buf, Extend(u, last, t, i), t, LastAfter(last, t), foundAt || t.ReqServerWithAt?, isConnect, i + 1)
  {
    hide ParseUrlChar, Extend, Split, SchemeOk, AuthorityOk, TailOk, Covered;
    SplitStep(buf, u, s, last, isConnect, i);
    SchemeStep(buf, u, s, last, isConnect, i);
    AuthorityStep(buf, u, s, last, foundAt, isConnect, i);
    TailStep(buf, u, s, last, isConnect, i);
    CoveredStep(buf, u, s, last, isConnect, i);
  }

  function DigitsEnd(buf: string, i: nat): (e: nat)
    requires i <= |buf|
    ensures i <= e <= |buf| && (forall k :: i <= k < e ==> IsNum(buf[k])) && (e < |buf| ==> !IsNum(buf[e]))
    decreases |buf| - i
  {
    if i < |buf| && IsNum(buf[i]) then DigitsEnd(buf, i + 1) else i
  }

  /** strtoul: the value of the digits from `off` on, up to the first other byte
      (the buffer is followed by a non-digit). */
  function Strtoul(buf: string, off: nat): nat
    requires off <= |buf|
  {
    DecValue(buf[off..DigitsEnd(buf, off)])
  }

  /** The coarse split seen from outside. */
  lemma CoarseMeans(buf: string, u: Parts, s: State, last: MaybePart, foundAt: bool, isConnect: bool)
    requires CoarseSplit(buf, u, s, last, foundAt, isConnect, |buf|)
    ensures Arranged(u, |buf|) && Covered(buf, u, |buf|) && TailParsed(buf, u)
    ensures UserInfo !in u && Port !in u && (Host in u ==> u[Host].End() <= |buf|)
    ensures Host in u ==> u[Host].End() == |buf| || buf[u[Host].End()] == '/' || buf[u[Host].End()] == '?'
    ensures Schema in u && Host in u ==> SchemeParsed(buf, u) && !isConnect
    ensures if Host in u then Schema in u || isConnect else !foundAt
    ensures Schema in u || isConnect <==> NeedsAuthority(buf, isConnect)
    ensures isConnect ==> Schema !in u
  {
    hide IsAlpha, AuthorityChar;
  }

  /** Where a URL may end its authority. */
  predicate AuthorityEnd(buf: string, e: nat) {
    e <= |buf| && (e == |buf| || buf[e] == '/' || buf[e] == '?')
  }

  lemma RefinedUser(buf: string, u: Parts, h: HostState, foundAt: bool, user: Span, host: Span, port: Span)
    requires Host in u && UserInfo !in u && Port !in u && u[Host].End() <= |buf|
    requires HostParts(buf, u[Host].off, u[Host].End(), h, foundAt, user, host, port) && HostEnds(h)
    ensures var v := Refine(u, user, host, port);
      && UserParsed(buf, v) && Host in v && HostShape(buf, |buf|, v[Host], true)
      && host.len > 0 && u[Host].off <= host.off && host.End() <= u[Host].End()
      && (user.len > 0 ==> u[Host].off <= user.off && user.End() <= host.off)
      && (port.len > 0 ==> host.End() <= port.off && port.End() <= u[Host].End())
  {
    hide IsUserInfoChar, IsHostChar, V6Char;
  }

  lemma RefinedPort(buf: string, u: Parts, h: HostState, foundAt: bool, user: Span, host: Span, port: Span)
    requires Host in u && Port !in u && AuthorityEnd(buf, u[Host].End())
    requires HostParts(buf, u[Host].off, u[Host].End(), h, foundAt, user, host, port)
    ensures var v := Refine(u, user, host, port);
      Port in v ==>
        && v[Port] == port && DigitSpan(buf, port) && 0 < port.off <= |buf| && buf[port.off - 1] == ':'
        && Strtoul(buf, port.off) == SpanValue(buf, port)
  {
    hide DecValue, UserOk, HostShape, HostText, V6Text;
    if port.len > 0 {
      assert DigitsEnd(buf, port.off) == port.End();
    }
  }

  lemma RefinedTail(buf: string, u: Parts, user: Span, host: Span, port: Span)
    requires TailParsed(buf, u)
    ensures TailParsed(buf, Refine(u, user, host, port))
  {
  }

  lemma RefinedScheme(buf: string, u: Parts, user: Span, host: Span, port: Span)
    requires Schema in u ==> SchemeParsed(buf, u)
    ensures Host in u ==> SchemeParsed(buf, Refine(u, user, host, port))
  {
    hide IsAlpha;
  }

  /** Everything but the port's value holds of the refined split. */
  lemma Refined(buf: string, u: Parts, h: HostState, foundAt: bool, user: Span, host: Span, port: Span)
    requires Arranged(u, |buf|) && Covered(buf, u, |buf|) && TailParsed(buf, u)
    requires Host in u && UserInfo !in u && Port !in u && AuthorityEnd(buf, u[Host].End())
    requires Schema in u ==> SchemeParsed(buf, u)
    requires HostParts(buf, u[Host].off, u[Host].End(), h, foundAt, user, host, port) && HostEnds(h)
    requires AuthorityCovered(buf, u[Host].off, u[Host].End(), user, host, port)
    ensures var v := Refine(u, user, host, port);
      && Arranged(v, |buf|) && Covered(buf, v, |buf|) && TailParsed(buf, v)
      && SchemeParsed(buf, v) && UserParsed(buf, v) && Host in v && HostShape(buf, |buf|, v[Host], true)
  {
    hide Arranged, Covered, TailParsed, SchemeParsed, HostParts, AuthorityCovered, Refine, HostShape, UserParsed;
    RefinedUser(buf, u, h, foundAt, user, host, port);
    RefineArranged(u, |buf|, user, host, port);
    RefineCovered(buf, u, user, host, port);
    RefinedTail(buf, u, user, host, port);
    RefinedScheme(buf, u, user, host, port);
  }

  /** The empty authority is refused. */
  lemma EmptyAuthority()
    ensures !AuthorityAccepted("")
  {
  }

  /** Parts of a URL without an authority. */
  lemma NoAuthority(buf: string, u: Parts)
    requires Schema !in u && Host !in u && UserInfo !in u
    ensures SchemeParsed(buf, u) && UserParsed(buf, u)
  {
  }

  /** The split of an authority that was found. */
  method RefineUrl(buf: string, coarse: Parts, foundAt: bool) returns (ok: bool, u: Parts)
    requires Arranged(coarse, |buf|) && Covered(buf, coarse, |buf|) && TailParsed(buf, coarse)
    requires UserInfo !in coarse && Port !in coarse
    requires Host in coarse ==> AuthorityEnd(buf, coarse[Host].End())
    requires Schema in coarse && Host in coarse ==> SchemeParsed(buf, coarse)
    requires Host in coarse ==> (foundAt <==> '@' in Text(buf, coarse[Host]))
    requires Host !in coarse ==> !foundAt
    ensures ok == AuthorityAccepted(if Host in coarse then Text(buf, coarse[Host]) else "")
    ensures ok ==>
      && Arranged(u, |buf|) && Covered(buf, u, |buf|) && TailParsed(buf, u)
      && SchemeParsed(buf, u) && UserParsed(buf, u) && Host in u && HostShape(buf, |buf|, u[Host], true)
      && (Port in u ==>
            && DigitSpan(buf, u[Port]) && 0 < u[Port].off <= |buf| && buf[u[Port].off - 1] == ':'
            && Strtoul(buf, u[Port].off) == SpanValue(buf, u[Port]))
    ensures ok ==> Host in coarse && RefinesAs(buf, coarse, u)
  {
    hide Arranged, Covered, TailParsed, SchemeParsed, HostParts, AuthorityCovered, Refine, HostShape,
      UserParsed, HostRun, Strtoul, SpanValue, DigitSpan, RefinesAs;
    var area := if Host in coarse then coarse[Host] else NOWHERE;
    var user, host, port;
    ok, user, host, port := ParseHost(buf, area, foundAt);
    u := Refine(coarse, user, host, port);
    EmptyAuthority();
    if ok {
      ghost var h := HostRun(HostBegin(foundAt), Text(buf, area));
      Refined(buf, coarse, h, foundAt, user, host, port);
      RefinedPort(buf, coarse, h, foundAt, user, host, port);
      RefinedPortIs(coarse, user, host, port);
      RefinedMeans(buf, coarse, h, foundAt, user, host, port);
    }
  }

  /** The refined parts, told from the text of the authority. */
  ghost predicate RefinesAs(buf: string, coarse: Parts, u: Parts)
    requires Host in coarse && coarse[Host].End() <= |buf|
  {
    var a := Text(buf, coarse[Host]);
    && (Port in u <==> HasPort(a)) && (UserInfo in u <==> HasUser(a)) && Host in u
    && (forall f :: f != UserInfo && f != Host && f != Port ==> (f in u <==> f in coarse))
    && (Port in u ==> DigitSpan(buf, u[Port]) && SpanValue(buf, u[Port]) == PortValue(a))
  }

  lemma RefinedMeans(buf: string, u: Parts, h: HostState, foundAt: bool, user: Span, host: Span, port: Span)
    requires Host in u && UserInfo !in u && Port !in u && u[Host].End() <= |buf|
    requires h == HostRun(HostBegin(foundAt), Text(buf, u[Host])) && HostEnds(h)
    requires foundAt <==> '@' in Text(buf, u[Host])
    requires HostParts(buf, u[Host].off, u[Host].End(), h, foundAt, user, host, port)
    ensures RefinesAs(buf, u, Refine(u, user, host, port))
  {
    AuthorityMeans(buf, u[Host], h, foundAt, user, host, port);
    hide HostRun, HasPort, HasUser, DigitSuffix, DecValue, UserOk, HostOk;
  }

  lemma RefinedPortIs(u: Parts, user: Span, host: Span, port: Span)
    requires Port !in u
    ensures Port in Refine(u, user, host, port) ==> Refine(u, user, host, port)[Port] == port
  {
  }

  /** The refined parts of a whole URL. */
  lemma RefinedTarget(buf: string, coarse: Parts, u: Parts, s: State, isConnect: bool)
    requires Host in coarse && coarse[Host].End() <= |buf| && RefinesAs(buf, coarse, u)
    requires Text(buf, coarse[Host]) == AuthorityText(buf, isConnect)
    requires isConnect ==> ConnectTail(buf, coarse, s, |buf|) && coarse[Host].off == 0 && Schema !in coarse
    ensures Port in u <==> HasPort(AuthorityText(buf, isConnect))
    ensures Port in u ==> DigitSpan(buf, u[Port]) && SpanValue(buf, u[Port]) == PortValue(AuthorityText(buf, isConnect))
    ensures Port !in u ==> PortValue(AuthorityText(buf, isConnect)) == 0
    ensures isConnect ==> |AuthorityText(buf, true)| <= |buf|
    ensures isConnect ==> (u.Keys == {Host, Port} <==>
              && HasPort(AuthorityText(buf, true)) && !HasUser(AuthorityText(buf, true))
              && NoTail(buf, |AuthorityText(buf, true)|, |buf|))
  {
    hide HostRun, AuthorityText, SpanValue, DigitSpan, HasPort, HasUser, DigitSuffix, DecValue;
    if isConnect {
      assert |AuthorityText(buf, true)| == coarse[Host].End();
      assert u.Keys == {Host, Port} <==> Port in u && UserInfo !in u && Schema !in u && Bare(u);
    }
  }

  /** http_parser_parse_url. */
  method ParseUrl(buf: string, isConnect: bool) returns (ok: bool, u: Parts, port: nat)
    requires |buf| < 0x1_0000   // offsets and lengths are 16 bits wide
    ensures ok ==> WellParsed(buf, u, port, isConnect)
    ensures ok <==> Accepts(buf, isConnect)
    ensures ok ==> port == if NeedsAuthority(buf, isConnect) then PortValue(AuthorityText(buf, isConnect)) else 0
  {
    hide CoarseSplit, UrlRun, HostRun, Arranged, Covered, TailParsed, SchemeParsed, UserParsed, HostShape,
      NeedsAuthority, AuthorityAccepted, AuthorityText, Strtoul, DigitSpan, SpanValue, Text, PortValue, HasPort, HasUser,
      ConnectTail, RefinesAs;
    port := 0;
    var foundAt;
    ghost var s, last;
    ok, u, foundAt, s, last := SplitUrl(buf, isConnect);
    if !ok {
      return;
    }
    CoarseMeans(buf, u, s, last, foundAt, isConnect);
    if Schema in u || Host in u {
      AuthorityFound(buf, u, s, last, foundAt, isConnect);
      ghost var coarse := u;
      ok, u := RefineUrl(buf, u, foundAt);
      if !ok {
        return;
      }
      if isConnect {
        HostFromStart(buf, coarse, s, last, foundAt);
      }
      RefinedTarget(buf, coarse, u, s, isConnect);
    } else {
      NoAuthority(buf, u);
      if isConnect {
        AuthorityFound(buf, u, s, last, foundAt, isConnect);
        EmptyAuthority();
      }
    }
    if isConnect && u.Keys != {Host, Port} {
      ok := false;
      return;
    }
    if Port in u {
      var v := Strtoul(buf, u[Port].off);
      if v > 0xffff {
        ok := false;
        return;
      }
      port := v;
    }
  }
}
