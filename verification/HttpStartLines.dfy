// The first line of a message: method, target and version of a request; version
// and code of a response.
module HttpStartLines {
  import opened Decimal
  import opened HttpTypes
  import opened HttpStep
  import opened HttpMethodToken
  import opened HttpUrl

  // ------------------------------------------------------------------- target

  predicate TargetText(u: string) {
    forall i :: 0 <= i < |u| ==> u[i] != ' ' && !IsLineEnd(u[i])
  }

  /** A parser before a request target with room for `n` bytes. */
  predicate AtTarget(c: Config, n: nat) {
    Running(c) && c.p.state.ReqSpacesBeforeUrl? && c.p.nread + n <= MAX_HEADER_SIZE
  }

  /** The URL state that the target so far leads to. */
  function TargetState(c: Config, u: string): State {
    UrlRun(UrlBegin(c.p.verb.CONNECT?), u)
  }

  lemma TargetByte(p: Parser, ch: char)
    requires p.errno.Ok? && (p.state.ReqSpacesBeforeUrl? || InUrl(p.state)) && ch != ' ' && !IsLineEnd(ch)
    ensures
      var from := if p.state.ReqSpacesBeforeUrl? then UrlBegin(p.verb.CONNECT?) else p.state;
      React(p, ch) == UrlChar(p, from, ch)
  {
    hide ParseUrlChar;
  }

  /** After a target that is fine so far. */
  predicate TargetTaken(c: Config, u: string, r: Config) {
    r == Config(c.p.(state := if u == "" then c.p.state else TargetState(c, u), nread := c.p.nread + |u|),
                c.trace + Bytes(Url, u), c.taken + |u|, false)
  }

  lemma TargetStates(c: Config, u: string, ch: char)
    ensures TargetState(c, u + [ch]) == ParseUrlChar(TargetState(c, u), ch)
    ensures TargetState(c, "") == UrlBegin(c.p.verb.CONNECT?)
    ensures TargetState(c, u + [ch]).Dead? || InUrl(TargetState(c, u + [ch]))
  {
    assert (u + [ch])[..|u|] == u;
    hide ParseUrlChar;
  }

  /** How the parser reacts to the next byte of a target. */
  lemma TargetReaction(c: Config, u: string, r: Config, ch: char)
    requires AtTarget(c, |u| + 1) && TargetTaken(c, u, r)
    requires u == "" || InUrl(TargetState(c, u))
    requires ch != ' ' && !IsLineEnd(ch)
    ensures
      var p, t := r.p.(nread := r.p.nread + 1), TargetState(c, u + [ch]);
      React(p, ch) == if t.Dead? then Fail(p.(state := Dead), InvalidUrl)
                      else Reaction(p.(state := t), [Data(Url, ch)], Advance)
  {
    hide ParseUrlChar, UrlRun, TargetState, React, Bytes;
    TargetStates(c, u, ch);
    TargetByte(r.p.(nread := r.p.nread + 1), ch);
  }

  lemma TargetStep(c: Config, u: string, r: Config, ch: char)
    requires AtTarget(c, |u| + 1) && TargetTaken(c, u, r)
    requires u == "" || InUrl(TargetState(c, u))
    requires ch != ' ' && !IsLineEnd(ch)
    ensures if TargetState(c, u + [ch]).Dead? then !Running(Feed(r, ch)) else TargetTaken(c, u + [ch], Feed(r, ch))
  {
    TargetReaction(c, u, r, ch);
    TargetParses(c, u, r);
    hide TargetState, React, Feed, Bytes, InUrl;
    if TargetState(c, u + [ch]).Dead? {
      FeedFails(r, ch);
    } else {
      var p := r.p.(nread := r.p.nread + 1);
      FeedCounted(r, ch, React(p, ch));
      BytesSnoc(Url, u, ch);
      assert c.trace + Bytes(Url, u) + [Data(Url, ch)] == c.trace + Bytes(Url, u + [ch]);
    }
  }

  lemma TargetParses(c: Config, u: string, r: Config)
    requires AtTarget(c, |u| + 1) && TargetTaken(c, u, r) && (u == "" || InUrl(TargetState(c, u)))
    ensures Running(r) && ParsingHeader(r.p.state) && r.p.nread < MAX_HEADER_SIZE
  {
    hide TargetState;
  }

  /** The parser accepts exactly the targets that the URL automaton accepts, and
      delivers them whole. */
  lemma {:induction false} TargetIsRead(c: Config, u: string)
    requires AtTarget(c, |u|) && TargetText(u)
    ensures Running(Run(c, u)) <==> !TargetState(c, u).Dead?
    ensures Running(Run(c, u)) ==> TargetTaken(c, u, Run(c, u)) && (u == "" || InUrl(TargetState(c, u)))
  {
    if u == "" {
      assert c.trace + Bytes(Url, u) == c.trace;
    } else {
      var v, ch := u[..|u| - 1], u[|u| - 1];
      assert u == v + [ch];
      TargetIsRead(c, v);
      RunLast(c, v, ch);
      TargetStates(c, v, ch);
      if Running(Run(c, v)) {
        hide TargetTaken, TargetState, Feed, Run;
        TargetStep(c, v, Run(c, v), ch);
        TargetTakenRuns(c, u);
      } else {
        RunHalted(Run(c, v), [ch]);
        RunOne(Run(c, v), ch);
        DeadUrlRun(UrlBegin(c.p.verb.CONNECT?), u, |v|);
      }
    }
  }

  lemma TargetTakenRuns(c: Config, u: string)
    requires Running(c)
    ensures TargetTaken(c, u, Run(c, u)) ==> Running(Run(c, u))
  {
  }

  // ------------------------------------------------------------------ numbers

  // The three numbers of first lines, each read digit by digit up to 999.
  datatype Field = Major | Minor | Code

  function Number(p: Parser, f: Field): nat {
    match f case Major => p.httpMajor case Minor => p.httpMinor case Code => p.statusCode
  }

  function WithNumber(p: Parser, f: Field, n: nat): Parser {
    match f case Major => p.(httpMajor := n) case Minor => p.(httpMinor := n) case Code => p.(statusCode := n)
  }

  /** The states in which more digits of the number may come. */
  predicate Reads(s: State, f: Field) {
    match f
    case Major => s.ReqHttpMajor? || s.ResHttpMajor?
    case Minor => s.ReqHttpMinor? || s.ResHttpMinor?
    case Code => s.ResStatusCode?
  }

  lemma DigitByte(p: Parser, f: Field, ch: char)
    requires p.errno.Ok? && Reads(p.state, f) && IsNum(ch)
    ensures
      var n := Number(p, f) * 10 + Digit(ch);
      var q := WithNumber(p, f, n);
      React(p, ch) == if n > 999 then Fail(q, if f.Code? then InvalidStatus else InvalidVersion)
                      else Reaction(q, [], Advance)
  {
    assert ch != '.' && ch != '\r' && ch != '\n' && ch != ' ';
  }

  /** The value of a numeral that goes on after `before`. */
  function MoreValue(before: nat, d: string): nat
    requires forall i :: 0 <= i < |d| ==> IsNum(d[i])
  {
    if d == "" then before else MoreValue(before, d[..|d| - 1]) * 10 + Digit(d[|d| - 1])
  }

  lemma {:induction false} MoreValueIs(d: string, e: string)
    requires forall i :: 0 <= i < |d + e| ==> IsNum((d + e)[i])
    ensures forall i :: 0 <= i < |d| ==> IsNum(d[i])
    ensures forall i :: 0 <= i < |e| ==> IsNum(e[i])
    ensures DecValue(d + e) == MoreValue(DecValue(d), e)
    decreases |e|
  {
    assert forall i :: 0 <= i < |d| ==> d[i] == (d + e)[i];
    assert forall i :: 0 <= i < |e| ==> e[i] == (d + e)[|d| + i];
    if e == "" {
      assert d + e == d;
    } else {
      var w := e[..|e| - 1];
      assert (d + e)[..|d + e| - 1] == d + w;
      MoreValueIs(d, w);
    }
  }

  predicate NumberTaken(c: Config, f: Field, n: nat, d: string, r: Config) {
    r == Config(WithNumber(c.p, f, n).(nread := c.p.nread + |d|), c.trace, c.taken + |d|, false)
  }

  lemma DigitStep(c: Config, f: Field, n: nat, d: string, r: Config, ch: char)
    requires Running(c) && Reads(c.p.state, f) && c.p.nread + |d| < MAX_HEADER_SIZE && IsNum(ch)
    requires NumberTaken(c, f, n, d, r)
    ensures
      var m := n * 10 + Digit(ch);
      if m > 999 then !Running(Feed(r, ch)) else NumberTaken(c, f, m, d + [ch], Feed(r, ch))
  {
    var p, m := r.p.(nread := r.p.nread + 1), n * 10 + Digit(ch);
    NumberStands(c, f, n, d, r, m);
    DigitByte(p, f, ch);
    hide React, Feed, WithNumber, Number, Reads, NumberTaken;
    assert c.trace + [] == c.trace;
    if m > 999 {
      FeedFails(r, ch);
    } else {
      FeedCounted(r, ch, React(p, ch));
      NumberTakes(c, f, m, d + [ch], Feed(r, ch));
    }
  }

  lemma NumberStands(c: Config, f: Field, n: nat, d: string, r: Config, m: nat)
    requires Running(c) && Reads(c.p.state, f) && c.p.nread + |d| < MAX_HEADER_SIZE && NumberTaken(c, f, n, d, r)
    ensures Running(r) && ParsingHeader(r.p.state) && r.p.nread < MAX_HEADER_SIZE && r.trace == c.trace
    ensures r.taken == c.taken + |d|
    ensures
      var p := r.p.(nread := r.p.nread + 1);
      && p.errno.Ok? && Reads(p.state, f) && Number(p, f) == n
      && WithNumber(p, f, m) == WithNumber(c.p, f, m).(nread := c.p.nread + |d| + 1)
      && WithNumber(p, f, m).errno.Ok?
  {
  }

  lemma NumberTakes(c: Config, f: Field, n: nat, d: string, r: Config)
    requires r == Config(WithNumber(c.p, f, n).(nread := c.p.nread + |d|), c.trace, c.taken + |d|, false)
    ensures NumberTaken(c, f, n, d, r)
  {
  }

  /** More digits are read as long as, and only as long as, the number stays below
      1000. */
  lemma {:induction false} DigitsAreRead(c: Config, f: Field, d: string)
    requires Running(c) && Reads(c.p.state, f) && c.p.nread + |d| <= MAX_HEADER_SIZE && Number(c.p, f) <= 999
    requires forall i :: 0 <= i < |d| ==> IsNum(d[i])
    ensures
      var n := MoreValue(Number(c.p, f), d);
      if n > 999 then !Running(Run(c, d)) else NumberTaken(c, f, n, d, Run(c, d))
  {
    if d != "" {
      var v, ch := d[..|d| - 1], d[|d| - 1];
      assert d == v + [ch];
      DigitsAreRead(c, f, v);
      RunLast(c, v, ch);
      var n := MoreValue(Number(c.p, f), v);
      hide Run, Feed, NumberTaken;
      if n > 999 {
        RunHalted(Run(c, v), [ch]);
        RunOne(Run(c, v), ch);
      } else {
        DigitStep(c, f, n, v, Run(c, v), ch);
      }
    }
  }

  // ------------------------------------------------------------------ version

  /** A byte that only moves on. */
  lemma Moves(c: Config, ch: char, s: State)
    requires Running(c) && ParsingHeader(c.p.state) && c.p.nread < MAX_HEADER_SIZE
    requires
      var p := c.p.(nread := c.p.nread + 1);
      React(p, ch) == Reaction(p.(state := s), [], Advance)
    ensures Feed(c, ch) == Config(c.p.(state := s, nread := c.p.nread + 1), c.trace, c.taken + 1, false)
  {
    hide React, Feed;
    FeedCounted(c, ch, React(c.p.(nread := c.p.nread + 1), ch));
    assert c.trace + [] == c.trace;
  }

  function AfterTtp(s: State): State { if s.ReqHttpH? then ReqFirstHttpMajor else ResFirstHttpMajor }

  lemma {:induction false} FourBytes(c: Config, a: char, b: char, d: char, e: char)
    ensures Run(c, [a, b, d, e]) == Feed(Feed(Feed(Feed(c, a), b), d), e)
  {
    hide Feed;
    RunOne(c, a);
    RunLast(c, [a], b);
    RunLast(c, [a, b], d);
    RunLast(c, [a, b, d], e);
    assert [a] + [b] == [a, b] && [a, b] + [d] == [a, b, d] && [a, b, d] + [e] == [a, b, d, e];
  }

  /** The byte a state inside "HTTP/" waits for, and where it leads. */
  function Awaited(s: State): (char, State) {
    match s
    case ReqHttpH => ('T', ReqHttpHT)
    case ReqHttpHT => ('T', ReqHttpHTT)
    case ReqHttpHTT => ('P', ReqHttpHTTP)
    case ReqHttpHTTP => ('/', ReqFirstHttpMajor)
    case ResH => ('T', ResHT)
    case ResHT => ('T', ResHTT)
    case ResHTT => ('P', ResHTTP)
    case _ => ('/', ResFirstHttpMajor)
  }

  predicate InWord(s: State) {
    s.ReqHttpH? || s.ReqHttpHT? || s.ReqHttpHTT? || s.ReqHttpHTTP? || s.ResH? || s.ResHT? || s.ResHTT? || s.ResHTTP?
  }

  lemma AwaitedByte(p: Parser)
    requires p.errno.Ok? && InWord(p.state)
    ensures React(p, Awaited(p.state).0) == Reaction(p.(state := Awaited(p.state).1), [], Advance)
  {
    var ch := Awaited(p.state).0;
    if InStatusLine(p.state) {
      assert Handle(p, ch) == StatusLineByte(p, ch);
    } else {
      assert InVersion(p.state) && Handle(p, ch) == VersionByte(p, ch);
    }
  }

  /** `n` bytes on from `c`, in state `s`, with nothing delivered. */
  predicate WordTaken(c: Config, s: State, n: nat, r: Config) {
    r == Config(c.p.(state := s, nread := c.p.nread + n), c.trace, c.taken + n, false)
  }

  lemma WordStep(c: Config, s: State, n: nat, r: Config)
    requires Running(c) && InWord(s) && c.p.nread + n < MAX_HEADER_SIZE && WordTaken(c, s, n, r)
    ensures WordTaken(c, Awaited(s).1, n + 1, Feed(r, Awaited(s).0))
  {
    AwaitedByte(r.p.(nread := r.p.nread + 1));
    hide React, Feed, Awaited;
    Moves(r, Awaited(s).0, Awaited(s).1);
  }

  lemma WordStarts(c: Config)
    requires Running(c)
    ensures WordTaken(c, c.p.state, 0, c)
  {
  }

  lemma RequestWord(c: Config)
    requires Running(c) && c.p.state.ReqHttpH? && c.p.nread + 4 <= MAX_HEADER_SIZE
    ensures WordTaken(c, ReqFirstHttpMajor, 4, Feed(Feed(Feed(Feed(c, 'T'), 'T'), 'P'), '/'))
  {
    hide WordTaken, Feed, Run;
    WordStarts(c);
    var c2 := Feed(Feed(c, 'T'), 'T');
    WordStep(c, ReqHttpH, 0, c);
    WordStep(c, ReqHttpHT, 1, Feed(c, 'T'));
    WordStep(c, ReqHttpHTT, 2, c2);
    WordStep(c, ReqHttpHTTP, 3, Feed(c2, 'P'));
  }

  lemma ResponseWord(c: Config)
    requires Running(c) && c.p.state.ResH? && c.p.nread + 4 <= MAX_HEADER_SIZE
    ensures WordTaken(c, ResFirstHttpMajor, 4, Feed(Feed(Feed(Feed(c, 'T'), 'T'), 'P'), '/'))
  {
    hide WordTaken, Feed, Run;
    WordStarts(c);
    var c2 := Feed(Feed(c, 'T'), 'T');
    WordStep(c, ResH, 0, c);
    WordStep(c, ResHT, 1, Feed(c, 'T'));
    WordStep(c, ResHTT, 2, c2);
    WordStep(c, ResHTTP, 3, Feed(c2, 'P'));
  }

  /** The rest of "HTTP/". */
  lemma TtpIsRead(c: Config)
    requires Running(c) && (c.p.state.ReqHttpH? || c.p.state.ResH?) && c.p.nread + 4 <= MAX_HEADER_SIZE
    ensures WordTaken(c, AfterTtp(c.p.state), 4, Run(c, "TTP/"))
  {
    hide WordTaken, Feed, Run;
    FourBytes(c, 'T', 'T', 'P', '/');
    assert "TTP/" == ['T', 'T', 'P', '/'];
    if c.p.state.ReqHttpH? {
      RequestWord(c);
    } else {
      ResponseWord(c);
    }
  }

  /** The state before a number, before which no digit has come, and the one after. */
  predicate Opens(s: State, f: Field, t: State) {
    match f
    case Major => (s.ReqFirstHttpMajor? && t.ReqHttpMajor?) || (s.ResFirstHttpMajor? && t.ResHttpMajor?)
    case Minor => (s.ReqFirstHttpMinor? && t.ReqHttpMinor?) || (s.ResFirstHttpMinor? && t.ResHttpMinor?)
    case Code => s.ResFirstStatusCode? && t.ResStatusCode?
  }

  lemma OpeningByte(p: Parser, f: Field, t: State, ch: char)
    requires p.errno.Ok? && Opens(p.state, f, t) && IsNum(ch) && (p.state.ReqFirstHttpMajor? ==> ch != '0')
    ensures React(p, ch) == Reaction(WithNumber(p, f, Digit(ch)).(state := t), [], Advance)
  {
    assert ch != ' ';
  }

  /** A digit run is its first digit, and then the rest from a state that reads. */
  lemma FirstDigitThenRest(c: Config, f: Field, t: State, d: string)
    requires Running(c) && Opens(c.p.state, f, t) && AllDigits(d) && c.p.nread + |d| <= MAX_HEADER_SIZE
    requires c.p.state.ReqFirstHttpMajor? ==> d[0] != '0'
    ensures
      var a := Feed(c, d[0]);
      && a == Config(WithNumber(c.p, f, Digit(d[0])).(state := t, nread := c.p.nread + 1), c.trace, c.taken + 1, false)
      && Run(c, d) == Run(a, d[1..])
      && Reads(t, f) && Number(a.p, f) == Digit(d[0]) && Digit(d[0]) <= 9 && Running(a)
  {
    hide React, Feed, Run, Reads, Number, WithNumber;
    assert d == [d[0]] + d[1..];
    RunConcat(c, [d[0]], d[1..]);
    RunOne(c, d[0]);
    FirstDigitTaken(c, f, t, d[0]);
    OpenFits(c.p.(nread := c.p.nread + 1), f, t, Digit(d[0]));
    OpenedNumber(c.p, f, t, Digit(d[0]));
    KeepsErrno(c.p, f, Digit(d[0]));
  }

  lemma KeepsErrno(p: Parser, f: Field, n: nat)
    ensures WithNumber(p, f, n).errno == p.errno
  {
  }

  lemma OpenedNumber(p: Parser, f: Field, t: State, n: nat)
    ensures Number(WithNumber(p, f, n).(state := t, nread := p.nread + 1), f) == n
  {
  }

  lemma DigitRunValue(d: string)
    requires AllDigits(d)
    ensures IsNum(d[0]) && forall i :: 0 <= i < |d[1..]| ==> IsNum(d[1..][i])
    ensures DecValue(d) == MoreValue(Digit(d[0]), d[1..])
  {
    assert d == [d[0]] + d[1..];
    MoreValueIs([d[0]], d[1..]);
    OneDigit(d[0]);
    hide DecValue, MoreValue;
  }

  /** The digits behind the first one, from the configuration that it leaves. */
  lemma RestIsRead(c: Config, f: Field, t: State, n: nat, e: string, a: Config)
    requires Running(c) && Reads(t, f) && n <= 999 && forall i :: 0 <= i < |e| ==> IsNum(e[i])
    requires a == Config(WithNumber(c.p, f, n).(state := t, nread := c.p.nread + 1), c.trace, c.taken + 1, false)
    requires Number(a.p, f) == n && Running(a) && c.p.nread + 1 + |e| <= MAX_HEADER_SIZE
    ensures
      var m := MoreValue(n, e);
      if m > 999 then !Running(Run(a, e)) else NumberRead(c, f, t, m, 1 + |e|, Run(a, e))
  {
    hide Run, Reads, Number, WithNumber, MoreValue, IsNum, NumberTaken, NumberRead;
    DigitsAreRead(a, f, e);
    var m := MoreValue(n, e);
    if m <= 999 {
      NumberGoesOn(c, f, t, n, m, |e|, a, e, Run(a, e));
    }
  }

  /** `k` bytes on from `c`, with the number read. */
  predicate NumberRead(c: Config, f: Field, t: State, n: nat, k: nat, r: Config) {
    r == Config(WithNumber(c.p, f, n).(state := t, nread := c.p.nread + k), c.trace, c.taken + k, false)
  }

  lemma NumberGoesOn(c: Config, f: Field, t: State, n: nat, m: nat, k: nat, a: Config, e: string, r: Config)
    requires NumberRead(c, f, t, n, 1, a) && k == |e| && NumberTaken(a, f, m, e, r)
    ensures NumberRead(c, f, t, m, 1 + k, r)
  {
    NumberTwice(c.p, f, t, n, m, k);
  }

  /** A number is read as its decimal value, or refused if that is above 999. */
  lemma NumberIsRead(c: Config, f: Field, t: State, d: string)
    requires Running(c) && Opens(c.p.state, f, t) && AllDigits(d) && c.p.nread + |d| <= MAX_HEADER_SIZE
    requires c.p.state.ReqFirstHttpMajor? ==> d[0] != '0'
    ensures
      if DecValue(d) > 999 then !Running(Run(c, d))
      else Run(c, d) == Config(WithNumber(c.p, f, DecValue(d)).(state := t, nread := c.p.nread + |d|),
                               c.trace, c.taken + |d|, false)
  {
    hide React, Feed, Run, Opens, Reads, Number, WithNumber, DecValue, MoreValue, IsNum, ParsingHeader, AllDigits,
      Running, Digit, NumberRead;
    assert |d| > 0 by { NotEmpty(d); }
    DigitRunValue(d);
    FirstDigitThenRest(c, f, t, d);
    RestIsRead(c, f, t, Digit(d[0]), d[1..], Feed(c, d[0]));
    if DecValue(d) <= 999 {
      NumberReadIs(c, f, t, DecValue(d), |d|, Run(c, d));
    }
  }

  lemma NotEmpty(d: string)
    requires AllDigits(d)
    ensures d != ""
  {
  }

  lemma NumberReadIs(c: Config, f: Field, t: State, n: nat, k: nat, r: Config)
    requires NumberRead(c, f, t, n, k, r)
    ensures r == Config(WithNumber(c.p, f, n).(state := t, nread := c.p.nread + k), c.trace, c.taken + k, false)
  {
  }

  lemma NumberTwice(p: Parser, f: Field, t: State, n: nat, m: nat, k: nat)
    ensures
      var q := WithNumber(p, f, n).(state := t, nread := p.nread + 1);
      WithNumber(q, f, m).(nread := q.nread + k) == WithNumber(p, f, m).(state := t, nread := p.nread + 1 + k)
  {
  }

  lemma FirstDigitTaken(c: Config, f: Field, t: State, ch: char)
    requires Running(c) && Opens(c.p.state, f, t) && IsNum(ch) && c.p.nread < MAX_HEADER_SIZE
    requires c.p.state.ReqFirstHttpMajor? ==> ch != '0'
    ensures Feed(c, ch)
         == Config(WithNumber(c.p, f, Digit(ch)).(state := t, nread := c.p.nread + 1), c.trace, c.taken + 1, false)
  {
    var p := c.p.(nread := c.p.nread + 1);
    OpeningByte(p, f, t, ch);
    OpenFits(c.p, f, t, Digit(ch));
    hide React, Feed, Opens, Reads;
    FeedCounted(c, ch, React(p, ch));
    assert c.trace + [] == c.trace;
  }

  lemma OneDigit(ch: char)
    requires IsNum(ch)
    ensures DecValue([ch]) == Digit(ch)
  {
    assert [ch][..0] == "";
    assert DecValue([ch][..0]) == 0;
  }

  lemma OpenFits(p: Parser, f: Field, t: State, n: nat)
    requires Opens(p.state, f, t)
    ensures ParsingHeader(p.state) && Reads(t, f)
    ensures Number(WithNumber(p, f, n), f) == n
  {
  }

  lemma DotByte(p: Parser)
    requires p.errno.Ok? && (p.state.ReqHttpMajor? || p.state.ResHttpMajor?)
    ensures React(p, '.')
         == Reaction(p.(state := if p.state.ReqHttpMajor? then ReqFirstHttpMinor else ResFirstHttpMinor), [], Advance)
  {
    if InStatusLine(p.state) {
      assert Handle(p, '.') == StatusLineByte(p, '.');
    } else {
      assert Handle(p, '.') == VersionByte(p, '.');
    }
  }

  /** After a version whose numbers are fine. */
  predicate VersionTaken(c: Config, a: string, b: string, r: Config)
    requires AllDigits(a) && AllDigits(b)
  {
    r == Config(c.p.(state := if c.p.state.ReqFirstHttpMajor? then ReqHttpMinor else ResHttpMinor,
                     httpMajor := DecValue(a), httpMinor := DecValue(b), nread := c.p.nread + |a| + 1 + |b|),
                c.trace, c.taken + |a| + 1 + |b|, false)
  }

  /** A version is read as two decimal numbers if and only if both are below 1000. */
  lemma VersionIsRead(c: Config, a: string, b: string)
    requires Running(c) && (c.p.state.ReqFirstHttpMajor? || c.p.state.ResFirstHttpMajor?)
    requires AllDigits(a) && AllDigits(b) && c.p.nread + |a| + 1 + |b| <= MAX_HEADER_SIZE
    requires c.p.state.ReqFirstHttpMajor? ==> a[0] != '0'
    ensures
      if DecValue(a) > 999 || DecValue(b) > 999 then !Running(Run(c, a + "." + b))
      else VersionTaken(c, a, b, Run(c, a + "." + b))
  {
    hide Run, Feed, React, DecValue;
    var req := c.p.state.ReqFirstHttpMajor?;
    ThreePieces(c, a, ".", b);
    NumberIsRead(c, Major, if req then ReqHttpMajor else ResHttpMajor, a);
    var c1 := Run(c, a);
    RunOne(c1, '.');
    if DecValue(a) > 999 {
      RunHalted(c1, ".");
      RunHalted(c1, b);
    } else {
      DotByte(c1.p.(nread := c1.p.nread + 1));
      Moves(c1, '.', if req then ReqFirstHttpMinor else ResFirstHttpMinor);
      NumberIsRead(Feed(c1, '.'), Minor, if req then ReqHttpMinor else ResHttpMinor, b);
    }
  }

  lemma ThreePieces(c: Config, a: string, b: string, d: string)
    ensures Run(c, a + b + d) == Run(Run(Run(c, a), b), d)
  {
    RunConcat(c, a + b, d);
    RunConcat(c, a, b);
  }

  // ----------------------------------------------------- spaces and line ends

  function Spaces(k: nat): (s: string)
    ensures |s| == k
  {
    if k == 0 then "" else Spaces(k - 1) + " "
  }

  /** A line may end in CR LF or in LF alone. */
  function LineEnding(crlf: bool): string { if crlf then "\r\n" else "\n" }

  /** The states that any number of spaces leaves alone. */
  predicate SkipsSpaces(s: State) { s.ReqSpacesBeforeUrl? || s.ReqHttpStart? || s.ResFirstStatusCode? }

  lemma SpaceSkipped(p: Parser)
    requires p.errno.Ok? && SkipsSpaces(p.state)
    ensures React(p, ' ') == Reaction(p, [], Advance)
  {
    if p.state.ReqSpacesBeforeUrl? {
      assert Handle(p, ' ') == UrlByte(p, ' ');
    } else if p.state.ReqHttpStart? {
      assert Handle(p, ' ') == VersionByte(p, ' ');
    } else {
      assert Handle(p, ' ') == StatusLineByte(p, ' ');
    }
  }

  lemma {:induction false} SpacesAreSkipped(c: Config, k: nat)
    requires Running(c) && SkipsSpaces(c.p.state) && c.p.nread + k <= MAX_HEADER_SIZE
    ensures Run(c, Spaces(k)) == Config(c.p.(nread := c.p.nread + k), c.trace, c.taken + k, false)
    decreases k
  {
    hide React, Feed, Run;
    if k == 0 {
      NothingRead(c);
    } else {
      SpacesAreSkipped(c, k - 1);
      assert " " == [' '];
      RunLast(c, Spaces(k - 1), ' ');
      var r := Run(c, Spaces(k - 1));
      SpaceSkipped(r.p.(nread := r.p.nread + 1));
      Moves(r, ' ', r.p.state);
    }
  }

  lemma NothingRead(c: Config)
    ensures Run(c, "") == c
  {
  }

  /** CR leads to `mid`, and LF, directly or behind CR, to the header lines. */
  predicate LineCloses(p: Parser, mid: State) {
    && React(p, '\r') == Reaction(p.(state := mid), [], Advance)
    && React(p, '\n') == Reaction(p.(state := HeaderFieldStart), [], Advance)
  }

  // ------------------------------------------------------------- request line

  /** After `i` bytes of the name of `m`. */
  predicate MethodTaken(c: Config, m: Method, i: nat, r: Config) {
    r == Config(Fresh(c.p).(state := ReqMethod, verb := Lead(m, i), index := i, nread := c.p.nread + i),
                c.trace + [Notify(MessageBegin)], c.taken + i, false)
  }

  lemma MethodFirst(c: Config, m: Method)
    requires AtStartReq(c) && c.p.nread < MAX_HEADER_SIZE
    ensures MethodTaken(c, m, 1, Feed(c, MethodString(m)[0]))
  {
    LeadStarts(m);
    var ch := MethodString(m)[0];
    hide MethodString, Lead, FirstMethod, HasMethodLetter;
    var p := c.p.(nread := c.p.nread + 1);
    LetterIsNoLineEnd(ch);
    assert Handle(p, ch) == StartByte(p, ch);
    FeedCounted(c, ch, React(p, ch));
  }

  lemma LetterIsNoLineEnd(ch: char)
    requires IsAlpha(ch)
    ensures !IsLineEnd(ch)
  {
  }

  lemma MethodReact(p: Parser, ch: char)
    requires p.errno.Ok? && p.state.ReqMethod?
    ensures React(p, ch) == MethodByte(p, ch)
  {
    assert Handle(p, ch) == MethodByte(p, ch);
    hide Divert, MethodString;
  }

  lemma MethodAdvances(p: Parser, m: Method, i: nat)
    requires p.errno.Ok? && p.state.ReqMethod? && p.verb == Lead(m, i) && p.index == i
    requires 1 <= i < |MethodString(m)|
    ensures MethodByte(p, MethodString(m)[i]) == Reaction(p.(index := i + 1, verb := Lead(m, i + 1)), [], Advance)
  {
    hide MethodString, Lead, Divert;
    LeadAdvances(m, i);
    NoSpaceInMethod(m, i);
  }

  lemma MethodSpace(p: Parser)
    requires p.errno.Ok? && p.state.ReqMethod? && p.index == |MethodString(p.verb)|
    ensures MethodByte(p, ' ') == Reaction(p.(state := ReqSpacesBeforeUrl, index := p.index + 1), [], Advance)
  {
    hide MethodString, Divert;
  }

  lemma MethodNext(c: Config, m: Method, i: nat, r: Config)
    requires Running(c) && 1 <= i < |MethodString(m)| && c.p.nread + i < MAX_HEADER_SIZE && MethodTaken(c, m, i, r)
    ensures MethodTaken(c, m, i + 1, Feed(r, MethodString(m)[i]))
  {
    hide MethodString, Lead, MethodByte, React, Feed;
    var ch := MethodString(m)[i];
    var p := r.p.(nread := r.p.nread + 1);
    MethodReact(p, ch);
    MethodAdvances(p, m, i);
    FeedCounted(r, ch, React(p, ch));
    assert c.trace + [Notify(MessageBegin)] + [] == c.trace + [Notify(MessageBegin)];
  }

  lemma {:induction false} MethodNameTaken(c: Config, m: Method, i: nat)
    requires AtStartReq(c) && 1 <= i <= |MethodString(m)| && c.p.nread + i <= MAX_HEADER_SIZE
    ensures MethodTaken(c, m, i, Run(c, MethodString(m)[..i]))
    decreases i
  {
    hide MethodString, Feed, Run, MethodTaken;
    var t := MethodString(m);
    if i == 1 {
      assert t[..1] == [t[0]];
      RunOne(c, t[0]);
      MethodFirst(c, m);
    } else {
      MethodNameTaken(c, m, i - 1);
      assert t[..i] == t[..i - 1] + [t[i - 1]];
      RunLast(c, t[..i - 1], t[i - 1]);
      MethodNext(c, m, i - 1, Run(c, t[..i - 1]));
    }
  }

  /** After a method name and the space behind it. */
  predicate AfterMethod(c: Config, m: Method, r: Config) {
    var n := |MethodString(m)|;
    r == Config(Fresh(c.p).(state := ReqSpacesBeforeUrl, verb := m, index := n + 1, nread := c.p.nread + n + 1),
                c.trace + [Notify(MessageBegin)], c.taken + n + 1, false)
  }

  lemma MethodIsHeader()
    ensures ParsingHeader(ReqMethod)
  {
  }

  lemma SpaceBehindName(c: Config, m: Method, r: Config)
    requires Running(c) && MethodTaken(c, m, |MethodString(m)|, r) && c.p.nread + |MethodString(m)| < MAX_HEADER_SIZE
    ensures AfterMethod(c, m, Feed(r, ' '))
  {
    LeadStarts(m);
    MethodIsHeader();
    hide MethodString, Lead, Feed, React, MethodByte, ParsingHeader;
    var p := r.p.(nread := r.p.nread + 1);
    MethodReact(p, ' ');
    MethodSpace(p);
    FeedCounted(r, ' ', React(p, ' '));
    assert c.trace + [Notify(MessageBegin)] + [] == c.trace + [Notify(MessageBegin)];
  }

  lemma MethodIsRead(c: Config, m: Method)
    requires AtStartReq(c) && c.p.nread + |MethodString(m)| + 1 <= MAX_HEADER_SIZE
    ensures AfterMethod(c, m, Run(c, MethodString(m) + " "))
  {
    hide MethodString, Run, Feed, MethodTaken, AfterMethod;
    var t := MethodString(m);
    MethodNotEmpty(m);
    MethodNameTaken(c, m, |t|);
    assert t[..|t|] == t;
    assert " " == [' '];
    RunLast(c, t, ' ');
    SpaceBehindName(c, m, Run(c, t));
  }

  lemma SpaceAfterTarget(p: Parser)
    requires p.errno.Ok? && InUrl(p.state)
    ensures React(p, ' ')
         == if InUrlTail(p.state) then Reaction(p.(state := ReqHttpStart), [], Advance) else Fail(p, InvalidUrl)
  {
    hide ParseUrlChar;
    assert Handle(p, ' ') == UrlByte(p, ' ');
  }

  lemma HByte(p: Parser)
    requires p.errno.Ok? && p.state.ReqHttpStart?
    ensures React(p, 'H') == Reaction(p.(state := ReqHttpH), [], Advance)
  {
    assert Handle(p, 'H') == VersionByte(p, 'H');
  }

  lemma RequestLineEnds(p: Parser)
    requires p.errno.Ok?
    ensures p.state.ReqHttpMinor? ==> LineCloses(p, ReqLineAlmostDone)
    ensures p.state.ReqLineAlmostDone? ==> React(p, '\n') == Reaction(p.(state := HeaderFieldStart), [], Advance)
  {
    if p.state.ReqHttpMinor? {
      assert Handle(p, '\r') == VersionByte(p, '\r') && Handle(p, '\n') == VersionByte(p, '\n');
    } else if p.state.ReqLineAlmostDone? {
      assert Handle(p, '\n') == VersionByte(p, '\n');
    }
  }

  lemma LineEndTaken(c: Config, crlf: bool)
    requires Running(c) && c.p.state.ReqHttpMinor? && c.p.nread + |LineEnding(crlf)| <= MAX_HEADER_SIZE
    ensures
      var n := |LineEnding(crlf)|;
      Run(c, LineEnding(crlf))
         == Config(c.p.(state := HeaderFieldStart, nread := c.p.nread + n), c.trace, c.taken + n, false)
  {
    hide Run, Feed, React;
    RequestLineEnds(c.p.(nread := c.p.nread + 1));
    assert "\n" == ['\n'] && "\r" == ['\r'] && "\r" + ['\n'] == "\r\n";
    if crlf {
      RunOne(c, '\r');
      RunLast(c, "\r", '\n');
      Moves(c, '\r', ReqLineAlmostDone);
      var d := Feed(c, '\r');
      RequestLineEnds(d.p.(nread := d.p.nread + 1));
      Moves(d, '\n', HeaderFieldStart);
    } else {
      RunOne(c, '\n');
      Moves(c, '\n', HeaderFieldStart);
    }
  }

  // The version of a request line, behind one space and any further ones, or none,
  // which stands for 0.9.
  datatype Version = NoVersion | Numbered(gap: nat, major: string, minor: string) {
    predicate Good() {
      Numbered? ==> AllDigits(major) && major[0] != '0' && AllDigits(minor)
    }

    function Major(): nat
      requires Good()
    {
      if Numbered? then DecValue(major) else 0
    }

    function Minor(): nat
      requires Good()
    {
      if Numbered? then DecValue(minor) else 9
    }
  }

  function VersionText(a: string, b: string, crlf: bool): string { "H" + "TTP/" + (a + "." + b) + LineEnding(crlf) }

  predicate RequestVersionTaken(c: Config, a: string, b: string, crlf: bool, r: Config)
    requires AllDigits(a) && AllDigits(b)
  {
    var n := |VersionText(a, b, crlf)|;
    r == Config(c.p.(state := HeaderFieldStart, httpMajor := DecValue(a), httpMinor := DecValue(b), nread := c.p.nread + n),
                c.trace, c.taken + n, false)
  }

  lemma HTaken(c: Config)
    requires Running(c) && c.p.state.ReqHttpStart? && c.p.nread + 5 <= MAX_HEADER_SIZE
    ensures Run(c, "H" + "TTP/")
         == Config(c.p.(state := ReqFirstHttpMajor, nread := c.p.nread + 5), c.trace, c.taken + 5, false)
  {
    hide Run, Feed, React;
    assert "H" == ['H'];
    RunConcat(c, "H", "TTP/");
    RunOne(c, 'H');
    HByte(c.p.(nread := c.p.nread + 1));
    Moves(c, 'H', ReqHttpH);
    TtpIsRead(Feed(c, 'H'));
  }

  lemma RequestVersion(c: Config, a: string, b: string, crlf: bool)
    requires Running(c) && c.p.state.ReqHttpStart? && AllDigits(a) && AllDigits(b) && a[0] != '0'
    requires c.p.nread + |VersionText(a, b, crlf)| <= MAX_HEADER_SIZE
    ensures
      var r := Run(c, VersionText(a, b, crlf));
      if DecValue(a) > 999 || DecValue(b) > 999 then !Running(r) else RequestVersionTaken(c, a, b, crlf, r)
  {
    hide Run, Feed, React, DecValue;
    ThreePieces(c, "H" + "TTP/", a + "." + b, LineEnding(crlf));
    HTaken(c);
    var d := Run(c, "H" + "TTP/");
    VersionIsRead(d, a, b);
    var e := Run(d, a + "." + b);
    if DecValue(a) > 999 || DecValue(b) > 999 {
      RunHalted(e, LineEnding(crlf));
    } else {
      LineEndTaken(e, crlf);
    }
  }

  /** What follows the target: a line end, or spaces and a version. */
  function TailText(v: Version, crlf: bool): string {
    if v.NoVersion? then LineEnding(crlf) else " " + Spaces(v.gap) + VersionText(v.major, v.minor, crlf)
  }

  /** The end of a request line behind its target. */
  predicate TailTaken(c: Config, v: Version, crlf: bool, r: Config)
    requires v.Good()
  {
    var n := |TailText(v, crlf)|;
    r == Config(c.p.(state := HeaderFieldStart, httpMajor := v.Major(), httpMinor := v.Minor(), nread := c.p.nread + n),
                c.trace, c.taken + n, false)
  }

  lemma OldLineEnd(p: Parser, ch: char)
    requires p.errno.Ok? && InUrl(p.state) && IsLineEnd(ch)
    ensures
      var mid := if ch == '\r' then ReqLineAlmostDone else HeaderFieldStart;
      React(p, ch) == if InUrlTail(p.state) then Reaction(p.(state := mid, httpMajor := 0, httpMinor := 9), [], Advance)
                      else Fail(p, InvalidUrl)
  {
    hide ParseUrlChar;
    assert Handle(p, ch) == UrlByte(p, ch);
  }

  lemma UrlIsHeader(s: State)
    requires InUrl(s)
    ensures ParsingHeader(s) && ParsingHeader(ReqLineAlmostDone)
  {
  }

  /** The first byte of a line end behind the target. */
  lemma OldEndTaken(c: Config, ch: char)
    requires Running(c) && InUrl(c.p.state) && c.p.nread < MAX_HEADER_SIZE && IsLineEnd(ch)
    ensures
      var r := Feed(c, ch);
      if InUrlTail(c.p.state) then
        r == Config(c.p.(state := if ch == '\r' then ReqLineAlmostDone else HeaderFieldStart,
                         httpMajor := 0, httpMinor := 9, nread := c.p.nread + 1), c.trace, c.taken + 1, false)
      else !Running(r)
  {
    UrlIsHeader(c.p.state);
    hide Feed, React, InUrl, InUrlTail, ParsingHeader;
    var p := c.p.(nread := c.p.nread + 1);
    OldLineEnd(p, ch);
    assert c.trace + [] == c.trace;
    if InUrlTail(c.p.state) {
      FeedCounted(c, ch, React(p, ch));
    } else {
      FeedFails(c, ch);
    }
  }

  lemma LineFeedTaken(c: Config)
    requires Running(c) && c.p.state.ReqLineAlmostDone? && c.p.nread < MAX_HEADER_SIZE
    ensures Feed(c, '\n')
         == Config(c.p.(state := HeaderFieldStart, nread := c.p.nread + 1), c.trace, c.taken + 1, false)
  {
    hide Feed, React;
    RequestLineEnds(c.p.(nread := c.p.nread + 1));
    Moves(c, '\n', HeaderFieldStart);
  }

  /** A line without a version. */
  lemma OldTail(c: Config, crlf: bool)
    requires Running(c) && InUrl(c.p.state) && c.p.nread + |LineEnding(crlf)| <= MAX_HEADER_SIZE
    ensures
      var r := Run(c, LineEnding(crlf));
      if InUrlTail(c.p.state) then TailTaken(c, NoVersion, crlf, r) else !Running(r)
  {
    UrlIsHeader(c.p.state);
    hide Run, Feed, React, InUrl, InUrlTail, ParsingHeader;
    assert "\n" == ['\n'] && "\r" == ['\r'] && "\r" + ['\n'] == "\r\n";
    if crlf {
      RunOne(c, '\r');
      RunLast(c, "\r", '\n');
      OldEndTaken(c, '\r');
      var d := Feed(c, '\r');
      if InUrlTail(c.p.state) {
        LineFeedTaken(d);
      } else {
        RunHalted(d, ['\n']);
        RunOne(d, '\n');
      }
    } else {
      RunOne(c, '\n');
      OldEndTaken(c, '\n');
    }
  }

  lemma SpaceTaken(c: Config)
    requires Running(c) && InUrl(c.p.state) && c.p.nread < MAX_HEADER_SIZE
    ensures
      var r := Feed(c, ' ');
      if InUrlTail(c.p.state)
      then r == Config(c.p.(state := ReqHttpStart, nread := c.p.nread + 1), c.trace, c.taken + 1, false)
      else !Running(r)
  {
    UrlIsHeader(c.p.state);
    hide Feed, React, InUrl, InUrlTail, ParsingHeader;
    SpaceAfterTarget(c.p.(nread := c.p.nread + 1));
    if InUrlTail(c.p.state) {
      Moves(c, ' ', ReqHttpStart);
    } else {
      FeedFails(c, ' ');
    }
  }

  /** The space behind the target, and any further ones. */
  lemma GapTaken(c: Config, k: nat)
    requires Running(c) && InUrl(c.p.state) && c.p.nread + 1 + k <= MAX_HEADER_SIZE
    ensures
      var r := Run(Run(c, " "), Spaces(k));
      if InUrlTail(c.p.state)
      then r == Config(c.p.(state := ReqHttpStart, nread := c.p.nread + 1 + k), c.trace, c.taken + 1 + k, false)
      else !Running(r)
  {
    hide Run, Feed, InUrl, InUrlTail;
    assert " " == [' '];
    RunOne(c, ' ');
    SpaceTaken(c);
    var d := Feed(c, ' ');
    if InUrlTail(c.p.state) {
      SpacesAreSkipped(d, k);
    } else {
      RunHalted(d, Spaces(k));
    }
  }

  lemma NewTail(c: Config, v: Version, crlf: bool)
    requires Running(c) && InUrl(c.p.state) && v.Numbered? && v.Good()
    requires c.p.nread + |TailText(v, crlf)| <= MAX_HEADER_SIZE
    ensures
      var r := Run(c, TailText(v, crlf));
      if InUrlTail(c.p.state) && v.Major() <= 999 && v.Minor() <= 999 then TailTaken(c, v, crlf, r) else !Running(r)
  {
    hide Run, InUrl, InUrlTail, DecValue, AllDigits, RequestVersionTaken, TailTaken, Spaces, LineEnding;
    VersionSize(v, crlf);
    ThreePieces(c, " ", Spaces(v.gap), VersionText(v.major, v.minor, crlf));
    GapTaken(c, v.gap);
    var e := Run(Run(c, " "), Spaces(v.gap));
    if InUrlTail(c.p.state) {
      RequestVersion(e, v.major, v.minor, crlf);
      if v.Major() <= 999 && v.Minor() <= 999 {
        TailJoins(c, v, crlf, e, Run(e, VersionText(v.major, v.minor, crlf)));
      }
    } else {
      RunHalted(e, VersionText(v.major, v.minor, crlf));
    }
  }

  lemma VersionSize(v: Version, crlf: bool)
    requires v.Numbered?
    ensures |TailText(v, crlf)| == 1 + v.gap + |VersionText(v.major, v.minor, crlf)|
  {
  }

  lemma TailJoins(c: Config, v: Version, crlf: bool, e: Config, r: Config)
    requires v.Numbered? && v.Good() && RequestVersionTaken(e, v.major, v.minor, crlf, r)
    requires e == Config(c.p.(state := ReqHttpStart, nread := c.p.nread + 1 + v.gap), c.trace, c.taken + 1 + v.gap, false)
    ensures TailTaken(c, v, crlf, r)
  {
    VersionSize(v, crlf);
    hide DecValue, AllDigits, VersionText;
  }

  // A request line: method, a space and any further ones, target, and the rest.
  datatype RequestLine = RequestLine(verb: Method, lead: nat, target: string, version: Version, crlf: bool) {
    function Wire(): string {
      (MethodString(verb) + " ") + (Spaces(lead) + target) + TailText(version, crlf)
    }

    predicate Good() {
      TargetText(target) && target != "" && version.Good()
    }

    /** The target may end where it does, and the version numbers are below 1000. */
    predicate Accepted()
      requires Good()
    {
      InUrlTail(UrlRun(UrlBegin(verb.CONNECT?), target)) && version.Major() <= 999 && version.Minor() <= 999
    }
  }

  /** The part from the spaces before the target to its last byte. */
  lemma SpacesAndTarget(c: Config, k: nat, u: string)
    requires AtTarget(c, k + |u|) && TargetText(u) && u != ""
    ensures
      var r := Run(c, Spaces(k) + u);
      && (Running(r) <==> !TargetState(c, u).Dead?)
      && (Running(r) ==>
            && InUrl(r.p.state)
            && r == Config(c.p.(state := TargetState(c, u), nread := c.p.nread + k + |u|), c.trace + Bytes(Url, u),
                           c.taken + k + |u|, false))
  {
    RunConcat(c, Spaces(k), u);
    SpacesAreSkipped(c, k);
    var d := Run(c, Spaces(k));
    TargetIsRead(d, u);
    hide Run, UrlRun, Bytes, InUrl;
  }

  lemma TargetThenTail(c: Config, l: RequestLine)
    requires Running(c) && InUrl(c.p.state) && l.Good() && c.p.nread + |TailText(l.version, l.crlf)| <= MAX_HEADER_SIZE
    ensures
      var r := Run(c, TailText(l.version, l.crlf));
      if InUrlTail(c.p.state) && l.version.Major() <= 999 && l.version.Minor() <= 999
      then TailTaken(c, l.version, l.crlf, r)
      else !Running(r)
  {
    hide Run, InUrl, InUrlTail, TailTaken, VersionText, TargetText;
    if l.version.NoVersion? {
      OldTail(c, l.crlf);
    } else {
      NewTail(c, l.version, l.crlf);
    }
  }

  /** After a request line: the parser, now one for requests, holds the method and
      the version, and has delivered the start of the message and the target. */
  predicate RequestLineTaken(c: Config, l: RequestLine, r: Config)
    requires l.Good()
  {
    var n := |l.Wire()|;
    r == Config(Fresh(AsRequest(c).p).(state := HeaderFieldStart, verb := l.verb, index := |MethodString(l.verb)| + 1,
                                       httpMajor := l.version.Major(), httpMinor := l.version.Minor(),
                                       nread := c.p.nread + n),
                c.trace + [Notify(MessageBegin)] + Bytes(Url, l.target), c.taken + n, false)
  }

  lemma WireSize(l: RequestLine)
    ensures |l.Wire()| == |MethodString(l.verb)| + 1 + l.lead + |l.target| + |TailText(l.version, l.crlf)|
  {
    hide MethodString, TailText;
  }

  lemma LineFromStart(c: Config, l: RequestLine)
    requires AtStartReq(c) && l.Good() && c.p.nread + |l.Wire()| <= MAX_HEADER_SIZE
    ensures var r := Run(c, l.Wire()); if l.Accepted() then RequestLineTaken(c, l, r) else !Running(r)
  {
    hide Run, MethodString, DecValue, UrlRun, InUrl, InUrlTail, Bytes, TailText, TailTaken, TargetText, AllDigits;
    WireSize(l);
    ThreePieces(c, MethodString(l.verb) + " ", Spaces(l.lead) + l.target, TailText(l.version, l.crlf));
    MethodIsRead(c, l.verb);
    var d := Run(c, MethodString(l.verb) + " ");
    SpacesAndTarget(d, l.lead, l.target);
    var e := Run(d, Spaces(l.lead) + l.target);
    if Running(e) {
      TargetThenTail(e, l);
      if l.Accepted() {
        LineJoins(c, l, d, e, Run(e, TailText(l.version, l.crlf)));
      }
    } else {
      RunHalted(e, TailText(l.version, l.crlf));
      DeadIsNoTail();
    }
  }

  lemma DeadIsNoTail()
    ensures !InUrlTail(Dead)
  {
  }

  lemma LineJoins(c: Config, l: RequestLine, d: Config, e: Config, r: Config)
    requires AtStartReq(c) && l.Good() && AfterMethod(c, l.verb, d) && TailTaken(e, l.version, l.crlf, r)
    requires e == Config(d.p.(state := TargetState(d, l.target), nread := d.p.nread + l.lead + |l.target|),
                         d.trace + Bytes(Url, l.target), d.taken + l.lead + |l.target|, false)
    ensures RequestLineTaken(c, l, r)
  {
    WireSize(l);
    hide MethodString, DecValue, UrlRun, Bytes, TailText, TargetText, AllDigits, TargetState;
  }

  lemma LineLooksLikeRequest(c: Config, l: RequestLine)
    ensures l.Wire() != "" && !IsLineEnd(l.Wire()[0]) && LooksLikeRequest(c, l.Wire())
  {
    LetterStarts(l.verb);
    hide MethodString, TailText;
    assert l.Wire()[0] == MethodString(l.verb)[0] && l.Wire()[1] == MethodString(l.verb)[1];
  }

  /** A request line is accepted if and only if its target may end where it does
      and its version numbers, if it has a version, are below 1000. */
  lemma RequestLineIsRead(c: Config, l: RequestLine)
    requires AtRequest(c) && l.Good() && c.p.nread + |l.Wire()| <= MAX_HEADER_SIZE
    ensures var r := Run(c, l.Wire()); if l.Accepted() then RequestLineTaken(c, l, r) else !Running(r)
  {
    hide Run, LooksLikeRequest, MethodString, TailText, UrlRun, InUrlTail, TargetText, Bytes, DecValue, AllDigits;
    LineLooksLikeRequest(c, l);
    BothReadRequests(c, l.Wire());
    LineFromStart(AsRequest(c), l);
  }

  // -------------------------------------------------------------- status line

  /** A parser that may read a response: one for responses, or one for both kinds of
      messages that has read none yet. */
  predicate AtResponse(c: Config) {
    Running(c) && (c.p.state.StartRes? || c.p.state.StartReqOrRes?)
  }

  /** The response parser that a parser for both becomes on a response. */
  function AsResponse(c: Config): Config {
    if c.p.state.StartReqOrRes? then c.(p := c.p.(state := StartRes, ptype := HttpResponse)) else c
  }

  lemma ResponseOnH(p: Parser)
    requires p.errno.Ok? && p.state.StartRes?
    ensures React(p, 'H') == Reaction(Fresh(p).(state := ResH), [Notify(MessageBegin)], Advance)
  {
    assert Handle(p, 'H') == StartByte(p, 'H');
  }

  lemma SecondT(p: Parser)
    requires p.errno.Ok?
    ensures p.state.ResOrRespH? ==>
              React(p, 'T') == Reaction(p.(ptype := HttpResponse, state := ResHT), [], Advance)
    ensures p.state.ResH? ==> React(p, 'T') == Reaction(p.(state := ResHT), [], Advance)
  {
    if p.state.ResOrRespH? {
      assert Handle(p, 'T') == StartByte(p, 'T');
    } else if p.state.ResH? {
      assert Handle(p, 'T') == StatusLineByte(p, 'T');
    }
  }

  lemma BothOnHT(c: Config)
    requires Running(c) && c.p.state.StartReqOrRes? && c.p.nread + 2 <= MAX_HEADER_SIZE
    ensures Feed(Feed(c, 'H'), 'T') == Feed(Feed(AsResponse(c), 'H'), 'T')
  {
    hide React, Feed;
    var d := AsResponse(c);
    var p, q := c.p.(nread := c.p.nread + 1), d.p.(nread := d.p.nread + 1);
    BothOnH(p);
    ResponseOnH(q);
    FeedCounted(c, 'H', React(p, 'H'));
    FeedCounted(d, 'H', React(q, 'H'));
    var c1, d1 := Feed(c, 'H'), Feed(d, 'H');
    var p1, q1 := c1.p.(nread := c1.p.nread + 1), d1.p.(nread := d1.p.nread + 1);
    SecondT(p1);
    SecondT(q1);
    FeedCounted(c1, 'T', React(p1, 'T'));
    FeedCounted(d1, 'T', React(q1, 'T'));
  }

  /** From its first bytes on, a parser for both reads a response as one for responses. */
  lemma BothReadResponses(c: Config, t: string)
    requires AtResponse(c) && |t| > 1 && t[0] == 'H' && t[1] == 'T' && c.p.nread + |t| <= MAX_HEADER_SIZE
    ensures Run(c, t) == Run(AsResponse(c), t)
  {
    hide Run, Feed;
    if c.p.state.StartReqOrRes? {
      RunCons(c, t);
      RunCons(AsResponse(c), t);
      RunCons(Feed(c, 'H'), t[1..]);
      RunCons(Feed(AsResponse(c), 'H'), t[1..]);
      BothOnHT(c);
    }
  }

  lemma ResponseStarts(c: Config)
    requires Running(c) && c.p.state.StartRes? && c.p.nread < MAX_HEADER_SIZE
    ensures Feed(c, 'H') == Config(Fresh(c.p).(state := ResH, nread := c.p.nread + 1),
                                   c.trace + [Notify(MessageBegin)], c.taken + 1, false)
  {
    hide React;
    var p := c.p.(nread := c.p.nread + 1);
    ResponseOnH(p);
    FeedCounted(c, 'H', React(p, 'H'));
  }

  lemma CodeComes(p: Parser)
    requires p.errno.Ok? && p.state.ResHttpMinor?
    ensures React(p, ' ') == Reaction(p.(state := ResFirstStatusCode), [], Advance)
  {
    assert Handle(p, ' ') == StatusLineByte(p, ' ');
  }

  lemma CodeEnds(p: Parser, ch: char)
    requires p.errno.Ok?
    ensures p.state.ResStatusCode? ==> React(p, ' ') == Reaction(p.(state := ResStatus), [], Advance)
    ensures p.state.ResStatus? && !IsLineEnd(ch) ==> React(p, ch) == Reaction(p, [], Advance)
  {
    if p.state.ResStatusCode? {
      assert Handle(p, ' ') == StatusLineByte(p, ' ');
    } else if p.state.ResStatus? {
      assert Handle(p, ch) == StatusLineByte(p, ch);
    }
  }

  lemma StatusLineEnds(p: Parser)
    requires p.errno.Ok?
    ensures p.state.ResStatus? || p.state.ResStatusCode? ==> LineCloses(p, ResLineAlmostDone)
    ensures p.state.ResLineAlmostDone? ==>
              React(p, '\n') == Reaction(p.(state := HeaderFieldStart), [Notify(StatusComplete)], Advance)
  {
    if p.state.ResStatus? || p.state.ResStatusCode? {
      assert Handle(p, '\r') == StatusLineByte(p, '\r') && Handle(p, '\n') == StatusLineByte(p, '\n');
    } else if p.state.ResLineAlmostDone? {
      assert Handle(p, '\n') == StatusLineByte(p, '\n');
    }
  }

  /** The reason behind a code is read over. */
  lemma {:induction false} ReasonIsSkipped(c: Config, reason: string)
    requires Running(c) && c.p.state.ResStatus? && c.p.nread + |reason| <= MAX_HEADER_SIZE
    requires forall i :: 0 <= i < |reason| ==> !IsLineEnd(reason[i])
    ensures Run(c, reason) == Config(c.p.(nread := c.p.nread + |reason|), c.trace, c.taken + |reason|, false)
  {
    hide React, Feed, IsLineEnd;
    if reason != "" {
      var w, ch := reason[..|reason| - 1], reason[|reason| - 1];
      assert reason == w + [ch];
      ReasonIsSkipped(c, w);
      RunLast(c, w, ch);
      var r := Run(c, w);
      CodeEnds(r.p.(nread := r.p.nread + 1), ch);
      Moves(r, ch, ResStatus);
    }
  }

  /** Only CR LF announces the end of the status. */
  function StatusEnd(crlf: bool): seq<Event> { if crlf then [Notify(StatusComplete)] else [] }

  lemma StatusEnds(c: Config, crlf: bool)
    requires Running(c) && (c.p.state.ResStatus? || c.p.state.ResStatusCode?)
    requires c.p.nread + |LineEnding(crlf)| <= MAX_HEADER_SIZE
    ensures
      var n := |LineEnding(crlf)|;
      Run(c, LineEnding(crlf))
         == Config(c.p.(state := HeaderFieldStart, nread := c.p.nread + n), c.trace + StatusEnd(crlf), c.taken + n, false)
  {
    hide Run, Feed, React;
    StatusLineEnds(c.p.(nread := c.p.nread + 1));
    assert "\n" == ['\n'] && "\r" == ['\r'] && "\r" + ['\n'] == "\r\n";
    assert c.trace + [] == c.trace;
    if crlf {
      RunOne(c, '\r');
      RunLast(c, "\r", '\n');
      Moves(c, '\r', ResLineAlmostDone);
      var d := Feed(c, '\r');
      var p := d.p.(nread := d.p.nread + 1);
      StatusLineEnds(p);
      FeedCounted(d, '\n', React(p, '\n'));
    } else {
      RunOne(c, '\n');
      Moves(c, '\n', HeaderFieldStart);
    }
  }

  // What stands behind the code: nothing, or a space and a reason.
  datatype Reason = NoReason | Phrase(text: string) {
    function Wire(): string { if Phrase? then " " + text else "" }

    predicate Good() { Phrase? ==> forall i :: 0 <= i < |text| ==> !IsLineEnd(text[i]) }
  }

  lemma ReasonIsRead(c: Config, reason: Reason)
    requires Running(c) && c.p.state.ResStatusCode? && reason.Good() && c.p.nread + |reason.Wire()| <= MAX_HEADER_SIZE
    ensures
      var n := |reason.Wire()|;
      Run(c, reason.Wire())
         == Config(c.p.(state := if reason.Phrase? then ResStatus else ResStatusCode, nread := c.p.nread + n), c.trace,
                   c.taken + n, false)
  {
    hide Run, Feed, React, IsLineEnd;
    if reason.Phrase? {
      assert " " == [' '];
      RunConcat(c, " ", reason.text);
      RunOne(c, ' ');
      CodeEnds(c.p.(nread := c.p.nread + 1), 'x');
      Moves(c, ' ', ResStatus);
      ReasonIsSkipped(Feed(c, ' '), reason.text);
    } else {
      NothingRead(c);
    }
  }

  function CodeText(gap: nat, code: string): (s: string)
    ensures |s| == 1 + gap + |code|
  {
    " " + Spaces(gap) + code
  }

  /** A space and any further ones, and the code. */
  lemma CodeIsRead(c: Config, gap: nat, code: string)
    requires Running(c) && c.p.state.ResHttpMinor? && AllDigits(code)
    requires c.p.nread + |CodeText(gap, code)| <= MAX_HEADER_SIZE
    ensures
      var r, n := Run(c, CodeText(gap, code)), |CodeText(gap, code)|;
      if DecValue(code) > 999 then !Running(r)
      else r == Config(c.p.(state := ResStatusCode, statusCode := DecValue(code), nread := c.p.nread + n), c.trace,
                       c.taken + n, false)
  {
    hide Run, Feed, React, DecValue;
    assert " " == [' '];
    ThreePieces(c, " ", Spaces(gap), code);
    RunOne(c, ' ');
    CodeComes(c.p.(nread := c.p.nread + 1));
    Moves(c, ' ', ResFirstStatusCode);
    SpacesAreSkipped(Feed(c, ' '), gap);
    NumberIsRead(Run(Feed(c, ' '), Spaces(gap)), Code, ResStatusCode, code);
  }

  function StatusVersion(a: string, b: string): string { "H" + "TTP/" + (a + "." + b) }

  // A status line: version, code, and a reason or none.
  datatype StatusLine = StatusLine(major: string, minor: string, gap: nat, code: string, reason: Reason, crlf: bool) {
    function Wire(): string {
      StatusVersion(major, minor) + CodeText(gap, code) + (reason.Wire() + LineEnding(crlf))
    }

    predicate Good() { AllDigits(major) && AllDigits(minor) && AllDigits(code) && reason.Good() }

    predicate Accepted()
      requires Good()
    {
      DecValue(major) <= 999 && DecValue(minor) <= 999 && DecValue(code) <= 999
    }
  }

  lemma ResponseWordTaken(c: Config)
    requires Running(c) && c.p.state.StartRes? && c.p.nread + 5 <= MAX_HEADER_SIZE
    ensures Run(c, "H" + "TTP/")
         == Config(Fresh(c.p).(state := ResFirstHttpMajor, nread := c.p.nread + 5), c.trace + [Notify(MessageBegin)],
                   c.taken + 5, false)
  {
    hide Run, Feed, React;
    assert "H" == ['H'];
    RunConcat(c, "H", "TTP/");
    RunOne(c, 'H');
    ResponseStarts(c);
    TtpIsRead(Feed(c, 'H'));
  }

  predicate StatusVersionTaken(c: Config, a: string, b: string, r: Config)
    requires AllDigits(a) && AllDigits(b)
  {
    var n := |StatusVersion(a, b)|;
    r == Config(Fresh(c.p).(state := ResHttpMinor, httpMajor := DecValue(a), httpMinor := DecValue(b),
                            nread := c.p.nread + n),
                c.trace + [Notify(MessageBegin)], c.taken + n, false)
  }

  lemma StatusVersionIsRead(c: Config, a: string, b: string)
    requires Running(c) && c.p.state.StartRes? && AllDigits(a) && AllDigits(b)
    requires c.p.nread + |StatusVersion(a, b)| <= MAX_HEADER_SIZE
    ensures
      var r := Run(c, StatusVersion(a, b));
      if DecValue(a) <= 999 && DecValue(b) <= 999 then StatusVersionTaken(c, a, b, r) else !Running(r)
  {
    hide Run, Feed, React, DecValue;
    RunConcat(c, "H" + "TTP/", a + "." + b);
    ResponseWordTaken(c);
    VersionIsRead(Run(c, "H" + "TTP/"), a, b);
  }

  /** After a status line: the parser, now one for responses, holds its numbers and has
      delivered the start of the message and, on CR LF, the end of its status. */
  predicate StatusLineTaken(c: Config, l: StatusLine, r: Config)
    requires l.Good()
  {
    var n := |l.Wire()|;
    r == Config(Fresh(AsResponse(c).p).(state := HeaderFieldStart, httpMajor := DecValue(l.major),
                                        httpMinor := DecValue(l.minor), statusCode := DecValue(l.code),
                                        nread := c.p.nread + n),
                c.trace + [Notify(MessageBegin)] + StatusEnd(l.crlf), c.taken + n, false)
  }

  lemma StatusSize(l: StatusLine)
    ensures |l.Wire()|
         == |StatusVersion(l.major, l.minor)| + |CodeText(l.gap, l.code)| + |l.reason.Wire()| + |LineEnding(l.crlf)|
  {
    hide StatusVersion, CodeText;
  }

  /** The end of a status line, from its reason on. */
  lemma StatusTail(c: Config, l: StatusLine)
    requires Running(c) && c.p.state.ResStatusCode? && l.Good()
    requires c.p.nread + |l.reason.Wire()| + |LineEnding(l.crlf)| <= MAX_HEADER_SIZE
    ensures
      var n := |l.reason.Wire()| + |LineEnding(l.crlf)|;
      Run(c, l.reason.Wire() + LineEnding(l.crlf))
         == Config(c.p.(state := HeaderFieldStart, nread := c.p.nread + n), c.trace + StatusEnd(l.crlf), c.taken + n, false)
  {
    hide Run, LineEnding, StatusEnd, AllDigits;
    RunConcat(c, l.reason.Wire(), LineEnding(l.crlf));
    ReasonIsRead(c, l.reason);
    StatusEnds(Run(c, l.reason.Wire()), l.crlf);
  }

  lemma StatusFromStart(c: Config, l: StatusLine)
    requires Running(c) && c.p.state.StartRes? && l.Good() && c.p.nread + |l.Wire()| <= MAX_HEADER_SIZE
    ensures var r := Run(c, l.Wire()); if l.Accepted() then StatusLineTaken(c, l, r) else !Running(r)
  {
    hide Run, DecValue, IsLineEnd, IsNum, CodeText, StatusVersion, LineEnding, StatusEnd;
    StatusSize(l);
    var tail := l.reason.Wire() + LineEnding(l.crlf);
    ThreePieces(c, StatusVersion(l.major, l.minor), CodeText(l.gap, l.code), tail);
    StatusVersionIsRead(c, l.major, l.minor);
    var d := Run(c, StatusVersion(l.major, l.minor));
    var e := Run(d, CodeText(l.gap, l.code));
    if DecValue(l.major) > 999 || DecValue(l.minor) > 999 {
      RunHalted(d, CodeText(l.gap, l.code));
      RunHalted(e, tail);
    } else {
      CodeIsRead(d, l.gap, l.code);
      if DecValue(l.code) > 999 {
        RunHalted(e, tail);
      } else {
        StatusTail(e, l);
      }
    }
  }

  lemma LooksLikeResponse(l: StatusLine)
    ensures |l.Wire()| > 1 && l.Wire()[0] == 'H' && l.Wire()[1] == 'T'
  {
    hide CodeText;
    assert l.Wire()[..2] == "HT";
  }

  /** A status line is accepted if and only if its three numbers are below 1000. */
  lemma StatusLineIsRead(c: Config, l: StatusLine)
    requires AtResponse(c) && l.Good() && c.p.nread + |l.Wire()| <= MAX_HEADER_SIZE
    ensures var r := Run(c, l.Wire()); if l.Accepted() then StatusLineTaken(c, l, r) else !Running(r)
  {
    hide Run, DecValue, StatusLine.Wire, StatusEnd;
    LooksLikeResponse(l);
    BothReadResponses(c, l.Wire());
    StatusFromStart(AsResponse(c), l);
  }
}
