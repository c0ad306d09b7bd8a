// Header lines, whole: what any line delivers and what it leaves in the parser.
module HttpLines {
  import opened Decimal
  import opened HttpTypes
  import opened HttpStep
  import opened HttpInvariant
  import opened HttpHeaders
  import opened HttpLength
  import opened HttpFraming
  import opened HttpValues

  function BlankCount(v: string): (n: nat)
    ensures n <= |v| && (n < |v| ==> !Blank(v[n])) && forall i :: 0 <= i < n ==> Blank(v[i])
  {
    if v == "" || !Blank(v[0]) then 0 else BlankCount(v[1..]) + 1
  }

  /** A value without the blanks in front of it. */
  function Trimmed(v: string): string {
    v[BlankCount(v)..]
  }

  /** The flags after a value `v` behind a name that was taken for `h`. An empty
      value sets nothing. */
  function ValueFlags(f: Flags, h: HeaderState, v: string): Flags {
    if v == "" then f
    else if h.Upgrade? then f.(upgrade := true)
    else FlagsAfter(f, h, v)
  }

  function ValueLength(n: nat, h: HeaderState, v: string): nat {
    if h.ContentLength? && AllDigits(v) then DecValue(v) else n
  }

  /** A length is empty, or a numeral below the limit. */
  predicate GoodValue(h: HeaderState, v: string) {
    h.ContentLength? && v != "" ==> AllDigits(v) && DecValue(v) < NO_LENGTH
  }

  predicate GoodLine(l: Line) {
    WellFormed(l) && GoodValue(Recognised(Folded(l.name)), Trimmed(l.value))
  }

  function LineFlags(f: Flags, l: Line): Flags
    requires WellFormed(l)
  {
    ValueFlags(f, Recognised(Folded(l.name)), Trimmed(l.value))
  }

  function LineLength(n: nat, l: Line): nat
    requires WellFormed(l)
  {
    ValueLength(n, Recognised(Folded(l.name)), Trimmed(l.value))
  }

  function LineEvents(l: Line): seq<Event> {
    Bytes(Field, l.name) + Bytes(Value, Trimmed(l.value))
  }

  // ------------------------------------------------------------ one value

  /** A parser before a value, or the blanks in front of it, with room for `n` bytes. */
  predicate AtValue(c: Config, n: nat) {
    Running(c) && Inv(c.p) && c.p.state.HeaderValueStart? && c.p.nread + n <= MAX_HEADER_SIZE
  }

  /** After a value and its line end. */
  predicate ValueDone(c: Config, v: string, r: Config) {
    r == Config(c.p.(state := HeaderValueLws, index := r.p.index, headerState := r.p.headerState,
                     flags := ValueFlags(c.p.flags, c.p.headerState, v),
                     contentLength := ValueLength(c.p.contentLength, c.p.headerState, v),
                     nread := c.p.nread + |v| + 2),
                c.trace + Bytes(Value, v), c.taken + |v| + 2, false)
  }

  lemma EmptyValueReturn(p: Parser)
    requires p.errno.Ok? && p.state.HeaderValueStart?
    ensures React(p, '\r') == Reaction(p.(state := HeaderAlmostDone, index := 0, headerState := General), [], Advance)
  {
    hide ValueStart;
  }

  lemma EmptyValue(c: Config)
    requires AtValue(c, 2)
    ensures ValueDone(c, "", Run(c, "\r\n"))
  {
    hide React, Feed, Run, Inv;
    TwoBytes(c, '\r', '\n');
    var p := c.p.(nread := c.p.nread + 1);
    EmptyValueReturn(p);
    FeedCounted(c, '\r', React(p, '\r'));
    var a := Feed(c, '\r');
    var q := a.p.(nread := a.p.nread + 1);
    LineEndSets(q);
    FeedCounted(a, '\n', React(q, '\n'));
    assert Bytes(Value, "") == [];
    assert c.trace + [] + [] == c.trace + [];
  }

  /** Names that no flag and no length hangs on, and `upgrade`. */
  predicate Plain(h: HeaderState) { !Watched(h) && !h.ContentLength? }

  /** After the bytes of a plain value. */
  predicate PlainTaken(c: Config, v: string, r: Config) {
    r == Config(c.p.(state := HeaderValue, index := 0, headerState := General,
                     flags := c.p.flags.(upgrade := c.p.flags.upgrade || c.p.headerState.Upgrade?),
                     nread := c.p.nread + |v|),
                c.trace + Bytes(Value, v), c.taken + |v|, false)
  }

  lemma FirstPlainByte(p: Parser, ch: char)
    requires p.errno.Ok? && p.state.HeaderValueStart? && Plain(p.headerState) && !IsLineEnd(ch) && !Blank(ch)
    ensures React(p, ch)
         == Reaction(p.(state := HeaderValue, index := 0, headerState := General,
                        flags := p.flags.(upgrade := p.flags.upgrade || p.headerState.Upgrade?)),
                     [Data(Value, ch)], Advance)
  {
    hide Lower;
  }

  lemma NextPlainByte(p: Parser, ch: char)
    requires p.errno.Ok? && p.state.HeaderValue? && p.headerState.General? && !IsLineEnd(ch)
    ensures React(p, ch) == Reaction(p, [Data(Value, ch)], Advance)
  {
    hide Lower, MatchByte, AppendDigit;
  }

  lemma FirstPlainTaken(c: Config, ch: char)
    requires AtValue(c, 1) && Plain(c.p.headerState) && !IsLineEnd(ch) && !Blank(ch)
    ensures PlainTaken(c, [ch], Feed(c, ch))
  {
    hide Feed, React, Plain, Inv, Blank, IsLineEnd;
    var p := c.p.(nread := c.p.nread + 1);
    FirstPlainByte(p, ch);
    FeedCounted(c, ch, React(p, ch));
    assert Bytes(Value, [ch]) == [Data(Value, ch)];
  }

  lemma NextPlainTaken(c: Config, v: string, r: Config, ch: char)
    requires AtValue(c, |v| + 1) && PlainTaken(c, v, r) && !IsLineEnd(ch)
    ensures PlainTaken(c, v + [ch], Feed(r, ch))
  {
    hide Feed, React, Inv, IsLineEnd;
    BytesSnoc(Value, v, ch);
    var p := r.p.(nread := r.p.nread + 1);
    NextPlainByte(p, ch);
    FeedCounted(r, ch, React(p, ch));
    assert c.trace + Bytes(Value, v) + [Data(Value, ch)] == c.trace + Bytes(Value, v + [ch]);
  }

  lemma {:induction false} PlainIsRead(c: Config, v: string)
    requires AtValue(c, |v|) && Plain(c.p.headerState) && ValueText(v)
    ensures PlainTaken(c, v, Run(c, v))
  {
    hide Run, Feed, PlainTaken, Blank, IsLineEnd, Plain, Inv;
    var w, ch := v[..|v| - 1], v[|v| - 1];
    assert v == w + [ch];
    if w == "" {
      assert v == [ch];
      RunOne(c, ch);
      FirstPlainTaken(c, ch);
    } else {
      PlainIsRead(c, w);
      RunLast(c, w, ch);
      NextPlainTaken(c, w, Run(c, w), ch);
    }
  }

  lemma PlainDone(c: Config, v: string)
    requires AtValue(c, |v| + 2) && Plain(c.p.headerState) && ValueText(v)
    ensures ValueDone(c, v, Run(Run(c, v), "\r\n"))
  {
    hide Run, Inv, Says, ValueText;
    PlainIsRead(c, v);
    LineSets(Run(c, v));
    NotEmpty(v);
  }

  lemma NotEmpty(v: string)
    requires ValueText(v)
    ensures v != ""
  {
  }

  lemma WatchedDone(c: Config, v: string)
    requires AtValue(c, |v| + 2) && Watched(c.p.headerState) && ValueText(v)
    ensures ValueDone(c, v, Run(Run(c, v), "\r\n"))
  {
    NotEmpty(v);
    hide Run, Inv, Says, ValueText, ValueKind;
    ValueIsRead(c, v);
    LineSets(Run(c, v));
    KindSets(c.p.headerState, v);
  }

  lemma LengthDone(c: Config, v: string)
    requires AtValue(c, |v| + 2) && c.p.headerState.ContentLength? && AllDigits(v) && DecValue(v) < NO_LENGTH
    ensures ValueDone(c, v, Run(Run(c, v), "\r\n"))
  {
    hide Run, Inv, Says, DecValue;
    LengthIsRead(c, v);
    LineSets(Run(c, v));
  }

  /** Any value: delivered whole, with the flags and the length it sets. */
  lemma ValueIsDone(c: Config, v: string)
    requires AtValue(c, |v| + 2) && GoodValue(c.p.headerState, v) && (v != "" ==> ValueText(v))
    ensures ValueDone(c, v, Run(Run(c, v), "\r\n"))
  {
    hide Run, Inv, ValueDone, DecValue, ValueText;
    if v == "" {
      RunEmpty(c);
      EmptyValue(c);
    } else if c.p.headerState.ContentLength? {
      LengthDone(c, v);
    } else if Watched(c.p.headerState) {
      WatchedDone(c, v);
    } else {
      PlainDone(c, v);
    }
  }

  // ------------------------------------------------------------- one line

  /** After a header line: all that it changes. */
  predicate LineTaken(c: Config, l: Line, r: Config)
    requires WellFormed(l)
  {
    r == Config(c.p.(state := HeaderValueLws, index := r.p.index, headerState := r.p.headerState,
                     flags := LineFlags(c.p.flags, l), contentLength := LineLength(c.p.contentLength, l),
                     nread := c.p.nread + |Wire(l)|),
                c.trace + LineEvents(l), c.taken + |Wire(l)|, false)
  }

  /** A parser at the start of a line, with room for `n` bytes. */
  predicate AtLine(c: Config, n: nat) {
    Running(c) && Inv(c.p) && AtLineStart(c.p.state) && c.p.nread + n <= MAX_HEADER_SIZE
  }

  lemma BlanksThenValue(c: Config, v: string)
    requires AtValue(c, |v| + 2) && forall i :: 0 <= i < |v| ==> !IsLineEnd(v[i])
    ensures
      var k, b := BlankCount(v), Run(c, v[..BlankCount(v)]);
      && b == Config(c.p.(nread := c.p.nread + k), c.trace, c.taken + k, false)
      && AtValue(b, |Trimmed(v)| + 2) && Run(c, v) == Run(b, Trimmed(v))
      && (Trimmed(v) != "" ==> ValueText(Trimmed(v)))
  {
    hide Run, Blank, Inv, IsLineEnd;
    var k := BlankCount(v);
    assert v == v[..k] + v[k..];
    RunConcat(c, v[..k], v[k..]);
    BlanksAreSkipped(c, v[..k]);
    CountMoreKeepsInv(c.p, c.p.nread + k);
  }

  lemma CountMoreKeepsInv(p: Parser, n: nat)
    requires Inv(p) && n <= MAX_HEADER_SIZE && p.state.HeaderValueStart?
    ensures Inv(p.(nread := n))
  {
  }

  lemma LineFits(l: Line)
    requires WellFormed(l)
    ensures |Wire(l)| == |l.name| + 1 + |l.value| + 2 && |l.value| == BlankCount(l.value) + |Trimmed(l.value)|
  {
  }

  lemma NameKeepsInv(c: Config, w: string)
    requires Running(c) && Inv(c.p) && IsTokenWord(w) && AfterColon(c, w, Run(c, w + ":"))
    ensures Running(Run(c, w + ":")) && Inv(Run(c, w + ":").p)
  {
    hide Run, Inv, Recognised, Bytes, IsToken;
    InvSettled(c.p);
    RunKeepsInv(c, w + ":");
  }

  /** Any header line: its name and its value without leading blanks are delivered
      byte for byte, and of the message only the flags and the length change, as the
      name, in any case, and the value say. */
  lemma LineIsRead(c: Config, l: Line)
    requires AtLine(c, |Wire(l)|) && GoodLine(l)
    ensures LineTaken(c, l, Run(c, Wire(l)))
  {
    hide Run, Inv, Recognised, IsTokenWord, IsToken, IsLineEnd, DecValue, ValueText, Blank, GoodValue,
      AfterColon, ValueDone, LineTaken;
    LineFits(l);
    ThreeParts(c, l.name + ":", l.value, "\r\n");
    NameAndColon(c, l.name);
    NameKeepsInv(c, l.name);
    var a := Run(c, l.name + ":");
    ColonMeans(c, l.name, a);
    BlanksThenValue(a, l.value);
    var b := Run(a, l.value[..BlankCount(l.value)]);
    ValueIsDone(b, Trimmed(l.value));
    LineJoins(c, l, a, b, Run(c, Wire(l)));
  }

  lemma ColonMeans(c: Config, w: string, r: Config)
    requires IsTokenWord(w) && AfterColon(c, w, r)
    ensures r.p.state.HeaderValueStart? && r.p.nread == c.p.nread + |w| + 1 && r.p.headerState == Recognised(Folded(w))
  {
    hide Recognised, IsTokenWord, Bytes;
  }

  lemma LineJoins(c: Config, l: Line, a: Config, b: Config, r: Config)
    requires WellFormed(l) && AfterColon(c, l.name, a)
    requires var k := BlankCount(l.value); b == Config(a.p.(nread := a.p.nread + k), a.trace, a.taken + k, false)
    requires ValueDone(b, Trimmed(l.value), r)
    ensures LineTaken(c, l, r)
  {
    LineFits(l);
    hide Recognised, IsTokenWord, IsToken, IsLineEnd, ValueFlags, ValueLength, Trimmed, Blank, BlankCount, Wire, Bytes;
    assert c.trace + Bytes(Field, l.name) + Bytes(Value, Trimmed(l.value)) == c.trace + LineEvents(l);
  }

  /** Which lines set which flags, by name. */
  lemma LineSetsFlags(f: Flags, l: Line)
    requires WellFormed(l)
    ensures
      var name, v, g := Folded(l.name), Trimmed(l.value), LineFlags(f, l);
      && (g.chunked <==> f.chunked || (name == TRANSFER_ENCODING && Says(v, CHUNKED)))
      && (g.keepAlive <==> f.keepAlive || ((name == CONNECTION || name == PROXY_CONNECTION) && Says(v, KEEP_ALIVE)))
      && (g.close <==> f.close || ((name == CONNECTION || name == PROXY_CONNECTION) && Says(v, CLOSE)))
      && (g.upgrade <==> f.upgrade || (name == UPGRADE && v != ""))
      && g.trailing == f.trailing && g.skipBody == f.skipBody
  {
    RecognisedNames(Folded(l.name));
    SaysSomething(Trimmed(l.value));
    hide Recognised, Says, Trimmed, Folded;
  }

  lemma SaysSomething(v: string)
    ensures v == "" ==> !Says(v, CHUNKED) && !Says(v, KEEP_ALIVE) && !Says(v, CLOSE)
  {
    hide Lower;
  }

  /** What a whole name is taken for. */
  lemma RecognisedNames(f: string)
    ensures Recognised(f).TransferEncoding? <==> f == TRANSFER_ENCODING
    ensures Recognised(f).Connection? <==> f == CONNECTION || f == PROXY_CONNECTION
    ensures Recognised(f).Upgrade? <==> f == UPGRADE
    ensures Recognised(f).ContentLength? <==> f == CONTENT_LENGTH
  {
    LiteralsDiffer(TRANSFER_ENCODING);
    LiteralsDiffer(CONNECTION);
    LiteralsDiffer(PROXY_CONNECTION);
    LiteralsDiffer(UPGRADE);
    LiteralsDiffer(CONTENT_LENGTH);
  }

  // ------------------------------------------------------------ all lines

  predicate GoodLines(ls: seq<Line>) {
    forall i :: 0 <= i < |ls| ==> GoodLine(ls[i])
  }

  function FlagsOf(f: Flags, ls: seq<Line>): Flags
    requires GoodLines(ls)
    decreases |ls|
  {
    if ls == [] then f else FlagsOf(LineFlags(f, ls[0]), ls[1..])
  }

  function LengthOf(n: nat, ls: seq<Line>): nat
    requires GoodLines(ls)
    decreases |ls|
  {
    if ls == [] then n else LengthOf(LineLength(n, ls[0]), ls[1..])
  }

  function EventsOf(ls: seq<Line>): seq<Event> {
    if ls == [] then [] else LineEvents(ls[0]) + EventsOf(ls[1..])
  }

  /** After a header section: all that its lines change. */
  predicate LinesTaken(c: Config, ls: seq<Line>, r: Config)
    requires GoodLines(ls)
  {
    && r == Config(c.p.(state := r.p.state, index := r.p.index, headerState := r.p.headerState,
                        flags := FlagsOf(c.p.flags, ls), contentLength := LengthOf(c.p.contentLength, ls),
                        nread := c.p.nread + |WireAll(ls)|),
                   c.trace + EventsOf(ls), c.taken + |WireAll(ls)|, false)
    && AtLineStart(r.p.state)
  }

  lemma NoLines(c: Config)
    requires Running(c) && AtLineStart(c.p.state)
    ensures LinesTaken(c, [], c)
  {
    assert c.trace + [] == c.trace;
  }

  lemma LinesJoin(c: Config, ls: seq<Line>, a: Config, r: Config)
    requires ls != [] && GoodLines(ls) && LineTaken(c, ls[0], a) && LinesTaken(a, ls[1..], r)
    ensures LinesTaken(c, ls, r)
  {
    hide GoodLine, LineFlags, LineLength, LineEvents, Wire;
    assert c.trace + LineEvents(ls[0]) + EventsOf(ls[1..]) == c.trace + EventsOf(ls);
  }

  lemma LineKeepsInv(c: Config, l: Line)
    requires AtLine(c, |Wire(l)|) && WellFormed(l) && LineTaken(c, l, Run(c, Wire(l)))
    ensures
      var r := Run(c, Wire(l));
      Running(r) && Inv(r.p) && AtLineStart(r.p.state) && r.p.nread == c.p.nread + |Wire(l)|
  {
    hide Run, Inv, WellFormed, LineFlags, LineLength, LineEvents;
    InvSettled(c.p);
    RunKeepsInv(c, Wire(l));
  }

  /** A header section, of any lines in any order: later lengths replace earlier
      ones, flags add up, and every name and value is delivered in order. */
  lemma {:induction false} LinesAreRead(c: Config, ls: seq<Line>)
    requires AtLine(c, |WireAll(ls)|) && GoodLines(ls)
    ensures LinesTaken(c, ls, Run(c, WireAll(ls)))
    decreases |ls|
  {
    hide Run, Inv, LinesTaken, LineTaken, GoodLine, Wire, WellFormed;
    if ls == [] {
      RunEmpty(c);
      NoLines(c);
    } else {
      GoodMeans(ls[0]);
      LineIsRead(c, ls[0]);
      LineKeepsInv(c, ls[0]);
      var a := Run(c, Wire(ls[0]));
      LinesAreRead(a, ls[1..]);
      RunConcat(c, Wire(ls[0]), WireAll(ls[1..]));
      LinesJoin(c, ls, a, Run(a, WireAll(ls[1..])));
    }
  }

  lemma GoodMeans(l: Line)
    requires GoodLine(l)
    ensures WellFormed(l)
  {
  }
}
