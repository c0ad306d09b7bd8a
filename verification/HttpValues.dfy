// Header values that matter to framing: chunked, keep-alive and close, and the
// flags they set.
module HttpValues {
  import opened HttpTypes
  import opened HttpStep
  import opened HttpFraming

  /** `v` begins the literal, in any case. */
  predicate Begins(v: string, lit: string) {
    |v| <= |lit| && forall i :: 0 <= i < |v| ==> Lower(v[i]) == lit[i] as int
  }

  /** `v` is the literal in any case, with any number of spaces behind it. */
  predicate Says(v: string, lit: string) {
    |v| >= |lit| && Begins(v[..|lit|], lit) && forall i :: |lit| <= i < |v| ==> v[i] == ' '
  }

  /** What a value that should be `lit` is taken for so far. */
  function Spelling(v: string, lit: string, matching: HeaderState): HeaderState {
    if |v| < |lit| && Begins(v, lit) then matching
    else if Says(v, lit) then Matched(matching)
    else General
  }

  predicate IsValueLiteral(lit: string, matching: HeaderState) {
    MatchingValue(matching) && Literal(matching) == lit
  }

  lemma BeginsSnoc(v: string, ch: char, lit: string)
    ensures Begins(v + [ch], lit) <==> Begins(v, lit) && |v| < |lit| && Lower(ch) == lit[|v|] as int
  {
    hide Lower;
    var w := v + [ch];
    assert forall i :: 0 <= i < |v| ==> w[i] == v[i];
    if Begins(w, lit) {
      assert Lower(w[|v|]) == lit[|v|] as int;
    }
  }

  lemma SaysSnoc(v: string, ch: char, lit: string)
    requires lit != ""
    ensures |v| >= |lit| ==> (Says(v + [ch], lit) <==> Says(v, lit) && ch == ' ')
    ensures |v| + 1 == |lit| ==> (Says(v + [ch], lit) <==> Begins(v, lit) && Lower(ch) == lit[|v|] as int)
    ensures |v| + 1 < |lit| ==> !Says(v + [ch], lit)
  {
    hide Lower;
    var w := v + [ch];
    if |v| >= |lit| {
      assert w[..|lit|] == v[..|lit|];
      assert forall i :: |lit| <= i < |v| ==> w[i] == v[i];
      if Says(w, lit) {
        assert w[|v|] == ' ';
      }
    } else if |v| + 1 == |lit| {
      assert w[..|lit|] == w;
      BeginsSnoc(v, ch, lit);
    }
  }

  /** The matcher after one more byte of such a value. */
  lemma SpellingStep(p: Parser, v: string, ch: char, lit: string, matching: HeaderState)
    requires IsValueLiteral(lit, matching) && v != "" && p.headerState == Spelling(v, lit, matching)
    requires MatchingValue(p.headerState) ==> p.index == |v| - 1
    ensures
      var q := ValueMore(p, ch);
      && q == p.(index := q.index, headerState := Spelling(v + [ch], lit, matching))
      && (MatchingValue(q.headerState) ==> q.index == |v|)
  {
    hide Lower;
    BeginsSnoc(v, ch, lit);
    SaysSnoc(v, ch, lit);
    hide Begins, Says;
  }

  /** The state of the matcher after a whole value. */
  function ValueKind(h: HeaderState, v: string): HeaderState
    requires v != ""
  {
    if h.TransferEncoding? then Spelling(v, CHUNKED, MatchingChunked)
    else if Lower(v[0]) == 'k' as int then Spelling(v, KEEP_ALIVE, MatchingKeepAlive)
    else if Lower(v[0]) == 'c' as int then Spelling(v, CLOSE, MatchingClose)
    else General
  }

  predicate Watched(h: HeaderState) { h.TransferEncoding? || h.Connection? }

  lemma FirstValueByte(p: Parser, ch: char)
    requires p.errno.Ok? && p.state.HeaderValueStart? && Watched(p.headerState) && !IsLineEnd(ch) && !Blank(ch)
    ensures React(p, ch)
         == Reaction(p.(state := HeaderValue, index := 0, headerState := ValueKind(p.headerState, [ch])),
                     [Data(Value, ch)], Advance)
  {
    FirstOf(ch, CHUNKED);
    FirstOf(ch, KEEP_ALIVE);
    FirstOf(ch, CLOSE);
    hide Says, Begins, Lower, MatchByte;
  }

  lemma FirstOf(ch: char, lit: string)
    requires |lit| > 1
    ensures Begins([ch], lit) <==> Lower(ch) == lit[0] as int
    ensures !Says([ch], lit)
  {
    hide Lower;
    if Lower(ch) == lit[0] as int {
      assert forall i :: 0 <= i < |[ch]| ==> Lower([ch][i]) == lit[i] as int;
    }
    if Begins([ch], lit) {
      assert Lower([ch][0]) == lit[0] as int;
    }
  }

  lemma NextValueByte(p: Parser, h: HeaderState, v: string, ch: char)
    requires p.errno.Ok? && p.state.HeaderValue? && Watched(h) && v != "" && !IsLineEnd(ch)
    requires p.headerState == ValueKind(h, v) && (MatchingValue(p.headerState) ==> p.index == |v| - 1)
    ensures
      var r := React(p, ch);
      && r == Reaction(p.(index := r.p.index, headerState := ValueKind(h, v + [ch])), [Data(Value, ch)], Advance)
      && (MatchingValue(r.p.headerState) ==> r.p.index == |v|)
  {
    assert (v + [ch])[0] == v[0];
    MoreOfValue(p, h, v, ch);
    hide ValueMore, ValueKind;
  }

  lemma MoreOfValue(p: Parser, h: HeaderState, v: string, ch: char)
    requires Watched(h) && v != ""
    requires p.headerState == ValueKind(h, v) && (MatchingValue(p.headerState) ==> p.index == |v| - 1)
    ensures
      var q := ValueMore(p, ch);
      && q == p.(index := q.index, headerState := ValueKind(h, v + [ch]))
      && (MatchingValue(q.headerState) ==> q.index == |v|)
  {
    assert (v + [ch])[0] == v[0];
    hide Spelling, Lower;
    if h.TransferEncoding? {
      SpellingStep(p, v, ch, CHUNKED, MatchingChunked);
    } else if Lower(v[0]) == 'k' as int {
      SpellingStep(p, v, ch, KEEP_ALIVE, MatchingKeepAlive);
    } else if Lower(v[0]) == 'c' as int {
      SpellingStep(p, v, ch, CLOSE, MatchingClose);
    }
  }

  /** A value without its line end. */
  predicate ValueText(v: string) {
    v != "" && !Blank(v[0]) && forall i :: 0 <= i < |v| ==> !IsLineEnd(v[i])
  }

  predicate AtWatchedValue(c: Config, n: nat) {
    Running(c) && c.p.state.HeaderValueStart? && Watched(c.p.headerState) && c.p.nread + n <= MAX_HEADER_SIZE
  }

  predicate ValueTaken(c: Config, v: string, r: Config)
    requires v != ""
  {
    && r == Config(c.p.(state := HeaderValue, index := r.p.index, headerState := ValueKind(c.p.headerState, v),
                        nread := c.p.nread + |v|),
                   c.trace + Bytes(Value, v), c.taken + |v|, false)
    && (MatchingValue(r.p.headerState) ==> r.p.index == |v| - 1)
  }

  lemma FirstValueTaken(c: Config, ch: char)
    requires AtWatchedValue(c, 1) && ValueText([ch])
    ensures ValueTaken(c, [ch], Feed(c, ch))
  {
    var p := c.p.(nread := c.p.nread + 1);
    assert !IsLineEnd([ch][0]);
    hide Feed, React, ValueKind, Blank, IsLineEnd;
    FirstValueByte(p, ch);
    FeedCounted(c, ch, React(p, ch));
    assert Bytes(Value, [ch]) == [Data(Value, ch)];
  }

  lemma NextValueTaken(c: Config, v: string, r: Config, ch: char)
    requires AtWatchedValue(c, |v| + 1) && v != "" && ValueTaken(c, v, r) && !IsLineEnd(ch)
    ensures ValueTaken(c, v + [ch], Feed(r, ch))
  {
    hide Feed, React, ValueKind, Blank, IsLineEnd, Watched;
    BytesSnoc(Value, v, ch);
    var p := r.p.(nread := r.p.nread + 1);
    NextValueByte(p, c.p.headerState, v, ch);
    FeedCounted(r, ch, React(p, ch));
    assert c.trace + Bytes(Value, v) + [Data(Value, ch)] == c.trace + Bytes(Value, v + [ch]);
  }

  /** A watched value is delivered whole and recognised for what it says. */
  lemma {:induction false} ValueIsRead(c: Config, v: string)
    requires AtWatchedValue(c, |v|) && ValueText(v)
    ensures ValueTaken(c, v, Run(c, v))
  {
    hide Run, Feed, ValueTaken, Blank, IsLineEnd, Watched;
    var w, ch := v[..|v| - 1], v[|v| - 1];
    assert v == w + [ch];
    if w == "" {
      assert v == [ch];
      RunOne(c, ch);
      FirstValueTaken(c, ch);
    } else {
      ValueIsRead(c, w);
      RunLast(c, w, ch);
      NextValueTaken(c, w, Run(c, w), ch);
    }
  }

  // ------------------------------------------------------------- what is set

  /** The flags after a line whose value was taken for `h`. */
  function FlagsAfter(f: Flags, h: HeaderState, v: string): Flags {
    f.(chunked := f.chunked || (h.TransferEncoding? && Says(v, CHUNKED)),
       keepAlive := f.keepAlive || (h.Connection? && Says(v, KEEP_ALIVE)),
       close := f.close || (h.Connection? && Says(v, CLOSE)))
  }

  lemma SaysFirst(v: string, lit: string)
    requires lit != "" && Says(v, lit)
    ensures v != "" && Lower(v[0]) == lit[0] as int
  {
    hide Lower;
    assert v[..|lit|][0] == v[0];
  }

  lemma KindSets(h: HeaderState, v: string)
    requires Watched(h) && v != ""
    ensures
      var k := ValueKind(h, v);
      && (k.Chunked? <==> h.TransferEncoding? && Says(v, CHUNKED))
      && (k.KeepAlive? <==> h.Connection? && Says(v, KEEP_ALIVE))
      && (k.Close? <==> h.Connection? && Says(v, CLOSE))
  {
    if Says(v, KEEP_ALIVE) {
      SaysFirst(v, KEEP_ALIVE);
    }
    if Says(v, CLOSE) {
      SaysFirst(v, CLOSE);
    }
    hide Says, Begins, Lower;
  }

  lemma LineEndSets(p: Parser)
    requires p.errno.Ok? && p.state.HeaderAlmostDone?
    ensures React(p, '\n')
         == Reaction(p.(state := HeaderValueLws,
                        flags := p.flags.(chunked := p.flags.chunked || p.headerState.Chunked?,
                                          keepAlive := p.flags.keepAlive || p.headerState.KeepAlive?,
                                          close := p.flags.close || p.headerState.Close?)),
                     [], Advance)
  {
  }

  lemma ValueEnds(p: Parser)
    requires p.errno.Ok? && p.state.HeaderValue?
    ensures React(p, '\r') == Reaction(p.(state := HeaderAlmostDone), [], Advance)
  {
    hide ValueMore;
  }

  /** The end of a line, with the flags it sets. */
  lemma LineSets(c: Config)
    requires Running(c) && c.p.state.HeaderValue? && c.p.nread + 2 <= MAX_HEADER_SIZE
    ensures
      var p := c.p;
      Run(c, "\r\n") == Config(p.(state := HeaderValueLws, nread := p.nread + 2,
                                  flags := p.flags.(chunked := p.flags.chunked || p.headerState.Chunked?,
                                                    keepAlive := p.flags.keepAlive || p.headerState.KeepAlive?,
                                                    close := p.flags.close || p.headerState.Close?)),
                               c.trace, c.taken + 2, false)
  {
    hide React, Feed, Run;
    TwoBytes(c, '\r', '\n');
    var p := c.p.(nread := c.p.nread + 1);
    ValueEnds(p);
    FeedCounted(c, '\r', React(p, '\r'));
    assert c.trace + [] == c.trace;
    var a := Feed(c, '\r');
    var q := a.p.(nread := a.p.nread + 1);
    LineEndSets(q);
    FeedCounted(a, '\n', React(q, '\n'));
  }
}
