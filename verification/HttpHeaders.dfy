// Header lines: which field names the matcher recognises, which lengths it
// accumulates, and what the end of the headers does with them.
module HttpHeaders {
  import opened HttpTypes
  import opened HttpStep

  /** A non-empty token folded to lower case. */
  function Folded(w: string): (f: string)
    requires forall i :: 0 <= i < |w| ==> IsToken(w[i])
    ensures |f| == |w|
  {
    seq(|w|, i requires 0 <= i < |w| => TokenOf(w[i]))
  }

  predicate IsTokenWord(w: string) {
    w != "" && forall i :: 0 <= i < |w| ==> IsToken(w[i])
  }

  /** A literal under way, or matched in full. */
  function Progress(f: string, lit: string, matching: HeaderState, matched: HeaderState): HeaderState {
    if f == lit then matched else matching
  }

  /** What a header line is taken for once the name `f` was read. */
  function Recognised(f: string): HeaderState {
    if f == "c" then C
    else if f == "co" then CO
    else if f == "con" then CON
    else if f <= CONNECTION then Progress(f, CONNECTION, MatchingConnection, Connection)
    else if f <= CONTENT_LENGTH then Progress(f, CONTENT_LENGTH, MatchingContentLength, ContentLength)
    else if f <= PROXY_CONNECTION then Progress(f, PROXY_CONNECTION, MatchingProxyConnection, Connection)
    else if f <= TRANSFER_ENCODING then
      Progress(f, TRANSFER_ENCODING, MatchingTransferEncoding, TransferEncoding)
    else if f <= UPGRADE then Progress(f, UPGRADE, MatchingUpgrade, Upgrade)
    else General
  }

  /** The matcher agrees with Recognised after the name `f`. */
  predicate Agrees(p: Parser, f: string) {
    f != "" && p.headerState == Recognised(f)
    && (MatchingName(p.headerState) || p.headerState.C? || p.headerState.CO? || p.headerState.CON?
        ==> p.index == |f| - 1)
  }

  lemma PrefixSnoc(f: string, c: char, lit: string)
    ensures f + [c] <= lit <==> f <= lit && |f| < |lit| && lit[|f|] == c
    ensures f + [c] == lit <==> f <= lit && |f| + 1 == |lit| && lit[|f|] == c
  {
    if f + [c] <= lit {
      assert f == lit[..|f|];
      assert (f + [c])[|f|] == c;
    }
    if f <= lit && |f| < |lit| && lit[|f|] == c {
      assert lit[..|f| + 1] == lit[..|f|] + [lit[|f|]];
    }
  }

  /** The literals differ in their first byte, the two that start with "con" in their fourth. */
  lemma LiteralsDiffer(f: string)
    requires f != ""
    ensures f <= CONNECTION || f <= CONTENT_LENGTH ==> f[0] == 'c'
    ensures f <= PROXY_CONNECTION ==> f[0] == 'p'
    ensures f <= TRANSFER_ENCODING ==> f[0] == 't'
    ensures f <= UPGRADE ==> f[0] == 'u'
    ensures f <= CONNECTION && |f| >= 4 ==> f[3] == 'n'
    ensures f <= CONTENT_LENGTH && |f| >= 4 ==> f[3] == 't'
  {
  }

  lemma ShortNames(f: string)
    requires 1 <= |f| <= 3
    ensures f <= CONNECTION || f <= CONTENT_LENGTH <==> f == "c" || f == "co" || f == "con"
    ensures f <= CONNECTION <==> f <= CONTENT_LENGTH
  {
    assert "c" == CONNECTION[..1] == CONTENT_LENGTH[..1];
    assert "co" == CONNECTION[..2] == CONTENT_LENGTH[..2];
    assert "con" == CONNECTION[..3] == CONTENT_LENGTH[..3];
  }

  /** One more byte of a name no literal starts with. */
  lemma UnknownNameAgrees(p: Parser, f: string, c: char)
    requires p.errno.Ok? && Agrees(p, f) && p.headerState.General?
    ensures Agrees(NameMatcher(p, c), f + [c])
  {
    assert Recognised(f) == General;
    UnknownStays(f, c);
  }

  lemma UnknownStays(f: string, c: char)
    requires f != "" && Recognised(f) == General
    ensures Recognised(f + [c]) == General
  {
    PrefixSnoc(f, c, CONNECTION);
    PrefixSnoc(f, c, CONTENT_LENGTH);
    PrefixSnoc(f, c, PROXY_CONNECTION);
    PrefixSnoc(f, c, TRANSFER_ENCODING);
    PrefixSnoc(f, c, UPGRADE);
    if |f| <= 2 {
      ShortNames(f);
      ShortNames(f + [c]);
    } else if |f| == 3 {
      ShortNames(f);
    }
  }

  lemma ShortNameAgrees(p: Parser, f: string, c: char)
    requires p.errno.Ok? && Agrees(p, f) && |f| <= 3 && !p.headerState.General?
    ensures Agrees(NameMatcher(p, c), f + [c])
  {
    var g := f + [c];
    LiteralsDiffer(f);
    LiteralsDiffer(g);
    ShortNames(f);
    if f[0] == 'c' {
      PrefixSnoc(f, c, CONNECTION);
      PrefixSnoc(f, c, CONTENT_LENGTH);
      if |g| <= 3 {
        ShortNames(g);
      }
    } else {
      PrefixSnoc(f, c, PROXY_CONNECTION);
      PrefixSnoc(f, c, TRANSFER_ENCODING);
      PrefixSnoc(f, c, UPGRADE);
    }
  }

  /** A name recognised in full is recognised no more with a byte added. */
  lemma FullNameAgrees(p: Parser, f: string, c: char)
    requires p.errno.Ok? && Agrees(p, f) && |f| > 3 && NameMatched(p.headerState)
    ensures Agrees(NameMatcher(p, c), f + [c])
  {
    LiteralsDiffer(f);
    PrefixSnoc(f, c, CONNECTION);
    PrefixSnoc(f, c, CONTENT_LENGTH);
    PrefixSnoc(f, c, PROXY_CONNECTION);
    PrefixSnoc(f, c, TRANSFER_ENCODING);
    PrefixSnoc(f, c, UPGRADE);
    assert Recognised(f + [c]) == General;
  }

  lemma LongConNameAgrees(p: Parser, f: string, c: char)
    requires p.errno.Ok? && Agrees(p, f) && |f| > 3
    requires p.headerState.MatchingConnection? || p.headerState.MatchingContentLength?
    ensures Agrees(NameMatcher(p, c), f + [c])
  {
    LiteralsDiffer(f);
    LiteralsDiffer(f + [c]);
    PrefixSnoc(f, c, CONNECTION);
    PrefixSnoc(f, c, CONTENT_LENGTH);
  }

  lemma LongOtherNameAgrees(p: Parser, f: string, c: char)
    requires p.errno.Ok? && Agrees(p, f) && |f| > 3
    requires MatchingName(p.headerState) && !p.headerState.MatchingConnection? && !p.headerState.MatchingContentLength?
    ensures Agrees(NameMatcher(p, c), f + [c])
  {
    LiteralsDiffer(f);
    LiteralsDiffer(f + [c]);
    PrefixSnoc(f, c, PROXY_CONNECTION);
    PrefixSnoc(f, c, TRANSFER_ENCODING);
    PrefixSnoc(f, c, UPGRADE);
  }

  lemma LongNameAgrees(p: Parser, f: string, c: char)
    requires p.errno.Ok? && Agrees(p, f) && |f| > 3 && !p.headerState.General?
    ensures Agrees(NameMatcher(p, c), f + [c])
  {
    LongNameKinds(p, f);
    hide Agrees, NameMatcher;
    if NameMatched(p.headerState) {
      FullNameAgrees(p, f, c);
    } else if p.headerState.MatchingConnection? || p.headerState.MatchingContentLength? {
      LongConNameAgrees(p, f, c);
    } else {
      LongOtherNameAgrees(p, f, c);
    }
  }

  lemma LongNameKinds(p: Parser, f: string)
    requires Agrees(p, f) && |f| > 3 && !p.headerState.General?
    ensures NameMatched(p.headerState) || MatchingName(p.headerState)
  {
  }

  lemma NameMatcherAgrees(p: Parser, f: string, c: char)
    requires p.errno.Ok? && Agrees(p, f)
    ensures Agrees(NameMatcher(p, c), f + [c])
  {
    hide NameMatcher, Agrees;
    if p.headerState.General? {
      UnknownNameAgrees(p, f, c);
    } else if |f| <= 3 {
      ShortNameAgrees(p, f, c);
    } else {
      LongNameAgrees(p, f, c);
    }
  }

  // ---- single steps -------------------------------------------------------

  /** Header states count the byte and then react to it. */
  lemma CountedStep(p: Parser, ch: char)
    requires ParsingHeader(p.state) && p.nread < MAX_HEADER_SIZE
    ensures Step(p, ch) == React(p.(nread := p.nread + 1), ch)
  {
    hide React;
  }

  lemma FirstNameByte(p: Parser, ch: char)
    requires p.errno.Ok? && p.state.HeaderFieldStart? && IsToken(ch)
    ensures var r := React(p, ch);
      && Agrees(r.p, [TokenOf(ch)])
      && r == Reaction(p.(state := HeaderField, index := r.p.index, headerState := r.p.headerState),
                       [Data(Field, ch)], Advance)
  {
    var c := [TokenOf(ch)];
    LiteralsDiffer(c);
    ShortNames(c);
    assert "p" == PROXY_CONNECTION[..1] && "t" == TRANSFER_ENCODING[..1] && "u" == UPGRADE[..1];
  }

  lemma NextNameByte(p: Parser, f: string, ch: char)
    requires p.errno.Ok? && p.state.HeaderField? && IsToken(ch) && Agrees(p, f)
    ensures var r := React(p, ch);
      && Agrees(r.p, f + [TokenOf(ch)])
      && r == Reaction(p.(index := r.p.index, headerState := r.p.headerState),
                       [Data(Field, ch)], Advance)
  {
    hide Agrees, Recognised;
    NameMatcherAgrees(p, f, TokenOf(ch));
    NameMatcherTouches(p, f, TokenOf(ch));
  }

  lemma NameMatcherTouches(p: Parser, f: string, c: char)
    requires p.errno.Ok? && Agrees(p, f)
    ensures var q := NameMatcher(p, c);
      q == p.(index := q.index, headerState := q.headerState)
  {
  }

  /** The configuration after a name: delivered, counted, and recognised. */
  ghost predicate NameTaken(c: Config, w: string, r: Config) {
    && IsTokenWord(w)
    && Agrees(r.p, Folded(w))
    && r == Config(c.p.(state := HeaderField, index := r.p.index, headerState := Recognised(Folded(w)),
                        nread := c.p.nread + |w|),
                   c.trace + Bytes(Field, w), c.taken + |w|, false)
  }

  lemma FirstNameTaken(c: Config, ch: char)
    requires Running(c) && c.p.state.HeaderFieldStart? && IsToken(ch) && c.p.nread < MAX_HEADER_SIZE
    ensures NameTaken(c, [ch], Feed(c, ch))
  {
    hide React, Feed, Agrees, Recognised, IsToken, TokenOf;
    var p := c.p.(nread := c.p.nread + 1);
    FirstNameByte(p, ch);
    FeedCounted(c, ch, React(p, ch));
    assert Folded([ch]) == [TokenOf(ch)];
    assert Bytes(Field, [ch]) == [Data(Field, ch)];
    AgreesMeans(Feed(c, ch).p, Folded([ch]));
  }

  lemma NextNameTaken(c: Config, v: string, r: Config, ch: char)
    requires Running(c) && NameTaken(c, v, r) && IsToken(ch) && c.p.nread + |v| < MAX_HEADER_SIZE
    ensures NameTaken(c, v + [ch], Feed(r, ch))
  {
    hide React, Feed, Agrees, Recognised, IsToken, TokenOf;
    var q := r.p;
    AgreesAnyCount(q, Folded(v), q.nread + 1);
    var p := q.(nread := q.nread + 1);
    NextNameByte(p, Folded(v), ch);
    FeedCounted(r, ch, React(p, ch));
    assert Folded(v + [ch]) == Folded(v) + [TokenOf(ch)];
    BytesSnoc(Field, v, ch);
    assert (c.trace + Bytes(Field, v)) + [Data(Field, ch)] == c.trace + Bytes(Field, v + [ch]);
    AgreesMeans(Feed(r, ch).p, Folded(v + [ch]));
  }

  /** Reading a field name, byte by byte, recognises it whatever its case. */
  lemma {:induction false} NameIsRead(c: Config, w: string)
    requires Running(c) && c.p.state.HeaderFieldStart? && IsTokenWord(w)
    requires c.p.nread + |w| <= MAX_HEADER_SIZE
    ensures NameTaken(c, w, Run(c, w))
  {
    hide Feed, Run, NameTaken;
    var v, ch := w[..|w| - 1], w[|w| - 1];
    assert w == v + [ch];
    if v == "" {
      assert w == [ch];
      RunOne(c, ch);
      FirstNameTaken(c, ch);
    } else {
      NameIsRead(c, v);
      RunLast(c, v, ch);
      NextNameTaken(c, v, Run(c, v), ch);
    }
  }

  lemma AgreesAnyCount(p: Parser, f: string, n: nat)
    requires Agrees(p, f)
    ensures Agrees(p.(nread := n), f)
  {
  }

  lemma AgreesMeans(p: Parser, f: string)
    requires Agrees(p, f)
    ensures p.headerState == Recognised(f)
  {
  }
}
