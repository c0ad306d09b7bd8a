// The request method: the matcher that switches between methods while it
// reads accepts exactly the method names.
module HttpMethodToken {
  import opened HttpTypes
  import opened HttpStep
  import opened HttpInvariant

  /** The method assumed after `i` bytes of the name of `m`. */
  function Lead(m: Method, i: nat): Method {
    match m
    case CHECKOUT => if i <= 1 then CONNECT else m
    case COPY => if i <= 2 then CONNECT else m
    case MOVE => if i <= 1 then MKCOL else m
    case MERGE => if i <= 1 then MKCOL else m
    case MSEARCH => if i <= 1 then MKCOL else m
    case MKACTIVITY => if i <= 2 then MKCOL else m
    case SEARCH => if i <= 1 then SUBSCRIBE else m
    case PROPFIND => if i <= 1 then POST else m
    case PROPPATCH => if i <= 1 then POST else if i <= 4 then PROPFIND else m
    case PUT => if i <= 1 then POST else m
    case PURGE => if i <= 1 then POST else if i <= 2 then PUT else m
    case PATCH => if i <= 1 then POST else m
    case UNSUBSCRIBE => if i <= 2 then UNLOCK else m
    case _ => m
  }

  lemma LeadStarts(m: Method)
    ensures var ch := MethodString(m)[0];
      HasMethodLetter(ch) && IsAlpha(ch) && FirstMethod(ch) == Lead(m, 1)
    ensures Lead(m, |MethodString(m)|) == m
  {
  }

  /** While another method is assumed, the next byte is shared or switches. */
  lemma LeadSwitches(m: Method, i: nat)
    requires 1 <= i < |MethodString(m)| && Lead(m, i) != m
    ensures var l, ch := Lead(m, i), MethodString(m)[i];
      if i < |MethodString(l)| && ch == MethodString(l)[i] then Lead(m, i + 1) == l
      else Divert(l, i, ch) == Some(Lead(m, i + 1))
  {
  }

  lemma LeadSettles(m: Method, i: nat)
    requires Lead(m, i) == m
    ensures Lead(m, i + 1) == m
  {
  }

  /** Every byte of a method name is accepted, possibly with a switch of method. */
  lemma LeadAdvances(m: Method, i: nat)
    requires 1 <= i < |MethodString(m)|
    ensures var l, ch := Lead(m, i), MethodString(m)[i];
      && ch != '\0'
      && if i < |MethodString(l)| && ch == MethodString(l)[i] then Lead(m, i + 1) == l
         else ch != ' ' && Divert(l, i, ch) == Some(Lead(m, i + 1))
  {
    hide MethodString, Lead, Divert;
    NoSpaceInMethod(m, i);
    if Lead(m, i) == m {
      LeadSettles(m, i);
    } else {
      LeadSwitches(m, i);
    }
  }

  /** No method name contains a space. */
  lemma NoSpaceInMethod(m: Method, i: nat)
    requires i < |MethodString(m)|
    ensures MethodString(m)[i] != ' ' && MethodString(m)[i] != '\0'
    ensures Divert(m, i, ' ') == None && Divert(m, |MethodString(m)|, ' ') == None
  {
    NoDivertOnSpace(m, i);
    NoDivertOnSpace(m, |MethodString(m)|);
    if HasShortName(m) {
      ShortNames(m, i);
    } else {
      LongNames(m, i);
    }
    hide MethodString, Divert;
  }

  /** Methods with a short name. */
  predicate HasShortName(m: Method) {
    m.DELETE? || m.GET? || m.HEAD? || m.POST? || m.PUT? || m.CONNECT? || m.OPTIONS? || m.TRACE?
    || m.COPY? || m.LOCK? || m.MOVE? || m.SEARCH? || m.UNLOCK? || m.PATCH? || m.PURGE?
  }

  lemma ShortNames(m: Method, i: nat)
    requires HasShortName(m) && i < |MethodString(m)|
    ensures MethodString(m)[i] != ' ' && MethodString(m)[i] != '\0'
  {
  }

  lemma LongNames(m: Method, i: nat)
    requires !HasShortName(m) && i < |MethodString(m)|
    ensures MethodString(m)[i] != ' ' && MethodString(m)[i] != '\0'
  {
  }

  lemma NoDivertOnSpace(m: Method, i: nat)
    ensures Divert(m, i, ' ') == None
  {
  }

  lemma MethodStep(p: Parser, ch: char)
    requires p.errno.Ok? && p.state.ReqMethod? && p.nread < MAX_HEADER_SIZE
    ensures Step(p, ch) == MethodByte(p.(nread := p.nread + 1), ch)
  {
    hide Divert;
  }

  /** A request parser before the first byte of a request. */
  predicate AtStartReq(c: Config) {
    Running(c) && c.p.state.StartReq?
  }

  /** A parser that may read a request: one for requests, or one for both kinds of
      messages that has read none yet. */
  predicate AtRequest(c: Config) {
    Running(c) && (c.p.state.StartReq? || c.p.state.StartReqOrRes?)
  }

  /** The request parser that a parser for both becomes on a request. */
  function AsRequest(c: Config): Config {
    if c.p.state.StartReqOrRes? then c.(p := c.p.(state := StartReq, ptype := HttpRequest)) else c
  }

  /** A parser for both takes this text for the start of a request. */
  predicate LooksLikeRequest(c: Config, t: string)
    requires t != ""
  {
    c.p.state.StartReq? || t[0] != 'H' || (|t| > 1 && t[1] == 'E')
  }

  lemma BothOnOther(p: Parser, ch: char)
    requires p.errno.Ok? && p.state.StartReqOrRes? && !IsLineEnd(ch) && ch != 'H'
    ensures React(p, ch) == React(p.(state := StartReq, ptype := HttpRequest), ch)
  {
    var q := Fresh(p).(state := StartReq, ptype := HttpRequest);
    assert Handle(p, ch) == Reaction(q, [], Again);
    assert Handle(q, ch) == StartByte(q, ch);
    var r := React(q, ch);
    assert [] + r.events == r.events;
    hide FirstMethod, HasMethodLetter;
  }

  lemma BothOnH(p: Parser)
    requires p.errno.Ok? && p.state.StartReqOrRes?
    ensures React(p, 'H') == Reaction(Fresh(p).(state := ResOrRespH), [Notify(MessageBegin)], Advance)
  {
    assert Handle(p, 'H') == StartByte(p, 'H');
  }

  lemma RequestOnH(p: Parser)
    requires p.errno.Ok? && p.state.StartReq?
    ensures React(p, 'H')
         == Reaction(Fresh(p).(state := ReqMethod, verb := HEAD, index := 1), [Notify(MessageBegin)], Advance)
  {
    assert Handle(p, 'H') == StartByte(p, 'H');
  }

  lemma SecondE(p: Parser)
    requires p.errno.Ok?
    ensures p.state.ResOrRespH? ==>
              React(p, 'E') == Reaction(p.(ptype := HttpRequest, verb := HEAD, index := 2, state := ReqMethod), [], Advance)
    ensures p.state.ReqMethod? && p.verb.HEAD? && p.index == 1 ==>
              React(p, 'E') == Reaction(p.(index := 2), [], Advance)
  {
    if p.state.ResOrRespH? {
      assert Handle(p, 'E') == StartByte(p, 'E');
    } else if p.state.ReqMethod? && p.verb.HEAD? && p.index == 1 {
      assert Handle(p, 'E') == MethodByte(p, 'E');
    }
    hide Divert;
  }

  lemma BothOnHE(c: Config)
    requires Running(c) && c.p.state.StartReqOrRes? && c.p.nread + 2 <= MAX_HEADER_SIZE
    ensures Feed(Feed(c, 'H'), 'E') == Feed(Feed(AsRequest(c), 'H'), 'E')
  {
    hide React, Feed;
    var d := AsRequest(c);
    var p, q := c.p.(nread := c.p.nread + 1), d.p.(nread := d.p.nread + 1);
    BothOnH(p);
    RequestOnH(q);
    FeedCounted(c, 'H', React(p, 'H'));
    FeedCounted(d, 'H', React(q, 'H'));
    var c1, d1 := Feed(c, 'H'), Feed(d, 'H');
    var p1, q1 := c1.p.(nread := c1.p.nread + 1), d1.p.(nread := d1.p.nread + 1);
    SecondE(p1);
    SecondE(q1);
    FeedCounted(c1, 'E', React(p1, 'E'));
    FeedCounted(d1, 'E', React(q1, 'E'));
  }

  /** From its first bytes on, a parser for both reads a request as one for requests. */
  lemma BothReadRequests(c: Config, t: string)
    requires AtRequest(c) && t != "" && !IsLineEnd(t[0]) && LooksLikeRequest(c, t)
    requires c.p.nread + |t| <= MAX_HEADER_SIZE
    ensures Run(c, t) == Run(AsRequest(c), t)
  {
    hide Run, Feed, React;
    if c.p.state.StartReqOrRes? {
      RunCons(c, t);
      RunCons(AsRequest(c), t);
      if t[0] == 'H' {
        RunCons(Feed(c, 'H'), t[1..]);
        RunCons(Feed(AsRequest(c), 'H'), t[1..]);
        BothOnHE(c);
      } else {
        BothOnOther(c.p.(nread := c.p.nread + 1), t[0]);
        SameFirstStep(c, t[0]);
      }
    }
  }

  lemma SameFirstStep(c: Config, ch: char)
    requires Running(c) && c.p.state.StartReqOrRes? && c.p.nread < MAX_HEADER_SIZE
    requires
      var p := c.p.(nread := c.p.nread + 1);
      React(p, ch) == React(p.(state := StartReq, ptype := HttpRequest), ch)
    ensures Feed(c, ch) == Feed(AsRequest(c), ch)
  {
    hide React;
  }

  lemma FirstByte(c: Config, ch: char)
    requires AtStartReq(c) && c.p.nread < MAX_HEADER_SIZE && !IsLineEnd(ch)
    ensures var p := Feed(c, ch).p;
      && (p.errno.Ok? <==> IsAlpha(ch) && HasMethodLetter(ch))
      && (p.errno.Ok? ==> p.state.ReqMethod? && p.index == 1 && p.verb == FirstMethod(ch)
                          && p.nread == c.p.nread + 1 && Running(Feed(c, ch)))
  {
  }

  lemma FirstMethodStarts(ch: char)
    requires HasMethodLetter(ch)
    ensures MethodString(FirstMethod(ch))[0] == ch
  {
  }

  lemma {:induction false} TruthFromStart(c: Config, t: string)
    requires AtStartReq(c) && c.p.nread + |t| <= MAX_HEADER_SIZE
    requires t != "" && !IsLineEnd(t[0]) && ' ' !in t
    ensures var r := Run(c, t);
      Running(r) ==>
        && r.p.state.ReqMethod? && r.p.nread == c.p.nread + |t|
        && r.p.index == |t| <= |MethodString(r.p.verb)|
        && MethodString(r.p.verb)[..|t|] == t
  {
    hide Step, Divert, MethodString;
    var t', ch := t[..|t| - 1], t[|t| - 1];
    if t' == "" {
      assert t == [ch] && Run(c, t') == c;
      FirstByte(c, ch);
      if Running(Feed(c, ch)) {
        FirstMethodStarts(ch);
        MethodNotEmpty(FirstMethod(ch));
        assert MethodString(FirstMethod(ch))[..1] == [ch];
      }
    } else {
      TruthFromStart(c, t');
      var r := Run(c, t');
      if Running(r) {
        MethodStep(r.p, ch);
        var q := r.p.(nread := r.p.nread + 1);
        DivertKeepsPrefix(q.verb, q.index, ch);
        assert t == t' + [ch];
        if Running(Run(c, t)) {
          var s := MethodString(Run(c, t).p.verb);
          assert s[..|t'|] == t' && s[|t'|] == ch;
          assert s[..|t|] == s[..|t'|] + [s[|t'|]];
        }
      }
    }
  }

  /** What was read so far is what the matcher believes. */
  lemma MatcherTellsTruth(c: Config, t: string)
    requires AtRequest(c) && c.p.nread + |t| <= MAX_HEADER_SIZE
    requires t != "" && !IsLineEnd(t[0]) && ' ' !in t && LooksLikeRequest(c, t)
    ensures var r := Run(c, t);
      Running(r) ==>
        && r.p.state.ReqMethod? && r.p.nread == c.p.nread + |t|
        && r.p.index == |t| <= |MethodString(r.p.verb)|
        && MethodString(r.p.verb)[..|t|] == t
  {
    hide Run, MethodString;
    BothReadRequests(c, t);
    TruthFromStart(AsRequest(c), t);
  }

  lemma MethodNotEmpty(m: Method)
    ensures 3 <= |MethodString(m)| <= 11
  {
  }

  lemma {:induction false} NameFromStart(c: Config, m: Method, i: nat)
    requires AtStartReq(c) && c.p.nread + i <= MAX_HEADER_SIZE
    requires 1 <= i <= |MethodString(m)|
    ensures var r := Run(c, MethodString(m)[..i]);
      && Running(r) && r.p.state.ReqMethod? && r.p.nread == c.p.nread + i
      && r.p.index == i && r.p.verb == Lead(m, i)
  {
    hide Step, Divert, MethodString, Lead;
    var t := MethodString(m);
    assert t[..i][..i - 1] == t[..i - 1];
    if i == 1 {
      assert t[..0] == "";
      LeadStarts(m);
      FirstByte(c, t[0]);
    } else {
      NameFromStart(c, m, i - 1);
      LeadAdvances(m, i - 1);
      var r := Run(c, t[..i - 1]);
      MethodStep(r.p, t[i - 1]);
      NoSpaceInMethod(m, i - 1);
    }
  }

  /** Reading a method name follows Lead. */
  lemma NameIsRead(c: Config, m: Method, i: nat)
    requires AtRequest(c) && c.p.nread + i <= MAX_HEADER_SIZE && 1 <= i <= |MethodString(m)|
    requires LooksLikeRequest(c, MethodString(m)[..i])
    ensures var r := Run(c, MethodString(m)[..i]);
      && Running(r) && r.p.state.ReqMethod? && r.p.nread == c.p.nread + i
      && r.p.index == i && r.p.verb == Lead(m, i)
  {
    hide Run, MethodString, Lead;
    LetterStarts(m);
    BothReadRequests(c, MethodString(m)[..i]);
    NameFromStart(AsRequest(c), m, i);
  }

  /** Names start with a letter, and the one that starts with H goes on with E. */
  lemma LetterStarts(m: Method)
    ensures |MethodString(m)| > 1 && !IsLineEnd(MethodString(m)[0])
    ensures MethodString(m)[0] == 'H' ==> MethodString(m)[1] == 'E'
  {
  }

  lemma MethodFromStart(c: Config, t: string, m: Method)
    requires AtStartReq(c) && c.p.nread + |t| + 1 <= MAX_HEADER_SIZE
    requires t != "" && !IsLineEnd(t[0]) && ' ' !in t
    ensures var r := Run(c, t + " ");
      Running(r) && r.p.state.ReqSpacesBeforeUrl? && r.p.verb == m <==> t == MethodString(m)
  {
    hide Step, Divert, MethodString, Lead;
    assert (t + " ")[..|t|] == t;
    var before := Run(c, t);
    TruthFromStart(c, t);
    if t == MethodString(m) {
      assert t[..|t|] == t;
      NameFromStart(c, m, |t|);
      LeadStarts(m);
    }
    if Running(before) {
      MethodStep(before.p, ' ');
      var s := MethodString(before.p.verb);
      MethodNotEmpty(before.p.verb);
      if |t| < |s| {
        NoSpaceInMethod(before.p.verb, |t|);
      } else {
        NoSpaceInMethod(before.p.verb, 0);
        assert s[..|t|] == s;
      }
      if Running(Run(c, t + " ")) && Run(c, t + " ").p.verb == m {
        assert t == MethodString(m);
      }
    }
  }

  // ---- what looks like a response -----------------------------------------

  /** The states of a parser for both that a text without spaces can lead to when it
      starts like a response. */
  predicate InStatusStart(s: State) {
    s.ResOrRespH? || s.ResHT? || s.ResHTT? || s.ResHTTP? || s.ResFirstHttpMajor? || s.ResHttpMajor?
    || s.ResFirstHttpMinor? || s.ResHttpMinor?
  }

  lemma StatusStartByte(p: Parser, ch: char)
    requires p.errno.Ok? && InStatusStart(p.state) && (p.state.ResOrRespH? ==> ch != 'E')
    ensures
      var r := React(p, ch);
      && r.next.Advance? && !r.p.state.ReqSpacesBeforeUrl?
      && (r.p.errno.Ok? && ch != ' ' ==> InStatusStart(r.p.state) && !r.p.state.ResOrRespH? && r.p.nread == p.nread)
  {
    if p.state.ResOrRespH? {
      assert Handle(p, ch) == StartByte(p, ch);
    } else {
      assert Handle(p, ch) == StatusLineByte(p, ch);
    }
  }

  lemma StatusStartStep(c: Config, ch: char)
    requires Running(c) && InStatusStart(c.p.state) && (c.p.state.ResOrRespH? ==> ch != 'E')
    requires c.p.nread < MAX_HEADER_SIZE
    ensures
      var r := Feed(c, ch);
      Running(r) ==>
        && !r.p.state.ReqSpacesBeforeUrl?
        && (ch != ' ' ==> InStatusStart(r.p.state) && !r.p.state.ResOrRespH? && r.p.nread == c.p.nread + 1)
  {
    hide Feed, React, InStatusStart, ParsingHeader;
    var p := c.p.(nread := c.p.nread + 1);
    StatusStartByte(p, ch);
    StatusStartCounts(c.p.state);
    if React(p, ch).p.errno.Ok? {
      FeedCounted(c, ch, React(p, ch));
    } else {
      FeedFails(c, ch);
    }
  }

  lemma StatusStartCounts(s: State)
    requires InStatusStart(s)
    ensures ParsingHeader(s)
  {
  }

  lemma {:induction false} ResponseStays(c: Config, t: string)
    requires Running(c) && c.p.state.StartReqOrRes? && c.p.nread + |t| <= MAX_HEADER_SIZE
    requires t != "" && t[0] == 'H' && (|t| > 1 ==> t[1] != 'E') && ' ' !in t
    ensures
      var r := Run(c, t);
      Running(r) ==> InStatusStart(r.p.state) && r.p.nread == c.p.nread + |t| && (|t| > 1 ==> !r.p.state.ResOrRespH?)
    decreases |t|
  {
    hide Run, Feed, React, InStatusStart;
    var v, ch := t[..|t| - 1], t[|t| - 1];
    assert t == v + [ch];
    if v == "" {
      assert t == ['H'];
      RunOne(c, 'H');
      var p := c.p.(nread := c.p.nread + 1);
      BothOnH(p);
      FeedCounted(c, 'H', React(p, 'H'));
      assert InStatusStart(ResOrRespH) by { AfterH(); }
    } else {
      ResponseStays(c, v);
      RunLast(c, v, ch);
      var r := Run(c, v);
      if Running(r) {
        StatusStartStep(r, ch);
      } else {
        RunHalted(r, [ch]);
        RunOne(r, ch);
      }
    }
  }

  lemma AfterH()
    ensures InStatusStart(ResOrRespH)
  {
  }

  lemma NoMethodInResponse(c: Config, t: string)
    requires Running(c) && c.p.state.StartReqOrRes? && c.p.nread + |t| + 1 <= MAX_HEADER_SIZE
    requires t != "" && t[0] == 'H' && (|t| > 1 ==> t[1] != 'E') && ' ' !in t
    ensures var r := Run(c, t + " "); !(Running(r) && r.p.state.ReqSpacesBeforeUrl?)
  {
    hide Run, Feed, InStatusStart;
    ResponseStays(c, t);
    RunLast(c, t, ' ');
    var r := Run(c, t);
    if Running(r) {
      StatusStartStep(r, ' ');
    } else {
      RunHalted(r, [' ']);
      RunOne(r, ' ');
    }
  }

  /** The request line gets past its method, with method `m`, exactly on the name of
      `m`, also where a response might have come. */
  lemma MethodAccepted(c: Config, t: string, m: Method)
    requires AtRequest(c) && c.p.nread + |t| + 1 <= MAX_HEADER_SIZE
    requires t != "" && !IsLineEnd(t[0]) && ' ' !in t
    ensures var r := Run(c, t + " ");
      Running(r) && r.p.state.ReqSpacesBeforeUrl? && r.p.verb == m <==> t == MethodString(m)
  {
    hide Run, MethodString;
    LetterStarts(m);
    if LooksLikeRequest(c, t) {
      assert (t + " ")[0] == t[0] && (|t| > 1 ==> (t + " ")[1] == t[1]);
      BothReadRequests(c, t + " ");
      MethodFromStart(AsRequest(c), t, m);
    } else {
      NoMethodInResponse(c, t);
    }
  }
}
