// Printed text as a row of tokens: wherever the parser stops in it, it stops
// between tokens, and it never makes an empty key of them.
module JsonTokens {
  import opened JsonText
  import opened JsonParse
  import opened JsonRoundTrip
  import opened JsonTree

  datatype Token = Mark(ch: char) | Blank(ch: char) | Quoted(x: string) | Numeral(n: Num) | Word(w: string)

  predicate LegalToken(t: Token) {
    match t
    case Mark(ch) => ch in "{}[],:"
    case Blank(ch) => IsSpace(ch)
    case Word(w) => w == "true" || w == "false" || w == "null"
    case _ => true
  }

  function TokenText(c: Codec, t: Token): string {
    match t
    case Mark(ch) => [ch]
    case Blank(ch) => [ch]
    case Quoted(x) => "\"" + Escaped(x) + "\""
    case Numeral(n) => c.print_(n)
    case Word(w) => w
  }

  function TextOf(c: Codec, ts: seq<Token>): string {
    if ts == [] then "" else TokenText(c, ts[0]) + TextOf(c, ts[1..])
  }

  function SkipBlanks(ts: seq<Token>): (r: seq<Token>)
    ensures |r| <= |ts| && (r != [] ==> !r[0].Blank?)
  {
    if ts != [] && ts[0].Blank? then SkipBlanks(ts[1..]) else ts
  }

  predicate ColonNext(ts: seq<Token>) {
    var r := SkipBlanks(ts);
    r != [] && r[0] == Mark(':')
  }

  predicate ValueMayEnd(ts: seq<Token>) {
    ts != [] && (ts[0] == Mark(',') || ts[0] == Blank(' '))
  }

  /** Numbers end at a comma or a space, and no colon follows an empty string. */
  predicate Legal(ts: seq<Token>) {
    ts == []
    || (&& Legal(ts[1..])
        && LegalToken(ts[0])
        && (ts[0].Numeral? ==> ValueMayEnd(ts[1..]))
        && (ts[0] == Quoted("") ==> !ColonNext(ts[1..])))
  }

  // ------------------------------------------------------- moving over tokens

  lemma {:induction false} SkipLegal(ts: seq<Token>)
    requires Legal(ts)
    ensures Legal(SkipBlanks(ts))
    decreases |ts|
  {
    if ts != [] && ts[0].Blank? {
      SkipLegal(ts[1..]);
    }
  }

  /** The first character of a token that is not blank. */
  function Head(c: Codec, t: Token): char
    requires Faithful(c) && LegalToken(t)
  {
    match t
    case Mark(ch) => ch
    case Blank(ch) => ch
    case Quoted(_) => '"'
    case Numeral(n) => c.print_(n)[0]
    case Word(w) => w[0]
  }

  lemma HeadIs(c: Codec, ts: seq<Token>)
    requires Faithful(c) && Legal(ts) && ts != [] && !ts[0].Blank?
    ensures
      var s := TextOf(c, ts);
      s != "" && s[0] == Head(c, ts[0]) && !IsSpace(s[0]) && s[0] != '/' && s[0] != '\''
  {
    hide Escaped;
  }

  lemma {:induction false} SkipText(c: Codec, ts: seq<Token>)
    requires Faithful(c) && Legal(ts)
    ensures SkipSpaces(TextOf(c, ts)) == TextOf(c, SkipBlanks(ts))
    decreases |ts|
  {
    if ts == [] {
    } else if ts[0].Blank? {
      SkipText(c, ts[1..]);
      assert TextOf(c, ts)[1..] == TextOf(c, ts[1..]);
    } else {
      HeadIs(c, ts);
    }
  }

  /** A pattern at a token: it is that token's text, or it differs in its first
      character. */
  lemma MatchToken(c: Codec, pattern: string, ts: seq<Token>, hit: bool)
    requires Faithful(c) && Legal(ts) && pattern != ""
    requires var r := SkipBlanks(ts);
      if hit then r != [] && TokenText(c, r[0]) == pattern
      else r == [] || (LegalToken(r[0]) && Head(c, r[0]) != pattern[0])
    ensures var r := SkipBlanks(ts);
      Match(pattern, TextOf(c, ts)) == if hit then Step(true, TextOf(c, r[1..])) else Step(false, TextOf(c, r))
  {
    SkipLegal(ts);
    SkipText(c, ts);
    var r := SkipBlanks(ts);
    if hit {
      PatternMatches(pattern, 0, TextOf(c, r[1..]));
      assert pattern[0..] == pattern;
    } else if r == [] {
      assert pattern[..0] == "";
    } else {
      HeadIs(c, r);
      assert pattern[..0] + TextOf(c, r) == TextOf(c, r);
    }
  }

  lemma MatchMark(c: Codec, ch: char, ts: seq<Token>)
    requires Faithful(c) && Legal(ts) && LegalToken(Mark(ch))
    ensures var r := SkipBlanks(ts);
      Match([ch], TextOf(c, ts))
      == if r != [] && r[0] == Mark(ch) then Step(true, TextOf(c, r[1..])) else Step(false, TextOf(c, r))
  {
    SkipLegal(ts);
    var r := SkipBlanks(ts);
    hide Match;
    MatchToken(c, [ch], ts, r != [] && r[0] == Mark(ch));
  }

  lemma MatchWord(c: Codec, w: string, ts: seq<Token>)
    requires Faithful(c) && Legal(ts) && LegalToken(Word(w))
    ensures var r := SkipBlanks(ts);
      Match(w, TextOf(c, ts))
      == if r != [] && r[0] == Word(w) then Step(true, TextOf(c, r[1..])) else Step(false, TextOf(c, r))
  {
    SkipLegal(ts);
    var r := SkipBlanks(ts);
    hide Match;
    MatchToken(c, w, ts, r != [] && r[0] == Word(w));
  }

  lemma QuotedAt(c: Codec, x: string, t: string, s: string)
    requires SkipSpaces(s) == "\"" + Escaped(x) + "\"" + t
    ensures ParseString(s) == Text(true, MangledText(x), t)
  {
    var body := Escaped(x) + "\"" + t;
    assert SkipSpaces(s) == "\"" + body;
    PatternMatches("\"", 0, body);
    assert "\""[0..] == "\"";
    StringRead(x, t, "");
    assert "" + MangledText(x) == MangledText(x);
    hide StringBody, Escaped, MangledText, MatchFrom;
  }

  lemma NoStringAt(c: Codec, ts: seq<Token>)
    requires Faithful(c) && Legal(ts) && (SkipBlanks(ts) == [] || !SkipBlanks(ts)[0].Quoted?)
    ensures ParseString(TextOf(c, ts)) == Text(false, "", TextOf(c, SkipBlanks(ts)))
  {
    SkipLegal(ts);
    var r := SkipBlanks(ts);
    if r != [] {
      HeadIs(c, r);
    }
    MatchToken(c, "\"", ts, false);
    hide Match, StringBody;
  }

  lemma StringAt(c: Codec, ts: seq<Token>)
    requires Faithful(c) && Legal(ts)
    ensures var r := SkipBlanks(ts);
      ParseString(TextOf(c, ts))
      == if r != [] && r[0].Quoted? then Text(true, MangledText(r[0].x), TextOf(c, r[1..]))
         else Text(false, "", TextOf(c, r))
  {
    var r := SkipBlanks(ts);
    if r != [] && r[0].Quoted? {
      SkipText(c, ts);
      hide ParseString, Escaped, MangledText;
      QuotedAt(c, r[0].x, TextOf(c, r[1..]), TextOf(c, ts));
    } else {
      NoStringAt(c, ts);
    }
  }

  lemma NumberAt(c: Codec, ts: seq<Token>)
    requires Faithful(c) && Legal(ts)
    ensures
      var r := SkipBlanks(ts);
      var n := c.scan(SkipSpaces(TextOf(c, ts)));
      if r != [] && r[0].Numeral? then n == Scan(true, r[0].n, TextOf(c, r[1..])) else !n.ok && n.rest == TextOf(c, r)
  {
    SkipLegal(ts);
    SkipText(c, ts);
    var r := SkipBlanks(ts);
    if r != [] && r[0].Numeral? {
      FollowsWhereItMay(c, r[1..]);
    } else if r != [] {
      HeadIs(c, r);
    }
  }

  lemma FollowsWhereItMay(c: Codec, ts: seq<Token>)
    requires ValueMayEnd(ts)
    ensures Follows(TextOf(c, ts))
  {
  }

  // ------------------------------------------------------ the parser on tokens

  /** Where a parser stands afterwards: between tokens, not behind where it was. */
  predicate Stops(c: Codec, ts: seq<Token>, text: string, rest: seq<Token>) {
    Legal(rest) && |rest| <= |ts| && text == TextOf(c, rest)
  }

  lemma WordAt(c: Codec, ts: seq<Token>) returns (rest: seq<Token>)
    requires Faithful(c) && Legal(ts)
    ensures
      var b := ParseBool(TextOf(c, ts));
      var r := if b.ok then b else ParseNull(b.rest);
      Stops(c, ts, r.rest, rest) && Keyed(r.value)
  {
    hide Match;
    SkipLegal(ts);
    var r := SkipBlanks(ts);
    SkipTwice(ts);
    MatchWord(c, "true", ts);
    MatchWord(c, "false", r);
    MatchWord(c, "null", r);
    rest := if r != [] && r[0].Word? then r[1..] else r;
  }

  lemma {:induction false} SkipTwice(ts: seq<Token>)
    ensures SkipBlanks(SkipBlanks(ts)) == SkipBlanks(ts)
    decreases |ts|
  {
    if ts != [] && ts[0].Blank? {
      SkipTwice(ts[1..]);
    }
  }

  lemma ScalarAt(c: Codec, ts: seq<Token>) returns (rest: seq<Token>)
    requires Faithful(c) && Legal(ts)
    ensures Shrinks(c)
    ensures
      var r := ParseScalar(c, TextOf(c, ts));
      Stops(c, ts, r.rest, rest) && Keyed(r.value)
  {
    FaithfulShrinks(c);
    SkipLegal(ts);
    SkipTwice(ts);
    StringAt(c, ts);
    var r := SkipBlanks(ts);
    hide ParseString, ParseBool, ParseNull, Faithful, Legal, LegalToken;
    if r != [] && r[0].Quoted? {
      LegalTail(r);
      rest := r[1..];
    } else {
      NumberAt(c, r);
      if r != [] && r[0].Numeral? {
        LegalTail(r);
        rest := r[1..];
      } else {
        rest := WordAt(c, r);
      }
    }
  }

  lemma LegalTail(ts: seq<Token>)
    requires Legal(ts) && ts != []
    ensures Legal(ts[1..])
  {
  }

  lemma {:induction false} ValueAt(c: Codec, ts: seq<Token>) returns (rest: seq<Token>)
    requires Faithful(c) && Legal(ts)
    ensures Shrinks(c)
    ensures
      var r := ParseValue(c, TextOf(c, ts));
      Stops(c, ts, r.rest, rest) && (r.ok ==> Keyed(r.value))
    decreases |ts|, 2
  {
    hide Faithful, ParseScalar, ParseArray, ParseObject, Legal;
    FaithfulShrinks(c);
    rest := ScalarAt(c, ts);
    var s := ParseScalar(c, TextOf(c, ts));
    if !s.ok {
      if s.rest != "" && s.rest[0] == '[' {
        rest := ArrayAt(c, rest);
      }
      if !(s.rest != "" && s.rest[0] == '[' && ParseArray(c, s.rest).ok) {
        rest := ObjectAt(c, rest);
      }
    }
  }

  lemma {:induction false} ArrayAt(c: Codec, ts: seq<Token>) returns (rest: seq<Token>)
    requires Faithful(c) && Legal(ts)
    ensures Shrinks(c)
    ensures
      var r := ParseArray(c, TextOf(c, ts));
      Stops(c, ts, r.rest, rest) && Keyed(Array(r.items))
    decreases |ts|, 1
  {
    hide Faithful, ParseItems, Match, Legal, Keyed;
    FaithfulShrinks(c);
    NothingIsKeyed();
    SkipLegal(ts);
    MatchMark(c, '[', ts);
    rest := SkipBlanks(ts);
    if rest != [] && rest[0] == Mark('[') {
      LegalTail(rest);
      rest := ItemsAt(c, rest[1..], []);
      SkipLegal(rest);
      MatchMark(c, ']', rest);
      rest := SkipBlanks(rest);
      if rest != [] && rest[0] == Mark(']') {
        LegalTail(rest);
        rest := rest[1..];
      }
    }
  }

  lemma NothingIsKeyed()
    ensures Keyed(Array([])) && Keyed(Object([]))
  {
  }

  lemma {:induction false} ItemsAt(c: Codec, ts: seq<Token>, before: seq<Json>) returns (rest: seq<Token>)
    requires Faithful(c) && Legal(ts) && Keyed(Array(before))
    ensures Shrinks(c)
    ensures
      var r := ParseItems(c, TextOf(c, ts), before);
      Stops(c, ts, r.rest, rest) && Keyed(Array(r.items))
    decreases |ts|, 3
  {
    hide Faithful, ParseValue, Match, Legal;
    FaithfulShrinks(c);
    rest := ValueAt(c, ts);
    var v := ParseValue(c, TextOf(c, ts));
    if v.ok {
      SkipLegal(rest);
      MatchMark(c, ',', rest);
      rest := SkipBlanks(rest);
      if rest != [] && rest[0] == Mark(',') {
        LegalTail(rest);
        rest := ItemsAt(c, rest[1..], before + [v.value]);
      }
    }
  }

  lemma {:induction false} ObjectAt(c: Codec, ts: seq<Token>) returns (rest: seq<Token>)
    requires Faithful(c) && Legal(ts)
    ensures Shrinks(c)
    ensures
      var r := ParseObject(c, TextOf(c, ts));
      Stops(c, ts, r.rest, rest) && Keyed(Object(r.members))
    decreases |ts|, 1
  {
    hide Faithful, ParseMembers, Match, Legal, Keyed;
    FaithfulShrinks(c);
    NothingIsKeyed();
    SkipLegal(ts);
    MatchMark(c, '{', ts);
    rest := SkipBlanks(ts);
    if rest != [] && rest[0] == Mark('{') {
      LegalTail(rest);
      rest := rest[1..];
      SkipLegal(rest);
      MatchMark(c, '}', rest);
      rest := SkipBlanks(rest);
      if rest != [] && rest[0] == Mark('}') {
        LegalTail(rest);
        rest := rest[1..];
      } else {
        var inner := rest;
        rest := MembersAt(c, inner, []);
        if ParseMembers(c, TextOf(c, inner), []).ok {
          SkipLegal(rest);
          MatchMark(c, '}', rest);
          rest := SkipBlanks(rest);
          if rest != [] && rest[0] == Mark('}') {
            LegalTail(rest);
            rest := rest[1..];
          }
        }
      }
    }
  }

  lemma {:induction false} InsertKeyed(ms: seq<Member>, key: string, v: Json)
    requires Keyed(Object(ms)) && key != "" && Keyed(v)
    ensures Keyed(Object(Insert(ms, key, v)))
    decreases |ms|
  {
    if ms != [] {
      assert Keyed(Object(ms[1..]));
      InsertKeyed(ms[1..], key, v);
    }
  }

  /** A key before a colon is not empty. */
  lemma KeyIsSome(c: Codec, ts: seq<Token>)
    requires Legal(ts) && ts != [] && ts[0].Quoted? && ColonNext(ts[1..])
    ensures MangledText(ts[0].x) != ""
  {
  }

  lemma {:induction false} MembersAt(c: Codec, ts: seq<Token>, before: seq<Member>) returns (rest: seq<Token>)
    requires Faithful(c) && Legal(ts) && Keyed(Object(before))
    ensures Shrinks(c)
    ensures
      var r := ParseMembers(c, TextOf(c, ts), before);
      Stops(c, ts, r.rest, rest) && Keyed(Object(r.members))
    decreases |ts|, 3
  {
    hide Faithful, ParseValue, ParseString, Match, Legal, Insert, MangledText, Keyed;
    FaithfulShrinks(c);
    SkipLegal(ts);
    StringAt(c, ts);
    rest := SkipBlanks(ts);
    if rest != [] && rest[0].Quoted? {
      var at := rest;
      LegalTail(at);
      SkipLegal(at[1..]);
      MatchMark(c, ':', at[1..]);
      rest := SkipBlanks(at[1..]);
      if rest != [] && rest[0] == Mark(':') {
        KeyIsSome(c, at);
        LegalTail(rest);
        var text := rest[1..];
        rest := ValueAt(c, text);
        var v := ParseValue(c, TextOf(c, text));
        if v.ok {
          InsertKeyed(before, MangledText(at[0].x), v.value);
          SkipLegal(rest);
          MatchMark(c, ',', rest);
          rest := SkipBlanks(rest);
          if rest != [] && rest[0] == Mark(',') {
            LegalTail(rest);
            rest := MembersAt(c, rest[1..], Insert(before, MangledText(at[0].x), v.value));
          }
        }
      }
    }
  }

  // ------------------------------------------------------------ printed values

  function TabTokens(depth: nat): (ts: seq<Token>)
    ensures |ts| == depth && forall i :: 0 <= i < |ts| ==> ts[i] == Blank('\t')
  {
    seq(depth, _ => Blank('\t'))
  }

  function KeyTokens(name: string): seq<Token> {
    if name != "" then [Quoted(name), Mark(':'), Blank(' ')] else []
  }

  function ValueTokens(depth: nat, v: Json): seq<Token>
    decreases v, 1
  {
    match v
    case Null => [Word("null")]
    case Bool(b) => [Word(if b then "true" else "false")]
    case Number(n) => [Numeral(n)]
    case String(s) => [Quoted(s)]
    case Array(items) => [Mark('['), Blank('\n')] + ItemTokens(depth + 1, items) + TabTokens(depth) + [Mark(']')]
    case Object(members) => [Mark('{'), Blank('\n')] + MemberTokens(depth + 1, members) + TabTokens(depth) + [Mark('}')]
  }

  function ItemTokens(depth: nat, items: seq<Json>): seq<Token>
    decreases items, 0
  {
    if items == [] then []
    else TabTokens(depth) + ValueTokens(depth, items[0])
         + (if |items| == 1 then [Blank(' '), Blank('\n')] else [Mark(','), Blank('\n')] + ItemTokens(depth, items[1..]))
  }

  function MemberTokens(depth: nat, members: seq<Member>): seq<Token>
    decreases members, 1
  {
    if members == [] then [] else TabTokens(depth) + MemberTokensFrom(depth, members)
  }

  function MemberTokensFrom(depth: nat, members: seq<Member>): seq<Token>
    requires members != []
    decreases members, 0
  {
    KeyTokens(members[0].key) + ValueTokens(depth, members[0].value)
    + (if |members| == 1 then [Blank(' '), Blank('\n')] else [Mark(','), Blank('\n')] + MemberTokens(depth, members[1..]))
  }

  lemma {:induction false} TextJoin(c: Codec, a: seq<Token>, b: seq<Token>)
    ensures TextOf(c, a + b) == TextOf(c, a) + TextOf(c, b)
    decreases |a|
  {
    hide TokenText;
    if a == [] {
      assert a + b == b;
    } else {
      assert (a + b)[1..] == a[1..] + b;
      TextJoin(c, a[1..], b);
    }
  }

  lemma {:induction false} TabText(c: Codec, depth: nat)
    ensures TextOf(c, TabTokens(depth)) == Tabs(depth)
    decreases depth
  {
    if depth > 0 {
      TabText(c, depth - 1);
      assert TabTokens(depth)[1..] == TabTokens(depth - 1);
      assert Tabs(depth) == "\t" + Tabs(depth - 1);
    }
  }

  lemma OneText(c: Codec, t: Token)
    ensures TextOf(c, [t]) == TokenText(c, t)
  {
    assert [t][1..] == [];
  }

  lemma TwoText(c: Codec, t: Token, u: Token)
    ensures TextOf(c, [t, u]) == TokenText(c, t) + TokenText(c, u)
  {
    OneText(c, u);
    assert [t, u][1..] == [u];
  }

  lemma KeyTokensText(c: Codec, name: string)
    ensures TextOf(c, KeyTokens(name)) == KeyText(name)
  {
    if name != "" {
      TwoText(c, Mark(':'), Blank(' '));
      assert KeyTokens(name)[1..] == [Mark(':'), Blank(' ')];
      assert "\"" + Escaped(name) + "\"" + (":" + " ") == "\"" + Escaped(name) + "\": ";
    }
  }

  /** The text of a bracketed list. */
  lemma ListText(c: Codec, open: char, inner: seq<Token>, depth: nat, close: char)
    ensures TextOf(c, [Mark(open), Blank('\n')] + inner + TabTokens(depth) + [Mark(close)])
         == [open, '\n'] + TextOf(c, inner) + Tabs(depth) + [close]
  {
    TextJoin(c, [Mark(open), Blank('\n')] + inner + TabTokens(depth), [Mark(close)]);
    TextJoin(c, [Mark(open), Blank('\n')] + inner, TabTokens(depth));
    TextJoin(c, [Mark(open), Blank('\n')], inner);
    TwoText(c, Mark(open), Blank('\n'));
    OneText(c, Mark(close));
    TabText(c, depth);
  }

  lemma {:induction false} ValueTokensText(c: Codec, depth: nat, v: Json)
    ensures TextOf(c, ValueTokens(depth, v)) == ValueText(c, depth, v)
    decreases v, 2
  {
    hide TextOf, Tabs, Escaped;
    match v
    case Null => OneText(c, Word("null"));
    case Bool(b) => OneText(c, Word(if b then "true" else "false"));
    case Number(n) => OneText(c, Numeral(n));
    case String(s) => OneText(c, Quoted(s));
    case Array(items) =>
      ItemTokensText(c, depth + 1, items);
      ListText(c, '[', ItemTokens(depth + 1, items), depth, ']');
    case Object(members) =>
      MemberTokensText(c, depth + 1, members);
      ListText(c, '{', MemberTokens(depth + 1, members), depth, '}');
  }

  lemma NoText(c: Codec)
    ensures TextOf(c, []) == ""
  {
  }

  lemma {:induction false} ItemTokensText(c: Codec, depth: nat, items: seq<Json>)
    ensures TextOf(c, ItemTokens(depth, items)) == ItemLines(c, depth, items)
    decreases items, 1
  {
    hide TextOf, Tabs, ValueTokens, ValueText;
    NoText(c);
    if items != [] {
      var line := TabTokens(depth) + ValueTokens(depth, items[0]);
      ValueTokensText(c, depth, items[0]);
      TabText(c, depth);
      TextJoin(c, TabTokens(depth), ValueTokens(depth, items[0]));
      EndText(c);
      if |items| == 1 {
        TextJoin(c, line, [Blank(' '), Blank('\n')]);
      } else {
        var more := ItemTokens(depth, items[1..]);
        ItemTokensText(c, depth, items[1..]);
        TextJoin(c, [Mark(','), Blank('\n')], more);
        TextJoin(c, line, [Mark(','), Blank('\n')] + more);
      }
    }
  }

  lemma EndText(c: Codec)
    ensures TextOf(c, [Blank(' '), Blank('\n')]) == " \n" && TextOf(c, [Mark(','), Blank('\n')]) == ",\n"
  {
    TwoText(c, Blank(' '), Blank('\n'));
    TwoText(c, Mark(','), Blank('\n'));
  }

  lemma {:induction false} MemberTokensText(c: Codec, depth: nat, members: seq<Member>)
    ensures TextOf(c, MemberTokens(depth, members)) == MemberLines(c, depth, members)
    decreases members, 1
  {
    hide TextOf, Tabs, ValueTokens, ValueText, KeyText, KeyTokens;
    NoText(c);
    if members != [] {
      var line := KeyTokens(members[0].key) + ValueTokens(depth, members[0].value);
      ValueTokensText(c, depth, members[0].value);
      KeyTokensText(c, members[0].key);
      TabText(c, depth);
      TextJoin(c, KeyTokens(members[0].key), ValueTokens(depth, members[0].value));
      EndText(c);
      if |members| == 1 {
        TextJoin(c, line, [Blank(' '), Blank('\n')]);
      } else {
        var more := MemberTokens(depth, members[1..]);
        MemberTokensText(c, depth, members[1..]);
        TextJoin(c, [Mark(','), Blank('\n')], more);
        TextJoin(c, line, [Mark(','), Blank('\n')] + more);
      }
      TextJoin(c, TabTokens(depth), MemberTokensFrom(depth, members));
    }
  }

  // ----------------------------------------------------- printed text is legal

  lemma {:induction false} TabsLegal(depth: nat, more: seq<Token>)
    requires Legal(more) && !ColonNext(more)
    ensures Legal(TabTokens(depth) + more) && !ColonNext(TabTokens(depth) + more)
    decreases depth
  {
    if depth > 0 {
      TabsLegal(depth - 1, more);
      assert (TabTokens(depth) + more)[1..] == TabTokens(depth - 1) + more;
    } else {
      assert TabTokens(depth) + more == more;
    }
  }

  lemma TokenLegal(t: Token, more: seq<Token>)
    requires Legal(more) && LegalToken(t) && t != Mark(':')
    requires t.Numeral? ==> ValueMayEnd(more)
    requires t == Quoted("") || t.Blank? ==> !ColonNext(more)
    ensures Legal([t] + more) && !ColonNext([t] + more)
  {
    assert ([t] + more)[1..] == more;
  }

  lemma KeyLegal(name: string, more: seq<Token>)
    requires Legal(more) && !ColonNext(more)
    ensures Legal(KeyTokens(name) + more) && !ColonNext(KeyTokens(name) + more)
  {
    if name == "" {
      assert KeyTokens(name) + more == more;
    } else {
      TokenLegal(Blank(' '), more);
      var colon := [Mark(':')] + ([Blank(' ')] + more);
      assert colon[1..] == [Blank(' ')] + more;
      TokenLegal(Quoted(name), colon);
      assert KeyTokens(name) + more == [Quoted(name)] + colon;
    }
  }

  lemma CloseLegal(depth: nat, close: char, more: seq<Token>)
    requires Legal(more) && (close == ']' || close == '}')
    ensures var end := TabTokens(depth) + ([Mark(close)] + more); Legal(end) && !ColonNext(end)
  {
    TokenLegal(Mark(close), more);
    hide Legal, ColonNext, LegalToken;
    TabsLegal(depth, [Mark(close)] + more);
  }

  lemma ListLegal(open: char, inner: seq<Token>, depth: nat, close: char, more: seq<Token>)
    requires open == '[' || open == '{'
    requires var end := TabTokens(depth) + ([Mark(close)] + more); Legal(inner + end) && !ColonNext(inner + end)
    ensures
      var all := [Mark(open), Blank('\n')] + inner + TabTokens(depth) + [Mark(close)] + more;
      Legal(all) && !ColonNext(all)
  {
    hide Legal, ColonNext;
    var end := TabTokens(depth) + ([Mark(close)] + more);
    OpenLegal(open, inner + end);
    assert [Mark(open), Blank('\n')] + inner + TabTokens(depth) + [Mark(close)] + more
      == [Mark(open), Blank('\n')] + (inner + end);
  }

  /** A printed value is legal wherever a value may stand. */
  lemma {:induction false} ValueLegal(depth: nat, v: Json, more: seq<Token>)
    requires Legal(more) && ValueMayEnd(more) && !ColonNext(more)
    ensures Legal(ValueTokens(depth, v) + more) && !ColonNext(ValueTokens(depth, v) + more)
    decreases v, 2
  {
    hide Legal, ColonNext, ItemTokens, MemberTokens;
    match v
    case Array(items) =>
      CloseLegal(depth, ']', more);
      ItemsLegal(depth + 1, items, TabTokens(depth) + ([Mark(']')] + more));
      ListLegal('[', ItemTokens(depth + 1, items), depth, ']', more);
    case Object(members) =>
      CloseLegal(depth, '}', more);
      MembersLegal(depth + 1, members, TabTokens(depth) + ([Mark('}')] + more));
      ListLegal('{', MemberTokens(depth + 1, members), depth, '}', more);
    case Null => TokenLegal(Word("null"), more);
    case Bool(b) => TokenLegal(Word(if b then "true" else "false"), more);
    case Number(n) => TokenLegal(Numeral(n), more);
    case String(s) => TokenLegal(Quoted(s), more);
  }

  lemma OpenLegal(open: char, more: seq<Token>)
    requires Legal(more) && !ColonNext(more) && (open == '[' || open == '{' || open == ',')
    ensures Legal([Mark(open), Blank('\n')] + more) && !ColonNext([Mark(open), Blank('\n')] + more)
    ensures ValueMayEnd([Mark(open), Blank('\n')] + more) <==> open == ','
  {
    TokenLegal(Blank('\n'), more);
    TokenLegal(Mark(open), [Blank('\n')] + more);
    assert [Mark(open), Blank('\n')] + more == [Mark(open)] + ([Blank('\n')] + more);
  }

  lemma LastLegal(more: seq<Token>)
    requires Legal(more) && !ColonNext(more)
    ensures var end := [Blank(' '), Blank('\n')] + more; Legal(end) && !ColonNext(end) && ValueMayEnd(end)
  {
    TokenLegal(Blank('\n'), more);
    TokenLegal(Blank(' '), [Blank('\n')] + more);
    assert [Blank(' '), Blank('\n')] + more == [Blank(' ')] + ([Blank('\n')] + more);
  }

  lemma {:induction false} ItemsLegal(depth: nat, items: seq<Json>, more: seq<Token>)
    requires Legal(more) && !ColonNext(more)
    ensures Legal(ItemTokens(depth, items) + more) && !ColonNext(ItemTokens(depth, items) + more)
    decreases items, 1
  {
    hide Legal, ColonNext, ValueTokens, ValueMayEnd;
    if items == [] {
      assert ItemTokens(depth, items) + more == more;
    } else {
      var end := ItemsAfter(depth, items, more);
      ValueLegal(depth, items[0], end);
      TabsLegal(depth, ValueTokens(depth, items[0]) + end);
      assert ItemTokens(depth, items) + more == TabTokens(depth) + (ValueTokens(depth, items[0]) + end);
    }
  }

  /** What follows the first item's value. */
  lemma {:induction false} ItemsAfter(depth: nat, items: seq<Json>, more: seq<Token>) returns (end: seq<Token>)
    requires items != [] && Legal(more) && !ColonNext(more)
    ensures Legal(end) && !ColonNext(end) && ValueMayEnd(end)
    ensures ItemTokens(depth, items) + more == TabTokens(depth) + ValueTokens(depth, items[0]) + end
    decreases items, 0
  {
    hide Legal, ColonNext, ValueTokens, ValueMayEnd;
    if |items| == 1 {
      end := [Blank(' '), Blank('\n')] + more;
      LastLegal(more);
    } else {
      end := [Mark(','), Blank('\n')] + (ItemTokens(depth, items[1..]) + more);
      ItemsLegal(depth, items[1..], more);
      OpenLegal(',', ItemTokens(depth, items[1..]) + more);
    }
  }

  lemma {:induction false} MembersLegal(depth: nat, members: seq<Member>, more: seq<Token>)
    requires Legal(more) && !ColonNext(more)
    ensures Legal(MemberTokens(depth, members) + more) && !ColonNext(MemberTokens(depth, members) + more)
    decreases members, 1
  {
    hide Legal, ColonNext, ValueTokens, ValueMayEnd, KeyTokens;
    if members == [] {
      assert MemberTokens(depth, members) + more == more;
    } else {
      var end := MembersAfter(depth, members, more);
      var v := ValueTokens(depth, members[0].value);
      ValueLegal(depth, members[0].value, end);
      KeyLegal(members[0].key, v + end);
      TabsLegal(depth, KeyTokens(members[0].key) + (v + end));
      assert MemberTokens(depth, members) + more == TabTokens(depth) + (KeyTokens(members[0].key) + (v + end));
    }
  }

  lemma {:induction false} MembersAfter(depth: nat, members: seq<Member>, more: seq<Token>) returns (end: seq<Token>)
    requires members != [] && Legal(more) && !ColonNext(more)
    ensures Legal(end) && !ColonNext(end) && ValueMayEnd(end)
    ensures MembersFromEnds(depth, members, more, end)
    decreases members, 0
  {
    hide Legal, ColonNext, ValueTokens, ValueMayEnd, KeyTokens;
    if |members| == 1 {
      end := [Blank(' '), Blank('\n')] + more;
      LastLegal(more);
      assert MemberTokensFrom(depth, members) + more
        == KeyTokens(members[0].key) + ValueTokens(depth, members[0].value) + end;
    } else {
      end := [Mark(','), Blank('\n')] + (MemberTokens(depth, members[1..]) + more);
      MembersLegal(depth, members[1..], more);
      OpenLegal(',', MemberTokens(depth, members[1..]) + more);
      assert MemberTokensFrom(depth, members) + more
        == KeyTokens(members[0].key) + ValueTokens(depth, members[0].value) + end;
    }
  }

  predicate MembersFromEnds(depth: nat, members: seq<Member>, more: seq<Token>, end: seq<Token>)
    requires members != []
  {
    MemberTokens(depth, members) + more
    == TabTokens(depth) + KeyTokens(members[0].key) + ValueTokens(depth, members[0].value) + end
  }
}
