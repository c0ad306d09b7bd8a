// Whole values: the text between the braces, and that it parses back.
module JsonTree {
  import opened JsonText
  import opened JsonParse
  import opened JsonRoundTrip

  // -------------------------------------------------- the text without its line

  /** A value's text inside a line: the line's comma and everything before the
      value are left out. */
  function ValueText(c: Codec, depth: nat, v: Json): string
    decreases v, 1
  {
    match v
    case Null => "null"
    case Bool(b) => if b then "true" else "false"
    case Number(n) => c.print_(n)
    case String(s) => "\"" + Escaped(s) + "\""
    case Array(items) => "[\n" + ItemLines(c, depth + 1, items) + Tabs(depth) + "]"
    case Object(members) => "{\n" + MemberLines(c, depth + 1, members) + Tabs(depth) + "}"
  }

  /** Lines separated by commas; the last one ends with a space instead. */
  function ItemLines(c: Codec, depth: nat, items: seq<Json>): string
    decreases items, 0
  {
    if items == [] then ""
    else Tabs(depth) + ValueText(c, depth, items[0])
         + (if |items| == 1 then " \n" else ",\n" + ItemLines(c, depth, items[1..]))
  }

  function MemberLines(c: Codec, depth: nat, members: seq<Member>): string
    decreases members, 1
  {
    if members == [] then "" else Tabs(depth) + MembersFrom(c, depth, members)
  }

  /** From the first key on. */
  function MembersFrom(c: Codec, depth: nat, members: seq<Member>): string
    requires members != []
    decreases members, 0
  {
    KeyText(members[0].key) + ValueText(c, depth, members[0].value)
    + (if |members| == 1 then " \n" else ",\n" + MemberLines(c, depth, members[1..]))
  }

  lemma CommaRemoved(s: string)
    requires s != ""
    ensures RemoveLastComma(s + ",\n") == s + " \n"
  {
    var t := s + ",\n";
    assert t[|t| - 2 := ' '] == s + " \n";
  }

  lemma NothingRemoved(head: string, open: char)
    requires open != ','
    ensures RemoveLastComma(head + [open, '\n']) == head + [open, '\n']
  {
  }

  /** The printer builds this text, with its line around it. */
  lemma {:induction false} TagIsLine(c: Codec, depth: nat, name: string, v: Json)
    ensures Tag(c, depth, name, v) == Tabs(depth) + KeyText(name) + ValueText(c, depth, v) + ",\n"
    decreases v, 1
  {
    hide KeyText, Tabs, RemoveLastComma, Escaped;
    var head := Tabs(depth) + KeyText(name);
    match v
    case Array(items) =>
      if items == [] {
        NothingRemoved(head, '[');
        assert head + "[\n" + "" == head + "[\n";
        ListClosed(head, "[\n", "", "", Tabs(depth), "]");
      } else {
        var x := ItemTags(c, depth + 1, items);
        CommaRemoved(head + "[\n" + x);
        assert head + "[\n" + x + ",\n" == head + "[\n" + (x + ",\n");
        ListClosed(head, "[\n", x, " \n", Tabs(depth), "]");
      }
    case Object(members) =>
      if members == [] {
        NothingRemoved(head, '{');
        assert head + "{\n" + "" == head + "{\n";
        ListClosed(head, "{\n", "", "", Tabs(depth), "}");
      } else {
        var x := MemberTags(c, depth + 1, members);
        CommaRemoved(head + "{\n" + x);
        assert head + "{\n" + x + ",\n" == head + "{\n" + (x + ",\n");
        ListClosed(head, "{\n", x, " \n", Tabs(depth), "}");
      }
    case String(s) =>
      assert head + "\"" + Escaped(s) + "\"" == head + ("\"" + Escaped(s) + "\"");
    case _ =>
  }

  lemma ListClosed(head: string, open: string, x: string, end: string, tabs: string, close: string)
    ensures head + open + x + end + tabs + close + ",\n" == head + (open + (x + end) + tabs + close) + ",\n"
  {
  }

  lemma {:induction false} ItemTags(c: Codec, depth: nat, items: seq<Json>) returns (x: string)
    requires items != []
    ensures TagItems(c, depth, items) == x + ",\n" && ItemLines(c, depth, items) == x + " \n"
    decreases items, 0
  {
    hide KeyText, Tabs, RemoveLastComma, Tag;
    TagIsLine(c, depth, "", items[0]);
    NoKeyText();
    var line := Tabs(depth) + ValueText(c, depth, items[0]);
    assert Tabs(depth) + "" == Tabs(depth);
    if |items| == 1 {
      x := line;
      assert TagItems(c, depth, items[1..]) == "";
      Joined(line, "");
    } else {
      var y := ItemTags(c, depth, items[1..]);
      x := line + ",\n" + y;
      Joined(line, y);
    }
  }

  lemma LineOf(c: Codec, depth: nat, members: seq<Member>)
    requires members != []
    ensures MemberLines(c, depth, members)
         == (Tabs(depth) + KeyText(members[0].key) + ValueText(c, depth, members[0].value))
            + (if |members| == 1 then " \n" else ",\n" + MemberLines(c, depth, members[1..]))
  {
    hide KeyText, Tabs, ValueText;
    var end := if |members| == 1 then " \n" else ",\n" + MemberLines(c, depth, members[1..]);
    var k, t := KeyText(members[0].key), ValueText(c, depth, members[0].value);
    assert MembersFrom(c, depth, members) == k + t + end;
    assert Tabs(depth) + (k + t + end) == Tabs(depth) + k + t + end;
  }

  lemma Joined(line: string, y: string)
    ensures line + ",\n" + (y + ",\n") == line + ",\n" + y + ",\n"
    ensures line + (",\n" + (y + " \n")) == line + ",\n" + y + " \n"
    ensures line + ",\n" + "" == line + ",\n"
  {
  }

  lemma NoKeyText()
    ensures KeyText("") == ""
  {
  }

  lemma {:induction false} MemberTags(c: Codec, depth: nat, members: seq<Member>) returns (x: string)
    requires members != []
    ensures TagMembers(c, depth, members) == x + ",\n" && MemberLines(c, depth, members) == x + " \n"
    decreases members, 0
  {
    hide KeyText, Tabs, RemoveLastComma, Tag, ValueText;
    TagIsLine(c, depth, members[0].key, members[0].value);
    var line := Tabs(depth) + KeyText(members[0].key) + ValueText(c, depth, members[0].value);
    LineOf(c, depth, members);
    if |members| == 1 {
      x := line;
      assert TagMembers(c, depth, members[1..]) == "";
      Joined(line, "");
    } else {
      var y := MemberTags(c, depth, members[1..]);
      x := line + ",\n" + y;
      Joined(line, y);
    }
  }

  // ------------------------------------------------------------------ scalars

  predicate Structural(ch: char) {
    ch == '[' || ch == '{' || ch == ']'
  }

  lemma NoString(w: string, t: string)
    requires Spaces(w) && t != "" && !IsSpace(t[0]) && t[0] != '/' && t[0] != '"' && t[0] != '\''
    ensures ParseString(w + t) == Text(false, "", t)
  {
    MatchesNot("\"", w, t);
  }

  lemma NoNumber(c: Codec, t: string)
    requires Faithful(c) && t != "" && !IsSpace(t[0]) && !StartsNumber(t[0])
    ensures !c.scan(SkipSpaces(t)).ok && c.scan(SkipSpaces(t)).rest == t
  {
    assert SkipSpaces(t) == t;
  }

  lemma NoWord(t: string)
    requires t != "" && Structural(t[0])
    ensures ParseBool(t) == Value(false, Bool(false), t) && ParseNull(t) == Value(false, Null, t)
  {
    assert "" + t == t;
    MatchesNot("true", "", t);
    MatchesNot("false", "", t);
    MatchesNot("null", "", t);
  }

  lemma ScalarFails(c: Codec, w: string, t: string)
    requires Faithful(c) && Spaces(w) && t != "" && Structural(t[0])
    ensures ParseScalar(c, w + t) == Value(false, Null, t)
  {
    hide ParseString, ParseBool, ParseNull, Faithful;
    NoString(w, t);
    NoNumber(c, t);
    NoWord(t);
    FaithfulShrinks(c);
  }

  lemma FaithfulShrinks(c: Codec)
    requires Faithful(c)
    ensures Shrinks(c)
  {
  }

  lemma WordParses(c: Codec, w: string, v: Json, rest: string)
    requires Faithful(c) && Spaces(w) && (v.Null? || v.Bool?)
    ensures ParseScalar(c, w + (ValueText(c, 0, v) + rest)) == Value(true, v, rest)
  {
    hide ParseString, MatchFrom, Faithful;
    FaithfulShrinks(c);
    var t := ValueText(c, 0, v) + rest;
    NoString(w, t);
    NoNumber(c, t);
    assert "" + t == t;
    match v
    case Null =>
      MatchesNot("true", "", t);
      MatchesNot("false", "", t);
      Matches("null", "", rest);
    case Bool(b) =>
      if b {
        Matches("true", "", rest);
      } else {
        MatchesNot("true", "", t);
        Matches("false", "", rest);
      }
  }

  lemma NumberParses(c: Codec, w: string, n: Num, rest: string)
    requires Faithful(c) && Spaces(w) && Follows(rest)
    ensures ParseScalar(c, w + (c.print_(n) + rest)) == Value(true, Number(n), rest)
  {
    var t := c.print_(n) + rest;
    assert t[0] == c.print_(n)[0] && StartsNumber(t[0]);
    NoString(w, t);
    assert SkipSpaces(t) == t;
    assert c.scan(t) == Scan(true, n, rest);
    hide ParseString, ParseBool, ParseNull, Faithful, StartsNumber;
  }

  lemma StringParses(c: Codec, w: string, s: string, rest: string)
    requires Faithful(c) && Spaces(w)
    ensures ParseScalar(c, w + ("\"" + Escaped(s) + "\"" + rest)) == Value(true, String(MangledText(s)), rest)
  {
    hide ParseString, Faithful;
    FaithfulShrinks(c);
    QuotedRead(w, s, rest);
  }

  // ------------------------------------------------- one step of each parser

  lemma ArrayStep(c: Codec, s: string, t: string, inner: string, items: seq<Json>, close: string, rest: string)
    requires Shrinks(c) && ParseScalar(c, s) == Value(false, Null, t) && t != "" && t[0] == '['
    requires Match("[", t) == Step(true, inner)
    requires ParseItems(c, inner, []) == Items(true, items, close)
    requires Match("]", close) == Step(true, rest)
    ensures ParseValue(c, s) == Value(true, Array(items), rest)
  {
  }

  lemma ItemStep(c: Codec, s: string, before: seq<Json>, v: Value, comma: Step)
    requires Shrinks(c) && ParseValue(c, s) == v && (v.ok ==> Match(",", v.rest) == comma)
    ensures ParseItems(c, s, before)
         == if !v.ok then Items(true, before, v.rest)
            else if comma.ok then ParseItems(c, comma.rest, before + [v.value])
            else Items(true, before + [v.value], comma.rest)
  {
  }

  lemma ObjectStep(c: Codec, s: string, t: string)
    requires Shrinks(c) && ParseScalar(c, s) == Value(false, Null, t) && t != "" && t[0] == '{'
    ensures ParseValue(c, s)
         == Value(ParseObject(c, t).ok, Object(ParseObject(c, t).members), ParseObject(c, t).rest)
  {
  }

  lemma OpenStep(c: Codec, s: string, inner: string, empty: Step, list: Members, rest: string)
    requires Shrinks(c) && Match("{", s) == Step(true, inner) && Match("}", inner) == empty
    requires empty.ok ==> list == Members(true, [], "") && rest == empty.rest
    requires !empty.ok ==> ParseMembers(c, empty.rest, []) == list && list.ok && Match("}", list.rest) == Step(true, rest)
    ensures ParseObject(c, s) == Members(true, list.members, rest)
  {
  }

  lemma MemberStep(c: Codec, s: string, before: seq<Member>, key: string, colon: string, text: string, v: Json,
                   more: string, comma: Step)
    requires Shrinks(c) && ParseString(s) == Text(true, key, colon) && Match(":", colon) == Step(true, text)
    requires ParseValue(c, text) == Value(true, v, more) && Match(",", more) == comma
    ensures ParseMembers(c, s, before)
         == if comma.ok then ParseMembers(c, comma.rest, Insert(before, key, v))
            else Members(true, Insert(before, key, v), comma.rest)
  {
  }

  // --------------------------------------------------------------------- trees

  /** A printed value after any white space is read back mangled, and reading
      stops where its text stops. */
  lemma {:induction false} ValueParses(c: Codec, w: string, depth: nat, v: Json, rest: string)
    requires Faithful(c) && Keyed(v) && Spaces(w) && Follows(rest)
    ensures Shrinks(c) && ParseValue(c, w + (ValueText(c, depth, v) + rest)) == Value(true, Mangled(v), rest)
    decreases v, 2
  {
    FaithfulShrinks(c);
    match v
    case Null =>
      WordParses(c, w, v, rest);
      hide ParseScalar, Faithful;
    case Bool(b) =>
      WordParses(c, w, v, rest);
      hide ParseScalar, Faithful;
    case Number(n) =>
      NumberParses(c, w, n, rest);
      hide ParseScalar, Faithful;
    case String(s) =>
      StringParses(c, w, s, rest);
      hide ParseScalar, Faithful;
    case Array(items) =>
      ArrayParses(c, w, depth, items, rest);
    case Object(members) =>
      ObjectParses(c, w, depth, members, rest);
      hide ParseScalar, Faithful;
  }

  lemma {:induction false} ArrayParses(c: Codec, w: string, depth: nat, items: seq<Json>, rest: string)
    requires Faithful(c) && Keyed(Array(items)) && Spaces(w)
    ensures Shrinks(c)
    ensures ParseValue(c, w + (ValueText(c, depth, Array(items)) + rest)) == Value(true, Array(MangledItems(items)), rest)
    decreases items, 3
  {
    hide Faithful, ParseScalar, ParseValue, ParseItems, Match, Keyed;
    FaithfulShrinks(c);
    var close := "]" + rest;
    var lines := ItemLines(c, depth + 1, items) + (Tabs(depth) + close);
    var inner := "\n" + lines;
    var t := "[" + inner;
    assert ValueText(c, depth, Array(items)) + rest == t;
    ScalarFails(c, w, t);
    Matches("[", "", inner);
    Matches("]", "", rest);
    assert "" + t == t && "" + close == close;
    if items == [] {
      assert inner == ("\n" + Tabs(depth)) + close;
      NoValue(c, "\n" + Tabs(depth), close);
      ItemStep(c, inner, [], ParseValue(c, inner), Step(false, ""));
    } else {
      ItemsParse(c, "\n", depth + 1, items, Tabs(depth), close, []);
      assert [] + MangledItems(items) == MangledItems(items);
    }
    ArrayStep(c, w + t, t, inner, MangledItems(items), close, rest);
  }

  lemma NoValue(c: Codec, w: string, t: string)
    requires Faithful(c) && Spaces(w) && t != "" && t[0] == ']'
    ensures Shrinks(c) && !ParseValue(c, w + t).ok && ParseValue(c, w + t).rest == t
  {
    hide Faithful, ParseScalar;
    FaithfulShrinks(c);
    ScalarFails(c, w, t);
    assert "" + t == t;
    MatchesNot("{", "", t);
  }

  lemma {:induction false} ItemsParse(c: Codec, w: string, depth: nat, items: seq<Json>, u: string, close: string,
                                      before: seq<Json>)
    requires Faithful(c) && items != [] && Keyed(Array(items)) && Spaces(w) && Spaces(u) && close != "" && close[0] == ']'
    ensures Shrinks(c)
    ensures ParseItems(c, w + (ItemLines(c, depth, items) + (u + close)), before)
         == Items(true, before + MangledItems(items), close)
    decreases items, 1
  {
    hide Faithful, ParseValue, ParseItems, ValueText, Match, Mangled;
    FaithfulShrinks(c);
    var v, all := items[0], w + (ItemLines(c, depth, items) + (u + close));
    if |items| == 1 {
      var more := (" \n" + u) + close;
      assert all == (w + Tabs(depth)) + (ValueText(c, depth, v) + more);
      ValueParses(c, w + Tabs(depth), depth, v, more);
      MatchesNot(",", " \n" + u, close);
      ItemStep(c, all, before, Value(true, Mangled(v), more), Step(false, close));
      assert MangledItems(items) == [Mangled(v)];
    } else {
      var tail := "\n" + (ItemLines(c, depth, items[1..]) + (u + close));
      var more := "," + tail;
      assert all == (w + Tabs(depth)) + (ValueText(c, depth, v) + more);
      ValueParses(c, w + Tabs(depth), depth, v, more);
      assert "" + more == more;
      Matches(",", "", tail);
      ItemStep(c, all, before, Value(true, Mangled(v), more), Step(true, tail));
      ItemsParse(c, "\n", depth, items[1..], u, close, before + [Mangled(v)]);
      assert before + [Mangled(v)] + MangledItems(items[1..]) == before + MangledItems(items);
    }
  }

  lemma {:induction false} ObjectParses(c: Codec, w: string, depth: nat, members: seq<Member>, rest: string)
    requires Faithful(c) && Keyed(Object(members)) && Spaces(w)
    ensures Shrinks(c)
    ensures ParseValue(c, w + (ValueText(c, depth, Object(members)) + rest))
         == Value(true, Object(MangledMembers(members, [])), rest)
    ensures ParseObject(c, ValueText(c, depth, Object(members)) + rest) == Members(true, MangledMembers(members, []), rest)
    decreases members, 3
  {
    hide Faithful, ParseScalar, ParseValue, ParseObject, ParseMembers, Match, Keyed, MembersFrom;
    FaithfulShrinks(c);
    var close := "}" + rest;
    var lines := MemberLines(c, depth + 1, members) + (Tabs(depth) + close);
    var inner := "\n" + lines;
    var t := "{" + inner;
    assert ValueText(c, depth, Object(members)) + rest == t;
    ScalarFails(c, w, t);
    Matches("{", "", inner);
    assert "" + t == t;
    ObjectStep(c, w + t, t);
    if members == [] {
      assert inner == ("\n" + Tabs(depth)) + close;
      Matches("}", "\n" + Tabs(depth), rest);
      OpenStep(c, t, inner, Step(true, rest), Members(true, [], ""), rest);
    } else {
      var first := MembersFrom(c, depth + 1, members) + (Tabs(depth) + close);
      StartsWithQuote(c, depth + 1, members);
      assert inner == ("\n" + Tabs(depth + 1)) + first;
      MatchesNot("}", "\n" + Tabs(depth + 1), first);
      MembersParse(c, "", depth + 1, members, Tabs(depth), close, []);
      assert "" + first == first && "" + close == close;
      Matches("}", "", rest);
      OpenStep(c, t, inner, Step(false, first), Members(true, MangledMembers(members, []), close), rest);
    }
  }

  lemma StartsWithQuote(c: Codec, depth: nat, members: seq<Member>)
    requires members != [] && Keyed(Object(members))
    ensures MembersFrom(c, depth, members) != "" && MembersFrom(c, depth, members)[0] == '"'
  {
    assert KeyText(members[0].key)[0] == '"';
  }

  lemma {:induction false} MembersParse(c: Codec, w: string, depth: nat, members: seq<Member>, u: string, close: string,
                                        before: seq<Member>)
    requires Faithful(c) && members != [] && Keyed(Object(members)) && Spaces(w)
    requires Spaces(u) && close != "" && close[0] == '}'
    ensures Shrinks(c)
    ensures ParseMembers(c, w + (MembersFrom(c, depth, members) + (u + close)), before)
         == Members(true, MangledMembers(members, before), close)
    decreases members, 2
  {
    hide Faithful, ParseValue, ParseMembers, ValueText, Match, Mangled, ParseString, Insert, Escaped, MangledText;
    FaithfulShrinks(c);
    var key, v := members[0].key, members[0].value;
    var now := Insert(before, MangledText(key), Mangled(v));
    var all := w + (MembersFrom(c, depth, members) + (u + close));
    if |members| == 1 {
      var more := (" \n" + u) + close;
      MatchesNot(",", " \n" + u, close);
      assert all == w + (KeyText(key) + ValueText(c, depth, v) + more);
      OneMember(c, w, depth, key, v, more, before, Step(false, close), all);
      assert MangledMembers(members[1..], now) == now;
    } else {
      var tail := ("\n" + Tabs(depth)) + (MembersFrom(c, depth, members[1..]) + (u + close));
      Matches(",", "", tail);
      assert "" + ("," + tail) == "," + tail;
      MoreMembers(c, depth, members, u + close);
      OneMember(c, w, depth, key, v, "," + tail, before, Step(true, tail), all);
      MembersParse(c, "\n" + Tabs(depth), depth, members[1..], u, close, now);
    }
  }

  lemma MoreMembers(c: Codec, depth: nat, members: seq<Member>, end: string)
    requires |members| > 1
    ensures MembersFrom(c, depth, members) + end
         == KeyText(members[0].key) + ValueText(c, depth, members[0].value)
            + ("," + (("\n" + Tabs(depth)) + (MembersFrom(c, depth, members[1..]) + end)))
  {
    hide KeyText, ValueText, Tabs;
    var head := KeyText(members[0].key) + ValueText(c, depth, members[0].value);
    var next := MembersFrom(c, depth, members[1..]);
    assert MemberLines(c, depth, members[1..]) == Tabs(depth) + next;
    assert MembersFrom(c, depth, members) == head + (",\n" + (Tabs(depth) + next));
    hide MembersFrom, MemberLines;
    assert head + (",\n" + (Tabs(depth) + next)) + end == head + ("," + (("\n" + Tabs(depth)) + (next + end)));
  }

  lemma QuotedKey(key: string, text: string)
    requires key != ""
    ensures KeyText(key) + text == "\"" + Escaped(key) + "\"" + (":" + (" " + text))
  {
    hide Escaped;
  }

  lemma {:induction false} OneMember(c: Codec, w: string, depth: nat, key: string, v: Json, more: string,
                                     before: seq<Member>, comma: Step, all: string)
    requires Faithful(c) && key != "" && Keyed(v) && Spaces(w) && Follows(more) && Match(",", more) == comma
    requires all == w + (KeyText(key) + ValueText(c, depth, v) + more)
    ensures Shrinks(c)
    ensures
      var now := Insert(before, MangledText(key), Mangled(v));
      ParseMembers(c, all, before)
      == if comma.ok then ParseMembers(c, comma.rest, now) else Members(true, now, comma.rest)
    decreases v, 3
  {
    hide Faithful, ParseValue, ParseMembers, ValueText, Match, Mangled, ParseString, Insert, Escaped, MangledText, Follows;
    FaithfulShrinks(c);
    var text := " " + (ValueText(c, depth, v) + more);
    var colon := ":" + text;
    QuotedKey(key, ValueText(c, depth, v) + more);
    hide KeyText;
    assert KeyText(key) + ValueText(c, depth, v) + more == KeyText(key) + (ValueText(c, depth, v) + more);
    QuotedRead(w, key, colon);
    Matches(":", "", text);
    assert "" + colon == colon;
    ValueParses(c, " ", depth, v, more);
    MemberStep(c, all, before, MangledText(key), colon, text, Mangled(v), more, comma);
  }
}
