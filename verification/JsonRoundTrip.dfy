// Reading back what was printed.
module JsonRoundTrip {
  import opened JsonText
  import opened JsonParse

  // ------------------------------------------------------------ what is assumed

  predicate StartsNumber(c: char) {
    IsDigit(c) || c == '-' || c == '+' || c == '.'
  }

  /** What comes after a value in printed text. */
  predicate Follows(rest: string) {
    rest != "" && (rest[0] == ',' || rest[0] == ' ')
  }

  /** A number codec that reads back what it prints, and leaves alone what cannot
      start a number. */
  ghost predicate Faithful(c: Codec) {
    && Shrinks(c)
    && (forall s :: s == "" || !StartsNumber(s[0]) ==> !c.scan(s).ok && c.scan(s).rest == s)
    && (forall n :: c.print_(n) != "" && StartsNumber(c.print_(n)[0]))
    && (forall n, rest :: Follows(rest) ==> c.scan(c.print_(n) + rest) == Scan(true, n, rest))
  }

  // ------------------------------------------------------------------ mangling

  /** Control characters are written as four hexadecimal digits and read as a
      decimal number. */
  function MangledChar(c: char): char {
    var i := c as int;
    if 32 <= i || i == 8 || i == 9 || i == 10 || i == 12 || i == 13 then c
    else if i % 16 < 10 then (i / 16 * 10 + i % 16) as char
    else (i / 16) as char
  }

  function MangledText(s: string): (r: string)
    ensures |r| == |s| && forall i :: 0 <= i < |s| ==> r[i] == MangledChar(s[i])
  {
    if s == "" then "" else [MangledChar(s[0])] + MangledText(s[1..])
  }

  function Mangled(v: Json): Json
    decreases v
  {
    match v
    case String(s) => String(MangledText(s))
    case Array(items) => Array(MangledItems(items))
    case Object(members) => Object(MangledMembers(members, []))
    case _ => v
  }

  function MangledItems(items: seq<Json>): (r: seq<Json>)
    ensures |r| == |items| && forall i :: 0 <= i < |items| ==> r[i] == Mangled(items[i])
    decreases items
  {
    if items == [] then [] else [Mangled(items[0])] + MangledItems(items[1..])
  }

  /** Members go into the map one after the other, under their mangled keys. */
  function MangledMembers(members: seq<Member>, before: seq<Member>): seq<Member>
    decreases members
  {
    if members == [] then before
    else MangledMembers(members[1..], Insert(before, MangledText(members[0].key), Mangled(members[0].value)))
  }

  /** No object in it has an empty key. */
  predicate Keyed(v: Json)
    decreases v
  {
    match v
    case Array(items) => forall i :: 0 <= i < |items| ==> Keyed(items[i])
    case Object(members) => forall i :: 0 <= i < |members| ==> members[i].key != "" && Keyed(members[i].value)
    case _ => true
  }

  // ---------------------------------------------------------------- whitespace

  predicate Spaces(w: string) {
    forall i :: 0 <= i < |w| ==> IsSpace(w[i])
  }

  lemma {:induction false} Skips(w: string, t: string)
    requires Spaces(w) && (t == "" || !IsSpace(t[0]))
    ensures SkipSpaces(w + t) == t
    decreases |w|
  {
    if w != "" {
      assert (w + t)[1..] == w[1..] + t;
      Skips(w[1..], t);
    } else {
      assert w + t == t;
    }
  }

  lemma {:induction false} PatternMatches(pattern: string, cur: nat, rest: string)
    requires cur <= |pattern|
    ensures MatchFrom(pattern, cur, pattern[cur..] + rest) == Step(true, rest)
    decreases |pattern| - cur
  {
    if cur < |pattern| {
      assert (pattern[cur..] + rest)[1..] == pattern[cur + 1..] + rest;
      PatternMatches(pattern, cur + 1, rest);
    } else {
      assert pattern[cur..] + rest == rest;
    }
  }

  lemma Matches(pattern: string, w: string, rest: string)
    requires pattern != "" && !IsSpace(pattern[0]) && Spaces(w)
    ensures Match(pattern, w + (pattern + rest)) == Step(true, rest)
  {
    Skips(w, pattern + rest);
    PatternMatches(pattern, 0, rest);
    assert pattern[0..] + rest == pattern + rest;
  }

  lemma MatchesNot(pattern: string, w: string, t: string)
    requires pattern != "" && Spaces(w)
    requires t != "" && !IsSpace(t[0]) && t[0] != '/' && t[0] != pattern[0]
    ensures Match(pattern, w + t) == Step(false, t)
  {
    Skips(w, t);
    assert pattern[..0] + t == t;
  }

  // ------------------------------------------------------------------- strings

  predicate Plain(c: char) {
    32 <= c as int && c != '"' && c != '\\' && c != '/'
  }

  predicate Hexed(c: char) {
    var i := c as int;
    i < 32 && i != 8 && i != 9 && i != 10 && i != 12 && i != 13
  }

  lemma HexRead(c: char)
    requires Hexed(c)
    ensures Escape(c) == "\\u" + ['0', '0', HexDigit(c as int / 16), HexDigit(c as int % 16)]
    ensures Unescape('"', 'u', ['0', '0', HexDigit(c as int / 16), HexDigit(c as int % 16)]) == [MangledChar(c)]
  {
    var x, y := HexDigit(c as int / 16), HexDigit(c as int % 16);
    var s := ['0', '0', x, y];
    assert !IsSpace('0') && SkipSpaces(s) == s;
    assert s[1..] == ['0', x, y] && s[1..][1..] == [x, y] && [x, y][1..] == [y] && [y][1..] == [];
    assert LeadingNumber(s, 0) == LeadingNumber(['0', x, y], 0) == LeadingNumber([x, y], 0);
    var hi := c as int / 16;
    assert IsDigit(x) && LeadingNumber([x, y], 0) == LeadingNumber([y], hi);
    if c as int % 16 < 10 {
      assert LeadingNumber([y], hi) == hi * 10 + c as int % 16;
    } else {
      assert !IsDigit(y) && LeadingNumber([y], hi) == hi;
    }
  }

  /** One character printed and read. */
  lemma CharRead(c: char, more: string, before: string)
    ensures StringBody('"', Escape(c) + more, before) == StringBody('"', more, before + [MangledChar(c)])
  {
    hide MatchFrom, ReadInt;
    var s := Escape(c) + more;
    if Hexed(c) {
      HexRead(c);
      hide MangledChar, HexDigit, Unescape;
      var four := ['0', '0', HexDigit(c as int / 16), HexDigit(c as int % 16)];
      assert s == ['\\', 'u'] + four + more;
      assert s[2..6] == four && s[6..] == more;
    } else if Plain(c) {
      assert s[1..] == more;
    } else {
      assert |Escape(c)| == 2 && s[2..] == more;
    }
  }

  lemma {:induction false} StringRead(s: string, rest: string, before: string)
    ensures StringBody('"', Escaped(s) + "\"" + rest, before) == Text(true, before + MangledText(s), rest)
    decreases |s|
  {
    if s == "" {
      assert Escaped(s) + "\"" + rest == "\"" + rest && ("\"" + rest)[1..] == rest;
      assert before + "" == before;
    } else {
      var more := Escaped(s[1..]) + "\"" + rest;
      assert Escaped(s) + "\"" + rest == Escape(s[0]) + more;
      CharRead(s[0], more, before);
      StringRead(s[1..], rest, before + [MangledChar(s[0])]);
      assert before + [MangledChar(s[0])] + MangledText(s[1..]) == before + MangledText(s);
    }
  }

  lemma QuotedRead(w: string, s: string, rest: string)
    requires Spaces(w)
    ensures ParseString(w + ("\"" + Escaped(s) + "\"" + rest)) == Text(true, MangledText(s), rest)
  {
    var body := Escaped(s) + "\"" + rest;
    Matches("\"", w, body);
    assert "\"" + Escaped(s) + "\"" + rest == "\"" + body;
    StringRead(s, rest, "");
    assert "" + MangledText(s) == MangledText(s);
  }

  predicate GoodChar(c: char) {
    var i := c as int;
    32 <= i || i < 8 || i == 8 || i == 9 || i == 10 || i == 12 || i == 13
  }

  predicate GoodText(s: string) {
    forall i :: 0 <= i < |s| ==> GoodChar(s[i])
  }

  /** A string survives exactly when all its characters are printable, one of the
      five named escapes, or below 8. */
  lemma TextSurvives(s: string)
    ensures MangledText(s) == s <==> GoodText(s)
  {
    assert MangledText(s) == s <==> forall i :: 0 <= i < |s| ==> MangledText(s)[i] == s[i];
    forall c: char ensures MangledChar(c) == c <==> GoodChar(c) {
      CharSurvives(c);
    }
  }

  lemma CharSurvives(c: char)
    ensures MangledChar(c) == c <==> GoodChar(c)
    ensures MangledChar(c) != c ==> MangledChar(c) < c
  {
  }
}
