// The jsonxx parser, in its permissive setting, as functions from the characters
// still in the stream to a result and the characters left. Where the stream ends
// nothing more matches.
module JsonParse {
  import opened JsonText

  predicate IsSpace(c: char) {
    9 <= c as int <= 13 || c == ' '
  }

  function SkipSpaces(s: string): (r: string)
    ensures |r| <= |s| && (r != "" ==> !IsSpace(r[0]))
  {
    if s != "" && IsSpace(s[0]) then SkipSpaces(s[1..]) else s
  }

  function SkipLine(s: string): (r: string)
    ensures |r| <= |s|
  {
    if s != "" && s[0] != '\r' && s[0] != '\n' then SkipLine(s[1..]) else s
  }

  datatype Step = Step(ok: bool, rest: string)

  /** The loop of match: a line comment may stand before any character of the
      pattern, and a failed match puts back what it had taken of the pattern. */
  function MatchFrom(pattern: string, cur: nat, s: string): (r: Step)
    requires cur <= |pattern|
    ensures r.ok ==> |r.rest| + |pattern| - cur <= |s|
    ensures !r.ok ==> |r.rest| <= |s| + cur
    decreases |s|
  {
    if cur == |pattern| then Step(true, s)
    else if s == "" then Step(false, pattern[..cur])
    else if s[0] == pattern[cur] then MatchFrom(pattern, cur + 1, s[1..])
    else if |s| >= 2 && s[0] == '/' && s[1] == '/' then MatchFrom(pattern, cur, SkipSpaces(SkipLine(s[2..])))
    else Step(false, pattern[..cur] + s)
  }

  function Match(pattern: string, s: string): (r: Step)
    ensures r.ok ==> |r.rest| + |pattern| <= |s|
    ensures |r.rest| <= |s|
  {
    MatchFrom(pattern, 0, SkipSpaces(s))
  }

  // ------------------------------------------------------------------ strings

  datatype Option<T> = None | Some(value: T)

  predicate IsDigit(c: char) { '0' <= c <= '9' }

  function LeadingNumber(s: string, before: nat): nat {
    if s != "" && IsDigit(s[0]) then LeadingNumber(s[1..], before * 10 + (s[0] as int - '0' as int))
    else before
  }

  /** `ss >> i`: a decimal number, whatever was meant. */
  function ReadInt(s: string): Option<int> {
    var t := SkipSpaces(s);
    var signed := t != "" && (t[0] == '-' || t[0] == '+');
    var digits := if signed then t[1..] else t;
    if digits == "" || !IsDigit(digits[0]) then None
    else
      var n: int := LeadingNumber(digits, 0);
      Some(if signed && t[0] == '-' then -n else n)
  }

  /** What a backslash, the next character and, after u, four more add. */
  function Unescape(delimiter: char, e: char, four: string): string {
    match e
    case '\\' => "\\"
    case '/' => "/"
    case 'b' => [8 as char]
    case 'f' => [12 as char]
    case 'n' => "\n"
    case 'r' => "\r"
    case 't' => "\t"
    case 'u' => (match ReadInt(four) case None => "" case Some(i) => [(i % 256) as char])
    case _ => if e != delimiter then ['\\', e] else [e]
  }

  datatype Text = Text(ok: bool, value: string, rest: string)

  function StringBody(delimiter: char, s: string, before: string): (r: Text)
    ensures |r.rest| <= |s|
    decreases |s|
  {
    if s == "" then Text(false, before, "")
    else if s[0] == delimiter then Text(true, before, s[1..])
    else if s[0] != '\\' then StringBody(delimiter, s[1..], before + [s[0]])
    else if |s| == 1 then Text(false, before, "")
    else if s[1] != 'u' then StringBody(delimiter, s[2..], before + Unescape(delimiter, s[1], ""))
    else if |s| < 6 then Text(false, before, "")
    else StringBody(delimiter, s[6..], before + Unescape(delimiter, 'u', s[2..6]))
  }

  function ParseString(s: string): (r: Text)
    ensures |r.rest| <= |s| && (r.ok ==> |r.rest| < |s|)
  {
    var m := Match("\"", s);
    if m.ok then StringBody('"', m.rest, "")
    else if m.rest == "" || m.rest[0] != '\'' then Text(false, "", m.rest)
    else StringBody('\'', m.rest[1..], "")
  }

  // ------------------------------------------------------------------ objects

  /** The order of std::string: byte by byte. */
  predicate Less(a: string, b: string) {
    b != "" && (a == "" || a[0] < b[0] || (a[0] == b[0] && Less(a[1..], b[1..])))
  }

  /** A std::map as the list of its entries in order; `[key] = v`. */
  function Insert(ms: seq<Member>, key: string, v: Json): seq<Member> {
    if ms == [] || Less(key, ms[0].key) then [Member(key, v)] + ms
    else if key == ms[0].key then [Member(key, v)] + ms[1..]
    else [ms[0]] + Insert(ms[1..], key, v)
  }

  // ------------------------------------------------------------------- values

  ghost predicate Shrinks(c: Codec) {
    forall s :: |c.scan(s).rest| <= |s|
  }

  datatype Value = Value(ok: bool, value: Json, rest: string)
  datatype Items = Items(ok: bool, items: seq<Json>, rest: string)
  datatype Members = Members(ok: bool, members: seq<Member>, rest: string)

  function ParseBool(s: string): (r: Value)
    ensures |r.rest| <= |s|
  {
    var t := Match("true", s);
    if t.ok then Value(true, Bool(true), t.rest)
    else
      var f := Match("false", t.rest);
      Value(f.ok, Bool(false), f.rest)
  }

  /** A missing value before a comma counts as null. */
  function ParseNull(s: string): (r: Value)
    ensures |r.rest| <= |s|
  {
    var m := Match("null", s);
    Value(m.ok || (m.rest != "" && m.rest[0] == ','), Null, m.rest)
  }

  /** Each alternative starts where the one before gave up. */
  function ParseScalar(c: Codec, s: string): (r: Value)
    requires Shrinks(c)
    ensures |r.rest| <= |s|
  {
    var str := ParseString(s);
    if str.ok then Value(true, String(str.value), str.rest)
    else
      var num := c.scan(SkipSpaces(str.rest));
      if num.ok then Value(true, Number(num.n), num.rest)
      else
        var bool_ := ParseBool(num.rest);
        if bool_.ok then bool_ else ParseNull(bool_.rest)
  }

  function ParseValue(c: Codec, s: string): (r: Value)
    requires Shrinks(c)
    ensures |r.rest| <= |s|
    decreases |s|, 2
  {
    var scalar := ParseScalar(c, s);
    if scalar.ok then scalar
    else if scalar.rest != "" && scalar.rest[0] == '[' then
      var a := ParseArray(c, scalar.rest);
      if a.ok then Value(true, Array(a.items), a.rest)
      else
        var o := ParseObject(c, a.rest);
        Value(o.ok, Object(o.members), o.rest)
    else
      var o := ParseObject(c, scalar.rest);
      Value(o.ok, Object(o.members), o.rest)
  }

  function ParseArray(c: Codec, s: string): (r: Items)
    requires Shrinks(c)
    ensures |r.rest| <= |s|
    decreases |s|, 1
  {
    var open := Match("[", s);
    if !open.ok then Items(false, [], open.rest)
    else
      var list := ParseItems(c, open.rest, []);
      var close := Match("]", list.rest);
      Items(close.ok, list.items, close.rest)
  }

  /** The items up to one that cannot be read or is not followed by a comma. */
  function ParseItems(c: Codec, s: string, before: seq<Json>): (r: Items)
    requires Shrinks(c)
    ensures |r.rest| <= |s|
    decreases |s|, 3
  {
    var v := ParseValue(c, s);
    if !v.ok then Items(true, before, v.rest)
    else
      var comma := Match(",", v.rest);
      if !comma.ok then Items(true, before + [v.value], comma.rest)
      else ParseItems(c, comma.rest, before + [v.value])
  }

  function ParseObject(c: Codec, s: string): (r: Members)
    requires Shrinks(c)
    ensures |r.rest| <= |s|
    decreases |s|, 1
  {
    var open := Match("{", s);
    if !open.ok then Members(false, [], open.rest)
    else
      var empty := Match("}", open.rest);
      if empty.ok then Members(true, [], empty.rest)
      else
        var list := ParseMembers(c, empty.rest, []);
        if !list.ok then list
        else
          var close := Match("}", list.rest);
          Members(close.ok, list.members, close.rest)
  }

  /** A missing key fails unless the object ends there; a missing value ends the
      list. */
  function ParseMembers(c: Codec, s: string, before: seq<Member>): (r: Members)
    requires Shrinks(c)
    ensures |r.rest| <= |s|
    decreases |s|, 3
  {
    var key := ParseString(s);
    if !key.ok then Members(key.rest != "" && key.rest[0] == '}', before, key.rest)
    else
      var colon := Match(":", key.rest);
      if !colon.ok then Members(false, before, colon.rest)
      else
        var v := ParseValue(c, colon.rest);
        if !v.ok then Members(true, before, v.rest)
        else
          var now := Insert(before, key.value, v.value);
          var comma := Match(",", v.rest);
          if !comma.ok then Members(true, now, comma.rest)
          else ParseMembers(c, comma.rest, now)
  }
}
