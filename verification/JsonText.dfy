// jsonxx values and their printed form.
module JsonText {

  // One number stands for each value of the C++ number type; a codec knows its text.
  type Num = int

  datatype Json =
    | Null
    | Bool(b: bool)
    | Number(n: Num)
    | String(s: string)
    | Array(items: seq<Json>)
    | Object(members: seq<Member>)

  datatype Member = Member(key: string, value: Json)

  datatype Scan = Scan(ok: bool, n: Num, rest: string)

  /** How numbers are printed and read from a stream. */
  datatype Codec = Codec(print_: Num -> string, scan: string -> Scan)

  // ------------------------------------------------------------------ strings

  function HexDigit(d: nat): char
    requires d < 16
  {
    if d < 10 then '0' + d as char else 'a' + (d - 10) as char
  }

  /** The table of escape_string. */
  function Escape(c: char): (e: string)
    ensures |e| > 0
  {
    if c == '"' then "\\\""
    else if c == '\\' then "\\\\"
    else if c == '/' then "\\/"
    else if c as int == 8 then "\\b"
    else if c as int == 12 then "\\f"
    else if c == '\n' then "\\n"
    else if c == '\r' then "\\r"
    else if c == '\t' then "\\t"
    else if c as int < 32 then "\\u00" + [HexDigit(c as int / 16), HexDigit(c as int % 16)]
    else [c]
  }

  function Escaped(s: string): string {
    if s == "" then "" else Escape(s[0]) + Escaped(s[1..])
  }

  // ------------------------------------------------------------------ printing

  function Tabs(depth: nat): (s: string)
    ensures |s| == depth && forall i :: 0 <= i < |s| ==> s[i] == '\t'
  {
    seq(depth, _ => '\t')
  }

  /** A comma just before the last character becomes a space. */
  function RemoveLastComma(s: string): (r: string)
    ensures |r| == |s|
  {
    if |s| > 2 && s[|s| - 2] == ',' then s[|s| - 2 := ' '] else s
  }

  function KeyText(name: string): string {
    if name != "" then "\"" + Escaped(name) + "\": " else ""
  }

  /** json::tag. */
  function Tag(c: Codec, depth: nat, name: string, v: Json): string
    decreases v
  {
    var head := Tabs(depth) + KeyText(name);
    match v
    case Null => head + "null" + ",\n"
    case Bool(b) => head + (if b then "true" else "false") + ",\n"
    case Number(n) => head + c.print_(n) + ",\n"
    case String(s) => head + "\"" + Escaped(s) + "\"" + ",\n"
    case Array(items) => RemoveLastComma(head + "[\n" + TagItems(c, depth + 1, items)) + Tabs(depth) + "]" + ",\n"
    case Object(members) => RemoveLastComma(head + "{\n" + TagMembers(c, depth + 1, members)) + Tabs(depth) + "}" + ",\n"
  }

  function TagItems(c: Codec, depth: nat, items: seq<Json>): string
    decreases items
  {
    if items == [] then "" else Tag(c, depth, "", items[0]) + TagItems(c, depth, items[1..])
  }

  function TagMembers(c: Codec, depth: nat, members: seq<Member>): string
    decreases members
  {
    if members == [] then ""
    else Tag(c, depth, members[0].key, members[0].value) + TagMembers(c, depth, members[1..])
  }

  /** Object::json. */
  function PrintObject(c: Codec, members: seq<Member>): string {
    RemoveLastComma(Tag(c, 0, "", Object(members)))
  }
}
