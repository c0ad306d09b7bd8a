// The printer as it runs: text is appended to a local buffer.
module JsonWriter {
  import opened JsonText

  method EscapeString(input: string) returns (output: string)
    ensures output == Escaped(input)
  {
    output := "";
    for i := 0 to |input|
      invariant output + Escaped(input[i..]) == Escaped(input)
    {
      assert input[i..][1..] == input[i + 1..];
      output := output + Escape(input[i]);
    }
    assert input[|input|..] == "" && output + "" == output;
  }

  method WriteTag(c: Codec, depth: nat, name: string, v: Json) returns (r: string)
    ensures r == Tag(c, depth, name, v)
    decreases v
  {
    hide Escaped, RemoveLastComma, Tabs;
    var ss := Tabs(depth);
    if name != "" {
      var key := EscapeString(name);
      ss := ss + ("\"" + key + "\": ");
    }
    assert ss == Tabs(depth) + KeyText(name);
    match v {
      case Null =>
        r := ss + "null" + ",\n";
      case Bool(b) =>
        r := ss + (if b then "true" else "false") + ",\n";
      case Number(n) =>
        r := ss + c.print_(n) + ",\n";
      case String(s) =>
        var text := EscapeString(s);
        r := ss + "\"" + text + "\"" + ",\n";
      case Array(items) =>
        var lines := WriteItems(c, depth + 1, items);
        r := RemoveLastComma(ss + "[\n" + lines) + Tabs(depth) + "]" + ",\n";
      case Object(members) =>
        var lines := WriteMembers(c, depth + 1, members);
        r := RemoveLastComma(ss + "{\n" + lines) + Tabs(depth) + "}" + ",\n";
    }
  }

  method WriteItems(c: Codec, depth: nat, items: seq<Json>) returns (ss: string)
    ensures ss == TagItems(c, depth, items)
    decreases items
  {
    hide Tag;
    ss := "";
    for i := 0 to |items|
      invariant ss + TagItems(c, depth, items[i..]) == TagItems(c, depth, items)
    {
      var item := WriteTag(c, depth, "", items[i]);
      assert items[i..][1..] == items[i + 1..];
      ss := ss + item;
    }
    assert items[|items|..] == [] && ss + "" == ss;
  }

  method WriteMembers(c: Codec, depth: nat, members: seq<Member>) returns (ss: string)
    ensures ss == TagMembers(c, depth, members)
    decreases members
  {
    hide Tag;
    ss := "";
    for i := 0 to |members|
      invariant ss + TagMembers(c, depth, members[i..]) == TagMembers(c, depth, members)
    {
      var line := WriteTag(c, depth, members[i].key, members[i].value);
      assert members[i..][1..] == members[i + 1..];
      ss := ss + line;
    }
    assert members[|members|..] == [] && ss + "" == ss;
  }
}
