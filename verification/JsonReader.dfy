// The parser as it runs: one stream that every step advances.
module JsonReader {
  import opened JsonText
  import opened JsonParse

  class Reader {
    const codec: Codec
    var input: string

    constructor (codec: Codec, input: string)
      ensures this.codec == codec && this.input == input
    {
      this.codec, this.input := codec, input;
    }

    method TryMatch(pattern: string) returns (ok: bool)
      modifies this
      ensures Step(ok, input) == Match(pattern, old(input))
    {
      input := SkipSpaces(input);
      var cur := 0;
      while input != "" && cur < |pattern|
        invariant cur <= |pattern| && MatchFrom(pattern, cur, input) == Match(pattern, old(input))
        decreases |input|
      {
        if input[0] != pattern[cur] {
          if |input| >= 2 && input[0] == '/' && input[1] == '/' {
            input := SkipSpaces(SkipLine(input[2..]));
            continue;
          }
          break;
        }
        cur := cur + 1;
        input := input[1..];
      }
      ok := cur == |pattern|;
      if !ok {
        assert pattern[..cur] + "" == pattern[..cur];
        input := pattern[..cur] + input;
      }
    }

    method ReadString() returns (ok: bool, value: string)
      modifies this
      ensures Text(ok, value, input) == ParseString(old(input))
    {
      hide Match, Unescape;
      value := "";
      var delimiter := '"';
      ok := TryMatch("\"");
      if !ok {
        delimiter := '\'';
        if input == "" || input[0] != delimiter {
          return;
        }
        input := input[1..];
      }
      ok := false;
      while input != ""
        invariant !ok && StringBody(delimiter, input, value) == ParseString(old(input))
        decreases |input|
      {
        var ch := input[0];
        if ch == delimiter {
          input := input[1..];
          ok := true;
          return;
        }
        if ch == '\\' {
          if |input| == 1 || (input[1] == 'u' && |input| < 6) {
            input := "";
            return;
          }
          if input[1] == 'u' {
            value := value + Unescape(delimiter, 'u', input[2..6]);
            input := input[6..];
          } else {
            value := value + Unescape(delimiter, input[1], "");
            input := input[2..];
          }
        } else {
          value := value + [ch];
          input := input[1..];
        }
      }
    }

    method ReadScalar() returns (ok: bool, v: Json)
      requires Shrinks(codec)
      modifies this
      ensures Value(ok, v, input) == ParseScalar(codec, old(input))
    {
      hide Match, StringBody, SkipSpaces;
      var text;
      ok, text := ReadString();
      if ok {
        return true, String(text);
      }
      var num := codec.scan(SkipSpaces(input));
      input := num.rest;
      if num.ok {
        return true, Number(num.n);
      }
      ok := TryMatch("true");
      if ok {
        return true, Bool(true);
      }
      ok := TryMatch("false");
      if ok {
        return true, Bool(false);
      }
      v := Null;
      ok := TryMatch("null");
      if !ok {
        ok := input != "" && input[0] == ',';
      }
    }

    method ReadValue() returns (ok: bool, v: Json)
      requires Shrinks(codec)
      modifies this
      ensures Value(ok, v, input) == ParseValue(codec, old(input))
      decreases |input|, 2
    {
      hide ParseScalar, ParseArray, ParseObject;
      ok, v := ReadScalar();
      if ok {
        return;
      }
      if input != "" && input[0] == '[' {
        var items;
        ok, items := ReadArray();
        if ok {
          return true, Array(items);
        }
      }
      var members;
      ok, members := ReadObject();
      v := Object(members);
    }

    method ReadArray() returns (ok: bool, items: seq<Json>)
      requires Shrinks(codec)
      modifies this
      ensures Items(ok, items, input) == ParseArray(codec, old(input))
      decreases |input|, 1
    {
      hide Match, ParseValue;
      items := [];
      ok := TryMatch("[");
      if !ok {
        return;
      }
      ghost var list := ParseItems(codec, input, []);
      var more := true;
      while more
        invariant |input| < |old(input)|
        invariant list == if more then ParseItems(codec, input, items) else Items(true, items, input)
        decreases |input|, more
      {
        var good, v := ReadValue();
        more := good;
        if good {
          items := items + [v];
          more := TryMatch(",");
        }
      }
      ok := TryMatch("]");
    }

    method ReadObject() returns (ok: bool, members: seq<Member>)
      requires Shrinks(codec)
      modifies this
      ensures Members(ok, members, input) == ParseObject(codec, old(input))
      decreases |input|, 1
    {
      hide Match, ParseValue, ParseString, Insert;
      members := [];
      ok := TryMatch("{");
      if !ok {
        return;
      }
      ok := TryMatch("}");
      if ok {
        return;
      }
      ghost var list := ParseMembers(codec, input, []);
      var more := true;
      while more
        invariant |input| < |old(input)|
        invariant list == if more then ParseMembers(codec, input, members) else Members(true, members, input)
        decreases |input|, more
      {
        var good, key := ReadString();
        if !good {
          if input != "" && input[0] == '}' {
            more := false;
            break;
          }
          return false, members;
        }
        good := TryMatch(":");
        if !good {
          return false, members;
        }
        var v;
        good, v := ReadValue();
        more := good;
        if good {
          members := Insert(members, key, v);
          more := TryMatch(",");
        }
      }
      ok := TryMatch("}");
    }
  }
}
