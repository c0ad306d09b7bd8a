// Exactly which objects survive printing and parsing.
module JsonExact {
  import opened JsonText
  import opened JsonParse
  import opened JsonRoundTrip
  import opened JsonTree
  import T = JsonTokens

  /** Printing and parsing an object gives back its mangled members and leaves
      only the white space after the closing brace. */
  lemma PrintedParses(c: Codec, members: seq<Member>)
    requires Faithful(c) && Keyed(Object(members))
    ensures Shrinks(c) && ParseObject(c, PrintObject(c, members)) == Members(true, MangledMembers(members, []), " \n")
  {
    hide ValueText, PrintObject, ParseObject, MangledMembers, Faithful;
    FaithfulShrinks(c);
    PrintedText(c, members);
    ObjectParses(c, "", 0, members, " \n");
  }

  lemma PrintedText(c: Codec, members: seq<Member>)
    ensures PrintObject(c, members) == ValueText(c, 0, Object(members)) + " \n"
  {
    var text := ValueText(c, 0, Object(members));
    assert text != "";
    hide ValueText, Tag, RemoveLastComma;
    TagIsLine(c, 0, "", Object(members));
    NoKeyText();
    assert Tabs(0) + "" + text + ",\n" == text + ",\n";
    CommaRemoved(text);
  }

  // --------------------------------------------------------- what mangling keeps

  predicate Sorted(members: seq<Member>) {
    forall i, j :: 0 <= i < j < |members| ==> Less(members[i].key, members[j].key)
  }

  /** Every object's members are in the order of a std::map. */
  predicate Ordered(v: Json)
    decreases v
  {
    match v
    case Array(items) => forall i :: 0 <= i < |items| ==> Ordered(items[i])
    case Object(members) => Sorted(members) && forall i :: 0 <= i < |members| ==> Ordered(members[i].value)
    case _ => true
  }

  /** All strings and keys are made of characters that survive. */
  predicate Good(v: Json)
    decreases v
  {
    match v
    case String(s) => GoodText(s)
    case Array(items) => forall i :: 0 <= i < |items| ==> Good(items[i])
    case Object(members) => forall i :: 0 <= i < |members| ==> GoodText(members[i].key) && Good(members[i].value)
    case _ => true
  }

  lemma {:induction false} LessIsStrict(a: string, b: string)
    requires Less(a, b)
    ensures !Less(b, a) && a != b
    decreases |a|
  {
    if a != "" && a[0] == b[0] {
      LessIsStrict(a[1..], b[1..]);
    }
  }

  lemma {:induction false} InsertLast(ms: seq<Member>, key: string, v: Json)
    requires forall i :: 0 <= i < |ms| ==> Less(ms[i].key, key)
    ensures Insert(ms, key, v) == ms + [Member(key, v)]
    decreases |ms|
  {
    if ms != [] {
      LessIsStrict(ms[0].key, key);
      InsertLast(ms[1..], key, v);
    }
  }

  /** Good keys keep their places, whatever happens to the values. */
  lemma {:induction false} GoodKeysKept(ms: seq<Member>, before: seq<Member>)
    requires Sorted(before + ms) && forall i :: 0 <= i < |ms| ==> GoodText(ms[i].key)
    ensures |MangledMembers(ms, before)| == |before| + |ms| && before <= MangledMembers(ms, before)
    ensures forall i :: 0 <= i < |ms| ==>
              MangledMembers(ms, before)[|before| + i] == Member(ms[i].key, Mangled(ms[i].value))
    decreases |ms|
  {
    hide GoodText, Mangled, MangledText, Less, Sorted, Insert;
    if ms != [] {
      var key, v := ms[0].key, Mangled(ms[0].value);
      TextSurvives(key);
      var now := before + [Member(key, v)];
      NextInOrder(ms, before, v);
      GoodKeysKept(ms[1..], now);
      var r := MangledMembers(ms, before);
      assert r == MangledMembers(ms[1..], now);
      forall i | 0 <= i < |ms| ensures r[|before| + i] == Member(ms[i].key, Mangled(ms[i].value)) {
        if i == 0 {
          assert now[|before|] == r[|before|];
        } else {
          assert r[|now| + (i - 1)] == Member(ms[1..][i - 1].key, Mangled(ms[1..][i - 1].value));
        }
      }
      assert before <= r;
    }
  }

  lemma NextInOrder(ms: seq<Member>, before: seq<Member>, v: Json)
    requires ms != [] && Sorted(before + ms)
    ensures Insert(before, ms[0].key, v) == before + [Member(ms[0].key, v)]
    ensures Sorted(before + [Member(ms[0].key, v)] + ms[1..])
  {
    hide Less, Insert;
    var key := ms[0].key;
    forall i | 0 <= i < |before| ensures Less(before[i].key, key) {
      assert (before + ms)[i] == before[i] && (before + ms)[|before|] == ms[0];
    }
    InsertLast(before, key, v);
    var longer := before + [Member(key, v)] + ms[1..];
    forall i, j | 0 <= i < j < |longer| ensures Less(longer[i].key, longer[j].key) {
      assert longer[i].key == (before + ms)[i].key && longer[j].key == (before + ms)[j].key;
    }
  }

  // ------------------------------------------------- bad keys cannot come back

  function Keys(ms: seq<Member>): set<string> {
    set m | m in ms :: m.key
  }

  function MangledKeys(keys: set<string>): set<string> {
    set k | k in keys :: MangledText(k)
  }

  lemma {:induction false} InsertKeys(ms: seq<Member>, key: string, v: Json)
    ensures Keys(Insert(ms, key, v)) == Keys(ms) + {key}
    decreases |ms|
  {
    if ms == [] || Less(key, ms[0].key) {
      assert Insert(ms, key, v) == [Member(key, v)] + ms;
      ConsKeys(Member(key, v), ms);
    } else if key == ms[0].key {
      ConsKeys(Member(key, v), ms[1..]);
      ConsKeys(ms[0], ms[1..]);
      assert ms == [ms[0]] + ms[1..];
    } else {
      InsertKeys(ms[1..], key, v);
      ConsKeys(ms[0], Insert(ms[1..], key, v));
      ConsKeys(ms[0], ms[1..]);
      assert ms == [ms[0]] + ms[1..];
    }
  }

  lemma ConsKeys(m: Member, ms: seq<Member>)
    ensures Keys([m] + ms) == {m.key} + Keys(ms)
  {
    assert forall x :: x in [m] + ms <==> x == m || x in ms;
    forall k | k in Keys(ms) ensures k in Keys([m] + ms) {
      var x :| x in ms && x.key == k;
      assert x in [m] + ms;
    }
    assert m in [m] + ms;
  }

  lemma {:induction false} MangledMemberKeys(ms: seq<Member>, before: seq<Member>)
    ensures Keys(MangledMembers(ms, before)) == Keys(before) + MangledKeys(Keys(ms))
    decreases |ms|
  {
    hide Mangled, Insert, MangledText;
    if ms == [] {
      assert Keys(ms) == {};
    } else {
      var key := MangledText(ms[0].key);
      InsertKeys(before, key, Mangled(ms[0].value));
      MangledMemberKeys(ms[1..], Insert(before, key, Mangled(ms[0].value)));
      ConsKeys(ms[0], ms[1..]);
      assert ms == [ms[0]] + ms[1..];
      assert MangledKeys(Keys(ms)) == {key} + MangledKeys(Keys(ms[1..]));
    }
  }

  function Weight(s: string): nat {
    if s == "" then 0 else s[0] as int + Weight(s[1..])
  }

  /** Mangling makes a bad string lighter. */
  lemma {:induction false} MangledIsLighter(s: string)
    ensures Weight(MangledText(s)) <= Weight(s)
    ensures MangledText(s) != s ==> Weight(MangledText(s)) < Weight(s)
    decreases |s|
  {
    if s != "" {
      CharSurvives(s[0]);
      MangledIsLighter(s[1..]);
      assert MangledText(s)[1..] == MangledText(s[1..]);
      if MangledText(s[1..]) == s[1..] && MangledChar(s[0]) == s[0] {
        assert MangledText(s) == [s[0]] + s[1..] == s;
      }
    }
  }

  lemma {:induction false} Heaviest(keys: set<string>) returns (x: string)
    requires keys != {}
    ensures x in keys && forall y :: y in keys ==> Weight(y) <= Weight(x)
    decreases |keys|
  {
    var k :| k in keys;
    if keys == {k} {
      x := k;
    } else {
      var rest := keys - {k};
      assert keys == rest + {k};
      var h := Heaviest(rest);
      x := if Weight(k) > Weight(h) then k else h;
      forall y | y in keys ensures Weight(y) <= Weight(x) {
        assert y == k || y in rest;
      }
    }
  }

  lemma Preimage(keys: set<string>, x: string) returns (j: string)
    requires x in MangledKeys(keys)
    ensures j in keys && MangledText(j) == x
  {
    hide MangledText;
    j :| j in keys && MangledText(j) == x;
  }

  /** A set of keys that mangling maps onto itself has only good keys: the
      heaviest bad one would have to come from a heavier one. */
  lemma OnlyGoodKeysReturn(keys: set<string>)
    requires MangledKeys(keys) == keys
    ensures forall k :: k in keys ==> MangledText(k) == k
  {
    hide MangledText, Weight, MangledKeys;
    var bad := set k | k in keys && MangledText(k) != k;
    if bad == {} {
      forall k | k in keys ensures MangledText(k) == k {
        assert k !in bad;
      }
    } else {
      var x := Heaviest(bad);
      var j := Preimage(keys, x);
      MangledIsLighter(j);
      assert false;
    }
  }

  // ---------------------------------------------------------------- the theorem

  /** A value is mangled into itself exactly when it is good. */
  lemma {:induction false} Survives(v: Json)
    requires Ordered(v)
    ensures Mangled(v) == v <==> Good(v)
    decreases v
  {
    hide GoodText, MangledText, MangledMembers, Less;
    match v
    case String(s) =>
      TextSurvives(s);
    case Array(items) =>
      forall i | 0 <= i < |items| ensures Mangled(items[i]) == items[i] <==> Good(items[i]) {
        Survives(items[i]);
      }
      assert MangledItems(items) == items <==> forall i :: 0 <= i < |items| ==> Mangled(items[i]) == items[i];
    case Object(members) =>
      forall i | 0 <= i < |members| ensures Mangled(members[i].value) == members[i].value <==> Good(members[i].value) {
        Survives(members[i].value);
      }
      MembersSurvive(members);
    case _ =>
  }

  predicate GoodKeys(ms: seq<Member>) {
    forall i :: 0 <= i < |ms| ==> GoodText(ms[i].key)
  }

  lemma KeptKeysAreGood(ms: seq<Member>)
    requires MangledMembers(ms, []) == ms
    ensures GoodKeys(ms)
  {
    hide GoodText, MangledText, MangledMembers, MangledKeys;
    MangledMemberKeys(ms, []);
    assert Keys([]) == {} && {} + MangledKeys(Keys(ms)) == MangledKeys(Keys(ms));
    OnlyGoodKeysReturn(Keys(ms));
    forall i | 0 <= i < |ms| ensures GoodText(ms[i].key) {
      assert ms[i] in ms && ms[i].key in Keys(ms);
      TextSurvives(ms[i].key);
    }
  }

  lemma MembersSurvive(ms: seq<Member>)
    requires Sorted(ms)
    ensures MangledMembers(ms, []) == ms
       <==> GoodKeys(ms) && forall i :: 0 <= i < |ms| ==> Mangled(ms[i].value) == ms[i].value
  {
    if MangledMembers(ms, []) == ms {
      KeptKeysAreGood(ms);
    }
    if GoodKeys(ms) {
      assert [] + ms == ms;
      GoodKeysKept(ms, []);
      hide GoodText, MangledText, MangledMembers, Mangled, Less, GoodKeys;
      var r := MangledMembers(ms, []);
      assert forall i :: 0 <= i < |ms| ==> r[0 + i] == Member(ms[i].key, Mangled(ms[i].value));
      if r == ms {
        forall i | 0 <= i < |ms| ensures Mangled(ms[i].value) == ms[i].value {
          assert r[0 + i] == ms[i];
        }
      }
    }
  }

  // ------------------------------------------------------------- empty keys

  /** What is printed is a legal row of tokens. */
  lemma PrintedIsLegal(c: Codec, members: seq<Member>) returns (ts: seq<T.Token>)
    ensures T.Legal(ts) && T.TextOf(c, ts) == PrintObject(c, members)
    ensures ts == T.ValueTokens(0, Object(members)) + [T.Blank(' '), T.Blank('\n')]
  {
    hide ValueText, PrintObject, T.ValueTokens;
    var end := [T.Blank(' '), T.Blank('\n')];
    T.LastLegal([]);
    assert end + [] == end;
    ts := T.ValueTokens(0, Object(members)) + end;
    T.ValueLegal(0, Object(members), end);
    T.TextJoin(c, T.ValueTokens(0, Object(members)), end);
    T.ValueTokensText(c, 0, Object(members));
    T.EndText(c);
    PrintedText(c, members);
  }

  /** Whatever is printed, what is parsed from it has no empty key anywhere. */
  lemma NoEmptyKeyComesBack(c: Codec, members: seq<Member>)
    requires Faithful(c)
    ensures Shrinks(c) && Keyed(Object(ParseObject(c, PrintObject(c, members)).members))
  {
    hide ParseObject, PrintObject, Keyed, Faithful, T.Legal, T.ValueTokens;
    var ts := PrintedIsLegal(c, members);
    var rest := T.ObjectAt(c, ts);
  }

  /** The round trip, for every object: it parses back to itself if and only if it
      has no empty key and all its strings and keys are good, at every depth. */
  lemma RoundTrip(c: Codec, members: seq<Member>)
    requires Faithful(c) && Ordered(Object(members))
    ensures Shrinks(c)
    ensures
      var r := ParseObject(c, PrintObject(c, members));
      r.ok && r.members == members <==> Keyed(Object(members)) && Good(Object(members))
    ensures Keyed(Object(members)) ==> ParseObject(c, PrintObject(c, members)).ok
  {
    hide Good, Ordered, Keyed, Faithful, ParseObject, PrintObject, MangledMembers;
    if Keyed(Object(members)) {
      PrintedParses(c, members);
      Survives(Object(members));
    } else {
      NoEmptyKeyComesBack(c, members);
    }
  }

  lemma {:induction false} SkipsBlanks(blanks: seq<T.Token>, ts: seq<T.Token>)
    requires forall i :: 0 <= i < |blanks| ==> blanks[i].Blank?
    requires ts != [] && !ts[0].Blank?
    ensures T.SkipBlanks(blanks + ts) == ts
    decreases |blanks|
  {
    if blanks == [] {
      assert blanks + ts == ts;
    } else {
      assert (blanks + ts)[1..] == blanks[1..] + ts;
      SkipsBlanks(blanks[1..], ts);
    }
  }

  lemma FirstOfValue(depth: nat, v: Json, end: seq<T.Token>)
    ensures
      var ts := T.ValueTokens(depth, v) + end;
      && ts != [] && !ts[0].Blank? && ts[0] != T.Mark('}')
      && (ts[0].Quoted? ==> ts[1..] == end)
  {
  }

  /** Members that begin with a value instead of a key cannot be read. */
  lemma NoKeyNoMembers(c: Codec, depth: nat, v: Json, end: seq<T.Token>)
    requires Faithful(c) && T.Legal(T.ValueTokens(depth, v) + end) && T.Legal(end) && !T.ColonNext(end)
    ensures Shrinks(c) && !ParseMembers(c, T.TextOf(c, T.ValueTokens(depth, v) + end), []).ok
  {
    FaithfulShrinks(c);
    FirstOfValue(depth, v, end);
    var ts := T.ValueTokens(depth, v) + end;
    T.StringAt(c, ts);
    T.HeadIs(c, ts);
    T.MatchMark(c, ':', end);
    hide Match, ParseString, ParseValue, Faithful, T.TextOf, T.ValueTokens, T.Legal;
  }

  lemma MembersAsTokens(members: seq<Member>) returns (end: seq<T.Token>)
    requires members != [] && members[0].key == ""
    ensures T.Legal(end) && !T.ColonNext(end) && T.ValueMayEnd(end)
    ensures
      var v := T.ValueTokens(1, members[0].value);
      T.ValueTokens(0, Object(members)) + [T.Blank(' '), T.Blank('\n')]
      == [T.Mark('{')] + ([T.Blank('\n')] + T.TabTokens(1) + (v + end))
  {
    var tail := [T.Blank(' '), T.Blank('\n')];
    T.LastLegal([]);
    assert tail + [] == tail;
    T.CloseLegal(0, '}', tail);
    hide T.Legal, T.ColonNext, T.ValueMayEnd, T.MemberTokens, T.ValueTokens;
    var more := T.TabTokens(0) + ([T.Mark('}')] + tail);
    end := T.MembersAfter(1, members, more);
    ObjectAsTokens(members, tail);
    assert T.KeyTokens("") == [];
    var v := T.ValueTokens(1, members[0].value);
    assert T.TabTokens(1) + [] + v + end == T.TabTokens(1) + (v + end);
    assert [T.Mark('{'), T.Blank('\n')] + (T.TabTokens(1) + (v + end))
      == [T.Mark('{')] + ([T.Blank('\n')] + T.TabTokens(1) + (v + end));
  }

  lemma ObjectAsTokens(members: seq<Member>, tail: seq<T.Token>)
    ensures T.ValueTokens(0, Object(members)) + tail
         == [T.Mark('{'), T.Blank('\n')] + (T.MemberTokens(1, members) + (T.TabTokens(0) + ([T.Mark('}')] + tail)))
  {
    hide T.MemberTokens;
  }

  /** An object with an empty key of its own never parses. */
  lemma EmptyKeyNeverParses(c: Codec, members: seq<Member>, i: nat)
    requires Faithful(c) && Sorted(members) && i < |members| && members[i].key == ""
    ensures Shrinks(c) && !ParseObject(c, PrintObject(c, members)).ok
  {
    assert i > 0 ==> Less(members[0].key, members[i].key);
    hide PrintObject, ParseObject, Faithful, Less;
    FirstKeyEmpty(c, members);
  }

  lemma FirstKeyEmpty(c: Codec, members: seq<Member>)
    requires Faithful(c) && members != [] && members[0].key == ""
    ensures Shrinks(c) && !ParseObject(c, PrintObject(c, members)).ok
  {
    hide Faithful, PrintObject, ParseObject, ParseMembers, Match, T.ValueTokens, T.ColonNext, T.Legal, T.TextOf, T.ValueMayEnd;
    FaithfulShrinks(c);
    var ts := PrintedIsLegal(c, members);
    var end := MembersAsTokens(members);
    var v := T.ValueTokens(1, members[0].value) + end;
    T.ValueLegal(1, members[0].value, end);
    FirstOfValue(1, members[0].value, end);
    var inner := [T.Blank('\n')] + T.TabTokens(1) + v;
    SkipsBlanks([T.Blank('\n')] + T.TabTokens(1), v);
    assert ts == [T.Mark('{')] + inner && ts[1..] == inner;
    T.MatchMark(c, '{', ts);
    T.LegalTail(ts);
    T.MatchMark(c, '}', inner);
    NoKeyNoMembers(c, 1, members[0].value, end);
    OpenFails(c, T.TextOf(c, ts), T.TextOf(c, inner), T.TextOf(c, v));
  }

  lemma OpenFails(c: Codec, s: string, inner: string, t: string)
    requires Shrinks(c) && Match("{", s) == Step(true, inner) && Match("}", inner) == Step(false, t)
    requires !ParseMembers(c, t, []).ok
    ensures ParseObject(c, s) == ParseMembers(c, t, [])
  {
    hide Match, ParseMembers;
  }

  /** The inner object of {key: {"": x}}, and where its reading stops. */
  lemma InnerFails(c: Codec, w: string, x: string)
    requires Faithful(c) && Spaces(w)
    ensures Shrinks(c)
    ensures
      var r := ParseValue(c, w + ("{" + ("\n\t\t" + ("\"" + Escaped(x) + "\"" + (" \n\t" + "} \n} \n")))));
      !r.ok && r.rest == "} \n} \n"
  {
    hide Faithful, Match, ParseScalar, ParseString, Escaped, ParseValue, ParseObject, MangledText;
    FaithfulShrinks(c);
    var close := "} \n} \n";
    var more := " \n\t" + close;
    var text := "\"" + Escaped(x) + "\"" + more;
    var inner := "\n\t\t" + text;
    var t := "{" + inner;
    ScalarFails(c, w, t);
    ObjectStep(c, w + t, t);
    Matches("{", "", inner);
    assert "" + t == t;
    assert text[0] == '"';
    MatchesNot("}", "\n\t\t", text);
    QuotedRead("", x, more);
    assert "" + text == text;
    MatchesNot(":", " \n\t", close);
    assert ParseMembers(c, text, []) == Members(false, [], close);
    OpenFails(c, t, inner, text);
  }

  lemma NestedText(c: Codec, key: string, x: string)
    requires key != ""
    ensures PrintObject(c, [Member(key, Object([Member("", String(x))]))])
         == "{" + ("\n\t" + ("\"" + Escaped(key) + "\"" + (":" + (" " +
              ("{" + ("\n\t\t" + ("\"" + Escaped(x) + "\"" + (" \n\t" + "} \n} \n"))))))))
  {
    hide Escaped, RemoveLastComma, Tag;
    var inner := [Member("", String(x))];
    var outer := [Member(key, Object(inner))];
    assert Tabs(0) == "" && Tabs(1) == "\t" && Tabs(2) == "\t\t";
    NoKeyText();
    var quoted := "\"" + Escaped(x) + "\"";
    assert MembersFrom(c, 2, inner) == quoted + " \n" by {
      assert "" + quoted + " \n" == quoted + " \n";
    }
    assert MemberLines(c, 2, inner) == "\t\t" + (quoted + " \n");
    assert ValueText(c, 1, Object(inner)) == "{\n" + ("\t\t" + (quoted + " \n")) + "\t" + "}";
    hide MembersFrom, MemberLines, Tabs;
    OuterText(c, key, inner, "{\n" + ("\t\t" + (quoted + " \n")) + "\t" + "}");
    PrintedText(c, outer);
    hide ValueText, PrintObject, KeyText;
    Regrouped(Escaped(key), quoted);
  }

  lemma Regrouped(k: string, q: string)
    ensures "{\n" + ("\t" + ("\"" + k + "\": " + ("{\n" + ("\t\t" + (q + " \n")) + "\t" + "}") + " \n")) + "" + "}" + " \n"
         == "{" + ("\n\t" + ("\"" + k + "\"" + (":" + (" " + ("{" + ("\n\t\t" + (q + (" \n\t" + "} \n} \n"))))))))
  {
    var end := " \n\t" + "} \n} \n";
    var value := "{" + ("\n\t\t" + (q + end));
    assert ("{\n" + ("\t\t" + (q + " \n")) + "\t" + "}") + (" \n" + "}" + " \n") == value;
    assert "\"" + k + "\": " == "\"" + k + "\"" + ":" + " ";
    var head := "\"" + k + "\"";
    assert "{\n" + ("\t" + (head + ": " + ("{\n" + ("\t\t" + (q + " \n")) + "\t" + "}") + " \n")) + "" + "}" + " \n"
        == "{" + "\n\t" + head + ":" + " " + value;
    assert "{" + ("\n\t" + (head + (":" + (" " + value)))) == "{" + "\n\t" + head + ":" + " " + value;
  }

  lemma OuterText(c: Codec, key: string, inner: seq<Member>, text: string)
    requires key != "" && ValueText(c, 1, Object(inner)) == text
    ensures ValueText(c, 0, Object([Member(key, Object(inner))]))
         == "{\n" + ("\t" + ("\"" + Escaped(key) + "\": " + text + " \n")) + "" + "}"
  {
    hide Escaped;
    var outer := [Member(key, Object(inner))];
    assert Tabs(0) == "" && Tabs(1) == "\t";
    assert MembersFrom(c, 1, outer) == "\"" + Escaped(key) + "\": " + text + " \n";
    assert MemberLines(c, 1, outer) == "\t" + MembersFrom(c, 1, outer);
  }

  /** Deeper down it can be worse: the inner object fails to parse, the outer one
      takes the inner brace for its own, and the whole parses, to nothing. */
  lemma EmptyKeyLosesItsObject(c: Codec, key: string, x: string)
    requires Faithful(c) && key != ""
    ensures Shrinks(c)
    ensures ParseObject(c, PrintObject(c, [Member(key, Object([Member("", String(x))]))])) == Members(true, [], " \n} \n")
  {
    hide Faithful, Match, ParseString, Escaped, ParseValue, ParseObject, PrintObject, MangledText;
    FaithfulShrinks(c);
    NestedText(c, key, x);
    var value := "{" + ("\n\t\t" + ("\"" + Escaped(x) + "\"" + (" \n\t" + "} \n} \n")));
    var colon := ":" + (" " + value);
    var text := "\"" + Escaped(key) + "\"" + colon;
    var inner := "\n\t" + text;
    assert "" + ("{" + inner) == "{" + inner && "" + text == text && "" + colon == colon;
    Matches("{", "", inner);
    assert text[0] == '"';
    MatchesNot("}", "\n\t", text);
    QuotedRead("", key, colon);
    Matches(":", "", " " + value);
    InnerFails(c, " ", x);
    assert ParseMembers(c, text, []) == Members(true, [], "} \n} \n");
    Matches("}", "", " \n} \n");
    assert "" + ("}" + " \n} \n") == "} \n} \n";
    OpenStep(c, "{" + inner, inner, Step(false, text), Members(true, [], "} \n} \n"), " \n} \n");
  }
}
