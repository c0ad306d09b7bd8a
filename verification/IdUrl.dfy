// idtourl and urltoid: an id as a short name in base 36, and back.
module IdUrl {
  import opened Bytes

  const TWO_31 := 0x8000_0000

  type Digit36 = x: int | 0 <= x < 36

  function Symbol(d: Digit36): char {
    if d < 10 then '0' + d as char else 'a' + (d - 10) as char
  }

  function Low(v: nat): Digit36 { v % 36 }
  function High(v: nat): nat { v / 36 }

  /** Base 36, most significant digit first. */
  function Base36(v: nat): (s: string)
    ensures s != ""
  {
    if v < 36 then [Symbol(v)] else Base36(High(v)) + [Symbol(Low(v))]
  }

  predicate IsAlphanumeric(c: char) {
    '0' <= c <= '9' || 'a' <= c <= 'z' || 'A' <= c <= 'Z'
  }

  /** Upper case counts as lower case. */
  function ValueOf(c: char): Digit36
    requires IsAlphanumeric(c)
  {
    if '0' <= c <= '9' then c as int - '0' as int
    else if 'a' <= c <= 'z' then c as int - 'a' as int + 10
    else c as int - 'A' as int + 10
  }

  /** The number a text spells in 32 bits; other characters are skipped. */
  function NumberIn(s: string): uint32 {
    if s == "" then 0 else
      var before := NumberIn(s[..|s| - 1]);
      var c := s[|s| - 1];
      if IsAlphanumeric(c) then (before * 36 + ValueOf(c)) % TWO_32 else before
  }

  /** The version digit, then the wrapped image of the id. */
  function Url(id: uint32): string {
    "1" + Base36((id * 2 + 56) % TWO_32)
  }

  function IdOf(url: string): uint32 {
    if url == "" then (TWO_32 - 56) / 2 else (NumberIn(url[1..]) - 56) % TWO_32 / 2
  }

  // ----------------------------------------------------------------- theorems

  lemma SymbolRoundTrip(d: Digit36)
    ensures IsAlphanumeric(Symbol(d)) && ValueOf(Symbol(d)) == d
  {
  }

  lemma Recompose(v: uint32)
    ensures High(v) < TWO_32 && (High(v) * 36 + Low(v)) % TWO_32 == v
  {
    assert v / 36 * 36 + v % 36 == v;
  }

  lemma NumberInOneMore(s: string, c: char)
    ensures NumberIn(s + [c])
         == if IsAlphanumeric(c) then (NumberIn(s) * 36 + ValueOf(c)) % TWO_32 else NumberIn(s)
  {
    assert (s + [c])[..|s|] == s;
  }

  lemma {:induction false} NumberInBase36(v: uint32)
    ensures NumberIn(Base36(v)) == v
    decreases v
  {
    SymbolRoundTrip(Low(v));
    if v < 36 {
      hide Symbol, ValueOf, IsAlphanumeric;
      NumberInOneMore([], Symbol(v));
      assert [] + [Symbol(v)] == [Symbol(v)] && NumberIn([]) == 0;
    } else {
      assert High(v) < v;
      hide Symbol, ValueOf, IsAlphanumeric, High, Low, NumberIn;
      Recompose(v);
      NumberInBase36(High(v));
      NumberInOneMore(Base36(High(v)), Symbol(Low(v)));
    }
  }

  lemma DoubledBack(id: uint32)
    ensures ((id * 2 + 56) % TWO_32 - 56) % TWO_32 / 2 == id % TWO_31
    ensures (id * 2 + 56) % TWO_32 == (id % TWO_31 * 2 + 56) % TWO_32
  {
    var t := id * 2 + 56;
    if t < TWO_32 {
      assert t % TWO_32 == t;
    } else if t < 2 * TWO_32 {
      assert t % TWO_32 == t - TWO_32;
    } else {
      assert t % TWO_32 == t - 2 * TWO_32;
    }
    if id < TWO_31 {
      assert id % TWO_31 == id;
    } else {
      assert id % TWO_31 == id - TWO_31;
    }
  }

  /** The doubling loses the top bit and nothing else. */
  lemma IdRoundTrip(id: uint32)
    ensures IdOf(Url(id)) == id % TWO_31
  {
    hide Base36, NumberIn;
    DoubledBack(id);
    NumberInBase36((id * 2 + 56) % TWO_32);
    assert Url(id)[1..] == Base36((id * 2 + 56) % TWO_32);
  }

  /** So two ids have the same url exactly when they differ in the top bit at
      most: below 2^31 urls are unique. */
  lemma UrlIsInjective(id: uint32, other: uint32)
    ensures Url(id) == Url(other) <==> id % TWO_31 == other % TWO_31
  {
    IdRoundTrip(id);
    IdRoundTrip(other);
    DoubledBack(id);
    DoubledBack(other);
    hide Base36, IdOf;
  }

  function Power36(k: nat): nat {
    if k == 0 then 1 else 36 * Power36(k - 1)
  }

  lemma {:induction false} Base36IsShort(v: nat, k: nat)
    requires k > 0 && v < Power36(k)
    ensures |Base36(v)| <= k
    decreases k
  {
    if v >= 36 {
      Base36IsShort(High(v), k - 1);
    }
  }

  lemma SevenDigits(v: uint32)
    ensures |Base36(v)| <= 7
  {
    assert Power36(4) == 1_679_616;
    assert Power36(7) == 78_364_164_096;
    Base36IsShort(v, 7);
  }

  // ------------------------------------------------------------------- loops

  const BUFFER := 64

  /** The digits of `v` once some have been taken off its end. */
  function Leading(v: nat): string {
    if v == 0 then "" else Base36(v)
  }

  lemma LastDigit(v: nat)
    ensures Base36(v) == Leading(High(v)) + [Symbol(Low(v))]
  {
  }

  lemma LeadingStep(v: nat)
    requires v > 0
    ensures Leading(v) == Leading(High(v)) + [Symbol(Low(v))]
  {
    LastDigit(v);
  }

  lemma LeadingNone()
    ensures Leading(0) == ""
  {
  }

  /** Digits are written from the end of a fixed buffer, and never reach its
      start. */
  method IdToUrl(id: uint32) returns (url: string)
    ensures url == Url(id)
  {
    hide Base36;
    var buf := new char[BUFFER](_ => '\0');
    var ptr := PutDigits(buf, (id * 2 + 56) % TWO_32);
    ghost var digits := buf[ptr..BUFFER - 1];
    ptr := ptr - 1;
    buf[ptr] := '1';
    url := buf[ptr..BUFFER - 1];
    assert url == "1" + digits;
  }

  method PutDigits(buf: array<char>, v: uint32) returns (ptr: nat)
    requires buf.Length == BUFFER
    modifies buf
    ensures 0 < ptr <= BUFFER - 1 && buf[ptr..BUFFER - 1] == Base36(v)
  {
    SevenDigits(v);
    LastDigit(v);
    hide Base36, Leading, Symbol, High, Low;
    LeadingNone();
    var value: nat := v;
    ptr := BUFFER - 1;
    ghost var done := "";
    assert Base36(v) == Leading(High(v)) + ([Symbol(Low(v))] + "");
    ptr, value, done := PutDigit(buf, ptr, value, done);
    while ptr > 0 && value != 0
      invariant 0 < ptr && ptr + |done| == BUFFER - 1 && buf[ptr..BUFFER - 1] == done
      invariant Base36(v) == Leading(value) + done && |Base36(v)| <= 7
      decreases ptr
    {
      LeadingStep(value);
      assert Leading(High(value)) + [Symbol(Low(value))] + done == Leading(High(value)) + ([Symbol(Low(value))] + done);
      ptr, value, done := PutDigit(buf, ptr, value, done);
    }
    assert Leading(0) + done == done;
  }

  method PutDigit(buf: array<char>, at: nat, v: nat, ghost done: string) returns (ptr: nat, value: nat, ghost now: string)
    requires buf.Length == BUFFER && 0 < at <= BUFFER - 1 && buf[at..BUFFER - 1] == done
    modifies buf
    ensures ptr == at - 1 && value == High(v) && now == [Symbol(Low(v))] + done && buf[ptr..BUFFER - 1] == now
  {
    ptr := at - 1;
    buf[ptr] := Symbol(Low(v));
    value := High(v);
    now := [Symbol(Low(v))] + done;
  }

  method UrlToId(url: string) returns (id: uint32)
    ensures id == IdOf(url)
  {
    var number: uint32 := 0;
    var i := 1;
    while i < |url|
      invariant 1 <= i && if url == "" then number == 0 else i <= |url| && number == NumberIn(url[1..i])
    {
      assert url[1..i + 1][..i - 1] == url[1..i];
      var c := url[i];
      if IsAlphanumeric(c) {
        number := (number * 36 + ValueOf(c)) % TWO_32;
      }
      i := i + 1;
    }
    id := (number - 56) % TWO_32 / 2;
    assert url != "" ==> url[1..|url|] == url[1..];
  }
}
