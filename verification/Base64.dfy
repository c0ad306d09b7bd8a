// base64_encode and base64_decode: bytes move through a 32-bit accumulator that
// is never cleared and simply wraps. The reference is section 4 of RFC 4648.
module Base64 {
  import opened Bytes

  type Sextet = x: int | 0 <= x < 64

  function Symbol(v: Sextet): char {
    if v < 26 then 'A' + v as char
    else if v < 52 then 'a' + (v - 26) as char
    else if v < 62 then '0' + (v - 52) as char
    else if v == 62 then '+'
    else '/'
  }

  predicate IsSymbol(c: char) {
    'A' <= c <= 'Z' || 'a' <= c <= 'z' || '0' <= c <= '9' || c == '+' || c == '/'
  }

  /** reverse_table, where it is not 64. */
  function ValueOf(c: char): Sextet
    requires IsSymbol(c)
  {
    if 'A' <= c <= 'Z' then c as int - 'A' as int
    else if 'a' <= c <= 'z' then c as int - 'a' as int + 26
    else if '0' <= c <= '9' then c as int - '0' as int + 52
    else if c == '+' then 62
    else 63
  }

  lemma SymbolRoundTrip(v: Sextet)
    ensures IsSymbol(Symbol(v)) && ValueOf(Symbol(v)) == v && !IsSkipped(Symbol(v))
  {
  }

  /** White space and padding. */
  predicate IsSkipped(c: char) {
    9 <= c as int <= 13 || c == ' ' || c == '='
  }

  // ---------------------------------------------------------- the reference

  // The four symbols of three bytes, and back.
  function E0(a: byte): Sextet { a / 4 }
  function E1(a: byte, b: byte): Sextet { a % 4 * 16 + b / 16 }
  function E2(b: byte, c: byte): Sextet { b % 16 * 4 + c / 64 }
  function E3(c: byte): Sextet { c % 64 }
  function D0(v0: Sextet, v1: Sextet): byte { v0 as int * 4 + v1 / 16 }
  function D1(v1: Sextet, v2: Sextet): byte { v1 as int % 16 * 16 + v2 / 4 }
  function D2(v2: Sextet, v3: Sextet): byte { v2 as int % 4 * 64 + v3 }

  lemma GroupRoundTrip(a: byte, b: byte, c: byte)
    ensures D0(E0(a), E1(a, b)) == a && D1(E1(a, b), E2(b, c)) == b && D2(E2(b, c), E3(c)) == c
  {
  }

  /** Three bytes make four symbols; a short last group is filled with zero bits
      and cut. */
  function Sextets(data: seq<byte>): seq<Sextet> {
    if |data| == 0 then []
    else if |data| == 1 then [E0(data[0]), E1(data[0], 0)]
    else if |data| == 2 then [E0(data[0]), E1(data[0], data[1]), E2(data[1], 0)]
    else [E0(data[0]), E1(data[0], data[1]), E2(data[1], data[2]), E3(data[2])] + Sextets(data[3..])
  }

  function Symbols(vs: seq<Sextet>): (s: string)
    ensures |s| == |vs| && forall i :: 0 <= i < |s| ==> s[i] == Symbol(vs[i])
  {
    seq(|vs|, i requires 0 <= i < |vs| => Symbol(vs[i]))
  }

  function Padding(n: nat): string {
    if n % 3 == 1 then "==" else if n % 3 == 2 then "=" else ""
  }

  function Encoded(data: seq<byte>): string {
    Symbols(Sextets(data)) + Padding(|data|)
  }

  /** Four sextets give back three bytes; a short last group gives one byte less
      than it has sextets. */
  function BytesOf(vs: seq<Sextet>): seq<byte> {
    if |vs| <= 1 then []
    else if |vs| == 2 then [D0(vs[0], vs[1])]
    else if |vs| == 3 then [D0(vs[0], vs[1]), D1(vs[1], vs[2])]
    else [D0(vs[0], vs[1]), D1(vs[1], vs[2]), D2(vs[2], vs[3])] + BytesOf(vs[4..])
  }

  predicate Decodable(s: string) {
    forall i :: 0 <= i < |s| ==> IsSkipped(s[i]) || IsSymbol(s[i])
  }

  function ValuesIn(s: string): seq<Sextet>
    requires Decodable(s)
  {
    if s == [] then [] else
      var before := ValuesIn(s[..|s| - 1]);
      if IsSkipped(s[|s| - 1]) then before else before + [ValueOf(s[|s| - 1])]
  }

  function Decoded(s: string): seq<byte> {
    if Decodable(s) then BytesOf(ValuesIn(s)) else []
  }

  // ----------------------------------------------------------------- theorems

  lemma {:induction false} BytesOfSextets(data: seq<byte>)
    ensures BytesOf(Sextets(data)) == data
    decreases |data|
  {
    hide E0, E1, E2, E3, D0, D1, D2;
    if |data| >= 3 {
      BytesOfSextets(data[3..]);
      GroupRoundTrip(data[0], data[1], data[2]);
      assert Sextets(data)[4..] == Sextets(data[3..]);
      assert data == [data[0], data[1], data[2]] + data[3..];
    } else if |data| == 2 {
      GroupRoundTrip(data[0], data[1], 0);
    } else if |data| == 1 {
      GroupRoundTrip(data[0], 0, 0);
    }
  }

  lemma {:induction false} SextetCount(data: seq<byte>)
    ensures |Sextets(data)| == |data| / 3 * 4 + (if |data| % 3 == 0 then 0 else |data| % 3 + 1)
    decreases |data|
  {
    hide E0, E1, E2, E3;
    if |data| >= 3 {
      SextetCount(data[3..]);
    }
  }

  lemma EncodedLength(data: seq<byte>)
    ensures |Encoded(data)| == (|data| + 2) / 3 * 4
  {
    SextetCount(data);
  }

  lemma {:induction false} ValuesInSymbols(vs: seq<Sextet>)
    ensures Decodable(Symbols(vs)) && ValuesIn(Symbols(vs)) == vs
    decreases |vs|
  {
    forall i | 0 <= i < |vs| ensures IsSymbol(Symbols(vs)[i]) {
      SymbolRoundTrip(vs[i]);
    }
    if vs != [] {
      var most := vs[..|vs| - 1];
      ValuesInSymbols(most);
      assert Symbols(vs)[..|vs| - 1] == Symbols(most);
      SymbolRoundTrip(vs[|vs| - 1]);
    }
  }

  lemma PaddingIsSkipped(s: string)
    requires Decodable(s)
    ensures Decodable(s + "=") && ValuesIn(s + "=") == ValuesIn(s)
    ensures Decodable(s + "==") && ValuesIn(s + "==") == ValuesIn(s)
  {
    assert (s + "=")[..|s|] == s;
    assert (s + "==")[..|s| + 1] == s + "=";
  }

  lemma DecodeInvertsEncode(data: seq<byte>)
    ensures Decoded(Encoded(data)) == data
  {
    var s := Symbols(Sextets(data));
    ValuesInSymbols(Sextets(data));
    PaddingIsSkipped(s);
    assert s + "" == s;
    BytesOfSextets(data);
  }

  /** The sextets that byte `i` completes. */
  function NewSextets(data: seq<byte>, i: nat): seq<Sextet>
    requires i < |data|
  {
    if i % 3 == 0 then [E0(data[i])]
    else if i % 3 == 1 then [E1(data[i - 1], data[i])]
    else [E2(data[i - 1], data[i]), E3(data[i])]
  }

  function Complete(data: seq<byte>, i: nat): (vs: seq<Sextet>)
    requires i <= |data|
    ensures |vs| == i + i / 3
  {
    if i == 0 then [] else Complete(data, i - 1) + NewSextets(data, i - 1)
  }

  /** The sextet of a short last group that waits for bits. */
  function Trailing(data: seq<byte>): seq<Sextet> {
    if |data| % 3 == 0 then []
    else if |data| % 3 == 1 then [E1(data[|data| - 1], 0)]
    else [E2(data[|data| - 1], 0)]
  }

  lemma FirstGroup(data: seq<byte>)
    ensures |data| >= 1 ==> Complete(data, 1) == [E0(data[0])]
    ensures |data| >= 2 ==> Complete(data, 2) == [E0(data[0]), E1(data[0], data[1])]
    ensures |data| >= 3 ==> Complete(data, 3) == [E0(data[0]), E1(data[0], data[1]), E2(data[1], data[2]), E3(data[2])]
  {
    hide E0, E1, E2, E3, Complete;
    if |data| >= 1 {
      CompleteOne(data, 0);
    }
    if |data| >= 2 {
      CompleteOne(data, 1);
    }
    if |data| >= 3 {
      CompleteOne(data, 2);
    }
  }

  lemma CompleteOne(data: seq<byte>, i: nat)
    requires i < |data|
    ensures Complete(data, i + 1) == Complete(data, i) + NewSextets(data, i)
    ensures Complete(data, 0) == []
  {
    hide NewSextets;
  }

  lemma NewShift(data: seq<byte>, i: nat)
    requires 3 <= i < |data|
    ensures NewSextets(data, i) == NewSextets(data[3..], i - 3)
  {
    hide E0, E1, E2, E3;
  }

  lemma {:induction false} CompleteShifts(data: seq<byte>, i: nat)
    requires 3 <= i <= |data|
    ensures Complete(data, i)
         == [E0(data[0]), E1(data[0], data[1]), E2(data[1], data[2]), E3(data[2])] + Complete(data[3..], i - 3)
    decreases i
  {
    hide E0, E1, E2, E3, NewSextets;
    if i > 3 {
      CompleteShifts(data, i - 1);
      NewShift(data, i - 1);
    } else {
      FirstGroup(data);
    }
  }

  lemma {:induction false} SextetsComplete(data: seq<byte>)
    ensures Sextets(data) == Complete(data, |data|) + Trailing(data)
    decreases |data|
  {
    hide E0, E1, E2, E3, NewSextets;
    if |data| >= 3 {
      CompleteShifts(data, |data|);
      SextetsComplete(data[3..]);
      assert Trailing(data) == Trailing(data[3..]);
    } else {
      FirstGroup(data);
    }
  }

  /** The bytes that sextet `j` completes. */
  function NewBytes(vs: seq<Sextet>, j: nat): seq<byte>
    requires j < |vs|
  {
    if j % 4 == 0 then []
    else if j % 4 == 1 then [D0(vs[j - 1], vs[j])]
    else if j % 4 == 2 then [D1(vs[j - 1], vs[j])]
    else [D2(vs[j - 1], vs[j])]
  }

  function CompleteBytes(vs: seq<Sextet>, j: nat): seq<byte>
    requires j <= |vs|
  {
    if j == 0 then [] else CompleteBytes(vs, j - 1) + NewBytes(vs, j - 1)
  }

  lemma {:induction false} CompleteBytesShift(vs: seq<Sextet>, j: nat)
    requires 4 <= j <= |vs|
    ensures CompleteBytes(vs, j)
         == [D0(vs[0], vs[1]), D1(vs[1], vs[2]), D2(vs[2], vs[3])] + CompleteBytes(vs[4..], j - 4)
    decreases j
  {
    hide D0, D1, D2;
    if j > 4 {
      CompleteBytesShift(vs, j - 1);
      assert NewBytes(vs, j - 1) == NewBytes(vs[4..], j - 5);
    } else {
      assert CompleteBytes(vs, 1) == [];
      assert CompleteBytes(vs, 2) == [D0(vs[0], vs[1])];
      assert CompleteBytes(vs, 3) == [D0(vs[0], vs[1]), D1(vs[1], vs[2])];
    }
  }

  lemma {:induction false} BytesComplete(vs: seq<Sextet>)
    ensures BytesOf(vs) == CompleteBytes(vs, |vs|)
    decreases |vs|
  {
    hide D0, D1, D2;
    if |vs| >= 4 {
      CompleteBytesShift(vs, |vs|);
      BytesComplete(vs[4..]);
    } else if |vs| > 0 {
      assert CompleteBytes(vs, 1) == [];
      if |vs| == 3 {
        assert CompleteBytes(vs, 2) == [D0(vs[0], vs[1])];
      }
    }
  }

  // ------------------------------------------------------------ accumulator

  /** `x >> bits`. */
  function Above(x: nat, bits: nat): nat {
    if bits == 0 then x else Above(x / 2, bits - 1)
  }

  lemma AboveValues(x: nat)
    ensures Above(x, 0) == x && Above(x, 2) == x / 4 && Above(x, 4) == x / 16 && Above(x, 6) == x / 64
  {
    assert Above(x, 2) == x / 2 / 2 == x / 4;
    assert Above(x, 4) == Above(x / 4, 2) == x / 4 / 4;
    assert Above(x, 6) == Above(x / 16, 2) == x / 16 / 4;
  }

  function Shift8(accumulator: uint32, b: byte): uint32 {
    (accumulator * 256 + b) % TWO_32
  }

  function Shift6(accumulator: uint32, v: Sextet): uint32 {
    (accumulator * 64 + v) % TWO_32
  }

  lemma Quotient4(x: int, q: int, r: int)
    requires x == 4 * q + r && 0 <= r < 4
    ensures x / 4 == q && x % 4 == r
  {
  }

  lemma Quotient16(x: int, q: int, r: int)
    requires x == 16 * q + r && 0 <= r < 16
    ensures x / 16 == q && x % 16 == r
  {
  }

  lemma Quotient64(x: int, q: int, r: int)
    requires x == 64 * q + r && 0 <= r < 64
    ensures x / 64 == q && x % 64 == r
  {
  }

  lemma Quotient256(x: int, q: int, r: int)
    requires x == 256 * q + r && 0 <= r < 256
    ensures x / 256 == q && x % 256 == r
  {
  }

  lemma Slice64(x: int, high: int, low: int, b: byte)
    requires x == high * 4096 + low * 256 + b && 0 <= low < 16
    ensures x / 64 % 64 == low * 4 + b / 64 && x % 64 == b % 64
  {
    var c, d := b / 64, b % 64;
    Quotient64(x, high * 64 + low * 4 + c, d);
    Quotient64(x / 64, high, low * 4 + c);
  }

  lemma Slice16(x: int, high: int, low: int, b: byte)
    requires x == high * 4096 + low * 256 + b && 0 <= low < 16
    ensures x / 16 % 64 == low % 4 * 16 + b / 16 && x % 16 == b % 16
  {
    var c, d, e, f := b / 16, b % 16, low / 4, low % 4;
    Quotient16(x, high * 256 + low * 16 + c, d);
    Quotient64(x / 16, high * 4 + e, f * 16 + c);
  }

  lemma Slice4(x: int, high: int, low: int, b: byte)
    requires x == high * 4096 + low * 256 + b && 0 <= low < 16
    ensures x / 4 % 64 == b / 4 && x % 4 == b % 4
  {
    var c, d := b / 4, b % 4;
    Quotient4(x, high * 1024 + low * 64 + c, d);
    Quotient64(x / 4, high * 16 + low, c);
  }

  lemma Shifted8(accumulator: uint32, b: byte) returns (high: int)
    ensures Shift8(accumulator, b) == high * 4096 + accumulator % 16 * 256 + b
  {
    high := accumulator / 16 - (accumulator * 256 + b) / TWO_32 * 0x10_0000;
  }

  lemma Shifted6(accumulator: uint32, v: Sextet) returns (high: int)
    ensures Shift6(accumulator, v) == high * 4096 + accumulator % 64 * 64 + v
  {
    high := accumulator / 64 - (accumulator * 64 + v) / TWO_32 * 0x10_0000;
  }

  lemma Slice256(x: int, high: int, low: int, v: Sextet)
    requires x == high * 4096 + low * 64 + v && 0 <= low < 64
    ensures x % 256 == low % 4 * 64 + v && x % 64 == v
  {
    var e, f := low / 4, low % 4;
    Quotient256(x, high * 16 + e, f * 64 + v);
    Quotient64(x, high * 64 + low, v);
  }

  lemma Slice256By4(x: int, high: int, low: int, v: Sextet)
    requires x == high * 4096 + low * 64 + v && 0 <= low < 64
    ensures x / 4 % 256 == low % 16 * 16 + v / 4 && x % 4 == v % 4
  {
    var c, d, g, h := v / 4, v % 4, low / 16, low % 16;
    Quotient4(x, high * 1024 + low * 16 + c, d);
    Quotient256(x / 4, high * 4 + g, h * 16 + c);
  }

  lemma Slice256By16(x: int, high: int, low: int, v: Sextet)
    requires x == high * 4096 + low * 64 + v && 0 <= low < 64
    ensures x / 16 % 256 == low * 4 + v / 16 && x % 16 == v % 16
  {
    var c, d := v / 16, v % 16;
    Quotient16(x, high * 256 + low * 4 + c, d);
    Quotient256(x / 16, high, low * 4 + c);
  }

  lemma LowOfLow(x: nat)
    ensures x % 16 % 4 == x % 4 && x % 64 % 16 == x % 16 && x % 64 % 4 == x % 4
  {
    var q, r := x / 64, x % 64;
    var g, h := r / 16, r % 16;
    Quotient16(x, 4 * q + g, h);
    var e, f := h / 4, h % 4;
    Quotient4(x, 16 * q + 4 * g + e, f);
    Quotient4(r, 4 * g + e, f);
  }

  /** Only the low bits of the accumulator matter, and the wrap leaves them. */
  lemma LowBits8(accumulator: uint32, b: byte)
    ensures Low8(accumulator, b, Shift8(accumulator, b))
  {
    var high := Shifted8(accumulator, b);
    var s, low := Shift8(accumulator, b), accumulator % 16;
    LowOfLow(accumulator);
    hide Shift8;
    Slice64(s, high, low, b);
    Slice16(s, high, low, b);
    Slice4(s, high, low, b);
  }

  predicate Low8(was: uint32, b: byte, now: uint32) {
    && now / 4 % 64 == b / 4 && now % 4 == b % 4
    && now / 16 % 64 == was % 4 * 16 + b / 16 && now % 16 == b % 16
    && now / 64 % 64 == was % 16 * 4 + b / 64 && now % 64 == b % 64
  }

  lemma LowBits6(accumulator: uint32, v: Sextet)
    ensures Low6(accumulator, v, Shift6(accumulator, v))
  {
    var high := Shifted6(accumulator, v);
    var s, low := Shift6(accumulator, v), accumulator % 64;
    LowOfLow(accumulator);
    hide Shift6;
    Slice256(s, high, low, v);
    Slice256By4(s, high, low, v);
    Slice256By16(s, high, low, v);
  }

  predicate Low6(was: uint32, v: Sextet, now: uint32) {
    && now % 64 == v && now % 16 == v % 16 && now % 4 == v % 4
    && now / 16 % 256 == was % 64 * 4 + v / 16
    && now / 4 % 256 == was % 16 * 16 + v / 4
    && now % 256 == was % 4 * 64 + v
  }

  /** The bits of the last bytes that are still to be put out. */
  predicate Held(data: seq<byte>, i: nat, accumulator: uint32, bits: nat)
    requires i <= |data|
  {
    if i % 3 == 0 then bits == 0
    else if i % 3 == 1 then bits == 2 && accumulator % 4 == data[i - 1] % 4
    else bits == 4 && accumulator % 16 == data[i - 1] % 16
  }

  lemma OneByte(data: seq<byte>, i: nat, accumulator: uint32, bits: nat)
    requires i < |data| && Held(data, i, accumulator, bits)
    ensures
      var news, now := NewSextets(data, i), Shift8(accumulator, data[i]);
      && bits + 8 >= 6 * |news| && bits + 8 - 6 * |news| < 6 && Held(data, i + 1, now, bits + 8 - 6 * |news|)
      && forall k :: 0 <= k < |news| ==> Above(now, bits + 8 - 6 * (k + 1)) % 64 == news[k]
  {
    LowBits8(accumulator, data[i]);
    AboveValues(Shift8(accumulator, data[i]));
    hide Shift8, Above;
    if i % 3 == 0 {
      FirstOfThree(data, i, accumulator, bits, Shift8(accumulator, data[i]));
    } else if i % 3 == 1 {
      SecondOfThree(data, i, accumulator, bits, Shift8(accumulator, data[i]));
    } else {
      ThirdOfThree(data, i, accumulator, bits, Shift8(accumulator, data[i]));
    }
    hide NewSextets, Held, Low8;
  }

  lemma FirstOfThree(data: seq<byte>, i: nat, was: uint32, bits: nat, now: uint32)
    requires i < |data| && i % 3 == 0 && Held(data, i, was, bits) && Low8(was, data[i], now)
    ensures bits == 0 && NewSextets(data, i) == [now / 4 % 64] && Held(data, i + 1, now, 2)
  {
    assert (i + 1) % 3 == 1;
  }

  lemma SecondOfThree(data: seq<byte>, i: nat, was: uint32, bits: nat, now: uint32)
    requires i < |data| && i % 3 == 1 && Held(data, i, was, bits) && Low8(was, data[i], now)
    ensures bits == 2 && NewSextets(data, i) == [now / 16 % 64] && Held(data, i + 1, now, 4)
  {
    assert (i + 1) % 3 == 2;
  }

  lemma ThirdOfThree(data: seq<byte>, i: nat, was: uint32, bits: nat, now: uint32)
    requires i < |data| && i % 3 == 2 && Held(data, i, was, bits) && Low8(was, data[i], now)
    ensures bits == 4 && NewSextets(data, i) == [now / 64 % 64, now % 64] && Held(data, i + 1, now, 0)
  {
    assert (i + 1) % 3 == 0;
  }

  // ------------------------------------------------------------------- loops

  /** The output string is all padding at first and is then written in place. */
  method Encode(data: seq<byte>) returns (r: string)
    ensures r == Encoded(data)
  {
    hide E0, E1, E2, E3, NewSextets, Complete, Held, Trailing, Sextets;
    var retval := new char[(|data| + 2) / 3 * 4](_ => '=');
    var outpos, bits, accumulator := EncodeBytes(data, retval);
    SextetsComplete(data);
    TrailingSextet(data, accumulator, bits);
    if bits > 0 {
      accumulator := accumulator * (if bits == 2 then 16 else 4) % TWO_32;
      OneSymbol(Complete(data, |data|), accumulator % 64);
      retval[outpos] := Symbol(accumulator % 64);
      outpos := outpos + 1;
    } else {
      assert Complete(data, |data|) + [] == Complete(data, |data|);
    }
    assert retval[..outpos] == Symbols(Sextets(data));
    assert retval[outpos..] == Padding(|data|);
    r := retval[..];
    assert r == retval[..outpos] + retval[outpos..];
  }

  /** The main loop. */
  method EncodeBytes(data: seq<byte>, retval: array<char>) returns (outpos: nat, bits: nat, accumulator: uint32)
    requires retval.Length == (|data| + 2) / 3 * 4 && forall k :: 0 <= k < retval.Length ==> retval[k] == '='
    modifies retval
    ensures outpos == |data| + |data| / 3 <= retval.Length && Held(data, |data|, accumulator, bits)
    ensures retval[..outpos] == Symbols(Complete(data, |data|))
    ensures forall k :: outpos <= k < retval.Length ==> retval[k] == '='
  {
    hide E0, E1, E2, E3, NewSextets, Shift8, Complete, Held;
    outpos, bits, accumulator := 0, 0, 0;
    StartsEmpty(data);
    for i := 0 to |data|
      invariant Held(data, i, accumulator, bits)
      invariant outpos == i + i / 3 <= retval.Length
      invariant retval[..outpos] == Symbols(Complete(data, i))
      invariant forall k :: outpos <= k < retval.Length ==> retval[k] == '='
    {
      OneByte(data, i, accumulator, bits);
      ghost var news, start, done := NewSextets(data, i), bits, 0;
      accumulator := Shift8(accumulator, data[i]);
      bits := bits + 8;
      CompleteStep(data, i);
      while bits >= 6
        invariant done <= |news| && bits == start + 8 - 6 * done
        invariant outpos == i + i / 3 + done <= retval.Length
        invariant retval[..outpos] == Symbols(Complete(data, i) + news[..done])
        invariant forall k :: outpos <= k < retval.Length ==> retval[k] == '='
      {
        bits := bits - 6;
        var v := Above(accumulator, bits) % 64;
        OneSymbol(Complete(data, i) + news[..done], v);
        retval[outpos] := Symbol(v);
        assert Complete(data, i) + news[..done + 1] == Complete(data, i) + news[..done] + [v];
        outpos := outpos + 1;
        done := done + 1;
      }
    }
  }

  lemma TrailingSextet(data: seq<byte>, accumulator: uint32, bits: nat)
    requires Held(data, |data|, accumulator, bits)
    ensures bits == if |data| % 3 == 0 then 0 else 2 * (|data| % 3)
    ensures bits == 0 ==> Trailing(data) == []
    ensures bits > 0 ==> Trailing(data) == [accumulator * (if bits == 2 then 16 else 4) % TWO_32 % 64]
  {
    if bits == 2 {
      assert accumulator * 16 % TWO_32 % 64 == accumulator % 4 * 16 by {
        LeftInPlace(accumulator, 16, 4);
      }
    } else if bits == 4 {
      assert accumulator * 4 % TWO_32 % 64 == accumulator % 16 * 4 by {
        LeftInPlace(accumulator, 4, 16);
      }
    }
  }

  lemma LeftInPlace(x: uint32, k: nat, m: nat)
    requires (k == 16 && m == 4) || (k == 4 && m == 16)
    ensures x * k % TWO_32 % 64 == x % m * k
  {
    var q, r, w := x / m, x % m, x * k / TWO_32;
    Quotient64(x * k % TWO_32, q - w * 0x400_0000, r * k);
  }

  lemma StartsEmpty(data: seq<byte>)
    ensures Held(data, 0, 0, 0) && Complete(data, 0) == []
  {
  }

  lemma CompleteStep(data: seq<byte>, i: nat)
    requires i < |data|
    ensures Complete(data, i + 1) == Complete(data, i) + NewSextets(data, i)
    ensures |NewSextets(data, i)| == (i + 1) + (i + 1) / 3 - i - i / 3
  {
  }

  lemma OneSymbol(vs: seq<Sextet>, v: Sextet)
    ensures Symbols(vs + [v]) == Symbols(vs) + [Symbol(v)]
  {
  }

  /** Skipped characters change nothing; any other character that is not a symbol
      makes the whole result empty. */
  method Decode(s: string) returns (r: seq<byte>)
    ensures r == Decoded(s)
  {
    hide ValueOf, D0, D1, D2, NewBytes, CompleteBytes, HeldSextets, Shift6;
    r := [];
    var bits, accumulator := 0, 0;
    StartsWithNothing();
    for i := 0 to |s|
      invariant Decodable(s[..i])
      invariant HeldSextets(ValuesIn(s[..i]), accumulator, bits)
      invariant r == CompleteBytes(ValuesIn(s[..i]), |ValuesIn(s[..i])|)
    {
      var c := s[i];
      assert s[..i + 1][..i] == s[..i];
      if IsSkipped(c) {
        continue;
      }
      if !IsSymbol(c) {
        return [];
      }
      ghost var vs := ValuesIn(s[..i]);
      OneSextet(vs, ValueOf(c), accumulator, bits);
      accumulator := Shift6(accumulator, ValueOf(c));
      bits := bits + 6;
      if bits >= 8 {
        bits := bits - 8;
        r := r + [Above(accumulator, bits) % 256];
      }
    }
    assert s[..|s|] == s;
    BytesComplete(ValuesIn(s));
  }

  predicate HeldSextets(vs: seq<Sextet>, accumulator: uint32, bits: nat) {
    if |vs| % 4 == 0 then bits == 0
    else if |vs| % 4 == 1 then bits == 6 && accumulator % 64 == vs[|vs| - 1]
    else if |vs| % 4 == 2 then bits == 4 && accumulator % 16 == vs[|vs| - 1] % 16
    else bits == 2 && accumulator % 4 == vs[|vs| - 1] % 4
  }

  lemma StartsWithNothing()
    ensures HeldSextets([], 0, 0) && CompleteBytes([], 0) == []
  {
  }

  lemma OneSextet(vs: seq<Sextet>, v: Sextet, accumulator: uint32, bits: nat)
    requires HeldSextets(vs, accumulator, bits)
    ensures
      var now, more := Shift6(accumulator, v), vs + [v];
      && HeldSextets(more, now, if bits + 6 >= 8 then bits - 2 else bits + 6)
      && CompleteBytes(more, |more|)
         == CompleteBytes(vs, |vs|) + (if bits + 6 >= 8 then [Above(now, bits - 2) % 256] else [])
  {
    HeldNext(vs, v, accumulator, bits);
    BytesNext(vs, v, accumulator, bits);
    hide Shift6, NewBytes, HeldSextets;
    SameBytes(vs, v, |vs|);
  }

  lemma HeldNext(vs: seq<Sextet>, v: Sextet, accumulator: uint32, bits: nat)
    requires HeldSextets(vs, accumulator, bits)
    ensures HeldSextets(vs + [v], Shift6(accumulator, v), if bits + 6 >= 8 then bits - 2 else bits + 6)
  {
    LowBits6(accumulator, v);
    hide Shift6;
  }

  lemma BytesNext(vs: seq<Sextet>, v: Sextet, accumulator: uint32, bits: nat)
    requires HeldSextets(vs, accumulator, bits)
    ensures NewBytes(vs + [v], |vs|)
         == if bits + 6 >= 8 then [Above(Shift6(accumulator, v), bits - 2) % 256] else []
  {
    LowBits6(accumulator, v);
    hide Shift6;
    AboveValues(Shift6(accumulator, v));
    if |vs| % 4 == 2 {
      assert (vs[|vs| - 1] % 16) * 16 + v / 4 == D1(vs[|vs| - 1], v);
    }
  }

  lemma {:induction false} SameBytes(vs: seq<Sextet>, v: Sextet, j: nat)
    requires j <= |vs|
    ensures CompleteBytes(vs + [v], j) == CompleteBytes(vs, j)
    decreases j
  {
    if j > 0 {
      SameBytes(vs, v, j - 1);
    }
  }
}
