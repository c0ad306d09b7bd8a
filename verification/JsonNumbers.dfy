// Plain integers as a number codec: the assumptions about numbers can be met.
module JsonNumbers {
  import opened JsonText
  import opened JsonParse
  import opened JsonRoundTrip

  function Digits(n: nat): (s: string)
    ensures s != "" && IsDigit(s[0])
  {
    if n < 10 then ['0' + n as char] else Digits(n / 10) + ['0' + (n % 10) as char]
  }

  datatype Run = Run(n: nat, rest: string)

  function ScanDigits(s: string, before: nat): (r: Run)
    ensures |r.rest| <= |s|
  {
    if s != "" && IsDigit(s[0]) then ScanDigits(s[1..], before * 10 + (s[0] as int - '0' as int)) else Run(before, s)
  }

  function PrintInt(n: Num): string {
    if n < 0 then "-" + Digits(-n) else Digits(n)
  }

  function ScanInt(s: string): Scan {
    var minus := s != "" && s[0] == '-';
    var digits := if minus then s[1..] else s;
    if digits == "" || !IsDigit(digits[0]) then Scan(false, 0, s)
    else
      var r := ScanDigits(digits, 0);
      var n: int := r.n;
      Scan(true, if minus then -n else n, r.rest)
  }

  lemma {:induction false} DigitsScanned(n: nat, rest: string)
    ensures ScanDigits(Digits(n) + rest, 0) == ScanDigits(rest, n)
    decreases n
  {
    var last := ['0' + (n % 10) as char];
    assert (last + rest)[1..] == rest;
    if n >= 10 {
      assert Digits(n) + rest == Digits(n / 10) + (last + rest);
      DigitsScanned(n / 10, last + rest);
    }
  }

  function IntegerCodec(): Codec {
    Codec(n => PrintInt(n), s => ScanInt(s))
  }

  lemma IntegersAreFaithful()
    ensures Faithful(IntegerCodec())
  {
    var c := IntegerCodec();
    forall n, rest | Follows(rest) ensures c.scan(c.print_(n) + rest) == Scan(true, n, rest) {
      IntegerRead(n, rest);
    }
  }

  lemma IntegerRead(n: Num, rest: string)
    requires Follows(rest)
    ensures ScanInt(PrintInt(n) + rest) == Scan(true, n, rest)
  {
    var m: nat := if n < 0 then -n else n;
    DigitsScanned(m, rest);
    assert ScanDigits(rest, m) == Run(m, rest);
    hide ScanDigits, Digits;
    var s := PrintInt(n) + rest;
    if n < 0 {
      assert s[1..] == Digits(m) + rest;
    } else {
      assert IsDigit(s[0]) && s[0] != '-';
    }
  }
}
