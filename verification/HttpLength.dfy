// Bodies framed by Content-Length (section 4.4 of RFC 2616): the length the
// parser accumulates, and the body it delivers for it.
module HttpLength {
  import opened Decimal
  import opened HttpTypes
  import opened HttpStep
  import opened HttpInvariant
  import opened HttpHeaders

  // ---- the digits ---------------------------------------------------------

  /** About to read the value of a Content-Length header, with room for `n` bytes. */
  predicate AtLengthValue(c: Config, n: nat) {
    && Running(c) && Inv(c.p) && c.p.state.HeaderValueStart? && c.p.headerState.ContentLength?
    && c.p.nread + n <= MAX_HEADER_SIZE
  }

  lemma FirstDigit(p: Parser, ch: char)
    requires p.errno.Ok? && p.state.HeaderValueStart? && p.headerState.ContentLength? && IsNum(ch)
    ensures React(p, ch) ==
      Reaction(p.(state := HeaderValue, index := 0, contentLength := Digit(ch)), [Data(Value, ch)], Advance)
  {
  }

  lemma NextDigit(p: Parser, ch: char)
    requires p.errno.Ok? && p.state.HeaderValue? && p.headerState.ContentLength? && IsNum(ch)
    ensures React(p, ch) ==
      match AppendDigit(p.contentLength, Digit(ch), 10)
      case None => Reaction(p.(errno := InvalidContentLength), [], Advance)
      case Some(t) => Reaction(p.(contentLength := t), [Data(Value, ch)], Advance)
  {
    hide AppendDigit;
  }

  /** Below the limit a digit is appended as it should be. */
  lemma AppendExact(length: nat, d: nat, base: nat)
    requires length <= length * base + d < NO_LENGTH
    ensures AppendDigit(length, d, base) == Some(length * base + d)
  {
    SmallSum(length * base, d);
  }

  lemma SmallSum(m: nat, d: nat)
    requires m + d < TWO_64
    ensures (m % TWO_64 + d) % TWO_64 == m + d
  {
    assert m % TWO_64 == m;
  }

  /** Below the limit no digit is refused and the length is the value. */
  lemma {:induction false} LengthIsRead(c: Config, d: string)
    requires AllDigits(d) && AtLengthValue(c, |d|) && DecValue(d) < NO_LENGTH
    ensures Run(c, d) ==
      Config(c.p.(state := HeaderValue, index := 0, contentLength := DecValue(d), nread := c.p.nread + |d|),
             c.trace + Bytes(Value, d), c.taken + |d|, false)
  {
    hide React, Feed, Run, AppendDigit, Inv;
    var v, ch := d[..|d| - 1], d[|d| - 1];
    BytesSnoc(Value, v, ch);
    assert d == v + [ch];
    if v == "" {
      assert d == [ch];
      RunOne(c, ch);
      var p := c.p.(nread := c.p.nread + 1);
      FirstDigit(p, ch);
      FeedCounted(c, ch, React(p, ch));
      assert Bytes(Value, d) == [Data(Value, ch)];
    } else {
      LengthIsRead(c, v);
      RunLast(c, v, ch);
      var q := Run(c, v).p;
      var p := q.(nread := q.nread + 1);
      NextDigit(p, ch);
      AppendExact(DecValue(v), Digit(ch), 10);
      FeedCounted(Run(c, v), ch, React(p, ch));
      assert (c.trace + Bytes(Value, v)) + [Data(Value, ch)] == c.trace + Bytes(Value, d);
    }
  }

  /** While digits are read without an error the length stays below the limit. */
  lemma {:induction false} LengthStaysBelow(c: Config, d: string)
    requires AllDigits(d) && AtLengthValue(c, |d|)
    ensures var r := Run(c, d);
      Running(r) ==>
        && r.p.state.HeaderValue? && r.p.headerState.ContentLength?
        && r.p.contentLength < NO_LENGTH && r.p.nread == c.p.nread + |d|
  {
    hide React, Step;
    var v, ch := d[..|d| - 1], d[|d| - 1];
    if v == "" {
      assert Run(c, v) == c;
      CountedStep(c.p, ch);
      FirstDigit(c.p.(nread := c.p.nread + 1), ch);
    } else {
      LengthStaysBelow(c, v);
      var q := Run(c, v).p;
      if Running(Run(c, v)) {
        CountedStep(q, ch);
        NextDigit(q.(nread := q.nread + 1), ch);
      }
    }
  }

  /** The accumulated length is the value of the numeral exactly when the value
      is below 2^64 - 1. */
  lemma LengthExactlyBelow(c: Config, d: string)
    requires AllDigits(d) && AtLengthValue(c, |d|)
    ensures var r := Run(c, d);
      Running(r) && r.p.contentLength == DecValue(d) <==> DecValue(d) < NO_LENGTH
  {
    LengthStaysBelow(c, d);
    if DecValue(d) < NO_LENGTH {
      LengthIsRead(c, d);
    }
  }

  lemma {:induction false} Zeros(d: string, n: nat)
    requires AllDigits(d) && d[0] == '3' && |d| == n + 1
    requires forall i :: 0 < i < |d| ==> d[i] == '0'
    ensures n == 0 ==> DecValue(d) == 3
    ensures n > 0 ==> DecValue(d) == 10 * DecValue(d[..n]) && AllDigits(d[..n])
  {
    if n == 0 {
      assert d[..0] == "" && DecValue(d) == DecValue(d[..0]) * 10 + Digit(d[0]);
    }
  }

  /** The overflow test does not catch every larger value: a numeral beyond
      2^64 is accepted as a different length. */
  lemma LengthWraps(c: Config)
    requires AtLengthValue(c, 20)
    ensures var d := "30000000000000000000";
      && AllDigits(d) && DecValue(d) == 30_000_000_000_000_000_000
      && Running(Run(c, d)) && Run(c, d).p.contentLength == 11_553_255_926_290_448_384
  {
    hide React, Step, Run, DecValue;
    var d := "30000000000000000000";
    var e := "3000000000000000000";
    assert d[..19] == e;
    ThreeTo18(e);
    Zeros(d, 19);
    LengthIsRead(c, e);
    RunConcat(c, e, "0");
    assert e + "0" == d;
    var q := Run(c, e);
    RunOne(q, '0');
    CountedStep(q.p, '0');
    NextDigit(q.p.(nread := q.p.nread + 1), '0');
  }

  lemma ThreeTo18(e: string)
    requires e == "3000000000000000000"
    ensures AllDigits(e) && DecValue(e) == 3_000_000_000_000_000_000
  {
    hide DecValue;
    ThreeThen(e, 18);
    assert Pow10(6) == 1_000_000;
    assert Pow10(12) == 1_000_000_000_000;
    assert Pow10(18) == 1_000_000_000_000_000_000;
  }

  function Pow10(n: nat): nat { if n == 0 then 1 else 10 * Pow10(n - 1) }

  lemma {:induction false} ThreeThen(d: string, n: nat)
    requires |d| == n + 1 && d[0] == '3' && forall i :: 0 < i < |d| ==> d[i] == '0'
    ensures AllDigits(d) && DecValue(d) == 3 * Pow10(n)
  {
    Zeros(d, n);
    if n > 0 {
      ThreeThen(d[..n], n - 1);
    }
  }
}
