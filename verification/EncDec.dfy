// CAes: how a message is laid out in 16-byte blocks with its length at the end,
// around a block cipher that is not this program's own.
module EncDec {
  import opened Bytes
  import opened Base64

  const BLOCK := 16

  datatype Cipher = Cipher(encrypt: seq<byte> -> seq<byte>, decrypt: seq<byte> -> seq<byte>)

  /** Blocks go to blocks, and decrypting undoes encrypting. */
  ghost predicate Invertible(c: Cipher) {
    && (forall b: seq<byte> :: |b| == BLOCK ==> |c.encrypt(b)| == BLOCK && c.decrypt(c.encrypt(b)) == b)
    && (forall b: seq<byte> :: |b| == BLOCK ==> |c.decrypt(b)| == BLOCK)
  }

  /** The number of blocks that Encrypt uses. */
  function BlockCount(n: nat): nat {
    (n + 15) / 16 + (if n % 16 > 12 || n % 16 == 0 then 1 else 0)
  }

  /** It is the least number of blocks that holds the message and four bytes more,
      so the length never overlaps the message. */
  lemma BlockCountIsLeast(n: nat)
    ensures n + 4 <= BlockCount(n) * BLOCK < n + 4 + BLOCK && BlockCount(n) * BLOCK % BLOCK == 0
  {
  }

  function Zeros(n: nat): seq<byte> {
    seq(n, _ => 0)
  }

  /** Message, zero bytes, length. */
  function Layout(x: seq<byte>): (s: seq<byte>)
    requires |x| < TWO_32
    ensures |s| == BlockCount(|x|) * BLOCK && |s| % BLOCK == 0
  {
    BlockCountIsLeast(|x|);
    x + Zeros(BlockCount(|x|) * BLOCK - |x| - 4) + Put32(|x|)
  }

  function MapBlocks(f: seq<byte> -> seq<byte>, s: seq<byte>): seq<byte>
    requires |s| % BLOCK == 0
  {
    if s == [] then [] else f(s[..BLOCK]) + MapBlocks(f, s[BLOCK..])
  }

  lemma {:induction false} BlocksKeepLength(f: seq<byte> -> seq<byte>, s: seq<byte>)
    requires |s| % BLOCK == 0 && forall b: seq<byte> :: |b| == BLOCK ==> |f(b)| == BLOCK
    ensures |MapBlocks(f, s)| == |s|
    decreases |s|
  {
    if s != [] {
      BlocksKeepLength(f, s[BLOCK..]);
    }
  }

  lemma {:induction false} BlocksRoundTrip(c: Cipher, s: seq<byte>)
    requires Invertible(c) && |s| % BLOCK == 0
    ensures |MapBlocks(c.encrypt, s)| == |s| && MapBlocks(c.decrypt, MapBlocks(c.encrypt, s)) == s
    decreases |s|
  {
    if s != [] {
      BlocksRoundTrip(c, s[BLOCK..]);
      var head, tail := c.encrypt(s[..BLOCK]), MapBlocks(c.encrypt, s[BLOCK..]);
      assert (head + tail)[..BLOCK] == head && (head + tail)[BLOCK..] == tail;
      assert s == s[..BLOCK] + s[BLOCK..];
    }
  }

  lemma {:induction false} OneMoreBlock(f: seq<byte> -> seq<byte>, s: seq<byte>, b: seq<byte>)
    requires |s| % BLOCK == 0 && |b| == BLOCK
    ensures MapBlocks(f, s + b) == MapBlocks(f, s) + f(b)
    decreases |s|
  {
    if s == [] {
      assert (s + b)[..BLOCK] == b && (s + b)[BLOCK..] == [];
    } else {
      OneMoreBlock(f, s[BLOCK..], b);
      assert (s + b)[..BLOCK] == s[..BLOCK] && (s + b)[BLOCK..] == s[BLOCK..] + b;
    }
  }

  // The results of both calls: their error codes, or text.
  datatype Result<T> = Fail(code: int) | Done(value: T)

  function Encrypted(c: Cipher, x: seq<byte>): string
    requires |x| < TWO_32
  {
    Encoded(MapBlocks(c.encrypt, Layout(x)))
  }

  ghost function Decrypted(c: Cipher, s: string): Result<seq<byte>>
    requires Invertible(c)
  {
    var raw := Decoded(s);
    if s == [] then Fail(-1)
    else if raw == [] then Fail(-2)
    else if |raw| % BLOCK != 0 then Fail(-3)
    else
      BlocksKeepLength(c.decrypt, raw);
      assert |raw| >= BLOCK;
      var plain := MapBlocks(c.decrypt, raw);
      var n := Get32(plain[|plain| - 4..]);
      if n > |raw| then Fail(-4) else Done(plain[..n])
  }

  /** Lengths up to this one stay below 2^32 after padding and base64. */
  const MAX_INPUT := 0xBFFF_FFE0

  lemma SizesFit(n: nat)
    requires n <= MAX_INPUT
    ensures (BlockCount(n) * BLOCK + 2) / 3 * 4 < TWO_32
  {
    BlockCountIsLeast(n);
  }

  /** The text still has a length of 32 bits. */
  lemma EncryptedFits(c: Cipher, x: seq<byte>)
    requires Invertible(c) && |x| <= MAX_INPUT
    ensures |Encrypted(c, x)| < TWO_32
  {
    SizesFit(|x|);
    BlocksRoundTrip(c, Layout(x));
    EncodedLength(MapBlocks(c.encrypt, Layout(x)));
    hide Encoded, MapBlocks, Layout;
  }

  /** Whatever non-empty message is encrypted comes back, whatever the cipher. */
  lemma DecryptInvertsEncrypt(c: Cipher, x: seq<byte>)
    requires Invertible(c) && 0 < |x| <= MAX_INPUT
    ensures Decrypted(c, Encrypted(c, x)) == Done(x)
  {
    var s := Layout(x);
    BlockCountIsLeast(|x|);
    BlocksRoundTrip(c, s);
    var raw := MapBlocks(c.encrypt, s);
    DecodeInvertsEncode(raw);
    EncodedLength(raw);
    hide Encoded, Decoded, MapBlocks;
    assert s[|s| - 4..] == Put32(|x|) + [];
    GetPut32(|x|, []);
    assert s[..|x|] == x;
  }

  method Encrypt(c: Cipher, x: seq<byte>) returns (r: Result<string>)
    requires Invertible(c) && |x| <= MAX_INPUT
    ensures r == if x == [] then Fail(-1) else Done(Encrypted(c, x))
    ensures r.Done? ==> |r.value| < TWO_32
  {
    hide MapBlocks, Encoded, Put32, Invertible;
    if |x| == 0 {
      return Fail(-1);
    }
    var remain := |x| % 16;
    var blocks := (|x| + 15) / 16;
    if remain > 12 || remain == 0 {
      blocks := blocks + 1;
    }
    BlockCountIsLeast(|x|);
    var data := new byte[blocks * BLOCK](_ => 0);
    var trailer := Put32(|x|);
    forall i | 0 <= i < |x| {
      data[i] := x[i];
    }
    forall i | 0 <= i < 4 {
      data[data.Length - 4 + i] := trailer[i];
    }
    assert data[..] == Layout(x);
    var encrypted := ApplyBlocks(c, true, data[..]);
    var text := Encode(encrypted);
    EncryptedFits(c, x);
    r := Done(text);
  }

  /** The block loop, both ways. */
  method ApplyBlocks(c: Cipher, forward: bool, data: seq<byte>) returns (r: seq<byte>)
    requires Invertible(c) && |data| % BLOCK == 0
    ensures r == MapBlocks(if forward then c.encrypt else c.decrypt, data)
  {
    hide MapBlocks, Invertible;
    ghost var f := if forward then c.encrypt else c.decrypt;
    var out := new byte[|data|];
    NoBlocks(f);
    assert data[..0] == [] && out[..0] == [];
    var at := 0;
    while at < |data|
      invariant 0 <= at <= |data| && at % BLOCK == 0
      invariant out[..at] == MapBlocks(f, data[..at])
    {
      var from := data[at..at + BLOCK];
      var to := if forward then c.encrypt(from) else c.decrypt(from);
      BlockToBlock(c, from);
      OneMoreBlock(f, data[..at], from);
      assert data[..at] + from == data[..at + BLOCK];
      PutBlock(out, at, to);
      at := at + BLOCK;
    }
    assert data[..|data|] == data && out[..|data|] == out[..];
    r := out[..];
  }

  method PutBlock(out: array<byte>, at: nat, block: seq<byte>)
    requires |block| == BLOCK && at + BLOCK <= out.Length
    modifies out
    ensures out[..at + BLOCK] == old(out[..at]) + block
  {
    forall k | 0 <= k < BLOCK {
      out[at + k] := block[k];
    }
  }

  lemma BlockToBlock(c: Cipher, b: seq<byte>)
    requires Invertible(c) && |b| == BLOCK
    ensures |c.encrypt(b)| == BLOCK && |c.decrypt(b)| == BLOCK
  {
  }

  lemma NoBlocks(f: seq<byte> -> seq<byte>)
    ensures MapBlocks(f, []) == []
  {
  }

  method Decrypt(c: Cipher, s: string) returns (r: Result<seq<byte>>)
    requires Invertible(c)
    ensures r == Decrypted(c, s)
  {
    hide MapBlocks, Decoded, Get32, Invertible;
    if |s| == 0 {
      return Fail(-1);
    }
    var raw := Decode(s);
    if |raw| == 0 {
      return Fail(-2);
    }
    if |raw| % BLOCK != 0 {
      return Fail(-3);
    }
    assert |MapBlocks(c.decrypt, raw)| == |raw| by {
      DecryptKeepsLength(c, raw);
    }
    var plain := ApplyBlocks(c, false, raw);
    var n := Get32(plain[|raw| - 4..]);
    if n > |raw| {
      return Fail(-4);
    }
    r := Done(plain[..n]);
  }

  lemma DecryptKeepsLength(c: Cipher, s: seq<byte>)
    requires Invertible(c) && |s| % BLOCK == 0
    ensures |MapBlocks(c.decrypt, s)| == |s|
  {
    BlocksKeepLength(c.decrypt, s);
  }
}
