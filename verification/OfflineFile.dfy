// The stored form of an offline transfer: a 960-byte header of fixed-width
// text fields, then the body.
module OfflineFile {
  import opened Bytes

  const HEADER_SIZE := 960
  const SEGMENT_SIZE := 32768
  const TWO_31 := 0x8000_0000

  datatype TaskInfo = TaskInfo(id: seq<byte>, fromUser: uint32, toUser: uint32, size: uint32)

  /** Task ids are non-empty names without a zero byte that fit their field, and
      numbers stay where atoi is defined. */
  predicate ValidInfo(info: TaskInfo) {
    && 2 <= |info.id| < 128 && 0 !in info.id
    && info.fromUser < TWO_31 && info.toUser < TWO_31
    && 0 < info.size < TWO_31
  }

  // -------------------------------------------------------------- text fields

  predicate IsDigit(b: byte) { 48 <= b <= 57 }

  function DigitValue(b: byte): nat
    requires IsDigit(b)
  {
    b as int - 48
  }

  /** printf's "%u". */
  function Digits(n: nat): (s: seq<byte>)
    ensures s != [] && forall i :: 0 <= i < |s| ==> IsDigit(s[i])
  {
    if n < 10 then [48 + n] else Digits(n / 10) + [48 + n % 10]
  }

  function Value(s: seq<byte>): nat
    requires forall i :: 0 <= i < |s| ==> IsDigit(s[i])
  {
    if s == [] then 0 else Value(s[..|s| - 1]) * 10 + DigitValue(s[|s| - 1])
  }

  function LeadingDigits(s: seq<byte>): (d: seq<byte>)
    ensures d <= s && forall i :: 0 <= i < |d| ==> IsDigit(d[i])
  {
    if s == [] || !IsDigit(s[0]) then [] else [s[0]] + LeadingDigits(s[1..])
  }

  /** atoi on unsigned text. */
  function Atoi(s: seq<byte>): nat {
    Value(LeadingDigits(s))
  }

  /** The text of a character array: all before the first zero byte. */
  function CString(s: seq<byte>): seq<byte> {
    if s == [] || s[0] == 0 then [] else [s[0]] + CString(s[1..])
  }

  function Pad(s: seq<byte>, width: nat): (r: seq<byte>)
    ensures |r| == width
  {
    if |s| >= width then s[..width] else s + seq(width - |s|, _ => 0)
  }

  lemma {:induction false} CStringOfPadded(s: seq<byte>, zeros: seq<byte>)
    requires 0 !in s && zeros != [] && zeros[0] == 0
    ensures CString(s + zeros) == s
  {
    if s != [] {
      assert (s + zeros)[1..] == s[1..] + zeros;
      CStringOfPadded(s[1..], zeros);
    } else {
      assert s + zeros == zeros;
    }
  }

  lemma {:induction false} ValueOfDigits(n: nat)
    ensures Value(Digits(n)) == n && 0 !in Digits(n)
  {
    if n >= 10 {
      ValueOfDigits(n / 10);
      assert Digits(n)[..|Digits(n)| - 1] == Digits(n / 10);
    }
  }

  lemma {:induction false} AllLeading(s: seq<byte>)
    requires forall i :: 0 <= i < |s| ==> IsDigit(s[i])
    ensures LeadingDigits(s) == s
  {
    if s != [] {
      AllLeading(s[1..]);
    }
  }

  function TenTo(k: nat): nat {
    if k == 0 then 1 else 10 * TenTo(k - 1)
  }

  lemma {:induction false} DigitsAreFew(n: nat, k: nat)
    requires k > 0 && n < TenTo(k)
    ensures |Digits(n)| <= k
  {
    if n >= 10 {
      DigitsAreFew(n / 10, k - 1);
    }
  }

  lemma NumberField(n: nat, width: nat)
    requires n < TWO_32 && width > 10
    ensures Atoi(CString(Pad(Digits(n), width))) == n
  {
    assert TenTo(10) == 10_000_000_000 by {
      assert TenTo(5) == 100_000;
    }
    DigitsAreFew(n, 10);
    ValueOfDigits(n);
    AllLeading(Digits(n));
    CStringOfPadded(Digits(n), seq(width - |Digits(n)|, _ => 0));
  }

  // ------------------------------------------------------------------ header

  function HeaderBytes(info: TaskInfo, createTime: nat): (s: seq<byte>)
    ensures |s| == HEADER_SIZE
  {
    Pad(info.id, 128) + Pad(Digits(info.fromUser), 64) + Pad(Digits(info.toUser), 64)
    + Pad(Digits(createTime), 128) + Pad([], 512) + Pad(Digits(info.size), 64)
  }

  function Wrap(n: nat): uint32 {
    n % TWO_32
  }

  function ReadHeader(s: seq<byte>): TaskInfo
    requires |s| >= HEADER_SIZE
  {
    TaskInfo(CString(s[..128]), Wrap(Atoi(CString(s[128..192]))), Wrap(Atoi(CString(s[192..256]))),
             Wrap(Atoi(CString(s[896..960]))))
  }

  lemma HeaderIsRead(info: TaskInfo, createTime: nat, body: seq<byte>)
    requires ValidInfo(info)
    ensures ReadHeader(HeaderBytes(info, createTime) + body) == info
  {
    hide Digits, Atoi, CString, Pad;
    var s := HeaderBytes(info, createTime) + body;
    assert s[..128] == Pad(info.id, 128) && s[128..192] == Pad(Digits(info.fromUser), 64);
    assert s[192..256] == Pad(Digits(info.toUser), 64) && s[896..960] == Pad(Digits(info.size), 64);
    IdField(info.id);
    NumberField(info.fromUser, 64);
    NumberField(info.toUser, 64);
    NumberField(info.size, 64);
  }

  lemma IdField(id: seq<byte>)
    requires |id| < 128 && 0 !in id
    ensures CString(Pad(id, 128)) == id
  {
    CStringOfPadded(id, seq(128 - |id|, _ => 0));
  }

  // ------------------------------------------------------------- reload rule

  /** LoadFromDisk takes a file just when it has a whole header and as many body
      bytes as the header says. */
  predicate Loadable(file: seq<byte>) {
    |file| >= HEADER_SIZE && |file| - HEADER_SIZE == ReadHeader(file).size
  }

  /** An upload writes a header and then the body; whatever moment cuts it off,
      the file loads again if and only if all of the body had arrived. */
  lemma LoadableOnlyWhole(info: TaskInfo, createTime: nat, body: seq<byte>, file: seq<byte>)
    requires ValidInfo(info) && |body| == info.size
    requires file <= HeaderBytes(info, createTime) + body
    ensures Loadable(file) <==> file == HeaderBytes(info, createTime) + body
    ensures Loadable(file) ==> ReadHeader(file) == info
  {
    hide HeaderBytes, ReadHeader;
    var h := HeaderBytes(info, createTime);
    if |file| >= HEADER_SIZE {
      assert file == h + file[HEADER_SIZE..];
      HeaderIsRead(info, createTime, file[HEADER_SIZE..]);
    }
  }

  // ---------------------------------------------------------------- segments

  /** SetMaxSegmentSize. */
  function Segments(size: nat): (n: nat) {
    if size % SEGMENT_SIZE != 0 then size / SEGMENT_SIZE + 1 else size / SEGMENT_SIZE
  }

  /** GetNextSegmentBlockSize. */
  function BlockSize(size: nat, idx: nat): int {
    if idx + 1 == Segments(size) then size - idx * SEGMENT_SIZE else SEGMENT_SIZE
  }

  /** Segment blocks tile the body: each starts where the one before ends, none
      is empty or over-long, and the last one ends with the body. */
  lemma SegmentsTile(size: nat, idx: nat)
    requires idx < Segments(size)
    ensures 0 < BlockSize(size, idx) <= SEGMENT_SIZE
    ensures idx * SEGMENT_SIZE + BlockSize(size, idx)
         == if idx + 1 == Segments(size) then size else (idx + 1) * SEGMENT_SIZE
    ensures idx * SEGMENT_SIZE + BlockSize(size, idx) <= size
  {
  }

  /** Block `idx` of a body. */
  function Block(body: seq<byte>, idx: nat): (block: seq<byte>)
    requires idx < Segments(|body|)
    ensures |block| == BlockSize(|body|, idx)
  {
    SegmentsTile(|body|, idx);
    body[idx * SEGMENT_SIZE..idx * SEGMENT_SIZE + BlockSize(|body|, idx)]
  }

  /** The first `k` blocks of a body, joined. */
  function Blocks(body: seq<byte>, k: nat): seq<byte>
    requires k <= Segments(|body|)
  {
    if k == 0 then [] else Blocks(body, k - 1) + Block(body, k - 1)
  }

  /** Joining blocks in order makes a prefix of the body, and all of them the
      whole. */
  lemma {:induction false} BlocksJoin(body: seq<byte>, k: nat)
    requires k <= Segments(|body|)
    ensures k == Segments(|body|) ==> Blocks(body, k) == body
    ensures k < Segments(|body|) ==> k * SEGMENT_SIZE <= |body| && Blocks(body, k) == body[..k * SEGMENT_SIZE]
    decreases k
  {
    if k > 0 {
      BlocksJoin(body, k - 1);
      SegmentsTile(|body|, k - 1);
      if k < Segments(|body|) {
        SegmentsTile(|body|, k);
      }
    } else if Segments(|body|) == 0 {
      assert body == [];
    }
  }
}
