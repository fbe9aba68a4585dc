/** `crates/hekma-engine/src/sha256.rs`: the engine's in-place, streaming SHA-256. */
module Sha256 {
  import opened Sha256Standard

  // The four mixing functions with the processor's rotations, as the implementation has them.

  function RotatedSmall0(x: Word): (r: Word)
    ensures r == SmallSigma0(x)
  {
    x.RotateRight(7) ^ x.RotateRight(18) ^ (x >> 3)
  }

  function RotatedSmall1(x: Word): (r: Word)
    ensures r == SmallSigma1(x)
  {
    x.RotateRight(17) ^ x.RotateRight(19) ^ (x >> 10)
  }

  function RotatedBig0(x: Word): (r: Word)
    ensures r == BigSigma0(x)
  {
    x.RotateRight(2) ^ x.RotateRight(13) ^ x.RotateRight(22)
  }

  function RotatedBig1(x: Word): (r: Word)
    ensures r == BigSigma1(x)
  {
    x.RotateRight(6) ^ x.RotateRight(11) ^ x.RotateRight(25)
  }

  function Choice(x: Word, y: Word, z: Word): (r: Word)
    ensures r == Ch(x, y, z)
  {
    (x & y) ^ (!x & z)
  }

  function Majority(x: Word, y: Word, z: Word): (r: Word)
    ensures r == Maj(x, y, z)
  {
    (x & y) ^ (x & z) ^ (y & z)
  }

  /** The implementation's `wrapping_add`. */
  function WrappingAdd(x: Word, y: Word): (r: Word)
    ensures r == Plus(x, y)
  {
    x + y
  }

  lemma PlusCommutes(x: Word, y: Word)
    ensures Plus(x, y) == Plus(y, x)
  {
  }

  /** The implementation's chain of four wrapping additions, in the opposite order to the standard's. */
  function WrappingSum4(x: Word, y: Word, z: Word, u: Word): (r: Word)
    ensures r == Sum4(u, z, y, x)
  {
    x + y + z + u
  }

  lemma ScheduleUnfolds(block: seq<Byte>, t: nat)
    requires |block| == 64
    ensures
      var w := Schedule(block, t);
      Schedule(block, t + 1) == w + [if t < 16 then WordOfBytes(block[4 * t..4 * t + 4])
                                     else Sum4(SmallSigma1(w[t - 2]), w[t - 7],
                                               SmallSigma0(w[t - 15]), w[t - 16])]
  {
    hide WordOfBytes, Sum4, SmallSigma0, SmallSigma1;
  }

  /** Fills the message schedule: 16 words from the block, then 48 by recurrence. */
  method FillSchedule(block: seq<Byte>) returns (w: array<Word>)
    requires |block| == 64
    ensures fresh(w) && w[..] == Schedule(block, 64)
  {
    hide *;
    w := new Word[64](_ => 0);
    for i := 0 to 16
      invariant w[..i] == Schedule(block, i)
    {
      ScheduleUnfolds(block, i);
      w[i] := WordOfBytes(block[4 * i..4 * i + 4]);
    }
    for i := 16 to 64
      invariant w[..i] == Schedule(block, i)
    {
      ScheduleUnfolds(block, i);
      ghost var filled := w[..i];
      var s0 := RotatedSmall0(w[i - 15]);
      var s1 := RotatedSmall1(w[i - 2]);
      w[i] := WrappingSum4(w[i - 16], s0, w[i - 7], s1);
      assert w[..i + 1] == filled + [w[i]];
    }
  }

  lemma RoundsUnfold(hash: seq<Word>, block: seq<Byte>, t: nat)
    requires |hash| == 8 && |block| == 64 && t < 64
    ensures Rounds(hash, block, t + 1) == Round(Rounds(hash, block, t), K[t], Schedule(block, 64)[t])
  {
    hide Round, Schedule;
  }

  /** One round of the implementation: the eight variables after one turn of its loop. */
  method RotateVariables(v: Working, k: Word, w: Word)
    returns (a: Word, b: Word, c: Word, d: Word, e: Word, f: Word, g: Word, h: Word)
    ensures Working(a, b, c, d, e, f, g, h) == Round(v, k, w)
  {
    hide BigSigma0, BigSigma1, RotatedBig0, RotatedBig1, Ch, Maj, Plus, Choice, Majority, WrappingAdd;
    a, b, c, d, e, f, g, h := v.a, v.b, v.c, v.d, v.e, v.f, v.g, v.h;
    var temp1 := WrappingAdd(WrappingAdd(WrappingAdd(WrappingAdd(h, RotatedBig1(e)), Choice(e, f, g)), k), w);
    var temp2 := WrappingAdd(RotatedBig0(a), Majority(a, b, c));
    h := g;
    g := f;
    f := e;
    e := WrappingAdd(d, temp1);
    d := c;
    c := b;
    b := a;
    a := WrappingAdd(temp1, temp2);
  }

  /** The implementation adds each variable to its word of state, the standard the other way round. */
  lemma CompressSums(hash: seq<Word>, block: seq<Byte>, v: Working)
    requires |hash| == 8 && |block| == 64 && v == Rounds(hash, block, 64)
    ensures Compress(hash, block)
         == [Plus(hash[0], v.a), Plus(hash[1], v.b), Plus(hash[2], v.c), Plus(hash[3], v.d),
             Plus(hash[4], v.e), Plus(hash[5], v.f), Plus(hash[6], v.g), Plus(hash[7], v.h)]
  {
    hide Rounds, Plus;
    forall x: Word, y: Word ensures Plus(x, y) == Plus(y, x) {
      PlusCommutes(x, y);
    }
  }

  /** Adds four working variables into four words of the state. */
  method AddFour(h: array<Word>, k: nat, x: Word, y: Word, z: Word, u: Word)
    requires k + 4 <= h.Length
    modifies h
    ensures h[..k] == old(h[..k]) && h[k + 4..] == old(h[k + 4..])
    ensures h[k] == Plus(old(h[k]), x) && h[k + 1] == Plus(old(h[k + 1]), y)
    ensures h[k + 2] == Plus(old(h[k + 2]), z) && h[k + 3] == Plus(old(h[k + 3]), u)
  {
    hide Plus, WrappingAdd;
    h[k] := WrappingAdd(h[k], x);
    h[k + 1] := WrappingAdd(h[k + 1], y);
    h[k + 2] := WrappingAdd(h[k + 2], z);
    h[k + 3] := WrappingAdd(h[k + 3], u);
  }

  /** Adds the working variables into the state. */
  method AddInPlace(h: array<Word>, v: Working)
    requires h.Length == 8
    modifies h
    ensures
      var s := old(h[..]);
      h[..] == [Plus(s[0], v.a), Plus(s[1], v.b), Plus(s[2], v.c), Plus(s[3], v.d),
                Plus(s[4], v.e), Plus(s[5], v.f), Plus(s[6], v.g), Plus(s[7], v.h)]
  {
    hide Plus;
    ghost var s := h[..];
    AddFour(h, 0, v.a, v.b, v.c, v.d);
    ghost var t := h[..];
    assert t[4..] == s[4..];
    assert t[4] == s[4] && t[5] == s[5] && t[6] == s[6] && t[7] == s[7];
    AddFour(h, 4, v.e, v.f, v.g, v.h);
    assert h[..4] == t[..4];
    assert h[0] == t[0] && h[1] == t[1] && h[2] == t[2] && h[3] == t[3];
  }

  /** The in-place compression of one block: 64 rounds over eight rotating variables, added
      into `h`. */
  method CompressInPlace(h: array<Word>, block: seq<Byte>)
    requires h.Length == 8 && |block| == 64
    modifies h
    ensures h[..] == Compress(old(h[..]), block)
  {
    hide Rounds, Round, Schedule, WordOfBytes, Plus, Compress;
    var w := FillSchedule(block);
    ghost var start := h[..];
    var a, b, c, d, e, f, g, hh := h[0], h[1], h[2], h[3], h[4], h[5], h[6], h[7];
    RoundsStart(start, block);
    for i := 0 to 64
      invariant h[..] == start && w[..] == Schedule(block, 64)
      invariant Working(a, b, c, d, e, f, g, hh) == Rounds(start, block, i)
    {
      RoundsUnfold(start, block, i);
      a, b, c, d, e, f, g, hh := RotateVariables(Working(a, b, c, d, e, f, g, hh), K[i], w[i]);
    }
    CompressSums(start, block, Working(a, b, c, d, e, f, g, hh));
    AddInPlace(h, Working(a, b, c, d, e, f, g, hh));
  }

  lemma RoundsStart(hash: seq<Word>, block: seq<Byte>)
    requires |hash| == 8 && |block| == 64
    ensures Rounds(hash, block, 0)
         == Working(hash[0], hash[1], hash[2], hash[3], hash[4], hash[5], hash[6], hash[7])
  {
  }

  // ---------- The digest: whole blocks as they come, then one or two tail blocks ----------

  lemma HashBlocksExtends(p: seq<Byte>, block: seq<Byte>)
    requires |p| % 64 == 0 && |block| == 64
    ensures HashBlocks(p + block) == Compress(HashBlocks(p), block)
  {
    hide Compress;
    assert (p + block)[..|p + block| - 64] == p;
    assert (p + block)[|p + block| - 64..] == block;
  }

  /** What is left of a message after its whole blocks. */
  function Remainder(m: seq<Byte>): (r: seq<Byte>)
    ensures |r| < 64
    ensures m == m[..|m| / 64 * 64] + r
  {
    m[|m| / 64 * 64..]
  }

  /** The bytes after the whole blocks: one block when the remainder leaves room for the marker
      and the length, two otherwise. */
  function Tail(r: seq<Byte>, len: seq<Byte>): (t: seq<Byte>)
    requires |r| < 64 && |len| == 8
    ensures |t| == if |r| + 1 <= 56 then 64 else 128
  {
    if |r| + 1 <= 56 then
      r + [0x80] + Zeros(55 - |r|) + len
    else
      (r + [0x80] + Zeros(63 - |r|)) + (Zeros(56) + len)
  }

  lemma PadTail(m: seq<Byte>)
    ensures Pad(m) == m[..|m| / 64 * 64] + Tail(Remainder(m), BigEndian(BitLength(|m|), 8))
  {
    var r := Remainder(m);
    assert |r| == |m| % 64;
    if |r| + 1 <= 56 {
      assert ZeroBytes(|m|) == 55 - |r|;
    } else {
      assert ZeroBytes(|m|) == (63 - |r|) + 56;
      assert Zeros(ZeroBytes(|m|)) == Zeros(63 - |r|) + Zeros(56);
    }
  }

  method CompressWholeBlocks(h: array<Word>, data: seq<Byte>)
    requires h.Length == 8 && h[..] == H0
    modifies h
    ensures h[..] == HashBlocks(data[..|data| / 64 * 64])
  {
    hide Compress;
    for i := 0 to |data| / 64
      invariant h[..] == HashBlocks(data[..64 * i])
    {
      CompressInPlace(h, data[64 * i..64 * i + 64]);
      HashBlocksExtends(data[..64 * i], data[64 * i..64 * i + 64]);
      assert data[..64 * i] + data[64 * i..64 * i + 64] == data[..64 * (i + 1)];
    }
  }

  /** The last block's buffer: the remainder, the marker and zeros. */
  method FillLast(remainder: seq<Byte>) returns (last: array<Byte>)
    requires |remainder| < 64
    ensures fresh(last) && last.Length == 64
    ensures last[..] == remainder + [0x80] + Zeros(63 - |remainder|)
  {
    last := new Byte[64](_ => 0);
    forall i | 0 <= i < |remainder| {
      last[i] := remainder[i];
    }
    last[|remainder|] := 0x80;
  }

  method ClearBlock(last: array<Byte>)
    requires last.Length == 64
    modifies last
    ensures last[..] == Zeros(64)
  {
    forall i | 0 <= i < 64 {
      last[i] := 0;
    }
  }

  /** The length goes into the last eight bytes. */
  method PutLength(last: array<Byte>, lenBytes: seq<Byte>)
    requires last.Length == 64 && |lenBytes| == 8
    modifies last
    ensures last[..] == old(last[..56]) + lenBytes
  {
    forall i | 56 <= i < 64 {
      last[i] := lenBytes[i - 56];
    }
  }

  /** Finishes the hash of `whole` with one or two compressions of a reused 64-byte buffer. */
  method CompressTail(h: array<Word>, remainder: seq<Byte>, bitLen: nat, ghost whole: seq<Byte>)
    requires h.Length == 8 && |remainder| < 64 && |whole| % 64 == 0
    requires h[..] == HashBlocks(whole)
    modifies h
    ensures h[..] == HashBlocks(whole + Tail(remainder, BigEndian(bitLen, 8)))
  {
    hide Compress, BigEndian, HashBlocks, Zeros;
    var last := FillLast(remainder);
    var lenBytes := BigEndian(bitLen, 8);
    ghost var p := whole;
    if |remainder| + 1 > 56 {
      HashBlocksExtends(p, last[..]);
      p := p + last[..];
      CompressInPlace(h, last[..]);
      ClearBlock(last);
    }
    ghost var front := last[..56];
    PutLength(last, lenBytes);
    HashBlocksExtends(p, last[..]);
    TailBlocks(remainder, lenBytes, front);
    assert |remainder| + 1 <= 56 ==> p + last[..] == whole + (front + lenBytes);
    assert |remainder| + 1 > 56 ==>
        p + last[..] == whole + ((remainder + [0x80] + Zeros(63 - |remainder|)) + (front + lenBytes));
    CompressInPlace(h, last[..]);
  }

  /** What stands before the length in the last block. */
  lemma TailBlocks(r: seq<Byte>, len: seq<Byte>, front: seq<Byte>)
    requires |r| < 64 && |len| == 8
    requires front == if |r| + 1 <= 56 then (r + [0x80] + Zeros(63 - |r|))[..56] else Zeros(64)[..56]
    ensures Tail(r, len) == if |r| + 1 <= 56 then front + len
                            else (r + [0x80] + Zeros(63 - |r|)) + (front + len)
  {
    if |r| + 1 <= 56 {
      assert front == r + [0x80] + Zeros(55 - |r|);
    } else {
      assert front == Zeros(56);
    }
  }

  /** `digest`: never builds the padded message, yet computes the standard's digest of it. */
  method DigestStreaming(data: seq<Byte>) returns (out: seq<Byte>)
    ensures out == Digest(data)
  {
    hide Compress, HashBlocks, BigEndian, Pad, Tail, BytesOfWords, BitLength;
    var h := new Word[8](i requires 0 <= i < 8 => H0[i]);
    var bitLen := BitLength(|data|);
    assert h[..] == H0;
    CompressWholeBlocks(h, data);
    CompressTail(h, data[|data| / 64 * 64..], bitLen, data[..|data| / 64 * 64]);
    PadTail(data);
    out := OutputWords(h);
  }

  method OutputWords(h: array<Word>) returns (out: seq<Byte>)
    ensures out == BytesOfWords(h[..])
  {
    hide BytesOfWord;
    out := [];
    for i := 0 to h.Length
      invariant out == BytesOfWords(h[..i])
    {
      BytesOfWordsExtends(h[..i], h[i]);
      out := out + BytesOfWord(h[i]);
      assert h[..i] + [h[i]] == h[..i + 1];
    }
    assert h[..h.Length] == h[..];
  }

  lemma {:induction false} BytesOfWordsExtends(ws: seq<Word>, w: Word)
    ensures BytesOfWords(ws + [w]) == BytesOfWords(ws) + BytesOfWord(w)
  {
    hide BytesOfWord;
    if ws != [] {
      assert (ws + [w])[1..] == ws[1..] + [w];
      BytesOfWordsExtends(ws[1..], w);
    } else {
      assert BytesOfWords([w]) == BytesOfWord(w) + BytesOfWords([]);
    }
  }

  // ---------- The lowercase hexadecimal form the records carry ----------

  function HexDigit(n: bv4): char {
    match n
    case 0 => '0' case 1 => '1' case 2 => '2' case 3 => '3' case 4 => '4' case 5 => '5' case 6 => '6' case 7 => '7'
    case 8 => '8' case 9 => '9' case 10 => 'a' case 11 => 'b' case 12 => 'c' case 13 => 'd' case 14 => 'e' case _ => 'f'
  }

  function NibbleOf(c: char): bv4 {
    match c
    case '0' => 0 case '1' => 1 case '2' => 2 case '3' => 3 case '4' => 4 case '5' => 5 case '6' => 6 case '7' => 7
    case '8' => 8 case '9' => 9 case 'a' => 10 case 'b' => 11 case 'c' => 12 case 'd' => 13 case 'e' => 14 case _ => 15
  }

  function HexOf(x: Byte): string { [HexDigit((x >> 4) as bv4), HexDigit((x & 0xf) as bv4)] }

  function ByteOfHex(s: string): Byte
    requires |s| == 2
  {
    (NibbleOf(s[0]) as bv8 << 4) | NibbleOf(s[1]) as bv8
  }

  predicate IsLowerHex(c: char) { '0' <= c <= '9' || 'a' <= c <= 'f' }

  /** `to_hex`: two lowercase digits a byte, from which the digest can be read back. */
  method ToHex(digest: seq<Byte>) returns (hex: string)
    ensures |hex| == 2 * |digest|
    ensures forall i :: 0 <= i < |hex| ==> IsLowerHex(hex[i])
    ensures forall i :: 0 <= i < |digest| ==>
        hex[2 * i] == HexDigit((digest[i] >> 4) as bv4) && hex[2 * i + 1] == HexDigit((digest[i] & 0xf) as bv4)
    ensures forall i :: 0 <= i < |digest| ==> ByteOfHex(hex[2 * i..2 * i + 2]) == digest[i]
  {
    hide ByteOfHex, HexOf, IsLowerHex, HexDigit;
    hex := "";
    for i := 0 to |digest|
      invariant |hex| == 2 * i
      invariant forall j :: 0 <= j < i ==> hex[2 * j..2 * j + 2] == HexOf(digest[j])
    {
      HexRoundTrip(digest[i]);
      var longer := hex + HexOf(digest[i]);
      assert forall j :: 0 <= j < i ==> longer[2 * j..2 * j + 2] == hex[2 * j..2 * j + 2];
      assert longer[2 * i..2 * i + 2] == HexOf(digest[i]);
      hex := longer;
    }
    HexRead(hex, digest);
  }

  lemma HexRead(hex: string, digest: seq<Byte>)
    requires |hex| == 2 * |digest| && forall j :: 0 <= j < |digest| ==> hex[2 * j..2 * j + 2] == HexOf(digest[j])
    ensures forall i :: 0 <= i < |hex| ==> IsLowerHex(hex[i])
    ensures forall i :: 0 <= i < |digest| ==>
        hex[2 * i] == HexDigit((digest[i] >> 4) as bv4) && hex[2 * i + 1] == HexDigit((digest[i] & 0xf) as bv4)
    ensures forall i :: 0 <= i < |digest| ==> ByteOfHex(hex[2 * i..2 * i + 2]) == digest[i]
  {
    hide ByteOfHex, HexOf, IsLowerHex, HexDigit;
    forall i | 0 <= i < |digest|
      ensures hex[2 * i] == HexDigit((digest[i] >> 4) as bv4) && hex[2 * i + 1] == HexDigit((digest[i] & 0xf) as bv4)
      ensures IsLowerHex(hex[2 * i]) && IsLowerHex(hex[2 * i + 1]) && ByteOfHex(hex[2 * i..2 * i + 2]) == digest[i]
    {
      HexRoundTrip(digest[i]);
      var pair := hex[2 * i..2 * i + 2];
      assert pair[0] == hex[2 * i] && pair[1] == hex[2 * i + 1];
    }
    forall k | 0 <= k < |hex|
      ensures IsLowerHex(hex[k])
    {
      assert k == 2 * (k / 2) || k == 2 * (k / 2) + 1;
    }
  }

  lemma HexDigits()
    ensures [HexDigit(0), HexDigit(1), HexDigit(2), HexDigit(3), HexDigit(4), HexDigit(5), HexDigit(6), HexDigit(7),
             HexDigit(8), HexDigit(9), HexDigit(10), HexDigit(11), HexDigit(12), HexDigit(13), HexDigit(14),
             HexDigit(15)] == "0123456789abcdef"
  {
  }

  lemma HexRoundTrip(x: Byte)
    ensures |HexOf(x)| == 2 && ByteOfHex(HexOf(x)) == x
    ensures HexOf(x) == [HexDigit((x >> 4) as bv4), HexDigit((x & 0xf) as bv4)]
    ensures IsLowerHex(HexOf(x)[0]) && IsLowerHex(HexOf(x)[1])
  {
    assert forall n: bv4 :: NibbleOf(HexDigit(n)) == n;
  }
}
