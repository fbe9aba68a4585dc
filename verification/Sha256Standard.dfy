/** The secure hash standard, FIPS 180-4, for SHA-256 on whole bytes.

    This is the reference the engine's streaming implementation (module `Sha256`) is proved
    against: the padded message is built in full, parsed into 512-bit blocks, and folded with
    the compression function of section 6.2.2. */
module Sha256Standard {
  import opened Common

  type Byte = bv8
  type Word = bv32

  // ---------- Section 4.1.2: functions, with each rotation spelt as the two shifts of section 3.2 ----------

  /** Section 3.2's addition modulo 2^32. */
  function Plus(x: Word, y: Word): Word { x + y }

  function Sum4(x: Word, y: Word, z: Word, u: Word): Word { x + y + z + u }

  function Ch(x: Word, y: Word, z: Word): Word { (x & y) ^ (!x & z) }

  function Maj(x: Word, y: Word, z: Word): Word { (x & y) ^ (x & z) ^ (y & z) }

  function BigSigma0(x: Word): Word { ((x >> 2) | (x << 30)) ^ ((x >> 13) | (x << 19)) ^ ((x >> 22) | (x << 10)) }

  function BigSigma1(x: Word): Word { ((x >> 6) | (x << 26)) ^ ((x >> 11) | (x << 21)) ^ ((x >> 25) | (x << 7)) }

  function SmallSigma0(x: Word): Word { ((x >> 7) | (x << 25)) ^ ((x >> 18) | (x << 14)) ^ (x >> 3) }

  function SmallSigma1(x: Word): Word { ((x >> 17) | (x << 15)) ^ ((x >> 19) | (x << 13)) ^ (x >> 10) }

  // ---------- Sections 4.2.2 and 5.3.3: constants ----------

  const K0: seq<Word> := [
    0x428a2f98, 0x71374491, 0xb5c0fbcf, 0xe9b5dba5, 0x3956c25b, 0x59f111f1, 0x923f82a4, 0xab1c5ed5
  ]
  const K1: seq<Word> := [
    0xd807aa98, 0x12835b01, 0x243185be, 0x550c7dc3, 0x72be5d74, 0x80deb1fe, 0x9bdc06a7, 0xc19bf174
  ]
  const K2: seq<Word> := [
    0xe49b69c1, 0xefbe4786, 0x0fc19dc6, 0x240ca1cc, 0x2de92c6f, 0x4a7484aa, 0x5cb0a9dc, 0x76f988da
  ]
  const K3: seq<Word> := [
    0x983e5152, 0xa831c66d, 0xb00327c8, 0xbf597fc7, 0xc6e00bf3, 0xd5a79147, 0x06ca6351, 0x14292967
  ]
  const K4: seq<Word> := [
    0x27b70a85, 0x2e1b2138, 0x4d2c6dfc, 0x53380d13, 0x650a7354, 0x766a0abb, 0x81c2c92e, 0x92722c85
  ]
  const K5: seq<Word> := [
    0xa2bfe8a1, 0xa81a664b, 0xc24b8b70, 0xc76c51a3, 0xd192e819, 0xd6990624, 0xf40e3585, 0x106aa070
  ]
  const K6: seq<Word> := [
    0x19a4c116, 0x1e376c08, 0x2748774c, 0x34b0bcb5, 0x391c0cb3, 0x4ed8aa4a, 0x5b9cca4f, 0x682e6ff3
  ]
  const K7: seq<Word> := [
    0x748f82ee, 0x78a5636f, 0x84c87814, 0x8cc70208, 0x90befffa, 0xa4506ceb, 0xbef9a3f7, 0xc67178f2
  ]

  const K: seq<Word> := K0 + K1 + K2 + K3 + K4 + K5 + K6 + K7

  const H0: seq<Word> := [
    0x6a09e667, 0xbb67ae85, 0x3c6ef372, 0xa54ff53a, 0x510e527f, 0x9b05688c, 0x1f83d9ab, 0x5be0cd19
  ]

  // ---------- Big-endian words and lengths ----------

  function WordOfBytes(b: seq<Byte>): Word
    requires |b| == 4
  {
    (b[0] as bv32 << 24) | (b[1] as bv32 << 16) | (b[2] as bv32 << 8) | (b[3] as bv32)
  }

  function BytesOfWord(w: Word): (b: seq<Byte>)
    ensures |b| == 4
    ensures WordOfBytes(b) == w
  {
    [(w >> 24) as bv8, ((w >> 16) & 0xff) as bv8, ((w >> 8) & 0xff) as bv8, (w & 0xff) as bv8]
  }

  function BytesOfWords(ws: seq<Word>): (b: seq<Byte>)
    ensures |b| == 4 * |ws|
  {
    if ws == [] then [] else BytesOfWord(ws[0]) + BytesOfWords(ws[1..])
  }

  /** The byte with the given bits, most significant first. */
  function ByteOfBits(b: seq<bool>): Byte
    requires |b| == 8
  {
    (if b[0] then 0x80 else 0) | (if b[1] then 0x40 else 0) | (if b[2] then 0x20 else 0) | (if b[3] then 0x10 else 0)
    | (if b[4] then 0x08 else 0) | (if b[5] then 0x04 else 0) | (if b[6] then 0x02 else 0) | (if b[7] then 0x01 else 0)
  }

  function BitsOfByte(x: Byte): (b: seq<bool>)
    ensures |b| == 8
  {
    [x & 0x80 != 0, x & 0x40 != 0, x & 0x20 != 0, x & 0x10 != 0,
     x & 0x08 != 0, x & 0x04 != 0, x & 0x02 != 0, x & 0x01 != 0]
  }

  /** The `k` low binary digits of `n`, most significant first. */
  function Binary(n: nat, k: nat): (b: seq<bool>)
    ensures |b| == k
  {
    if k == 0 then [] else Binary(n / 2, k - 1) + [n % 2 == 1]
  }

  /** The `k` low bytes of `n`, most significant first. */
  function BigEndian(n: nat, k: nat): (b: seq<Byte>)
    ensures |b| == k
  {
    if k == 0 then [] else BigEndian(n / 256, k - 1) + [ByteOfBits(Binary(n, 8))]
  }

  // ---------- Section 5.1.1: padding ----------

  /** Zero bytes between the 0x80 marker and the 64-bit length. */
  function ZeroBytes(len: nat): (z: nat)
    ensures (len + 9 + z) % 64 == 0 && 64 <= len + 9 + z
  {
    (55 - len) % 64
  }

  function Zeros(n: nat): (z: seq<Byte>)
    ensures |z| == n
  {
    seq(n, i => 0)
  }

  const TWO_61: nat := 0x2000_0000_0000_0000

  /** The length field: the bit length reduced to 64 bits. Below 2^61 bytes it is the bit length. */
  function BitLength(len: nat): (l: nat)
    ensures l < TWO_64
  {
    (len * 8) % TWO_64
  }

  function Pad(m: seq<Byte>): (p: seq<Byte>)
    ensures |p| == |m| + 9 + ZeroBytes(|m|)
    ensures |p| % 64 == 0 && 64 <= |p|
  {
    hide BigEndian, BitLength, ZeroBytes, Zeros;
    m + [0x80] + Zeros(ZeroBytes(|m|)) + BigEndian(BitLength(|m|), 8)
  }

  // ---------- Section 6.2.2: the hash computation ----------

  /** The first `t` words of the message schedule of one block. */
  function Schedule(block: seq<Byte>, t: nat): (w: seq<Word>)
    requires |block| == 64
    ensures |w| == t
  {
    if t == 0 then
      []
    else
      var w := Schedule(block, t - 1);
      var n := t - 1;
      w + [if n < 16 then WordOfBytes(block[4 * n..4 * n + 4])
           else Sum4(SmallSigma1(w[n - 2]), w[n - 7], SmallSigma0(w[n - 15]), w[n - 16])]
  }

  /** The eight working variables. */
  datatype Working = Working(a: Word, b: Word, c: Word, d: Word, e: Word, f: Word, g: Word, h: Word)

  function Round(v: Working, k: Word, w: Word): Working {
    var t1 := Plus(Plus(Plus(Plus(v.h, BigSigma1(v.e)), Ch(v.e, v.f, v.g)), k), w);
    var t2 := Plus(BigSigma0(v.a), Maj(v.a, v.b, v.c));
    Working(Plus(t1, t2), v.a, v.b, v.c, Plus(v.d, t1), v.e, v.f, v.g)
  }

  /** The working variables after `t` rounds on `block` from hash value `hash`. */
  function Rounds(hash: seq<Word>, block: seq<Byte>, t: nat): Working
    requires |hash| == 8 && |block| == 64 && t <= 64
  {
    if t == 0 then
      Working(hash[0], hash[1], hash[2], hash[3], hash[4], hash[5], hash[6], hash[7])
    else
      Round(Rounds(hash, block, t - 1), K[t - 1], Schedule(block, 64)[t - 1])
  }

  function Compress(hash: seq<Word>, block: seq<Byte>): (r: seq<Word>)
    requires |hash| == 8 && |block| == 64
    ensures |r| == 8
  {
    var v := Rounds(hash, block, 64);
    [Plus(v.a, hash[0]), Plus(v.b, hash[1]), Plus(v.c, hash[2]), Plus(v.d, hash[3]),
     Plus(v.e, hash[4]), Plus(v.f, hash[5]), Plus(v.g, hash[6]), Plus(v.h, hash[7])]
  }

  /** The hash value after all the blocks of `p`. */
  function HashBlocks(p: seq<Byte>): (hash: seq<Word>)
    requires |p| % 64 == 0
    ensures |hash| == 8
  {
    if p == [] then H0 else Compress(HashBlocks(p[..|p| - 64]), p[|p| - 64..])
  }

  function Digest(m: seq<Byte>): (d: seq<Byte>)
    ensures |d| == 32
  {
    BytesOfWords(HashBlocks(Pad(m)))
  }
}
