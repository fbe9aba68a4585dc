/** The byte-level padding against section 5.1.1 of FIPS 180-4, which pads a string of bits. */
module Sha256Padding {
  import opened Common
  import opened Sha256Standard

  lemma BitsRoundTrip(b: seq<bool>)
    requires |b| == 8
    ensures BitsOfByte(ByteOfBits(b)) == b
  {
  }

  function Bits(bytes: seq<Byte>): (b: seq<bool>)
    ensures |b| == 8 * |bytes|
  {
    if bytes == [] then [] else Bits(bytes[..|bytes| - 1]) + BitsOfByte(bytes[|bytes| - 1])
  }

  lemma {:induction false} BinarySplits(n: nat, k: nat)
    ensures Binary(n, k + 8) == Binary(n / 256, k) + Binary(n, 8)
  {
    var n1, n2 := n / 2, n / 2 / 2;
    var n4 := n2 / 2 / 2;
    assert n / 256 == n4 / 2 / 2 / 2 / 2;
    BinarySteps4(n, k + 4);
    BinarySteps4(n4, k);
    BinarySteps4(n, 4);
    BinarySteps4(n4, 0);
  }

  lemma BinarySteps4(n: nat, k: nat)
    ensures Binary(n, k + 4)
         == Binary(n / 2 / 2 / 2 / 2, k) + [n / 2 / 2 / 2 % 2 == 1, n / 2 / 2 % 2 == 1, n / 2 % 2 == 1, n % 2 == 1]
  {
    assert Binary(n / 2 / 2, k + 2) == Binary(n / 2 / 2 / 2, k + 1) + [n / 2 / 2 % 2 == 1];
    assert Binary(n, k + 4) == Binary(n / 2, k + 3) + [n % 2 == 1];
  }

  /** The bits of a big-endian number are its binary digits. */
  lemma {:induction false} BigEndianBits(n: nat, k: nat)
    ensures Bits(BigEndian(n, k)) == Binary(n, 8 * k)
  {
    if k != 0 {
      BigEndianBits(n / 256, k - 1);
      BitsUnfold(n, k);
      hide *;
      BinarySplits(n, 8 * k - 8);
      BitsRoundTrip(Binary(n, 8));
    }
  }

  lemma BitsUnfold(n: nat, k: nat)
    requires k != 0
    ensures Bits(BigEndian(n, k)) == Bits(BigEndian(n / 256, k - 1)) + BitsOfByte(ByteOfBits(Binary(n, 8)))
  {
    hide ByteOfBits, BitsOfByte, Binary;
    var b := BigEndian(n, k);
    assert b == BigEndian(n / 256, k - 1) + [ByteOfBits(Binary(n, 8))];
    assert b[..|b| - 1] == BigEndian(n / 256, k - 1);
  }

  lemma {:induction false} BinaryInjective(a: nat, b: nat, k: nat)
    requires a < Power2(k) && b < Power2(k) && Binary(a, k) == Binary(b, k)
    ensures a == b
  {
    if k != 0 {
      var x, y := Binary(a, k), Binary(b, k);
      assert x[..k - 1] == Binary(a / 2, k - 1) && y[..k - 1] == Binary(b / 2, k - 1);
      assert x[k - 1] == (a % 2 == 1) && y[k - 1] == (b % 2 == 1);
      BinaryInjective(a / 2, b / 2, k - 1);
    }
  }

  function Power2(k: nat): (p: nat)
    ensures p > 0
  {
    if k == 0 then 1 else 2 * Power2(k - 1)
  }

  lemma Power2Of64()
    ensures Power2(64) == TWO_64
  {
    Power2Plus16(0);
    Power2Plus16(16);
    Power2Plus16(32);
    Power2Plus16(48);
  }

  lemma Power2Plus16(k: nat)
    ensures Power2(k + 16) == 0x10000 * Power2(k)
  {
    assert Power2(k + 4) == 2 * Power2(k + 3) == 4 * Power2(k + 2) == 8 * Power2(k + 1) == 16 * Power2(k);
    assert Power2(k + 8) == 2 * Power2(k + 7) == 4 * Power2(k + 6) == 8 * Power2(k + 5) == 16 * Power2(k + 4);
    assert Power2(k + 12) == 2 * Power2(k + 11) == 4 * Power2(k + 10) == 8 * Power2(k + 9) == 16 * Power2(k + 8);
    assert Power2(k + 16) == 2 * Power2(k + 15) == 4 * Power2(k + 14) == 8 * Power2(k + 13) == 16 * Power2(k + 12);
  }

  lemma {:induction false} BitsConcat(a: seq<Byte>, b: seq<Byte>)
    ensures Bits(a + b) == Bits(a) + Bits(b)
  {
    hide BitsOfByte;
    if b == [] {
      assert a + b == a;
    } else {
      assert (a + b)[..|a + b| - 1] == a + b[..|b| - 1];
      BitsConcat(a, b[..|b| - 1]);
    }
  }

  function Falses(n: nat): (f: seq<bool>)
    ensures |f| == n
  {
    seq(n, i => false)
  }

  lemma {:induction false} BitsOfZeros(n: nat)
    ensures Bits(Zeros(n)) == Falses(8 * n)
  {
    if n != 0 {
      assert Zeros(n)[..n - 1] == Zeros(n - 1);
      BitsOfZeros(n - 1);
    }
  }

  lemma BitsOfMarker()
    ensures Bits([0x80]) == [true] + Falses(7)
  {
    assert BitsOfByte(0x80) == [true] + Falses(7);
    assert Bits([0x80]) == Bits([]) + BitsOfByte(0x80);
  }

  /** `k` zero bits after an `l`-bit message and its one bit leave room for exactly the length. */
  predicate Reaches448(l: nat, k: nat) { (l + 1 + k) % 512 == 448 }

  lemma LeastZeroBits(len: nat)
    ensures Reaches448(8 * len, 7 + 8 * ZeroBytes(len))
    ensures forall k: nat :: Reaches448(8 * len, k) ==> 7 + 8 * ZeroBytes(len) <= k
  {
    var z := ZeroBytes(len);
    assert (8 * len + 8 + 8 * z) % 512 == 448;
    forall k: nat | Reaches448(8 * len, k)
      ensures 7 + 8 * z <= k
    {
      NoEarlierGap(8 * len + 8 + 8 * z, 8 * len + 1 + k);
    }
  }

  lemma NoEarlierGap(x: nat, y: nat)
    requires x % 512 == 448 && y % 512 == 448 && x < y + 512
    ensures x <= y
  {
  }

  /** Section 5.1.1: the message, a one bit, the least number of zero bits that leaves room, and
      the message length `l` in bits as a 64-bit number. */
  lemma PaddingIsStandard(m: seq<Byte>, l: nat) returns (k: nat)
    requires |m| < TWO_61 && l == 8 * |m|
    ensures Reaches448(l, k) && forall j: nat :: Reaches448(l, j) ==> k <= j
    ensures Bits(Pad(m)) == Bits(m) + [true] + Falses(k) + Binary(l, 64)
  {
    hide *;
    var z := ZeroBytes(|m|);
    k := 7 + 8 * z;
    LeastZeroBits(|m|);
    PadExact(m, l);
    BigEndianBits(l, 8);
    BitsOfParts(m, z, BigEndian(l, 8));
  }

  lemma PadExact(m: seq<Byte>, l: nat)
    requires |m| < TWO_61 && l == 8 * |m|
    ensures Pad(m) == m + [0x80] + Zeros(ZeroBytes(|m|)) + BigEndian(l, 8)
  {
    BitLengthExact(|m|);
    hide Zeros, ZeroBytes, BigEndian, BitLength;
  }

  lemma BitLengthExact(len: nat)
    requires len < TWO_61
    ensures BitLength(len) == 8 * len
  {
  }

  lemma BitsOfParts(m: seq<Byte>, z: nat, len: seq<Byte>)
    ensures Bits(m + [0x80] + Zeros(z) + len) == Bits(m) + [true] + Falses(7 + 8 * z) + Bits(len)
  {
    hide Bits, Zeros;
    BitsConcat(m + [0x80] + Zeros(z), len);
    BitsConcat(m + [0x80], Zeros(z));
    BitsConcat(m, [0x80]);
    BitsOfMarker();
    BitsOfZeros(z);
    assert Falses(7 + 8 * z) == Falses(7) + Falses(8 * z);
  }

  lemma PadStartsWithMessage(m: seq<Byte>)
    ensures Pad(m)[..|m|] == m
  {
    hide BigEndian, BitLength, Zeros, ZeroBytes;
  }

  lemma PadEndsWithLength(m: seq<Byte>)
    ensures Pad(m)[|Pad(m)| - 8..] == BigEndian(BitLength(|m|), 8)
  {
    hide BigEndian, BitLength, Zeros;
  }
}
