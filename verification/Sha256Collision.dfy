/** The Merkle-Damgard reduction: the digest is no weaker than its compression function. */
module Sha256Collision {
  import opened Common
  import opened Sha256Standard
  import opened Sha256Padding

  datatype CompressionInput = CompressionInput(hash: seq<Word>, block: seq<Byte>)

  ghost predicate CompressionCollision(x: CompressionInput, y: CompressionInput) {
    && |x.hash| == |y.hash| == 8 && |x.block| == |y.block| == 64
    && x != y
    && Compress(x.hash, x.block) == Compress(y.hash, y.block)
  }

  lemma {:induction false} BytesOfWordsInjective(x: seq<Word>, y: seq<Word>)
    requires |x| == |y| && BytesOfWords(x) == BytesOfWords(y)
    ensures x == y
  {
    if x != [] {
      hide BytesOfWord;
      var a, b := BytesOfWords(x), BytesOfWords(y);
      assert a[..4] == BytesOfWord(x[0]) && b[..4] == BytesOfWord(y[0]);
      assert a[4..] == BytesOfWords(x[1..]) && b[4..] == BytesOfWords(y[1..]);
      assert x[0] == WordOfBytes(a[..4]) == y[0];
      BytesOfWordsInjective(x[1..], y[1..]);
      assert x == [x[0]] + x[1..] && y == [y[0]] + y[1..];
    }
  }

  lemma LengthFieldInjective(x: nat, y: nat)
    requires x < TWO_64 && y < TWO_64 && BigEndian(x, 8) == BigEndian(y, 8)
    ensures x == y
  {
    hide *;
    BigEndianBits(x, 8);
    BigEndianBits(y, 8);
    Power2Of64();
    BinaryInjective(x, y, 64);
  }

  lemma DifferentLengthsDifferentTails(a: seq<Byte>, b: seq<Byte>)
    requires BitLength(|a|) != BitLength(|b|)
    ensures Pad(a)[|Pad(a)| - 64..] != Pad(b)[|Pad(b)| - 64..]
  {
    hide *;
    var p, q := Pad(a), Pad(b);
    SuffixOfSuffix(p);
    SuffixOfSuffix(q);
    assert p[|p| - 8..] != q[|q| - 8..] by {
      PadEndsWithLength(a);
      PadEndsWithLength(b);
      if p[|p| - 8..] == q[|q| - 8..] {
        LengthFieldInjective(BitLength(|a|), BitLength(|b|));
      }
    }
  }

  lemma SuffixOfSuffix(p: seq<Byte>)
    requires 64 <= |p|
    ensures p[|p| - 64..][56..] == p[|p| - 8..]
  {
  }

  // ---------- Backward over the blocks ----------

  /** Two block strings with one hash value: walk both back from the end until the inputs of
      the compression function differ. */
  lemma {:induction false} BlocksCollide(p: seq<Byte>, q: seq<Byte>) returns (x: CompressionInput, y: CompressionInput)
    requires |p| % 64 == 0 && |q| % 64 == 0 && 64 <= |p| && 64 <= |q|
    requires HashBlocks(p) == HashBlocks(q)
    requires p[|p| - 64..] != q[|q| - 64..] || (|p| == |q| && p != q)
    ensures CompressionCollision(x, y)
    decreases |p|
  {
    hide Compress;
    var p', q' := p[..|p| - 64], q[..|q| - 64];
    x := CompressionInput(HashBlocks(p'), p[|p| - 64..]);
    y := CompressionInput(HashBlocks(q'), q[|q| - 64..]);
    if x == y {
      assert p == p' + x.block && q == q' + y.block;
      x, y := BlocksCollide(p', q');
    }
  }

  /** Two different messages with one digest give a collision of the compression function,
      unless their lengths differ by a multiple of 2^61 bytes, where the length field wraps. */
  lemma CollisionReduces(a: seq<Byte>, b: seq<Byte>) returns (x: CompressionInput, y: CompressionInput)
    requires a != b && Digest(a) == Digest(b)
    requires |a| == |b| || BitLength(|a|) != BitLength(|b|)
    ensures CompressionCollision(x, y)
  {
    hide Pad, HashBlocks, Compress, BytesOfWords, BitLength, ZeroBytes;
    BytesOfWordsInjective(HashBlocks(Pad(a)), HashBlocks(Pad(b)));
    if |a| == |b| {
      PadStartsWithMessage(a);
      PadStartsWithMessage(b);
    } else {
      DifferentLengthsDifferentTails(a, b);
    }
    x, y := BlocksCollide(Pad(a), Pad(b));
  }

  /** Nothing here weakens collision resistance: on messages below 2^64 bits, the standard's, every
      digest collision can be turned into a compression collision. */
  lemma NothingWeakened(a: seq<Byte>, b: seq<Byte>) returns (x: CompressionInput, y: CompressionInput)
    requires |a| < TWO_61 && |b| < TWO_61
    requires a != b && Digest(a) == Digest(b)
    ensures CompressionCollision(x, y)
  {
    hide *;
    BitLengthExact(|a|);
    BitLengthExact(|b|);
    x, y := CollisionReduces(a, b);
  }
}
