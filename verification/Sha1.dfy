/** Streaming SHA-1 (xmcomp/sha1/sha1.c) against FIPS PUB 180-1. */

/** The standard: padding (section 4), functions (5), constants (6) and the digest (7). */
module Fips180 {
  import opened Blocks

  /** An octet and a 32-bit word. */
  datatype Byte = Byte(bits: bv8)
  datatype Word = Word(bits: bv32)

  datatype Hash = Hash(h0: Word, h1: Word, h2: Word, h3: Word, h4: Word)

  // ----- Section 4: message padding -----

  function Zeros(n: nat): (z: seq<Byte>)
    ensures |z| == n
  {
    seq(n, _ => Byte(0))
  }

  /** The number of zero octets that make the padded message a whole number of blocks. */
  function ZeroCount(n: nat): nat {
    (119 - n % 64) % 64
  }

  function ByteOf(n: nat): Byte {
    Byte((n % 256) as bv8)
  }

  /** Two words, most significant first. */
  function Length64(bits: nat): (l: seq<Byte>)
    ensures |l| == 8
  {
    [ByteOf(bits / 0x100_0000_0000_0000), ByteOf(bits / 0x1_0000_0000_0000),
     ByteOf(bits / 0x100_0000_0000), ByteOf(bits / 0x1_0000_0000),
     ByteOf(bits / 0x100_0000), ByteOf(bits / 0x1_0000), ByteOf(bits / 0x100), ByteOf(bits)]
  }

  function PadHead(m: seq<Byte>, zeros: nat): (p: seq<Byte>)
    ensures |p| == |m| + 1 + zeros
  {
    m + [Byte(0x80)] + Zeros(zeros)
  }

  function Pad(m: seq<Byte>): seq<Byte> {
    PadHead(m, ZeroCount(|m|)) + Length64(8 * |m|)
  }

  /** The message, one octet with only its first bit set, octets without bits, and the length. */
  lemma {:induction false} PadHolds(m: seq<Byte>, p: seq<Byte>)
    requires p == Pad(m)
    ensures |p| >= |m| + 9 && p[..|m|] == m && p[|m|] == Byte(0x80) && p[|p| - 8..] == Length64(8 * |m|)
    ensures forall i :: |m| < i < |p| - 8 ==> p[i] == Byte(0)
  {
    var zeros := ZeroCount(|m|);
    assert p == m + [Byte(0x80)] + Zeros(zeros) + Length64(8 * |m|);
  }

  function Power256(n: nat): (p: nat)
    ensures p > 0
  {
    if n == 0 then 1 else 256 * Power256(n - 1)
  }

  /** The length is a number of eight digits to the base 256, most significant first. */
  lemma {:induction false} LengthHasDigits(bits: nat, l: seq<Byte>, i: nat)
    requires l == Length64(bits) && i < 8
    ensures l[i] == ByteOf(bits / Power256(7 - i))
  {
    assert Power256(1) == 0x100 && Power256(3) == 0x100_0000;
    assert Power256(5) == 0x100_0000_0000 && Power256(7) == 0x100_0000_0000_0000;
  }

  /** A padded message is a whole number of blocks. */
  lemma {:induction false} PadIsBlocks(m: seq<Byte>)
    ensures |Pad(m)| % 64 == 0
  {
    PaddedLength(|m|);
  }

  lemma {:induction false} PaddedLength(n: nat)
    ensures ZeroCount(n) == if n % 64 <= 55 then 55 - n % 64 else 119 - n % 64
    ensures (n + 1 + ZeroCount(n) + 8) % 64 == 0
  {
  }

  // ----- Sections 5 and 6: functions and constants -----

  // The operations on words have names of their own, so that proofs about the order of
  // the steps need not look inside them.

  /** S^n: circular left shift. */
  function Rotl1(x: Word): Word { Word((x.bits << 1) | (x.bits >> 31)) }
  function Rotl5(x: Word): Word { Word((x.bits << 5) | (x.bits >> 27)) }
  function Rotl30(x: Word): Word { Word((x.bits << 30) | (x.bits >> 2)) }

  function Choose(b: Word, c: Word, d: Word): Word { Word((b.bits & c.bits) | ((!b.bits) & d.bits)) }
  function Parity(b: Word, c: Word, d: Word): Word { Word(b.bits ^ c.bits ^ d.bits) }
  function Majority(b: Word, c: Word, d: Word): Word { Word((b.bits & c.bits) | (b.bits & d.bits) | (c.bits & d.bits)) }

  function F(t: nat, b: Word, c: Word, d: Word): Word {
    if t < 20 then Choose(b, c, d)
    else if t < 40 then Parity(b, c, d)
    else if t < 60 then Majority(b, c, d)
    else Parity(b, c, d)
  }

  function K(t: nat): Word {
    if t < 20 then Word(0x5A827999)
    else if t < 40 then Word(0x6ED9EBA1)
    else if t < 60 then Word(0x8F1BBCDC)
    else Word(0xCA62C1D6)
  }

  /** Addition modulo 2^32. */
  function Add(x: Word, y: Word): Word { Word(x.bits + y.bits) }
  function Sum(a: Word, b: Word, c: Word, d: Word, e: Word): Word { Word(a.bits + b.bits + c.bits + d.bits + e.bits) }

  // ----- Section 7 -----

  /** Four octets, most significant first. */
  function WordOf(b0: Byte, b1: Byte, b2: Byte, b3: Byte): Word {
    Word(((b0.bits as bv32) << 24) | ((b1.bits as bv32) << 16) | ((b2.bits as bv32) << 8) | (b3.bits as bv32))
  }

  function WordAt(block: seq<Byte>, t: nat): Word
    requires 4 * t + 3 < |block|
  {
    WordOf(block[4 * t], block[4 * t + 1], block[4 * t + 2], block[4 * t + 3])
  }

  function Xor4(a: Word, b: Word, c: Word, d: Word): Word { Word(a.bits ^ b.bits ^ c.bits ^ d.bits) }

  /** Steps (a) and (b): the first `n` words of the sequence of a block. */
  function Words(block: seq<Byte>, n: nat): (w: seq<Word>)
    requires |block| == 64
    ensures |w| == n
  {
    if n == 0 then []
    else
      var w := Words(block, n - 1);
      var t := n - 1;
      w + [if t < 16 then WordAt(block, t) else Rotl1(Xor4(w[t - 3], w[t - 8], w[t - 14], w[t - 16]))]
  }

  /** One turn of step (d). */
  function Turn(t: nat, w: Word, s: Hash): Hash {
    Hash(Sum(Rotl5(s.h0), F(t, s.h1, s.h2, s.h3), s.h4, w, K(t)), s.h0, Rotl30(s.h1), s.h2, s.h3)
  }

  /** Steps (c) and (d): the first `t` turns. */
  function Turns(w: seq<Word>, t: nat, s: Hash): Hash
    requires t <= |w|
  {
    if t == 0 then s else Turn(t - 1, w[t - 1], Turns(w, t - 1, s))
  }

  /** Step (e). */
  function AddHashes(s: Hash, r: Hash): Hash {
    Hash(Add(s.h0, r.h0), Add(s.h1, r.h1), Add(s.h2, r.h2), Add(s.h3, r.h3), Add(s.h4, r.h4))
  }

  /** All 80 words of a block. */
  function AllWords(block: seq<Byte>): (w: seq<Word>)
    requires |block| == 64
    ensures |w| == 80
  {
    Words(block, |block| + 16)
  }

  function Compress(block: seq<Byte>, s: Hash): Hash
    requires |block| == 64
  {
    var w := AllWords(block);
    AddHashes(s, Turns(w, |w|, s))
  }

  const INITIAL := Hash(Word(0x67452301), Word(0xEFCDAB89), Word(0x98BADCFE), Word(0x10325476), Word(0xC3D2E1F0))

  function CompressNext(block: seq<Byte>, s: Hash): Hash {
    if |block| == 64 then Compress(block, s) else s
  }

  function Digest(m: seq<Byte>): Hash {
    Fold(Pad(m), |Pad(m)| / 64, INITIAL, CompressNext)
  }
}

/** Folding over blocks of 64, whatever they hold. */
module Blocks {

  /** Fold `f` over the first `n` blocks of `m`, in order. */
  function Fold<T, H>(m: seq<T>, n: nat, init: H, f: (seq<T>, H) -> H): H
    requires 64 * n <= |m|
  {
    if n == 0 then init else f(m[64 * (n - 1)..64 * n], Fold(m, n - 1, init, f))
  }

  /** What comes after the blocks does not count. */
  lemma {:induction false} FoldPrefix<T, H>(m: seq<T>, tail: seq<T>, n: nat, init: H, f: (seq<T>, H) -> H)
    requires 64 * n <= |m|
    ensures Fold(m + tail, n, init, f) == Fold(m, n, init, f)
    decreases n
  {
    if n > 0 {
      FoldPrefix(m, tail, n - 1, init, f);
      assert (m + tail)[64 * (n - 1)..64 * n] == m[64 * (n - 1)..64 * n];
    }
  }

  /** One more block after `n` whole ones. */
  lemma {:induction false} FoldNext<T, H>(m: seq<T>, block: seq<T>, n: nat, init: H, f: (seq<T>, H) -> H)
    requires |m| == 64 * n && |block| == 64
    ensures Fold(m + block, n + 1, init, f) == f(block, Fold(m, n, init, f))
  {
    FoldPrefix(m, block, n, init, f);
    assert (m + block)[64 * n..64 * (n + 1)] == block;
  }
}

/** The implementation. Lengths are C unsigned ints: they wrap at 2^32. */
module Sha1 {
  import opened Fips180
  import opened Blocks

  const TWO_TO_32: int := 0x1_0000_0000
  const TWO_TO_64: int := 0x1_0000_0000_0000_0000

  /** The hash of the first `n` blocks of a message. */
  function HashOf(m: seq<Byte>, n: nat): Hash
    requires 64 * n <= |m|
  {
    Fold(m, n, INITIAL, CompressNext)
  }

  lemma {:induction false} WordsOfLength(high: nat, low: nat, bits: nat)
    requires low < TWO_TO_32 && high < TWO_TO_32 && bits == high * TWO_TO_32 + low
    ensures bits / 0x100_0000_0000_0000 == high / 0x100_0000
    ensures bits / 0x1_0000_0000_0000 == high / 0x1_0000
    ensures bits / 0x100_0000_0000 == high / 0x100
    ensures bits / 0x1_0000_0000 == high
    ensures bits / 0x100_0000 == high * 0x100 + low / 0x100_0000
    ensures bits / 0x1_0000 == high * 0x1_0000 + low / 0x1_0000
    ensures bits / 0x100 == high * 0x100_0000 + low / 0x100
  {
  }

  lemma {:induction false} LowByte(a: nat, b: nat)
    ensures ByteOf(a * 0x100 + b) == ByteOf(b)
  {
    assert (a * 0x100 + b) % 0x100 == b % 0x100;
  }

  /** The octets of a word, most significant first. */
  function WordOctets(w: nat): (o: seq<Byte>)
    ensures |o| == 4
  {
    [ByteOf(w / 0x100_0000), ByteOf(w / 0x1_0000), ByteOf(w / 0x100), ByteOf(w)]
  }

  /** The two words of the split length make the length field of the standard. */
  lemma {:induction false} LengthBytes(high: nat, low: nat, bits: nat)
    requires low < TWO_TO_32 && high < TWO_TO_32 && bits == high * TWO_TO_32 + low
    ensures WordOctets(high) + WordOctets(low) == Length64(bits)
  {
    WordsOfLength(high, low, bits);
    LowByte(high, low / 0x100_0000);
    LowByte(high * 0x100, low / 0x1_0000);
    LowByte(high * 0x1_0000, low / 0x100);
    LowByte(high * 0x100_0000, low);
  }

  /** The hash of one more block. */
  lemma {:induction false} FullBlock(m: seq<Byte>, block: seq<Byte>, n: nat)
    requires |m| == 64 * n + 64 && block == m[64 * n..] && |block| == 64
    ensures HashOf(m, n + 1) == Compress(block, HashOf(m, n))
  {
    var whole := m[..64 * n];
    assert m == whole + block;
    FoldPrefix(whole, block, n, INITIAL, CompressNext);
    FoldNext(whole, block, n, INITIAL, CompressNext);
  }

  /** Padding in two stretches. */
  lemma {:induction false} PadInParts(m: seq<Byte>, a: nat, b: nat)
    ensures m + [Byte(0x80)] + Zeros(a) == PadHead(m, a)
    ensures PadHead(m, a) + Zeros(b) == PadHead(m, a + b)
  {
  }

  class Context {
    var digest: array<Word>
    var lengthLow: nat
    var lengthHigh: nat
    var block: array<Byte>
    var index: nat
    var computed: bool
    var corrupted: bool
    /** The octets accepted since the last reset. */
    ghost var message: seq<Byte>
    /** How many whole blocks of them have been processed. */
    ghost var blocks: nat

    ghost predicate Valid()
      reads this, digest, block
    {
      && digest.Length == 5 && block.Length == 64 && index < 64
      && lengthLow < TWO_TO_32 && lengthHigh < TWO_TO_32 && lengthLow % 8 == 0
      && (!corrupted && !computed ==> Bits() == 8 * |message| && Tracks())
      && (!corrupted && computed ==> 8 * |message| < TWO_TO_64 && Current() == Digest(message))
    }

    /** Whole blocks are in the hash, and the rest of the message is in the block. */
    ghost predicate Tracks()
      requires digest.Length == 5 && block.Length == 64
      reads this, digest, block
    {
      && index <= 64
      && |message| == 64 * blocks + index
      && block[..index] == message[64 * blocks..]
      && Current() == HashOf(message, blocks)
    }

    /** The length kept in two words. */
    function Bits(): int
      reads this
    {
      lengthHigh * TWO_TO_32 + lengthLow
    }

    function Current(): Hash
      requires digest.Length == 5
      reads this, digest
    {
      Hash(digest[0], digest[1], digest[2], digest[3], digest[4])
    }

    /** A context holds nothing until it is reset. */
    constructor ()
      ensures digest.Length == 5 && block.Length == 64 && fresh(digest) && fresh(block)
    {
      digest := new Word[5](_ => Word(0));
      block := new Byte[64](_ => Byte(0));
    }

    method Reset()
      requires digest.Length == 5 && block.Length == 64
      modifies this`lengthLow, this`lengthHigh, this`index, this`computed, this`corrupted
      modifies this`message, this`blocks, digest
      ensures Valid() && message == [] && !computed && !corrupted
    {
      lengthLow := 0;
      lengthHigh := 0;
      index := 0;
      digest[0] := Word(0x67452301);
      digest[1] := Word(0xEFCDAB89);
      digest[2] := Word(0x98BADCFE);
      digest[3] := Word(0x10325476);
      digest[4] := Word(0xC3D2E1F0);
      computed := false;
      corrupted := false;
      message, blocks := [], 0;
      assert Current() == INITIAL;
    }

    /** The word sequence: 16 words of the block, and 64 made from earlier ones. */
    method ExpandBlock() returns (w: array<Word>)
      requires block.Length == 64
      ensures fresh(w) && w.Length == 80 && w[..] == AllWords(block[..])
    {
      w := new Word[80](_ => Word(0));
      var t := 0;
      while t < 16
        invariant t <= 16
        invariant w[..t] == Words(block[..], t)
      {
        w[t] := WordOf(block[t * 4], block[t * 4 + 1], block[t * 4 + 2], block[t * 4 + 3]);
        assert w[..t + 1] == w[..t] + [w[t]];
        t := t + 1;
      }
      while t < 80
        invariant 16 <= t <= 80
        invariant w[..t] == Words(block[..], t)
      {
        w[t] := Rotl1(Xor4(w[t - 3], w[t - 8], w[t - 14], w[t - 16]));
        assert w[..t + 1] == w[..t] + [w[t]];
        t := t + 1;
      }
      assert w[..80] == w[..];
    }

    /** The 80 turns, from the stored hash. */
    method TurnAll(w: array<Word>) returns (a: Word, b: Word, c: Word, d: Word, e: Word)
      requires digest.Length == 5 && w.Length == 80
      ensures Hash(a, b, c, d, e) == Turns(w[..], w.Length, Current())
    {
      a, b, c, d, e := digest[0], digest[1], digest[2], digest[3], digest[4];
      ghost var words, start := w[..], Current();
      var t := 0;
      while t < 20
        invariant t <= 20
        invariant Hash(a, b, c, d, e) == Turns(words, t, start)
      {
        a, b, c, d, e := Sum(Rotl5(a), Choose(b, c, d), e, w[t], Word(0x5A827999)), a, Rotl30(b), c, d;
        t := t + 1;
      }
      while t < 40
        invariant 20 <= t <= 40
        invariant Hash(a, b, c, d, e) == Turns(words, t, start)
      {
        a, b, c, d, e := Sum(Rotl5(a), Parity(b, c, d), e, w[t], Word(0x6ED9EBA1)), a, Rotl30(b), c, d;
        t := t + 1;
      }
      while t < 60
        invariant 40 <= t <= 60
        invariant Hash(a, b, c, d, e) == Turns(words, t, start)
      {
        a, b, c, d, e := Sum(Rotl5(a), Majority(b, c, d), e, w[t], Word(0x8F1BBCDC)), a, Rotl30(b), c, d;
        t := t + 1;
      }
      while t < 80
        invariant 60 <= t <= 80
        invariant Hash(a, b, c, d, e) == Turns(words, t, start)
      {
        a, b, c, d, e := Sum(Rotl5(a), Parity(b, c, d), e, w[t], Word(0xCA62C1D6)), a, Rotl30(b), c, d;
        t := t + 1;
      }
    }

    /** SHA1ProcessMessageBlock. */
    method ProcessMessageBlock()
      requires digest.Length == 5 && block.Length == 64
      modifies this`index, digest
      ensures Current() == Compress(block[..], old(Current())) && index == 0
    {
      var w := ExpandBlock();
      var a, b, c, d, e := TurnAll(w);
      digest[0] := Add(digest[0], a);
      digest[1] := Add(digest[1], b);
      digest[2] := Add(digest[2], c);
      digest[3] := Add(digest[3], d);
      digest[4] := Add(digest[4], e);
      index := 0;
    }

    /** SHA1Input. */
    method Input(octets: seq<Byte>)
      requires Valid()
      modifies this, digest, block
      ensures Valid() && digest == old(digest) && block == old(block) && computed == old(computed)
      ensures corrupted <==>
              || old(corrupted)
              || (octets != [] && old(computed))
              || (octets != [] && 8 * (|old(message)| + |octets|) >= TWO_TO_64)
      ensures !corrupted ==> message == old(message) + octets
    {
      if |octets| == 0 {
        assert old(message) + octets == old(message);
        return;
      }
      if computed || corrupted {
        corrupted := true;
        return;
      }
      AcceptAll(octets);
    }

    /** The loop over the octets, which ends early when the message gets too long. */
    method AcceptAll(octets: seq<Byte>)
      requires Valid() && !corrupted && !computed
      modifies this, digest, block
      ensures Valid() && !computed && digest == old(digest) && block == old(block)
      ensures corrupted <==> octets != [] && 8 * (|old(message)| + |octets|) >= TWO_TO_64
      ensures !corrupted ==> message == old(message) + octets
    {
      var n := 0;
      while n < |octets| && !corrupted
        invariant n <= |octets| && Valid() && !computed && digest == old(digest) && block == old(block)
        invariant !corrupted ==> message == old(message) + octets[..n] && 8 * |message| < TWO_TO_64
        invariant corrupted ==> 8 * (|old(message)| + n) >= TWO_TO_64
        decreases |octets| - n
      {
        Accept(octets[n]);
        assert octets[..n + 1] == octets[..n] + [octets[n]];
        n := n + 1;
      }
      assert octets[..|octets|] == octets;
    }

    /** One octet: store it, count its bits, and process the block when it is full. */
    method Accept(octet: Byte)
      requires Valid() && !corrupted && !computed
      modifies this, digest, block
      ensures Valid() && !computed && digest == old(digest) && block == old(block)
      ensures corrupted <==> 8 * (|old(message)| + 1) >= TWO_TO_64
      ensures !corrupted ==> message == old(message) + [octet]
    {
      CountOctet();
      Store(octet);
      if index == 64 {
        Flush();
      }
    }

    method Store(octet: Byte)
      requires digest.Length == 5 && block.Length == 64 && index < 64 && Tracks()
      modifies this`index, this`message, block
      ensures Tracks() && index == old(index) + 1 && message == old(message) + [octet]
    {
      FoldPrefix(message, [octet], blocks, INITIAL, CompressNext);
      block[index] := octet;
      index := index + 1;
      message := message + [octet];
      assert block[..index] == old(block[..index]) + [octet];
    }

    /** A full block joins the hash. */
    method Flush()
      requires digest.Length == 5 && block.Length == 64 && index == 64 && Tracks()
      modifies this`index, this`blocks, digest
      ensures Tracks() && index == 0
    {
      assert block[..] == block[..64];
      FullBlock(message, block[..], blocks);
      ProcessMessageBlock();
      blocks := blocks + 1;
    }

    /** Eight more bits in the split length, which wraps at 2^64. */
    method CountOctet()
      requires lengthLow < TWO_TO_32 && lengthHigh < TWO_TO_32 && lengthLow % 8 == 0
      modifies this`lengthLow, this`lengthHigh, this`corrupted
      ensures lengthLow < TWO_TO_32 && lengthHigh < TWO_TO_32 && lengthLow % 8 == 0
      ensures corrupted == (old(corrupted) || old(Bits()) + 8 >= TWO_TO_64)
      ensures old(Bits()) + 8 < TWO_TO_64 ==> Bits() == old(Bits()) + 8
    {
      lengthLow := (lengthLow + 8) % TWO_TO_32;
      if lengthLow == 0 {
        lengthHigh := (lengthHigh + 1) % TWO_TO_32;
        if lengthHigh == 0 {
          // The length field would wrap around.
          corrupted := true;
        }
      }
    }

    // ----- Padding. While it lasts, `message` counts the padding in. -----

    method FillWithZeros(limit: nat)
      requires digest.Length == 5 && block.Length == 64 && index <= limit <= 64 && Tracks()
      modifies this`index, this`message, block
      ensures Tracks() && index == limit
      ensures message == old(message) + Zeros(limit - old(index))
    {
      while index < limit
        invariant Tracks() && old(index) <= index <= limit
        invariant message == old(message) + Zeros(index - old(index))
      {
        Store(Byte(0));
        assert Zeros(index - old(index)) == Zeros(index - 1 - old(index)) + [Byte(0)];
      }
    }

    /** The length goes into the last 8 octets. */
    method StoreLength()
      requires block.Length == 64
      modifies block
      ensures block[..56] == old(block[..56])
      ensures block[56..60] == WordOctets(lengthHigh) && block[60..64] == WordOctets(lengthLow)
    {
      block[56] := ByteOf(lengthHigh / 0x100_0000);
      block[57] := ByteOf(lengthHigh / 0x1_0000);
      block[58] := ByteOf(lengthHigh / 0x100);
      block[59] := ByteOf(lengthHigh);
      block[60] := ByteOf(lengthLow / 0x100_0000);
      block[61] := ByteOf(lengthLow / 0x1_0000);
      block[62] := ByteOf(lengthLow / 0x100);
      block[63] := ByteOf(lengthLow);
    }

    /** With the length the block is full. */
    method FillWithLength()
      requires digest.Length == 5 && block.Length == 64 && index == 56 && Tracks()
      modifies this`index, this`message, block
      ensures Tracks() && index == 64
      ensures message == old(message) + (WordOctets(lengthHigh) + WordOctets(lengthLow))
    {
      ghost var length := WordOctets(lengthHigh) + WordOctets(lengthLow);
      FoldPrefix(message, length, blocks, INITIAL, CompressNext);
      StoreLength();
      JoinTail(block[..], block[..56], length, message, 64 * blocks);
      message := message + length;
      index := 64;
    }

    static lemma JoinTail(all: seq<Byte>, stored: seq<Byte>, length: seq<Byte>, m: seq<Byte>, start: nat)
      requires |all| == 64 && start <= |m| && stored == m[start..] && |stored| == 56 && |length| == 8
      requires all[..56] == stored && all[56..60] == length[..4] && all[60..64] == length[4..]
      ensures all[..64] == (m + length)[start..]
    {
      assert all[..64] == all[..56] + (all[56..60] + all[60..64]);
      assert length == length[..4] + length[4..];
    }

    /** The last block: the length, and no more. */
    method FinishWithLength(ghost m: seq<Byte>)
      requires digest.Length == 5 && block.Length == 64 && index == 56 && Tracks()
      requires message == PadHead(m, ZeroCount(|m|)) && Bits() == 8 * |m|
      requires lengthLow < TWO_TO_32 && lengthHigh < TWO_TO_32
      modifies this`index, this`message, this`blocks, block, digest
      ensures Tracks() && index == 0
      ensures message == Pad(m)
    {
      LengthBytes(lengthHigh, lengthLow, 8 * |m|);
      FillWithLength();
      Flush();
    }

    /** A one bit, then zeros. */
    method StoreOneBit(limit: nat)
      requires digest.Length == 5 && block.Length == 64 && index < limit <= 64 && Tracks()
      modifies this`index, this`message, block
      ensures Tracks() && index == limit
      ensures message == PadHead(old(message), limit - 1 - old(index))
    {
      Store(Byte(0x80));
      FillWithZeros(limit);
      PadInParts(old(message), limit - 1 - old(index), 0);
    }

    /** Padding up to the length field, in a new block if need be. */
    method PadToLength()
      requires digest.Length == 5 && block.Length == 64 && index < 64 && Tracks()
      modifies this`index, this`message, this`blocks, block, digest
      ensures Tracks() && index == 56
      ensures message == PadHead(old(message), if old(index) <= 55 then 55 - old(index) else 119 - old(index))
    {
      if index > 55 {
        StoreOneBit(64);
        PadInParts(old(message), 63 - old(index), 56);
        Flush();
        FillWithZeros(56);
      } else {
        StoreOneBit(56);
      }
    }

    /** SHA1PadMessage. */
    method PadMessage()
      requires Valid() && !corrupted && !computed
      modifies this`index, this`message, this`blocks, block, digest
      ensures index == 0 && Tracks() && message == Pad(old(message))
    {
      ghost var m := message;
      IndexIsRemainder(|m|, blocks, index);
      PaddedLength(|m|);
      PadToLength();
      FinishWithLength(m);
    }

    static lemma DigestOfPadded(m: seq<Byte>, padded: seq<Byte>, n: nat)
      requires padded == Pad(m) && |padded| == 64 * n
      ensures HashOf(padded, n) == Digest(m)
    {
    }

    static lemma IndexIsRemainder(n: nat, blocks: nat, index: nat)
      requires n == 64 * blocks + index && index < 64
      ensures n % 64 == index && n / 64 == blocks
    {
    }

    /** SHA1Result: false when the context is corrupted; otherwise the digest of the
     *  message is ready, however often the result is asked for. */
    method Result() returns (ok: bool)
      requires Valid()
      modifies this, digest, block
      ensures Valid() && digest == old(digest) && block == old(block)
      ensures ok == !corrupted && corrupted == old(corrupted)
      ensures message == old(message)
      ensures ok ==> computed && Current() == Digest(message)
    {
      if corrupted {
        return false;
      }
      if !computed {
        PadMessage();
        DigestOfPadded(old(message), message, blocks);
        computed := true;
        message := old(message);
      }
      return true;
    }
  }

  // ----- Any split of a message -----

  function Flatten(parts: seq<seq<Byte>>): seq<Byte> {
    if parts == [] then [] else Flatten(parts[..|parts| - 1]) + parts[|parts| - 1]
  }

  /** Any number of inputs, from the start. */
  method InputAll(context: Context, parts: seq<seq<Byte>>)
    requires context.Valid() && !context.computed && !context.corrupted && context.message == []
    modifies context, context.digest, context.block
    ensures context.Valid() && !context.computed
    ensures context.digest == old(context.digest) && context.block == old(context.block)
    ensures context.corrupted <==> 8 * |Flatten(parts)| >= TWO_TO_64
    ensures !context.corrupted ==> context.message == Flatten(parts)
  {
    var n := 0;
    while n < |parts|
      invariant n <= |parts|
      invariant context.Valid() && !context.computed
      invariant context.digest == old(context.digest) && context.block == old(context.block)
      invariant context.corrupted <==> 8 * |Flatten(parts[..n])| >= TWO_TO_64
      invariant !context.corrupted ==> context.message == Flatten(parts[..n])
    {
      context.Input(parts[n]);
      assert parts[..n + 1][..n] == parts[..n];
      assert Flatten(parts[..n + 1]) == Flatten(parts[..n]) + parts[n];
      n := n + 1;
    }
    assert parts[..|parts|] == parts;
  }

  /** Reset, any number of inputs, result: the result is there if and only if the parts
   *  have fewer than 2^64 bits together, and then it is the digest of their concatenation. */
  method HashParts(parts: seq<seq<Byte>>) returns (ok: bool, h: Hash)
    ensures ok <==> 8 * |Flatten(parts)| < TWO_TO_64
    ensures ok ==> h == Digest(Flatten(parts))
  {
    var context := new Context();
    context.Reset();
    InputAll(context, parts);
    ok := context.Result();
    h := context.Current();
  }

  /** Once the result of a message was given, more input spoils the context for good. */
  method InputAfterResult(first: seq<seq<Byte>>, octets: seq<Byte>, more: seq<seq<Byte>>)
      returns (before: bool, h: Hash, after: bool)
    requires octets != []
    ensures before <==> 8 * |Flatten(first)| < TWO_TO_64
    ensures before ==> h == Digest(Flatten(first))
    ensures !after
  {
    var context := new Context();
    context.Reset();
    InputAll(context, first);
    before := context.Result();
    h := context.Current();
    context.Input(octets);
    var n := 0;
    while n < |more|
      invariant context.Valid() && context.corrupted
      invariant fresh(context) && fresh(context.digest) && fresh(context.block)
    {
      context.Input(more[n]);
      n := n + 1;
    }
    after := context.Result();
  }
}
