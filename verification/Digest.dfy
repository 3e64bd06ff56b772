/**
 One-shot digests of the Merkle-Damgard kind: a compression function folded over the blocks
 of the padded message, as section 4 of FIPS 180-1 and sections 3.1 to 3.3 of RFC 1321 do it.
 */
module Digest {
  import opened Bytes

  const TWO32 := 0x1_0000_0000
  const TWO64 := 0x1_0000_0000_0000_0000

  type Word = x: int | 0 <= x < 0x1_0000_0000

  /** What the transform does to the chaining words with one block of 64 bytes. */
  type Compress<!H> = (H, seq<Byte>) -> H

  /** The chaining words after the first `n` blocks of `s`. */
  function Fold<H>(f: Compress<H>, h: H, s: seq<Byte>, n: nat): H
    requires 64 * n <= |s|
  {
    if n == 0 then h else f(Fold(f, h, s, n - 1), s[64 * (n - 1)..64 * n])
  }

  /** The least number of zero bytes that leaves room for the eight length bytes in a whole block. */
  function PadZeros(length: nat): (k: nat)
    ensures (length + 1 + k + 8) % 64 == 0 && k < 64
  {
    if length % 64 < 56 then 55 - length % 64 else 119 - length % 64
  }

  /** The message, the bit 1, zeros, and the eight bytes of its length in bits. */
  function Padded(m: seq<Byte>, lengthBytes: seq<Byte>): (p: seq<Byte>)
    requires |lengthBytes| == 8
    ensures |p| % 64 == 0
  {
    m + [0x80] + Zeros(PadZeros(|m|)) + lengthBytes
  }

  /** Bytes of a word, the most significant first, and the least significant first. */
  function BigEndian(w: Word): (r: seq<Byte>)
    ensures |r| == 4
  {
    [w / 0x100_0000, (w / 0x1_0000) % 256, (w / 0x100) % 256, w % 256]
  }

  function LittleEndian(w: Word): (r: seq<Byte>)
    ensures |r| == 4
  {
    [w % 256, (w / 0x100) % 256, (w / 0x1_0000) % 256, w / 0x100_0000]
  }

  /** The length in bits modulo 2^64, as its high and low word. */
  function HighWord(length: nat): Word { ((8 * length) / TWO32) % TWO32 }

  function LowWord(length: nat): Word { (8 * length) % TWO32 }

  // ------------------------------------------------------------------ bytes as numbers

  /** Bytes as a number to base 256, the first byte highest. */
  function FirstHighest(s: seq<Byte>): nat {
    if s == [] then 0 else 256 * FirstHighest(s[..|s| - 1]) + s[|s| - 1]
  }

  /** Bytes as a number to base 256, the first byte lowest. */
  function FirstLowest(s: seq<Byte>): nat { if s == [] then 0 else s[0] + 256 * FirstLowest(s[1..]) }

  lemma HighestMore(s: seq<Byte>, b: Byte)
    ensures FirstHighest(s + [b]) == 256 * FirstHighest(s) + b
  {
    assert (s + [b])[..|s|] == s;
  }

  lemma LowestMore(b: Byte, s: seq<Byte>)
    ensures FirstLowest([b] + s) == b + 256 * FirstLowest(s)
  {
    assert ([b] + s)[1..] == s;
  }

  /** Four more bytes. */
  lemma HighestConcat(s: seq<Byte>, t: seq<Byte>)
    requires |t| == 4
    ensures FirstHighest(s + t) == TWO32 * FirstHighest(s) + FirstHighest(t)
    ensures FirstHighest(t) == 0x100_0000 * (t[0] as int) + 0x1_0000 * (t[1] as int) + 0x100 * (t[2] as int) + t[3]
  {
    forall u: seq<Byte>
      ensures FirstHighest(u + t) == TWO32 * FirstHighest(u) + 0x100_0000 * (t[0] as int)
                                     + 0x1_0000 * (t[1] as int) + 0x100 * (t[2] as int) + t[3]
    {
      HighestMore(u, t[0]);
      HighestMore(u + [t[0]], t[1]);
      HighestMore(u + [t[0]] + [t[1]], t[2]);
      HighestMore(u + [t[0]] + [t[1]] + [t[2]], t[3]);
      assert u + t == u + [t[0]] + [t[1]] + [t[2]] + [t[3]];
    }
    assert [] + t == t;
  }

  lemma LowestConcat(t: seq<Byte>, s: seq<Byte>)
    requires |t| == 4
    ensures FirstLowest(t + s) == FirstLowest(t) + TWO32 * FirstLowest(s)
    ensures FirstLowest(t) == t[0] + 0x100 * (t[1] as int) + 0x1_0000 * (t[2] as int) + 0x100_0000 * (t[3] as int)
  {
    forall u: seq<Byte>
      ensures FirstLowest(t + u) == t[0] + 0x100 * (t[1] as int) + 0x1_0000 * (t[2] as int)
                                    + 0x100_0000 * (t[3] as int) + TWO32 * FirstLowest(u)
    {
      LowestMore(t[3], u);
      LowestMore(t[2], [t[3]] + u);
      LowestMore(t[1], [t[2]] + ([t[3]] + u));
      LowestMore(t[0], [t[1]] + ([t[2]] + ([t[3]] + u)));
      assert t + u == [t[0]] + ([t[1]] + ([t[2]] + ([t[3]] + u)));
    }
    assert t + [] == t;
  }

  /** A word is stored as its four digits to base 256. */
  lemma BytesOfWord(w: Word)
    ensures FirstHighest(BigEndian(w)) == w && FirstLowest(LittleEndian(w)) == w
  {
    HighestConcat([], BigEndian(w));
    LowestConcat(LittleEndian(w), []);
    Digits(w);
  }

  lemma Digits(w: Word)
    ensures w == 0x100_0000 * (w / 0x100_0000) + 0x1_0000 * (w / 0x1_0000 % 256) + 0x100 * (w / 0x100 % 256) + w % 256
  {
    assert w / 0x100 / 256 == w / 0x1_0000 && w / 0x1_0000 / 256 == w / 0x100_0000;
  }

  // ------------------------------------------------------------------ laws

  lemma {:induction false} FoldPrefix<H>(f: Compress<H>, h: H, s: seq<Byte>, t: seq<Byte>, n: nat)
    requires 64 * n <= |s|
    ensures Fold(f, h, s + t, n) == Fold(f, h, s, n)
  {
    if n > 0 {
      FoldPrefix(f, h, s, t, n - 1);
      assert (s + t)[64 * (n - 1)..64 * n] == s[64 * (n - 1)..64 * n];
    }
  }

  /** One block more. */
  lemma FoldMore<H>(f: Compress<H>, h: H, s: seq<Byte>, t: seq<Byte>, n: nat, block: seq<Byte>)
    requires 64 * n <= |s| && 64 * n + 64 <= |s + t|
    requires block == (s + t)[64 * n..64 * n + 64]
    ensures Fold(f, h, s + t, n + 1) == f(Fold(f, h, s, n), block)
  {
    FoldPrefix(f, h, s, t, n);
  }

  lemma DivMod32(a: nat, q: nat, r: nat)
    requires a == TWO32 * q + r && r < TWO32
    ensures a / TWO32 == q && a % TWO32 == r
  {
  }

  lemma ModAdd32(a: nat, b: nat)
    ensures (a % TWO32 + b) % TWO32 == (a + b) % TWO32
  {
    var q := a / TWO32;
    assert a + b == TWO32 * q + (a % TWO32 + b);
  }

  /** The sum of two low words: one carry at most. */
  lemma Carry(a: Word, b: Word, lo: Word)
    requires lo == (a + b) % TWO32
    ensures a + b == lo + (if lo < a then TWO32 else 0)
  {
    if a + b < TWO32 {
      DivMod32(a + b, 0, a + b);
    } else {
      DivMod32(a + b, 1, a + b - TWO32);
    }
  }

  /** Either summand tells whether there was a carry. */
  lemma CarrySeenFromBoth(a: Word, b: Word, lo: Word)
    requires lo == (a + b) % TWO32
    ensures lo < a <==> lo < b
  {
    Carry(a, b, lo);
    Carry(b, a, lo);
  }

  lemma BitsOfCount(count: nat)
    ensures 8 * count == TWO32 * (count / 0x2000_0000) + (8 * count) % TWO32
  {
    DivMod32(8 * count, count / 0x2000_0000, 8 * (count % 0x2000_0000));
  }

  /** Counting the bits of `count` more bytes in two words, with the carry between them. */
  lemma CountBits(length: nat, count: nat, lo: Word, hi: Word)
    requires lo == (LowWord(length) + 8 * count) % TWO32
    requires hi == (HighWord(length) + (if lo < LowWord(length) then 1 else 0) + count / 0x2000_0000) % TWO32
    ensures lo == LowWord(length + count) && hi == HighWord(length + count)
  {
    var high, low, carry := (8 * length) / TWO32, LowWord(length), if lo < LowWord(length) then 1 else 0;
    var more: Word := (8 * count) % TWO32;
    BitsOfCount(count);
    ModAdd32(8 * count, low);
    Carry(low, more, lo);
    DivMod32(8 * (length + count), high + count / 0x2000_0000 + carry, lo);
    ModAdd32(high, carry + count / 0x2000_0000);
  }

  /** The two words are the length in bits modulo 2^64. */
  lemma LengthInBits(length: nat)
    ensures TWO32 * HighWord(length) + LowWord(length) == (8 * length) % TWO64
  {
    var n, q := 8 * length, 8 * length / TWO32;
    assert n == TWO32 * q + n % TWO32 && q == TWO32 * (q / TWO32) + q % TWO32;
    assert n == TWO64 * (q / TWO32) + (TWO32 * (q % TWO32) + n % TWO32);
    DivMod64(n, q / TWO32, TWO32 * (q % TWO32) + n % TWO32);
  }

  lemma DivMod64(a: nat, q: nat, r: nat)
    requires a == TWO64 * q + r && r < TWO64
    ensures a % TWO64 == r
  {
  }

  /** The eight length bytes of either digest as a number. */
  lemma LengthBytesAre(length: nat)
    ensures FirstHighest(BigEndian(HighWord(length)) + BigEndian(LowWord(length))) == (8 * length) % TWO64
    ensures FirstLowest(LittleEndian(LowWord(length)) + LittleEndian(HighWord(length))) == (8 * length) % TWO64
  {
    BytesOfWord(HighWord(length));
    BytesOfWord(LowWord(length));
    HighestConcat(BigEndian(HighWord(length)), BigEndian(LowWord(length)));
    LowestConcat(LittleEndian(LowWord(length)), LittleEndian(HighWord(length)));
    LengthInBits(length);
  }

  /** The message, a byte 0x80, zeros, and eight more bytes, in the least number of blocks of 64 bytes. */
  ghost predicate Pads(p: seq<Byte>, m: seq<Byte>) {
    && |p| % 64 == 0 && |m| + 9 <= |p| < |m| + 9 + 64
    && p[..|m|] == m && p[|m|] == 0x80 && forall i | |m| < i < |p| - 8 :: p[i] == 0
  }

  lemma PaddedPads(m: seq<Byte>, lengthBytes: seq<Byte>)
    requires |lengthBytes| == 8
    ensures var p := Padded(m, lengthBytes); Pads(p, m) && p[|p| - 8..] == lengthBytes
  {
  }

  lemma LowWordIs(length: nat)
    ensures LowWord(length) == 8 * (length % 0x2000_0000)
  {
    var q, r := length / 0x2000_0000, length % 0x2000_0000;
    assert 8 * length == TWO32 * q + 8 * r;
    DivMod32(8 * length, q, 8 * r);
  }

  lemma Mod64(q: nat, r: nat)
    ensures (64 * q + r) % 64 == r % 64
  {
  }

  /** The position in the block follows from the low word. */
  lemma PositionInBlock(length: nat)
    ensures (LowWord(length) / 8) % 64 == length % 64
  {
    var q, r := length / 0x2000_0000, length % 0x2000_0000;
    LowWordIs(length);
    assert length == 64 * (0x80_0000 * q) + r;
    Mod64(0x80_0000 * q, r);
  }

  // ------------------------------------------------------------------ messages taken in piece by piece

  /** The words after the whole blocks of `s`. */
  ghost predicate Absorbed<H(!new)>(f: Compress<H>, initial: H, digest: H, s: seq<Byte>) {
    |s| % 64 == 0 && digest == Fold(f, initial, s, |s| / 64)
  }

  lemma AbsorbMore<H(!new)>(f: Compress<H>, initial: H, digest: H, s: seq<Byte>, block: seq<Byte>)
    requires Absorbed(f, initial, digest, s) && |block| == 64
    ensures Absorbed(f, initial, f(digest, block), s + block)
  {
    FoldMore(f, initial, s, block, |s| / 64, block);
    assert (s + block)[|s|..] == block;
    assert |s + block| / 64 == |s| / 64 + 1;
  }

  /** The part of the message that fills no block yet, and the whole blocks before it. */
  function Rest(m: seq<Byte>): (r: seq<Byte>)
    ensures |r| == |m| % 64
  {
    m[|m| - |m| % 64..]
  }

  function Whole(m: seq<Byte>): (r: seq<Byte>)
    ensures |r| % 64 == 0
  {
    m[..|m| - |m| % 64]
  }

  lemma WholeAndRest(m: seq<Byte>, s: seq<Byte>, r: seq<Byte>)
    requires m == s + r && |s| % 64 == 0 && |r| < 64
    ensures Whole(m) == s && Rest(m) == r
  {
  }

  lemma NothingCounted()
    ensures LowWord(0) == 0 && HighWord(0) == 0
  {
  }

  lemma NothingAbsorbed<H(!new)>(f: Compress<H>, initial: H)
    ensures Absorbed(f, initial, initial, Whole([])) && Rest([]) == []
    ensures LowWord(0) == 0 && HighWord(0) == 0
  {
    NothingCounted();
    assert Whole([]) == [] && |Whole([])| / 64 == 0;
  }
}
