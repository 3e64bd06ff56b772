/** The buffered SHA digest of cdda2wav/sha_func.c, for any transform. */
module Sha {
  import opened Bytes
  import opened Digest

  const BLOCK_SIZE := 64
  /** The five words of digest[]. */
  datatype Five = Five(a: Word, b: Word, c: Word, d: Word, e: Word)

  const INITIAL := Five(0x67452301, 0xefcdab89, 0x98badcfe, 0x10325476, 0xc3d2e1f0)

  /** The padded message. */
  function ShaMessage(m: seq<Byte>): (p: seq<Byte>)
    ensures |p| % 64 == 0
  {
    Padded(m, BigEndian(HighWord(|m|)) + BigEndian(LowWord(|m|)))
  }

  /** The one-shot specification: all blocks of the padded message. */
  function ShaOf(f: Compress<Five>, m: seq<Byte>): Five {
    Fold(f, INITIAL, ShaMessage(m), |ShaMessage(m)| / 64)
  }

  /** The last eight bytes are the length in bits modulo 2^64, the highest byte first. */
  lemma ShaMessagePads(m: seq<Byte>)
    ensures var p := ShaMessage(m); Pads(p, m) && FirstHighest(p[|p| - 8..]) == (8 * |m|) % TWO64
  {
    PaddedPads(m, BigEndian(HighWord(|m|)) + BigEndian(LowWord(|m|)));
    LengthBytesAre(|m|);
  }

  /** The initial words count up and down through the sixteen hexadecimal digits, low bytes first. */
  lemma ShaInitialWords()
    ensures INITIAL.a == FirstLowest([0x01, 0x23, 0x45, 0x67]) && INITIAL.b == FirstLowest([0x89, 0xab, 0xcd, 0xef])
    ensures INITIAL.c == FirstLowest([0xfe, 0xdc, 0xba, 0x98]) && INITIAL.d == FirstLowest([0x76, 0x54, 0x32, 0x10])
    ensures INITIAL.e == FirstLowest([0xf0, 0xe1, 0xd2, 0xc3])
  {
    LowestConcat([0x01, 0x23, 0x45, 0x67], []);
    LowestConcat([0x89, 0xab, 0xcd, 0xef], []);
    LowestConcat([0xfe, 0xdc, 0xba, 0x98], []);
    LowestConcat([0x76, 0x54, 0x32, 0x10], []);
    LowestConcat([0xf0, 0xe1, 0xd2, 0xc3], []);
  }

  /** The five words, each with its highest byte first. */
  ghost predicate WritesOut(out: seq<Byte>, digest: Five) {
    && |out| == 20
    && FirstHighest(out[..4]) == digest.a && FirstHighest(out[4..8]) == digest.b
    && FirstHighest(out[8..12]) == digest.c && FirstHighest(out[12..16]) == digest.d
    && FirstHighest(out[16..]) == digest.e
  }

  lemma FiveWords(out: seq<Byte>, h: Five)
    requires out == BigEndian(h.a) + BigEndian(h.b) + BigEndian(h.c) + BigEndian(h.d) + BigEndian(h.e)
    ensures WritesOut(out, h)
  {
    BytesOfWord(h.a);
    BytesOfWord(h.b);
    BytesOfWord(h.c);
    BytesOfWord(h.d);
    BytesOfWord(h.e);
    assert out[..4] == BigEndian(h.a) && out[4..8] == BigEndian(h.b) && out[8..12] == BigEndian(h.c);
    assert out[12..16] == BigEndian(h.d) && out[16..] == BigEndian(h.e);
  }

  class ShaInfo {
    const transform: Compress<Five>
    var digest: Five
    var countLo: Word
    var countHi: Word
    const data: array<Byte>
    var local: nat

    /** All bytes given to the updates so far. */
    ghost var message: seq<Byte>

    ghost predicate Valid()
      reads this, data
    {
      && data.Length == BLOCK_SIZE
      && Absorbed(transform, INITIAL, digest, Whole(message))
      && local == |message| % 64 && data[..local] == Rest(message)
      && countLo == LowWord(|message|) && countHi == HighWord(|message|)
    }

    /** sha_init */
    constructor (f: Compress<Five>)
      ensures Valid() && message == [] && fresh(data) && transform == f
    {
      transform := f;
      digest := INITIAL;
      countLo, countHi := 0, 0;
      data := new Byte[BLOCK_SIZE];
      local := 0;
      message := [];
      new;
      NothingAbsorbed(f, INITIAL);
    }

    /** sha_transform on the data buffer. */
    method Transform(ghost s: seq<Byte>)
      requires data.Length == BLOCK_SIZE && Absorbed(transform, INITIAL, digest, s)
      modifies `digest
      ensures Absorbed(transform, INITIAL, digest, s + data[..])
    {
      AbsorbMore(transform, INITIAL, digest, s, data[..]);
      digest := transform(digest, data[..]);
    }

    /** memcpy into the buffer. */
    method Store(at: nat, bytes: seq<Byte>)
      requires at + |bytes| <= data.Length
      modifies data
      ensures data[..at] == old(data[..at]) && data[at..at + |bytes|] == bytes
      ensures data[at + |bytes|..] == old(data[at + |bytes|..])
    {
      forall k | 0 <= k < |bytes| {
        data[at + k] := bytes[k];
      }
    }

    method CountUp(count: nat)
      requires count < TWO32 && countLo == LowWord(|message|) && countHi == HighWord(|message|)
      modifies `countLo, `countHi
      ensures countLo == LowWord(|message| + count) && countHi == HighWord(|message| + count)
    {
      var clo: Word := (countLo + 8 * count) % TWO32;
      var carry := if clo < countLo then 1 else 0;
      CountBits(|message|, count, clo, (countHi + carry + count / 0x2000_0000) % TWO32);
      ModAdd32(countHi + carry, count / 0x2000_0000);
      if clo < countLo {
        countHi := (countHi + 1) % TWO32;
      }
      countLo := clo;
      countHi := (countHi + count / 0x2000_0000) % TWO32;
    }
  
    /** Fills up a block begun earlier, as far as the buffer reaches. */
    method TopUp(buffer: seq<Byte>, ghost s0: seq<Byte>) returns (at: nat, ghost s: seq<Byte>)
      requires data.Length == BLOCK_SIZE && 0 < local < BLOCK_SIZE && Absorbed(transform, INITIAL, digest, s0)
      modifies `digest, `local, data
      ensures at <= |buffer| && local == old(local) + at <= BLOCK_SIZE
      ensures local == BLOCK_SIZE ==>
                Absorbed(transform, INITIAL, digest, s) && s == s0 + (old(data[..local]) + buffer[..at])
      ensures local < BLOCK_SIZE ==>
                at == |buffer| && data[..local] == old(data[..local]) + buffer && digest == old(digest)
    {
      s := s0;
      var i := BLOCK_SIZE - local;
      if i > |buffer| {
        i := |buffer|;
      }
      Store(local, buffer[..i]);
      at := i;
      assert data[..local + i] == old(data[..local]) + buffer[..i];
      local := local + i;
      if local == BLOCK_SIZE {
        assert data[..] == data[..BLOCK_SIZE];
        Transform(s);
        s := s + data[..];
      }
    }

    /** sha_update: the state afterwards depends only on the concatenation of all updates. */
    method Update(buffer: seq<Byte>)
      requires Valid() && |buffer| < 0x8000_0000
      modifies this, data
      ensures Valid() && message == old(message) + buffer
    {
      CountUp(|buffer|);
      TakeIn(buffer);
    }

    /** sha_update behind the counting. */
    method TakeIn(buffer: seq<Byte>)
      requires data.Length == BLOCK_SIZE && Absorbed(transform, INITIAL, digest, Whole(message))
      requires local == |message| % 64 && data[..local] == Rest(message)
      requires countLo == LowWord(|message| + |buffer|) && countHi == HighWord(|message| + |buffer|)
      modifies `digest, `local, `message, data
      ensures Valid() && message == old(message) + buffer
    {
      var at := 0;
      ghost var s, r := Whole(message), Rest(message);
      assert message + buffer == s + (r + buffer);
      if local > 0 {
        at, s := TopUp(buffer, s);
        if local < BLOCK_SIZE {
          Extend(buffer, Whole(message));
          return;
        }
        assert r + buffer == (r + buffer[..at]) + buffer[at..];
      }
      at, s := AbsorbBlocks(buffer, at, s);
      KeepRest(buffer, at, s);
    }

    /** The loop over whole blocks of the buffer. */
    method AbsorbBlocks(buffer: seq<Byte>, at0: nat, ghost s0: seq<Byte>) returns (at: nat, ghost s: seq<Byte>)
      requires data.Length == BLOCK_SIZE && at0 <= |buffer| && Absorbed(transform, INITIAL, digest, s0)
      modifies `digest, data
      ensures at <= |buffer| < at + BLOCK_SIZE && Absorbed(transform, INITIAL, digest, s)
      ensures s0 + buffer[at0..] == s + buffer[at..]
    {
      at, s := at0, s0;
      while |buffer| - at >= BLOCK_SIZE
        invariant at0 <= at <= |buffer| && Absorbed(transform, INITIAL, digest, s)
        invariant s0 + buffer[at0..] == s + buffer[at..]
      {
        Store(0, buffer[at..at + BLOCK_SIZE]);
        assert data[..] == buffer[at..at + BLOCK_SIZE];
        Transform(s);
        s := s + buffer[at..at + BLOCK_SIZE];
        assert buffer[at..] == buffer[at..at + BLOCK_SIZE] + buffer[at + BLOCK_SIZE..];
        at := at + BLOCK_SIZE;
      }
    }

    /** The bytes behind the last whole block stay in the data buffer. */
    method KeepRest(buffer: seq<Byte>, at: nat, ghost s: seq<Byte>)
      requires data.Length == BLOCK_SIZE && at <= |buffer| < at + BLOCK_SIZE && Absorbed(transform, INITIAL, digest, s)
      requires message + buffer == s + buffer[at..]
      requires countLo == LowWord(|message| + |buffer|) && countHi == HighWord(|message| + |buffer|)
      modifies `local, `message, data
      ensures Valid() && message == old(message) + buffer
    {
      Store(0, buffer[at..]);
      local := |buffer| - at;
      assert data[..local] == buffer[at..];
      Extend(buffer, s);
    }

    /** All of the buffer has been taken over. */
    ghost method Extend(buffer: seq<Byte>, s: seq<Byte>)
      requires data.Length == BLOCK_SIZE && local < BLOCK_SIZE && Absorbed(transform, INITIAL, digest, s)
      requires message + buffer == s + data[..local]
      requires countLo == LowWord(|message| + |buffer|) && countHi == HighWord(|message| + |buffer|)
      modifies `message
      ensures Valid() && message == old(message) + buffer
    {
      WholeAndRest(message + buffer, s, data[..local]);
      message := message + buffer;
    }
  
    /** Zeros from `from` to `to`. */
    method Clear(from: nat, to: nat)
      requires from <= to <= data.Length
      modifies data
      ensures data[..from] == old(data[..from]) && data[from..to] == Zeros(to - from)
      ensures data[to..] == old(data[to..])
    {
      Store(from, Zeros(to - from));
    }

    /** No room for the length: zeros to the end of this block and in the next one. */
    method PadOver(count: nat, ghost s0: seq<Byte>) returns (ghost s: seq<Byte>)
      requires data.Length == BLOCK_SIZE && 56 <= count <= BLOCK_SIZE && Absorbed(transform, INITIAL, digest, s0)
      modifies `digest, data
      ensures Absorbed(transform, INITIAL, digest, s)
      ensures s + data[..56] == s0 + old(data[..count]) + Zeros(120 - count)
    {
      Clear(count, BLOCK_SIZE);
      assert data[..] == old(data[..count]) + Zeros(BLOCK_SIZE - count);
      Transform(s0);
      s := s0 + data[..];
      Clear(0, BLOCK_SIZE - 8);
      assert data[..56] == Zeros(56);
      assert Zeros(120 - count) == Zeros(BLOCK_SIZE - count) + Zeros(56);
    }

    /** Pads the message; afterwards only the length bytes are missing in the last block. */
    method Pad() returns (ghost s: seq<Byte>)
      requires Valid()
      modifies `digest, data
      ensures Absorbed(transform, INITIAL, digest, s)
      ensures s + data[..56] == message + [0x80] + Zeros(PadZeros(|message|))
    {
      s := Whole(message);
      PositionInBlock(|message|);
      var count := (countLo / 8) % 64;
      data[count] := 0x80;
      count := count + 1;
      assert data[..count] == Rest(message) + [0x80];
      assert s + data[..count] == message + [0x80];
      if count > BLOCK_SIZE - 8 {
        s := PadOver(count, s);
      } else {
        ghost var front := data[..count];
        Clear(count, BLOCK_SIZE - 8);
        assert data[..56] == front + Zeros(56 - count);
      }
    }

    /** sha_final: compresses exactly the padded message, and gives the words out byte by byte. */
    method Final() returns (out: seq<Byte>)
      requires Valid()
      modifies `digest, data
      ensures digest == ShaOf(transform, message) && WritesOut(out, digest)
    {
      var lo, hi := countLo, countHi;
      ghost var s := Pad();
      Store(56, BigEndian(hi) + BigEndian(lo));
      assert data[..] == data[..56] + (BigEndian(hi) + BigEndian(lo));
      assert s + data[..] == Padded(message, BigEndian(hi) + BigEndian(lo));
      Transform(s);
      out := BigEndian(digest.a) + BigEndian(digest.b) + BigEndian(digest.c)
           + BigEndian(digest.d) + BigEndian(digest.e);
      FiveWords(out, digest);
    }
  }
}
