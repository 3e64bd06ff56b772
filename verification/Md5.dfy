/** The buffered MD5 digest of cdda2wav/md5c.c, for any transform. */
module Md5 {
  import opened Bytes
  import opened Digest

  /** The four words of state[]. */
  datatype Four = Four(a: Word, b: Word, c: Word, d: Word)

  const INITIAL := Four(0x67452301, 0xefcdab89, 0x98badcfe, 0x10325476)

  const PADDING: seq<Byte> := [0x80] + Zeros(63)

  function LengthBytes(length: nat): (r: seq<Byte>)
    ensures |r| == 8
  {
    LittleEndian(LowWord(length)) + LittleEndian(HighWord(length))
  }

  /** The padded message. */
  function Md5Message(m: seq<Byte>): (p: seq<Byte>)
    ensures |p| % 64 == 0
  {
    Padded(m, LengthBytes(|m|))
  }

  /** The one-shot specification: all blocks of the padded message. */
  function Md5Of(f: Compress<Four>, m: seq<Byte>): Four {
    Fold(f, INITIAL, Md5Message(m), |Md5Message(m)| / 64)
  }

  /** The last eight bytes are the length in bits modulo 2^64, the lowest byte first. */
  lemma Md5MessagePads(m: seq<Byte>)
    ensures var p := Md5Message(m); Pads(p, m) && FirstLowest(p[|p| - 8..]) == (8 * |m|) % TWO64
  {
    PaddedPads(m, LengthBytes(|m|));
    LengthBytesAre(|m|);
  }

  /** The initial words are those of section 3.3 of RFC 1321, low bytes first. */
  lemma Md5InitialWords()
    ensures INITIAL.a == FirstLowest([0x01, 0x23, 0x45, 0x67]) && INITIAL.b == FirstLowest([0x89, 0xab, 0xcd, 0xef])
    ensures INITIAL.c == FirstLowest([0xfe, 0xdc, 0xba, 0x98]) && INITIAL.d == FirstLowest([0x76, 0x54, 0x32, 0x10])
  {
    LowestConcat([0x01, 0x23, 0x45, 0x67], []);
    LowestConcat([0x89, 0xab, 0xcd, 0xef], []);
    LowestConcat([0xfe, 0xdc, 0xba, 0x98], []);
    LowestConcat([0x76, 0x54, 0x32, 0x10], []);
  }

  /** The four words, each with its lowest byte first. */
  ghost predicate WritesOut(out: seq<Byte>, digest: Four) {
    && |out| == 16
    && FirstLowest(out[..4]) == digest.a && FirstLowest(out[4..8]) == digest.b
    && FirstLowest(out[8..12]) == digest.c && FirstLowest(out[12..]) == digest.d
  }

  lemma FourWords(h: Four)
    ensures WritesOut(Encoded(h), h)
  {
    var out := Encoded(h);
    BytesOfWord(h.a);
    BytesOfWord(h.b);
    BytesOfWord(h.c);
    BytesOfWord(h.d);
    assert out[..4] == LittleEndian(h.a) && out[4..8] == LittleEndian(h.b);
    assert out[8..12] == LittleEndian(h.c) && out[12..] == LittleEndian(h.d);
  }

  /** Encode on the four words of the state. */
  function Encoded(s: Four): seq<Byte> {
    LittleEndian(s.a) + LittleEndian(s.b) + LittleEndian(s.c) + LittleEndian(s.d)
  }

  class Md5Context {
    const transform: Compress<Four>
    var state: Four
    var count0: Word
    var count1: Word
    const buffer: array<Byte>

    /** All bytes given to the updates so far. */
    ghost var message: seq<Byte>

    ghost predicate Valid()
      reads this, buffer
    {
      && buffer.Length == 64
      && Absorbed(transform, INITIAL, state, Whole(message))
      && buffer[..|message| % 64] == Rest(message)
      && count0 == LowWord(|message|) && count1 == HighWord(|message|)
    }

    /** MD5Init */
    constructor (f: Compress<Four>)
      ensures Valid() && message == [] && fresh(buffer) && transform == f
    {
      transform := f;
      count0, count1 := 0, 0;
      state := INITIAL;
      buffer := new Byte[64];
      message := [];
      new;
      NothingAbsorbed(f, INITIAL);
    }

    /** MD5_memcpy into the buffer. */
    method Copy(at: nat, bytes: seq<Byte>)
      requires at + |bytes| <= buffer.Length
      modifies buffer
      ensures buffer[..at] == old(buffer[..at]) && buffer[at..at + |bytes|] == bytes
    {
      for i := 0 to |bytes|
        invariant buffer[..at] == old(buffer[..at]) && buffer[at..at + i] == bytes[..i]
      {
        buffer[at + i] := bytes[i];
        assert bytes[..i + 1] == bytes[..i] + [bytes[i]];
      }
    }

    /** MD5Transform */
    method Transform(block: seq<Byte>, ghost s: seq<Byte>)
      requires |block| == 64 && Absorbed(transform, INITIAL, state, s)
      modifies `state
      ensures Absorbed(transform, INITIAL, state, s + block)
    {
      AbsorbMore(transform, INITIAL, state, s, block);
      state := transform(state, block);
    }

    method CountUp(inputLen: nat)
      requires inputLen < TWO32 && count0 == LowWord(|message|) && count1 == HighWord(|message|)
      modifies `count0, `count1
      ensures count0 == LowWord(|message| + inputLen) && count1 == HighWord(|message| + inputLen)
    {
      ghost var lo, hi := count0, count1;
      var bits: Word := (8 * inputLen) % TWO32;
      count0 := (count0 + bits) % TWO32;
      CarrySeenFromBoth(lo, bits, count0);
      ModAdd32(8 * inputLen, lo);
      ghost var carry := if count0 < lo then 1 else 0;
      CountBits(|message|, inputLen, count0, (hi + carry + inputLen / 0x2000_0000) % TWO32);
      ModAdd32(hi + carry, inputLen / 0x2000_0000);
      if count0 < bits {
        count1 := (count1 + 1) % TWO32;
      }
      count1 := (count1 + inputLen / 0x2000_0000) % TWO32;
    }

    /** The transforms of MD5Update: the buffer filled up, then whole blocks straight from the input. */
    method TransformAll(input: seq<Byte>, indx: nat) returns (i: nat, ghost s: seq<Byte>)
      requires buffer.Length == 64 && indx < 64 && |input| >= 64 - indx
      requires Absorbed(transform, INITIAL, state, Whole(message)) && buffer[..indx] == Rest(message)
      modifies `state, buffer
      ensures i <= |input| < i + 64 && Absorbed(transform, INITIAL, state, s)
      ensures message + input == s + input[i..]
    {
      var partLen := 64 - indx;
      Copy(indx, input[..partLen]);
      assert buffer[..] == Rest(message) + input[..partLen];
      Transform(buffer[..], Whole(message));
      s := Whole(message) + buffer[..];
      i := partLen;
      while i + 63 < |input|
        invariant i <= |input| && Absorbed(transform, INITIAL, state, s)
        invariant message + input == s + input[i..]
      {
        Transform(input[i..i + 64], s);
        s := s + input[i..i + 64];
        assert input[i..] == input[i..i + 64] + input[i + 64..];
        i := i + 64;
      }
    }

    /** MD5Update: the context afterwards depends only on the concatenation of all updates. */
    method Update(input: seq<Byte>)
      requires Valid() && |input| < TWO32
      modifies this, buffer
      ensures Valid() && message == old(message) + input
    {
      PositionInBlock(|message|);
      var indx := (count0 / 8) % 64;
      CountUp(|input|);
      var partLen := 64 - indx;
      var i := 0;
      ghost var s := Whole(message);
      assert message + input == s + (Rest(message) + input);
      if |input| >= partLen {
        i, s := TransformAll(input, indx);
        indx := 0;
        assert buffer[..0] + input[i..] == input[i..];
      }
      KeepRest(input, i, indx, s);
    }

    /** Buffers the remaining input behind the first `indx` bytes. */
    method KeepRest(input: seq<Byte>, i: nat, indx: nat, ghost s: seq<Byte>)
      requires buffer.Length == 64 && i <= |input| && indx + |input| - i < 64
      requires Absorbed(transform, INITIAL, state, s)
      requires message + input == s + (buffer[..indx] + input[i..])
      requires count0 == LowWord(|message| + |input|) && count1 == HighWord(|message| + |input|)
      modifies buffer, `message
      ensures Valid() && message == old(message) + input
    {
      ghost var n := indx + |input| - i;
      ghost var front := buffer[..indx];
      Copy(indx, input[i..]);
      assert buffer[..n] == front + input[i..];
      Extend(input, s, n);
    }

    /** All of the input has been taken over. */
    ghost method Extend(input: seq<Byte>, s: seq<Byte>, n: nat)
      requires buffer.Length == 64 && n < 64 && Absorbed(transform, INITIAL, state, s)
      requires message + input == s + buffer[..n]
      requires count0 == LowWord(|message| + |input|) && count1 == HighWord(|message| + |input|)
      modifies `message
      ensures Valid() && message == old(message) + input
    {
      WholeAndRest(message + input, s, buffer[..n]);
      message := message + input;
    }

    /** MD5Final: the digest of exactly the padded message; the context is zeroised. */
    method Final() returns (digest: seq<Byte>)
      requires Valid()
      modifies this, buffer
      ensures WritesOut(digest, Md5Of(transform, old(message)))
      ensures state == Four(0, 0, 0, 0) && count0 == count1 == 0 && buffer[..] == Zeros(64)
    {
      ghost var m := message;
      var bits := LittleEndian(count0) + LittleEndian(count1);
      PositionInBlock(|m|);
      var indx := (count0 / 8) % 64;
      var padLen := if indx < 56 then 56 - indx else 120 - indx;
      PaddingBytes(|m|, padLen);
      Update(PADDING[..padLen]);
      Update(bits);
      assert message == Padded(m, LengthBytes(|m|));
      assert Whole(message) == message;
      digest := Encoded(state);
      FourWords(state);
      Zeroise();
    }

    method Zeroise()
      requires buffer.Length == 64
      modifies `state, `count0, `count1, buffer
      ensures state == Four(0, 0, 0, 0) && count0 == count1 == 0 && buffer[..] == Zeros(64)
    {
      state, count0, count1 := Four(0, 0, 0, 0), 0, 0;
      forall k | 0 <= k < 64 {
        buffer[k] := 0;
      }
    }
  }

  lemma PaddingBytes(length: nat, padLen: nat)
    requires padLen == if length % 64 < 56 then 56 - length % 64 else 120 - length % 64
    ensures PADDING[..padLen] == [0x80] + Zeros(PadZeros(length))
  {
  }
}
