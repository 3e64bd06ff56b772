/**
 What the CRC means: the remainder of a polynomial division, with polynomials over the
 two-element field written as their coefficients, the highest first.
 */
module CrcDivision {
  import opened LinearCode
  import opened CrcBits
  import opened CrcTable
  import opened CdTextCrc

  /** x^16 + x^12 + x^5 + 1 */
  const GENERATOR: seq<bool> := [
    true, false, false, false, true, false, false, false, false, false, false, true,
    false, false, false, false, true]

  /** `p` minus `g`, aligned at their highest terms. */
  function Minus(p: seq<bool>, g: seq<bool>): (r: seq<bool>)
    ensures |r| == |p|
  {
    if p == [] || g == [] then p else [p[0] != g[0]] + Minus(p[1..], g[1..])
  }

  /** Long division: cancel the highest term with the generator while there are more than 16. */
  function Remainder(p: seq<bool>): seq<bool>
    decreases |p|
  {
    if |p| <= 16 then p
    else if p[0] then Remainder(Minus(p, GENERATOR)[1..])
    else Remainder(p[1..])
  }

  /** The highest `k` bits of `v`, the highest first. */
  function Bits(v: bv16, k: nat): (r: seq<bool>)
    ensures |r| == k
    decreases k
  {
    if k == 0 then [] else [v & 0x8000 != 0] + Bits(v << 1, k - 1)
  }

  function Message(data: seq<bv8>): (r: seq<bool>)
    ensures |r| == 8 * |data|
  {
    if data == [] then [] else Bits(Load(data[0]), 8) + Message(data[1..])
  }

  // ------------------------------------------------------------------ subtracting a register

  /** `t` minus the bits of `v`; once `v` is shifted out nothing more is subtracted. */
  function Mixed(t: seq<bool>, v: bv16): (r: seq<bool>)
    ensures |r| == |t|
  {
    if t == [] then [] else [t[0] != (v & 0x8000 != 0)] + Mixed(t[1..], v << 1)
  }

  lemma TopXor(a: bv16, b: bv16)
    ensures (a ^ b) & 0x8000 != 0 <==> (a & 0x8000 != 0) != (b & 0x8000 != 0)
  {
  }

  lemma ShlXor(a: bv16, b: bv16) ensures (a ^ b) << 1 == (a << 1) ^ (b << 1) {}

  lemma {:induction false} MixedTwice(t: seq<bool>, a: bv16, b: bv16)
    ensures Mixed(Mixed(t, a), b) == Mixed(t, a ^ b)
  {
    if t != [] {
      MixedTwice(t[1..], a << 1, b << 1);
      TopXor(a, b);
      ShlXor(a, b);
    }
  }

  lemma {:induction false} MixedZero(t: seq<bool>)
    ensures Mixed(t, 0) == t
  {
    if t != [] {
      MixedZero(t[1..]);
    }
  }

  lemma {:induction false} MixedZeros(c: bv16, z: seq<bool>)
    requires forall i | 0 <= i < |z| :: !z[i]
    ensures Mixed(z, c) == Bits(c, |z|)
    decreases |z|
  {
    if z != [] {
      MixedZeros(c << 1, z[1..]);
    }
  }

  /** The terms of `g` from position `i` on are the bits of `v`. */
  predicate Spells(g: seq<bool>, v: bv16, i: nat)
    decreases |g| - i
  {
    if i >= |g| then v == 0 else g[i] == (v & 0x8000 != 0) && Spells(g, v << 1, i + 1)
  }

  lemma GeneratorIs1021()
    ensures Spells(GENERATOR, 0x1021, 1)
  {
    assert Spells(GENERATOR, 0x0000, 17);
    assert Spells(GENERATOR, 0x8000, 16);
    assert Spells(GENERATOR, 0x4000, 15);
    assert Spells(GENERATOR, 0x2000, 14);
    assert Spells(GENERATOR, 0x1000, 13);
    assert Spells(GENERATOR, 0x0800, 12);
    assert Spells(GENERATOR, 0x8400, 11);
    assert Spells(GENERATOR, 0x4200, 10);
    assert Spells(GENERATOR, 0x2100, 9);
    assert Spells(GENERATOR, 0x1080, 8);
    assert Spells(GENERATOR, 0x0840, 7);
    assert Spells(GENERATOR, 0x0420, 6);
    assert Spells(GENERATOR, 0x0210, 5);
    assert Spells(GENERATOR, 0x8108, 4);
    assert Spells(GENERATOR, 0x4084, 3);
    assert Spells(GENERATOR, 0x2042, 2);
  }

  lemma {:induction false} MinusIsMixed(g: seq<bool>, t: seq<bool>, v: bv16, i: nat)
    requires i <= |g| && |t| >= |g| - i && Spells(g, v, i)
    ensures Minus(t, g[i..]) == Mixed(t, v)
    decreases |g| - i
  {
    if i == |g| {
      MixedZero(t);
    } else {
      MinusIsMixed(g, t[1..], v << 1, i + 1);
      assert g[i..][1..] == g[i + 1..];
    }
  }

  // ------------------------------------------------------------------ dividing is feeding

  /** The register after one more message bit. */
  function FeedBit(c: bv16, m: bool): bv16 {
    if m != (c & 0x8000 != 0) then (c << 1) ^ 0x1021 else c << 1
  }

  lemma RemainderStep(x: seq<bool>)
    requires |x| >= 17
    ensures Remainder(x) == Remainder(if x[0] then Mixed(x[1..], 0x1021) else x[1..])
  {
    if x[0] {
      GeneratorIs1021();
      MinusIsMixed(GENERATOR, x[1..], 0x1021, 1);
    }
  }

  lemma MixedStep(t: seq<bool>, c: bv16, c1: bv16)
    requires t != [] && c1 == c << 1
    ensures Mixed(t, c) == [t[0] != (c & 0x8000 != 0)] + Mixed(t[1..], c1)
  {
  }

  /** One step of the long division is one bit fed into the register. */
  lemma DivisionStep(t: seq<bool>, c: bv16)
    requires |t| >= 17
    ensures Remainder(Mixed(t, c)) == Remainder(Mixed(t[1..], FeedBit(c, t[0])))
  {
    var c1 := c << 1;
    MixedStep(t, c, c1);
    RemainderStep(Mixed(t, c));
    MixedTwice(t[1..], c1, 0x1021);
    assert Mixed(t, c)[1..] == Mixed(t[1..], c1);
  }

  lemma RestAfterSubtracting(a: bv16, b: bv16)
    ensures ((a << 1) ^ 0x1021) ^ (b << 1) == ((a ^ b) << 1) ^ 0x1021
  {
  }

  lemma SubtractingRest(c: bv16, v: bv16)
    requires (c ^ v) & 0x8000 != 0
    ensures ((c << 1) ^ 0x1021) ^ (v << 1) == Shift(c ^ v)
  {
    RestAfterSubtracting(c, v);
    ShiftSubtracts(c ^ v);
  }

  lemma MovingRest(c: bv16, v: bv16)
    requires (c ^ v) & 0x8000 == 0
    ensures (c << 1) ^ (v << 1) == Shift(c ^ v)
  {
    ShlXor(c, v);
    ShiftSubtracts(c ^ v);
  }

  /** Feeding the top bit of `v` and keeping the rest of `v` is a step of the sum. */
  lemma BitThenRest(c: bv16, v: bv16)
    ensures FeedBit(c, v & 0x8000 != 0) ^ (v << 1) == Shift(c ^ v)
  {
    if (v & 0x8000 != 0) != (c & 0x8000 != 0) {
      assert (c ^ v) & 0x8000 != 0 by {
        TopXor(c, v);
      }
      SubtractingRest(c, v);
    } else {
      assert (c ^ v) & 0x8000 == 0 by {
        TopXor(c, v);
      }
      MovingRest(c, v);
    }
  }

  /** `k` bits, the top ones of `v`. */
  function FeedBits(c: bv16, v: bv16, k: nat): bv16
    decreases k
  {
    if k == 0 then c else FeedBits(FeedBit(c, v & 0x8000 != 0), v << 1, k - 1)
  }

  /** Only the top `k` bits of `v` are set. */
  predicate Gone(v: bv16, k: nat)
    decreases k
  {
    if k == 0 then v == 0 else Gone(v << 1, k - 1)
  }

  lemma {:induction false} DivideBits(v: bv16, k: nat, rest: seq<bool>, c: bv16)
    requires |rest| >= 16
    ensures Remainder(Mixed(Bits(v, k) + rest, c)) == Remainder(Mixed(rest, FeedBits(c, v, k)))
    decreases k
  {
    var t := Bits(v, k) + rest;
    if k == 0 {
      assert t == rest;
    } else {
      DivisionStep(t, c);
      assert t[1..] == Bits(v << 1, k - 1) + rest;
      DivideBits(v << 1, k - 1, rest, FeedBit(c, t[0]));
    }
  }

  lemma NothingLeft(c: bv16, v: bv16) requires v == 0 ensures c ^ v == c {}

  lemma {:induction false} BitsAreSteps(c: bv16, v: bv16, k: nat)
    requires Gone(v, k)
    ensures FeedBits(c, v, k) == Steps(CRC16, k, Xor16(c, v))
    decreases k
  {
    if k == 0 {
      NothingLeft(c, v);
    } else {
      BitThenRest(c, v);
      BitsAreSteps(FeedBit(c, v & 0x8000 != 0), v << 1, k - 1);
    }
  }

  lemma ByteGone(b: bv8)
    ensures Gone(Load(b), 8)
  {
    var v := Load(b);
    var v2 := (v << 1) << 1;
    var v4 := (v2 << 1) << 1;
    var v6 := (v4 << 1) << 1;
    assert (v6 << 1) << 1 == 0;
    assert Gone(v6, 2);
    assert Gone(v4, 4);
    assert Gone(v2, 6);
  }

  lemma DivideByte(b: bv8, rest: seq<bool>, c: bv16)
    requires |rest| >= 16
    ensures Remainder(Mixed(Bits(Load(b), 8) + rest, c)) == Remainder(Mixed(rest, Feed(CRC16, c, b)))
  {
    DivideBits(Load(b), 8, rest, c);
    ByteGone(b);
    BitsAreSteps(c, Load(b), 8);
  }

  lemma {:induction false} DivideMessage(data: seq<bv8>, rest: seq<bool>, c: bv16)
    requires |rest| >= 16
    ensures Remainder(Mixed(Message(data) + rest, c)) == Remainder(Mixed(rest, Run(CRC16, c, data)))
    decreases |data|
  {
    if data == [] {
      assert Message(data) + rest == rest;
    } else {
      var later := Message(data[1..]) + rest;
      assert Message(data) + rest == Bits(Load(data[0]), 8) + later;
      DivideByte(data[0], later, c);
      DivideMessage(data[1..], rest, Feed(CRC16, c, data[0]));
      RunFront(CRC16, c, data[0], data[1..]);
      assert [data[0]] + data[1..] == data;
    }
  }

  /**
   The table-driven checksum is the remainder of the message times x^16 divided by the
   generator polynomial, for messages of any length.
   */
  lemma CrcIsRemainder(data: seq<bv8>)
    ensures Bits(Crc(data), 16) == Remainder(Message(data) + seq(16, _ => false))
  {
    var zeros := seq(16, _ => false);
    DivideMessage(data, zeros, 0);
    MixedZero(Message(data) + zeros);
    MixedZeros(Run(CRC16, 0, data), zeros);
  }
}
