/**
 What the sample converter of cdda2wav computes (cdda2wav/resample.c): the k-th output
 sample as a formula over the input stream, and the bytes a run of output samples gives.
 */
module Decimation {
  import opened Bytes

  datatype Stereo = Stereo(l: int, r: int)

  const SILENCE := Stereo(0, 0)

  function Plus(a: Stereo, b: Stereo): Stereo { Stereo(a.l + b.l, a.r + b.r) }

  /** The sum of samples a, a+1, .., e-1. */
  function Sum(h: seq<Stereo>, a: nat, e: nat): Stereo
    requires e <= |h|
  {
    if e <= a then SILENCE else Plus(Sum(h, a, e - 1), h[e - 1])
  }

  // ------------------------------------------------------------------ output samples

  /** The divisor: `u` when not halved, u + 1/2 when halved. */
  datatype Rate = Rate(u: nat, halved: bool)

  type Divisor = d: Rate | d.u >= 1 witness Rate(1, false)

  /** Output k is interpolated: with a divisor u + 1/2, every other one. */
  predicate Interpolated(d: Divisor, k: nat) { d.halved && k % 2 == 0 }

  /** The first input sample of output k. */
  function Base(d: Divisor, k: nat): nat {
    if k == 0 then 0 else Base(d, k - 1) + d.u + if Interpolated(d, k - 1) then 1 else 0
  }

  /** One past the last input sample of output k. */
  function End(d: Divisor, k: nat): nat {
    Base(d, k) + d.u + if Interpolated(d, k) then 2 else 0
  }

  function Divide(s: Stereo, u: int): Stereo
    requires u > 0
  {
    Stereo(CDiv(s.l, u), CDiv(s.r, u))
  }

  /** Quadratic interpolation at 1/2 through values at 0, 1 and 2. */
  function Interpolate(p1: int, p2: int, p3: int): int { CDiv(3 * p1 + 6 * p2 - p3, 8) }

  function InterpolateStereo(a: Stereo, b: Stereo, c: Stereo): Stereo {
    Stereo(Interpolate(a.l, b.l, c.l), Interpolate(a.r, b.r, c.r))
  }

  /** Output k: the truncated mean of u samples, or the interpolation of three such windows. */
  function Output(d: Divisor, h: seq<Stereo>, k: nat): Stereo
    requires End(d, k) <= |h|
  {
    var b := Base(d, k);
    if Interpolated(d, k) then
      Divide(InterpolateStereo(Sum(h, b, b + d.u), Sum(h, b + 1, b + 1 + d.u), Sum(h, b + 2, b + 2 + d.u)), d.u)
    else
      Divide(Sum(h, b, b + d.u), d.u)
  }

  /** Windows in closed form: k * u, or periods of 2u + 1 holding two outputs each. */
  lemma {:induction false} BaseClosedForm(d: Divisor, k: nat)
    ensures !d.halved ==> Base(d, k) == k * d.u
    ensures d.halved ==> Base(d, k) == (k / 2) * (2 * d.u + 1) + if k % 2 == 0 then 0 else d.u + 1
  {
    if k > 0 {
      BaseClosedForm(d, k - 1);
      if d.halved && k % 2 == 0 {
        assert (k - 1) / 2 == k / 2 - 1;
        assert (k / 2 - 1) * (2 * d.u + 1) + (2 * d.u + 1) == (k / 2) * (2 * d.u + 1);
      } else if d.halved {
        assert (k - 1) / 2 == k / 2;
      } else {
        assert (k - 1) * d.u + d.u == k * d.u;
      }
    }
  }

  lemma {:induction false} SumOfPrefix(h: seq<Stereo>, t: seq<Stereo>, a: nat, e: nat)
    requires e <= |h|
    ensures Sum(h + t, a, e) == Sum(h, a, e)
  {
    if a < e {
      SumOfPrefix(h, t, a, e - 1);
      assert (h + t)[e - 1] == h[e - 1];
    }
  }

  /** An output depends on its own input samples only. */
  lemma OutputOfPrefix(d: Divisor, h: seq<Stereo>, t: seq<Stereo>, k: nat)
    requires End(d, k) <= |h|
    ensures Output(d, h + t, k) == Output(d, h, k)
  {
    var b := Base(d, k);
    SumOfPrefix(h, t, b, b + d.u);
    if Interpolated(d, k) {
      SumOfPrefix(h, t, b + 1, b + 1 + d.u);
      SumOfPrefix(h, t, b + 2, b + 2 + d.u);
    }
  }

  // ------------------------------------------------------------------ output bytes

  /** channels is 1 or 2, shBits is 16 minus the 8, 12 or 16 bits per output sample. */
  datatype Settings = Settings(channels: int, shBits: nat, wait: bool)

  type Format = f: Settings | f.channels in {1, 2} && f.shBits in {0, 4, 8} witness Settings(2, 0, false)

  /** An arithmetic shift to the right. */
  function Shr(v: int, n: nat): int
    requires n in {0, 1, 4, 5, 8, 9}
  {
    match n
    case 0 => v
    case 1 => v / 2
    case 4 => v / 16
    case 5 => v / 32
    case 8 => v / 256
    case _ => v / 512
  }

  function Int16(v: int): int { if v % 0x1_0000 < 0x8000 then v % 0x1_0000 else v % 0x1_0000 - 0x1_0000 }

  /** A 16-bit value in the byte order of a little-endian host. */
  function Store16(v: int): seq<Byte> { [v % 256, (v / 256) % 256] }

  function Load16(lo: Byte, hi: Byte): int { Int16(256 * hi + lo) }

  /** An 8-bit value in offset binary. */
  function Store8(v: int): seq<Byte> { [(v % 256 + 128) % 256] }

  function Store(v: int, shBits: nat): seq<Byte> { if shBits == 8 then Store8(v) else Store16(v) }

  /** The values emit_sample stores for one output sample. */
  function Scaled(f: Format, s: Stereo): seq<int>
  {
    if f.channels == 1 then [Int16(Shr(s.l + s.r, f.shBits + 1))]
    else [Shr(s.l, f.shBits), Shr(s.r, f.shBits)]
  }

  function Encode(f: Format, s: Stereo): (b: seq<Byte>)
    ensures 1 <= |b| <= 4
  {
    var v := Scaled(f, s);
    if f.channels == 1 then Store(v[0], f.shBits) else Store(v[0], f.shBits) + Store(v[1], f.shBits)
  }

  /** The test that ends waiting for a signal, on the low 8 or 16 bits. */
  predicate Audible(f: Format, s: Stereo)
  {
    exists v :: v in Scaled(f, s) && v % (if f.shBits == 8 then 256 else 0x1_0000) != 0
  }

  /** How samples become bytes, which samples end the waiting, and whether to wait at all. */
  datatype Codec = Codec(encode: Stereo -> seq<Byte>, audible: Stereo -> bool, wait: bool)

  function CodecOf(f: Format): Codec { Codec((s: Stereo) => Encode(f, s), (s: Stereo) => Audible(f, s), f.wait) }

  /** Where output goes: has a signal been heard, how many samples were skipped, the bytes. */
  datatype Sink = Sink(heard: bool, skipped: int, bytes: seq<Byte>)

  function Accept(c: Codec, k: Sink, s: Stereo): Sink
  {
    if c.wait && !k.heard && !c.audible(s) then k.(skipped := k.skipped + 1)
    else Sink(k.heard || c.wait, k.skipped, k.bytes + c.encode(s))
  }

  function AcceptAll(c: Codec, k: Sink, ss: seq<Stereo>): Sink
  {
    if ss == [] then k else Accept(c, AcceptAll(c, k, ss[..|ss| - 1]), ss[|ss| - 1])
  }

  lemma AcceptMore(c: Codec, k: Sink, ss: seq<Stereo>, s: Stereo)
    ensures AcceptAll(c, k, ss + [s]) == Accept(c, AcceptAll(c, k, ss), s)
  {
    assert (ss + [s])[..|ss|] == ss;
  }

  lemma {:induction false} AcceptConcat(c: Codec, k: Sink, a: seq<Stereo>, b: seq<Stereo>)
    ensures AcceptAll(c, k, a + b) == AcceptAll(c, AcceptAll(c, k, a), b)
  {
    if b == [] {
      assert a + b == a;
    } else {
      var b', s := b[..|b| - 1], b[|b| - 1];
      AcceptConcat(c, k, a, b');
      assert a + b == (a + b') + [s];
      AcceptMore(c, k, a + b', s);
    }
  }

  /** The bytes already written have no influence on what follows. */
  lemma {:induction false} AcceptFrame(c: Codec, k: Sink, ss: seq<Stereo>)
    ensures var t := AcceptAll(c, k.(bytes := []), ss);
            AcceptAll(c, k, ss) == t.(bytes := k.bytes + t.bytes)
  {
    if ss != [] {
      AcceptFrame(c, k, ss[..|ss| - 1]);
    }
  }

  lemma StoreLoad16(lo: Byte, hi: Byte)
    ensures Store16(Load16(lo, hi)) == [lo, hi]
  {
  }

  // ------------------------------------------------------------------ range

  predicate InRange(s: Stereo, bound: int) { -bound <= s.l <= bound && -bound <= s.r <= bound }

  lemma {:induction false} SumBound(h: seq<Stereo>, a: nat, e: nat)
    requires a <= e <= |h| && forall i :: 0 <= i < |h| ==> InRange(h[i], 32768)
    ensures InRange(Sum(h, a, e), (e - a) * 32768)
  {
    if a < e {
      SumBound(h, a, e - 1);
    }
  }

  /**
   A 32-bit long holds the accumulators and the interpolation: the slowest sample rate,
   827 Hz, has divisor 53 1/2.
   */
  lemma NoOverflow(d: Divisor, h: seq<Stereo>, b: nat)
    requires d.u <= 53 && b + 2 + d.u <= |h| && forall i :: 0 <= i < |h| ==> InRange(h[i], 32768)
    ensures var x, y, z := Sum(h, b, b + d.u), Sum(h, b + 1, b + 1 + d.u), Sum(h, b + 2, b + 2 + d.u);
            && InRange(x, 0x7fff_ffff) && InRange(y, 0x7fff_ffff) && InRange(z, 0x7fff_ffff)
            && InRange(Stereo(3 * x.l + 6 * y.l - z.l, 3 * x.r + 6 * y.r - z.r), 0x7fff_ffff)
  {
    SumBound(h, b, b + d.u);
    SumBound(h, b + 1, b + 1 + d.u);
    SumBound(h, b + 2, b + 2 + d.u);
  }
}
