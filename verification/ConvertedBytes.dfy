/**
 What the bytes of the sample converter mean, in numbers: windows of input samples, their rounded
 means and interpolations, and the bytes of each value; and which samples a wait for a signal drops.
 */
module ConvertedBytes {
  import opened Bytes
  import opened Decimation
  import opened Converter

  // ------------------------------------------------------------------ rounding

  /** `q` is `a / m` rounded toward zero. */
  predicate Rounded(a: int, m: int, q: int) {
    if a >= 0 then q >= 0 && m * q <= a < m * q + m else q <= 0 && m * q - m < a <= m * q
  }

  lemma QuotientIsRounded(a: int, m: int)
    requires m > 0
    ensures Rounded(a, m, CDiv(a, m))
  {
    if a >= 0 {
      assert a == m * (a / m) + a % m;
    } else {
      assert -a == m * (-a / m) + -a % m;
      assert m * -(-a / m) == -(m * (-a / m));
    }
  }

  /** On a quadratic, given at 0, 1 and 2, the interpolation at 1/2 is exact. */
  lemma InterpolationIsExact(a: int, b: int, c: int)
    ensures Interpolate(8 * c, 8 * (a + b + c), 8 * (4 * a + 2 * b + c)) == 2 * a + 4 * b + 8 * c
  {
    var v := 2 * a + 4 * b + 8 * c;
    assert 3 * (8 * c) + 6 * (8 * (a + b + c)) - 8 * (4 * a + 2 * b + c) == 8 * v;
    QuotientIsRounded(8 * v, 8);
  }

  // ------------------------------------------------------------------ output samples

  /** The sums of the two channels of samples a, .., e-1. */
  function LeftSum(h: seq<Stereo>, a: nat, e: nat): int
    requires e <= |h|
  {
    if e <= a then 0 else LeftSum(h, a, e - 1) + h[e - 1].l
  }

  function RightSum(h: seq<Stereo>, a: nat, e: nat): int
    requires e <= |h|
  {
    if e <= a then 0 else RightSum(h, a, e - 1) + h[e - 1].r
  }

  lemma {:induction false} SumIsBoth(h: seq<Stereo>, a: nat, e: nat)
    requires e <= |h|
    ensures Sum(h, a, e) == Stereo(LeftSum(h, a, e), RightSum(h, a, e))
  {
    if a < e {
      SumIsBoth(h, a, e - 1);
    }
  }

  /** The value half way between the first and the second of three windows of `u` samples, rounded twice. */
  ghost predicate HalfWay(x: int, y: int, z: int, u: int, v: int) {
    exists q :: Rounded(3 * x + 6 * y - z, 8, q) && Rounded(q, u, v)
  }

  /** The first sample of output k, for divisor u or u + 1/2. */
  function Begin(u: nat, halved: bool, k: nat): nat {
    if !halved then k * u
    else if k % 2 == 0 then k / 2 * (2 * u + 1)
    else k / 2 * (2 * u + 1) + u + 1
  }

  /**
   Sample `s` is output k: the mean of u samples; with a divisor u + 1/2 every other output is half
   way between the means of two windows.
   */
  ghost predicate IsOutput(u: nat, halved: bool, h: seq<Stereo>, k: nat, s: Stereo) {
    var b := Begin(u, halved, k);
    if halved && k % 2 == 0 then
      && b + u + 2 <= |h|
      && HalfWay(LeftSum(h, b, b + u), LeftSum(h, b + 1, b + 1 + u), LeftSum(h, b + 2, b + 2 + u), u, s.l)
      && HalfWay(RightSum(h, b, b + u), RightSum(h, b + 1, b + 1 + u), RightSum(h, b + 2, b + 2 + u), u, s.r)
    else
      b + u <= |h| && Rounded(LeftSum(h, b, b + u), u, s.l) && Rounded(RightSum(h, b, b + u), u, s.r)
  }

  lemma InterpolatedIsHalfWay(x: int, y: int, z: int, u: int)
    requires u > 0
    ensures HalfWay(x, y, z, u, CDiv(Interpolate(x, y, z), u))
  {
    QuotientIsRounded(3 * x + 6 * y - z, 8);
    QuotientIsRounded(Interpolate(x, y, z), u);
  }

  lemma OutputIs(d: Divisor, h: seq<Stereo>, k: nat)
    requires End(d, k) <= |h|
    ensures IsOutput(d.u, d.halved, h, k, Output(d, h, k))
  {
    var b, u := Base(d, k), d.u;
    BaseClosedForm(d, k);
    SumIsBoth(h, b, b + u);
    if Interpolated(d, k) {
      SumIsBoth(h, b + 1, b + 1 + u);
      SumIsBoth(h, b + 2, b + 2 + u);
      InterpolatedIsHalfWay(LeftSum(h, b, b + u), LeftSum(h, b + 1, b + 1 + u), LeftSum(h, b + 2, b + 2 + u), u);
      InterpolatedIsHalfWay(RightSum(h, b, b + u), RightSum(h, b + 1, b + 1 + u), RightSum(h, b + 2, b + 2 + u), u);
    } else {
      QuotientIsRounded(LeftSum(h, b, b + u), u);
      QuotientIsRounded(RightSum(h, b, b + u), u);
    }
  }

  lemma {:induction false} OutputsAre(d: Divisor, h: seq<Stereo>, g: nat)
    requires g > 0 ==> End(d, g - 1) <= |h|
    ensures forall k | 0 <= k < g :: IsOutput(d.u, d.halved, h, k, Outputs(d, h, 0, g)[k])
  {
    if g > 0 {
      EndMonotone(d, g - 1);
      OutputsAre(d, h, g - 1);
      OutputIs(d, h, g - 1);
    }
  }

  // ------------------------------------------------------------------ bytes of values

  /** The 16-bit value that is `v` modulo 2^16. */
  lemma Truncated(v: int)
    ensures -0x8000 <= Int16(v) < 0x8000 && (v - Int16(v)) % 0x1_0000 == 0
  {
    var q := v / 0x1_0000;
    assert v == 0x1_0000 * q + v % 0x1_0000;
    Multiple65536(v - Int16(v), if v % 0x1_0000 < 0x8000 then q else q + 1);
  }

  /** A 16-bit sample is loaded with its low byte first, in two's complement. */
  lemma LoadedSample(p: seq<Byte>, i: nat)
    requires 4 * i + 4 <= |p|
    ensures var s := SampleAt(p, i);
            && -0x8000 <= s.l < 0x8000 && (p[4 * i] + 256 * (p[4 * i + 1] as int) - s.l) % 0x1_0000 == 0
            && -0x8000 <= s.r < 0x8000 && (p[4 * i + 2] + 256 * (p[4 * i + 3] as int) - s.r) % 0x1_0000 == 0
  {
    Truncated(256 * (p[4 * i + 1] as int) + p[4 * i]);
    Truncated(256 * (p[4 * i + 3] as int) + p[4 * i + 2]);
  }

  /** What one unit of an output value stands for. */
  function Unit(shBits: nat): nat { if shBits == 8 then 256 else if shBits == 4 then 16 else 1 }

  /** The bytes stand for `x` in units of `m`, rounded down: offset binary in one byte, or the low byte of two first. */
  ghost predicate Stands(bytes: seq<Byte>, shBits: nat, x: int, m: int) {
    exists v :: m * v <= x < m * v + m && StoresValue(bytes, shBits, v)
  }

  ghost predicate StoresValue(bytes: seq<Byte>, shBits: nat, v: int) {
    if shBits == 8 then |bytes| == 1 && (bytes[0] - 128 - v) % 256 == 0
    else |bytes| == 2 && (bytes[0] + 256 * (bytes[1] as int) - v) % 0x1_0000 == 0
  }

  lemma Multiple256(x: int, q: int)
    requires x == 256 * q
    ensures x % 256 == 0
  {
  }

  lemma Multiple65536(x: int, q: int)
    requires x == 0x1_0000 * q
    ensures x % 0x1_0000 == 0
  {
  }

  lemma OneByteStores(v: int)
    ensures StoresValue(Store(v, 8), 8, v)
  {
    var b := Store8(v)[0];
    assert v == 256 * (v / 256) + v % 256;
    Multiple256(b - 128 - v, if v % 256 < 128 then -(v / 256) else -(v / 256) - 1);
  }

  /** Division by 256 with remainder. */
  lemma Digit(v: int, a: int, b: nat)
    requires v == 256 * a + b && b < 256
    ensures v / 256 == a && v % 256 == b
  {
  }

  lemma LowAndHighByte(v: int, q: int, r: nat)
    requires v == 0x1_0000 * q + r && r < 0x1_0000
    ensures v % 256 == r % 256 && (v / 256) % 256 == r / 256
  {
    Digit(v, 256 * q + r / 256, r % 256);
    Digit(256 * q + r / 256, q, r / 256);
  }

  lemma TwoBytesStore(v: int, shBits: nat)
    requires shBits != 8
    ensures StoresValue(Store(v, shBits), shBits, v)
  {
    var q, r := v / 0x1_0000, v % 0x1_0000;
    LowAndHighByte(v, q, r);
    Multiple65536(r - v, -q);
  }

  lemma StoreStores(v: int, shBits: nat)
    ensures StoresValue(Store(v, shBits), shBits, v)
  {
    if shBits == 8 {
      OneByteStores(v);
    } else {
      TwoBytesStore(v, shBits);
    }
  }

  /** Truncation to 16 bits is not seen in what is stored. */
  lemma TruncatedStores(v: int, shBits: nat)
    ensures StoresValue(Store(Int16(v), shBits), shBits, v)
  {
    var q := (v - Int16(v)) / 0x1_0000;
    assert v == 0x1_0000 * (v / 0x1_0000) + v % 0x1_0000;
    assert v - Int16(v) == 0x1_0000 * q;
    StoreStores(Int16(v), shBits);
    var b := Store(Int16(v), shBits);
    if shBits == 8 {
      Multiple256(b[0] - 128 - v, (b[0] - 128 - Int16(v)) / 256 - 256 * q);
    } else {
      var x := b[0] + 256 * (b[1] as int);
      Multiple65536(x - v, (x - Int16(v)) / 0x1_0000 - q);
    }
  }

  lemma ShiftRoundsDown(x: int, n: nat)
    requires n in {0, 1, 4, 5, 8, 9}
    ensures var m := if n == 0 then 1 else if n == 1 then 2 else if n == 4 then 16
                     else if n == 5 then 32 else if n == 8 then 256 else 512;
            m * Shr(x, n) <= x < m * Shr(x, n) + m
  {
  }

  /** Mono is the mean of both channels; stereo is the left and then the right one. */
  lemma EncodingIs(f: Format, s: Stereo)
    ensures var b, m := Encode(f, s), Unit(f.shBits);
            var n := if f.shBits == 8 then 1 else 2;
            if f.channels == 1 then Stands(b, f.shBits, s.l + s.r, 2 * m)
            else |b| == 2 * n && Stands(b[..n], f.shBits, s.l, m) && Stands(b[n..], f.shBits, s.r, m)
  {
    var m := Unit(f.shBits);
    if f.channels == 1 {
      var v := Shr(s.l + s.r, f.shBits + 1);
      ShiftRoundsDown(s.l + s.r, f.shBits + 1);
      TruncatedStores(v, f.shBits);
      assert 2 * m * v <= s.l + s.r < 2 * m * v + 2 * m;
    } else {
      var n := if f.shBits == 8 then 1 else 2;
      ShiftRoundsDown(s.l, f.shBits);
      ShiftRoundsDown(s.r, f.shBits);
      StoreStores(Shr(s.l, f.shBits), f.shBits);
      StoreStores(Shr(s.r, f.shBits), f.shBits);
      assert Encode(f, s)[..n] == Store(Shr(s.l, f.shBits), f.shBits);
      assert Encode(f, s)[n..] == Store(Shr(s.r, f.shBits), f.shBits);
    }
  }

  /** The byte of silence. */
  function SilentByte(shBits: nat): Byte { if shBits == 8 then 128 else 0 }

  /** Some byte is not that of silence. */
  predicate Sounds(bytes: seq<Byte>, shBits: nat) { exists i | 0 <= i < |bytes| :: bytes[i] != SilentByte(shBits) }

  lemma SoundsInParts(a: seq<Byte>, b: seq<Byte>, shBits: nat)
    ensures Sounds(a + b, shBits) <==> Sounds(a, shBits) || Sounds(b, shBits)
  {
    assert forall i | 0 <= i < |a| :: (a + b)[i] == a[i];
    assert forall i | 0 <= i < |b| :: (a + b)[|a| + i] == b[i];
  }

  /** A sample is heard exactly if one of its bytes is not that of silence. */
  lemma HeardIffBytes(f: Format, s: Stereo)
    ensures Audible(f, s) <==> Sounds(Encode(f, s), f.shBits)
  {
    var v := Scaled(f, s);
    StoreIsZero(v[0], f.shBits);
    assert v[0] in v;
    if f.channels == 1 {
      assert forall x | x in v :: x == v[0];
    } else {
      StoreIsZero(v[1], f.shBits);
      assert v[1] in v && forall x | x in v :: x == v[0] || x == v[1];
      SoundsInParts(Store(v[0], f.shBits), Store(v[1], f.shBits), f.shBits);
    }
  }

  lemma StoreIsZero(v: int, shBits: nat)
    ensures v % (if shBits == 8 then 256 else 0x1_0000) == 0 <==> !Sounds(Store(v, shBits), shBits)
  {
    if shBits != 8 {
      assert Store(v, shBits)[0] == v % 256 && Store(v, shBits)[1] == v / 256 % 256;
    } else {
      assert Store(v, shBits)[0] == (v % 256 + 128) % 256;
    }
  }

  // ------------------------------------------------------------------ waiting for a signal

  /** Samples that are not heard while the wait goes on give nothing. */
  lemma {:induction false} UnheardAreSkipped(c: Codec, k: Sink, ss: seq<Stereo>)
    requires c.wait && !k.heard && forall i | 0 <= i < |ss| :: !c.audible(ss[i])
    ensures AcceptAll(c, k, ss) == k.(skipped := k.skipped + |ss|)
  {
    if ss != [] {
      UnheardAreSkipped(c, k, ss[..|ss| - 1]);
    }
  }

  /** The first sample that is heard, or the number of samples. */
  function FirstHeard(c: Codec, ss: seq<Stereo>): (i: nat)
    ensures i <= |ss| && (forall j | 0 <= j < i :: !c.audible(ss[j])) && (i < |ss| ==> c.audible(ss[i]))
  {
    if ss == [] then 0
    else
      var i := FirstHeard(c, ss[..|ss| - 1]);
      if i == |ss| - 1 && !c.audible(ss[i]) then |ss| else i
  }

  /** All samples are stored from the first one on that is heard, or all of them if nothing is waited for. */
  lemma WaitDropsLeading(c: Codec, ss: seq<Stereo>, i: nat)
    requires i == if c.wait then FirstHeard(c, ss) else 0
    ensures AcceptAll(c, Sink(false, 0, []), ss) == Sink(c.wait && i < |ss|, i, EncodeAll(c, ss[i..]))
  {
    var k0, k1, rest := Sink(false, 0, []), Sink(false, i, []), ss[i..];
    assert AcceptAll(c, k0, ss[..i]) == k1 by {
      if c.wait {
        UnheardAreSkipped(c, k0, ss[..i]);
      }
    }
    InTwoParts(c, k0, k1, ss, i, rest);
    if rest != [] {
      AllStored(c, k1, rest);
    }
  }

  /**
   The whole history of the converter at a buffer end, in numbers: each output is the rounded mean or
   interpolation of its window, and the bytes written are those of the outputs from the first one on
   that is heard.
   */
  lemma HistoryMeans(d: Divisor, f: Format, h: seq<Stereo>, g: nat, r: Registers, k: Sink)
    returns (outs: seq<Stereo>, i: nat)
    requires History(d, f, h, g, r, k)
    ensures |outs| == g == OutputCount(d, |h|) && i <= g
    ensures forall j | 0 <= j < g :: IsOutput(d.u, d.halved, h, j, outs[j])
    ensures f.wait ==> forall j | 0 <= j < i :: !Audible(Effective(d, f), outs[j])
    ensures if f.wait then i < g ==> Audible(Effective(d, f), outs[i]) else i == 0
    ensures k.skipped == i && k.heard == (f.wait && i < g)
    ensures k.bytes == EncodeAll(CodecOf(Effective(d, f)), outs[i..])
  {
    var c := CodecOf(Effective(d, f));
    CountIsExact(d, h, g, r);
    outs := Outputs(d, h, 0, g);
    OutputsAre(d, h, g);
    i := if c.wait then FirstHeard(c, outs) else 0;
    WaitDropsLeading(c, outs, i);
  }
}
