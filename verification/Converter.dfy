/**
 The sample converter itself: the state machine of SaveBuffer, which works in place on
 its own input buffer and carries its accumulators from one buffer to the next.
 */
module Converter {
  import opened Bytes
  import opened Decimation

  datatype SampleState = NoneMissing | OneMissing | TwoMissing | Collecting

  /** Sample `i` of a buffer of 16-bit stereo samples. */
  function SampleAt(p: seq<Byte>, i: nat): Stereo
    requires 4 * i + 4 <= |p|
  {
    Stereo(Load16(p[4 * i], p[4 * i + 1]), Load16(p[4 * i + 2], p[4 * i + 3]))
  }

  function Samples(p: seq<Byte>, n: nat): (s: seq<Stereo>)
    requires 4 * n <= |p|
    ensures |s| == n
  {
    if n == 0 then [] else Samples(p, n - 1) + [SampleAt(p, n - 1)]
  }

  lemma {:induction false} SamplesPrefix(p: seq<Byte>, i: nat, n: nat)
    requires i <= n && 4 * n <= |p|
    ensures Samples(p, n)[..i] == Samples(p, i)
    ensures i < n ==> Samples(p, n)[i] == SampleAt(p, i)
  {
    if i < n - 1 {
      SamplesPrefix(p, i, n - 1);
      assert Samples(p, n)[..i] == Samples(p, n - 1)[..i];
    }
  }

  /** The output samples k0, .., k-1. */
  function Outputs(d: Divisor, h: seq<Stereo>, k0: nat, k: nat): (s: seq<Stereo>)
    requires k > k0 ==> End(d, k - 1) <= |h|
    ensures k >= k0 ==> |s| == k - k0
  {
    if k <= k0 then [] else
      EndMonotone(d, k - 1);
      Outputs(d, h, k0, k - 1) + [Output(d, h, k - 1)]
  }

  lemma EndMonotone(d: Divisor, k: nat)
    ensures k > 0 ==> End(d, k - 1) <= End(d, k)
  {
  }

  lemma {:induction false} OutputsOfPrefix(d: Divisor, h: seq<Stereo>, t: seq<Stereo>, k0: nat, k: nat)
    requires k > k0 ==> End(d, k - 1) <= |h|
    ensures Outputs(d, h + t, k0, k) == Outputs(d, h, k0, k)
  {
    if k > k0 {
      EndMonotone(d, k - 1);
      OutputsOfPrefix(d, h, t, k0, k - 1);
      OutputOfPrefix(d, h, t, k - 1);
    }
  }

  /** The carried state: accumulators, countdown, state of the machine, and the toggle. */
  datatype Registers = Registers(
    sum: Stereo, s2: Stereo, s3: Stereo, aux: Stereo,
    samplesToDo: int, state: SampleState, toggle: bool)

  /** The sum of the samples from `a` to the end of the input so far. */
  function SumFrom(h: seq<Stereo>, a: nat): Stereo { Sum(h, a, |h|) }

  /**
   The registers after input `h` when output `k` comes next. Samples count down from the
   first one of output k; an interpolated output lets two windows lag behind by 1 and 2.
   */
  function AtRest(d: Divisor, h: seq<Stereo>, k: nat, state: SampleState, toggle: bool): Registers
    requires state == OneMissing ==> Base(d, k) + d.u <= |h|
  {
    var b := Base(d, k);
    if state == OneMissing then
      Registers(Sum(h, b, b + d.u), SumFrom(h, b + 1), SumFrom(h, b + 2), SILENCE, 0, OneMissing, toggle)
    else if Interpolated(d, k) then
      Registers(SumFrom(h, b), SumFrom(h, b + 1), SumFrom(h, b + 2), SILENCE,
                b + d.u - |h|, Collecting, toggle)
    else
      Registers(SumFrom(h, b), SILENCE, SILENCE, SILENCE, b + d.u - |h|, Collecting, toggle)
  }

  ghost predicate Registered(d: Divisor, h: seq<Stereo>, k: nat, r: Registers) {
    var b := Base(d, k);
    && (k > 0 ==> End(d, k - 1) <= |h|)
    && (d.halved ==> r.toggle == (k % 2 == 1) && (k > 0 ==> b < |h|))
    && (if r.state == OneMissing then Interpolated(d, k) && |h| == b + d.u + 1 else b <= |h| <= b + d.u)
    && r == AtRest(d, h, k, r.state, r.toggle)
  }

  /** Between two buffers an integral divisor never leaves a complete window behind. */
  ghost predicate AtBoundary(d: Divisor, h: seq<Stereo>, k: nat) {
    !d.halved ==> |h| < Base(d, k) + d.u
  }

  /** Outputs complete after whole periods of 2u + 1 samples and `rest` more. */
  function OutputsInPeriods(u: nat, periods: nat, rest: nat): nat {
    if rest == 0 then (if periods == 0 then 0 else 2 * periods - 1)
    else 2 * periods + if rest >= u + 2 then 1 else 0
  }

  /** How many outputs an input of n samples gives, at a buffer end. */
  function OutputCount(d: Divisor, n: nat): nat {
    if d.halved then OutputsInPeriods(d.u, n / (2 * d.u + 1), n % (2 * d.u + 1)) else n / d.u
  }

  lemma QuotientUnique(m: nat, q: nat, r: nat, q': nat, r': nat)
    requires r < m && r' < m && q * m + r == q' * m + r'
    ensures q == q' && r == r'
  {
    Distribute(m, q, q');
    Distribute(m, q', q);
    if q < q' {
      AtLeastOnce(m, q' - q);
    } else if q > q' {
      AtLeastOnce(m, q - q');
    }
  }

  lemma Distribute(m: nat, a: nat, b: nat)
    ensures (a - b) * m == a * m - b * m
  {
  }

  lemma AtLeastOnce(m: nat, k: int)
    requires k >= 1
    ensures k * m >= m
  {
  }

  lemma DivModUnique(n: nat, m: nat, q: nat, r: nat)
    requires r < m && n == q * m + r
    ensures n / m == q && n % m == r
  {
    assert n == (n / m) * m + n % m;
    QuotientUnique(m, q, r, n / m, n % m);
  }

  /** How many outputs have been given is a function of the amount of input alone. */
  lemma CountIsExact(d: Divisor, h: seq<Stereo>, k: nat, r: Registers)
    requires Registered(d, h, k, r) && AtBoundary(d, h, k)
    ensures k == OutputCount(d, |h|)
  {
    BaseClosedForm(d, k);
    var c := |h| - Base(d, k);
    if d.halved {
      var periods, rest := CountHalved(d.u, 2 * d.u + 1, |h|, k, k / 2, c);
      DivModUnique(|h|, 2 * d.u + 1, periods, rest);
    } else {
      DivModUnique(|h|, d.u, k, c);
    }
  }

  lemma MulSucc(m: nat, q: nat)
    ensures (q + 1) * m == q * m + m
  {
  }

  /** With half a divisor: `c` samples behind the start of output k, in period number q of m = 2u + 1 samples. */
  lemma CountHalved(u: nat, m: nat, n: nat, k: nat, q: nat, c: nat) returns (periods: nat, rest: nat)
    requires u > 0 && m == 2 * u + 1 && q == k / 2
    requires n == q * m + (if k % 2 == 0 then 0 else u + 1) + c
    requires c <= (if k % 2 == 0 then u + 1 else u) && (k > 0 ==> c > 0)
    ensures n == periods * m + rest && rest < m
    ensures k == OutputsInPeriods(u, periods, rest)
  {
    if k % 2 == 0 {
      periods, rest := q, c;
    } else if c < u {
      periods, rest := q, u + 1 + c;
    } else {
      MulSucc(m, q);
      periods, rest := q + 1, 0;
    }
  }

  // ------------------------------------------------------------------ one sample

  /** `case collecting` with samples still to do. */
  function Collected(d: Divisor, r: Registers, s: Stereo): Registers {
    var todo := r.samplesToDo - 1;
    var lag := d.halved && !r.toggle;
    r.(samplesToDo := todo,
       sum := Plus(r.sum, s),
       s2 := if lag && todo < d.u - 1 then Plus(r.s2, s) else r.s2,
       s3 := if lag && todo < d.u - 2 then Plus(r.s3, s) else r.s3)
  }

  /** The label two__missing. */
  function Lagged(d: Divisor, r: Registers, s: Stereo): Registers {
    r.(s2 := Plus(r.s2, s), s3 := if d.u > 1 then Plus(r.s3, s) else r.s3, state := OneMissing)
  }

  /** The registers when the last sample of an output has arrived. */
  function Arrived(r: Registers, s: Stereo): Registers {
    r.(aux := s, s3 := if r.state == OneMissing then Plus(r.s3, s) else r.s3, state := NoneMissing)
  }

  /** The output sample given at none__missing, from the registers. */
  function Given(d: Divisor, r: Registers): Stereo {
    Divide(if d.halved && !r.toggle then InterpolateStereo(r.sum, r.s2, r.s3) else r.sum, d.u)
  }

  /** The registers after none__missing, when the sample in `aux` starts the next output. */
  function Restarted(d: Divisor, r: Registers): Registers {
    Registers(r.aux, SILENCE, SILENCE, SILENCE, d.u - 1, Collecting, !r.toggle)
  }

  /** The registers after the flush at a buffer end. */
  function Flushed(d: Divisor, r: Registers): Registers {
    Registers(SILENCE, SILENCE, SILENCE, SILENCE, d.u, Collecting, !r.toggle)
  }

  /** The next sample goes through the code at none__missing. */
  predicate Finishes(d: Divisor, r: Registers) {
    || r.state == OneMissing || r.state == NoneMissing
    || (r.state == Collecting && r.samplesToDo <= 0 && !(d.halved && !r.toggle))
  }

  /** One pass through the switch, and the output sample it gives, if any. */
  function Next(d: Divisor, r: Registers, s: Stereo): (Registers, seq<Stereo>) {
    if Finishes(d, r) then (Restarted(d, Arrived(r, s)), [Given(d, Arrived(r, s))])
    else if r.state == Collecting && r.samplesToDo > 0 then (Collected(d, r, s), [])
    else (Lagged(d, r, s), [])
  }

  /** The registers after the samples `ss`, and all output samples they give. */
  function Run(d: Divisor, r: Registers, ss: seq<Stereo>): (Registers, seq<Stereo>) {
    if ss == [] then (r, [])
    else
      var (r1, out1) := Run(d, r, ss[..|ss| - 1]);
      var (r2, out2) := Next(d, r1, ss[|ss| - 1]);
      (r2, out1 + out2)
  }

  /** The registers and output samples after a whole buffer, with its flush. */
  function RunBuffer(d: Divisor, r: Registers, ss: seq<Stereo>): (Registers, seq<Stereo>) {
    var (r1, out1) := Run(d, r, ss);
    if r1.samplesToDo == 0 && !d.halved then (Flushed(d, r1), out1 + [Given(d, r1)]) else (r1, out1)
  }

  /** No more outputs than inputs; one less when the first sample cannot complete anything. */
  lemma {:induction false} RunIsShort(d: Divisor, r: Registers, ss: seq<Stereo>)
    ensures |Run(d, r, ss).1| <= |ss|
    ensures r.state == Collecting && r.samplesToDo > 0 && ss != [] ==> |Run(d, r, ss).1| < |ss|
  {
    if ss != [] {
      RunIsShort(d, r, ss[..|ss| - 1]);
    }
  }

  // ------------------------------------------------------------------ what the registers mean

  lemma SumFromAppend(h: seq<Stereo>, s: Stereo, a: nat)
    ensures SumFrom(h + [s], a) == if a <= |h| then Plus(SumFrom(h, a), s) else SILENCE
  {
    SumOfPrefix(h, [s], a, |h|);
  }

  lemma CollectedOk(d: Divisor, h: seq<Stereo>, k: nat, r: Registers, s: Stereo)
    requires Registered(d, h, k, r) && r.state == Collecting && r.samplesToDo > 0
    ensures Registered(d, h + [s], k, Collected(d, r, s))
  {
    var b := Base(d, k);
    SumFromAppend(h, s, b);
    SumFromAppend(h, s, b + 1);
    SumFromAppend(h, s, b + 2);
  }

  lemma LaggedOk(d: Divisor, h: seq<Stereo>, k: nat, r: Registers, s: Stereo)
    requires Registered(d, h, k, r) && r.state == Collecting && r.samplesToDo == 0 && Interpolated(d, k)
    ensures Registered(d, h + [s], k, Lagged(d, r, s))
  {
    var b := Base(d, k);
    SumFromAppend(h, s, b + 1);
    SumFromAppend(h, s, b + 2);
    SumOfPrefix(h, [s], b, b + d.u);
  }

  lemma RestartedOk(d: Divisor, h: seq<Stereo>, k: nat, r: Registers, s: Stereo)
    requires Registered(d, h, k, r) && Finishes(d, r)
    ensures Registered(d, h + [s], k + 1, Restarted(d, Arrived(r, s)))
  {
    var b' := Base(d, k + 1);
    assert |h| == b' && End(d, k) <= |h| + 1;
    SumFromAppend(h, s, b');
    SumFromAppend(h, s, b' + 1);
    SumFromAppend(h, s, b' + 2);
    assert Plus(SILENCE, s) == s;
  }

  /** The registers hold the sums the formula of output k asks for. */
  lemma GivenOk(d: Divisor, h: seq<Stereo>, k: nat, r: Registers, s: Stereo)
    requires Registered(d, h, k, r) && Finishes(d, r)
    ensures End(d, k) <= |h| + 1
    ensures Given(d, Arrived(r, s)) == Output(d, h + [s], k)
  {
    var b := Base(d, k);
    SumOfPrefix(h, [s], b, b + d.u);
    if r.state == OneMissing {
      SumOfPrefix(h, [s], b + 1, |h|);
      SumFromAppend(h, s, b + 2);
    }
  }

  /** One sample more: the registers keep their meaning, and an output is the right one. */
  lemma NextOk(d: Divisor, h: seq<Stereo>, k: nat, r: Registers, s: Stereo)
    requires Registered(d, h, k, r)
    ensures var (r', out) := Next(d, r, s);
            && Registered(d, h + [s], k + |out|, r')
            && out == Outputs(d, h + [s], k, k + |out|)
  {
    if Finishes(d, r) {
      GivenOk(d, h, k, r, s);
      RestartedOk(d, h, k, r, s);
      assert Outputs(d, h + [s], k, k) == [];
    } else if r.samplesToDo > 0 {
      CollectedOk(d, h, k, r, s);
    } else {
      LaggedOk(d, h, k, r, s);
    }
  }

  /** Outputs of more input, given those of a prefix. */
  lemma OutputsExtend(d: Divisor, h: seq<Stereo>, s: Stereo, k0: nat, k1: nat, k2: nat)
    requires k0 <= k1 <= k2 && (k2 > k0 ==> End(d, k2 - 1) <= |h| + 1)
    requires k1 > k0 ==> End(d, k1 - 1) <= |h|
    ensures Outputs(d, h, k0, k1) + Outputs(d, h + [s], k1, k2) == Outputs(d, h + [s], k0, k2)
  {
    OutputsOfPrefix(d, h, [s], k0, k1);
    OutputsConcat(d, h + [s], k0, k1, k2);
  }

  /** The outputs `out` of input `h` are those the formula gives from number `k` on. */
  ghost predicate Right(d: Divisor, h: seq<Stereo>, k: nat, r: Registers, out: seq<Stereo>) {
    Registered(d, h, k + |out|, r) && out == Outputs(d, h, k, k + |out|)
  }

  lemma RightStep(d: Divisor, h: seq<Stereo>, k: nat, r: Registers, out: seq<Stereo>, s: Stereo)
    requires Right(d, h, k, r, out)
    ensures var (r', out') := Next(d, r, s); Right(d, h + [s], k, r', out + out')
  {
    var (r', out') := Next(d, r, s);
    NextOk(d, h, k + |out|, r, s);
    OutputsExtend(d, h, s, k, k + |out|, k + |out| + |out'|);
  }

  /** The outputs of a run are the outputs the formula gives, in order and without gaps. */
  lemma {:induction false} RunOk(d: Divisor, h: seq<Stereo>, k: nat, r: Registers, ss: seq<Stereo>)
    requires Registered(d, h, k, r)
    ensures var (r', out) := Run(d, r, ss); Right(d, h + ss, k, r', out)
  {
    if ss == [] {
      assert h + ss == h;
    } else {
      var ss1, s := ss[..|ss| - 1], ss[|ss| - 1];
      var (r1, out1) := Run(d, r, ss1);
      RunOk(d, h, k, r, ss1);
      RightStep(d, h + ss1, k, r1, out1, s);
      assert h + ss == (h + ss1) + [s];
    }
  }

  lemma {:induction false} OutputsConcat(d: Divisor, h: seq<Stereo>, k0: nat, k1: nat, k2: nat)
    requires k0 <= k1 <= k2 && (k2 > k0 ==> End(d, k2 - 1) <= |h|)
    requires k1 > k0 ==> End(d, k1 - 1) <= |h|
    ensures Outputs(d, h, k0, k2) == Outputs(d, h, k0, k1) + Outputs(d, h, k1, k2)
  {
    if k1 < k2 {
      EndMonotone(d, k2 - 1);
      OutputsConcat(d, h, k0, k1, k2 - 1);
    }
  }

  lemma FlushOk(d: Divisor, h: seq<Stereo>, k: nat, r: Registers)
    requires Registered(d, h, k, r) && !d.halved && r.samplesToDo == 0
    ensures End(d, k) <= |h| && Given(d, r) == Output(d, h, k)
    ensures Registered(d, h, k + 1, Flushed(d, r)) && AtBoundary(d, h, k + 1)
  {
    assert Sum(h, |h|, |h|) == SILENCE;
  }

  lemma RightFlush(d: Divisor, h: seq<Stereo>, k: nat, r: Registers, out: seq<Stereo>)
    requires Right(d, h, k, r, out) && !d.halved && r.samplesToDo == 0
    ensures Right(d, h, k, Flushed(d, r), out + [Given(d, r)])
    ensures AtBoundary(d, h, k + |out| + 1)
  {
    FlushOk(d, h, k + |out|, r);
  }

  /** The end of a buffer: an integral divisor does not leave a complete window behind. */
  lemma RunBufferOk(d: Divisor, h: seq<Stereo>, k: nat, r: Registers, ss: seq<Stereo>)
    requires Registered(d, h, k, r)
    ensures var (r', out) := RunBuffer(d, r, ss);
            Right(d, h + ss, k, r', out) && AtBoundary(d, h + ss, k + |out|)
  {
    RunOk(d, h, k, r, ss);
    var (r1, out1) := Run(d, r, ss);
    if r1.samplesToDo == 0 && !d.halved {
      RightFlush(d, h + ss, k, r1, out1);
    } else {
      assert !d.halved ==> |h + ss| < Base(d, k + |out1|) + d.u;
    }
  }

  /** The test for "no conversion": 12-bit output passes it as well as 16-bit output. */
  predicate Shortcut(d: Divisor, f: Format) {
    d.u == 1 && !d.halved && f.channels == 2 && f.shBits != 8
  }

  /** The format that comes out: the shortcut does not scale. */
  function Effective(d: Divisor, f: Format): Format { if Shortcut(d, f) then f.(shBits := 0) else f }

  lemma RunStep(d: Divisor, r: Registers, all: seq<Stereo>, i: nat)
    requires i < |all|
    ensures var (r1, out1) := Run(d, r, all[..i]);
            var (r2, out2) := Next(d, r1, all[i]);
            Run(d, r, all[..i + 1]) == (r2, out1 + out2)
  {
    assert all[..i + 1][..i] == all[..i];
  }

  // ------------------------------------------------------------------ what counts as done

  function Fresh(d: Divisor): Registers {
    Registers(SILENCE, SILENCE, SILENCE, SILENCE, d.u, Collecting, false)
  }

  lemma FreshRegistered(d: Divisor)
    ensures Registered(d, [], 0, Fresh(d))
  {
  }

  /** The outputs counted are complete. */
  lemma CountFits(d: Divisor, h: seq<Stereo>)
    ensures var k := OutputCount(d, |h|); k > 0 ==> End(d, k - 1) <= |h|
  {
    FreshRegistered(d);
    RunBufferOk(d, [], 0, Fresh(d), h);
    var (r', out) := RunBuffer(d, Fresh(d), h);
    assert [] + h == h;
    CountIsExact(d, h, |out|, r');
  }

  /** The wait for a signal still goes on after input `h`. */
  predicate StillWaiting(d: Divisor, f: Format, h: seq<Stereo>) {
    CountFits(d, h);
    f.wait && !AcceptAll(CodecOf(Effective(d, f)), Sink(false, 0, []), Outputs(d, h, 0, OutputCount(d, |h|))).heard
  }

  /** What SaveBuffer makes of samples: it still waits for a signal, holds all of them back, or gives bytes. */
  datatype Effect = Waits | Holds | Gives

  /** Of samples `ss` after input `h`. Samples from which nothing comes out do not count as done. */
  function EffectOf(d: Divisor, f: Format, h: seq<Stereo>, ss: seq<Stereo>): Effect {
    if StillWaiting(d, f, h + ss) then Waits
    else if OutputCount(d, |h + ss|) > OutputCount(d, |h|) then Gives else Holds
  }

  /** After the wait, or without one, a buffer gives bytes exactly if it gives outputs. */
  lemma BytesIffOutputs(f: Format, k: Sink, outs: seq<Stereo>)
    requires k.bytes == []
    ensures var t := AcceptAll(CodecOf(f), k, outs); (f.wait && !t.heard) || (t.bytes == [] <==> outs == [])
  {
  }

  /** At an integral divisor of 1 every sample is an output. */
  lemma FullRateCounts(d: Divisor, f: Format, h: seq<Stereo>, ss: seq<Stereo>)
    requires d.u == 1 && !d.halved && ss != []
    ensures EffectOf(d, f, h, ss) != Holds
  {
  }

  // ------------------------------------------------------------------ the machine

  /** The static variables of resample.c and the global settings they depend on. */
  class SampleConverter {
    const d: Divisor
    const f: Format

    var sum: Stereo
    var s2: Stereo
    var s3: Stereo
    var aux: Stereo
    var samplesToDo: int
    var sampleState: SampleState
    var toggleOn: bool
    var anySignal: bool
    var skippedSamples: int

    ghost var input: seq<Stereo>   // all samples consumed so far
    ghost var given: nat           // output samples given so far
    ghost var written: seq<Byte>   // all bytes written to the output file so far

    ghost function Regs(): Registers
      reads this
    {
      Registers(sum, s2, s3, aux, samplesToDo, sampleState, toggleOn)
    }

    /** What the two static flags and the output file amount to. */
    ghost function Sunk(): Sink
      reads this
    {
      Sink(anySignal, skippedSamples, written)
    }

    ghost predicate Valid()
      reads this
    {
      History(d, f, input, given, Regs(), Sunk())
    }

    constructor (d: Divisor, f: Format)
      ensures Valid() && this.d == d && this.f == f && input == [] && given == 0
      ensures !anySignal && skippedSamples == 0 && written == []
    {
      this.d, this.f := d, f;
      sum, s2, s3, aux := SILENCE, SILENCE, SILENCE, SILENCE;
      samplesToDo, sampleState, toggleOn := d.u, Collecting, false;
      anySignal, skippedSamples := false, 0;
      input, given, written := [], 0, [];
    }

    /** emit_sample: writes at `dst` and returns where output ends now. */
    method EmitSample(p: array<Byte>, dst: nat, s: Stereo, ghost k: Sink) returns (dst': nat)
      requires dst + 4 <= p.Length
      requires k == Sink(anySignal, skippedSamples, p[..dst])
      modifies p, this`anySignal, this`skippedSamples
      ensures dst <= dst' <= dst + 4
      ensures Accept(CodecOf(f), k, s) == Sink(anySignal, skippedSamples, p[..dst'])
      ensures forall i :: dst' <= i < p.Length ==> p[i] == old(p[i])
    {
      if f.wait && !anySignal {
        if Audible(f, s) {
          anySignal := true;
        } else {
          skippedSamples := skippedSamples + 1;
          return dst;
        }
      }
      var bytes := Encode(f, s);
      forall i | 0 <= i < |bytes| {
        p[dst + i] := bytes[i];
      }
      dst' := dst + |bytes|;
      assert p[..dst'] == old(p[..dst]) + bytes;
    }

    /** The label none__missing: divide, give the output sample, and start the next one. */
    method Complete(p: array<Byte>, dst: nat, ghost k: Sink) returns (dst': nat)
      requires dst + 4 <= p.Length
      requires k == Sink(anySignal, skippedSamples, p[..dst])
      modifies p, this`anySignal, this`skippedSamples
      modifies this`sum, this`s2, this`s3, this`aux, this`samplesToDo, this`sampleState, this`toggleOn
      ensures dst <= dst' <= dst + 4
      ensures Accept(CodecOf(f), k, Given(d, old(Regs()))) == Sink(anySignal, skippedSamples, p[..dst'])
      ensures forall i :: dst' <= i < p.Length ==> p[i] == old(p[i])
      ensures Regs() == Restarted(d, old(Regs()))
    {
      if d.halved && !toggleOn {
        sum := Divide(InterpolateStereo(sum, s2, s3), d.u);
      } else {
        sum := Divide(sum, d.u);
      }
      dst' := EmitSample(p, dst, sum, k);
      samplesToDo := d.u - 1;
      sum := aux;
      aux, s2, s3 := SILENCE, SILENCE, SILENCE;
      toggleOn := !toggleOn;
      sampleState := Collecting;
    }

    /** The sample that completes an output: `case one_missing`, or the end of a plain window. */
    method TakeLast(p: array<Byte>, dst: nat, s: Stereo, ghost k: Sink) returns (dst': nat)
      requires dst + 4 <= p.Length
      requires k == Sink(anySignal, skippedSamples, p[..dst])
      modifies p, this`anySignal, this`skippedSamples
      modifies this`sum, this`s2, this`s3, this`aux, this`samplesToDo, this`sampleState, this`toggleOn
      ensures Regs() == Restarted(d, Arrived(old(Regs()), s))
      ensures dst <= dst' <= dst + 4
      ensures Sink(anySignal, skippedSamples, p[..dst']) == Accept(CodecOf(f), k, Given(d, Arrived(old(Regs()), s)))
      ensures forall i :: dst' <= i < p.Length ==> p[i] == old(p[i])
    {
      aux := s;
      if sampleState == OneMissing {
        s3 := Plus(s3, s);
      }
      sampleState := NoneMissing;
      assert Regs() == Arrived(old(Regs()), s);
      dst' := Complete(p, dst, k);
    }

    /** The other samples, which only go into the accumulators. */
    method TakeInto(s: Stereo)
      modifies this`sum, this`s2, this`s3, this`samplesToDo, this`sampleState
      ensures Regs() == if old(sampleState) == Collecting && old(samplesToDo) > 0
                        then Collected(d, old(Regs()), s) else Lagged(d, old(Regs()), s)
    {
      if sampleState == Collecting && samplesToDo > 0 {
        samplesToDo := samplesToDo - 1;
        sum := Plus(sum, s);
        if d.halved && !toggleOn {
          if samplesToDo < d.u - 1 {
            s2 := Plus(s2, s);
          }
          if samplesToDo < d.u - 2 {
            s3 := Plus(s3, s);
          }
        }
      } else {
        s2 := Plus(s2, s);
        if d.u > 1 {
          s3 := Plus(s3, s);
        }
        sampleState := OneMissing;
      }
    }

    /** One pass through the switch: take sample `s`, perhaps give an output sample. */
    method Take(p: array<Byte>, dst: nat, s: Stereo, ghost k: Sink) returns (dst': nat)
      requires Finishes(d, Regs()) ==> dst + 4 <= p.Length
      requires dst <= p.Length && k == Sink(anySignal, skippedSamples, p[..dst])
      modifies p, this`anySignal, this`skippedSamples
      modifies this`sum, this`s2, this`s3, this`aux, this`samplesToDo, this`sampleState, this`toggleOn
      ensures Regs() == Next(d, old(Regs()), s).0
      ensures dst <= dst' <= dst + 4 * |Next(d, old(Regs()), s).1| && dst' <= p.Length
      ensures Sink(anySignal, skippedSamples, p[..dst']) == AcceptAll(CodecOf(f), k, Next(d, old(Regs()), s).1)
      ensures forall i :: dst' <= i < p.Length ==> p[i] == old(p[i])
    {
      if sampleState == OneMissing || sampleState == NoneMissing ||
         (sampleState == Collecting && samplesToDo <= 0 && !(d.halved && !toggleOn)) {
        dst' := TakeLast(p, dst, s, k);
      } else {
        TakeInto(s);
        dst' := dst;
      }
    }

    /** The code at flush_buffer: a complete window does not wait for the next buffer. */
    method Flush(p: array<Byte>, dst: nat, ghost k: Sink) returns (dst': nat)
      requires samplesToDo == 0 && !d.halved ==> dst + 4 <= p.Length
      requires dst <= p.Length && k == Sink(anySignal, skippedSamples, p[..dst])
      modifies p, this`anySignal, this`skippedSamples
      modifies this`sum, this`s2, this`s3, this`aux, this`samplesToDo, this`sampleState, this`toggleOn
      ensures dst <= dst' <= p.Length
      ensures var flush := old(samplesToDo) == 0 && !d.halved;
              && Regs() == (if flush then Flushed(d, old(Regs())) else old(Regs()))
              && Sink(anySignal, skippedSamples, p[..dst']) ==
                   if flush then Accept(CodecOf(f), k, Given(d, old(Regs()))) else k
    {
      dst' := dst;
      if samplesToDo == 0 && !d.halved {
        dst' := Complete(p, dst, k);
        samplesToDo := d.u;
        sum := SILENCE;
      }
    }

    /**
     The conversion loop over a buffer of `n` samples, and the flush at its end. Output is
     written over the input: never over a sample that has not been read.
     */
    method Convert(p: array<Byte>, n: nat) returns (dst: nat)
      requires p.Length == 4 * n
      requires !d.halved ==> sampleState == Collecting && samplesToDo > 0
      modifies p, this`anySignal, this`skippedSamples
      modifies this`sum, this`s2, this`s3, this`aux, this`samplesToDo, this`sampleState, this`toggleOn
      ensures dst <= p.Length
      ensures Regs() == RunBuffer(d, old(Regs()), Samples(old(p[..]), n)).0
      ensures Sink(anySignal, skippedSamples, p[..dst]) ==
              AcceptAll(CodecOf(f), Sink(old(anySignal), old(skippedSamples), []),
                        RunBuffer(d, old(Regs()), Samples(old(p[..]), n)).1)
    {
      ghost var src, k0, r0 := p[..], Sink(anySignal, skippedSamples, []), Regs();
      ghost var all, out := Samples(src, n), [];
      dst := 0;
      var i := 0;
      while i < n
        invariant 0 <= i <= n && |out| <= i
        invariant Run(d, r0, all[..i]) == (Regs(), out)
        invariant dst <= 4 * |out|
        invariant Sink(anySignal, skippedSamples, p[..dst]) == AcceptAll(CodecOf(f), k0, out)
        invariant forall j :: 4 * i <= j < p.Length ==> p[j] == src[j]
      {
        var s := Stereo(Load16(p[4 * i], p[4 * i + 1]), Load16(p[4 * i + 2], p[4 * i + 3]));
        SamplesPrefix(src, i, n);
        RunStep(d, r0, all, i);
        ghost var out2 := Next(d, Regs(), s).1;
        AcceptConcat(CodecOf(f), k0, out, out2);
        dst := Take(p, dst, s, Sink(anySignal, skippedSamples, p[..dst]));
        out := out + out2;
        i := i + 1;
      }
      assert all[..n] == all;
      RunIsShort(d, r0, all);
      AcceptMore(CodecOf(f), k0, out, Given(d, Regs()));
      dst := Flush(p, dst, Sink(anySignal, skippedSamples, p[..dst]));
    }

    /** The number of samples before the first that is not silent. */
    method LeadingSilence(p: array<Byte>, n: nat) returns (i: nat)
      requires p.Length == 4 * n
      ensures i <= n && forall j :: 0 <= j < i ==> Zero(p[..], j)
      ensures i < n ==> !Zero(p[..], i)
    {
      i := 0;
      while i < n && p[4 * i] == p[4 * i + 1] == p[4 * i + 2] == p[4 * i + 3] == 0
        invariant 0 <= i <= n
        invariant forall j :: 0 <= j < i ==> Zero(p[..], j)
      {
        i := i + 1;
      }
    }

    /** The code for "no conversion": the buffer is forwarded, less any leading silence. */
    method Forward(p: array<Byte>, n: nat) returns (start: nat)
      requires Shortcut(d, f) && p.Length == 4 * n
      modifies this`anySignal, this`skippedSamples
      ensures start <= p.Length
      ensures Sink(anySignal, skippedSamples, p[start..4 * n]) ==
              AcceptAll(CodecOf(f.(shBits := 0)), Sink(old(anySignal), old(skippedSamples), []), Samples(p[..], n))
    {
      ghost var q := p[..];
      var i := 0;
      if f.wait && !anySignal {
        i := LeadingSilence(p, n);
      }
      start := 4 * i;
      assert p[start..4 * n] == q[4 * i..];
      ForwardOk(f.(shBits := 0), Sink(anySignal, skippedSamples, []), q, n, i);
      if f.wait && !anySignal {
        if i < n {
          anySignal := true;
        }
        skippedSamples := skippedSamples + i;
      }
    }

    /** SaveBuffer, but for the history: the registers, the flags and the bytes to write. */
    method SaveSamples(p: array<Byte>, n: nat) returns (out: seq<Byte>)
      requires p.Length == 4 * n
      requires !d.halved ==> sampleState == Collecting && samplesToDo > 0
      modifies p, this`anySignal, this`skippedSamples
      modifies this`sum, this`s2, this`s3, this`aux, this`samplesToDo, this`sampleState, this`toggleOn
      ensures Regs() == Processed(d, f, old(Regs()), Samples(old(p[..]), n)).0
      ensures Sink(anySignal, skippedSamples, out) ==
              AcceptAll(CodecOf(OutFormat(d, f, old(samplesToDo))), Sink(old(anySignal), old(skippedSamples), []),
                        Processed(d, f, old(Regs()), Samples(old(p[..]), n)).1)
      ensures f.wait && !anySignal ==> out == []
    {
      ghost var k, r, ss := Sink(anySignal, skippedSamples, []), Regs(), Samples(p[..], n);
      var start, stop := 0, 0;
      if d.u == 1 && samplesToDo == 1 && f.channels == 2 && f.shBits != 8 && !d.halved {
        start := Forward(p, n);
        stop := 4 * n;
      } else {
        stop := Convert(p, n);
        assert p[start..stop] == p[..stop];
      }
      SilentSink(CodecOf(OutFormat(d, f, r.samplesToDo)), k, Processed(d, f, r, ss).1);
      if !f.wait || anySignal {
        out := p[start..stop];
      } else {
        out := [];
      }
    }

    /** The bytes to write, with the history brought up to date. */
    method SaveAndRecord(p: array<Byte>, n: nat) returns (out: seq<Byte>)
      requires Valid() && p.Length == 4 * n
      modifies p, this
      ensures Valid()
      ensures input == old(input) + Samples(old(p[..]), n) && written == old(written) + out
      ensures given >= old(given) && if f.wait && !anySignal then out == [] else out == [] <==> given == old(given)
    {
      ghost var ss := Samples(p[..], n);
      ghost var r2, g2, t := NextHistory(d, f, input, given, Regs(), Sunk(), ss);
      out := SaveSamples(p, n);
      Record(ss, out, g2, r2, t.(bytes := written + t.bytes));
    }

    /**
     SaveBuffer on a buffer of `n` samples. The result is what is written to the output
     file; the invariant says that in all it is the encoding of all outputs of all the
     input, however the input is cut into buffers. The samples are added to `total` unless
     all of them are held back.
     */
    method SaveBuffer(p: array<Byte>, n: nat, total: nat) returns (out: seq<Byte>, total': nat)
      requires Valid() && p.Length == 4 * n
      modifies p, this
      ensures Valid()
      ensures input == old(input) + Samples(old(p[..]), n)
      ensures written == old(written) + out
      ensures given == OutputCount(d, |input|)
      ensures var effect := EffectOf(d, f, old(input), Samples(old(p[..]), n));
              (out != [] <==> effect == Gives) && total' == if effect == Holds then total else total + n
    {
      GivenIsCount(d, f, input, given, Regs(), Sunk());
      out := SaveAndRecord(p, n);
      GivenIsCount(d, f, input, given, Regs(), Sunk());
      if (!f.wait || anySignal) && |out| == 0 {
        total' := total;
      } else {
        total' := total + n;
      }
    }

    /** Brings the history up to date. */
    ghost method Record(ss: seq<Stereo>, out: seq<Byte>, g: nat, r: Registers, k: Sink)
      requires Regs() == r && Sink(anySignal, skippedSamples, written + out) == k
      requires History(d, f, input + ss, g, r, k)
      modifies `input, `given, `written
      ensures Valid() && input == old(input) + ss && written == old(written) + out && given == g
    {
      input, given, written := input + ss, g, written + out;
    }
  }

  /** Registers and output samples of a buffer: with the shortcut, the samples as they are. */
  function Processed(d: Divisor, f: Format, r: Registers, ss: seq<Stereo>): (Registers, seq<Stereo>) {
    if Shortcut(d, f) && r.samplesToDo == 1 then (r, ss) else RunBuffer(d, r, ss)
  }

  function OutFormat(d: Divisor, f: Format, samplesToDo: int): Format {
    if Shortcut(d, f) && samplesToDo == 1 then f.(shBits := 0) else f
  }

  /**
   The state of the converter at a buffer end, after input `h` and `g` outputs: all that
   was ever written is the encoding of outputs 0, .., g-1.
   */
  ghost predicate History(d: Divisor, f: Format, h: seq<Stereo>, g: nat, r: Registers, k: Sink) {
    && Registered(d, h, g, r) && AtBoundary(d, h, g)
    && k == AcceptAll(CodecOf(Effective(d, f)), Sink(false, 0, []), Outputs(d, h, 0, g))
  }

  /** At a buffer end the number of outputs and the wait are functions of the input. */
  lemma GivenIsCount(d: Divisor, f: Format, h: seq<Stereo>, g: nat, r: Registers, k: Sink)
    requires History(d, f, h, g, r, k)
    ensures g == OutputCount(d, |h|) && StillWaiting(d, f, h) == (f.wait && !k.heard)
  {
    CountIsExact(d, h, g, r);
  }

  lemma HistoryStep(d: Divisor, f: Format, h: seq<Stereo>, g: nat, r: Registers, k: Sink, ss: seq<Stereo>)
    requires History(d, f, h, g, r, k)
    ensures !d.halved ==> r.state == Collecting && r.samplesToDo > 0
    ensures OutFormat(d, f, r.samplesToDo) == Effective(d, f)
    ensures var (r', outs) := Processed(d, f, r, ss);
            var t := AcceptAll(CodecOf(Effective(d, f)), k.(bytes := []), outs);
            && History(d, f, h + ss, g + |outs|, r', t.(bytes := k.bytes + t.bytes))
            && g + |outs| == OutputCount(d, |h + ss|)
  {
    var (r', outs) := Processed(d, f, r, ss);
    ProcessedOk(d, f, h, g, r, ss);
    HistoryOk(d, f, CodecOf(Effective(d, f)), h, g, k, ss, r', outs, h + ss, g + |outs|);
  }

  /** The history after one more buffer, from what SaveSamples leaves. */
  lemma NextHistory(d: Divisor, f: Format, h: seq<Stereo>, g: nat, r: Registers, k: Sink, ss: seq<Stereo>)
    returns (r2: Registers, g2: nat, t: Sink)
    requires History(d, f, h, g, r, k)
    ensures !d.halved ==> r.state == Collecting && r.samplesToDo > 0
    ensures r2 == Processed(d, f, r, ss).0
    ensures t == AcceptAll(CodecOf(OutFormat(d, f, r.samplesToDo)), Sink(k.heard, k.skipped, []),
                           Processed(d, f, r, ss).1)
    ensures History(d, f, h + ss, g2, r2, t.(bytes := k.bytes + t.bytes))
    ensures g2 >= g && (!f.wait || t.heard ==> (t.bytes == [] <==> g2 == g))
  {
    var outs, g0 := Processed(d, f, r, ss).1, Effective(d, f);
    r2, g2 := Processed(d, f, r, ss).0, g + |outs|;
    HistoryStep(d, f, h, g, r, k, ss);
    t := AcceptAll(CodecOf(g0), k.(bytes := []), outs);
    BytesIffOutputs(g0, k.(bytes := []), outs);
  }

  lemma HistoryOk(d: Divisor, f: Format, c: Codec, h: seq<Stereo>, g: nat, k: Sink,
                  ss: seq<Stereo>, r': Registers, outs: seq<Stereo>, h2: seq<Stereo>, g2: nat)
    requires c == CodecOf(Effective(d, f)) && h2 == h + ss && g2 == g + |outs|
    requires Right(d, h2, g, r', outs) && AtBoundary(d, h2, g2)
    requires g > 0 ==> End(d, g - 1) <= |h|
    requires k == AcceptAll(c, Sink(false, 0, []), Outputs(d, h, 0, g))
    ensures var t := AcceptAll(c, k.(bytes := []), outs);
            History(d, f, h2, g2, r', t.(bytes := k.bytes + t.bytes))
    ensures g2 == OutputCount(d, |h2|)
  {
    WrittenOk(c, d, h, ss, g, k, outs, h2, g2);
    CountIsExact(d, h2, g2, r');
  }

  lemma ProcessedOk(d: Divisor, f: Format, h: seq<Stereo>, g: nat, r: Registers, ss: seq<Stereo>)
    requires Registered(d, h, g, r) && AtBoundary(d, h, g)
    ensures Shortcut(d, f) ==> r.samplesToDo == 1
    ensures var (r', outs) := Processed(d, f, r, ss);
            Right(d, h + ss, g, r', outs) && AtBoundary(d, h + ss, g + |outs|)
  {
    if Shortcut(d, f) {
      BaseClosedForm(d, g);
      ForwardedSamples(d, h, g, r, ss);
    } else {
      RunBufferOk(d, h, g, r, ss);
    }
  }

  /** Nothing is written while waiting. */
  lemma {:induction false} SilentSink(c: Codec, k: Sink, ss: seq<Stereo>)
    requires k.bytes == []
    ensures c.wait && !AcceptAll(c, k, ss).heard ==> AcceptAll(c, k, ss).bytes == []
  {
    if ss != [] {
      SilentSink(c, k, ss[..|ss| - 1]);
    }
  }

  lemma ForwardedNothing(d: Divisor, h: seq<Stereo>, g: nat, r: Registers)
    requires Registered(d, h, g, r) && AtBoundary(d, h, g)
    ensures Right(d, h, g, r, []) && AtBoundary(d, h, g + 0)
  {
  }

  /** With divisor 1 the outputs are the inputs, and forwarding leaves the registers right. */
  lemma {:induction false} ForwardedSamples(d: Divisor, h: seq<Stereo>, g: nat, r: Registers, ss: seq<Stereo>)
    requires d.u == 1 && !d.halved && Registered(d, h, g, r) && AtBoundary(d, h, g)
    ensures Right(d, h + ss, g, r, ss) && AtBoundary(d, h + ss, g + |ss|)
  {
    if ss == [] {
      ForwardedNothing(d, h, g, r);
      assert h + ss == h;
    } else {
      var ss1, s := ss[..|ss| - 1], ss[|ss| - 1];
      ForwardedSamples(d, h, g, r, ss1);
      ForwardedMore(d, h, h + ss1, g, r, ss1, s, ss);
    }
  }

  lemma ForwardedMore(d: Divisor, h: seq<Stereo>, h1: seq<Stereo>, g: nat, r: Registers, ss1: seq<Stereo>, s: Stereo,
                      ss: seq<Stereo>)
    requires d.u == 1 && !d.halved && h1 == h + ss1 && ss == ss1 + [s]
    requires Right(d, h1, g, r, ss1) && AtBoundary(d, h1, g + |ss1|)
    ensures Right(d, h + ss, g, r, ss) && AtBoundary(d, h + ss, g + |ss|)
  {
    ForwardedSample(d, h1, g, r, ss1, s);
    assert h + ss == h1 + [s];
  }

  lemma ForwardedSample(d: Divisor, h: seq<Stereo>, g: nat, r: Registers, outs: seq<Stereo>, s: Stereo)
    requires d.u == 1 && !d.halved && Right(d, h, g, r, outs) && AtBoundary(d, h, g + |outs|)
    ensures Right(d, h + [s], g, r, outs + [s]) && AtBoundary(d, h + [s], g + |outs| + 1)
  {
    var k := g + |outs|;
    BaseClosedForm(d, k);
    UnitOutput(d, h + [s], k);
    OutputsOfPrefix(d, h, [s], g, k);
  }

  lemma UnitOutput(d: Divisor, h: seq<Stereo>, k: nat)
    requires d.u == 1 && !d.halved && k + 1 == |h|
    ensures Base(d, k) == k && Base(d, k + 1) == k + 1 && Output(d, h, k) == h[k]
  {
    BaseClosedForm(d, k);
    assert Sum(h, k, k + 1) == Plus(SILENCE, h[k]);
  }

  /** The bytes of a buffer continue the bytes of all buffers before it. */
  lemma WrittenOk(c: Codec, d: Divisor, h: seq<Stereo>, ss: seq<Stereo>, g: nat, k: Sink, outs: seq<Stereo>,
                  h2: seq<Stereo>, g2: nat)
    requires h2 == h + ss && g2 == g + |outs|
    requires g > 0 ==> End(d, g - 1) <= |h|
    requires g2 > 0 ==> End(d, g2 - 1) <= |h2|
    requires k == AcceptAll(c, Sink(false, 0, []), Outputs(d, h, 0, g))
    requires outs == Outputs(d, h2, g, g2)
    ensures var t := AcceptAll(c, k.(bytes := []), outs);
            t.(bytes := k.bytes + t.bytes) == AcceptAll(c, Sink(false, 0, []), Outputs(d, h2, 0, g2))
  {
    OutputsOfPrefix(d, h, ss, 0, g);
    OutputsConcat(d, h2, 0, g, g2);
    AcceptConcat(c, Sink(false, 0, []), Outputs(d, h, 0, g), outs);
    AcceptFrame(c, k, outs);
  }

  // ------------------------------------------------------------------ forwarding

  /** Leading silence is counted and gives no bytes. */
  lemma {:induction false} SilenceIsSkipped(c: Codec, k: Sink, ss: seq<Stereo>)
    requires c.wait && !k.heard && !c.audible(SILENCE)
    requires forall i :: 0 <= i < |ss| ==> ss[i] == SILENCE
    ensures AcceptAll(c, k, ss) == k.(skipped := k.skipped + |ss|)
  {
    if ss != [] {
      SilenceIsSkipped(c, k, ss[..|ss| - 1]);
    }
  }

  function EncodeAll(c: Codec, ss: seq<Stereo>): seq<Byte> {
    if ss == [] then [] else EncodeAll(c, ss[..|ss| - 1]) + c.encode(ss[|ss| - 1])
  }

  /** From a sample that is heard, or when nothing is skipped, all samples are stored. */
  lemma {:induction false} AllStored(c: Codec, k: Sink, ss: seq<Stereo>)
    requires k.bytes == [] && ss != []
    requires c.wait && !k.heard ==> c.audible(ss[0])
    ensures AcceptAll(c, k, ss) == Sink(k.heard || c.wait, k.skipped, EncodeAll(c, ss))
  {
    var m := |ss| - 1;
    if m > 0 {
      AllStored(c, k, ss[..m]);
    } else {
      assert ss[..0] == [] && AcceptAll(c, k, ss[..0]) == k && EncodeAll(c, ss[..0]) == [];
    }
  }

  predicate Zero(p: seq<Byte>, i: nat)
    requires 4 * i + 4 <= |p|
  {
    p[4 * i] == p[4 * i + 1] == p[4 * i + 2] == p[4 * i + 3] == 0
  }

  /** The samples `ss` of buffer `p` are stored as they were loaded, and only zeros are silent. */
  ghost predicate Transparent(c: Codec, p: seq<Byte>, ss: seq<Stereo>) {
    && |p| == 4 * |ss|
    && !c.audible(SILENCE)
    && (forall i :: 0 <= i < |ss| ==> c.encode(ss[i]) == p[4 * i..4 * i + 4])
    && (forall i :: 0 <= i < |ss| ==> (c.audible(ss[i]) <==> !Zero(p, i)))
    && (forall i :: 0 <= i < |ss| && Zero(p, i) ==> ss[i] == SILENCE)
  }

  lemma LoadedSilence(lo: Byte, hi: Byte)
    ensures Load16(lo, hi) % 0x1_0000 == 0 <==> lo == hi == 0
  {
  }

  lemma SixteenBitSample(f: Format, p: seq<Byte>, i: nat)
    requires f.channels == 2 && f.shBits == 0 && 4 * i + 4 <= |p|
    ensures var s := SampleAt(p, i);
            && Encode(f, s) == p[4 * i..4 * i + 4] && (Audible(f, s) <==> !Zero(p, i))
            && (Zero(p, i) ==> s == SILENCE)
  {
    var s := SampleAt(p, i);
    StoreLoad16(p[4 * i], p[4 * i + 1]);
    StoreLoad16(p[4 * i + 2], p[4 * i + 3]);
    LoadedSilence(p[4 * i], p[4 * i + 1]);
    LoadedSilence(p[4 * i + 2], p[4 * i + 3]);
    assert Scaled(f, s) == [s.l, s.r];
    assert s.l in Scaled(f, s) && s.r in Scaled(f, s);
  }

  /** 16-bit stereo is transparent. */
  lemma SixteenBitStereo(f: Format, p: seq<Byte>, n: nat)
    requires f.channels == 2 && f.shBits == 0 && |p| == 4 * n
    ensures Transparent(CodecOf(f), p, Samples(p, n))
  {
    var ss := Samples(p, n);
    assert Scaled(f, SILENCE) == [0, 0];
    forall i | 0 <= i < n
      ensures Encode(f, ss[i]) == p[4 * i..4 * i + 4] && (Audible(f, ss[i]) <==> !Zero(p, i))
      ensures Zero(p, i) ==> ss[i] == SILENCE
    {
      SamplesPrefix(p, i, n);
      SixteenBitSample(f, p, i);
    }
  }

  lemma FourMore(p: seq<Byte>, i: nat, n: nat)
    requires i < n && 4 * n <= |p|
    ensures p[4 * i..4 * n] == p[4 * i..4 * (n - 1)] + p[4 * (n - 1)..4 * (n - 1) + 4]
  {
  }

  lemma {:induction false} StoredBytes(c: Codec, p: seq<Byte>, ss: seq<Stereo>, i: nat, n: nat)
    requires Transparent(c, p, ss) && i <= n <= |ss|
    ensures EncodeAll(c, ss[i..n]) == p[4 * i..4 * n]
  {
    if i < n {
      StoredBytes(c, p, ss, i, n - 1);
      assert ss[i..n][..n - 1 - i] == ss[i..n - 1];
      FourMore(p, i, n);
    }
  }

  /** The samples from number i on, the first of them heard or nothing skipped. */
  lemma ForwardedBytes(c: Codec, k: Sink, p: seq<Byte>, ss: seq<Stereo>, i: nat, rest: seq<Stereo>, tail: seq<Byte>)
    requires k.bytes == [] && i < |ss| && Transparent(c, p, ss) && rest == ss[i..] && tail == p[4 * i..]
    requires c.wait && !k.heard ==> !Zero(p, i)
    ensures AcceptAll(c, k, rest) == Sink(k.heard || c.wait, k.skipped, tail)
  {
    AllStored(c, k, rest);
    StoredBytes(c, p, ss, i, |ss|);
    assert ss[i..|ss|] == rest && p[4 * i..4 * |ss|] == tail;
  }

  /** A buffer that starts with exactly `i` silent samples while waiting for a signal. */
  lemma ForwardedAfterSilence(c: Codec, k: Sink, p: seq<Byte>, ss: seq<Stereo>, i: nat)
    requires k.bytes == [] && c.wait && !k.heard && i <= |ss| && Transparent(c, p, ss)
    requires forall j :: 0 <= j < i ==> Zero(p, j)
    requires i < |ss| ==> !Zero(p, i)
    ensures AcceptAll(c, k, ss) == Sink(i < |ss|, k.skipped + i, p[4 * i..])
  {
    var rest, k1, tail := ss[i..], k.(skipped := k.skipped + i), p[4 * i..];
    SilentPrefix(c, k, p, ss, i);
    if i < |ss| {
      ForwardedBytes(c, k1, p, ss, i, rest, tail);
    } else {
      assert rest == [] && AcceptAll(c, k1, []) == k1 && tail == [];
    }
    InTwoParts(c, k, k1, ss, i, rest);
  }

  lemma InTwoParts(c: Codec, k: Sink, k1: Sink, ss: seq<Stereo>, i: nat, rest: seq<Stereo>)
    requires i <= |ss| && rest == ss[i..] && AcceptAll(c, k, ss[..i]) == k1
    ensures AcceptAll(c, k, ss) == AcceptAll(c, k1, rest)
  {
    assert ss == ss[..i] + rest;
    AcceptConcat(c, k, ss[..i], rest);
  }

  lemma SilentPrefix(c: Codec, k: Sink, p: seq<Byte>, ss: seq<Stereo>, i: nat)
    requires c.wait && !k.heard && i <= |ss| && Transparent(c, p, ss)
    requires forall j :: 0 <= j < i ==> Zero(p, j)
    ensures AcceptAll(c, k, ss[..i]) == k.(skipped := k.skipped + i)
  {
    SilenceIsSkipped(c, k, ss[..i]);
  }

  /** What forwarding amounts to, with `i` the first sample that goes out. */
  lemma ForwardOk(f: Format, k: Sink, p: seq<Byte>, n: nat, i: nat)
    requires f.channels == 2 && f.shBits == 0 && |p| == 4 * n && i <= n && k.bytes == []
    requires !(f.wait && !k.heard) ==> i == 0
    requires f.wait && !k.heard ==> forall j :: 0 <= j < i ==> Zero(p, j)
    requires f.wait && !k.heard && i < n ==> !Zero(p, i)
    ensures AcceptAll(CodecOf(f), k, Samples(p, n)) ==
            Sink(k.heard || (f.wait && i < n), k.skipped + i, p[4 * i..])
  {
    var c, ss := CodecOf(f), Samples(p, n);
    SixteenBitStereo(f, p, n);
    if f.wait && !k.heard {
      ForwardedAfterSilence(c, k, p, ss, i);
    } else if n > 0 {
      ForwardedBytes(c, k, p, ss, 0, ss, p);
    }
  }

  /** An audible sample after nothing. */
  lemma OneSample(f: Format, s: Stereo)
    requires Audible(f, s)
    ensures AcceptAll(CodecOf(f), Sink(false, 0, []), [s]).bytes == Encode(f, s)
  {
    AcceptMore(CodecOf(f), Sink(false, 0, []), [], s);
    assert [] + [s] == [s];
  }

  /** The value 16 is 1 in twelve bits. */
  lemma Sixteen(f: Format)
    requires f.channels == 2 && f.shBits != 8
    ensures var s := Stereo(16, 0); Audible(f, s) && Encode(f, s)[0] == if f.shBits == 0 then 16 else 1
  {
    var s := Stereo(16, 0);
    assert Scaled(f, s) == if f.shBits == 0 then [16, 0] else [1, 0];
    assert Scaled(f, s)[0] in Scaled(f, s);
  }

  /**
   The shortcut is taken for 12-bit output as well, but then the values are not scaled
   down as the conversion loop scales them: the two agree for 16-bit output only.
   */
  lemma ShortcutAgreesWithLoop(d: Divisor, f: Format)
    requires Shortcut(d, f)
    ensures (forall ss :: AcceptAll(CodecOf(f), Sink(false, 0, []), ss) ==
                          AcceptAll(CodecOf(Effective(d, f)), Sink(false, 0, []), ss))
            <==> f.shBits == 0
  {
    if f.shBits != 0 {
      var s, g := Stereo(16, 0), Effective(d, f);
      Sixteen(f);
      Sixteen(g);
      OneSample(f, s);
      OneSample(g, s);
      assert Encode(f, s)[0] != Encode(g, s)[0];
    }
  }
}
