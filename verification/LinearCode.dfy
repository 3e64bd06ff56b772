/**
 A shift register over an additive group of registers in which every element is its own
 inverse: what follows from linearity alone, whatever the register is made of.
 */
module LinearCode {

  /** Registers of type W, message symbols of type B; `load` is the register a symbol is added as. */
  datatype Code<!W, !B> = Code(zero: W, add: (W, W) -> W, step: W -> W, load: B -> W, mix: (B, B) -> B)

  /** Addition is associative and commutative, and every register is its own inverse. */
  ghost predicate Group<W(!new), B(!new)>(k: Code<W, B>) {
    && (forall a, b, c :: k.add(k.add(a, b), c) == k.add(k.add(a, c), b))
    && (forall a, b, c :: k.add(a, k.add(b, c)) == k.add(k.add(a, b), c))
    && (forall a, b :: k.add(a, b) == k.zero <==> a == b)
    && (forall x, y :: k.load(k.mix(x, y)) == k.add(k.load(x), k.load(y)))
  }

  /** A step respects addition and loses nothing. */
  ghost predicate Linear<W(!new), B(!new)>(k: Code<W, B>) {
    && (forall a, b :: k.step(k.add(a, b)) == k.add(k.step(a), k.step(b)))
    && (forall a, b :: k.step(a) == k.step(b) ==> a == b)
  }

  function Steps<W, B>(k: Code<W, B>, n: nat, c: W): W {
    if n == 0 then c else Steps(k, n - 1, k.step(c))
  }

  /** A symbol enters the register in eight steps. */
  function Feed<W, B>(k: Code<W, B>, c: W, b: B): W { Steps(k, 8, k.add(c, k.load(b))) }

  function Run<W, B>(k: Code<W, B>, c: W, data: seq<B>): W {
    if data == [] then c else Feed(k, Run(k, c, data[..|data| - 1]), data[|data| - 1])
  }

  lemma {:induction false} StepsAdd<W, B>(k: Code<W, B>, m: nat, n: nat, c: W)
    ensures Steps(k, m + n, c) == Steps(k, n, Steps(k, m, c))
  {
    if m > 0 {
      StepsAdd(k, m - 1, n, k.step(c));
    }
  }

  lemma {:induction false} StepsLinear<W(!new), B(!new)>(k: Code<W, B>, n: nat, a: W, b: W)
    requires Linear(k)
    ensures Steps(k, n, k.add(a, b)) == k.add(Steps(k, n, a), Steps(k, n, b))
  {
    if n > 0 {
      StepsLinear(k, n - 1, k.step(a), k.step(b));
    }
  }

  lemma {:induction false} StepsInjective<W(!new), B(!new)>(k: Code<W, B>, n: nat, a: W, b: W)
    requires Linear(k) && Steps(k, n, a) == Steps(k, n, b)
    ensures a == b
  {
    if n > 0 {
      StepsInjective(k, n - 1, k.step(a), k.step(b));
    }
  }

  lemma {:induction false} RunFront<W, B>(k: Code<W, B>, c: W, b: B, data: seq<B>)
    ensures Run(k, c, [b] + data) == Run(k, Feed(k, c, b), data)
  {
    var n := |data|;
    if n == 0 {
      assert ([b] + data)[..n] == [];
    } else {
      assert ([b] + data)[..n] == [b] + data[..n - 1];
      RunFront(k, c, b, data[..n - 1]);
    }
  }

  /** A symbol whose sum with the register falls into two parts. */
  lemma FeedSplit<W(!new), B(!new)>(k: Code<W, B>, c: W, b: B, p: W, q: W)
    requires Linear(k) && k.add(c, k.load(b)) == k.add(p, q)
    ensures Feed(k, c, b) == k.add(Steps(k, 8, p), Steps(k, 8, q))
  {
    StepsLinear(k, 8, p, q);
  }

  /** A difference in the register moves on by itself. */
  lemma FeedAdd<W(!new), B(!new)>(k: Code<W, B>, c: W, s: W, b: B)
    requires Group(k) && Linear(k)
    ensures Feed(k, k.add(c, s), b) == k.add(Feed(k, c, b), Steps(k, 8, s))
  {
    StepsLinear(k, 8, k.add(c, k.load(b)), s);
  }

  /** A difference in a symbol enters the register like a symbol. */
  lemma FeedMix<W(!new), B(!new)>(k: Code<W, B>, c: W, b: B, m: B)
    requires Group(k) && Linear(k)
    ensures Feed(k, c, k.mix(b, m)) == k.add(Feed(k, c, b), Steps(k, 8, k.load(m)))
  {
    StepsLinear(k, 8, k.add(c, k.load(b)), k.load(m));
  }

  ghost predicate Additive<W(!new), B(!new)>(k: Code<W, B>) {
    && (forall c, s, b :: Feed(k, k.add(c, s), b) == k.add(Feed(k, c, b), Steps(k, 8, s)))
    && (forall c, b, m :: Feed(k, c, k.mix(b, m)) == k.add(Feed(k, c, b), Steps(k, 8, k.load(m))))
  }

  lemma FeedAdditive<W(!new), B(!new)>(k: Code<W, B>)
    requires Group(k) && Linear(k)
    ensures Additive(k)
  {
    forall c, s, b
      ensures Feed(k, k.add(c, s), b) == k.add(Feed(k, c, b), Steps(k, 8, s))
    {
      FeedAdd(k, c, s, b);
    }
    forall c, b, m
      ensures Feed(k, c, k.mix(b, m)) == k.add(Feed(k, c, b), Steps(k, 8, k.load(m)))
    {
      FeedMix(k, c, b, m);
    }
  }

  /** The effect of one changed symbol depends only on the change and on its distance from the end. */
  lemma {:induction false} Syndrome<W(!new), B(!new)>(k: Code<W, B>, c: W, data: seq<B>, at: nat, m: B)
    requires Additive(k) && at < |data|
    ensures Run(k, c, data[at := k.mix(data[at], m)])
         == k.add(Run(k, c, data), Steps(k, 8 * (|data| - at), k.load(m)))
  {
    var n := |data| - 1;
    var changed := data[at := k.mix(data[at], m)];
    if at == n {
      assert changed[..n] == data[..n];
    } else {
      assert changed[..n] == data[..n][at := k.mix(data[at], m)];
      Syndrome(k, c, data[..n], at, m);
      StepsAdd(k, 8 * (n - at), 8, k.load(m));
    }
  }

  // ------------------------------------------------------------------ single-bit errors

  /** `unit(j)` has bit j of a symbol set; the bits enter the register one after the other. */
  ghost predicate Units<W(!new), B(!new)>(k: Code<W, B>, unit: nat -> B) {
    forall j | 0 <= j < 8 :: k.load(unit(j)) == Steps(k, j, k.load(unit(0)))
  }

  /** Bit `i % 8` of symbol `i / 8` changed. */
  function Flip<W, B>(k: Code<W, B>, unit: nat -> B, data: seq<B>, i: nat): seq<B>
    requires i < 8 * |data|
  {
    data[i / 8 := k.mix(data[i / 8], unit(i % 8))]
  }

  /** The register that flipping the last but `p` bit of a message leads to. */
  function Power<W, B>(k: Code<W, B>, unit: nat -> B, p: nat): W { Steps(k, p, Steps(k, 8, k.load(unit(0)))) }

  /** How many bits enter after bit `i` of `n` symbols. */
  function Later(n: nat, i: nat): nat
    requires i < 8 * n
  {
    8 * (n - 1 - i / 8) + i % 8
  }

  lemma FlipAddsPower<W(!new), B(!new)>(k: Code<W, B>, unit: nat -> B, c: W, data: seq<B>, i: nat)
    requires Additive(k) && Units(k, unit) && i < 8 * |data|
    ensures Run(k, c, Flip(k, unit, data, i)) == k.add(Run(k, c, data), Power(k, unit, Later(|data|, i)))
  {
    var n, at, j := |data|, i / 8, i % 8;
    var one := k.load(unit(0));
    Syndrome(k, c, data, at, unit(j));
    StepsAdd(k, j, 8 * (n - at), one);
    assert j + 8 * (n - at) == 8 + Later(n, i);
    StepsAdd(k, 8, Later(n, i), one);
  }

  /** The powers up to the first return differ from each other. */
  lemma PowersDiffer<W(!new), B(!new)>(k: Code<W, B>, unit: nat -> B, n: nat, p: nat, q: nat)
    requires Linear(k) && p < q < n
    requires forall d | 0 < d < n :: Power(k, unit, d) != Power(k, unit, 0)
    ensures Power(k, unit, p) != Power(k, unit, q)
  {
    var first := Steps(k, 8, k.load(unit(0)));
    StepsAdd(k, q - p, p, first);
    assert Power(k, unit, q - p) != Power(k, unit, 0);
    if Power(k, unit, p) == Power(k, unit, q) {
      StepsInjective(k, p, first, Steps(k, q - p, first));
    }
  }

  lemma {:induction false} PowersNonzero<W(!new), B(!new)>(k: Code<W, B>, n: nat, c: W)
    requires Linear(k) && k.step(k.zero) == k.zero && c != k.zero
    ensures Steps(k, n, c) != k.zero
  {
    if n > 0 {
      PowersNonzero(k, n - 1, k.step(c));
    }
  }

  /** Sums with a common part differ. */
  ghost predicate Cancels<W(!new), B(!new)>(k: Code<W, B>) {
    && (forall a, b, c :: k.add(a, b) == k.add(a, c) ==> b == c)
    && (forall a, b :: k.add(a, b) == a ==> b == k.zero)
  }

  /** A code that tells all single-bit errors in `n` symbols apart. */
  ghost predicate Separates<W(!new), B(!new)>(k: Code<W, B>, unit: nat -> B, n: nat) {
    && (forall p, q | 0 <= p < q < 8 * n :: Power(k, unit, p) != Power(k, unit, q))
    && (forall p | 0 <= p < 8 * n :: Power(k, unit, p) != k.zero)
  }

  /** The message and all its single-bit changes lead to pairwise different registers. */
  lemma FlipsDiffer<W(!new), B(!new)>(k: Code<W, B>, unit: nat -> B, c: W, data: seq<B>, i: nat, j: nat)
    requires Additive(k) && Units(k, unit) && Cancels(k) && Separates(k, unit, |data|)
    requires i < 8 * |data| && j < 8 * |data| && i != j
    ensures Run(k, c, Flip(k, unit, data, i)) != Run(k, c, data)
    ensures Run(k, c, Flip(k, unit, data, i)) != Run(k, c, Flip(k, unit, data, j))
  {
    FlipAddsPower(k, unit, c, data, i);
    FlipAddsPower(k, unit, c, data, j);
    LaterDiffers(|data|, i, j);
    var p, q := Later(|data|, i), Later(|data|, j);
    assert Power(k, unit, p) != Power(k, unit, q);
  }

  lemma LaterDiffers(n: nat, i: nat, j: nat)
    requires i < 8 * n && j < 8 * n && i != j
    ensures Later(n, i) != Later(n, j) && Later(n, i) < 8 * n && Later(n, j) < 8 * n
  {
  }
}
