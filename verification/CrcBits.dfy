/** The 16-bit register of the CRC with generator x^16 + x^12 + x^5 + 1. */
module CrcBits {
  import opened LinearCode

  /** One bit-serial step: the bit shifted out is folded back in at the terms of the generator. */
  function Shift(c: bv16): bv16 { (c << 1) ^ (c >> 15) ^ ((c >> 15) << 5) ^ ((c >> 15) << 12) }

  function Shift8(c: bv16): bv16 { Shift(Shift(Shift(Shift(Shift(Shift(Shift(Shift(c)))))))) }

  function Xor16(a: bv16, b: bv16): bv16 { a ^ b }

  function Xor8(a: bv8, b: bv8): bv8 { a ^ b }

  function Load(b: bv8): bv16 { (b as bv16) << 8 }

  function High(c: bv16): bv8 { (c >> 8) as bv8 }

  function Low(c: bv16): bv8 { (c & 0xff) as bv8 }

  const CRC16: Code<bv16, bv8> := Code(0, Xor16, Shift, Load, Xor8)

  /** fliptab */
  function FlipTab(j: nat): bv8 {
    if j == 0 then 0x01 else if j == 1 then 0x02 else if j == 2 then 0x04 else if j == 3 then 0x08
    else if j == 4 then 0x10 else if j == 5 then 0x20 else if j == 6 then 0x40 else 0x80
  }

  // ------------------------------------------------------------------ bit-vector facts

  lemma TopSet(c: bv16) requires c & 0x8000 != 0 ensures c >> 15 == 1 {}

  lemma TopClear(c: bv16) requires c & 0x8000 == 0 ensures c >> 15 == 0 {}

  lemma XorSwap(a: bv16, b: bv16, c: bv16) ensures (a ^ b) ^ c == (a ^ c) ^ b {}

  lemma XorAssoc(a: bv16, b: bv16, c: bv16) ensures a ^ (b ^ c) == (a ^ b) ^ c {}

  lemma XorZero(a: bv16, b: bv16) ensures a ^ b == 0 <==> a == b {}

  lemma XorCancel(a: bv16, b: bv16, c: bv16) requires a ^ b == a ^ c ensures b == c {}

  lemma XorSelf(a: bv16, b: bv16) requires a ^ b == a ensures b == 0 {}

  lemma Xor8Twice(a: bv8, b: bv8) ensures Xor8(Xor8(a, b), b) == a {}

  lemma Xor8Swap(a: bv8, b: bv8, c: bv8) ensures Xor8(Xor8(a, b), c) == Xor8(Xor8(a, c), b) {}

  lemma Xor8Self(a: bv8) ensures a ^ a == 0 {}

  lemma XorWithZero(a: bv16) ensures a ^ 0 == a {}

  lemma ShlEmpty(c: bv16) ensures (c << 8) << 8 == 0 {}

  lemma HighOfShl(c: bv16) ensures High(c << 8) == Low(c) {}

  lemma HighInverse(c: bv16) ensures Xor8(High(c ^ 0xffff), 0xff) == High(c) {}

  lemma LowInverse(c: bv16) ensures Xor8(Low(c ^ 0xffff), 0xff) == Low(c) {}

  lemma LoadXor(a: bv8, b: bv8) ensures ((a ^ b) as bv16) << 8 == ((a as bv16) << 8) ^ ((b as bv16) << 8) {}

  lemma ShiftXor(a: bv16, b: bv16) ensures Shift(a ^ b) == Shift(a) ^ Shift(b) {}

  lemma ShiftInjective(a: bv16, b: bv16) requires Shift(a) == Shift(b) ensures a == b {}

  lemma SplitBytes(c: bv16, b: bv8)
    ensures c ^ ((b as bv16) << 8) == (c & 0xff) ^ ((((c >> 8) as bv8) ^ b) as bv16 << 8)
  {
  }

  /** Adding a byte on top changes the high byte only. */
  lemma SplitLoad(c: bv16, b: bv8)
    ensures c ^ Load(b) == (c & 0xff) ^ Load(High(c) ^ b)
  {
    SplitBytes(c, b);
  }

  /** The bit shifted out decides whether the generator is subtracted. */
  lemma ShiftSubtracts(c: bv16)
    ensures Shift(c) == if c & 0x8000 != 0 then (c << 1) ^ 0x1021 else c << 1
  {
    if c & 0x8000 != 0 {
      TopSet(c);
    } else {
      TopClear(c);
    }
  }

  /** A register whose high byte is empty is only moved. */
  lemma Shift8Low(c: bv16)
    ensures Shift8(c & 0xff) == c << 8
  {
  }

  /** Only a register with an empty high byte has an empty low byte eight steps later. */
  lemma HighWasEmpty(c: bv16)
    requires Low(Shift8(c)) == 0
    ensures High(c) == 0
  {
  }

  lemma EmptyBefore(c: bv16)
    requires Shift8(c) == 0
    ensures c == 0
  {
  }

  lemma HighsAgree(c: bv16, b: bv8)
    requires High(c ^ Load(b)) == 0
    ensures b == High(c)
  {
  }

  lemma OnlyHighByte(c: bv16, b: bv8)
    requires c ^ Load(b) == 0
    ensures Low(c) == 0 && b == High(c)
  {
  }

  // ------------------------------------------------------------------ the register is linear

  lemma Crc16Swap()
    ensures forall a, b, c :: CRC16.add(CRC16.add(a, b), c) == CRC16.add(CRC16.add(a, c), b)
  {
    forall a: bv16, b: bv16, c: bv16
      ensures CRC16.add(CRC16.add(a, b), c) == CRC16.add(CRC16.add(a, c), b)
    {
      XorSwap(a, b, c);
    }
  }

  lemma Crc16Assoc()
    ensures forall a, b, c :: CRC16.add(a, CRC16.add(b, c)) == CRC16.add(CRC16.add(a, b), c)
  {
    forall a: bv16, b: bv16, c: bv16
      ensures CRC16.add(a, CRC16.add(b, c)) == CRC16.add(CRC16.add(a, b), c)
    {
      XorAssoc(a, b, c);
    }
  }

  lemma Crc16Inverse()
    ensures forall a, b :: CRC16.add(a, b) == CRC16.zero <==> a == b
  {
    forall a: bv16, b: bv16
      ensures CRC16.add(a, b) == CRC16.zero <==> a == b
    {
      XorZero(a, b);
    }
  }

  lemma Crc16Load()
    ensures forall x, y :: CRC16.load(CRC16.mix(x, y)) == CRC16.add(CRC16.load(x), CRC16.load(y))
  {
    forall x: bv8, y: bv8
      ensures CRC16.load(CRC16.mix(x, y)) == CRC16.add(CRC16.load(x), CRC16.load(y))
    {
      LoadXor(x, y);
    }
  }

  lemma Crc16Group()
    ensures Group(CRC16)
  {
    Crc16Swap();
    Crc16Assoc();
    Crc16Inverse();
    Crc16Load();
  }

  lemma Crc16Linear()
    ensures Linear(CRC16)
  {
    forall a: bv16, b: bv16
      ensures CRC16.step(CRC16.add(a, b)) == CRC16.add(CRC16.step(a), CRC16.step(b))
    {
      ShiftXor(a, b);
    }
    forall a: bv16, b: bv16 | CRC16.step(a) == CRC16.step(b)
      ensures a == b
    {
      ShiftInjective(a, b);
    }
  }

  lemma Crc16Cancels()
    ensures Cancels(CRC16)
  {
    forall a: bv16, b: bv16, c: bv16 | CRC16.add(a, b) == CRC16.add(a, c)
      ensures b == c
    {
      XorCancel(a, b, c);
    }
    forall a: bv16, b: bv16 | CRC16.add(a, b) == a
      ensures b == CRC16.zero
    {
      XorSelf(a, b);
    }
  }

  lemma EightSteps(c: bv16)
    ensures Steps(CRC16, 8, c) == Shift8(c)
  {
    var c4 := Shift(Shift(Shift(Shift(c))));
    FourSteps(c);
    FourSteps(c4);
    StepsAdd(CRC16, 4, 4, c);
  }

  lemma FourSteps(c: bv16)
    ensures Steps(CRC16, 4, c) == Shift(Shift(Shift(Shift(c))))
  {
    StepsAdd(CRC16, 1, 3, c);
    StepsAdd(CRC16, 1, 2, Shift(c));
    StepsAdd(CRC16, 1, 1, Shift(Shift(c)));
  }

  // ------------------------------------------------------------------ its first powers

  lemma FlipTabUnits()
    ensures Units(CRC16, FlipTab)
  {
    forall j | 0 <= j < 8
      ensures CRC16.load(FlipTab(j)) == Steps(CRC16, j, CRC16.load(FlipTab(0)))
    {
      UnitAt(j);
    }
  }

  lemma {:induction false} UnitAt(j: nat)
    requires j < 8
    ensures Load(FlipTab(j)) == Steps(CRC16, j, 0x0100)
  {
    if j > 0 {
      UnitAt(j - 1);
      StepsAdd(CRC16, j - 1, 1, 0x0100);
    }
  }

  /** None of the next eight steps leads to 0x1021. */
  predicate Clear8(c: bv16) {
    var c2 := Shift(Shift(c));
    var c4 := Shift(Shift(c2));
    var c6 := Shift(Shift(c4));
    && Shift(c) != 0x1021 && c2 != 0x1021 && Shift(c2) != 0x1021 && c4 != 0x1021
    && Shift(c4) != 0x1021 && c6 != 0x1021 && Shift(c6) != 0x1021 && Shift(Shift(c6)) != 0x1021
  }

  predicate Clear(k: nat, c: bv16) { k == 0 || (Clear8(c) && Clear(k - 1, Shift8(c))) }

  lemma PowersFrom112()
    ensures Clear(4, 0xaefc)
  {
    assert Clear(1, 0xf031);
    assert Clear(2, 0x10e2);
    assert Clear(3, 0xa824);
  }

  lemma PowersFrom80()
    ensures Clear(8, 0xd849)
  {
    PowersFrom112();
    assert Clear(5, 0x7b61);
    assert Clear(6, 0x4563);
    assert Clear(7, 0x0375);
  }

  lemma PowersFrom48()
    ensures Clear(12, 0xb861)
  {
    PowersFrom80();
    assert Clear(9, 0x6f45);
    assert Clear(10, 0xeb23);
    assert Clear(11, 0x47d3);
  }

  lemma PowersFrom24()
    ensures Clear(15, 0x76b4)
  {
    PowersFrom48();
    assert Clear(13, 0x45a0);
    assert Clear(14, 0xaa51);
  }

  lemma PowersFrom0()
    ensures Clear(18, 0x1021)
  {
    PowersFrom24();
    assert Clear(16, 0x3730);
    assert Clear(17, 0x3331);
  }

  lemma {:induction false} ClearAvoids(k: nat, c: bv16, d: nat)
    requires Clear(k, c) && 0 < d <= 8 * k
    ensures Steps(CRC16, d, c) != 0x1021
  {
    if d > 8 {
      EightSteps(c);
      StepsAdd(CRC16, 8, d - 8, c);
      ClearAvoids(k - 1, Shift8(c), d - 8);
    } else {
      ClearAvoids8(c, d);
    }
  }

  lemma ClearAvoids8(c: bv16, d: nat)
    requires Clear8(c) && 0 < d <= 8
    ensures Steps(CRC16, d, c) != 0x1021
  {
    if d >= 4 {
      FourSteps(c);
      StepsAdd(CRC16, 4, d - 4, c);
      UpToFour(Shift(Shift(Shift(Shift(c)))), d - 4);
    } else {
      UpToFour(c, d);
    }
  }

  lemma UpToFour(c: bv16, d: nat)
    requires d <= 4
    ensures Steps(CRC16, d, c) ==
              if d == 0 then c else if d == 1 then Shift(c) else if d == 2 then Shift(Shift(c))
              else if d == 3 then Shift(Shift(Shift(c))) else Shift(Shift(Shift(Shift(c))))
  {
    if d == 4 {
      FourSteps(c);
    } else if d > 0 {
      StepsAdd(CRC16, 1, d - 1, c);
      if d > 1 {
        StepsAdd(CRC16, 1, d - 2, Shift(c));
      }
    }
  }

  /** The 144 single-bit errors of a pack lead to 144 different registers, none of them zero. */
  lemma Crc16Separates()
    ensures Separates(CRC16, FlipTab, 18)
  {
    Crc16Powers();
    Crc16Linear();
    forall p, q | 0 <= p < q < 8 * 18
      ensures Power(CRC16, FlipTab, p) != Power(CRC16, FlipTab, q)
    {
      PowersDiffer(CRC16, FlipTab, 144, p, q);
    }
  }

  lemma Crc16Powers()
    ensures forall d | 0 < d < 144 :: Power(CRC16, FlipTab, d) != Power(CRC16, FlipTab, 0)
    ensures forall d: nat :: Power(CRC16, FlipTab, d) != 0
  {
    EightSteps(0x0100);
    PowersFrom0();
    forall d | 0 < d < 144
      ensures Power(CRC16, FlipTab, d) != Power(CRC16, FlipTab, 0)
    {
      ClearAvoids(18, 0x1021, d);
    }
    Crc16Linear();
    forall d: nat
      ensures Power(CRC16, FlipTab, d) != 0
    {
      PowersNonzero(CRC16, d, 0x1021);
    }
  }
}
