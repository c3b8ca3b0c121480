/** The CRC-32 of `Utils::crc32`: its table-driven loop, and what appended zero bytes do to it. */
module Crc32 {
  import opened LinearRegister
  import opened RegisterField

  const POLY: bv32 := 0xEDB8_8320
  const ALL_ONES: bv32 := 0xFFFF_FFFF

  function BitStep(c: bv32): bv32 {
    if c & 1 == 1 then (c >> 1) ^ POLY else c >> 1
  }

  function Xor(x: bv32, y: bv32): bv32 {
    x ^ y
  }

  function Wide(b: bv8): bv32 {
    b as bv32
  }

  function Widen(s: seq<bv8>): seq<bv32> {
    seq(|s|, i requires 0 <= i < |s| => Wide(s[i]))
  }

  /** The register after the bytes of `s`, before the final complement. */
  function Register(s: seq<bv8>): bv32 {
    Fold(BitStep, Xor, 8, ALL_ONES, Widen(s))
  }

  function Checksum(s: seq<bv8>): bv32 {
    Register(s) ^ ALL_ONES
  }

  // ---- The step is an injective linear map -------------------------------------------

  lemma StepOdd(x: bv32)
    requires x & 1 == 1
    ensures BitStep(x) == (x >> 1) ^ POLY
  {
  }

  lemma StepEven(x: bv32)
    requires x & 1 != 1
    ensures BitStep(x) == x >> 1
  {
  }

  lemma BothOdd(x: bv32, y: bv32)
    requires x & 1 == 1 && y & 1 == 1
    ensures (x ^ y) & 1 != 1 && (x ^ y) >> 1 == ((x >> 1) ^ POLY) ^ ((y >> 1) ^ POLY)
  {
  }

  lemma OddEven(x: bv32, y: bv32)
    requires x & 1 == 1 && y & 1 != 1
    ensures (x ^ y) & 1 == 1 && ((x ^ y) >> 1) ^ POLY == ((x >> 1) ^ POLY) ^ (y >> 1)
  {
  }

  lemma BothEven(x: bv32, y: bv32)
    requires x & 1 != 1 && y & 1 != 1
    ensures (x ^ y) & 1 != 1 && (x ^ y) >> 1 == (x >> 1) ^ (y >> 1)
  {
  }

  lemma XorCommutes(x: bv32, y: bv32)
    ensures x ^ y == y ^ x
  {
  }

  lemma LinearOddEven(x: bv32, y: bv32)
    requires x & 1 == 1 && y & 1 != 1
    ensures BitStep(x ^ y) == BitStep(x) ^ BitStep(y)
  {
    OddEven(x, y);
    StepOdd(x);
    StepEven(y);
    StepOdd(x ^ y);
  }

  lemma LinearSameParity(x: bv32, y: bv32)
    requires (x & 1 == 1) == (y & 1 == 1)
    ensures BitStep(x ^ y) == BitStep(x) ^ BitStep(y)
  {
    if x & 1 == 1 {
      BothOdd(x, y);
      StepOdd(x);
      StepOdd(y);
    } else {
      BothEven(x, y);
      StepEven(x);
      StepEven(y);
    }
    StepEven(x ^ y);
  }

  lemma BitStepLinear(x: bv32, y: bv32)
    ensures BitStep(x ^ y) == BitStep(x) ^ BitStep(y)
  {
    if (x & 1 == 1) == (y & 1 == 1) {
      LinearSameParity(x, y);
    } else if x & 1 == 1 {
      LinearOddEven(x, y);
    } else {
      XorCommutes(x, y);
      XorCommutes(BitStep(x), BitStep(y));
      LinearOddEven(y, x);
    }
  }

  lemma BitStepNonzero(x: bv32)
    ensures BitStep(x) == 0 <==> x == 0
  {
  }

  lemma XorAssociates(x: bv32, y: bv32, z: bv32)
    ensures (x ^ y) ^ z == x ^ (y ^ z)
  {
  }

  lemma XorZero(x: bv32, y: bv32)
    ensures x ^ y == 0 <==> x == y
    ensures x ^ 0 == x
  {
  }

  lemma XorCancels()
    ensures Cancels(Xor, 0 as bv32)
  {
    forall x, y
      ensures Xor(x, y) == 0 <==> x == y
    {
      XorZero(x, y);
    }
  }

  lemma XorIsCommutative()
    ensures Commutes(Xor)
  {
    forall x, y
      ensures Xor(x, y) == Xor(y, x)
    {
      XorCommutes(x, y);
    }
  }

  lemma XorIsAssociative()
    ensures Associates(Xor)
  {
    forall x, y, z
      ensures Xor(Xor(x, y), z) == Xor(x, Xor(y, z))
    {
      XorAssociates(x, y, z);
    }
  }

  lemma XorRegroups()
    ensures Regroups(Xor)
  {
    XorIsCommutative();
    XorIsAssociative();
    CommutingRegroups(Xor);
  }

  lemma XorUnit()
    ensures Unit(Xor, 0 as bv32)
  {
    forall x
      ensures Xor(x, 0) == x
    {
      XorZero(x, 0);
    }
  }

  // ---- Multiplication by constants ---------------------------------------------------

  const ONE: bv32 := 0x8000_0000

  predicate IsTop(x: bv32) {
    x & 0x8000_0000 != 0
  }

  function Up(x: bv32): bv32 {
    x << 1
  }

  /** One step without a branch. */
  function Tick(c: bv32): bv32 {
    (c >> 1) ^ (0xEDB8_8320 & (0 - (c & 1)))
  }

  function Field(): RegisterField.Register<bv32> {
    RegisterField.Register(Tick, Xor, 0, ONE, IsTop, Up, 32)
  }

  lemma UpIsEven(r: bv32)
    ensures (r << 1) & 1 != 1
  {
  }

  lemma TopSet(r: bv32)
    requires r & 0x8000_0000 != 0
    ensures r == 0x8000_0000 ^ ((r << 1) >> 1)
  {
  }

  lemma TopClear(r: bv32)
    requires r & 0x8000_0000 == 0
    ensures r == 0 ^ ((r << 1) >> 1)
  {
  }

  lemma UpSteps(r: bv32)
    ensures BitStep(Up(r)) == (r << 1) >> 1
  {
    UpIsEven(r);
    StepEven(r << 1);
  }

  lemma TopAndRest(r: bv32)
    ensures r == Xor(if IsTop(r) then ONE else 0, BitStep(Up(r)))
  {
    UpSteps(r);
    if IsTop(r) {
      TopSet(r);
    } else {
      TopClear(r);
    }
  }

  lemma UpEight(r: bv32)
    ensures Iter(Up, r, 8) == r << 8
  {
    IterEight(Up, r);
  }

  lemma UpDrains(r: bv32)
    ensures Iter(Up, r, 32) == 0
  {
    var r1 := r << 8;
    var r2 := r1 << 8;
    var r3 := r2 << 8;
    IterAdd(Up, r, 8, 24);
    IterAdd(Up, r1, 8, 16);
    IterAdd(Up, r2, 8, 8);
    UpEight(r);
    UpEight(r1);
    UpEight(r2);
    UpEight(r3);
    assert r3 << 8 == 0;
  }

  lemma OddMask(c: bv32)
    requires c & 1 == 1
    ensures 0xEDB8_8320 & (0 - (c & 1)) == POLY
  {
  }

  lemma EvenMask(c: bv32)
    requires c & 1 != 1
    ensures 0xEDB8_8320 & (0 - (c & 1)) == 0
  {
    LowBit(c);
  }

  lemma LowBit(c: bv32)
    ensures c & 1 == 0 || c & 1 == 1
  {
  }

  lemma TickIsStep(c: bv32)
    ensures Tick(c) == BitStep(c)
  {
    if c & 1 == 1 {
      OddMask(c);
    } else {
      EvenMask(c);
      XorZero(c >> 1, 0);
    }
  }

  lemma TickIsHomomorphic()
    ensures Homomorphic(Tick, Xor)
  {
    forall x, y
      ensures Tick(Xor(x, y)) == Xor(Tick(x), Tick(y))
    {
      TickIsStep(x);
      TickIsStep(y);
      TickIsStep(Xor(x, y));
      BitStepLinear(x, y);
    }
  }

  lemma TickIsInjective()
    ensures Injective(Tick, 0 as bv32)
  {
    forall x
      ensures Tick(x) == 0 <==> x == 0
    {
      TickIsStep(x);
      BitStepNonzero(x);
    }
  }

  lemma TopAndTick(r: bv32)
    ensures r == Xor(if IsTop(r) then ONE else 0, Tick(Up(r)))
  {
    TopAndRest(r);
    TickIsStep(Up(r));
  }

  lemma FieldIsSound()
    ensures Sound(Field())
  {
    TickIsHomomorphic();
    TickIsInjective();
    XorCancels();
    XorRegroups();
    XorUnit();
    forall r
      ensures r == Xor(TopDigit(Field(), r), Tick(Up(r)))
      ensures Iter(Up, r, 32) == 0
    {
      TopAndTick(r);
      UpDrains(r);
    }
  }

  function Masked(v: bv32, r: bv32): bv32 {
    r & (0 - (v >> 31))
  }

  function Two(r: bv32): bv32 {
    Tick(Tick(r))
  }

  function Four(r: bv32): bv32 {
    Two(Two(r))
  }

  function Eight(r: bv32): bv32 {
    Four(Four(r))
  }

  function Sixteen(r: bv32): bv32 {
    Eight(Eight(r))
  }

  /** Two of the 32 terms of a product, ahead of the terms already summed in `t`; then 4, 8, 16. */
  function Row2(v: bv32, r: bv32, t: bv32): bv32 {
    Xor(Masked(v, r), Xor(Masked(v << 1, Tick(r)), t))
  }

  function Row4(v: bv32, r: bv32, t: bv32): bv32 {
    Row2(v, r, Row2(v << 2, Two(r), t))
  }

  function Row8(v: bv32, r: bv32, t: bv32): bv32 {
    Row4(v, r, Row4(v << 4, Four(r), t))
  }

  function Row16(v: bv32, r: bv32, t: bv32): bv32 {
    Row8(v, r, Row8(v << 8, Eight(r), t))
  }

  /** The product of two states, written out so that constants can be multiplied. */
  function Mul(v: bv32, r: bv32): bv32 {
    Row16(v, r, Row16(v << 16, Sixteen(r), 0))
  }

  lemma MaskSet(v: bv32, r: bv32)
    requires v & 0x8000_0000 != 0
    ensures r & (0 - (v >> 31)) == r
  {
  }

  lemma MaskClear(v: bv32, r: bv32)
    requires v & 0x8000_0000 == 0
    ensures r & (0 - (v >> 31)) == 0
  {
  }

  lemma MaskedIsDigit(v: bv32, r: bv32)
    ensures Masked(v, r) == Digit(Field(), v, r)
  {
    if IsTop(v) {
      MaskSet(v, r);
    } else {
      MaskClear(v, r);
    }
  }

  lemma ShiftTwice(v: bv32)
    ensures Up(v) == v << 1 && Up(v << 1) == v << 2
    ensures (v << 2) << 2 == v << 4 && (v << 4) << 4 == v << 8 && (v << 8) << 8 == v << 16
  {
  }

  lemma Row2Is(v: bv32, r: bv32, n: nat, t: bv32)
    requires n >= 2 && Times(Field(), v << 2, Two(r), n - 2) == t
    ensures Times(Field(), v, r, n) == Row2(v, r, t)
  {
    ShiftTwice(v);
    TimesTwo(Field(), v, r, n);
    MaskedIsDigit(v, r);
    MaskedIsDigit(v << 1, Tick(r));
  }

  lemma Row4Is(v: bv32, r: bv32, n: nat, t: bv32)
    requires n >= 4 && Times(Field(), v << 4, Four(r), n - 4) == t
    ensures Times(Field(), v, r, n) == Row4(v, r, t)
  {
    ShiftTwice(v);
    Row2Is(v << 2, Two(r), n - 2, t);
    Row2Is(v, r, n, Row2(v << 2, Two(r), t));
  }

  lemma Row8Is(v: bv32, r: bv32, n: nat, t: bv32)
    requires n >= 8 && Times(Field(), v << 8, Eight(r), n - 8) == t
    ensures Times(Field(), v, r, n) == Row8(v, r, t)
  {
    ShiftTwice(v);
    Row4Is(v << 4, Four(r), n - 4, t);
    Row4Is(v, r, n, Row4(v << 4, Four(r), t));
  }

  lemma Row16Is(v: bv32, r: bv32, n: nat, t: bv32)
    requires n >= 16 && Times(Field(), v << 16, Sixteen(r), n - 16) == t
    ensures Times(Field(), v, r, n) == Row16(v, r, t)
  {
    ShiftTwice(v);
    Row8Is(v << 8, Eight(r), n - 8, t);
    Row8Is(v, r, n, Row8(v << 8, Eight(r), t));
  }

  lemma MulIsProduct(v: bv32, r: bv32)
    ensures Mul(v, r) == Product(Field(), v, r)
  {
    Row16Is(v << 16, Sixteen(r), 16, 0);
    Row16Is(v, r, 32, Row16(v << 16, Sixteen(r), 0));
  }

  lemma Doubled(m: nat, v: bv32, w: bv32)
    requires Iter(Tick, ONE, m) == v && Mul(v, v) == w
    ensures Iter(Tick, ONE, 2 * m) == w
  {
    FieldIsSound();
    Doubling(Field(), m, v);
    MulIsProduct(v, v);
  }

  // The state `ONE` after 1, 2, 4, ... 2^32 steps, each the square of the one before.

  lemma Squares0()
    ensures Mul(0x4000_0000, 0x4000_0000) == 0x2000_0000 && Mul(0x2000_0000, 0x2000_0000) == 0x0800_0000
    ensures Mul(0x0800_0000, 0x0800_0000) == 0x0080_0000 && Mul(0x0080_0000, 0x0080_0000) == 0x0000_8000
  {
  }

  lemma Sixteenfold0(m: nat)
    requires Iter(Tick, ONE, m) == 0x4000_0000
    ensures Iter(Tick, ONE, 16 * m) == 0x0000_8000
  {
    Squares0();
    Doubled(m, 0x4000_0000, 0x2000_0000);
    Doubled(2 * m, 0x2000_0000, 0x0800_0000);
    Doubled(4 * m, 0x0800_0000, 0x0080_0000);
    Doubled(8 * m, 0x0080_0000, 0x0000_8000);
  }

  lemma Squares1()
    ensures Mul(0x0000_8000, 0x0000_8000) == 0xEDB8_8320 && Mul(0xEDB8_8320, 0xEDB8_8320) == 0xB1E6_B092
    ensures Mul(0xB1E6_B092, 0xB1E6_B092) == 0xA06A_2517 && Mul(0xA06A_2517, 0xA06A_2517) == 0xED62_7DAE
  {
  }

  lemma Sixteenfold1(m: nat)
    requires Iter(Tick, ONE, m) == 0x0000_8000
    ensures Iter(Tick, ONE, 16 * m) == 0xED62_7DAE
  {
    Squares1();
    Doubled(m, 0x0000_8000, 0xEDB8_8320);
    Doubled(2 * m, 0xEDB8_8320, 0xB1E6_B092);
    Doubled(4 * m, 0xB1E6_B092, 0xA06A_2517);
    Doubled(8 * m, 0xA06A_2517, 0xED62_7DAE);
  }

  lemma Squares2()
    ensures Mul(0xED62_7DAE, 0xED62_7DAE) == 0x88D1_4467 && Mul(0x88D1_4467, 0x88D1_4467) == 0xD7BB_FE6A
    ensures Mul(0xD7BB_FE6A, 0xD7BB_FE6A) == 0xEC44_7F11 && Mul(0xEC44_7F11, 0xEC44_7F11) == 0x8E7E_A170
  {
  }

  lemma Sixteenfold2(m: nat)
    requires Iter(Tick, ONE, m) == 0xED62_7DAE
    ensures Iter(Tick, ONE, 16 * m) == 0x8E7E_A170
  {
    Squares2();
    Doubled(m, 0xED62_7DAE, 0x88D1_4467);
    Doubled(2 * m, 0x88D1_4467, 0xD7BB_FE6A);
    Doubled(4 * m, 0xD7BB_FE6A, 0xEC44_7F11);
    Doubled(8 * m, 0xEC44_7F11, 0x8E7E_A170);
  }

  lemma Squares3()
    ensures Mul(0x8E7E_A170, 0x8E7E_A170) == 0x6427_800E && Mul(0x6427_800E, 0x6427_800E) == 0x4D47_BAE0
    ensures Mul(0x4D47_BAE0, 0x4D47_BAE0) == 0x09FE_548F && Mul(0x09FE_548F, 0x09FE_548F) == 0x8385_2D0F
  {
  }

  lemma Sixteenfold3(m: nat)
    requires Iter(Tick, ONE, m) == 0x8E7E_A170
    ensures Iter(Tick, ONE, 16 * m) == 0x8385_2D0F
  {
    Squares3();
    Doubled(m, 0x8E7E_A170, 0x6427_800E);
    Doubled(2 * m, 0x6427_800E, 0x4D47_BAE0);
    Doubled(4 * m, 0x4D47_BAE0, 0x09FE_548F);
    Doubled(8 * m, 0x09FE_548F, 0x8385_2D0F);
  }

  lemma Squares4()
    ensures Mul(0x8385_2D0F, 0x8385_2D0F) == 0x3036_2F1A && Mul(0x3036_2F1A, 0x3036_2F1A) == 0x7B5A_9CC3
    ensures Mul(0x7B5A_9CC3, 0x7B5A_9CC3) == 0x31FE_C169 && Mul(0x31FE_C169, 0x31FE_C169) == 0x9FEC_022A
  {
  }

  lemma Sixteenfold4(m: nat)
    requires Iter(Tick, ONE, m) == 0x8385_2D0F
    ensures Iter(Tick, ONE, 16 * m) == 0x9FEC_022A
  {
    Squares4();
    Doubled(m, 0x8385_2D0F, 0x3036_2F1A);
    Doubled(2 * m, 0x3036_2F1A, 0x7B5A_9CC3);
    Doubled(4 * m, 0x7B5A_9CC3, 0x31FE_C169);
    Doubled(8 * m, 0x31FE_C169, 0x9FEC_022A);
  }

  lemma Squares5()
    ensures Mul(0x9FEC_022A, 0x9FEC_022A) == 0x6C8D_EDC4 && Mul(0x6C8D_EDC4, 0x6C8D_EDC4) == 0x15D6_874D
    ensures Mul(0x15D6_874D, 0x15D6_874D) == 0x5FDE_7A4E && Mul(0x5FDE_7A4E, 0x5FDE_7A4E) == 0xBAD9_0E37
  {
  }

  lemma Sixteenfold5(m: nat)
    requires Iter(Tick, ONE, m) == 0x9FEC_022A
    ensures Iter(Tick, ONE, 16 * m) == 0xBAD9_0E37
  {
    Squares5();
    Doubled(m, 0x9FEC_022A, 0x6C8D_EDC4);
    Doubled(2 * m, 0x6C8D_EDC4, 0x15D6_874D);
    Doubled(4 * m, 0x15D6_874D, 0x5FDE_7A4E);
    Doubled(8 * m, 0x5FDE_7A4E, 0xBAD9_0E37);
  }

  lemma Squares6()
    ensures Mul(0xBAD9_0E37, 0xBAD9_0E37) == 0x2E4E_5EEF && Mul(0x2E4E_5EEF, 0x2E4E_5EEF) == 0x4EAB_A214
    ensures Mul(0x4EAB_A214, 0x4EAB_A214) == 0xA8A4_72C0 && Mul(0xA8A4_72C0, 0xA8A4_72C0) == 0x429A_969E
  {
  }

  lemma Sixteenfold6(m: nat)
    requires Iter(Tick, ONE, m) == 0xBAD9_0E37
    ensures Iter(Tick, ONE, 16 * m) == 0x429A_969E
  {
    Squares6();
    Doubled(m, 0xBAD9_0E37, 0x2E4E_5EEF);
    Doubled(2 * m, 0x2E4E_5EEF, 0x4EAB_A214);
    Doubled(4 * m, 0x4EAB_A214, 0xA8A4_72C0);
    Doubled(8 * m, 0xA8A4_72C0, 0x429A_969E);
  }

  lemma Squares7()
    ensures Mul(0x429A_969E, 0x429A_969E) == 0x148D_302A && Mul(0x148D_302A, 0x148D_302A) == 0xC40B_A6D0
    ensures Mul(0xC40B_A6D0, 0xC40B_A6D0) == 0xC4E2_2C3C && Mul(0xC4E2_2C3C, 0xC4E2_2C3C) == 0x4000_0000
  {
  }

  lemma Sixteenfold7(m: nat)
    requires Iter(Tick, ONE, m) == 0x429A_969E
    ensures Iter(Tick, ONE, 16 * m) == 0x4000_0000
  {
    Squares7();
    Doubled(m, 0x429A_969E, 0x148D_302A);
    Doubled(2 * m, 0x148D_302A, 0xC40B_A6D0);
    Doubled(4 * m, 0xC40B_A6D0, 0xC4E2_2C3C);
    Doubled(8 * m, 0xC4E2_2C3C, 0x4000_0000);
  }

  /**
   * Here and below `unit` is 1 and means nothing: step counts are written as multiples of it
   * because the verifier would unroll `Iter` on a literal count, thousands of steps deep.
   */
  lemma LongRuns(unit: nat)
    requires unit == 1
    ensures Iter(Tick, ONE, 65536 * unit) == 0x8385_2D0F
    ensures Iter(Tick, ONE, 4294967296 * unit) == Tick(ONE)
  {
    assert Iter(Tick, ONE, unit) == 0x4000_0000;
    Sixteenfold0(unit);
    Sixteenfold1(16 * unit);
    Sixteenfold2(256 * unit);
    Sixteenfold3(4096 * unit);
    Sixteenfold4(65536 * unit);
    Sixteenfold5(1048576 * unit);
    Sixteenfold6(16777216 * unit);
    Sixteenfold7(268435456 * unit);
  }

  // ---- No state but zero returns within fewer than 65537 bytes --------------------------

  /** No number from 2 to k divides n. */
  predicate NoDivisor(n: nat, k: nat)
    decreases k
  {
    k < 2 || (n % k != 0 && NoDivisor(n, k - 1))
  }

  lemma {:induction false} NoDivisorAt(n: nat, k: nat, d: nat)
    requires NoDivisor(n, k) && 2 <= d <= k
    ensures n % d != 0
    decreases k
  {
    if d < k {
      NoDivisorAt(n, k - 1, d);
    }
  }

  lemma TrialTo64()
    ensures NoDivisor(65537, 64)
  {
    assert NoDivisor(65537, 8);
    assert NoDivisor(65537, 16);
    assert NoDivisor(65537, 24);
    assert NoDivisor(65537, 32);
    assert NoDivisor(65537, 40);
    assert NoDivisor(65537, 48);
    assert NoDivisor(65537, 56);
  }

  lemma TrialTo128()
    ensures NoDivisor(65537, 128)
  {
    TrialTo64();
    assert NoDivisor(65537, 72);
    assert NoDivisor(65537, 80);
    assert NoDivisor(65537, 88);
    assert NoDivisor(65537, 96);
    assert NoDivisor(65537, 104);
    assert NoDivisor(65537, 112);
    assert NoDivisor(65537, 120);
  }

  lemma TrialTo192()
    ensures NoDivisor(65537, 192)
  {
    TrialTo128();
    assert NoDivisor(65537, 136);
    assert NoDivisor(65537, 144);
    assert NoDivisor(65537, 152);
    assert NoDivisor(65537, 160);
    assert NoDivisor(65537, 168);
    assert NoDivisor(65537, 176);
    assert NoDivisor(65537, 184);
  }

  lemma TrialTo256()
    ensures NoDivisor(65537, 256)
  {
    TrialTo192();
    assert NoDivisor(65537, 200);
    assert NoDivisor(65537, 208);
    assert NoDivisor(65537, 216);
    assert NoDivisor(65537, 224);
    assert NoDivisor(65537, 232);
    assert NoDivisor(65537, 240);
    assert NoDivisor(65537, 248);
  }

  lemma AtLeastOnce(d: nat, j: int)
    requires j >= 1
    ensures d * j >= d
  {
    assert d * j == d + d * (j - 1);
    assert d * (j - 1) >= 0;
  }

  lemma RemainderZero(d: nat, k: int, q: int, r: int)
    requires 0 <= r < d && d * k == d * q + r
    ensures r == 0
  {
    assert d * (k - q) == r;
    assert d * (q - k) == -r;
    if k > q {
      AtLeastOnce(d, k - q);
    } else if k < q {
      AtLeastOnce(d, q - k);
    }
  }

  lemma DividesMod(d: nat, n: nat)
    requires d > 0 && Divides(d, n)
    ensures n % d == 0
  {
    var k: nat :| d * k == n;
    RemainderZero(d, k, n / d, n % d);
  }

  lemma NotDivisible(d: nat)
    requires 2 <= d <= 256
    ensures !Divides(d, 65537)
  {
    TrialTo256();
    NoDivisorAt(65537, 256, d);
    if Divides(d, 65537) {
      DividesMod(d, 65537);
    }
  }

  lemma LargeProduct(d: nat, k: nat)
    requires d > 256 && k > 256
    ensures d * k >= 257 * 257
  {
    assert d * k >= 257 * k;
  }

  /** 65537 is prime. */
  lemma DivisorOf65537(d: nat)
    requires Divides(d, 65537)
    ensures d == 1 || d == 65537
  {
    var k: nat :| d * k == 65537;
    assert k * d == 65537;
    if 2 <= d <= 256 {
      NotDivisible(d);
    } else if 2 <= k <= 256 {
      NotDivisible(k);
    } else if d > 256 && k > 256 {
      LargeProduct(d, k);
    }
  }

  lemma Coprime(k: nat)
    requires k > 0 && k % 65537 != 0
    ensures Gcd(k, 65537) == 1
  {
    GcdDivides(k, 65537);
    DivisorOf65537(Gcd(k, 65537));
    if Gcd(k, 65537) == 65537 {
      DividesMod(65537, k);
    }
  }

  /** Every state comes back after 2^32 - 1 steps (`unit` is 1, as for `LongRuns`). */
  lemma FullPeriod(c: bv32, unit: nat)
    requires unit == 1
    ensures Period(Tick, c, 4294967295 * unit)
  {
    var m := 4294967296 * unit;
    FieldIsSound();
    LongRuns(unit);
    IterIsProduct(Field(), m, c);
    IterIsProduct(Field(), unit, c);
    assert Iter(Tick, ONE, unit) == Tick(ONE) && Iter(Tick, c, unit) == Tick(c);
    assert Iter(Tick, c, m) == Tick(c);
    IterAdd(Tick, c, 1, m - 1);
    IterAdd(Tick, c, m - 1, 1);
    IterCommutes(Tick, c, m - 1);
    IterInjective(Tick, Xor, 0, Iter(Tick, c, m - 1), c, 1);
  }

  /** No state but zero comes back after 2^16 - 1 steps (`unit` is 1, as for `LongRuns`). */
  lemma NoShortPeriod(c: bv32, unit: nat)
    requires unit == 1 && Period(Tick, c, 65535 * unit)
    ensures c == 0
  {
    FieldIsSound();
    LongRuns(unit);
    IterAdd(Tick, c, 65535 * unit, unit);
    assert Iter(Tick, c, unit) == Tick(c);
    DifferenceKills(Field(), 65536 * unit, c);
    Inverse();
    InvertibleProduct(Field(), 0xC385_2D0F, 0x72BC_97D5, c);
  }

  lemma Inverse()
    ensures Product(Field(), 0x72BC_97D5, 0xC385_2D0F) == ONE
    ensures Xor(0x8385_2D0F, Tick(ONE)) == 0xC385_2D0F
  {
    InverseOf();
    MulIsProduct(0x72BC_97D5, 0xC385_2D0F);
  }

  lemma InverseOf() ensures Mul(0x72BC_97D5, 0xC385_2D0F) == 0x8000_0000 {}

  lemma FixedOnlyZero(c: bv32, k: nat, unit: nat)
    requires unit == 1 && k > 0 && k % 65537 != 0
    ensures Iter(Tick, c, k) == c <==> c == 0
  {
    FieldIsSound();
    if Iter(Tick, c, k) == c {
      FullPeriod(c, unit);
      PeriodMultiple(Field(), c, k, 65535 * unit);
      Coprime(k);
      PeriodGcd(Field(), c, 65535 * unit, k, 65537);
      NoShortPeriod(c, unit);
    }
    IterNonzero(Tick, 0, c, k);
  }

  // ---- Appended zero bytes -----------------------------------------------------------

  function Zeros(n: nat): seq<bv8> {
    seq(n, i => 0)
  }

  lemma {:induction false} ZerosClock(c: bv32, n: nat)
    ensures Fold(BitStep, Xor, 8, c, Widen(Zeros(n))) == Iter(BitStep, c, 8 * n)
    decreases n
  {
    if n > 0 {
      var z := Widen(Zeros(n));
      assert z[0] == 0 && z[1..] == Widen(Zeros(n - 1));
      XorZero(c, 0);
      ZerosClock(Iter(BitStep, c, 8), n - 1);
      IterAdd(BitStep, c, 8, 8 * (n - 1));
      assert 8 + 8 * (n - 1) == 8 * n;
    }
  }

  lemma PaddedRegister(s: seq<bv8>, n: nat)
    ensures Register(s + Zeros(n)) == Iter(BitStep, Register(s), 8 * n)
  {
    assert Widen(s + Zeros(n)) == Widen(s) + Widen(Zeros(n));
    FoldAppend(BitStep, Xor, 8, ALL_ONES, Widen(s), Widen(Zeros(n)));
    ZerosClock(Register(s), n);
  }

  /** 8 is invertible modulo 65537: 8 * 8192 is -1. */
  lemma EightCoprime(n: nat)
    requires n % 65537 != 0
    ensures (8 * n) % 65537 != 0
  {
    if (8 * n) % 65537 == 0 {
      var j := (8 * n) / 65537;
      assert 8 * n == 65537 * j;
      assert n == 65537 * (n - 8192 * j);
      assert Divides(65537, n) by {
        assert 65537 * (n - 8192 * j) == n;
      }
      DividesMod(65537, n);
    }
  }

  lemma StepsAreTicks(c: bv32, k: nat)
    ensures Iter(BitStep, c, k) == Iter(Tick, c, k)
  {
    forall x
      ensures BitStep(x) == Tick(x)
    {
      TickIsStep(x);
    }
    IterCongruent(BitStep, Tick, c, k);
  }

  lemma XorKeepsDifference(x: bv32, y: bv32, a: bv32)
    requires x != y
    ensures x ^ a != y ^ a
  {
  }

  lemma ComplementInjective(x: bv32, y: bv32)
    ensures x ^ ALL_ONES == y ^ ALL_ONES <==> x == y
  {
    if x != y {
      XorKeepsDifference(x, y, ALL_ONES);
    }
  }

  lemma ZeroComplement()
    ensures 0 ^ ALL_ONES == ALL_ONES
  {
  }

  lemma PaddedRegisterIff(s: seq<bv8>, n: nat, unit: nat)
    requires unit == 1 && n % 65537 != 0
    ensures Register(s + Zeros(n)) == Register(s) <==> Register(s) == 0
  {
    PaddedRegister(s, n);
    EightCoprime(n);
    StepsAreTicks(Register(s), 8 * n);
    FixedOnlyZero(Register(s), 8 * n, unit);
  }

  lemma ComplementIff(x: bv32, r: bv32)
    requires x == r <==> r == 0
    ensures x ^ ALL_ONES == r ^ ALL_ONES <==> r ^ ALL_ONES == ALL_ONES
  {
    ComplementInjective(x, r);
    ComplementInjective(r, 0);
    ZeroComplement();
  }

  /** Zero bytes after a message change its checksum, unless the checksum is all ones. */
  lemma PaddingInvisibleIff(s: seq<bv8>, n: nat)
    requires n % 65537 != 0
    ensures Checksum(s + Zeros(n)) == Checksum(s) <==> Checksum(s) == ALL_ONES
  {
    var x, r := Register(s + Zeros(n)), Register(s);
    assert x == r <==> r == 0 by {
      PaddedRegisterIff(s, n, 1);
    }
    ComplementIff(x, r);
  }

  // ---- The table-driven loop ----------------------------------------------------------

  function TableEntry(i: bv32): bv32 {
    Iter(BitStep, i, 8)
  }

  lemma ByteParts(x: bv32)
    ensures Xor(x & 0xFF, x & 0xFFFF_FF00) == x && (x & 0xFFFF_FF00) & 0xFF == 0
    ensures (x & 0xFFFF_FF00) >> 8 == x >> 8
  {
  }

  lemma HighPartShifts(h: bv32)
    requires h & 0xFF == 0
    ensures Iter(BitStep, h, 8) == h >> 8
  {
    IterEight(BitStep, h);
  }

  /** One table lookup does the work of eight bit steps. */
  lemma LookupIsEightSteps(x: bv32)
    ensures Xor(TableEntry(x & 0xFF), x >> 8) == Iter(BitStep, x, 8)
  {
    ByteParts(x);
    HighPartShifts(x & 0xFFFF_FF00);
    StepIsHomomorphic();
    IterLinear(BitStep, Xor, x & 0xFF, x & 0xFFFF_FF00, 8);
  }

  lemma StepIsHomomorphic()
    ensures Homomorphic(BitStep, Xor)
  {
    forall x, y
      ensures BitStep(Xor(x, y)) == Xor(BitStep(x), BitStep(y))
    {
      BitStepLinear(x, y);
    }
  }

  function Index(x: bv32): nat {
    x as nat
  }

  function Entry(i: nat): bv32
    requires i < 256
  {
    TableEntry(i as bv32)
  }

  lemma IndexRoundTrip(x: bv32)
    requires x <= 0xFF
    ensures Index(x) < 256 && Index(x) as bv32 == x
  {
  }

  lemma TableStep(before: bv32, after: bv32)
    requires after == if before & 1 == 1 then POLY ^ (before >> 1) else before >> 1
    ensures after == BitStep(before)
  {
    XorCommutes(POLY, before >> 1);
  }

  method TableValue(i: bv32) returns (c: bv32)
    ensures c == TableEntry(i)
  {
    c := i;
    var k := 0;
    while k < 8
      invariant 0 <= k <= 8
      invariant Iter(BitStep, c, 8 - k) == TableEntry(i)
    {
      ghost var before := c;
      c := if c & 1 == 1 then POLY ^ (c >> 1) else c >> 1;
      TableStep(before, c);
      k := k + 1;
    }
  }

  ghost predicate IsTable(table: array<bv32>)
    reads table
  {
    table.Length == 256 && forall i | 0 <= i < 256 :: table[i] == Entry(i)
  }

  method BuildTable() returns (table: array<bv32>)
    ensures fresh(table) && IsTable(table)
  {
    table := new bv32[256];
    var i := 0;
    while i < 256
      invariant 0 <= i <= 256
      invariant forall j | 0 <= j < i :: table[j] == Entry(j)
    {
      var c := TableValue(i as bv32);
      table[i] := c;
      i := i + 1;
    }
  }

  lemma AbsorbByte(s: seq<bv8>, b: bv8)
    ensures Register(s + [b]) == Iter(BitStep, Xor(Register(s), Wide(b)), 8)
  {
    var w := Wide(b);
    assert Widen(s + [b]) == Widen(s) + [w];
    FoldAppend(BitStep, Xor, 8, ALL_ONES, Widen(s), [w]);
    var c := Iter(BitStep, Xor(Register(s), w), 8);
    assert [w][1..] == [];
    assert Fold(BitStep, Xor, 8, c, []) == c;
  }

  lemma ByteAboveStays(c: bv32, b: bv8)
    ensures Xor(c, Wide(b)) >> 8 == c >> 8
  {
  }

  lemma EntryAt(x: bv32)
    requires x <= 0xFF
    ensures Index(x) < 256 && Entry(Index(x)) == TableEntry(x)
  {
    IndexRoundTrip(x);
  }

  lemma MaskFits(x: bv32)
    ensures x & 0xFF <= 0xFF
  {
  }

  lemma LookupAt(x: bv32)
    ensures Index(x & 0xFF) < 256
    ensures Xor(Entry(Index(x & 0xFF)), x >> 8) == Iter(BitStep, x, 8)
  {
    MaskFits(x);
    EntryAt(x & 0xFF);
    LookupIsEightSteps(x);
  }

  lemma LookupAbsorbs(s: seq<bv8>, b: bv8, x: bv32)
    requires x == Xor(Register(s), Wide(b))
    ensures Index(x & 0xFF) < 256
    ensures Xor(Entry(Index(x & 0xFF)), Register(s) >> 8) == Register(s + [b])
  {
    LookupAt(x);
    ByteAboveStays(Register(s), b);
    AbsorbByte(s, b);
  }

  lemma NothingRead()
    ensures Register([]) == ALL_ONES
  {
  }

  method Update(table: array<bv32>, crc: bv32, b: bv8, ghost sofar: seq<bv8>) returns (next: bv32)
    requires IsTable(table) && crc == Register(sofar)
    ensures next == Register(sofar + [b])
  {
    var x := Xor(crc, Wide(b));
    LookupAbsorbs(sofar, b, x);
    next := Xor(table[Index(x & 0xFF)], crc >> 8);
  }

  /** The table-driven loop computes the bit-by-bit checksum. */
  method ComputeCrc32(table: array<bv32>, data: array<bv8>, len: nat) returns (crc: bv32)
    requires IsTable(table) && len <= data.Length
    ensures crc == Checksum(data[..len])
  {
    crc := ALL_ONES;
    var i := 0;
    NothingRead();
    assert data[..0] == [];
    while i < len
      invariant 0 <= i <= len
      invariant crc == Register(data[..i])
    {
      crc := Update(table, crc, data[i], data[..i]);
      assert data[..i + 1] == data[..i] + [data[i]];
      i := i + 1;
    }
    crc := crc ^ ALL_ONES;
  }

  lemma RegisterNext(s: seq<bv8>, b: bv8, c: bv32, next: bv32)
    requires Register(s) == c && Eight(c ^ Wide(b)) == next
    ensures Register(s + [b]) == next
  {
    AbsorbByte(s, b);
    StepsAreTicks(c ^ Wide(b), 8);
    IterEight(Tick, c ^ Wide(b));
  }

  /** The check value of CRC-32: the checksum of the nine digits "123456789" is 0xCBF43926. */
  lemma CheckValue()
    ensures Checksum([0x31, 0x32, 0x33, 0x34, 0x35, 0x36, 0x37, 0x38, 0x39]) == 0xCBF4_3926
  {
    var s: seq<bv8> := [0x31, 0x32, 0x33, 0x34, 0x35, 0x36, 0x37, 0x38, 0x39];
    NothingRead();
    assert s[..0] == [];
    RegisterNext(s[..0], 0x31, 0xFFFF_FFFF, 0x7C23_1048);
    assert s[..0] + [s[0]] == s[..1];
    RegisterNext(s[..1], 0x32, 0x7C23_1048, 0xB0AC_BB32);
    assert s[..1] + [s[1]] == s[..2];
    RegisterNext(s[..2], 0x33, 0xB0AC_BB32, 0x77B7_9C2D);
    assert s[..2] + [s[2]] == s[..3];
    RegisterNext(s[..3], 0x34, 0x77B7_9C2D, 0x641C_1F5C);
    assert s[..3] + [s[3]] == s[..4];
    RegisterNext(s[..4], 0x35, 0x641C_1F5C, 0x340A_C5E3);
    assert s[..4] + [s[4]] == s[..5];
    RegisterNext(s[..5], 0x36, 0x340A_C5E3, 0xF68D_2C9E);
    assert s[..5] + [s[5]] == s[..6];
    RegisterNext(s[..6], 0x37, 0xF68D_2C9E, 0xAFFC_9660);
    assert s[..6] + [s[6]] == s[..7];
    RegisterNext(s[..7], 0x38, 0xAFFC_9660, 0x651F_2550);
    assert s[..7] + [s[7]] == s[..8];
    RegisterNext(s[..8], 0x39, 0x651F_2550, 0x340B_C6D9);
    assert s[..8] + [s[8]] == s[..9];
    assert s[..9] == s;
  }
}
