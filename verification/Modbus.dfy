/** CRC-16/MODBUS: the loop the firmware runs, and the error bursts it detects. */
module ModbusCrc {
  import opened LinearRegister

  const POLY: bv16 := 0xA001

  function BitStep(c: bv16): bv16 {
    if c & 1 == 1 then (c >> 1) ^ POLY else c >> 1
  }

  function Xor(x: bv16, y: bv16): bv16 {
    x ^ y
  }

  function Clock(c: bv16, n: nat): bv16 {
    Iter(BitStep, c, n)
  }

  function Wide(b: bv8): bv16 {
    b as bv16
  }

  function Widen(s: seq<bv8>): seq<bv16> {
    seq(|s|, i requires 0 <= i < |s| => Wide(s[i]))
  }

  function Crc16(s: seq<bv8>): bv16 {
    Fold(BitStep, Xor, 8, 0xFFFF, Widen(s))
  }

  /** The shift register as two nested loops over a byte buffer. */
  method ComputeCrc16(buf: array<bv8>, len: nat) returns (crc: bv16)
    requires len <= buf.Length
    ensures crc == Crc16(buf[..len])
  {
    crc := 0xFFFF;
    var i := 0;
    while i < len
      invariant 0 <= i <= len
      invariant crc == Crc16(buf[..i])
    {
      ghost var before := crc;
      crc := crc ^ Wide(buf[i]);
      ghost var absorbed := crc;
      var b := 0;
      while b < 8
        invariant 0 <= b <= 8
        invariant Clock(crc, 8 - b) == Clock(absorbed, 8)
      {
        ghost var c := crc;
        if crc & 1 == 1 {
          crc := crc >> 1;
          crc := crc ^ POLY;
        } else {
          crc := crc >> 1;
        }
        assert crc == BitStep(c);
        b := b + 1;
      }
      CrcSnoc(buf[..i], buf[i]);
      assert buf[..i + 1] == buf[..i] + [buf[i]];
      i := i + 1;
    }
  }

  lemma CrcSnoc(s: seq<bv8>, b: bv8)
    ensures Crc16(s + [b]) == Clock(Xor(Crc16(s), Wide(b)), 8)
  {
    var w := Wide(b);
    assert Widen(s + [b]) == Widen(s) + [w];
    FoldAppend(BitStep, Xor, 8, 0xFFFF, Widen(s), [w]);
    FoldOne(Crc16(s), w);
  }

  lemma FoldOne(c: bv16, w: bv16)
    ensures Fold(BitStep, Xor, 8, c, [w]) == Clock(Xor(c, w), 8)
  {
    var c' := Clock(Xor(c, w), 8);
    assert [w][1..] == [];
    assert Fold(BitStep, Xor, 8, c', []) == c';
  }

  /** One step without a branch. */
  function Tick(c: bv16): bv16 {
    (c >> 1) ^ (0xA001 & (0 - (c & 1)))
  }

  lemma OddMask(c: bv16)
    requires c & 1 == 1
    ensures 0xA001 & (0 - (c & 1)) == POLY
  {
  }

  lemma OneBit(c: bv16)
    ensures c & 1 == 0 || c & 1 == 1
  {
  }

  lemma EvenMask(c: bv16)
    requires c & 1 != 1
    ensures 0xA001 & (0 - (c & 1)) == 0
  {
    OneBit(c);
  }

  lemma TickIsStep(c: bv16)
    ensures Tick(c) == BitStep(c)
  {
    if c & 1 == 1 {
      OddMask(c);
    } else {
      EvenMask(c);
      XorZero(c >> 1, 0);
    }
  }

  lemma StepsAreTicks(c: bv16, k: nat)
    ensures Iter(BitStep, c, k) == Iter(Tick, c, k)
  {
    forall x
      ensures BitStep(x) == Tick(x)
    {
      TickIsStep(x);
    }
    IterCongruent(BitStep, Tick, c, k);
  }

  function Four(c: bv16): bv16 {
    Tick(Tick(Tick(Tick(c))))
  }

  lemma EightSteps(c: bv16)
    ensures Clock(c, 8) == Four(Four(c))
  {
    StepsAreTicks(c, 8);
    IterEight(Tick, c);
  }

  lemma CrcNext(s: seq<bv8>, b: bv8, c: bv16, next: bv16)
    requires Crc16(s) == c && Four(Four(Xor(c, Wide(b)))) == next
    ensures Crc16(s + [b]) == next
  {
    CrcSnoc(s, b);
    EightSteps(Xor(c, Wide(b)));
  }

  lemma NothingRead()
    ensures Crc16([]) == 0xFFFF
  {
  }

  lemma FirstDigits()
    ensures Four(Four(0xFFCE)) == 0x947E
    ensures Four(Four(0x944C)) == 0xF595
    ensures Four(Four(0xF5A6)) == 0x7A75
    ensures Four(Four(0x7A41)) == 0x30BA
    ensures Four(Four(0x308F)) == 0xA471
  {
  }

  lemma LastDigits()
    ensures Four(Four(0xA447)) == 0x32E4
    ensures Four(Four(0x32D3)) == 0x9D73
    ensures Four(Four(0x9D4B)) == 0x37DD
    ensures Four(Four(0x37E4)) == 0x4B37
  {
  }

  lemma Absorbs(b: bv8, c: bv16, x: bv16)
    requires c ^ (b as bv16) == x
    ensures Xor(c, Wide(b)) == x
  {
  }

  /** The check value of CRC-16/MODBUS: the checksum of the nine digits "123456789" is 0x4B37. */
  lemma CheckValue()
    ensures Crc16([0x31, 0x32, 0x33, 0x34, 0x35, 0x36, 0x37, 0x38, 0x39]) == 0x4B37
  {
    var s: seq<bv8> := [0x31, 0x32, 0x33, 0x34, 0x35, 0x36, 0x37, 0x38, 0x39];
    NothingRead();
    assert s[..0] == [];
    FirstDigits();
    LastDigits();
    Absorbs(0x31, 0xFFFF, 0xFFCE);
    CrcNext(s[..0], 0x31, 0xFFFF, 0x947E);
    assert s[..0] + [s[0]] == s[..1];
    Absorbs(0x32, 0x947E, 0x944C);
    CrcNext(s[..1], 0x32, 0x947E, 0xF595);
    assert s[..1] + [s[1]] == s[..2];
    Absorbs(0x33, 0xF595, 0xF5A6);
    CrcNext(s[..2], 0x33, 0xF595, 0x7A75);
    assert s[..2] + [s[2]] == s[..3];
    Absorbs(0x34, 0x7A75, 0x7A41);
    CrcNext(s[..3], 0x34, 0x7A75, 0x30BA);
    assert s[..3] + [s[3]] == s[..4];
    Absorbs(0x35, 0x30BA, 0x308F);
    CrcNext(s[..4], 0x35, 0x30BA, 0xA471);
    assert s[..4] + [s[4]] == s[..5];
    Absorbs(0x36, 0xA471, 0xA447);
    CrcNext(s[..5], 0x36, 0xA471, 0x32E4);
    assert s[..5] + [s[5]] == s[..6];
    Absorbs(0x37, 0x32E4, 0x32D3);
    CrcNext(s[..6], 0x37, 0x32E4, 0x9D73);
    assert s[..6] + [s[6]] == s[..7];
    Absorbs(0x38, 0x9D73, 0x9D4B);
    CrcNext(s[..7], 0x38, 0x9D73, 0x37DD);
    assert s[..7] + [s[7]] == s[..8];
    Absorbs(0x39, 0x37DD, 0x37E4);
    CrcNext(s[..8], 0x39, 0x37DD, 0x4B37);
    assert s[..8] + [s[8]] == s[..9];
    assert s[..9] == s;
  }

  // ---- The register is linear and injective --------------------------------------

  lemma StepOdd(x: bv16)
    requires x & 1 == 1
    ensures BitStep(x) == (x >> 1) ^ POLY
  {
  }

  lemma StepEven(x: bv16)
    requires x & 1 != 1
    ensures BitStep(x) == x >> 1
  {
  }

  lemma BothOdd(x: bv16, y: bv16)
    requires x & 1 == 1 && y & 1 == 1
    ensures (x ^ y) & 1 != 1 && (x ^ y) >> 1 == ((x >> 1) ^ POLY) ^ ((y >> 1) ^ POLY)
  {
  }

  lemma OddEven(x: bv16, y: bv16)
    requires x & 1 == 1 && y & 1 != 1
    ensures (x ^ y) & 1 == 1 && ((x ^ y) >> 1) ^ POLY == ((x >> 1) ^ POLY) ^ (y >> 1)
  {
  }

  lemma BothEven(x: bv16, y: bv16)
    requires x & 1 != 1 && y & 1 != 1
    ensures (x ^ y) & 1 != 1 && (x ^ y) >> 1 == (x >> 1) ^ (y >> 1)
  {
  }

  lemma XorCommutes(x: bv16, y: bv16)
    ensures x ^ y == y ^ x
  {
  }

  lemma LinearOddEven(x: bv16, y: bv16)
    requires x & 1 == 1 && y & 1 != 1
    ensures BitStep(x ^ y) == BitStep(x) ^ BitStep(y)
  {
    OddEven(x, y);
    StepOdd(x);
    StepEven(y);
    StepOdd(x ^ y);
  }

  lemma LinearSameParity(x: bv16, y: bv16)
    requires (x & 1 == 1) == (y & 1 == 1)
    ensures BitStep(x ^ y) == BitStep(x) ^ BitStep(y)
  {
    if x & 1 == 1 {
      BothOdd(x, y);
      StepOdd(x);
      StepOdd(y);
    } else {
      BothEven(x, y);
      StepEven(x);
      StepEven(y);
    }
    StepEven(x ^ y);
  }

  lemma BitStepLinear(x: bv16, y: bv16)
    ensures BitStep(x ^ y) == BitStep(x) ^ BitStep(y)
  {
    if (x & 1 == 1) == (y & 1 == 1) {
      LinearSameParity(x, y);
    } else if x & 1 == 1 {
      LinearOddEven(x, y);
    } else {
      XorCommutes(x, y);
      XorCommutes(BitStep(x), BitStep(y));
      LinearOddEven(y, x);
    }
  }

  /** 0xA001 has its top bit set, so a step never turns a set register into zero. */
  lemma BitStepNonzero(x: bv16)
    ensures BitStep(x) == 0 <==> x == 0
  {
  }

  lemma XorZero(x: bv16, y: bv16)
    ensures x ^ y == 0 <==> x == y
    ensures x ^ 0 == x
  {
  }

  lemma RegisterIsLinear()
    ensures Linear(BitStep, Xor, 0 as bv16)
  {
    StepIsHomomorphic();
    StepIsInjective();
    XorCancels();
    XorRegroups();
    XorUnit();
  }

  lemma StepIsHomomorphic()
    ensures Homomorphic(BitStep, Xor)
  {
    forall x, y
      ensures BitStep(Xor(x, y)) == Xor(BitStep(x), BitStep(y))
    {
      BitStepLinear(x, y);
    }
  }

  lemma StepIsInjective()
    ensures Injective(BitStep, 0 as bv16)
  {
    forall x
      ensures BitStep(x) == 0 <==> x == 0
    {
      BitStepNonzero(x);
    }
  }

  lemma XorCancels()
    ensures Cancels(Xor, 0 as bv16)
  {
    forall x, y
      ensures Xor(x, y) == 0 <==> x == y
    {
      XorZero(x, y);
    }
  }

  lemma XorIsCommutative()
    ensures Commutes(Xor)
  {
    forall x, y
      ensures Xor(x, y) == Xor(y, x)
    {
      XorCommutes(x, y);
    }
  }

  lemma XorIsAssociative()
    ensures Associates(Xor)
  {
    forall x, y, z
      ensures Xor(Xor(x, y), z) == Xor(x, Xor(y, z))
    {
      XorAssociates(x, y, z);
    }
  }

  lemma XorRegroups()
    ensures Regroups(Xor)
  {
    XorIsCommutative();
    XorIsAssociative();
    CommutingRegroups(Xor);
  }

  lemma XorUnit()
    ensures Unit(Xor, 0 as bv16)
  {
    forall x
      ensures Xor(x, 0) == x
    {
      XorZero(x, 0);
    }
  }

  // ---- Error bursts -----------------------------------------------------------------

  function Bit(b: bool): bv16 {
    if b then 1 else 0
  }

  function LowBit(w: bv16): bv16 {
    w & 1
  }

  function Half(w: bv16): bv16 {
    w >> 1
  }

  function Words(bits: seq<bool>): seq<bv16> {
    seq(|bits|, i requires 0 <= i < |bits| => Bit(bits[i]))
  }

  /** The `n` low bits of a word in the order the wire carries them, lowest first. */
  function Bits(w: bv16, n: nat): (r: seq<bool>)
    ensures |r| == n
    decreases n
  {
    if n == 0 then [] else [LowBit(w) == 1] + Bits(Half(w), n - 1)
  }

  /** The checksum circuit fed one bit at a time. */
  function Serial(c: bv16, bits: seq<bool>): bv16 {
    Fold(BitStep, Xor, 1, c, Words(bits))
  }

  /** A buffer as the bit stream the serial line carries. */
  function BitStream(s: seq<bv8>): (r: seq<bool>)
    ensures |r| == 8 * |s|
  {
    if s == [] then [] else Bits(Wide(s[0]), 8) + BitStream(s[1..])
  }

  lemma LowBitIsBit(w: bv16)
    ensures LowBit(w) == Bit(LowBit(w) == 1)
  {
  }

  lemma {:induction false} BitsAreDigits(w: bv16, n: nat)
    ensures Words(Bits(w, n)) == Digits(LowBit, Half, w, n)
    decreases n
  {
    if n > 0 {
      var b := Bits(w, n);
      LowBitIsBit(w);
      BitsAreDigits(Half(w), n - 1);
      assert Words(b) == [Bit(b[0])] + Words(b[1..]);
    }
  }

  lemma HalfParts(w: bv16)
    ensures w == LowBit(w) ^ (Half(w) << 1)
    ensures BitStep(Half(w) << 1) == Half(w)
  {
  }

  lemma XorAssociates(x: bv16, y: bv16, z: bv16)
    ensures Xor(x, y ^ z) == Xor(Xor(x, y), z)
  {
  }

  lemma StepTakesLowBit(c: bv16, w: bv16, up: bv16)
    requires Homomorphic(BitStep, Xor)
    requires w == LowBit(w) ^ up && BitStep(up) == Half(w)
    ensures BitStep(Xor(c, w)) == Xor(BitStep(Xor(c, LowBit(w))), Half(w))
  {
    var x := Xor(c, LowBit(w));
    XorAssociates(c, LowBit(w), up);
    assert BitStep(Xor(x, up)) == Xor(BitStep(x), BitStep(up));
  }

  lemma StepTakesOneDigit()
    ensures TakesOneDigit(BitStep, Xor, LowBit, Half)
  {
    StepIsHomomorphic();
    forall c, w
      ensures BitStep(Xor(c, w)) == Xor(BitStep(Xor(c, LowBit(w))), Half(w))
    {
      HalfParts(w);
      StepTakesLowBit(c, w, Half(w) << 1);
    }
  }

  lemma ByteShiftsOut(b: bv8)
    ensures Iter(Half, Wide(b), 8) == 0
  {
    IterEight(Half, Wide(b));
  }

  lemma ByteIsSerial(c: bv16, b: bv8)
    ensures Clock(Xor(c, Wide(b)), 8) == Serial(c, Bits(Wide(b), 8))
  {
    StepTakesOneDigit();
    ParallelIsSerial(BitStep, Xor, LowBit, Half, c, Wide(b), 8);
    BitsAreDigits(Wide(b), 8);
    ByteShiftsOut(b);
    XorUnit();
  }

  lemma SerialAppend(c: bv16, x: seq<bool>, y: seq<bool>)
    ensures Serial(c, x + y) == Serial(Serial(c, x), y)
  {
    assert Words(x + y) == Words(x) + Words(y);
    FoldAppend(BitStep, Xor, 1, c, Words(x), Words(y));
  }

  /** Byte-wise and bit-wise checksums agree on every buffer. */
  lemma {:induction false} FoldIsSerial(c: bv16, s: seq<bv8>)
    ensures Fold(BitStep, Xor, 8, c, Widen(s)) == Serial(c, BitStream(s))
    decreases s
  {
    if s != [] {
      var c' := Clock(Xor(c, Wide(s[0])), 8);
      assert Widen(s)[1..] == Widen(s[1..]);
      ByteIsSerial(c, s[0]);
      FoldIsSerial(c', s[1..]);
      SerialAppend(c, Bits(Wide(s[0]), 8), BitStream(s[1..]));
    }
  }

  // ---- Any sixteen bits are the bits of one word -------------------------------------

  /** The `k` top bits of a word, all set. */
  function Top(k: nat): bv16 {
    if k == 0 then 0x0000 else if k == 1 then 0x8000 else if k == 2 then 0xC000 else if k == 3 then 0xE000
    else if k == 4 then 0xF000 else if k == 5 then 0xF800 else if k == 6 then 0xFC00 else if k == 7 then 0xFE00
    else if k == 8 then 0xFF00 else if k == 9 then 0xFF80 else if k == 10 then 0xFFC0 else if k == 11 then 0xFFE0
    else if k == 12 then 0xFFF0 else if k == 13 then 0xFFF8 else if k == 14 then 0xFFFC else if k == 15 then 0xFFFE
    else 0xFFFF
  }

  predicate Widens(h: bv16, g: bv16) {
    h & 1 == 0 && h >> 1 == g & 0x7FFF
  }

  ghost predicate Ladder(tops: seq<bv16>) {
    |tops| == 17 && forall k | 0 <= k < 16 :: Widens(tops[k], tops[k + 1])
  }

  function Join(b: bool, p: bv16): bv16 {
    if b then (p << 1) | 1 else p << 1
  }

  function Pack(bits: seq<bool>): bv16 {
    if bits == [] then 0 else Join(bits[0], Pack(bits[1..]))
  }

  lemma ShiftFits(p: bv16, h: bv16, g: bv16)
    requires Widens(h, g) && p & g == 0
    ensures (p << 1) & h == 0
  {
  }

  lemma OrFits(q: bv16, h: bv16)
    requires q & h == 0 && h & 1 == 0
    ensures (q | 1) & h == 0
  {
  }

  lemma JoinFits(b: bool, p: bv16, h: bv16, g: bv16)
    requires Widens(h, g) && p & g == 0
    ensures Join(b, p) & h == 0
  {
    ShiftFits(p, h, g);
    OrFits(p << 1, h);
  }

  lemma JoinTrue(p: bv16)
    requires p & 0x8000 == 0
    ensures Half(Join(true, p)) == p && LowBit(Join(true, p)) == 1 && Join(true, p) != 0
  {
  }

  lemma JoinFalse(p: bv16)
    requires p & 0x8000 == 0
    ensures Half(Join(false, p)) == p && LowBit(Join(false, p)) == 0
    ensures Join(false, p) == 0 <==> p == 0
  {
  }

  lemma JoinSplits(b: bool, p: bv16)
    requires p & 0x8000 == 0
    ensures Half(Join(b, p)) == p && (LowBit(Join(b, p)) == 1) == b
    ensures Join(b, p) == 0 <==> !b && p == 0
  {
    JoinTrue(p);
    JoinFalse(p);
  }

  lemma ZeroFits(h: bv16)
    ensures 0 & h == 0
  {
  }

  lemma {:induction false} PackFits(bits: seq<bool>, k: nat, tops: seq<bv16>)
    requires |bits| + k <= 16 && Ladder(tops)
    ensures Pack(bits) & tops[k] == 0
    decreases bits
  {
    if bits == [] {
      ZeroFits(tops[k]);
    } else {
      PackFits(bits[1..], k + 1, tops);
      assert Widens(tops[k], tops[k + 1]);
      JoinFits(bits[0], Pack(bits[1..]), tops[k], tops[k + 1]);
    }
  }

  lemma TopStep(k: nat)
    requires k <= 15
    ensures Widens(Top(k), Top(k + 1))
  {
  }

  lemma TopLadder() returns (tops: seq<bv16>)
    ensures Ladder(tops) && tops[1] == 0x8000
  {
    tops := seq(17, i requires 0 <= i < 17 => Top(i));
    forall k | 0 <= k < 16
      ensures Widens(tops[k], tops[k + 1])
    {
      TopStep(k);
      assert tops[k] == Top(k) && tops[k + 1] == Top(k + 1);
    }
    assert tops[1] == Top(1);
  }

  lemma PackSmall(bits: seq<bool>)
    requires |bits| <= 15
    ensures Pack(bits) & 0x8000 == 0
  {
    var tops := TopLadder();
    PackFits(bits, 1, tops);
  }

  lemma {:induction false} PackKeepsBits(bits: seq<bool>)
    requires |bits| <= 16
    ensures Bits(Pack(bits), |bits|) == bits
    ensures Pack(bits) == 0 <==> forall i | 0 <= i < |bits| :: !bits[i]
    decreases bits
  {
    if bits != [] {
      PackSmall(bits[1..]);
      JoinSplits(bits[0], Pack(bits[1..]));
      PackKeepsBits(bits[1..]);
      assert bits == [bits[0]] + bits[1..];
    }
  }

  // ---- Which differences the checksum sees -------------------------------------------

  /** Sixteen clocks empty the register of the word it was loaded with. */
  lemma WordShiftsOut(w: bv16)
    ensures Iter(Half, w, 16) == 0
  {
    var v := Iter(Half, w, 8);
    IterEight(Half, w);
    IterEight(Half, v);
    IterAdd(Half, w, 8, 8);
  }

  /** Sixteen bits fed to a clear register leave it clear only if all of them were. */
  lemma SixteenBitsSeen(bits: seq<bool>)
    requires |bits| == 16
    ensures Serial(0, bits) == 0 <==> forall i | 0 <= i < 16 :: !bits[i]
  {
    var w := Pack(bits);
    PackKeepsBits(bits);
    StepTakesOneDigit();
    ParallelIsSerial(BitStep, Xor, LowBit, Half, 0, w, 16);
    BitsAreDigits(w, 16);
    WordShiftsOut(w);
    WordFed(w, Serial(0, bits));
  }

  lemma WordFed(w: bv16, r: bv16)
    requires Clock(Xor(0, w), 16) == Xor(r, 0)
    ensures r == 0 <==> w == 0
  {
    StepIsInjective();
    XorCommutes(0, w);
    XorZero(w, 0);
    XorZero(r, 0);
    IterNonzero(BitStep, 0, w, 16);
  }

  lemma SerialZeros(c: bv16, n: nat)
    ensures Serial(c, seq(n, i => false)) == 0 <==> c == 0
  {
    StepIsInjective();
    XorUnit();
    FoldZeros(BitStep, Xor, 0, 1, c, Words(seq(n, i => false)));
  }

  lemma FewBitsSeen(bits: seq<bool>)
    requires |bits| <= 16
    ensures Serial(0, bits) == 0 <==> forall i | 0 <= i < |bits| :: !bits[i]
  {
    var zeros := seq(16 - |bits|, i => false);
    var padded := bits + zeros;
    SerialAppend(0, bits, zeros);
    SerialZeros(Serial(0, bits), 16 - |bits|);
    SixteenBitsSeen(padded);
    assert forall i | 0 <= i < |bits| :: padded[i] == bits[i];
  }

  function Differing(x: seq<bool>, y: seq<bool>): seq<bool>
    requires |x| == |y|
  {
    seq(|x|, i requires 0 <= i < |x| => x[i] != y[i])
  }

  lemma BitXor(a: bool, b: bool)
    ensures Xor(Bit(a), Bit(b)) == Bit(a != b)
  {
  }

  lemma DifferingIsXor(x: seq<bool>, y: seq<bool>)
    requires |x| == |y|
    ensures Pointwise(Xor, Words(x), Words(y)) == Words(Differing(x, y))
  {
    forall i | 0 <= i < |x|
      ensures Pointwise(Xor, Words(x), Words(y))[i] == Words(Differing(x, y))[i]
    {
      BitXor(x[i], y[i]);
    }
  }

  /** Bit streams that differ, but only inside sixteen consecutive places. */
  ghost predicate Burst(x: seq<bool>, y: seq<bool>, p: nat) {
    && |x| == |y|
    && x != y
    && forall i | 0 <= i < |x| && !(p <= i < p + 16) :: x[i] == y[i]
  }

  lemma AgreeIff(c: bv16, x: seq<bool>, y: seq<bool>)
    requires |x| == |y|
    ensures Serial(c, x) == Serial(c, y) <==> Serial(0, Differing(x, y)) == 0
  {
    RegisterIsLinear();
    DifferingIsXor(x, y);
    CollideIff(BitStep, Xor, 0, 1, c, Words(x), Words(y));
  }

  lemma WindowDecides(x: seq<bool>, y: seq<bool>, p: nat, q: nat)
    requires |x| == |y| && p <= q <= |x|
    requires forall i | 0 <= i < |x| && !(p <= i < q) :: x[i] == y[i]
    ensures Serial(0, Differing(x, y)) == 0 <==> Serial(0, Differing(x, y)[p..q]) == 0
  {
    var d := Differing(x, y);
    StepIsInjective();
    XorUnit();
    XorCancels();
    DifferingIsXor(x, y);
    WindowDetected(BitStep, Xor, 0, 1, Words(x), Words(y), p, q);
    assert Words(d)[p..q] == Words(d[p..q]);
  }

  lemma BurstMovesRegister(c: bv16, x: seq<bool>, y: seq<bool>, p: nat)
    requires Burst(x, y, p)
    ensures Serial(c, x) != Serial(c, y)
  {
    var i :| 0 <= i < |x| && x[i] != y[i];
    var q := if p + 16 <= |x| then p + 16 else |x|;
    var d := Differing(x, y)[p..q];
    AgreeIff(c, x, y);
    WindowDecides(x, y, p, q);
    FewBitsSeen(d);
    assert d[i - p];
  }

  lemma ByteBitsInjective(a: bv8, b: bv8)
    ensures Bits(Wide(a), 8) == Bits(Wide(b), 8) ==> a == b
  {
    ByteIsSerial(0, a);
    ByteIsSerial(0, b);
    RegisterIsLinear();
    ZeroXor(Wide(a));
    ZeroXor(Wide(b));
    ClockInjective(Wide(a), Wide(b), 8);
  }

  lemma ZeroXor(x: bv16)
    ensures Xor(0, x) == x
  {
  }

  lemma ClockInjective(x: bv16, y: bv16, n: nat)
    ensures Clock(x, n) == Clock(y, n) <==> x == y
  {
    RegisterIsLinear();
    IterLinear(BitStep, Xor, x, y, n);
    IterNonzero(BitStep, 0, Xor(x, y), n);
    XorZero(x, y);
    XorZero(Clock(x, n), Clock(y, n));
  }

  lemma {:induction false} BitStreamInjective(s: seq<bv8>, t: seq<bv8>)
    requires |s| == |t| && s != t
    ensures BitStream(s) != BitStream(t)
    decreases s
  {
    var x, y := BitStream(s), BitStream(t);
    assert x[..8] == Bits(Wide(s[0]), 8) && y[..8] == Bits(Wide(t[0]), 8);
    assert x[8..] == BitStream(s[1..]) && y[8..] == BitStream(t[1..]);
    if s[0] != t[0] {
      ByteBitsInjective(s[0], t[0]);
    } else {
      assert s == [s[0]] + s[1..] && t == [t[0]] + t[1..];
      BitStreamInjective(s[1..], t[1..]);
    }
  }

  lemma DropByte(i: nat)
    requires i >= 8
    ensures (i - 8) / 8 == i / 8 - 1 && (i - 8) % 8 == i % 8
  {
  }

  lemma BitStreamHead(s: seq<bv8>, i: nat)
    requires i < 8 * |s|
    ensures BitStream(s)[i] == if i < 8 then Bits(Wide(s[0]), 8)[i] else BitStream(s[1..])[i - 8]
  {
  }

  lemma {:induction false} BitStreamAt(s: seq<bv8>, i: nat)
    requires i < 8 * |s|
    ensures BitStream(s)[i] == Bits(Wide(s[i / 8]), 8)[i % 8]
    decreases s
  {
    BitStreamHead(s, i);
    if i >= 8 {
      BitStreamAt(s[1..], i - 8);
      DropByte(i);
      assert s[1..][(i - 8) / 8] == s[i / 8];
    }
  }

  /** Corruption confined to sixteen consecutive bits on the wire always changes the checksum. */
  lemma BurstDetected(s: seq<bv8>, t: seq<bv8>, p: nat)
    requires |s| == |t| && s != t
    requires forall i | 0 <= i < 8 * |s| && !(p <= i < p + 16) :: BitStream(s)[i] == BitStream(t)[i]
    ensures Crc16(s) != Crc16(t)
  {
    BitStreamInjective(s, t);
    FoldIsSerial(0xFFFF, s);
    FoldIsSerial(0xFFFF, t);
    BurstMovesRegister(0xFFFF, BitStream(s), BitStream(t), p);
  }

  /** In particular any corruption of two adjacent bytes. */
  lemma AdjacentBytesDetected(s: seq<bv8>, t: seq<bv8>, p: nat)
    requires |s| == |t| && s != t
    requires forall i | 0 <= i < |s| && i != p && i != p + 1 :: s[i] == t[i]
    ensures Crc16(s) != Crc16(t)
  {
    forall i | 0 <= i < 8 * |s| && !(8 * p <= i < 8 * p + 16)
      ensures BitStream(s)[i] == BitStream(t)[i]
    {
      BitStreamAt(s, i);
      BitStreamAt(t, i);
    }
    BurstDetected(s, t, 8 * p);
  }

  // ---- The residue of a frame that carries its own checksum ---------------------------

  function LowByte(c: bv16): bv8 {
    (c & 0xFF) as bv8
  }

  function HighByte(c: bv16): bv8 {
    (c >> 8) as bv8
  }

  /** `lo | hi << 8`, the way the receiver reads the trailing checksum. */
  function FromBytes(lo: bv8, hi: bv8): bv16 {
    Wide(lo) | (Wide(hi) << 8)
  }

  lemma BytesRoundTrip(c: bv16)
    ensures FromBytes(LowByte(c), HighByte(c)) == c
  {
  }

  lemma HighByteShifts(hi: bv8)
    ensures Clock(Wide(hi) << 8, 8) == Wide(hi)
  {
    IterEight(BitStep, Wide(hi) << 8);
  }

  lemma OrIsXor(l: bv16, h: bv16)
    requires l <= 0xFF && h & 0xFF == 0
    ensures l | h == l ^ h
  {
  }

  lemma XorMoves(x: bv16, y: bv16, z: bv16)
    ensures x ^ y == z <==> x == y ^ z
  {
  }

  lemma SplitWord(c: bv16, l: bv16, h: bv16)
    requires l <= 0xFF && h & 0xFF == 0
    ensures Xor(c, l) == h <==> c == l | h
  {
    OrIsXor(l, h);
    XorMoves(c, l, h);
  }

  lemma ByteRanges(lo: bv8, hi: bv8)
    ensures Wide(lo) <= 0xFF && (Wide(hi) << 8) & 0xFF == 0
  {
  }

  lemma SplitCrc(c: bv16, lo: bv8, hi: bv8)
    ensures Xor(c, Wide(lo)) == Wide(hi) << 8 <==> c == FromBytes(lo, hi)
  {
    ByteRanges(lo, hi);
    SplitWord(c, Wide(lo), Wide(hi) << 8);
  }

  lemma TwoBytesCancel(c: bv16, lo: bv8, hi: bv8)
    ensures Clock(Xor(Clock(Xor(c, Wide(lo)), 8), Wide(hi)), 8) == 0 <==> c == FromBytes(lo, hi)
  {
    var c1 := Clock(Xor(c, Wide(lo)), 8);
    ClockNonzero(Xor(c1, Wide(hi)), 8);
    XorZero(c1, Wide(hi));
    HighByteShifts(hi);
    ClockInjective(Xor(c, Wide(lo)), Wide(hi) << 8, 8);
    SplitCrc(c, lo, hi);
  }

  lemma ClockNonzero(c: bv16, n: nat)
    ensures Clock(c, n) == 0 <==> c == 0
  {
    StepIsInjective();
    IterNonzero(BitStep, 0, c, n);
  }

  /** A frame has residue zero exactly when its last two bytes are its checksum, low byte first. */
  lemma ResidueZeroIff(s: seq<bv8>, lo: bv8, hi: bv8)
    ensures Crc16(s + [lo, hi]) == 0 <==> Crc16(s) == FromBytes(lo, hi)
  {
    assert s + [lo, hi] == (s + [lo]) + [hi];
    CrcSnoc(s, lo);
    CrcSnoc(s + [lo], hi);
    TwoBytesCancel(Crc16(s), lo, hi);
  }
}
