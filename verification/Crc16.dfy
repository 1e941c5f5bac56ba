/** Bytes as numbers and as bit vectors. */
module Octets {

  type byte = x: int | 0 <= x < 256

  function Nibbles(high: bv4, low: bv4): bv8 {
    ((high as bv8) << 4) | (low as bv8)
  }

  function HighNibble(x: bv8): bv4 {
    (x >> 4) as bv4
  }

  function LowNibble(x: bv8): bv4 {
    (x & 15) as bv4
  }

  /** The conversions go by nibbles. */
  function Octet(b: byte): bv8 {
    Nibbles((b / 16) as bv4, (b % 16) as bv4)
  }

  function Number(x: bv8): byte {
    16 * (HighNibble(x) as int) + LowNibble(x) as int
  }

  lemma NibblesJoin(x: bv8)
    ensures Nibbles(HighNibble(x), LowNibble(x)) == x
  {
  }

  lemma NibblesSplit(high: bv4, low: bv4)
    ensures HighNibble(Nibbles(high, low)) == high && LowNibble(Nibbles(high, low)) == low
  {
  }

  lemma NumberAsNibble(n: int)
    requires 0 <= n < 16
    ensures (n as bv4) as int == n
  {
  }

  lemma NibbleAsNumber(x: bv4)
    ensures 0 <= x as int < 16 && (x as int) as bv4 == x
  {
  }

  lemma ByteAsOctet(b: byte)
    ensures Number(Octet(b)) == b
  {
    NibblesSplit((b / 16) as bv4, (b % 16) as bv4);
    NumberAsNibble(b / 16);
    NumberAsNibble(b % 16);
    hide Nibbles, HighNibble, LowNibble;
  }

  lemma Digits(high: int, low: int)
    requires 0 <= high < 16 && 0 <= low < 16
    ensures (16 * high + low) / 16 == high && (16 * high + low) % 16 == low
  {
  }

  lemma OctetOfNibbles(high: bv4, low: bv4)
    ensures 0 <= 16 * (high as int) + low as int < 256
    ensures Octet(16 * (high as int) + low as int) == Nibbles(high, low)
  {
    hide Nibbles;
    NibbleAsNumber(high);
    NibbleAsNumber(low);
    var h, l := high as int, low as int;
    Digits(h, l);
    assert Octet(16 * h + l) == Nibbles(h as bv4, l as bv4);
  }

  lemma OctetAsByte(x: bv8)
    ensures Octet(Number(x)) == x
  {
    hide Octet, Nibbles, HighNibble, LowNibble;
    OctetOfNibbles(HighNibble(x), LowNibble(x));
    NibblesJoin(x);
  }
}

/** CRC-16 of Modbus RTU: crc16_modbus, append_crc and verify_crc of
    src/ventilation_core/infrastructure/modbus_rtu.py, following section 2.5.1.2
    of the MODBUS over Serial Line Specification and Implementation Guide V1.02.

    The register is a bv16.  Main results: an appended CRC leaves residue zero,
    verification accepts exactly the residue-zero frames of four bytes or more,
    and every error burst of at most sixteen consecutive bits is caught, wherever
    it starts, the two CRC bytes included.
 */
module Crc16 {
  import opened Octets

  // ----- one shift of the register

  function Xor(a: bv16, b: bv16): bv16 {
    a ^ b
  }

  /** The feedback taps: 0xA001 when the bit shifted out is one. */
  function Taps(c: bv16): bv16 {
    if c & 1 == 1 then 0xA001 else 0
  }

  function Shift(c: bv16): bv16 {
    Xor(c >> 1, Taps(c))
  }

  function Shifts(c: bv16, n: nat): bv16
    decreases n
  {
    if n == 0 then c else Shifts(Shift(c), n - 1)
  }

  lemma XorAssociative(a: bv16, b: bv16, c: bv16)
    ensures Xor(Xor(a, b), c) == Xor(a, Xor(b, c))
  {
  }

  lemma XorCommutative(a: bv16, b: bv16)
    ensures Xor(a, b) == Xor(b, a)
  {
  }

  lemma XorInterchange(x: bv16, y: bv16, p: bv16, q: bv16)
    ensures Xor(Xor(x, y), Xor(p, q)) == Xor(Xor(x, p), Xor(y, q))
  {
    hide Xor;
    XorAssociative(x, y, Xor(p, q));
    XorAssociative(y, p, q);
    XorCommutative(y, p);
    XorAssociative(p, y, q);
    XorAssociative(x, p, Xor(y, q));
  }

  lemma TapsLinear(a: bv16, b: bv16)
    ensures Taps(Xor(a, b)) == Xor(Taps(a), Taps(b))
  {
  }

  lemma HalfLinear(a: bv16, b: bv16)
    ensures Xor(a, b) >> 1 == Xor(a >> 1, b >> 1)
  {
  }

  /** The shift step is linear over exclusive or. */
  lemma ShiftLinear(a: bv16, b: bv16)
    ensures Shift(Xor(a, b)) == Xor(Shift(a), Shift(b))
  {
    hide Xor, Taps;
    HalfLinear(a, b);
    TapsLinear(a, b);
    XorInterchange(a >> 1, b >> 1, Taps(a), Taps(b));
  }

  /** The shift step loses no information. */
  lemma ShiftInjective(a: bv16, b: bv16)
    requires Shift(a) == Shift(b)
    ensures a == b
  {
  }

  /** Shifting an even register only moves it. */
  lemma ShiftEven(c: bv16)
    requires c & 1 == 0
    ensures Shift(c) == c >> 1
  {
  }

  // ----- the checksum of a byte string

  function Wide(b: byte): bv16 {
    Octet(b) as bv16
  }

  lemma WideKeepsOctet(x: bv8, y: bv8)
    requires x as bv16 == y as bv16
    ensures x == y
  {
  }

  lemma WideInjective(a: byte, b: byte)
    requires Wide(a) == Wide(b)
    ensures a == b
  {
    WideKeepsOctet(Octet(a), Octet(b));
    ByteAsOctet(a);
    ByteAsOctet(b);
  }

  function ByteStep(c: bv16, b: byte): bv16 {
    Shifts(Xor(c, Wide(b)), 8)
  }

  function Crc(c: bv16, data: seq<byte>): bv16
    decreases data
  {
    if data == [] then c else Crc(ByteStep(c, data[0]), data[1..])
  }

  const INITIAL: bv16 := 0xFFFF

  lemma XorIsCaret(a: bv16, b: bv16)
    ensures a ^ b == Xor(a, b)
  {
  }

  lemma ShiftByCases(c: bv16)
    ensures Shift(c) == if c & 1 == 1 then (c >> 1) ^ 0xA001 else c >> 1
  {
    hide Xor;
    XorIsCaret(c >> 1, 0xA001);
    XorNothing(c >> 1);
  }

  method Crc16Modbus(data: seq<byte>) returns (crc: bv16)
    ensures crc == Crc(INITIAL, data)
  {
    hide Xor, Shift;
    crc := 0xFFFF;
    for i := 0 to |data|
      invariant Crc(INITIAL, data) == Crc(crc, data[i..])
    {
      var start := crc;
      XorIsCaret(crc, Wide(data[i]));
      crc := crc ^ Wide(data[i]);
      for k := 0 to 8
        invariant Shifts(crc, 8 - k) == ByteStep(start, data[i])
      {
        ShiftByCases(crc);
        crc := if crc & 1 == 1 then (crc >> 1) ^ 0xA001 else crc >> 1;
      }
      assert data[i..][1..] == data[i + 1..];
    }
  }

  function LowOctet(c: bv16): bv8 {
    (c & 0xFF) as bv8
  }

  function HighOctet(c: bv16): bv8 {
    (c >> 8) as bv8
  }

  function Low(c: bv16): byte {
    Number(LowOctet(c))
  }

  function High(c: bv16): byte {
    Number(HighOctet(c))
  }

  function AppendCrc(frame: seq<byte>): (r: seq<byte>)
    ensures |r| == |frame| + 2 && r[..|frame|] == frame
  {
    var crc := Crc(INITIAL, frame);
    frame + [Low(crc), High(crc)]
  }

  /** One request in numbers, from tests/test_modbus_rtu.py:38-41. */
  lemma KnownCrc()
    ensures Crc(INITIAL, [0x01, 0x04, 0x00, 0x00, 0x00, 0x13]) == 0xC7B1
    ensures AppendCrc([0x01, 0x04, 0x00, 0x00, 0x00, 0x13]) == [0x01, 0x04, 0x00, 0x00, 0x00, 0x13, 0xB1, 0xC7]
  {
    KnownSteps();
    MoreKnownSteps();
    hide ByteStep, Low, High;
    var frame: seq<byte> := [0x01, 0x04, 0x00, 0x00, 0x00, 0x13];
    assert frame[1..] == [0x04, 0x00, 0x00, 0x00, 0x13];
    assert frame[1..][1..] == [0x00, 0x00, 0x00, 0x13];
    assert frame[1..][1..][1..] == [0x00, 0x00, 0x13];
    assert frame[1..][1..][1..][1..] == [0x00, 0x13];
    assert frame[1..][1..][1..][1..][1..] == [0x13];
    assert Crc(INITIAL, frame) == 0xC7B1;
  }

  lemma KnownSteps()
    ensures ByteStep(0xFFFF, 0x01) == 0x807E
    ensures ByteStep(0x807E, 0x04) == 0xE301
    ensures ByteStep(0xE301, 0x00) == 0xC022
  {
  }

  lemma MoreKnownSteps()
    ensures ByteStep(0xC022, 0x00) == 0x1940
    ensures ByteStep(0x1940, 0x00) == 0xF018
    ensures ByteStep(0xF018, 0x13) == 0xC7B1
    ensures Low(0xC7B1) == 0xB1 && High(0xC7B1) == 0xC7
  {
  }

  /** Two received bytes as a register value, low byte first. */
  function Pair(lo: byte, hi: byte): bv16 {
    Join(Wide(lo), Wide(hi))
  }

  function Join(lo: bv16, hi: bv16): bv16 {
    lo | (hi << 8)
  }

  /** Acceptance by verify_crc; a shorter frame or another checksum raises. */
  predicate VerifyCrc(frame: seq<byte>) {
    |frame| >= 4 &&
    var n := |frame|;
    Pair(frame[n - 2], frame[n - 1]) == Crc(INITIAL, frame[..n - 2])
  }

  lemma {:induction false} CrcConcat(c: bv16, a: seq<byte>, b: seq<byte>)
    ensures Crc(c, a + b) == Crc(Crc(c, a), b)
    decreases a
  {
    if a == [] {
      assert a + b == b;
    } else {
      CrcConcat(ByteStep(c, a[0]), a[1..], b);
      assert (a + b)[1..] == a[1..] + b;
    }
  }

  lemma EvenStep(c: bv16, n: nat)
    requires c & 1 == 0
    ensures Shifts(c, n + 1) == Shifts(c >> 1, n)
  {
    ShiftEven(c);
  }

  lemma FourShiftsDown(c: bv16)
    requires c & 0xF == 0
    ensures Shifts(c, 4) == c >> 4
  {
    hide Shift, Shifts;
    EvenStep(c, 3);
    EvenStep(c >> 1, 2);
    EvenStep(c >> 2, 1);
    EvenStep(c >> 3, 0);
    NoShifts(c >> 4);
  }

  lemma NoShifts(c: bv16)
    ensures Shifts(c, 0) == c
  {
  }

  lemma {:induction false} ShiftsAdd(c: bv16, m: nat, n: nat)
    ensures Shifts(c, m + n) == Shifts(Shifts(c, m), n)
    decreases m
  {
    if m > 0 { ShiftsAdd(Shift(c), m - 1, n); }
  }

  lemma LowFour(w: bv16)
    requires Fits(w, 8)
    ensures (w << 8) & 0xF == 0 && ((w << 8) >> 4) & 0xF == 0 && ((w << 8) >> 4) >> 4 == w
  {
    assert w & 0xFF00 == 0;
  }

  /** Eight shifts of a register whose low byte is zero bring the high byte down. */
  lemma HighByteComesDown(w: bv16)
    requires Fits(w, 8)
    ensures Shifts(w << 8, 8) == w
  {
    hide Shift, Fits;
    LowFour(w);
    FourShiftsDown(w << 8);
    FourShiftsDown((w << 8) >> 4);
    ShiftsAdd(w << 8, 4, 4);
  }

  lemma {:induction false} ShiftsZero(c: bv16, n: nat)
    ensures Shifts(c, n) == 0 <==> c == 0
    decreases n
  {
    if n > 0 {
      ShiftsZero(Shift(c), n - 1);
      assert Shift(0) == 0;
      if Shift(c) == 0 { ShiftInjective(c, 0); }
    }
  }

  lemma XorSelf(a: bv16)
    ensures Xor(a, a) == 0
  {
  }

  lemma XorZero(a: bv16, b: bv16)
    ensures Xor(a, b) == 0 <==> a == b
  {
    hide Xor;
    XorSelf(a);
    XorSelf(b);
    if Xor(a, b) == 0 { XorCancel(a, b, b); }
  }

  lemma JoinAsXor(lo: bv16, hi: bv16)
    requires Fits(lo, 8)
    ensures Xor(Join(lo, hi), lo) == hi << 8
  {
    assert lo & 0xFF00 == 0;
  }

  lemma XorCancel(a: bv16, b: bv16, c: bv16)
    requires Xor(a, c) == Xor(b, c)
    ensures a == b
  {
  }

  lemma TwoByteCrc(c: bv16, lo: byte, hi: byte)
    ensures Crc(c, [lo, hi]) == Shifts(Xor(ByteStep(c, lo), Wide(hi)), 8)
  {
    hide Xor, Wide, Shift;
    var data := [lo, hi];
    assert data[1..] == [hi] && [hi][1..] == [];
    assert Crc(ByteStep(c, lo), [hi]) == Crc(ByteStep(ByteStep(c, lo), hi), []);
  }

  /** The residue is zero exactly when the two bytes are the register, low byte first. */
  lemma ResidueOfTwoBytes(c: bv16, lo: byte, hi: byte)
    ensures Crc(c, [lo, hi]) == 0 <==> c == Pair(lo, hi)
  {
    hide Xor, Wide, Shift, Shifts, Join, Fits;
    ByteIsSmall(lo);
    ByteIsSmall(hi);
    TwoByteCrc(c, lo, hi);
    var mid := ByteStep(c, lo);
    ShiftsZero(Xor(mid, Wide(hi)), 8);
    XorZero(mid, Wide(hi));
    JoinAsXor(Wide(lo), Wide(hi));
    HighByteComesDown(Wide(hi));
    if mid == Wide(hi) {
      ShiftsInjective(Xor(c, Wide(lo)), Xor(Pair(lo, hi), Wide(lo)), 8);
      XorCancel(c, Pair(lo, hi), Wide(lo));
    }
  }

  lemma {:induction false} ShiftsInjective(a: bv16, b: bv16, n: nat)
    requires Shifts(a, n) == Shifts(b, n)
    ensures a == b
    decreases n
  {
    if n > 0 {
      ShiftsInjective(Shift(a), Shift(b), n - 1);
      ShiftInjective(a, b);
    }
  }

  lemma OctetsOfHalves(c: bv16)
    ensures Join(LowOctet(c) as bv16, HighOctet(c) as bv16) == c
  {
  }

  lemma PairOfHalves(c: bv16)
    ensures Pair(Low(c), High(c)) == c
  {
    hide Join, LowOctet, HighOctet;
    OctetAsByte(LowOctet(c));
    OctetAsByte(HighOctet(c));
    OctetsOfHalves(c);
  }

  /** Verification accepts exactly the frames of residue zero and length four or more. */
  lemma VerifyIsResidueZero(frame: seq<byte>)
    ensures VerifyCrc(frame) <==> |frame| >= 4 && Crc(INITIAL, frame) == 0
  {
    hide Pair, Crc;
    if |frame| >= 4 {
      var n := |frame|;
      CrcConcat(INITIAL, frame[..n - 2], frame[n - 2..]);
      assert frame == frame[..n - 2] + frame[n - 2..];
      assert frame[n - 2..] == [frame[n - 2], frame[n - 1]];
      ResidueOfTwoBytes(Crc(INITIAL, frame[..n - 2]), frame[n - 2], frame[n - 1]);
    }
  }

  /** A frame with its checksum appended has residue zero, and is accepted when it
      carries at least two bytes. */
  lemma AppendedCrcVerifies(frame: seq<byte>)
    ensures Crc(INITIAL, AppendCrc(frame)) == 0
    ensures |frame| >= 2 ==> VerifyCrc(AppendCrc(frame))
  {
    var crc := Crc(INITIAL, frame);
    CrcConcat(INITIAL, frame, [Low(crc), High(crc)]);
    PairOfHalves(crc);
    ResidueOfTwoBytes(crc, Low(crc), High(crc));
    VerifyIsResidueZero(AppendCrc(frame));
  }

  lemma JoinDetermined(x: bv8, y: bv8, u: bv8, v: bv8)
    requires Join(x as bv16, y as bv16) == Join(u as bv16, v as bv16)
    ensures x == u && y == v
  {
  }

  lemma HalvesDetermined(c: bv16, lo: byte, hi: byte)
    requires Pair(lo, hi) == c
    ensures lo == Low(c) && hi == High(c)
  {
    hide Join, LowOctet, HighOctet;
    OctetsOfHalves(c);
    JoinDetermined(Octet(lo), Octet(hi), LowOctet(c), HighOctet(c));
    ByteAsOctet(lo);
    ByteAsOctet(hi);
  }

  /** Verification accepts nothing but frames with their own checksum appended. */
  lemma VerifiedIsAppended(frame: seq<byte>)
    requires VerifyCrc(frame)
    ensures frame == AppendCrc(frame[..|frame| - 2])
  {
    hide Pair, Low, High, Crc;
    var n := |frame|;
    HalvesDetermined(Crc(INITIAL, frame[..n - 2]), frame[n - 2], frame[n - 1]);
    assert frame == frame[..n - 2] + [frame[n - 2], frame[n - 1]];
  }

  // ----- the same checksum, one transmitted bit at a time

  function Bit(b: bool): bv16 {
    if b then 1 else 0
  }

  function BitStep(c: bv16, b: bool): bv16 {
    Shift(Xor(c, Bit(b)))
  }

  function CrcBits(c: bv16, bits: seq<bool>): bv16
    decreases bits
  {
    if bits == [] then c else CrcBits(BitStep(c, bits[0]), bits[1..])
  }

  predicate Odd(y: bv16) {
    y & 1 == 1
  }

  function Half(y: bv16): bv16 {
    y >> 1
  }

  function Twice(y: bv16): bv16 {
    y << 1
  }

  /** The n low bits of y, least significant first: the order on the wire. */
  function WireBits(y: bv16, n: nat): (bits: seq<bool>)
    ensures |bits| == n
  {
    if n == 0 then [] else [Odd(y)] + WireBits(Half(y), n - 1)
  }

  function FrameBits(frame: seq<byte>): (bits: seq<bool>)
    ensures |bits| == 8 * |frame|
  {
    if frame == [] then [] else WireBits(Wide(frame[0]), 8) + FrameBits(frame[1..])
  }

  /** MASKS[n] covers the bits from position n up. */
  const MASKS: seq<bv16> := [
    0xFFFF, 0xFFFE, 0xFFFC, 0xFFF8, 0xFFF0, 0xFFE0, 0xFFC0, 0xFF80, 0xFF00,
    0xFE00, 0xFC00, 0xF800, 0xF000, 0xE000, 0xC000, 0x8000, 0x0000]

  lemma MaskStep(n: nat)
    requires n < 16
    ensures MASKS[n + 1] == Twice(MASKS[n]) && MASKS[n] & 0x8000 != 0
  {
  }

  lemma LowBitAndRest(y: bv16)
    ensures y == Xor(Bit(Odd(y)), Twice(Half(y)))
  {
  }

  lemma SplitLowBit(c: bv16, y: bv16)
    ensures Xor(c, y) == Xor(Xor(c, Bit(Odd(y))), Twice(Half(y)))
  {
    hide Xor, Bit, Odd, Twice, Half;
    LowBitAndRest(y);
    XorAssociative(c, Bit(Odd(y)), Twice(Half(y)));
  }

  lemma TwiceHalfShifts(y: bv16)
    ensures Shift(Twice(Half(y))) == Half(y)
  {
  }

  lemma MaskedHalf(y: bv16, m: bv16)
    requires y & Twice(m) == 0 && m & 0x8000 != 0
    ensures Half(y) & m == 0
  {
  }

  lemma XorNothing(c: bv16)
    ensures Xor(c, 0) == c
  {
  }

  predicate Fits(y: bv16, n: nat)
    requires n <= 16
  {
    y & MASKS[n] == 0
  }

  lemma HalfFits(y: bv16, n: nat)
    requires n < 16 && Fits(y, n + 1)
    ensures Fits(Half(y), n)
  {
    hide Half, Twice;
    MaskStep(n);
    MaskedHalf(y, MASKS[n]);
  }

  lemma FitsNothing(y: bv16)
    requires Fits(y, 0)
    ensures y == 0
  {
  }

  /** Adding a whole byte and shifting is the same as adding its bits one by one. */
  lemma {:induction false} SerialByte(c: bv16, y: bv16, n: nat)
    requires n <= 8 && Fits(y, n)
    ensures Shifts(Xor(c, y), n) == CrcBits(c, WireBits(y, n))
    decreases n
  {
    hide Xor, Shift, Odd, Half, Twice, Bit, Fits;
    if n == 0 {
      FitsNothing(y);
      XorNothing(c);
    } else {
      var bits := WireBits(y, n);
      HalfFits(y, n - 1);
      SerialByte(BitStep(c, Odd(y)), Half(y), n - 1);
      assert bits[0] == Odd(y) && bits[1..] == WireBits(Half(y), n - 1);
      SplitLowBit(c, y);
      TwiceHalfShifts(y);
      ShiftLinear(Xor(c, Bit(Odd(y))), Twice(Half(y)));
    }
  }

  lemma OctetIsSmall(x: bv8)
    ensures Fits(x as bv16, 8)
  {
    assert (x as bv16) & 0xFF00 == 0;
  }

  lemma ByteIsSmall(b: byte)
    ensures Fits(Wide(b), 8)
  {
    hide Fits;
    OctetIsSmall(Octet(b));
  }

  lemma {:induction false} CrcBitsConcat(c: bv16, a: seq<bool>, b: seq<bool>)
    ensures CrcBits(c, a + b) == CrcBits(CrcBits(c, a), b)
    decreases a
  {
    if a == [] {
      assert a + b == b;
    } else {
      CrcBitsConcat(BitStep(c, a[0]), a[1..], b);
      assert (a + b)[1..] == a[1..] + b;
    }
  }

  /** The byte-wise checksum is the bit-serial one. */
  lemma {:induction false} CrcIsBitSerial(c: bv16, frame: seq<byte>)
    ensures Crc(c, frame) == CrcBits(c, FrameBits(frame))
    decreases frame
  {
    if frame != [] {
      ByteIsSmall(frame[0]);
      SerialByte(c, Wide(frame[0]), 8);
      CrcIsBitSerial(ByteStep(c, frame[0]), frame[1..]);
      CrcBitsConcat(c, WireBits(Wide(frame[0]), 8), FrameBits(frame[1..]));
    }
  }

  // ----- error detection

  function XorBits(a: seq<bool>, b: seq<bool>): (e: seq<bool>)
    requires |a| == |b|
    ensures |e| == |a|
    ensures forall i :: 0 <= i < |e| ==> e[i] == (a[i] != b[i])
  {
    seq(|a|, i requires 0 <= i < |a| => a[i] != b[i])
  }

  lemma XorOfSteps(c: bv16, d: bv16, x: bool, y: bool)
    ensures Xor(BitStep(c, x), BitStep(d, y)) == BitStep(Xor(c, d), x != y)
  {
    hide Xor, Shift, Bit;
    ShiftLinear(Xor(c, Bit(x)), Xor(d, Bit(y)));
    XorInterchange(c, Bit(x), d, Bit(y));
    XorOfBits(x, y);
  }

  lemma XorOfBits(x: bool, y: bool)
    ensures Xor(Bit(x), Bit(y)) == Bit(x != y)
  {
  }

  /** The difference of two checksums is the checksum of the difference. */
  lemma {:induction false} CrcOfDifference(c: bv16, d: bv16, a: seq<bool>, b: seq<bool>)
    requires |a| == |b|
    ensures Xor(CrcBits(c, a), CrcBits(d, b)) == CrcBits(Xor(c, d), XorBits(a, b))
    decreases a
  {
    hide Xor, BitStep;
    if a != [] {
      XorOfSteps(c, d, a[0], b[0]);
      CrcOfDifference(BitStep(c, a[0]), BitStep(d, b[0]), a[1..], b[1..]);
      assert XorBits(a, b)[1..] == XorBits(a[1..], b[1..]);
    }
  }

  ghost predicate AllZero(bits: seq<bool>) {
    forall i :: 0 <= i < |bits| ==> !bits[i]
  }

  lemma {:induction false} ZeroBitsKeepZero(c: bv16, bits: seq<bool>)
    requires AllZero(bits)
    ensures CrcBits(c, bits) == 0 <==> c == 0
    decreases bits
  {
    if bits != [] {
      assert Xor(c, Bit(bits[0])) == c;
      assert Shift(0) == 0;
      if Shift(c) == 0 { ShiftInjective(c, 0); }
      ZeroBitsKeepZero(Shift(c), bits[1..]);
    }
  }

  lemma SmallAfterShift(c: bv16, b: bool, m: bv16)
    requires BitStep(c, b) & m == 0 && m & 0x8000 != 0
    ensures c & Twice(m) == 0
  {
  }

  /** A register that n bits can bring to zero has nothing from position n up. */
  lemma {:induction false} ReachingZero(c: bv16, bits: seq<bool>)
    requires |bits| <= 16 && CrcBits(c, bits) == 0
    ensures c & MASKS[|bits|] == 0
    decreases bits
  {
    if bits != [] {
      var n := |bits| - 1;
      ReachingZero(BitStep(c, bits[0]), bits[1..]);
      MaskStep(n);
      SmallAfterShift(c, bits[0], MASKS[n]);
    }
  }

  lemma FirstBitOfBurst(b: bool, m: bv16)
    requires BitStep(0, b) & m == 0 && m & 0x8000 != 0
    ensures !b && BitStep(0, b) == 0
  {
  }

  /** No burst of up to sixteen bits leaves the register at zero. */
  lemma {:induction false} BurstIsSeen(bits: seq<bool>)
    requires |bits| <= 16 && CrcBits(0, bits) == 0
    ensures AllZero(bits)
  {
    if bits != [] {
      var n := |bits| - 1;
      ReachingZero(BitStep(0, bits[0]), bits[1..]);
      MaskStep(n);
      FirstBitOfBurst(bits[0], MASKS[n]);
      BurstIsSeen(bits[1..]);
    }
  }

  /** The frames agree outside the sixteen transmitted bits that start at p. */
  ghost predicate DifferInBurst(f: seq<byte>, g: seq<byte>, p: nat) {
    && |f| == |g|
    && forall i :: 0 <= i < 8 * |f| && !(p <= i < p + 16) ==> FrameBits(f)[i] == FrameBits(g)[i]
  }

  lemma SameBitsSameByte(a: byte, b: byte)
    requires WireBits(Wide(a), 8) == WireBits(Wide(b), 8)
    ensures a == b
  {
    hide Xor, Shift, Shifts, Wide, WireBits, Fits;
    ByteIsSmall(a);
    ByteIsSmall(b);
    SerialByte(0, Wide(a), 8);
    SerialByte(0, Wide(b), 8);
    ShiftsInjective(Xor(0, Wide(a)), Xor(0, Wide(b)), 8);
    SameByte(a, b);
  }

  lemma SameByte(a: byte, b: byte)
    requires Xor(0, Wide(a)) == Xor(0, Wide(b))
    ensures a == b
  {
    hide Xor, Wide;
    XorCommutative(0, Wide(a));
    XorCommutative(0, Wide(b));
    XorCancel(Wide(a), Wide(b), 0);
    WideInjective(a, b);
  }

  lemma {:induction false} SameBitsSameFrame(f: seq<byte>, g: seq<byte>)
    requires FrameBits(f) == FrameBits(g)
    ensures f == g
  {
    if f != [] {
      var a, b := WireBits(Wide(f[0]), 8), WireBits(Wide(g[0]), 8);
      assert a == FrameBits(f)[..8] && b == FrameBits(g)[..8];
      SameBitsSameByte(f[0], g[0]);
      assert FrameBits(f)[8..] == FrameBits(f[1..]) && FrameBits(g)[8..] == FrameBits(g[1..]);
      SameBitsSameFrame(f[1..], g[1..]);
    }
  }

  /** An error pattern of one burst, other bits zero, shows in the checksum. */
  lemma BurstBetweenZeros(e: seq<bool>, lo: nat, hi: nat)
    requires lo <= hi <= |e| && hi <= lo + 16
    requires AllZero(e[..lo]) && AllZero(e[hi..])
    requires CrcBits(0, e) == 0
    ensures AllZero(e)
  {
    var middle := e[lo..hi];
    assert e == e[..lo] + (middle + e[hi..]);
    CrcBitsConcat(0, e[..lo], middle + e[hi..]);
    ZeroBitsKeepZero(0, e[..lo]);
    CrcBitsConcat(0, middle, e[hi..]);
    ZeroBitsKeepZero(CrcBits(0, middle), e[hi..]);
    BurstIsSeen(middle);
    forall i | 0 <= i < |e| ensures !e[i] {
      assert i < lo ==> e[i] == e[..lo][i];
      assert lo <= i < hi ==> e[i] == middle[i - lo];
      assert hi <= i ==> e[i] == e[hi..][i - hi];
    }
  }

  /** Sixteen-bit bursts are always detected, anywhere in a frame of any length. */
  lemma BurstDetected(f: seq<byte>, g: seq<byte>, p: nat)
    requires VerifyCrc(f) && f != g && DifferInBurst(f, g, p)
    ensures !VerifyCrc(g)
  {
    VerifyIsResidueZero(f);
    VerifyIsResidueZero(g);
    hide Xor, Crc, CrcBits;
    if VerifyCrc(g) {
      var a, b := FrameBits(f), FrameBits(g);
      CrcIsBitSerial(INITIAL, f);
      CrcIsBitSerial(INITIAL, g);
      CrcOfDifference(INITIAL, INITIAL, a, b);
      XorZero(INITIAL, INITIAL);
      XorZero(0, 0);
      var e := XorBits(a, b);
      var lo := if p <= |e| then p else |e|;
      var hi := if lo + 16 <= |e| then lo + 16 else |e|;
      BurstBetweenZeros(e, lo, hi);
      assert forall i :: 0 <= i < |a| ==> a[i] == b[i];
      SameBitsSameFrame(f, g);
    }
  }

  lemma {:induction false} FrameBitsSplit(a: seq<byte>, b: seq<byte>)
    ensures FrameBits(a + b) == FrameBits(a) + FrameBits(b)
  {
    hide WireBits, Octet, Wide;
    if a == [] {
      assert a + b == b;
    } else {
      FrameBitsSplit(a[1..], b);
      assert (a + b)[1..] == a[1..] + b && (a + b)[0] == a[0];
      var first := WireBits(Wide(a[0]), 8);
      assert first + (FrameBits(a[1..]) + FrameBits(b)) == (first + FrameBits(a[1..])) + FrameBits(b);
    }
  }

  lemma ChangeIsBurst(head: seq<byte>, x: seq<byte>, y: seq<byte>, tail: seq<byte>)
    requires |x| == |y| <= 2
    ensures DifferInBurst(head + x + tail, head + y + tail, 8 * |head|)
  {
    hide FrameBits;
    FrameBitsSplit(head + x, tail);
    FrameBitsSplit(head, x);
    FrameBitsSplit(head + y, tail);
    FrameBitsSplit(head, y);
  }

  /** In bytes: whatever two consecutive bytes of an accepted frame are replaced by,
      the changed frame is rejected. */
  lemma TwoByteChangeDetected(head: seq<byte>, x: seq<byte>, y: seq<byte>, tail: seq<byte>)
    requires |x| == |y| <= 2 && x != y
    requires VerifyCrc(head + x + tail)
    ensures !VerifyCrc(head + y + tail)
  {
    var f, g := head + x + tail, head + y + tail;
    ChangeIsBurst(head, x, y, tail);
    assert f[|head|..|head| + |x|] == x && g[|head|..|head| + |x|] == y;
    BurstDetected(f, g, 8 * |head|);
  }
}
