/**
 * Model of setHighTime of the PCA9685 servo driver (PCA9685/PCA9685_driver.c):
 * the on-count is clamped to one PWM period of 4096 counts, the off-count is
 * its complement, and both are split into two bytes each and written, in
 * order, to the four LEDn registers of the servo.
 *
 * The I2C bus is modelled as a log of the single-register writes the driver
 * asks wiringPiI2CWriteReg8 to perform. The low-byte mask is the C literal
 * 0000000011111111 exactly as written: a leading 0 makes it an octal
 * literal, so the byte written is not the low byte of the count.
 */
module Pca9685Driver {

  // ---------------------------------------------------------------------
  // Constants of the driver
  // ---------------------------------------------------------------------

  /** Counts in one PWM period of the PCA9685; the ceiling of an on-count. */
  const FULL_COUNT: bv16 := 4096
  /** Register of the first write for servo 0. The PCA9685 names 0x06
      LED0_ON_L (low byte of the on-count), yet setHighTime sends the high
      byte of the on-count there. */
  const FIRST_REGISTER: int := 0x06
  /** Registers per servo channel. */
  const REGISTERS_PER_SERVO: int := 4
  const INT32_MIN: int := -0x8000_0000
  const INT32_MAX: int := 0x7FFF_FFFF

  /** The digits of the low-byte mask as the source spells them. */
  const LOW_MASK_DIGITS: string := "0000000011111111"
  /** The value of that literal: C reads a leading 0 as "octal". */
  const LOW_MASK: bv32 := 0x249249

  // ---------------------------------------------------------------------
  // C integer literals and the uint8_t cast
  // ---------------------------------------------------------------------

  predicate OctalDigits(s: string)
  {
    forall i :: 0 <= i < |s| ==> '0' <= s[i] <= '7'
  }

  /** The value of the octal digits `s`, most significant first. */
  function OctalValue(s: string): (v: nat)
    requires OctalDigits(s)
    ensures v < Power8(|s|)
  {
    if s == [] then 0
    else
      var d := (s[|s| - 1] - '0') as nat;
      OctalValue(s[..|s| - 1]) * 8 + d
  }

  function Power8(n: nat): (p: nat)
    ensures p >= 1
  {
    if n == 0 then 1 else 8 * Power8(n - 1)
  }

  /** The mask literal denotes 0x249249, i.e. one set bit in every group of
      three: bits 0, 3, 6, 9, 12, 15, 18 and 21. */
  lemma LowMaskIsOctal()
    ensures OctalDigits(LOW_MASK_DIGITS)
    ensures OctalValue(LOW_MASK_DIGITS) == LOW_MASK as int
  {
    var s := LOW_MASK_DIGITS;
    assert s[..8] == "00000000";
    ZeroDigits(s[..8]);
    assert s[..9][..8] == s[..8];
    assert OctalValue(s[..9]) == 1;
    assert s[..10][..9] == s[..9];
    assert OctalValue(s[..10]) == 9;
    assert s[..11][..10] == s[..10];
    assert OctalValue(s[..11]) == 73;
    assert s[..12][..11] == s[..11];
    assert OctalValue(s[..12]) == 585;
    assert s[..13][..12] == s[..12];
    assert OctalValue(s[..13]) == 4681;
    assert s[..14][..13] == s[..13];
    assert OctalValue(s[..14]) == 37449;
    assert s[..15][..14] == s[..14];
    assert OctalValue(s[..15]) == 299593;
    assert s[..15] == s[..|s| - 1];
  }

  lemma {:induction false} ZeroDigits(s: string)
    requires forall i :: 0 <= i < |s| ==> s[i] == '0'
    ensures OctalDigits(s) && OctalValue(s) == 0
  {
    if s != [] {
      ZeroDigits(s[..|s| - 1]);
    }
  }

  /** The `(uint8_t)` cast of a non-negative C int: C converts to an
      unsigned type by reducing modulo 2^8, so the byte is the remainder of
      x by 256 and x is the quotient times 256 plus that byte. */
  function ToUint8(x: bv32): (b: bv8)
    ensures b as bv32 == x % 256
    ensures (x / 256) * 256 + b as bv32 == x
  {
    (x & 0xFF) as bv8
  }

  // ---------------------------------------------------------------------
  // The byte split of setHighTime
  // ---------------------------------------------------------------------

  /** One call of wiringPiI2CWriteReg8: device handle, register, data byte. */
  datatype RegWrite = RegWrite(fd: int, register: int, data: bv8)

  /** The on-count after `if(cycles_high > 4096) cycles_high = 4096;`. */
  function Clamped(cyclesHigh: bv16): (c: bv16)
    ensures c <= FULL_COUNT
    ensures cyclesHigh <= FULL_COUNT ==> c == cyclesHigh
    ensures cyclesHigh >= FULL_COUNT ==> c == FULL_COUNT
  {
    if cyclesHigh > FULL_COUNT then FULL_COUNT else cyclesHigh
  }

  /** `(uint8_t) (v >> 8)`. */
  function HighByte(v: bv16): bv8
  {
    ToUint8((v as bv32) >> 8)
  }

  /** `(uint8_t) (v & 0000000011111111)`. */
  function LowByte(v: bv16): bv8
  {
    ToUint8((v as bv32) & LOW_MASK)
  }

  /** The off-count `4096 - cycles_high` of the clamped on-count is again
      at most one period, and the two add up to exactly one period. */
  lemma ClampComplement(cyclesHigh: bv16)
    ensures var c := Clamped(cyclesHigh);
      FULL_COUNT - c <= FULL_COUNT && c as int + (FULL_COUNT - c) as int == 4096
  {
  }

  /** The four writes of setHighTime, as a function of the clamped on-count. */
  function HighTimeWrites(fd: int, servo: int, cyclesHigh: bv16): seq<RegWrite>
  {
    var c := Clamped(cyclesHigh);
    var lowtime := FULL_COUNT - c;
    var base := FIRST_REGISTER + servo * REGISTERS_PER_SERVO;
    [RegWrite(fd, base, HighByte(c)), RegWrite(fd, base + 1, LowByte(c)),
     RegWrite(fd, base + 2, HighByte(lowtime)), RegWrite(fd, base + 3, LowByte(lowtime))]
  }

  /** The octal mask keeps bits 0, 3 and 6 of the low byte and nothing else. */
  lemma LowByteMask(v: bv16)
    ensures LowByte(v) == (v & 0x49) as bv8
    ensures LowByte(v) as bv16 == v & 0x49
  {
  }

  /** Reading a count back from its two bytes as a 16-bit register pair
      gives the count exactly when the mask lost none of its bits: the on-
      and off-counts only survive the split when no bit of 0xB6 is set. */
  lemma ByteSplitRoundTrip(v: bv16)
    requires v <= FULL_COUNT
    ensures HighByte(v) <= 16
    ensures ((HighByte(v) as bv16) << 8) | (LowByte(v) as bv16) == v <==> v & 0xB6 == 0
  {
  }

  /** What setHighTime promises about its four writes: consecutive
      registers of the servo, high byte first, the on-count then the
      off-count, which add up to one full period. */
  lemma HighTimeWritesShape(fd: int, servo: int, cyclesHigh: bv16)
    ensures var w := HighTimeWrites(fd, servo, cyclesHigh);
      |w| == 4
      && (forall k :: 0 <= k < 4 ==> w[k].fd == fd && w[k].register == FIRST_REGISTER + REGISTERS_PER_SERVO * servo + k)
      && var c := Clamped(cyclesHigh);
      w[0].data == HighByte(c) && w[1].data as bv16 == c & 0x49
      && w[2].data == HighByte(FULL_COUNT - c) && w[3].data as bv16 == (FULL_COUNT - c) & 0x49
      && w[0].data <= 16 && w[2].data <= 16
  {
    var c := Clamped(cyclesHigh);
    LowByteMask(c);
    LowByteMask(FULL_COUNT - c);
    ByteSplitRoundTrip(c);
    ByteSplitRoundTrip(FULL_COUNT - c);
  }

  /** Distinct servos write disjoint register ranges. */
  lemma ServoRegistersDisjoint(fd: int, servo: int, servo': int, c: bv16, c': bv16)
    requires servo != servo'
    ensures forall w, w' ::
              w in HighTimeWrites(fd, servo, c) && w' in HighTimeWrites(fd, servo', c') ==> w.register != w'.register
  {
    HighTimeWritesShape(fd, servo, c);
    HighTimeWritesShape(fd, servo', c');
    forall w, w' | w in HighTimeWrites(fd, servo, c) && w' in HighTimeWrites(fd, servo', c')
      ensures w.register != w'.register
    {
      var k :| 0 <= k < 4 && HighTimeWrites(fd, servo, c)[k] == w;
      var k' :| 0 <= k' < 4 && HighTimeWrites(fd, servo', c')[k'] == w';
      if servo < servo' {
        assert REGISTERS_PER_SERVO * servo + 4 <= REGISTERS_PER_SERVO * servo';
      } else {
        assert REGISTERS_PER_SERVO * servo' + 4 <= REGISTERS_PER_SERVO * servo;
      }
    }
  }

  /** The example in main, `setHighTime(0, 4096/3)`: the on-count 1365 is
      0x555 but its low register receives 0x41, and the off-count 2731 is
      0xAAB but its low register receives 0x09. */
  lemma MainExampleWrites(fd: int)
    ensures HighTimeWrites(fd, 0, 4096 / 3)
      == [RegWrite(fd, 6, 0x05), RegWrite(fd, 7, 0x41), RegWrite(fd, 8, 0x0A), RegWrite(fd, 9, 0x09)]
  {
    assert Clamped(1365) == 1365;
    assert FULL_COUNT - 1365 == 2731;
    assert HighByte(1365) == 0x05 && LowByte(1365) == 0x41;
    assert HighByte(2731) == 0x0A && LowByte(2731) == 0x09;
  }

  // ---------------------------------------------------------------------
  // The driver state: the device handle, the global lowtime, the bus log
  // ---------------------------------------------------------------------

  class Driver {
    /** PCA9685_fh: the handle wiringPiI2CSetup returned. */
    const fh: int
    /** The global lowtime, last set by setHighTime. */
    var lowtime: bv16
    /** Every wiringPiI2CWriteReg8 call so far, in order. */
    var writes: seq<RegWrite>

    constructor (fh: int)
      ensures this.fh == fh && lowtime == 0 && writes == []
    {
      this.fh := fh;
      lowtime := 0;
      writes := [];
    }

    /** wiringPiI2CWriteReg8(PCA9685_fh, register, data). */
    method WriteReg8(register: int, data: bv8)
      modifies this
      ensures writes == old(writes) + [RegWrite(fh, register, data)]
      ensures lowtime == old(lowtime)
    {
      writes := writes + [RegWrite(fh, register, data)];
    }

    /** The four register writes closing setHighTime: the on-count
        `cycles` and the off-count held in lowtime, high byte first. */
    method WriteCounts(servo: int, cycles: bv16)
      requires INT32_MIN <= servo * REGISTERS_PER_SERVO
      requires INT32_MIN <= FIRST_REGISTER + servo * REGISTERS_PER_SERVO
      requires FIRST_REGISTER + 3 + servo * REGISTERS_PER_SERVO <= INT32_MAX
      modifies this
      ensures lowtime == old(lowtime)
      ensures var base := FIRST_REGISTER + servo * REGISTERS_PER_SERVO;
        writes == old(writes) + [RegWrite(fh, base, HighByte(cycles)), RegWrite(fh, base + 1, LowByte(cycles)),
                                 RegWrite(fh, base + 2, HighByte(lowtime)), RegWrite(fh, base + 3, LowByte(lowtime))]
    {
      var base := FIRST_REGISTER + servo * REGISTERS_PER_SERVO;
      WriteReg8(base, HighByte(cycles));
      WriteReg8(base + 1, LowByte(cycles));
      WriteReg8(base + 2, HighByte(lowtime));
      WriteReg8(base + 3, LowByte(lowtime));
    }

    /** setHighTime(servo, cycles_high). The register arithmetic is C int
        arithmetic, so the caller must keep it inside the int range. */
    method SetHighTime(servo: int, cyclesHigh: bv16)
      requires INT32_MIN <= servo * REGISTERS_PER_SERVO
      requires INT32_MIN <= FIRST_REGISTER + servo * REGISTERS_PER_SERVO
      requires FIRST_REGISTER + 3 + servo * REGISTERS_PER_SERVO <= INT32_MAX
      modifies this
      ensures lowtime == FULL_COUNT - Clamped(cyclesHigh)
      ensures writes == old(writes) + HighTimeWrites(fh, servo, cyclesHigh)
    {
      var cycles := cyclesHigh;
      if cycles > FULL_COUNT {
        cycles := FULL_COUNT;
      }
      lowtime := FULL_COUNT - cycles;
      WriteCounts(servo, cycles);
    }
  }
}
