/**
 * Constants and parameter records of the ADP1055 header
 * (drivers/power/adp1050/adp1055.h): frame sizes, byte masks, OPERATION
 * values, the PEC polynomial, the pin-strapped PMBus addresses and the two
 * command sets (standard one-byte codes and the manufacturer-specific 0xFExx
 * extended codes).
 */
module Adp1055Defs {
  import I2c
  import Crc8

  /** Buffer lengths of the Write Byte, Read Byte and Send Byte frames, address byte and PEC slot included. */
  const WR_FRAME_SIZE: nat := 4
  const RD_FRAME_SIZE: nat := 5
  const SC_FRAME_SIZE: nat := 3

  /** Bit `i` of a 16-bit word. */
  predicate Bit(w: bv16, i: nat)
    requires i < 16
  {
    (w >> i) & 1 == 1
  }

  /** NO_OS_GENMASK(h, l): the 16-bit word whose bits l..h are set. */
  function GenMask(h: nat, l: nat): bv16
    requires l <= h < 16
  {
    (0xFFFF >> (15 - h)) & (0xFFFF << l)
  }

  const LSB_MASK: bv16 := GenMask(7, 0)
  const MSB_MASK: bv16 := GenMask(15, 8)

  /** Index of the lowest set bit of `mask` at or above `from` (16 when there is none). */
  function LowestSetBit(mask: bv16, from: nat): (i: nat)
    requires from <= 16
    ensures from <= i <= 16
    ensures i < 16 ==> Bit(mask, i)
    ensures forall j :: from <= j < i ==> !Bit(mask, j)
    decreases 16 - from
  {
    if from == 16 then 16
    else if Bit(mask, from) then from
    else LowestSetBit(mask, from + 1)
  }

  /** no_os_field_get: the bits of `word` selected by `mask`, shifted down to bit 0. */
  function FieldGet(mask: bv16, word: bv16): bv16 {
    (word & mask) >> LowestSetBit(mask, 0)
  }

  /**
   * The two masks cut a 16-bit value into two bytes, and shifting the high
   * byte back up and or-ing in the low byte restores the value.
   */
  lemma MasksSplitWord(v: bv16)
    ensures FieldGet(LSB_MASK, v) < 0x100 && FieldGet(MSB_MASK, v) < 0x100
    ensures (FieldGet(MSB_MASK, v) << 8) | FieldGet(LSB_MASK, v) == v
  {
    assert LSB_MASK == 0x00FF && MSB_MASK == 0xFF00;
    assert LowestSetBit(0x00FF, 0) == 0;
    assert LowestSetBit(0xFF00, 0) == 8;
  }

  /** Values written to the OPERATION command. */
  const OPERATION_ON: bv16 := 0x80
  const OPERATION_OFF: bv16 := 0x00
  const OPERATION_SOFT_OFF: bv16 := 0x40

  /** CRC8_PEC: x^8 + x^2 + x^1 + 1 without its x^8 term, the polynomial `Crc8` divides by. */
  const CRC8_PEC: bv8 := Crc8.POLY

  /** The eight addresses selectable with the address resistor (10 kOhm .. 150 kOhm). */
  const PMBUS_ADDRESSES: set<bv8> := {0x70, 0x71, 0x72, 0x73, 0x74, 0x75, 0x76, 0x77}

  /** Commands the driver itself issues. */
  const OPERATION: bv16 := 0x01
  const ON_OFF_CONFIG: bv16 := 0x02

  /**
   * ADP1055_EXTENDED_COMMAND: codes above it are manufacturer-specific
   * extended commands sent as two bytes. The header does not define it; its
   * value is chosen as the top of the one-byte command space.
   */
  const EXTENDED_COMMAND: bv16 := 0xFF

  /** Codes of the standard (one-byte) command set, listed in three parts. */
  const STANDARD_COMMANDS_1: set<bv16> := {
    0x01, 0x02, 0x03, 0x10, 0x12, 0x15, 0x16, 0x19, 0x1B, 0x20, 0x21, 0x22,
    0x23, 0x24, 0x25, 0x26, 0x27, 0x28, 0x29, 0x2A, 0x33, 0x35, 0x36, 0x37,
    0x38, 0x39, 0x40, 0x41, 0x42, 0x43, 0x44, 0x45, 0x46, 0x47, 0x48, 0x49,
    0x4A, 0x4B, 0x4C, 0x4F
  }
  const STANDARD_COMMANDS_2: set<bv16> := {
    0x50, 0x51, 0x55, 0x56, 0x59, 0x5A, 0x5B, 0x5C, 0x5E, 0x5F, 0x60, 0x61,
    0x62, 0x63, 0x64, 0x65, 0x66, 0x68, 0x69, 0x78, 0x79, 0x7A, 0x7B, 0x7C,
    0x7D, 0x7E, 0x7F, 0x80, 0x88, 0x89, 0x8B, 0x8C, 0x8D, 0x8E, 0x8F, 0x94,
    0x95, 0x96, 0x98, 0x99
  }
  const STANDARD_COMMANDS_3: set<bv16> := {
    0x9A, 0x9B, 0x9C, 0x9D, 0xAD, 0xAE, 0xB0, 0xB1, 0xB2, 0xB3, 0xB4, 0xB5,
    0xB6, 0xB7, 0xB8, 0xB9, 0xBA, 0xBB, 0xBC, 0xBD, 0xBE, 0xBF, 0xD1, 0xD2,
    0xD3, 0xD4, 0xD5, 0xD6, 0xD7, 0xD8, 0xD9, 0xF1, 0xF2, 0xF3, 0xF4, 0xF5,
    0xFA, 0xFB
  }
  const STANDARD_COMMANDS: set<bv16> := STANDARD_COMMANDS_1 + STANDARD_COMMANDS_2 + STANDARD_COMMANDS_3

  /** Codes of the manufacturer-specific extended command set, listed in three parts. */
  const EXTENDED_COMMANDS_1: set<bv16> := {
    0xFE00, 0xFE01, 0xFE02, 0xFE03, 0xFE04, 0xFE05, 0xFE06, 0xFE07, 0xFE08, 0xFE09,
    0xFE0A, 0xFE0B, 0xFE0C, 0xFE0D, 0xFE0E, 0xFE0F, 0xFE10, 0xFE11, 0xFE12, 0xFE13,
    0xFE14, 0xFE15, 0xFE16, 0xFE17, 0xFE18, 0xFE19, 0xFE1A, 0xFE1B, 0xFE1C, 0xFE1D,
    0xFE1E, 0xFE1F, 0xFE20, 0xFE21, 0xFE22, 0xFE23, 0xFE24, 0xFE25, 0xFE26, 0xFE27,
    0xFE28, 0xFE29, 0xFE2A, 0xFE2B
  }
  const EXTENDED_COMMANDS_2: set<bv16> := {
    0xFE2C, 0xFE2D, 0xFE2E, 0xFE2F, 0xFE30, 0xFE31, 0xFE32, 0xFE33, 0xFE34, 0xFE35,
    0xFE36, 0xFE37, 0xFE38, 0xFE39, 0xFE3A, 0xFE3B, 0xFE3C, 0xFE3D, 0xFE3E, 0xFE3F,
    0xFE40, 0xFE41, 0xFE42, 0xFE43, 0xFE44, 0xFE45, 0xFE46, 0xFE47, 0xFE48, 0xFE49,
    0xFE4A, 0xFE4B, 0xFE4C, 0xFE4D, 0xFE4E, 0xFE4F, 0xFE50, 0xFE51, 0xFE52, 0xFE53,
    0xFE55, 0xFE56, 0xFE57, 0xFE58
  }
  const EXTENDED_COMMANDS_3: set<bv16> := {
    0xFE59, 0xFE5A, 0xFE5B, 0xFE5C, 0xFE5D, 0xFE5E, 0xFE5F, 0xFE60, 0xFE61, 0xFE62,
    0xFE63, 0xFE64, 0xFE65, 0xFE66, 0xFE67, 0xFE80, 0xFE81, 0xFE82, 0xFE86, 0xFE87,
    0xFE88, 0xFE89, 0xFE8C, 0xFE8D, 0xFE8E, 0xFE8F, 0xFE90, 0xFE91, 0xFE92, 0xFE93,
    0xFE94, 0xFE95, 0xFE96, 0xFE97, 0xFE98, 0xFE99, 0xFE9A, 0xFE9C, 0xFE9D, 0xFE9F,
    0xFEA0, 0xFEA3
  }
  const EXTENDED_COMMANDS: set<bv16> := EXTENDED_COMMANDS_1 + EXTENDED_COMMANDS_2 + EXTENDED_COMMANDS_3

  /** Every code of `codes` lies in lo..hi. */
  predicate InRange(codes: set<bv16>, lo: bv16, hi: bv16) {
    forall c :: c in codes ==> lo <= c <= hi
  }

  lemma StandardPartsInRange()
    ensures InRange(STANDARD_COMMANDS_1, 0x01, 0xFB)
    ensures InRange(STANDARD_COMMANDS_2, 0x01, 0xFB)
    ensures InRange(STANDARD_COMMANDS_3, 0x01, 0xFB)
  {
    assert InRange(STANDARD_COMMANDS_1, 0x01, 0xFB);
    assert InRange(STANDARD_COMMANDS_2, 0x01, 0xFB);
  }

  lemma ExtendedPartsInRange()
    ensures InRange(EXTENDED_COMMANDS_1, 0xFE00, 0xFEA3)
    ensures InRange(EXTENDED_COMMANDS_2, 0xFE00, 0xFEA3)
    ensures InRange(EXTENDED_COMMANDS_3, 0xFE00, 0xFEA3)
  {
    assert InRange(EXTENDED_COMMANDS_1, 0xFE00, 0xFEA3);
    assert InRange(EXTENDED_COMMANDS_2, 0xFE00, 0xFEA3);
  }

  /**
   * Every standard code is at most 0xFB, every extended code lies in
   * 0xFE00..0xFEA3 (so its high byte is 0xFE), and the threshold separates
   * the two sets exactly.
   */
  lemma CommandSetsSeparated()
    ensures OPERATION in STANDARD_COMMANDS && ON_OFF_CONFIG in STANDARD_COMMANDS
    ensures forall c :: c in STANDARD_COMMANDS ==> c <= 0xFB && c <= EXTENDED_COMMAND
    ensures forall c :: c in EXTENDED_COMMANDS ==> 0xFE00 <= c <= 0xFEA3 && c > EXTENDED_COMMAND
    ensures forall c :: c in EXTENDED_COMMANDS ==> c >> 8 == 0xFE
  {
    StandardPartsInRange();
    ExtendedPartsInRange();
    assert OPERATION in STANDARD_COMMANDS_1 && ON_OFF_CONFIG in STANDARD_COMMANDS_1;
  }

  /** Every listed address is a 7-bit value, so the address byte and its read variant fit in one byte. */
  lemma AddressesAreSevenBit()
    ensures forall a :: a in PMBUS_ADDRESSES ==> 0x70 <= a <= 0x77 && (a as int) * 2 + 1 < 0x100
  {
  }

  /**
   * The header's polynomial constant is the CRC of the single byte 0x01:
   * `Crc8.CrcOfOneIsPolynomial` restated under the header's name `CRC8_PEC`.
   */
  lemma PolynomialMatchesCrc()
    ensures Crc8.Crc([0x01], 0) == CRC8_PEC
  {
    Crc8.CrcOfOneIsPolynomial();
  }

  /**
   * adp1055_init_param: the bus parameters and the PEC enable flag, plus the
   * ON_OFF_CONFIG value the init routine writes (see README).
   */
  datatype InitParam = InitParam(i2c: I2c.InitParam, pece: bool, onOffConfig: bv16)

  /** Negative error codes (errno values) returned by the driver. */
  const EIO: int := 5
  const ENOMEM: int := 12
  const ENODEV: int := 19
  const EINVAL: int := 22
}
