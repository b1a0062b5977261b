/**
 * CRC-8 as used for the SMBus / PMBus Packet Error Check (PEC): polynomial
 * x^8 + x^2 + x^1 + 1 (0x07), most significant bit first, no reflection and no
 * final XOR. The driver hands `no_os_crc8` a lookup table and a seed; the model
 * states the same computation bit by bit.
 */
module Crc8 {

  /** The generator polynomial without its x^8 term (CRC8_PEC). */
  const POLY: bv8 := 0x07

  /** One bit of the division: shift left, subtract the polynomial when a 1 falls out. */
  function BitStep(c: bv8): bv8 {
    if c & 0x80 != 0 then (c << 1) ^ POLY else c << 1
  }

  /** `n` bit steps. */
  function Shift(c: bv8, n: nat): bv8
    decreases n
  {
    if n == 0 then c else Shift(BitStep(c), n - 1)
  }

  /** One byte of the division: the entry the lookup table holds for index `c`. */
  function ByteStep(c: bv8): bv8 {
    Shift(c, 8)
  }

  /** CRC-8 of `data`, starting from the register value `crc` (the seed). */
  function Crc(data: seq<bv8>, crc: bv8): bv8 {
    if |data| == 0 then crc else Crc(data[1..], ByteStep(crc ^ data[0]))
  }

  /** The register after one more byte: the CRC of a concatenation is computed piecewise. */
  lemma {:induction false} CrcAppend(a: seq<bv8>, b: seq<bv8>, crc: bv8)
    ensures Crc(a + b, crc) == Crc(b, Crc(a, crc))
  {
    if |a| == 0 {
      assert a + b == b;
    } else {
      assert (a + b)[1..] == a[1..] + b;
      CrcAppend(a[1..], b, ByteStep(crc ^ a[0]));
    }
  }

  lemma CrcSnoc(a: seq<bv8>, x: bv8, crc: bv8)
    ensures Crc(a + [x], crc) == ByteStep(Crc(a, crc) ^ x)
  {
    CrcAppend(a, [x], crc);
  }

  /**
   * Appending the CRC of a message to the message drives the register to
   * zero: a receiver may check a frame either by recomputing its PEC or by
   * running the CRC over the whole frame, PEC included.
   */
  lemma CrcResidue(a: seq<bv8>, crc: bv8)
    ensures Crc(a + [Crc(a, crc)], crc) == 0
  {
    CrcSnoc(a, Crc(a, crc), crc);
    assert ByteStep(0) == 0;
  }

  lemma BitStepInjective(x: bv8, y: bv8)
    ensures BitStep(x) == BitStep(y) ==> x == y
  {
  }

  lemma {:induction false} ShiftInjective(x: bv8, y: bv8, n: nat)
    ensures Shift(x, n) == Shift(y, n) ==> x == y
    decreases n
  {
    if n > 0 {
      ShiftInjective(BitStep(x), BitStep(y), n - 1);
      BitStepInjective(x, y);
    }
  }

  /** The 256-entry table is a permutation: distinct indices give distinct entries. */
  lemma ByteStepInjective(x: bv8, y: bv8)
    ensures ByteStep(x) == ByteStep(y) ==> x == y
  {
    ShiftInjective(x, y, 8);
  }

  /** Two different register values never meet again, whatever bytes follow. */
  lemma {:induction false} CrcSeedInjective(q: seq<bv8>, s1: bv8, s2: bv8)
    ensures Crc(q, s1) == Crc(q, s2) ==> s1 == s2
  {
    if |q| > 0 {
      CrcSeedInjective(q[1..], ByteStep(s1 ^ q[0]), ByteStep(s2 ^ q[0]));
      ByteStepInjective(s1 ^ q[0], s2 ^ q[0]);
    }
  }

  /**
   * Error detection: changing any one byte of the input (in particular
   * flipping any single bit) changes the CRC.
   */
  lemma CrcDetectsByteError(p: seq<bv8>, x: bv8, q: seq<bv8>, crc: bv8, e: bv8)
    requires e != 0
    ensures Crc(p + [x ^ e] + q, crc) != Crc(p + [x] + q, crc)
  {
    assert p + [x ^ e] + q == p + ([x ^ e] + q);
    assert p + [x] + q == p + ([x] + q);
    CrcAppend(p, [x ^ e] + q, crc);
    CrcAppend(p, [x] + q, crc);
    CrcFirstByteError(x, q, Crc(p, crc), e);
  }

  /** The same, for a byte picked by its index. */
  lemma CrcDetectsUpdate(a: seq<bv8>, crc: bv8, k: nat, e: bv8)
    requires k < |a| && e != 0
    ensures Crc(a[k := a[k] ^ e], crc) != Crc(a, crc)
  {
    var p, x, q := a[..k], a[k], a[k + 1..];
    assert a == p + [x] + q;
    assert a[k := x ^ e] == p + [x ^ e] + q;
    CrcDetectsByteError(p, x, q, crc, e);
  }

  /** The same, for a byte of a message that follows a header byte. */
  lemma CrcDetectsTail(h: bv8, a: seq<bv8>, crc: bv8, k: nat, e: bv8)
    requires k < |a| && e != 0
    ensures Crc([h] + a[k := a[k] ^ e], crc) != Crc([h] + a, crc)
  {
    var p, x, q := [h] + a[..k], a[k], a[k + 1..];
    assert [h] + a == p + [x] + q;
    assert [h] + a[k := x ^ e] == p + [x ^ e] + q;
    CrcDetectsByteError(p, x, q, crc, e);
  }

  /** The last byte of a message is determined by the CRC. */
  lemma CrcLastByteInjective(p: seq<bv8>, x: bv8, y: bv8, crc: bv8)
    requires x != y
    ensures Crc(p + [x], crc) != Crc(p + [y], crc)
  {
    assert p + [x] == p + [x] + [] && p + [y] == p + [x ^ (x ^ y)] + [];
    CrcDetectsByteError(p, x, [], crc, x ^ y);
  }

  lemma CrcFirstByteError(x: bv8, q: seq<bv8>, crc: bv8, e: bv8)
    requires e != 0
    ensures Crc([x ^ e] + q, crc) != Crc([x] + q, crc)
  {
    CrcCons(x, q, crc);
    CrcCons(x ^ e, q, crc);
    var s1, s2 := crc ^ x, crc ^ (x ^ e);
    assert s1 != s2;
    ByteStepInjective(s1, s2);
    CrcSeedInjective(q, ByteStep(s1), ByteStep(s2));
  }

  lemma CrcCons(x: bv8, q: seq<bv8>, crc: bv8)
    ensures Crc([x] + q, crc) == Crc(q, ByteStep(crc ^ x))
  {
    assert ([x] + q)[1..] == q;
  }

  /** The polynomial is the CRC of the single byte 0x01 (seed 0). */
  lemma CrcOfOneIsPolynomial()
    ensures Crc([0x01], 0) == POLY
  {
    assert ByteStep(0x01) == 0x07;
  }

  /**
   * Published CRC-8/SMBUS vectors: the check value 0xF4 for the ASCII string
   * "123456789", and 0x00 for the single zero byte.
   */
  lemma CrcCheckValues()
    ensures Crc([0x31, 0x32, 0x33, 0x34, 0x35, 0x36, 0x37, 0x38, 0x39], 0) == 0xF4
    ensures Crc([0x00], 0) == 0x00
  {
    CrcCons(0x31, [0x32, 0x33, 0x34, 0x35, 0x36, 0x37, 0x38, 0x39], 0x00);
    assert ByteStep(0x00 ^ 0x31) == 0x97;
    CrcCons(0x32, [0x33, 0x34, 0x35, 0x36, 0x37, 0x38, 0x39], 0x97);
    assert ByteStep(0x97 ^ 0x32) == 0x72;
    CrcCons(0x33, [0x34, 0x35, 0x36, 0x37, 0x38, 0x39], 0x72);
    assert ByteStep(0x72 ^ 0x33) == 0xC0;
    CrcCons(0x34, [0x35, 0x36, 0x37, 0x38, 0x39], 0xC0);
    assert ByteStep(0xC0 ^ 0x34) == 0xC2;
    CrcCons(0x35, [0x36, 0x37, 0x38, 0x39], 0xC2);
    assert ByteStep(0xC2 ^ 0x35) == 0xCB;
    CrcCons(0x36, [0x37, 0x38, 0x39], 0xCB);
    assert ByteStep(0xCB ^ 0x36) == 0xFD;
    CrcCons(0x37, [0x38, 0x39], 0xFD);
    assert ByteStep(0xFD ^ 0x37) == 0x78;
    CrcCons(0x38, [0x39], 0x78);
    assert ByteStep(0x78 ^ 0x38) == 0xC7;
    CrcCons(0x39, [], 0xC7);
    assert ByteStep(0xC7 ^ 0x39) == 0xF4;
    CrcCons(0x00, [], 0x00);
    assert ByteStep(0) == 0;
  }
}
