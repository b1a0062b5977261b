/**
 * The bytes the ADP1055 driver puts on the bus, as functions of the command,
 * the data and the PEC flag, together with what a receiver does with them:
 * check the PEC and decode the command and data. The driver methods in
 * module Adp1055 are proved to emit exactly these frames.
 *
 * A frame is the payload handed to the bus (command byte or bytes, data
 * bytes, then the PEC byte when PEC is enabled). The address byte
 * `addr << 1` is not part of it: the bus sends the address itself, but the
 * PEC still covers it, as SMBus Packet Error Checking requires.
 */
module Frames {
  import Crc8
  import opened Adp1055Defs

  datatype Option<T> = None | Some(value: T)

  /** no_os_field_get(ADP1055_LSB_MASK, v), stored in a byte. */
  function Lsb(v: bv16): bv8 {
    MasksSplitWord(v);
    FieldGet(LSB_MASK, v) as bv8
  }

  /** no_os_field_get(ADP1055_MSB_MASK, v), stored in a byte. */
  function Msb(v: bv16): bv8 {
    MasksSplitWord(v);
    FieldGet(MSB_MASK, v) as bv8
  }

  /** The 16-bit value with high byte `hi` and low byte `lo`; the masks take it apart again. */
  function Join(hi: bv8, lo: bv8): (v: bv16)
    ensures Msb(v) == hi && Lsb(v) == lo
  {
    MasksSplitWord((hi as bv16 << 8) | lo as bv16);
    (hi as bv16 << 8) | lo as bv16
  }

  /** Splitting a value with the two masks and joining the bytes gives the value back. */
  lemma JoinSplit(v: bv16)
    ensures Join(Msb(v), Lsb(v)) == v
  {
    MasksSplitWord(v);
  }

  /** The address byte of a write transfer: `slave_address << 1`, truncated to a byte. */
  function AddrW(addr: bv8): bv8 {
    addr << 1
  }

  /** The address byte of a read transfer: `(slave_address << 1) | 1`. */
  function AddrR(addr: bv8): bv8 {
    (addr << 1) | 1
  }

  /**
   * For a 7-bit address nothing is lost by the shift: both address bytes
   * carry the address in bits 7..1 and the direction in bit 0.
   */
  lemma AddressBytes(addr: bv8)
    requires addr < 0x80
    ensures AddrW(addr) >> 1 == addr && AddrW(addr) & 1 == 0
    ensures AddrR(addr) >> 1 == addr && AddrR(addr) & 1 == 1
    ensures AddrW(addr) as int == 2 * addr as int
  {
  }

  /** Commands above the threshold are extended (two-byte) commands. */
  predicate IsExtended(command: bv16) {
    command > EXTENDED_COMMAND
  }

  /** The command on the wire: high byte then low byte when extended, else the low byte. */
  function CommandBytes(command: bv16): (r: seq<bv8>)
    ensures |r| == if IsExtended(command) then 2 else 1
  {
    if IsExtended(command) then [Msb(command), Lsb(command)] else [Lsb(command)]
  }

  /** The data on the wire: low byte, then the high byte when more than one byte is asked for. */
  function DataBytes(data: bv16, byteNum: bv8): (r: seq<bv8>)
    ensures |r| == if byteNum > 1 then 2 else 1
  {
    if byteNum > 1 then [Lsb(data), Msb(data)] else [Lsb(data)]
  }

  /** The PEC of a payload: CRC-8 with seed 0 over the address byte and the payload. */
  function Pec(addrW: bv8, payload: seq<bv8>): bv8 {
    Crc8.Crc([addrW] + payload, 0)
  }

  /** The payload followed by its PEC when PEC is enabled. */
  function WithPec(addrW: bv8, payload: seq<bv8>, pece: bool): (r: seq<bv8>)
    ensures |r| == |payload| + (if pece then 1 else 0)
    ensures r[..|payload|] == payload
  {
    if pece then payload + [Pec(addrW, payload)] else payload
  }

  /**
   * What a receiver does with a frame: with PEC enabled, strip the last
   * byte and accept the rest only if that byte is its PEC.
   */
  function CheckPec(addrW: bv8, wire: seq<bv8>, pece: bool): (r: Option<seq<bv8>>)
    ensures !pece ==> r == Some(wire)
    ensures pece && r.Some? ==> |wire| > 0 && wire == r.value + [Pec(addrW, r.value)]
  {
    if !pece then Some(wire)
    else if |wire| == 0 then None
    else if wire[|wire| - 1] == Pec(addrW, wire[..|wire| - 1]) then Some(wire[..|wire| - 1])
    else None
  }

  /** A frame built with its PEC always passes the check and yields its payload. */
  lemma PecRoundTrip(addrW: bv8, payload: seq<bv8>, pece: bool)
    ensures CheckPec(addrW, WithPec(addrW, payload, pece), pece) == Some(payload)
  {
    if pece {
      var w := WithPec(addrW, payload, pece);
      assert w[..|w| - 1] == payload;
    }
  }

  /**
   * Changing any one byte of a PEC-protected frame (any single-bit error
   * included), the PEC byte itself or a payload byte, makes the check fail.
   */
  lemma PecRejectsCorruption(addrW: bv8, payload: seq<bv8>, k: nat, e: bv8)
    requires k <= |payload| && e != 0
    ensures CheckPec(addrW, WithPec(addrW, payload, true)[k := WithPec(addrW, payload, true)[k] ^ e], true) == None
  {
    var w := WithPec(addrW, payload, true);
    if k < |payload| {
      PayloadCorruptionRejected(addrW, payload, k, e, w);
    } else {
      PecCorruptionRejected(addrW, payload, e, w);
    }
  }

  lemma PayloadCorruptionRejected(addrW: bv8, payload: seq<bv8>, k: nat, e: bv8, w: seq<bv8>)
    requires k < |payload| && e != 0 && w == WithPec(addrW, payload, true)
    ensures CheckPec(addrW, w[k := w[k] ^ e], true) == None
  {
    var pec := Pec(addrW, payload);
    assert w == payload + [pec];
    var payload' := payload[k := payload[k] ^ e];
    assert w[k := w[k] ^ e] == payload' + [pec];
    PecDetectsPayloadError(addrW, payload, k, e);
    CheckPecRejects(addrW, payload', pec);
  }

  lemma PecCorruptionRejected(addrW: bv8, payload: seq<bv8>, e: bv8, w: seq<bv8>)
    requires e != 0 && w == WithPec(addrW, payload, true)
    ensures CheckPec(addrW, w[|payload| := w[|payload|] ^ e], true) == None
  {
    var pec := Pec(addrW, payload);
    assert w == payload + [pec];
    assert w[|payload| := w[|payload|] ^ e] == payload + [pec ^ e];
    XorChanges(pec, e);
    CheckPecRejects(addrW, payload, pec ^ e);
  }

  lemma XorChanges(x: bv8, e: bv8)
    requires e != 0
    ensures x ^ e != x
  {
  }

  /** A frame whose last byte is not the PEC of the rest is rejected. */
  lemma CheckPecRejects(addrW: bv8, payload: seq<bv8>, pec: bv8)
    requires pec != Pec(addrW, payload)
    ensures CheckPec(addrW, payload + [pec], true) == None
  {
    assert (payload + [pec])[..|payload|] == payload;
  }

  lemma PecDetectsPayloadError(addrW: bv8, payload: seq<bv8>, k: nat, e: bv8)
    requires k < |payload| && e != 0
    ensures Pec(addrW, payload[k := payload[k] ^ e]) != Pec(addrW, payload)
  {
    Crc8.CrcDetectsTail(addrW, payload, 0, k, e);
  }

  /** adp1055_send_command: the command's low byte, then the PEC when enabled. */
  function SendCommandFrame(addr: bv8, command: bv16, pece: bool): (r: seq<bv8>)
    ensures pece ==> |r| + 1 == SC_FRAME_SIZE
    ensures !pece ==> |r| == 1
  {
    WithPec(AddrW(addr), [Lsb(command)], pece)
  }

  /** A standalone command reaches the device intact: the PEC check passes and yields the command byte. */
  lemma SendCommandRoundTrip(addr: bv8, command: bv16, pece: bool)
    ensures CheckPec(AddrW(addr), SendCommandFrame(addr, command, pece), pece) == Some([Lsb(command)])
  {
    PecRoundTrip(AddrW(addr), [Lsb(command)], pece);
  }

  /**
   * adp1055_send_command as its text stands hands the bus the buffer from
   * index 0 with length 1: the address byte goes out as the payload and the
   * command never does, so two different commands give the same transfer.
   */
  function SendCommandAsWrittenFrame(addr: bv8, command: bv16): (r: seq<bv8>)
    ensures |r| == 1 && r[0] == AddrW(addr)
  {
    [AddrW(addr), Lsb(command), 0][..1]
  }

  lemma SendCommandAsWrittenLosesCommand(addr: bv8)
    ensures SendCommandAsWrittenFrame(addr, OPERATION) == SendCommandAsWrittenFrame(addr, ON_OFF_CONFIG)
    ensures SendCommandFrame(addr, OPERATION, false) != SendCommandFrame(addr, ON_OFF_CONFIG, false)
  {
    assert Lsb(OPERATION) == 0x01 && Lsb(ON_OFF_CONFIG) == 0x02 by {
      MasksSplitWord(OPERATION);
      MasksSplitWord(ON_OFF_CONFIG);
    }
  }

  /** The three-argument adp1055_write (SMBus Write Byte): command low byte, data low byte, PEC. */
  function WriteByteFrame(addr: bv8, command: bv16, data: bv16, pece: bool): (r: seq<bv8>)
    ensures pece ==> |r| + 1 == WR_FRAME_SIZE
    ensures !pece ==> |r| == 2
  {
    WithPec(AddrW(addr), [Lsb(command), Lsb(data)], pece)
  }

  /** Command bytes followed by data bytes. */
  function WriteNPayload(command: bv16, data: bv16, byteNum: bv8): seq<bv8> {
    CommandBytes(command) + DataBytes(data, byteNum)
  }

  /**
   * The four-argument adp1055_write (SMBus Write Byte / Write Word, with a
   * one- or two-byte command). The length depends only on the command class,
   * the byte count and the PEC flag.
   */
  function WriteNFrame(addr: bv8, command: bv16, data: bv16, byteNum: bv8, pece: bool): (r: seq<bv8>)
    ensures |r| == (if IsExtended(command) then 2 else 1) + (if byteNum > 1 then 2 else 1) + (if pece then 1 else 0)
  {
    WithPec(AddrW(addr), WriteNPayload(command, data, byteNum), pece)
  }

  /** The legacy three-argument write is the four-argument write of one data byte to a standard command. */
  lemma WriteByteIsStandardWriteN(addr: bv8, command: bv16, data: bv16, pece: bool)
    requires !IsExtended(command)
    ensures WriteByteFrame(addr, command, data, pece) == WriteNFrame(addr, command, data, 1, pece)
  {
    assert WriteNPayload(command, data, 1) == [Lsb(command), Lsb(data)];
  }

  /**
   * The four-argument adp1055_write as its text stands: a five-byte buffer
   * holding the address byte, the command bytes and the data bytes, zero
   * padded; the CRC of the bytes before index `slot - 1` stored at `slot`;
   * and `byteNum` plus two (standard) or three (extended) bytes handed to the
   * bus from index 1, whether PEC is enabled or not.
   */
  function AsWrittenBuffer(addr: bv8, command: bv16, data: bv16, byteNum: bv8): (r: seq<bv8>)
    ensures |r| == 5 && r[0] == AddrW(addr)
  {
    var filled := [AddrW(addr)] + CommandBytes(command) + DataBytes(data, byteNum);
    filled + seq(5 - |filled|, _ => 0)
  }

  /** Index of the PEC byte in the as-written buffer. */
  function AsWrittenPecSlot(command: bv16, byteNum: bv8): nat {
    if IsExtended(command) && byteNum > 1 then 5 else 4
  }

  /** Number of bytes the as-written function hands to the bus. */
  function AsWrittenSendCount(command: bv16, byteNum: bv8): nat {
    byteNum as nat + |CommandBytes(command)| + 1
  }

  /** The PEC store and the transfer stay inside the five-byte buffer. */
  predicate AsWrittenInBounds(command: bv16, byteNum: bv8) {
    AsWrittenPecSlot(command, byteNum) < 5 && 1 + AsWrittenSendCount(command, byteNum) <= 5
  }

  /**
   * Exactly the calls with at most one data byte for an extended command and
   * at most two for a standard command stay inside the buffer; an extended
   * word write stores its PEC one past the end.
   */
  lemma AsWrittenInBoundsExactly(command: bv16, byteNum: bv8)
    ensures AsWrittenInBounds(command, byteNum) <==> byteNum <= (if IsExtended(command) then 1 else 2)
    ensures IsExtended(command) && byteNum == 2 ==> AsWrittenPecSlot(command, byteNum) == 5
  {
  }

  function WriteNAsWrittenFrame(addr: bv8, command: bv16, data: bv16, byteNum: bv8): (r: seq<bv8>)
    requires AsWrittenInBounds(command, byteNum)
    ensures |r| == AsWrittenSendCount(command, byteNum)
  {
    var b := AsWrittenBuffer(addr, command, data, byteNum);
    var slot := AsWrittenPecSlot(command, byteNum);
    b[slot := Crc8.Crc(b[..slot - 1], 0)][1..1 + AsWrittenSendCount(command, byteNum)]
  }

  /**
   * What the as-written function sends, against the intended payload `p`:
   * no check byte at all for zero data bytes; a zero byte in place of the
   * PEC for a one-byte standard write; otherwise a PEC that leaves out the
   * last data byte.
   */
  lemma WriteNAsWrittenShape(addr: bv8, command: bv16, data: bv16, byteNum: bv8)
    requires AsWrittenInBounds(command, byteNum)
    ensures var p := WriteNPayload(command, data, byteNum);
            WriteNAsWrittenFrame(addr, command, data, byteNum) ==
              if byteNum == 0 then p
              else if IsExtended(command) || byteNum == 2 then p + [Pec(AddrW(addr), p[..|p| - 1])]
              else p + [0]
  {
    var p := WriteNPayload(command, data, byteNum);
    var b := AsWrittenBuffer(addr, command, data, byteNum);
    var aw := AddrW(addr);
    assert b[..1 + |p|] == [aw] + p;
    if byteNum != 0 && (IsExtended(command) || byteNum == 2) {
      assert b[..3] == [aw] + p[..|p| - 1];
    }
  }

  /**
   * The OPERATION-on write of adp1055_init to a device at 0x70 (address byte
   * 0xE0): as written it ends in 0x00, while its PEC is 0x52, so a device
   * that checks PEC drops the write.
   */
  lemma WriteNAsWrittenRejectedByDevice()
    ensures WriteNAsWrittenFrame(0x70, OPERATION, OPERATION_ON, 1) == [0x01, 0x80, 0x00]
    ensures WriteNFrame(0x70, OPERATION, OPERATION_ON, 1, true) == [0x01, 0x80, 0x52]
    ensures ReceiveWriteN(0xE0, true, false, false, WriteNAsWrittenFrame(0x70, OPERATION, OPERATION_ON, 1)) == None
  {
    assert Lsb(OPERATION) == 0x01 && Lsb(OPERATION_ON) == 0x80 by {
      MasksSplitWord(OPERATION);
      MasksSplitWord(OPERATION_ON);
    }
    WriteNAsWrittenShape(0x70, OPERATION, OPERATION_ON, 1);
    assert WriteNPayload(OPERATION, OPERATION_ON, 1) == [0x01, 0x80];
    Crc8.CrcCons(0xE0, [0x01, 0x80], 0x00);
    assert Crc8.ByteStep(0x00 ^ 0xE0) == 0xAE;
    Crc8.CrcCons(0x01, [0x80], 0xAE);
    assert Crc8.ByteStep(0xAE ^ 0x01) == 0x44;
    Crc8.CrcCons(0x80, [], 0x44);
    assert Crc8.ByteStep(0x44 ^ 0x80) == 0x52;
    assert Pec(0xE0, [0x01, 0x80]) == 0x52;
    var wire: seq<bv8> := [0x01, 0x80, 0x00];
    assert wire[..2] == [0x01, 0x80];
  }

  /** A command and its data as a device receives them. */
  datatype WriteMsg = WriteMsg(command: bv16, data: bv16)

  /**
   * How the device reads a write payload once it knows the command class
   * and whether a byte or a word follows.
   */
  function DecodeWriteN(payload: seq<bv8>, extended: bool, word: bool): (r: Option<WriteMsg>)
    ensures r.Some? <==> |payload| == (if extended then 2 else 1) + (if word then 2 else 1)
    ensures r.Some? && !extended ==> r.value.command <= EXTENDED_COMMAND
    ensures r.Some? && !word ==> r.value.data <= 0xFF
  {
    var c := if extended then 2 else 1;
    if |payload| != c + (if word then 2 else 1) then None
    else
      var command := if extended then Join(payload[0], payload[1]) else Join(0, payload[0]);
      var data := if word then Join(payload[c + 1], payload[c]) else Join(0, payload[c]);
      Some(WriteMsg(command, data))
  }

  /** The device's whole receive path for a write: PEC check, then decode. */
  function ReceiveWriteN(addrW: bv8, pece: bool, extended: bool, word: bool, wire: seq<bv8>): Option<WriteMsg> {
    match CheckPec(addrW, wire, pece)
    case None => None
    case Some(payload) => DecodeWriteN(payload, extended, word)
  }

  /**
   * Round trip: the device recovers the command exactly and the data (only
   * its low byte when a single byte is written) from every frame the
   * four-argument write builds, with or without PEC.
   */
  lemma WriteNRoundTrip(addr: bv8, command: bv16, data: bv16, byteNum: bv8, pece: bool)
    ensures ReceiveWriteN(AddrW(addr), pece, IsExtended(command), byteNum > 1, WriteNFrame(addr, command, data, byteNum, pece))
         == Some(WriteMsg(command, if byteNum > 1 then data else data & 0xFF))
  {
    PecRoundTrip(AddrW(addr), WriteNPayload(command, data, byteNum), pece);
    JoinSplit(command);
    JoinSplit(data);
    MasksSplitWord(command);
    MasksSplitWord(data);
  }

  /** Any single corrupted byte of a PEC-protected write frame makes the device drop it. */
  lemma WriteNRejectsCorruption(addr: bv8, command: bv16, data: bv16, byteNum: bv8, k: nat, e: bv8)
    requires k < |WriteNFrame(addr, command, data, byteNum, true)| && e != 0
    ensures var w := WriteNFrame(addr, command, data, byteNum, true);
            ReceiveWriteN(AddrW(addr), true, IsExtended(command), byteNum > 1, w[k := w[k] ^ e]) == None
  {
    PecRejectsCorruption(AddrW(addr), WriteNPayload(command, data, byteNum), k, e);
  }

  /**
   * The bytes the read PEC covers: the whole transaction from the first
   * start condition, [addr << 1, command, (addr << 1) | 1, data]. With the
   * PEC byte it fills the RD_FRAME_SIZE buffer.
   */
  function ReadPecInput(addr: bv8, command: bv16, data: bv8): (r: seq<bv8>)
    ensures |r| + 1 == RD_FRAME_SIZE
    ensures r[0] == AddrW(addr) && r[1] == Lsb(command) && r[2] == AddrR(addr) && r[3] == data
  {
    [AddrW(addr), Lsb(command), AddrR(addr), data]
  }

  /** The PEC check of adp1055_read. */
  predicate ReadPecValid(addr: bv8, command: bv16, data: bv8, pec: bv8) {
    Crc8.Crc(ReadPecInput(addr, command, data), 0) == pec
  }

  /**
   * If the device sent `data` with its correct PEC and one of the two
   * received bytes was corrupted on the way, the check fails.
   */
  lemma ReadPecDetectsCorruption(addr: bv8, command: bv16, data: bv8, pec: bv8, data': bv8, pec': bv8)
    requires ReadPecValid(addr, command, data, pec)
    requires (data' == data) != (pec' == pec)
    ensures !ReadPecValid(addr, command, data', pec')
  {
    if data' != data {
      var p := [AddrW(addr), Lsb(command), AddrR(addr)];
      assert ReadPecInput(addr, command, data) == p + [data];
      assert ReadPecInput(addr, command, data') == p + [data'];
      Crc8.CrcLastByteInjective(p, data, data', 0);
    }
  }

  /**
   * The end of adp1055_read once the bus has delivered `got` with status
   * `status`: the returned code and the byte stored through the out pointer
   * (None: nothing is stored).
   */
  function ReadCompletion(addr: bv8, command: bv16, pece: bool, status: int, got: seq<bv8>): (r: (int, Option<bv8>))
    requires |got| == if pece then 2 else 1
    ensures r.1.Some? <==> r.0 == 0
    ensures status != 0 ==> r == (status, None)
    ensures r.1.Some? ==> status == 0 && r.1.value == got[0] && (pece ==> ReadPecValid(addr, command, got[0], got[1]))
    ensures status == 0 && pece && !ReadPecValid(addr, command, got[0], got[1]) ==> r == (-EIO, None)
    ensures status == 0 && (!pece || ReadPecValid(addr, command, got[0], got[1])) ==> r == (0, Some(got[0]))
  {
    if status != 0 then (status, None)
    else if pece && !ReadPecValid(addr, command, got[0], got[1]) then (-EIO, None)
    else (0, Some(got[0]))
  }
}
