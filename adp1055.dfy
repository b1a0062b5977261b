/**
 * The ADP1055 driver proper: the device descriptor and the functions that
 * build a frame in a local byte buffer and hand part of it to the bus.
 * Each transfer method is proved to emit exactly the frame that module
 * Frames specifies, and to return the status the bus reported.
 *
 * A descriptor pointer may be NULL: the methods take a `Device?` and return
 * the error code the driver returns for it. Memory comes from no_os_calloc,
 * which may fail; `live` records that the descriptor has not been freed.
 */
module Adp1055 {
  import I2c
  import Crc8
  import opened Adp1055Defs
  import opened Frames

  /** struct adp1055_desc. */
  class Device {
    var bus: I2c.Bus?
    var pece: bool
    ghost var live: bool

    /** A zero-filled descriptor, as no_os_calloc returns it. */
    constructor ()
      ensures bus == null && !pece && live
    {
      bus := null;
      pece := false;
      live := true;
    }

    /** Allocated, not freed, and holding an open bus: what every transfer dereferences. */
    ghost predicate Ready()
      reads this, bus
    {
      live && bus != null && bus.open
    }
  }

  /** The out-parameter `uint8_t *data` of adp1055_read. */
  class Cell {
    var value: bv8

    constructor ()
      ensures value == 0
    {
      value := 0;
    }
  }

  /** no_os_calloc(sizeof(struct adp1055_desc), 1): a zeroed descriptor, or NULL. */
  method Calloc() returns (d: Device?)
    ensures d != null ==> fresh(d) && d.bus == null && !d.pece && d.live
  {
    var ok: bool :| true;
    if ok {
      d := new Device();
    } else {
      d := null;
    }
  }

  /** no_os_free. */
  method Free(d: Device)
    requires d.live
    modifies d
    ensures !d.live && d.bus == old(d.bus) && d.pece == old(d.pece)
  {
    d.live := false;
  }

  /**
   * adp1055_send_command: the command's low byte (plus its PEC when enabled)
   * from a three-byte buffer [addr << 1, command, PEC].
   */
  method SendCommand(desc: Device?, command: bv16) returns (ret: int)
    requires desc != null ==> desc.Ready()
    modifies if desc == null then {} else {desc.bus}
    ensures desc == null ==> ret == -EINVAL
    ensures desc != null ==> (desc.bus.open && desc.bus.trace ==
      old(desc.bus.trace) + [I2c.Written(SendCommandFrame(desc.bus.slaveAddress, command, desc.pece), true, ret)])
  {
    if desc == null {
      return -EINVAL;
    }
    var bus := desc.bus;
    var val := new bv8[SC_FRAME_SIZE](_ => 0);
    val[0] := AddrW(bus.slaveAddress);
    val[1] := Lsb(command);
    var count := 1;
    if desc.pece {
      assert val[..2] == [AddrW(bus.slaveAddress)] + [Lsb(command)];
      val[2] := Crc8.Crc(val[..2], 0);
      count := 2;
    }
    assert val[1..1 + count] == SendCommandFrame(bus.slaveAddress, command, desc.pece);
    ret := bus.Write(val, 1, count, true);
  }

  /**
   * The three-argument adp1055_write: a Write Byte of the data's low byte to
   * the command's low byte, from a four-byte buffer.
   */
  method WriteByte(desc: Device?, command: bv16, data: bv16) returns (ret: int)
    requires desc != null ==> desc.Ready()
    modifies if desc == null then {} else {desc.bus}
    ensures desc == null ==> ret == -EINVAL
    ensures desc != null ==> (desc.bus.open && desc.bus.trace ==
      old(desc.bus.trace) + [I2c.Written(WriteByteFrame(desc.bus.slaveAddress, command, data, desc.pece), true, ret)])
  {
    if desc == null {
      return -EINVAL;
    }
    var bus := desc.bus;
    var val := new bv8[WR_FRAME_SIZE](_ => 0);
    var byteNum := if desc.pece then WR_FRAME_SIZE - 1 else 2;
    val[0] := AddrW(bus.slaveAddress);
    val[1] := Lsb(command);
    val[2] := Lsb(data);
    if desc.pece {
      assert val[..3] == [AddrW(bus.slaveAddress)] + [Lsb(command), Lsb(data)];
      val[3] := Crc8.Crc(val[..3], 0);
    }
    assert val[1..1 + byteNum] == WriteByteFrame(bus.slaveAddress, command, data, desc.pece);
    ret := bus.Write(val, 1, byteNum, true);
  }

  /**
   * The four-argument adp1055_write, corrected: the command (one or two
   * bytes), one or two data bytes, then the PEC over the address byte and
   * everything before it when PEC is enabled. The buffer holds six bytes,
   * enough for the longest frame.
   */
  method WriteN(desc: Device?, command: bv16, data: bv16, byteNum: bv8) returns (ret: int)
    requires desc != null ==> desc.Ready()
    modifies if desc == null then {} else {desc.bus}
    ensures desc == null ==> ret == -EINVAL
    ensures desc != null ==> (desc.bus.open && desc.bus.trace ==
      old(desc.bus.trace) + [I2c.Written(WriteNFrame(desc.bus.slaveAddress, command, data, byteNum, desc.pece), true, ret)])
  {
    if desc == null {
      return -EINVAL;
    }
    var bus := desc.bus;
    var val := new bv8[6](_ => 0);
    val[0] := AddrW(bus.slaveAddress);
    var n := PutPayload(val, command, data, byteNum);
    ghost var payload := WriteNPayload(command, data, byteNum);
    assert val[..n] == [AddrW(bus.slaveAddress)] + payload;
    if desc.pece {
      var pec := Crc8.Crc(val[..n], 0);
      assert pec == Pec(AddrW(bus.slaveAddress), payload);
      val[n] := pec;
      n := n + 1;
      assert val[1..n] == payload + [pec];
    }
    assert val[1..n] == WriteNFrame(bus.slaveAddress, command, data, byteNum, desc.pece);
    ret := bus.Write(val, 1, n - 1, true);
  }

  /**
   * The command bytes, then the data bytes, stored from index 1 of `val`;
   * `n` is the index after the last one.
   */
  method PutPayload(val: array<bv8>, command: bv16, data: bv16, byteNum: bv8) returns (n: nat)
    requires val.Length == 6
    modifies val
    ensures n == 1 + |WriteNPayload(command, data, byteNum)| && n < val.Length
    ensures val[0] == old(val[0]) && val[1..n] == WriteNPayload(command, data, byteNum)
  {
    if IsExtended(command) {
      val[1] := Msb(command);
      val[2] := Lsb(command);
      n := 3;
    } else {
      val[1] := Lsb(command);
      n := 2;
    }
    val[n] := Lsb(data);
    n := n + 1;
    if byteNum > 1 {
      val[n] := Msb(data);
      n := n + 1;
    }
  }

  /**
   * The four-argument adp1055_write as its text stands, on the calls that
   * stay inside its five-byte buffer (AsWrittenInBounds).
   */
  method WriteNAsWritten(desc: Device?, command: bv16, data: bv16, byteNum: bv8) returns (ret: int)
    requires desc != null ==> desc.Ready() && AsWrittenInBounds(command, byteNum)
    modifies if desc == null then {} else {desc.bus}
    ensures desc == null ==> ret == -EINVAL
    ensures desc != null ==> (desc.bus.open && desc.bus.trace ==
      old(desc.bus.trace) + [I2c.Written(WriteNAsWrittenFrame(desc.bus.slaveAddress, command, data, byteNum), true, ret)])
  {
    if desc == null {
      return -EINVAL;
    }
    var bus := desc.bus;
    var val := new bv8[5](_ => 0);
    var crcFrame := 4;
    var count := PutAsWritten(val, bus.slaveAddress, command, data, byteNum);
    ghost var b := val[..];
    var crc := Crc8.Crc(val[..crcFrame - 1], 0);
    val[crcFrame] := crc;
    assert val[..] == b[AsWrittenPecSlot(command, byteNum) := crc];
    assert val[1..1 + count] == WriteNAsWrittenFrame(bus.slaveAddress, command, data, byteNum);
    ret := bus.Write(val, 1, count, true);
  }

  /**
   * The filling of the as-written buffer: address byte, command bytes, data
   * bytes, zeros; `count` is the number of bytes that function sends.
   */
  method PutAsWritten(val: array<bv8>, addr: bv8, command: bv16, data: bv16, byteNum: bv8) returns (count: nat)
    requires val.Length == 5 && AsWrittenInBounds(command, byteNum)
    requires forall i :: 0 <= i < 5 ==> val[i] == 0
    modifies val
    ensures val[..] == AsWrittenBuffer(addr, command, data, byteNum)
    ensures count == AsWrittenSendCount(command, byteNum)
  {
    val[0] := AddrW(addr);
    if IsExtended(command) {
      val[1] := Msb(command);
      val[2] := Lsb(command);
      if byteNum > 1 {
        // The data's high byte would go to index 4 and the PEC to index 5,
        // one past the end: AsWrittenInBounds excludes this call.
        assert false;
      }
      val[3] := Lsb(data);
      count := byteNum as nat + 3;
    } else {
      val[1] := Lsb(command);
      if byteNum > 1 {
        val[2] := Lsb(data);
        val[3] := Msb(data);
      } else {
        val[2] := Lsb(data);
      }
      count := byteNum as nat + 2;
    }
  }

  /**
   * The transfers of one adp1055_read call, `events`, and its outcome: the
   * command byte written without a stop; if that succeeds, one data byte
   * (and its PEC when enabled) read with a stop; then the completion.
   * `stored` is what was written through the out pointer.
   */
  predicate ReadTranscript(addr: bv8, command: bv16, pece: bool, events: seq<I2c.Event>, ret: int, stored: Option<bv8>) {
    |events| >= 1 && events[0] == I2c.Written([Lsb(command)], false, events[0].status) &&
    if events[0].status != 0 then
      |events| == 1 && ret == events[0].status && stored == None
    else
      |events| == 2 && events[1].Fetched? &&
      events[1].count == (if pece then 2 else 1) && events[1].stop &&
      |events[1].bytes| == events[1].count &&
      (ret, stored) == ReadCompletion(addr, command, pece, events[1].status, events[1].bytes)
  }

  /**
   * The outcome of a read transcript: a byte is stored exactly when 0 is
   * returned; a failed transfer's status is passed on unchanged; with PEC a
   * byte is stored only if it arrived with the PEC of the whole transaction.
   */
  lemma ReadTranscriptOutcome(addr: bv8, command: bv16, pece: bool, events: seq<I2c.Event>, ret: int, stored: Option<bv8>)
    requires ReadTranscript(addr, command, pece, events, ret, stored)
    ensures stored.Some? <==> ret == 0
    ensures events[0].status != 0 ==> ret == events[0].status
    ensures stored.Some? ==> |events| == 2 && events[1].status == 0 && stored.value == events[1].bytes[0]
    ensures stored.Some? && pece ==> ReadPecValid(addr, command, stored.value, events[1].bytes[1])
    ensures |events| == 2 && events[1].status != 0 ==> ret == events[1].status
    ensures |events| == 2 && events[1].status == 0 && (!pece || ReadPecValid(addr, command, events[1].bytes[0], events[1].bytes[1])) ==>
      ret == 0 && stored == Some(events[1].bytes[0])
  {
    if events[0].status == 0 {
      var _ := ReadCompletion(addr, command, pece, events[1].status, events[1].bytes);
    }
  }

  /**
   * adp1055_read: writes the command byte, reads the data byte (and the PEC
   * when enabled) into a five-byte buffer [addr << 1, command,
   * (addr << 1) | 1, data, PEC], checks the PEC over the first four, and
   * stores the data byte only on success.
   */
  method Read(desc: Device?, command: bv16, data: Cell) returns (ret: int)
    requires desc != null ==> desc.Ready()
    modifies if desc == null then {} else {desc.bus}, data
    ensures desc == null ==> ret == -EINVAL && data.value == old(data.value)
    ensures ret != 0 ==> data.value == old(data.value)
    ensures desc != null ==> desc.bus.open && |desc.bus.trace| > |old(desc.bus.trace)|
    ensures desc != null ==> desc.bus.trace[..|old(desc.bus.trace)|] == old(desc.bus.trace)
    ensures desc != null ==> ReadTranscript(desc.bus.slaveAddress, command, desc.pece,
      desc.bus.trace[|old(desc.bus.trace)|..], ret, if ret == 0 then Some(data.value) else None)
  {
    if desc == null {
      return -EINVAL;
    }
    var bus := desc.bus;
    ghost var before := bus.trace;
    var val := new bv8[RD_FRAME_SIZE](_ => 0);
    val[0] := AddrW(bus.slaveAddress);
    val[1] := Lsb(command);
    val[2] := AddrR(bus.slaveAddress);
    ret := bus.Write(val, 1, 1, false);
    assert val[1..2] == [Lsb(command)];
    if ret != 0 {
      assert bus.trace[|before|..] == [I2c.Written([Lsb(command)], false, ret)];
      return;
    }
    var byteNum := if desc.pece then 2 else 1;
    ret := bus.Read(val, 3, byteNum, true);
    ghost var got := val[3..3 + byteNum];
    assert bus.trace[|before|..] == [I2c.Written([Lsb(command)], false, 0), I2c.Fetched(byteNum, true, ret, got)];
    if ret != 0 {
      return;
    }
    if desc.pece {
      var crc := Crc8.Crc(val[..RD_FRAME_SIZE - 1], 0);
      assert val[..RD_FRAME_SIZE - 1] == ReadPecInput(bus.slaveAddress, command, got[0]);
      if val[4] != crc {
        return -EIO;
      }
    }
    data.value := val[3];
    ret := 0;
  }

  /**
   * adp1055_remove: with a bus, switch the output off first (OPERATION
   * written with OPERATION_OFF) and give up, keeping everything, if that
   * fails; otherwise release the bus and the descriptor.
   */
  method Remove(desc: Device?) returns (ret: int)
    requires desc != null ==> desc.live && (desc.bus != null ==> desc.bus.open)
    modifies if desc == null then {} else {desc, desc.bus}
    ensures desc == null ==> ret == -ENODEV
    ensures desc != null ==> desc.bus == old(desc.bus) && desc.pece == old(desc.pece)
    ensures desc != null && desc.bus != null ==> (desc.bus.trace ==
      old(desc.bus.trace) + [I2c.Written(WriteNFrame(desc.bus.slaveAddress, OPERATION, OPERATION_OFF, 1, desc.pece), true, ret)])
    ensures desc != null && ret == 0 ==> !desc.live && (desc.bus != null ==> !desc.bus.open)
    ensures desc != null && ret != 0 ==> desc.bus != null && desc.live && desc.bus.open
  {
    if desc == null {
      return -ENODEV;
    }
    if desc.bus != null {
      ret := WriteN(desc, OPERATION, OPERATION_OFF, 1);
      if ret != 0 {
        return;
      }
    }
    I2c.Remove(desc.bus);
    Free(desc);
    ret := 0;
  }

  /**
   * adp1055_init, corrected: allocate a descriptor, open the bus, copy the
   * PEC flag, turn the output on and write ON_OFF_CONFIG. On success the
   * ready descriptor is handed back; on a failure after the allocation the
   * descriptor goes through adp1055_remove and the failing status is
   * returned. `d` is the descriptor the call allocated; `platform` logs the
   * status of the bus initialisation.
   */
  method Init(platform: I2c.Platform, param: InitParam) returns (ret: int, desc: Device?, ghost d: Device?)
    modifies platform
    ensures desc != null <==> ret == 0
    ensures d == null ==> ret == -ENOMEM && desc == null
    ensures d != null ==> fresh(d) && (desc != null ==> desc == d)
    ensures desc != null ==> fresh(desc) && fresh(desc.bus) && desc.Ready() && desc.pece == param.pece
    ensures desc != null ==> desc.bus.slaveAddress == param.i2c.slaveAddress && desc.bus.trace == [
      I2c.Written(WriteNFrame(param.i2c.slaveAddress, OPERATION, OPERATION_ON, 1, param.pece), true, 0),
      I2c.Written(WriteNFrame(param.i2c.slaveAddress, ON_OFF_CONFIG, param.onOffConfig, 1, param.pece), true, 0)]
    // the bus could not be opened: its status is returned and the descriptor freed
    ensures d == null ==> platform.initLog == old(platform.initLog)
    ensures d != null ==> (|platform.initLog| == |old(platform.initLog)| + 1 &&
      platform.initLog[..|old(platform.initLog)|] == old(platform.initLog) &&
      (d.bus == null <==> platform.initLog[|old(platform.initLog)|] != 0))
    ensures d != null && d.bus == null ==> ret == platform.initLog[|old(platform.initLog)|] && !d.live
    // a write failed: its status is returned, then the output is switched off
    ensures d != null && d.bus != null && ret != 0 ==> (fresh(d.bus) && d.pece == param.pece &&
      d.bus.slaveAddress == param.i2c.slaveAddress &&
      ((|d.bus.trace| == 2 && d.bus.trace == [
        I2c.Written(WriteNFrame(param.i2c.slaveAddress, OPERATION, OPERATION_ON, 1, param.pece), true, ret),
        I2c.Written(WriteNFrame(param.i2c.slaveAddress, OPERATION, OPERATION_OFF, 1, param.pece), true, d.bus.trace[1].status)]) ||
       (|d.bus.trace| == 3 && d.bus.trace == [
        I2c.Written(WriteNFrame(param.i2c.slaveAddress, OPERATION, OPERATION_ON, 1, param.pece), true, 0),
        I2c.Written(WriteNFrame(param.i2c.slaveAddress, ON_OFF_CONFIG, param.onOffConfig, 1, param.pece), true, ret),
        I2c.Written(WriteNFrame(param.i2c.slaveAddress, OPERATION, OPERATION_OFF, 1, param.pece), true, d.bus.trace[2].status)])))
    // the descriptor is released exactly when switching the output off succeeded
    ensures d != null && d.bus != null && ret != 0 ==> ((d.bus.trace[|d.bus.trace| - 1].status == 0 <==> !d.live) &&
      (d.live <==> d.bus.open))
  {
    var descriptor := Calloc();
    d := descriptor;
    if descriptor == null {
      return -ENOMEM, null, null;
    }
    var bus;
    ret, bus := I2c.Init(platform, param.i2c);
    ghost var log := platform.initLog;
    assert log[|old(platform.initLog)|] == ret;
    descriptor.bus := bus;
    if ret == 0 {
      descriptor.pece := param.pece;
      ret := WriteN(descriptor, OPERATION, OPERATION_ON, 1);
      if ret == 0 {
        ret := WriteN(descriptor, ON_OFF_CONFIG, param.onOffConfig, 1);
        if ret == 0 {
          return 0, descriptor, descriptor;
        }
      }
    }
    var _ := Remove(descriptor);
    assert platform.initLog == log;
    desc := null;
  }

  /**
   * adp1055_remove as its text stands: the same steps as `Remove`, but the
   * output is switched off through the four-argument write as written.
   */
  method RemoveAsWritten(desc: Device?) returns (ret: int)
    requires desc != null ==> desc.live && (desc.bus != null ==> desc.bus.open)
    modifies if desc == null then {} else {desc, desc.bus}
    ensures desc == null ==> ret == -ENODEV
    ensures desc != null ==> desc.bus == old(desc.bus) && desc.pece == old(desc.pece)
    ensures desc != null && desc.bus != null ==> (desc.bus.trace ==
      old(desc.bus.trace) + [I2c.Written(WriteNAsWrittenFrame(desc.bus.slaveAddress, OPERATION, OPERATION_OFF, 1), true, ret)])
    ensures desc != null && ret == 0 ==> !desc.live && (desc.bus != null ==> !desc.bus.open)
    ensures desc != null && ret != 0 ==> desc.bus != null && desc.live && desc.bus.open
  {
    if desc == null {
      return -ENODEV;
    }
    if desc.bus != null {
      AsWrittenInBoundsExactly(OPERATION, 1);
      ret := WriteNAsWritten(desc, OPERATION, OPERATION_OFF, 1);
      if ret != 0 {
        return;
      }
    }
    I2c.Remove(desc.bus);
    Free(desc);
    ret := 0;
  }

  /**
   * The two writes of adp1055_init as its text stands: OPERATION_ON, then,
   * only if that succeeds, ON_OFF_CONFIG, both through the four-argument
   * write as written; the status of the last write made is returned.
   */
  method SwitchOnAsWritten(desc: Device, onOffConfig: bv16) returns (ret: int)
    requires desc.Ready()
    modifies desc.bus
    ensures desc.bus.open
    ensures ret == 0 ==> desc.bus.trace == old(desc.bus.trace) + [
      I2c.Written(WriteNAsWrittenFrame(desc.bus.slaveAddress, OPERATION, OPERATION_ON, 1), true, 0),
      I2c.Written(WriteNAsWrittenFrame(desc.bus.slaveAddress, ON_OFF_CONFIG, onOffConfig, 1), true, 0)]
    ensures ret != 0 ==> (desc.bus.trace == old(desc.bus.trace) + [
      I2c.Written(WriteNAsWrittenFrame(desc.bus.slaveAddress, OPERATION, OPERATION_ON, 1), true, ret)] ||
      desc.bus.trace == old(desc.bus.trace) + [
      I2c.Written(WriteNAsWrittenFrame(desc.bus.slaveAddress, OPERATION, OPERATION_ON, 1), true, 0),
      I2c.Written(WriteNAsWrittenFrame(desc.bus.slaveAddress, ON_OFF_CONFIG, onOffConfig, 1), true, ret)])
  {
    AsWrittenInBoundsExactly(OPERATION, 1);
    AsWrittenInBoundsExactly(ON_OFF_CONFIG, 1);
    ret := WriteNAsWritten(desc, OPERATION, OPERATION_ON, 1);
    if ret == 0 {
      ret := WriteNAsWritten(desc, ON_OFF_CONFIG, onOffConfig, 1);
    }
  }

  /**
   * adp1055_init as its text stands: the success path falls through into
   * the clean-up label, so the output is switched off again and, if that
   * write succeeds, the bus closed and the memory freed; 0 is returned either
   * way and no descriptor reaches the caller. The PEC flag is never copied,
   * and every write is the four-argument write as written.
   * `d` is the descriptor the call allocated; `platform` logs the status of
   * the bus initialisation.
   */
  method InitAsWritten(platform: I2c.Platform, param: InitParam) returns (ret: int, ghost d: Device?)
    modifies platform
    ensures d == null ==> ret == -ENOMEM
    ensures d != null ==> fresh(d) && !d.pece
    ensures d == null ==> platform.initLog == old(platform.initLog)
    ensures d != null ==> (|platform.initLog| == |old(platform.initLog)| + 1 &&
      platform.initLog[..|old(platform.initLog)|] == old(platform.initLog) &&
      (d.bus == null <==> platform.initLog[|old(platform.initLog)|] != 0))
    ensures d != null && d.bus == null ==> !d.live && ret == platform.initLog[|old(platform.initLog)|]
    ensures d != null && ret == 0 ==> d.bus != null && |d.bus.trace| == 3 && d.bus.trace == [
      I2c.Written(WriteNAsWrittenFrame(param.i2c.slaveAddress, OPERATION, OPERATION_ON, 1), true, 0),
      I2c.Written(WriteNAsWrittenFrame(param.i2c.slaveAddress, ON_OFF_CONFIG, param.onOffConfig, 1), true, 0),
      I2c.Written(WriteNAsWrittenFrame(param.i2c.slaveAddress, OPERATION, OPERATION_OFF, 1), true, d.bus.trace[2].status)]
    ensures d != null && ret == 0 ==> (d.bus.trace[2].status == 0 <==> !d.live) && (!d.live ==> !d.bus.open)
  {
    var descriptor := Calloc();
    d := descriptor;
    if descriptor == null {
      return -ENOMEM, null;
    }
    var bus;
    ret, bus := I2c.Init(platform, param.i2c);
    ghost var log := platform.initLog;
    assert log[|old(platform.initLog)|] == ret;
    descriptor.bus := bus;
    if ret == 0 {
      ret := SwitchOnAsWritten(descriptor, param.onOffConfig);
    }
    var _ := RemoveAsWritten(descriptor);
    assert platform.initLog == log;
  }
}
