/**
 * The two-wire bus transport the driver calls (no_os_i2c_init, _write,
 * _read, _remove). Its internals are not modelled: each transfer is recorded
 * in a trace together with the status the bus chose to return and, for a
 * read, the bytes it delivered; status and data are arbitrary.
 */
module I2c {

  /** The part of no_os_i2c_init_param the driver relies on. */
  datatype InitParam = InitParam(slaveAddress: bv8)

  /** One call on the bus, with the outcome the bus chose. */
  datatype Event =
    | Written(bytes: seq<bv8>, stop: bool, status: int)
    | Fetched(count: nat, stop: bool, status: int, bytes: seq<bv8>)

  class Bus {
    /** The 7-bit device address. */
    const slaveAddress: bv8
    /** Every transfer issued on this bus, oldest first. */
    var trace: seq<Event>
    /** Between a successful no_os_i2c_init and no_os_i2c_remove. */
    ghost var open: bool

    constructor (param: InitParam)
      ensures slaveAddress == param.slaveAddress && trace == [] && open
    {
      slaveAddress := param.slaveAddress;
      trace := [];
      open := true;
    }

    /** no_os_i2c_write(desc, &buf[off], count, stop). */
    method Write(buf: array<bv8>, off: nat, count: nat, stop: bool) returns (status: int)
      requires open && off + count <= buf.Length
      modifies this
      ensures open && trace == old(trace) + [Written(buf[off..off + count], stop, status)]
    {
      status :| true;
      trace := trace + [Written(buf[off..off + count], stop, status)];
    }

    /**
     * no_os_i2c_read(desc, &buf[off], count, stop): only buf[off..off + count]
     * may change, and the trace records what it holds afterwards.
     */
    method Read(buf: array<bv8>, off: nat, count: nat, stop: bool) returns (status: int)
      requires open && off + count <= buf.Length
      modifies this, buf
      ensures open
      ensures buf[..off] == old(buf[..off]) && buf[off + count..] == old(buf[off + count..])
      ensures trace == old(trace) + [Fetched(count, stop, status, buf[off..off + count])]
    {
      status :| true;
      assert |seq(count, _ => 0 as bv8)| == count;
      var got: seq<bv8> :| |got| == count;
      forall i | off <= i < off + count {
        buf[i] := got[i - off];
      }
      trace := trace + [Fetched(count, stop, status, buf[off..off + count])];
    }
  }

  /** The platform the buses are opened on, with what it has told its callers so far. */
  class Platform {
    /** The status of every no_os_i2c_init call, oldest first. */
    ghost var initLog: seq<int>

    constructor ()
      ensures initLog == []
    {
      initLog := [];
    }
  }

  /**
   * no_os_i2c_init: on success a fresh open bus with an empty trace, otherwise
   * no bus; either way the status is logged on the platform.
   */
  method Init(platform: Platform, param: InitParam) returns (status: int, bus: Bus?)
    modifies platform
    ensures platform.initLog == old(platform.initLog) + [status]
    ensures status == 0 ==> bus != null && fresh(bus) && bus.open && bus.trace == []
    ensures status == 0 ==> bus.slaveAddress == param.slaveAddress
    ensures status != 0 ==> bus == null
  {
    status :| true;
    platform.initLog := platform.initLog + [status];
    if status == 0 {
      bus := new Bus(param);
    } else {
      bus := null;
    }
  }

  /** no_os_i2c_remove: closes the bus if there is one; nothing is transferred. */
  method Remove(bus: Bus?)
    modifies bus
    ensures bus != null ==> !bus.open && bus.trace == old(bus.trace)
  {
    if bus != null {
      bus.open := false;
    }
  }
}
