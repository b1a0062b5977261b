# ADP1055 PMBus framing, modelled in Dafny

This project models the framing layer of the ADP1055 digital power
controller driver (`drivers/power/adp1050/adp1055.c` and `adp1055.h`). The
driver talks PMBus over a two-wire bus. Every call fills a small local
byte buffer:

- index 0 holds the synthetic address byte `addr << 1`;
- then come the command byte or bytes (one for a standard command, two,
  high byte first, for an extended 0xFExx command);
- then the data bytes, low byte first;
- then, optionally, the Packet Error Check (PEC) byte.

The slice from index 1 goes to the bus. The PEC is the CRC-8 of SMBus
Packet Error Checking (polynomial x^8 + x^2 + x + 1, MSB first, seed 0). It
covers the address byte even though the address byte is not in the slice.
A read first writes the command byte without a stop. It then reads the data
byte, plus a PEC byte when PEC is enabled, and checks that PEC over the
whole transaction `[addr << 1, command, (addr << 1) | 1, data]`.
`adp1055_init` and `adp1055_remove` allocate and release the descriptor and
the bus, and switch the output on and off.

Files:

- `crc8.dfy` (module `Crc8`): the CRC-8 as a bitwise fold, with its
  algebra. This covers the piecewise computation, the zero residue, the
  fact that the per-byte table is a permutation, and the detection of any
  single corrupted byte. It also covers the published check values.
- `adp1055_defs.dfy` (module `Adp1055Defs`): the header. It holds the
  frame sizes, the masks and `no_os_field_get`, the OPERATION values, the
  polynomial, the PMBus addresses, both command tables, the initialisation
  parameters and the error codes.
- `frames.dfy` (module `Frames`): the exact bytes each driver function
  hands to the bus, as functions of command, data and PEC flag. With them
  come the receiving side (PEC check, decoding) as partner definitions, the
  round trips and corruption detection between the two, and the frames the
  source produces as its text stands.
- `i2c.dfy` (module `I2c`): the bus transport (`no_os_i2c_*`). Every
  transfer is recorded in a trace with the status the bus chose and, for a
  read, the bytes it delivered. Status and data are arbitrary.
- `adp1055.dfy` (module `Adp1055`): the driver. It has the descriptor
  class and the methods that fill a local array index by index and call
  the bus. Each is proved to append exactly the specified frame to the
  trace and to return what the source returns.

### Repairs

`adp1055.c` does not compile as it stands. The model applies the smallest
repair at each point:

- line 59: the missing comma is added;
- lines 62 and 76: `ret` becomes an `int`, and it is returned;
- line 73: `&val[1]` is sent with length 1 + pece (see Findings);
- line 71: the PEC of the Send Byte covers `[addr << 1, command]`, as SMBus
  requires;
- lines 84 and 103: the two functions named `adp1055_write` become
  `WriteByte` (three arguments) and `WriteN` (four arguments);
- line 113: `ADP1055_EXTENDED_COMMAND`, which is defined nowhere, is 0xFF;
- lines 132 and 134: `ADP1050_*_MASK` is read as `ADP1055_*_MASK`;
- line 138: the missing `;` is added;
- lines 167 and 174: `i2c_data` is read as `val`;
- line 172: `desc->` is read as `desc->pece`;
- lines 203, 211, 215 and 221: the misspelt names are read as the ADP1055
  ones, with `ADP1050_OPERATION` = 0x01 and `ADP1050_OPERATION_ON` = 0x80;
- `on_off_config` is added to the initialisation parameters (line 216
  reads it, but `adp1055.h:454-457` does not declare it).

The CRC table declared at `adp1055.c:46` is never populated in the file. As
written, every lookup returns 0, so every PEC is 0. The model computes the
CRC the table is meant to hold: `Crc8.ByteStep` is the table entry.

## Model

| member | source | states |
|---|---|---|
| `Crc8.CrcAppend` | drivers/power/adp1050/adp1055.h:66 | the CRC of a concatenation is the CRC of the second part seeded with the CRC of the first |
| `Crc8.CrcResidue` | drivers/power/adp1050/adp1055.h:66 | running the CRC over a message followed by its own CRC yields 0 |
| `Crc8.ByteStepInjective` | drivers/power/adp1050/adp1055.c:46 | distinct indices of the 256-entry table hold distinct entries (the table is a permutation) |
| `Crc8.CrcSeedInjective` | drivers/power/adp1050/adp1055.h:66 | two different register values stay different whatever bytes follow |
| `Crc8.CrcDetectsByteError` | drivers/power/adp1050/adp1055.h:66 | XOR-ing any non-zero error into one byte of a message changes its CRC |
| `Crc8.CrcDetectsUpdate` | drivers/power/adp1050/adp1055.h:66 | the same, for the byte at any index of a sequence |
| `Crc8.CrcDetectsTail` | drivers/power/adp1050/adp1055.h:66 | the same, for any byte after a leading address byte |
| `Crc8.CrcLastByteInjective` | drivers/power/adp1050/adp1055.h:66 | after a fixed prefix, different last bytes give different CRCs |
| `Crc8.CrcOfOneIsPolynomial` | drivers/power/adp1050/adp1055.h:66 | the CRC of the single byte 0x01 is the polynomial 0x07 |
| `Crc8.CrcCheckValues` | drivers/power/adp1050/adp1055.h:66 | the CRC-8/SMBUS check value of "123456789" is 0xF4, and the CRC of the byte 0x00 is 0x00 |
| `Adp1055Defs.LowestSetBit` | drivers/power/adp1050/adp1055.h:55-56 | the shift of `no_os_field_get`: the index of the lowest set bit of the mask, at or after `from` |
| `Adp1055Defs.MasksSplitWord` | drivers/power/adp1050/adp1055.h:55-56 | both mask fields of a 16-bit value fit in a byte, and the high field shifted up by 8 and OR-ed with the low field rebuilds the value |
| `Adp1055Defs.CommandSetsSeparated` | drivers/power/adp1050/adp1055.h:102-449 | OPERATION and ON_OFF_CONFIG are standard; every standard code is at most 0xFB; every extended code lies in 0xFE00..0xFEA3 with high byte 0xFE; the threshold 0xFF separates the two sets |
| `Adp1055Defs.AddressesAreSevenBit` | drivers/power/adp1050/adp1055.h:69-76 | every listed address lies in 0x70..0x77, so the address shifted left by one, with or without the read bit, fit in a byte |
| `Adp1055Defs.PolynomialMatchesCrc` | drivers/power/adp1050/adp1055.h:66 | the `CRC8_PEC` constant is the polynomial of the modelled CRC (the fact of `Crc8.CrcOfOneIsPolynomial`, under the header's name) |
| `Frames.Join` | drivers/power/adp1050/adp1055.h:55-56 | the masks take a joined word apart into the high and low bytes it was made of |
| `Frames.JoinSplit` | drivers/power/adp1050/adp1055.h:55-56 | splitting a word with the masks and joining the bytes gives the word back |
| `Frames.AddressBytes` | drivers/power/adp1050/adp1055.c:160-162 | for a 7-bit address both address bytes carry the address in bits 7..1, with direction bit 0 (write) and 1 (read) |
| `Frames.CommandBytes` | drivers/power/adp1050/adp1055.c:113-129 | an extended command takes two bytes on the wire and a standard command one |
| `Frames.DataBytes` | drivers/power/adp1050/adp1055.c:117-134 | the data takes two bytes when more than one is asked for, one otherwise |
| `Frames.WithPec` | drivers/power/adp1050/adp1055.c:97-98 | the frame starts with the payload, unchanged, and is one byte longer exactly when PEC is enabled |
| `Frames.CheckPec` | drivers/power/adp1050/adp1055.c:136-138 | the receiving device's check of a write frame, the partner of the PEC the write appends: without PEC the frame passes unchanged; with PEC it is accepted only if its last byte is the PEC of the address byte and the rest, which is returned |
| `Frames.PecRoundTrip` | drivers/power/adp1050/adp1055.c:97-98 | every frame built with its PEC passes the check and yields the payload |
| `Frames.PecRejectsCorruption` | drivers/power/adp1050/adp1055.c:97-98 | changing any one byte of a PEC-protected frame (payload or PEC) makes the check fail |
| `Frames.PecDetectsPayloadError` | drivers/power/adp1050/adp1055.c:97-98 | changing any payload byte changes its PEC |
| `Frames.SendCommandFrame` | drivers/power/adp1050/adp1055.c:61-73 | the Send Byte frame fills the 3-byte buffer without its address byte when PEC is on, and is one byte otherwise |
| `Frames.SendCommandRoundTrip` | drivers/power/adp1050/adp1055.c:67-73 | the device recovers the command byte from every Send Byte frame |
| `Frames.SendCommandAsWrittenFrame` | drivers/power/adp1050/adp1055.c:73 | as written, the one transferred byte is the address byte |
| `Frames.SendCommandAsWrittenLosesCommand` | drivers/power/adp1050/adp1055.c:73 | as written, OPERATION and ON_OFF_CONFIG give the same transfer, although the corrected frames differ |
| `Frames.WriteByteFrame` | drivers/power/adp1050/adp1055.c:86-100 | the three-argument write sends 2 bytes without PEC, and with PEC fills the 4-byte buffer without its address byte |
| `Frames.WriteNFrame` | drivers/power/adp1050/adp1055.c:103-140 | the four-argument write's length is the command length plus the data length plus one for the PEC |
| `Frames.WriteByteIsStandardWriteN` | drivers/power/adp1050/adp1055.c:84-140 | the three-argument write is the four-argument write of one data byte to a standard command |
| `Frames.AsWrittenBuffer` | drivers/power/adp1050/adp1055.c:105-122 | the as-written buffer has five bytes and starts with the address byte |
| `Frames.AsWrittenInBoundsExactly` | drivers/power/adp1050/adp1055.c:117-126 | as written, a call stays inside the buffer exactly when it passes at most one data byte to an extended command or at most two to a standard one; an extended word write stores its PEC at index 5 |
| `Frames.WriteNAsWrittenFrame` | drivers/power/adp1050/adp1055.c:103-140 | as written, the transfer has `byte_num + 3` (extended) or `byte_num + 2` (standard) bytes, whatever the PEC flag |
| `Frames.WriteNAsWrittenShape` | drivers/power/adp1050/adp1055.c:106-138 | as written, the transfer is the intended payload followed by nothing (no data bytes), by a zero (one byte, standard) or by a PEC that leaves out the last data byte |
| `Frames.WriteNAsWrittenRejectedByDevice` | drivers/power/adp1050/adp1055.c:129-138 | as written, init's OPERATION-on write to 0x70 is `[0x01, 0x80, 0x00]`, where the intended frame is `[0x01, 0x80, 0x52]`; a device checking PEC drops it |
| `Frames.DecodeWriteN` | drivers/power/adp1050/adp1055.c:113-134 | the device's decoder accepts exactly the payload length for the command class and byte count; a standard command decodes at most 0xFF and a single data byte at most 0xFF |
| `Frames.WriteNRoundTrip` | drivers/power/adp1050/adp1055.c:103-140 | the device recovers the command exactly, and the data (its low byte for a one-byte write), from every four-argument write frame, with or without PEC |
| `Frames.WriteNRejectsCorruption` | drivers/power/adp1050/adp1055.c:103-140 | any one corrupted byte of a PEC-protected four-argument write frame makes the device drop it |
| `Frames.ReadPecInput` | drivers/power/adp1050/adp1055.c:152-162 | the read PEC covers, in order, the write address byte, the command byte, the read address byte and the data byte, which with the PEC fills the 5-byte read buffer |
| `Frames.ReadPecDetectsCorruption` | drivers/power/adp1050/adp1055.c:178-183 | if exactly one of the data byte and the PEC byte was corrupted, the read's PEC check fails |
| `Frames.ReadCompletion` | drivers/power/adp1050/adp1055.c:174-188 | a byte is stored exactly when 0 is returned; a failed transfer's status is returned unchanged; with PEC a mismatch returns -EIO and stores nothing, and a stored byte always carries a valid PEC; a successful transfer whose PEC is valid or not checked returns 0 and stores the received byte |
| `Adp1055.Device.constructor` | drivers/power/adp1050/adp1055.h:462-465 | a zero-filled descriptor has no bus and PEC disabled |
| `Adp1055.Calloc` | drivers/power/adp1050/adp1055.c:203-205 | allocation yields a fresh zero-filled descriptor, or NULL |
| `Adp1055.Free` | drivers/power/adp1050/adp1055.c:245 | freeing ends the descriptor's life and changes none of its fields |
| `Adp1055.SendCommand` | drivers/power/adp1050/adp1055.c:59-76 | -EINVAL on NULL, with no transfer; otherwise exactly one transfer, the Send Byte frame with stop, and its status is returned |
| `Adp1055.WriteByte` | drivers/power/adp1050/adp1055.c:84-101 | -EINVAL on NULL, with no transfer; otherwise exactly one transfer, the Write Byte frame with stop, and its status is returned |
| `Adp1055.PutPayload` | drivers/power/adp1050/adp1055.c:111-134 | the buffer from index 1 holds the command bytes, then the data bytes |
| `Adp1055.WriteN` | drivers/power/adp1050/adp1055.c:103-140 | -EINVAL on NULL, with no transfer; otherwise exactly one transfer, the four-argument write frame with stop, and its status is returned |
| `Adp1055.PutAsWritten` | drivers/power/adp1050/adp1055.c:105-134 | as written, the buffer holds the address, command and data bytes with zero padding, and the transfer length is the as-written one |
| `Adp1055.WriteNAsWritten` | drivers/power/adp1050/adp1055.c:103-140 | as written, on the in-bounds calls, exactly one transfer: the as-written frame |
| `Adp1055.ReadTranscriptOutcome` | drivers/power/adp1050/adp1055.c:164-188 | over any read transcript, a byte is stored exactly when 0 is returned; the status of a failed write or read is returned unchanged; the stored byte is the first received byte, with a valid PEC when PEC is enabled; a successful read whose PEC is valid or not checked always returns 0 and stores that byte |
| `Adp1055.Read` | drivers/power/adp1050/adp1055.c:149-189 | -EINVAL on NULL; otherwise the command byte is written without stop and, only if that succeeds, 1 or 2 bytes are read with stop; the result is the read completion; `*data` is unchanged unless 0 is returned |
| `Adp1055.Remove` | drivers/power/adp1050/adp1055.c:231-248 | -ENODEV on NULL; with a bus, OPERATION_OFF is written first and its failure is returned with nothing released; 0 exactly when bus and descriptor are released |
| `Adp1055.Init` | drivers/power/adp1050/adp1055.c:198-224 | a descriptor is returned exactly when 0 is; it is ready, carries the requested PEC flag, and its bus has seen exactly OPERATION_ON and then ON_OFF_CONFIG; a failed allocation returns -ENOMEM; exactly one `no_os_i2c_init` status is logged on the platform once a descriptor is allocated, the bus is missing exactly when that status is non-zero, and then that status is returned and the descriptor freed; a failed write returns its status, after which OPERATION_OFF is written and the descriptor is released exactly when that write succeeds |
| `Adp1055.InitAsWritten` | drivers/power/adp1050/adp1055.c:198-224 | as written, even a fully successful run returns 0 with no descriptor, after writing OPERATION_OFF and, if that succeeds, releasing bus and descriptor; PEC is never enabled and every frame is the one the four-argument write sends as written; a failed bus initialisation returns the logged `no_os_i2c_init` status and frees the descriptor |
| `Adp1055.SwitchOnAsWritten` | drivers/power/adp1050/adp1055.c:211-218 | as written, OPERATION_ON and then, only if it succeeded, ON_OFF_CONFIG are sent as the four-argument write's as-written frames, and the status of the last write made is returned |
| `Adp1055.RemoveAsWritten` | drivers/power/adp1050/adp1055.c:231-248 | as `Adp1055.Remove`, but OPERATION_OFF goes out as the frame the four-argument write sends as written |

## Left out

- The internals of `no_os_i2c_init`, `no_os_i2c_write`, `no_os_i2c_read` and `no_os_i2c_remove` are foreign code. The bus is a transport whose status and read data are arbitrary, recorded in a trace. The status of every `no_os_i2c_init` call is logged on an `I2c.Platform`, the state that stands for the platform the bus lives on. `I2c.InitParam` keeps only the slave address of `no_os_i2c_init_param`.
- The `no_os_crc8` lookup table and its population are not part of this model. The CRC is the bitwise definition the table encodes.
- `no_os_calloc` and `no_os_free` are a nondeterministic allocation and a ghost `live` flag. Use after free is excluded by preconditions, not modelled.
- The register meaning of the command codes and the TON delay/rise encodings (`adp1055.h:79-96`) are constants only. Commands are modelled by code, not by what they do in the device.
- `Adp1055.WriteNAsWritten` covers only the calls that stay inside its five-byte buffer. The extended word write, which stores and sends `val[5]`, is described by `Frames.AsWrittenInBoundsExactly` and is not executed by the model.
- `Adp1055.InitAsWritten` states the trace only for runs that return 0, the runs its finding is about; the failure paths are stated for the corrected `Adp1055.Init`.
- `Adp1055.Remove` switches the output off through the corrected four-argument write (`Adp1055.WriteN`), so its frame carries a correct PEC; the frame the source sends is the one of `Adp1055.RemoveAsWritten`.
- `Adp1055.Init` writes through the corrected `Adp1055.WriteN` and unwinds through `Adp1055.Remove`; the frames the source sends are those of `Adp1055.InitAsWritten`.
- The platform `main()` files and `parameters.h` under `projects/` are not part of this model: they contain bring-up code with no logic of this driver.
- Integer widths: `byte_num` is a `bv8`, commands and data are `bv16`, and the truncations `val[1] = command` and `addr << 1` are modelled as low-byte extraction and an 8-bit shift. Return codes are unbounded integers.

## Findings

| source | as written | input that shows it | evidently intended | confidence | as-written member | corrected member |
|---|---|---|---|---|---|---|
| drivers/power/adp1050/adp1055.c:71-73 | `send_command` hands the bus `val` with length 1, so the address byte is the payload; its PEC covers only the address byte | commands OPERATION (0x01) and ON_OFF_CONFIG (0x02) give the same one-byte transfer `[addr << 1]` | send `&val[1]`: the command byte, then the PEC over `[addr << 1, command]` when PEC is enabled | high; not executed | `Frames.SendCommandAsWrittenLosesCommand` | `Frames.SendCommandRoundTrip` |
| drivers/power/adp1050/adp1055.c:106-138 | the four-argument write stores the CRC of the first `crc_frame - 1` bytes at `val[crc_frame]` whatever the PEC flag, and sends `byte_num + 2` or `+ 3` bytes | address 0x70, OPERATION, data 0x80, `byte_num` 1, PEC on: sends `[0x01, 0x80, 0x00]` | `[0x01, 0x80, 0x52]`: command, data, then the PEC over address, command and all data, only when PEC is enabled | high; not executed | `Frames.WriteNAsWrittenRejectedByDevice` | `Frames.WriteNRoundTrip` |
| drivers/power/adp1050/adp1055.c:117-126 | an extended command with `byte_num > 1` writes `val[5]` of the five-byte `val` and sends five bytes from `val[1]` | command 0xFE00, `byte_num` 2 | a buffer of six bytes, holding address, two command bytes, two data bytes and the PEC | high; not executed | `Frames.AsWrittenInBoundsExactly` | `Adp1055.WriteN` |
| drivers/power/adp1050/adp1055.c:198-224 | the success path falls into `free_desc`, `*desc` is never assigned and `pece` is never copied | any run in which allocation, bus initialisation and both writes succeed: 0 is returned with no descriptor | return the initialised descriptor with the requested PEC flag, and remove it only on failure | high; not executed | `Adp1055.InitAsWritten` | `Adp1055.Init` |
