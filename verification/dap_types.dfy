/** Machine integers, the CMSIS-DAP identifiers this layer looks at, and the
    little-endian byte codecs that the SWO command handlers use. */
module DapTypes {

  /** C's fixed-width unsigned integers, kept as bounded mathematical integers;
      every wrap-around and truncation is written out where it happens. */
  type U8 = x: int | 0 <= x < 0x100
  type U16 = x: int | 0 <= x < 0x1_0000
  type U32 = x: int | 0 <= x < 0x1_0000_0000

  /** One byte of a packet or of a response. */
  type Byte = U8

  datatype Option<T> = None | Some(value: T)

  /** Command identifiers and status values of the CMSIS-DAP protocol
      (DAP.h of CMSIS-DAP, which is not part of this model). */
  const ID_DAP_TransferAbort: Byte := 0x07
  const ID_DAP_ExecuteCommands: Byte := 0x7F
  const ID_DAP_QueueCommands: Byte := 0x7E

  const DAP_OK: Byte := 0x00
  const DAP_ERROR: Byte := 0xFF

  /** SWO trace modes. */
  const DAP_SWO_OFF: Byte := 0
  const DAP_SWO_UART: Byte := 1
  const DAP_SWO_MANCHESTER: Byte := 2

  /** SWO status bit: capture active. */
  const DAP_SWO_CAPTURE_ACTIVE: Byte := 0x01

  /** `(uint16_t)x`: keep the low sixteen bits. */
  function ToU16(x: int): (h: U16)
    ensures x >= 0 && x < 0x1_0000 ==> h == x
    ensures (x - h) % 0x1_0000 == 0
  {
    x % 0x1_0000
  }

  /** `a | b` on two bytes. */
  function Or8(a: Byte, b: Byte): Byte
  {
    ((a as bv8) | (b as bv8)) as int
  }

  /** `a & b` on two bytes. */
  function And8(a: Byte, b: Byte): Byte
  {
    ((a as bv8) & (b as bv8)) as int
  }

  /** The two bytes `(uint8_t)(x >> 0), (uint8_t)(x >> 8)`, least significant first. */
  function Le16(x: U16): (b: seq<Byte>)
    ensures |b| == 2
  {
    [x % 0x100, x / 0x100]
  }

  /** `(uint32_t)(b[0] << 0) | (uint32_t)(b[1] << 8)`. */
  function FromLe16(b: seq<Byte>): (x: U16)
    requires |b| >= 2
  {
    b[0] as int + 0x100 * b[1] as int
  }

  /** The four bytes `(uint8_t)(x >> 0)` ... `(uint8_t)(x >> 24)`, least significant first. */
  function Le32(x: U32): (b: seq<Byte>)
    ensures |b| == 4
  {
    [x % 0x100, (x / 0x100) % 0x100, (x / 0x1_0000) % 0x100, x / 0x100_0000]
  }

  /** `b[0] | b[1] << 8 | b[2] << 16 | b[3] << 24`. */
  function FromLe32(b: seq<Byte>): (x: U32)
    requires |b| >= 4
  {
    b[0] as int + 0x100 * b[1] as int + 0x1_0000 * b[2] as int + 0x100_0000 * b[3] as int
  }

  lemma Le16RoundTrip(x: U16)
    ensures FromLe16(Le16(x)) == x
  {
  }

  lemma FromLe16RoundTrip(b: seq<Byte>)
    requires |b| == 2
    ensures Le16(FromLe16(b)) == b
  {
  }

  /** Decoding the four bytes written for a 32-bit value gives the value back. */
  lemma Le32RoundTrip(x: U32)
    ensures FromLe32(Le32(x)) == x
  {
    var q1, q2, q3 := x / 0x100, x / 0x1_0000, x / 0x100_0000;
    assert q2 == q1 / 0x100;
    assert q3 == q2 / 0x100;
    assert x == 0x100 * q1 + x % 0x100;
    assert q1 == 0x100 * q2 + q1 % 0x100;
    assert q2 == 0x100 * q3 + q2 % 0x100;
  }

  /** Encoding the value read from four bytes writes the same four bytes. */
  lemma FromLe32RoundTrip(b: seq<Byte>)
    requires |b| == 4
    ensures Le32(FromLe32(b)) == b
  {
    var x := FromLe32(b);
    assert x / 0x100 == b[1] as int + 0x100 * b[2] as int + 0x1_0000 * b[3] as int;
    assert x / 0x1_0000 == b[2] as int + 0x100 * b[3] as int;
    assert x / 0x100_0000 == b[3];
  }

  /** A handler's return value `(request_len << 16) | response_len`; the caller
      takes the response length back with `result & 0xFFFF`. */
  function Pack(requestLen: U16, responseLen: U16): (r: U32)
    ensures r % 0x1_0000 == responseLen
    ensures r / 0x1_0000 == requestLen
  {
    requestLen * 0x1_0000 + responseLen
  }
}
