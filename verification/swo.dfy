/** The SWO (serial wire output) trace commands of CMSIS-DAP: the module
    state `TraceTransport`, `TraceMode`, `TraceStatus`, the two banks of
    `TraceError` and the active bank index `TraceError_n`, driven by the
    command handlers.

    The capture drivers (UART, Manchester) are an oracle: what a driver
    answers is an input of the handler that calls it, and every call is
    appended to the ghost log `calls`. The trace buffer is a byte FIFO: its
    count is the number of bytes held, a drain removes the oldest ones. */
module Swo {
  import opened DapTypes

  /** Build options of DAP_config.h: which capture drivers are compiled in,
      whether streaming transport is, and DAP_PACKET_SIZE. */
  datatype Config = Config(uart: bool, manchester: bool, stream: bool, packetSize: nat)

  /** The file is compiled only with at least one driver; a packet holds at
      least the 4-byte header of a data response and fits in 16 bits. */
  predicate ConfigOk(cfg: Config)
  {
    (cfg.uart || cfg.manchester) && 4 <= cfg.packetSize < 0x1_0000
  }

  /** A call made to a capture driver: `SWO_Mode_<drv>(enable)`,
      `SWO_Baudrate_<drv>(baudrate)`, `SWO_Control_<drv>(active)`. */
  datatype DriverCall =
    | ModeCall(mode: Byte, enable: bool)
    | BaudrateCall(mode: Byte, baudrate: U32)
    | ControlCall(mode: Byte, active: Byte)

  /** True when `mode` selects a driver that is compiled in (a `case` of the
      `switch (TraceMode)` statements that exists in this build). */
  predicate IsDriverMode(cfg: Config, mode: Byte)
  {
    (mode == DAP_SWO_UART && cfg.uart) || (mode == DAP_SWO_MANCHESTER && cfg.manchester)
  }

  /** The transports SWO_Transport accepts: 0 (none) and 1 (read through
      SWO_Data), and 2 (streaming) when streaming is compiled in. */
  predicate TransportSupported(cfg: Config, t: Byte)
  {
    t == 0 || t == 1 || (cfg.stream && t == 2)
  }

  /** `x & DAP_SWO_CAPTURE_ACTIVE`: the capture bit. */
  function CaptureBit(x: Byte): (b: Byte)
    ensures b == x % 2
    ensures b <= 1
  {
    And8(x, DAP_SWO_CAPTURE_ACTIVE)
  }

  /** The one-byte answer of a handler: `DAP_OK` on success, `DAP_ERROR` otherwise. */
  function Answer(ok: bool): (b: Byte)
    ensures b == DAP_OK <==> ok
    ensures b == DAP_ERROR <==> !ok
  {
    if ok then DAP_OK else DAP_ERROR
  }

  /** The number of trace bytes SWO_Data returns: with transport 1, the
      available count clamped to the requested count and to the room left in
      a packet after the 3-byte header (`DAP_PACKET_SIZE - 4`); none otherwise. */
  function DataCount(cfg: Config, transport: Byte, available: nat, requested: U16): (n: nat)
    requires ConfigOk(cfg)
    ensures transport != 1 ==> n == 0
    ensures transport == 1 ==>
      && n <= available && n <= requested && n <= cfg.packetSize - 4
      && (n == available || n == requested || n == cfg.packetSize - 4)
  {
    if transport == 1 then
      var limit := if requested > cfg.packetSize - 4 then cfg.packetSize - 4 else requested;
      if available > limit then limit else available
    else 0
  }

  /** The five bytes of an SWO_Status response: status, then the trace count
      least significant byte first. */
  function StatusResponse(status: Byte, count: U32): (r: seq<Byte>)
    ensures |r| == 5 && r[0] == status
  {
    [status] + Le32(count)
  }

  /** A host's reading of an SWO_Status response gives back what was encoded. */
  lemma StatusResponseDecodes(status: Byte, count: U32)
    ensures var r := StatusResponse(status, count);
      r[0] == status && FromLe32(r[1..]) == count
  {
    var r := StatusResponse(status, count);
    assert r[1..] == Le32(count);
    Le32RoundTrip(count);
  }

  /** The response of SWO_Data: status, the byte count as 16 bits, the bytes. */
  function DataResponse(status: Byte, data: seq<Byte>): (r: seq<Byte>)
    requires |data| < 0x1_0000
    ensures |r| == 3 + |data| && r[0] == status
  {
    [status] + Le16(|data|) + data
  }

  /** A host's reading of an SWO_Data response: the status, then as many
      trace bytes as the count field announces. */
  lemma DataResponseDecodes(status: Byte, data: seq<Byte>)
    requires |data| < 0x1_0000
    ensures var r := DataResponse(status, data);
      && r[0] == status && FromLe16(r[1..3]) == |data| && r[3..3 + FromLe16(r[1..3])] == data
  {
    var r := DataResponse(status, data);
    assert r[1..3] == Le16(|data|);
    Le16RoundTrip(|data|);
    assert r[3..] == data;
  }

  /** The length of an SWO_ExtendedStatus response: one byte when bit 0 of
      the command is set, four when bit 1 is. */
  function ExtendedLength(cmd: Byte): (n: U16)
    ensures n <= 5
    ensures n % 4 == 1 <==> And8(cmd, 0x01) != 0
    ensures n >= 4 <==> And8(cmd, 0x02) != 0
  {
    (if And8(cmd, 0x01) != 0 then 1 else 0) + (if And8(cmd, 0x02) != 0 then 4 else 0)
  }

  /** The module state of SWO.c. */
  class SwoState {
    const cfg: Config

    var traceTransport: Byte
    var traceMode: Byte
    var traceStatus: Byte
    const traceError: array<Byte>
    var traceErrorN: Byte

    /** The trace buffer, oldest byte first. */
    var traceData: seq<Byte>
    /** Calls made to the capture drivers, in order. */
    ghost var calls: seq<DriverCall>

    /** The invariant every handler keeps: the mode is off or a compiled-in
        driver's, the transport one that SWO_Transport accepts, the status at
        most the capture bit, the bank index 0 or 1. */
    ghost predicate Valid()
      reads this
    {
      && ConfigOk(cfg)
      && traceError.Length == 2
      && traceErrorN <= 1
      && traceStatus <= DAP_SWO_CAPTURE_ACTIVE
      && (traceMode == DAP_SWO_OFF || IsDriverMode(cfg, traceMode))
      && TransportSupported(cfg, traceTransport)
      && |traceData| < 0x1_0000_0000
    }

    predicate CaptureActive()
      reads this
    {
      CaptureBit(traceStatus) != 0
    }

    /** The static initialisers: everything zero, the trace buffer empty. */
    constructor (cfg: Config)
      requires ConfigOk(cfg)
      ensures Valid() && fresh(traceError)
      ensures this.cfg == cfg
      ensures traceTransport == 0 && traceMode == DAP_SWO_OFF && traceStatus == 0
      ensures traceError[..] == [0, 0] && traceErrorN == 0
      ensures traceData == [] && calls == []
    {
      this.cfg := cfg;
      traceTransport, traceMode, traceStatus, traceErrorN := 0, 0, 0, 0;
      traceError := new Byte[2](_ => 0);
      traceData, calls := [], [];
    }

    /** Trace bytes captured by the driver arrive in the buffer (the writer
        side of the trace buffer, outside SWO.c). */
    method TraceArrived(bytes: seq<Byte>)
      requires Valid() && |traceData| + |bytes| < 0x1_0000_0000
      modifies this
      ensures Valid()
      ensures traceData == old(traceData) + bytes
      ensures GetTraceCount() == old(GetTraceCount()) + |bytes|
      ensures traceTransport == old(traceTransport) && traceMode == old(traceMode)
      ensures traceStatus == old(traceStatus) && traceErrorN == old(traceErrorN) && calls == old(calls)
    {
      traceData := traceData + bytes;
    }

    /** `ClearTrace`: both error banks and the bank index to zero, the trace buffer emptied. */
    method ClearTrace()
      requires Valid()
      modifies this, traceError
      ensures Valid()
      ensures traceError[..] == [0, 0] && traceErrorN == 0 && traceData == [] && GetTraceCount() == 0
      ensures traceTransport == old(traceTransport) && traceMode == old(traceMode)
      ensures traceStatus == old(traceStatus) && calls == old(calls)
    {
      traceError[0] := 0;
      traceError[1] := 0;
      traceErrorN := 0;
      traceData := [];
    }

    /** `GetTraceCount`: the number of bytes in the trace buffer, zero exactly
        when no trace byte is waiting. ClearTrace brings it to zero,
        TraceArrived raises it by the bytes that arrive and SWO_Data lowers it
        by the bytes it drains. */
    function GetTraceCount(): (n: U32)
      requires Valid()
      reads this
      ensures n == 0 <==> traceData == []
    {
      |traceData|
    }

    /** `GetTraceStatus`: the status together with the error flags of the
        active bank; that bank is cleared and the other becomes active. */
    method GetTraceStatus() returns (status: Byte)
      requires Valid()
      modifies this, traceError
      ensures Valid()
      ensures status == Or8(old(traceStatus), old(traceError[traceErrorN]))
      ensures traceErrorN == 1 - old(traceErrorN)
      ensures traceError[old(traceErrorN)] == 0
      ensures traceError[traceErrorN] == old(traceError[1 - traceErrorN])
      ensures traceTransport == old(traceTransport) && traceMode == old(traceMode)
      ensures traceStatus == old(traceStatus) && traceData == old(traceData) && calls == old(calls)
    {
      var n := traceErrorN;
      traceErrorN := 1 - traceErrorN;  // `TraceError_n ^= 1U` on a bank index of 0 or 1
      status := Or8(traceStatus, traceError[n]);
      traceError[n] := 0;
    }

    /** `SWO_Transport`: while capture is inactive, a supported transport is
        stored and the answer is DAP_OK; otherwise nothing changes and the
        answer is DAP_ERROR. */
    method Transport(request: seq<Byte>) returns (response: seq<Byte>, result: U32)
      requires Valid() && |request| >= 1
      modifies this
      ensures Valid()
      ensures var ok := !old(CaptureActive()) && TransportSupported(cfg, request[0]);
        && response == [Answer(ok)]
        && traceTransport == if ok then request[0] else old(traceTransport)
      ensures result == Pack(1, 1) && |response| == result % 0x1_0000
      ensures traceMode == old(traceMode) && traceStatus == old(traceStatus)
      ensures traceErrorN == old(traceErrorN) && traceData == old(traceData) && calls == old(calls)
    {
      var ok := false;
      if CaptureBit(traceStatus) == 0 {
        var transport := request[0];
        if transport == 0 || transport == 1 || (cfg.stream && transport == 2) {
          traceTransport := transport;
          ok := true;
        }
      }
      response := [Answer(ok)];
      result := Pack(1, 1);
    }

    /** `SWO_Mode`: switch the current driver off, then switch the requested
        mode on. Mode off always succeeds; a compiled-in driver's mode succeeds
        when its driver says so (`driverOk`); any other mode fails. On success
        the requested mode is stored, on failure the mode is off; the status
        is cleared in every case. */
    method Mode(request: seq<Byte>, driverOk: bool) returns (response: seq<Byte>, result: U32)
      requires Valid() && |request| >= 1
      modifies this
      ensures Valid()
      ensures var mode := request[0];
        var ok := mode == DAP_SWO_OFF || (IsDriverMode(cfg, mode) && driverOk);
        && response == [Answer(ok)]
        && traceMode == (if ok then mode else DAP_SWO_OFF)
        && calls == old(calls)
             + (if IsDriverMode(cfg, old(traceMode)) then [ModeCall(old(traceMode), false)] else [])
             + (if IsDriverMode(cfg, mode) then [ModeCall(mode, true)] else [])
      ensures traceStatus == 0
      ensures result == Pack(1, 1) && |response| == result % 0x1_0000
      ensures traceTransport == old(traceTransport) && traceErrorN == old(traceErrorN) && traceData == old(traceData)
    {
      var mode := request[0];
      if IsDriverMode(cfg, traceMode) {
        calls := calls + [ModeCall(traceMode, false)];
      }
      var ok: bool;
      if mode == DAP_SWO_OFF {
        ok := true;
      } else if IsDriverMode(cfg, mode) {
        calls := calls + [ModeCall(mode, true)];
        ok := driverOk;
      } else {
        ok := false;
      }
      if ok {
        traceMode := mode;
      } else {
        traceMode := DAP_SWO_OFF;
      }
      traceStatus := 0;
      response := [Answer(ok)];
      result := Pack(1, 1);
    }

    /** `SWO_Baudrate`: decode the requested baud rate, let the current
        mode's driver configure it (`actual` is what the driver answers: the
        rate set, or 0), answer with that rate as four little-endian bytes. With
        no driver mode the answer is 0; an answer of 0 clears the status. */
    method Baudrate(request: seq<Byte>, actual: U32) returns (response: seq<Byte>, result: U32)
      requires Valid() && |request| >= 4
      modifies this
      ensures Valid()
      ensures var baudrate := if IsDriverMode(cfg, old(traceMode)) then actual else 0;
        && response == Le32(baudrate) && FromLe32(response) == baudrate
        && traceStatus == (if baudrate == 0 then 0 else old(traceStatus))
        && calls == old(calls)
             + (if IsDriverMode(cfg, old(traceMode)) then [BaudrateCall(old(traceMode), FromLe32(request))] else [])
      ensures result == Pack(4, 4) && |response| == result % 0x1_0000
      ensures traceTransport == old(traceTransport) && traceMode == old(traceMode)
      ensures traceErrorN == old(traceErrorN) && traceData == old(traceData)
    {
      var baudrate := FromLe32(request);
      if IsDriverMode(cfg, traceMode) {
        calls := calls + [BaudrateCall(traceMode, baudrate)];
        baudrate := actual;
      } else {
        baudrate := 0;
      }
      if baudrate == 0 {
        traceStatus := 0;
      }
      response := Le32(baudrate);
      Le32RoundTrip(baudrate);
      result := Pack(4, 4);
    }

    /** `SWO_Control`: asking for the capture state already in force answers
        DAP_OK and changes nothing. Otherwise starting a capture first clears
        the errors and the trace buffer, then the current mode's driver is
        asked (`driverOk`); the status takes the requested state only when it
        agrees, and with no driver mode the answer is DAP_ERROR. */
    method Control(request: seq<Byte>, driverOk: bool) returns (response: seq<Byte>, result: U32)
      requires Valid() && |request| >= 1
      modifies this, traceError
      ensures Valid()
      ensures var active := CaptureBit(request[0]);
        var change := active != CaptureBit(old(traceStatus));
        var ok := !change || (IsDriverMode(cfg, old(traceMode)) && driverOk);
        && response == [Answer(ok)]
        && traceStatus == (if change && ok then active else old(traceStatus))
        && (change && active != 0 ==> traceError[..] == [0, 0] && traceErrorN == 0 && traceData == [])
        && (!(change && active != 0) ==>
              traceError[..] == old(traceError[..]) && traceErrorN == old(traceErrorN) && traceData == old(traceData))
        && calls == old(calls)
             + (if change && IsDriverMode(cfg, old(traceMode)) then [ControlCall(old(traceMode), active)] else [])
      ensures result == Pack(1, 1) && |response| == result % 0x1_0000
      ensures traceTransport == old(traceTransport) && traceMode == old(traceMode)
    {
      var active := CaptureBit(request[0]);
      var ok: bool;
      if active != CaptureBit(traceStatus) {
        if active != 0 {
          ClearTrace();
        }
        if IsDriverMode(cfg, traceMode) {
          calls := calls + [ControlCall(traceMode, active)];
          ok := driverOk;
        } else {
          ok := false;
        }
        if ok {
          traceStatus := active;
        }
      } else {
        ok := true;
      }
      response := [Answer(ok)];
      result := Pack(1, 1);
    }

    /** `SWO_Status`: the status (reading it clears the active error bank)
        and the trace count. */
    method Status() returns (response: seq<Byte>, result: U32)
      requires Valid()
      modifies this, traceError
      ensures Valid()
      ensures response == StatusResponse(Or8(old(traceStatus), old(traceError[traceErrorN])), GetTraceCount())
      ensures traceErrorN == 1 - old(traceErrorN) && traceError[old(traceErrorN)] == 0
      ensures traceError[traceErrorN] == old(traceError[1 - traceErrorN])
      ensures result == 5 && |response| == result
      ensures traceTransport == old(traceTransport) && traceMode == old(traceMode)
      ensures traceStatus == old(traceStatus) && traceData == old(traceData) && calls == old(calls)
    {
      var status := GetTraceStatus();
      var count := GetTraceCount();
      response := StatusResponse(status, count);
      result := 5;
    }

    /** `SWO_ExtendedStatus` without the timestamp: the status when bit 0 of
        the command is set (reading it clears the active error bank), the
        trace count when bit 1 is. */
    method ExtendedStatus(request: seq<Byte>) returns (response: seq<Byte>, result: U32)
      requires Valid() && |request| >= 1
      modifies this, traceError
      ensures Valid()
      ensures var cmd := request[0];
        && response == (if And8(cmd, 0x01) != 0 then [Or8(old(traceStatus), old(traceError[traceErrorN]))] else [])
                       + (if And8(cmd, 0x02) != 0 then Le32(GetTraceCount()) else [])
        && (And8(cmd, 0x01) != 0 ==>
              && traceErrorN == 1 - old(traceErrorN) && traceError[old(traceErrorN)] == 0
              && traceError[traceErrorN] == old(traceError[1 - traceErrorN]))
        && (And8(cmd, 0x01) == 0 ==> traceErrorN == old(traceErrorN) && traceError[..] == old(traceError[..]))
        && result == Pack(1, ExtendedLength(cmd))
      ensures |response| == result % 0x1_0000
      ensures traceTransport == old(traceTransport) && traceMode == old(traceMode)
      ensures traceStatus == old(traceStatus) && traceData == old(traceData) && calls == old(calls)
    {
      var cmd := request[0];
      var num := 0;
      response := [];
      if And8(cmd, 0x01) != 0 {
        var status := GetTraceStatus();
        response := response + [status];
        num := num + 1;
      }
      if And8(cmd, 0x02) != 0 {
        var count := GetTraceCount();
        response := response + Le32(count);
        num := num + 4;
      }
      result := Pack(1, num);
    }

    /** `SWO_Data`: the status, then (with transport 1) as many trace bytes as
        are available, requested and fit in a packet, drained from the buffer
        oldest first; with any other transport no byte is drained and the
        count is 0. */
    method Data(request: seq<Byte>) returns (response: seq<Byte>, result: U32)
      requires Valid() && |request| >= 2
      modifies this, traceError
      ensures Valid()
      ensures var n := DataCount(cfg, old(traceTransport), |old(traceData)|, FromLe16(request));
        && n <= |old(traceData)|
        && response == DataResponse(Or8(old(traceStatus), old(traceError[traceErrorN])), old(traceData)[..n])
        && traceData == old(traceData)[n..]
        && GetTraceCount() == old(GetTraceCount()) - n
        && result == Pack(2, 3 + n)
      ensures |response| == result % 0x1_0000
      ensures traceErrorN == 1 - old(traceErrorN) && traceError[old(traceErrorN)] == 0
      ensures traceError[traceErrorN] == old(traceError[1 - traceErrorN])
      ensures traceTransport == old(traceTransport) && traceMode == old(traceMode)
      ensures traceStatus == old(traceStatus) && calls == old(calls)
    {
      var status := GetTraceStatus();
      var count := GetTraceCount();
      if traceTransport == 1 {
        var n := FromLe16(request);
        if n > cfg.packetSize - 4 {
          n := cfg.packetSize - 4;
        }
        if count > n {
          count := n;
        }
      } else {
        count := 0;
      }
      response := [status] + Le16(count);
      if traceTransport == 1 {
        response := response + traceData[..count];  // TraceBuffer_Drain
        traceData := traceData[count..];
      }
      result := Pack(2, 3 + count);
    }

    /** `SWO_GetTraceMode`: off or the mode of a compiled-in driver. */
    function GetTraceMode(): (mode: U32)
      requires Valid()
      reads this
      ensures mode < 0x100 && (mode == DAP_SWO_OFF || IsDriverMode(cfg, mode))
    {
      traceMode
    }

    /** `SWO_GetTransportMode`: a transport SWO_Transport accepts. */
    function GetTransportMode(): (transport: U32)
      requires Valid()
      reads this
      ensures transport < 0x100 && TransportSupported(cfg, transport)
    {
      traceTransport
    }
  }
}
