/** The CMSIS-DAP USB class driver: per interface, a request ring (OUT
    endpoint, host to probe) and a response ring (IN endpoint, probe to host)
    of DAP_PACKET_COUNT slots of DAP_PACKET_SIZE bytes, indexed by free-running
    8-bit counters.

    The USB device stack is an oracle: whether an endpoint is busy and whether
    it accepts a transfer are inputs of the methods that ask, and every
    transfer it accepts is appended to the ghost log `xfers`. Each API call and
    each completion callback is one atomic step. */
module CmsisDapDevice {
  import opened DapTypes
  import opened Ring
  import opened Batch

  /** The buffer pool a transfer reads from or writes to. */
  datatype Pool = OutPool | InPool

  /** A transfer accepted by the USB stack: endpoint, pool, first slot, byte count. */
  datatype Xfer = Xfer(ep: U8, pool: Pool, slot: nat, len: U16)

  /** A buffer handed to the application: the slot `*pbuf` points at and the
      returned byte count. */
  datatype Grant = Grant(slot: nat, len: nat)

  /** `sizeof(tusb_desc_endpoint_t)`. */
  const ENDPOINT_DESC_LEN: nat := 7

  /** One interface record (`cmsis_dap_interface_t`). */
  class DapInterface {
    const count: nat   // DAP_PACKET_COUNT
    const size: nat    // DAP_PACKET_SIZE

    var itfNum: U8
    var epIn: U8
    var epOut: U8
    var requestWp: U8
    var requestRp: U8
    var responseWp: U8
    var responseRp: U8
    const epoutSz: array<U16>
    const epinSz: array<U16>
    const epoutBuf: array2<Byte>
    const epinBuf: array2<Byte>

    /** Lengths of the released responses not yet handed to the IN endpoint, oldest first. */
    ghost var inQueue: seq<U16>
    /** Transfers the USB stack accepted on this interface's endpoints, in order. */
    ghost var xfers: seq<Xfer>
    /** Number of abort notifications delivered for this interface. */
    ghost var aborts: nat

    ghost function Repr(): set<object>
    {
      {this, epoutSz, epinSz, epoutBuf, epinBuf}
    }

    ghost predicate Valid()
      reads this, epinSz
    {
      && PacketCount(count) && count < 0x100 && 0 < size < 0x1_0000
      && epoutSz.Length == count && epinSz.Length == count && epoutSz != epinSz
      && epoutBuf.Length0 == count && epoutBuf.Length1 == size
      && epinBuf.Length0 == count && epinBuf.Length1 == size && epoutBuf != epinBuf
      && ReqOcc() <= count && RspOcc() <= count
      && |inQueue| == RspOcc()
      && forall k :: 0 <= k < |inQueue| ==> epinSz[PendingSlot(responseRp, k, count)] == inQueue[k]
    }

    /** Packets received and not yet released. */
    function ReqOcc(): nat
      reads this
    {
      Occupancy(requestWp, requestRp)
    }

    /** Responses released and not yet handed to the IN endpoint. */
    function RspOcc(): nat
      reads this
    {
      Occupancy(responseWp, responseRp)
    }

    function Counters(): (U8, U8, U8, U8)
      reads this
    {
      (requestWp, requestRp, responseWp, responseRp)
    }

    function Endpoints(): (U8, U8, U8)
      reads this
    {
      (itfNum, epOut, epIn)
    }

    /** `tud_cmsis_dap_n_mounted`: both endpoints are bound. A mounted record
        owns both of its endpoints and never the unbound address 0. */
    predicate Mounted()
      reads this
      ensures Mounted() ==> Owns(epIn) && Owns(epOut) && !Owns(0)
    {
      epIn != 0 && epOut != 0
    }

    /** True when `ep` is one of this interface's endpoints. */
    predicate Owns(ep: U8)
      reads this
    {
      ep == epOut || ep == epIn
    }

    /** First bytes (command identifiers) of the pending request packets, oldest first. */
    ghost function PendingMarkers(): (m: seq<Byte>)
      requires Valid()
      reads this, epinSz, epoutBuf
      ensures |m| == ReqOcc()
    {
      var rp, c, n := requestRp, count, ReqOcc();
      seq(n, k requires 0 <= k < n reads epoutBuf => epoutBuf[PendingSlot(rp, k, c), 0])
    }

    /** Number of slots whose queue marker an acquire rewrites. */
    ghost function Rewritten(m: seq<Byte>): nat
    {
      if TerminalPresent(m) then LeadingQueued(m) else 0
    }

    /** The transfer `_prep_out_transaction` gets accepted in the current
        state: reception into the write counter's slot, when the endpoint is
        idle and the request ring has room. */
    ghost function ArmOut(busy: bool, xferOk: bool): seq<Xfer>
      requires Valid()
      reads this, epinSz
    {
      if !busy && ReqOcc() < count && xferOk
      then [Xfer(epOut, OutPool, Mod(requestWp, count), size)]
      else []
    }

    /** True when `maybe_transmit` hands a response to the IN endpoint in the
        current state. */
    ghost predicate TransmitNow(busy: bool, xferOk: bool)
      reads this
    {
      !busy && RspOcc() > 0 && xferOk
    }

    /** True when the packet that completes on the OUT endpoint now is an abort request. */
    ghost predicate AbortArrives(bytes: U32)
      requires Valid()
      reads this, epinSz, epoutBuf
    {
      bytes > 0 && epoutBuf[Mod(requestWp, count), 0] == ID_DAP_TransferAbort
    }

    /** The new state after `maybe_transmit`, relative to the state before it:
        when the IN endpoint is idle, a response is pending and the stack
        accepts it, the oldest response is handed over with its recorded
        length and the read counter advances; otherwise nothing changes. */
    twostate predicate Transmitted(busy: bool, xferOk: bool)
      requires old(Valid()) && Valid()
      reads this, epoutSz, epinSz, epoutBuf, epinBuf
    {
      && requestWp == old(requestWp) && requestRp == old(requestRp) && responseWp == old(responseWp)
      && Endpoints() == old(Endpoints()) && aborts == old(aborts)
      && unchanged(epoutSz, epinSz, epoutBuf, epinBuf)
      && if old(TransmitNow(busy, xferOk)) then
           && responseRp == Inc(old(responseRp))
           && RspOcc() == old(RspOcc()) - 1
           && inQueue == old(inQueue)[1..]
           && xfers == old(xfers) + [Xfer(epIn, InPool, Mod(old(responseRp), count), old(inQueue)[0])]
         else
           responseRp == old(responseRp) && inQueue == old(inQueue) && xfers == old(xfers)
    }

    /** The new state after the OUT branch of `cmsis_dapd_xfer_cb`, relative to
        the state before it: with data, the byte count (as a `uint16_t`) is
        recorded in the write counter's slot and no other; an abort request is
        reported once and leaves the write counter, any other packet advances
        it; reception is then re-armed. Nothing else changes. */
    twostate predicate OutCompleted(bytes: U32, abortHooked: bool, busy: bool, xferOk: bool)
      requires old(Valid()) && Valid()
      reads this, epoutSz, epinSz, epoutBuf, epinBuf
    {
      && (bytes == 0 ==> unchanged(epoutSz))
      && (bytes > 0 ==> epoutSz[Mod(old(requestWp), count)] == ToU16(bytes))
      && (forall s :: 0 <= s < count && s != Mod(old(requestWp), count) ==> epoutSz[s] == old(epoutSz[s]))
      && requestWp == (if bytes > 0 && !old(AbortArrives(bytes)) then Inc(old(requestWp)) else old(requestWp))
      && aborts == old(aborts) + (if old(AbortArrives(bytes)) && abortHooked then 1 else 0)
      && requestRp == old(requestRp) && responseWp == old(responseWp) && responseRp == old(responseRp)
      && Endpoints() == old(Endpoints()) && inQueue == old(inQueue)
      && unchanged(epinSz, epoutBuf, epinBuf)
      && xfers == old(xfers) + ArmOut(busy, xferOk)
    }

    /** `cmsis_dapd_init` for one record: everything zero. */
    constructor (count: nat, size: nat)
      requires PacketCount(count) && count < 0x100 && 0 < size < 0x1_0000
      ensures Valid() && fresh(Repr())
      ensures this.count == count && this.size == size
      ensures Endpoints() == (0, 0, 0) && Counters() == (0, 0, 0, 0)
      ensures forall s :: 0 <= s < count ==> epoutSz[s] == 0 && epinSz[s] == 0
      ensures forall s, j :: 0 <= s < count && 0 <= j < size ==> epoutBuf[s, j] == 0 && epinBuf[s, j] == 0
      ensures inQueue == [] && xfers == [] && aborts == 0
    {
      this.count, this.size := count, size;
      itfNum, epIn, epOut := 0, 0, 0;
      requestWp, requestRp, responseWp, responseRp := 0, 0, 0, 0;
      epoutSz := new U16[count](_ => 0);
      epinSz := new U16[count](_ => 0);
      epoutBuf := new Byte[count, size]((_, _) => 0);
      epinBuf := new Byte[count, size]((_, _) => 0);
      inQueue, xfers, aborts := [], [], 0;
    }

    /** Bus reset (`tu_memclr(p_itf, ITF_MEM_RESET_SIZE)`): clears every field
        before `epout_sz`, the four counters included; the size arrays and the
        buffers are kept. A bus reset also ends every transfer in flight. */
    method BusReset()
      requires Valid()
      modifies this
      ensures Valid()
      ensures Endpoints() == (0, 0, 0) && Counters() == (0, 0, 0, 0)
      ensures !Mounted() && ReqOcc() == 0 && RspOcc() == 0
      ensures unchanged(epoutSz, epinSz, epoutBuf, epinBuf)
      ensures inQueue == [] && xfers == old(xfers) && aborts == old(aborts)
    {
      itfNum, epIn, epOut := 0, 0, 0;
      requestWp, requestRp, responseWp, responseRp := 0, 0, 0, 0;
      inQueue := [];
    }

    /** `_prep_out_transaction`: re-arm reception into the write counter's
        slot unless the endpoint is busy or the request ring is full. The
        stack's answer is ignored. */
    method PrepOutTransaction(busy: bool, xferOk: bool)
      requires Valid()
      modifies this
      ensures Valid()
      ensures Counters() == old(Counters()) && Endpoints() == old(Endpoints())
      ensures inQueue == old(inQueue) && aborts == old(aborts)
      ensures xfers == old(xfers) + ArmOut(busy, xferOk)
    {
      if busy {
        return;
      }
      var occupancy := Occupancy(requestWp, requestRp);
      if occupancy < count {
        var idx := Mod(requestWp, count);
        if xferOk {
          xfers := xfers + [Xfer(epOut, OutPool, idx, size)];
        }
      }
    }

    /** The first loop of `tud_cmsis_dap_n_acquire_request_buffer`: walk the
        pending packets from the read counter while they carry the queue
        marker; the batch is complete when the walk stops before the write
        counter. */
    method BatchComplete() returns (complete: bool)
      requires Valid()
      ensures complete <==> TerminalPresent(PendingMarkers())
    {
      ghost var m := PendingMarkers();
      ghost var occ := ReqOcc();
      var rp := requestRp;
      var wp := requestWp;
      var n := Mod(rp, count);
      ghost var k := 0;
      assert wp == (requestRp + occ) % 0x100;
      while wp != rp && epoutBuf[n, 0] == ID_DAP_QueueCommands
        invariant k <= occ
        invariant rp == (requestRp + k) % 0x100
        invariant n == PendingSlot(requestRp, k, count)
        invariant forall j :: 0 <= j < k ==> m[j] == ID_DAP_QueueCommands
        decreases occ - k
      {
        assert m[k] == epoutBuf[n, 0];
        PendingSlotNext(requestRp, k, count);
        rp := Inc(rp);
        n := n + 1;
        if n == count {
          n := 0;
        }
        k := k + 1;
      }
      CountersEqual(requestRp, k, occ);
      if wp != rp {
        assert m[k] == epoutBuf[n, 0];
      }
      complete := wp != rp;
    }

    /** `tud_cmsis_dap_n_acquire_request_buffer`: hand out the oldest request
        packet, but only once the batch it starts is complete; then turn the
        queue markers of that batch into execute markers, in place. Neither
        counter moves. */
    method AcquireRequest() returns (r: Option<Grant>)
      requires Valid()
      modifies epoutBuf
      ensures Valid()
      ensures r.None? <==> !TerminalPresent(old(PendingMarkers()))
      ensures r.Some? ==> r.value == Grant(Mod(requestRp, count), epoutSz[Mod(requestRp, count)])
      ensures PendingMarkers() == AfterAcquire(old(PendingMarkers()))
      ensures forall j :: 0 <= j < count ==>
        epoutBuf[PendingSlot(requestRp, j, count), 0]
          == if j < Rewritten(old(PendingMarkers())) then ID_DAP_ExecuteCommands
             else old(epoutBuf[PendingSlot(requestRp, j, count), 0])
      ensures forall s, b :: 0 <= s < count && 1 <= b < size ==> epoutBuf[s, b] == old(epoutBuf[s, b])
    {
      if requestWp == requestRp {
        return None;
      }
      var complete := BatchComplete();
      if !complete {
        return None;
      }
      ghost var m := PendingMarkers();
      ghost var last := LeadingQueued(m);
      assert m[last] == epoutBuf[PendingSlot(requestRp, last, count), 0];
      forall j | 0 <= j < last
        ensures epoutBuf[PendingSlot(requestRp, j, count), 0] == ID_DAP_QueueCommands
      {
        assert m[j] == epoutBuf[PendingSlot(requestRp, j, count), 0];
      }
      MarkBatch(epoutBuf, requestRp, requestWp, count, ReqOcc(), last);
      assert PendingMarkers() == AfterAcquire(m);
      var idx := Mod(requestRp, count);
      r := Some(Grant(idx, epoutSz[idx]));
    }

    /** `tud_cmsis_dap_n_release_request_buffer`: drop the oldest request
        packet and re-arm reception. The application releases only a packet
        it acquired, so the ring is not empty. */
    method ReleaseRequest(busy: bool, xferOk: bool)
      requires Valid() && ReqOcc() > 0
      modifies this
      ensures Valid()
      ensures requestRp == Inc(old(requestRp)) && ReqOcc() == old(ReqOcc()) - 1
      ensures requestWp == old(requestWp) && responseWp == old(responseWp) && responseRp == old(responseRp)
      ensures Endpoints() == old(Endpoints()) && inQueue == old(inQueue) && aborts == old(aborts)
      ensures xfers == old(xfers) + ArmOut(busy, xferOk)
    {
      requestRp := Inc(requestRp);
      PrepOutTransaction(busy, xferOk);
    }

    /** `maybe_transmit`: unless the IN endpoint is busy, hand the oldest
        released response to it with its recorded length; the read counter
        moves when the stack accepts the transfer, not when it completes. */
    method MaybeTransmit(busy: bool, xferOk: bool)
      requires Valid()
      modifies this
      ensures Valid()
      ensures Transmitted(busy, xferOk)
    {
      if busy {
        return;
      }
      if responseWp != responseRp {
        var idx := Mod(responseRp, count);
        assert idx == PendingSlot(responseRp, 0, count);
        if !xferOk {
          return;
        }
        xfers := xfers + [Xfer(epIn, InPool, idx, epinSz[idx])];
        ghost var rp0 := responseRp;
        responseRp := Inc(responseRp);
        OccupancyAfterRead(responseWp, rp0);
        inQueue := inQueue[1..];
        forall k | 0 <= k < |inQueue|
          ensures epinSz[PendingSlot(responseRp, k, count)] == inQueue[k]
        {
          PendingSlotAfterRead(rp0, k, count);
        }
      }
    }

    /** `tud_cmsis_dap_n_acquire_response_buffer`: the slot at the response
        write counter and DAP_PACKET_SIZE when the response ring has room,
        nothing otherwise. The slot handed out holds none of the responses
        still waiting for the IN endpoint. It can be the slot of the response
        handed to the IN endpoint last, whose transfer may still be in flight:
        the read counter advances on submission, not on completion
        (Scenarios.InFlightSlotRegranted). */
    method AcquireResponse() returns (r: Option<Grant>)
      requires Valid()
      ensures r.Some? <==> RspOcc() < count
      ensures r.Some? ==> r.value == Grant(Mod(responseWp, count), size)
      ensures r.Some? ==> forall k :: 0 <= k < RspOcc() ==> PendingSlot(responseRp, k, count) != r.value.slot
    {
      var occupancy := Occupancy(responseWp, responseRp);
      if occupancy < count {
        var idx := Mod(responseWp, count);
        assert idx == PendingSlot(responseRp, occupancy, count);
        forall k | 0 <= k < occupancy
          ensures PendingSlot(responseRp, k, count) != idx
        {
          PendingSlotsDistinct(responseRp, k, occupancy, count);
        }
        return Some(Grant(idx, size));
      }
      return None;
    }

    /** `tud_cmsis_dap_n_release_response_buffer`: record the response length
        (as a `uint16_t`) in the write counter's slot, advance the write
        counter, and try to transmit. The application releases only a buffer
        it acquired, so the ring has room. */
    method ReleaseResponse(bufsize: U32, busy: bool, xferOk: bool)
      requires Valid() && RspOcc() < count
      modifies this, epinSz
      ensures Valid()
      ensures epinSz[Mod(old(responseWp), count)] == ToU16(bufsize)
      ensures forall s :: 0 <= s < count && s != Mod(old(responseWp), count) ==> epinSz[s] == old(epinSz[s])
      ensures responseWp == Inc(old(responseWp))
      ensures requestWp == old(requestWp) && requestRp == old(requestRp)
      ensures Endpoints() == old(Endpoints()) && aborts == old(aborts)
      ensures var q := old(inQueue) + [ToU16(bufsize)];
        if !busy && xferOk then
          && responseRp == Inc(old(responseRp))
          && inQueue == q[1..]
          && xfers == old(xfers) + [Xfer(epIn, InPool, Mod(old(responseRp), count), q[0])]
        else
          responseRp == old(responseRp) && inQueue == q && xfers == old(xfers)
    {
      var idx := Mod(responseWp, count);
      ghost var occ := RspOcc();
      assert idx == PendingSlot(responseRp, occ, count);
      forall k | 0 <= k < occ
        ensures PendingSlot(responseRp, k, count) != idx
      {
        PendingSlotsDistinct(responseRp, k, occ, count);
      }
      epinSz[idx] := ToU16(bufsize);
      responseWp := Inc(responseWp);
      inQueue := inQueue + [ToU16(bufsize)];
      OccupancyAfterWrite(old(responseWp), responseRp);
      MaybeTransmit(busy, xferOk);
    }

    /** The USB stack writes the bytes of a packet from the host into an OUT
        slot before it reports the completion (outside this driver). */
    method HostWrites(slot: nat, data: seq<Byte>)
      requires Valid() && slot < count && |data| <= size
      modifies epoutBuf
      ensures Valid()
      ensures forall j :: 0 <= j < |data| ==> epoutBuf[slot, j] == data[j]
      ensures forall s, j :: 0 <= s < count && 0 <= j < size && !(s == slot && j < |data|) ==>
        epoutBuf[s, j] == old(epoutBuf[s, j])
    {
      var i := 0;
      while i < |data|
        invariant i <= |data|
        invariant forall j :: 0 <= j < i ==> epoutBuf[slot, j] == data[j]
        invariant forall s, j :: 0 <= s < count && 0 <= j < size && !(s == slot && j < i) ==>
          epoutBuf[s, j] == old(epoutBuf[s, j])
      {
        epoutBuf[slot, i] := data[i];
        i := i + 1;
      }
    }

    /** The OUT branch of `cmsis_dapd_xfer_cb`. A completion with data records
        its byte count (as a `uint16_t`) in the write counter's slot; an abort
        request is reported once and its slot left to be overwritten, any other
        packet is made visible by advancing the write counter. Reception is
        then re-armed. A completion with data arrives only in a slot armed
        while the request ring had room. */
    method OutComplete(bytes: U32, abortHooked: bool, busy: bool, xferOk: bool)
      requires Valid() && (bytes > 0 ==> ReqOcc() < count)
      modifies this, epoutSz
      ensures Valid()
      ensures OutCompleted(bytes, abortHooked, busy, xferOk)
    {
      if bytes > 0 {
        var idx := Mod(requestWp, count);
        epoutSz[idx] := ToU16(bytes);
        if ID_DAP_TransferAbort == epoutBuf[idx, 0] {
          if abortHooked {
            aborts := aborts + 1;
          }
        } else {
          OccupancyAfterWrite(requestWp, requestRp);
          requestWp := Inc(requestWp);
        }
      }
      PrepOutTransaction(busy, xferOk);
    }

    /** True when `cmsis_dapd_open` runs to its end on this interface: no
        endpoints to open, or the pair opened and, with an OUT endpoint, the
        first reception was accepted. */
    static predicate OpenCompletes(numEndpoints: U8, pairOk: bool, outAddr: U8, outXferOk: bool)
    {
      numEndpoints == 0 || (pairOk && (outAddr == 0 || outXferOk))
    }

    /** True when the IN endpoint is opened by `cmsis_dapd_open` and
        `maybe_transmit` hands it a response. */
    ghost predicate OpenTransmits(numEndpoints: U8, pairOk: bool, outAddr: U8, inAddr: U8,
                                  outXferOk: bool, inBusy: bool, inXferOk: bool)
      reads this
    {
      numEndpoints != 0 && pairOk && (outAddr == 0 || outXferOk) && inAddr != 0
      && TransmitNow(inBusy, inXferOk)
    }

    /** The transfers `cmsis_dapd_open` gets accepted in the current state:
        reception into the whole OUT pool (`sizeof(epout_buf)` bytes from
        slot 0, as a `uint16_t`), then possibly the oldest pending response. */
    ghost function OpenSubmissions(numEndpoints: U8, pairOk: bool, outAddr: U8, inAddr: U8,
                                   outXferOk: bool, inBusy: bool, inXferOk: bool): seq<Xfer>
      requires Valid()
      reads this, epinSz
    {
      (if numEndpoints != 0 && pairOk && outAddr != 0 && outXferOk
       then [Xfer(outAddr, OutPool, 0, ToU16(count * size))] else [])
      + (if OpenTransmits(numEndpoints, pairOk, outAddr, inAddr, outXferOk, inBusy, inXferOk)
         then [Xfer(inAddr, InPool, Mod(responseRp, count), inQueue[0])] else [])
    }

    /** The new state after `cmsis_dapd_open` on this record, relative to the
        state before it: the interface number stored; with endpoints and the
        pair opened, its addresses bound; the transfers of OpenSubmissions
        accepted, the response read counter advancing when a response went
        out; the request counters, the response write counter, the size
        arrays and the buffers unchanged. */
    twostate predicate Opened(itfNumber: U8, numEndpoints: U8, pairOk: bool, outAddr: U8, inAddr: U8,
                              outXferOk: bool, inBusy: bool, inXferOk: bool)
      requires old(Valid()) && Valid()
      reads this, epoutSz, epinSz, epoutBuf, epinBuf
    {
      && itfNum == itfNumber
      && (epOut, epIn) == (if numEndpoints != 0 && pairOk then (outAddr, inAddr) else old((epOut, epIn)))
      && xfers == old(xfers) + old(OpenSubmissions(numEndpoints, pairOk, outAddr, inAddr, outXferOk, inBusy, inXferOk))
      && requestWp == old(requestWp) && requestRp == old(requestRp) && responseWp == old(responseWp)
      && (if old(OpenTransmits(numEndpoints, pairOk, outAddr, inAddr, outXferOk, inBusy, inXferOk))
          then responseRp == Inc(old(responseRp)) && inQueue == old(inQueue)[1..]
          else responseRp == old(responseRp) && inQueue == old(inQueue))
      && aborts == old(aborts)
      && unchanged(epoutSz, epinSz, epoutBuf, epinBuf)
    }

    /** `cmsis_dapd_open` once a free record is chosen: store the interface
        number; with endpoints, bind the pair the stack opened (addresses
        `outAddr`, `inAddr`, zero when absent), arm reception into the whole
        OUT pool and try to transmit. `ok` is false on an early `return 0`. */
    method Open(itfNumber: U8, numEndpoints: U8, pairOk: bool, outAddr: U8, inAddr: U8,
                outXferOk: bool, inBusy: bool, inXferOk: bool) returns (ok: bool)
      requires Valid()
      modifies this
      ensures Valid()
      ensures ok == OpenCompletes(numEndpoints, pairOk, outAddr, outXferOk)
      ensures Opened(itfNumber, numEndpoints, pairOk, outAddr, inAddr, outXferOk, inBusy, inXferOk)
      ensures Mounted() == if numEndpoints != 0 && pairOk then outAddr != 0 && inAddr != 0 else old(Mounted())
    {
      ghost var sent := OpenSubmissions(numEndpoints, pairOk, outAddr, inAddr, outXferOk, inBusy, inXferOk);
      itfNum := itfNumber;
      if numEndpoints != 0 {
        if !pairOk {
          return false;
        }
        epOut, epIn := outAddr, inAddr;
        if epOut != 0 {
          if !outXferOk {
            return false;
          }
          xfers := xfers + [Xfer(epOut, OutPool, 0, ToU16(count * size))];
        }
        if epIn != 0 {
          MaybeTransmit(inBusy, inXferOk);
        }
      }
      assert xfers == old(xfers) + sent;
      return true;
    }
  }

  /** The second loop of `tud_cmsis_dap_n_acquire_request_buffer`, on the
      request buffer `buf` of `c` slots: walk the pending packets from read
      counter `rp` again and replace each leading queue marker by the execute
      marker. `occ` is the number of pending packets and `last` the position
      of the packet that ends the batch, found by the first loop. */
  method MarkBatch(buf: array2<Byte>, rp: U8, wp: U8, c: nat, ghost occ: nat, ghost last: nat)
    requires PacketCount(c) && c < 0x100 && buf.Length0 == c && 0 < buf.Length1
    requires occ <= c && wp == (rp + occ) % 0x100 && last < occ
    requires forall j :: 0 <= j < last ==> buf[PendingSlot(rp, j, c), 0] == ID_DAP_QueueCommands
    requires buf[PendingSlot(rp, last, c), 0] != ID_DAP_QueueCommands
    modifies buf
    ensures forall j :: 0 <= j < c ==>
      buf[PendingSlot(rp, j, c), 0] == if j < last then ID_DAP_ExecuteCommands else old(buf[PendingSlot(rp, j, c), 0])
    ensures forall s, b :: 0 <= s < c && 1 <= b < buf.Length1 ==> buf[s, b] == old(buf[s, b])
  {
    var r := rp;
    var n := Mod(r, c);
    ghost var k := 0;
    while wp != r && buf[n, 0] == ID_DAP_QueueCommands
      invariant k <= last
      invariant r == (rp + k) % 0x100
      invariant n == PendingSlot(rp, k, c)
      invariant forall j :: 0 <= j < c ==>
        buf[PendingSlot(rp, j, c), 0] == if j < k then ID_DAP_ExecuteCommands else old(buf[PendingSlot(rp, j, c), 0])
      invariant forall s, b :: 0 <= s < c && 1 <= b < buf.Length1 ==> buf[s, b] == old(buf[s, b])
      decreases last - k
    {
      forall j | k < j < c
        ensures PendingSlot(rp, j, c) != n
      {
        PendingSlotsDistinct(rp, k, j, c);
      }
      buf[n, 0] := ID_DAP_ExecuteCommands;
      PendingSlotNext(rp, k, c);
      r := Inc(r);
      n := n + 1;
      if n == c {
        n := 0;
      }
      k := k + 1;
    }
    CountersEqual(rp, k, occ);
  }

  /** The device's table of interface records (`_cmsis_dap_itf`). */
  class Device {
    const itfs: seq<DapInterface>
    const count: nat
    const size: nat
    ghost const Repr: set<object>

    ghost predicate Valid()
      reads this, Repr
    {
      && 0 < |itfs| && PacketCount(count) && count < 0x100 && 0 < size < 0x1_0000
      && (forall i :: 0 <= i < |itfs| ==> itfs[i].Repr() <= Repr)
      && (forall i :: 0 <= i < |itfs| ==>
            itfs[i].count == count && itfs[i].size == size && itfs[i].Valid())
      && (forall i, j :: 0 <= i < |itfs| && 0 <= j < |itfs| && i != j ==> itfs[i].Repr() !! itfs[j].Repr())
    }

    /** The record `cmsis_dapd_open` picks: the first with no endpoint bound. */
    ghost predicate IsFirstFree(f: int)
      reads this, Repr
      requires Valid()
    {
      && 0 <= f < |itfs| && itfs[f].epIn == 0 && itfs[f].epOut == 0
      && forall j :: 0 <= j < f ==> itfs[j].epIn != 0 || itfs[j].epOut != 0
    }

    /** The record `cmsis_dapd_xfer_cb` dispatches to: the first owning the endpoint. */
    ghost predicate IsFirstOwner(f: int, ep: U8)
      reads this, Repr
      requires Valid()
    {
      0 <= f < |itfs| && itfs[f].Owns(ep) && forall j :: 0 <= j < f ==> !itfs[j].Owns(ep)
    }

    /** `cmsis_dapd_init`: `n` records (CFG_TUD_CMSIS_DAP), everything zero. */
    constructor (n: nat, count: nat, size: nat)
      requires 0 < n && PacketCount(count) && count < 0x100 && 0 < size < 0x1_0000
      ensures Valid() && fresh(Repr)
      ensures |itfs| == n && this.count == count && this.size == size
      ensures forall i :: 0 <= i < n ==>
        itfs[i].Endpoints() == (0, 0, 0) && itfs[i].Counters() == (0, 0, 0, 0)
        && itfs[i].xfers == [] && itfs[i].aborts == 0
    {
      var s: seq<DapInterface> := [];
      ghost var objs: set<object> := {};
      while |s| < n
        invariant |s| <= n
        invariant fresh(objs)
        invariant forall i :: 0 <= i < |s| ==> s[i].Repr() <= objs
        invariant forall i :: 0 <= i < |s| ==>
          s[i].count == count && s[i].size == size && s[i].Valid()
          && s[i].Endpoints() == (0, 0, 0) && s[i].Counters() == (0, 0, 0, 0)
          && s[i].xfers == [] && s[i].aborts == 0
        invariant forall i, j :: 0 <= i < |s| && 0 <= j < |s| && i != j ==> s[i].Repr() !! s[j].Repr()
      {
        var d := new DapInterface(count, size);
        s := s + [d];
        objs := objs + d.Repr();
      }
      itfs, this.count, this.size := s, count, size;
      Repr := objs;
    }

    /** `cmsis_dapd_reset`: bus reset of every record. */
    method Reset()
      requires Valid()
      modifies Repr
      ensures Valid()
      ensures forall i :: 0 <= i < |itfs| ==>
        && itfs[i].Endpoints() == (0, 0, 0) && itfs[i].Counters() == (0, 0, 0, 0)
        && !itfs[i].Mounted() && IsFirstFree(0)
        && itfs[i].xfers == old(itfs[i].xfers) && itfs[i].aborts == old(itfs[i].aborts)
        && unchanged(itfs[i].epoutSz, itfs[i].epinSz, itfs[i].epoutBuf, itfs[i].epinBuf)
    {
      var i := 0;
      while i < |itfs|
        invariant 0 <= i <= |itfs|
        invariant Valid()
        invariant forall j :: 0 <= j < i ==>
          itfs[j].Endpoints() == (0, 0, 0) && itfs[j].Counters() == (0, 0, 0, 0)
        invariant forall j :: 0 <= j < |itfs| ==>
          itfs[j].xfers == old(itfs[j].xfers) && itfs[j].aborts == old(itfs[j].aborts)
          && unchanged(itfs[j].epoutSz, itfs[j].epinSz, itfs[j].epoutBuf, itfs[j].epinBuf)
      {
        itfs[i].BusReset();
        i := i + 1;
      }
    }

    /** `cmsis_dapd_open`: refuse a non-vendor interface, pick the first free
        record, open it, and return the number of descriptor bytes consumed
        (0 on failure). The descriptor walk is the stack's: `epOffset` is the
        offset of the first endpoint descriptor it finds, `itfDescLen` the
        interface descriptor's length. */
    method Open(isVendor: bool, itfNumber: U8, numEndpoints: U8, itfDescLen: U8, epOffset: nat,
                pairOk: bool, outAddr: U8, inAddr: U8, outXferOk: bool, inBusy: bool, inXferOk: bool)
      returns (consumed: U16)
      requires Valid()
      modifies Repr
      ensures Valid()
      ensures !isVendor || (forall f :: 0 <= f < |itfs| ==> !old(IsFirstFree(f))) ==>
        consumed == 0 && forall i :: 0 <= i < |itfs| ==> unchanged(itfs[i].Repr())
      ensures forall f :: 0 <= f < |itfs| && isVendor && old(IsFirstFree(f)) ==>
        && consumed == (if DapInterface.OpenCompletes(numEndpoints, pairOk, outAddr, outXferOk)
                        then ToU16(if numEndpoints == 0 then itfDescLen else epOffset + ENDPOINT_DESC_LEN * numEndpoints)
                        else 0)
        && itfs[f].Opened(itfNumber, numEndpoints, pairOk, outAddr, inAddr, outXferOk, inBusy, inXferOk)
        && (itfs[f].epOut, itfs[f].epIn) == (if numEndpoints != 0 && pairOk then (outAddr, inAddr) else (0, 0))
        && (forall j :: 0 <= j < |itfs| && j != f ==> unchanged(itfs[j].Repr()))
    {
      if !isVendor {
        return 0;
      }
      var i := 0;
      while i < |itfs| && !(itfs[i].epIn == 0 && itfs[i].epOut == 0)
        invariant 0 <= i <= |itfs|
        invariant forall j :: 0 <= j < i ==> itfs[j].epIn != 0 || itfs[j].epOut != 0
      {
        i := i + 1;
      }
      if i == |itfs| {
        return 0;
      }
      assert IsFirstFree(i);
      var ok := itfs[i].Open(itfNumber, numEndpoints, pairOk, outAddr, inAddr, outXferOk, inBusy, inXferOk);
      if !ok {
        return 0;
      }
      consumed := ToU16(if numEndpoints == 0 then itfDescLen else epOffset + ENDPOINT_DESC_LEN * numEndpoints);
    }

    /** The search of `cmsis_dapd_xfer_cb`: the first record owning `ep`,
        or the number of records when none does. */
    method FindOwner(ep: U8) returns (i: int)
      requires Valid()
      ensures 0 <= i <= |itfs|
      ensures i < |itfs| <==> exists j :: 0 <= j < |itfs| && itfs[j].Owns(ep)
      ensures i < |itfs| ==> IsFirstOwner(i, ep)
    {
      i := 0;
      while i < |itfs| && !(ep == itfs[i].epOut || ep == itfs[i].epIn)
        invariant 0 <= i <= |itfs|
        invariant forall j :: 0 <= j < i ==> !itfs[j].Owns(ep)
      {
        i := i + 1;
      }
    }

    /** An OUT completion delivered to record `i`. */
    method OutCompleteAt(i: nat, bytes: U32, abortHooked: bool, busy: bool, xferOk: bool)
      requires Valid() && i < |itfs| && (bytes > 0 ==> itfs[i].ReqOcc() < count)
      modifies Repr
      ensures Valid()
      ensures forall j :: 0 <= j < |itfs| && j != i ==> unchanged(itfs[j].Repr())
      ensures itfs[i].OutCompleted(bytes, abortHooked, busy, xferOk)
    {
      itfs[i].OutComplete(bytes, abortHooked, busy, xferOk);
    }

    /** An IN completion delivered to record `i`: retry transmission. */
    method InCompleteAt(i: nat, busy: bool, xferOk: bool)
      requires Valid() && i < |itfs|
      modifies Repr
      ensures Valid()
      ensures forall j :: 0 <= j < |itfs| && j != i ==> unchanged(itfs[j].Repr())
      ensures itfs[i].Transmitted(busy, xferOk)
    {
      itfs[i].MaybeTransmit(busy, xferOk);
    }

    /** `cmsis_dapd_xfer_cb`: find the first record owning the endpoint; an OUT
        completion goes to the request ring, an IN completion retries
        transmission. Returns false when no record owns the endpoint; `f` is
        the record the completion was dispatched to. */
    method TransferComplete(ep: U8, bytes: U32, abortHooked: bool, busy: bool, xferOk: bool)
      returns (handled: bool, ghost f: int)
      requires Valid()
      requires forall i :: 0 <= i < |itfs| && IsFirstOwner(i, ep) && itfs[i].epOut == ep && bytes > 0 ==>
        itfs[i].ReqOcc() < count
      modifies Repr
      ensures Valid()
      ensures handled <==> exists i :: 0 <= i < |itfs| && old(itfs[i].Owns(ep))
      ensures !handled ==> forall i :: 0 <= i < |itfs| ==> unchanged(itfs[i].Repr())
      ensures handled ==> old(IsFirstOwner(f, ep))
      ensures handled ==> forall j :: 0 <= j < |itfs| && j != f ==> unchanged(itfs[j].Repr())
      ensures handled && ep == old(itfs[f].epOut) ==> itfs[f].OutCompleted(bytes, abortHooked, busy, xferOk)
      ensures handled && ep != old(itfs[f].epOut) ==> itfs[f].Transmitted(busy, xferOk)
    {
      var i := FindOwner(ep);
      f := i;
      if i == |itfs| {
        return false, f;
      }
      if ep == itfs[i].epOut {
        OutCompleteAt(i, bytes, abortHooked, busy, xferOk);
      } else {
        InCompleteAt(i, busy, xferOk);
      }
      return true, f;
    }
  }
}
