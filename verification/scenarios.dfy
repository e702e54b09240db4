/** Whole-sequence behaviour of the model: a fresh device opened as the
    class test does, a batch split over three packets, and an SWO capture
    read back through SWO_Data. */
module Scenarios {
  import opened DapTypes
  import opened Ring
  import opened Batch
  import opened CmsisDapDevice
  import opened Swo

  /** The class test: one record, initialised and reset, opened with the
      vendor interface descriptor (9 bytes) followed by an OUT endpoint 5 and
      an IN endpoint 0x85 (7 bytes each). The stack opens the pair and accepts
      the transfer. Exactly one transfer is submitted, reception into the
      whole OUT pool, and the descriptor bytes consumed are 9 + 2 * 7. */
  method OpenOnFreshDevice() returns (consumed: U16, ghost submitted: seq<Xfer>)
    ensures consumed == 23 && consumed != 0
    ensures submitted == [Xfer(5, OutPool, 0, 4 * 64)]
  {
    PacketCountOf(4);
    var d := new Device(1, 4, 64);
    d.Reset();
    assert d.IsFirstFree(0);
    consumed := d.Open(true, 0, 2, 9, 9, true, 5, 0x85, true, false, true);
    submitted := d.itfs[0].xfers;
  }

  /** The host sends a packet whose first byte is `marker` (not an abort
      request) into the write counter's slot of a request ring that has not
      wrapped; the OUT completion makes it pending. */
  method Receive(itf: DapInterface, marker: Byte)
    requires itf.Valid() && itf.requestRp <= itf.requestWp < itf.count
    requires marker != ID_DAP_TransferAbort
    modifies itf, itf.epoutBuf, itf.epoutSz
    ensures itf.Valid()
    ensures itf.Counters() == (old(itf.requestWp) + 1, old(itf.requestRp), old(itf.responseWp), old(itf.responseRp))
    ensures itf.epoutBuf[old(itf.requestWp), 0] == marker
    ensures forall s :: 0 <= s < itf.count && s != old(itf.requestWp) ==> itf.epoutBuf[s, 0] == old(itf.epoutBuf[s, 0])
    ensures itf.epoutSz[old(itf.requestWp)] == 1
    ensures forall s :: 0 <= s < itf.count && s != old(itf.requestWp) ==> itf.epoutSz[s] == old(itf.epoutSz[s])
  {
    PendingSlotBelow(itf.requestWp, 0, itf.count);
    itf.HostWrites(itf.requestWp, [marker]);
    itf.OutComplete(1, false, false, true);
  }

  /** The first two packets of a batch, both queued, on a fresh interface:
      the acquire finds no complete batch and hands out nothing. */
  method QueuedPacketsWait(count: nat, size: nat) returns (itf: DapInterface, early: Option<Grant>)
    requires PacketCount(count) && 3 <= count < 0x100 && 0 < size < 0x1_0000
    ensures fresh(itf.Repr()) && itf.Valid() && itf.count == count
    ensures early.None?
    ensures itf.Counters() == (2, 0, 0, 0)
    ensures itf.epoutBuf[0, 0] == ID_DAP_QueueCommands && itf.epoutBuf[1, 0] == ID_DAP_QueueCommands
    ensures itf.epoutSz[0] == 1
  {
    PendingSlotBelow(0, 0, count);
    PendingSlotBelow(0, 1, count);
    itf := new DapInterface(count, size);
    Receive(itf, ID_DAP_QueueCommands);
    Receive(itf, ID_DAP_QueueCommands);
    ghost var m := itf.PendingMarkers();
    assert |m| == 2;
    assert m[0] == ID_DAP_QueueCommands && m[1] == ID_DAP_QueueCommands;
    early := itf.AcquireRequest();
  }

  /** A batch split over three packets (Queue, Queue, Execute) on a fresh
      interface of at least three slots: after the two queued packets nothing
      is delivered; once the third has arrived the first packet is delivered
      with its length, and the three markers read Execute. */
  method QueuedBatchDelivery(count: nat, size: nat) returns (early: Option<Grant>, r: Option<Grant>, markers: seq<Byte>)
    requires PacketCount(count) && 3 <= count < 0x100 && 0 < size < 0x1_0000
    ensures early.None?
    ensures r == Some(Grant(0, 1))
    ensures markers == [ID_DAP_ExecuteCommands, ID_DAP_ExecuteCommands, ID_DAP_ExecuteCommands]
  {
    PendingSlotBelow(0, 0, count);
    PendingSlotBelow(0, 1, count);
    PendingSlotBelow(0, 2, count);
    var itf;
    itf, early := QueuedPacketsWait(count, size);
    Receive(itf, ID_DAP_ExecuteCommands);
    ghost var m := itf.PendingMarkers();
    assert |m| == 3;
    assert m[0] == ID_DAP_QueueCommands && m[1] == ID_DAP_QueueCommands && m[2] == ID_DAP_ExecuteCommands;
    QueueQueueExecute(m);
    r := itf.AcquireRequest();
    ghost var m2 := itf.PendingMarkers();
    assert m2[0] == itf.epoutBuf[0, 0] && m2[1] == itf.epoutBuf[1, 0] && m2[2] == itf.epoutBuf[2, 0];
    markers := [itf.epoutBuf[0, 0], itf.epoutBuf[1, 0], itf.epoutBuf[2, 0]];
  }

  /** The consequence of the C occupancy test after a wrap: while only queued
      packets are pending and the write counter has wrapped below the read
      counter, acquire hands nothing out (so the application releases
      nothing and the read counter stays put), and the C test refuses to
      re-arm reception although the ring has room, so the packet that would
      end the batch cannot arrive. */
  lemma QueuedRunAcrossWrapStalls(wp: U8, rp: U8, c: nat, m: seq<Byte>)
    requires PacketCount(c) && c < 0x100 && wp < rp && Occupancy(wp, rp) == |m| < c
    requires forall j :: 0 <= j < |m| ==> m[j] == ID_DAP_QueueCommands
    ensures Coalesce(m).None?
    ensures !(OccupancyAsWritten(wp, rp) < c)
  {
    OccupancyTestAsWritten(wp, rp, c);
  }

  /** The slot of a response whose IN transfer is still in flight can be
      handed out again: with four slots, a first response goes out from slot 0
      (the read counter advances on submission); three more are released while
      the IN endpoint is busy; with no IN completion in between, the next
      acquire grants slot 0 again. */
  method InFlightSlotRegranted(size: nat) returns (ghost inFlight: seq<Xfer>, g: Option<Grant>)
    requires 0 < size < 0x1_0000
    ensures |inFlight| == 1 && inFlight[0].pool == InPool && inFlight[0].slot == 0 && inFlight[0].len == 10
    ensures g == Some(Grant(0, size))
  {
    PacketCountOf(4);
    var itf := new DapInterface(4, size);
    itf.ReleaseResponse(10, false, true);
    itf.ReleaseResponse(10, true, true);
    itf.ReleaseResponse(10, true, true);
    itf.ReleaseResponse(10, true, true);
    inFlight := itf.xfers;
    g := itf.AcquireResponse();
  }

  /** An SWO capture over UART read through SWO_Data: select transport 1,
      UART mode, start the capture; three trace bytes arrive; a request for
      two bytes returns the status (capture active), a count of two and the
      two oldest bytes, and leaves the third in the buffer. */
  method SwoCaptureRead() returns (response: seq<Byte>, result: U32, left: seq<Byte>)
    ensures response == [DAP_SWO_CAPTURE_ACTIVE, 2, 0, 0x11, 0x22]
    ensures result == 0x2_0005
    ensures left == [0x33]
  {
    var swo := new SwoState(Config(true, false, false, 64));
    var _, _ := swo.Transport([1]);
    var _, _ := swo.Mode([DAP_SWO_UART], true);
    var _, _ := swo.Control([DAP_SWO_CAPTURE_ACTIVE], true);
    swo.TraceArrived([0x11, 0x22, 0x33]);
    response, result := swo.Data([2, 0]);
    left := swo.traceData;
  }
}
