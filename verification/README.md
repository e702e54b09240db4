# CMSIS-DAP USB transport and SWO commands, modelled in Dafny

This project models the core of the akiprobe debug-probe firmware in two parts.

**The CMSIS-DAP class driver.** This is `src/cmsis_dap_device.c`. Each interface record holds two rings of `DAP_PACKET_COUNT` slots of `DAP_PACKET_SIZE` bytes:

- the request ring, filled by the OUT endpoint (host to probe);
- the response ring, drained by the IN endpoint (probe to host).

Both rings are indexed by free-running 8-bit counters. The driver implements these operations:

- the batch-coalescing acquire of request packets;
- the release operations;
- re-arming of reception and transmission;
- the completion callback with its TransferAbort rule;
- bus reset;
- interface open.

**The SWO trace commands.** This is `src/cmsis-dap/SWO.c`. The module state is the trace transport, mode and status, two banked error flag bytes and the index of the active bank. The command handlers update this state and write little-endian responses. Each handler returns `(request length << 16) | response length`.

Modules, one per concern:

- `DapTypes` (`dap_types.dfy`): machine integers, the protocol identifiers this layer uses, the little-endian codecs with their round trips, and the packed handler result.
- `Ring` (`ring.dfy`): 8-bit counter arithmetic. It covers occupancy, the slot of the k-th pending packet, and the scan index of the acquire loop. It also shows why the slot count must divide 256, and gives the occupancy as the C code computes it (see Findings).
- `Batch` (`batch.dfy`): the batch-coalescing rule as a function on the pending packets' first bytes, with its properties.
- `CmsisDapDevice` (`cmsis_dap_device.dfy`): two classes.
  - `DapInterface` is one interface record. Its counters are fields, `epout_sz`/`epin_sz` are arrays and the buffers are two-dimensional arrays. Most methods correspond to one C function. `BatchComplete` is the first loop of `tud_cmsis_dap_n_acquire_request_buffer`, and the module-level `MarkBatch` is its second, in-place rewriting loop. `OutComplete` is the OUT branch of `cmsis_dapd_xfer_cb`. `HostWrites` is not driver code: it is the environment step in which the USB stack stores a packet's bytes.
  - The two-state predicates `Transmitted`, `OutCompleted` and `Opened` state the whole new state after `maybe_transmit`, after the OUT branch of the callback and after `cmsis_dapd_open`. Each is defined once and passed on by the callers.
  - `Device` is the table of records: init, reset, open and the completion dispatcher. `cmsis_dapd_xfer_cb` is split into `FindOwner` (the search loop), `OutCompleteAt` and `InCompleteAt` (the two branches) and `TransferComplete`, which combines them.
- `Swo` (`swo.dfy`): class `SwoState` over the module statics, with the handlers as methods. Pure functions describe the responses, and lemmas decode them. `SwoState.TraceArrived` is an environment step: the capture driver writing into the trace buffer.
- `Scenarios` (`scenarios.dfy`): whole sequences.
  - The class test's open of a fresh device.
  - A batch split over three packets.
  - The stall of the C occupancy test after a counter wrap.
  - A response slot handed out again while its IN transfer may still be in flight.
  - An SWO capture read back through SWO_Data.

How the outside world is modelled:

- **USB device stack.** It is an oracle. Whether an endpoint is busy, whether a transfer is accepted, and which endpoint pair was opened are inputs. Every accepted transfer is appended to the ghost log `xfers`.
- **Capture drivers.** They are an oracle too. Their answers are inputs, and their calls go to the ghost log `calls`.
- **Build options.** `SWO_UART`, `SWO_MANCHESTER`, `SWO_STREAM` and `DAP_PACKET_SIZE` are a `Config` value.
- **Trace buffer.** It is a byte FIFO.

Where the comment and the code disagree, the model follows the code. The comment at `src/cmsis_dap_device.c:44` says the counters survive a bus reset. But the reset clears everything before `epout_sz` (`src/cmsis_dap_device.c:59`), and that range includes the four counters. So `BusReset` zeroes them.

## Model

| member | source | states |
|---|---|---|
| DapTypes.ToU16 | src/cmsis_dap_device.c:178 | storing a 32-bit length in a `uint16_t` slot keeps it below 2^16 and congruent to it modulo 2^16, and keeps it unchanged when it fits |
| DapTypes.Le16RoundTrip | src/cmsis-dap/SWO.c:447-448 | decoding the two count bytes written least significant first gives the count back |
| DapTypes.FromLe16RoundTrip | src/cmsis-dap/SWO.c:434-435 | re-encoding the 16-bit value decoded from two request bytes gives the same two bytes |
| DapTypes.Le32RoundTrip | src/cmsis-dap/SWO.c:288-291 | decoding the four bytes written for a 32-bit value gives the value back |
| DapTypes.FromLe32RoundTrip | src/cmsis-dap/SWO.c:263-266 | re-encoding the baud rate decoded from four request bytes gives the same four bytes |
| DapTypes.Pack | src/cmsis-dap/SWO.c:189 | the low 16 bits of a handler's result are the response length and the high 16 bits the request length |
| Ring.Inc | src/cmsis_dap_device.c:132 | incrementing an 8-bit counter wraps from 255 to 0 |
| Ring.Occupancy | src/cmsis_dap_device.c:84 | the 8-bit occupancy is below 256 and is the number of increments that take the read counter to the write counter |
| Ring.ModIsRemainder | src/cmsis_dap_device.c:86 | the slot index of a counter value is its remainder modulo the slot count |
| Ring.PacketCountOf | src/cmsis_dap_device.c:101-109 | a slot count that divides 256 satisfies the ring's side condition |
| Ring.PacketCountDivides | src/cmsis_dap_device.c:101-109 | a valid slot count is at most 256 and 256 is a whole multiple of it |
| Ring.ModOfMod256 | src/cmsis_dap_device.c:86 | reducing a counter modulo 256 before taking its slot changes nothing when the slot count divides 256 |
| Ring.PendingSlotShift | src/cmsis_dap_device.c:101 | the k-th pending packet after the read counter lies in slot `(rp + k) mod COUNT` |
| Ring.PendingSlotsDistinct | src/cmsis_dap_device.c:117-124 | the first COUNT pending packets occupy COUNT different slots |
| Ring.RingPosOfPendingSlot | src/cmsis_dap_device.c:117-124 | the distance from the read counter's slot to the k-th pending slot is k |
| Ring.RingPosInjective | src/cmsis_dap_device.c:117-124 | two slots at the same distance from the read counter's slot are the same slot |
| Ring.PendingSlotOfRingPos | src/cmsis_dap_device.c:117-124 | every slot is the slot of some pending position, so statements indexed by position cover every slot |
| Ring.PendingSlotNext | src/cmsis_dap_device.c:106-109 | one step of the scan moves the counter to the next value and the index `n` to the next packet's slot |
| Ring.ScanNext | src/cmsis_dap_device.c:107-109 | the step `++n; if (n == DAP_PACKET_COUNT) n = 0U;` of a slot index below COUNT is `(n + 1) mod COUNT` and stays below COUNT |
| Ring.ModSucc | src/cmsis_dap_device.c:107-109 | the slot of the next counter value is one scan step (`++n`, back to 0 at COUNT) further |
| Ring.ScanIndexTracks | src/cmsis_dap_device.c:101-109 | with COUNT dividing 256, the scan index stays equal to `rp % COUNT` while `rp` wraps from 255 to 0 |
| Ring.ScanIndexDivergesForThreeSlots | src/cmsis_dap_device.c:101-109 | without that condition the two part ways: with 3 slots the scan index and the counter's slot differ after the wrap |
| Ring.PendingSlotAfterRead | src/cmsis_dap_device.c:156 | after the read counter advances, the k-th pending packet is the one that was (k+1)-th |
| Ring.CountersEqual | src/cmsis_dap_device.c:104 | counter values k and k2 steps after the same start (both below 256) coincide only when k equals k2 |
| Ring.OccupancyAfterWrite | src/cmsis_dap_device.c:179 | advancing the write counter of a ring that is not full adds exactly one packet, across the wrap too |
| Ring.OccupancyAfterRead | src/cmsis_dap_device.c:132 | advancing the read counter of a non-empty ring removes exactly one packet, across the wrap too |
| Ring.IncN | src/cmsis_dap_device.c:132 | n increments of an 8-bit counter add n modulo 256 |
| Ring.CounterWraps | src/cmsis_dap_device.c:132 | 256 increments bring a counter back to its start |
| Ring.OccupancyAfterWrites | src/cmsis_dap_device.c:271 | n writes into a ring with room add n packets |
| Ring.OccupancyAfterReads | src/cmsis_dap_device.c:132 | n reads of pending packets remove n packets |
| Ring.OccupancyAfterWritesAndReads | src/cmsis_dap_device.c:84 | after writes and then reads, the 8-bit occupancy is the number of unread packets while it stays below 256 |
| Ring.PairedCycles | src/cmsis_dap_device.c:84 | over any number of write-then-read cycles the occupancy is unchanged after each cycle and one more in between |
| Ring.OccupancyAsWritten | src/cmsis_dap_device.c:84 | the occupancy as C computes it equals `wp - rp` when `rp <= wp` and is at least 2^32 - 255 otherwise |
| Ring.OccupancyAsWrittenAgrees | src/cmsis_dap_device.c:165 | the C occupancy equals the 8-bit occupancy exactly when the write counter is not below the read counter |
| Ring.OccupancyTestAsWritten | src/cmsis_dap_device.c:84-85 | the C test `occupancy < DAP_PACKET_COUNT` passes exactly when the write counter has not wrapped below the read counter and the 8-bit occupancy passes it |
| Ring.OccupancyAsWrittenRefusesAfterWrap | src/cmsis_dap_device.c:85 | with one packet pending across the wrap, the C test `occupancy < DAP_PACKET_COUNT` fails although the ring has room |
| Batch.LeadingQueued | src/cmsis_dap_device.c:104-110 | the scan stops at the first pending packet whose first byte is not `ID_DAP_QueueCommands`; every packet before it carries the marker |
| Batch.Coalesce | src/cmsis_dap_device.c:111-124 | nothing is delivered exactly when every pending packet carries the queue marker; otherwise the leading queue markers become execute markers and every other marker is kept |
| Batch.CoalesceKeepsTerminal | src/cmsis_dap_device.c:117-124 | coalescing keeps the terminal packet and everything after it, and leaves no leading queue marker |
| Batch.CoalesceIdempotent | src/cmsis_dap_device.c:114-126 | a second acquire of the same batch finds it complete and changes nothing |
| Batch.CoalesceStableUnderArrival | src/cmsis_dap_device.c:104-124 | packets arriving after a complete batch do not change how that batch is coalesced |
| Batch.BatchWaitsForTerminal | src/cmsis_dap_device.c:111-112 | any number of queued packets alone is never delivered; one terminal packet makes the whole batch deliverable |
| Batch.QueueQueueExecute | src/cmsis_dap_device.c:114-124 | markers Queue, Queue, Execute become Execute, Execute, Execute |
| CmsisDapDevice.DapInterface.Mounted | src/cmsis_dap_device.c:62-65 | a mounted record has both endpoint addresses bound and is never the owner of address 0 |
| CmsisDapDevice.DapInterface.constructor | src/cmsis_dap_device.c:186-189 | a new record has zero endpoints, zero counters, zero sizes and zeroed buffers |
| CmsisDapDevice.DapInterface.BusReset | src/cmsis_dap_device.c:199 | the reset zeroes the interface number, both endpoints and all four counters, and keeps the size arrays and buffers |
| CmsisDapDevice.DapInterface.PrepOutTransaction | src/cmsis_dap_device.c:77-89 | reception is armed into slot `request_wp % COUNT` for DAP_PACKET_SIZE bytes only when the endpoint is idle and the request ring has room; no counter moves |
| CmsisDapDevice.DapInterface.BatchComplete | src/cmsis_dap_device.c:96-112 | the first scan reports a complete batch exactly when a pending packet without the queue marker exists |
| CmsisDapDevice.MarkBatch | src/cmsis_dap_device.c:114-124 | the second scan rewrites byte 0 of exactly the leading queue-marker slots to `ID_DAP_ExecuteCommands` and no other byte |
| CmsisDapDevice.DapInterface.AcquireRequest | src/cmsis_dap_device.c:91-127 | nothing is returned, and nothing changes, when the ring is empty or holds only queued packets. Otherwise the slot `request_rp % COUNT` is returned with its recorded length and the pending markers become their coalesced form. No counter, size or other byte changes |
| CmsisDapDevice.DapInterface.ReleaseRequest | src/cmsis_dap_device.c:129-134 | the read counter advances by one modulo 256, the occupancy drops by one, and reception is re-armed as PrepOutTransaction states |
| CmsisDapDevice.DapInterface.MaybeTransmit | src/cmsis_dap_device.c:146-158 | (through `Transmitted`) when the IN endpoint is idle, a response is pending and the stack accepts it, the oldest response goes out from slot `response_rp % COUNT` with its recorded length. Only then does the read counter advance, on submission. Otherwise nothing changes; the request counters, endpoints, size arrays and buffers never change |
| CmsisDapDevice.DapInterface.AcquireResponse | src/cmsis_dap_device.c:160-172 | slot `response_wp % COUNT` and DAP_PACKET_SIZE are returned exactly when the response ring has room. That slot holds none of the responses still waiting for the IN endpoint. No state changes |
| CmsisDapDevice.DapInterface.ReleaseResponse | src/cmsis_dap_device.c:174-181 | the length (as `uint16_t`) is stored in slot `response_wp % COUNT` and no other, the write counter advances, and the response is queued behind the earlier ones and transmitted in release order |
| CmsisDapDevice.DapInterface.OutComplete | src/cmsis_dap_device.c:263-275 | (through `OutCompleted`) a completion with data records its length at `request_wp % COUNT`. An abort request is reported once (when the hook exists) and does not advance `request_wp`; any other packet advances it. A zero-byte completion changes no size and no counter. Reception is then re-armed. The read counter, the response counters, the other size slots, the IN sizes and the buffers are unchanged |
| CmsisDapDevice.DapInterface.Open | src/cmsis_dap_device.c:222-243 | (through `Opened`) stores the interface number and binds the opened pair, arms reception into the whole OUT pool from slot 0, then tries to transmit; the response read counter advances only when a response went out, and the request counters, the response write counter, sizes and buffers are unchanged. The early `return 0` cases are the stack refusing the pair or the first transfer |
| CmsisDapDevice.Device.constructor | src/cmsis_dap_device.c:186-189 | every record starts with zero endpoints and counters and with disjoint storage |
| CmsisDapDevice.Device.Reset | src/cmsis_dap_device.c:191-201 | every record loses its endpoints and counters and keeps its buffers, and the first record becomes the one open picks |
| CmsisDapDevice.Device.Open | src/cmsis_dap_device.c:203-246 | a non-vendor interface, or no free record, returns 0 and changes nothing. Otherwise the first free record is opened as `Opened` states, the other records (fields, size arrays and buffers) are untouched, and the result is the number of descriptor bytes consumed, or 0 when the stack refuses |
| CmsisDapDevice.Device.FindOwner | src/cmsis_dap_device.c:256-261 | the search finds the first record owning the endpoint, and finds one exactly when some record owns it |
| CmsisDapDevice.Device.OutCompleteAt | src/cmsis_dap_device.c:263-275 | an OUT completion gives the record the whole new state `OutCompleted` states (size recorded, abort rule, re-arming, everything else unchanged); no other record, size array or buffer changes |
| CmsisDapDevice.Device.InCompleteAt | src/cmsis_dap_device.c:276-280 | an IN completion gives the record the whole new state `Transmitted` states (the submitted response, the read counter, the queue of waiting responses); no other record, size array or buffer changes |
| CmsisDapDevice.Device.TransferComplete | src/cmsis_dap_device.c:248-283 | returns false, changing nothing, exactly when no record owns the endpoint. Otherwise only the first owner changes: an OUT completion as `OutCompleted` states, an IN completion as `Transmitted` states |
| Swo.CaptureBit | src/cmsis-dap/SWO.c:307 | `x & DAP_SWO_CAPTURE_ACTIVE` is the low bit of x |
| Swo.Answer | src/cmsis-dap/SWO.c:183-187 | the answer byte is DAP_OK exactly on success and DAP_ERROR exactly on failure |
| Swo.DataCount | src/cmsis-dap/SWO.c:433-444 | with transport 1, the count is the minimum of the bytes available, the bytes requested and `DAP_PACKET_SIZE - 4`; with any other transport it is 0 |
| Swo.StatusResponse | src/cmsis-dap/SWO.c:355-359 | the status response is five bytes starting with the status |
| Swo.StatusResponseDecodes | src/cmsis-dap/SWO.c:355-359 | a host reading the status response gets the status and the trace count back |
| Swo.DataResponse | src/cmsis-dap/SWO.c:446-452 | the data response is three header bytes plus the drained bytes, starting with the status |
| Swo.DataResponseDecodes | src/cmsis-dap/SWO.c:446-452 | a host reading the data response gets the status, and the count field announces exactly the drained bytes that follow |
| Swo.ExtendedLength | src/cmsis-dap/SWO.c:380-396 | the extended status response has 1 byte when bit 0 of the command is set and 4 more when bit 1 is |
| Swo.SwoState.constructor | src/cmsis-dap/SWO.c:46-50 | the trace state starts with transport 0, mode off, status 0, both error banks and the bank index 0 |
| Swo.SwoState.ClearTrace | src/cmsis-dap/SWO.c:111-122 | both error banks and the bank index become 0 and the trace buffer is emptied, so the trace count is 0; nothing else changes |
| Swo.SwoState.GetTraceCount | src/cmsis-dap/SWO.c:126-129 | the trace count is 0 exactly when no trace byte is waiting; ClearTrace, TraceArrived and Data state how it moves |
| Swo.SwoState.TraceArrived | src/cmsis-dap/SWO.c:68-71 | bytes the capture driver writes are appended to the trace buffer and raise the trace count by their number; no SWO state changes |
| Swo.SwoState.GetTraceStatus | src/cmsis-dap/SWO.c:133-144 | returns the status OR the active bank's error flags, zeroes only that bank and makes the other bank active |
| Swo.SwoState.Transport | src/cmsis-dap/SWO.c:160-190 | while capture is inactive, transport 0, 1 (or 2 with streaming) is stored and answered DAP_OK; otherwise the transport is unchanged and the answer is DAP_ERROR; the result is always `(1<<16)|1` |
| Swo.SwoState.Mode | src/cmsis-dap/SWO.c:198-252 | the current driver is switched off first. On success the mode becomes the requested one, otherwise off; mode off always succeeds and unknown modes fail. The status is 0 afterwards in every case |
| Swo.SwoState.Baudrate | src/cmsis-dap/SWO.c:260-294 | the rate decoded from four request bytes goes to the current driver. The answer encodes the driver's rate (0 with no driver mode) and decodes back to it, a rate of 0 clears the status, and the result is `(4<<16)|4` |
| Swo.SwoState.Control | src/cmsis-dap/SWO.c:302-342 | asking for the capture state in force answers DAP_OK and changes nothing. Starting a capture first clears both error banks, the bank index and the buffer. The status changes only on driver success, and with mode off the answer is DAP_ERROR |
| Swo.SwoState.Status | src/cmsis-dap/SWO.c:348-362 | the response is the status (read as GetTraceStatus does) followed by the trace count as four little-endian bytes; the result is 5 |
| Swo.SwoState.ExtendedStatus | src/cmsis-dap/SWO.c:380-396 | the status byte only when bit 0 is set (clearing the active bank) and the count only when bit 1 is set; the result is `(1<<16)` plus the response length |
| Swo.SwoState.Data | src/cmsis-dap/SWO.c:425-455 | the response is status, count as 16 bits, then exactly the `count` oldest trace bytes, which leave the buffer. `count` is DataCount, so nothing is drained unless the transport is 1. The trace count drops by exactly `count`. The result is `(2<<16)|(3+count)` |
| Swo.SwoState.GetTraceMode | src/cmsis-dap/SWO.c:457-460 | the mode reported is off or the mode of a driver compiled into the build |
| Swo.SwoState.GetTransportMode | src/cmsis-dap/SWO.c:462-465 | the transport reported is one SWO_Transport accepts |
| Scenarios.OpenOnFreshDevice | tests/class_test.cpp:10-37 | after init and reset, opening the vendor interface with endpoints 5 and 0x85 submits exactly one transfer (reception into the whole OUT pool) and returns 23, not 0 |
| Scenarios.Receive | src/cmsis_dap_device.c:263-275 | a one-byte packet that is not an abort request, received before any wrap, advances the write counter by one and records its marker and size in the write counter's slot only |
| Scenarios.QueuedPacketsWait | src/cmsis_dap_device.c:96-112 | on a fresh interface, after two queued packets the acquire hands nothing out |
| Scenarios.QueuedBatchDelivery | src/cmsis_dap_device.c:91-127 | after two queued packets nothing is delivered; after the terminal packet, the first packet is delivered with its length and all three markers read Execute |
| Scenarios.QueuedRunAcrossWrapStalls | src/cmsis_dap_device.c:84-112 | with only queued packets pending and the write counter wrapped below the read counter, acquire hands nothing out and the C test refuses to re-arm reception although the ring has room |
| Scenarios.InFlightSlotRegranted | src/cmsis_dap_device.c:146-172 | with four slots, one response submitted from slot 0 and three more released while the IN endpoint is busy, the next acquire grants slot 0 again before any IN completion |
| Scenarios.SwoCaptureRead | src/cmsis-dap/SWO.c:425-455 | with transport 1, UART mode and capture on, reading two of three captured bytes returns status, count 2 and the two oldest bytes, and leaves the third |

## Left out

- `src/main.c`, the board support, the descriptor tables, the header's inline forwarders to interface 0 and the test mocks are not part of this model. `tests/class_test.cpp` appears only as the scenario `OpenOnFreshDevice`.
- Interrupt versus foreground concurrency is not modelled. Each API call and each completion callback is one atomic step.
- The USB stack's internals are not modelled. `usbd_edpt_busy`, `usbd_edpt_xfer` and `usbd_open_edpt_pair` are oracle inputs. The walk over the descriptors to the first endpoint descriptor (`src/cmsis_dap_device.c:223-234`) is the input `epOffset`, and its `max_len` bound is not modelled. `rhport` and the transfer result argument of the callback are ignored, as in the source. The bytes the stack stores into an OUT slot are the environment step `DapInterface.HostWrites`.
- The `pbuf == NULL` guards (`TU_ASSERT(pbuf, 0)`) are not modelled: the model always returns the slot in its result.
- The model requires `DAP_PACKET_COUNT` to divide 256 and to be below 256. With 256 slots, a full ring and an empty ring have the same 8-bit counters. `DAP_PACKET_SIZE` is below 65536 because sizes are stored in `uint16_t` fields.
- CmsisDapDevice.DapInterface.ReleaseRequest: requires a non-empty request ring. The C code increments the read counter whatever the state; its only caller releases a packet right after acquiring one.
- CmsisDapDevice.DapInterface.ReleaseResponse: requires room in the response ring. Its only caller releases a buffer it acquired, and acquiring it checked for room.
- CmsisDapDevice.DapInterface.OutComplete: requires room in the request ring when data arrived. A packet lands only in a slot that was armed while the ring had room.
- CmsisDapDevice.Device.TransferComplete: has the same requirement as OutComplete, for the record that owns the endpoint.
- The methods use the corrected 8-bit occupancy, not the C computation; `Ring.OccupancyAsWritten` and `Ring.OccupancyTestAsWritten` state the C behaviour (see Findings). The members below therefore differ from the C code once a write counter has wrapped below its read counter.
- CmsisDapDevice.DapInterface.PrepOutTransaction: arms reception when the 8-bit occupancy is below COUNT. The C code refuses whenever `request_wp < request_rp`, for example at `request_wp = 0`, `request_rp = 255`.
- CmsisDapDevice.DapInterface.AcquireResponse: grants a buffer when the 8-bit occupancy is below COUNT. The C code refuses whenever `response_wp < response_rp`.
- CmsisDapDevice.DapInterface.ReleaseRequest: re-arms reception through PrepOutTransaction, so it differs in the same way after a wrap.
- CmsisDapDevice.DapInterface.OutComplete: re-arms reception through PrepOutTransaction, so it differs in the same way after a wrap.
- CmsisDapDevice.Device.OutCompleteAt: passes on OutComplete, so it differs in the same way after a wrap.
- CmsisDapDevice.Device.TransferComplete: passes on OutComplete for OUT completions, so it differs in the same way after a wrap.
- CmsisDapDevice.DapInterface.AcquireResponse: promises that the granted slot holds none of the responses still waiting for the IN endpoint, not that no IN transfer from it is in flight. Like the C code, the model advances `response_rp` on submission, so the slot of the response submitted last can be granted again before its transfer completes (`Scenarios.InFlightSlotRegranted`). Whether that corrupts the response depends on when the USB stack reads the buffer, which is not part of this model.
- The SWO trace FIFO's capacity, its overwrite policy and `tud_cmsis_dap_n_swo_write` are not modelled, because only their declarations exist. The trace buffer is an unbounded byte sequence drained from the front. Bytes arrive through the environment step `SwoState.TraceArrived`.
- The timestamp branch of `SWO_ExtendedStatus` (`src/cmsis-dap/SWO.c:398-414`) is not modelled. It is compiled only with a timestamp clock and spins on a flag that an interrupt updates.
- The weak Manchester stubs (`src/cmsis-dap/SWO.c:78-105`) and the UART drivers are oracle inputs. What the drivers do beyond their answer is not modelled.
- `SetTraceError` is compiled out (`#if 0`). No handler ever sets an error flag, but the model keeps the error banks general.
- The SWO handlers require as many request bytes as they read. The command dispatcher that slices the request is not part of this model.
- Swo.ConfigOk: requires `DAP_PACKET_SIZE` to be at least 4. With fewer, `DAP_PACKET_SIZE - 4U` would wrap around in unsigned arithmetic, which no build configures.

## Findings

| source | as written | input that shows it | evidently intended | confidence | as-written member | corrected member |
|---|---|---|---|---|---|---|
| src/cmsis_dap_device.c:84 | `unsigned occupancy = p_itf->request_wp - p_itf->request_rp;` (and the same at line 165 for the response ring) promotes both `uint8_t` counters to `int`, so a negative difference becomes a value near 2^32 | `request_wp = 0`, `request_rp = 255`: one packet is pending after the write counter wrapped, yet `occupancy < DAP_PACKET_COUNT` fails, so reception is not re-armed (and, on the response ring, no buffer is granted) until the read counter wraps too. If that pending packet carries `ID_DAP_QueueCommands`, acquire never hands it out because no packet ending the batch is pending, so it is never released, the read counter never wraps, and reception stays disarmed until a bus reset (`Scenarios.QueuedRunAcrossWrapStalls`) | the occupancy modulo 256, `(uint8_t)(wp - rp)` | high (C integer promotion rules; not executed) | Ring.OccupancyAsWrittenRefusesAfterWrap | Ring.Occupancy |
