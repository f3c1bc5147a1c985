# Verification model of the bare-metal device model

The repository emulates hardware for a guest: a NIC, a disk controller, PCI functions and
the dispatch of memory-mapped accesses.  One loop serves guest register accesses, polls
the NIC and runs the disk worker.  This project models the parts whose correctness spans
whole runs, in the form the program has (classes over fields, arrays and loops), and
proves them against specifications that are small enough to read.

Check it with `dafny verify dfyconfig.toml` (Dafny 4.11).

## The four components

**AHCI port and block queue.**  `BlockQueue` is the BLOCK/PEND request queue with its
fixed array of elements; it refines a plain FIFO.  `AhciIov` splits a transfer over its
PRDT into rounds of at most 33 pieces; `DiskTransfer` moves the bytes of a round and shows
that all rounds together are one flat copy.  `AhciSpec` is the port as a state machine,
`AhciRuns`, `AhciIssue`, `AhciDrain`, `AhciWork` and `AhciSteps` are its invariants, the
exact termination condition of the issue loop, the measure of the drain, and the port over
all runs.  `AhciDelivery` follows a transfer in flight through a drain, `AhciService` one
that waits until a completion callback issues it, `AhciHealth` says when none is left
waiting and `AhciWaiting` exactly which are, `AhciReach` which bytes a drain can touch, and
`AhciEndToEnd` connects a write of PxCI to the bytes that have moved when the drain is
over.  `AhciPort` is the class.
`Interrupts` is the path from the port's status to the physical line.  A step is a register
write, a store of a command to a free slot, or a full drain.

**NIC.**  `Checksum` relates the code's 32-bit wrapping sums over scattered buffers to the
ones' complement sum of RFC 1071; `PacketChecksum` stores the result in a header.
`TxHeader` is header extraction, the VLAN tag and packets without segmentation;
`SegmentHeader` is what one round of TCP segmentation does to the shared header,
`Segmentation` the rounds, and `TxOffload` all of it for a scattered frame.  `TxRing` and
`TxPoll` are the transmit ring against a scan of the whole submitted stream, `RxRing` the receive ring, `Eeprom` the bit-serial
EEPROM.  `Rings` relates endless positions to slots.

**PCI functions.**  `PciSpec` is configuration space, base address registers and
registration; `PciCaps` the capability chain, `PciBar` the agreement of decoding and
registration, `PciReadback` what the guest reads back, `PciAlloc` allocation at start-up,
`PciBus` all of it for several functions on one map, `PciDevice` the class.

**MMIO dispatch.**  `MmioMap` is the pair of search trees with hints, against sets of
ranges without.

`Bytes`, `Wrappers`, `Sequences` and `Powers` are shared vocabulary.

## Conventions

- Guest memory and buffers are sequences or arrays of octets; guest addresses are numbers.
- A 32-bit AHCI register is the set of its one bits; shifts and masks elsewhere are written
  out as division and remainder.  Sums that wrap in the program wrap in the model: 32 bits
  in `Checksum`, 64 bits in `PciAlloc` and `MmioMap`, 8 and 16 bits for checksum offsets.
- The program reads words in the order of its big-endian target; so do the checksums.
  Configuration space is fixed as little-endian, as section 6.1 of the PCI Local Bus
  Specification 3.0 defines it, where the program uses native order.
- An assertion of the program is a proved fact or an explicit outcome (`ok`, `Aborted`),
  except for two that a guest can make fail, which are preconditions: a round of a
  transfer holds a sector (bhyve/pci_ahci.c:648; exactly when, is below), and the
  descriptors of a packet have one type (bhyve/pci_e82545.c:1264; `TxRing.Typed`, on
  `TxPoll.TxDevice.Submit`).
- Ring positions count descriptors since the start; a slot is a position modulo the size.

## Where the code does less than one would expect

Each of these is kept as the code has it, with the exact condition under which the
expected property holds.

- The assertion that a round holds at least a sector fires exactly when the 33 PRDT entries
  from the one that holds the round's first byte end before a sector does
  (`AhciIov.SectorFitsIff`); entries of 16 bytes or more are always enough.
- The issue loop does not end for a slot without a host-to-device FIS
  (`AhciIssue.EndsIff`).
- One buffer is summed correctly exactly when its words add up to less than 2^32
  (`Checksum.BufferExact`); 131074 bytes always do, 131076 may not.  A scattered range is,
  exactly when that holds of what it takes of every piece (`Checksum.IovSumIff`); so is a
  packet's header (`PacketChecksum.BySumIff`) and the frame sent (`TxHeader.TransmitPlain`).
- FIN and PUSH are cleared in the shared header and not restored: the last of several
  segments does not carry them (`SegmentHeader.FlagsKeptIff`).  A segment size of zero
  never ends (`Segmentation.EndsIff`).
- Checksum offsets are 8 bits wide and are moved by 4 for a VLAN tag even when they point
  into the addresses (`TxHeader.MovedIff`).
- The last receive descriptor's length is a remainder, zero for a full buffer
  (`RxRing.LengthsIff`).  The descriptors checked for are enough for a frame exactly when it
  is not longer than their buffers (`RxRing.FrameSafeIff`), so polls never pass the tail
  exactly up to that length, which with long packets is 16384 bytes, CRC included
  (`RxRing.PollsSafeIff`, `RxRing.ConfiguredSafe`); a jumbo frame with its CRC is longer
  (`RxRing.JumboOverruns`).
- `register_mem` reports success without registering when the base address is taken
  (`MmioMap.SuccessAddsIff`).  An empty or wrapping range breaks the tree's order exactly
  when no range contains its base (`MmioMap.RegisterAgreesIff`).
- A 4 GB base address register is placed at address zero, and registers exactly when
  nothing below 4 GB is registered (`PciAlloc.FourGigIff`).  No device of this build asks
  for a 64-bit register: the callers are bhyve/pci_ahci.c:2429, bhyve/pci_e82545.c:2589 and
  bhyve/pci_emul.c:882 and 2016-2022.
- A window gives its lowest aligned place exactly when fewer than 2^63 bytes are asked for
  or it starts at zero (`PciAlloc.AllocLowestIff`, `PciAlloc.WindowPlacesIff`).
- A transfer that waits in PxCI is still waiting after a drain exactly when the port is
  stuck, with an error latched or busy for no command in flight, or a command that will
  fail comes before it in the order of issue (`AhciWaiting.DrainServesIff`;
  `AhciWaiting.SlotStarves` is a run that ends so).
- The guest can overwrite the capability pointer at 0x34 (`PciCaps.CapPtrKeptIff`), though
  not the chain.

## Model

| member | source | states |
|---|---|---|
| BlockQueue.HeadIsRunnable | bhyve/block_if.c:184-202 | with nothing executing, the oldest element is never BLOCKed |
| BlockQueue.EnqueueKeepsInv | bhyve/block_if.c:138-182 | every BLOCKed element keeps an element ahead of it, or executing, that ends where it starts; elements are conserved |
| BlockQueue.CompleteBusyKeepsInv | bhyve/block_if.c:204-223 | completion wakes exactly the elements that waited for it, so nobody waits for nothing |
| BlockQueue.CancelKeepsInv | bhyve/block_if.c:465-490 | cancelling a waiting request keeps the blocking invariant for what remains |
| BlockQueue.RefinesFifo | bhyve/block_if.c:138-311 | any mix of requests, cancellations, executions and callback-time requests executes in arrival order |
| BlockQueue.NothingStranded | bhyve/block_if.c:285-311 | from an idle reachable state the worker executes every waiting request, in order |
| BlockQueue.BlockContext.Enqueue | bhyve/block_if.c:138-182 | the lists afterwards are the specification's: the new element is last, and BLOCKed exactly if some waiting or executing request ends where it starts |
| BlockQueue.BlockContext.Submit | bhyve/block_if.c:398-423 | a request is refused exactly when no element is free |
| BlockQueue.BlockContext.Dequeue | bhyve/block_if.c:184-202 | takes the first PEND element, if there is one |
| BlockQueue.BlockContext.CompleteBusy | bhyve/block_if.c:204-223 | frees the element and wakes the ones that waited for it |
| BlockQueue.BlockContext.CancelRequest | bhyve/block_if.c:465-490 | removes the request from the waiting list, and only from there |
| AhciIov.BuildIov | bhyve/pci_ahci.c:612-663 | one round's pieces, length and continuation flag, against a recursive scan |
| AhciIov.RoundTakesStream | bhyve/pci_ahci.c:612-663 | a round is a consecutive piece of the PRDT's byte stream, of at most 33 pieces; a round that is not the last is a positive multiple of a sector |
| AhciIov.SectorFitsIff | bhyve/pci_ahci.c:612-648 | a round's assertion holds exactly unless the 33 entries from the one that holds its first byte end before a sector does |
| AhciIov.SectorsFitIff | bhyve/pci_ahci.c:612-648 | it holds from every sector boundary of a transfer exactly when the PRDT has no such 33 entries |
| AhciIov.SixteenBytesSuffice | bhyve/pci_ahci.c:648-648 | with entries of at least 16 bytes it never fires |
| AhciIov.OneByteEntriesFail | bhyve/pci_ahci.c:648-648 | 33 one-byte entries make it fire |
| AhciIov.ReachesLen | bhyve/pci_ahci.c:612-663 | the rounds together reach the transfer's length exactly when the PRDT covers it |
| DiskTransfer.ChunkedEqualsFlat | bhyve/block_if.c:225-283 | after all rounds of a read or write, with other commands' rounds in between, each byte of the flat range has been moved |
| DiskTransfer.NothingElseMoves | bhyve/block_if.c:225-283 | the rounds of a command change no byte outside its target |
| DiskTransfer.Proc | bhyve/block_if.c:225-283 | the copy loops over the pieces do what one executed round means |
| AhciSpec.NeverExhausted | bhyve/pci_ahci.c:2025-2050 | at most 32 requests are in flight, so free requests and queue elements never run out |
| AhciSpec.SixteenBytesGood | bhyve/pci_ahci.c:612-663 | no round of a transfer with entries of at least 16 bytes fires the assertion |
| AhciRuns.RwKeepsCore | bhyve/pci_ahci.c:665-749 | issuing a read or write keeps conservation: free and flying requests partition the pool, flying slots are distinct and are exactly the pending bits, and match the queue one to one |
| AhciRuns.FlushKeepsCore | bhyve/pci_ahci.c:751-783 | so does issuing a flush |
| AhciRuns.SlotKeepsCore | bhyve/pci_ahci.c:1802-1857 | so does handling any issued slot |
| AhciIssue.IterProgress | bhyve/pci_ahci.c:1859-1881 | each turn of the issue loop decreases (issuable slots, distance to the next one) |
| AhciIssue.HandlePortKeeps | bhyve/pci_ahci.c:1859-1881 | the loop keeps the invariants and leaves no slot it could have issued |
| AhciIssue.EndsIff | bhyve/pci_ahci.c:1802-1881 | the exact condition under which the loop ends |
| AhciDrain.CallbackKeeps | bhyve/pci_ahci.c:1887-1961 | a completion keeps conservation, whether it queues the next round, fails, or issues new slots |
| AhciDrain.RoundKeeps | bhyve/block_if.c:303-307 | so does a whole round of the worker |
| AhciWork.RoundOwes | bhyve/block_if.c:303-307 | each round decreases (commands still to issue, rounds and bytes in flight) |
| AhciWork.DrainCompletes | bhyve/block_if.c:285-311 | the drain ends with no request in flight and no command it could have issued |
| AhciDelivery.IssueStarts | bhyve/pci_ahci.c:665-749 | issuing a transfer puts all its rounds ahead |
| AhciDelivery.DrainTracks | bhyve/pci_ahci.c:1887-1961 | the drain executes exactly the rounds that a transfer in flight has left, in order, and PRDBC ends at their end, whatever else fails or is issued |
| AhciHealth.HealthyDrain | bhyve/pci_ahci.c:1859-1961 | while nothing fails, a drain leaves no command issued or in flight, and serves every transfer that waited or was in flight |
| AhciWaiting.DrainServesIff | bhyve/pci_ahci.c:1859-1961 | a transfer that waits behind other commands is issued by a callback and executed whole in the same drain, exactly unless before the drain the port is stuck or a command that will fail comes first; then it still waits, untouched |
| AhciWaiting.SlotStarves | bhyve/pci_ahci.c:1859-1961 | two register writes from power-on after which no drain serves a slot |
| AhciReach.DrainRounds | bhyve/pci_ahci.c:1859-1961 | all that a drain executes is rounds of commands active when it starts, within their disk ranges and buffers |
| AhciEndToEnd.DrainDelivers | bhyve/pci_ahci.c:1859-1961 | a transfer active at the start of a drain is one flat copy at its end, with PRDBC at its length, if the guest's commands reach only memory and image and keep clear of its bytes |
| AhciEndToEnd.IssueDelivers | bhyve/pci_ahci.c:2052-2189 | end to end: on a port where nothing has failed any slots are written to PxCI, the worker drains, and every transfer written or active has arrived |
| AhciEndToEnd.RunsDeliver | bhyve/pci_ahci.c:2025-2189 | in every state reachable from power-on, the next drain delivers what is in flight, and what waits if nothing has failed |
| AhciSteps.StopQuiesces | bhyve/pci_ahci.c:458-521 | stopping cancels everything: no request in flight or queued, and pending, CI, SACT, CR, CCS and the error latch clear |
| AhciSteps.StopWriteQuiesces | bhyve/pci_ahci.c:2083-2128 | clearing PxCMD.ST does that |
| AhciSteps.StepKeeps | bhyve/pci_ahci.c:2052-2189 | every register write, command store and drain leaves a settled port settled |
| AhciSteps.RunsStayBalanced | bhyve/pci_ahci.c:2025-2189 | over every run from a settled state requests, slots, queue elements and interrupt line stay in balance |
| AhciSteps.PowerOnStaysBalanced | bhyve/pci_ahci.c:2025-2189 | and so over every run from power-on |
| AhciPort.Port.HandlePort | bhyve/pci_ahci.c:1859-1881 | the issue loop in place, terminating |
| AhciPort.Port.PortStop | bhyve/pci_ahci.c:477-521 | the cancelling loop in place |
| AhciPort.Port.IoreqCb | bhyve/pci_ahci.c:1887-1961 | the completion callback in place, re-entering the queue |
| AhciPort.Port.Work | bhyve/block_if.c:285-311 | the worker's loop in place: the port drains, the transfers executed are those of the drain, and memory and disk are what they make of them, if the guest's commands reach only memory and image |
| Interrupts.WriteKeepsIntr | bhyve/pci_ahci.c:225-313 | after a register or command write an enabled cause shows in IS, `lintr` is IS and GHC.IE, and the line is `lintr` and INTx permitted, PENDING exactly if not permitted |
| Interrupts.RaiseKeepsIntr | bhyve/pci_ahci.c:343-353 | the same after a port raises causes |
| Interrupts.LineIsSpecified | bhyve/pci_ahci.c:225-313 | the same in every reachable state |
| Checksum.OnesSumIsFold | bhyve/pci_e82545.c:1073-1081 | the standard's ones' complement sum is the plain sum of words, reduced to its representative modulo 65535, zero only for zero |
| Checksum.CarryIsFold | bhyve/pci_e82545.c:1073-1081 | the code's carry is that reduction for every 32-bit sum |
| Checksum.BufferExact | bhyve/pci_e82545.c:1083-1102 | one buffer is summed as the standard says exactly when its words add up to less than 2^32 |
| Checksum.ShortBuffersFit | bhyve/pci_e82545.c:1083-1102 | buffers of up to 131074 bytes are |
| Checksum.LongBufferFails | bhyve/pci_e82545.c:1083-1102 | 131076 bytes of 0xFF are not |
| Checksum.BufChecksum | bhyve/pci_e82545.c:1083-1102 | the loop computes the wrapped sum of the buffer's words |
| Checksum.IovChecksum | bhyve/pci_e82545.c:1104-1136 | for any pieces, lengths and start offset the two loops compute the 32-bit sum over what the range takes of each piece |
| Checksum.IovSumRight | bhyve/pci_e82545.c:1104-1136 | however the range is cut, odd lengths included, that is the standard's sum of the flat bytes if the words of every share add up to less than 2^32 |
| Checksum.IovSumIff | bhyve/pci_e82545.c:1104-1136 | and only then, for every packet the descriptors can describe: wrong sums of pieces never make a right sum |
| Checksum.ComplementVerifies | bhyve/pci_e82545.c:1154-1165 | storing the complement at an even place makes range and old field sum to 0xFFFF |
| PacketChecksum.TransmitChecksum | bhyve/pci_e82545.c:1154-1165 | for any pieces, the header afterwards holds the complement of the code's sum of header and pieces |
| PacketChecksum.BySumIff | bhyve/pci_e82545.c:1154-1165 | which is the standard's sum of the packet's range exactly when what the range takes of each piece fits |
| TxHeader.RoundedCovers | bhyve/pci_e82545.c:1344-1364 | the writable header covers the tag's addresses and both fields, is empty only if nothing is written, and fits the frame exactly when the need does |
| TxHeader.TakeHeader | bhyve/pci_e82545.c:1366-1389 | the header buffer holds the frame's first bytes, alone in the first piece, and behind it stand the same pieces without those bytes |
| TxHeader.InsertTag | bhyve/pci_e82545.c:1391-1401 | the tag stands between the addresses and the rest |
| TxHeader.MovedIff | bhyve/pci_e82545.c:1402-1410 | the corrected offsets designate the same bytes exactly when they lie behind the addresses and do not wrap |
| TxHeader.MovedRange | bhyve/pci_e82545.c:1402-1410 | the corrected range covers the same bytes |
| TxHeader.TransmitPlain | bhyve/pci_e82545.c:1344-1422 | whatever the fragmentation, the frame sent is the flat frame with the tag inserted and both checksums stored, if the sums of the shares fit in 32 bits, and only then where the two fields are apart |
| TxHeader.ShortSumsFit | bhyve/pci_e82545.c:1344-1422 | with buffers of up to 131074 bytes they always fit |
| TxHeader.SentVerifies | bhyve/pci_e82545.c:1413-1422 | both checksums of the frame sent verify |
| Segmentation.NextPayload | bhyve/pci_e82545.c:1446-1461 | the inner loop gathers exactly the next bytes and advances past them |
| SegmentHeader.RewriteHeader | bhyve/pci_e82545.c:1465-1507 | one round on the shared header, in place |
| SegmentHeader.RoundShows | bhyve/pci_e82545.c:1465-1507 | after a round the header shows the sequence number, IP length, IP ID and flags asked for, and no octet outside the fields has changed |
| Segmentation.RoundFrame | bhyve/pci_e82545.c:1438-1509 | round k makes frame k: its fields, sums that verify, its payload bytes; and the shared header is as round k + 1 needs it |
| SegmentHeader.RoundVerifies | bhyve/pci_e82545.c:1479-1507 | the IP header sums to 0xFFFF, and the TCP range with the pseudo-header sum and the length to 0 modulo 65535 |
| Segmentation.Segments | bhyve/pci_e82545.c:1424-1509 | segment k carries payload bytes [k mss, (k+1) mss), behind a right header, with checksums that verify; never more pieces than there is room for |
| Segmentation.ExactPartition | bhyve/pci_e82545.c:1438-1509 | the segments' payloads, one after the other, are the payload |
| Segmentation.SegmentNumbers | bhyve/pci_e82545.c:1438-1491 | in numbers: segment k carries the payload from k times the segment size on, and its header shows the driver's sequence number plus that, identification plus k, and its own length, all wrapping |
| SegmentHeader.FlagsKeptIff | bhyve/pci_e82545.c:1488-1491 | a segment carries the driver's flags exactly when it is the only one or FIN and PUSH are not set |
| TxOffload.TransmitSegments | bhyve/pci_e82545.c:1344-1509 | from a scattered frame, with or without a tag, to its segments: whatever the fragmentation, every segment is right |
| TxOffload.FrameDelivered | bhyve/pci_e82545.c:1344-1509 | header and segment payloads put together are the driver's frame |
| Segmentation.EndsIff | bhyve/pci_e82545.c:1438-1439 | the loop ends exactly when the segment size is positive or there is no payload |
| TxRing.GroupStays | bhyve/pci_e82545.c:1222-1327 | a complete group stays the same group when more is submitted |
| TxRing.BatchSplits | bhyve/pci_e82545.c:1181-1336 | a scan of the whole stream is a scan up to any group boundary, and one behind it under the context it left |
| TxRing.CompleteSplits | bhyve/pci_e82545.c:1181-1336 | and what a whole scan completes splits there too |
| TxPoll.Scan | bhyve/pci_e82545.c:1222-1327 | the scan loop finds the group at the head, its pieces and their count; descriptor types agree |
| TxPoll.TransmitDone | bhyve/pci_e82545.c:1181-1194 | DD is set on the RS descriptors between two slots |
| TxPoll.TxDevice.Transmit | bhyve/pci_e82545.c:1196-1517 | one complete group is consumed, or nothing |
| TxPoll.TxDevice.TxRun | bhyve/pci_e82545.c:1519-1555 | a run rests on a group boundary; the written-back and empty causes are exact |
| TxPoll.TxDevice.Poll | bhyve/pci_e82545.c:1579-1591 | a poll makes progress whenever a complete group is waiting |
| TxPoll.TxDevice.StreamingIsBatch | bhyve/pci_e82545.c:1181-1591 | whatever the schedule of submissions and polls, what was done is what one scan of the whole stream does up to the head |
| TxPoll.TxDevice.DdExact | bhyve/pci_e82545.c:1181-1194 | DD is set on exactly the consumed RS descriptors |
| TxPoll.TxDevice.HeadAtTail | bhyve/pci_e82545.c:1543-1549 | head meets tail exactly when everything was consumed |
| RxRing.VectorSuffices | bhyve/pci_e82545.c:952-954 | at most 64 buffers are asked for |
| RxRing.LengthsIff | bhyve/pci_e82545.c:1023-1034 | the lengths written add up to the frame exactly when bufsz does not divide it |
| RxRing.FitsIff | bhyve/pci_e82545.c:1001-1004 | a frame takes at most maxpktdesc descriptors exactly when it is no longer than their buffers |
| RxRing.FrameSafeIff | bhyve/pci_e82545.c:952-1004 | a frame never takes the head past the tail, however many buffers are left, exactly when it is not longer than the buffers checked for, or is filtered out |
| RxRing.PollsSafeIff | bhyve/pci_e82545.c:952-1050 | no poll of frames up to a length does exactly when that length, adjusted, is not longer than those buffers |
| RxRing.ConfiguredSafe | bhyve/pci_e82545.c:952-954 | with long packets that is 16384 bytes, CRC included; without them at least 1522 |
| RxRing.StaysIff | bhyve/pci_e82545.c:972-1050 | for one poll: it fills no more buffers than are left exactly when each frame it reaches finds as many as it takes |
| RxRing.FittingHasRoom | bhyve/pci_e82545.c:972-1004 | which the check before each frame ensures if every frame fits or is filtered out |
| RxRing.JumboOverruns | bhyve/pci_e82545.c:953-1004 | a 16384 byte frame with CRC is longer, and the head passes the tail |
| RxRing.OutsideUntouched | bhyve/pci_e82545.c:1022-1048 | descriptors outside the circular interval from RDH up to RDT are not written |
| RxRing.LeftIsDistance | bhyve/pci_e82545.c:957-1049 | `left` is the distance from head to RDT at every iteration |
| RxRing.ReceiveLoop | bhyve/pci_e82545.c:972-1050 | the loop writes exactly what the frames in turn require, dropping unknown VLANs |
| RxRing.RxDevice.Poll | bhyve/pci_e82545.c:930-1071 | the ring, RDH and the causes after a poll; RDH never passes RDT |
| Eeprom.StrobeKeeps | bhyve/pci_e82545.c:486-597 | the bit counter stays within 1..9 for opcodes and 1..16 for data |
| Eeprom.OnlyEdgesCount | bhyve/pci_e82545.c:1932-1952 | however the pins are driven, only the data bits at rising edges count |
| Eeprom.CommandRuns | bhyve/pci_e82545.c:486-597 | a clocked command does what it means to an array of words, a read shows the word most significant bit first, and the machine is ready again |
| Eeprom.SessionRuns | bhyve/pci_e82545.c:486-597 | any session of commands refines the array |
| Eeprom.RoundTrip | bhyve/pci_e82545.c:486-597 | write, anything else, read: the bits that went in come out |
| Eeprom.EepromDevice.Clocked | bhyve/pci_e82545.c:486-597 | the strobe in place |
| Eeprom.EepromDevice.WriteRegister | bhyve/pci_e82545.c:1932-1952 | the EECD write in place |
| MmioMap.OrderedDisjoint | bhyve/mem.c:96-106 | the ranges of a tree are pairwise disjoint |
| MmioMap.FindComplete | bhyve/mem.c:108-124 | a search with the overlap-as-equal comparator misses no overlapping range |
| MmioMap.FindAt | bhyve/mem.c:108-124 | a search by address finds the one range that contains it |
| MmioMap.FindIgnoresShape | bhyve/mem.c:91-94 | whatever the shape of the tree |
| MmioMap.InsertOrdered | bhyve/mem.c:126-144 | insertion keeps the order |
| MmioMap.RemoveIs | bhyve/mem.c:329-361 | removal keeps the order and removes one range |
| MmioMap.RegisterAgreesIff | bhyve/mem.c:280-307 | registering keeps the tree ordered exactly when the range's end is not below its base or its base is taken; then it agrees with sets |
| MmioMap.StepAgreesIff | bhyve/mem.c:166-361 | every operation keeps trees ordered and hints null or live exactly when the range it registers, if it does, may be put in; then it agrees with sets without hints |
| MmioMap.RunsAgree | bhyve/mem.c:166-361 | so does every run whose registrations may be put in when they are made |
| MmioMap.SuccessAddsIff | bhyve/mem.c:280-307 | a successful registration added the range exactly when its base was free |
| MmioMap.UnregisterUndoes | bhyve/mem.c:329-361 | unregistering undoes registering |
| MmioMap.Mmio.UnregisterMem | bhyve/mem.c:329-361 | the tree and the hints in place |
| MmioMap.Mmio.AccessMemory | bhyve/mem.c:166-222 | dispatch and hint in place |
| PciAlloc.AllocIs | bhyve/pci_emul.c:436-455 | the address is the lowest aligned one in the window; failure means there is none |
| PciAlloc.AllocLowestIff | bhyve/pci_emul.c:436-455 | so for every power of two of 64 bits, exactly unless it is 2^63 and the window does not start at zero |
| PciAlloc.WindowPlacesIff | bhyve/pci_emul.c:436-455 | all that a window gives is aligned, below the limit and disjoint exactly when no request is for 2^63 bytes |
| PciAlloc.AllocBarKeeps | bhyve/pci_emul.c:596-695 | a bar from the shared windows is clear of everything registered, and its registration succeeds |
| PciAlloc.FourGigIff | bhyve/pci_emul.c:631-650 | a 4 GB bar is put at zero and registers exactly when nothing below 4 GB is registered |
| PciBar.RegisterIff | bhyve/pci_emul.c:470-514 | registering succeeds and registers exactly when nothing overlaps |
| PciBar.UnregisterFinds | bhyve/pci_emul.c:470-514 | unregistering finds the bar's range |
| PciBar.MoveBarIff | bhyve/pci_emul.c:562-594 | moving a bar fires no assertion and stays registered exactly when the new programming does not overlap |
| PciBar.CommandWriteIff | bhyve/pci_emul.c:1714-1782 | so does switching decoding |
| PciBar.CfgWriteExact | bhyve/pci_emul.c:1784-1924 | so does any guest write |
| PciBar.RunsStayBound | bhyve/pci_emul.c:1784-1924 | over a run of writes to one function: a range is registered for a bar exactly when MEMEN is set, at its current address |
| PciBus.StepKeepsAll | bhyve/pci_emul.c:470-594 | a step that is right for the function that makes it is right for every function on the map |
| PciBus.StartUpKeeps | bhyve/pci_emul.c:596-695 | whichever registers which functions ask for, in whatever order, start-up registers them clear of each other and of everything else |
| PciBus.BusWriteExact | bhyve/pci_emul.c:1784-1924 | a guest write to one function leaves all right exactly when what it then decodes overlaps nobody |
| PciBus.BusStaysBound | bhyve/pci_emul.c:596-1924 | from start-up on, over any interleaving of a careful guest's writes to all functions, what is registered is what enabled bars decode, and what is no function's |
| PciReadback.BarWriteDev | bhyve/pci_emul.c:1858-1914 | a write moves the bar to the part of the value its size leaves, in both steps of a 64-bit update |
| PciReadback.CfgWriteShows | bhyve/pci_emul.c:1784-1924 | every register shows what it decodes |
| PciCaps.FindCapFrom | bhyve/pci_emul.c:986-1011 | the search ends at the capability that contains the offset |
| PciCaps.WriteUntouched | bhyve/pci_emul.c:986-1051 | no guest write changes an identifier or next pointer |
| PciCaps.AddKeepsCaps | bhyve/pci_emul.c:698-735 | a new capability is linked behind the last |
| PciCaps.RunKeepsCaps | bhyve/pci_emul.c:698-735 | over any run next pointers stay dword aligned, increasing and zero-terminated |
| PciCaps.WalkIs | bhyve/pci_emul.c:996-1006 | following the pointers from 0x40 visits exactly the capabilities |
| PciCaps.CapPtrKeptIff | bhyve/pci_emul.c:1916-1922 | the pointer at 0x34 survives a write exactly if the write keeps its value |
| PciDevice.PciFunction.WriteCommand | bhyve/pci_emul.c:1714-1782 | a command write and the loop over the bars in place |
| PciDevice.PciFunction.WriteConfig | bhyve/pci_emul.c:1784-1924 | any guest write in place |
| PciDevice.PciFunction.AddCapabilityData | bhyve/pci_emul.c:698-735 | adding a capability in place |
| PciDevice.PciFunction.AllocateBar | bhyve/pci_emul.c:596-695 | allocating a bar in place |

## Left out

- ATAPI commands, IDENTIFY and log pages: table filling; a synchronous command is one step that completes, well or in error.
- Byte layout of FISes, the command header and the PRDT in guest memory: a command is decoded already; a slot may also hold something that is not a host-to-device FIS.
- TRIM, and writes to a read-only image: the backend refuses the first and is never opened as the second.
- Ports that are not implemented, MSI and MSI-X delivery: dead paths in this build.
- Locks and threads: one thread, with callbacks that re-enter the queue.
- The wait for a request that is executing while it is cancelled (bhyve/block_if.c:511-530): cannot be reached between drains.
- Address translation, and PRDT addresses that wrap around 64 bits.
- Registers that only store what is written, and contents of the received-FIS area.
- Drivers that issue a slot whose command is not in place, replace the command of an issued slot, or (for delivery) issue a queued command again while it is in flight: outside the AHCI programming model (sections 3.3.14 and 5 of Serial ATA AHCI 1.3).
- UDP segmentation, statistics, MDIC and the MAC address filter: no property that spans operations.
- Segment headers whose fields overlap or lie outside the header: the payload partition is proved for them, the fields are not.
- Transmit descriptors whose length is at most the checksum stripped from it: the program computes a negative length.
- Guest writes to TDH, ring length and ring base while transmission is enabled: the ring is fixed while the model runs.
- The contents of received frames: the FIFO that delivers them is not part of this model; a frame is its length and the two words a VLAN tag would be in.
- Multicast and VLAN tables as registers: the known VLANs are a set.
- The search trees' balancing: sys/tree.h is not part of this model.
- What dispatch does once an empty or wrapping range has got into a tree.
- I/O port registration: a stub that always succeeds.
- Functions of one device type in one slot, which share a name (bhyve/pci_emul.c:771): `PciBus` is about functions with different names.
- Device-specific configuration access handlers, multi-function header bits, extended configuration space: no device of this build overrides the defaults.
- Side effects of message control writes on MSI state: only the bytes are modelled.
- The FIFO hardware, the interrupt controller, the CHERI capabilities and the assembly.
