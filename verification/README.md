# A verified model of the lwIP stack and its PPP layer

Dafny 4.11 models of eight parts of the repository, with proofs. The C code works in place, so every part comes in two
layers. A specification gives the state as a value and each operation as a function, and carries the theorems. A class
or method with the code's own fields and loops is then proved equal to the specification, so each theorem about the
specification is a theorem about the loops. `dafny verify dfyconfig.toml` checks everything.

| part | specification | as the code runs | main results |
|---|---|---|---|
| Van Jacobson header compression, `vj.c` (RFC 1144, sections 3.2.2 to 3.2.4) | `VjHeader`, `VjSpec`, `VjSync`, `VjChecksum`, `VjExact`, `VjSent`, `VjLossy` | `VjCompress` | both ends stay in agreement over every run; a run comes out unchanged if and only if a condition on the compressor's own slots holds for each packet; what is sent compressed, exactly; after a reported loss nothing is applied to a wrong slot |
| TCP receive queue, `tcp_in.c` (RFC 793, section 3.9) | `SeqNum`, `TcpIn`, `TcpHeld` | `TcpReceive` | the application gets the stream, whatever arrives; what a receiver holds and what it loses again, exactly; the queue invariant survives a segment if and only if no overlong replacement happens |
| TCP send queues, `tcp_out.c`, `tcp_in.c`, `tcp.c` (RFC 793, section 3.9) | `TcpOut`, `TcpSent` | `TcpSend` | the queues are exactly the unacknowledged end of what was written, over every run, with exact counters; `snd_buf` is the space left in every state if and only if no SYN or FIN is accepted at 0; every run drains |
| heap, `mem.c` | `Heap`, `HeapFree`, `HeapRealloc`, `HeapUsed`, `HeapRuns` | `HeapMem` | partition, coalescing, first fit, over every run; what a caller holds is not touched until it is freed or resized; what realloc breaks, exactly |
| PPP framing, `pppif2.cpp` (RFC 1662, section 4.2 and appendix C) | `PppFcsTable`, `PppFcs`, `PppFrame` | `PppLine` | from any receiver state, however the line is cut into reads, every packet written is delivered once and whole; two damaged neighbouring octets are always noticed |
| PPP negotiation, `fsm.c` (RFC 1661, section 4) | `FsmSpec`, `FsmLink`, `FsmClose`, `FsmStandard`, `FsmNumbers` | `FsmMachine` | opened means both requests were acked; up and down alternate; the timer gives up after exactly the configured number of messages; no more Naks go out than configured; two ends over a lossless link open, and both go down when either closes; the standard's table is followed, exactly but for listed departures |
| LCP options, `lcp.c` (RFC 1661, section 5) | `LcpOptions`, `LcpNaks` | `LcpRequest` | acks and rejects accepted are exactly the right ones; the in-place reply refines a classification of the options; two lwIP ends agree if and only if every option is acceptable; Naks can be followed |
| packet buffers, `pbuf.c` | `PbufSpec`, `PbufAlloc`, `PbufOps`, `PbufRuns` | `PbufStore` | reference counts and pool over every run, whatever the totals; when totals stay right, exactly, with 16-bit wrap; nothing leaks; a failed allocation restores the pool |
| Internet checksum, `inet.c` (RFC 1071, sections 1 and 2) | `Checksum` | `Checksum` (methods) | chains with pieces of any parity give the checksum of the flat octets; what it detects, exactly |
| mailbox, `arch/unix/sys_arch.c` | `Mailbox` | `Mailbox.Mbox` | first in first out, no loss, no lost wake-up under every interleaving; every post and fetch gets done |
| MD5 streaming, `md5.c` (RFC 1321, sections 3.1 to 3.4) | `Md5` | `Md5.Context` | any split into updates gives the hash of the padded message |

The macros TCP_SEQ_LT to TCP_SEQ_BETWEEN that `SeqNum` models are those of `include/lwip/tcp.h`. `Words` holds bytes, 16-bit and 32-bit words and wrap-around arithmetic.

## How to read the invariants

- `VjSync.Sync`: the slots form a ring; every slot the compressor has saved holds, on both sides, the same header up to
  the bits that are never compared (reserved nibble, URG, ECE, CWR); the last slot sent is the last one received.
  `Good` says that the packet's IP length and checksum are right; `Restorable` is the exact condition for a packet to
  come out unchanged, on the decompressor's copy of those bits. `VjExact.Alike` says that the saved headers are equal in
  full; while it holds, `NotStale` and `SameSilent` are that condition on the compressor's own slots.
- `TcpIn.Ordered`: the queue is sorted, disjoint, holds stream octets only and starts strictly above `rcv_nxt`.
  `Overlong` is the branch at tcp_in.c:1078-1102 taken with a segment that reaches into the next queued one.
- `TcpOut.Consistent`: with `log` everything ever accepted for sending, unacked followed by unsent tiles the sequence
  numbers up to `snd_lbb` without gap and its contents are the end of `log`; `snd_queuelen` is the number of buffers
  queued; `snd_buf` is the space left modulo 65536. `Overflows` is the one step after which it is not the space left.
- `Heap.Inv`: the blocks partition the heap, no two neighbours are both free, the last one is free, and `lfree` is a free
  block. `Lowest` and `Counted` say that `lfree` is the lowest free block and `mem_used` the extent of the used ones.
- `FsmSpec.Inv` speaks of the trace of messages and upcalls: see its row `FsmSpec.StepKeeps`.
- `PbufSpec.Owned`: counts, links, chains and pool; `Totals`: every `tot_len` is the length of the chain's contents. No
  operation needs `Totals`; `PbufRuns.HasRoom` and `PbufRuns.Fits` are the exact conditions for a step to keep them.
- `Mailbox.Inv`: mutual exclusion, order, and the wake-up of a waiting fetcher.

## Where the code and its documentation differ

- mem.c:77 calls `lfree` the lowest free block; `mem_realloc` can free a block below it (`HeapRealloc.ReallocKeeps`), and its
  adjustment of `mem_used` at line 230 is made even when no block is cut.
- RFC 1661 section 4.1 takes a Terminate-Ack in Opened to Req-Sent; fsm.c:759-763 brings the layer down and sends a
  request but stays in OPENED (`FsmSpec.TermAckWhileOpen`). All departures from the table are in `FsmStandard.Departs`.
- RFC 1144 restores every header; the special forms at vj.c:505-521 leave a stale URG flag (`VjExact.StaleUrgent`).
- tcp_in.c replaces a queued segment without trimming the new one against its neighbour (`TcpIn.OverlongLeavesLeftover`,
  `TcpIn.LeftoverJumps`), and counts the FIN of a segment it has cut (`TcpIn.FinDelivery`).
- A segment queued inside a longer queued one makes tcp_in.c drop the rest of the longer one (`TcpHeld.NestedLoses`).
- After a fast retransmit, or when an acknowledgement takes the last unsent segment, `snd_nxt` can stay behind
  (`TcpSent.StepNext`).
- tcp_out.c:644-668 puts an old segment at the head of unsent, where new data may be appended to it
  (`TcpOut.MergedIntoRetransmission`).
- `sys_mbox_post` does not wait when the ring is full: it holds 99 messages, and the hundredth loses all
  (`Mailbox.HundredthLost`).
- pbuf.c keeps totals in order only for chains that no other chain joins from the side and whose sum fits 16 bits
  (`PbufSpec.CatTotals`, `PbufSpec.CutTotals`, `PbufRuns.TotalWraps`), and a count only below 65535 (`PbufRuns.CountWraps`).
- A FIN is accepted with no send buffer left and turns `snd_buf` into 65535 (`TcpOut.FinAfterFullBuffer`).
- lcp.c:1741-1747 copies a Nak over the request it answers, though it may be longer (`LcpRequest.NakOutgrowsRequest`).
- `mem_realloc` of a pointer outside the heap returns without giving `mem_sem` back (`HeapMem.Mem.Realloc`).
- The comment at fsm.c:580 says "CONFACK or CONFREJ" where Nak or Reject is meant; the code is followed.

## Model

| member | source | states |
|---|---|---|
| VjHeader.ParseBytes | Lwip/src/netif/ppp/vjbsdhdr.h:17-70 | reading the octets a well-formed TCP/IP header is written as, with any data behind it, gives back that header, options included |
| VjHeader.BytesParse | Lwip/src/netif/ppp/vjbsdhdr.h:17-70 | writing out the header read from any packet gives that packet's own first octets |
| VjHeader.FlagsRoundTrip | Lwip/src/netif/ppp/vjbsdhdr.h:40-70 | packing the eight TCP flags into an octet loses nothing |
| VjHeader.OctetRoundTrip | Lwip/src/netif/ppp/vjbsdhdr.h:40-70 | every flag octet is the packing of its own flags |
| VjSpec.FirstMatch | Lwip/src/netif/ppp/vj.c:181-206 | the slot search stops at the first slot in ring order that belongs to the connection, and misses none before it |
| VjSync.MaskRoundTrip | Lwip/src/netif/ppp/vj.c:359-391 | the first octet of a compressed packet decodes to the changes it was made from |
| VjSync.DecodeEncode | Lwip/src/netif/ppp/vj.c:81-131 | a number written in one or three octets is read back as itself, and the reader stops right behind it |
| VjSync.MoveToFrontRing | Lwip/src/netif/ppp/vj.c:181-236 | bringing a slot to the front leaves every one of the 16 slots in the ring exactly once |
| VjSync.LookupFacts | Lwip/src/netif/ppp/vj.c:181-236 | a hit ends with a slot of the same addresses and ports in front; a miss happens only if no slot in use belongs to the connection; the ring stays a ring |
| VjSync.PatchDifference | Lwip/src/netif/ppp/vj.c:260-400 | the changes computed from the compressor's saved header, applied to the decompressor's copy of it, rebuild the new header, up to the bits that are never compared; exactly the octets sent are consumed |
| VjSync.DeliveredBytes | Lwip/src/netif/ppp/vj.c:549-630 | the packet delivered has the original data, and is the original octet for octet if and only if the rebuilt header is the original one |
| VjChecksum.SumWordsIs | Lwip/src/netif/ppp/vj.c:567-574 | the word loop of the decompressor adds up the one's-complement sum of the IP header |
| VjChecksum.RebuiltVerifies | Lwip/src/netif/ppp/vj.c:567-574 | every header the decompressor rebuilds passes the Internet checksum test of its receiver: two rounds of carries are enough for it |
| VjChecksum.VerifiesExactly | Lwip/src/netif/ppp/vj.c:567-574 | a header passes that test if and only if its checksum is the recomputed one modulo 65535: the hypothesis that the checksum is right is the receiver's own test, up to the two forms of zero |
| VjSync.InitialSync | Lwip/src/netif/ppp/vj.c:54-74 | the two freshly initialised ends agree |
| VjSync.StepInSync | Lwip/src/netif/ppp/vj.c:140-630 | one packet of any kind through compressor, link and decompressor keeps every slot in agreement and is never rejected; it comes out unchanged if and only if the decompressor's copy of the uncompared bits (reserved, ECE, CWR, and URG for a special form) is what the packet carries |
| VjSync.RunInSync | Lwip/src/netif/ppp/vj.c:140-630 | over any run on a lossless link the ends stay in agreement and every packet comes out, equal but for the uncompared bits |
| VjSync.RunExact | Lwip/src/netif/ppp/vj.c:140-630 | a whole run comes out unchanged if and only if each packet finds the decompressor's copy of those bits as the packet carries them when its turn comes; the next rows state this on what the sender holds |
| VjExact.InitialAlike | Lwip/src/netif/ppp/vj.c:54-74 | two freshly initialised ends have saved the same headers in full |
| VjExact.AlikeStep | Lwip/src/netif/ppp/vj.c:140-630 | as long as every packet came out unchanged the headers saved at both ends are equal in full, uncompared bits included; a packet then comes out unchanged if and only if, sent compressed, it carries the reserved bits, ECE and CWR of the header in the compressor's own slot and, sent in a special form, finds no URG there |
| VjExact.RunSteady | Lwip/src/netif/ppp/vj.c:140-630 | over any run: every packet comes out unchanged if and only if that condition on the compressor's slots holds for each packet in turn |
| VjExact.ConstantRun | Lwip/src/netif/ppp/vj.c:140-630 | if reserved bits, ECE and CWR are constant on each connection, a run comes out unchanged if and only if no special form meets a slot with URG |
| VjExact.UrgentFree | Lwip/src/netif/ppp/vj.c:140-400 | no special form does in a run whose packets carry no URG |
| VjExact.StaleDifference | Lwip/src/netif/ppp/vj.c:505-521 | a header without URG that follows one with URG and grows by its data length is sent in a special form |
| VjExact.StaleUrgent | Lwip/src/netif/ppp/vj.c:140-630 | counterexample on a new link: of two packets of one connection, the first with URG and the second such a header, the second comes out with URG set though it was sent without |
| VjSent.PassedWhen | Lwip/src/netif/ppp/vj.c:140-180 | a packet is passed through as it is exactly when it is not a whole TCP segment with ACK and none of SYN, FIN and RST, or its headers do not fit the first buffer |
| VjSent.OnMiss | Lwip/src/netif/ppp/vj.c:181-222 | a packet of a connection without a slot goes out uncompressed |
| VjSent.OnHit | Lwip/src/netif/ppp/vj.c:237-400 | a packet of a known connection is sent compressed if and only if no field outside those that can be carried has changed, urgent pointers agree unless URG is set, ack and sequence number have grown by at most 65535 modulo 2 to the 32, urgent data does not come with a new window and sequence number, and it does not merely repeat the last header (unless that had no data and the length is another); its header then takes at most 19 octets (RFC 1144, section 3.2.2) |
| VjSent.StreamsShort | Lwip/src/netif/ppp/vj.c:336-400 | the next segment of a transfer, with nothing moved but the sequence number, or it and the ack by as much, has a header of three octets, and a fourth exactly when the slot must be named |
| VjLossy.SentOn | Lwip/src/netif/ppp/vj.c:213-400 | a compressed packet names the slot it is sent on unless that is the slot of the last packet |
| VjLossy.RunRightSlots | Lwip/src/netif/ppp/vj.c:406-484 | over any run on a link that loses any packets and reports each loss: every compressed packet that arrives is applied to the slot it was compressed with or dropped, no other slot changes, and after a loss packets that do not name their slot are dropped, with no effect, until one that does has come through |
| VjLossy.InitialSameSlot | Lwip/src/netif/ppp/vj.c:54-74 | freshly initialised ends are ready for such a run |
| VjCompress.RelinkOldest | Lwip/src/netif/ppp/vj.c:199-217 | on a miss, moving the end-of-ring pointer back by one makes the oldest slot the newest and leaves the order of the rest |
| VjCompress.RelinkMiddle | Lwip/src/netif/ppp/vj.c:225-235 | the three link updates on a hit in the middle turn the linked ring into the move-to-front of itself |
| VjCompress.VjComp.constructor | Lwip/src/netif/ppp/vj.c:54-74 | the linked ring starts as one cycle through all slots, in the order of the initial state; both ends are as at start |
| VjCompress.VjComp.FindSlot | Lwip/src/netif/ppp/vj.c:181-236 | the pointer search and relinking yield exactly the looked-up slot and the move-to-front order |
| VjCompress.VjComp.DeltaOf | Lwip/src/netif/ppp/vj.c:260-353 | the cascade of comparisons and appended numbers is the difference of the two headers, or the jump to uncompressed |
| VjCompress.VjComp.CompressTcp | Lwip/src/netif/ppp/vj.c:140-400 | the new ring, slots, last_xmit and the packet sent are those of the specification; the receiving half is untouched |
| VjCompress.VjComp.Send | Lwip/src/netif/ppp/vj.c:237-400 | comparing, saving and building the packet give the specified result for the slot found |
| VjCompress.VjComp.UncompressUncomp | Lwip/src/netif/ppp/vj.c:416-445 | slot, last_recv and toss flag follow the specification; a bad slot number or short packet is rejected and sets the toss flag |
| VjCompress.VjComp.UncompressTcp | Lwip/src/netif/ppp/vj.c:455-630 | slot, last_recv, toss flag and the rebuilt packet follow the specification, errors included |
| VjCompress.VjComp.PatchHeader | Lwip/src/netif/ppp/vj.c:495-545 | the moving pointer applies the changes in the specified order and stops where the specification does |
| VjCompress.VjComp.DecodeFields | Lwip/src/netif/ppp/vj.c:523-536 | urgent pointer, window, ack and sequence number are read in this order from the moving pointer |
| SeqNum.SignedIsDifference | Lwip/src/core/tcp_in.c:509-513 | the signed 32-bit difference of two wrapped counters is their true difference if and only if that lies within half the number space |
| SeqNum.ComparisonsAgree | Lwip/src/core/tcp_in.c:908-910 | within half the number space the macros order wrapped numbers as the unwrapped ones |
| SeqNum.ReceiveTestsAgree | Lwip/src/core/tcp_in.c:910-1175 | for a segment within a quarter of the number space of rcv_nxt and queued segments within 65536 above it, every sequence test of the receive path, those for equality included, has the same outcome on wrapped and unwrapped numbers |
| TcpIn.DrainDelivers | Lwip/src/core/tcp_in.c:1019-1049 | handing up the queued segments that have become next delivers exactly the stream between the old and the new rcv_nxt, and leaves the queue sorted, disjoint and strictly above it |
| TcpIn.InsertKeeps | Lwip/src/core/tcp_in.c:1061-1168 | queueing a segment keeps the queue on the stream and in the window, with the new segment's octets in it; it stays disjoint if and only if the segment does not replace one with the same start by a longer one that reaches into the next |
| TcpHeld.InsertHolds | Lwip/src/core/tcp_in.c:1070-1165 | an inserted segment leaves every queued segment that it does not touch in the queue; the queue then holds exactly what it held, less what a segment in front of the new one held from its start on, and the new one up to the next queued start |
| TcpIn.ReceiveDelivers | Lwip/src/core/tcp_in.c:879-1178 | for every state and segment of the stream: what is handed up is exactly the stream from the old rcv_nxt to the new one, the window shrinks by as much, and the queue invariant is kept if and only if no overlong replacement happens |
| TcpIn.RunDelivers | Lwip/src/core/tcp_in.c:879-1178 | whatever segments arrive, in any order and however often, the application gets the stream without gap, repetition or reordering |
| TcpHeld.ReceiveHolds | Lwip/src/core/tcp_in.c:905-1165 | after any arrival an octet of the stream is delivered or queued if and only if it was and is not cut off, or the segment is taken and brings it |
| TcpHeld.LosesExactly | Lwip/src/core/tcp_in.c:1120-1165 | an octet that was received is lost again if and only if a segment is queued that lies wholly inside a queued one, in front of that octet |
| TcpHeld.NestedLoses | Lwip/src/core/tcp_in.c:1150-1165 | counterexample: with 20..50 queued, the arrival of 30..35 loses 35..50 |
| TcpHeld.RunHolds | Lwip/src/core/tcp_in.c:905-1165 | over any run: an octet is held at the end if and only if it was held or brought and has not been cut off since |
| TcpHeld.RunCompletes | Lwip/src/core/tcp_in.c:905-1165 | if that is so for every octet up to some number, the application has got all of them |
| TcpHeld.ReceiveFin | Lwip/src/core/tcp_in.c:985-1045 | whatever is queued, a FIN is reported if and only if the segment taken in order carries it or one that then leaves the queue, always from the front |
| TcpIn.MacrosAgree | Lwip/src/core/tcp_in.c:910-1175 | for every ordered queue, any two of its segments and every segment with data less than a quarter of the number space away from rcv_nxt, the wrapped macros and comparisons for equality decide as the model does |
| TcpIn.InOrderProgress | Lwip/src/core/tcp_in.c:970-1050 | a segment that covers rcv_nxt moves it to the segment's end, or past the first queued segment if they touch |
| TcpIn.OverlongLeavesLeftover | Lwip/src/core/tcp_in.c:1078-1102 | counterexample: an overlong replacement leaves a queued segment that stays behind below rcv_nxt |
| TcpIn.LeftoverJumps | Lwip/src/core/tcp_in.c:975-986 | what follows from such a leftover: the 16-bit trimmed length wraps, and the next in-order segment moves rcv_nxt to 65536 above the leftover |
| TcpIn.FinDelivery | Lwip/src/core/tcp_in.c:975-1014 | a FIN segment in order, reaching at least as far as the queue, is delivered whole with its FIN at its end if and only if the queue is empty; otherwise it is cut and its FIN counts where the cut is |
| TcpReceive.TcpPcb.constructor | Lwip/src/core/tcp.c:891-941 | a new block expects the first number, with an empty queue |
| TcpReceive.TcpPcb.Accept | Lwip/src/core/tcp_in.c:986-998 | rcv_nxt and the advertised window move together; the window never goes below zero |
| TcpReceive.TcpPcb.Receive | Lwip/src/core/tcp_in.c:879-1178 | trimming, the window test, in-order delivery with its loop and the out-of-order case produce the specified state, data and FIN |
| TcpReceive.TcpPcb.Enqueue | Lwip/src/core/tcp_in.c:1061-1168 | the pointer walk over the queue with its splices and trims gives the specified queue; without memory nothing changes |
| TcpOut.EnqueueConsistent | Lwip/src/core/tcp_out.c:116-371 | a request is accepted if and only if send buffer, queue and memory suffice; then the octets queued are the old ones followed by the new, tiled without gap (merged into the last unsent segment or not); otherwise nothing changes |
| TcpOut.OutputConsistent | Lwip/src/core/tcp_out.c:461-511 | output sends the longest run of unsent segments that pass the window test, in order, and moves exactly these to unacked |
| TcpOut.FitsWindow | Lwip/src/core/tcp_out.c:461-463 | with less than half the number space in flight, the 32-bit window test is the comparison of the segment's end with the window's end |
| TcpOut.RexmitRtoConsistent | Lwip/src/core/tcp_out.c:614-641 | a timeout puts all unacknowledged segments back in front of the unsent ones in order; none is lost, and if any was unacknowledged exactly those sent again are unacknowledged after it |
| TcpOut.FastRexmitConsistent | Lwip/src/core/tcp_out.c:643-668 | fast retransmit followed by output keeps the queues consistent if and only if at most one segment was unacknowledged or the moved one fits the window; then the concatenated queue is unchanged and the moved segment is sent first |
| TcpOut.MergedIntoRetransmission | Lwip/src/core/tcp_out.c:310-327 | counterexample: while the moved segment waits alone in unsent, new data is merged into it, though it belongs after the segments still unacknowledged |
| TcpOut.AckDrops | Lwip/src/core/tcp_in.c:742-845 | an acknowledgement removes from both queues exactly the segments that end at or before it, and the counters follow |
| TcpOut.AckConsistent | Lwip/src/core/tcp_in.c:742-845 | any acknowledgement, old, new or beyond what was sent, keeps the queues consistent |
| TcpOut.SynAckIsAck | Lwip/src/core/tcp_in.c:538-554 | taking the SYN off in SYN_SENT has the effect of the general acknowledgement, except for snd_nxt |
| TcpOut.BufferExact | Lwip/src/core/tcp.c:907-927 | snd_buf is exactly the space left if and only if no more than TCP_SND_BUF octets are in flight or queued; in general it is that modulo 65536 |
| TcpOut.EnqueueWithinBuffer | Lwip/src/core/tcp_out.c:136-345 | one accepted request keeps the send buffer within its bound if and only if it is not a SYN or FIN queued when no space is left, which turns snd_buf into 65535 |
| TcpOut.NextWithinBuffer | Lwip/src/core/tcp_out.c:116-668 | of all steps (writes, outputs, timeouts, fast retransmits, acknowledgements) only that one takes the connection out of its send buffer, and it always does |
| TcpOut.RunBufferExact | Lwip/src/core/tcp_out.c:116-668 | over any run that starts within the buffer: snd_buf plus what is in flight or queued is TCP_SND_BUF in every state if and only if no SYN or FIN is ever accepted at snd_buf 0 |
| TcpOut.FinAfterFullBuffer | Lwip/src/core/tcp_out.c:116-345 | such a step is reachable: a new connection that queues a full buffer and then a FIN has snd_buf 65535 |
| TcpOut.NewConsistent | Lwip/src/core/tcp.c:891-941 | a new block is consistent, with nothing queued |
| TcpOut.ConnectConsistent | Lwip/src/core/tcp.c:523-548 | a connecting block is out of order until its SYN is out; queueing and sending the SYN makes it consistent if and only if the new initial number is not before the one of tcp_alloc, whatever the window; without memory nothing is queued |
| TcpOut.AckTestsAgree | Lwip/src/core/tcp_in.c:703-825 | with less than a quarter of the number space in flight, the tests on an acknowledgement within a quarter of it, and the one that raises snd_max, have the same outcome on wrapped and unwrapped numbers for every queued segment |
| TcpSent.OutputReaches | Lwip/src/core/tcp_out.c:398-500 | from any state tcp_output leaves snd_max at the highest end of any segment sent and snd_nxt at the end of the last one |
| TcpSent.OutputMax | Lwip/src/core/tcp_out.c:480-483 | from a consistent state snd_max becomes the larger of what it was and the end of the last segment sent |
| TcpSent.RunMax | Lwip/src/core/tcp_out.c:480-483 | over any run snd_max is the highest number of all segments ever handed to IP, and every unacknowledged segment ends at or before it |
| TcpSent.AllAcknowledged | Lwip/src/core/tcp_in.c:742-845 | when nothing is left unsent, an acknowledgement of snd_lbb empties both queues and gives the whole send buffer back |
| TcpSent.OutputAll | Lwip/src/core/tcp_out.c:408-463 | a window as large as what is outstanding lets everything out |
| TcpSent.RunDrains | Lwip/src/core/tcp_out.c:116-668 | after any run, an output with such a window and an acknowledgement of snd_lbb leave nothing queued, lastack at snd_lbb and the whole send buffer free |
| TcpSent.StepNext | Lwip/src/core/tcp_out.c:408-668 | snd_nxt stays where the next segment to send starts, except after a fast retransmit that sends nothing else while more is in flight and after an acknowledgement that takes the last unsent segment; both always break it |
| TcpSent.OutputNext | Lwip/src/core/tcp_out.c:480-480 | sending anything puts it right again |
| TcpSent.AcceptsWhen | Lwip/src/core/tcp_out.c:116-165 | a request is accepted if and only if its octets fit the send buffer, the queue is not full, and the segments it fills, with their buffers, fit the queue limit and memory |
| TcpSent.RunWithinLimits | Lwip/src/core/tcp_out.c:116-668 | over any run no queued segment grows beyond mss, merged ones included, and no more than TCP_SND_QUEUELEN buffers are queued |
| TcpOut.RunConsistent | Lwip/src/core/tcp_out.c:116-668 | over any run of writes, outputs, timeouts, sendable fast retransmits and acknowledgements: unacked followed by unsent is exactly the end of everything ever accepted, from the first segment not wholly acknowledged up to snd_lbb; no octet is lost, repeated or reordered, and the counters are exact |
| TcpOut.AllAcked | Lwip/src/core/tcp_in.c:742-845 | when everything is acknowledged both queues are empty |
| TcpSend.TcpPcb.constructor | Lwip/src/core/tcp.c:891-941 | the fields of a new block are those of the initial state |
| TcpSend.TcpPcb.Segment | Lwip/src/core/tcp_out.c:165-296 | the loop cuts the request as specified and fails exactly when the queue limit or memory would be exceeded |
| TcpSend.TcpPcb.Enqueue | Lwip/src/core/tcp_out.c:116-371 | queues and counters, or failure with nothing changed, as specified |
| TcpSend.TcpPcb.Output | Lwip/src/core/tcp_out.c:374-513 | the sending loop yields the specified queues, snd_nxt, snd_max and segments sent |
| TcpSend.TcpPcb.RexmitRto | Lwip/src/core/tcp_out.c:614-641 | walking to the end of unacked and splicing gives the specified state |
| TcpSend.TcpPcb.Rexmit | Lwip/src/core/tcp_out.c:643-668 | exactly the first unacknowledged segment moves to the head of unsent |
| TcpSend.TcpPcb.Ack | Lwip/src/core/tcp_in.c:742-845 | the two removal loops and the counter updates give the specified state |
| TcpSend.TcpPcb.SynSent | Lwip/src/core/tcp_in.c:538-554 | the updates of the SYN_SENT case give the specified state |
| Heap.FindFit | Lwip/src/core/mem.c:274-277 | the block found fits and none before it does |
| Heap.Find | Lwip/src/core/mem.c:274-275 | the position found is the block at the offset, and no earlier one starts there |
| HeapRuns.InitInv | Lwip/src/core/mem.c:120-141 | the initial heap meets the invariant, with the hint and the counter right |
| Heap.MallocKeeps | Lwip/src/core/mem.c:252-322 | allocation keeps the heap partitioned, without adjacent free blocks, with a free block at the end and one at lfree; a returned pointer was not live before and is live after; failure changes nothing |
| Heap.MallocIsFirstFit | Lwip/src/core/mem.c:274-310 | when lfree is the lowest free block, searching from it is first fit from offset 0, and allocation fails if and only if the request is 0, too large, or no free block passes the size test |
| Heap.MallocSize | Lwip/src/core/mem.c:252-322 | the payload is aligned and inside the heap, and at least as large as asked for if and only if the request is at most 0xfffc: above that the rounding wraps in 16 bits |
| HeapUsed.MallocAdds | Lwip/src/core/mem.c:252-322 | allocation adds one used block of the rounded size and leaves every other used block where it was |
| HeapFree.FreeKeeps | Lwip/src/core/mem.c:143-184 | freeing a live block, a null pointer or one outside the heap keeps the invariant, the hint and the counter |
| HeapUsed.FreeRemoves | Lwip/src/core/mem.c:143-184 | freeing takes exactly the freed block out of use |
| HeapFree.PlugKeeps | Lwip/src/core/mem.c:87-119 | merging a just freed block with its neighbours restores the absence of adjacent free blocks, keeps the partition and never raises the hint |
| HeapRealloc.ReallocKeeps | Lwip/src/core/mem.c:198-251 | shrinking keeps the invariant always; the counter stays right if and only if the block is cut or its size was already the new one; the hint stays lowest if and only if no block is cut off below it |
| HeapUsed.ReallocShrinks | Lwip/src/core/mem.c:198-251 | the block never moves, only its end may come down, and every other used block stays as it was |
| HeapUsed.Disjoint | Lwip/src/core/mem.c:50-60 | no two blocks overlap, headers included |
| HeapRuns.StepKeeps | Lwip/src/core/mem.c:87-322 | every operation a caller may make keeps the invariant; all but realloc keep hint and counter |
| HeapRuns.RunKeeps | Lwip/src/core/mem.c:87-322 | the same over any sequence of operations |
| HeapRuns.StepSpares | Lwip/src/core/mem.c:143-322 | an operation that is not told to free or resize a used block leaves it where it is, with its extent |
| HeapRuns.RunSpares | Lwip/src/core/mem.c:143-322 | over any run, what a caller holds is not moved, resized or handed out again until it is freed or resized |
| HeapRuns.AllFreed | Lwip/src/core/mem.c:120-141 | when no block is in use, the heap is the single block that initialisation makes |
| HeapMem.LaidMerge | Lwip/src/core/mem.c:101-118 | the two link writes of a merge are exactly the removal of one block from the doubly linked chain |
| HeapMem.LaidCut | Lwip/src/core/mem.c:278-292 | the header written in the middle of a block and the links around it are exactly the splitting of that block |
| HeapMem.LaidRelease | Lwip/src/core/mem.c:160-182 | clearing the used mark changes that block only |
| HeapMem.Mem.constructor | Lwip/src/core/mem.c:120-141 | the headers written at both ends of the heap represent the initial state |
| HeapMem.Mem.Plug | Lwip/src/core/mem.c:87-119 | following next and prev links, merging forward and backward is the specified merge |
| HeapMem.Mem.PlugForward | Lwip/src/core/mem.c:96-109 | the first half, with the hint moved if it was the swallowed block |
| HeapMem.Mem.PlugBackward | Lwip/src/core/mem.c:110-118 | the second half, likewise |
| HeapMem.Mem.Free | Lwip/src/core/mem.c:143-184 | the headers represent the specified heap afterwards, the chain intact in both directions |
| HeapMem.Mem.Cut | Lwip/src/core/mem.c:240-246 | a free block with its own header is linked in behind the shortened one |
| HeapMem.Mem.TakeBlock | Lwip/src/core/mem.c:278-310 | the found block is split and marked, and the walk to the next free block ends on one: the assertion at line 308 cannot fail |
| HeapMem.Mem.Malloc | Lwip/src/core/mem.c:252-322 | the walk along next links from lfree finds the specified block or none; result and headers are those of the specification |
| HeapMem.Mem.Realloc | Lwip/src/core/mem.c:198-251 | result and headers are those of the specification, errors included; mem_sem is still taken on return if and only if the size fits and the pointer lies outside the heap |
| HeapMem.Mem.ResizeBlock | Lwip/src/core/mem.c:226-249 | the cut and the merge behind it, as specified |
| PppFcsTable.TableIsPolynomial | Lwip/src/netif/ppp/pppif2.cpp:242-275 | all 256 entries of the table are eight steps of division by the polynomial of the frame check (RFC 1662, appendix C) |
| PppFcs.StepIsPolynomial | Lwip/src/netif/ppp/pppif2.cpp:277-283 | one table step is polynomial division by one octet |
| PppFcs.GoodResidue | Lwip/src/netif/ppp/pppif2.cpp:1509-1519 | the register ends at 0xf0b8 if and only if the last two octets are the complemented check of those before them, low octet first |
| PppFcs.FcsInjective | Lwip/src/netif/ppp/pppif2.cpp:277-283 | two different registers stay different over any octets |
| PppFcs.BurstDetected | Lwip/src/netif/ppp/pppif2.cpp:277-283 | any damage confined to two adjacent octets, anywhere in a packet, changes the check |
| PppFrame.ConfiguredMap | Lwip/src/netif/ppp/pppif2.cpp:849-910 | a configured map marks exactly the control characters of the asyncmap, the escape and the flag |
| PppFrame.ConfiguredCompatible | Lwip/src/netif/ppp/pppif2.cpp:849-910 | sender and receiver fit together whenever the sender's asyncmap covers the receiver's |
| PppFrame.ReceiveValid | Lwip/src/netif/ppp/pppif2.cpp:1475-1668 | in every state the receiver has no buffer without being in the data phase, whatever octet arrives and whether or not memory is available |
| PppFrame.FeedJoin | Lwip/src/netif/ppp/pppif2.cpp:1475-1668 | however the octets are cut into reads, the receiver ends in the same state and reports the same |
| PppFrame.StuffTaken | Lwip/src/netif/ppp/pppif2.cpp:538-568 | a stuffed packet is taken as the packet, with nothing reported on the way, for any two maps that fit together |
| PppFrame.Framed | Lwip/src/netif/ppp/pppif2.cpp:1475-1668 | from any state: the opening flag ends what came before, and the closing flag judges exactly the packet between |
| PppFrame.FrameReceived | Lwip/src/netif/ppp/pppif2.cpp:779-843 | from any receiver state a frame delivers exactly its protocol and information field, and leaves the receiver fresh |
| PppFrame.WriteReceived | Lwip/src/netif/ppp/pppif2.cpp:779-843 | for what pppWrite is given (ff 03, two protocol octets, payload) exactly that protocol and payload is delivered; with an odd first protocol octet the code takes that octet alone as the protocol |
| PppFrame.OutputParsed | Lwip/src/netif/ppp/pppif2.cpp:652-665 | a header compressed as pppifOutput does is parsed back to its protocol and payload if and only if a condition on its octets holds: an even first octet when two are sent, an odd one when one is sent, and not ff or 03 when the address field is left out |
| PppFrame.LineReceived | Lwip/src/netif/ppp/pppif2.cpp:1475-1668 | a run of frames, from any state, delivers every packet once, whole and in order |
| PppFrame.DamagedDropped | Lwip/src/netif/ppp/pppif2.cpp:1475-1668 | a packet damaged in at most two adjacent octets is never delivered |
| PppLine.FrameBuffersHold | Lwip/src/netif/ppp/pppif2.cpp:538-568 | the chain of pool buffers holds exactly the frame, and no buffer is overfilled |
| PppLine.WhenNeeded | Lwip/src/netif/ppp/pppif2.cpp:1623-1659 | the receiver asks for a new buffer exactly when there is none yet or the last one is full |
| PppLine.TrimmedIs | Lwip/src/netif/ppp/pppif2.cpp:1521-1537 | taking the check off a chain removes exactly its last two octets, also when they lie in different buffers |
| PppLine.Writer.constructor | Lwip/src/netif/ppp/pppif2.cpp:788-798 | writing starts with one empty buffer, if the pool has one |
| PppLine.Writer.Append | Lwip/src/netif/ppp/pppif2.cpp:538-568 | the octets of a character go into the last buffer or a new one as specified, and a failed allocation is remembered |
| PppLine.PppControl.constructor | Lwip/src/netif/ppp/pppif2.cpp:430-437 | both maps start with the escape and the flag only, the receiver idle |
| PppLine.PppControl.Write | Lwip/src/netif/ppp/pppif2.cpp:779-843 | the frame is sent whole if the pool can hold it, and not at all otherwise |
| PppLine.PppControl.InProc | Lwip/src/netif/ppp/pppif2.cpp:1475-1668 | the loop over the octets of one read is the specified receiver, and the chain holds what it has taken |
| PppLine.PppControl.ReceiveOctet | Lwip/src/netif/ppp/pppif2.cpp:1482-1571 | one octet: escapes, special characters and the rest |
| PppLine.PppControl.EndOfFrame | Lwip/src/netif/ppp/pppif2.cpp:1495-1555 | the flag judges the packet, hands it on or drops it, and starts afresh |
| PppLine.PppControl.PlainOctet | Lwip/src/netif/ppp/pppif2.cpp:1572-1664 | the phases of the receiver, and storing data in the chain |
| FsmSpec.InitInv | Lwip/src/netif/ppp/fsm.c:108-121 | the initial automaton meets the invariant |
| FsmSpec.StepKeeps | Lwip/src/netif/ppp/fsm.c:127-837 | every event keeps the invariant (opened means the peer acked our last request and our last reply was an Ack; up and down alternate and up is ahead exactly when opened; the timer runs exactly in the states that wait), if and only if it is not a Terminate-Ack received when opened |
| FsmSpec.TermAckWhileOpen | Lwip/src/netif/ppp/fsm.c:755-765 | what that exception leaves: opened, but with the upper layer down, the timer running, and neither side's request acked |
| FsmSpec.AckedIgnoresMore | Lwip/src/netif/ppp/fsm.c:592-700 | in the acked and opened states a further Ack, Nak or Reject does nothing: their cases for these states are never reached |
| FsmSpec.RunSafe | Lwip/src/netif/ppp/fsm.c:127-837 | the invariant holds in every state of every run without that exception |
| FsmSpec.GivesUp | Lwip/src/netif/ppp/fsm.c:464-517 | if only timeouts occur, one message goes out for each retransmission left and the timer keeps running; the next timeout ends in a state without a timer |
| FsmSpec.NaksBounded | Lwip/src/netif/ppp/fsm.c:523-590 | over any run, if the strict verdict is never a Nak, nakloops is the number of Naks sent since the last Ack sent or the start of the negotiation, and at no point of the trace of messages does that number exceed the configured one |
| FsmLink.Opens | Lwip/src/netif/ppp/fsm.c:127-700 | two automata over a link that loses nothing, opened and brought up in any order, messages arriving in any order, requests judged in any way: at most four messages arrive and two more for each refused request; when nothing more can happen both are opened with one up call each, unless both ends are silent, when nothing is ever sent |
| FsmClose.Ends | Lwip/src/netif/ppp/fsm.c:252-292 | two open automata over such a link, closed or rejected at either end at any time and with timers going off at any time: timeouts and arrivals are bounded by the configured retransmissions; at rest either nobody has closed and both are open, or both are closed or stopped, each taken down once and the lower layer told, and every Terminate-Request sent has been answered |
| FsmStandard.Conforms | Lwip/src/netif/ppp/fsm.c:127-790 | in every reachable state every event does exactly what the state transition table of RFC 1661, section 4.1, says, actions and next state, or nothing where it is discarded or cannot happen, if and only if it is not one of the listed departures (silent, passive and restart options, closing before the link is up, a Terminate-Ack while open, a Nak that ends the negotiation, answers after the first) |
| FsmStandard.RunTells | Lwip/src/netif/ppp/fsm.c:127-456 | over any run the state tells whether the lower layer was last reported up and whether the upper one last opened or closed |
| FsmNumbers.StepNumbers | Lwip/src/netif/ppp/fsm.c:464-837 | a retransmitted request keeps its identifier, every other message of one's own gets the next one in turn, an answer repeats the one it answers; the restart counter starts anew with each new request, counts every timeout, and is set again when an answer moves the negotiation on |
| FsmMachine.FsmBlock.constructor | Lwip/src/netif/ppp/fsm.c:108-121 | the fields of a new block are the initial automaton |
| FsmMachine.FsmBlock.SendConfReq | Lwip/src/netif/ppp/fsm.c:795-837 | request counter, flags, timer and identifier as specified, a retransmission keeping the identifier |
| FsmMachine.FsmBlock.SendTermReq | Lwip/src/netif/ppp/fsm.c:278-283 | the Terminate-Request is sent and the timer restarted |
| FsmMachine.FsmBlock.LowerUp | Lwip/src/netif/ppp/fsm.c:127-152 | as specified, state by state |
| FsmMachine.FsmBlock.LowerDown | Lwip/src/netif/ppp/fsm.c:161-200 | as specified, state by state |
| FsmMachine.FsmBlock.Open | Lwip/src/netif/ppp/fsm.c:208-243 | as specified, state by state |
| FsmMachine.FsmBlock.Close | Lwip/src/netif/ppp/fsm.c:252-292 | as specified, state by state |
| FsmMachine.FsmBlock.RestartLink | Lwip/src/netif/ppp/fsm.c:228-236 | the restart option drops and raises the link |
| FsmMachine.FsmBlock.ProtReject | Lwip/src/netif/ppp/fsm.c:409-456 | as specified, state by state |
| FsmMachine.FsmBlock.Timeout | Lwip/src/netif/ppp/fsm.c:464-517 | gives up or sends again, as specified |
| FsmMachine.FsmBlock.Input | Lwip/src/netif/ppp/fsm.c:330-400 | packets before the link is open are ignored; the others reach their handler |
| FsmMachine.FsmBlock.ConfReqIn | Lwip/src/netif/ppp/fsm.c:523-588 | the reply and the state follow from the options' verdict and the Nak count |
| FsmMachine.FsmBlock.Engage | Lwip/src/netif/ppp/fsm.c:538-549 | a request in opened or stopped state restarts negotiation first |
| FsmMachine.FsmBlock.ReplyTo | Lwip/src/netif/ppp/fsm.c:566-586 | the reply is sent and the state moves with it |
| FsmMachine.FsmBlock.ConfAckIn | Lwip/src/netif/ppp/fsm.c:592-644 | only the identifier of the last request and a good ack count |
| FsmMachine.FsmBlock.ConfNakRejIn | Lwip/src/netif/ppp/fsm.c:648-700 | only the identifier of the last request counts; the request is sent again |
| FsmMachine.FsmBlock.TermReqIn | Lwip/src/netif/ppp/fsm.c:704-732 | terminates, and is acknowledged |
| FsmMachine.FsmBlock.TermAckIn | Lwip/src/netif/ppp/fsm.c:736-766 | as specified, the opened case included |
| Checksum.SumJoin | Lwip/src/core/inet.c:62-91 | the word sum of two stretches is the sum of the parts, the second read at the parity where it lies |
| Checksum.FoldIs | Lwip/src/core/inet.c:81-87 | adding carries back gives the unique 16-bit value with the same remainder modulo 65535 and the same answer to being zero |
| Checksum.SwapFold | Lwip/src/core/inet.c:116-119 | exchanging the octets of a folded sum multiplies it by 256 (RFC 1071, section 2) |
| Checksum.AddPiece | Lwip/src/core/inet.c:108-121 | adding the sum of the next buffer, read from its own start, and swapping after an odd one, tracks the sum of all octets so far whatever their parity |
| Checksum.PseudoSum | Lwip/src/core/inet.c:126-131 | the six halfwords added for the pseudo header are the word sum of its twelve octets |
| Checksum.AddWords | Lwip/src/core/inet.c:68-80 | the loop over words and the odd last octet compute the word sum, without overflow |
| Checksum.StandardChksum | Lwip/src/core/inet.c:62-91 | two rounds of adding carries are enough: the result is the fully folded sum |
| Checksum.AddCarries | Lwip/src/core/inet.c:133-135 | the loop stops at the folded value |
| Checksum.ChksumPseudo | Lwip/src/core/inet.c:96-138 | for every chain of buffers, of any lengths and parities, the result is the complemented one's-complement sum of pseudo header and flat octets |
| Checksum.FilledVerifies | Lwip/src/core/inet.c:96-138 | data whose zeroed checksum field, at an even offset, is filled in with the result verifies to 0 |
| Checksum.VerifiesIff | Lwip/src/core/inet.c:96-138 | exactly which data verifies: a nonzero word sum divisible by 65535 |
| Checksum.WordDamage | Lwip/src/core/inet.c:96-138 | replacing one word of verified data goes unnoticed if and only if the new word is congruent modulo 65535 and the whole does not become all zero |
| Checksum.NetworkOrder | Lwip/src/core/inet.c:350-354 | with its octets exchanged the result is the checksum computed in network order |
| PbufSpec.FreeKeeps | Lwip/src/core/pbuf.c:549-613 | pbuf_free leaves ownership in order: every count is the chain links plus outside references, every pool buffer is in the pool exactly when it is not live |
| PbufSpec.FreeReleases | Lwip/src/core/pbuf.c:549-613 | exactly the longest prefix of buffers with a count of one is released, the next one loses one reference, and no other buffer changes |
| PbufSpec.FreeReturns | Lwip/src/core/pbuf.c:549-613 | exactly the released pool buffers go back to the pool, the last freed first |
| PbufSpec.FreeSurvives | Lwip/src/core/pbuf.c:549-613 | buffers off the chain are not touched, and those on it keep octets, totals and links |
| PbufSpec.FreeTotals | Lwip/src/core/pbuf.c:549-613 | every buffer that stays alive keeps its contents and its right total |
| PbufSpec.ReturnedAll | Lwip/src/core/pbuf.c:549-613 | freeing pool buffers gives the pool all of them |
| PbufSpec.AttachKeeps | Lwip/src/core/pbuf.c:678-686 | linking a chain behind another, the caller's reference becoming the link, keeps every count right |
| PbufSpec.CatKeeps | Lwip/src/core/pbuf.c:664-687 | concatenation leaves ownership in order |
| PbufSpec.CatContent | Lwip/src/core/pbuf.c:664-687 | every chain that led to the end of the first goes on with the contents of the second; no other chain changes |
| PbufSpec.CatTotals | Lwip/src/core/pbuf.c:664-687 | concatenation keeps every tot_len right if and only if nothing is added, or no other chain joins the first from the side and the two totals add up to less than 65536 |
| PbufSpec.RefKeeps | Lwip/src/core/pbuf.c:641-650 | a new reference leaves ownership in order if and only if the 16-bit count was below 65535 |
| PbufSpec.DetachKeeps | Lwip/src/core/pbuf.c:933-961 | cutting a chain after a buffer leaves exactly one reference to be dropped |
| PbufSpec.DetachContent | Lwip/src/core/pbuf.c:933-961 | each chain is what stays followed by what was cut off |
| PbufSpec.PopKeeps | Lwip/src/core/pbuf.c:139-178 | taking the first buffer of the pool keeps ownership in order |
| PbufSpec.FreshKeeps | Lwip/src/core/pbuf.c:308-336 | a new buffer from the heap, or for data held elsewhere, keeps ownership in order |
| PbufSpec.FreshTotals | Lwip/src/core/pbuf.c:308-336 | it holds the data, and all totals stay right |
| PbufSpec.PlaceIs | Lwip/src/core/pbuf.c:414-427 | the buffer and the rest length found for n octets split the first n octets of the chain there |
| PbufSpec.CutKeeps | Lwip/src/core/pbuf.c:393-447 | shortening leaves ownership in order, with one reference to drop |
| PbufSpec.CutContent | Lwip/src/core/pbuf.c:393-447 | every chain through the cut ends there; the others are as they were |
| PbufSpec.CutTotals | Lwip/src/core/pbuf.c:393-447 | shortening keeps every tot_len right if and only if nothing is cut off or no other chain joins at or before the cut from the side |
| PbufSpec.CutFreed | Lwip/src/core/pbuf.c:393-447 | dropping what was cut off does not change which totals are right |
| PbufAlloc.BuildStep | Lwip/src/core/pbuf.c:276-303 | one more pool buffer behind the last: the chain holds the first buffers of the pool in order, its totals right, everything else untouched |
| PbufAlloc.BuildDone | Lwip/src/core/pbuf.c:246-307 | the finished chain leaves ownership and all totals in order |
| PbufAlloc.BuildFails | Lwip/src/core/pbuf.c:277-287 | when the pool runs out midway, freeing what was built restores every live buffer and puts the same buffers back in the pool |
| PbufOps.GivenKeeps | Lwip/src/core/pbuf.c:549-613 | freeing a reference that a caller holds leaves ownership in order, and right totals right, whatever the totals were |
| PbufOps.DechainKeeps | Lwip/src/core/pbuf.c:933-961 | pbuf_dechain leaves ownership in order |
| PbufOps.DechainContent | Lwip/src/core/pbuf.c:933-961 | the first buffer then holds its own octets and nothing else |
| PbufOps.DechainTotals | Lwip/src/core/pbuf.c:933-961 | it keeps every tot_len right if and only if the rest was empty or no other chain leads to the first buffer |
| PbufOps.DechainRepairs | Lwip/src/core/pbuf.c:933-961 | whatever the other totals are: if that of the first buffer was right, its own and that of the rest are right afterwards, and the rest holds what it held |
| PbufOps.ReallocKeeps | Lwip/src/core/pbuf.c:393-447 | pbuf_realloc leaves ownership in order |
| PbufOps.ReallocContent | Lwip/src/core/pbuf.c:393-447 | the chain then holds its first n octets |
| PbufOps.ReallocTotals | Lwip/src/core/pbuf.c:393-447 | it keeps every tot_len right if and only if no other chain joins at or before the new end from the side |
| PbufOps.GrownIs | Lwip/src/core/pbuf.c:270-303 | building the rest of a chain fails if and only if the pool has too few buffers for it, and then the pool has back what it had; otherwise the chain has grown by the octets asked for |
| PbufOps.AllocIs | Lwip/src/core/pbuf.c:246-307 | pbuf_alloc for the pool fails if and only if the pool has fewer buffers than the length needs, and leaves ownership in order either way |
| PbufOps.AllocTotals | Lwip/src/core/pbuf.c:246-307 | it keeps every tot_len right, failing or not |
| PbufRuns.StepOwned | Lwip/src/core/pbuf.c:246-961 | each of the eight operations, from any owned state and whatever the totals, leaves ownership in order if and only if the count it raises was below 65535 |
| PbufRuns.StepTotals | Lwip/src/core/pbuf.c:246-961 | each operation keeps every tot_len right if and only if its own condition on side chains and 16-bit sums holds |
| PbufRuns.RunOwned | Lwip/src/core/pbuf.c:246-961 | over any run of operations called within the rules, counts, links, pool and liveness stay in order |
| PbufRuns.RunTotals | Lwip/src/core/pbuf.c:246-961 | every tot_len is right in every state of a run if and only if each step meets its condition |
| PbufRuns.AllReturned | Lwip/src/core/pbuf.c:246-961 | no leak: in an owned state in which callers hold no reference, no buffer is alive and every pool buffer is back in the pool |
| PbufRuns.TotalWraps | Lwip/src/core/pbuf.c:664-687 | counterexample: two unshared RAM buffers of 40000 octets end in a tot_len of 14464 |
| PbufRuns.CountWraps | Lwip/src/core/pbuf.c:641-650 | counterexample: one more reference to a buffer with 65535 leaves it alive with count 0 |
| PbufStore.Store.constructor | Lwip/src/core/pbuf.c:99-131 | all buffers start in the pool, in order |
| PbufStore.Store.Deallocate | Lwip/src/core/pbuf.c:582-597 | a pool buffer goes to the front of the pool |
| PbufStore.Store.Lower | Lwip/src/core/pbuf.c:578-580 | one reference fewer |
| PbufStore.Store.Unreference | Lwip/src/core/pbuf.c:549-613 | the loop along the chain is the specified release; the result counts the released buffers modulo 256 |
| PbufStore.Store.Free | Lwip/src/core/pbuf.c:549-613 | freeing a reference the caller holds, whatever the totals: the specified release; all that survives keeps its contents, and right totals stay right |
| PbufStore.Store.AddRef | Lwip/src/core/pbuf.c:641-650 | one count and one outside reference more; in order if and only if the count was below 65535; totals unaffected |
| PbufStore.Store.RaiseTotals | Lwip/src/core/pbuf.c:672-681 | the loop raises exactly the totals along the chain, modulo 65536, and stops at its last buffer |
| PbufStore.Store.Concatenate | Lwip/src/core/pbuf.c:664-687 | the specified state; right totals stay right if and only if nothing was added, or no side chain and a sum below 65536 |
| PbufStore.Store.Link | Lwip/src/core/pbuf.c:706-712 | likewise, and the caller keeps its reference, counted if and only if there is room |
| PbufStore.Store.AllocPool | Lwip/src/core/pbuf.c:246-307 | fails if and only if the pool has fewer buffers than needed, then with the pool's contents restored; otherwise a chain of the right length from the front of the pool |
| PbufStore.Store.AllocOther | Lwip/src/core/pbuf.c:308-336 | one buffer holding the data, or nothing changed |
| PbufStore.Store.PopHere | Lwip/src/core/pbuf.c:139-178 | the first buffer leaves the pool |
| PbufStore.Store.ExtendHere | Lwip/src/core/pbuf.c:288-302 | the next one is linked in behind |
| PbufStore.Store.CutAfter | Lwip/src/core/pbuf.c:439-445 | the rest of the chain is cut off and released as pbuf_free does |
| PbufStore.Store.Dechain | Lwip/src/core/pbuf.c:933-961 | the specified state: the first buffer alone holds its own octets, whatever the totals were; the rest is returned unless released; right totals stay right if and only if the rest was empty or no side chain |
| PbufStore.Store.Shrink | Lwip/src/core/pbuf.c:393-447 | the specified state: the chain holds the first n octets; right totals stay right if and only if no side chain joins at or before the cut |
| PbufStore.Store.StepOver | Lwip/src/core/pbuf.c:414-427 | the loop finds the place and changes exactly the totals before it |
| Mailbox.PutRing | Lwip/src/arch/unix/sys_arch.c:198-209 | advancing last adds the message at the end of the queue if and only if fewer than 99 are there; the hundredth makes the ring look empty |
| Mailbox.GetRing | Lwip/src/arch/unix/sys_arch.c:248-255 | advancing first takes the oldest message off and leaves the rest in order |
| Mailbox.StoreRing | Lwip/src/arch/unix/sys_arch.c:198-198 | writing the slot at last does not disturb the queue |
| Mailbox.InitInv | Lwip/src/arch/unix/sys_arch.c:152-170 | a new mailbox meets the invariant, for any number of posters |
| Mailbox.StepKeeps | Lwip/src/arch/unix/sys_arch.c:190-260 | every single step of a poster or of the fetcher keeps: mutual exclusion; messages accepted are those fetched followed by those in the ring; a fetcher waiting beside a message has been signalled or is about to be by the poster with the mutex |
| Mailbox.RunSafe | Lwip/src/arch/unix/sys_arch.c:190-260 | the same under every interleaving in which no more than 99 messages are outstanding |
| Mailbox.Progress | Lwip/src/arch/unix/sys_arch.c:190-260 | no deadlock and no lost wake-up: from every reachable state with a message in the ring, at most ten steps of the fetcher and of the poster holding the mutex fetch the oldest message |
| Mailbox.PostProgress | Lwip/src/arch/unix/sys_arch.c:190-213 | from every reachable state with room for it, a message that a poster wants to post is the newest one in the ring after at most twelve steps of that poster and of whoever holds the mutex, and the poster is done |
| Mailbox.PostMails | Lwip/src/arch/unix/sys_arch.c:190-213 | with the mutex free, a post signals exactly if the ring was empty |
| Mailbox.EmptyFetch | Lwip/src/arch/unix/sys_arch.c:222-260 | a fetch from an empty mailbox uses up a stale signal, waits, and on timeout comes back without a message and with nothing else changed |
| Mailbox.HundredthLost | Lwip/src/arch/unix/sys_arch.c:206-209 | counterexample: the hundredth outstanding message makes the ring look empty and all hundred are lost |
| Mailbox.Mbox.constructor | Lwip/src/arch/unix/sys_arch.c:152-170 | the ring starts empty |
| Mailbox.Mbox.Put | Lwip/src/arch/unix/sys_arch.c:198-213 | the critical section of a post is three steps of the model; the message is appended, or the ring looks empty if 99 were there; wasEmpty is right |
| Mailbox.Mbox.Get | Lwip/src/arch/unix/sys_arch.c:248-255 | the critical section of a fetch is two steps of the model; the oldest message comes out |
| Md5.PadLength | Lwip/src/netif/ppp/md5.c:182-182 | the padding brings the length to 56 modulo 64 and is never empty (RFC 1321, section 3.1) |
| Md5.Padded | Lwip/src/netif/ppp/md5.c:175-191 | the padded message is whole blocks |
| Md5.PaddedAt | Lwip/src/netif/ppp/md5.c:167-191 | octet by octet: the message, 0x80, zeros, and the length in bits in eight octets, lowest first, with no block more than that takes (RFC 1321, sections 3.1 and 3.2) |
| Md5.BlocksJoin | Lwip/src/netif/ppp/md5.c:147-161 | hashing the blocks of two stretches one after the other is hashing them together |
| Md5.OneOctet | Lwip/src/netif/ppp/md5.c:147-161 | one more octet joins the buffer, or completes a block that is then transformed, so that chaining value and buffer always stand for the message so far |
| Md5.CountBits | Lwip/src/netif/ppp/md5.c:141-145 | the two-word counter with its carry stays the bit length modulo 2 to the 64 |
| Md5.BufferPlace | Lwip/src/netif/ppp/md5.c:139-139 | the place in the buffer read off the counter is the message length modulo 64, also after the counter has wrapped |
| Md5.LastBlock | Lwip/src/netif/ppp/md5.c:175-191 | transforming the buffer with the saved counter in the last two words is the hash of the whole padded message |
| Md5.DigestAt | Lwip/src/netif/ppp/md5.c:193-204 | octet k of the digest is digit k modulo 4, in base 256 from the lowest, of word k divided by 4 (RFC 1321, section 3.5) |
| Md5.Context.constructor | Lwip/src/netif/ppp/md5.c:111-121 | a new context stands for the empty message |
| Md5.Context.Absorb | Lwip/src/netif/ppp/md5.c:147-161 | one octet, with the block transformed when full |
| Md5.Context.AddLength | Lwip/src/netif/ppp/md5.c:141-145 | the counter stands for the longer message |
| Md5.Context.Update | Lwip/src/netif/ppp/md5.c:127-163 | for any split of the message into calls: the context then stands for the message so far followed by the new octets |
| Md5.Context.WriteOut | Lwip/src/netif/ppp/md5.c:193-204 | the loop writes the four words out, each lowest octet first |
| Md5.Context.Final | Lwip/src/netif/ppp/md5.c:167-204 | the digest is the fold of the transformation over the blocks of the padded message, with its octets little-endian |
| Md5.Context.Assemble | Lwip/src/netif/ppp/md5.c:153-157 | words are made of octets little-endian |
| LcpOptions.CiLenIsLength | Lwip/src/netif/ppp/lcp.c:681-705 | lcp_cilen is exactly the length of what lcp_addci writes |
| LcpOptions.MatchesIs | Lwip/src/netif/ppp/lcp.c:785-860 | comparing an option field by field is comparing its octets with those sent |
| LcpOptions.AckExactly | Lwip/src/netif/ppp/lcp.c:785-900 | an ack is accepted if and only if it repeats what was sent, octet for octet |
| LcpOptions.RejSound | Lwip/src/netif/ppp/lcp.c:1216-1342 | a reject that is accepted is the encoding of options asked for, in order and with their values, and clears exactly those |
| LcpOptions.RejComplete | Lwip/src/netif/ppp/lcp.c:1216-1342 | every such reject is accepted |
| LcpOptions.RejEffect | Lwip/src/netif/ppp/lcp.c:1216-1342 | the next request is the old one with exactly the rejected options left out; a rejected CHAP takes PAP with it |
| LcpRequest.First | Lwip/src/netif/ppp/lcp.c:1388-1402 | the first option is a nonempty prefix of the packet, as long as it says unless its length cannot be right |
| LcpRequest.OutcomesCover | Lwip/src/netif/ppp/lcp.c:1383-1700 | the options judged are the packet cut up: no octet is skipped or read twice |
| LcpRequest.JudgeNak | Lwip/src/netif/ppp/lcp.c:1415-1690 | a Nak and only a Nak comes with a suggestion, never longer than the option and a quarter; the magic number is nak'd only if we negotiate ours |
| LcpRequest.StrictReply | Lwip/src/netif/ppp/lcp.c:1711-1721 | when no more Naks are allowed, the only option still nak'd is the magic number, and only if we negotiate ours |
| LcpRequest.AckOwn | Lwip/src/netif/ppp/lcp.c:1352-1759 | the options an lwIP peer writes are all acked if and only if each is acceptable |
| LcpRequest.Agreement | Lwip/src/netif/ppp/lcp.c:1352-1759 | a request written by lcp_addci is acked by the other end's lcp_reqci if and only if every option in it is acceptable there, and that ack is accepted by lcp_ackci |
| LcpNaks.AnswerOwn | Lwip/src/netif/ppp/lcp.c:1403-1690 | each option an lwIP peer writes is rejected if it may not be talked about, nak'd if it may but its value will not do, and else acked and noted with its value |
| LcpNaks.RemembersOwn | Lwip/src/netif/ppp/lcp.c:1403-1690 | after an acked request of an lwIP peer exactly the options it sent are remembered, each with the value it sent |
| LcpNaks.NakFollowed | Lwip/src/netif/ppp/lcp.c:1415-1690 | a suggestion is one well-formed option which the same end, asked for it with nothing remembered, acks; except a CHAP digest this end does not know itself and a random number equal to our own |
| LcpNaks.NaksFollowed | Lwip/src/netif/ppp/lcp.c:1383-1759 | so is every suggestion of a whole Nak |
| LcpNaks.MapSuggested | Lwip/src/netif/ppp/lcp.c:1453-1461 | the asyncmap suggested contains ours and the peer's, and is contained in every map that does |
| LcpNaks.LacksIs | Lwip/src/netif/ppp/lcp.c:1453-1453 | a map has a character that another lacks exactly when uniting them adds to the other |
| LcpRequest.SuggestedFits | Lwip/src/netif/ppp/lcp.c:1352-1759 | the whole Nak is at most the request and a quarter |
| LcpRequest.NakOutgrows | Lwip/src/netif/ppp/lcp.c:1415-1690 | a suggestion is longer than the option it answers, and then by one octet, if and only if CHAP is suggested for an authentication option of four octets |
| LcpRequest.NakOutgrowsRequest | Lwip/src/netif/ppp/lcp.c:1507-1515 | counterexample: where only CHAP will do, a request for PAP of four octets is answered by a Nak of five |
| LcpRequest.MoveOne | Lwip/src/netif/ppp/lcp.c:1722-1727 | the octet to be moved next has not been written over |
| LcpRequest.Compacted | Lwip/src/netif/ppp/lcp.c:1722-1727 | moving a rejected option down changes neither the options kept before nor any unread octet |
| LcpRequest.Lcp.Request | Lwip/src/netif/ppp/lcp.c:710-774 | the specified octets, exactly as many as lcp_cilen says |
| LcpRequest.Lcp.AckCi | Lwip/src/netif/ppp/lcp.c:785-900 | the moving pointer accepts exactly the octets sent |
| LcpRequest.Lcp.RejCi | Lwip/src/netif/ppp/lcp.c:1216-1342 | accepts and clears as specified; in the open state nothing is changed |
| LcpRequest.Lcp.MoveDown | Lwip/src/netif/ppp/lcp.c:1724-1725 | the move towards the front |
| LcpRequest.Lcp.Keep | Lwip/src/netif/ppp/lcp.c:1722-1727 | the rejected options end up one behind the other, in order and verbatim |
| LcpRequest.Lcp.ReadOptions | Lwip/src/netif/ppp/lcp.c:1383-1728 | the loop classifies every option; the reply is Reject if any is rejected, else Nak if any is nak'd, else Ack; the buffer is untouched unless something is rejected |
| LcpRequest.Lcp.ReqCi | Lwip/src/netif/ppp/lcp.c:1352-1759 | in a buffer that holds the request, and the Nak if the reply is one, the buffer then holds the reply: the request itself, the suggestions, or exactly the rejected options verbatim and in order |
| LcpRequest.Lcp.CopyIn | Lwip/src/netif/ppp/lcp.c:1741-1747 | the suggestions are copied over the request |

## Left out

Contracts narrower than the code:

- VjCompress.VjComp.UncompressTcp: a compressed packet for a slot that has never been set is not covered; the code then patches zeroed memory. A data offset below five words is left to the specification's `Odd` slot. Reads past the end of the packet give 0, where the code reads whatever follows, before both reject the packet.
- VjCompress.VjComp.constructor: the control block starts in zeroed memory; `vj_compress_init` itself does not clear the saved headers. A 4-byte `long` is assumed, as on the targets.
- TcpIn.ReceiveDelivers: sequence numbers are unbounded counters; `SeqNum`, `TcpIn.MacrosAgree` and `TcpOut.AckTestsAgree` connect them with the wrapped ones, for numbers within a quarter of the number space.
- TcpOut.RunConsistent: a fast retransmit is a step only if the following output sends the moved segment; acknowledgements beyond `snd_max` are ignored as the code does. `SYN_SENT` and `tcp_connect` appear as their own lemmas.
- TcpSend.TcpPcb.SynSent: needs the SYN that the state implies in unacked.
- HeapMem.Mem.Free: a pointer inside the heap that is not a live block is a caller's error and not covered, as for `mem_realloc`.
- HeapMem.Mem.Malloc: headers are arrays indexed by the offset of their block, not octets inside `ram`; payload octets are not modelled.
- PppLine.PppControl.EndOfFrame: a packet with a good check and fewer than two data octets, where the code underflows a length or uses a null pointer, is the event `Fault`. A failing `tcpip_callback` and the tail of `pppDrop` (freeing order, `vj_uncompress_err`) are not modelled.
- PppFrame.OutputParsed: `pppifOutput` is modelled by the header it writes; its netif checks and VJ calls are not.
- PbufStore.Store.Dechain: the count that `pbuf_free` returns is one octet, so a freed rest of a multiple of 256 buffers is reported as still there; the contract says so.
- PbufStore.Store.AllocPool: new buffers hold zeros, where the code leaves old octets; the pool list is a sequence.
- PbufStore.Store.Shrink: the return of the end of a RAM buffer to the heap is not modelled. A chain whose `tot_len` is larger than its contents, which the loop would run past the end of, is outside `MayShrink`.
- PbufRuns.RunOwned: a cat of a chain with one that ends in it, which makes a cycle, is a caller's error and not a step.
- FsmLink.Opens: no timer goes off before the messages on the way have arrived; what timeouts do alone is `FsmSpec.GivesUp`. Acks are taken to be good, and a Nak or Reject to be one that can be followed.
- FsmClose.Ends: starts from two open ends with nothing on the way; closing in the middle of a negotiation is covered by `FsmSpec.RunSafe` only.
- FsmMachine.FsmBlock.Input: the verdicts of the option callbacks are parameters, callbacks do not re-enter, packet lengths have been checked, and the text of a Terminate-Request is left out.
- LcpRequest.Lcp.ReqCi: if the reply is a Nak the buffer must have room for it, which may be more than the request (`LcpRequest.NakOutgrows`); the code copies without a check. Overlapping `BCOPY` is an ascending copy. The random magic number is a parameter.
- LcpRequest.StrictReply: the magic number option is nak'd even when Naks are over, as in the code.
- Md5.Context.Update: the block transformation is a parameter.
- Mailbox.Progress: a semaphore operation is one step, the pthread calls inside it being taken as atomic; the fetch with a null message pointer and `sys_mbox_free` are left out.

Parts of these files that are not modelled:

- tcp_in.c, tcp_out.c: PSH and URG flags, congestion window, round-trip estimation, keepalive, TIME_WAIT, window updates, empty ACK segments, freeing of replaced segments, and callbacks into the application.
- tcp.c: of `tcp_connect` only the numbers and the SYN (`TcpOut.ConnectConsistent`); `tcp_seg_copy`; `tcp_segs_free` appears only as the buffers that leave the count.
- mem.c: semaphores, but for the one `mem_realloc` may keep, statistics and `mem_reallocm`.
- pbuf.c: `pbuf_header`, `pbuf_take`, `pbuf_queue`, `pbuf_dequeue` and payload pointers.
- inet.c: `inet_chksum_pbuf`, whose odd-length swap at line 174 has no effect by operator precedence, and address parsing.
- lcp.c: `lcp_nakci`, multilink options, MS-CHAP, echo requests.
- vj.c: realignment and prepending of buffers (lines 586-618) and the counters. Their failures drop the packet and set the toss flag after the slot has been updated; the model has no such failure.
- vj.c: `vj_uncompress_err`, which only sets the toss flag, has no row of its own; `VjLossy.RunRightSlots` says what the flag achieves. Stale headers after a loss are found by the receiver's TCP checksum, which is not modelled.

Other files: drivers, sockets, `api_msg.c`, `ip_frag.c`, `ipcp.c`, authentication, SLIP and IPv6 are not part of this model: plumbing, code that depends on callbacks, or easier repetitions of the above.
