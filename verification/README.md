# A verified model of quicly's transport state

quicly is an implementation of QUIC (RFC 9000, 9001 and 9002). This project models, in Dafny, the state that it keeps in memory for
a connection and the code that updates it, and proves what the code and its comments promise of that state. Cryptography, I/O and
congestion control are outside of it.

The model has six parts.

1. **Ranges** (`Ranges`, `RangeList`, `BPlus*`). The sorted array of ranges and the B+ tree that speeds it up. The memory of the tree
   is a map from addresses to nodes of sixteen slots with sentinels; a tree of values stands beside it as a ghost. Adding a range to the
   tree gives the list that adding it to the array gives, through every split, borrow, merge and change of height.
2. **Streams** (`SendState`, `SendSide`, `SendRuns`, `StreamBuf`, `StreamSender`, `RecvState`, `RecvSide`, `StreamRuns`, `FlowCredit`,
   `Ingress`, `AckBatch`). One sender, one receiver, and a network that drops, reorders and duplicates frames, as steps. No byte is
   forgotten; the final size never changes once it was announced; what is read is a prefix of what was written, and all of it when the
   transfer completes; flow-control credit is conserved; batching acks makes no difference to what they do.
3. **Sent packets** (`SentBlocks`, `SentPackets`, `Sentmap`, `SentReports`, `Loss`). The linked blocks with tombstones, and the iterator
   that survives the discarding of its own block, refine a list of packets. Each frame hears of at most one loss and then at most one
   ack. Loss detection that stops at the first packet that is not lost is exact.
4. **ACK frames** (`Varint`, `AckFrame`, `AckApply`, `AckRecord`). The encoding round-trips, every decoded frame describes disjoint
   blocks, the walk over the sent packets acks exactly the packets covered, and the compact record of a sent ACK round-trips.
5. **Connection IDs** (`RemoteCid`, `PathDcid`, `LocalCid`).
6. **1-RTT key phases** (`KeyPhase`).

The form follows the source: structures that are updated in place are classes with `modifies` clauses, loops are loops with invariants.
Each method is proved against a function or a predicate on values, and the properties that span several operations are lemmas about
those, mostly over whole runs: `Run` and `History` are sequences of states each of which follows from the one before by a step that the
source allows. Integers are unbounded; the sentinel `UINT64_MAX` is written out, and offsets and packet numbers stay below it.

Some properties that one might expect do not hold without a condition. For each there is a member with an input that shows it, and
a lemma or contract that says exactly when the property holds:

- `quicly_ranges_next_missing` returns the least missing value if and only if the list is empty or its first range starts at or below
  the bound (`RangeLists.RangeList.NextMissing`, `RangeLists.RangeList.MissesBelow`).
- Connection-level credit is conserved by a successful frame if and only if the frame is not an empty one without FIN that lies ahead of
  everything received (`FlowCredits.FrameBalanced`, `FlowCredits.StepConserves`, `FlowCredits.OverchargeHappens`).
- The assertion in `quicly_sendstate_shutdown` on `eos_state` lets a second shutdown through once the FIN is lost; the final size then
  stays what was announced if and only if the same size is given (`SendRuns.SecondShutdown`, `SendRuns.SecondShutdownMoves`).
- The peer, retiring a connection ID, keeps one that it was told of if and only if it was told of another one: IDs that were never
  sent keep `quicly_local_cid_retire` from reporting a violation (`LocalCids.LocalCidSet.Retire`,
  `LocalCids.LocalCidSet.RetiredTooEarly`).
- `quicly_loss_detect_loss` sets `loss_time` to the least deadline that remains if and only if no packet that was not overtaken in its
  own packet number space precedes all outstanding packets that were in theirs; with one space this is always so
  (`Losses.LossDetector.DetectLoss`, `Losses.OneSpaceClear`, `Losses.HandshakeShadows`).
- The one-entry cache of stream acks always applies the joined acks one by one (`AckBatches.CacheApplies`). That equals applying each ack
  alone whenever none of these fails for an excess of gaps and no frame carries a marker above the one that its stream ends with
  (`AckBatches.BatchingTransparent`), the latter being so for all frames that were ever sent (`AckBatches.RunsTransparent`); without
  either it need not (`AckBatches.CacheToleratesMore`, `AckBatches.StaleMarkerMatters`).

## Model

| member | source | states |
|---|---|---|
| Ranges.UnionCovers | lib/ranges.c:97-135 | an offset is covered after adding a range exactly if it was covered before or lies in the range |
| Ranges.UnionSeparated | lib/ranges.c:97-135 | the list stays sorted, disjoint, non-touching and free of empty ranges but for the first, if and only if the range is empty or is not put in front of an empty first range |
| Ranges.DifferenceCovers | lib/ranges.c:137-203 | an offset is covered after subtracting a range exactly if it was covered and lies outside the range |
| Ranges.DifferenceCanonical | lib/ranges.c:137-203 | subtracting keeps the list sorted, disjoint, non-touching and without empty ranges |
| Ranges.TrimIsDifference | lib/ranges.c:137-203 | cutting only the first and the last overlapping range, and dropping those in between, is the difference |
| Ranges.CanonicalUnique | lib/ranges.c:97-203 | two well-formed lists that cover the same offsets are equal, so the operations have one possible result |
| Ranges.NextMissingAt | lib/ranges.c:205-222 | the offset that the scan returns is the least one missing at or above the bound |
| RangeLists.RangeList.constructor | lib/ranges.c:91-95 | a new list is well-formed and empty |
| RangeLists.RangeList.WithRange | lib/ranges.c:91-95 | a new list with one range, which may be empty |
| RangeLists.RangeList.InsertAt | lib/ranges.c:42-61 | inserts at a slot; the capacity covers the count |
| RangeLists.RangeList.DropByRangeIndices | lib/ranges.c:63-77 | drops a run of ranges; the capacity covers the count |
| RangeLists.RangeList.MergeUpdate | lib/ranges.c:79-89 | a run of ranges becomes the one that spans them and the range added |
| RangeLists.RangeList.Scan | lib/ranges.c:97-135 | the backward scan finds exactly the ranges that a new one touches |
| RangeLists.RangeList.Add | lib/ranges.c:97-135 | the list becomes the union, for every list and every range; it stays well-formed if and only if a range is not put in front of an empty first one |
| RangeLists.RangeList.Subtract | lib/ranges.c:137-203 | the list covers exactly the difference, and is it when no range was empty |
| RangeLists.RangeList.TrimOne | lib/ranges.c:158-178 | a range that holds the cut is shortened, split or dropped |
| RangeLists.RangeList.FindLast | lib/ranges.c:188-196 | the last range that the cut reaches |
| RangeLists.RangeList.TrimMany | lib/ranges.c:180-200 | the outer two of several overlapping ranges are shortened, the inner ones dropped |
| RangeLists.RangeList.NextMissing | lib/ranges.c:205-222 | the result is the least value at or above the bound that is not covered if and only if the list is empty or its first range starts at or below the bound; the number of slots traversed is exact |
| RangeLists.RangeList.MissesBelow | lib/ranges.c:205-222 | an input below the first range for which the result is not the least missing value |
| BPlusNodes.LeafSearch | lib/bplus_ranges.c:66-75 | the fixed-step search of a leaf splits its ranges into those that start at or before the value and those that start after it |
| BPlusNodes.KeySearch | lib/bplus_ranges.c:81-89 | the fixed-step search of an inner node finds the last child whose smallest start is at or before the value |
| BPlusNodes.InsertRangeAt | lib/bplus_ranges.c:103-112 | shifts a packed leaf and inserts a range |
| BPlusNodes.RemoveRangeAt | lib/bplus_ranges.c:117-124 | removes a range and keeps the leaf packed |
| BPlusNodes.InsertEntryAt | lib/bplus_ranges.c:130-144 | shifts a packed inner node and inserts a key and a child |
| BPlusNodes.RemoveEntryAt | lib/bplus_ranges.c:149-158 | removes a key and a child and keeps the node packed |
| BPlusNodes.SplitLeaf | lib/bplus_ranges.c:239-262 | the two halves of a full leaf, each packed |
| BPlusNodes.SplitInner | lib/bplus_ranges.c:239-262 | the two halves of a full inner node, each packed, and the key between them |
| BPlusPaths.DescendIn | lib/bplus_ranges.c:189-201 | the path addresses the last range that starts at or before the value; slot -1 only in the first leaf |
| BPlusPaths.PrevLeafIn | lib/bplus_ranges.c:219-234 | the path addresses the last range of the preceding leaf |
| BPlusOrders.RootSize | lib/bplus_ranges.c:168-183 | a tree of height h >= 2 holds at least 2*8^(h-1) ranges |
| BPlusOrders.FilledSize | lib/bplus_ranges.c:168-183 | a subtree of height h holds at least 8^h ranges |
| BPlusOrders.HeightBound | lib/bplus_ranges.c:168-183 | with at most 2^22 ranges the height is at most 8, with fewer it is below 8; the invariant of the tree keeps the number of ranges at or below 2^22, so every tree that is built has a height of at most 8 and every path fits, and the assertion before growing the root holds |
| BPlusInserts.CountFull | lib/bplus_ranges.c:271-288 | the number of full nodes from the leaf upwards, and the number of nodes to allocate: none if the leaf has room, one more than there are levels if and only if all nodes of the path are full |
| BPlusInserts.FullFromLeaf | lib/bplus_ranges.c:276-277 | the loop that counts |
| BPlusInserts.InsertIn | lib/bplus_ranges.c:290-335 | bottom-up insertion with splits: the tree invariant holds of the new memory, the list gains the range at its place, memory grows by exactly the nodes allocated beforehand, and the last pointer follows |
| BPlusInserts.SplitLeafInsert | lib/bplus_ranges.c:290-304 | splits a full leaf and inserts into the half where the range belongs |
| BPlusInserts.InsertLeafRoom | lib/bplus_ranges.c:290-304 | insertion into a leaf with room: only that leaf changes |
| BPlusInserts.InsertLeafFull | lib/bplus_ranges.c:293-304 | insertion into a full leaf leaves a tree and a new sibling that together hold the new list |
| BPlusInserts.InsertChild | lib/bplus_ranges.c:319-331 | a parent with room takes the new child in behind the old one |
| BPlusInserts.TakeIn | lib/bplus_ranges.c:319-332 | the tree is whole again once a parent has taken the sibling in |
| BPlusInserts.SplitUp | lib/bplus_ranges.c:323-331 | a full parent is split, and its own new sibling is what remains to be placed |
| BPlusInserts.HandUp | lib/bplus_ranges.c:306-332 | one level of the climb |
| BPlusInserts.SplitInnerInsert | lib/bplus_ranges.c:319-331 | splits a full inner node and inserts into the half where the child belongs |
| BPlusInserts.GrowRoot | lib/bplus_ranges.c:308-317 | a new root over the two halves of the old one |
| BPlusInserts.ClimbUp | lib/bplus_ranges.c:306-332 | the upper halves are handed to the parents until one has room or the root was split |
| BPlusDeletes.UpdateSeparator | lib/bplus_ranges.c:206-214 | the separator that refers to the subtree of the leaf is found and set; every separator is then the smallest start of its child |
| BPlusDeletes.RemoveFromLeaf | lib/bplus_ranges.c:347-354 | removes the range from its leaf; the path addresses the predecessor, the last pointer follows |
| BPlusRebalances.BorrowFromHigh | lib/bplus_ranges.c:368-383 | one entry moves from the higher sibling; both halves keep their entries in order, the separator is right |
| BPlusRebalances.BorrowFromLow | lib/bplus_ranges.c:389-404 | one entry moves from the lower sibling; both halves keep their entries in order, the separator is right |
| BPlusRebalances.Merge | lib/bplus_ranges.c:406-422 | the higher sibling is merged into the lower one and freed |
| BPlusDeletes.RebalanceStep | lib/bplus_ranges.c:359-429 | one round of rebalancing: borrow or merge; the list is unchanged and the path still addresses the predecessor |
| BPlusDeletes.StepBorrowHigh | lib/bplus_ranges.c:363-383 | borrowing from the higher sibling restores the fill of the node and keeps the list, the path and the last pointer |
| BPlusDeletes.StepBorrowLow | lib/bplus_ranges.c:384-404 | borrowing from the lower sibling does, and moves the path along |
| BPlusDeletes.StepMergeHigh | lib/bplus_ranges.c:406-429 | merging with the higher sibling leaves at most the parent one entry short |
| BPlusDeletes.StepMergeLow | lib/bplus_ranges.c:406-429 | merging into the lower sibling does, and moves the path along |
| BPlusDeletes.Rebalance | lib/bplus_ranges.c:356-429 | rebalancing ends with every node but the root holding at least eight entries |
| BPlusDeletes.DeleteIn | lib/bplus_ranges.c:342-440 | deletion keeps the whole tree invariant, removes exactly the range addressed, frees no node but merged ones and the old root, and leaves the path at the predecessor, slot -1 meaning the last range of the preceding leaf |
| BPlusRanges.CalcMaxRanges | lib/bplus_ranges.c:168-183 | a number of ranges reaches the cap exactly if it is at least 63 and either at least 2^22 or more than one per 1024 bytes that the peer may still send |
| BPlusRanges.BPlusRangeSet.constructor | include/quicly/bplus_ranges.h:100-111 | a new tree is well-formed and holds the empty range at zero |
| BPlusRanges.BPlusRangeSet.LastEnd | lib/recvstate.c:54-54 | the cached pointer addresses the greatest range |
| BPlusRanges.BPlusRangeSet.FirstRange | lib/recvstate.c:119-120 | the leaf that is part of the structure holds the first range |
| BPlusRanges.BPlusRangeSet.InsertRange | lib/bplus_ranges.c:268-336 | inserts right after the range addressed; fails exactly when the leaf is full and memory runs out, and then nothing has changed |
| BPlusRanges.BPlusRangeSet.DeleteRange | lib/bplus_ranges.c:342-440 | removes the range addressed; the path returned addresses the one before it |
| BPlusRanges.BPlusRangeSet.Normal | lib/bplus_ranges.c:519-523 | a path that stands before a leaf is moved to the last range of the leaf before |
| BPlusRanges.BPlusRangeSet.SetEnd | lib/bplus_ranges.c:496-498 | extends the range addressed and keeps the invariant |
| BPlusRanges.BPlusRangeSet.SetStart | lib/bplus_ranges.c:525-529 | lowers the start of the range addressed, and the separator that refers to it |
| BPlusRanges.BPlusRangeSet.ExtendLast | lib/bplus_ranges.c:475-480 | extends the greatest range through the cached pointer |
| BPlusRanges.BPlusRangeSet.Predecessor | lib/bplus_ranges.c:499-511 | the range before the one addressed, across leaves, or none |
| BPlusRanges.BPlusRangeSet.Absorb | lib/bplus_ranges.c:512-518 | merges the range addressed into its predecessor if that touches |
| BPlusRanges.BPlusRangeSet.MergeInto | lib/bplus_ranges.c:493-529 | merging with all ranges touched gives the union |
| BPlusRanges.BPlusRangeSet.Isolated | lib/bplus_ranges.c:486-487 | the test on the range found is whether no range at all touches the new one |
| BPlusRanges.BPlusRangeSet.AddBySearch | lib/bplus_ranges.c:482-531 | the general case of adding a range: the union, or nothing; STATE_EXHAUSTION exactly when the range touches nothing and there are at least 63 ranges, and 2^22 or more than one per 1024 bytes of the window |
| BPlusRanges.BPlusRangeSet.Add | lib/bplus_ranges.c:466-532 | for every well-formed tree and every range, success gives the list that quicly_ranges_add gives on the flat list; STATE_EXHAUSTION occurs exactly when the range is not empty, touches nothing, and there are at least 63 ranges, and 2^22 or more than one per 1024 bytes of the window; any error leaves everything unchanged; the height never exceeds 8 |
| SendStates.AnchoredUnique | lib/sendstate.c:156-179 | lists of acked ranges, which start at zero, are determined by what they cover |
| SendStates.AddMissingFacts | lib/sendstate.c:181-214 | what a loss adds to the pending ranges is exactly the part of the frame that is not acked |
| SendStates.ActivateDoes | lib/sendstate.c:71-80 | exactly what is pending after activating |
| SendStates.ShutdownDoes | lib/sendstate.c:82-101 | exactly what is pending after closing; nothing else but the final size changes |
| SendStates.ResetDoes | lib/sendstate.c:103-131 | where a stream that is reset ends, and exactly what counts as acked and what is pending |
| SendStates.AckedDoes | lib/sendstate.c:156-179 | exactly what an ack adds to the acked offsets and takes from the pending ones, when it delivers the marker, and how far it shifts the buffer |
| SendStates.LostDoes | lib/sendstate.c:181-214 | exactly what a loss makes pending, and when it takes the marker back |
| SendStates.SentDoes | lib/quicly.c:4745-4758 | exactly what sending leaves pending |
| SendStates.MarkerIs | include/quicly/sendstate.h:115-122 | what a stream ends with |
| SendSides.SendSide.constructor | lib/sendstate.c:29-38 | the initial state |
| SendSides.SendSide.Activate | lib/sendstate.c:71-80 | the bytes not sent yet become pending, up to the final size |
| SendSides.SendSide.Shutdown | lib/sendstate.c:82-101 | the final size is set; what is unsent below it is pending, nothing above it is |
| SendSides.SendSide.Reset | lib/sendstate.c:103-131 | the bytes at or above the reliable size are retired |
| SendSides.SendSide.OnAcked | lib/sendstate.c:156-179 | acked and pending ranges, the marker and the number of bytes to shift; whether there is too much state |
| SendSides.SendSide.OnLost | lib/sendstate.c:181-214 | the loop over acked ranges returns to pending exactly what is not acked |
| SendSides.SendSide.ReturnMissing | lib/sendstate.c:187-202 | the loop of the loss: at every slot, everything below it has been dealt with |
| SendSides.SendSide.CheckAmountOfState | lib/sendstate.c:133-154 | too much state exactly when there are at least 256 ranges and more than one per 128 bytes buffered |
| SendRuns.StepSound | lib/sendstate.c:71-214 | every step of the application, of sending, and of the fate of frames keeps the invariant of the sending side |
| SendRuns.AlwaysSound | lib/sendstate.c:71-214 | the invariant holds in every state of every run |
| SendRuns.ActivateSound | lib/sendstate.c:71-80 | writing and syncing keep the invariant |
| SendRuns.CloseSound | lib/sendstate.c:82-101 | closing keeps the invariant |
| SendRuns.SendMarkerSound | lib/quicly.c:4416-4423 | sending a FIN alone or a reset keeps the invariant |
| SendRuns.ResetSound | lib/sendstate.c:103-131 | a reset keeps the invariant: nothing at or above the reliable size is pending, and all of it below the final size counts as acked |
| SendRuns.SendDataSound | lib/quicly.c:4745-4764 | sending data keeps the invariant |
| SendRuns.AckSound | lib/quicly.c:3438-3464 | an ack, also a late one, keeps the invariant |
| SendRuns.LoseSound | lib/quicly.c:3521-3533 | a loss or a probe timeout keeps the invariant |
| SendRuns.ExpireSound | lib/sentmap.c:133-170 | expiry, which reports a loss if the frame was in flight, keeps the invariant |
| SendRuns.NoByteForgotten | lib/sendstate.c:71-214 | in every state of every run each offset below size_inflight is acked, pending, or carried by a frame in flight; acked and pending are disjoint; acked lies below size_inflight |
| SendRuns.QuietMeansAcked | lib/sendstate.c:55-64 | when a closed stream has nothing pending and nothing in flight, everything up to its final size is acked |
| SendRuns.CompleteMeansAcked | lib/sendstate.c:55-64 | a complete transfer has every byte below the final size acked, and that is all that was written unless it was reset |
| SendRuns.CompleteWhen | lib/sendstate.c:55-64 | a transfer is complete exactly when the stream is closed, everything up to its end is acked, and the marker was delivered or it was reset without a reliable part |
| SendRuns.FinalSizeFixed | lib/quicly.c:4713-4764 | all FIN, RESET_STREAM_AT and RESET_STREAM frames of a run carry the same final size, the one that the stream keeps from then on |
| SendRuns.MarkerAnnounces | lib/quicly.c:4713-4764 | sending a frame with a marker announces its end as the final size |
| SendRuns.AnnouncedStays | lib/sendstate.c:82-131 | the final size stays what was announced, for the rest of the run |
| SendRuns.ResetStays | lib/sendstate.c:103-131 | a reset is final: the error code stays, the reliable size can only shrink |
| SendRuns.RetiredForGood | lib/sendstate.c:103-131 | after a reset with a reliable size, no offset at or above it is ever pending or sent again |
| SendRuns.MarkerMoves | lib/sendstate.c:168-173 | the state of the marker changes only by sending it, by a reset, or by the fate of a frame that carries the current marker |
| SendRuns.MarkerInFlight | lib/sendstate.c:204-211 | a marker in flight is carried by a frame in flight, and no frame carries a marker above the current one |
| SendRuns.AssertionsHold | lib/quicly.c:4533-4561 | the assertions hold: nothing below the contiguous acked prefix is pending, and a stream with only its marker to send has sent all its bytes |
| SendRuns.SecondShutdown | lib/sendstate.c:82-101 | a second shutdown keeps the invariant if and only if it names the size announced, and then changes nothing |
| SendRuns.SecondShutdownMoves | lib/sendstate.c:86-88 | a run after which the assertion on eos_state lets a second shutdown move the announced end |
| StreamBufs.SendBuf.constructor | include/quicly/streambuf.h:146-149 | a new buffer is empty |
| StreamBufs.SendBuf.WriteVec | lib/streambuf.c:154-176 | appends to the contents; when the array cannot be enlarged or the stream cannot be activated, nothing has changed |
| StreamBufs.SendBuf.Shift | lib/streambuf.c:53-82 | drops exactly the bytes shifted, across vectors |
| StreamBufs.SendBuf.Emit | lib/streambuf.c:84-119 | the bytes at the offset, as many as fit; wrote_all only if they reach the end, and always then unless the buffer ends with an empty vector |
| StreamBufs.SendBuf.CopyOut | lib/streambuf.c:90-119 | the loop over the vectors |
| StreamBufs.RecvBuf.constructor | lib/streambuf.c:209-225 | a new buffer is empty |
| StreamBufs.RecvBuf.Receive | lib/streambuf.c:194-207 | the bytes are written at the offset; other bytes that were there stay |
| StreamBufs.RecvBuf.Shift | lib/streambuf.c:180-182 | drops the bytes that were read |
| StreamSenders.StreamSender.constructor | lib/sendstate.c:29-38 | a stream with nothing to send |
| StreamSenders.StreamSender.Cap | lib/quicly.c:4673-4690 | the number of bytes to send is the least of the space, both flow-control limits and the pending range |
| StreamSenders.StreamSender.SendData | lib/quicly.c:4609-4767 | the frame carries the bytes of the buffer at its offset, as many as the space, both limits, the pending range and the buffer allow, with FIN exactly when it reaches the end; new bytes stay within the credit; when the application resets the stream while it is asked for data, nothing is sent |
| StreamSenders.StreamSender.UpdateState | lib/quicly.c:4745-4758 | what sending a frame does to the state |
| StreamSenders.StreamSender.SendMarker | lib/quicly.c:4385-4426 | a FIN alone, or a reset, which carries no data |
| StreamSenders.StreamSender.OnAck | lib/quicly.c:3438-3464 | an ack shifts the send buffer by the growth of the contiguous acked prefix |
| RecvSides.RecvSide.constructor | lib/recvstate.c:25-31 | the initial state |
| RecvSides.RecvSide.TransferComplete | include/quicly/recvstate.h:78-81 | whether the contiguous prefix has reached the end of the stream |
| RecvSides.RecvSide.BytesAllocated | include/quicly/recvstate.h:90-94 | the offset up to which memory is allocated |
| RecvSides.RecvSide.Update | lib/recvstate.c:46-86 | the received ranges, the end of the stream and the part to be buffered; the error is FINAL_SIZE exactly when the frame contradicts the known end; with memory, a frame is refused for lack of room exactly when its part to be buffered is not empty, touches nothing received and the cap is reached; errors leave the ranges unchanged |
| RecvSides.RecvSide.OnReset | lib/recvstate.c:88-128 | which error occurs exactly when; otherwise the end that the peer remains committed to is the greater of the reliable size and the prefix received, unless that would raise it; and the bytes that will never be charged |
| StreamRuns.ActConsistent | lib/quicly.c:4609-4767 | every step of the sender keeps the invariant of the whole system: the send buffer, the frames on the network and the receiver |
| StreamRuns.DeliverConsistent | lib/quicly.c:2464-2531 | the delivery of any frame on the network, however often and in whatever order, keeps the invariant |
| StreamRuns.ConsumeConsistent | lib/streambuf.c:178-192 | reading keeps the invariant |
| StreamRuns.AlwaysConsistent | lib/quicly.c:2464-2531 | the invariant holds in every state of every run |
| StreamRuns.EventConsistent | lib/quicly.c:2464-2531 | every event keeps the invariant of the whole system |
| StreamRuns.DataInBuffer | lib/streambuf.c:84-119 | the bytes of a frame taken from the send buffer are the bytes written at its offset |
| StreamRuns.AvailableBuffered | lib/streambuf.c:178-207 | what can be read is in the receive buffer, and is what was written there |
| StreamRuns.ReadsPrefix | lib/quicly.c:2501-2522 | in every run, what was read, and what was read together with what can be read, are prefixes of what was written; the latter is the whole contiguous prefix received, up to the end |
| StreamRuns.CompleteDeliversAll | lib/quicly.c:2501-2522 | a complete transfer without reset has delivered exactly what was written |
| StreamRuns.ResetDeliversReliable | lib/recvstate.c:88-128 | a complete transfer that was reset has delivered at least the bytes below the reliable size that the sender stands by, and only bytes written |
| StreamRuns.CompletionAgrees | lib/quicly.c:1051-1059 | when the sender deems a transfer complete without a reset, so does the receiver, with everything received |
| StreamRuns.NeverRejected | lib/recvstate.c:52-65 | no frame of an honest sender is ever rejected for its final size or error code |
| StreamRuns.NeverStuck | lib/streambuf.c:53-58 | the send buffer is never shifted beyond its contents, and no byte is offered that was not buffered |
| StreamRuns.CompletionHappens | lib/quicly.c:2464-2531 | a run in which both sides complete, with everything read |
| FlowCredits.FrameBalanced | lib/quicly.c:2480-2507 | every successful STREAM or reset frame charges and returns exactly the change in what its stream holds if and only if it is not an empty frame without FIN ahead of everything received; no counter decreases, and no more is charged than was granted |
| FlowCredits.StreamKept | lib/recvstate.c:46-86 | a STREAM frame keeps the stream well-formed, and moves the end of what was received by the part accepted |
| FlowCredits.ShiftBalanced | lib/quicly.c:1131-1146 | reading returns exactly the bytes read |
| FlowCredits.ResetKept | lib/quicly.c:6458-6481 | first and repeated resets: what is returned is never negative |
| FlowCredits.StepConserves | lib/quicly.c:1121-1146 | a step conserves credit if and only if it is not such an empty frame |
| FlowCredits.CreditConserved | lib/quicly.c:1431-1437 | over every run, bytes consumed less bytes shifted is the sum over live streams of the allocated offset less data_off; with no stream left both counters are equal |
| FlowCredits.FirstOverchargeLeaks | lib/quicly.c:2486-2492 | the first such empty frame breaks the balance |
| FlowCredits.OverchargeHappens | lib/quicly.c:2486-2492 | a run in which credit is charged and never returned |
| Ingresses.Ingress.ApplyStreamFrame | lib/quicly.c:2464-2507 | counters and stream after a STREAM frame; the exact condition of each error, so that a frame within both limits that does not contradict the end and has room is accepted |
| Ingresses.Ingress.HandleReset | lib/quicly.c:6453-6481 | counters and stream after a reset frame, what is charged for it, and exactly when it is refused for flow control or for contradicting the stream |
| Ingresses.Ingress.SyncRecvbuf | lib/quicly.c:1131-1146 | reading advances data_off; the credit returned is never more than the stream holds, and is what was read unless more is shifted than was available |
| Ingresses.Ingress.ReleaseAll | lib/quicly.c:1431-1437 | destroying a stream returns what it still holds |
| AckBatches.TwoAcks | lib/sendstate.c:156-179 | two acks of adjoining ranges are one ack of the joined range with the greater marker, and shift the buffer as much |
| AckBatches.AckMeans | lib/quicly.c:3442-3461 | when an ack fails, when it finishes the stream, and how far it shifts the buffer |
| AckBatches.FinishedStays | lib/quicly.c:3457-3461 | an ack within a stream that is finished changes nothing, so destroying it early makes no difference |
| AckBatches.JoinedApplies | lib/quicly.c:3491-3496 | the same for the stream that the cache refers to, whether it is gone, stays or is destroyed by the first ack |
| AckBatches.CacheApplies | lib/quicly.c:3466-3509 | for all acks and states, failing or not, the cache applies the joined acks one by one |
| AckBatches.CachedSame | lib/quicly.c:3476-3509 | whatever is in the cache, feeding it the rest gives what applying each ack alone gives, as long as that does not fail |
| AckBatches.BatchingTransparent | lib/quicly.c:3438-3509 | any sequence of acks through the cache gives the same sending sides, destroys the same streams and shifts the same bytes as applying each ack alone, as long as that does not fail |
| AckBatches.SentAreCurrent | lib/quicly.c:3476-3509 | frames sent in any runs of the streams lie within their stream and carry no marker above the current one |
| AckBatches.RunsTransparent | lib/quicly.c:3438-3509 | so the acks of any such frames are applied as if each were applied alone |
| AckBatches.CacheToleratesMore | lib/sendstate.c:133-154 | an input where an ack applied alone fails for an excess of gaps, and the joined one does not |
| AckBatches.StaleMarkerMatters | lib/quicly.c:3494-3496 | why markers above the current one would matter |
| AckBatches.AckCache.ApplyAck | lib/quicly.c:3438-3464 | one ack; a stream that is gone is ignored, one that is complete on both sides is destroyed, and an excess of gaps fails before the buffer is shifted |
| AckBatches.AckCache.FlushCache | lib/quicly.c:3466-3474 | applies what is cached |
| AckBatches.AckCache.OnAck | lib/quicly.c:3476-3509 | joins the frame to the cached range, or applies and caches; ends on a failure with an empty cache |
| AckBatches.AckCache.OnAckFrame | lib/quicly.c:6595-6693 | all acks of a frame and the flush at its end apply the joined acks, and are as if each were applied alone unless that fails |
| Sentmaps.Sentmap.constructor | include/quicly/sentmap.h:289-292 | a new map is empty |
| Sentmaps.Sentmap.InitIter | include/quicly/sentmap.h:335-349 | the iterator is at the first packet, or at the end |
| Sentmaps.Sentmap.Get | include/quicly/sentmap.h:351-355 | the packet at the iterator, or the sentinel |
| Sentmaps.Sentmap.Look | include/quicly/sentmap.h:351-355 | the entry that the iterator reaches, or the sentinel |
| Sentmaps.Sentmap.SetEntry | include/quicly/sentmap.h:299-316 | changes one entry in place |
| Sentmaps.Sentmap.NextEntry | lib/sentmap.c:30-45 | moves to the next live entry over tombstones and block boundaries, or to the end |
| Sentmaps.Sentmap.FreeBlock | lib/sentmap.c:47-70 | unlinks an empty block at the head, in the middle or at the tail; the live entries are unchanged |
| Sentmaps.Sentmap.DiscardEntry | lib/sentmap.c:72-84 | the live entries lose exactly the current one, and the iterator stands before what follows even if its block was freed |
| Sentmaps.Sentmap.NewBlock | lib/sentmap.c:106-124 | links an empty block at the tail |
| Sentmaps.Sentmap.Allocate | include/quicly/sentmap.h:318-333 | appends an entry |
| Sentmaps.Sentmap.Prepare | lib/sentmap.c:96-104 | opens a packet |
| Sentmaps.Sentmap.AddFrame | include/quicly/sentmap.h:318-333 | adds a frame to the open packet |
| Sentmaps.Sentmap.Commit | include/quicly/sentmap.h:299-316 | closes the packet, which is in flight from then on; bytes_in_flight is the sum over all packets |
| Sentmaps.Sentmap.Skip | lib/sentmap.c:126-131 | moves to the next packet |
| Sentmaps.Sentmap.Update | lib/sentmap.c:133-170 | removes or keeps exactly the current packet, lands on the next one even when blocks are freed, keeps bytes_in_flight the sum, and tells the frames in order up to the first failing callback |
| Sentmaps.Sentmap.TellFrames | lib/sentmap.c:162-167 | the loop over the frames of a packet |
| Sentmaps.Sentmap.Move | lib/sentmap.c:165-166 | passes or discards one frame |
| SentPackets.UpdatedBytes | lib/sentmap.c:145-149 | bytes_in_flight decreases by the bytes of the packet, except on a probe timeout |
| SentPackets.UpdatedIs | lib/sentmap.c:144-160 | what each event does to the packets |
| Sentmaps.Sentmap.StartUpdate | lib/sentmap.c:144-160 | what happens to the header of the packet |
| SentReports.ReportedOnce | lib/sentmap.c:133-170 | in every run with callbacks that succeed each frame hears of at most one loss and then at most one ack, nothing after the ack, and never leaves the map without having heard anything |
| SentReports.ApplyTold | lib/sentmap.c:133-170 | every event keeps what is known of the reports of each frame |
| SentReports.SendTold | lib/sentmap.c:96-104 | sending a packet keeps it too |
| SentReports.AlwaysTold | lib/sentmap.c:133-170 | the same, in every state of every run |
| Losses.StopIsExact | lib/loss.c:83-100 | in one packet number space, stopping at the first packet that is not lost marks what a full scan marks |
| Losses.NoneLeft | lib/loss.c:83-100 | after the scan no outstanding packet meets a threshold, what was not lost is unchanged, what was lost is settled |
| Losses.Thresholds | lib/loss.c:70-85 | a packet counts as lost exactly if it was overtaken in its space and either its deadline has passed or, with the packet threshold in use, a packet numbered at least three higher was acked (sections 6.1.1 and 6.1.2 of RFC 9002) |
| Losses.DetectedExactly | lib/loss.c:55-125 | of the packets in flight exactly those that meet a threshold are settled; all others stay as they are |
| Losses.ExpiredKeeps | lib/loss.c:25-53 | expiry keeps every packet that has bytes in flight and every recent one, the order, and the total of bytes in flight; with the connection alive at least 31 packets stay |
| Losses.ExpiredStops | lib/loss.c:25-53 | expiry goes on until a packet is not old enough or fewer than 32 are left, passing only packets with bytes in flight |
| Losses.FirstIsLeast | lib/loss.c:111-120 | the first outstanding packet has the least deadline, which lies in the future |
| Losses.NoneFound | lib/loss.c:111-120 | when the search ends without a packet, there is no outstanding one below the largest acked of its space if and only if none is shadowed |
| Losses.OneSpaceClear | lib/loss.c:111-120 | with one packet number space no packet is shadowed |
| Losses.NotShadowed | lib/loss.c:111-120 | nor is one when the search finds a packet |
| Losses.HandshakeShadows | lib/loss.c:111-120 | an input with two packet number spaces for which no alarm is set although a packet is outstanding |
| Losses.LossDetector.constructor | lib/loss.c:76-76 | no alarm at first |
| Losses.LossDetector.InitSentmapIter | lib/loss.c:25-53 | drops what has expired, then is at the first packet |
| Losses.LossDetector.DetectLoss | lib/loss.c:55-125 | a packet in flight is settled exactly if a later one of its space was acked and either its deadline has passed or the packet threshold of three is in use and met, and all others are unchanged; with packets in the order they were sent, loss_time is the least remaining deadline rounded up, or INT64_MAX if there is none, if and only if no outstanding packet is shadowed by one of another space; with one space it always is |
| Losses.LossDetector.MarkLost | lib/loss.c:81-100 | the loop that marks |
| Losses.LossDetector.SetAlarm | lib/loss.c:111-120 | the loop that finds the deadline, and when it does |
| Varints.VarintRoundTrip | lib/frame.c:34-127 | decoding an encoded integer gives it back with what follows it (section 16 of RFC 9000) |
| Varints.VarintFormat | lib/frame.c:34-79 | the shortest encoding is used, and the two topmost bits tell its length |
| Varints.VarintExamples | lib/frame.c:34-79 | the examples of appendix A.1 of RFC 9000 |
| AckFrames.EncodeAck | lib/frame.c:34-79 | the bytes of the frame, of type 3 exactly if there are ECN counts; giving up exactly when there is no room for the frame, or for eight bytes where the last block goes |
| AckFrames.Decode | lib/frame.c:81-127 | the loop of the decoder computes DecodeAck |
| AckFrames.BlocksWithin | lib/frame.c:81-127 | the blocks that a frame describes are disjoint, do not touch, and lie within 0 and the largest acknowledged |
| AckFrames.DecodedDescribes | lib/frame.c:81-127 | whatever the bytes, a decoded frame describes such blocks |
| AckFrames.GapsRoundTrip | lib/frame.c:58-113 | the gaps and blocks of any list of ranges round-trip |
| AckFrames.EcnRoundTrip | lib/frame.c:65-74 | the ECN counts round-trip |
| AckFrames.AckRoundTrip | lib/frame.c:34-127 | decoding what was encoded gives back the ranges, the delay, the ECN counts and what follows, whenever the number of blocks fits its byte |
| AckFrames.WireMeans | lib/frame.c:81-127 | what a frame with any number of gaps stands for; the gaps after the first 256 are ignored, and it is malformed exactly if a block would go below zero |
| AckApplies.ApplyAck | lib/quicly.c:6595-6691 | acks exactly the packets that the frame covers, in ascending order, and keeps the others; fails exactly if one of them is of another packet number space or one of its callbacks fails, and then only the packets before the first such one were acked, and that one too if it was its callback |
| AckApplies.AcceptedMeans | lib/quicly.c:6625-6686 | what a packet must meet to be acked |
| AckApplies.AckBlock | lib/quicly.c:6613-6690 | one block of the walk |
| AckApplies.SkipBelow | lib/quicly.c:6623-6624 | skips the packets below the block |
| AckApplies.AckWithin | lib/quicly.c:6625-6686 | acks the packets within the block |
| AckApplies.BlockHere | lib/quicly.c:6613-6691 | where the next block starts |
| AckApplies.WalkEnd | lib/quicly.c:6687-6691 | past the last block nothing more is covered |
| AckRecords.SaveInFlight | lib/quicly.c:4328-4363 | the chunks saved for any queue stand for exactly its ranges |
| AckRecords.SaveChunk | lib/quicly.c:4332-4361 | one chunk takes as many ranges as fit its slots and their bytes, and its terminator is unambiguous |
| AckRecords.Terminated | lib/quicly.c:4359-4361 | a list of additional ranges that is full, or followed by a gap of zero, ends where it should |
| AckRecords.AckQueue.constructor | lib/quicly.c:1708-1725 | a new queue is empty |
| AckRecords.AckQueue.OnAckAck | lib/quicly.c:3373-3414 | subtracts exactly the ranges of the chunk, then keeps the latest 64 ranges; when nothing is left, nothing is to be acked any more |
| AckRecords.AckQueue.Cap | lib/quicly.c:3409-3411 | drops the oldest ranges beyond the cap |
| AckRecords.RecordTakesExactly | lib/quicly.c:3393-3411 | replaying all chunks takes exactly their ranges; beyond that only entries below some offset can be missing, because of the cap, and none if all ranges together are at most 64 |
| AckRecords.SavedRoundTrip | lib/quicly.c:4328-4363 | what was saved for a queue, replayed against a later queue, takes exactly what the queue had then |
| RemoteCids.RetireAccounted | lib/remote_cid.c:95-103 | retiring keeps every sequence up to the largest in exactly one slot or retired |
| RemoteCids.StoredAccounted | lib/remote_cid.c:51-93 | storing keeps that, and keeps active connection IDs distinct |
| RemoteCids.RegisteredSlots | lib/remote_cid.c:128-143 | what a registration can do to a slot |
| RemoteCids.RetiresOne | lib/remote_cid.c:114-126 | each retirement leaves one sequence less to be retired |
| RemoteCids.NoneToRetire | lib/remote_cid.c:114-126 | when all slots have reached the limit nothing is left to be retired, and everything below is gone |
| RemoteCids.KeptConflicts | lib/remote_cid.c:128-143 | after retiring, a frame is contradicted exactly by the active slots that stayed |
| RemoteCids.RemoteCidSet.constructor | lib/remote_cid.c:27-49 | the initial set |
| RemoteCids.RemoteCidSet.PushRetired | lib/remote_cid.c:145-157 | queues a sequence once; fails exactly when the queue is full |
| RemoteCids.RemoteCidSet.ShiftRetired | lib/remote_cid.c:159-166 | drops the first entries of the queue |
| RemoteCids.RemoteCidSet.DoUnregister | lib/remote_cid.c:95-103 | the slot waits for a sequence never used before; the retired one is accounted for and never comes back |
| RemoteCids.RemoteCidSet.Unregister | lib/remote_cid.c:105-112 | retires the connection ID with the sequence |
| RemoteCids.RemoteCidSet.UnregisterPriorTo | lib/remote_cid.c:114-126 | the loop ends; it succeeds exactly when all sequences below the limit that are not gone yet fit the queue; every slot is then at or above the limit, and everything below is gone |
| RemoteCids.RemoteCidSet.DoRegister | lib/remote_cid.c:51-93 | the limit and conflict errors occur exactly when they should; otherwise the ID is stored where it is expected, if anywhere |
| RemoteCids.RemoteCidSet.Register | lib/remote_cid.c:128-143 | the exact condition of each error in terms of the set before and the frame, and success in all other cases; a failure restores the whole set; on success what was retired is queued, no slot is below the limit, and the ID and token are stored where they are expected |
| PathDcids.Assigned | lib/quicly.c:3850-3877 | an available ID is used by no path, so paths have distinct IDs unless the ID is empty |
| PathDcids.PathsStay | lib/quicly.c:1170-1177 | retiring IDs that no path uses leaves every path resolvable |
| PathDcids.FreedUses | lib/quicly.c:1170-1177 | afterwards no path uses the ID, and no path uses an ID it did not use before |
| PathDcids.Connection.DroppedBelow | lib/quicly.c:7250-7258 | of what the paths used, the IDs retired are those below the limit |
| PathDcids.Connection.constructor | lib/quicly.c:2897-2905 | a connection with one path |
| PathDcids.Connection.OpenPath | lib/quicly.c:2143-2155 | a path without connection ID |
| PathDcids.Connection.SetupPathDcid | lib/quicly.c:3850-3877 | assigns the available ID with the least sequence, shared with no other path; fails exactly when there is none |
| PathDcids.Connection.FindUnused | lib/quicly.c:3861-3871 | the slot to be used |
| PathDcids.Connection.GetDcid | lib/quicly.c:3879-3892 | the lookup never fails |
| PathDcids.Connection.DissociateCid | lib/quicly.c:1170-1177 | every path that uses the sequence loses it, and nothing else changes |
| PathDcids.Connection.DeletePath | lib/quicly.c:2173-2188 | the ID of the path is retired, which fails exactly when the queue is full; other paths lose it only if they shared it, and still resolve |
| PathDcids.Connection.OnNewConnectionId | lib/quicly.c:7230-7261 | the exact condition of each error; on success exactly the paths that used an ID below the limit are left without one, every other path still resolves, and the ID and token are stored |
| LocalCids.LocalCidSet.constructor | lib/local_cid.c:76-100 | one connection ID, delivered by its use |
| LocalCids.LocalCidSet.PendingIsQueue | lib/local_cid.c:24-27 | whether there is something to send is whether the queue is not empty |
| LocalCids.DistinctIds | lib/local_cid.c:32-41 | IDs that are held are different connection IDs |
| LocalCids.LocalCidSet.GenerateCid | lib/local_cid.c:32-41 | a new sequence below the limit |
| LocalCids.LocalCidSet.DoMarkPending | lib/local_cid.c:53-62 | joins the queue at its end, once |
| LocalCids.LocalCidSet.DoMarkDelivered | lib/local_cid.c:64-74 | leaves the queue without reordering the rest |
| LocalCids.LocalCidSet.MoveBack | lib/local_cid.c:66-72 | the loop that moves the entry behind the pending ones |
| LocalCids.LocalCidSet.IssueAt | lib/local_cid.c:121-124 | a new ID at the end of the queue |
| LocalCids.LocalCidSet.SetSize | lib/local_cid.c:102-128 | every free entry gets a new ID, in order, as long as there are any; nothing else changes |
| LocalCids.LocalCidSet.OnSent | lib/local_cid.c:130-146 | drops the first entries of the queue, which are then in flight; nothing else changes |
| LocalCids.LocalCidSet.MarkSent | lib/local_cid.c:134-138 | the entries sent are in flight |
| LocalCids.LocalCidSet.FindIndex | lib/local_cid.c:148-156 | the entry with the sequence, or none |
| LocalCids.LocalCidSet.OnAcked | lib/local_cid.c:158-165 | delivered; a late ack takes the entry out of the queue in place |
| LocalCids.LocalCidSet.OnLost | lib/local_cid.c:167-180 | an entry in flight joins the queue at its end; others are left alone |
| LocalCids.LocalCidSet.Retire | lib/local_cid.c:182-229 | a violation exactly when it is the only ID held; otherwise it is gone, the rest keeps its order and a new ID joins the queue; the peer is left with an ID that it was told of if and only if it was told of another one before |
| LocalCids.LocalCidSet.RetiredTooEarly | lib/local_cid.c:182-229 | an input for which retiring is no violation and leaves the peer without any ID that was sent to it |
| LocalCids.LocalCidSet.ToldAfter | lib/local_cid.c:204-226 | which IDs the peer was told of after one was replaced |
| LocalCids.LocalCidSet.FindRetired | lib/local_cid.c:184-196 | where the ID is, and whether it is the only one |
| LocalCids.LocalCidSet.TakeOut | lib/local_cid.c:208-218 | the entry becomes free behind the pending ones |
| LocalCids.LocalCidSet.MoveGap | lib/local_cid.c:212-218 | the loop that moves the free entry behind the pending ones |
| LocalCids.LocalCidSet.ReplaceAt | lib/local_cid.c:208-226 | the second half of retiring |
| LocalCids.SentHas | lib/local_cid.c:130-146 | which IDs are in which state after sending |
| KeyPhases.AlwaysOk | lib/quicly.c:3247-3298 | in every run of decryptable and undecryptable packets: prepared is decrypted or decrypted + 1, the slot of the prepared phase holds its key and the other slot the previous one, and the egress phase is never below decrypted |
| KeyPhases.PrepareKeeps | lib/quicly.c:3254-3274 | deriving the next key keeps the slots in order |
| KeyPhases.ReceiveKeeps | lib/quicly.c:3247-3298 | a packet, decryptable or not, keeps the invariant |
| KeyPhases.EventKeeps | lib/quicly.c:2027-2074 | every event keeps the invariant |
| KeyPhases.WaitingOn | lib/quicly.c:4017-4025 | while an update is not acked, no other is initiated locally |
| KeyPhases.StillWaiting | lib/quicly.c:4017-4025 | any event but such an ack leaves it so |
| KeyPhases.TriedKeeps | lib/quicly.c:3254-3288 | trying a packet derives at most one key |
| KeyPhases.NoSecondRetry | lib/quicly.c:3276-3288 | once a key was derived for a packet, no other is |
| KeyPhases.OpenedPhase | lib/quicly.c:3290-3297 | a packet that decrypts is of one of the last two phases, the one that its bit tells |
| KeyPhases.PhaseMoves | lib/quicly.c:3254-3298 | a packet moves the phase exactly if its bit tells the next phase, it opens under the key of that phase, and that key is prepared or the one in the slot is missing or fails; only then, and only if it was behind, the egress phase moves, by one; every other packet leaves both phases and the packet numbers of updates alone |
| KeyPhases.PhasesRise | lib/quicly.c:2027-2074 | in every run the phases only rise: the one decrypted by a packet that opens under the new key or was decrypted elsewhere, the egress one by following it or when an update is due |
| KeyPhases.AckBetweenUpdates | lib/quicly.c:6675-6684 | between two locally initiated updates there is an ack for a packet at or above the packet number of the first |
| KeyPhases.KeySchedule.constructor | lib/quicly.c:1955-1961 | the initial phases |
| KeyPhases.KeySchedule.UpdateEgressKey | lib/quicly.c:2027-2050 | the invariant holds after the update; no packet sent before an ack at or above the current packet number initiates another one |
| KeyPhases.KeySchedule.ReceivedKeyUpdate | lib/quicly.c:2052-2074 | the phase is the one received; the egress phase follows only if it was behind |
| KeyPhases.KeySchedule.TryKeys | lib/quicly.c:3254-3288 | decryption with at most one retry; a key is derived exactly when the slot is empty, or its key fails and the next phase is not prepared yet |
| KeyPhases.KeySchedule.Decrypt | lib/quicly.c:3247-3298 | the phases after a packet; exactly when the phase moves, and that a packet that does not decrypt moves nothing |
| KeyPhases.KeySchedule.OnSendPacket | lib/quicly.c:4017-4025 | an update when it is due |
| KeyPhases.KeySchedule.OnAcked | lib/quicly.c:6675-6684 | the next update becomes possible once the last one is acked |

## Left out

- TLS, AEAD, header protection, HKDF and the encryption of connection IDs: keys are phases, a packet is the set of keys that open it, and the generator of connection IDs is injective.
- Congestion control, rate metering, pacing, RTT estimation, timers and the alarm for probes.
- Path validation and migration beyond the assignment of connection IDs, Retry, version negotiation, address tokens and stateless reset.
- The stream scheduler, MAX_DATA and MAX_STREAM_DATA scheduling, CRYPTO streams, STOP_SENDING, stream opening and limits.
- The parsing of frames other than ACK frames, and the layout of packets.
- malloc failures, except for the nodes of the B+ tree; the freeing of memory, except where it decides what the structures are.
- LocalCids.LocalCidSet.constructor: sets of local connection IDs without an encryptor, that is with a zero-length ID, which hold one entry and never issue another, are left out.
- BPlusRanges.BPlusRangeSet: nodes are kept in a map from addresses to values rather than on the heap; the ghost tree says which addresses are in use.
- Sentmaps.Sentmap: blocks are kept in a map from addresses to values; callbacks do not touch the map, and no packet is being written while the map is iterated.
- Sentmaps.Sentmap.Get: the sentinel at the end has no infinite send time, since send times are real numbers; the end is told by the iterator.
- Losses.LossDetector.DetectLoss: callbacks succeed; the congestion controller is not told; times are real numbers.
- AckBatches.AckCache.OnAckFrame: whether a stream was received completely does not change within a frame; callbacks other than those of stream frames are left out.
- AckApplies.ApplyAck: the statistics, the ECN counts and the check that the largest packet number was sent are left out.
- StreamRuns.ReadsPrefix: errors that end the connection because the receiver runs out of range state are not steps; flow-control limits do not restrict the sender.
- SendRuns.StepSound: a step whose ranges exceed the allowed amount of state is a step like any other, whereas the source then closes the connection.
- StreamSenders.StreamSender.SendData: there is room, credit and something pending, which the source checks before and otherwise sends nothing; CRYPTO frames, which are shortened to make room for their length, are left out.
- RecvSides.RecvSide: data_off is advanced by Ingresses.Ingress.SyncRecvbuf, as in the source.
- AckFrames.AckRoundTrip: for lists of more than 64 ranges, which the source never encodes, nothing is claimed.
