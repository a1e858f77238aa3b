# Verified models of the HTTP/2 engine and the AT connection layer

This project models, in Dafny, the parts of the bundled nghttp2 library and of the AT module layer in which correctness
is least obvious, and proves what they are for. Everything is stated for all inputs, all runs or all reachable states.

- **HPACK** (RFC 7541). A specification of encoder and decoder as functions, with the decoder an octet machine
  (`HpackTable`, `HpackEncode`, `HpackDecode`), and the theorem that both ends stay in lockstep over unbounded runs
  (`HpackLockstep`). The code as it runs (ring buffer, hash index with sequence numbers, chained output buffers, the
  resumable 13-state inflater) is in `RingBuffer`, `HashIndex`, `HdContext`, `Deflater` and `Inflater`, each method proved
  against the specification; `HpackExchange` joins the two. `HpackPolicy` says on the octets what the encoder indexes and
  what it does not, `HpackRefusals` what the decoder makes of octets of any peer. Prefixed integers are in
  `PrefixInt`, the Huffman code in `HuffmanCode`, `HuffmanCodec`, `HuffmanWriter` and `HuffmanCanonical`.
- **Priority tree and scheduler** (section 5.3 of RFC 7540). `HeapOrder` and `StreamQueue` are the binary heap. `Forest`
  and `QueueState` say on values what the tree operations and the loops over ancestors do and keep; `SchedulerRuns` is the
  theorem over whole runs. `StreamLinks`, `ObqLoops`, `SiblingLinks`, `PriorityTree`, `TreeAdd`, `TreeInsert`,
  `TreeInsertSubtree`, `TreeRemove`, `TreeSplice`, `TreeDetach`, `ChangeWeight` and `NextItem` are the operations on the
  pointer structure, each proved to perform the corresponding operation on values. `Cycles` and `Fairness` are virtual
  time: 32-bit wrap-around, the order on cycles, weighted sharing at one queue. `FairQueue` says what holds of all queues
  of a tree when they are in order and proves it kept by the steps the loops take; `FairRuns` runs the scheduler on the
  tree and carries the bounds over to it.
- **Flow control** (section 6.9 of RFC 7540): `FlowControl`.
- **Buffers, frames, stream map**: `Buffers`, `Frames`, `FrameWriter`, `HeadersFrame`, `StreamMap`.
- **HTTP message validation** (section 8.1.2 of RFC 7540): `HttpRules` and `HttpResponseRules` are the
  declarative form, `HttpValidator` the checker.
- **AT receive path**: `AtMailbox`, `AtPool`, `AtConnection`, `AtTraffic` for several connections, `AtScanner`, and
  `AtCapture` from a fresh scanner to the callback.

Ghost parameters named `t`, `home` and `act` carry the value a pointer structure stands for: the dependency forest, which
stream is queued at which, and the streams with something to send. The HPACK results hold for every static table of 61
entries and every code table that is good, that is, prefix-free with lengths 5 to 30 and EOS made of thirty ones; the last
part of `HuffmanCanonical` shows that codes with the lengths of the source's table are.

`dafny verify dfyconfig.toml` checks the whole project.

## Where the code and its comments or the standard differ

- The header comment on the tree pointers (external_libs/nghttp2/nghttp2_stream.h:158-164) says that only the leftmost
  dependent has a parent pointer. The code sets it on every dependent, and the model follows the code.
- Deferring with no reason given (allowed by external_libs/nghttp2/nghttp2_stream.h:238-242) takes an active stream out of
  its queue. `PriorityTree.DeferItem` states exactly when the queues are right afterwards; `QueueState.IdleDetachBreaks`
  is the reason and `QueueState.IdleDetachFails` an instance.
- `nghttp2_stream_dep_add` and `nghttp2_stream_dep_insert` are declared for any stream without an item
  (external_libs/nghttp2/nghttp2_stream.h:323-342). The first does not queue a stream with something active below it
  (`TreeAdd.DepAdd`, `QueueState.GraftIdleFails`); the second overwrites the list and the sum of a stream with dependents,
  and does not queue a stream with an item below a parent that had no dependents (`TreeInsert.DepInsert`). Both contracts
  give the exact condition.
- Shrinking a window and growing it back by the same amount restores the counters through
  `nghttp2_session_set_local_window_size` always, through `nghttp2_submit_window_update` exactly if the bytes received were
  no more than the amount cut (`FlowControl.ShrinkThenAdjust`, with an instance in `FlowControl.ShrinkThenAdjustFails`).
- The comparator of the scheduler is an order exactly on cycles of which no three form a circle: each within the maximum
  distance of the one before, but not the last of the first (`Cycles.OrderedIffNoCircle`, with an instance in
  `Cycles.FarIsNotOrdered`). Cycles within the distance after the base of their queue never do, and every operation on
  items, every pick from the root followed by its reschedule, and every operation on the tree but two keep them there.
- The two are `nghttp2_stream_dep_remove_subtree`, which forgets the base of a stream whose dependents stay queued
  (`TreeRemove.DepRemoveSubtree`, `FairQueue.RestartFails`), and `nghttp2_stream_change_weight`, whose correction of a cycle
  that fell behind the base compares without regard to wrap-around (`ChangeWeight.Change`, `ChangeWeight.ClampIff`,
  `ChangeWeight.ClampMissesWrap`). Both contracts give the exact condition.

## Model

| member | source | states |
|---|---|---|
| HpackExchange.Exchange | external_libs/nghttp2/nghttp2_hd.c:1475-1505 | The running deflater and inflater joined: for every list and every division of the block into inflate calls, the exchange succeeds, the headers come out as they went in with NO_INDEX exactly where never-indexing was chosen, and both contexts hold the same table and maximum again |
| HpackLockstep.Lockstep | external_libs/nghttp2/nghttp2_hd.c:1424-1473 | For every limit and every run of header lists and table-size changes made at both ends, from the initial states: each deflated block inflates successfully to the same names and values in order, NO_INDEX is set exactly where never-indexing was chosen, and after each block both dynamic tables, their sizes and maxima are equal |
| HpackLockstep.LinkedRunInStep | external_libs/nghttp2/nghttp2_hd.c:1231-1277 | The same from any pair of states that are linked (equal tables, the decoder owing at most the size updates the encoder is about to send) |
| HpackLockstep.BlockDecodes | external_libs/nghttp2/nghttp2_hd.c:1848-2215 | One block: decoding what the encoder writes, size updates included, gives the list back and leaves the two ends linked again |
| HpackLockstep.PreludeDecodes | external_libs/nghttp2/nghttp2_hd.c:1424-1453 | The size updates at the head of a block, none, one or the smallest followed by the present maximum, bring the decoder table to the encoder table |
| HpackLockstep.ResizeLinked | external_libs/nghttp2/nghttp2_hd.c:1231-1277 | A table-size change at both ends between blocks keeps them linked |
| HpackLockstep.HeaderDecodes | external_libs/nghttp2/nghttp2_hd.c:1326-1420 | Each of the representations the encoder chooses between (indexed, indexed name, new name; three indexing modes) decodes to the header it was written for and to the same new table |
| HpackTable.InsertFits | external_libs/nghttp2/nghttp2_hd.c:1086-1150 | Adding an entry, with the eviction it causes, keeps the table within its maximum |
| HpackTable.ShrinkIs | external_libs/nghttp2/nghttp2_hd.c:1209-1229 | Eviction is least: what is left is the longest beginning that fits, and nothing else is |
| HpackTable.InsertKeeps | external_libs/nghttp2/nghttp2_hd.c:1086-1150 | After an insertion the field is first and then as many of the newest entries as fit beside it; a field larger than the maximum leaves the table empty |
| HpackTable.OnlyTheOldest | external_libs/nghttp2/nghttp2_hd.c:1086-1150 | Three entries of 34 octets under a maximum of 102 and a fourth: only the oldest goes |
| HpackTable.SearchComplete | external_libs/nghttp2/nghttp2_hd.c:1158-1207 | The search finds the field itself exactly if it is asked for and in the dynamic table, newest first, or in the static run of its name, and nothing exactly if no entry has the name |
| HpackTable.ShrinkShrink | external_libs/nghttp2/nghttp2_hd.c:1209-1229 | Shrinking to one size and then to another is shrinking to the smaller |
| HpackTable.TokenInjective | external_libs/nghttp2/nghttp2_hd.c:120-471 | Names with the same token of the static table or the extra names are equal, which is what comparing tokens instead of names relies on |
| Inflater.Inflater.InflateBlock | external_libs/nghttp2/nghttp2_hd.c:1848-2215 | For every byte string and every division into successive calls, the headers emitted, success or failure and the final decoder state are those of the octet-by-octet machine on the whole string, hence independent of the division |
| Inflater.Inflater.InflatePiece | external_libs/nghttp2/nghttp2_hd.c:1815-1846 | Calling again with what is left until a piece is used up emits the headers that end in it and stops in the state of the octet machine; at the last piece an unfinished field is an error |
| Inflater.Inflater.InflateHdNv | external_libs/nghttp2/nghttp2_hd.c:1848-2215 | One call: how many octets it consumes, at most one header, and the state, all equal to those of the octet machine; it terminates on every input in every state |
| Inflater.Inflater.ReadLen | external_libs/nghttp2/nghttp2_hd.c:1630-1669 | A resumable prefixed integer: finished, still partial, or an error when it exceeds the maximum, as the reading function says, and the octets used |
| Inflater.Inflater.ReadString | external_libs/nghttp2/nghttp2_hd.c:1671-1711 | As many octets of a string as there are, plain or Huffman-coded, are taken into the buffer; the Huffman state survives the end of the input |
| Inflater.Inflater.ChangeTableSize | external_libs/nghttp2/nghttp2_hd.c:1247-1277 | The new maximum, the eviction it causes and the size update that is then demanded |
| HpackRefusals.UpdateAfterField | external_libs/nghttp2/nghttp2_hd.c:1880-1889 | A size update after a field is refused, whatever follows |
| HpackRefusals.UpdateWithinLimits | external_libs/nghttp2/nghttp2_hd.c:1917-1935 | Before the first field a size update of any value is taken exactly if it is at most the maximum of the settings and at most the smallest maximum not yet acknowledged |
| HpackRefusals.ReductionMustBeAcknowledged | external_libs/nghttp2/nghttp2_hd.c:1247-1277 | After a reduction every first octet that is no size update is refused, and a size update is taken exactly if it goes down to the new maximum |
| HpackRefusals.SmallestMustBeAcknowledged | external_libs/nghttp2/nghttp2_hd.c:1247-1277 | The same after a reduction followed by a growth, for the smaller of the two |
| HpackRefusals.IndexedOctet | external_libs/nghttp2/nghttp2_hd.c:1279-1299 | What the indices of a peer mean: 1 to 61 the static table, from 62 on the dynamic one, newest first; 0 and what lies beyond are refused |
| HpackRefusals.IndexedExactly | external_libs/nghttp2/nghttp2_hd.c:1936-1976 | An index of any size is taken exactly if there is such an entry |
| HpackRefusals.StringTooLong | external_libs/nghttp2/nghttp2_hd.c:1983-2084 | No string of more than 65536 octets is taken, as a name or as a value, plain or coded |
| HpackRefusals.CodedStringExactly | external_libs/nghttp2/nghttp2_hd.c:1671-1690 | A Huffman-coded string is taken exactly if its octets are codes padded with at most seven ones, and then as that string |
| HpackDecode.FoldAppend | external_libs/nghttp2/nghttp2_hd.c:1848-2215 | The octet machine on a concatenation is the machine on the first part and then on the second |
| HpackDecode.FoldInt | external_libs/nghttp2/nghttp2_hd.c:1630-1669 | Octet by octet the machine reads a prefixed integer exactly as the reading function does in one go |
| HpackDecode.FoldString | external_libs/nghttp2/nghttp2_hd.c:1671-1711 | Octet by octet the machine reads a string exactly as taking it in one go |
| HpackDecode.StepValid | external_libs/nghttp2/nghttp2_hd.c:1848-2215 | Every octet that is not refused keeps the invariant of the decoder |
| PrefixInt.RoundTrip | external_libs/nghttp2/nghttp2_hd.c:797-901 | Every integer up to UINT32_MAX, in every prefix length, is read back from its encoding, whatever follows |
| PrefixInt.TooLarge | external_libs/nghttp2/nghttp2_hd.c:839-901 | A value above UINT32_MAX is refused |
| PrefixInt.Examples | external_libs/nghttp2/nghttp2_hd.c:797-837 | The three examples of appendix C.1 of RFC 7541 |
| PrefixInt.ReadSplit | external_libs/nghttp2/nghttp2_hd.c:839-901 | Reading may be interrupted after any octet and resumed |
| PrefixInt.DecodeLength | external_libs/nghttp2/nghttp2_hd.c:839-901 | The loop computes the reading function: value, next shift, whether finished, octets used, and the overflow tests are exact |
| PrefixInt.EncodeInto | external_libs/nghttp2/nghttp2_hd.c:797-837 | The loop writes the encoding into the array and keeps the flag bits of the first octet |
| PrefixInt.CountEncodedLength | external_libs/nghttp2/nghttp2_hd.c:780-795 | The count equals the number of octets the encoding has |
| Deflater.Deflater.SearchTable | external_libs/nghttp2/nghttp2_hd.c:1158-1207 | The hash index finds what a scan would: the lowest dynamic index with the same name and value; else, for a name of the static table, what the static rule gives; else the lowest dynamic index with the same name |
| HashIndex.HdMap.Find | external_libs/nghttp2/nghttp2_hd.c:534-561 | Walking one chain gives the newest entry of the whole table with the name and value, else the newest with the name |
| HashIndex.HdMap.Insert | external_libs/nghttp2/nghttp2_hd.c:519-532 | The chains hold the table entries of each bucket, newest first, with the new entry in front |
| HashIndex.HdMap.RemoveLast | external_libs/nghttp2/nghttp2_hd.c:563-577 | Removing the oldest entry leaves chains for the rest of the table |
| Deflater.PositionOf | external_libs/nghttp2/nghttp2_hd.c:1202-1206 | The index computed from next_seq and the entry sequence number in 32-bit arithmetic is the entry position in the table, also across wrap-around of next_seq |
| RingBuffer.Ring.PushFront | external_libs/nghttp2/nghttp2_hd.c:639-653 | The ring with its wrapping first index stands for a sequence; pushing puts an entry in front, growing the buffer when it is full |
| RingBuffer.Ring.Reserve | external_libs/nghttp2/nghttp2_hd.c:600-623 | Growing to a power of two keeps the sequence |
| RingBuffer.Ring.PopBack | external_libs/nghttp2/nghttp2_hd.c:655-658 | Popping drops the last entry of the sequence |
| RingBuffer.Ring.Get | external_libs/nghttp2/nghttp2_hd.c:594-598 | Reading by index reads the sequence |
| HdContext.Context.Add | external_libs/nghttp2/nghttp2_hd.c:1086-1150 | Ring, index and size perform the insertion: the field first, then the newest old entries, and the next older one would not have fitted |
| HdContext.Context.ShrinkTable | external_libs/nghttp2/nghttp2_hd.c:1209-1229 | Ring, index and size perform the eviction: a beginning of the table that fits, and one entry more would not |
| Deflater.Deflater.DeflateNv | external_libs/nghttp2/nghttp2_hd.c:1326-1420 | One header: the octets written and the new table are those of the specification, and it succeeds exactly when the octets fit in the chain |
| HpackPolicy.Representation | external_libs/nghttp2/nghttp2_hd.c:1352-1420 | On the octets and the table, with the names as octets: authorization, a cookie below 20 octets and what is marked are written never-indexed and leave the table alone; a field in one of the tables is an index; one of the eight changing names or a field above three quarters of the maximum is written without indexing; everything else is inserted |
| HpackPolicy.AuthorizationIsNeverIndexed | external_libs/nghttp2/nghttp2_hd.c:1348-1357 | The instance: authorization in an empty table begins with the octets 0x1f 0x08 |
| HpackPolicy.StringIsShorter | external_libs/nghttp2/nghttp2_hd.c:957-1006 | A string is Huffman-coded exactly if that is shorter |
| HpackPolicy.UpdatesAre | external_libs/nghttp2/nghttp2_hd.c:1424-1453 | The size updates at the head of a block: none, the new maximum, or the smallest and the last |
| Deflater.Deflater.DeflateHdBufs | external_libs/nghttp2/nghttp2_hd.c:1424-1473 | A block: succeeds exactly when it fits, appends exactly the specified block, and any failure is final |
| Deflater.Deflater.DeflateHd | external_libs/nghttp2/nghttp2_hd.c:1475-1505 | Into a buffer of given size: success exactly when the block fits, and always with the size deflate_bound gives, for strings below 2^28 octets |
| Deflater.Deflater.DeflateHdVec | external_libs/nghttp2/nghttp2_hd.c:1507-1538 | The same into several buffers of any lengths: success exactly when the block fits them together |
| Deflater.Deflater.ChangeTableSize | external_libs/nghttp2/nghttp2_hd.c:1231-1245 | Table shrunk, the smallest maximum since the last block remembered, a size update owed |
| HpackEncode.BlockWithinBound | external_libs/nghttp2/nghttp2_hd.c:1540-1565 | deflate_bound is a bound for every encoder state and list with strings below 2^28 octets |
| Deflater.NameHash | external_libs/nghttp2/nghttp2_hd.c:502-513 | The loop computes the FNV-1a hash of the name |
| HuffmanCodec.HuffmanRoundTrip | external_libs/nghttp2/nghttp2_hd_huffman.c:141-231 | For every byte string and every good code: the octets of the encoded form decode to the string, ending in an accepting state, without a symbol left over |
| HuffmanCodec.AcceptedExactly | external_libs/nghttp2/nghttp2_hd_huffman.c:198-231 | Octets decode to a string and end accepting exactly if they are its codes and then at most seven ones; a longer padding, one with a zero or the code of EOS is refused |
| HuffmanWriter.HuffEncode | external_libs/nghttp2/nghttp2_hd_huffman.c:40-191 | For every chain of non-empty chunks it succeeds exactly when the encoded form fits and then appends exactly it, although octets are assembled bit by bit across chunks |
| HuffmanWriter.EncodeSym | external_libs/nghttp2/nghttp2_hd_huffman.c:40-139 | One symbol: the octets completed and the bits held are the code bits appended to the bits held before |
| HuffmanWriter.EncodeCount | external_libs/nghttp2/nghttp2_hd_huffman.c:141-150 | The count is the length of the encoded form |
| HuffmanCodec.HuffDecode | external_libs/nghttp2/nghttp2_hd_huffman.c:198-231 | The decoding loop by nibbles computes the bit automaton: output, state, failure, acceptance at the end; at most twice as many octets come out as go in |
| HuffmanCodec.DecodeSplit | external_libs/nghttp2/nghttp2_hd_huffman.c:198-231 | Decoding may be interrupted after any octet and resumed |
| HuffmanCanonical.SourceCodeIsGood | external_libs/nghttp2/nghttp2_hd_huffman_data.c:29-94 | The lengths of the symbol table use up the code space, so the canonical code with these lengths is prefix-free, of 5 to 30 bits, with EOS thirty ones, whichever symbols the codes are given to |
| HuffmanCanonical.CanonicalIsGood | external_libs/nghttp2/nghttp2_hd_huffman_data.c:29-94 | Any canonical code that uses up the code space is good |
| Buffers.Bufs.Add | external_libs/nghttp2/nghttp2_buf.c:333-359 | Appending to a chain, of chunks of any lengths, is appending to the sequence of its bytes; it succeeds exactly when the chain has room, counting chunks still to be allocated |
| Buffers.Bufs.AllocChain | external_libs/nghttp2/nghttp2_buf.c:301-331 | Stepping to the next chunk changes neither content nor room |
| Buffers.Bufs.AddbHold | external_libs/nghttp2/nghttp2_buf.c:392-403 | A byte is placed without being counted |
| Buffers.Bufs.FastOrb | external_libs/nghttp2/nghttp2_buf.c:405-416 | The held byte with the bits added becomes content |
| Buffers.Bufs.RemoveCopy | external_libs/nghttp2/nghttp2_buf.c:466-482 | The bytes copied out are the content |
| Frames.HdRoundTrip | external_libs/nghttp2/nghttp2_frame.c:37-51 | Every frame header with a 24-bit length and a 31-bit stream id is read back |
| Frames.HdLayout | external_libs/nghttp2/nghttp2_frame.c:37-43 | Where length, type, flags and stream stand in the nine octets |
| Frames.ParseWire | external_libs/nghttp2/nghttp2_frame.c:45-51 | A receiver that reads frame after frame by the length fields gets exactly the frames written |
| FrameWriter.PriorityRoundTrip | external_libs/nghttp2/nghttp2_frame.c:341-361 | Priority fields are read back |
| FrameWriter.PriorityLayout | external_libs/nghttp2/nghttp2_frame.c:341-348 | Where the exclusive flag, the stream and the weight less one stand |
| FrameWriter.PackHeadersShared | external_libs/nghttp2/nghttp2_frame.c:247-301 | In place, every chunk of the chain becomes one frame with its exact length, the first with the given type, the others CONTINUATION, END_HEADERS only on the last |
| HeadersFrame.PackHeaders | external_libs/nghttp2/nghttp2_frame.c:303-339 | For every header list and priority flag: it succeeds exactly if the block fits behind the priority fields, and then parsing the bytes of the chain gives one HEADERS and then CONTINUATION frames, each in range, whose fragments join to the deflated block |
| HeadersFrame.AddPad | external_libs/nghttp2/nghttp2_frame.c:925-996 | In place, the bytes of the whole chain become those of the same frames with the first one padded |
| HeadersFrame.PaddingIsLossless | external_libs/nghttp2/nghttp2_frame.c:925-996 | Padding changes neither the sequence of frames nor the block a receiver extracts |
| HeadersFrame.PackAndPad | external_libs/nghttp2/nghttp2_frame.c:303-339 | Packing and then padding: exactly if the block fits, a receiver parses from the bytes of the chain one HEADERS and then CONTINUATION frames, the first with the padding asked for if there was room, and extracts from them exactly the deflated block |
| StreamQueue.Push | external_libs/nghttp2/nghttp2_pq.c:68-88 | Heap order, members and back-pointers after a push |
| StreamQueue.Remove | external_libs/nghttp2/nghttp2_pq.c:119-150 | The same after removing any entry, first, last or middle: one sift, in the direction the comparison tells, restores the order |
| StreamQueue.BubbleUp | external_libs/nghttp2/nghttp2_pq.c:56-66 | Sifting up repairs a heap in which one entry may be smaller than its parent |
| StreamQueue.BubbleDown | external_libs/nghttp2/nghttp2_pq.c:98-117 | Sifting down repairs the part of a heap below one entry |
| StreamQueue.Update | external_libs/nghttp2/nghttp2_pq.c:156-170 | Every entry is changed once and, if asked for, any order becomes a heap again |
| StreamQueue.Top | external_libs/nghttp2/nghttp2_pq.c:90-96 | The top is a minimum |
| HeapOrder.RemoveMiddle | external_libs/nghttp2/nghttp2_pq.c:128-150 | The last entry moved into a gap can only be out of place in the direction taken |
| HeapOrder.TopIsMinimum | external_libs/nghttp2/nghttp2_pq.c:90-96 | In a heap no entry is below the top |
| SchedulerRuns.EveryReachable | external_libs/nghttp2/nghttp2_stream.c:426-453 | In every state reached by any sequence of operations: a stream with a parent is queued exactly when it is active or some child is queued, queued streams are queued at their parent, roots never, no dependency cycle, weights in 1..256, and whatever is active can be reached from its root |
| SchedulerRuns.RunSound | external_libs/nghttp2/nghttp2_stream.c:426-453 | Every legal run from a sound state ends in a sound state |
| SchedulerRuns.AddSoundIff | external_libs/nghttp2/nghttp2_stream.h:338-342 | The exact condition under which adding a stream belongs to such a run |
| QueueState.PushUpBalances | external_libs/nghttp2/nghttp2_stream.c:148-170 | If at most one stream is missing from its queue, the loop up the ancestors leaves none missing |
| QueueState.RemoveUpBalances | external_libs/nghttp2/nghttp2_stream.c:177-204 | Removing a stream leaves no ancestor queued without reason and removes none that has one |
| QueueState.SpliceBalances | external_libs/nghttp2/nghttp2_stream.c:757-806 | Moving the queue of a removed stream to its parent and then taking the stream out balances the rest |
| QueueState.ExclusiveBalances | external_libs/nghttp2/nghttp2_stream.c:592-630 | Exclusive insertion balances |
| QueueState.IdleDetachBreaks | external_libs/nghttp2/nghttp2_stream.c:513-522 | The detach loop run for a stream that stays active keeps the queues right exactly when the stream is a root or has a queue of its own |
| QueueState.IdleDetachFails | external_libs/nghttp2/nghttp2_stream.c:513-522 | The failing input: one active stream below a root, deferred for no reason |
| QueueState.GraftIdle | external_libs/nghttp2/nghttp2_stream.c:741-755 | Adding without a push leaves the queues right exactly if the stream has nothing to send in it or below it |
| QueueState.GraftIdleFails | external_libs/nghttp2/nghttp2_stream.c:741-755 | The failing input: a root with an active dependent put below another root |
| QueueState.AncestorsQueued | external_libs/nghttp2/nghttp2_stream.h:213-216 | If a stream is queued, its ancestors except the root are |
| Forest.OperationsKeepShape | external_libs/nghttp2/nghttp2_stream.c:592-919 | Adding, exclusive insertion, removal and subtree removal keep a forest without cycles, with consistent lists of dependents and weights in 1..256 |
| Forest.ShareInRange | external_libs/nghttp2/nghttp2_stream.c:313-318 | A share of a weight lies between 1 and the weight shared out |
| Forest.ShareIs | external_libs/nghttp2/nghttp2_stream.c:313-318 | A share is the proportional part rounded down, but at least 1; nothing else is |
| ObqLoops.ObqPush | external_libs/nghttp2/nghttp2_stream.c:148-170 | The loop on the heaps and flags performs the abstract push; at the queue of every parent it is nothing or the arrival of the stream that joined, charged for what it carried; nobody else changes its virtual time; queues in order stay in order |
| ObqLoops.ObqRemove | external_libs/nghttp2/nghttp2_stream.c:177-204 | The loop on the heaps and flags performs the abstract removal; at every parent it is nothing or the departure of the stream that left, which starts anew itself; queues in order stay in order exactly if the cycles queued at the stream are near zero, in particular if its queue is empty |
| ObqLoops.ObqMove | external_libs/nghttp2/nghttp2_stream.c:212-225 | A departure from one queue and then a push into another, with the levels that follow; queues in order stay in order |
| PriorityTree.AttachItem | external_libs/nghttp2/nghttp2_stream.c:458-502 | Attaching an item keeps tree and queues valid; every parent sees nothing or one arrival; queues in order stay in order |
| PriorityTree.DetachItem | external_libs/nghttp2/nghttp2_stream.c:470-511 | Detaching an item keeps tree and queues valid; every parent sees nothing or one departure, and who leaves starts anew; queues in order stay in order |
| PriorityTree.DeferItem | external_libs/nghttp2/nghttp2_stream.c:513-522 | Deferring keeps the queues valid exactly if a reason is in force, or the stream is a root, or it has a queue of its own; queues in order stay in order |
| PriorityTree.ResumeDeferredItem | external_libs/nghttp2/nghttp2_stream.c:524-537 | Active again exactly when no reason is left; tree and queues stay valid; every parent sees nothing or one arrival; queues in order stay in order |
| TreeAdd.OpenStream | external_libs/nghttp2/nghttp2_stream.c:62-106 | A new stream joins the forest by itself |
| TreeAdd.DepAdd | external_libs/nghttp2/nghttp2_stream.c:741-755 | Pointers and sums after adding a dependent are those of the forest with the stream put first; the queues are right exactly if the stream has nothing to send in it or below it |
| TreeAdd.DepAddSubtree | external_libs/nghttp2/nghttp2_stream.c:859-884 | The same for a stream with everything below it, which is queued if anything in it is active |
| TreeInsert.DepInsert | external_libs/nghttp2/nghttp2_stream.c:592-630 | Exclusive insertion: all dependents and their queue entries move below the stream; the tree is right exactly if the stream had no dependents, the queues then exactly if it has no item or the parent had dependents; queues in order stay in order |
| TreeInsertSubtree.DepInsertSubtree | external_libs/nghttp2/nghttp2_stream.c:808-857 | Exclusive insertion of a subtree: the dependents are appended to its own; queues in order stay in order |
| TreeDetach.DepRemove | external_libs/nghttp2/nghttp2_stream.c:757-806 | Removal of one stream: its dependents take its place in order, each gets the part of its weight in proportion to its own, sums are exact, queue entries move up; queues in order stay in order |
| TreeRemove.DepRemoveSubtree | external_libs/nghttp2/nghttp2_stream.c:886-919 | Removal of a subtree: it stays whole as a tree of its own, its ancestors leave the queues if nothing else is active; queues in order stay in order exactly if the cycles queued at the stream removed are near zero |
| SiblingLinks.SpliceOut | external_libs/nghttp2/nghttp2_stream.c:632-739 | The doubly linked list after a stream is replaced by the list of its dependents |
| SiblingLinks.CutOut | external_libs/nghttp2/nghttp2_stream.c:886-912 | The doubly linked list after a stream is unlinked |
| NextItem.NextOutboundItem | external_libs/nghttp2/nghttp2_stream.c:926-946 | It terminates, finds something exactly if something below the start is active, and what it finds has no active proper ancestor; with queues in order it lies on a path of minima; at every level the base becomes the cycle chosen there, and from a root the queues stay in order |
| NextItem.Choose | external_libs/nghttp2/nghttp2_stream.c:926-946 | The search alone: the path consists of queue tops, and from a root it is the way up from the stream found |
| NextItem.TopPathIsMinimal | external_libs/nghttp2/nghttp2_stream.c:926-946 | With all queues of the tree in order, each stream of such a path is a minimum of the queue of the one before |
| NextItem.Reschedule | external_libs/nghttp2/nghttp2_stream.c:227-247 | Every level on the way up gets the written length and takes exactly the sending step of its stream; no other level changes; the queues stay in order if the stream is the one picked last |
| ChangeWeight.Change | external_libs/nghttp2/nghttp2_stream.c:249-300 | The new weight, the parent sum and, for a queued stream, wherever it was scheduled from: it is rescheduled from there with the same carried penalty under the new weight, unless that cycle is below the base by at most the maximum distance, when it becomes the base; queues in order stay in order exactly if the cycle is in range of the base |
| ChangeWeight.ChangedCycle | external_libs/nghttp2/nghttp2_stream.c:249-300 | What a weight change computes before the final correction is what scheduling from the same base with the same carried penalty under the new weight would have computed |
| ChangeWeight.ClampIff | external_libs/nghttp2/nghttp2_stream.c:292-296 | The final correction brings a cycle that fell behind the base back into range exactly if no wrap-around lies between them |
| ChangeWeight.ClampMissesWrap | external_libs/nghttp2/nghttp2_stream.c:292-296 | The failing input: a stream scheduled just before the wrap-around under weight 1, changed to weight 256 just after it |
| Cycles.ChangeIsUndoRedo | external_libs/nghttp2/nghttp2_stream.c:274-287 | Base and carried penalty are recovered exactly, in 32-bit arithmetic, for every length written |
| ChangeWeight.FindAncestor | external_libs/nghttp2/nghttp2_stream.c:582-590 | True exactly for ancestors and the stream itself |
| Cycles.OrderedIffNoCircle | external_libs/nghttp2/nghttp2_stream.c:34-60 | On a set of keys the comparator is a strict order, total up to equal keys, exactly if no three cycles x < y < z have y within the maximum distance of x, z within it of y, but z not of x |
| Cycles.CloseIsOrdered | external_libs/nghttp2/nghttp2_stream.c:34-60 | Hence it is one, across wrap-around, on cycles within the maximum distance after a common base |
| Cycles.FarIsNotOrdered | external_libs/nghttp2/nghttp2_stream.c:34-60 | And is not on the cycles 0, D and 2D, D being that distance |
| Fairness.RunFair | external_libs/nghttp2/nghttp2_stream.c:138-247 | Every run of arrivals, departures, new starts, picks and sendings of at most 16384 octets keeps all cycles of a queue within the maximum distance after the base |
| Fairness.FairIsOrdered | external_libs/nghttp2/nghttp2_stream.c:43-60 | In every state of such a run the comparator decides between any two different keys of the queue, one way and not the other |
| Fairness.FirstComeFirstServed | external_libs/nghttp2/nghttp2_stream.h:155-157 | Of streams at the same cycle the one that came first is picked |
| Fairness.RunNumbered | external_libs/nghttp2/nghttp2_stream.h:155-157 | Until the 64-bit counter comes round, the sequence numbers of a queue are distinct over every run |
| Fairness.BoundedBypass | external_libs/nghttp2/nghttp2_stream.c:138-247 | While a stream waits, a continuously queued sibling of weight w sends octets with 256*octets <= w*NGHTTP2_MAX_CYCLE_DISTANCE + 255 + 256*16384 |
| Fairness.Conservation | external_libs/nghttp2/nghttp2_stream.c:138-146 | Over such a run 256 times the octets sent equals the weight times the lead used up, plus the change of the carried penalty |
| FairRuns.ServeFairly | external_libs/nghttp2/nghttp2_session.c:2304-2306 | On the dependency tree itself: over every run of attaching, detaching, deferring, resuming, choosing from the root and reporting what was sent, tree, queues and their order stay right, and of two dependents of any one stream that are queued throughout, while nothing is sent at or below the one, 256 times the octets sent at or below the other is at most its weight times NGHTTP2_MAX_CYCLE_DISTANCE + 255 + 256*16384 |
| FairRuns.Serve | external_libs/nghttp2/nghttp2_session.c:2449-2453 | What any one parent sees of such a run is a run of the state machine of one queue, ending in the level the fields hold, with exactly the octets sent at or below each dependent |
| FairRuns.SiblingBypass | external_libs/nghttp2/nghttp2_stream.c:138-247 | The bound, from such a history |
| FairRuns.PushStep | external_libs/nghttp2/nghttp2_stream.c:148-170 | A push leaves the stream picked last on track: its bases are still the cycles below |
| FairRuns.RemoveStepOf | external_libs/nghttp2/nghttp2_stream.c:177-204 | So does a removal that leaves it queued |
| FairQueue.Enter | external_libs/nghttp2/nghttp2_stream.c:148-170 | One round of the push loop is an arrival at the parent and leaves every other queue of the tree alone; all queues in order stay in order |
| FairQueue.Again | external_libs/nghttp2/nghttp2_stream.c:227-247 | One round of rescheduling is a sending at the parent and leaves every other queue alone; all queues in order stay in order if the stream was at the base |
| FairQueue.Exit | external_libs/nghttp2/nghttp2_stream.c:177-204 | One round of the removal loop is a departure at the parent and a new start of the stream that left, whose own queue stays in order exactly if its cycles are near zero |
| FairQueue.SetBase | external_libs/nghttp2/nghttp2_stream.c:932-936 | One round of the base update is a pick of the top at the parent; all queues in order stay in order |
| FairQueue.TopIsFirst | external_libs/nghttp2/nghttp2_stream.c:926-946 | The top of a queue in order is a minimum of it |
| FairQueue.RestartFails | external_libs/nghttp2/nghttp2_stream.c:177-204 | A queue in order that is not when its base is forgotten: one stream at a cycle beyond the maximum distance |
| FairQueue.Reweigh | external_libs/nghttp2/nghttp2_stream.c:763-779 | Another weight leaves the queues in order |
| FlowControl.Windows.Adjust | external_libs/nghttp2/nghttp2_helper.c:155-214 | Succeeds exactly when the new window stays a window; the peer credit grows by exactly the increment left to announce; received bytes are given back first, earlier reductions undone next; nothing changes on error |
| FlowControl.Windows.Increase | external_libs/nghttp2/nghttp2_helper.c:216-246 | The same for growth that gives no received bytes back |
| FlowControl.SubmitWindowUpdate | external_libs/nghttp2/nghttp2_submit.c:375-419 | Exactly the change of credit is queued as WINDOW_UPDATE, if anything; errors change nothing |
| FlowControl.SetLocalWindowSize | external_libs/nghttp2/nghttp2_submit.c:421-487 | The window gets the size asked for and exactly the change of credit is announced |
| FlowControl.ShrinkAndSetBack | external_libs/nghttp2/nghttp2_submit.c:421-487 | Shrinking and setting back restores all counters and announces nothing |
| FlowControl.ShrinkThenAdjust | external_libs/nghttp2/nghttp2_submit.c:375-419 | Growing back through a window update instead does so exactly if the bytes received were no more than the amount cut |
| FlowControl.LedgerOverRuns | external_libs/nghttp2/nghttp2_helper.c:155-246 | Over every run of receipts within the credit and calls of the two window functions, the credit is what the peer counts: initial plus everything queued in WINDOW_UPDATE frames minus everything sent; it is never negative and no counter leaves its 32 bits |
| StreamMap.StreamMap.Insert | external_libs/nghttp2/nghttp2_map.c:142-157 | The map gains the binding, or is unchanged if the key is bound; growing keeps all bindings; size is their number |
| StreamMap.StreamMap.Find | external_libs/nghttp2/nghttp2_map.c:159-169 | The binding or nothing |
| StreamMap.StreamMap.Remove | external_libs/nghttp2/nghttp2_map.c:171-188 | The binding is gone; failure exactly if there was none |
| StreamMap.Rehash | external_libs/nghttp2/nghttp2_map.c:115-140 | Rehashing into a table of any length preserves all bindings, every entry in the chain of its hash |
| StreamMap.InsertInto | external_libs/nghttp2/nghttp2_map.c:95-113 | A fresh entry goes in front of its chain unless the key is there |
| HttpValidator.CheckRequest | external_libs/nghttp2/nghttp2_http.c:115-227 | A list of request fields is accepted field by field exactly when, as a whole, it is consistent (order, no repetition, proper values, CONNECT without path and scheme and on an odd stream) and complete |
| HttpValidator.HttpStream.OnHeader | external_libs/nghttp2/nghttp2_http.c:408-465 | One field: rejected, dropped or taken, and the flags after it |
| HttpValidator.HttpStream.OnRequestHeaders | external_libs/nghttp2/nghttp2_http.c:467-494 | The end of the list: what the flags demand, and what a pushed request resets |
| HttpValidator.AllowsFollows | external_libs/nghttp2/nghttp2_http.c:115-227 | What the flags allow next is what the list so far allows next |
| HttpValidator.CheckResponse | external_libs/nghttp2/nghttp2_http.c:229-304 | A list of response fields is accepted exactly when it is consistent (order, one :status of three digits other than 101, one content-length and only one the status allows) and has a status; an informational response is followed by another, and after a final one the length in force is 0 without a body, none in a tunnel, else that of the field |
| HttpValidator.HttpStream.OnResponseHeaders | external_libs/nghttp2/nghttp2_http.c:496-522 | The end of a response list and what it sets |
| HttpValidator.HttpStream.OnHeaderOfResponse | external_libs/nghttp2/nghttp2_http.c:408-465 | One field of a response |
| HttpResponseRules.ResponseSnoc | external_libs/nghttp2/nghttp2_http.c:229-304 | A response list is consistent exactly if it is without its last field and that field may follow |
| HttpValidator.CheckBody | external_libs/nghttp2/nghttp2_http.c:535-558 | A body and its end are accepted exactly when no final response is awaited and the length in force, if any, equals the octets received |
| HttpValidator.ParseUint | external_libs/nghttp2/nghttp2_http.c:52-73 | The decimal value, exact up to INT64_MAX, -1 for anything else |
| HttpRules.ConsistentSnoc | external_libs/nghttp2/nghttp2_http.c:115-227 | A list is consistent exactly if it is without its last field and that field may follow |
| AtMailbox.Mailbox.Write | src/atm/at_conn_mbox.c:113-135 | A first-in first-out queue of exactly as many places as the ring has slots |
| AtMailbox.Mailbox.Read | src/atm/at_conn_mbox.c:137-162 | The oldest message, also from a full ring |
| AtPool.Pool.Store | src/atm/at_conn_mgmt.c:98-146 | A packet is stored exactly if it is not empty, fits a slot, and a buffer and a slot are free; what others hold is untouched |
| AtPool.Pool.Release | src/atm/at_conn_mgmt.c:120-157 | Buffer and slot are free again; what others hold is untouched |
| AtConnection.Connection.Input | src/atm/at_conn_mgmt.c:284-361 | A packet is accepted exactly if it is not empty, fits a slot, a buffer and a slot are free and the mailbox has a place; then it is appended to what is still to be read; a refused one leaves no trace in the pool |
| AtConnection.Connection.Recv | src/atm/at_conn_mgmt.c:576-654 | On TCP exactly the next octets of the stream, as many as are there up to the length asked for; what was returned is always a beginning of what was accepted, the rest being the tail of the held buffer and the mailbox |
| AtConnection.Connection.Close | src/atm/at_conn_mgmt.c:205-257 | Every buffer of the connection goes back to the pool |
| AtConnection.SlotsAccounted | src/atm/at_conn_mgmt.c:98-157 | Over all connections that share the pools, the used payload slots are as many as the buffers queued and held |
| AtConnection.SharedSettled | src/atm/at_conn_mgmt.c:576-654 | Reading or closing one connection keeps that account |
| AtConnection.SharedInput | src/atm/at_conn_mgmt.c:284-361 | Accepting a packet keeps that account |
| AtTraffic.Traffic | src/atm/at_conn_mgmt.c:98-157 | Over every run of packets, reads and closes on any number of connections that share the pools: the used payload slots are exactly as many as the buffers queued and held, a closed connection holds none, and every open TCP connection has returned a beginning of what it accepted |
| AtScanner.Scanner.Feed | src/atm/at_parser.c:845-943 | For every registered entry and every octet: the callbacks made are exactly those the entries owe, each with a buffer that is, octet for octet, a contiguous piece of the input, starts with the prefix and ends at the first postfix that qualifies; entries and buffer afterwards |
| AtScanner.Scanner.Scan | src/atm/at_parser.c:635-702 | One octet offered to every registered entry: the calls are exactly those of the entries that complete, in order |
| AtScanner.ExtendOk | src/atm/at_parser.c:658-690 | A capture goes on as a piece of the input, ends with such a piece handed over, or is dropped when its buffer is full |
| AtScanner.RunningIsServed | src/atm/at_parser.c:635-702 | A capture once begun is served whatever the other entries do: handed over, as captured, with the octet that completes it and with no other |
| AtScanner.IdleBegins | src/atm/at_parser.c:645-664 | A capture begins: an idle entry whose prefix ends the buffer takes part if no earlier entry clears it; without a postfix it is notified |
| AtScanner.BeginsWithPrefix | src/atm/at_parser.c:656-670 | With one it then holds exactly its prefix |
| AtScanner.CallClears | src/atm/at_parser.c:652-683 | Every callback clears the buffer in which prefixes are looked for |
| AtCapture.Deliver | src/atm/at_parser.c:635-702 | From a fresh scanner: octets in which the prefix is not yet seen, the prefix, and a text up to the first postfix that qualifies and fitting the entry, make exactly one callback, with exactly prefix and text |
| AtCapture.Announce | src/atm/at_parser.c:645-655 | From a fresh scanner an entry without a postfix is called exactly once, as soon as its prefix is there |

## Left out

- The session engine, frame dispatch, callbacks, options and I/O: what they do to the modelled parts appears as parameters
  or as steps of a run.
- Allocation failure, custom allocators, reference counts and the raw buffers of header strings.
- The 4096-entry Huffman decoding table: decoding runs the automaton that the code itself defines, four bits at a time.
- The static header table and the assignment of codes to symbols: any table and any assignment is covered; `HpackPolicy`
  asks for the ten names it speaks of at their places.
- HpackTable.TokenInjective: the decision tree of lookup_token is modelled by its result.
- HashIndex.HdMap.RemoveLast: takes out the oldest entry, the only one its callers remove.
- Chunk data are sequences, not arrays; writes into a chunk replace its value, so writing outside a chunk cannot be expressed.
- nghttp2_bufs_realloc, nghttp2_bufs_reset and the other ways to reuse a chain.
- Deflater.Deflater.DeflateHdVec: empty buffers behind the first one, past whose end the source would write an octet.
- Packing and unpacking of SETTINGS, PING, GOAWAY, PUSH_PROMISE, ALTSVC and DATA payloads: round trips of fixed layouts.
- HeadersFrame.AddPad: the variant that only rewrites the frame header, used for DATA sent without copying.
- The character tables for header names, values and authorities, whose verdicts are inputs, and the recording of the request
  method at the client.
- Inflater.Inflater.ReadLen: the shift is reset when an integer ends; the source does so when the next one begins.
- AtMailbox.Mailbox.Read: the slot that was read is not overwritten with a null pointer.
- AtConnection.Connection.Recv: blocking on an empty mailbox when no timeout is set; an empty mailbox ends the call.
- AtScanner.Scanner.Feed: the handling of command responses, which appears as the parameter that clears the buffer; a capture
  buffer shorter than its prefix, which the source overruns.
- StreamMap.StreamMap.Insert: overflow of the 32-bit table length and the reuse of an entry that was not initialised again.
- FlowControl.Windows.Adjust: 32-bit overflow of the received bytes when the peer exceeds its credit; within the credit
  `FlowControl.LedgerOverRuns` shows that there is none.
- TreeDetach.DepRemove: asks for a stream without an item, as its declaration does.
- NextItem.NextOutboundItem: that the queues stay in order is stated for a start that depends on nothing, as the session
  starts it.
- FairRuns.ServeFairly: a fixed tree; the operations that change the tree or a weight keep the order of the queues but are
  not steps of these runs.
- The growing receive slots of at_mqtt.c, at_yield and at_read.
