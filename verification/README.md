# uPipe: queues, frames, workers and pipes

uPipe moves data frames between processes through queues in shared memory. This
project models that data path and the topology code around it, and proves what
they promise:

- a **queue** (`MemQueue`) keeps variable-length frames in one flat byte array:
  64 control bytes, then a ring of 32-byte headers and bodies that may wrap
  anywhere. `put` and `get` are modelled on the bytes, first call by call
  (Ring, RingRuns, ControlBlock, MemQueue), then as one producer and one
  consumer interleaved load by load and store by store (Interleaving,
  Undisturbed), then as one producer and any number of consumers whose checks are
  stale by the time they hold a lock (Consumers);
- a **frame** (`DataFrame`) is an ordered dictionary of typed fields with a
  nested, length-prefixed byte format (Codec, DataFrames); EndToEnd composes
  the format with the ring call by call, InterleavedFrames access by access;
- a **worker** polls its input queues in rotation and puts what it emits on
  every output queue (Delivery on queue states, Worker on `MemQueue` objects);
  Retries says what emitting again and again leaves in the queues, HandOver what
  the next worker gets of what one emits;
- a **pipe** lists the processors behind its root and a queue per edge
  (PipeDef), and is drained in an order that visits a processor before the ones
  behind it (DrainList, over the graphs of Graphs).

Imperative code keeps its form: `MemQueue`, `DataFrame`, `Worker` and `PipeDef`
are classes, their loops are loops, and each method is tied to a function whose
properties the lemmas prove. Bytes holds little-endian integers, Dicts the
insertion-ordered dictionaries, Results the exceptions.

## What turned out different from what is promised

- A frame may fill the ring to its last byte. The two indices then coincide, as
  they do in an empty queue, and `free_space` reports the whole ring free. A
  `get` in that state is right; a `put` of anything that fits overwrites the
  pending frames, and a frame that does not encode raises although a ring that is
  more than nine tenths full was to decline it unread. `RingRuns.RunIsFifoIff` says a run answers as a FIFO of bodies
  does if and only if no `put` meets a full ring with a body that fits an empty
  one and no frame is accepted beyond what the counters can count;
  `EndToEnd.FramesComeThrough` says the same of frames. A caller sees a full ring:
  the indices meet while `pending_counter` is not zero.
- Frames can fill the ring at exactly the queue sizes 97 and 107 upwards
  (`EndToEnd.CanBeFilledIff`; between, no frame has the size that would), and at
  each of them two accepted `put`s lose the first frame
  (`EndToEnd.TwoFramesLoseOne`).
- Frame numbers and counters are four bytes. The frame after the last that can be
  numbered raises and changes nothing; a frame that can be numbered but not
  counted raises when it is already published, and stays in the ring uncounted.
- The array decoder needs one byte beyond an item header to go on, so a list
  loses its last item when that item encodes to nothing (an empty text or an
  empty list). `Codec.RecoveredIffStable` says exactly which values survive, and
  `Codec.EmptyLastItemIsLost` gives the smallest one that does not.
- `_get_processor_children` reads the `from_p` end of a queue, so every child of
  the root is the root again: `DrainLists.AsCodedReturnsIff` says `drain_list`
  returns only for a root without outgoing queues. The viewer's twin of that
  function (`dataloop/upipe/pipeview/src/models/Pipe.ts:138-144`) reads `to_p`,
  and `DrainLists.DrainList` is the same walk with that reading.
- A queue id is the two processor ids with an arrow between them, so two edges can
  share an id when processor ids contain arrows; the second queue then replaces
  the first (`PipeDefs.OneQueueIsLost` gives a pipe on which that happens).

## Model

| member | source | states |
|---|---|---|
| RingRuns.RunIsFifoIff | dataloop/upipe/entities/mem_queue.py:204-334 | Over every sequence of `put` and `get`, with any bodies, any counters and any wrap positions, the answers equal those of a bounded FIFO of bodies if and only if no `put` meets a ring filled to the last byte with a body that fits an empty ring, and no body is accepted once frame number or counter has come to its end |
| RingRuns.RunKeepsRepresentation | dataloop/upipe/entities/mem_queue.py:256-277 | After every run without such a `put` the ring is, from `exe_index` on, the pending frames end to end and zeros elsewhere; when all bodies decode, the counters differ by the number of pending frames |
| RingRuns.PutIsFifoIff | dataloop/upipe/entities/mem_queue.py:289-332 | In any represented state one `put` refuses, accepts and appends as the FIFO does exactly when it is neither overfull nor beyond what can be counted; an overfull one is never refused |
| RingRuns.GetIsFifo | dataloop/upipe/entities/mem_queue.py:204-280 | `get` returns the oldest body byte for byte and removes only it; an empty queue answers nothing even when the counters disagree because an earlier body failed to decode |
| RingRuns.StepIsFifo | dataloop/upipe/entities/mem_queue.py:204-334 | One call of either kind answers as one FIFO step exactly when it is no such `put`, and then leaves what the FIFO holds |
| RingRuns.FreeSpaceIsConserved | dataloop/upipe/entities/mem_queue.py:453-462 | `free_space` is the ring less headers and bodies pending, except that a full ring reports itself empty; the indices meet only when the queue is empty or full |
| RingRuns.FullIsVisible | dataloop/upipe/entities/mem_queue.py:453-498 | As long as every body taken was counted, a caller can tell a full ring before the call: equal indices with a non-zero `pending_counter` |
| RingRuns.OverfullPutServesNewest | dataloop/upipe/entities/mem_queue.py:295-331 | After an overfull `put` that can still be counted the next `get` returns the newest body instead of the oldest, whatever was pending |
| RingRuns.TwoPutsLoseOne | dataloop/upipe/entities/mem_queue.py:289-332 | On new memory of any legal size a body as long as the ring allows and any second body are both accepted, and `get` returns the second; which sizes a frame has is `EndToEnd.CanBeFilledIff` |
| Ring.PushRepresents | dataloop/upipe/entities/mem_queue.py:316-331 | Storing a well-formed frame that fits appends it to the frames the ring represents, wherever the end of the buffer cuts it |
| Ring.TakeRepresents | dataloop/upipe/entities/mem_queue.py:209-274 | On a represented ring neither the watermark nor the CRC error can occur; the locked part of `get` yields the oldest body, and nothing at all on an empty ring |
| Ring.ClearRepresents | dataloop/upipe/entities/mem_queue.py:256-268 | Zeroing the oldest frame and moving `exe_index` leaves exactly the other frames, with every free byte zero |
| Ring.HeadOfRing | dataloop/upipe/entities/mem_queue.py:210-226 | The bytes read at `exe_index` are the oldest frame, or start with status 0 if there is none |
| Ring.InitRepresents | dataloop/upipe/entities/mem_queue.py:172-178 | New memory represents the empty queue |
| Ring.PacketIsWellFormed | dataloop/upipe/entities/mem_queue.py:303-316 | What the writer lays out passes every check of the reader and gives back body and frame number |
| Ring.QState.FreeSpace | dataloop/upipe/entities/mem_queue.py:453-458 | The reported space is never zero and never more than the ring |
| Ring.ReadBack | dataloop/upipe/entities/mem_queue.py:317-327 | Bytes stored round the end of the ring read back round the end of the ring |
| Ring.PutAtTheEnd | dataloop/upipe/entities/mem_queue.py:303-331 | A frame that cannot be numbered changes nothing; one that cannot be counted lies in the ring byte for byte with `alloc_index` behind it and the counter unmoved; both raise |
| Ring.DamageIsNoticed | dataloop/upipe/entities/mem_queue.py:222-273 | What the reader makes of one changed byte of the oldest frame, for every byte but those of the size: a lost status hides it, a wrong watermark raises and leaves memory alone, a wrong CRC word or a body of another CRC raises and removes exactly that frame, any other header byte is not looked at |
| RingIndex.BothAreRingAddition | dataloop/upipe/entities/mem_queue.py:244-268 | For every legal size, index and length the reader's `% size` and the writer's left-over both equal addition modulo `size - 64` |
| RingIndex.SameStartsForever | dataloop/upipe/entities/mem_queue.py:317-328 | Over any sequence of frames the writer and the reader visit the same frame starts, and each start is the total of the sizes before it modulo the ring |
| ControlBlock.SetterChangesOneWord | dataloop/upipe/entities/mem_queue.py:389-399 | Every little-endian setter is undone by its getter for every value in range and changes no other control word and no ring byte |
| ControlBlock.WordsApart | dataloop/upipe/entities/mem_queue.py:127-140 | The control words are pairwise disjoint and end below byte 64 |
| ControlBlock.DataKeepsControl | dataloop/upipe/entities/mem_queue.py:257-263 | Frame stores and clears leave all control bytes as they were |
| ControlBlock.SlicesWrite | dataloop/upipe/entities/mem_queue.py:319-327 | The one-slice and two-slice stores both put byte k of the frame k places on round the ring and touch nothing else |
| ControlBlock.SlicesRead | dataloop/upipe/entities/mem_queue.py:249-255 | The one-slice and two-slice reads both return the bytes in ring order |
| ControlBlock.CreatedView | dataloop/upipe/entities/mem_queue.py:172-178 | Zeroed memory with status, direction and index words set is the initial queue state |
| Bytes.FromToLE | dataloop/upipe/entities/mem_queue.py:389-399 | Reading back a little-endian integer of any width gives the value that was stored, for every value that fits |
| Bytes.BytesOfLE | dataloop/upipe/entities/mem_queue.py:389-399 | Byte i of a stored integer is the integer divided by 256 to the i, modulo 256: the least significant comes first |
| MemQueues.MemQueue.Make | dataloop/upipe/entities/mem_queue.py:154-178 | A size that leaves no room for one byte raises; any other gives a legal, empty queue |
| MemQueues.MemQueue.Create | dataloop/upipe/entities/mem_queue.py:159-183 | For a legal size a created queue is legal, empty, and has its indices at byte 64 |
| MemQueues.MemQueue.Attach | dataloop/upipe/entities/mem_queue.py:180-182 | Opening existing memory changes no queue state |
| MemQueues.MemQueue.FreeSpace | dataloop/upipe/entities/mem_queue.py:453-462 | The property computed from the control bytes is the free space of the state they encode |
| MemQueues.MemQueue.SpaceAvailable | dataloop/upipe/entities/mem_queue.py:282-287 | True exactly when the encoded frame and its header fit the reported space; encoding errors surface |
| MemQueues.MemQueue.StoreSplit | dataloop/upipe/entities/mem_queue.py:317-327 | The store split at the end of the buffer writes the ring as a pointwise ring write does |
| MemQueues.MemQueue.WriteFrame | dataloop/upipe/entities/mem_queue.py:316-329 | In both branches the frame lands at `alloc_index` and the index moves on by its size round the ring, with the counter untouched |
| MemQueues.MemQueue.Put | dataloop/upipe/entities/mem_queue.py:289-334 | The capacity test comes before the encoding, the space test after it; an accepted frame is appended, numbered and counted; a number past four bytes raises with nothing stored, a count past four bytes with the frame published. Unless a frame number was used up not one byte of memory changes |
| MemQueues.MemQueue.CopyOut | dataloop/upipe/entities/mem_queue.py:213-220 | A read that may run over the end returns the bytes in ring order |
| MemQueues.MemQueue.ReadBody | dataloop/upipe/entities/mem_queue.py:243-255 | The body found behind the header is the frame without its header, wherever the wrap falls |
| MemQueues.MemQueue.ClearFrame | dataloop/upipe/entities/mem_queue.py:256-268 | Exactly the frame's bytes become zero and `exe_index` moves behind them |
| MemQueues.MemQueue.TakeBody | dataloop/upipe/entities/mem_queue.py:208-273 | The locked section, from memory in which a header that carries status and watermark carries a size that fits: nothing, missing watermark (memory as it was), or frame removed with its body or a CRC error |
| MemQueues.MemQueue.Get | dataloop/upipe/entities/mem_queue.py:204-280 | From the same memory, result and new state for every case: nothing pending, each error, a body that fails to decode (removed but not counted), a counter at its end (removed, raises) and a frame |
| Interleaving.EveryInterleavingIsFifo | dataloop/upipe/entities/mem_queue.py:204-334 | For one producer and one consumer under every interleaving of single byte and word accesses in which no `put` is entered at a full ring: received bodies are an in-order, byte-identical prefix of the committed ones and `get` raises neither for watermark or CRC nor for a counter. Bodies are taken to decode, which `InterleavedFrames` proves of frames |
| Interleaving.RunKeepsInv | dataloop/upipe/entities/mem_queue.py:204-334 | At every point of every such run, also half-way through a store, a copy or a clear, memory is the uncleared pending frames, the stored part of the next, and zeros |
| Interleaving.TwoLoadsNeverOverestimate | dataloop/upipe/entities/mem_queue.py:453-458 | However far the reader moves between the two unlocked loads of `exe_index`, the result never exceeds what is free |
| Interleaving.ReadsHead | dataloop/upipe/entities/mem_queue.py:213-255 | A byte the reader copies is the oldest frame's byte, whatever the writer is storing meanwhile |
| Interleaving.NoExactFillIsClean | dataloop/upipe/entities/mem_queue.py:289-332 | Runs in which no published frame fills the ring exactly enter no `put` at a full ring |
| Undisturbed.PutAlone | dataloop/upipe/entities/mem_queue.py:289-334 | The producer's single accesses, run alone from the first to the one `put` returns or raises after, leave what the one-call `put` leaves, whether it accepts, refuses or raises |
| Undisturbed.GetAlone | dataloop/upipe/entities/mem_queue.py:204-280 | The consumer's single accesses, run alone from the pending check to the one `get` returns or raises after, leave what the one-call `get` leaves: nothing pending, each error, or a frame |
| Undisturbed.ConsumerDrains | dataloop/upipe/entities/mem_queue.py:204-280 | From every state that can occur, also half-way through a `get` and a `put`, the consumer left alone goes on to receive every counted frame, in order and byte for byte |
| Undisturbed.EveryRunCanBeDrained | dataloop/upipe/entities/mem_queue.py:204-334 | After every interleaving in which no `put` is entered at a full ring the consumer can still receive every frame whose `put` has returned, the last one the frame numbers allow excepted |
| InterleavedFrames.EveryInterleavingKeepsFrames | dataloop/upipe/entities/mem_queue.py:204-334 | Under those interleavings, when the producer puts frames, what the consumer received decodes to the published frames in order, values trimmed, and left alone it receives and decodes all that were counted |
| Consumers.EachFrameOnce | dataloop/upipe/entities/mem_queue.py:204-226 | With one producer, any number of consumers and any order of space checks, commits, pending checks, lock acquisitions and locked sections, as long as no `put` is entered at a full ring nor beyond the last countable frame: every frame goes to at most one consumer, in order, none is skipped, no `get` raises, and equal counters mean all were delivered |
| Consumers.ConsumerGets | dataloop/upipe/entities/mem_queue.py:204-278 | A consumer that is outside while frames are pending and the lock is free goes through check, lock and section and gets exactly the oldest body, under its own name; nothing else changes for anyone |
| Consumers.EveryRunCanBeDelivered | dataloop/upipe/entities/mem_queue.py:204-226 | After every such run with at least one consumer, whatever phase each is in, the consumers alone can go on so that everything sent is delivered |
| Consumers.AdmitAndCommit | dataloop/upipe/entities/mem_queue.py:289-332 | The producer's space check and locked section one after the other are a `put`, whether it accepts, refuses or raises |
| Consumers.LateConsumerGetsNothing | dataloop/upipe/entities/mem_queue.py:221-226 | A consumer that holds the lock over an empty ring, its pending check being stale, gets nothing and changes nothing |
| Consumers.RunKeepsInv | dataloop/upipe/entities/mem_queue.py:357-387 | Delivered bodies followed by pending ones are the sent ones at every point, and at most one consumer holds the read lock |
| Consumers.AdmitKeepsInv | dataloop/upipe/entities/mem_queue.py:289-302 | The space found without the lock is still free when the producer holds it, whatever the consumers did in between |
| Codec.RoundTripTrims | dataloop/upipe/entities/dataframe.py:103-157 | Whatever encodes decodes, to the value with every list's last empty-encoding item dropped |
| Codec.RecoveredIffStable | dataloop/upipe/entities/dataframe.py:141-152 | A value is recovered exactly if and only if no list at any depth ends in an item that encodes to zero bytes |
| Codec.EmptyLastItemIsLost | dataloop/upipe/entities/dataframe.py:141-152 | A list of one empty text comes back as an empty list |
| Codec.TrimIsIdentityIffStable | dataloop/upipe/entities/dataframe.py:141-152 | An unstable value comes out with a strictly shorter encoding, and stays encodable |
| Codec.HopsSettle | dataloop/upipe/entities/dataframe.py:103-157 | No trip of a route fails, and after as many trips as the first encoding has bytes the value no longer changes |
| Codec.EncodeOk | dataloop/upipe/entities/dataframe.py:103-122 | A value encodes exactly when its integers and item sizes fit four bytes; the size of the encoding |
| Codec.EncodeOverflows | dataloop/upipe/entities/dataframe.py:103-122 | A value that does not encode raises an overflow, never anything else |
| Codec.TypeIds | dataloop/upipe/entities/dataframe.py:24-36 | The type ids count up from 1 in the order of the types, the integers doubling in size |
| Codec.ScalarLayout | dataloop/upipe/entities/dataframe.py:103-122 | An integer is exactly its bytes, least significant first; any other value that is no list is the bytes it stands for |
| Codec.ItemLayout | dataloop/upipe/entities/dataframe.py:110-117 | Where each item of an encoded list stands, at any depth: behind the ones before it, its type id, four bytes of size, its own encoding, and nothing behind the last |
| Codec.DTypeOf | dataloop/upipe/entities/dataframe.py:24-36 | A byte is a type id or an error, never anything else |
| Codec.DataToByteArr | dataloop/upipe/entities/dataframe.py:103-122 | The encoding loop computes the encoding the round trip is proved for, errors in the same order |
| Codec.DataFromByteArr | dataloop/upipe/entities/dataframe.py:125-157 | The decoder terminates on arbitrary bytes with that value or that error |
| Codec.ArrayFromByteArr | dataloop/upipe/entities/dataframe.py:141-152 | The array loop, whose index may jump past the end, terminates and decodes the items |
| Codec.AnyBytesDecode | dataloop/upipe/entities/dataframe.py:141-152 | On arbitrary bytes item k is what turn k reads: the turn starts where the size before it says, a size that runs over the end takes what there is, the loop ends when no byte is left behind a header, and the first item that fails is the error |
| DataFrames.FrameRoundTrip | dataloop/upipe/entities/dataframe.py:265-326 | A frame with distinct keys that encodes comes back with the same keys, types and order through both length prefixes, values trimmed; unchanged exactly when all values are stable |
| DataFrames.FieldRoundTrip | dataloop/upipe/entities/dataframe.py:204-229 | The same for one field |
| DataFrames.FrameEncodesIff | dataloop/upipe/entities/dataframe.py:311-326 | Exactly which frames encode (at most 255 fields, keys of at most 255 bytes, sizes and integers in range) and to how many bytes |
| DataFrames.FrameErrors | dataloop/upipe/entities/dataframe.py:205-215 | Which error a frame that does not encode raises: a value error for too many fields or too long a key, an overflow for the rest, by the first field that fails |
| DataFrames.FrameLayout | dataloop/upipe/entities/dataframe.py:320-326 | The first byte is the number of fields; each field with its size stands where the ones before it end, from index 1 to the end |
| DataFrames.ChunkLayout | dataloop/upipe/entities/dataframe.py:312-318 | A field in a frame has four bytes of size in front, least significant first |
| DataFrames.FieldLayout | dataloop/upipe/entities/dataframe.py:205-215 | A field is type id, key length, key, four bytes of value size and the encoded value, each at its offset |
| DataFrames.DecodedFrameIsAFrame | dataloop/upipe/entities/dataframe.py:258-278 | Arbitrary bytes decode to an error or to at most 256 well-typed fields with distinct keys |
| DataFrames.LastFieldWins | dataloop/upipe/entities/dataframe.py:265-278 | In arbitrary bytes that decode, the last of several fields under one key counts |
| DataFrames.CutFieldDecodes | dataloop/upipe/entities/dataframe.py:218-229 | A field whose bytes are cut off inside its value decodes without an error to what is left of the value |
| DataFrames.BadBytes | dataloop/upipe/entities/dataframe.py:125-157 | Empty bytes and a type without a key size are index errors, an id of no type is a value error, an unregistered type a lookup error |
| DataFrames.DataFrame.AddTypedField | dataloop/upipe/entities/dataframe.py:258-263 | Reserved keys and a full dictionary are refused unchanged; otherwise a new key is appended and a known one keeps its place |
| DataFrames.DataFrame.AddField | dataloop/upipe/entities/dataframe.py:250-252 | Succeeds exactly for unreserved keys below the limit, with the type derived from the value |
| DataFrames.DataFrame.SetLast | dataloop/upipe/entities/dataframe.py:298-303 | The mark is a one-byte 1, or gone |
| DataFrames.DataFrame.SetPipeExeId | dataloop/upipe/entities/dataframe.py:332-335 | The id field, a given id or else a new text, is replaced in place or appended; keys stay distinct |
| DataFrames.DataFrame.ToByteArr | dataloop/upipe/entities/dataframe.py:320-326 | The loop over the fields computes the frame encoding, whose bytes `FrameLayout` describes; the first byte counts the fields |
| DataFrames.DataFrame.FromByteArr | dataloop/upipe/entities/dataframe.py:265-278 | The field loop terminates on arbitrary bytes with a fresh valid frame or the error |
| DataFrames.Lookup | dataloop/upipe/entities/dataframe.py:292-309 | Finds a value exactly when the key is present |
| Dicts.StoreDistinct | dataloop/upipe/entities/dataframe.py:258-263 | Dictionary assignment keeps keys distinct, replaces the old value and loses no other |
| EndToEnd.FramesComeThrough | dataloop/upipe/entities/mem_queue.py:289-334 | Over every run, with any counters, frames accepted by `put` are returned by `get` in order with the same fields, values at most trimmed, and every other call answers as promised, if and only if no `put` meets a full ring with a frame that fits an empty one (nor, in a ring of more than 576 bytes, with one that does not encode) and no frame is accepted beyond what can be counted; a frame that was put never fails to decode |
| EndToEnd.CallKeepsPromiseIff | dataloop/upipe/entities/mem_queue.py:204-334 | The same of one call, from any contents of the queue |
| EndToEnd.CanBeFilledIff | dataloop/upipe/entities/mem_queue.py:295 | Frames that can be put fill the ring to the last byte at exactly the queue sizes 97 and 107 upwards |
| EndToEnd.TwoFramesLoseOne | dataloop/upipe/entities/mem_queue.py:289-332 | At each of these sizes, whatever the second frame that fits: both `put`s are accepted where the second was to be declined, and `get` returns the second frame where the first was due |
| EndToEnd.GetKeepsPromise | dataloop/upipe/entities/mem_queue.py:274-278 | A pending frame decodes, so its `get` succeeds and is counted |
| EndToEnd.FieldsKeepTheirKeys | dataloop/upipe/entities/dataframe.py:292-309 | The execution id, the `last` mark and every other field arrive under their keys |
| EndToEnd.PutThenGet | tests/q_test.py:16-29 | On memory opened by a producer and a consumer whose counters are not at their end, an accepted frame is what the next `get` returns, wherever in the ring it lies, and the queue is empty again |
| Delivery.ServedWithinOneRound | dataloop/upipe/entities/worker.py:285-298 | Whatever the other queues hold and even if they raise, a queue that has a frame at each call is served within n calls that return a frame |
| Delivery.AllCallsServe | dataloop/upipe/entities/worker.py:285-298 | When no queue raises every such call returns a frame, so n calls are enough |
| Delivery.NothingFoundIffAllEmpty | dataloop/upipe/entities/worker.py:285-301 | A call finds nothing exactly when all input queues are empty, wherever its round starts |
| Delivery.FanOutTrueIffAll | dataloop/upipe/entities/worker.py:270-274 | `emit` is true exactly when every queue accepted |
| Delivery.RetryCopies | dataloop/upipe/entities/worker.py:270-274 | Attempts that go on until one succeeds reach an earlier queue at least as often as a later one, each at least once and the last exactly once |
| Retries.RetriesLeaveCopies | dataloop/upipe/entities/worker.py:270-274 | A frame emitted until `emit` returns true, while consumers take what they like and no attempt meets the queue full or its counters at their end: the queue and its consumer have, in order, all they had and then copies of the frame, as many as attempts reached the queue, never fewer than a later queue, at least one, and one in the last |
| Retries.CopiesAreInTheQueue | dataloop/upipe/entities/worker.py:270-274 | The same for any attempts, successful or not: one copy for each that reached the queue |
| Delivery.FanOutTurn | dataloop/upipe/entities/worker.py:272-273 | A queue that accepts extends the reached prefix by one; the first that does not ends it and is the last to be asked |
| Delivery.BehindThePrefix | dataloop/upipe/entities/worker.py:272-274 | Queues behind the prefix are unchanged, and so is the one that ended it unless its counter overflowed |
| Workers.Round | dataloop/upipe/entities/worker.py:287-290 | The polling loop stops at the first queue in rotation that answers; only that queue changes |
| Workers.Worker.Get | dataloop/upipe/entities/worker.py:285-301 | Result, rotation start, received counter and remembered execution id in every case; queues that were not served are untouched |
| Workers.DataIsD | dataloop/upipe/entities/dataframe.py:280-286 | What `get` returns of a frame is the value of field "d", wherever it stands |
| Workers.DataIsFirstPlain | dataloop/upipe/entities/dataframe.py:286-290 | Without that field it is the value of the first field under a key that is not reserved, and a value error exactly when there is none |
| Workers.IdIsPid | dataloop/upipe/entities/worker.py:292-295 | The id `get` remembers is v exactly when field "pid" holds v and v counts as true |
| Workers.FanOut | dataloop/upipe/entities/worker.py:272-274 | The loop asks the output queues up to the first that does not accept, each changes as its own `put` says, the rest is unchanged, and the answer says whether all accepted |
| Workers.Worker.Emit | dataloop/upipe/entities/worker.py:254-274 | With a current execution id the emitted frame has it under "pid" and every other key as before, without one it is unchanged; fan-out (counted whatever comes of it, the sink not touched), sink (counted if accepted) or drop (false, not counted) |
| HandOver.EmittedIsGot | dataloop/upipe/entities/worker.py:254-301 | What one worker emits to an empty queue the next one gets from it: its data, trimmed at most, and the first one's execution id as the next one's |
| HandOver.GetComesTo | dataloop/upipe/entities/worker.py:285-290 | Wherever its rotation starts, a worker gets from the one queue that has something |
| DrainLists.DrainList | dataloop/upipe/types/pipe.py:66-79 | With children read as the `to_p` ends the walk terminates on every pipe without a cycle and lists each processor behind the root once, before all its children |
| DrainLists.AsCodedReturnsIff | dataloop/upipe/types/pipe.py:49-79 | As coded the walk returns if and only if the root has no outgoing queue, and then returns nothing |
| DrainLists.OneQueueNeverReturns | dataloop/upipe/types/pipe.py:49-79 | The smallest pipe on which the walk as coded goes on for ever |
| DrainLists.TurnKeepsInv | dataloop/upipe/types/pipe.py:70-78 | Every edge out of a listed processor is in order or its source is still to be walked |
| DrainLists.MeetChildren | dataloop/upipe/types/pipe.py:73-78 | The loop over the children moves each to the end, in turn, and queues them all |
| DrainLists.ChildrenAppend | dataloop/upipe/types/pipe.py:49-64 | The children of a processor come in the order of the queues |
| DrainLists.MeetMoves | dataloop/upipe/types/pipe.py:74-77 | Moving a child to the end puts it after every other listed processor and breaks no other order |
| Graphs.RankedIffAcyclic | dataloop/upipe/entities/pipe.py:184-196 | A graph has no cycle exactly when numbers exist that fall along every edge, which is what makes both recursions end |
| PipeDefs.PipeDef.constructor | dataloop/upipe/entities/pipe.py:180-199 | For every declaration without a cycle the mapping ends and lists exactly the processors behind the root, the root first, each with its own buffer size and host; queues only for edges between them, named by their ends and with buffer size and non-empty host of the processor they lead to; one for every edge exactly when no two edges share a queue id, and then in the order of the children |
| PipeDefs.PipeDef.MapProc | dataloop/upipe/entities/pipe.py:184-196 | The recursive mapping terminates on every declaration without a cycle and makes of the two dictionaries what the constructor promises |
| PipeDefs.MappedIsPipe | dataloop/upipe/entities/pipe.py:184-199 | The mapped dictionaries hold what the constructor promises |
| PipeDefs.QueuesInOrder | dataloop/upipe/entities/pipe.py:187-196 | When no two edges share a queue id and no child is declared twice, the queues of a processor come in the order of its children, however often it was met |
| PipeDefs.RootIsFirst | dataloop/upipe/entities/pipe.py:184-186 | Processors keep the place they were first listed at, so the root is the first |
| PipeDefs.RootIsTheOnlyEntry | dataloop/upipe/entities/pipe.py:184-199 | Every queue runs between listed processors and none leads to the root; when no two edges share a queue id, one leads to every other processor |
| PipeDefs.QueueIdsDiffer | dataloop/upipe/entities/pipe.py:188 | Ids without an arrow give different edges different queue ids |
| PipeDefs.QueueIdsCanCollide | dataloop/upipe/entities/pipe.py:188 | Ids with an arrow can give two edges the same queue id |
| PipeDefs.OneQueueIsLost | dataloop/upipe/entities/pipe.py:188-192 | A declaration without a cycle, both colliding edges behind its root: whatever is mapped, one of the two queues is missing |
| PipeDefs.PipeCanBeDrained | dataloop/upipe/types/pipe.py:66-79 | The pipe made from a declaration without a cycle meets what the drain walk needs |
| PipeDefs.DrainsTheDeclaration | dataloop/upipe/types/pipe.py:66-79 | When no two edges share a queue id, a drain order of that pipe is a drain order of the declared processors |

## Left out

- MemQueues.MemQueue.TakeBody: asks that a header carrying both status and watermark carries a size between 32 and the ring, which `Ring.HeadOfRing` proves of every represented state; slices with other sizes are not described.
- MemQueues.MemQueue.Get: asks the same of memory, for the same reason.
- MemQueues.MemQueue.Make: asks for at most 2^32 bytes; larger memory, whose indices do not fit their four bytes, is not described.
- MemQueues.MemQueue.UpdateDfps: says only that the queue state is untouched; the throughput words themselves are statistics.
- Several producers on one queue: the space check is made before the write lock is taken, so the guarantee does not hold for them; one producer is assumed throughout.
- Consumers.Next: a locked section, of the producer or of a consumer, is one step; a stale consumer that copies while a frame is being stored may see part of it.
- Lock time-outs and the lifetime of named shared memory: a lock is its holder's name and is gone when closed.
- The CRC is any function from bodies to 4-byte words; text, JSON, pickled and array payloads are the bytes their libraries produce, so decoding them never fails here. Custom type handlers are not registered.
- A field's type is the one derived from its value, or any integer type for an integer; forcing another type on a value by hand is not described.
- Queues with a host, which put through the node client; logging; `frame.data` of a field whose library rejects it.
- Workers.Worker.Get: which payloads count as a false execution id is a parameter, because it depends on the JSON inside; the termination hand-off after an empty round is not described.
- `get_sync`, `emit_sync`, the pipe's frame futures, autoscaling, process launching, the HTTP server and the viewer.
- `processor_tree` follows the same children as `drain_list` and would add the same result.
- Declared processors are a map from ids to children instead of objects, so two objects with one id are not described.
