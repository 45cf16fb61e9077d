# raknet-rs in Dafny

A model of the reliability protocol of raknet-rs, with proofs: the encoder that splits and numbers messages, the
sender that queues, packs, transmits and resends them, the codecs, a network that loses, repeats and reorders
datagrams at will, the receiving route, and the decoder that deduplicates, reassembles and orders. Around it stand the
goodbye at the end of a connection, the server's offline handshake and its router. `dafny verify dfyconfig.toml`
checks everything.

The layers that update fields in place are classes. Each class method is proved against a function on values (what the
stream still has to yield, the history of the sender, the handshakes of a server), and the theorems are about those
functions, over every input, every run or every reachable state.

## Main results

- **End-to-end ordered safety** (`System.OrderedDelivery`): in every state reachable from a fresh connection, the
  bodies delivered on a channel are a prefix of the ordered data accepted for it, byte for byte, whatever the network
  did and whatever the decoder evicted or rejected.
- **Close means received, and when it means delivered** (`Endpoint.Endpoint.Close`, `System.CompletedClose`,
  `System.CloseMeansDelivered`): when a close completes, every frame of every reliable message accepted before was
  received by the peer's open route. Each of these messages was delivered once if the decoder remembers all of it and
  of all before it on its channel, and else never; with room in the decoder's cache that is every message if and only
  if none is over a limit. What the reliable layer does is a run of the system whose transmissions are on the wire
  (`System.LayerRefinesSystem`).
- **When a close can complete** (`Drain.FlushedFinishesIff`, `Endpoint.Endpoint.Flush`, `Drain.DataDrains`,
  `Drain.DrainsIff`, `Drain.OneSetDrainsIff`): however the frames were packed, once nothing is queued the network and
  the peer's own reports can drain the sender without a further transmission if and only if every recorded frame has a
  body; a flush of messages with data always ends there. Further exact conditions are proved for sets packed at will
  and for a queue that fits one set.
- **Goodbye comes last** (`Outgoing.OutgoingManager.GoodbyeLast`, `Lifecycle.GoodbyeComesLast`): in every reachable
  state of the outgoing manager over such an endpoint, either the peer's stream yields all that was delivered, or the
  goodbye was handed down after completed closes, and the stream yields all that was delivered by any of them before it
  ends.
- **Exactly once** (`Delivery.ExactlyOnce`): an if and only if for each reliable message and every arrival of frames,
  whatever is refused or evicted. The right-hand side is a reference for the decoder's memory on message ids and frame
  indices alone (`Retention.RememberAll`), which the cache of heaps refines (`Retention.RunSetExact`).
- **Conservation** (`Sender.RunConserves`): over every interleaving, accepted frames are queued, recorded,
  acknowledged or sent in all-unreliable sets, as multisets.
- **Refinements**: the sliding bit window is a set (`Dedup.DuplicateWindow.Duplicate`), the packed words are a
  sequence of booleans (`BitQueue.BitVecQueue`), the ordering layer yields up to the least missing index
  (`Ordering.LeastMissing`), the gap bookkeeping is sound over every run (`Link.RunSound`).
- **Codecs**: round trips as if and only ifs (`Codec.FrameSetRoundTrip`, `Ack.AckRoundTrip`, `Packet.RoundTrip`),
  lossless compression within the MTU (`Ack.ExtendFrom`), a flush that ends and never exceeds the MTU
  (`Reliable.ReliableLayer.TryEmpty`).
- **Server**: handshake safety and completion over histories (`Handshake.HandshakeSafety`,
  `Handshake.HandshakeCompletes`), and a router whose close events always name a routed connection
  (`Server.Incoming.DrainEvents`).
- **Timeout estimator**: bounds and convergence with an explicit number of samples (`Estimator.Converges`, after
  section 2 of RFC 6298).

## Where the code differs from what one would expect

The model follows the code; each point is a lemma or a clause.

- A frame without a body is written but cannot be read, and takes its whole frame set with it
  (`Codec.EmptyBodyPoisons`); a transmission that was ever acknowledged has bodies in all its frames
  (`System.ConfirmedHaveBodies`). So a reliable message without data keeps a close from ever completing. An *unreliable*
  message without data can do so too: waiting frames that fit one set are always packed together
  (`Buffer.ServedWhole`), so an empty unreliable message and a reliable one with data, accepted before one flush, are
  resent together for ever (`Drain.EmptyCompanionBlocks`). From a state with nothing recorded and a queue that fits one
  set and holds a reliable frame, a close can complete if and only if every queued frame has a body
  (`Drain.OneSetDrainsIff`); it always can when every accepted message has data (`Drain.DataDrains`); and if sets could
  be packed at will, it could if and only if every reliable message has data (`Drain.DrainsIff`).
- Nothing bounds how many numbers an acknowledgement may stand for, but readers reject more than 16384. What was
  compressed is readable exactly when it stands for at most that many (`Ack.CompressedReadable`); every longer run of
  consecutive numbers is compressed into one unreadable range (`Ack.LongRunRejected`, `Ack.CompressLongRun`).
- The timeout settles up to 7 ns below the round trip plus 1 ms, and 7 ns below is a fixed point of the floor division
  (`Estimator.SevenBelowIsStable`).
- A skipped timeout scan can leave an expired entry that was recorded since the last scan, but never one that was
  present at it, and never for longer than 3 s after it (`Resend.ResendMap.ProcessStales`, with an input in
  `Resend.LateEntry`).
- A message whose first byte is 0x15 is taken for the goodbye and ends the receiving stream. A stream yields all its
  bodies exactly when none of them starts with that byte (`Lifecycle.YieldsAll`, and `Lifecycle.LookalikeEndsStream`
  for one such body).
- `front` of a logically empty bit queue still answers when a word is stored, but never with `true`
  (`BitQueue.BitVecQueue.Front`).
- A message handed to `start_send` of the outgoing state manager is passed on in every state, unlike an internal frame
  body (`Outgoing.OutgoingManager.StartSendMessage`).
- A frame of a message with more parts than the decoder takes is refused, with an error that surfaces before the
  frames of its set that were already complete, and the rest of its set is dropped (`Defragment.RunSetCut`,
  `Defragment.DeFragment.PollNext`). The dropped frames were already noted by deduplication and their set is
  acknowledged, so later copies count as duplicates: they are never delivered (`Losses.DroppedForGood`), the rest of
  an ordered channel waits for them for ever (`Delivery.ExactlyOnce`), and a close completes all the same. An ordinary
  input: a message of one part too many, and a small one packed behind its last part (`Losses.OversizeCostsNeighbour`).
- The cache of partial messages evicts the one used least recently. Its parts were noted, so they are lost for good in
  the same way (`Delivery.ForgottenForGood`): after the first parts of one more split message than the cache holds, the
  first of these messages is never delivered (`Losses.EvictionLoses`). When everything arrived and the cache had room,
  all reliable messages are delivered if and only if none is over a limit (`Delivery.AllDelivered`); a cache with room
  for every split message always has room (`Reassembly.RoomyWhenFew`).

## How things are modelled

- 24-bit counters are checked in the source and panic at 2^24; preconditions keep runs below that limit. The 16-bit
  parted id wraps, and the claims are for at most 65536 split messages in a connection.
- Bodies must stay below 8191 bytes, as the writer asserts, so the system is proved for an MTU of at most 8197.
- 128-bit words are naturals with explicit bits.
- Time is a number passed in. The socket's readiness is a budget of polls or a list of answers.
- A heap is a sequence from which any least element may be taken (the send buffer), or a sorted sequence where the
  source reads it in order (parts of a message, outgoing acknowledgements). A cache is its contents and a list of keys
  from least to most recently used. The order in which a hash map is walked is left open.
- The encoder hands the frames of a message down at once, with one reading of the clock for all of them.
- A panic of the source on malformed input, such as an acknowledgement shorter than its count or a range that runs
  backwards, is the error `Overflow`. For backward ranges this is what a debug build does; the subtraction is unchecked
  in a release build.
- The history of the outgoing manager is a log of what it handed down, of completed closes below it, and of all that
  happened below it and at the peer; its steps are a run of the system.
- The receiving connection may be dropped at any moment: the state machine has a step for it.

## Model

| member | source | states |
|---|---|---|
| `BitQueue.WithBitAt` | src/utils/bit_queue.rs:51-62 | Writing one bit of a word changes that bit and no other. |
| `BitQueue.StoreUpdate` | src/utils/bit_queue.rs:51-62 | Overwriting a slot of the packed store changes exactly that physical bit. |
| `BitQueue.StoreGrow` | src/utils/bit_queue.rs:64-78 | A fresh word adds one bit and leaves all bits above it zero. |
| `BitQueue.BitVecQueue.Get` | src/utils/bit_queue.rs:42-48 | Reads the sequence of booleans at the index, or nothing beyond its end. |
| `BitQueue.BitVecQueue.Set` | src/utils/bit_queue.rs:51-62 | The sequence changes at that index only; out of range nothing changes. |
| `BitQueue.BitVecQueue.PushBack` | src/utils/bit_queue.rs:64-78 | The sequence grows by one at its end, whether or not a word must be added. |
| `BitQueue.BitVecQueue.Front` | src/utils/bit_queue.rs:80-85 | The first boolean; a logically empty queue never answers `true`; there is no answer exactly when no word is stored. |
| `BitQueue.BitVecQueue.PopFront` | src/utils/bit_queue.rs:87-98 | The sequence loses its first element, whether or not a word is dropped; empty stays empty. |
| `BitQueue.BitVecQueue.Clear` | src/utils/bit_queue.rs:101-105 | The empty sequence, from any state. |
| `Dedup.WindowSpans` | src/codec/decoder/dedup.rs:23-52 | The window starts at the least number never passed and ends at the greatest one passed. |
| `Dedup.MarkingPassed` | src/codec/decoder/dedup.rs:36-45 | Marking a place, growing the window if needed, adds exactly that number to the set. |
| `Dedup.DuplicateWindow.Duplicate` | src/codec/decoder/dedup.rs:25-51 | True exactly when the number was passed before; the set grows by it; the window spans the set. |
| `Dedup.DuplicateWindow.MarkReceived` | src/codec/decoder/dedup.rs:36-45 | The window becomes the one with this place marked. |
| `Dedup.DuplicateWindow.Advance` | src/codec/decoder/dedup.rs:46-49 | Dropping the received prefix keeps the set of passed numbers and restores the window's shape. |
| `Dedup.Dedup.Retain` | src/codec/decoder/dedup.rs:99-105 | The frames kept are those a set of numbers would keep, and the window ends as that set. |
| `Dedup.Dedup.PollNext` | src/codec/decoder/dedup.rs:88-111 | Each poll takes the next non-empty set off what the layer as a whole yields; nothing is lost when it waits. |
| `Reassembly.KeepIsFresh` | src/codec/decoder/dedup.rs:99-105 | Deduplication passes a selection of the frames without repeated or known indices that still carries every index. |
| `Defragment.CacheStaysBounded` | src/codec/decoder/fragment.rs:130-147 | The cache never holds more parted ids than its capacity, each listed once. |
| `Defragment.RunSetCut` | src/codec/decoder/fragment.rs:114-129 | A set fails exactly when one of its frames is refused, and leaves what the frames before that one leave. |
| `Defragment.DeFragment.MergeParts` | src/codec/decoder/fragment.rs:144-157 | The loop builds the merged frame of a complete heap. |
| `Defragment.DeFragment.ProcessFrame` | src/codec/decoder/fragment.rs:106-168 | One frame: rejected, held, passed or merged, with the cache that results. |
| `Defragment.DeFragment.ProcessSet` | src/codec/decoder/fragment.rs:106-168 | The frames of one set in turn; an error leaves the rest of the set unread. |
| `Defragment.DeFragment.Refill` | src/codec/decoder/fragment.rs:95-168 | Taking a set off the input changes nothing of what the layer still has to yield, but for an error that surfaces now. |
| `Defragment.DeFragment.PollNext` | src/codec/decoder/fragment.rs:87-171 | Each poll takes the next item off what the layer as a whole yields; the end is reached only with buffer and input empty. |
| `Reassembly.FullHeap` | src/codec/decoder/fragment.rs:138-157 | As many distinct parts as a message has are all of its parts, in order. |
| `Reassembly.MergeFull` | src/codec/decoder/fragment.rs:144-157 | Merging a full heap gives back the message: body, reliability and order index. |
| `Reassembly.StepSafe` | src/codec/decoder/fragment.rs:106-168 | Whatever the limits do, a frame of the sender's history completes only the whole message it belongs to. |
| `Reassembly.RunSetSafe` | src/codec/decoder/fragment.rs:106-168 | The same for a whole deduplicated set, even one cut short by an error. |
| `Reassembly.StepExact` | src/codec/decoder/fragment.rs:106-168 | With room in the cache nothing is evicted, and a message comes out exactly when its last missing frame, not refused, goes in. |
| `Retention.EvictedExact` | src/codec/decoder/fragment.rs:130-133 | Evicting the oldest entry leaves a cache that holds exactly the remembered parts of the messages still live. |
| `Retention.StepRemembers` | src/codec/decoder/fragment.rs:106-168 | A fresh frame that is not refused, evicting or not: its message comes out exactly when all of it is remembered, and the cache is again what is remembered, in order of use. |
| `Retention.DoneKept` | src/codec/decoder/fragment.rs:130-133 | An eviction forgets no finished message. |
| `Retention.RunSetExact` | src/codec/decoder/fragment.rs:106-168 | Any deduplicated set, whatever it evicts: it fails exactly when a frame is refused, and yields each message once, when all of it is remembered. |
| `Retention.RoomyRemembers` | src/codec/decoder/fragment.rs:130-133 | While no more messages are partly noted than the cache holds, nothing is forgotten. |
| `Reassembly.RoomyWhenFew` | src/codec/decoder/fragment.rs:130-133 | A cache with room for every split message never evicts, whatever arrives. |
| `Reassembly.ExpectedDistinct` | src/codec/encoder/fragment.rs:105-170 | Different reliable messages are delivered as different frames. |
| `Ordering.DrainKeeps` | src/codec/decoder/ordered.rs:77-88 | Reading a channel forgets no index: what waited is read or still waits. |
| `Ordering.FiledStep` | src/codec/decoder/ordered.rs:104-126 | A frame filed on one channel yields what that channel can now read and touches no other channel. |
| `Ordering.StepIndices` | src/codec/decoder/ordered.rs:73-131 | One item yields consecutive indices of a channel, and exactly its own index becomes known. |
| `Ordering.RunIndices` | src/codec/decoder/ordered.rs:73-131 | The same for any sequence of items. |
| `Ordering.LeastMissing` | src/codec/decoder/ordered.rs:73-131 | From empty channels, a channel yields 0, 1, 2, ... without gap or repeat, up to the least index not received. |
| `Ordering.Order.PopReady` | src/codec/decoder/ordered.rs:77-88 | Pops the frame that comes next when all channels are emptied in turn; none only when no channel can be read. |
| `Ordering.Order.Accept` | src/codec/decoder/ordered.rs:104-129 | Files, skips, rejects or passes one item, in agreement with the layer as a whole. |
| `Ordering.Order.Refill` | src/codec/decoder/ordered.rs:90-129 | Taking an item off the input changes nothing of what the layer still has to yield, but for what is yielded now. |
| `Ordering.Order.PollNext` | src/codec/decoder/ordered.rs:73-131 | Each poll takes the next item off what the layer as a whole yields; it waits only with every channel at a gap. |
| `Encoder.Upgraded` | src/codec/encoder/fragment.rs:95-100 | A reliable counterpart that keeps ordering and sequencing; reliable ones stay as they are. |
| `Encoder.UpgradeIffSplit` | src/codec/encoder/fragment.rs:90-122 | A message is split exactly when it is too large as sent, then it is reliable, and otherwise its reliability is unchanged. |
| `Encoder.ChunksConcat` | src/codec/encoder/fragment.rs:140-166 | The parts of a body, put together again, are the body. |
| `Encoder.ChunkCount` | src/codec/encoder/fragment.rs:141-142 | The rounded-up quotient the header announces is the number of parts. |
| `Encoder.FramesFit` | src/codec/encoder/fragment.rs:90-166 | Every frame of a message fits a frame set of the MTU, and carries data if the message does. |
| `Encoder.Fragmenter.PushFrame` | src/codec/encoder/fragment.rs:105-165 | One frame with its indices: the reliable one is used up, the order one is shared by the parts. |
| `Encoder.Fragmenter.StartSend` | src/codec/encoder/fragment.rs:77-178 | The whole send: upgraded reliability, the frames handed down, and all three counters afterwards. |
| `Encoder.Fragmenter.SplitBody` | src/codec/encoder/fragment.rs:146-166 | The splitting loop hands down one frame for each part, numbered in order. |
| `Book.EntryWell` | src/codec/encoder/fragment.rs:77-178 | The history entry of a message is well formed and takes exactly the next indices. |
| `Book.SendAgrees` | src/codec/encoder/fragment.rs:77-178 | Sending keeps the history well formed: no reliable index or parted id is used twice, order indices count the channel's messages, and the counters stand just past it. |
| `Book.OrderedAt` | src/codec/encoder/fragment.rs:113-170 | The order index of a message is its position among the data of its channel. |
| `Book.OrderedUnique` | src/codec/encoder/fragment.rs:113-170 | Later messages of a channel have larger order indices. |
| `Book.OrderedOwner` | src/codec/encoder/fragment.rs:113-170 | Every order index below the count of a channel belongs to one of its messages. |
| `Delivery.LayersCompose` | src/codec/mod.rs:81-88 | The three layers, each run on the output of the one before, yield what the composed pipeline yields. |
| `Delivery.DeliveredGrows` | src/codec/mod.rs:81-88 | What was delivered stays delivered; later arrivals only add to it. |
| `Delivery.FrontSafe` | src/codec/mod.rs:81-88 | Only whole messages leave deduplication and defragmentation, whatever was lost, repeated, reordered or evicted. |
| `Delivery.FrontExact` | src/codec/mod.rs:81-88 | Whatever arrives, is refused or evicted: each reliable message leaves these layers once if all of it comes to be remembered, and otherwise not; an error surfaces exactly when a frame was refused. |
| `Delivery.RoomyGathers` | src/codec/decoder/fragment.rs:130-133 | With room for all that reaches reassembly, what is remembered is what reached it. |
| `Delivery.ForgottenForGood` | src/codec/decoder/dedup.rs:99-105 | An index that was noted and is not remembered never will be, whatever arrives later. |
| `Delivery.PassingAll` | src/codec/decoder/fragment.rs:106-168 | When nothing is refused, every index that arrived reached reassembly. |
| `Delivery.FitsNothingRefused` | src/codec/decoder/fragment.rs:114-129 | Frames of messages within the part limit are never refused. |
| `Delivery.LostForGood` | src/codec/decoder/dedup.rs:99-105 | An index that was noted and did not reach reassembly never does, whatever arrives later. |
| `Delivery.DrainSafe` | src/codec/decoder/ordered.rs:77-88 | Emptying a channel yields the frames owed for consecutive indices. |
| `Delivery.OrderStepSafe` | src/codec/decoder/ordered.rs:73-131 | One whole message keeps every channel safe, and each delivers the data between its old and its new position. |
| `Delivery.OrderRunSafe` | src/codec/decoder/ordered.rs:73-131 | The same for any sequence of whole messages. |
| `Delivery.OrderRunCount` | src/codec/decoder/ordered.rs:73-131 | An ordered message leaves the layer exactly when its index is read, or never if the layer lacks its channel; an unordered one and an error pass through. |
| `Delivery.ReadUpToGap` | src/codec/decoder/ordered.rs:73-131 | A message's index is read exactly when it and all earlier messages of its channel are complete. |
| `Delivery.OrderedSafety` | src/codec/mod.rs:81-88 | For any arrival of sent frames, the bodies delivered on a channel are a prefix of the data sent on it. |
| `Delivery.ExactlyOnce` | src/codec/mod.rs:81-88 | For every arrival, a reliable message is delivered once if all of it and of all earlier ones of its channel, which the decoder has, is remembered, and never otherwise. |
| `Delivery.OversizeNeverDone` | src/codec/decoder/fragment.rs:122-129 | No message of too many parts ever completes. |
| `Delivery.AllDelivered` | src/codec/mod.rs:81-88 | When every reliable frame arrived, exactly the messages remembered with all before them are delivered, once each; with room in the cache that is every reliable message if and only if none has too many parts or a channel the decoder lacks. |
| `Delivery.DeliveredWhole` | src/codec/mod.rs:81-88 | Whatever is delivered is a whole message that was sent. |
| `Losses.NotGotNotDelivered` | src/codec/mod.rs:81-88 | What never reached reassembly is never delivered, with or without room in the cache. |
| `Losses.DroppedForGood` | src/codec/decoder/fragment.rs:114-129 | A reliable frame that arrived and was dropped behind a refused one is never delivered, whatever arrives later. |
| `Losses.OversizeCostsNeighbour` | src/codec/decoder/fragment.rs:122-129 | A run with a message of one part too many and a small one behind its last part, after which no run ever delivers the small one and some run still drains the sender. |
| `Losses.EvictionLoses` | src/codec/decoder/fragment.rs:130-133 | After the first parts of one more split message than the cache holds, the first of them is never delivered, whatever arrives later. |
| `Codec.FrameSize` | src/packet/connected/frame_set.rs:155-189 | The written length of a frame is the size the packing budgets with. |
| `Codec.FramesSize` | src/packet/connected/frame_set.rs:47-52 | The written length of a set's frames is the sum of their sizes. |
| `Codec.FrameRoundTrip` | src/packet/connected/frame_set.rs:112-177 | A well-formed frame reads back as itself, whatever bytes follow it. |
| `Codec.EmptyBodyPoisons` | src/packet/connected/frame_set.rs:30-43 | One frame without a body makes its whole set unreadable. |
| `Codec.ReadFramesWellFormed` | src/packet/connected/frame_set.rs:112-150 | Whatever bytes are read, the frames that come out are well formed. |
| `Codec.FrameSetRoundTrip` | src/packet/connected/frame_set.rs:29-53 | A written set reads back as itself exactly when it has frames and all of them are well formed. |
| `Codec.WriteFrameSet` | src/packet/connected/frame_set.rs:47-52 | The loop writes the number and the frames in order. |
| `Codec.ReadFrameSet` | src/packet/connected/frame_set.rs:30-43 | The loop reads frames until the buffer is empty, with the reader's errors. |
| `Ack.ExtendFrom` | src/packet/connected/ack.rs:40-89 | The records stand for exactly the numbers taken, repeats included; they fit the MTU; at least one is taken; runs are maximal; numbers are left only when no record fits. |
| `Ack.CompressSome` | src/packet/connected/ack.rs:40-89 | Every stream of numbers has such a compression. |
| `Ack.RecordRoundTrip` | src/packet/connected/ack.rs:135-160 | A record reads back as itself, whatever bytes follow it. |
| `Ack.AckRoundTrip` | src/packet/connected/ack.rs:91-117 | An acknowledgement reads back as itself exactly when its record count fits 16 bits, its ranges are ordered, and it stands for at most 16384 numbers. |
| `Ack.AckSameOrErr` | src/packet/connected/ack.rs:91-117 | It never reads back as another one. |
| `Ack.TotalIsCount` | src/packet/connected/ack.rs:119-121 | The total of the records is the number of numbers they stand for. |
| `Ack.CompressedReadable` | src/packet/connected/ack.rs:91-106 | What was compressed under an MTU encodes within it, and is readable exactly when it stands for at most 16384 numbers. |
| `Ack.OneRun` | src/packet/connected/ack.rs:57-85 | Maximal records for consecutive numbers are one record. |
| `Ack.LongRunRejected` | src/packet/connected/ack.rs:40-106 | Whatever compression yields for more than 16384 consecutive numbers, under any MTU of 14 or more, is one range with all of them, which no peer reads. |
| `Ack.CompressLongRun` | src/packet/connected/ack.rs:40-89 | Compressing 16385 consecutive numbers under an MTU of 1500 gives that unreadable range. |
| `Ack.WriteAck` | src/packet/connected/ack.rs:108-117 | The loop writes the count and the records in order. |
| `Ack.ReadAck` | src/packet/connected/ack.rs:91-106 | The loop reads as many records as announced, with the reader's errors. |
| `Packet.RoundTrip` | src/packet/mod.rs:151-181 | A connected packet reads back as itself exactly when its content does. |
| `Packet.ReportSameOrErr` | src/packet/connected/mod.rs:32-62 | A report reads back as itself or not at all. |
| `Packet.FramesSameOrErr` | src/packet/connected/mod.rs:43-68 | A set whose frames may lack bodies reads back as itself, with all bodies, or not at all. |
| `Types.Flags.New` | src/packet/connected/frame_set.rs:204-235 | Flags made for a reliability parse back to themselves. |
| `Link.StepSound` | src/link.rs:136-249 | Every arrival and report keeps the gap bookkeeping sound. |
| `Link.RunSound` | src/link.rs:157-249 | Over every run: the next number is highest received + 1; every number below is received, pending or reported; pending ones were not received; each is reported at most once; acknowledgements owed and sent are the arrivals. |
| `Link.TransferLink.IncomingAck` | src/link.rs:80-107 | The buffer keeps the newest entries; a full one loses its oldest. |
| `Link.TransferLink.IncomingNack` | src/link.rs:109-118 | The same for negative acknowledgements. |
| `Link.TransferLink.ProcessOutgoingAck` | src/link.rs:136-155 | One packet takes the smallest pending numbers, at least one and as many as fit, within the MTU; nothing pending is lost. |
| `Link.TransferLink.ProcessOutgoingNack` | src/link.rs:157-176 | The same for negative acknowledgements. |
| `Link.TransferLink.OpenGaps` | src/link.rs:245-247 | The gap loop makes exactly the numbers of the span pending. |
| `Link.Route.Track` | src/link.rs:235-252 | A frame set that arrives takes the step of the bookkeeping, and is queued for the decoder. |
| `Link.Route.Deliver` | src/link.rs:230-257 | Frame sets are tracked, reports are buffered, and a dropped connection changes nothing. |
| `Link.Route.SendAcks` | src/link.rs:136-155 | A packet of acknowledgements is an enabled step of the route's bookkeeping, which stays sound. |
| `Link.Route.SendNacks` | src/link.rs:157-176 | The same for negative acknowledgements. |
| `Estimator.SamplesBounded` | src/estimator.rs:66-80 | The smoothed time stays within the samples since a reset, the variance below the greatest. |
| `Estimator.SettledStays` | src/estimator.rs:66-80 | A settled estimate stays settled under further equal samples. |
| `Estimator.Converges` | src/estimator.rs:49-80 | Under a constant round trip r, from any estimate, the timeout is within [r + 1 ms - 7 ns, r + 1 ms] after an explicit number of samples, for good. |
| `Estimator.SettlesWithin` | src/estimator.rs:66-80 | The number of samples that suffice, in terms of the distance to r and the variance. |
| `Estimator.SevenBelowIsStable` | src/estimator.rs:74-75 | 7 ns below the sample is a fixed point. |
| `Estimator.RttEstimator.Update` | src/estimator.rs:66-80 | The fields become those of the updated estimate. |
| `Estimator.RttEstimator.Clear` | src/estimator.rs:62-64 | The fields become those of the cleared estimate. |
| `Sender.RunConserves` | src/reliable.rs:67-624 | Over every interleaving of sends, transmissions, acknowledgements, losses and timeouts: accepted frames equal queued + recorded + acknowledged + sent in all-unreliable sets, the last without reliable frames, and every number is used once. |
| `Sender.RunHeld` | src/reliable.rs:67-624 | Over every run that accepts nothing, the frames queued or recorded never become more. |
| `Sender.DrainedMeansConfirmed` | src/reliable.rs:388-413 | With nothing queued or recorded, every reliable frame was in a transmission whose number was acknowledged. |
| `Buffer.PopFitting` | src/reliable.rs:87-117 | A heap gives frames of least penalty while they fit; the frames it gave and kept, with their penalties, are those it held. |
| `Buffer.Backoff` | src/reliable.rs:75-81 | The penalty at least doubles until it saturates at 255. |
| `Buffer.ServedFacts` | src/reliable.rs:83-160 | Serving the tiers loses nothing, stays within the room, and gives an empty set only when no next frame fits. |
| `Buffer.ServedWhole` | src/reliable.rs:83-160 | When all that waits fits the room, all of it is packed into the one set. |
| `Buffer.NeverBlocked` | src/reliable.rs:83-160 | When every frame fits a set by itself, only an empty buffer gives an empty set. |
| `Buffer.PenaltyFits` | src/reliable.rs:152-159 | The mean penalty of a set fits a byte. |
| `Buffer.SendBuffer.Send` | src/reliable.rs:67-73 | The frame joins the tier of its priority, and the contents grow by it. |
| `Buffer.SendBuffer.Resend` | src/reliable.rs:75-81 | The frames join the resend tier with backed-off penalties. |
| `Buffer.SendBuffer.PopMedium` | src/reliable.rs:119-131 | The middle tier gives frames first in, first out, while they fit. |
| `Buffer.SendBuffer.Pack` | src/reliable.rs:83-160 | The tiers are served resend, high, medium, low, each until its next frame does not fit. |
| `Buffer.SendBuffer.Pop` | src/reliable.rs:83-160 | The packed set, whether any of its frames is reliable, and its penalty. |
| `Resend.AckIsConfirm` | src/reliable.rs:466-518 | Acknowledging numbers in the map is confirming them in the sender's history. |
| `Resend.LoseIsRequeue` | src/reliable.rs:520-560 | Giving numbers up is requeueing their frames in the sender's history. |
| `Resend.InflightAdd` | src/reliable.rs:446-464 | Recording a set raises the sum of recorded frames by its size. |
| `Resend.InflightRemove` | src/reliable.rs:617-624 | Removing a set lowers the sum by its size. |
| `Resend.ResendMap.Record` | src/reliable.rs:446-464 | The entry with its expiry (penalty stretch at most 30 s); `inflight` stays the sum of recorded frames. |
| `Resend.ResendMap.OnAck` | src/reliable.rs:466-518 | Exactly the acknowledged entries leave the map, each sampling the round trip, in order. |
| `Resend.ResendMap.OnNackInto` | src/reliable.rs:520-560 | Exactly the reported entries leave the map, their frames joining the resend tier. |
| `Resend.ResendMap.ProcessStales` | src/reliable.rs:563-610 | A call leaves an expired entry if and only if the scan is skipped and there is one; it is then one recorded since the last scan, and the call comes less than 3 s after it; a skipped scan changes nothing. |
| `Resend.ResendMap.Retain` | src/reliable.rs:575-591 | The walk collects exactly the expired entries and finds the next expiry, in whatever order. |
| `Resend.LateEntry` | src/reliable.rs:563-573 | A sequence of records, scans and an acknowledgement after which a call that comes before the next scan is due leaves an entry that has expired. |
| `Reliable.FrameSetFits` | src/reliable.rs:83-160 | A set packed within the budget encodes within the MTU. |
| `Reliable.AcksFit` | src/link.rs:136-176 | A report compressed within the budget encodes within the MTU. |
| `Reliable.ReliableLayer.StartSend` | src/reliable.rs:374-379 | The sender's history accepts the frame. |
| `Reliable.ReliableLayer.TakeAck` | src/reliable.rs:213-215 | A batch of acknowledgements confirms exactly its numbers in the history. |
| `Reliable.ReliableLayer.TakeNack` | src/reliable.rs:216-218 | A batch of negative ones only requeues. |
| `Reliable.ReliableLayer.TakeStales` | src/reliable.rs:219-219 | Timeouts only requeue, and leave the map fresh. |
| `Reliable.ReliableLayer.ProcessInflight` | src/reliable.rs:211-220 | All buffered reports are taken in; sets are only confirmed, on acknowledged numbers, or queued again; no expired entry is left but what the scan allows. |
| `Reliable.ReliableLayer.NextSet` | src/reliable.rs:294-310 | The frames of the next set leave the buffer, fit the MTU, are all that waits when that fits one set, and are none only when the buffer is empty. |
| `Reliable.ReliableLayer.Transmitted` | src/reliable.rs:330-343 | The set is a transmission under a fresh number, kept when it holds a reliable frame. |
| `Reliable.ReliableLayer.FlushFrames` | src/reliable.rs:294-344 | A non-empty buffer sends one set, within the MTU and on record, and shrinks. |
| `Reliable.ReliableLayer.CheckFlushed` | src/opts.rs:169-181 | Flushed exactly when no work is left in the enabled queues. |
| `Reliable.ReliableLayer.FlushAck` | src/reliable.rs:237-253 | Pending acknowledgements shrink by exactly what the packet sent stands for. |
| `Reliable.ReliableLayer.FlushNack` | src/reliable.rs:255-271 | The same for negative acknowledgements. |
| `Reliable.ReliableLayer.FlushRound` | src/reliable.rs:236-345 | A round that the socket lets finish does some of the work, whatever the strategy. |
| `Reliable.ReliableLayer.FlushRounds` | src/reliable.rs:236-345 | The loop ends for every strategy, with nothing left to flush unless the socket took fewer packets than four per item of work. |
| `Reliable.ReliableLayer.TryEmpty` | src/reliable.rs:223-355 | The loop ends; it fails to flush only if the socket took fewer packets than four per item of work; every packet sent is within the MTU; the history took a run of sender actions that uses no more numbers than frames were queued or recorded. |
| `Reliable.ReliableLayer.CloseTurn` | src/reliable.rs:392-408 | A turn is done with nothing recorded, goes round again only for an expired entry recorded since the last scan, less than 3 s after it, and otherwise waits for the socket or for an acknowledgement. |
| `Reliable.ReliableLayer.PollClose` | src/reliable.rs:388-413 | A completed close leaves nothing recorded, and nothing in the queues its strategy flushes, by a run of packed sender actions that confirms only acknowledged numbers; it stays pending only when the socket is not ready or a recorded set is unacknowledged. |
| `System.SendInv` | src/codec/encoder/fragment.rs:77-178 | Accepting a message keeps the system invariant. |
| `System.TransmitInv` | src/reliable.rs:330-343 | So does transmitting queued frames under a fresh number. |
| `System.ReceiveInv` | src/link.rs:230-257 | So does any datagram ever sent, arriving any number of times in any order. |
| `System.ReportInv` | src/link.rs:136-176 | So does any report of pending numbers. |
| `System.HearInv` | src/link.rs:80-118 | So does any report ever sent reaching the sender. |
| `System.MoveInv` | src/reliable.rs:466-610 | So do confirming a heard number, giving a set up, and dropping the receiver. |
| `System.RunInv` | src/reliable.rs:207-413 | The invariant holds in every reachable state. |
| `System.OrderedDelivery` | src/codec/mod.rs:81-88 | In every reachable state the bodies delivered on a channel are a prefix of the ordered data accepted for it. |
| `System.CloseMeansReceived` | src/reliable.rs:388-413 | In every reachable drained state every frame of every reliable message arrived at the open route, and every such message has data. |
| `System.CloseMeansDelivered` | src/reliable.rs:388-413 | In every reachable drained state, exactly the reliable messages the decoder remembers with all before them on their channel were delivered, once each; with room in its cache, all of them if and only if none is over a limit. |
| `System.ActionIsStep` | src/reliable.rs:207-355 | Every action the reliable layer logs is an enabled step of the system with the same effect. |
| `System.LayerRefinesSystem` | src/reliable.rs:207-413 | What a flush or a close logs, confirming no more than was heard, is a run of the system with packed transmissions that ends with the layer's own history; nothing leaves the wire. |
| `System.CompletedClose` | src/reliable.rs:388-413 | From every reachable state, a layer that ends with nothing queued or recorded took a run after which every frame of every reliable message has arrived, and every set ever sent is on the wire. |
| `System.ConfirmedHaveBodies` | src/packet/connected/frame_set.rs:117-119 | In every reachable state, an acknowledged transmission holds only frames with bodies. |
| `Drain.SettleOne` | src/reliable.rs:466-518 | From every reachable open state in which the peer owes no report, the network and the peer's report can get one recorded set with bodies acknowledged, changing nothing else of the sender. |
| `Drain.ReportAll` | src/link.rs:136-155 | From every reachable state, packets of acknowledgements as the peer compresses them leave nothing owed. |
| `Drain.FlushedFinishesIff` | src/reliable.rs:388-413 | From every reachable open state with nothing queued, however the sets were packed: the network, the peer's reports and taking them in can drain the sender if and only if every recorded frame has a body. |
| `Drain.DataFinishes` | src/reliable.rs:388-413 | They can when every accepted message has data. |
| `Drain.DataDrains` | src/reliable.rs:388-413 | When every accepted message has data, some run of transmissions within the MTU, of all that waits whenever that fits one set, drains the sender, from every reachable open state with numbers to spare. |
| `Drain.DrainsIff` | src/reliable.rs:388-413 | With sets packed at will, some run drains the sender if and only if every reliable message has data. |
| `Drain.OneSetDrainsIff` | src/reliable.rs:83-160 | With nothing recorded and a queue that fits one set and holds a reliable frame, some run drains the sender if and only if every queued frame has a body. |
| `Drain.RunTogether` | src/reliable.rs:520-586 | A reliable frame and an empty one that fit one set stay together over every run without new messages. |
| `Drain.EmptyCompanionBlocks` | src/codec/encoder/fragment.rs:122-137 | An empty unreliable message and a reliable one with data: no run without new messages delivers anything or drains the sender. |
| `Endpoint.TiedLayer` | src/reliable.rs:207-413 | What the layer did extends the system's run; every frame set it handed to the socket is on the wire. |
| `Endpoint.AcceptedAside` | src/reliable.rs:364-379 | Confirming and queueing again do not depend on frames accepted meanwhile. |
| `Endpoint.Endpoint.PollReady` | src/reliable.rs:364-372 | Being ready extends the run by confirmed and requeued sets only. |
| `Endpoint.Endpoint.PollEmpty` | src/codec/encoder/fragment.rs:53-63 | All buffered frames are handed to the layer below, in order; what it takes in before each of them comes, in the history, to taking in all of it first. |
| `Endpoint.Endpoint.Send` | src/codec/encoder/fragment.rs:77-178 | A send is the system's step for that message, after the confirmed and requeued sets that were taken in meanwhile. |
| `Endpoint.Endpoint.Hear` | src/link.rs:253-254 | A report that reaches the sender is the system's step; the numbers buffered were all heard. |
| `Endpoint.Endpoint.Flush` | src/reliable.rs:381-384 | A flush extends the run by steps of the layer, and accepts and delivers nothing; after a completed one of messages with data, the network and the peer alone can drain the sender. |
| `Endpoint.Endpoint.Close` | src/reliable.rs:388-413 | When a close under a strategy that flushes packets completes, the system is drained and every frame of every reliable message has arrived at the open route. |
| `Outgoing.OutgoingManager.PollReady` | src/state.rs:123-131 | Refused once the goodbye was handed down; otherwise it disturbs neither the goodbye nor the record of completed closes. |
| `Outgoing.OutgoingManager.StartSendBody` | src/state.rs:133-141 | Frame bodies are handed down only before the goodbye. |
| `Outgoing.OutgoingManager.StartSendMessage` | src/state.rs:199-202 | Messages are handed down in every state, and the order of the goodbye is kept all the same. |
| `Outgoing.OutgoingManager.PollFlush` | src/state.rs:143-146 | A flush is allowed in every state, and disturbs neither the goodbye nor the record of completed closes. |
| `Outgoing.OutgoingManager.WaitBelow` | src/state.rs:161-178 | A wait is over only when the layers below are drained; otherwise the state stays. |
| `Outgoing.OutgoingManager.SayGoodbye` | src/state.rs:166-173 | The goodbye is handed down when the socket is ready, and only then does the state change. |
| `Outgoing.OutgoingManager.Advance` | src/state.rs:157-179 | One turn does the next thing a close still has to do, or waits in the same state. |
| `Outgoing.OutgoingManager.PollClose` | src/state.rs:148-186 | Goodbyes and completed closes so far plus those still to come never change; the guard is dropped once, at the end; a willing socket leaves only waiting for the clock, the budget or an acknowledgement. |
| `Outgoing.OutgoingManager.GoodbyeLast` | src/state.rs:156-185 | For every reachable manager whose users send nothing like a goodbye: the peer's stream yields all that was delivered, or a goodbye followed completed closes and the stream yields first what was delivered by any of them. |
| `Lifecycle.OthersKeep` | src/state.rs:133-202 | Nothing but the close itself disturbs where the goodbye stands. |
| `Lifecycle.IncomingManager.PollNext` | src/state.rs:219-237 | The stream yields the bodies before the first goodbye and has ended for good afterwards. |
| `Lifecycle.YieldsAll` | src/state.rs:219-237 | The stream yields everything exactly when nothing in it looks like a goodbye. |
| `Lifecycle.ArrivedGrows` | src/link.rs:230-257 | What arrived stays arrived along every run. |
| `Lifecycle.DrainedComesFirst` | src/state.rs:219-237 | What was delivered when the sender was drained is yielded before the stream ends, whatever comes later. |
| `Lifecycle.GoodbyeComesLast` | src/state.rs:156-185 | For every log of the outgoing manager: without a goodbye among the delivered bodies the stream yields all; otherwise the goodbye stands once in the log, and for each completed close before it all reliable messages had arrived, everything delivered by then is yielded first, and which of them were delivered is accounted for exactly. |
| `Lifecycle.CloseOnDrop.Drop` | src/state.rs:49-55 | A guard queues its close event once. |
| `Handshake.Clamp` | src/server/handler/offline.rs:232-233 | The answered MTU is within the limits, and unchanged if it was. |
| `Handshake.ApplySound` | src/server/handler/offline.rs:93-289 | Every packet and every disconnection keeps the handshakes sound. |
| `Handshake.HandshakeSafety` | src/server/handler/offline.rs:129-291 | Over every history: at most `max_pending` half-open addresses, each with an open supported request 1; a peer is connected only after such a request and a request 2 with its MTU, in range, and its guid, and no disconnection since. |
| `Handshake.HandshakeCompletes` | src/server/handler/offline.rs:200-279 | A supported request 1 is answered with an MTU in range; a later request 2 with an MTU in range is granted and connects the peer, whatever others do, as long as fewer than `max_pending` first requests came in between. |
| `Server.OfflineHandler.Disconnect` | src/server/handler/offline.rs:93-97 | The address leaves both maps, and nothing else does. |
| `Server.OfflineHandler.Send` | src/server/handler/offline.rs:132-154 | The reply in hand is sent, still in hand, or refused by the socket; none is lost track of. |
| `Server.OfflineHandler.Take` | src/server/handler/offline.rs:172-289 | One packet changes the maps, yields and answers as the handshake says. |
| `Server.OfflineHandler.PollNext` | src/server/handler/offline.rs:129-291 | What is yielded depends on the packets alone, whatever happens to replies; no packet is lost or read twice; who is connected stays so; every reply called for is sent or in hand unless the socket failed; a willing socket makes it wait for packets only. |
| `Server.RoutesByAddress` | src/server/incoming/mod.rs:234-248 | Routing neither mixes peers up nor loses, repeats or reorders a packet. |
| `Server.Draining` | src/server/incoming/mod.rs:225-232 | A queued close event names a routed connection and is the last one due for it. |
| `Server.Incoming.DropGuard` | src/state.rs:43-55 | Dropping a connection's guard queues its one close event and keeps guards and events in balance with the router. |
| `Server.Incoming.PollClose` | src/state.rs:179-183 | A connection's own close keeps that balance, and queues its close event when it completes. |
| `Server.Incoming.DrainEvents` | src/server/incoming/mod.rs:225-232 | Every event names a routed connection, so the expectation never fails; exactly those leave the router and the connected map. |
| `Server.Incoming.RouteOne` | src/server/incoming/mod.rs:234-257 | A packet goes to its connection, or opens one with a guard if there is none. |
| `Server.Incoming.Accept` | src/server/incoming/mod.rs:234-278 | Packets of known peers are routed in order until one comes from a peer without a connection: that one is new. |
| `Server.Incoming.PollNext` | src/server/incoming/mod.rs:221-279 | A new connection has an admitted peer, a live guard of its own, and no other live connection at its address. |
| `Streams.ComposeRuns` | src/codec/mod.rs:81-88 | Stacking two stream layers is running the second on the output of the first. |

## Left out

- Sequenced reliabilities: unfinished in the source, which never writes the sequence index its reader expects.
- The raw flag byte of a reassembled frame: modelled, but nothing is claimed about it.
- Sockets, timers, wakers, tracing and logging: no effect on results; the reactor's sleep is the clock passed to a close.
- Congestion control and `xdp`: not wired into the sender.
- The fields and codec of unconnected packets: fixed layouts with easy round trips.
- Decoding of frame bodies other than the goodbye, and the online handshake on both sides: simple transitions; which bodies can be read is a parameter, so the claims hold for any such decoder.
- The client side of the offline handshake: it has no state that spans connections.
- Concurrency of the link's queues: each operation is one step of a state machine.
- Reliable.ReliableLayer.PollClose: reports that come in while one poll is running are taken in by the next poll.
- Outgoing.OutgoingManager.PollClose: requires a strategy that flushes packets, as the source asserts in debug builds; in a release build any other strategy lets a close complete with frames still queued.
- Ack.AckRoundTrip: in a release build a backward range is counted with a wrapped subtraction, so one that ends just below its start counts nothing and is read; the model rejects it, as a debug build does.
- Drain.DataDrains: its sets are within what the buffer may pack, not exactly what its tiers give; `Drain.FlushedFinishesIff` holds for whatever was packed.
- Drain.OneSetDrainsIff: is exact for a queue that fits one set; for larger queues with empty frames, which sets they end up in depends on ties between penalties, and only the sufficient and the necessary condition are stated.
- Internal frame bodies queued on the link: they enter below the manager in the source, and through it here.
- Link.TransferLink.ProcessOutgoingAck: requires an MTU of at least 7, below which the source's budget underflows.
- Delivery.OrderedSafety: is about frames of the sender's own history; frames forged by a third party are not modelled.
- Handshake.HandshakeCompletes: the number of first requests in between is sufficient, not necessary; repeated requests of one address count each time.
- Server.Incoming.Accept: what a route does with a packet handed to it is `Link.Route.Deliver`, and the router only records the hand-over.
