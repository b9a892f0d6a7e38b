# Sizigy, modelled and verified in Dafny

Sizigy is a small MQTT-style message broker in C. This project models four of its parts with the algorithms the C code
uses, and proves what they promise.

- **Hash table** (`Probing`, `Growth`, `HashTable`, `HashTableRuns`, `Crc`, `Mixing`). The open-addressed table with windows of
  eight slots, deletion without tombstones, and the mutual recursion of put and rehash, in which a put made by a rehash
  may rehash again and replace the array being filled. `calloc` may fail; memory holds arrays of up to `limit` slots, and
  the recursion ends because every level doubles the size. A failed nested allocation loses entries, as in the C code:
  the contracts then promise only that no entry is invented. The table takes an arbitrary hash function; the real
  one is treated in `Crc` and `Mixing`.
- **Framing pipeline** (`Bytes`, `Packets`, `Protocol`, `Ring`, `Network`, `Pipeline`, `Reception`). Packing, partial sends, receives
  in any chunks into the byte ring, reassembly and unpacking, as methods over arrays. A sending socket takes any part of
  what it is given; a receiving one delivers its bytes in chunks of given sizes, with waits in between.
- **Broker** (`BrokerModel`, `BrokerHistory`, `BrokerInvariants`, `BrokerSteps`, `BrokerRuns`, `BrokerService`,
  `BrokerFailures`, `BrokerTopics`, `BrokerFrames`, `BrokerNames`, `Sendings`, `Broker`). Any number of clients and workers; a
  step is an accepted connection, the dispatch of a ready client to a worker, one run of its handler up to re-arming, or the
  worker's return. A run is any sequence of such steps. The state is compared with the history of events, and in
  `BrokerFrames` with the bytes of the frames served alone: what they ask for, which of their topics are the same string,
  and what every connection must carry for them. `Broker` holds the handlers as they run, on objects updated in place:
  topics in the hash table with their subscribers in linked lists, packets received through the ring in any chunks and
  unpacked, frames packed into buffers and written to sockets that may take part of them. Each is proved to do what the
  state machine says, and `Broker.Execute` carries the results over to it. There, what a connection has carried is what was
  handed to `sendall`, with a log of how much of each frame went out.
- **Linked structures** (`SubscriberList`, `WaitQueue`). The subscriber list and the FIFO as nodes on the heap.

Where the code does less than its documentation suggests, the code is followed and the exact condition is proved:

- A put after a deletion can leave two entries for one key, and a later deletion brings the older one back:
  `HashTableRuns.PutDelGet`, `HashTableRuns.CollidingKeysLeaveSlotAhead`.
- Topics of 2^16 bytes or more do not survive the wire: `Packets.PublishRoundTrip`.
- A string with a NUL byte inside is cut when it is relayed: `Packets.RelayPreservesMeaning`.
- A ring that holds a packet can still lose bytes of the next: `Network.CapacityIff`. The broker's ring is freed after each
  packet, so a stream survives exactly when its chunk sizes make no call read past its packet: `Reception.ReceiveAll`, with
  chunk sizes that lose a packet in `Reception.PartialHeaderLoses`.
- Keys with one hash can fill no more than one window; nine of them never fit: `HashTable.NinthColliderIsNeverPut`,
  `Mixing.NineCollidersRepeatAChecksum`.
- CONNECT is packed and unpacked in different field orders: `Packets.ConnectRoundTrip`.
- A SUBACK waiting to be sent can point to a retained message that was freed since, or have a pointer that was never
  set: `BrokerRuns.RetainedReachesSubscriber`, with runs that reach both in `BrokerFailures`.
- Some requests leave their client unserved for good, among them UNSUBSCRIBE and DISCONNECT, whose handlers are never
  reached: `BrokerService.ServedAgainIff`, with such a run in `BrokerFailures`.

Verify with `dafny verify dfyconfig.toml` (Dafny 4.11).

## Model

| member | source | states |
|---|---|---|
| `Probing.FirstMatch` | src/hashmap.c:183-191 | the probe sequence a get and a del follow: the first of eight wrapping slots that holds the key, and none before it |
| `Probing.FirstStop` | src/hashmap.c:74-82 | the probe sequence an insertion follows: the first of eight wrapping slots that is free or holds the key, and neither before it |
| `Probing.FoundIffHeld` | src/hashmap.c:178-195 | a get finds a key exactly when some slot holds it, given that every entry is within eight probes of home |
| `Probing.ContentsIsLookup` | src/hashmap.c:178-195 | the abstract map of a table is what gets answer, for every key |
| `Probing.EntryIsFound` | src/hashmap.c:178-195 | with unique keys every stored entry is what a get of its key answers |
| `Probing.PlaceUpdatesMap` | src/hashmap.c:161-167 | writing where the probe stops is a map update on lookups, adds only that key and keeps all entries in their windows |
| `Probing.PlaceKeepsUniqueIff` | src/hashmap.c:74-82 | keys stay unique exactly when the write does not land on a free slot with the key stored further on |
| `Probing.PlaceKeepsTight` | src/hashmap.c:74-82 | without deletions no entry ever has a free slot between home and itself |
| `Probing.TightReachesKey` | src/hashmap.c:74-82 | in such a table an insertion of a stored key always reaches that key |
| `Probing.CountIsCardinality` | src/hashmap.c:164-167 | with unique keys `size` is the number of keys |
| `Probing.SlotOrderIsContents` | src/hashmap.c:108-118 | re-inserting the slots of a unique-key table one by one rebuilds exactly its map |
| `HashTable.PlaceIsPut` | src/hashmap.c:149-172 | a put that needs no growth updates the map seen by gets; exact condition for unique keys; tightness kept |
| `HashTable.RebuildThenPlaceIsPut` | src/hashmap.c:153-167 | a put that had to rehash is the same map update, on the table read in slot order |
| `HashTable.PutOnUniqueKeys` | src/hashmap.c:149-172 | on unique keys a put is `m[k := v]`, rehash or not, and keys stay unique iff no free slot lies ahead of a stored k |
| `HashTable.TightHasNoSlotAhead` | src/hashmap.c:68-85 | tables that never saw a deletion always meet that condition |
| `HashTable.RebuiltNext` | src/hashmap.c:109-118 | one step of the rehash loop: after the nested put the new array holds exactly one more old slot, unique and tight |
| `HashTable.RebuiltTwice` | src/hashmap.c:154-160 | a rehash of a rehashed table still stands for the original array |
| `HashTable.RebuiltKeepsMap` | src/hashmap.c:91-121 | on a unique-key table a rehash keeps map, key set and size |
| `HashTable.DelOnUniqueKeys` | src/hashmap.c:222-246 | on unique keys a del removes exactly its key and keeps keys unique |
| `HashTable.Hashmap.Create` | src/hashmap.c:128-143 | `hashmap_create`: 256 free slots, the empty map; NULL when an allocation fails, which it must when memory holds fewer than 256 slots and cannot when memory is reliable |
| `HashTable.Hashmap.SlotFor` | src/hashmap.c:68-85 | `hashmap_hash`: FULL iff the load cap is reached or the window exhausted, else the slot where the probe stops |
| `HashTable.Hashmap.StartRehash` | src/hashmap.c:95-106 | the array of twice the size replaces the old one, or allocation fails and nothing changes |
| `HashTable.Hashmap.Rehash` | src/hashmap.c:91-121 | terminates; on success the table is the old one rebuilt (nested rehashes included), the array is the one `RehashOf` gives, its size multiplied by a power of two; on failure no entry is invented, and the array is kept unchanged if the first allocation was the one that failed; in reliable memory it fails only when there is no such array; cannot fail when a reachable size within memory spreads the keys |
| `HashTable.Hashmap.Put` | src/hashmap.c:149-172 | terminates; on success exactly the put on the old array, and the array `PutOf` gives; on failure the array is kept unchanged if the first allocation was the one that failed, as it is when twice the size exceeds memory; in reliable memory it fails only when there is no such array; cannot fail when a reachable size within memory spreads the keys |
| `HashTable.MovedNext` | src/hashmap.c:109-118 | the rehash loop follows the recursive definition of the rebuilt array, nested growth included |
| `HashTable.GrownThenPlaced` | src/hashmap.c:153-167 | after any number of rehashes, writing at the stop slot gives the array and the map of the put on the original array |
| `HashTable.PutIsHalfFull` | src/hashmap.c:70-84 | a put leaves at most half of the slots used |
| `HashTable.PutGrowsIff` | src/hashmap.c:70-84 | the array grows iff half of the slots are used or the eight slots from the key's home on hold other keys |
| `HashTable.Hashmap.Get` | src/hashmap.c:178-195 | answers the abstract map's value or none |
| `HashTable.Hashmap.Del` | src/hashmap.c:222-246 | frees exactly the first match, lowers `size`, and reports ERR iff the key was absent |
| `Growth.SpreadIsNeverFull` | src/hashmap.c:70-84 | a table size that gives all keys distinct home slots at under half load never answers FULL |
| `Growth.DistinctHashesSpread` | src/hashmap.c:60 | pairwise distinct hashes below a range are spread by every large enough size |
| `Growth.ScaledIsMultiple` | src/hashmap.c:105 | repeated doubling multiplies the size by a power of two |
| `Growth.NineCollidersNeverFit` | src/hashmap.c:74-84 | nine keys with one hash are held by no table of any size |
| `HashTable.NinthColliderIsNeverPut` | src/hashmap.c:154-160 | so no put of a ninth such key ever succeeds: distinct hashes cannot be dropped altogether from the termination claim |
| `HashTableRuns.DistinctHashesFit` | src/hashmap.c:154-160 | keys with pairwise distinct hashes below a range always fit in memory of twice that range: put and rehash cannot fail there |
| `HashTableRuns.PutDelGet` | src/hashmap.c:149-246 | after put k, del k on unique keys, get k answers NULL iff the put had no free slot ahead of a stored k; otherwise the value from before the put |
| `HashTableRuns.StaleEntrySurvives` | src/hashmap.c:222-246 | in the other case the del uncovers the old entry: the array is back to what it was before the put |
| `HashTableRuns.CollidingKeysLeaveSlotAhead` | src/hashmap.c:234 | put a, put b, del a with a shared home slot reaches such a state |
| `HashTableRuns.Step` | src/server.c:282-287 | one put, get, del or get-or-create answers and changes the table as a plain map |
| `HashTableRuns.Run` | src/hashmap.c:68-246 | every run from creation, with the array before and after each operation, each a function of the one before: keys stay unique in all of them iff no put had a free slot ahead of a stored key, and then all answers and the final contents are those of a plain map; runs without del and runs of get, del and get-or-create always qualify; completes if some size within memory spreads the keys, and in reliable memory stops only where the next array cannot be allocated |
| `HashTableRuns.HistoryIsFixed` | src/hashmap.c:68-246 | the operations fix the arrays a run passes through |
| `HashTableRuns.HalfFull` | src/hashmap.c:68-246 | in every run the table is at most half full after each operation |
| `Crc.TableIsShift8` | src/hashmap.c:327-380 | each of the 256 constants is eight single-bit steps with polynomial 0xEDB88320 on its index |
| `Crc.ShiftXor` | src/hashmap.c:383-392 | the register step is linear |
| `Crc.ByteStepIsShift8` | src/hashmap.c:389 | one table lookup does the work of eight single-bit steps on any 32-bit register |
| `Crc.ByteStepIsBits` | src/hashmap.c:389 | one byte through the table is its eight bits fed low bit first |
| `Crc.CrcIsBitCrc` | src/hashmap.c:383-392 | on every buffer and start value the table form is the bit-at-a-time CRC (section 8 of RFC 1952 without complements) |
| `Crc.Crc32` | src/hashmap.c:383-392 | the loop returns that bitwise CRC started at 0 |
| `Crc.CrcIsLinear` | src/hashmap.c:383-392 | on equal-length buffers the checksum of the xor is the xor of the checksums |
| `Crc.ByteStepInjective` | src/hashmap.c:389 | for a fixed byte different registers step to different registers |
| `Crc.ByteStepSurjective` | src/hashmap.c:389 | and every register is reached |
| `Crc.CrcOfWord` | src/hashmap.c:383-392 | up to four bytes enter the register as one little-endian word |
| `Crc.BurstsAreSeparated` | src/hashmap.c:383-392 | equal-length keys that differ only within four consecutive bytes never have the same checksum |
| `Mixing.FoldInjective` | src/hashmap.c:50-57 | `key ^= key >> k` loses nothing, for every shift and word |
| `Mixing.TimesInjective` | src/hashmap.c:49-60 | `key += key << k` and the product with 2654435761 lose nothing on 64-bit words, because the factors are odd |
| `Mixing.MixInjective` | src/hashmap.c:49-57 | the eight mixing steps together are injective on 64-bit words |
| `Mixing.FoldBits` | src/hashmap.c:50-57 | each bit of `key ^ key >> k` is that bit of the key xor the bit k places above it |
| `Mixing.TimesIsShiftAdd` | src/hashmap.c:49-56 | the product with 2^k + 1 is `key + (key << k)` on 64-bit words |
| `Mixing.MixIsAssignments` | src/hashmap.c:49-57 | words that are related as the eight assignments say, bit by bit for the xors and as sums modulo the word for the others, end in the mixed word |
| `Mixing.AssignmentsExist` | src/hashmap.c:49-57 | and there are such words for every checksum |
| `Mixing.HashInt` | src/hashmap.c:45-62 | `hashmap_hash_int`: the checksum, the eight assignments one after the other, the shift by three and the product leave the hash of the key modulo the table size |
| `Mixing.SameHashIff` | src/hashmap.c:60 | two words have one value before `% table_size` iff their mixed words agree in all but the low three bits |
| `Mixing.AtMostEightShareAHash` | src/hashmap.c:60 | so at most eight words have one value |
| `Mixing.KeysShareAHashIff` | src/hashmap.c:45-62 | two keys have one hash iff the mixed words of their checksums agree after `>> 3`; the mixed words differ iff the checksums do |
| `Mixing.BurstsMixApart` | src/hashmap.c:45-57 | equal-length keys that differ only within four consecutive bytes are mixed into different words |
| `Mixing.NineCollidersRepeatAChecksum` | src/hashmap.c:45-62 | nine keys with one hash, which no table can hold, include two with the same checksum |
| `Ring.RingBuffer.constructor` | src/ringbuf.c:43-65 | an empty ring over the given buffer |
| `Ring.RingBuffer.Size` | src/ringbuf.c:92-107 | the number of bytes held; `full` holds exactly at capacity |
| `Ring.RingBuffer.IsEmpty` | src/ringbuf.c:80-83 | true exactly when no byte is held, although head = tail also when full |
| `Ring.RingBuffer.ContentsAt` | src/ringbuf.c:92-107 | the i-th byte held sits i places after tail modulo the capacity |
| `Ring.RingBuffer.Push` | src/ringbuf.c:130-142 | appends the byte, or answers -1 and changes nothing exactly when full |
| `Ring.RingBuffer.BulkPush` | src/ringbuf.c:145-153 | appends exactly the longest prefix that fits; -1 iff some byte did not |
| `Ring.RingBuffer.Pop` | src/ringbuf.c:156-169 | removes and returns the oldest byte, or answers -1 exactly when empty |
| `Bytes.ReadBack` | src/protocol.c:74-85 | reading a stored big-endian field gives the value modulo what the field holds |
| `Bytes.WriteBack` | src/protocol.c:111-120 | a field's bytes are determined by the number it denotes |
| `Bytes.SameStringIff` | src/hashmap.c:78 | `strcmp`, byte by byte up to the NUL, finds two strings equal iff what is visible of them is equal |
| `Bytes.VisibleIs` | src/protocol.c:129-133 | what is visible of a string is the one prefix without NUL that ends at its end or before a NUL |
| `Packets.PublishLayout` | src/protocol.c:420-434 | where each field of a packed PUBLISH lies, whatever padding follows |
| `Packets.ConnectIsRead` | src/protocol.c:167-186 | for every id, clean_session, keepalive, size and padding: the bytes in the reader's order, length of the id, clean_session, keepalive, id, are read as exactly those fields |
| `Packets.SubscribeIsRead` | src/protocol.c:189-207 | the same for SUBSCRIBE, for every topic, NUL bytes included |
| `Packets.UnsubscribeIsRead` | src/protocol.c:210-225 | the same for UNSUBSCRIBE |
| `Packets.PublishIsRead` | src/protocol.c:228-250 | the same for PUBLISH |
| `Packets.AckIsRead` | src/protocol.c:253-270 | the same for acknowledgements |
| `Packets.PublishRoundTrip` | src/protocol.c:228-361 | for all strings, unpacking a packed PUBLISH gives back the packet iff both are NUL-free and shorter than their length fields can say (2^16 and 2^32); its size field is right iff the frame is shorter than 2^32 |
| `Packets.SubscribeRoundTrip` | src/protocol.c:189-405 | the same for SUBSCRIBE, with two padding bytes, for all topics |
| `Packets.UnsubscribeRoundTrip` | src/protocol.c:210-417 | the same for UNSUBSCRIBE, with one padding byte, for all topics |
| `Packets.AckRoundTrip` | src/protocol.c:253-446 | acknowledgements round trip with no padding |
| `Packets.ConnectRoundTrip` | src/protocol.c:167-392 | CONNECT is written and read in different field orders: for all ids it round trips iff the id is the one byte clean_session, or everything is empty or zero |
| `Packets.RelayIsExact` | src/server.c:917-924 | re-packing an unpacked PUBLISH never overruns a buffer of the received size and reproduces the frame up to its padding iff both strings are NUL-free |
| `Packets.RelayPreservesMeaning` | src/server.c:917-924 | a subscriber unpacks from the relayed frame the broker's packet with both strings cut at their first NUL byte, padding notwithstanding; that is the publisher's packet iff they have none |
| `Protocol.Buffer.WriteUint64` | src/network.c:296-305 | eight stores put the big-endian digits at the position and nothing else changes |
| `Protocol.Buffer.ReadUint64` | src/network.c:308-317 | the number the eight bytes denote |
| `Protocol.Buffer.WriteString` | src/protocol.c:129-133 | copies up to the first NUL |
| `Protocol.PackPublish` | src/protocol.c:420-434 | writes exactly the frame bytes at the position, in bounds, and nothing else |
| `Protocol.PackSubscribe` | src/protocol.c:395-405 | likewise for SUBSCRIBE |
| `Protocol.PackAck` | src/protocol.c:437-446 | likewise for acknowledgements |
| `Protocol.UnpackConnect` | src/protocol.c:167-186 | reads the fields of a frame whose lengths fit, in the order the unpacker does |
| `Protocol.UnpackPublish` | src/protocol.c:228-250 | reads the fields of a frame whose lengths fit in it |
| `Protocol.UnpackSubscribe` | src/protocol.c:189-207 | likewise for SUBSCRIBE |
| `Protocol.UnpackAck` | src/protocol.c:253-270 | likewise for acknowledgements |
| `Network.SendAll` | src/network.c:186-205 | for any partial sends, exactly `buf[..sent]` goes on the wire in order and 0 is returned iff that is all |
| `Network.RecvBytes` | src/network.c:237-260 | moves exactly the bytes that the chunk sizes give it within the requested size, of which the ring keeps what fits |
| `Network.FillHeader` | src/server.c:98-112 | takes what the chunk sizes give it until a header is there: nothing, or five to nine bytes, of which the ring keeps what fits |
| `Network.FillPayload` | src/server.c:124-132 | takes what the chunk sizes give it until the payload is there, asking for all of it again each time; the ring keeps what fits |
| `Network.CapacityIff` | src/server.c:98-132 | no stream and no chunking of it makes the ring drop a byte iff it holds max(9, 2P-1) bytes for a payload of P |
| `Network.RecvPacket` | src/server.c:96-152 | for every chunking the packet is the first frame of the stream and the opcode its first byte; exactly when NULL, which has consumed nothing; packet, residue and rest are the stream iff neither loop overfilled the ring |
| `Network.NothingLost` | src/server.c:124-147 | so no byte is lost when the ring holds max(9, 2P-1) bytes |
| `Pipeline.Transport` | src/server.c:96-152 | a frame arrives iff the sends completed and the first receive finds something, as the same bytes, whatever the chunking and whatever follows it |
| `Pipeline.PublishEndToEnd` | src/protocol.c:337-434 | build, pack, send, receive, unpack: a PUBLISH arrives iff sends complete and the first receive finds something, and equals the one built iff its strings are NUL-free and its topic is shorter than 2^16 bytes |
| `Pipeline.SubscribeEndToEnd` | src/protocol.c:296-405 | the same for SUBSCRIBE |
| `Pipeline.AckEndToEnd` | src/protocol.c:364-446 | the same for acknowledgements, whose id arrives iff it fits 16 bits |
| `Pipeline.RelayEndToEnd` | src/server.c:917-949 | unpack, re-pack, send, receive, unpack: the subscriber gets the publisher's packet iff its strings are NUL-free |
| `Reception.FramesAreAll` | src/server.c:96-152 | the frames of a stream of whole frames are all of its bytes |
| `Reception.FramesIffExact` | src/server.c:96-152 | the frames of a stream are what the calls return iff the header and payload loops of each, on the chunk sizes left to it, take no byte beyond its frame; then nothing is left |
| `Reception.TakenExactly` | src/server.c:98-132 | a call whose receives find all they ask for takes exactly its packet |
| `Reception.EmptyPlanIsExact` | src/server.c:98-132 | so every stream survives when no receive finds less than it asks for |
| `Reception.PartialHeaderLoses` | src/server.c:98-132 | but of any two acknowledgements that come as four bytes, a wait and five bytes, not both are received |
| `Reception.ReceptionCanLose` | src/server.c:98-132 | such frames exist |
| `Reception.ReceiveAll` | src/server.c:373-413 | calls of `recv_packet`, each with a ring of its own that is freed afterwards: for every stream and chunking the packets and what is left are those of `Reassembled`, and on whole frames the packets are the frames, all and in order, iff the stream and the chunk sizes are `Exact` |
| `Sendings.SumIsFull` | src/server.c:931-944 | the bytes sent add up to the frame size times the subscribers iff every send was complete |
| `Sendings.StreamIsCutIntoFrames` | src/network.c:186-205 | when every send on a connection was complete, its bytes are whole frames, and they are those that were packed |
| `Sendings.ReceiveConnection` | src/server.c:96-152 | and calls of `recv_packet` at the other end return exactly those frames iff the bytes of the connection and the chunk sizes in which they come are `Exact` |
| `SubscriberList.RemoveFirstEntries` | src/sizigy.c:94-127 | removal takes the newest entry of its client and no other |
| `SubscriberList.RemoveNode` | src/list.c:127-139 | on any NULL-terminated chain, the result is the chain without the first node of the client |
| `SubscriberList.List.HeadInsert` | src/list.c:86-102 | puts the entry first; the empty-list branch runs on a truly empty chain only |
| `SubscriberList.List.Remove` | src/sizigy.c:120-127 | removes the first entry of the client and leaves `len` and `tail` |
| `SubscriberList.RunIsStacks` | src/sizigy.c:112-127 | after any additions and removals each client's entries are its own stack, and the list is newest first |
| `SubscriberList.Run` | src/list.c:86-139 | every run on the heap gives that list; `len` counts insertions and bounds its length |
| `WaitQueue.Queue.Enqueue` | src/queue.c:63-87 | appends; rear is the last node iff front is non-null |
| `WaitQueue.Queue.TryDequeue` | src/queue.c:91-111 | takes the oldest item, or waits exactly when the queue is empty |
| `WaitQueue.ReplayConserves` | src/queue.c:63-111 | what was dequeued followed by what is queued is what was enqueued |
| `WaitQueue.Run` | src/queue.c:63-111 | every interleaving of the heap queue dequeues and leaves what `Replay` says: an attempt takes the oldest item, or nothing exactly when the queue is empty; `len` is the difference |
| `BrokerHistory.DeliverIsCopies` | src/server.c:931-944 | the loop over subscribers gives each client one copy per subscription, in list order, and changes nothing else of it |
| `BrokerHistory.CopiesForSub` | src/server.c:931-944 | a publish reaches each subscription to its topic exactly once |
| `BrokerHistory.CopiesForClient` | src/server.c:931-944 | and a client as often as it has subscriptions to the topic |
| `BrokerHistory.DueIsWhatFollows` | src/server.c:931-944 | what a subscription is due is the publishes on its topic that come after it |
| `BrokerSteps.ReplySetKeeps` | src/server.c:173-192 | setting a reply while none is pending keeps state and history in agreement |
| `BrokerSteps.RequestHandlerKeeps` | src/server.c:373-454 | `request_handler` keeps the invariant on every packet or none |
| `BrokerSteps.PublishDoneKeeps` | src/server.c:468-501 | executing a publish keeps it: deliveries, retention and freed messages included |
| `BrokerSteps.ReplyHandlerKeeps` | src/server.c:459-538 | `reply_handler` keeps it for every pending reply |
| `BrokerSteps.AckReplyAnswers` | src/server.c:502-530 | what is sent for a pending acknowledgement whose pointer may be used is the answer to the client's last request, the retained message as of the SUBSCRIBE included |
| `BrokerSteps.UsableUnlessDoomed` | src/server.c:173-184 | a pending acknowledgement's pointer is bad iff the history says so: a retaining publish since the SUBSCRIBE that found a message, or a SUBSCRIBE without topic whose reply's memory held a pointer |
| `BrokerRuns.NextKeeps` | src/server.c:646-698 | every worker step keeps the world invariant |
| `BrokerRuns.NoStrayDelivery` | src/server.c:931-944 | nothing is relayed on behalf of a subscription that is not that client's |
| `BrokerRuns.HandlersNeverOverlap` | src/network.c:276-286 | in every interleaving no two workers are in handlers of one client before it is re-armed |
| `BrokerRuns.NoReplyIsOverwritten` | src/server.c:173-183 | in every interleaving a request handler finds no reply pending |
| `BrokerRuns.EachReplyIsSentOnce` | src/server.c:459-538 | in every interleaving replies set and replies sent alternate for each client |
| `BrokerRuns.RetainedIsLast` | src/server.c:906-914 | in every interleaving a topic's retained message carries its last executed publish with retain set, if any |
| `BrokerRuns.SubscribeAttachesRetained` | src/server.c:280-292 | in every interleaving a SUBSCRIBE attaches that message to its SUBACK, if any |
| `BrokerRuns.RetainedReachesSubscriber` | src/server.c:502-522 | in every interleaving a reply step uses a bad pointer iff it answers a SUBSCRIBE whose retained message was replaced since, or a SUBSCRIBE without topic whose reply's memory held a pointer; otherwise the answer to a SUBSCRIBE is SUBACK and then the message retained at the SUBSCRIBE with retain 1 and dup 0 |
| `BrokerRuns.RunIsPackable` | src/server.c:922-924 | in every interleaving pending publishes fit the buffer of the size in their header, and retained messages can be packed |
| `BrokerFrames.KeysTellApart` | src/server.c:282-287 | two topics are looked up under one name iff `strcmp` finds them equal |
| `BrokerFrames.BuiltPublishIsServed` | src/protocol.c:337-434 | every PUBLISH that is built and packed within the field and ring sizes is a frame of the broker's runs, with its topic and packet |
| `BrokerFrames.BuiltSubscribeIsServed` | src/protocol.c:296-405 | the same for SUBSCRIBE |
| `BrokerFrames.PendingIsOfFrame` | src/server.c:207-300 | in every run, for every readable frame served next and whatever memory its reply gets: a PUBLISH with topic leaves exactly its packet pending and recorded; CONNECT leaves CONNACK with 0 iff it has an id and 1 otherwise, SUBSCRIBE SUBACK with 0 iff it has a topic and 1 otherwise, PINGREQ PINGRESP 0; no other frame leaves a reply |
| `BrokerFrames.RunIsTraced` | src/server.c:373-538 | in every interleaving the history is the one read off the frames served, and every pending reply is that of its frame |
| `BrokerFrames.PublishesAreExecutedInOrder` | src/server.c:236-254 | in every interleaving the packets of a client's PUBLISH frames are executed as sent, in that order, at most one still waiting |
| `BrokerFrames.SubscriberGetsPublishes` | src/server.c:917-949 | in every interleaving what is sent on behalf of a SUBSCRIBE frame is every publish executed after it was served whose topic is the same string, each once and in order, and no publish on another topic |
| `BrokerFrames.CopiesPerSubscription` | src/server.c:931-944 | in every interleaving a connection carries each publish as often as its client had sent SUBSCRIBE frames by then whose topic is the same string |
| `BrokerFrames.ConnectionIsOfFrames` | src/server.c:459-538 | in every interleaving that used no bad pointer, the whole connection of a client is, frame by frame and in order, what the frames served make due: copies, PUBACKs of its own qos 1 publishes, one answer per other request with the return code of its frame, a SUBSCRIBE's followed by what was retained on the same topic then |
| `BrokerFrames.BadPointerIff` | src/server.c:502-522 | in every interleaving a reply step uses a bad pointer iff it answers a SUBSCRIBE frame whose topic had a retained message that a publish on the same topic replaced since, or one without topic whose reply's memory held a pointer |
| `BrokerNames.FramesName` | src/server.c:207-233 | in every interleaving a CONNECT with id leaves its client in the name table under its name and no other, a name it gave up out of it, and the rest as it was; with clean_session 1 the name is the id; no other frame changes a name |
| `BrokerNames.NamesAreRight` | src/server.c:216-225 | in every interleaving each entry of the name table is a client that goes by that name |
| `BrokerService.SilentForever` | src/server.c:659-688 | a client that is neither registered nor being handled stays so |
| `BrokerService.UnknownOpcodeSilences` | src/server.c:348-415 | a request silences its client at once iff its opcode is not unpacked; UNSUBSCRIBE and DISCONNECT are not |
| `BrokerService.ReplyAfterRequest` | src/server.c:236-300 | after a request that was unpacked no reply is pending iff it is a PUBLISH without topic, a SUBACK or a PUBACK; the pending one cannot be sent iff it is a SUBACK without topic whose memory held a pointer |
| `BrokerService.UnsendableSilences` | src/server.c:459-534 | a reply step silences its client iff no reply is pending or its pointer is bad |
| `BrokerService.AbandonedForever` | src/server.c:459-463 | a client with a reply handler and nothing to send, or a pointer never set, is left so by every continuation |
| `BrokerService.ServedAgainIff` | src/server.c:373-454 | in every interleaving, for every packet: some continuation serves a request of the client again iff there was no packet, or its opcode is unpacked, it is not a PUBLISH without topic, SUBACK or PUBACK, and not a SUBSCRIBE without topic whose reply's memory held a pointer |
| `BrokerTopics.RunKeepsNames` | src/server.c:236-254 | in every interleaving the topic of a pending publish is one that a frame named |
| `BrokerFailures.ReplacingFails` | src/server.c:906-914 | for every retained PUBLISH and SUBSCRIBE of its topic: publish, subscribe, publish again, then the SUBACK uses the freed message |
| `BrokerFailures.MisdirectedFails` | src/server.c:276-278 | for every SUBSCRIBE without topic: when the memory of its reply held a pointer, the SUBACK uses it |
| `BrokerFailures.UnsubscribeSilences` | src/server.c:405-415 | for every UNSUBSCRIBE: accepted, dispatched and received, its client is silent |
| `BrokerFailures.BrokerCanFail` | src/server.c:459-538 | frames exist for all three, so runs that fail and runs that lose a client exist |
| `Broker.SizigyDB.Accept` | src/server.c:542-599 | a new client waits for a request with no reply pending |
| `Broker.Client.Transmit` | src/network.c:186-205 | the socket grows by exactly the part of the packed frame that went out; 0 iff all of it |
| `Broker.SizigyDB.SetAckReply` | src/server.c:173-192 | the pending reply is replaced, its pointer is what the memory held; nothing else changes |
| `Broker.SizigyDB.ConnectHandler` | src/server.c:207-233 | the in-place handler renames, updates the table and answers as the state machine does, whose CONNACK and names are read off the frame in `BrokerFrames.PendingIsOfFrame` and `BrokerNames.FramesName` |
| `Broker.SizigyDB.FindTopic` | src/server.c:283 | the table's answer is the topic of that name, or none exactly when there is none |
| `Broker.SizigyDB.TopicNamed` | src/server.c:282-287 | get-or-create of a topic through the hash table: what the state machine does when the topic is found or the put succeeds, which in reliable memory is exactly when memory holds the array that the put gives, and so for names that some size within memory spreads |
| `Broker.SizigyDB.AddSubscriber` | src/sizigy.c:112-127 | insertion at the head of the linked list of the topic that the table finds: the newest subscription comes first, every other topic keeps its list |
| `Broker.SizigyDB.SubscribeHandler` | src/server.c:269-300 | the in-place handler does what the state machine's does, unless the topic cannot be stored, which cannot happen in enough memory |
| `Broker.Receive` | src/server.c:96-152 | the packet received into a ring of its own is the next frame, and NULL exactly when the model has none |
| `Broker.UnpackPacket` | src/server.c:348-370 | the unpackers, chosen by opcode, read what the state machine takes the packet to say |
| `Broker.SizigyDB.RequestHandler` | src/server.c:373-454 | receiving, unpacking and executing in place does what the state machine does on the frame, and answers -1 iff the opcode is not unpacked, unless a topic cannot be stored, which cannot happen in enough memory |
| `Broker.SizigyDB.RetainMessage` | src/server.c:906-914 | frees the previous message and keeps the new one |
| `Broker.SizigyDB.SendCopies` | src/server.c:931-944 | the walk over the linked list of subscribers: every client's log grows by one sending of the frame per subscription of its own, in list order, and the total is the sum of what each call got out |
| `Broker.SizigyDB.PublishMessage` | src/server.c:917-949 | delivers what the state machine says, as one packed frame, for any partial sends; the total is the sum of the bytes sent, and is the frame size times the subscribers iff every send returned 0 |
| `Broker.SizigyDB.ReplyHandler` | src/server.c:459-538 | the in-place handler does what the state machine's does, and answers -1 iff a frame for its own client did not go out completely, unless a topic cannot be stored, which cannot happen in enough memory |
| `Broker.Execute` | src/server.c:646-698 | every schedule of the in-place broker, however the bytes of its requests are chunked and whatever its sockets take, is a run of the state machine as long as the hash table stores the topics, so the results on runs hold of it; it stores them all in reliable memory with a size that spreads the names in the frames; each connection was handed the frames that the frames served make due, until a bad pointer is used; its socket carries what went out of them, and where all did, the frames can be cut out of it again |

## Left out

- Sockets, epoll and thread calls, listening, signals, logging, random names and time are I/O; what remains of them is
  the send and receive oracle and a registration flag per client.
- The key hash takes `unsigned long` to have 64 bits.
- The mutex of the hash table: each operation is sequential. Taken literally, the recursive put locks it twice.
- 32-bit slot indices (`hashmap_hash_int` returns `unsigned int`, probes use `int`): the model uses unbounded indices, so
  it speaks of tables of at most 2^31 slots.
- Which checksums differ: apart from keys that differ within four bytes, nothing is said of collisions of the CRC itself.
- `hashmap_iterate2` and the keepalive scan: the scan's callback answers ERR for a live client, which stops the iteration
  at the first one, so it has no property of its own to state.
- Network.RecvPacket: receive errors and a closed connection before the frame is complete are excluded, because the
  `n < 0` tests on an unsigned `n` never hold; length fields below 5 are excluded, because `tlen - HEADLEN` is unsigned;
  the ring must hold at least 9 bytes and the payload (the broker's holds 2 MiB), because the header loop may buffer 9.
- Bytes read past a packet, in the broker's runs: each request is received from its own bytes and whatever follows them, and
  what is read of the following bytes is gone; that such a loss makes the next frame start elsewhere is the subject of
  `Reception.ReceiveAll`.
- Frames whose length fields exceed the frame: the unpackers read past the buffer, so runs consist of readable frames.
  Payloads over 2 MiB: `recv_packet` never returns them, because the ring never holds one.
- Interleaving inside a handler: handlers are atomic up to re-arming.
- Network.RecvBytes: the results for a receive error and a closed connection are not modelled.
- Broker.SizigyDB.PublishMessage: the total is unbounded, while `publish_message` adds it up in an `int`; its caller only
  compares it with -1.
- A pointer that was never set: using it ends the run, whatever the bits are. That they may happen to be the address of a
  live message is not told apart.
- Broker.Execute: it stops when a topic cannot be stored. The code goes on there: SUBSCRIBE follows a null pointer, PUBLISH
  sends to the subscribers of a topic that later lookups miss, and a put that fails in the middle of a rehash loses other
  topics; the state machine has no step for that. The table of topics is `HashTable.Hashmap` with an arbitrary hash, and its
  values are the places of the topics in the order of their creation, which stand for the pointers. The table of client
  names is a map; CONNECT changes it by a deletion and a plain put, so the real one is such a map only under the condition of
  `HashTableRuns.Run`. Nothing but the keepalive scan reads it.
- QoS 2, peers and the bus, `ack_waiting`, per-topic message queues in the server, the throttler, atomics: unused or not
  implemented.
- `list_tail_insert`, `list_attach` and `list_release` after removals: `tail` and `len` are not maintained by
  `list_remove_node`.
- Ownership of strings and keys (malloc and free), except for retained messages.
- `src/sizigypub.c` and `src/sizigysub.c` use an older request interface that is not part of this model.
