# Verification of an instant-messaging server

A Dafny 4.11 model of the parts of the server that have a simple specification and a hard implementation, with
proofs that they meet it. `dafny verify dfyconfig.toml` checks everything.

* **Message log** (`pkg/okstore`). Specification: an append-only list of messages numbered 1, 2, 3, ...
  `Record` and `LogFile` give the bytes of one record and of a file of them, `SegmentIndex` the memory-mapped sparse
  index, `Recovery` what the start-up checks conclude from a file left by a crash, `Segment` one file with its index,
  `Topic` the segments of one list, `Crash` crashes during an append, `FileStore` the range loads, `Stream` the file
  of a message stream and `ServerMessage` the body of a record; `DiskFormat` has all their bytes in numbers.
* **Key lock** (`pkg/keylock`). `KeyLock` is a machine of atomic steps with any number of threads and keys and `Clean`
  at any moment, beside the code that runs under the table's mutex.
* **Retry queue** (`internal/server`). `Heap`, `InFlightPqueue` and `RetryQueue` are the binary heap with back
  pointers and the map as code; `RetryProtocol` interleaves the critical sections of deliveries, acks and timer scans,
  and `RetryRefinement` proves that the code takes a state of that machine to a successor.
* **Wire protocol** (`pkg/proto`, `internal/server/dispatch.go`, `pkg/client`). `Codec` is the byte encoder and decoder,
  `Packets` the nine bodies as values, `PacketCoders` the same bodies written and read field by field, `Protocol` whole
  frames, `WireFormat` their bytes in numbers, `Refusals` what is no frame, `Dispatch` the read path of the server and
  the cut of the client, `Reassembly` the theorems about streams.
* **Buffers and connections** (`pkg/ring`, `pkg/oknet`). `PowerOfTwo` and `RingBuffer` refine a byte queue,
  `Connection` joins two of them to a socket.

`Wrappers`, `Bytes` and `Chunks` hold what the others share.

Every operation that changes state in place is a method proved against a function of the old state; the theorems are
lemmas about those functions. Machine integers appear where their width matters: 32-bit numbers and positions, signed
16-bit string lengths, wrap-around of message numbers. The byte order is big-endian throughout. The length prefix has
the form of section 2.2.3 of MQTT 3.1.1, except that zero has no bytes.

## Where the code does not do what it promises

Each is stated exactly, as an equivalence or with an input that shows it.

* A torn record that happens to end in the byte 3 can survive start-up: the simple check does not cut the file
  (`Recovery.SanityCheckRecovers`, `Crashes.TornCanBeKept`). What is appended next goes behind it, and its number
  leads to the torn record (`Crashes.ReadOfTheNew`, `Crashes.AppendAndRead`).
* A topic restarted on nothing but a torn record answers reads with an error until the first append
  (`Topics.Topic.ReadMessages`).
* A completely full index table loses its last entry on reopening (`SegmentIndex.ReopenRecovers`).
* `CeilToPowerOfTwo` is exact up to 2^32 and only then in general (`PowersOfTwo.CeilIsPower`); it is always large
  enough.
* `WriteByte` on a full ring buffer of 4096 bytes or more panics (`RingBuffers.Buffer.WriteByte`).
* Strings longer than 32767 bytes can be sent and not be read (`Codec.StringRoundTrip`).
* The two `decodeLength` functions disagree when four digits all ask for another (`Reassembly.SizesAgree`,
  `Reassembly.SizesCanDiffer`).
* The recorded size of a decoded frame counts all the bytes that were there (`Protocol.RecordedSizeIsExact`).
* An ack handled between a message's registration and its push clears another message out of the heap, which nothing
  resends any more, or panics on an empty one: `RetryProtocol.ClearsItsOwnMessage` is the exact condition,
  `RetryProtocol.EarlyAckLosesAnother` a run.
* A range load with a limit of 2^32 or more takes its low 32 bits for where to start
  (`FileStore.LoadPrevRangeMsgs`).
* The frames of a batch in front of one that does not decode are queued and never processed
  (`Reassembly.DataInStops`).

## Model

| member | source | states |
|---|---|---|
| `Record.DecodeEncode` | pkg/okstore/message.go:17-63 | decoding what was encoded gives back the number and the body, for every number below 2^32 and body below 4 GiB |
| `Record.ReadersAtRecord` | pkg/okstore/const.go:69-168 | on a record at any position of any file, the probe, the decoder and the number reader all see that record and its exact length |
| `Record.TornRecordIsEndOfFile` | pkg/okstore/const.go:69-108 | a proper prefix of a record at the end of a file is reported as end of file, wherever it was cut |
| `Record.EncodeMessage` | pkg/okstore/message.go:17-27 | writing field by field produces the record's bytes |
| `LogFile.RecordsAt` | pkg/okstore/const.go:112-153 | in a file of consecutive records followed by anything, message i is found, decoded and measured at its offset |
| `DiskFormat.RecordLayout` | pkg/okstore/message.go:17-27 | the bytes of a record in numbers |
| `DiskFormat.RecordIsRead` | pkg/okstore/const.go:69-153 | for any file and position: the decoder and the probe accept exactly what has both magics and the length between them, and the decoder returns its number and data |
| `DiskFormat.ProbeIs` | pkg/okstore/const.go:69-108 | for any file and position: two bytes are stepped over without the magic, seven with a wrong end, and else the file ends |
| `DiskFormat.EntryLayout` | pkg/okstore/segment_index.go:112-130 | the bytes of an index entry, and a table of 262144 of them |
| `SegmentIndex.Index.Open` | pkg/okstore/segment_index.go:44-109 | mapping an index file recovers the slots up to the first zero one; the entries are those the file gives back |
| `SegmentIndex.Index.Append` | pkg/okstore/segment_index.go:112-130 | an entry with the number relative to the base, wrapped to 32 bits, is added at the end; a full table is left as it is |
| `SegmentIndex.Index.BinarySearch` | pkg/okstore/segment_index.go:266-301 | the search over one range ends at the last entry at or below the target |
| `SegmentIndex.Index.Lookup` | pkg/okstore/segment_index.go:134-145 | returns exactly what a backward scan over all entries would (Floor), whichever of the warm and cold range is searched, and (base, 0) when every entry is above the target |
| `SegmentIndex.Index.LastPosition` | pkg/okstore/segment_index.go:147-157 | number and position of the last entry, or the base when there is none |
| `SegmentIndex.ReopenRecovers` | pkg/okstore/segment_index.go:92-109 | reopening after a clean close or a crash recovers exactly the appended entries; a completely full table loses its last one |
| `SegmentIndex.Index.Close` | pkg/okstore/segment_index.go:197-211 | a clean close leaves a file from which the next opening recovers the appended entries, all but the last of a full table |
| `Recovery.ScansStopAtTorn` | pkg/okstore/segment.go:283-390 | from any record start both recovery scans walk the whole records and stop where the torn one begins |
| `Recovery.FullScanEnds` | pkg/okstore/segment.go:347-390 | on any file the full check stops at the first bytes that are no message, right behind the last one it accepted |
| `Recovery.SimpleScanEnds` | pkg/okstore/segment.go:283-329 | on any file the simple check stops only where the file ends, stepping over what is no message |
| `Recovery.FullCheckKeepsWholeRecords` | pkg/okstore/segment.go:347-390 | check keeps exactly the whole records and finds the last one, whatever proper prefix of a record follows |
| `Recovery.SimpleCheckAgrees` | pkg/okstore/segment.go:283-329 | when the simple check succeeds (exact condition given) its write position and last record start are those of the full check |
| `Recovery.SanityCheckRecovers` | pkg/okstore/segment.go:243-280 | start-up always finds the right end and last record; it leaves torn bytes in the file if and only if they end in the end-magic byte, the file exceeds the threshold and the simple check runs (TornKept) |
| `Recovery.LastSeqRecovered` | pkg/okstore/segment.go:181-224 | the last message number read back is base plus the number of whole records, and the base when there are none |
| `Recovery.IndexPointsAtRecords` | pkg/okstore/segment_index.go:112-130 | entries strictly increase in number and position and each points at the record with its number |
| `Recovery.ReopenedIndexIsCorrect` | pkg/okstore/segment_index.go:44-109 | the index recovered after a close or a crash is correct for the same log |
| `Segments.Segment.Check` | pkg/okstore/segment.go:347-390 | the loop computes FullCheck and truncates the file to it |
| `Segments.Segment.ScanFrom` | pkg/okstore/segment.go:301-321 | the loop of the simple check computes SimpleScan, stepping over bytes that are no message |
| `Segments.Segment.SanitySimpleCheck` | pkg/okstore/segment.go:283-329 | succeeds exactly when SimpleCheck does, with its positions, and never touches the file |
| `Segments.Segment.CheckSanity` | pkg/okstore/segment.go:243-280 | which check runs, as a function of the file, the index and the threshold |
| `Segments.Segment.Init` | pkg/okstore/segment.go:181-224 | on a file left by a crash: no error, the last number and the end of the records are recovered, the segment is valid, torn bytes stay behind it if and only if TornKept, and density is counted from there with no batch indexed yet |
| `Segments.CrashRecovered` | pkg/okstore/segment.go:181-280 | both start-up checks, seen from the last record: its number is read back, the position is the end of the whole records, and what stays behind is nothing or the torn bytes |
| `Segments.Segment.ReadLastSeq` | pkg/okstore/segment.go:202-221 | the number in the last whole record, the base when there is none |
| `Segments.SparseGrow` | pkg/okstore/segment.go:58-84 | appending a batch keeps what was appended since the opening densely indexed, whether or not the batch gets an entry |
| `Segments.Segment.IndexBatch` | pkg/okstore/segment.go:70-83 | a batch gets an entry exactly when the table has room and more than 4096 bytes were written since the last one or now, which entry, and what is then known of the density; the density bound is kept |
| `Segments.Segment.AppendMessages` | pkg/okstore/segment.go:58-84 | file, position, number, index and density after a batch, exactly; the log grows by the batch, unless torn bytes lie in front of it |
| `Segments.LookupScanIsBounded` | pkg/okstore/segment.go:98-178 | while the index has room, or for a message before its last entry: the scan passes over at most 8192 bytes, or the batch that was indexed there, of what was appended since the opening |
| `Segments.TargetIs` | pkg/okstore/segment.go:155-178 | the recursive scan from a record start finds the message with the number if it lies ahead, otherwise no data |
| `Segments.Segment.ReadMessagesAtPosition` | pkg/okstore/segment.go:129-152 | delivers exactly what ReadFrom says, whatever the file holds |
| `Segments.ReadsRecords` | pkg/okstore/segment.go:129-152 | from record i on, the messages of the whole records in order, at most limit, then whatever the bytes behind them read as |
| `Segments.Segment.LookupPosition` | pkg/okstore/segment.go:98-110 | the largest entry at or below the number, and the bound on the scan from there to the message, with the batch sizes that the appends recorded |
| `Segments.FloorIsRecord` | pkg/okstore/segment.go:98-110 | what a lookup yields is the position of a record at or before the wanted one |
| `Segments.Segment.ReadMessages` | pkg/okstore/segment.go:98-126 | delivers exactly what Reads says; on a valid segment the window from the number on, the base number meaning from the start, numbers not held giving nothing, and the error case exactly |
| `Segments.Segment.ReadMessageAt` | pkg/okstore/segment.go:227-240 | the message with the number if the segment holds it, otherwise none |
| `Topics.Topic.Open` | pkg/okstore/topic.go:35-63 | a restart recovers the whole list; torn bytes stay behind it exactly when TornKept, it is stale exactly when nothing but torn bytes was there, and density is counted from the end of the records |
| `Topics.Topic.OpenSegment` | pkg/okstore/topic.go:282-298 | a segment opened on files left by a crash holds the whole records and the recovered index, with what TornKept says behind them; its density is counted from their end |
| `Topics.Topic.Roll` | pkg/okstore/topic.go:242-251 | a new, empty, valid segment based at the number becomes the active one; no other changes |
| `Topics.Topic.AppendMessages` | pkg/okstore/topic.go:65-100 | the list grows by exactly the batch, numbered on from the last; the bytes, position and density of the segment that was active, to which the batch goes also when a new one is rolled; the topic stays valid unless torn bytes lay in front of the batch, and then everything but that segment does; a new segment becomes active exactly when the old one had more than maxBytes, or its index table was at 2 MiB; every segment but the active one keeps having got exactly one batch when it was full, its last |
| `Topics.RolledGrows` | pkg/okstore/topic.go:90-97 | the batches of all segments stay within their limits if and only if a segment is rolled exactly at the batch that finds it full |
| `Topics.Topic.CalcBaseMessageSeq` | pkg/okstore/topic.go:266-280 | the first segment whose range reaches the number |
| `Topics.Topic.NextBaseMessageSeq` | pkg/okstore/topic.go:253-264 | the base after the given one, none for the last |
| `Topics.Topic.ReadFirstSegment` | pkg/okstore/topic.go:185-207 | what the first segment contributes, and the only way to an error |
| `Topics.Topic.ReadMessages` | pkg/okstore/topic.go:185-230 | messages max(seq, 1) up to the limit or the last, in order, once each, across segments: exactly a slice of the one list; errors only for a stale empty topic; torn bytes kept by a restart are never seen |
| `Topics.Topic.NumberMessages` | pkg/okstore/topic.go:74-88 | the batch is numbered on from the last message; only the active segment now lags behind the list, and the branch for stored batches is never taken |
| `Topics.Topic.RollIfFull` | pkg/okstore/topic.go:90-93 | a new segment exactly when DueForRoll, whose limits AppendMessages states; no other segment changes, and the indexes stay dense |
| `Topics.Topic.Store` | pkg/okstore/topic.go:94-99 | writing the batch to the segment that was active completes the list again, unless it goes behind torn bytes; bytes and density of that segment |
| `Crashes.CutBatch` | pkg/okstore/segment.go:58-84 | any first part of the bytes of a batch is a number of whole records and a proper prefix of the next |
| `Crashes.CrashDuringAppend` | pkg/okstore/segment.go:58-95 | a crash after any number of bytes of a batch leaves a file and an index of the old log and the messages of the batch that were written whole |
| `Crashes.LeftBehind` | pkg/okstore/segment_index.go:44-130 | so do the files of any valid segment, the index file at its full size |
| `Crashes.CrashAndRestart` | pkg/okstore/topic.go:35-100 | a topic of one segment, killed after any number of bytes of a batch and started again, holds the old list and exactly the whole messages of the batch |
| `Crashes.TornCanBeKept` | pkg/okstore/segment.go:243-329 | messages as the server stores them: of a fourth whose payload ends in the byte 3, all but the last byte of its record survives a restart |
| `Crashes.TornThenData` | pkg/okstore/const.go:112-168 | what the beginning of a record followed by other bytes decodes to, and exactly when it decodes |
| `Crashes.EarlierReadsStay` | pkg/okstore/segment.go:98-152 | after an append behind torn bytes the earlier messages are still read, as long as no more is asked for |
| `Crashes.ReadOfTheNew` | pkg/okstore/segment.go:98-178 | reading the first message of that append finds the torn record instead: an error, or its beginning with new bytes behind it when the end magic happens to be in place |
| `Crashes.AppendAndRead` | pkg/okstore/segment.go:58-178 | so does the append on the real segment, followed by the read |
| `FileStore.ReadLastMessages` | pkg/okstore/topic.go:170-182 | the last limit messages, or all of them |
| `FileStore.LoadLastMsgs` | pkg/okstore/filestore_msg.go:60-71 | the last limit messages in ascending order |
| `FileStore.LoadLastMsgsWithEnd` | pkg/okstore/filestore_msg.go:73-87 | those of the last limit messages that are above end |
| `FileStore.LoadPrevRangeMsgs` | pkg/okstore/filestore_msg.go:94-117 | every stored message above max(end, start - limit) and at most start; for limits of 2^32 and more, of which the code takes the low 32 bits, exactly what it loads instead; the exact error condition |
| `FileStore.LoadNextRangeMsgs` | pkg/okstore/filestore_msg.go:119-130 | up to limit messages from start on, cut before a non-zero end |
| `FileStore.ReadAfter` | pkg/okstore/filestore_msg.go:73-117 | a window of the topic, of which the callback keeps the messages above end |
| `FileStore.Collect` | pkg/okstore/filestore_msg.go:73-130 | the callbacks of the range loads keep exactly the messages the cut leaves, in order |
| `Streams.ItemRoundTrip` | pkg/okstore/model.go:140-285 | a stream item is read back, with its exact length and whatever follows, if and only if its name is below 2^16 and its blob below 2^32 bytes |
| `DiskFormat.StreamItemBytes` | pkg/okstore/model.go:140-151 | a stream item byte by byte |
| `DiskFormat.CutItemIsRefused` | pkg/okstore/model.go:200-285 | an item cut anywhere is an error |
| `DiskFormat.ItemMagics` | pkg/okstore/model.go:200-285 | both magics of an item are checked |
| `Streams.CurrentStreamItem` | pkg/okstore/model.go:200-285 | the stepwise reader returns the item at the offset and its length, with or without its blob, or an error |
| `Streams.SortedIsUnique` | pkg/okstore/stream.go:82-82 | any ascending permutation of numbered items is those items in order, so sorting them changes nothing |
| `Streams.Stream.AppendItem` | pkg/okstore/stream.go:40-55 | the next item gets the next number without gaps, also after a reopening, and is appended to the file; the file stays readable when the lengths of the item fit their fields |
| `Streams.Stream.ReadMaxStreamSeq` | pkg/okstore/stream.go:100-123 | the number of the last item, 0 for an empty file |
| `Streams.Stream.ReadItems` | pkg/okstore/stream.go:57-85 | exactly the appended items, in order |
| `Streams.EncodeStreamItem` | pkg/okstore/model.go:140-151 | writing field by field produces the bytes of the item |
| `ServerMessages.BodyRoundTrip` | internal/server/model.go:116-229 | a stored message body is read back, without topic, message key and client number, if and only if its strings are at most 32767 bytes |
| `ServerMessages.MessageRoundTrip` | internal/server/model.go:51-65 | so is a whole record, with the number of the record |
| `DiskFormat.StoredBytes` | internal/server/model.go:116-139 | the body of a stored stream message byte by byte |
| `DiskFormat.StoredLength` | internal/server/model.go:116-139 | its length, type, version and setting |
| `DiskFormat.StoredComesBack` | internal/server/model.go:116-229 | the message that is read back, field by field |
| `DiskFormat.CutStoredIsRefused` | internal/server/model.go:142-229 | a stored body cut anywhere in front of its payload is an error |
| `ServerMessages.MarshalMessage` | internal/server/model.go:116-139 | writing field by field produces the body |
| `ServerMessages.UnmarshalMessage` | internal/server/model.go:142-229 | reading field by field gives what the body parses to, errors and panics included |
| `ServerMessages.EncodeMessage` | internal/server/model.go:51-55 | a record with the message's number around its body |
| `ServerMessages.DecodeMessage` | internal/server/model.go:57-65 | the message in a record, whose number overrides the one in the body |
| `KeyLocks.StepKeepsInv` | pkg/keylock/keylock.go:31-73 | every atomic step of any thread, and Clean at any moment, keeps exact reference counts, one owner per mutex and the table entry of every lock in use |
| `KeyLocks.RunKeepsInv` | pkg/keylock/keylock.go:31-73 | so does every run, from the empty table |
| `KeyLocks.MutualExclusion` | pkg/keylock/keylock.go:31-62 | at most one thread is between the return of Lock and the call of Unlock for a key |
| `KeyLocks.LockInUseStays` | pkg/keylock/keylock.go:65-73 | no lock with a holder or waiter is removed or replaced in the table |
| `KeyLocks.UnlockReleasesItsLock` | pkg/keylock/keylock.go:52-62 | Unlock, which looks the key up again, finds the lock that Lock acquired and never unlocks an unlocked mutex |
| `KeyLocks.WaitingMeansProgress` | pkg/keylock/keylock.go:31-62 | no deadlock on a key: a waiter can acquire, or the owner can step towards releasing |
| `KeyLocks.IdleCleanEmpties` | pkg/keylock/keylock.go:65-73 | with every thread idle, Clean leaves an empty table |
| `KeyLocks.KeyLock.Find` | pkg/keylock/keylock.go:32-38 | the fast path on the real table is the machine's step |
| `KeyLocks.KeyLock.FindOrCreate` | pkg/keylock/keylock.go:39-47 | the slow path on the real table is the machine's step |
| `KeyLocks.KeyLock.FindAndDone` | pkg/keylock/keylock.go:52-60 | the counting half of Unlock is the machine's step |
| `KeyLocks.KeyLock.CleanUp` | pkg/keylock/keylock.go:65-73 | the loop of Clean removes exactly the locks with count zero |
| `Heaps.SiftUpStep` | internal/server/in_flight_pqueue.go:72-81 | one swap towards the root keeps the order of the heap but for the slot moved to |
| `Heaps.SiftDownStep` | internal/server/in_flight_pqueue.go:83-99 | one swap with the smaller child keeps the order but for the slot moved to |
| `Heaps.RootIsMinimal` | internal/server/in_flight_pqueue.go:58-70 | the root of a heap has the least priority |
| `InFlightPqueues.InFlightPqueue.Up` | internal/server/in_flight_pqueue.go:72-81 | restores heap order below n, only reordering messages, each of which knows its slot |
| `InFlightPqueues.InFlightPqueue.Down` | internal/server/in_flight_pqueue.go:83-99 | the same downwards |
| `InFlightPqueues.InFlightPqueue.Push` | internal/server/in_flight_pqueue.go:15-27 | a heap of the old messages and the new one |
| `InFlightPqueues.InFlightPqueue.Pop` | internal/server/in_flight_pqueue.go:29-43 | takes out the first message, which carries -1 from then on; the rest stays a heap |
| `InFlightPqueues.InFlightPqueue.Remove` | internal/server/in_flight_pqueue.go:45-56 | takes out the message in slot i and no other |
| `InFlightPqueues.InFlightPqueue.PeekAndShift` | internal/server/in_flight_pqueue.go:58-70 | a message due by the time given and not after any other, or none and how long to wait |
| `RetryQueues.RetryQueue.StartInFlightTimeout` | internal/server/retry_queue.go:32-39 | the message is in the heap, and in the map unless its key was taken; with a free key map and heap stay consistent |
| `RetryQueues.RetryQueue.FinishMessage` | internal/server/retry_queue.go:74-94 | takes the message of the key out of both, an error exactly when the key is not in flight |
| `RetryQueues.RetryQueue.ProcessInFlightQueue` | internal/server/retry_queue.go:96-111 | terminates; hands over exactly the messages due, once each, in order of due time, and leaves the rest in both |
| `RetryQueues.RetryQueue.PushInFlightMessage` | internal/server/retry_queue.go:47-57 | registers the message unless its key is taken |
| `RetryQueues.RetryQueue.PopInFlightMessage` | internal/server/retry_queue.go:59-69 | takes the registration of a key, if there is one |
| `RetryQueues.RetryQueue.RemoveFromInFlightPQ` | internal/server/retry_queue.go:85-94 | takes the message its index names out of the heap unless that is -1; panics exactly when the index is out of range |
| `RetryProtocol.RunKeepsInv` | internal/server/retry_queue.go:32-111 | the invariant of the interleaved critical sections holds in every run that clears the heap only of messages pushed before |
| `RetryProtocol.QueueStaysConsistent` | internal/server/retry_queue.go:32-111 | under any interleaving: heap order, slot i holds a message with index i, popped ones carry -1, and a mapped message is in the heap or in the hand of a goroutine that has registered but not pushed it or has just shifted it |
| `RetryProtocol.ClearsItsOwnMessage` | internal/server/retry_queue.go:74-94 | clearing the heap takes out that message and no other if and only if it was pushed before, which after a timer pop it always was |
| `RetryProtocol.AcksAfterSendsAreTimely` | internal/server/delivery_manager.go:94-117 | when acks come only after the first send of their message, every message cleared was pushed before |
| `RetryProtocol.ConsumedAtMostOnce` | internal/server/retry_queue.go:59-84 | each registration is consumed at most once, by an ack or the timer, never both |
| `RetryProtocol.ResendsAreBounded` | internal/server/delivery_manager.go:146-171 | over any run a message is sent once and resent at most MessageRetry.MaxCount times |
| `RetryProtocol.RetryDecides` | internal/server/delivery_manager.go:146-171 | a retry starts the message again exactly when its user is online and it was retried fewer than MaxCount times; otherwise it is given up |
| `RetryProtocol.UnackedIsInTheWorks` | internal/server/delivery_manager.go:138-171 | in every timely run: a started message without an ack is in the heap, pending or in the hand of a goroutine, if and only if no retry found its user offline or the count spent; no timer pop is without its retry; every message in the heap was sent once and once more for each retry |
| `RetryProtocol.AckEndsRetries` | internal/server/delivery_manager.go:146-171 | once an ack has found the message, no step starts it again |
| `RetryProtocol.EarlyAckLosesAnother` | internal/server/retry_queue.go:32-94 | a run in which an ack that comes between registration and push takes another message out of the heap, which then stays registered and is in nobody's hand |
| `RetryRefinement.Begin` | internal/server/retry_queue.go:23-30 | a new queue shows the first state of the machine |
| `RetryRefinement.SetDue` | internal/server/retry_queue.go:32-34 | giving a message its due time on a delivery or a retry, no goroutine having it in the heap, keeps queue and machine in step |
| `RetryRefinement.Register` | internal/server/retry_queue.go:47-57 | pushInFlightMessage on the real queue is the Register step of the machine |
| `RetryRefinement.Push` | internal/server/retry_queue.go:41-45 | so is the insertion into the heap the Push step |
| `RetryRefinement.Pop` | internal/server/retry_queue.go:59-69 | popInFlightMessage is the Ack step, or the Take step of a timer scan; it returns the message exactly when it was registered |
| `RetryRefinement.Shift` | internal/server/retry_queue.go:96-103 | peekAndShift is the Shift step, or nothing is due and nothing changes |
| `RetryRefinement.Clear` | internal/server/retry_queue.go:85-94 | clearing the heap after an ack or a timer pop is the ClearHeap or Submit step; a panic is the crash of the machine |
| `RetryRefinement.RetryDelivery` | internal/server/delivery_manager.go:146-171 | retryDeliveryMsg on the real message is the Retry step; it goes out again if and only if its user is online and it was retried fewer than max times |
| `RetryRefinement.OutsideKeepsShows` | internal/server/delivery_manager.go:117-171 | a send, a retry that gives up and an ack of an unknown key keep queue and machine in step |
| `Bytes.SignedRoundTrip` | pkg/proto/decoder.go:107-134 | two's complement reads a value back if and only if it fits its width |
| `Codec.StringRoundTrip` | pkg/proto/decoder.go:163-174 | a string is read back, whatever follows it, if and only if it is at most 32767 bytes long |
| `Codec.Encoder.WriteString` | pkg/proto/encoder.go:102-120 | 16-bit length and contents, also for the empty string |
| `Codec.Decoder.String` | pkg/proto/decoder.go:145-174 | the signed length: too long is an error, negative panics |
| `Packets.ConnectRoundTrip` | pkg/proto/connect.go:30-80 | the body is read back as sent |
| `Packets.ConnackRoundTrip` | pkg/proto/connack.go:27-80 | the body is read back, without the server version when its flag is not set |
| `Packets.SendRoundTrip` | pkg/proto/send.go:66-164 | the body is read back, without what version and setting leave out |
| `Packets.SendackRoundTrip` | pkg/proto/sendack.go:27-69 | the body is read back, without the client message number |
| `Packets.RecvRoundTrip` | pkg/proto/recv.go:53-179 | the body is read back, without what version and setting leave out |
| `Packets.RecvackRoundTrip` | pkg/proto/recvack.go:25-45 | the body is read back |
| `Packets.DisconnectRoundTrip` | pkg/proto/disconnect.go:25-49 | the body is read back |
| `Packets.SubRoundTrip` | pkg/proto/sub.go:20-74 | the body is read back |
| `Packets.SubackRoundTrip` | pkg/proto/suback.go:30-79 | the body is read back |
| `PacketCoders.EncodeSend` | pkg/proto/send.go:133-164 | writing field by field appends the body |
| `PacketCoders.DecodeSend` | pkg/proto/send.go:66-131 | reading field by field gives what the body parses to, errors and panics included |
| `PacketCoders.EncodeRecv` | pkg/proto/recv.go:144-179 | writing field by field appends the body |
| `PacketCoders.DecodeRecv` | pkg/proto/recv.go:53-142 | reading field by field gives what the body parses to, errors and panics included |
| `PacketCoders.EncodeConnack` | pkg/proto/connack.go:27-36 | writing field by field appends the body |
| `PacketCoders.DecodeConnack` | pkg/proto/connack.go:50-80 | reading field by field gives what the body parses to, errors and panics included |
| `PacketCoders.EncodeConnect` | pkg/proto/connect.go:63-80 | writing field by field appends the body |
| `PacketCoders.DecodeConnect` | pkg/proto/connect.go:30-61 | reading field by field gives what the body parses to, errors and panics included |
| `PacketCoders.EncodeSendack` | pkg/proto/sendack.go:59-69 | writing field by field appends the body |
| `PacketCoders.DecodeSendack` | pkg/proto/sendack.go:27-57 | reading field by field gives what the body parses to |
| `PacketCoders.EncodeRecvack` | pkg/proto/recvack.go:41-45 | writing field by field appends the body |
| `PacketCoders.DecodeRecvack` | pkg/proto/recvack.go:25-39 | reading field by field gives what the body parses to |
| `PacketCoders.EncodeDisconnect` | pkg/proto/disconnect.go:43-49 | writing field by field appends the body |
| `PacketCoders.DecodeDisconnect` | pkg/proto/disconnect.go:25-41 | reading field by field gives what the body parses to, errors and panics included |
| `PacketCoders.EncodeSub` | pkg/proto/sub.go:60-74 | writing field by field appends the body |
| `PacketCoders.DecodeSub` | pkg/proto/sub.go:20-58 | reading field by field gives what the body parses to, errors and panics included |
| `PacketCoders.EncodeSuback` | pkg/proto/suback.go:66-79 | writing field by field appends the body |
| `PacketCoders.DecodeSuback` | pkg/proto/suback.go:30-64 | reading field by field gives what the body parses to, errors and panics included |
| `Protocol.HeaderRoundTrip` | pkg/proto/common.go:19-40 | type and flags come back from the header byte; a CONNACK returns its server version flag as noPersist too |
| `Protocol.LengthRoundTrip` | pkg/proto/protocol.go:312-340 | a length is read back with its own number of bytes, whatever follows, if and only if 0 < n < 2^28 |
| `Protocol.EncodeVariable` | pkg/proto/protocol.go:312-322 | base 128, low digit first, nothing for zero |
| `Protocol.DecodeLength` | pkg/proto/protocol.go:323-340 | the value of up to four digits; the size is one too many exactly when all four ask for another |
| `Protocol.SizeIsBodyLength` | pkg/proto/protocol.go:146-249 | for all nine kinds of body: the size announced is the number of bytes written and never zero |
| `Protocol.BodyRoundTrip` | pkg/proto/protocol.go:46-56 | a body is decoded to what was sent if and only if its strings fit |
| `Protocol.EncodeFrame` | pkg/proto/protocol.go:146-249 | header byte, length prefix and body |
| `Protocol.DecodeFramer` | pkg/proto/protocol.go:267-283 | type, flags, remaining length and frame size; an incomplete length turns into the unknown type |
| `Protocol.DecodeFrame` | pkg/proto/protocol.go:105-143 | frame and size, a request for more, an error or a panic, for every input |
| `Protocol.FrameRoundTrip` | pkg/proto/protocol.go:105-249 | decoding an encoded frame followed by any bytes gives that frame, without what version and flags leave out, and its exact size, if and only if its strings are at most 32767 bytes and its body at most 1 MiB |
| `Protocol.RecordedSizeIsExact` | pkg/proto/protocol.go:281-281 | the frame size recorded in a decoded frame is its size if and only if nothing follows it |
| `Protocol.CutFrameAsksForMore` | pkg/proto/protocol.go:105-131 | any non-empty proper prefix of a frame is neither a frame nor an error |
| `Protocol.DecodeBody` | pkg/proto/protocol.go:46-56 | the decoder registered for the type, an error for a type without one |
| `WireFormat.HeaderBits` | pkg/proto/common.go:18-24 | the type numbers 1 to 11 and the flag bits of the first byte |
| `WireFormat.FlagsAre` | pkg/proto/common.go:27-40 | the flags read from each bit |
| `WireFormat.LengthDigits` | pkg/proto/protocol.go:312-322 | the bytes of a length of up to four digits |
| `WireFormat.BodyLength` | pkg/proto/protocol.go:146-249 | the length of all nine bodies in numbers: expire from version 3 on, the stream with bit 2 of the setting from version 2 on, the topic with bit 3 |
| `WireFormat.SendComesBack` | pkg/proto/send.go:66-164 | the packet that the receiver of a SEND gets, field by field, with topic and stream exactly when their bits are set |
| `WireFormat.RecvComesBack` | pkg/proto/recv.go:53-179 | the packet that the receiver of a RECV gets |
| `WireFormat.PacketComesBack` | pkg/proto/protocol.go:105-249 | the packet that the receiver of any other frame gets |
| `WireFormat.FramerComesBack` | pkg/proto/protocol.go:267-283 | type, flags, remaining length, frame size and size of a decoded frame |
| `WireFormat.DecodableIs` | pkg/proto/protocol.go:105-143 | which frames can be decoded: strings of at most 32767 bytes, a body of at most 1 MiB |
| `WireFormat.ConnectBytes` | pkg/proto/connect.go:63-80 | a CONNECT body byte by byte |
| `WireFormat.ConnackBytes` | pkg/proto/connack.go:27-36 | a CONNACK body byte by byte |
| `WireFormat.SendBytes` | pkg/proto/send.go:133-164 | a SEND body with stream and topic byte by byte |
| `WireFormat.PlainSendBytes` | pkg/proto/send.go:133-164 | one of version 1 with neither, all other bits of the setting set |
| `WireFormat.SendackBytes` | pkg/proto/sendack.go:59-69 | a SENDACK body byte by byte |
| `WireFormat.RecvBytes` | pkg/proto/recv.go:144-179 | a RECV body with stream and topic byte by byte |
| `WireFormat.PlainRecvBytes` | pkg/proto/recv.go:144-179 | one of version 2 with neither, all other bits of the setting set |
| `WireFormat.RecvackBytes` | pkg/proto/recvack.go:41-45 | a RECVACK body byte by byte |
| `WireFormat.DisconnectBytes` | pkg/proto/disconnect.go:43-49 | a DISCONNECT body byte by byte |
| `WireFormat.SubBytes` | pkg/proto/sub.go:60-74 | a SUB body byte by byte |
| `WireFormat.SubackBytes` | pkg/proto/suback.go:66-79 | a SUBACK body byte by byte |
| `Refusals.StringOutcome` | pkg/proto/decoder.go:145-174 | for all bytes: a length beyond the end is an error, a negative one a panic, any other gives the string |
| `Refusals.CutBodyIsRefused` | pkg/proto/protocol.go:46-56 | any of the nine bodies, cut anywhere in front of its payload, is an error, never a packet and never a panic |
| `Refusals.FrameOutcome` | pkg/proto/protocol.go:105-143 | by first byte, length and what follows: more than 1 MiB is an error, less than the length asks for more, otherwise the body decides |
| `Refusals.TypeOutcome` | pkg/proto/protocol.go:105-143 | type 0 asks for more, 7 and 8 are whole after one byte, from 12 on they are errors; no byte at all panics |
| `Refusals.CutFrameIsRefused` | pkg/proto/protocol.go:105-143 | a frame whose length and body were cut alike is refused, whatever follows it |
| `Dispatch.DecodeDigits` | internal/server/dispatch.go:240-257 | the value and the number of digits |
| `Dispatch.GnetUnpacket` | internal/server/dispatch.go:206-238 | cuts the buffer behind its last whole frame |
| `Dispatch.Parse` | pkg/client/common.go:5-41 | the client, copying frame by frame, cuts at the same place and returns the rest |
| `Dispatch.Server.DecodeAll` | internal/server/dispatch.go:91-117 | the loop queues exactly the frames of the batch up to the first that is not one, whose kind decides how the batch ends |
| `Dispatch.Server.DataIn` | internal/server/dispatch.go:90-124 | new buffer, queued and processed frames and connection state after the batch; the frames before a refused one are queued and never processed |
| `Dispatch.Server.OnReadable` | pkg/oknet/reactor_sub.go:122-148 | one read event is one Receive step: overflow, end of stream and read errors close the connection |
| `Dispatch.ReceiveEnds` | pkg/oknet/reactor_sub.go:122-148 | what one chunk can do: the connection is closed, with nothing processed, by the end of the stream, by more than 5 MiB or by a refused batch, and by nothing else; a panic keeps the buffer; otherwise only whole frames leave it, and all of the queue is processed |
| `Dispatch.Server.DataOut` | internal/server/dispatch.go:127-170 | all frames go to the outbound buffer as one stream in order, and the connection asks for write events |
| `Reassembly.UnpackStream` | internal/server/dispatch.go:206-238 | on whole frames and the beginning of another, the cut falls right behind the whole ones |
| `Reassembly.DecodeStream` | internal/server/dispatch.go:91-117 | whole frames are decoded one by one to the end, each recording the bytes up to the end of the batch as its size |
| `Reassembly.BatchEndsAt` | internal/server/dispatch.go:91-117 | frames in front of bytes that do not decode are decoded in order, and nothing else is; the batch ends with an error if and only if those bytes are refused, with a panic if and only if decoding them panics |
| `Reassembly.DataInStops` | internal/server/dispatch.go:90-124 | on the real server: a refused frame closes the connection, the frames in front of it are queued and never processed; one that panics takes the server down with the buffer as it was; an incomplete one stays in front of the buffer |
| `Reassembly.NeverOverflows` | pkg/oknet/conn.go:586-589 | the 5 MiB limit has room for any leftover and any chunk of 32 KiB |
| `Reassembly.StreamIsDelivered` | internal/server/dispatch.go:53-124 | for any list of frames and any chunks of at most 32 KiB: the connection stays open; the frames processed are exactly those that have arrived whole, in order, in batches that end where a chunk completes a frame, each frame with the size that batch gives it; the leftover is a proper prefix of the next |
| `Reassembly.BatchesMatch` | internal/server/dispatch.go:91-117 | whatever the batches, the processed frames are the frames sent, one for one |
| `Reassembly.ChunkIsDelivered` | internal/server/dispatch.go:90-124 | one chunk keeps the connection open and the delivered frames exact, and completes one more batch or none |
| `Reassembly.WholeStreamIsDelivered` | internal/server/dispatch.go:53-124 | once all chunks have arrived, all frames are processed and nothing is left over |
| `Reassembly.SizesAgree` | internal/server/dispatch.go:224-224 | cut and decoder agree on the size of a frame if and only if its length has a last digit among the first four |
| `Reassembly.SizesCanDiffer` | internal/server/dispatch.go:206-257 | a RECVACK of which the cut takes 17 bytes and the decoder 18 |
| `PowersOfTwo.CeilToPowerOfTwo` | pkg/ring/ring_buffer.go:75-93 | at least n; panics exactly above 2^62 |
| `PowersOfTwo.SmearedSpreads` | pkg/ring/ring_buffer.go:84-89 | after the five shifts a bit is set exactly when one of the 32 bits from it on was |
| `PowersOfTwo.CeilIsPower` | pkg/ring/ring_buffer.go:74-93 | the result is a power of two, and then the least that is large enough, if and only if n - 1 has no 32 clear bits in a row below its top bit |
| `PowersOfTwo.SmallIsGapless` | pkg/ring/ring_buffer.go:74-93 | which is so for every n up to 2^32 |
| `PowersOfTwo.CeilCanMiss` | pkg/ring/ring_buffer.go:74-93 | a concrete argument above 2^32 for which the result is no power of two |
| `RingBuffers.StoredAppends` | pkg/ring/ring_buffer.go:254-272 | writing behind the held bytes, around the end when needed, appends to the queue |
| `RingBuffers.SkippedDrops` | pkg/ring/ring_buffer.go:158-161 | advancing the read index drops a prefix of the queue |
| `RingBuffers.GrownSize` | pkg/ring/ring_buffer.go:513-536 | all three growth rules reach the capacity asked for and never shrink |
| `RingBuffers.ByQuarters` | pkg/ring/ring_buffer.go:527-529 | growing by quarters terminates, reaches the target and overshoots by less than a quarter of it |
| `RingBuffers.GrowthIsGradual` | pkg/ring/ring_buffer.go:513-536 | 1024 bytes at first, double below 4096, less than a quarter too large above, and what is asked for when that is more than double |
| `RingBuffers.Buffer.Peek` | pkg/ring/ring_buffer.go:97-149 | head plus tail is the prefix of the queue asked for |
| `RingBuffers.Buffer.Bytes` | pkg/ring/ring_buffer.go:343-366 | the whole queue |
| `RingBuffers.Buffer.Discard` | pkg/ring/ring_buffer.go:152-164 | drops and reports a prefix |
| `RingBuffers.Buffer.Read` | pkg/ring/ring_buffer.go:177-218 | moves a prefix into the front of the slice and leaves the rest of the slice alone |
| `RingBuffers.Buffer.ReadByte` | pkg/ring/ring_buffer.go:221-235 | takes the first byte, an error exactly when empty |
| `RingBuffers.Buffer.Write` | pkg/ring/ring_buffer.go:243-277 | appends, growing to SizeFor when there is too little room; only a first write above 2^62 bytes panics |
| `RingBuffers.Buffer.NewCapacity` | pkg/ring/ring_buffer.go:513-536 | computes GrownSize |
| `RingBuffers.Buffer.Grow` | pkg/ring/ring_buffer.go:513-548 | keeps the contents, at the front of a new array of the new capacity |
| `RingBuffers.Buffer.WriteByte` | pkg/ring/ring_buffer.go:280-293 | appends a byte; panics if and only if the buffer is full and holds 4096 bytes or more |
| `RingBuffers.Buffer.New` | pkg/ring/ring_buffer.go:56-67 | an empty queue of the rounded capacity, 2 for a negative one; panics exactly above 2^62 |
| `Connections.NothingLostOrReordered` | pkg/oknet/conn.go:259-267 | over any run of writes and flushes, bytes sent followed by bytes waiting are all bytes written, in order; after a failed write closed the connection, what was sent is still a prefix |
| `Connections.OnlyFailedWritesClose` | pkg/oknet/conn.go:483-518 | in every run: only a failed write of waiting bytes closes the connection, a write that would block changes nothing, and otherwise exactly the bytes the socket took are sent |
| `Connections.Conn.WriteToOutboundBuffer` | pkg/oknet/conn.go:259-267 | is the Write step of that machine |
| `Connections.Conn.WriteDirect` | pkg/oknet/conn.go:526-541 | one socket write of head and tail in order |
| `Connections.Conn.Flush` | pkg/oknet/conn.go:483-518 | is its Flush step, for partial, blocked and failed socket writes: a write that would block changes nothing, and the connection is closed if and only if a write of waiting bytes failed; write interest is given up exactly when nothing waits, and while bytes wait it stays |
| `Connections.Conn.ReadToInboundBuffer` | pkg/oknet/conn.go:215-227 | appends what was read, or drops it with an error exactly when it would pass 5 MiB |
| `Connections.Conn.Peek` | pkg/oknet/conn.go:346-366 | a copy of a prefix of the inbound queue, an error when it is too short |
| `Connections.Conn.Discard` | pkg/oknet/conn.go:368-370 | drops and reports a prefix of the inbound queue |
| `Connections.Conn.Close` | pkg/oknet/conn.go:289-344 | closes once and drops both buffers; a second close changes nothing |

## Left out

- File handles always open: `roll` evicts the old segment and so closes its file before the batch is written to it (pkg/okstore/topic.go:243-246); a segment of the model can always be written.
- Failed writes: every write to a log or stream file succeeds; a failed one would leave the last number advanced.
- Restart with several segments: segment files live one directory below the one that is listed (pkg/okstore/topic.go:329), so a restart opens segment 0 alone, and so does the model.
- Files of 4 GiB and more, and 2^32 messages or more: positions and numbers are 32 bits wide.
- `SetSeq` in place: the log numbers opaque bodies; `ServerMessage` says what a body is.
- Callbacks that return an error, backup copies of segments, `sync`, deletion of channels, the cache of topics and slots.
- Topics.Topic.AppendMessages: what is read after an append behind torn bytes is stated of the segment, not of the topic (`Crashes.AppendAndRead`), and for torn records of 15 bytes and more, whose number is whole; a restart after that append is not part of this model.
- Crashes.CrashAndRestart: an index entry, eight bytes in mapped memory, is taken to be written at once; the machine itself does not fail, so what was written reaches the file in order.
- Topics.Topic.ReadMessages: limits of 2^63 and more, which the loop over segments would turn negative.
- `TruncateEntries`, which nothing calls.
- Stream metadata, which is JSON; `DecodeStreamItem`, which nothing but tests calls.
- Fairness and starvation of the key lock; the background loop that calls `Clean`.
- Retry queue: keys are distinct. That the heap is cleared only of messages pushed before, which follows when acks come after the first send (internal/server/delivery_manager.go:94-117, `RetryProtocol.AcksAfterSendsAreTimely`), is an assumption of the theorems about whole runs; without it they fail (`RetryProtocol.EarlyAckLosesAnother`). Submitting a retry to the worker pool always succeeds. Clocks are parameters.
- The connection lookup and the packet fields rewritten by a retry; flow control, monitoring and statistics.
- Connections before authentication, whose CONNECT path drops the rest of the data; WebSocket and TLS connections.
- `DecodePacketWithConn` and `encodeVariable`, older forms of what is modelled.
- Aliasing of the slices that `Peek` of the ring buffer returns; the pools that buffers and encoders come from, and the wrapper that returns a drained buffer to them; `ReadFrom` and `WriteTo`.
- RingBuffers.Buffer.Write: capacities near 2^63, where the sums of the growth loop overflow.
- Writes to a connection after it was closed, which go to a buffer that is never flushed; the outbound limit, which `WriteToOutboundBuffer` does not test.
- HTTP and gRPC, webhooks, datasources, configuration, logging, encryption, clustering, conversations and permissions.
