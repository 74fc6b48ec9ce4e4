# Herbert, verified

Herbert is a small event log: producers append raw records or record batches to topics, a
write-ahead log makes them durable, a backend in memory serves them by row offset, and consumer
groups commit the offsets they have reached. This project models the storage engine and the
consumer protocol in Dafny and proves what they promise across calls, threads and crashes.

The parts, from the bottom up:

- `Bytes`, `Sequences`, `Wrappers`: bytes, little-endian lengths, UTF-8 (section 4 of RFC 3629), errors.
- `ArrowStream`: batches as a schema and a sequence of rows, with a small self-delimiting stream
  codec in the place of Arrow IPC. It keeps what the broker depends on: the continuation marker at the head of
  every message, one schema per stream, an end marker, and a reader that also accepts the end of the input.
- `Records`, `ZeroFraming`: stored records, log entries, the flat sequence of rows that offsets
  count, and the zero-byte framing of raw records.
- `WalFormat`: the bytes of a log entry and the recovery parser, one loop iteration at a time.
- `LogStorage`, `QueueStorage`: the two backends, as classes over maps of sequences.
- `OffsetStore`: committed offsets and their file.
- `TopicRules`: raw or batch, schema checks, and the metadata recovery infers.
- `WriteAheadLogs`, `TopicManagers`, `Clients`: the classes and the client calls, proved against the
  specification functions of the modules above and of `BrokerState`.
- `BrokerState`: the broker's state between calls. The log is kept as the entries written so far and the number
  of them that are in the file; the bytes of file and writer are functions of these, and
  `TopicManager.Represents` ties the bytes the classes really hold to them. Every write follows the rule of
  Rust's `BufWriter`, which holds 8192 bytes and empties itself when an entry does not fit.
- `Consumers`: what the three consuming calls make of a response, and which records they understand.
- `CrashRuns`: whole runs of broker and consumers, request by request, with any number of crashes, and what they keep
  of the log. A call of a consumer is up to three requests on one connection, which are handled in order, and between
  which anything else may happen.
- `ConsumerRuns`: what these runs promise to a consumer group, and the runs in which that fails.
- `LockSteps`: the broker with any number of threads, interleaved at every lock operation.
- `WriteAheadLimits`, `WriteAheadRuns`: how many records can be published and not in the file, in the number of
  threads, and runs in which that many are.
- `OffsetsUnderThreads`: what that does to committed offsets.

Both kinds of run also allow a step `Spill`, by which more whole entries reach the file at any other moment. What is
said of all runs therefore holds as well for a writer that at times empties itself further than Rust's does, and so
never holds more; the runs that attain a bound or show a failure never take that step, and so are runs of the code
with the writer it has.

What is written to the file is stated byte by byte (`EntryLaidOut`), and an error is stated by its kind: what a topic
with a schema refuses, what stops recovery and in which order it is noticed, and what a consuming call takes for no
batch or no text. An add, a create or a consuming call that fails leaves log, backend, metadata and committed offsets
as they were.

Main results.

- After any run whose records fit the log format, a crash loses nothing that was published and at most
  `max(n, 1) - 1` accepted records, or the 1365 that fit the writer if these are fewer; that bound is attained for
  every `n`. Offsets denote the same rows forever.
- The same bound holds of a crash within an add that cuts the file anywhere in what the writer held and the entry being
  added: the complete entries are replayed, all published ones among them. Where the server starts from such
  a file, the run goes on as one of those above.
- At any moment of such a run, and for each of the three consuming calls at any offset, the rows handed over are those
  from the offset to the end of the log if and only if the records left are of the kind the call understands: batches
  for `consume_record_batches`; zero-free raw records, but not just an empty one, for `consume`; for
  `consume_continuos` the one or, in UTF-8, the other, as the first bytes of the response have it.
- If every call of a group that commits an offset for a topic has understood the records left, the group has no colon
  in its name, and no other group and topic join to the same text, then the group's offset never runs ahead of the
  recovered log and the group sees no gap, whatever other groups do. Its completed calls have then delivered
  exactly the committed prefix of the log, at every moment, if and only if each of its commits lands on the offset
  its rows begin at. That is so for a group whose commits land before it fetches again, and for one with a single
  client, such as a `consume_continuos` alone.
- Under every interleaving of threads the byte order of the log is the order of publication and topics keep raw
  records before batches of one schema.
- Strict write-ahead, that published records are in the file at all times, is guaranteed if and only if at most one
  thread adds. With `k` threads as many as `(k - 1) * (n - 1) + k * (k - 1) / 2` published records can be missing from
  the file, or `k - 1` when `n` is zero, but never more than the 1365 that fit the writer; the lesser of the two is
  attained for every `k` and `n`. Every such record was pushed between the file flush and the buffer drain of the
  call that published it.
- Every offset committed by a call that understands is within the log that any later crash leaves, under every
  interleaving of adding threads, if and only if at most one thread adds.

What is false of the code as it stands, with the exact condition under which it holds:

- A log entry is read back as it was written if and only if the topic is newline-free UTF-8 and the payload
  is shorter than 2^32 bytes (`EntryRoundTripExact`). A single record for a topic named by a newline makes the log
  unrecoverable (`NewlineTopicBreaksRecovery`). A whole log is read back if and only if that holds of each of
  its entries (`LogRoundTripExact`), so that recovery gives back exactly what is in the file if and only if all that
  is in the file fits (`RecoveredExact`).
- The offset file restores the offsets if and only if no group name contains a colon (`FlushRecoverExact`), and one
  offset of a group, whichever key wins a collision, if and only if the group has no colon and no other committed key
  joins to the same text with another offset (`KeyRestoredExact`).
- A call is handed exactly the rows from its offset on if and only if it understands the records left
  (`HandedExact`, `HandedInRuns`, `PartsExact`). If it does not, it may commit an offset past the end of the log, and
  records added later are skipped: every zero byte in a raw record moves the offset of `consume` one row too far
  (`RawConsumeAdvance`, `RawCommitsInRuns`, `ZeroBytesRunAhead`). A batch produced to a topic without metadata is
  stored raw and is one row, and the other two calls commit as many rows as the batch has
  (`BatchOffsetRunsAhead`). Both offsets survive a restart, for every `n`.
- A group's completed calls deliver every row exactly once if and only if each of its commits lands on the offset its
  rows begin at (`ExactlyOnceIffInTurn`). It is enough that commits land before the group fetches again
  (`LandingFirstIsInTurn`), or that the group has one client in the life of a server (`OneClientIsInTurn`). Otherwise
  it can fail: `set_offset` returns when the request is written to the socket and each `consume` opens a new
  connection, so that one client making one call after the other can be handed rows twice, and commit them twice
  (`PendingCommitRepeats`).
- `consume_continuos` recognizes a response of text records if and only if it does not begin like an Arrow
  file (`SniffText`).
- Published records are guaranteed to be in the file at all times if and only if at most one thread adds
  (`WriteAheadIffOneThread`). For any threads and every `n` there is a run that publishes as many records outside the
  file as the bound allows, and a crash takes them back (`UnsyncedBound`, `StrictWriteAheadFails`). That no push
  falls between a file flush and the buffer drain of the same call is sufficient for a single run
  (`WriteAheadOutsideWindows`). The project's description of the write-ahead log as providing durability
  holds of published records only under these conditions. So do the offsets of consumers: two threads that add are
  enough for a group to commit an offset past the log that a crash leaves (`OffsetsSurviveIffOneThread`).
- Metadata survives a crash exactly for the topics with a batch in the recovered log (`RecoveredMetadata`).

## Model

| member | source | states |
|---|---|---|
| Bytes.U32RoundTrip | src/wal.rs:62 | the length field holds the payload length modulo 2^32, as the cast to u32 leaves it |
| Bytes.U32Digits | src/wal.rs:62 | the four bytes of the length are its digits to the base of 256, the lowest first |
| Bytes.ValidUtf8Exact | src/topic_manager.rs:208 | the bytes that pass as text are exactly the encodings of sequences of Unicode scalar values |
| ArrowStream.StreamRoundTrip | src/storage/in_memory_log.rs:134-142 | batches of one schema written to a stream are read back in order, zero-row batches included |
| ArrowStream.StreamThen | src/client.rs:197-204 | behind its batches a stream ends at the end marker, whatever follows, or with the input; anything that is no message makes the whole call an error |
| ArrowStream.NoStream | src/client.rs:198 | bytes that do not begin as a message are an error, not an empty stream |
| WalFormat.EntryRoundTripExact | src/wal.rs:52-80 | one recovery iteration gives back exactly the entry and the bytes after it if and only if topic and length fit the format |
| WalFormat.EntryLaidOut | src/wal.rs:52-80 | position by position the bytes are the topic, 0x0A, 0 for a raw record and 1 for a batch, the four digits of the payload length, and the raw bytes or the stream of that one batch |
| WalFormat.LogRoundTrip | src/topic_manager.rs:188-244 | recovery replays exactly the serialized entries, in order, whatever bytes the payloads hold |
| WalFormat.LogRoundTripExact | src/topic_manager.rs:188-244 | recovery gives back the entries of a log and succeeds if and only if every one of them fits the format |
| WalFormat.ReplayThen | src/topic_manager.rs:198-241 | serialized entries are replayed and the loop goes on with whatever follows them |
| WalFormat.TornEntry | src/topic_manager.rs:198-241 | no strict non-empty prefix of an entry is mistaken for an entry: the error is that of a topic that is no text if the cut is within one of its characters, and the end of the input otherwise |
| WalFormat.PrefixRecovery | src/topic_manager.rs:198-241 | from any byte prefix of a log exactly the complete entries are replayed, and the result is Ok if and only if the prefix ends on an entry boundary, and otherwise the error of the entry that is cut |
| WalFormat.WhatStopsRecovery | src/topic_manager.rs:207-239 | behind any entries that fit, the first of these is the error recovery ends with: a topic that is no text, a short header, an unknown kind, a short payload, a batch that is no stream |
| WalFormat.BadBatchStops | src/topic_manager.rs:224-227 | a batch whose stream opens and then holds no message ends recovery with an error |
| WalFormat.EmptyStreamSkipped | src/topic_manager.rs:224-235 | a stream without a batch is read past, and the entries behind it are replayed |
| WalFormat.NewlineTopicBreaksRecovery | src/wal.rs:54-55 | a topic named by a newline makes recovery stop with an indicator error, whatever follows |
| WriteAheadLogs.BufWriter.Write | src/wal.rs:42 | all bytes are kept in order, the writer never holds more than its capacity, and exactly what does not fit beside the data, or the data that fills it, goes to the file |
| WriteAheadLogs.WriteAheadLog.constructor | src/wal.rs:25-36 | the log starts over the existing contents of the file with nothing buffered |
| WriteAheadLogs.WriteAheadLog.Add | src/wal.rs:38-50 | the entry's bytes go to the end of file and writer by the writer's rule, the entry to the end of the buffer |
| WriteAheadLogs.WriteAheadLog.Serialize | src/wal.rs:52-80 | the bytes built step by step are the entry: topic, 0x0A, kind, length in four digits, lowest first, and payload, each at its position |
| WriteAheadLogs.WriteAheadLog.Flush | src/wal.rs:82-99 | all bytes reach the file, the buffer empties, and every topic of the backend grows by exactly its buffered records in order |
| LogStorage.InMemoryLog.constructor | src/storage/in_memory_log.rs:23-32 | an empty backend whose index is exact |
| LogStorage.InMemoryLog.Add | src/storage/in_memory_log.rs:35-77 | appends to one topic, leaves the others alone, and keeps every index the one its records call for |
| LogStorage.InMemoryLog.Fetch | src/storage/in_memory_log.rs:79-145 | returns the rendering of the records left after dropping the offset's rows; nothing stored changes |
| LogStorage.InMemoryLog.Collect | src/storage/in_memory_log.rs:109-132 | the loop collects raw bytes and batches of the remaining records, and its slice never underflows |
| LogStorage.IndexExact | src/storage/in_memory_log.rs:46-69 | the index has one entry per row, and entry k is (b, r) if and only if the rows before record b plus r are k and record b has a row r |
| LogStorage.IndexIncreases | src/storage/in_memory_log.rs:46-69 | index entries increase strictly, record first and row second |
| LogStorage.IndexPointsAtRow | src/storage/in_memory_log.rs:89-98 | the row at an index entry is the row the flat view has at that offset |
| LogStorage.DropRowsFlat | src/storage/in_memory_log.rs:109-132 | what a fetch at k works on is the flat view without its first k rows |
| LogStorage.FetchOutOfRange | src/storage/in_memory_log.rs:89-98 | negative offsets, offsets past the end and unknown topics give empty bytes |
| LogStorage.EmptyFetchExact | src/storage/in_memory_log.rs:89-98 | a response is empty exactly past the end of the log or before one last empty raw record |
| LogStorage.RenderOrdered | src/storage/in_memory_log.rs:109-142 | raw records joined by zero bytes, a zero byte, then the batches as one stream |
| LogStorage.RawFirst | src/storage/in_memory_log.rs:109-132 | whatever is stored behind it, a raw record comes first as its own bytes, with one zero byte behind it unless it is the last |
| QueueStorage.InMemoryQueue.Add | src/storage/in_memory_queue.rs:24-34 | pushes to the front of one queue and leaves the others alone |
| QueueStorage.InMemoryQueue.Fetch | src/storage/in_memory_queue.rs:36-63 | returns all records oldest first, joined by zero bytes, and empties the queue |
| QueueStorage.OldestFirst | src/storage/in_memory_queue.rs:36-63 | the oldest record comes first, a raw one as it is and a batch as a stream of its own, then a zero byte if there are more |
| QueueStorage.FetchAgrees | src/storage/in_memory_queue.rs:36-63 | the queue hands out the very bytes the log returns at the cursor |
| QueueStorage.QueueRefinesLog | src/storage/in_memory_queue.rs:24-63 | over every run of adds and fetches, what was delivered and what is queued are the records added, each once and in order |
| ZeroFraming.Split | src/client.rs:170 | the parts are zero-free and join back to the bytes |
| ZeroFraming.PartsExact | src/client.rs:166-170 | the client recovers the joined records exactly when they are zero-free and not one empty record |
| ZeroFraming.PartsOvershoot | src/client.rs:170-173 | the number of parts is the number of records plus the zero bytes inside them |
| OffsetStore.SplitJoinKey | src/offset_manager.rs:59 | splitting undoes joining exactly for groups without a colon |
| OffsetStore.FlushRecoverExact | src/offset_manager.rs:49-92 | recovery after a flush restores the map if and only if no group contains a colon, topics being free to |
| OffsetStore.KeyRestoredExact | src/offset_manager.rs:49-92 | an offset is restored from whatever file the map was collected into if and only if its group has no colon and no other committed key joins alike with another offset |
| OffsetStore.KeyKept | src/offset_manager.rs:49-92 | flushing and recovering keeps the offset of a colon-free key without a rival, committed or not, whatever becomes of the others |
| OffsetStore.OffsetManager.SetOffset | src/offset_manager.rs:35-47 | sets one offset, keeps the others, and leaves a file collected from exactly the new map |
| OffsetStore.OffsetManager.Flush | src/offset_manager.rs:49-67 | the file holds every joined key with the offset of a key that joins to it |
| OffsetStore.OffsetManager.Recover | src/offset_manager.rs:69-92 | restores the split keys, reports a missing file, panics on a key without a colon |
| TopicRules.ProducedStream | src/topic_manager.rs:23-59 | of a produced stream the first batch is stored exactly when the schema is the topic's, and refused with the matching error otherwise; further batches are dropped |
| TopicRules.NoStreamRefused | src/topic_manager.rs:27-43 | a topic with a schema refuses what is too short or has no marker, with InvalidArrowIpc, or with the error of the reader if it begins like an Arrow file |
| TopicRules.TextRefused | src/topic_manager.rs:27-43 | a topic with a schema refuses all text |
| TopicRules.CutStreamRefused | src/topic_manager.rs:42-58 | a topic with a schema refuses a stream cut anywhere before the end of its first batch, with the error that goes with the position of the cut |
| TopicRules.StoredAsItCame | src/topic_manager.rs:138-157 | a record for a topic that is unknown or has no schema is stored raw and unchanged, and no other is stored raw |
| TopicRules.AppendKeepsOrder | src/topic_manager.rs:138-157 | a record classified by the metadata keeps raw records before batches of one schema |
| TopicRules.CreateKeepsOrder | src/topic_manager.rs:171-186 | creating a new topic keeps that order |
| TopicRules.StoredRawThenBatches | src/topic_manager.rs:132-165 | in an ordered log each topic stores raw records and then batches of the schema in its metadata |
| TopicRules.FetchOrdered | src/storage/in_memory_log.rs:79-145 | the bytes a fetch returns from a topic in that order, for every offset |
| TopicRules.RecoveredMetadata | src/topic_manager.rs:223-235 | recovered metadata is the live metadata restricted to the topics with a batch among the recovered entries |
| TopicManagers.TopicManager.constructor | src/topic_manager.rs:85-98 | a manager over the contents of the log file, with an empty backend and no metadata |
| TopicManagers.TopicManager.Add | src/topic_manager.rs:132-165 | file, writer, buffer, backend and metadata become exactly those of the broker's add; a refused record, as any text for a topic with a schema, leaves all five alone; without a schema the record is logged as it came, and published with the buffer at the threshold |
| TopicManagers.TopicManager.Fetch | src/topic_manager.rs:167-169 | returns the fetch of what is published and changes nothing a caller sees |
| TopicManagers.TopicManager.Create | src/topic_manager.rs:171-186 | fails if and only if the topic is known, and then changes nothing; otherwise the topic gets the schema it is created with and no other metadata changes |
| TopicManagers.TopicManager.ReadEntry | src/topic_manager.rs:199-228 | the reads of one iteration, with every error in the order the code meets it |
| TopicManagers.TopicManager.Restore | src/topic_manager.rs:217-236 | a replayed batch creates its missing topic, and the record goes to the backend |
| TopicManagers.TopicManager.Recover | src/topic_manager.rs:188-244 | over any file, backend and metadata grow by the replayed entries and the result is the parser's; over any file that is the beginning of a log it is Ok, or the end of the input, or a topic cut within a character, as the cut has it |
| TopicManagers.StartUp | src/server.rs:224-242 | over the bytes of entries that fit, start-up succeeds and the objects hold exactly the recovered broker |
| BrokerState.WrittenBytes | src/wal.rs:42 | the bytes that a write leaves in file and writer are those of whole entries, for each of the three ways the writer can take it |
| BrokerState.PendingBounded | src/wal.rs:32-42 | the writer never holds more than 1365 entries, whatever the threshold |
| BrokerState.CreatedTopic | src/topic_manager.rs:171-186 | a topic created without a schema stores every record as it came, and creating one changes nothing for the others |
| BrokerState.CreatedWithSchema | src/topic_manager.rs:171-186 | a topic created with a schema stores the first batch of a stream of that schema and refuses any other stream with a batch |
| BrokerState.AddKeepsInv | src/topic_manager.rs:132-165 | an accepted record is the next entry of the log and is published exactly when the buffer reaches the threshold, a refused one changes nothing, and published entries stay in the file |
| BrokerState.CrashRecovers | src/topic_manager.rs:188-244 | recovery succeeds, extends what was published, is a prefix of what was accepted that misses no more than buffer and writer have room for, restores metadata, and is idempotent |
| BrokerState.RecoveredExact | src/topic_manager.rs:188-244 | recovery gives back all entries in the file and succeeds if and only if these fit the format |
| BrokerState.TornCrash | src/topic_manager.rs:198-241 | from a file cut anywhere in what the writer held and the entry being added, the complete entries are replayed, all published ones among them, missing no more accepted ones than buffer and writer have room for, and any error is that of the entry cut |
| Clients.Request | src/client.rs:157-165 | the offset committed for the group, and the response to a fetch from there |
| Clients.Consume | src/client.rs:150-176 | returns the parts of the response and commits the offset advanced by their number, or returns nothing and commits nothing |
| Clients.ConsumeRecordBatches | src/client.rs:178-211 | returns the batches of the response and commits the offset advanced by their rows; where the next record is text it is an error, and on any error offsets and file are unchanged |
| Clients.ConsumeRound | src/client.rs:107-145 | one round advances the local offset by the rows decoded and commits it; a part that is no UTF-8 is an error, and on an error or an empty response nothing is committed |
| Clients.ReadAny | src/client.rs:116-143 | batches or text, as the first bytes have it, with the number of rows or the error of the first bad part |
| Clients.ReadStream | src/client.rs:197-205 | the reading loop gives exactly the batches of the stream, and the sum of their rows, or the error of what is no stream |
| Clients.Commit | src/client.rs:289-305 | the group's offset is replaced, in memory and in the file |
| Consumers.HandedExact | src/client.rs:116-205 | for any topic, offset and call, the rows handed over are the rows from the offset to the end of the log if and only if the records left are of the kind the call understands |
| Consumers.TextIsNoBatch | src/client.rs:194-203 | where the next record is non-empty text, consume_record_batches is an error and commits nothing, whatever records follow |
| Consumers.NoTextFails | src/client.rs:116-143 | a response without the marker is, for consume_continuos, an error if it begins like an Arrow file or a part of it is no text, and its parts otherwise |
| Consumers.BadTextFails | src/client.rs:116-143 | where zero-free raw records are left, one of them no text, a round of consume_continuos is an error and commits nothing, if the response has no marker |
| Consumers.RawConsumeAdvance | src/client.rs:170-174 | where raw records are left the advanced offset is the end of the log seen, plus one for every zero byte inside them |
| Consumers.BatchesAreNoText | src/client.rs:166-170 | splitting on zero bytes never gives the rows where a batch is left |
| Consumers.CallsCompose | src/client.rs:150-211 | what is handed over at k, and later from the offset reached, is what one later call at k is handed, decoded, if the call understands the records left at each of the three fetches |
| Consumers.SniffText | src/client.rs:116-143 | text records are decoded as such exactly when the response does not begin like an Arrow file |
| Consumers.SniffBatches | src/client.rs:124-135 | a stream of batches is always recognized and decoded whole |
| CrashRuns.RunsSurviveCrashes | src/wal.rs:82-99 | after any run recovery gives a prefix of the accepted entries that extends the published ones and misses at most the lesser of max(n, 1) - 1 and 1365 |
| CrashRuns.LossReachesBound | src/topic_manager.rs:160-163 | for every threshold some run, with the writer the code has, loses that many entries |
| CrashRuns.RunsSurviveTornWrites | src/wal.rs:38-99 | after any run, a crash within the add of any record, which may cut that entry too, loses nothing published and no more accepted records than a crash between calls, whether or not the server then starts |
| CrashRuns.TornCrashesAreRuns | src/server.rs:224-242 | where the server starts from a torn file, the state it starts in is one that a run reaches |
| CrashRuns.RunsBoundTheBuffer | src/wal.rs:101-108 | between calls the buffer is empty or shorter than the threshold |
| CrashRuns.RowsKeepTheirOffsets | src/storage/in_memory_log.rs:35-145 | an offset that denotes a row denotes it forever, through calls and crashes |
| CrashRuns.RunsOrderTopics | src/topic_manager.rs:132-186 | in every run, crashes included, topics hold raw records and then batches of the schema in the metadata |
| CrashRuns.HandedInRuns | src/client.rs:116-205 | at any moment of any run, with crashes and whatever calls before, a call at any offset is handed exactly the rest of the log if and only if it understands the records left |
| CrashRuns.RawCommitsInRuns | src/client.rs:166-174 | where raw records are left, the offset consume commits stays within the log if and only if they are zero-free |
| CrashRuns.CallsComposeOverRuns | src/client.rs:150-211 | what two calls at different times of a run are handed, decoded, is what one later call is handed, if the call understands the records left at each of the three fetches |
| ConsumerRuns.CrashKeepsOffsets | src/offset_manager.rs:35-92 | a new process always starts, with the committed offset of every key that has no colon in its group and no rival, and a log no shorter than was published |
| ConsumerRuns.OffsetsNeverRunAhead | src/client.rs:150-211 | if the group's commits understand what they commit, its persisted offset never exceeds the rows a crash leaves of its topic, whatever other groups do and are called |
| ConsumerRuns.FetchedToTheEnd | src/client.rs:165-174 | a client that commits was handed the log from the offset it had asked for to the end |
| ConsumerRuns.ConsumersSeeNoGap | src/client.rs:150-211 | for any number of consumers of a group, with crashes, lost commits and other requests in between, the rows received are a prefix of the log at all times |
| ConsumerRuns.ExactlyOnceIffInTurn | src/client.rs:150-211 | over a whole run the completed calls have delivered exactly the first committed rows at every moment if and only if every commit lands on the offset its rows begin at |
| ConsumerRuns.CompletedConsumesAreTheLog | src/client.rs:150-211 | where commits land in turn, the completed calls delivered exactly the first committed rows |
| ConsumerRuns.LandingFirstIsInTurn | src/client.rs:154-174 | a group whose commits land before it fetches again is served exactly once |
| ConsumerRuns.OneClientIsInTurn | src/client.rs:98-147 | one client alone, such as a consume_continuos with all its rounds on one connection, is served exactly once |
| ConsumerRuns.BatchOffsetRunsAhead | src/topic_manager.rs:154-157 | for every threshold: a batch produced to a topic without metadata and consumed as batches commits its number of rows over a log of one |
| ConsumerRuns.ZeroBytesRunAhead | src/client.rs:170-174 | for every threshold: consuming one raw record commits one row more for every zero byte in it |
| ConsumerRuns.PendingCommitRepeats | src/client.rs:289-305 | for every threshold: a call made before the last commit has landed delivers and commits the same rows again |
| LockSteps.LogOrderIsPublicationOrder | src/wal.rs:38-99 | under every interleaving file and writer parse to published, buffered and at most one entry in flight, whose writer holds the file lock |
| LockSteps.UnsyncedWasAddedInWindow | src/wal.rs:82-99 | an entry published and not in the file was written and pushed between the file flush and the buffer drain of the call that published it |
| LockSteps.WriteAheadOutsideWindows | src/wal.rs:82-99 | a sufficient condition: in a run where no push falls between a flush and its drain, published entries are always in the file |
| LockSteps.BufferBound | src/wal.rs:89-108 | the buffer exceeds its sequential bound by at most the threads between push and end of call |
| LockSteps.InterleavingsOrderTopics | src/topic_manager.rs:132-186 | under every interleaving topics hold raw records and then batches of the schema in the metadata |
| LockSteps.TornWrite | src/wal.rs:38-87 | under every interleaving, from a file cut anywhere in what the writer held and the entry in write, the complete entries are replayed, among them all that were in the file |
| WriteAheadLimits.UnsyncedBound | src/wal.rs:82-99 | with k threads at most the lesser of Excess(n, k) and 1365 entries are published and not in the file, under every interleaving |
| WriteAheadLimits.ExcessInNumbers | src/wal.rs:101-108 | Excess(n, k) is (k - 1) * (n - 1) + k * (k - 1) / 2, or k - 1 for a threshold of zero |
| WriteAheadRuns.StrictWriteAheadFails | src/wal.rs:87-92 | for every threshold and any set of threads a run with the writer the code has attains the bound, and a crash takes exactly those records back |
| WriteAheadRuns.WriteAheadIffOneThread | src/wal.rs:82-99 | published entries are in the file at every moment of every run if and only if at most one thread adds |
| OffsetsUnderThreads.OffsetsSurviveIffOneThread | src/client.rs:150-211 | whenever a call that understands commits and whenever the process then dies, the recovered log holds all rows before that offset, under every interleaving of adders, if and only if at most one thread adds |

## Left out

- TCP, tokio, listeners, request framing and response sizes: plumbing; a request is the direct call it makes.
- The Kafka and JSON message codecs: foreign code around direct calls of the topic and offset managers.
- Arrow IPC bytes, arrays and schemas: replaced by the codec of `ArrowStream`, whose lengths are unbounded and whose
  messages all begin with the marker; streams of Arrow before 0.15 have none.
- The JSON text of the offset file, and a crash within writing it: the file is a map written at once.
- The printing and sleeping of `consume_continuos`: a round of its loop is `Clients.ConsumeRound`, its rounds among other requests are those of `CrashRuns`.
- Deadlock freedom: it is false, since the log backend takes its two locks in opposite orders in `add` and `fetch`; one backend call is one step here.
- Lock poisoning, disk errors, a write that accepts only part of an entry, and a log file removed while the server starts.
- Machine-integer overflow of row counts and offsets: they are unbounded integers, except for the casts to u32 and to usize.
- Commits by clients that do not follow the protocol, which may set any offset.
- The queue backend under threads or behind the write-ahead log: the server runs the log backend.
- Two commits at once: inserting the offset and writing the file is one step.
- CrashRuns.RunsSurviveCrashes: all records accepted must fit the log format. `RecoveredExact` gives the exact condition for one recovery, that the entries in the file fit; a record that does not fit and never reaches the file does no harm.
- CrashRuns.RunsSurviveTornWrites: under the same condition, and with one thread adding; `TornWrite` is its form for threads.
- CrashRuns.HandedInRuns: under the same condition, as all of CrashRuns.
- CrashRuns.CallsComposeOverRuns: the call must understand the records left at each of the three fetches, as `HandedInRuns` shows to be needed of each.
- Consumers.CallsCompose: under the same condition on the three fetches.
- Consumers.BadTextFails: a response that has the marker is read as a stream, whatever the records left are.
- ConsumerRuns.OffsetsNeverRunAhead: the group's commits must understand the records left, its name have no colon and its key no rival, and the broker's calls are atomic; `BatchOffsetRunsAhead`, `ZeroBytesRunAhead`, `KeyRestoredExact` and `OffsetsSurviveIffOneThread` show what happens otherwise.
- ConsumerRuns.ConsumersSeeNoGap: under the same conditions.
- ConsumerRuns.ExactlyOnceIffInTurn: under the same conditions.
- LockSteps.LogOrderIsPublicationOrder: the records added must fit the log format, as part of what `Begin` asks.
- LockSteps.UnsyncedWasAddedInWindow: under the same condition.
- LockSteps.WriteAheadOutsideWindows: under the same condition.
- LockSteps.BufferBound: under the same condition.
- LockSteps.InterleavingsOrderTopics: under the same condition.
- WriteAheadLimits.UnsyncedBound: under the same condition.
- WriteAheadRuns.WriteAheadIffOneThread: under the same condition.
- LockSteps.TornWrite: under the same condition.
- OffsetsUnderThreads.OffsetsSurviveIffOneThread: under the same condition; the commits and the file of the offset manager are those of one call at a time.
