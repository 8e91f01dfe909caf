# Verified model of a trace library

This Dafny 4.11 project models the parts of the STF trace library where state, concurrency and
formats meet, and proves what they promise. `dafny verify dfyconfig.toml` checks it.

## What is modelled

**Chunked compressed streams** (`Trace`, `OpcodePCs`, `ChunkFile`, `ChunkWriter`,
`CompressedOFstream`, `ChunkReader`, `ChunkPlaces`, `ChunkSeek`, `ChunkTrace`, `ChunkMoves`,
`CompressedIFstream`). The writer fills one buffer while a task compresses the other, appends the
chunk and a new index, and patches the header. The reader switches chunks by counting markers while
a task fetches the next chunk. The state is split into what the caller owns and what the task owns
between launch and join, and a task is a sequence of atomic steps; a run is any interleaving of
calls and task steps. The records of a trace are sequences of fields; opcodes are the markers. The
codec is an arbitrary pair of functions that is lossless on one chunk. Every interleaving of the
writer leaves the file of a synchronous one; every interleaving of the reader returns what the
single-threaded reader and a flat read return, also when the client seeks or rewinds in between;
seeking by chunk lands where reading marker by marker lands. Where an opcode stands is stated from
the records alone.

**Sliding window** (`SlidingWindow`). A circular buffer refilled by halves under a moving iterator,
over a source of items some of which are skipped, with sticky end of file. Slots, masks and the
buffered count are in 64-bit arithmetic, for every power-of-two size of at least 4.

**Versioned page table** (`FlatMaps`, `PageWalk`, `PageTableLog`, `PageTableReplay`, `PageTable`,
`PteReader`). Entries, SATP values and modes by the instruction index at which they become valid,
against a log that is replayed up to an index and then walked, for Sv32, Sv39, Sv48 and Sv57. The
library's walk and that of section 4.3.2 of the RISC-V Privileged Architecture (version 20211203)
are separate definitions, and where they agree is stated exactly. The reader thread and its clients
are a state machine over locked steps.

**Record order and header** (`Descriptors`, `Records`, `RecordMap`, `RecordOrder`, `GroupOutput`,
`Header`, `HeaderRuns`, `HeaderReads`, `WriterRuns`, `STFWriter`, `STFReader`). The record map with
its sorted view, the generator that writes an instruction's records, the check the writer makes on
each, and the header's writer and reader. Which traces the writer lets through, and which headers
the reader takes, is stated of whole traces, in both directions.

**Compact cores** (`CombinedView`, `RegState`, `CompressionBuffer`, on top of `Bits`): the iterator
over two vectors, register state with aliased fields, and the growing buffers.

Classes carry the fields of the library's classes and are proved, method by method, against
functions on values; the properties are lemmas about those functions.

## What turned out different from the documentation or the intent

- A fast seek of the sliding window from an iterator on the oldest item of a full window that wraps
  computes a buffered count of zero and lands a whole buffer too far
  (`SlidingWindow.BufferedReader.Seek`, `SlidingWindow.StaleSeekLandsTooFar`). No iterator just
  returned by begin or an increment is there (`SlidingWindow.BufferedReader.SeekLeading`).
- The read that finds the end of file resets its slot, which is the window's oldest item once the
  buffer has filled; from then on the check also lets older iterators through
  (`SlidingWindow.BufferedReader.DerefExactly`, `SlidingWindow.BufferedReader.PassesExactly`,
  `SlidingWindow.LostItemReadsBlank`).
- The translation reader waits until the asked index is at most the published one, but a SATP state
  record takes the published index itself, so only indices strictly below are safe
  (`PteReader.AnswerAtPublishedIndexCanChange`).
- An entry on the way that is invalid (V clear, writable without readable, or a reserved encoding)
  and a misaligned superpage are page faults in the architecture and addresses here
  (`PageWalk.WalkMeetsArchitecture`, `PageWalk.InvalidEntryTranslates`,
  `PageWalk.MisalignedSuperpageTranslates`).
- A compressed seek to the very end of a trace whose last chunk is full throws, although reading
  there one marker at a time succeeds (`ChunkSeek.FastSeekIsSlowSeek`,
  `ChunkMoves.EndOfFullTraceIsRefused`).
- Flushing the header before finalizing it can lose the 64-bit event feature
  (`HeaderRuns.FlushLosesEvent64`, `HeaderRuns.EarlyFlushLosesEvent64`); a process ID or extended ISA
  string set after the flush can be dropped without a word (`HeaderRuns.LateOptionalDropped`,
  `HeaderRuns.LateProcessIdIsDropped`), and a first comment or a vector length set after it can make
  finalizing throw (`HeaderRuns.LateSettersRefused`).
- Targets of events that are left over are dropped without a word, while unequal numbers of accesses
  and contents throw (`GroupOutputs.SurplusTargetsDropped`).
- An IEM record has a smaller written value than the end of the header: an instruction with one is
  refused right behind the header, unless it has a comment too (`RecordOrder.GroupAccepted`,
  `RecordOrder.FirstIemIsRefused`).
- Writing a register that has fields replaces its whole word, also the fields that share no bit with
  what the register itself shows: in the 32-bit bank a write of MSECCFG clears MSECCFGH
  (`RegStates.SurvivesExactly`, `RegStates.LowHalfWipesHigh`).
- The doubling loop of the growing buffer does not end for sizes above half of 64 bits unless an
  early shift reaches them, and from a power of two none does (`CompressionBuffers.DoublingEndsExactly`,
  `CompressionBuffers.DoublingNeverEnds`).
- A doubling buffer that is given a first size allocates its granule and not that size; the
  compressed writer gives a granule of one, so its chunk buffers start at one byte whatever the block
  size (`CompressionBuffers.CompressionBuffer.InitSize`).

## Assumptions

The number of markers per chunk is at least one. Words in a written file (offsets, sizes, counts) fit
64 bits. The first field of a record and the opcode bytes of an opcode are not empty. A client of the
reader asks for the fields that the record has. Seeks start where no branch target is pending, which
holds at every marker and behind a header without targets. In the register bank a parent is no field
of another register and a shifted mask fits 64 bits. Clocks, threads and locks appear only as the
atomic steps of the state machines.

## Model

| member | source | states |
|---|---|---|
| ChunkFile.FinishChunk | stf-inc/stf_compressed_ofstream.hpp:181-221 | writing a chunk over the old index, a new index after it and the new end into the header gives exactly the file of one chunk more; no byte of the old index is left |
| ChunkFile.LayoutMeaning | stf-inc/stf_compressed_ofstream.hpp:181-221 | the file byte by byte: magic, markers per chunk, end of the chunks, and there the number of chunks and for each its offset, start PC and size, all as eight bytes with the least significant first |
| ChunkFile.TruncatedDoesNotOpen | stf-inc/stf_compressed_ifstream_base.hpp:412-460 | a file that is cut short anywhere, even inside the index, does not open |
| ChunkFile.OpenRoundTrip | stf-inc/stf_compressed_ifstream_base.hpp:412-460 | a file with at least one finished chunk opens to its own chunk size, end of chunks and index |
| ChunkFile.NoChunkDoesNotOpen | stf-inc/stf_compressed_ofstream.hpp:313-341 | before the first chunk is finished the end word is zero and the file does not open |
| ChunkFile.ChunkSlice | stf-inc/stf_compressed_ifstream_base.hpp:185-214 | between a chunk's offset and the next one (or the end) the file holds exactly that chunk's compressed bytes |
| ChunkFile.OffsetsIncrease | stf-inc/stf_compressed_ofstream.hpp:220 | each offset in the index is the previous one plus the length of the chunk between |
| ChunkFile.WordRoundTrip | stf-inc/stf_compressed_ofstream.hpp:71-75 | a 64-bit little-endian word reads back |
| ChunkFile.EntriesRoundTrip | stf-inc/stf_compressed_ifstream_base.hpp:115-124 | an index of entries of three words reads back |
| Trace.SplitMeaning | stf-inc/stf_compressed_ofstream.hpp:343-352 | closing a chunk at each marker that fills it divides the records, losing none, into chunks that hold exactly the configured number of markers and end on one, and an open chunk that is not full |
| Trace.SamePCsStay | stf-inc/stf_pc_tracker.hpp:90-110 | trackers that agree on next PC and pending branch agree on the PC of every later opcode |
| Trace.ForcePCResumesExactly | stf-inc/stf_pc_tracker.hpp:75-78 | forcing a boundary's PC resumes the tracker exactly when no branch target is pending |
| Trace.NoBranchAfterMarker | stf-inc/stf_pc_tracker.hpp:100-110 | after an opcode no branch target is pending |
| Trace.TrackedPCsAreWords | stf-inc/stf_pc_tracker.hpp:90-110 | tracked PCs stay 64-bit words |
| OpcodePCs.NextPCMeaning | stf-inc/stf_pc_tracker.hpp:90-110 | the tracker's next PC is the only address that the records themselves give: the last forced PC, or the last target given to the last opcode that had one, or 0, plus the sizes of all opcodes since, in 64 bits |
| OpcodePCs.PendingTarget | stf-inc/stf_pc_tracker.hpp:90-110 | a target is pending exactly when one follows the last opcode, and the last such one counts |
| OpcodePCs.OpcodePC | stf-inc/stf_pc_tracker.hpp:100-110 | every opcode's own PC is where the records before it say, so a jump's target is that of the opcode behind it |
| OpcodePCs.NextPCIsUnique | stf-inc/stf_pc_tracker.hpp:90-110 | a run of records gives no more than one next PC |
| ChunkWriter.EveryInterleavingIsSynchronous | stf-inc/stf_compressed_ofstream.hpp:118-154 | however the compression task's steps fall between the caller's calls, the writer ends in the state of one that waits for every task |
| ChunkWriter.CompressChunk | stf-inc/stf_compressed_ofstream.hpp:136-154 | buffers change hands only after the join: the caller gets an empty buffer and the task starts with empty output |
| ChunkWriter.TaskFinishesChunk | stf-inc/stf_compressed_ofstream.hpp:129-134 | the task takes the file of some chunks to the file of one more, with true size, offset and the start PC of the next, and leaves both buffers empty |
| ChunkWriter.BoundaryMeaning | stf-inc/stf_compressed_ofstream.hpp:343-352 | the marker count crosses the chunk end exactly when the open chunk is full |
| ChunkWriter.RecordWritten | stf-inc/stf_record_interfaces.hpp:299-303 | writing one record (descriptor, tracking, data, marker callback) takes the writer's whole state from that of some records to that of one more |
| ChunkWriter.SynchronousRun | stf-inc/stf_compressed_ofstream.hpp:118-154 | after any records the finished chunks of the split are in the file and the open one is in the buffer |
| ChunkWriter.EveryRun | stf-inc/stf_compressed_ofstream.hpp:118-221 | in every interleaving, once the task is at rest the file is that of the finished chunks and of nothing else |
| ChunkWriter.KeptMeaning | stf-inc/stf_compressed_ofstream.hpp:226-245 | the chunks a closed file keeps hold a marker-terminated prefix of the records, all of it exactly when the last record is a marker; all but the last are full |
| ChunkWriter.StartPcMeaning | stf-inc/stf_compressed_ofstream.hpp:149-152 | a chunk's start PC is where the records before the chunk say that its first opcode stands |
| ChunkWriter.CloseAfter | stf-inc/stf_compressed_ofstream.hpp:226-245 | close writes the open chunk exactly when it ends on a marker |
| ChunkWriter.ClosedFile | stf-inc/stf_compressed_ofstream.hpp:226-245 | in every interleaving, close leaves exactly the file of the kept chunks |
| ChunkWriter.ClosedInsideRecord | stf-inc/stf_compressed_ofstream.hpp:229-237 | closing in the middle of a record drops the open chunk and keeps the finished ones |
| ChunkWriter.DecodedChunks | stf-inc/stf_compressed_ifstream_base.hpp:185-214 | decompressing the chunks of such a file one by one gives the bytes of their records |
| ChunkWriter.WriteCloseOpenDecode | stf-inc/stf_compressed_ofstream.hpp:118-341 | write in any interleaving, close, open, decode: the bytes of the kept records, with true sizes in the index and, for each chunk, the PC at which the records before it say that it starts; all records when the last was a marker |
| CompressedOFstreams.CompressedOFstream.constructor | stf-inc/stf_compressed_ofstream.hpp:313-341 | open leaves the specified initial state |
| CompressedOFstreams.CompressedOFstream.AdvanceTask | stf-inc/stf_compressed_ofstream.hpp:129-221 | one step of the task in place is the specified step |
| CompressedOFstreams.CompressedOFstream.JoinTask | stf-inc/stf_compressed_ofstream.hpp:136-140 | waiting runs the task to its end |
| CompressedOFstreams.CompressedOFstream.CompressChunk | stf-inc/stf_compressed_ofstream.hpp:136-154 | join, swap and launch in place are the specified ones |
| CompressedOFstreams.CompressedOFstream.Fwrite | stf-inc/stf_compressed_ofstream.hpp:118-127 | appends to the current buffer and marks the chunk pending and incomplete |
| CompressedOFstreams.CompressedOFstream.TrackPC | stf-inc/stf_pc_tracker.hpp:90-110 | updates the tracker as specified for each kind of record; what the specified tracker holds is stated by NextPCMeaning |
| CompressedOFstreams.CompressedOFstream.MarkerRecordCallback | stf-inc/stf_compressed_ofstream.hpp:343-352 | counts a marker and ends the chunk at the boundary |
| CompressedOFstreams.CompressedOFstream.WriteRecord | stf-inc/stf_record_interfaces.hpp:299-303 | a whole record is its calls, in order |
| CompressedOFstreams.CompressedOFstream.Close | stf-inc/stf_compressed_ofstream.hpp:226-245 | close leaves the specified file |
| CompressedOFstreams.WriteAll | stf-inc/stf_compressed_ofstream.hpp:118-245 | a stream given records one by one and closed has written exactly the file of the kept chunks |
| ChunkReader.EveryInterleavingIsSynchronous | stf-inc/stf_compressed_ifstream.hpp:53-113 | however the prefetch task's steps fall between reads, cancellations and jumps, every read returns what it returns when each task ends at once, provided no read finds a consumed buffer and no jump starts while a task runs |
| ChunkPlaces.ChunkFetched | stf-inc/stf_compressed_ifstream_base.hpp:185-214 | a chunk is read whole, the clamps of the direct read never shorten it, and its own bytes come out |
| ChunkPlaces.FieldsRead | stf-inc/stf_compressed_ifstream_base.hpp:234-267 | reading fields that lie ahead in the buffer returns exactly them, and no read finds the buffer consumed |
| ChunkPlaces.RecordAhead | stf-inc/stf_compressed_ifstream_base.hpp:234-247 | a record never crosses the end of the output buffer, and the buffer is not consumed before the record's last field |
| ChunkPlaces.ChunkEntered | stf-inc/stf_compressed_ifstream.hpp:94-101 | at a boundary the next chunk is in the output buffer, and the one after is fetched if there is one |
| ChunkPlaces.MarkerCounted | stf-inc/stf_compressed_ifstream.hpp:149-162 | counting a marker moves to the next place; when a boundary is crossed the buffer was fully consumed |
| ChunkPlaces.RecordRead | stf-inc/stf_record_interfaces.hpp:309-316 | reading a record returns its fields, leaves at an opcode the PC where the records before it say that it stands, and stands behind it |
| ChunkPlaces.RecordsRead | stf-inc/stf_compressed_ifstream_base.hpp:228-267 | either reader, asked for the records that follow, returns exactly their fields in order, the same as a flat read of the chunks |
| ChunkPlaces.EndSeenExactly | stf-inc/stf_compressed_ifstream_base.hpp:33-57 | between records all input is consumed exactly at the end of the trace |
| ChunkPlaces.PosAt | stf-inc/stf_compressed_ifstream_base.hpp:377-391 | the place behind the first n records is unique and its prefix is those records |
| ChunkTrace.OpenStandsAtStart | stf-inc/stf_compressed_ifstream.hpp:139-144 | open stands before the first record |
| ChunkTrace.WrittenFileHolds | stf-inc/stf_compressed_ofstream.hpp:181-245 | the file the writer leaves meets everything the reader relies on |
| ChunkTrace.PrefetchingReads | stf-inc/stf_compressed_ifstream.hpp:53-162 | in every interleaving, from any place, the prefetching reader returns exactly the fields of the records that follow |
| ChunkTrace.PrefetchingIsSingleThreaded | stf-inc/stf_compressed_ifstream_single_threaded.hpp:48-93 | the single-threaded reader at the same place, given the same calls, returns the same and ends with the same buffer, counters and PCs |
| ChunkTrace.EndOfTrace | stf-inc/stf_compressed_ifstream_base.hpp:219-226 | in every interleaving a read returns nothing, and the stream ends, exactly after the last record |
| ChunkTrace.EndHasNoTask | stf-inc/stf_compressed_ifstream.hpp:53-64 | the output buffer is found consumed between records only when no chunk and no task remains |
| ChunkTrace.WriteThenRead | stf-inc/stf_compressed_ofstream.hpp:118-341 | records written in any interleaving and read in any interleaving come back, for every prefix the file kept |
| ChunkTrace.HeaderNoted | stf-inc/stf_compressed_ifstream_base.hpp:526-536 | noting trace start and initial PC behind the header is all that rewinding and seeking from an offset rely on |
| ChunkMoves.MovesUnderEveryInterleaving | stf-inc/stf_compressed_ifstream_base.hpp:466-514 | in every interleaving, any run of reads, seeks, rewinds and seeks from an offset gets exactly the fields of the records it asks for, and stands behind the last one |
| ChunkMoves.SlowSeekIsReading | lib/stf_ifstream.cpp:6-18 | a seek by single records that goes through makes the calls of reading those records, and no others |
| ChunkMoves.SeekIsMove | stf-inc/stf_compressed_ifstream_base.hpp:466-482 | a seek that goes through is one such move: nothing or a jump, then reading up to the target |
| ChunkMoves.EndOfFullTraceIsRefused | stf-inc/stf_compressed_ifstream_base.hpp:466-482 | a trace of one full chunk: seeking to its end throws, reading up to it does not |
| ChunkSeek.MarkersBehind | stf-inc/stf_compressed_ifstream_base.hpp:377-380 | a reader's marker count is that of the records behind it, and the next boundary lies ahead |
| ChunkSeek.JumpLands | stf-inc/stf_compressed_ifstream_base.hpp:377-398 | a jump to a chunk lands at its start (behind the header in the first) with the count, boundary, fetched chunks and PCs of a sequential reader |
| ChunkSeek.JumpIsOnTheWay | stf-inc/stf_compressed_ifstream_base.hpp:466-482 | a seek by single records passes the place where the jump lands |
| ChunkSeek.SeekIndexMeaning | lib/stf_ifstream.cpp:6-18 | where a seek stops: right behind the marker sought, unless enough were behind from the start, and at the end if there are too few |
| ChunkSeek.SlowSeekLands | lib/stf_ifstream.cpp:6-18 | reading one record at a time stops behind the target marker; it throws exactly when the trace has too few and a read is attempted |
| ChunkSeek.FastSeekIsSlowSeek | stf-inc/stf_compressed_ifstream_base.hpp:466-482 | seeking by chunk lands where reading one record at a time lands; it throws exactly when CanSeek is false, which of the targets that exist refuses only the end of a trace whose last chunk is full |
| ChunkSeek.RewindLands | stf-inc/stf_compressed_ifstream_base.hpp:487-491 | rewinding, from any state without a pending branch, stands behind the header with the initial PC |
| ChunkSeek.SeekFromOffsetLands | stf-inc/stf_compressed_ifstream_base.hpp:505-514 | seeking from a marker count lands where reading from the header on would, or throws if that does not exist |
| CompressedIFstreams.CompressedIFstream.constructor | stf-inc/stf_compressed_ifstream_base.hpp:412-460 | open leaves the specified state |
| CompressedIFstreams.CompressedIFstream.AdvanceTask | stf-inc/stf_compressed_ifstream_base.hpp:185-214 | one step of the prefetch task in place is the specified step |
| CompressedIFstreams.CompressedIFstream.FinishDecompression | stf-inc/stf_compressed_ifstream.hpp:94-101 | joins the task and takes over its buffer, as specified |
| CompressedIFstreams.CompressedIFstream.ReadNextChunk | stf-inc/stf_compressed_ifstream.hpp:60-77 | launches the next task, reads on the spot, or consumes the spare buffer, as specified |
| CompressedIFstreams.CompressedIFstream.Fread | stf-inc/stf_compressed_ifstream_base.hpp:219-267 | hands out the next bytes, or fails at the end of input, as specified |
| CompressedIFstreams.CompressedIFstream.MarkerRecordCallback | stf-inc/stf_compressed_ifstream.hpp:149-162 | counts a marker and crosses the boundary, as specified |
| CompressedIFstreams.CompressedIFstream.ReadRecord | stf-inc/stf_record_interfaces.hpp:309-316 | on a running stream, whatever its task has done: the record's own fields, for an opcode the PC where the records before it say that it stands, and the next place |
| CompressedIFstreams.CompressedIFstream.CancelCurrentChunks | stf-inc/stf_compressed_ifstream.hpp:103-108 | throws away what is buffered, joining the task, as specified |
| CompressedIFstreams.CompressedIFstream.SeekToChunk | stf-inc/stf_compressed_ifstream.hpp:110-113 | moves to a chunk, as specified |
| CompressedIFstreams.CompressedIFstream.SeekRecords | lib/stf_ifstream.cpp:6-18 | the seek loop stops at the place of the target marker, and fails exactly as the slow seek does |
| CompressedIFstreams.CompressedIFstream.Seek | stf-inc/stf_compressed_ifstream_base.hpp:466-482 | on a running stream: true exactly when CanSeek, and then at the place of the target marker |
| CompressedIFstreams.CompressedIFstream.Rewind | stf-inc/stf_compressed_ifstream_base.hpp:487-491 | on a running stream: back behind the header |
| CompressedIFstreams.CompressedIFstream.SeekFromOffset | stf-inc/stf_compressed_ifstream_base.hpp:505-514 | on a running stream: at the place of the target marker exactly when it exists inside a chunk |
| CompressedIFstreams.CompressedIFstream.SetInitialPC | stf-inc/stf_compressed_ifstream_base.hpp:533-536 | the first chunk's start PC becomes the header's |
| SlidingWindow.OverwriteNext | stf-inc/stf_buffered_reader.hpp:339-376 | overwriting the slot after the newest item can only hurt the oldest item of a full window |
| SlidingWindow.BufferedReader.ReadNextItem | stf-inc/stf_buffered_reader.hpp:382-385 | resets the slot, then fills it with the next item unless the source is exhausted; a skipped item does not count |
| SlidingWindow.BufferedReader.InitItemBuffer | stf-inc/stf_buffered_reader.hpp:150-187 | the fresh buffer holds the next kept items from its first slot on; false exactly when none is left |
| SlidingWindow.BufferedReader.FillHalfBuffer | stf-inc/stf_buffered_reader.hpp:339-376 | adds up to half a buffer of kept items behind the newest and moves both ends by their number; fewer only at the end of the source |
| SlidingWindow.BufferedReader.PassesExactly | stf-inc/stf_buffered_reader.hpp:194-198 | the window check accepts exactly the window, and everything older once the oldest item was lost at the end of the source |
| SlidingWindow.BufferedReader.DerefExactly | stf-inc/stf_buffered_reader.hpp:206-220 | an iterator handed out since the buffer was built dereferences to its own item exactly when that item is in the window and not the one lost at the end |
| SlidingWindow.BufferedReader.PassingDerefsToItself | stf-inc/stf_buffered_reader.hpp:194-220 | until the source reports its end, an iterator that passes the check dereferences to its own item |
| SlidingWindow.BufferedReader.Current | stf-inc/stf_buffered_reader.hpp:568-573 | which answer every iterator gets: its item, out of window, none, an empty item for the one lost at the end of the source, or (only past that end) a wrong one |
| SlidingWindow.BufferedReader.MoveToNextItem | stf-inc/stf_buffered_reader.hpp:267-295 | an iterator in the window moves to the next kept item, or ends exactly at the last; one outside throws; half a buffer is read exactly when it stands on the item before the newest, and the item moved to is never the oldest one |
| SlidingWindow.BufferedReader.IsLastItem | stf-inc/stf_buffered_reader.hpp:227-235 | throws exactly when the window has left the iterator behind; else true exactly when the end was seen and it stands on the last kept item |
| SlidingWindow.BufferedReader.Begin | stf-inc/stf_buffered_reader.hpp:507-524 | a fresh or rebuilt buffer is entered at its first item, or at the end when it is empty; a buffer that has moved gives the head's index with slot 0 |
| SlidingWindow.BufferedReader.Increment | stf-inc/stf_buffered_reader.hpp:543-553 | stands on the next kept item, or is the end, and is never just past the tail |
| SlidingWindow.BufferedReader.Drain | stf-inc/stf_buffered_reader.hpp:543-573 | from any iterator to the end: every kept item from there on, once, in order, with consecutive indices, and no access trips the window check |
| SlidingWindow.BufferedReader.ReadAll | stf-inc/stf_buffered_reader.hpp:150-187 | begin to end of a fresh reader yields exactly the kept items with indices 1, 2, ... |
| SlidingWindow.BufferedReader.NumBufferedIs | stf-inc/stf_buffered_reader.hpp:707 | what the buffered count is in 64-bit arithmetic: right up to a wrap, then huge, and zero just past the tail |
| SlidingWindow.BufferedReader.SlowSeek | stf-inc/stf_buffered_reader.hpp:710-715 | n increments stand n items on |
| SlidingWindow.BufferedReader.JustPastTail | stf-inc/stf_buffered_reader.hpp:706-707 | the slot after the tail belongs to the oldest item of a full window that wraps, and to no other item |
| SlidingWindow.BufferedReader.SkipSource | lib/stf_ifstream.cpp:6-18 | skipping the source stops at its end, and throws when the trace is too short unless its end was seen and the stream then stays quiet |
| SlidingWindow.BufferedReader.Seek | stf-inc/stf_buffered_reader.hpp:706-725 | fast seek is n increments exactly unless the iterator stands on the oldest item of a full window; then it goes a whole buffer too far |
| SlidingWindow.BufferedReader.SeekLeading | stf-inc/stf_buffered_reader.hpp:706-725 | for every iterator just returned by begin or an increment, fast seek is n increments |
| SlidingWindow.StaleSeekLandsTooFar | stf-inc/stf_buffered_reader.hpp:706-725 | twelve items in a window of four: a seek by one from a copy left on item 3 lands on item 8 |
| SlidingWindow.LostItemReadsBlank | stf-inc/stf_buffered_reader.hpp:339-376 | five items in a window of four: item 2 is in the window and reads as an empty item |
| FlatMaps.FloorOfInsert | stf-inc/stf_page_table.hpp:276-294 | a new version is the floor from its index up to the next one, and nowhere else |
| FlatMaps.FloorOfAssign | stf-inc/stf_page_table.hpp:115-119 | an overwritten version changes the floor from its index up to the next one, and nowhere else |
| PageWalk.DecodeMeaning | stf-inc/stf_page_table.hpp:184-194 | shifts and masks of an entry are the architecture's page number and leaf test |
| PageWalk.Geometry | stf-inc/stf_virt_addr_modes.hpp:29-73 | levels and widths of Sv32, Sv39, Sv48 and Sv57: offset and page-number fields make up the virtual address, and a table fills a page |
| PageTableLog.SatpMeaning | stf-inc/stf_satp_decoder.hpp:20-166 | the register's fields: mode 8, 9 and 10 stand for 39, 48 and 57 bits of virtual address, 0 for no translation, and no other is known; on RV32 one bit turns Sv32 on; the rest is the root table's page number |
| PageWalk.VpnMeaning | stf-inc/stf_page_table.hpp:304-314 | shifting and masking an address gives the architecture's page-number field of the level |
| PageWalk.EntryAddrMeaning | stf-inc/stf_page_table.hpp:314 | the entry address is base plus index times entry size |
| PageWalk.AlignedLeaf | stf-inc/stf_page_table.hpp:341-343 | for an aligned leaf the result has the leaf's page number above the level's offset bits and the address's bits below |
| PageWalk.WalkRefines | stf-inc/stf_page_table.hpp:313-344 | over the memory the table stands for, the walk finds the first readable or executable entry that the levels' page-number fields lead to, and fails exactly when there is none |
| PageWalk.ArchTakesSameLeaf | stf-inc/stf_page_table.hpp:313-344 | the architecture's walk takes that same leaf exactly when no entry on the way is invalid and the leaf is aligned, and faults otherwise |
| PageWalk.WalkMeetsArchitecture | stf-inc/stf_page_table.hpp:299-344 | the walk's outcome is that of steps 2, 3, 4, 6 and 8 of section 4.3.2 of the RISC-V Privileged Architecture (version 20211203) exactly when it finds no leaf, or no entry on the way is invalid and the leaf is aligned |
| PageWalk.InvalidEntryTranslates | stf-inc/stf_page_table.hpp:184-194 | an entry with V clear and R set: the architecture faults, the walk gives an address |
| PageWalk.MisalignedSuperpageTranslates | stf-inc/stf_page_table.hpp:341-343 | a valid gigabyte page at page number 1: the architecture faults, the walk gives an address |
| PageTableReplay.PutInOrder | stf-inc/stf_page_table.hpp:262-297 | recording an entry in index order changes exactly the lookups of its address from its index on, also when an unchanged version is dropped |
| PageTableReplay.PutExactly | stf-inc/stf_page_table.hpp:262-297 | in whatever order updates come, an entry is refused exactly when it is known but has no version that old, or has a different one at that index; else it holds from its index up to the next version, and no other lookup changes |
| PageTableReplay.PutAllExactly | stf-inc/stf_page_table.hpp:262-297 | a walk is recorded to its end exactly when none of its entries is refused on its turn |
| PageTableReplay.AppliedExactly | stf-inc/stf_page_table.hpp:428-446 | an assertion stops exactly a walk without a translating SATP value in force or with an entry that is refused, and a new SATP value of an unknown mode |
| PageTableReplay.TableIsReplay | stf-inc/stf_page_table.hpp:262-297 | the table of versions holds, at every index, what replaying every write up to it holds |
| PageTableReplay.RunMeaning | stf-inc/stf_page_table.hpp:428-446 | an accepted log leaves the modes, SATP values and per-value tables that its events call for |
| PageTableReplay.TranslateIsReplay | stf-inc/stf_page_table.hpp:408-423 | translation is mode, SATP floor, then a walk over the replay of every write routed to that SATP value on arrival |
| PageTableReplay.TranslateMeetsArchitecture | stf-inc/stf_page_table.hpp:408-423 | and hence the architecture's translation over that memory, exactly when it is a fault, or no entry on the way is invalid and the leaf is aligned |
| PageTableReplay.RefusedExactly | stf-inc/stf_page_table.hpp:283-289 | an entry is refused exactly when another value is in force at the same index |
| PageTableReplay.LaterEventChangesNothing | stf-inc/stf_page_table.hpp:408-446 | an event above an index never changes a translation at it, success or failure |
| PageTable.PageTableMap.Update | stf-inc/stf_page_table.hpp:262-297 | recording a walk in place is the specified update; without translation it throws |
| PageTable.PageTableMap.Translate | stf-inc/stf_page_table.hpp:299-344 | the walk loop ends within the level count and gives the specified outcome |
| PageTable.PageTableImpl.Update | stf-inc/stf_page_table.hpp:428-437 | routes a walk to the table of the SATP value at its index |
| PageTable.PageTableImpl.UpdateSatp | stf-inc/stf_page_table.hpp:442-446 | the first SATP value at an index stays, a known value keeps its table, an unknown one gets an empty table |
| PageTable.PageTableImpl.UpdateMode | stf-inc/stf_page_table.hpp:115-119 | the last mode at an index stays |
| PageTable.PageTableImpl.Translate | stf-inc/stf_page_table.hpp:408-423 | gives the specified translation |
| PteReader.After | stf-inc/stf_pte_reader.hpp:50-117 | the reader thread keeps the table valid and never publishes an index beyond the instructions read |
| PteReader.PublishedExactly | stf-inc/stf_pte_reader.hpp:56-92 | while no assertion has failed, the instructions read are the opcodes read, and the published index is the larger of that number rounded down to ten thousands and that number at the last walk record |
| PteReader.AnsweredExactly | stf-inc/stf_pte_reader.hpp:178-190 | a request is answered at once exactly when reading is done or its index is at most one of these two; none waits for the end of the trace that need not |
| PteReader.EarlierInstructionsUnaffected | stf-inc/stf_pte_reader.hpp:56-114 | a SATP value written by an instruction, or a mode change under way, changes no answer up to and including that instruction's own index; a SATP state record none before the last instruction read; a walk record none before its first access |
| PteReader.ModeTakesEffect | stf-inc/stf_pte_reader.hpp:98-111 | from index 0 at the start of the trace, else from the instruction after the one being read, a mode change is the mode in force |
| PteReader.SatpTakesEffect | stf-inc/stf_pte_reader.hpp:65-80 | from its own index a SATP value is in force, unless one was already recorded at that index, which then stays |
| PteReader.WalkTakesEffect | stf-inc/stf_pte_reader.hpp:56-64 | at its first access index a walk record's entries are in the table of the SATP value in force there, the last one counting for each address; other addresses and other tables are as before |
| PteReader.EarlierAnswersStay | stf-inc/stf_pte_reader.hpp:50-117 | reading on never changes the answer for an index below the instructions already read |
| PteReader.SettledAnswersAreFinal | stf-inc/stf_pte_reader.hpp:178-196 | in every interleaving, an answer for an index below the published one, or after reading is done, is the answer after the whole trace |
| PteReader.PublishedAnswersAreFinal | stf-inc/stf_pte_reader.hpp:178-196 | a request below the opcodes read, rounded down to ten thousands, or below those before the last walk record, is answered at once with the answer of the whole trace |
| PteReader.FinalAtLastIndexExactly | stf-inc/stf_pte_reader.hpp:72-79 | at the last read index an answer is final exactly when no SATP value can still be written there |
| PteReader.AnswerAtPublishedIndexCanChange | stf-inc/stf_pte_reader.hpp:188 | the waiting condition lets an index equal to the published one through, and such an answer can be wrong: a trace that shows it |
| PteReader.TranslationReader.ReaderStep | stf-inc/stf_pte_reader.hpp:50-126 | one turn of the reader thread is the specified step, whose counts and published index PublishedExactly gives |
| PteReader.TranslationReader.Translate | stf-inc/stf_pte_reader.hpp:178-196 | answers exactly when the waiting condition allows, which AnsweredExactly gives, with the translation at that moment |
| Descriptors.TablesAreInverse | stf-inc/stf_descriptor.hpp:162-238 | the tables between written and internal values are inverse on the values in use |
| Descriptors.SortedSequence | stf-inc/stf_descriptor.hpp:265-276 | every descriptor appears in the sorted sequence once, in the order of the written values |
| Descriptors.InitToInternal | stf-inc/stf_descriptor.hpp:162-210 | the table loop maps every written value, gaps marked |
| Descriptors.InitSortedInternalSequence | stf-inc/stf_descriptor.hpp:265-276 | the loop over that table gives the sorted sequence and fits its array |
| Descriptors.InitReverseMapping | stf-inc/stf_descriptor.hpp:289-296 | the reverse mapping finds each descriptor's place |
| Records.StableSortIsUnique | stf-inc/stf_record_map.hpp:566-568 | there is only one sequence in trace order with the same records of each descriptor in the same order |
| Records.SortedIsStableSort | stf-inc/stf_record_map.hpp:566-672 | collecting descriptor by descriptor in trace order is the stable sort |
| RecordMaps.SmallVectorHolds | stf-inc/stf_record_map.hpp:164-251 | the empty slot is invisible: appending, clearing and counting act on the records held |
| RecordMaps.SortedKeepsAll | stf-inc/stf_record_map.hpp:566-672 | the sorted view has as many records as were emplaced |
| RecordMaps.RecordMap.Emplace | stf-inc/stf_record_map.hpp:685-688 | keeps the invariant and adds one record |
| RecordMaps.RecordMap.Clear | stf-inc/stf_record_map.hpp:784-787 | keeps the invariant and forgets all records |
| RecordMaps.RecordMap.At | stf-inc/stf_record_map.hpp:702-704 | the records of a descriptor in order, although the lookup takes its place in the array into use |
| RecordMaps.RecordMap.Count | stf-inc/stf_record_map.hpp:545-551 | the number of records of a descriptor emplaced since the last clear |
| RecordMaps.RecordMap.SkipUnused | stf-inc/stf_record_map.hpp:619-628 | what the iterator skips holds no record, and it stops at the end or at a place in use |
| RecordMaps.RecordMap.Sorted | stf-inc/stf_record_map.hpp:603-672 | iteration gives the stable sort by written descriptor of what was emplaced since the last clear, as many as size() says |
| RecordOrder.EachRecordOnce | stf-inc/stf_inst.hpp:1124-1165 | writing a group emits each record exactly once: sorted by descriptor, the output is the group again |
| GroupOutputs.SurplusTargetsDropped | stf-inc/stf_inst.hpp:1150-1164 | targets left over when every event that is no mode change has its own are not written: all the events are, and as many targets as there are such events |
| GroupOutputs.GroupMeaning | stf-inc/stf_inst.hpp:1124-1165 | an instruction's group, by its records' own bodies: one opcode, as many contents as accesses, and as many targets as events that are no mode changes, or at most one if a mode change is the only event |
| GroupOutputs.CompleteMeaning | stf-inc/stf_inst.hpp:1136-1160 | the generator is stopped exactly by contents that do not match the accesses, by too few targets, or by a second target of a mode change that is the only event |
| GroupOutputs.WrittenPairs | stf-inc/stf_inst.hpp:1124-1165 | in the output the k-th access is right before the k-th content and the k-th event that is no mode change right before the k-th target; a mode change is before none, unless it is the only event and there is one |
| RecordOrder.ZipAccepted | stf-inc/stf_inst.hpp:1150-1164 | every step of a run of access and content, or event and target, is accepted, including events without a target |
| RecordOrder.StandaloneAccepted | stf-inc/stf_inst.hpp:1136-1149 | a standalone mode change with or without a target is accepted |
| RecordOrder.SegmentAccepted | lib/stf_writer.cpp:163-253 | what is written at a descriptor's turn is accepted, and nothing later than its pair is written |
| RecordOrder.GroupAccepted | lib/stf_writer.cpp:163-253 | from just after the header or an opcode every record of a written group is accepted, and the writer is again just after an opcode; it throws exactly when the group comes right behind the header with an IEM record and no comment |
| RecordOrder.FirstIemIsRefused | lib/stf_writer.cpp:182-193 | an IEM record and an opcode: refused right behind the header, written behind an opcode |
| RecordOrder.TraceAccepted | lib/stf_writer.cpp:163-253 | a whole trace of groups is accepted, from the header on, if its first group is |
| WriterRuns.RunExactly | lib/stf_writer.cpp:163-253 | a run of records behind any trace is accepted exactly when each access is followed by its content, the written value drops only behind an opcode, at a comment, process ID or PC, from a content to an access or register, from a walk or register to a PC target, from a walk to a register, and from an event's target to an event, and each record belongs where it is |
| WriterRuns.EveryRunIsWellPlaced | lib/stf_writer.cpp:39-253 | that holds of the whole trace of every run of setters, flushes, finalization and records written; identifier and version are only at its start, no instruction record comes before the end of the header, and no record of the header alone behind one |
| WriterRuns.WrittenExactly | lib/stf_writer.cpp:163-253 | behind any such run the writer takes every run of records of that shape, and no other |
| WriterRuns.FinalizedExactly | lib/stf_writer.cpp:119-146 | the header is finalized exactly when a finalization is in the run |
| WriterRuns.GroupKinds | stf-inc/stf_inst.hpp:1512-1529 | a group may hold every kind of record that the writer takes behind the header, and no other |
| RecordOrder.EndsWithOpcode | stf-inc/stf_inst.hpp:1512-1529 | a written group ends with its opcode |
| STFWriters.STFWriter.constructor | lib/stf_writer_base.cpp:69-76 | open writes identifier and version, in order, before the header counts as started |
| STFWriters.STFWriter.CheckOrder | lib/stf_writer.cpp:163-239 | accepts exactly a record that may stand behind the records written so far and belongs there |
| STFWriters.STFWriter.Write | lib/stf_writer.cpp:163-253 | a refused record changes nothing; an accepted one is appended and remembered |
| STFWriters.STFWriter.WriteRecordPairs | stf-inc/stf_inst.hpp:1124-1165 | goes through exactly when there are enough second records (for accesses exactly as many, for a standalone mode change at most one) and every record is accepted; then it writes exactly the pairs, dropping surplus targets |
| STFWriters.STFWriter.WriteInst | stf-inc/stf_inst.hpp:1512-1529 | goes through exactly when every descriptor's turn has enough second records and every record is accepted, and then has written what the generator says, accesses right before their contents and events before their targets; a proper group at its place goes through exactly when it starts well, and the writer is again just after an opcode |
| Headers.FinalizedInOneGo | lib/stf_writer.cpp:119-146 | finalizing a header that was never flushed writes exactly its records in order, and succeeds exactly when ISA, IEM and a trace info are set |
| Headers.HeaderRoundTrip | lib/stf_reader.cpp:24-121 | such a header reads back exactly, whatever follows it; it is refused exactly when no PC was set |
| HeaderReads.ReadHeaderExactly | lib/stf_reader.cpp:24-121 | for any records: the reader takes a header exactly when, behind identifier and version and up to the first end, all records are of header kinds, with exactly one ISA, IEM, PC and features record, a trace info and no other kind but comments twice, in any order; it returns them by kind |
| HeaderReads.RunReadsBack | lib/stf_reader.cpp:24-121 | every run of setters, flushes and finalization that does not throw reads back exactly, each field as it was given when the run wrote it |
| HeaderReads.ReadableExactly | lib/stf_reader.cpp:24-121 | and such a header is readable exactly when a PC was set before it was finalized |
| HeaderReads.RunWrites | lib/stf_writer.cpp:39-146 | such a run has written of each kind what had been given at the first flush or finalization that had any to write, but a finalization with nothing else to write forgets a process ID and an extended ISA string |
| HeaderReads.FlushAdds | lib/stf_writer.cpp:39-117 | a flush adds, of each kind, what is due and not written yet, and changes no value |
| Headers.FirstFlushed | lib/stf_writer.cpp:42-89 | the first flush writes comments, ISA, IEM, trace infos and features |
| Headers.CannotFlush | lib/stf_writer.cpp:77-80 | without ISA, IEM or a trace info a flush throws |
| Headers.RestFlushed | lib/stf_writer.cpp:91-116 | the optional records follow in their order |
| HeaderRuns.SettersMeaning | lib/stf_writer.cpp:7-37 | comments and trace infos collect in order; every other field is what it was last given; a feature is on when its last setter set it |
| HeaderRuns.EveryRunKeepsOrder | lib/stf_writer.cpp:39-146 | every run of setters, flushes and finalization that does not throw keeps the header's order and writes each single record at most once, exactly when it is marked as written |
| HeaderRuns.RunOrder | lib/stf_writer.cpp:39-146 | in particular ISA before IEM before trace infos before features before the PC |
| HeaderRuns.FlushFixesFeatures | lib/stf_writer.cpp:119-146 | whatever is set after a flush, a finalization that goes through leaves the features set before the flush; finalizing at once has those of all setters, and 64-bit events when due |
| HeaderRuns.FlushLosesEvent64 | lib/stf_writer.cpp:130-133 | with nothing set in between, finalizing after a flush goes through, and has the features of finalizing at once exactly when there were no 64-bit events left to add |
| HeaderRuns.LateSettersRefused | lib/stf_writer.cpp:39-146 | setters after a flush make finalizing throw exactly when they add the first comment, or a vector length behind an extended ISA string with neither a late PC nor a late process ID |
| HeaderRuns.EarlyFlushLosesEvent64 | lib/stf_writer.cpp:130-133 | an RV64 header: finalized at once it says 64-bit events, flushed first it does not |
| HeaderRuns.LateOptionalDropped | lib/stf_writer.cpp:135-143 | a late process ID or extended ISA string is dropped by finalizing exactly when the header already looks complete |
| HeaderRuns.LateProcessIdIsDropped | lib/stf_writer.cpp:135-143 | a process ID set after the flush of a header with a comment is never written |
| STFWriters.STFWriter.FlushHeader | lib/stf_writer.cpp:39-117 | the flush in place is the specified one, and throws exactly when it does |
| STFWriters.STFWriter.FinalizeHeader | lib/stf_writer.cpp:119-146 | finalizing in place is the specified one, and throws exactly when it does |
| STFWriters.STFWriter.DisableTraceFeature | stf-inc/stf_writer.hpp:104-110 | removes a feature, and forces 32-bit events when it is the 64-bit one |
| STFReaders.STFReader.ReadHeader | lib/stf_reader.cpp:24-121 | the header loop accepts exactly what is a header by those counts, and fills the fields with its records by kind |
| STFReaders.STFReader.TakeRecord | lib/stf_reader.cpp:48-111 | one record fills its field, or is refused when repeated or out of place |
| CombinedViews.PlacesArePositions | stf-inc/stf_inst.hpp:815-821 | places and positions correspond one to one, so equal places are those at equal positions |
| CombinedViews.CombinedIterator.Begin | stf-inc/stf_inst.hpp:828-832 | begin is position 0, in the second vector when the first is empty |
| CombinedViews.CombinedIterator.End | stf-inc/stf_inst.hpp:837-840 | end is the position behind both vectors |
| CombinedViews.CombinedIterator.Increment | stf-inc/stf_inst.hpp:845-849 | moves one position on, over the seam |
| CombinedViews.CombinedIterator.Decrement | stf-inc/stf_inst.hpp:863-866 | moves one position back, over the seam |
| CombinedViews.CombinedIterator.Advance | stf-inc/stf_inst.hpp:881-908 | moves by any distance in either direction over the seam, inside the view always to a place; it throws exactly when it passes the end from the second vector or the beginning from the first |
| CombinedViews.CombinedIterator.At | stf-inc/stf_inst.hpp:961-963 | indexing from an iterator is indexing the concatenation |
| CombinedViews.Difference | stf-inc/stf_inst.hpp:952-955 | subtraction agrees with position, and is zero exactly for equal iterators |
| CombinedViews.ThereAndBack | stf-inc/stf_inst.hpp:922-945 | (it + n) - n is it, and the distance to it + n is n |
| CombinedViews.Visit | stf-inc/stf_inst.hpp:1042-1051 | begin to end visits the first vector and then the second, whichever are empty |
| RegStates.PutGet | stf-inc/stf_reg_state.hpp:101-103 | a field reads back what was written, modulo its mask |
| RegStates.PutPut | stf-inc/stf_reg_state.hpp:101-103 | the last write of a field is the one that counts for the whole word |
| RegStates.DisjointFields | stf-inc/stf_reg_state.hpp:101-103 | writing a field leaves every field that shares no bit with it |
| RegStates.TestApply | stf-inc/stf_reg_state.hpp:101-103 | each bit of the word after a write: the field's if the field has it, the old one otherwise |
| RegStates.ReadsLastBits | stf-inc/stf_reg_state.hpp:294-352 | after any updates a register reads, bit by bit, what the last update that sets that bit of the word wrote there, a write of the parent setting them all; it reads at all exactly when its word was written |
| RegStates.LastWriteReads | stf-inc/stf_reg_state.hpp:294-352 | a register reads what was last written to it as long as no later write is to its parent or shares a bit with it |
| RegStates.ParentWriteReads | stf-inc/stf_reg_state.hpp:294-352 | after a write of the parent a field reads its bits of what was written there, until one is written again |
| RegStates.SurvivesExactly | stf-inc/stf_reg_state.hpp:294-352 | the last value written to a register is what it reads, whatever later updates carry, exactly when none of them is to its parent or shares a bit with it |
| RegStates.LowHalfWipesHigh | lib/stf_reg_state.cpp:351-371 | in the 32-bit bank the two halves of a word share no bit, and a write of the lower one makes the upper one read zero |
| RegStates.STFRegState.RegStateUpdate | stf-inc/stf_reg_state.hpp:294-338 | keeps one word per parent equal to the replay, adds a nonstandard register, refuses an unknown standard one |
| RegStates.STFRegState.GetRegScalarValue | stf-inc/stf_reg_state.hpp:344-352 | reads a register, parent or field, out of the replayed words; unknown or unwritten ones are errors |
| CompressionBuffers.CompressionBuffer.NextSizeLinear | stf-inc/stf_compression_buffer.hpp:241-243 | the least multiple of the granule that fits |
| CompressionBuffers.CompressionBuffer.NextSizeExponential | stf-inc/stf_compression_buffer.hpp:340-350 | whenever the loop ends, the first shift of the old size that reaches the new one, in 64 bits; up to half of 64 bits nothing overflows; an empty allocation gives the granule |
| CompressionBuffers.DoublingEndsExactly | stf-inc/stf_compression_buffer.hpp:345-349 | the loop ends exactly when one of the first 63 shifts reaches the size, which up to half of 64 bits one always does |
| CompressionBuffers.DoublingNeverEnds | stf-inc/stf_compression_buffer.hpp:345-349 | from a power of two no shift reaches a size beyond half of 64 bits, so the loop does not end |
| CompressionBuffers.CompressionBuffer.Resize | stf-inc/stf_compression_buffer.hpp:219-234 | keeps what was written, copying it exactly when the allocation grows |
| CompressionBuffers.CompressionBuffer.InitSize | stf-inc/stf_compression_buffer.hpp:313-316 | a first size is allocated by a linear buffer; a doubling one that has no allocation gets the granule, whatever the size |
| CompressionBuffers.CompressionBuffer.Fit | stf-inc/stf_compression_buffer.hpp:271-283 | makes room exactly unless a doubling buffer is empty and its granule too small, keeps the content, and grows only when it must, by the least multiple or at least double |
| CompressionBuffers.CompressionBuffer.Write | stf-inc/stf_compression_buffer.hpp:291-299 | over any run of appends the content is what was written, the write pointer stays inside, and fewer than twice the bytes held are copied |
| CompressionBuffers.WriteAll | stf-inc/stf_compression_buffer.hpp:271-299 | appending piece by piece holds the concatenation of the pieces |

## Left out

- ChunkWriter.TaskStep: compressing and flushing the compressor are one step, and the compressor's inner buffering is not modelled; the codec is a function on a whole chunk.
- Transactions: marker records of transaction traces, protocol and clock records; only opcodes are markers here.
- ChunkSeek.SeekFromOffsetLands: the chunk of the given offset has to exist, since the library reads past its index otherwise.
- Signals, files that fail, magic strings of other codecs, the reserved end of a file opened twice, and closing a stream that is not open.
- The PC offset that a reader can add to forced PCs; it is taken as zero.
- SlidingWindow.BufferedReader.SkipSource: the source is a sequence, and whether skipping throws once its end was seen is a parameter; the outcome for a compressed stream at the very end of a full trace is stated in ChunkSeek and ChunkMoves.
- PageWalk.ArchTranslate: steps 5 and 7 (access permissions and the accessed and dirty bits), the check that an address is canonical, and the Svnapot and Svpbmt extensions; an entry that the trace has not shown counts as an access fault.
- The user-mode skipping reader's own skip rule; its callback is modelled with the rule that it drops an item marked as skipped.
- Seeking from the beginning after the end was seen, and indexed jumps, which reuse the parts proved here.
- PteReader.TranslationReader.Translate: traces without page table features, where every translation answers zero, and stopping the reader thread early.
- Clearing and resetting the page table, and printing it.
- Registers and widths of the register bank's tables, vector registers, and writing the state out; the bank is any map that meets the assumptions.
- RecordMaps.RecordMap.Sorted: removal and extraction of single records, after which the library's own size is no longer the number held, and record handles; records are values.
- The sorted iterator reads its key before comparing with the end; here the end is compared first.
- STFWriters.STFWriter.WriteRecordPairs: with fewer targets than events need the library reads past the vector; here that throws.
- Filtered and extended variants of writing an instruction, and writing to other stream kinds.
- CombinedViews.CombinedIterator.Increment: leaving the view, as with Decrement; Advance states it for every distance.
- CompressionBuffers.CompressionBuffer.Fit: totals above half of 64 bits, which no allocation can hold.
- CompressionBuffers.CompressionBuffer.Write: the same totals, and a first write into an empty doubling buffer of more than its granule, for which the library has made no room.
- Formatting, symbol tables, environment variables, factories, object pools, packed containers and the branch decoder.
