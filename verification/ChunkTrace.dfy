/**
 * Whole runs: a trace written in any interleaving of caller and compression task, opened and read
 * back in any interleaving of caller and prefetch task.
 */
module ChunkTrace {
  import opened Trace
  import opened ChunkFile
  import ChunkWriter
  import opened ChunkPlaces
  import opened ChunkReader
  import opened ChunkSeek

  /** Open stands before the first record. */
  lemma OpenStandsAtStart(src: Source, groups: seq<seq<Rec>>, blockSize: nat)
    requires Holds(src, groups) && NoneEmpty(groups)
    ensures |groups| == |src.layout.index| && StandsAt(src, groups, 0, Settle(src, OpenReader(src, blockSize)))
  {
    hide Bytes, Markers, TaskStep, Flatten;
    Sizes(src, groups);
    var io0 := Io(PROLOGUE_SIZE, PROLOGUE_SIZE, [], 0, Buf([], blockSize, 0), NONE);
    assert ChunkHolds(src, groups, 0);
    ChunkFetched(src, groups, 0, io0);
    if src.prefetch && 1 < |groups| {
      assert ChunkHolds(src, groups, 1) && Limit(src.layout, 0) == src.layout.index[1].offset;
      ChunkFetched(src, groups, 1, ReadChunk(src, io0, 0).0);
    }
    EmptyPrefix(groups[0]);
    NothingFlattened(groups);
    assert Before(groups, Pos(0, 0)) == [];
    PosUnique(groups, PosAt(groups, 0), Pos(0, 0));
    assert 0 * src.layout.chunkSize == 0 && (0 + 1) * src.layout.chunkSize == src.layout.chunkSize;
  }

  // The layout found by open, after the reader has noted the initial PC in it.
  function LayoutOf(c: Codec, size: nat, groups: seq<seq<Rec>>, initialPc: nat): Opened
    requires groups != []
  {
    var chunks := ChunkWriter.ChunksOf(groups);
    var es := Index(c, chunks);
    Opened(size, End(c, chunks), es[0 := es[0].(startPc := initialPc)])
  }

  /** The file the writer leaves holds its chunks, as the reader needs them. */
  lemma WrittenFileHolds(c: Codec, size: nat, groups: seq<seq<Rec>>, initialPc: nat, traceStart: nat, prefetch: bool)
    requires Lossless(c) && size >= 1 && groups != [] && ChunkWriter.MarkerTerminated(groups, size)
    requires forall k :: 0 <= k < |groups| ==> AllWellFormed(groups[k])
    ensures Holds(Source(FileOf(c, size, ChunkWriter.ChunksOf(groups)), c, LayoutOf(c, size, groups, initialPc),
                         traceStart, prefetch), groups)
  {
    hide FileOf, Bytes, AllWellFormed, ChunkWriter.MarkerTerminated, ChunkWriter.StartPc, End, Index;
    var chunks := ChunkWriter.ChunksOf(groups);
    var src := Source(FileOf(c, size, chunks), c, LayoutOf(c, size, groups, initialPc), traceStart, prefetch);
    forall k | 0 <= k < |groups|
      ensures ChunkHolds(src, groups, k)
    {
      WrittenChunkHolds(c, size, groups, k);
    }
    FirstOffset(c, chunks);
  }

  lemma WrittenChunkHolds(c: Codec, size: nat, groups: seq<seq<Rec>>, k: nat)
    requires Lossless(c) && k < |groups|
    ensures var chunks := ChunkWriter.ChunksOf(groups);
            var file, o := FileOf(c, size, chunks), Opened(size, End(c, chunks), Index(c, chunks));
            && 0 < o.index[k].offset <= Limit(o, k) <= |file| && Limit(o, k) <= o.end
            && c.decompress(file[o.index[k].offset..Limit(o, k)]) == Bytes(groups[k])
            && o.index[k].size == |Bytes(groups[k])| && o.index[k].startPc == ChunkWriter.StartPc(groups[..k])
  {
    var chunks := ChunkWriter.ChunksOf(groups);
    hide FileOf, Index, Bytes, ChunkWriter.StartPc, Data;
    ChunkWriter.ChunkOf(groups, k);
    ChunkSlice(c, size, chunks, k);
    IndexAt(c, chunks, k);
    if k + 1 < |groups| {
      IndexAt(c, chunks, k + 1);
    }
  }

  lemma FirstOffset(c: Codec, chunks: seq<Chunk>)
    requires chunks != []
    ensures Index(c, chunks)[0].offset == PROLOGUE_SIZE
  {
    hide Index;
    IndexAt(c, chunks, 0);
    assert chunks[..0] == [];
  }

  // ---------------------------------------------------------------- every interleaving of the reader

  /**
   * However the prefetch task's steps fall between the calls, a client that asks for the records
   * that follow gets exactly their fields, and stands behind them.
   */
  lemma PrefetchingReads(src: Source, groups: seq<seq<Rec>>, a: nat, b: nat, s: Reader, script: seq<Step>)
    requires src.prefetch && Holds(src, groups) && NoneEmpty(groups) && a <= b <= |Flatten(groups)|
    requires |groups| == |src.layout.index| && StandsAt(src, groups, a, Settle(src, s))
    requires Calls(script) == OpsOf(Between(Flatten(groups), a, b))
    ensures var r := Exec(src, s, script);
            r.results == FieldsOf(Between(Flatten(groups), a, b)) && StandsAt(src, groups, b, Settle(src, r.reader))
  {
    hide Holds, NoneEmpty, Flatten, StandsAt, Exec, Settle, OpsOf, FieldsOf, Between, Sync, UndisturbedRun, TrackAll;
    RecordsRead(src, groups, a, b, Settle(src, s));
    EveryInterleavingIsSynchronous(src, s, script);
  }

  /** The single-threaded reader at the same place, given the same calls, returns the same. */
  lemma PrefetchingIsSingleThreaded(src: Source, groups: seq<seq<Rec>>, a: nat, b: nat, s: Reader, t: Reader,
                                    script: seq<Step>)
    requires src.prefetch && Holds(src, groups) && NoneEmpty(groups) && a <= b <= |Flatten(groups)|
    requires |groups| == |src.layout.index| && StandsAt(src, groups, a, Settle(src, s))
    requires StandsAt(src.(prefetch := false), groups, a, t)
    requires Calls(script) == OpsOf(Between(Flatten(groups), a, b))
    ensures Resting(t.io)
    ensures var prefetching, single := Exec(src, s, script), Sync(src.(prefetch := false), t, Calls(script));
            && prefetching.results == single.results
            && Settle(src, prefetching.reader).markers == single.reader.markers
            && Settle(src, prefetching.reader).nextEnd == single.reader.nextEnd
            && Settle(src, prefetching.reader).out == single.reader.out
            && SamePCs(prefetching.reader.tracker, single.reader.tracker)
  {
    var other := src.(prefetch := false);
    HoldsForBoth(src, other, groups);
    hide Holds, NoneEmpty, Flatten, Exec, Settle, OpsOf, FieldsOf, Between, Sync, UndisturbedRun, TrackAll, StandsAt;
    PrefetchingReads(src, groups, a, b, s, script);
    RecordsRead(other, groups, a, b, t);
    var p, q := Settle(src, Exec(src, s, script).reader), Sync(other, t, Calls(script)).reader;
    SamePlaceSameCaller(src, other, groups, b, p, q);
  }

  lemma HoldsForBoth(src: Source, other: Source, groups: seq<seq<Rec>>)
    requires Holds(src, groups) && other == src.(prefetch := false)
    ensures Holds(other, groups) && |groups| == |src.layout.index|
  {
    forall k | 0 <= k < |groups|
      ensures ChunkHolds(other, groups, k)
    {
      assert ChunkHolds(src, groups, k);
    }
  }

  // Readers at one place cannot be told apart by their callers.
  lemma SamePlaceSameCaller(src: Source, other: Source, groups: seq<seq<Rec>>, n: nat, p: Reader, q: Reader)
    requires NoneEmpty(groups) && n <= |Flatten(groups)| && |groups| == |src.layout.index| && other.layout == src.layout
    requires StandsAt(src, groups, n, p) && StandsAt(other, groups, n, q)
    ensures p.out == q.out && p.markers == q.markers && p.nextEnd == q.nextEnd && SamePCs(p.tracker, q.tracker)
  {
    hide PosAt, Flatten, Bytes, Markers, IoAt, TrackAll;
  }

  /** After the last record, and not before, a read returns nothing and the stream is at its end. */
  lemma EndOfTrace(src: Source, groups: seq<seq<Rec>>, n: nat, s: Reader, script: seq<Step>, want: nat)
    requires src.prefetch && Holds(src, groups) && NoneEmpty(groups) && n <= |Flatten(groups)|
    requires |groups| == |src.layout.index| && StandsAt(src, groups, n, Settle(src, s))
    requires Calls(script) == [FREAD(want)]
    ensures var r := Exec(src, s, script);
            && (r.results == [] <==> n == |Flatten(groups)|)
            && (Eof(src, Settle(src, r.reader)) <==> n == |Flatten(groups)|)
  {
    hide Holds, NoneEmpty, Flatten, StandsAt, Exec, AllInputConsumed, Settle;
    var t := Settle(src, s);
    StandsAtRests(src, groups, n, t);
    EndSeenExactly(src, groups, n, t);
    EndHasNoTask(src, groups, n, t);
    SyncOne(src, t, FREAD(want));
    EveryInterleavingIsSynchronous(src, s, script);
    hide TaskStep, Sync, Sub;
    if n == |Flatten(groups)| {
      assert Do(src, t, FREAD(want)) == t.(successful := false);
      FailedRead(src, t);
    } else {
      SuccessfulRead(src, t, want);
    }
  }

  lemma FailedRead(src: Source, s: Reader)
    requires Resting(s.io) && AllInputConsumed(src, s)
    ensures Eof(src, Settle(src, s.(successful := false)))
  {
  }

  lemma SuccessfulRead(src: Source, s: Reader, want: nat)
    requires Resting(s.io) && !AllInputConsumed(src, s)
    ensures |Returned(src, s, FREAD(want))| == 1 && !Eof(src, Settle(src, Do(src, s, FREAD(want))))
  {
  }

  /** A buffer is found consumed between records only when no chunk and no task remains. */
  lemma EndHasNoTask(src: Source, groups: seq<seq<Rec>>, n: nat, s: Reader)
    requires Holds(src, groups) && NoneEmpty(groups) && n <= |Flatten(groups)| && StandsAt(src, groups, n, s)
    ensures Consumed(s.out) ==> s.io.phase.NONE? && s.next == |src.layout.index|
  {
    EndSeenExactly(src, groups, n, s);
    if n == |Flatten(groups)| {
      var p := PosAt(groups, n);
      hide Flatten, PosAt, Holds, CallerAt;
      BeforeIsPrefix(groups, p);
      Sizes(src, groups);
    }
  }

  // ---------------------------------------------------------------- from the writer to the reader

  /**
   * Records written in any interleaving, closed, opened and read in any interleaving come back: the
   * client gets the fields of the first n records of the trace, for every n the file kept.
   */
  lemma WriteThenRead(c: Codec, size: nat, recs: seq<Rec>, written: seq<ChunkWriter.Step>, read: seq<Step>, n: nat,
                      blockSize: nat, traceStart: nat)
    requires Lossless(c) && size >= 1 && AllWellFormed(recs) && ChunkWriter.Calls(written) == ChunkWriter.OpsOf(recs)
    requires Fits(c, size, ChunkWriter.ChunksOf(Kept(SplitAt(recs, size))))
    requires Kept(SplitAt(recs, size)) != [] && n <= |Flatten(Kept(SplitAt(recs, size)))| && n <= |recs|
    requires Calls(read) == OpsOf(recs[..n])
    ensures var file := ChunkWriter.Close(c, ChunkWriter.Exec(c, size, ChunkWriter.Open(c, size), written)).file;
            && OpenFile(file).Some?
            && var src := Source(file, c, OpenFile(file).value, traceStart, true);
               Exec(src, OpenReader(src, blockSize), read).results == FieldsOf(recs[..n])
  {
    var groups := Kept(SplitAt(recs, size));
    var chunks := ChunkWriter.ChunksOf(groups);
    hide FileOf, SplitAt, OpsOf, FieldsOf, Exec, Settle, OpenReader, Flatten, Fits, Bytes, OpenFile,
         ChunkWriter.MarkerTerminated, AllWellFormed;
    hide ChunkWriter.Close, ChunkWriter.Exec, ChunkWriter.Open, ChunkWriter.ChunksOf, ChunkWriter.Calls,
         ChunkWriter.OpsOf, Index, End, Calls;
    ChunkWriter.ClosedFile(c, size, recs, written);
    ChunkWriter.KeptMeaning(recs, size);
    OpenRoundTrip(c, size, chunks);
    KeptWellFormed(recs, size);
    WrittenLayout(c, size, groups);
    WrittenFileHolds(c, size, groups, 0, traceStart, true);
    var src := Source(FileOf(c, size, chunks), c, Opened(size, End(c, chunks), Index(c, chunks)), traceStart, true);
    HoldsNoneEmpty(src, groups);
    OpenStandsAtStart(src, groups, blockSize);
    assert Between(Flatten(groups), 0, n) == recs[..n];
    PrefetchingReads(src, groups, 0, n, OpenReader(src, blockSize), read);
  }

  lemma HoldsNoneEmpty(src: Source, groups: seq<seq<Rec>>)
    requires Holds(src, groups)
    ensures NoneEmpty(groups)
  {
    EveryChunkEndsOnMarkers(src, groups);
  }

  // The writer's own entry for the first chunk has PC 0.
  lemma WrittenLayout(c: Codec, size: nat, groups: seq<seq<Rec>>)
    requires groups != []
    ensures LayoutOf(c, size, groups, 0)
            == Opened(size, End(c, ChunkWriter.ChunksOf(groups)), Index(c, ChunkWriter.ChunksOf(groups)))
  {
    hide Index, End;
    ChunkWriter.ChunkOf(groups, 0);
    IndexAt(c, ChunkWriter.ChunksOf(groups), 0);
    assert groups[..0] == [];
  }

  lemma KeptWellFormed(recs: seq<Rec>, size: nat)
    requires AllWellFormed(recs) && size >= 1
    ensures var groups := Kept(SplitAt(recs, size)); forall k :: 0 <= k < |groups| ==> AllWellFormed(groups[k])
  {
    var groups := Kept(SplitAt(recs, size));
    hide SplitAt, Flatten, ChunkWriter.MarkerTerminated;
    ChunkWriter.KeptMeaning(recs, size);
    forall k | 0 <= k < |groups|
      ensures AllWellFormed(groups[k])
    {
      forall r | r in groups[k]
        ensures WellFormed(r)
      {
        InFlatten(groups, k, r);
        assert r in recs;
      }
    }
  }

  lemma InFlatten(groups: seq<seq<Rec>>, k: nat, r: Rec)
    requires k < |groups| && r in groups[k]
    ensures r in Flatten(groups)
  {
    var n := |groups| - 1;
    if k < n {
      InFlatten(groups[..n], k, r);
    }
  }

  // The source once setTraceStart and setInitialPC have noted where the records and the PCs begin.
  function Noted(src: Source, start: nat, pc: nat): Source
    requires src.layout.index != []
  {
    var index := src.layout.index;
    src.(traceStart := start, layout := src.layout.(index := index[0 := index[0].(startPc := pc)]))
  }

  lemma NotedHolds(src: Source, groups: seq<seq<Rec>>, start: nat, pc: nat)
    requires Holds(src, groups)
    ensures src.layout.index != [] && Holds(Noted(src, start, pc), groups)
  {
    hide Flatten, Bytes, AllWellFormed, ChunkWriter.MarkerTerminated;
    var noted := Noted(src, start, pc);
    forall k | 0 <= k < |groups|
      ensures ChunkHolds(noted, groups, k)
    {
      assert ChunkHolds(src, groups, k);
    }
  }

  // In the first chunk, a reader's place is read off its buffer.
  lemma StandsInHeader(src: Source, groups: seq<seq<Rec>>, h: nat, s: Reader)
    requires NoneEmpty(groups) && |groups| == |src.layout.index| && h < |groups[0]| && h <= |Flatten(groups)|
    requires StandsAt(src, groups, h, s)
    ensures At(src, groups, Pos(0, h), s) && Before(groups, Pos(0, h)) == groups[0][..h]
  {
    NothingFlattened(groups);
    assert Before(groups, Pos(0, h)) == [] + groups[0][..h] == groups[0][..h];
    hide Flatten, At, Before;
    PosUnique(groups, PosAt(groups, h), Pos(0, h));
  }

  /**
   * Noting the trace's start and the initial PC after the header is read is all that rewinding and
   * seeking from an offset need.
   */
  lemma HeaderNoted(src: Source, groups: seq<seq<Rec>>, h: nat, s: Reader)
    requires Holds(src, groups) && NoneEmpty(groups) && h < |groups[0]| && Markers(groups[0][..h]) == 0
    requires |groups| == |src.layout.index| && h <= |Flatten(groups)|
    requires StandsAt(src, groups, h, s) && !s.tracker.isBranch
    ensures var noted := Noted(src, s.out.read, s.tracker.nextPc);
            Holds(noted, groups) && HeaderEnds(noted, groups, h) && StandsAt(noted, groups, h, s)
  {
    hide Holds, NoneEmpty, Flatten, PosAt, Bytes, Markers, TrackAll;
    NotedHolds(src, groups, s.out.read, s.tracker.nextPc);
    StandsInHeader(src, groups, h, s);
  }
}
