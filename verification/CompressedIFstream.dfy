/**
 * The decompressing input streams as an object updated in place, against the specification of its
 * state in ChunkReader and ChunkSeek.
 */
module CompressedIFstreams {
  import opened Bits
  import opened Trace
  import opened OpcodePCs
  import opened ChunkFile
  import opened ChunkPlaces
  import opened ChunkReader
  import opened ChunkSeek
  import opened ChunkTrace

  class CompressedIFstream {
    const file: seq<Byte>
    const codec: Codec
    const prefetch: bool
    var layout: Opened
    var traceStart: nat

    var pos: nat
    var lastReadPos: nat
    var inBuf: seq<Byte>
    var inRead: nat
    var outBuf: Buf
    var decompressedBuf: Buf
    var phase: Phase

    var nextChunkIndex: nat
    var nextChunkEnd: nat
    var numMarkerRecords: nat
    var successfulRead: bool
    var pc: nat
    var nextPc: nat
    var targetPc: nat
    var isBranch: bool

    ghost function Src(): (src: Source)
      reads `layout, `traceStart
      ensures src.prefetch == prefetch && src.layout == layout
    {
      Source(file, codec, layout, traceStart, prefetch)
    }

    ghost function InOut(): Io
      reads `pos, `lastReadPos, `inBuf, `inRead, `decompressedBuf, `phase
    {
      Io(pos, lastReadPos, inBuf, inRead, decompressedBuf, phase)
    }

    ghost function PCs(): Tracker
      reads `pc, `nextPc, `targetPc, `isBranch
    {
      Tracker(pc, nextPc, targetPc, isBranch)
    }

    ghost function State(): Reader
      reads `outBuf, `numMarkerRecords, `nextChunkEnd, `pc, `nextPc, `targetPc, `isBranch, `successfulRead,
            `nextChunkIndex, `pos, `lastReadPos, `inBuf, `inRead, `decompressedBuf, `phase
    {
      Reader(outBuf, numMarkerRecords, nextChunkEnd, PCs(), successfulRead, nextChunkIndex, InOut())
    }

    // Only the prefetching reader has a task.
    ghost predicate Valid()
      reads this
    {
      prefetch || phase.NONE?
    }

    constructor (file: seq<Byte>, codec: Codec, layout: Opened, prefetch: bool, blockSize: nat)
      requires layout.index != []
      ensures Valid() && Src() == Source(file, codec, layout, 0, prefetch)
      ensures State() == OpenReader(Src(), blockSize)
    {
      this.file, this.codec, this.layout, this.prefetch, traceStart := file, codec, layout, prefetch, 0;
      pos, lastReadPos, inBuf, inRead := PROLOGUE_SIZE, PROLOGUE_SIZE, [], 0;
      decompressedBuf, outBuf, phase := Buf([], blockSize, 0), Buf([], blockSize, 0), NONE;
      nextChunkIndex, nextChunkEnd, numMarkerRecords, successfulRead := 1, layout.chunkSize, 0, false;
      pc, nextPc, targetPc, isBranch := 0, 0, 0, false;
      new;
      hide TaskStep, Complete, ReadChunk, ChunkReader.ReadNextChunk;
      assert PCs() == START;
      hide CompressedIFstream.PCs;
      ghost var s := State();
      outBuf := ReadChunkNow(0);
      assert State() == s.(io := ReadChunk(Src(), s.io, 0).0, out := outBuf);
      if prefetch {
        ReadNextChunk();
      }
    }

    /** The prefetch task, advanced by one step. */
    method AdvanceTask()
      requires !Resting(InOut())
      modifies `pos, `lastReadPos, `inBuf, `inRead, `decompressedBuf, `phase
      ensures InOut() == TaskStep(Src(), old(InOut()))
    {
      match phase
      case READ(chunk) =>
        if chunk >= |layout.index| {
          phase := DONE;
        } else {
          var to := DirectReadEnd(Source(file, codec, layout, traceStart, prefetch), Limit(layout, chunk), chunk + 1);
          decompressedBuf := Buf([], layout.index[chunk].size, 0);
          lastReadPos := pos;
          inBuf, inRead := [], 0;
          if pos <= to {
            inBuf := Sub(file, pos, to);
            pos := to;
          }
          phase := DECOMPRESS;
        }
      case DECOMPRESS =>
        decompressedBuf := decompressedBuf.(data := codec.decompress(inBuf));
        inRead := |inBuf|;
        phase := DONE;
    }

    method JoinTask()
      modifies `pos, `lastReadPos, `inBuf, `inRead, `decompressedBuf, `phase
      ensures InOut() == Complete(Src(), old(InOut()))
    {
      hide TaskStep;
      while !(phase.NONE? || phase.DONE?)
        invariant Complete(Src(), InOut()) == Complete(Src(), old(InOut()))
        decreases StepsLeft(InOut())
      {
        StepTowardsEnd(Src(), InOut());
        AdvanceTask();
      }
    }

    // Reads and decompresses a chunk on the spot; the second output buffer is left as it was.
    method ReadChunkNow(chunk: nat) returns (b: Buf)
      modifies `pos, `lastReadPos, `inBuf, `inRead, `decompressedBuf, `phase
      ensures (InOut(), b) == ReadChunk(Src(), old(InOut()), chunk) && phase.NONE?
    {
      hide TaskStep, Complete;
      var kept := decompressedBuf;
      phase := READ(chunk);
      JoinTask();
      b := decompressedBuf;
      decompressedBuf, phase := kept, NONE;
    }

    method FinishDecompression()
      requires Valid()
      modifies `pos, `lastReadPos, `inBuf, `inRead, `decompressedBuf, `phase, `outBuf
      ensures Valid() && State() == ChunkReader.FinishDecompression(Src(), old(State()))
    {
      hide TaskStep, Complete, CompressedIFstream.Src, CompressedIFstream.PCs;
      if !phase.NONE? {
        ghost var s := State();
        JoinTask();
        assert State() == s.(io := Complete(Src(), s.io));
        SwapBuffers();
      }
    }

    method SwapBuffers()
      modifies `decompressedBuf, `phase, `outBuf
      ensures outBuf == old(decompressedBuf) && decompressedBuf == old(outBuf) && phase == NONE
    {
      phase := NONE;
      outBuf, decompressedBuf := decompressedBuf, outBuf;
    }

    method ReadNextChunk()
      requires Valid()
      modifies `pos, `lastReadPos, `inBuf, `inRead, `decompressedBuf, `phase, `outBuf, `nextChunkIndex
      ensures Valid() && State() == ChunkReader.ReadNextChunk(Src(), old(State()))
    {
      hide TaskStep, Complete, ReadChunk, CompressedIFstream.PCs;
      if nextChunkIndex >= |layout.index| {
        if prefetch {
          decompressedBuf := decompressedBuf.(read := decompressedBuf.size);
        }
      } else {
        if prefetch {
          phase := READ(nextChunkIndex);
        } else {
          outBuf := ReadChunkNow(nextChunkIndex);
        }
        nextChunkIndex := nextChunkIndex + 1;
      }
    }

    method Fread(n: nat) returns (data: seq<seq<Byte>>)
      requires Valid()
      modifies `outBuf, `successfulRead
      ensures Valid() && State() == Do(Src(), old(State()), FREAD(n)) && data == Returned(Src(), old(State()), FREAD(n))
    {
      if lastReadPos + inRead >= layout.end && Consumed(outBuf) && (prefetch ==> Consumed(decompressedBuf)) {
        successfulRead := false;
        return [];
      }
      data := [Sub(outBuf.data, outBuf.read, outBuf.read + n)];
      outBuf := outBuf.(read := outBuf.read + n);
      successfulRead := true;
    }

    method TrackPC(kind: Kind)
      requires Valid()
      modifies `pc, `nextPc, `targetPc, `isBranch
      ensures Valid() && State() == Do(Src(), old(State()), TRACK(kind))
    {
      match kind
      case OPCODE(size) =>
        pc := nextPc;
        if isBranch {
          nextPc := targetPc;
          isBranch := false;
        } else {
          nextPc := (nextPc + size) % U64;
        }
      case PC_TARGET(addr) =>
        targetPc := addr;
        isBranch := true;
      case FORCE_PC(addr) =>
        nextPc := addr;
      case PLAIN =>
    }

    method MarkerRecordCallback()
      requires Valid()
      modifies `pos, `lastReadPos, `inBuf, `inRead, `decompressedBuf, `phase, `outBuf, `nextChunkIndex,
               `numMarkerRecords, `nextChunkEnd
      ensures Valid() && Src() == old(Src()) && State() == Do(Src(), old(State()), MARKER)
    {
      hide ChunkReader.FinishDecompression, ChunkReader.ReadNextChunk, CompressedIFstream.Src, CompressedIFstream.PCs;
      numMarkerRecords := numMarkerRecords + 1;
      if numMarkerRecords >= nextChunkEnd {
        nextChunkEnd := nextChunkEnd + layout.chunkSize;
        SwitchChunks();
      }
    }

    // Takes over the chunk the task has prefetched, if any, and fetches the next one.
    method SwitchChunks()
      requires Valid()
      modifies `pos, `lastReadPos, `inBuf, `inRead, `decompressedBuf, `phase, `outBuf, `nextChunkIndex
      ensures Valid()
      ensures var s := old(State());
              State() ==
              ChunkReader.ReadNextChunk(Src(), if prefetch then ChunkReader.FinishDecompression(Src(), s) else s)
    {
      hide ChunkReader.FinishDecompression, ChunkReader.ReadNextChunk, CompressedIFstream.Src, CompressedIFstream.State;
      if prefetch {
        FinishDecompression();
      }
      ReadNextChunk();
    }

    /** Reads the next record, whose field sizes and kind the client knows from what it has read. */
    method ReadRecord(r: Rec, ghost groups: seq<seq<Rec>>, ghost n: nat) returns (fields: seq<seq<Byte>>)
      requires Valid() && Holds(Src(), groups) && NoneEmpty(groups) && n < |Flatten(groups)| && r == Flatten(groups)[n]
      requires StandsAt(Src(), groups, n, Settle(Src(), State()))
      modifies this
      ensures Valid() && Src() == old(Src()) && fields == r.fields
      ensures StandsAt(Src(), groups, n + 1, Settle(Src(), State()))
      ensures successfulRead && (IsMarker(r) ==> IsNextPC(Flatten(groups)[..n], pc))
    {
      hide Do, Settle, Freads, Sync, StandsAt, Holds, NoneEmpty, Flatten, State, Valid, Returned, Undisturbed,
           UndisturbedRun, IsNextPC, ReadOps;
      ghost var src, w, ops := Src(), Settle(Src(), State()), Freads(r.fields);
      OneRecordRead(src, groups, n, w);
      ReadInSteps(src, w, r);
      fields := [];
      NothingYet(src, w, r.fields);
      StillSettled(src, w);
      var i := 0;
      while i < |r.fields|
        invariant 0 <= i <= |r.fields| && Valid() && Src() == src
        invariant Follows(src, w, Freads(r.fields[..i]), fields)
      {
        FieldInSteps(src, w, r.fields, i);
        OneMoreCall(w, Freads(r.fields[..i]), FREAD(|r.fields[i]|), fields);
        var data := Fread(|r.fields[i]|);
        fields := fields + data;
        i := i + 1;
      }
      assert r.fields[..i] == r.fields;
      OneMoreCall(w, ops, TRACK(r.kind), fields);
      TrackPC(r.kind);
      ops := ops + [TRACK(r.kind)];
      if r.kind.OPCODE? {
        OneMoreCall(w, ops, MARKER, fields);
        MarkerRecordCallback();
        ops := ops + [MARKER];
      }
      CallerShown();
    }

    // ---------------------------------------------------------------- moving in the trace

    method CancelCurrentChunks()
      requires Valid()
      modifies this
      ensures Valid() && Src() == old(Src()) && State() == ChunkReader.CancelCurrentChunks(Src(), old(State()))
    {
      hide ChunkReader.FinishDecompression;
      outBuf := outBuf.(read := outBuf.size);
      if prefetch {
        FinishDecompression();
      }
      inBuf, inRead := [], 0;
    }

    // Moves the counters, the PC and the file position to the start of a chunk.
    method PlaceAtChunk(k: nat)
      requires k < |layout.index|
      modifies `pos, `lastReadPos, `nextChunkIndex, `numMarkerRecords, `nextChunkEnd, `pc, `nextPc
      ensures numMarkerRecords == k * layout.chunkSize && nextChunkEnd == numMarkerRecords + layout.chunkSize
      ensures nextChunkIndex == k + 1 && PCs() == ForcePC(old(PCs()), layout.index[k].startPc)
      ensures InOut() == old(InOut()).(pos := layout.index[k].offset, lastRead := layout.index[k].offset)
    {
      numMarkerRecords := k * layout.chunkSize;
      nextChunkEnd := numMarkerRecords + layout.chunkSize;
      pos, lastReadPos := layout.index[k].offset, layout.index[k].offset;
      pc, nextPc := layout.index[k].startPc, layout.index[k].startPc;
      nextChunkIndex := k + 1;
    }

    // The part of a move before the chunk after it is fetched.
    method ReadAtChunk(k: nat)
      requires Valid() && k < |layout.index|
      modifies `pos, `lastReadPos, `inBuf, `inRead, `decompressedBuf, `phase, `outBuf, `nextChunkIndex,
               `numMarkerRecords, `nextChunkEnd, `pc, `nextPc
      ensures Valid() && State() == AtChunk(Src(), old(State()), k)
    {
      hide TaskStep, Complete, ReadChunk, ForcePC, CompressedIFstream.PCs;
      PlaceAtChunk(k);
      outBuf := ReadChunkNow(k);
      if k == 0 {
        outBuf := outBuf.(read := traceStart);
      }
    }

    method SeekToChunk(k: nat)
      requires Valid() && k < |layout.index|
      modifies this
      ensures Valid() && Src() == old(Src()) && State() == ChunkReader.SeekToChunk(Src(), old(State()), k)
    {
      hide AtChunk, ChunkReader.ReadNextChunk;
      ReadAtChunk(k);
      if prefetch {
        ReadNextChunk();
      }
    }

    /** Reads records one at a time until the given number of markers is behind. */
    method SeekRecords(target: nat, groups: seq<seq<Rec>>, at: nat) returns (ok: bool)
      requires Valid() && Holds(Src(), groups) && NoneEmpty(groups) && at <= |Flatten(groups)|
      requires StandsAt(Src(), groups, at, Settle(Src(), State()))
      modifies this
      ensures Valid() && Src() == old(Src())
      ensures StandsAt(Src(), groups, SeekIndex(Flatten(groups), at, target), Settle(Src(), State()))
      ensures ok <==> Markers(Flatten(groups)) >= target || (at == |Flatten(groups)| && !old(successfulRead))
    {
      hide Settle, StandsAt, Holds, NoneEmpty, Flatten, State, Valid, Markers, SeekIndex, AllInputConsumed, AtEnd;
      var recs := Flatten(groups);
      var i := at;
      ghost var src := Src();
      Sizes(src, groups);
      Progress(groups, i, target);
      while !AtEnd() && numMarkerRecords < target
        invariant at <= i <= |recs| && Valid() && Src() == src
        invariant StandsAt(src, groups, i, Settle(src, State()))
        invariant SeekIndex(recs, at, target) == SeekIndex(recs, i, target)
        invariant if i == at then successfulRead == old(successfulRead) else successfulRead
        decreases |recs| - i
      {
        Progress(groups, i, target);
        if i == |recs| {
          var none := FailedFread(groups);
          return false;
        }
        var fields := ReadRecord(recs[i], groups, i);
        i := i + 1;
      }
      Progress(groups, i, target);
      return true;
    }

    // Reading past the last record.
    method FailedFread(ghost groups: seq<seq<Rec>>) returns (none: seq<seq<Byte>>)
      requires Valid() && Holds(Src(), groups) && NoneEmpty(groups)
      requires StandsAt(Src(), groups, |Flatten(groups)|, Settle(Src(), State()))
      modifies this
      ensures Valid() && Src() == old(Src()) && none == [] && !successfulRead
      ensures StandsAt(Src(), groups, |Flatten(groups)|, Settle(Src(), State()))
    {
      hide StandsAt, Holds, NoneEmpty, Flatten, AllInputConsumed;
      ghost var src, s := Src(), State();
      EndSeen(groups, |Flatten(groups)|);
      none := Fread(1);
      Sizes(src, groups);
      FailedReadStays(src, groups, |Flatten(groups)|, Settle(src, s));
    }

    /** The end is seen on the running stream exactly when all records are read, whatever its task has done. */
    lemma EndSeen(groups: seq<seq<Rec>>, n: nat)
      requires Valid() && Holds(Src(), groups) && NoneEmpty(groups) && n <= |Flatten(groups)|
      requires StandsAt(Src(), groups, n, Settle(Src(), State()))
      ensures AllInputConsumed(Src(), State()) <==> n == |Flatten(groups)|
    {
      hide StandsAt, Holds, NoneEmpty, Flatten, TaskStep;
      EndSeenExactly(Src(), groups, n, Settle(Src(), State()));
      EndHasNoTask(Src(), groups, n, Settle(Src(), State()));
      SettledPhase(Src(), State());
      if phase.NONE? {
        StillSettled(Src(), State());
      }
    }

    // One turn of a slow seek: where the stream is, and what one more record would change.
    lemma Progress(groups: seq<seq<Rec>>, n: nat, target: nat)
      requires Valid() && Holds(Src(), groups) && NoneEmpty(groups) && n <= |Flatten(groups)|
      requires StandsAt(Src(), groups, n, Settle(Src(), State()))
      ensures AtEnd() <==> n == |Flatten(groups)| && !successfulRead
      ensures numMarkerRecords == Markers(Flatten(groups)[..n])
      ensures n == |Flatten(groups)| ==> numMarkerRecords == Markers(Flatten(groups))
      ensures SeekIndex(Flatten(groups), n, target)
           == if n == |Flatten(groups)| || numMarkerRecords >= target then n
             else SeekIndex(Flatten(groups), n + 1, target)
      ensures numMarkerRecords <= Markers(Flatten(groups))
      ensures forall s :: State() == s ==> Settle(Src(), s).successful == successfulRead
    {
      hide StandsAt, Holds, NoneEmpty, Flatten, Complete, Markers, PosAt, BoundaryAhead;
      EndSeen(groups, n);
      MarkersBehind(Src(), groups, n, Settle(Src(), State()));
      assert Flatten(groups)[..|Flatten(groups)|] == Flatten(groups);
      MarkersMonotone(Flatten(groups), n, |Flatten(groups)|);
    }

    // The stream is no longer valid: all input is consumed and the last read failed.
    predicate AtEnd()
      reads this
    {
      lastReadPos + inRead >= layout.end && Consumed(outBuf) && (prefetch ==> Consumed(decompressedBuf))
        && !successfulRead
    }

    /** Seeks forward by a number of markers, jumping by chunk when a boundary lies between. */
    method Seek(n: nat, groups: seq<seq<Rec>>, at: nat) returns (ok: bool)
      requires Valid() && Holds(Src(), groups) && NoneEmpty(groups) && at <= |Flatten(groups)|
      requires StandsAt(Src(), groups, at, Settle(Src(), State())) && !isBranch
      modifies this
      ensures Valid() && Src() == old(Src()) && NoneEmpty(groups) && |groups| == |layout.index|
      ensures ok <==> CanSeek(Src(), groups, at, old(Settle(Src(), State())), n)
      ensures ok ==> StandsAt(Src(), groups, SeekIndex(Flatten(groups), at, old(numMarkerRecords) + n),
                              Settle(Src(), State()))
    {
      hide StandsAt, Holds, NoneEmpty, Flatten, State, Valid, Markers, SeekIndex, CanSeek, Settle, Capacity, ChunkStart;
      ghost var src, w := Src(), Settle(Src(), State());
      CallerShown();
      Sizes(src, groups);
      var target := numMarkerRecords + n;
      if target < nextChunkEnd {
        SeekInChunkMeaning(src, groups, at, w, n);
        ok := SeekRecords(target, groups, at);
      } else {
        SeekOverMeaning(src, groups, at, w, n);
        JumpMeaning(groups, at, target);
        CancelCurrentChunks();
        var k := target / layout.chunkSize;
        if k >= |layout.index| {
          return false;
        }
        SeekToChunk(k);
        ok := SeekRecords(target, groups, ChunkStart(groups, k));
      }
    }

    // Where the jump of a seek over a boundary leads.
    lemma JumpMeaning(groups: seq<seq<Rec>>, at: nat, target: nat)
      requires Valid() && Holds(Src(), groups) && NoneEmpty(groups) && at <= |Flatten(groups)|
      requires StandsAt(Src(), groups, at, Settle(Src(), State())) && !isBranch
      requires target >= nextChunkEnd && |groups| == |layout.index| && layout.chunkSize >= 1
      ensures var k := target / layout.chunkSize;
              k < |groups| ==>
                && ChunkStart(groups, k) < |Flatten(groups)|
                && SeekIndex(Flatten(groups), at, target) == SeekIndex(Flatten(groups), ChunkStart(groups, k), target)
                && StandsAt(Src(), groups, ChunkStart(groups, k),
                            Settle(Src(), ChunkReader.SeekToChunk(Src(),
                                                                  ChunkReader.CancelCurrentChunks(Src(), State()), k)))
    {
      hide StandsAt, Holds, NoneEmpty, Flatten, Markers, SeekIndex, Settle, ChunkStart, ChunkReader.SeekToChunk,
           ChunkReader.CancelCurrentChunks;
      ghost var src, w, k := Src(), Settle(Src(), State()), target / layout.chunkSize;
      CallerShown();
      if k < |groups| {
        CancelRests(src, State());
        JumpIsOnTheWay(src, groups, at, w, target);
        JumpStands(src, groups, k, 0, ChunkReader.CancelCurrentChunks(src, State()));
        LaterLanding(groups, k);
      }
    }

    /** Back to the first record behind the header. */
    method Rewind(ghost groups: seq<seq<Rec>>, ghost h: nat)
      requires Valid() && Holds(Src(), groups) && NoneEmpty(groups) && HeaderEnds(Src(), groups, h) && !isBranch
      modifies this
      ensures Valid() && Src() == old(Src()) && NoneEmpty(groups) && |groups| == |layout.index| && h < |Flatten(groups)|
      ensures StandsAt(Src(), groups, h, Settle(Src(), State()))
    {
      hide StandsAt, Holds, NoneEmpty, Flatten, Settle, HeaderEnds, ChunkReader.SeekToChunk,
           ChunkReader.CancelCurrentChunks;
      Sizes(Src(), groups);
      RewindLands(Src(), groups, h, State());
      CancelCurrentChunks();
      SeekToChunk(0);
    }

    /** Seeks to a place given by its marker count and a distance from it. */
    method SeekFromOffset(numMarkersAtOffset: nat, numMarkersToSeek: nat, groups: seq<seq<Rec>>, h: nat)
      returns (ok: bool)
      requires Valid() && Holds(Src(), groups) && NoneEmpty(groups) && HeaderEnds(Src(), groups, h) && !isBranch
      requires layout.chunkSize >= 1 && numMarkersAtOffset / layout.chunkSize < |groups|
      modifies this
      ensures Valid() && Src() == old(Src()) && NoneEmpty(groups) && |groups| == |layout.index| && h < |Flatten(groups)|
      ensures var target := numMarkersAtOffset + numMarkersToSeek;
              && (ok <==> target <= Markers(Flatten(groups)) && target < Capacity(Src(), groups))
              && (ok ==> StandsAt(Src(), groups, SeekIndex(Flatten(groups), h, target), Settle(Src(), State())))
    {
      hide StandsAt, Holds, NoneEmpty, Flatten, State, Valid, Markers, SeekIndex, CanSeek, Settle, Capacity,
           ChunkStart, HeaderEnds, LandingIndex;
      ghost var src, target := Src(), numMarkersAtOffset + numMarkersToSeek;
      var k := numMarkersAtOffset / layout.chunkSize;
      Sizes(src, groups);
      OffsetJump(groups, h, numMarkersAtOffset, target);
      CancelCurrentChunks();
      SeekToChunk(k);
      CallerShown();
      Quotient(numMarkersAtOffset, layout.chunkSize);
      var remaining := (numMarkersAtOffset - numMarkerRecords) + numMarkersToSeek;
      OffsetMeaning(src, groups, LandingIndex(groups, k, h), Settle(src, State()), remaining, k);
      if remaining > 0 {
        ok := Seek(remaining, groups, LandingIndex(groups, k, h));
      } else {
        ok := true;
      }
    }

    lemma OffsetJump(groups: seq<seq<Rec>>, h: nat, at: nat, target: nat)
      requires Valid() && Holds(Src(), groups) && NoneEmpty(groups) && HeaderEnds(Src(), groups, h) && !isBranch
      requires |groups| == |layout.index| && layout.chunkSize >= 1 && at / layout.chunkSize < |groups| && target >= at
      ensures var k := at / layout.chunkSize;
              var c := LandingIndex(groups, k, h);
              var t := ChunkReader.SeekToChunk(Src(), ChunkReader.CancelCurrentChunks(Src(), State()), k);
              && c < |Flatten(groups)| && h < |Flatten(groups)|
              && SeekIndex(Flatten(groups), h, target) == SeekIndex(Flatten(groups), c, target)
              && StandsAt(Src(), groups, c, Settle(Src(), t))
              && Settle(Src(), t).markers == k * layout.chunkSize && !Settle(Src(), t).tracker.isBranch
    {
      hide StandsAt, Holds, NoneEmpty, Flatten, Markers, SeekIndex, Settle, HeaderEnds, LandingIndex,
           ChunkReader.SeekToChunk, ChunkReader.CancelCurrentChunks;
      ghost var src, k := Src(), at / layout.chunkSize;
      CancelRests(src, State());
      JumpStands(src, groups, k, h, ChunkReader.CancelCurrentChunks(src, State()));
      JumpStands(src, groups, 0, h, ChunkReader.CancelCurrentChunks(src, State()));
      HeaderLanding(groups, h);
      Quotient(at, layout.chunkSize);
      FromHeader(src, groups, h, k, target);
      ChunkTaken(src, groups, k, ChunkReader.CancelCurrentChunks(src, State()));
    }

    /** Notes where the records behind the header start, and the PC they start with. */
    method SetTraceStart()
      modifies `traceStart
      ensures traceStart == outBuf.read
    {
      traceStart := outBuf.read;
    }

    method SetInitialPC(initialPc: nat)
      requires layout.index != []
      modifies `layout
      ensures layout.index != [] && Src() == Noted(old(Src()), traceStart, initialPc)
    {
      layout := layout.(index := layout.index[0 := layout.index[0].(startPc := initialPc)]);
    }

    lemma CallerShown()
      ensures var w := Settle(Src(), State());
              && w.tracker == Tracker(pc, nextPc, targetPc, isBranch) && w.successful == successfulRead
              && w.markers == numMarkerRecords && w.nextEnd == nextChunkEnd
    {
    }

    // The stream, settled, is where the given calls lead from a given state, and has returned the given results.
    ghost predicate Follows(src: Source, w: Reader, ops: seq<Op>, results: seq<seq<Byte>>)
      requires Resting(w.io)
      reads this
    {
      Sync(src, w, ops) == Outcome(Settle(src, State()), results)
    }

    lemma OneMoreCall(w: Reader, ops: seq<Op>, op: Op, results: seq<seq<Byte>>)
      requires Valid() && Resting(w.io) && Follows(Src(), w, ops, results)
      requires op.FREAD? || op.JUMP? ==> Undisturbed(Sync(Src(), w, ops).reader, op)
      ensures Outcome(Settle(Src(), Do(Src(), State(), op)), results + Returned(Src(), State(), op))
              == Sync(Src(), w, ops + [op])
      ensures !op.FREAD? ==> Outcome(Settle(Src(), Do(Src(), State(), op)), results) == Sync(Src(), w, ops + [op])
    {
      hide Do, Sync;
      assert !op.FREAD? ==> results + Returned(Src(), State(), op) == results;
      hide Returned;
      SettledPhase(Src(), State());
      DoSettled(Src(), State(), op);
      SyncConcat(Src(), w, ops, [op]);
      SyncOne(Src(), Sync(Src(), w, ops).reader, op);
      assert results + Returned(Src(), State(), op)
        == Sync(Src(), w, ops).results + Sync(Src(), Sync(Src(), w, ops).reader, [op]).results;
    }
  }

  lemma LaterLanding(groups: seq<seq<Rec>>, k: nat)
    requires k <= |groups|
    ensures k > 0 ==> LandingIndex(groups, k, 0) == ChunkStart(groups, k)
  {
  }

  // What CanSeek says of a target inside the chunk, and of one over a boundary.
  lemma SeekInChunkMeaning(src: Source, groups: seq<seq<Rec>>, a: nat, s: Reader, n: nat)
    requires Holds(src, groups) && NoneEmpty(groups) && a <= |Flatten(groups)| && |groups| == |src.layout.index|
    requires StandsAt(src, groups, a, s) && s.markers + n < s.nextEnd
    ensures CanSeek(src, groups, a, s, n)
       <==> Markers(Flatten(groups)) >= s.markers + n || (a == |Flatten(groups)| && !s.successful)
  {
    hide StandsAt, Holds, NoneEmpty, Flatten, Markers, Capacity;
    MarkersBehind(src, groups, a, s);
    MarkersAtMost(Flatten(groups), a);
    if s.markers + n <= Markers(Flatten(groups)) {
      ExistsInChunk(src, groups, a, s, n);
    }
  }

  lemma SeekOverMeaning(src: Source, groups: seq<seq<Rec>>, a: nat, s: Reader, n: nat)
    requires Holds(src, groups) && NoneEmpty(groups) && a <= |Flatten(groups)| && |groups| == |src.layout.index|
    requires StandsAt(src, groups, a, s) && s.markers + n >= s.nextEnd && src.layout.chunkSize >= 1
    ensures CanSeek(src, groups, a, s, n)
       <==> Markers(Flatten(groups)) >= s.markers + n && (s.markers + n) / src.layout.chunkSize < |groups|
  {
    hide StandsAt, Holds, NoneEmpty, Flatten, Markers, Capacity;
    MarkersBehind(src, groups, a, s);
    CapacityBound(src, groups, s.markers + n);
  }

  // What CanSeek says from the place where a jump to a chunk lands.
  lemma OffsetMeaning(src: Source, groups: seq<seq<Rec>>, c: nat, s: Reader, n: nat, k: nat)
    requires Holds(src, groups) && NoneEmpty(groups) && c < |Flatten(groups)| && |groups| == |src.layout.index|
    requires StandsAt(src, groups, c, s) && s.markers == k * src.layout.chunkSize && k < |groups|
    ensures var target := s.markers + n;
            && (CanSeek(src, groups, c, s, n) <==> target <= Markers(Flatten(groups)) && target < Capacity(src, groups))
            && (n == 0 ==> CanSeek(src, groups, c, s, n) && SeekIndex(Flatten(groups), c, target) == c)
  {
    hide StandsAt, Holds, NoneEmpty, Flatten, Markers, Capacity;
    Sizes(src, groups);
    MarkersBehind(src, groups, c, s);
    MarkersAtMost(Flatten(groups), c);
    InsideCapacity(src, groups, k);
  }

  lemma InsideCapacity(src: Source, groups: seq<seq<Rec>>, k: nat)
    requires k < |groups| && src.layout.chunkSize >= 1
    ensures k * src.layout.chunkSize < Capacity(src, groups)
  {
    OneMore(k, src.layout.chunkSize);
    Scaled(k + 1, |groups|, src.layout.chunkSize);
  }

  lemma StepTowardsEnd(src: Source, io: Io)
    requires !Resting(io)
    ensures Complete(src, TaskStep(src, io)) == Complete(src, io)
    ensures StepsLeft(TaskStep(src, io)) < StepsLeft(io)
  {
  }

  lemma SettledPhase(src: Source, s: Reader)
    ensures Settle(src, s).out == s.out && (Settle(src, s).io.phase.NONE? <==> s.io.phase.NONE?)
  {
  }

  lemma StillSettled(src: Source, w: Reader)
    requires Resting(w.io)
    ensures Settle(src, w) == w
  {
  }

  lemma NothingYet(src: Source, w: Reader, fields: seq<seq<Byte>>)
    requires Resting(w.io)
    ensures Sync(src, w, Freads(fields[..0])) == Outcome(w, [])
  {
  }

  // The calls of a record, one after the other, none of which finds a consumed buffer while a task runs.
  lemma ReadInSteps(src: Source, w: Reader, r: Rec)
    requires Resting(w.io) && UndisturbedRun(src, w, ReadOps(r))
    ensures UndisturbedRun(src, w, Freads(r.fields))
    ensures ReadOps(r) == Freads(r.fields) + [TRACK(r.kind)] + if IsMarker(r) then [MARKER] else []
    ensures !IsMarker(r) ==> ReadOps(r) == Freads(r.fields) + [TRACK(r.kind)]
  {
    hide Freads, Sync, Undisturbed;
    var body := Freads(r.fields) + [TRACK(r.kind)];
    assert body + [] == body && body[..|body| - 1] == Freads(r.fields);
    assert (body + [MARKER])[..|body + [MARKER]| - 1] == body;
  }

  lemma {:induction false} FieldInSteps(src: Source, w: Reader, fields: seq<seq<Byte>>, i: nat)
    requires Resting(w.io) && UndisturbedRun(src, w, Freads(fields)) && i < |fields|
    ensures Undisturbed(Sync(src, w, Freads(fields[..i])).reader, FREAD(|fields[i]|))
    ensures Freads(fields[..i + 1]) == Freads(fields[..i]) + [FREAD(|fields[i]|)]
  {
    hide Sync, Undisturbed;
    var n := |fields| - 1;
    FreadsSnoc(fields[..n], fields[n]);
    assert fields[..n] + [fields[n]] == fields;
    var ops := Freads(fields[..n]) + [FREAD(|fields[n]|)];
    assert ops[..|ops| - 1] == Freads(fields[..n]);
    if i < n {
      FieldInSteps(src, w, fields[..n], i);
      assert fields[..n][..i] == fields[..i] && fields[..n][..i + 1] == fields[..i + 1];
    } else {
      assert fields[..i + 1] == fields;
    }
  }
}
