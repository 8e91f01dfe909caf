/**
 * The compressing output stream as an object updated in place, step by step, against the
 * specification of its state in ChunkWriter.
 */
module CompressedOFstreams {
  import opened Bits
  import opened Trace
  import opened ChunkFile
  import opened ChunkWriter

  class CompressedOFstream {
    const codec: Codec
    const markerRecordChunkSize: nat

    // the file and its position
    var file: seq<Byte>
    var pos: nat

    var curChunkBuf: seq<Byte>
    var compressionChunkBuf: seq<Byte>
    var outBuf: seq<Byte>
    var phase: Phase
    var pendingChunk: bool
    var incompleteChunk: bool
    var bytesWritten: nat
    var chunkIndices: seq<ChunkIndex>

    var numMarkerRecords: nat
    var nextChunkEnd: nat
    var pc: nat
    var nextPc: nat
    var targetPc: nat
    var isBranch: bool

    ghost function Caller(): Caller
      reads `curChunkBuf, `pendingChunk, `incompleteChunk, `numMarkerRecords, `nextChunkEnd, `pc, `nextPc, `targetPc,
            `isBranch
    {
      ChunkWriter.Caller.Caller(curChunkBuf, pendingChunk, incompleteChunk, numMarkerRecords, nextChunkEnd,
                                Tracker(pc, nextPc, targetPc, isBranch))
    }

    ghost function Job(): Job
      reads `file, `pos, `compressionChunkBuf, `outBuf, `bytesWritten, `chunkIndices, `phase
    {
      ChunkWriter.Job.Job(file, pos, compressionChunkBuf, outBuf, bytesWritten, chunkIndices, phase)
    }

    ghost predicate Valid()
      reads this
    {
      Ready(Job())
    }

    ghost function State(): (w: Writer)
      requires Valid()
      reads this
      ensures Ready(w.job)
    {
      Writer(Caller(), Job())
    }

    constructor (codec: Codec, chunkSize: nat)
      ensures Valid() && this.codec == codec && markerRecordChunkSize == chunkSize
      ensures State() == Open(codec, chunkSize)
    {
      this.codec := codec;
      markerRecordChunkSize := chunkSize;
      var prologue: seq<Byte> := MAGIC + Word(chunkSize);
      prologue := prologue + Word(0);
      file, pos := prologue, |prologue|;
      chunkIndices := [ChunkIndex(|prologue|, 0, 0)];
      curChunkBuf, compressionChunkBuf, outBuf := [], [], [];
      phase := IDLE;
      pendingChunk, incompleteChunk, bytesWritten := false, false, 0;
      numMarkerRecords, nextChunkEnd := 0, chunkSize;
      pc, nextPc, targetPc, isBranch := 0, 0, 0, false;
    }

    /** Writes to the file at its position, bypassing the compressor. */
    method DirectWrite(data: seq<Byte>)
      requires pos <= |file|
      modifies `file, `pos
      ensures file == WriteAt(old(file), old(pos), data) && pos == old(pos) + |data| <= |file|
    {
      file := WriteAt(file, pos, data);
      pos := pos + |data|;
    }

    method WriteChunk()
      requires pos <= |file|
      modifies `file, `pos, `outBuf
      ensures file == WriteAt(old(file), old(pos), old(outBuf))
      ensures pos == old(pos) + |old(outBuf)| <= |file| && outBuf == []
    {
      if outBuf != [] {
        DirectWrite(outBuf);
        outBuf := [];
      } else {
        assert WriteAt(file, pos, []) == file;
      }
    }

    /** The compression task, advanced by one step. */
    method AdvanceTask()
      requires Valid() && !Resting(Job())
      modifies `file, `pos, `compressionChunkBuf, `outBuf, `bytesWritten, `chunkIndices, `phase
      ensures Valid() && Job() == TaskStep(codec, old(Job()))
    {
      hide Word, IndexBytes;
      match phase
      case COMPRESS(nextChunkPc) =>
        outBuf := outBuf + codec.compress(compressionChunkBuf);
        bytesWritten := bytesWritten + |compressionChunkBuf|;
        compressionChunkBuf := [];
        phase := WRITE_DATA(nextChunkPc);
      case WRITE_DATA(nextChunkPc) =>
        WriteChunk();
        chunkIndices := SetSize(chunkIndices, bytesWritten);
        bytesWritten := 0;
        phase := WRITE_INDEX(nextChunkPc);
      case WRITE_INDEX(nextChunkPc) =>
        var end := pos;
        DirectWrite(IndexBytes(chunkIndices));
        phase := PATCH_HEADER(nextChunkPc, end);
      case PATCH_HEADER(nextChunkPc, end) =>
        pos := END_FIELD;
        DirectWrite(Word(end));
        phase := START_CHUNK(nextChunkPc, end);
      case START_CHUNK(nextChunkPc, end) =>
        pos := end;
        chunkIndices := chunkIndices + [ChunkIndex(end, nextChunkPc, 0)];
        phase := DONE;
    }

    /** Waits for the task. */
    method JoinTask()
      requires Valid()
      modifies `file, `pos, `compressionChunkBuf, `outBuf, `bytesWritten, `chunkIndices, `phase
      ensures Valid() && Job() == Join(codec, old(Job()))
    {
      hide TaskStep;
      while !(phase.IDLE? || phase.DONE?)
        invariant Valid() && Complete(codec, Job()) == Complete(codec, old(Job()))
        decreases StepsLeft(phase)
      {
        StepTowardsEnd(codec, Job());
        AdvanceTask();
      }
      phase := IDLE;
    }

    method CompressChunk()
      requires Valid() && (pendingChunk ==> !incompleteChunk)
      modifies `file, `pos, `curChunkBuf, `compressionChunkBuf, `outBuf, `bytesWritten, `chunkIndices, `phase,
               `pendingChunk
      ensures Valid() && State() == ChunkWriter.CompressChunk(codec, old(State()))
    {
      hide Complete;
      ghost var caller := Caller();
      JoinTask();
      assert Caller() == caller;
      if pendingChunk {
        pendingChunk := false;
        curChunkBuf, compressionChunkBuf := compressionChunkBuf, curChunkBuf;
        phase := COMPRESS(nextPc);
      }
    }

    method Fwrite(data: seq<Byte>)
      requires Valid()
      modifies `curChunkBuf, `pendingChunk, `incompleteChunk
      ensures Valid() && State() == Do(codec, markerRecordChunkSize, old(State()), FWRITE(data))
    {
      curChunkBuf := curChunkBuf + data;
      pendingChunk := true;
      incompleteChunk := true;
    }

    method TrackPC(kind: Kind)
      requires Valid()
      modifies `pc, `nextPc, `targetPc, `isBranch
      ensures Valid() && State() == Do(codec, markerRecordChunkSize, old(State()), TRACK(kind))
    {
      match kind
      case OPCODE(size) =>
        pc := nextPc;
        if isBranch {
          nextPc := targetPc;
          isBranch := false;
        } else {
          nextPc := (nextPc + size) % U64;
        }
      case PC_TARGET(addr) =>
        targetPc := addr;
        isBranch := true;
      case FORCE_PC(addr) =>
        nextPc := addr;
      case PLAIN =>
    }

    method MarkerRecordCallback()
      requires Valid()
      modifies this
      ensures Valid() && State() == Do(codec, markerRecordChunkSize, old(State()), MARKER)
    {
      hide ChunkWriter.CompressChunk, Track, Ready;
      numMarkerRecords := numMarkerRecords + 1;
      incompleteChunk := false;
      if numMarkerRecords >= nextChunkEnd {
        CompressChunk();
        nextChunkEnd := nextChunkEnd + markerRecordChunkSize;
      }
    }

    /** Writes a whole record; the running task does not advance unless a chunk ends. */
    method WriteRecord(r: Rec)
      requires Valid() && WellFormed(r)
      modifies this
      ensures Valid()
      ensures Settle(codec, State()) == Sync(codec, markerRecordChunkSize, Settle(codec, old(State())), RecOps(r))
    {
      hide Do, Settle, FieldOps, Sync, Ready, Resting, State, Valid;
      ghost var w, done := Settle(codec, State()), [FWRITE(r.fields[0])];
      DoSettled(codec, markerRecordChunkSize, State(), FWRITE(r.fields[0]));
      SyncOne(codec, markerRecordChunkSize, w, FWRITE(r.fields[0]));
      Fwrite(r.fields[0]);
      OneMoreCall(w, done, TRACK(r.kind));
      TrackPC(r.kind);
      done := done + [TRACK(r.kind)];
      ghost var head := done;
      NoFields();
      assert r.fields[1..1] == [] && head + [] == head;
      var i := 1;
      while i < |r.fields|
        invariant 1 <= i <= |r.fields| && Valid()
        invariant done == head + FieldOps(r.fields[1..i])
        invariant Settle(codec, State()) == Sync(codec, markerRecordChunkSize, w, done)
      {
        OneMoreCall(w, done, FWRITE(r.fields[i]));
        Fwrite(r.fields[i]);
        OneMoreField(r.fields[1..i], r.fields[i]);
        assert r.fields[1..i] + [r.fields[i]] == r.fields[1..i + 1];
        done := done + [FWRITE(r.fields[i])];
        i := i + 1;
      }
      assert r.fields[1..i] == r.fields[1..];
      RecordIs(r, done);
      if r.kind.OPCODE? {
        OneMoreCall(w, done, MARKER);
        MarkerRecordCallback();
      }
    }

    lemma OneMoreCall(w: Writer, done: seq<Op>, op: Op)
      requires Valid() && Ready(w.job) && Resting(w.job)
      requires Settle(codec, State()) == Sync(codec, markerRecordChunkSize, w, done)
      ensures Settle(codec, Do(codec, markerRecordChunkSize, State(), op))
              == Sync(codec, markerRecordChunkSize, w, done + [op])
    {
      hide Do, Settle;
      DoSettled(codec, markerRecordChunkSize, State(), op);
      SyncConcat(codec, markerRecordChunkSize, w, done, [op]);
      SyncOne(codec, markerRecordChunkSize, Sync(codec, markerRecordChunkSize, w, done), op);
    }

    method Close()
      requires Valid()
      modifies this
      ensures Valid() && Job() == ChunkWriter.Close(codec, old(State()))
    {
      if pendingChunk && !incompleteChunk {
        CompressChunk();
      }
      if !phase.IDLE? {
        JoinTask();
      }
    }
  }

  lemma StepTowardsEnd(c: Codec, j: Job)
    requires Ready(j) && !Resting(j)
    ensures Complete(c, TaskStep(c, j)) == Complete(c, j)
    ensures StepsLeft(TaskStep(c, j).phase) < StepsLeft(j.phase)
  {
  }

  lemma RecordIs(r: Rec, body: seq<Op>)
    requires r.fields != [] && body == [FWRITE(r.fields[0])] + [TRACK(r.kind)] + FieldOps(r.fields[1..])
    ensures RecOps(r) == body + if IsMarker(r) then [MARKER] else []
    ensures !IsMarker(r) ==> RecOps(r) == body
  {
    hide FieldOps;
    assert body == [FWRITE(r.fields[0]), TRACK(r.kind)] + FieldOps(r.fields[1..]);
    assert body + [] == body;
  }

  lemma NoFields()
    ensures FieldOps([]) == []
  {
  }

  lemma OneMoreField(fields: seq<seq<Byte>>, f: seq<Byte>)
    ensures FieldOps(fields + [f]) == FieldOps(fields) + [FWRITE(f)]
  {
    assert (fields + [f])[..|fields + [f]| - 1] == fields;
  }

  /** A stream given some records, one after the other, and then closed. */
  method WriteAll(codec: Codec, chunkSize: nat, recs: seq<Rec>) returns (file: seq<Byte>)
    requires chunkSize >= 1 && AllWellFormed(recs)
    ensures file == FileOf(codec, chunkSize, ChunksOf(Kept(SplitAt(recs, chunkSize))))
  {
    hide Open, After, RecOps, Sync, Settle, FileOf, ChunksOf, SplitAt, ChunkWriter.Close, CompressedOFstream.State,
         CompressedOFstream.Valid;
    var stream := new CompressedOFstream(codec, chunkSize);
    OpenIsAfterNothing(codec, chunkSize);
    assert Settle(codec, stream.State()) == After(codec, chunkSize, []) by { AtRest(codec, chunkSize); }
    var i := 0;
    while i < |recs|
      invariant 0 <= i <= |recs| && stream.Valid() && fresh(stream)
      invariant stream.codec == codec && stream.markerRecordChunkSize == chunkSize
      invariant Settle(codec, stream.State()) == After(codec, chunkSize, recs[..i])
    {
      assert recs[i] in recs;
      RecordWritten(codec, chunkSize, recs[..i], recs[i]);
      assert recs[..i] + [recs[i]] == recs[..i + 1];
      stream.WriteRecord(recs[i]);
      i := i + 1;
    }
    assert recs[..i] == recs;
    CloseSettled(codec, stream.State());
    CloseAfter(codec, chunkSize, recs);
    stream.Close();
    return stream.file;
  }

  lemma AtRest(c: Codec, size: nat)
    ensures Settle(c, Open(c, size)) == Open(c, size)
  {
  }

  lemma CloseSettled(c: Codec, w: Writer)
    requires Ready(w.job)
    ensures Close(c, w) == Close(c, Settle(c, w))
  {
    hide TaskStep;
    assert Complete(c, Complete(c, w.job)) == Complete(c, w.job);
  }
}
