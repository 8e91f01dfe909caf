/**
 * The compressing writer: the caller fills one buffer while a task compresses the other, appends
 * the chunk and its index to the file and patches the header.
 */
module ChunkWriter {
  import opened Trace
  import opened OpcodePCs
  import opened FlatMaps
  import opened ChunkFile

  // Where the compression task is; IDLE when none is running, DONE until the caller joins it.
  datatype Phase =
    | IDLE
    | COMPRESS(pc: nat)
    | WRITE_DATA(pc: nat)
    | WRITE_INDEX(pc: nat)
    | PATCH_HEADER(pc: nat, end: nat)
    | START_CHUNK(pc: nat, end: nat)
    | DONE

  // What the task owns from its launch to its join.
  datatype Job = Job(file: seq<Byte>, pos: nat, comp: seq<Byte>, out: seq<Byte>, bytesWritten: nat,
                     indices: seq<ChunkIndex>, phase: Phase)

  // What the caller owns.
  datatype Caller = Caller(cur: seq<Byte>, pending: bool, incomplete: bool, markers: nat, nextEnd: nat,
                           tracker: Tracker)

  datatype Writer = Writer(caller: Caller, job: Job)

  predicate Resting(j: Job) { j.phase.IDLE? || j.phase.DONE? }

  // The task finds its output buffer empty, and leaves both buffers empty for the next one.
  predicate Ready(j: Job) {
    && j.indices != [] && j.pos <= |j.file| && PROLOGUE_SIZE <= |j.file|
    && (Resting(j) ==> j.comp == [] && j.out == [] && j.bytesWritten == 0)
    && (j.phase.COMPRESS? ==> j.out == [] && j.bytesWritten == 0)
    && (j.phase.WRITE_DATA? ==> j.comp == [])
    && (j.phase.WRITE_INDEX? || j.phase.PATCH_HEADER? || j.phase.START_CHUNK? ==>
          j.comp == [] && j.out == [] && j.bytesWritten == 0)
    && (j.phase.PATCH_HEADER? || j.phase.START_CHUNK? ==> j.phase.end <= |j.file|)
  }

  function SetSize(es: seq<ChunkIndex>, size: nat): (r: seq<ChunkIndex>)
    requires es != []
    ensures |r| == |es|
  {
    es[|es| - 1 := es[|es| - 1].(size := size)]
  }

  /** One step of the task; between two of them the caller may run. */
  function TaskStep(c: Codec, j: Job): (r: Job)
    requires Ready(j)
    ensures Ready(r)
  {
    match j.phase
    case IDLE => j
    case COMPRESS(pc) =>
      j.(comp := [], out := j.out + c.compress(j.comp), bytesWritten := j.bytesWritten + |j.comp|,
         phase := WRITE_DATA(pc))
    case WRITE_DATA(pc) =>
      j.(file := WriteAt(j.file, j.pos, j.out), pos := j.pos + |j.out|, out := [],
         indices := SetSize(j.indices, j.bytesWritten), bytesWritten := 0, phase := WRITE_INDEX(pc))
    case WRITE_INDEX(pc) =>
      var index := IndexBytes(j.indices);
      j.(file := WriteAt(j.file, j.pos, index), pos := j.pos + |index|, phase := PATCH_HEADER(pc, j.pos))
    case PATCH_HEADER(pc, end) =>
      j.(file := WriteAt(j.file, END_FIELD, Word(end)), pos := END_FIELD + 8, phase := START_CHUNK(pc, end))
    case START_CHUNK(pc, end) =>
      j.(pos := end, indices := j.indices + [ChunkIndex(end, pc, 0)], phase := DONE)
    case DONE => j
  }

  function StepsLeft(p: Phase): nat {
    match p
    case COMPRESS(_) => 5
    case WRITE_DATA(_) => 4
    case WRITE_INDEX(_) => 3
    case PATCH_HEADER(_, _) => 2
    case START_CHUNK(_, _) => 1
    case _ => 0
  }

  // The task run to its end.
  function Complete(c: Codec, j: Job): (r: Job)
    requires Ready(j)
    ensures Ready(r) && Resting(r)
    decreases StepsLeft(j.phase)
  {
    if Resting(j) then j else Complete(c, TaskStep(c, j))
  }

  function Join(c: Codec, j: Job): (r: Job)
    requires Ready(j)
    ensures Ready(r) && r.phase.IDLE?
  {
    Complete(c, j).(phase := IDLE)
  }

  // ---------------------------------------------------------------- caller

  datatype Op = FWRITE(data: seq<Byte>) | TRACK(kind: Kind) | MARKER

  /** Joins the running task, then swaps the buffers and launches the next one. */
  function CompressChunk(c: Codec, w: Writer): (r: Writer)
    requires Ready(w.job) && (w.caller.pending ==> !w.caller.incomplete)
    ensures Ready(r.job) && (w.caller.pending ==> r.caller.cur == [])
  {
    var joined := Join(c, w.job);
    if !w.caller.pending then w.(job := joined)
    else
      Writer(w.caller.(cur := joined.comp, pending := false),
             joined.(comp := w.caller.cur, phase := COMPRESS(w.caller.tracker.nextPc)))
  }

  function Do(c: Codec, size: nat, w: Writer, op: Op): (r: Writer)
    requires Ready(w.job)
    ensures Ready(r.job)
  {
    match op
    case FWRITE(data) => w.(caller := w.caller.(cur := w.caller.cur + data, pending := true, incomplete := true))
    case TRACK(kind) => w.(caller := w.caller.(tracker := Track(w.caller.tracker, kind)))
    case MARKER =>
      var counted := w.(caller := w.caller.(markers := w.caller.markers + 1, incomplete := false));
      if counted.caller.markers >= w.caller.nextEnd then
        var r := CompressChunk(c, counted);
        r.(caller := r.caller.(nextEnd := r.caller.nextEnd + size))
      else counted
  }

  /** The file left by close: the open chunk is written unless it would not end on a marker. */
  function Close(c: Codec, w: Writer): (r: Job)
    requires Ready(w.job)
    ensures Ready(r) && r.phase.IDLE?
  {
    if w.caller.pending && !w.caller.incomplete then Join(c, CompressChunk(c, w).job) else Join(c, w.job)
  }

  // ---------------------------------------------------------------- every interleaving

  datatype Step = CALL(op: Op) | TASK

  function Exec(c: Codec, size: nat, w: Writer, script: seq<Step>): (r: Writer)
    requires Ready(w.job)
    ensures Ready(r.job)
  {
    if script == [] then w
    else
      var before := Exec(c, size, w, script[..|script| - 1]);
      match script[|script| - 1]
      case CALL(op) => Do(c, size, before, op)
      case TASK => before.(job := TaskStep(c, before.job))
  }

  function Calls(script: seq<Step>): seq<Op> {
    if script == [] then []
    else
      var before := Calls(script[..|script| - 1]);
      match script[|script| - 1]
      case CALL(op) => before + [op]
      case TASK => before
  }

  function Settle(c: Codec, w: Writer): (r: Writer)
    requires Ready(w.job)
    ensures Ready(r.job) && Resting(r.job) && r.caller == w.caller
  {
    w.(job := Complete(c, w.job))
  }

  // A synchronous writer: every task ends before the call that launched it returns.
  function Sync(c: Codec, size: nat, w: Writer, ops: seq<Op>): (r: Writer)
    requires Ready(w.job) && Resting(w.job)
    ensures Ready(r.job) && Resting(r.job)
  {
    if ops == [] then w else Settle(c, Do(c, size, Sync(c, size, w, ops[..|ops| - 1]), ops[|ops| - 1]))
  }

  lemma DoSettled(c: Codec, size: nat, w: Writer, op: Op)
    requires Ready(w.job)
    ensures Settle(c, Do(c, size, w, op)) == Settle(c, Do(c, size, Settle(c, w), op))
  {
    hide TaskStep;
    assert Complete(c, Complete(c, w.job)) == Complete(c, w.job);
  }

  /** However the task's steps fall between the calls, the writer ends as the synchronous one. */
  lemma {:induction false} EveryInterleavingIsSynchronous(c: Codec, size: nat, w: Writer, script: seq<Step>)
    requires Ready(w.job) && Resting(w.job)
    ensures Settle(c, Exec(c, size, w, script)) == Sync(c, size, w, Calls(script))
  {
    hide Do;
    if script != [] {
      var n := |script| - 1;
      EveryInterleavingIsSynchronous(c, size, w, script[..n]);
      match script[n]
      case CALL(op) =>
        DoSettled(c, size, Exec(c, size, w, script[..n]), op);
        assert (Calls(script[..n]) + [op])[..|Calls(script[..n]) + [op]| - 1] == Calls(script[..n]);
      case TASK =>
    }
  }

  lemma CloseIsSynchronous(c: Codec, size: nat, w: Writer, script: seq<Step>)
    requires Ready(w.job) && Resting(w.job)
    ensures Close(c, Exec(c, size, w, script)) == Close(c, Sync(c, size, w, Calls(script)))
  {
    hide TaskStep, Sync, Exec;
    EveryInterleavingIsSynchronous(c, size, w, script);
    var last := Exec(c, size, w, script);
    assert Complete(c, Complete(c, last.job)) == Complete(c, last.job);
  }

  // ---------------------------------------------------------------- what a synchronous writer writes

  function FieldOps(fields: seq<seq<Byte>>): seq<Op> {
    if fields == [] then [] else FieldOps(fields[..|fields| - 1]) + [FWRITE(fields[|fields| - 1])]
  }

  /** A record is written descriptor first, then tracked, then its data, then counted if a marker. */
  function RecOps(r: Rec): seq<Op>
    requires r.fields != []
  {
    [FWRITE(r.fields[0]), TRACK(r.kind)] + FieldOps(r.fields[1..]) + (if IsMarker(r) then [MARKER] else [])
  }

  ghost function OpsOf(recs: seq<Rec>): seq<Op>
    requires AllWellFormed(recs)
  {
    if recs == [] then []
    else
      assert recs[|recs| - 1] in recs;
      OpsOf(recs[..|recs| - 1]) + RecOps(recs[|recs| - 1])
  }

  // The PC of the first instruction after the given chunks; the first chunk is given 0.
  function StartPc(done: seq<seq<Rec>>): nat {
    if done == [] then 0 else TrackAll(START, Flatten(done)).nextPc
  }

  function ChunksOf(done: seq<seq<Rec>>): (r: seq<Chunk>)
    ensures |r| == |done|
  {
    if done == [] then []
    else
      var before := done[..|done| - 1];
      ChunksOf(before) + [Chunk(Bytes(done[|done| - 1]), StartPc(before))]
  }

  // The task's state when it rests after writing the given chunks.
  function JobAfter(c: Codec, size: nat, done: seq<seq<Rec>>): (r: Job)
    ensures Ready(r) && Resting(r)
  {
    var chunks := ChunksOf(done);
    var end := End(c, chunks);
    assert |FileOf(c, size, chunks)| >= end;
    Job(FileOf(c, size, chunks), end, [], [], 0, Index(c, chunks) + [ChunkIndex(end, StartPc(done), 0)],
        if done == [] then IDLE else DONE)
  }

  predicate EndsOnMarker(recs: seq<Rec>) { recs != [] && IsMarker(recs[|recs| - 1]) }

  function CallerAfter(size: nat, recs: seq<Rec>): Caller {
    var s := SplitAt(recs, size);
    Caller(Bytes(s.open), s.open != [], s.open != [] && !EndsOnMarker(s.open), Markers(recs),
           (|s.done| + 1) * size, TrackAll(START, recs))
  }

  // The writer after whole records: the chunks of the split are in the file, the rest is buffered.
  function After(c: Codec, size: nat, recs: seq<Rec>): (r: Writer)
    ensures Ready(r.job) && Resting(r.job)
  {
    Writer(CallerAfter(size, recs), JobAfter(c, size, SplitAt(recs, size).done))
  }

  function Open(c: Codec, size: nat): (r: Writer)
    ensures Ready(r.job) && Resting(r.job)
  {
    Writer(Caller([], false, false, 0, size, START),
           Job(Prologue(size, 0), PROLOGUE_SIZE, [], [], 0, [ChunkIndex(PROLOGUE_SIZE, 0, 0)], IDLE))
  }

  lemma OpenIsAfterNothing(c: Codec, size: nat)
    ensures Open(c, size) == After(c, size, [])
  {
    hide Prologue;
    assert Prologue(size, 0) + [] + [] == Prologue(size, 0);
  }

  lemma {:induction false} SyncConcat(c: Codec, size: nat, w: Writer, a: seq<Op>, b: seq<Op>)
    requires Ready(w.job) && Resting(w.job)
    ensures Sync(c, size, w, a + b) == Sync(c, size, Sync(c, size, w, a), b)
  {
    hide Do, Settle;
    if b == [] {
      assert a + b == a;
    } else {
      var n := |b| - 1;
      assert (a + b)[..|a + b| - 1] == a + b[..n];
      SyncConcat(c, size, w, a, b[..n]);
    }
  }

  lemma SyncOne(c: Codec, size: nat, w: Writer, op: Op)
    requires Ready(w.job) && Resting(w.job)
    ensures Sync(c, size, w, [op]) == Settle(c, Do(c, size, w, op))
  {
    hide Do, Settle;
    assert [op][..0] == [];
    assert Sync(c, size, w, []) == w;
  }

  lemma {:induction false} SyncFields(c: Codec, size: nat, w: Writer, fields: seq<seq<Byte>>)
    requires Ready(w.job) && Resting(w.job) && w.caller.pending && w.caller.incomplete
    ensures Sync(c, size, w, FieldOps(fields)) == w.(caller := w.caller.(cur := w.caller.cur + Flatten(fields)))
  {
    hide TaskStep;
    if fields == [] {
      assert w.caller.cur + [] == w.caller.cur;
    } else {
      var n := |fields| - 1;
      SyncFields(c, size, w, fields[..n]);
      SyncConcat(c, size, w, FieldOps(fields[..n]), [FWRITE(fields[n])]);
      SyncOne(c, size, Sync(c, size, w, FieldOps(fields[..n])), FWRITE(fields[n]));
      assert w.caller.cur + (Flatten(fields[..n]) + fields[n]) == w.caller.cur + Flatten(fields[..n]) + fields[n];
    }
  }

  // The task's first two steps write the chunk's data ...
  lemma DataSteps(c: Codec, j: Job)
    requires Ready(j) && j.phase.COMPRESS?
    ensures var data := c.compress(j.comp);
            && PROLOGUE_SIZE <= |WriteAt(j.file, j.pos, data)|
            && Complete(c, j) == Complete(c, Job(WriteAt(j.file, j.pos, data), j.pos + |data|, [], [], 0,
                                                 SetSize(j.indices, |j.comp|), WRITE_INDEX(j.phase.pc)))
  {
    hide WriteAt;
    var j1 := TaskStep(c, j);
    var j2 := TaskStep(c, j1);
    assert [] + c.compress(j.comp) == c.compress(j.comp);
    hide TaskStep;
    assert Complete(c, j) == Complete(c, j1) == Complete(c, j2);
  }

  // ... and the other three the index, the header and the start of the next chunk.
  lemma IndexSteps(c: Codec, j: Job)
    requires Ready(j) && j.phase.WRITE_INDEX? && j.comp == [] && j.out == [] && j.bytesWritten == 0
    ensures Complete(c, j) == Job(WriteAt(WriteAt(j.file, j.pos, IndexBytes(j.indices)), END_FIELD, Word(j.pos)),
                                  j.pos, [], [], 0, j.indices + [ChunkIndex(j.pos, j.phase.pc, 0)], DONE)
  {
    hide WriteAt, IndexBytes, Word;
    var j3 := TaskStep(c, j);
    var j4 := TaskStep(c, j3);
    var j5 := TaskStep(c, j4);
    hide TaskStep;
    assert Complete(c, j) == Complete(c, j3) == Complete(c, j4) == Complete(c, j5) == j5;
  }

  /** The task finishes the chunk: the file becomes exactly the file of one chunk more. */
  lemma TaskFinishesChunk(c: Codec, size: nat, done: seq<seq<Rec>>, open: seq<Rec>)
    requires open != []
    ensures var pc := StartPc(done + [open]);
            Complete(c, JobAfter(c, size, done).(comp := Bytes(open), phase := COMPRESS(pc)))
              == JobAfter(c, size, done + [open])
  {
    hide WriteAt, IndexBytes, Word, Index, FileOf, Data, End, StartPc, Bytes, ChunksOf, TaskStep, Complete;
    var chunks, chunk := ChunksOf(done), Chunk(Bytes(open), StartPc(done));
    ChunksOfSnoc(done, open);
    IndexSnoc(c, chunks, chunk);
    FinishChunk(c, size, chunks, chunk);
    var j := JobAfter(c, size, done).(comp := Bytes(open), phase := COMPRESS(StartPc(done + [open])));
    DataSteps(c, j);
    assert SetSize(j.indices, |j.comp|) == Index(c, chunks + [chunk]);
    var data := c.compress(j.comp);
    IndexSteps(c, Job(WriteAt(j.file, j.pos, data), j.pos + |data|, [], [], 0, SetSize(j.indices, |j.comp|),
                      WRITE_INDEX(j.phase.pc)));
  }

  lemma ChunksOfSnoc(done: seq<seq<Rec>>, open: seq<Rec>)
    ensures ChunksOf(done + [open]) == ChunksOf(done) + [Chunk(Bytes(open), StartPc(done))]
  {
    hide StartPc, Bytes;
    assert (done + [open])[..|done + [open]| - 1] == done;
  }

  lemma IndexSnoc(c: Codec, chunks: seq<Chunk>, chunk: Chunk)
    ensures Index(c, chunks + [chunk]) == Index(c, chunks) + [ChunkIndex(End(c, chunks), chunk.startPc, |chunk.bytes|)]
  {
    assert (chunks + [chunk])[..|chunks + [chunk]| - 1] == chunks;
  }

  // A record's bytes reach the buffer of the caller, and its kind the tracker.
  lemma RecordReachesBuffer(c: Codec, size: nat, w: Writer, r: Rec)
    requires Ready(w.job) && Resting(w.job) && WellFormed(r)
    ensures var body := [FWRITE(r.fields[0]), TRACK(r.kind)] + FieldOps(r.fields[1..]);
            Sync(c, size, w, body)
            == w.(caller := w.caller.(cur := w.caller.cur + RecBytes(r), pending := true, incomplete := true,
                                      tracker := Track(w.caller.tracker, r.kind)))
  {
    hide Track, TaskStep, FieldOps, Sync;
    var a, b := FWRITE(r.fields[0]), TRACK(r.kind);
    var w1 := Do(c, size, w, a);
    SyncOne(c, size, w, a);
    SyncOne(c, size, w1, b);
    SyncConcat(c, size, w, [a], [b]);
    assert [a] + [b] == [a, b];
    SyncConcat(c, size, w, [a, b], FieldOps(r.fields[1..]));
    SyncFields(c, size, Do(c, size, w1, b), r.fields[1..]);
    assert r.fields == [r.fields[0]] + r.fields[1..];
    FlattenOne(r.fields[0]);
    FlattenConcat([r.fields[0]], r.fields[1..]);
    assert w.caller.cur + r.fields[0] + Flatten(r.fields[1..]) == w.caller.cur + RecBytes(r);
  }

  lemma BytesSnoc(recs: seq<Rec>, r: Rec)
    ensures Bytes(recs + [r]) == Bytes(recs) + RecBytes(r)
  {
    BytesOne(r);
    BytesConcat(recs, [r]);
  }

  lemma OneMoreTracked(recs: seq<Rec>, r: Rec)
    ensures TrackAll(START, recs + [r]) == Track(TrackAll(START, recs), r.kind)
  {
    assert (recs + [r])[..|recs + [r]| - 1] == recs;
  }

  // One more record: either it stays in the open chunk, or it closes it.
  lemma SplitSnoc(recs: seq<Rec>, r: Rec, size: nat)
    ensures var before, open := SplitAt(recs, size), SplitAt(recs, size).open + [r];
            SplitAt(recs + [r], size)
            == if IsMarker(r) && Markers(open) >= size then Split(before.done + [open], [])
              else Split(before.done, open)
  {
    assert (recs + [r])[..|recs + [r]| - 1] == recs;
  }

  // The marker count crosses the chunk's end exactly when the open chunk is full.
  lemma BoundaryMeaning(recs: seq<Rec>, r: Rec, size: nat)
    requires size >= 1 && IsMarker(r)
    ensures var split := SplitAt(recs, size);
            Markers(recs) + 1 >= (|split.done| + 1) * size <==> Markers(split.open + [r]) >= size
  {
    SplitMeaning(recs, size);
    MarkersSnoc(SplitAt(recs, size).open, r);
    OneMore(|SplitAt(recs, size).done|, size);
  }

  /** One more record takes the synchronous writer from the state of some records to that of one more. */
  lemma RecordWritten(c: Codec, size: nat, recs: seq<Rec>, r: Rec)
    requires size >= 1 && WellFormed(r)
    ensures Sync(c, size, After(c, size, recs), RecOps(r)) == After(c, size, recs + [r])
  {
    hide Track, TrackAll, TaskStep, FieldOps, Sync, Bytes, RecBytes, JobAfter, SplitAt, Markers;
    var w, s := After(c, size, recs), SplitAt(recs, size);
    var body := [FWRITE(r.fields[0]), TRACK(r.kind)] + FieldOps(r.fields[1..]);
    RecordReachesBuffer(c, size, w, r);
    var w1 := Sync(c, size, w, body);
    BytesSnoc(s.open, r);
    OneMoreTracked(recs, r);
    SplitSnoc(recs, r, size);
    MarkersSnoc(recs, r);
    if !IsMarker(r) {
      assert RecOps(r) == body;
    } else {
      assert RecOps(r) == body + [MARKER];
      SyncConcat(c, size, w, body, [MARKER]);
      SyncOne(c, size, w1, MARKER);
      BoundaryMeaning(recs, r, size);
      assert w1 == BeforeMarker(c, size, recs, r);
      MarkerWritten(c, size, recs, r);
    }
  }

  // The writer when the bytes of a record are written and its marker is not yet counted.
  function BeforeMarker(c: Codec, size: nat, recs: seq<Rec>, r: Rec): (w: Writer)
    ensures Ready(w.job) && Resting(w.job)
  {
    var open := SplitAt(recs, size).open + [r];
    After(c, size, recs).(caller := CallerAfter(size, recs).(cur := Bytes(open), pending := true, incomplete := true,
                                                             tracker := TrackAll(START, recs + [r])))
  }

  lemma MarkerWritten(c: Codec, size: nat, recs: seq<Rec>, r: Rec)
    requires size >= 1 && IsMarker(r)
    ensures Settle(c, Do(c, size, BeforeMarker(c, size, recs, r), MARKER)) == After(c, size, recs + [r])
  {
    hide Track, TrackAll, TaskStep, Bytes, RecBytes, SplitAt, Markers, FileOf, Index, End, Complete;
    var s, w := SplitAt(recs, size), BeforeMarker(c, size, recs, r);
    var open := s.open + [r];
    BoundaryMeaning(recs, r, size);
    SplitSnoc(recs, r, size);
    MarkersSnoc(recs, r);
    assert EndsOnMarker(open);
    assert Complete(c, w.job) == w.job by { RestingIsComplete(c, w.job); }
    if Markers(open) >= size {
      TaskFinishesChunk(c, size, s.done, open);
      SplitMeaning(recs, size);
      FlattenSnoc(s.done, open);
      assert Flatten(s.done) + open == recs + [r];
      assert StartPc(s.done + [open]) == TrackAll(START, recs + [r]).nextPc;
      NoRecords();
      OneMore(|s.done| + 1, size);
      assert w.job.(phase := IDLE).(comp := Bytes(open), phase := COMPRESS(StartPc(s.done + [open])))
          == w.job.(comp := Bytes(open), phase := COMPRESS(StartPc(s.done + [open])));
    }
  }

  lemma RestingIsComplete(c: Codec, j: Job)
    requires Ready(j) && Resting(j)
    ensures Complete(c, j) == j
  {
  }

  lemma NoRecords()
    ensures Bytes([]) == []
  {
  }

  /** After any records, written synchronously: finished chunks in the file, the open one buffered. */
  lemma {:induction false} SynchronousRun(c: Codec, size: nat, recs: seq<Rec>)
    requires size >= 1 && AllWellFormed(recs)
    ensures Sync(c, size, Open(c, size), OpsOf(recs)) == After(c, size, recs)
  {
    hide After, RecOps, Open;
    OpenIsAfterNothing(c, size);
    if recs == [] {
    } else {
      hide Sync;
      var n := |recs| - 1;
      assert recs[n] in recs;
      SynchronousRun(c, size, recs[..n]);
      SyncConcat(c, size, Open(c, size), OpsOf(recs[..n]), RecOps(recs[n]));
      RecordWritten(c, size, recs[..n], recs[n]);
      assert recs == recs[..n] + [recs[n]];
    }
  }

  // ---------------------------------------------------------------- the closed file

  /** Between calls, once the task is at rest, the file is that of the finished chunks and of nothing else. */
  lemma EveryRun(c: Codec, size: nat, recs: seq<Rec>, script: seq<Step>)
    requires size >= 1 && AllWellFormed(recs) && Calls(script) == OpsOf(recs)
    ensures Settle(c, Exec(c, size, Open(c, size), script)) == After(c, size, recs)
  {
    EveryInterleavingIsSynchronous(c, size, Open(c, size), script);
    SynchronousRun(c, size, recs);
  }

  // What is known of the chunks of a closed file.
  ghost predicate MarkerTerminated(chunks: seq<seq<Rec>>, size: nat) {
    && (forall k :: 0 <= k < |chunks| - 1 ==> FullChunk(chunks[k], size))
    && (chunks != [] ==> EndsOnMarker(chunks[|chunks| - 1]) && 1 <= Markers(chunks[|chunks| - 1]) <= size)
  }

  /**
   * The kept chunks hold a marker-terminated prefix of the records, and all of them exactly when
   * the last is a marker.
   */
  lemma KeptMeaning(recs: seq<Rec>, size: nat)
    requires size >= 1
    ensures var kept := Kept(SplitAt(recs, size));
            && MarkerTerminated(kept, size)
            && Flatten(kept) <= recs
            && (Flatten(kept) == recs <==> recs == [] || EndsOnMarker(recs))
            && (kept == [] <==> Markers(recs) < size && !EndsOnMarker(recs))
  {
    hide SplitAt, Markers, Flatten, Divides, MarkerTerminated;
    var s := SplitAt(recs, size);
    SplitMeaning(recs, size);
    if EndsOnMarker(s.open) {
      KeptWithOpen(s, recs, size);
    } else {
      KeptWithoutOpen(s, recs, size);
    }
  }

  lemma KeptWithOpen(s: Split, recs: seq<Rec>, size: nat)
    requires size >= 1 && Divides(s, recs, size) && EndsOnMarker(s.open)
    ensures MarkerTerminated(s.done + [s.open], size) && Flatten(s.done + [s.open]) == recs && EndsOnMarker(recs)
  {
    hide Markers, Flatten;
    FlattenSnoc(s.done, s.open);
    OpenMarkers(s.open);
    assert s.open[|s.open| - 1] == recs[|recs| - 1];
    forall k | 0 <= k < |s.done|
      ensures FullChunk((s.done + [s.open])[k], size)
    {
      assert s.done[k] in s.done;
    }
  }

  lemma KeptWithoutOpen(s: Split, recs: seq<Rec>, size: nat)
    requires size >= 1 && Divides(s, recs, size) && !EndsOnMarker(s.open)
    ensures MarkerTerminated(s.done, size) && Flatten(s.done) <= recs
    ensures Flatten(s.done) == recs <==> recs == [] || EndsOnMarker(recs)
    ensures s.done == [] <==> Markers(recs) < size && !EndsOnMarker(recs)
  {
    hide Markers, Flatten;
    assert forall k :: 0 <= k < |s.done| ==> s.done[k] in s.done;
    Bounds(|s.done|, size);
    if s.open == [] {
      assert Flatten(s.done) + [] == Flatten(s.done);
      EndsWithLast(s.done);
      NothingDone(s.done);
    } else {
      assert s.open[|s.open| - 1] == recs[|recs| - 1];
    }
  }

  lemma NothingDone(done: seq<seq<Rec>>)
    ensures done == [] ==> Flatten(done) == [] && Markers([]) == 0
  {
  }

  lemma OpenMarkers(open: seq<Rec>)
    ensures EndsOnMarker(open) ==> Markers(open) >= 1
    ensures open == [] ==> Markers(open) == 0
  {
  }

  lemma Bounds(n: nat, size: nat)
    ensures n >= 1 ==> n * size >= size
    ensures n == 0 ==> n * size == 0
  {
  }

  lemma EndsWithLast(done: seq<seq<Rec>>)
    ensures done != [] && done[|done| - 1] != [] ==>
              Flatten(done) != [] && Flatten(done)[|Flatten(done)| - 1] == done[|done| - 1][|done[|done| - 1]| - 1]
  {
  }

  /** Closing after whole records: the file holds exactly the kept chunks. */
  lemma CloseAfter(c: Codec, size: nat, recs: seq<Rec>)
    requires size >= 1
    ensures Close(c, After(c, size, recs)).file == FileOf(c, size, ChunksOf(Kept(SplitAt(recs, size))))
  {
    hide TaskStep, SplitAt, TrackAll, FileOf, ChunksOf, Index, End, Markers, Bytes;
    var s, w := SplitAt(recs, size), After(c, size, recs);
    RestingIsComplete(c, w.job);
    if w.caller.pending && !w.caller.incomplete {
      TaskFinishesChunk(c, size, s.done, s.open);
      SplitMeaning(recs, size);
      FlattenSnoc(s.done, s.open);
      NoRecords();
    }
    hide Complete;
  }

  /** However the task's steps fall between the calls, close leaves the file of the kept chunks. */
  lemma ClosedFile(c: Codec, size: nat, recs: seq<Rec>, script: seq<Step>)
    requires size >= 1 && AllWellFormed(recs) && Calls(script) == OpsOf(recs)
    ensures Close(c, Exec(c, size, Open(c, size), script)).file == FileOf(c, size, ChunksOf(Kept(SplitAt(recs, size))))
  {
    hide Open, Exec, Sync, Close, After;
    CloseIsSynchronous(c, size, Open(c, size), script);
    SynchronousRun(c, size, recs);
    CloseAfter(c, size, recs);
  }

  /** Closing in the middle of a record: the open chunk is dropped, the finished ones are kept. */
  lemma ClosedInsideRecord(c: Codec, size: nat, recs: seq<Rec>, r: Rec, n: nat, script: seq<Step>)
    requires size >= 1 && AllWellFormed(recs) && WellFormed(r) && n < |r.fields|
    requires Calls(script) == OpsOf(recs) + ([FWRITE(r.fields[0]), TRACK(r.kind)] + FieldOps(r.fields[1..1 + n]))
    ensures Close(c, Exec(c, size, Open(c, size), script)).file == FileOf(c, size, ChunksOf(SplitAt(recs, size).done))
  {
    hide Open, Exec, Sync, After, FieldOps, TaskStep, Track, FileOf;
    var w := After(c, size, recs);
    CloseIsSynchronous(c, size, Open(c, size), script);
    SynchronousRun(c, size, recs);
    SyncConcat(c, size, Open(c, size), OpsOf(recs),
               [FWRITE(r.fields[0]), TRACK(r.kind)] + FieldOps(r.fields[1..1 + n]));
    PartReachesBuffer(c, size, w, r, n);
    assert w.job == JobAfter(c, size, SplitAt(recs, size).done) by { AfterJob(c, size, recs); }
    RestingIsComplete(c, w.job);
  }

  lemma AfterJob(c: Codec, size: nat, recs: seq<Rec>)
    ensures After(c, size, recs).job == JobAfter(c, size, SplitAt(recs, size).done)
  {
  }

  lemma PartReachesBuffer(c: Codec, size: nat, w: Writer, r: Rec, n: nat)
    requires Ready(w.job) && Resting(w.job) && r.fields != [] && n < |r.fields|
    ensures var w1 := Sync(c, size, w, [FWRITE(r.fields[0]), TRACK(r.kind)] + FieldOps(r.fields[1..1 + n]));
            w1.job == w.job && w1.caller.pending && w1.caller.incomplete
  {
    hide Track, TaskStep, FieldOps, Sync;
    var a, b := FWRITE(r.fields[0]), TRACK(r.kind);
    var w1 := Do(c, size, w, a);
    SyncOne(c, size, w, a);
    SyncOne(c, size, w1, b);
    SyncConcat(c, size, w, [a], [b]);
    assert [a] + [b] == [a, b];
    SyncConcat(c, size, w, [a, b], FieldOps(r.fields[1..1 + n]));
    SyncFields(c, size, Do(c, size, w1, b), r.fields[1..1 + n]);
  }

  // The uncompressed bytes of the first n chunks of an open file.
  function Decoded(c: Codec, file: seq<Byte>, o: Opened, n: nat): seq<Byte>
    requires n <= |o.index|
  {
    if n == 0 then []
    else
      var from, to := o.index[n - 1].offset, Limit(o, n - 1);
      Decoded(c, file, o, n - 1) + if from <= to <= |file| then c.decompress(file[from..to]) else []
  }

  lemma ChunkOf(done: seq<seq<Rec>>, k: nat)
    requires k < |done|
    ensures ChunksOf(done)[k] == Chunk(Bytes(done[k]), StartPc(done[..k]))
  {
    if k < |done| - 1 {
      ChunkOf(done[..|done| - 1], k);
      assert done[..|done| - 1][..k] == done[..k];
    }
  }

  lemma {:induction false} DecodedChunks(c: Codec, size: nat, done: seq<seq<Rec>>, n: nat)
    requires Lossless(c) && n <= |done|
    ensures var chunks := ChunksOf(done);
            Decoded(c, FileOf(c, size, chunks), Opened(size, End(c, chunks), Index(c, chunks)), n)
              == Bytes(Flatten(done[..n]))
  {
    hide FileOf, End, Index, Limit;
    if n > 0 {
      DecodedChunks(c, size, done, n - 1);
      ChunkOf(done, n - 1);
      ChunkSlice(c, size, ChunksOf(done), n - 1);
      assert done[..n] == done[..n - 1] + [done[n - 1]];
      FlattenSnoc(done[..n - 1], done[n - 1]);
      BytesConcat(Flatten(done[..n - 1]), done[n - 1]);
    }
  }

  lemma NothingFlattened<T>()
    ensures Flatten<T>([]) == []
  {
  }

  /** A chunk's start PC is where the records before the chunk say that its first opcode stands. */
  lemma StartPcMeaning(recs: seq<Rec>, chunks: seq<seq<Rec>>, k: nat)
    requires AllWellFormed(recs) && Flatten(chunks) <= recs && k <= |chunks|
    ensures IsNextPC(Flatten(chunks[..k]), StartPc(chunks[..k]))
  {
    hide IsNextPC, Flatten, TrackAll;
    FlattenConcat(chunks[..k], chunks[k..]);
    assert chunks == chunks[..k] + chunks[k..];
    var before := Flatten(chunks[..k]);
    assert before <= recs;
    assert forall r :: r in before ==> r in recs;
    NextPCMeaning(before, TrackAll(START, before).nextPc);
    NothingFlattened<Rec>();
    NothingTracked();
  }

  lemma NothingTracked()
    ensures TrackAll(START, []).nextPc == 0
  {
  }

  /**
   * Writing, in any interleaving, then closing, then opening: a file with no finished chunk does not
   * open; any other decodes to the bytes of the kept records, each chunk of the size its index says.
   */
  lemma WriteCloseOpenDecode(c: Codec, size: nat, recs: seq<Rec>, script: seq<Step>)
    requires Lossless(c) && size >= 1 && AllWellFormed(recs) && Calls(script) == OpsOf(recs)
    requires Fits(c, size, ChunksOf(Kept(SplitAt(recs, size))))
    ensures var file, kept := Close(c, Exec(c, size, Open(c, size), script)).file, Kept(SplitAt(recs, size));
            var o := Opened(size, End(c, ChunksOf(kept)), Index(c, ChunksOf(kept)));
            && OpenFile(file) == (if kept == [] then None else Some(o))
            && Decoded(c, file, o, |o.index|) == Bytes(Flatten(kept))
            && (forall k :: 0 <= k < |kept| ==>
                  o.index[k].size == |Bytes(kept[k])| && IsNextPC(Flatten(kept[..k]), o.index[k].startPc))
            && (recs == [] || EndsOnMarker(recs) ==> Decoded(c, file, o, |o.index|) == Bytes(recs))
  {
    hide Open, Exec, Close, SplitAt, FileOf, Index, End, Bytes, StartPc, Fits, IsNextPC, Flatten;
    var kept := Kept(SplitAt(recs, size));
    var chunks := ChunksOf(kept);
    NothingFlattened<Rec>();
    ClosedFile(c, size, recs, script);
    DecodedChunks(c, size, kept, |kept|);
    assert kept[..|kept|] == kept;
    KeptMeaning(recs, size);
    if kept == [] {
      NoChunkDoesNotOpen(c, size);
    } else {
      OpenRoundTrip(c, size, chunks);
    }
    forall k | 0 <= k < |kept|
      ensures Index(c, chunks)[k].size == |Bytes(kept[k])|
      ensures IsNextPC(Flatten(kept[..k]), Index(c, chunks)[k].startPc)
    {
      StartPcMeaning(recs, kept, k);
      ChunkOf(kept, k);
      IndexAt(c, chunks, k);
    }
  }
}
