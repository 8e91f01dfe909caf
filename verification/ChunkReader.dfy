/**
 * The two decompressing readers.  Both return records out of the chunk in their output buffer and
 * switch buffers by counting markers; the prefetching one has a task decompress the next chunk
 * meanwhile, the single-threaded one decompresses it when the boundary is crossed.
 */
module ChunkReader {
  import opened Trace
  import opened ChunkFile

  // What does not change while a trace is read; prefetch tells which of the two readers it is.
  datatype Source = Source(file: seq<Byte>, codec: Codec, layout: Opened, traceStart: nat, prefetch: bool)

  // A buffer of the given size, of which some bytes have been read.
  datatype Buf = Buf(data: seq<Byte>, size: nat, read: nat)

  predicate Consumed(b: Buf) { b.read == b.size }

  function Consume(b: Buf): Buf { b.(read := b.size) }

  // Where the prefetch task is; NONE when there is none, DONE until the caller joins it.
  datatype Phase = NONE | READ(chunk: nat) | DECOMPRESS | DONE

  // What the task owns from launch to join: the file position, the input buffer and the second output buffer.
  datatype Io = Io(pos: nat, lastRead: nat, input: seq<Byte>, inRead: nat, decompressed: Buf, phase: Phase)

  datatype Reader = Reader(out: Buf, markers: nat, nextEnd: nat, tracker: Tracker, successful: bool, next: nat, io: Io)

  function Sub(s: seq<Byte>, from: nat, to: nat): seq<Byte> {
    if from <= to <= |s| then s[from..to] else []
  }

  // A direct read stops at the end of the last chunk and at the start of the chunk after the one being read.
  function DirectReadEnd(src: Source, to: nat, following: nat): nat {
    var boundary := if following < |src.layout.index| then src.layout.index[following].offset else 0;
    if to > src.layout.end then src.layout.end
    else if boundary > 0 && to > boundary then boundary
    else to
  }

  /** One step of reading a chunk: its compressed bytes enter the input buffer; then they are decompressed. */
  function TaskStep(src: Source, io: Io): Io {
    match io.phase
    case NONE => io
    case READ(chunk) =>
      if chunk >= |src.layout.index| then io.(phase := DONE)
      else
        // the bytes from the position to the next chunk, or to the end of the last one
        var to := DirectReadEnd(src, Limit(src.layout, chunk), chunk + 1);
        io.(lastRead := io.pos, input := Sub(src.file, io.pos, to), inRead := 0,
            pos := if io.pos <= to then to else io.pos, decompressed := Buf([], src.layout.index[chunk].size, 0),
            phase := DECOMPRESS)
    case DECOMPRESS =>
      io.(inRead := |io.input|, decompressed := io.decompressed.(data := src.codec.decompress(io.input)), phase := DONE)
    case DONE => io
  }

  predicate Resting(io: Io) { io.phase.NONE? || io.phase.DONE? }

  function StepsLeft(io: Io): nat {
    match io.phase
    case READ(_) => 2
    case DECOMPRESS => 1
    case _ => 0
  }

  function Complete(src: Source, io: Io): (r: Io)
    ensures Resting(r) && (r.phase.NONE? <==> io.phase.NONE?)
    decreases StepsLeft(io)
  {
    if Resting(io) then io else Complete(src, TaskStep(src, io))
  }

  // Reads a whole chunk on the spot.
  function ReadChunk(src: Source, io: Io, chunk: nat): (r: (Io, Buf)) {
    var filled := Complete(src, io.(phase := READ(chunk)));
    (filled.(decompressed := io.decompressed, phase := NONE), filled.decompressed)
  }

  // ---------------------------------------------------------------- the caller

  predicate ReachedEndOfChunks(src: Source, io: Io) { io.lastRead + io.inRead >= src.layout.end }

  predicate AllInputConsumed(src: Source, s: Reader) {
    ReachedEndOfChunks(src, s.io) && Consumed(s.out) && (src.prefetch ==> Consumed(s.io.decompressed))
  }

  predicate Eof(src: Source, s: Reader) { AllInputConsumed(src, s) && !s.successful }

  /** Joins the task and takes over the chunk it decompressed. */
  function FinishDecompression(src: Source, s: Reader): Reader {
    if s.io.phase.NONE? then s
    else
      var io := Complete(src, s.io);
      s.(out := io.decompressed, io := io.(decompressed := s.out, phase := NONE))
  }

  function ReadNextChunk(src: Source, s: Reader): Reader {
    if s.next >= |src.layout.index| then
      if src.prefetch then s.(io := s.io.(decompressed := Consume(s.io.decompressed))) else s
    else if src.prefetch then
      s.(next := s.next + 1, io := s.io.(phase := READ(s.next)))
    else
      var (io, out) := ReadChunk(src, s.io, s.next);
      s.(next := s.next + 1, io := io, out := out)
  }

  /** Throws away what is buffered and waits for the task. */
  function CancelCurrentChunks(src: Source, s: Reader): Reader {
    var consumed := s.(out := Consume(s.out));
    var joined := if src.prefetch then FinishDecompression(src, consumed) else consumed;
    joined.(io := joined.io.(input := [], inRead := 0))
  }

  // The counters, the PC and the output buffer at the start of a chunk, behind the header in the first.
  function AtChunk(src: Source, s: Reader, k: nat): Reader
    requires k < |src.layout.index|
  {
    var e, markers := src.layout.index[k], k * src.layout.chunkSize;
    var (io, out) := ReadChunk(src, s.io.(pos := e.offset, lastRead := e.offset), k);
    s.(markers := markers, nextEnd := markers + src.layout.chunkSize, tracker := ForcePC(s.tracker, e.startPc),
       next := k + 1, io := io, out := if k == 0 then out.(read := src.traceStart) else out)
  }

  /** Moves to the start of a chunk, whose successor is prefetched. */
  function SeekToChunk(src: Source, s: Reader, k: nat): Reader
    requires k < |src.layout.index|
  {
    if src.prefetch then ReadNextChunk(src, AtChunk(src, s, k)) else AtChunk(src, s, k)
  }

  // The calls on the stream: reading a record is made of the first three, moving by chunk of the last two.
  datatype Op = FREAD(n: nat) | TRACK(kind: Kind) | MARKER | CANCEL | JUMP(chunk: nat)

  // A read hands out the next bytes of the output buffer, unless all input is consumed.
  function Do(src: Source, s: Reader, op: Op): Reader {
    match op
    case FREAD(n) =>
      if AllInputConsumed(src, s) then s.(successful := false)
      else s.(out := s.out.(read := s.out.read + n), successful := true)
    case TRACK(kind) => s.(tracker := Track(s.tracker, kind))
    case MARKER =>
      var counted := s.(markers := s.markers + 1);
      if counted.markers < s.nextEnd then counted
      else
        var moved := counted.(nextEnd := s.nextEnd + src.layout.chunkSize);
        ReadNextChunk(src, if src.prefetch then FinishDecompression(src, moved) else moved)
    case CANCEL => CancelCurrentChunks(src, s)
    case JUMP(k) => if k < |src.layout.index| then SeekToChunk(src, s, k) else s
  }

  function Returned(src: Source, s: Reader, op: Op): seq<seq<Byte>> {
    match op
    case FREAD(n) => if AllInputConsumed(src, s) then [] else [Sub(s.out.data, s.out.read, s.out.read + n)]
    case _ => []
  }

  // ---------------------------------------------------------------- every interleaving

  datatype Step = CALL(op: Op) | TASK

  // The state after a run, and the results of its reads.
  datatype Outcome = Outcome(reader: Reader, results: seq<seq<Byte>>)

  function Exec(src: Source, s: Reader, script: seq<Step>): Outcome {
    if script == [] then Outcome(s, [])
    else
      var before := Exec(src, s, script[..|script| - 1]);
      match script[|script| - 1]
      case CALL(op) => Outcome(Do(src, before.reader, op), before.results + Returned(src, before.reader, op))
      case TASK => Outcome(before.reader.(io := TaskStep(src, before.reader.io)), before.results)
  }

  function Calls(script: seq<Step>): seq<Op> {
    if script == [] then []
    else
      var before := Calls(script[..|script| - 1]);
      match script[|script| - 1]
      case CALL(op) => before + [op]
      case TASK => before
  }

  function Settle(src: Source, s: Reader): (r: Reader)
    ensures Resting(r.io)
  {
    s.(io := Complete(src, s.io))
  }

  // The same calls when every task ends before the call that launched it returns.
  function Sync(src: Source, s: Reader, ops: seq<Op>): (r: Outcome)
    requires Resting(s.io)
    ensures Resting(r.reader.io)
  {
    if ops == [] then Outcome(s, [])
    else
      var before, op := Sync(src, s, ops[..|ops| - 1]), ops[|ops| - 1];
      Outcome(Settle(src, Do(src, before.reader, op)), before.results + Returned(src, before.reader, op))
  }

  // A read that finds the buffer consumed while a task is running would depend on how far the task
  // is, and so would a jump, which moves the file position.
  predicate Undisturbed(s: Reader, op: Op) {
    && (op.FREAD? ==> !Consumed(s.out) || s.io.phase.NONE?)
    && (op.JUMP? ==> s.io.phase.NONE?)
  }

  ghost predicate UndisturbedRun(src: Source, s: Reader, ops: seq<Op>)
    requires Resting(s.io)
  {
    ops != [] ==>
      && UndisturbedRun(src, s, ops[..|ops| - 1])
      && Undisturbed(Sync(src, s, ops[..|ops| - 1]).reader, ops[|ops| - 1])
  }

  lemma CompleteTwice(src: Source, io: Io)
    ensures Complete(src, Complete(src, io)) == Complete(src, io)
    ensures Complete(src, TaskStep(src, io)) == Complete(src, io)
    ensures Resting(io) ==> Complete(src, io) == io
  {
  }

  lemma DoSettled(src: Source, s: Reader, op: Op)
    requires (src.prefetch || s.io.phase.NONE?) && Undisturbed(s, op)
    ensures Settle(src, Do(src, s, op)) == Settle(src, Do(src, Settle(src, s), op))
    ensures Returned(src, s, op) == Returned(src, Settle(src, s), op)
  {
    hide Track, Sub, SeekToChunk;
    CompleteTwice(src, s.io);
    hide TaskStep, Complete;
  }

  /** However the task's steps fall between the calls, every read returns what it returns synchronously. */
  lemma {:induction false} EveryInterleavingIsSynchronous(src: Source, s: Reader, script: seq<Step>)
    requires src.prefetch && UndisturbedRun(src, Settle(src, s), Calls(script))
    ensures Settle(src, Exec(src, s, script).reader) == Sync(src, Settle(src, s), Calls(script)).reader
    ensures Exec(src, s, script).results == Sync(src, Settle(src, s), Calls(script)).results
  {
    hide TaskStep, Complete, Do, Returned;
    if script != [] {
      var n := |script| - 1;
      var before := Exec(src, s, script[..n]).reader;
      match script[n]
      case CALL(op) =>
        assert (Calls(script[..n]) + [op])[..|Calls(script[..n]) + [op]| - 1] == Calls(script[..n]);
        EveryInterleavingIsSynchronous(src, s, script[..n]);
        assert before.out == Settle(src, before).out;
        assert before.io.phase.NONE? <==> Settle(src, before).io.phase.NONE?;
        DoSettled(src, before, op);
      case TASK =>
        EveryInterleavingIsSynchronous(src, s, script[..n]);
        CompleteTwice(src, before.io);
    }
  }

  lemma {:induction false} SyncConcat(src: Source, s: Reader, a: seq<Op>, b: seq<Op>)
    requires Resting(s.io)
    ensures var first := Sync(src, s, a); var second := Sync(src, first.reader, b);
            && Sync(src, s, a + b) == Outcome(second.reader, first.results + second.results)
            && (UndisturbedRun(src, s, a) && UndisturbedRun(src, first.reader, b) ==> UndisturbedRun(src, s, a + b))
  {
    hide Do, Settle, Returned, Undisturbed;
    if b == [] {
      assert a + b == a;
      assert Sync(src, s, a).results + [] == Sync(src, s, a).results;
    } else {
      var n := |b| - 1;
      assert (a + b)[..|a + b| - 1] == a + b[..n];
      SyncConcat(src, s, a, b[..n]);
    }
  }

  lemma SyncOne(src: Source, s: Reader, op: Op)
    requires Resting(s.io)
    ensures Sync(src, s, [op]) == Outcome(Settle(src, Do(src, s, op)), Returned(src, s, op))
    ensures Undisturbed(s, op) ==> UndisturbedRun(src, s, [op])
  {
    hide Do, Settle, Returned, Undisturbed;
    assert [op][..0] == [];
    assert Sync(src, s, []) == Outcome(s, []) && UndisturbedRun(src, s, []);
    assert [] + Returned(src, s, op) == Returned(src, s, op);
  }
}
