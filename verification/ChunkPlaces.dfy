/**
 * Where a reader stands between two records of a file's chunks, and what reading from there returns,
 * for the prefetching and the single-threaded reader alike.
 */
module ChunkPlaces {
  import opened Trace
  import opened OpcodePCs
  import opened ChunkFile
  import ChunkWriter
  import opened ChunkReader

  // ---------------------------------------------------------------- where a reader stands

  // A place between two records: in a chunk, some records of it behind.
  datatype Pos = Pos(chunk: nat, rec: nat)

  // Only the last chunk is ever left fully read; at any other boundary the next chunk is entered.
  predicate InBounds(groups: seq<seq<Rec>>, p: Pos) {
    && p.chunk < |groups| && p.rec <= |groups[p.chunk]|
    && (p.rec == |groups[p.chunk]| ==> p.chunk == |groups| - 1)
  }

  function NextPos(groups: seq<seq<Rec>>, p: Pos): (q: Pos)
    requires InBounds(groups, p) && p.rec < |groups[p.chunk]|
  {
    if p.rec + 1 == |groups[p.chunk]| && p.chunk + 1 < |groups| then Pos(p.chunk + 1, 0) else Pos(p.chunk, p.rec + 1)
  }

  function Before(groups: seq<seq<Rec>>, p: Pos): seq<Rec>
    requires InBounds(groups, p)
  {
    Flatten(groups[..p.chunk]) + groups[p.chunk][..p.rec]
  }

  ghost predicate ChunkHolds(src: Source, groups: seq<seq<Rec>>, k: nat)
    requires k < |groups| == |src.layout.index|
  {
    var e, to := src.layout.index[k], Limit(src.layout, k);
    && 0 < e.offset <= to <= |src.file| && to <= src.layout.end
    && src.codec.decompress(src.file[e.offset..to]) == Bytes(groups[k])
    && e.size == |Bytes(groups[k])|
    && (k > 0 ==> e.startPc == ChunkWriter.StartPc(groups[..k]))
  }

  // The file holds the given chunks of records.
  ghost predicate Holds(src: Source, groups: seq<seq<Rec>>) {
    && groups != [] && |groups| == |src.layout.index| && src.layout.chunkSize >= 1
    && ChunkWriter.MarkerTerminated(groups, src.layout.chunkSize)
    && (forall k :: 0 <= k < |groups| ==> AllWellFormed(groups[k]))
    && (forall k :: 0 <= k < |groups| ==> ChunkHolds(src, groups, k))
    && src.layout.index[0].offset == PROLOGUE_SIZE
  }

  function Full(bytes: seq<Byte>, read: nat): Buf { Buf(bytes, |bytes|, read) }

  // The last chunk taken from the file by a reader that stands in the given one.
  function Fetched(src: Source, chunk: nat): nat {
    if src.prefetch && chunk + 1 < |src.layout.index| then chunk + 1 else chunk
  }

  ghost predicate IoAt(src: Source, groups: seq<seq<Rec>>, chunk: nat, io: Io)
    requires chunk < |groups| == |src.layout.index|
  {
    var q := Fetched(src, chunk);
    && io.pos == io.lastRead + io.inRead == Limit(src.layout, q)
    && (if q > chunk then io.phase.DONE? && io.decompressed == Full(Bytes(groups[q]), 0)
        else io.phase.NONE? && (src.prefetch ==> Consumed(io.decompressed)))
  }

  ghost predicate CallerAt(src: Source, groups: seq<seq<Rec>>, p: Pos, s: Reader)
    requires InBounds(groups, p)
  {
    var chunk, size := groups[p.chunk], src.layout.chunkSize;
    && s.out == Full(Bytes(chunk), |Bytes(chunk[..p.rec])|)
    && s.markers == p.chunk * size + Markers(chunk[..p.rec])
    && s.nextEnd == (p.chunk + (if Markers(chunk[..p.rec]) < size then 1 else 2)) * size
    && SamePCs(s.tracker, TrackAll(START, Before(groups, p)))
  }

  /** A reader at rest that stands at the given place. */
  ghost predicate At(src: Source, groups: seq<seq<Rec>>, p: Pos, s: Reader)
    requires InBounds(groups, p) && |groups| == |src.layout.index|
  {
    && CallerAt(src, groups, p, s)
    && s.next == Fetched(src, p.chunk) + 1
    && IoAt(src, groups, p.chunk, s.io)
  }

  // ---------------------------------------------------------------- one record

  function Freads(fields: seq<seq<Byte>>): seq<Op> {
    if fields == [] then [] else Freads(fields[..|fields| - 1]) + [FREAD(|fields[|fields| - 1]|)]
  }

  /** A record is read field by field, then tracked, then counted if it is a marker. */
  function ReadOps(r: Rec): seq<Op> {
    Freads(r.fields) + [TRACK(r.kind)] + (if IsMarker(r) then [MARKER] else [])
  }

  // The next bytes of a buffer.
  ghost predicate Ahead(b: Buf, bytes: seq<Byte>) {
    b.size == |b.data| && b.read + |bytes| <= b.size && b.data[b.read..b.read + |bytes|] == bytes
  }

  lemma AheadSplit(b: Buf, x: seq<Byte>, y: seq<Byte>)
    requires Ahead(b, x + y)
    ensures Ahead(b, x) && Ahead(b.(read := b.read + |x|), y)
  {
    var both := b.data[b.read..b.read + |x + y|];
    assert b.data[b.read..b.read + |x|] == both[..|x|];
    assert b.data[b.read + |x|..b.read + |x + y|] == both[|x|..];
  }

  lemma FieldRead(src: Source, s: Reader, f: seq<Byte>)
    requires Resting(s.io) && !Consumed(s.out) && Ahead(s.out, f)
    ensures Settle(src, Do(src, s, FREAD(|f|))) == s.(out := s.out.(read := s.out.read + |f|), successful := true)
    ensures Returned(src, s, FREAD(|f|)) == [f] && Undisturbed(s, FREAD(|f|))
  {
  }

  // The outcome of reading some fields out of the buffer.
  function FieldsTaken(s: Reader, fields: seq<seq<Byte>>): Outcome {
    Outcome(s.(out := s.out.(read := s.out.read + |Flatten(fields)|), successful := true), fields)
  }

  lemma OneMoreField(src: Source, s: Reader, before: seq<seq<Byte>>, last: seq<Byte>)
    requires Resting(s.io) && before != []
    requires Sync(src, s, Freads(before)) == FieldsTaken(s, before) && UndisturbedRun(src, s, Freads(before))
    requires var t := FieldsTaken(s, before).reader; !Consumed(t.out) && Ahead(t.out, last)
    ensures Sync(src, s, Freads(before + [last])) == FieldsTaken(s, before + [last])
    ensures UndisturbedRun(src, s, Freads(before + [last]))
  {
    var t := FieldsTaken(s, before).reader;
    FieldRead(src, t, last);
    FlattenSnoc(before, last);
    FreadsSnoc(before, last);
    hide TaskStep, Ahead, Do, Settle, Returned, Undisturbed, Sync, UndisturbedRun, Flatten, Freads;
    SyncConcat(src, s, Freads(before), [FREAD(|last|)]);
    SyncOne(src, t, FREAD(|last|));
  }

  lemma FreadsSnoc(before: seq<seq<Byte>>, last: seq<Byte>)
    ensures Freads(before + [last]) == Freads(before) + [FREAD(|last|)]
  {
    assert (before + [last])[..|before + [last]| - 1] == before;
  }

  lemma OneField(src: Source, s: Reader, last: seq<Byte>)
    requires Resting(s.io) && !Consumed(s.out) && Ahead(s.out, last)
    ensures Sync(src, s, Freads([last])) == FieldsTaken(s, [last]) && UndisturbedRun(src, s, Freads([last]))
  {
    FieldRead(src, s, last);
    FlattenOne(last);
    FreadsSnoc([], last);
    assert [] + [last] == [last] && Freads([]) + [FREAD(|last|)] == [FREAD(|last|)];
    hide TaskStep, Ahead, Do, Settle, Returned, Undisturbed, Sync, UndisturbedRun, Flatten;
    SyncOne(src, s, FREAD(|last|));
  }

  lemma {:induction false} FieldsRead(src: Source, s: Reader, fields: seq<seq<Byte>>)
    requires Resting(s.io) && fields != [] && Ahead(s.out, Flatten(fields))
    requires s.out.read + |Flatten(fields[..|fields| - 1])| < s.out.size
    ensures Sync(src, s, Freads(fields)) == FieldsTaken(s, fields) && UndisturbedRun(src, s, Freads(fields))
  {
    hide TaskStep, Do, Settle, Sync, UndisturbedRun, Freads;
    var n := |fields| - 1;
    var before, last := fields[..n], fields[n];
    assert fields == before + [last];
    AheadSplit(s.out, Flatten(before), last);
    if n == 0 {
      assert before == [] && Flatten(before) == [];
      OneField(src, s, last);
    } else {
      assert |Flatten(before)| >= |Flatten(before[..n - 1])|;
      hide Flatten, Ahead;
      FieldsRead(src, s, before);
      OneMoreField(src, s, before, last);
    }
  }

  lemma SeqAround<T>(s: seq<T>, i: nat)
    requires i < |s|
    ensures s[..i] + [s[i]] == s[..i + 1] && s[..i + 1] + s[i + 1..] == s
  {
  }

  lemma BytesAround(chunk: seq<Rec>, i: nat)
    requires i < |chunk|
    ensures Bytes(chunk) == Bytes(chunk[..i]) + RecBytes(chunk[i]) + Bytes(chunk[i + 1..])
    ensures Bytes(chunk[..i + 1]) == Bytes(chunk[..i]) + RecBytes(chunk[i])
  {
    hide Bytes, RecBytes;
    SeqAround(chunk, i);
    BytesConcat(chunk[..i + 1], chunk[i + 1..]);
    ChunkWriter.BytesSnoc(chunk[..i], chunk[i]);
  }

  lemma SomeBytes(r: Rec)
    requires WellFormed(r)
    ensures RecBytes(r) != []
  {
    FlattenOne(r.fields[0]);
    FlattenConcat([r.fields[0]], r.fields[1..]);
    assert [r.fields[0]] + r.fields[1..] == r.fields;
  }

  // When a record is read, its bytes are ahead and the buffer is not consumed before its last field.
  lemma RecordAhead(chunk: seq<Rec>, i: nat)
    requires i < |chunk| && AllWellFormed(chunk) && IsMarker(chunk[|chunk| - 1])
    ensures var b, r := Full(Bytes(chunk), |Bytes(chunk[..i])|), chunk[i];
            && r.fields != [] && Ahead(b, RecBytes(r))
            && b.read + |Flatten(r.fields[..|r.fields| - 1])| < b.size
  {
    hide Bytes, Flatten;
    var r, n := chunk[i], |chunk[i].fields| - 1;
    assert r in chunk;
    BytesAround(chunk, i);
    assert RecBytes(r) == Flatten(r.fields[..n]) + r.fields[n] by {
      assert r.fields == r.fields[..n] + [r.fields[n]];
      FlattenSnoc(r.fields[..n], r.fields[n]);
    }
    if i + 1 < |chunk| {
      BytesAround(chunk[i + 1..], 0);
      assert chunk[i + 1] in chunk;
      SomeBytes(chunk[i + 1]);
    }
  }

  lemma MarkersPrefix(chunk: seq<Rec>, i: nat)
    requires i < |chunk| && IsMarker(chunk[|chunk| - 1])
    ensures Markers(chunk[..i]) < Markers(chunk)
    ensures Markers(chunk[..i + 1]) == Markers(chunk[..i]) + (if IsMarker(chunk[i]) then 1 else 0)
    ensures Markers(chunk[..i + 1]) == Markers(chunk) ==> i + 1 == |chunk|
  {
    hide Markers;
    assert chunk[..i] + [chunk[i]] == chunk[..i + 1];
    MarkersSnoc(chunk[..i], chunk[i]);
    MarkersSplit(chunk, i);
    if i + 1 < |chunk| {
      MarkersSplit(chunk, i + 1);
    }
  }

  lemma MarkersSplit(chunk: seq<Rec>, i: nat)
    requires i < |chunk| && IsMarker(chunk[|chunk| - 1])
    ensures Markers(chunk[..i]) < Markers(chunk)
  {
    hide Markers;
    MarkersConcat(chunk[..i], chunk[i..]);
    assert chunk[..i] + chunk[i..] == chunk;
    ChunkWriter.OpenMarkers(chunk[i..]);
  }

  /** Fetching a chunk from its offset: the whole compressed chunk is read, and its own bytes come out. */
  lemma ChunkFetched(src: Source, groups: seq<seq<Rec>>, k: nat, io: Io)
    requires k < |groups| == |src.layout.index| && ChunkHolds(src, groups, k) && io.pos == src.layout.index[k].offset
    ensures var r, to := Complete(src, io.(phase := READ(k))), Limit(src.layout, k);
            && r.phase.DONE? && r.pos == r.lastRead + r.inRead == to && r.decompressed == Full(Bytes(groups[k]), 0)
  {
    hide Bytes;
    var to := Limit(src.layout, k);
    assert DirectReadEnd(src, to, k + 1) == to;
    var io1 := io.(phase := READ(k));
    var io2 := TaskStep(src, io1);
    assert io2.input == src.file[io.pos..to];
    var io3 := TaskStep(src, io2);
    hide TaskStep;
    assert Complete(src, io1) == Complete(src, io2) == Complete(src, io3) == io3;
  }

  // The caller's state when a record is read and tracked, and not yet counted.
  function AfterFields(groups: seq<seq<Rec>>, p: Pos, s: Reader): Reader
    requires InBounds(groups, p) && p.rec < |groups[p.chunk]|
  {
    s.(out := s.out.(read := |Bytes(groups[p.chunk][..p.rec + 1])|), successful := true,
       tracker := Track(s.tracker, groups[p.chunk][p.rec].kind))
  }

  lemma RecordBody(src: Source, groups: seq<seq<Rec>>, p: Pos, s: Reader)
    requires Holds(src, groups) && InBounds(groups, p) && p.rec < |groups[p.chunk]| && At(src, groups, p, s)
    ensures var r := groups[p.chunk][p.rec];
            && Resting(s.io)
            && Sync(src, s, Freads(r.fields) + [TRACK(r.kind)]) == Outcome(AfterFields(groups, p, s), r.fields)
            && UndisturbedRun(src, s, Freads(r.fields) + [TRACK(r.kind)])
  {
    hide Bytes, Ahead, Flatten, TaskStep, Track, ChunkHolds, Sync, UndisturbedRun, Markers, AllInputConsumed, SamePCs;
    var chunk, r := groups[p.chunk], groups[p.chunk][p.rec];
    assert ChunkWriter.EndsOnMarker(chunk) by { EveryChunkEndsOnMarker(src, groups, p.chunk); }
    RecordAhead(chunk, p.rec);
    BytesAround(chunk, p.rec);
    FieldsRead(src, s, r.fields);
    var t := s.(out := s.out.(read := s.out.read + |RecBytes(r)|), successful := true);
    SyncConcat(src, s, Freads(r.fields), [TRACK(r.kind)]);
    SyncOne(src, t, TRACK(r.kind));
    assert r.fields + [] == r.fields;
  }

  lemma EveryChunkEndsOnMarker(src: Source, groups: seq<seq<Rec>>, k: nat)
    requires Holds(src, groups) && k < |groups|
    ensures ChunkWriter.EndsOnMarker(groups[k]) && Markers(groups[k]) <= src.layout.chunkSize
    ensures k < |groups| - 1 ==> Markers(groups[k]) == src.layout.chunkSize
  {
  }

  // ---------------------------------------------------------------- crossing a boundary

  /** The reader that enters a chunk whose predecessor it has consumed; a task, if any, is run to its end. */
  lemma ChunkEntered(src: Source, groups: seq<seq<Rec>>, k: nat, s: Reader)
    requires Holds(src, groups) && 0 < k < |groups|
    requires s.next == Fetched(src, k - 1) + 1 && IoAt(src, groups, k - 1, s.io) && Consumed(s.out)
    ensures var r := Settle(src, ReadNextChunk(src, if src.prefetch then FinishDecompression(src, s) else s));
            && r == s.(out := Full(Bytes(groups[k]), 0), next := Fetched(src, k) + 1, io := r.io)
            && IoAt(src, groups, k, r.io)
  {
    hide Bytes, TaskStep;
    if src.prefetch {
      var t := FinishDecompression(src, s);
      assert t.out == Full(Bytes(groups[k]), 0) && t.io.phase.NONE? && Consumed(t.io.decompressed);
      if k + 1 < |groups| {
        assert Limit(src.layout, k) == src.layout.index[k + 1].offset;
        ChunkFetched(src, groups, k + 1, t.io);
      }
    } else {
      assert Limit(src.layout, k - 1) == src.layout.index[k].offset;
      ChunkFetched(src, groups, k, s.io);
    }
  }

  lemma BeforeNext(groups: seq<seq<Rec>>, p: Pos)
    requires InBounds(groups, p) && p.rec < |groups[p.chunk]| && (p.chunk + 1 < |groups| ==> groups[p.chunk + 1] != [])
    ensures InBounds(groups, NextPos(groups, p))
    ensures Before(groups, NextPos(groups, p)) == Before(groups, p) + [groups[p.chunk][p.rec]]
  {
    hide Flatten;
    var chunk := groups[p.chunk];
    assert chunk[..p.rec + 1] == chunk[..p.rec] + [chunk[p.rec]];
    if p.rec + 1 == |chunk| && p.chunk + 1 < |groups| {
      assert groups[..p.chunk + 1] == groups[..p.chunk] + [chunk];
      FlattenSnoc(groups[..p.chunk], chunk);
      assert chunk[..p.rec + 1] == chunk && groups[p.chunk + 1][..0] == [];
    }
  }

  lemma TrackedNext(t: Tracker, recs: seq<Rec>, r: Rec)
    requires SamePCs(t, TrackAll(START, recs))
    ensures SamePCs(Track(t, r.kind), TrackAll(START, recs + [r]))
    ensures IsMarker(r) ==> Track(t, r.kind).pc == TrackAll(START, recs + [r]).pc
  {
    assert (recs + [r])[..|recs + [r]| - 1] == recs;
  }

  lemma Products(n: nat, size: nat)
    ensures (n + 1) * size == n * size + size && (n + 2) * size == n * size + size + size
  {
  }

  /** Counting a marker: at a boundary the buffer is consumed, and the next chunk takes its place. */
  lemma MarkerCounted(src: Source, groups: seq<seq<Rec>>, p: Pos, s: Reader)
    requires Holds(src, groups) && InBounds(groups, p) && p.rec < |groups[p.chunk]| && At(src, groups, p, s)
    requires IsMarker(groups[p.chunk][p.rec])
    ensures InBounds(groups, NextPos(groups, p))
    ensures At(src, groups, NextPos(groups, p), Settle(src, Do(src, AfterFields(groups, p, s), MARKER)))
    ensures s.markers + 1 >= s.nextEnd ==> Consumed(AfterFields(groups, p, s).out)
  {
    hide Holds, At, AfterFields, Settle, Do;
    if s.markers + 1 < s.nextEnd {
      MarkerInside(src, groups, p, s);
    } else {
      MarkerAtBoundary(src, groups, p, s);
    }
  }

  lemma MarkerInside(src: Source, groups: seq<seq<Rec>>, p: Pos, s: Reader)
    requires Holds(src, groups) && InBounds(groups, p) && p.rec < |groups[p.chunk]| && At(src, groups, p, s)
    requires IsMarker(groups[p.chunk][p.rec]) && s.markers + 1 < s.nextEnd
    ensures InBounds(groups, NextPos(groups, p))
    ensures At(src, groups, NextPos(groups, p), Settle(src, Do(src, AfterFields(groups, p, s), MARKER)))
  {
    hide Bytes, TaskStep, Track, Markers, ChunkHolds, SamePCs, Flatten, TrackAll, IoAt;
    var chunk, size := groups[p.chunk], src.layout.chunkSize;
    EveryChunkEndsOnMarker(src, groups, p.chunk);
    BeforeNext(groups, p);
    MarkersPrefix(chunk, p.rec);
    TrackedNext(s.tracker, Before(groups, p), chunk[p.rec]);
    Products(p.chunk, size);
    assert p.rec + 1 == |chunk| ==> chunk[..p.rec + 1] == chunk;
    IoRests(src, groups, p.chunk, s.io);
  }

  lemma MarkerAtBoundary(src: Source, groups: seq<seq<Rec>>, p: Pos, s: Reader)
    requires Holds(src, groups) && InBounds(groups, p) && p.rec < |groups[p.chunk]| && At(src, groups, p, s)
    requires IsMarker(groups[p.chunk][p.rec]) && s.markers + 1 >= s.nextEnd
    ensures InBounds(groups, NextPos(groups, p)) && Consumed(AfterFields(groups, p, s).out)
    ensures At(src, groups, NextPos(groups, p), Settle(src, Do(src, AfterFields(groups, p, s), MARKER)))
  {
    hide Bytes, TaskStep, Track, Markers, ChunkHolds, SamePCs, Flatten, TrackAll, IoAt;
    var chunk, size := groups[p.chunk], src.layout.chunkSize;
    EveryChunkEndsOnMarker(src, groups, p.chunk);
    BeforeNext(groups, p);
    MarkersPrefix(chunk, p.rec);
    TrackedNext(s.tracker, Before(groups, p), chunk[p.rec]);
    Products(p.chunk, size);
    assert p.rec + 1 == |chunk| && chunk[..p.rec + 1] == chunk;
    var t := AfterFields(groups, p, s);
    var moved := t.(markers := t.markers + 1, nextEnd := t.nextEnd + size);
    if p.chunk + 1 < |groups| {
      EveryChunkEndsOnMarker(src, groups, p.chunk + 1);
      ChunkEntered(src, groups, p.chunk + 1, moved);
      EmptyPrefix(groups[p.chunk + 1]);
    } else {
      NothingMoreToFetch(src, groups, moved);
    }
  }

  lemma IoRests(src: Source, groups: seq<seq<Rec>>, k: nat, io: Io)
    requires k < |groups| == |src.layout.index| && IoAt(src, groups, k, io)
    ensures Resting(io) && Complete(src, io) == io
  {
  }

  lemma EmptyPrefix(chunk: seq<Rec>)
    ensures Bytes(chunk[..0]) == [] && Markers(chunk[..0]) == 0
  {
  }

  lemma NothingMoreToFetch(src: Source, groups: seq<seq<Rec>>, s: Reader)
    requires groups != [] && |groups| == |src.layout.index|
    requires s.next == Fetched(src, |groups| - 1) + 1 && IoAt(src, groups, |groups| - 1, s.io)
    ensures var r := Settle(src, ReadNextChunk(src, if src.prefetch then FinishDecompression(src, s) else s));
            r == s && IoAt(src, groups, |groups| - 1, r.io)
  {
  }

  // ---------------------------------------------------------------- runs of records

  // An opcode's PC as tracked is where the records before it say that it stands.
  lemma OwnPC(src: Source, groups: seq<seq<Rec>>, p: Pos)
    requires Holds(src, groups) && InBounds(groups, p) && p.rec < |groups[p.chunk]|
    ensures var r := groups[p.chunk][p.rec];
            IsMarker(r) ==> IsNextPC(Before(groups, p), TrackAll(START, Before(groups, p) + [r]).pc)
  {
    hide IsNextPC, TrackAll, ChunkHolds, Flatten;
    var r, recs := groups[p.chunk][p.rec], Before(groups, p) + [groups[p.chunk][p.rec]];
    FlattenWellFormed(groups[..p.chunk]);
    assert recs[..|recs| - 1] == Before(groups, p);
    assert AllWellFormed(groups[p.chunk]);
    if IsMarker(r) {
      OpcodePC(recs, |recs| - 1);
      assert recs[..|recs|] == recs;
    }
  }

  /**
   * Reading a record returns its own fields, puts an opcode at the PC where the records before it
   * say that it stands, and moves to the next place.
   */
  lemma RecordRead(src: Source, groups: seq<seq<Rec>>, p: Pos, s: Reader)
    requires Holds(src, groups) && InBounds(groups, p) && p.rec < |groups[p.chunk]| && At(src, groups, p, s)
    ensures var r := groups[p.chunk][p.rec];
            && InBounds(groups, NextPos(groups, p)) && Resting(s.io) && UndisturbedRun(src, s, ReadOps(r))
            && var after := Sync(src, s, ReadOps(r));
               && after.results == r.fields
               && after.reader.successful
               && At(src, groups, NextPos(groups, p), after.reader)
               && (IsMarker(r) ==> IsNextPC(Before(groups, p), after.reader.tracker.pc))
  {
    hide Bytes, TaskStep, Track, Markers, ChunkHolds, SamePCs, Flatten, TrackAll, IoAt, Sync, UndisturbedRun, Freads,
         IsNextPC;
    var chunk, r := groups[p.chunk], groups[p.chunk][p.rec];
    OwnPC(src, groups, p);
    var body := Freads(r.fields) + [TRACK(r.kind)];
    var t := AfterFields(groups, p, s);
    RecordBody(src, groups, p, s);
    TrackedNext(s.tracker, Before(groups, p), r);
    if IsMarker(r) {
      SyncConcat(src, s, body, [MARKER]);
      SyncOne(src, t, MARKER);
      MarkerCounted(src, groups, p, s);
      assert r.fields + [] == r.fields;
      TrackerKept(src, t);
      SuccessKept(src, t);
    } else {
      assert body + [] == body;
      EveryChunkEndsOnMarker(src, groups, p.chunk);
      MarkersPrefix(chunk, p.rec);
      BeforeNext(groups, p) by { EveryChunkEndsOnMarkers(src, groups); }
    }
  }

  lemma EveryChunkEndsOnMarkers(src: Source, groups: seq<seq<Rec>>)
    requires Holds(src, groups)
    ensures forall k :: 0 <= k < |groups| ==> groups[k] != []
  {
    forall k | 0 <= k < |groups|
      ensures groups[k] != []
    {
      EveryChunkEndsOnMarker(src, groups, k);
    }
  }

  lemma TrackerKept(src: Source, s: Reader)
    ensures Settle(src, Do(src, s, MARKER)).tracker == s.tracker
  {
  }

  lemma SuccessKept(src: Source, s: Reader)
    ensures Settle(src, Do(src, s, MARKER)).successful == s.successful
  {
  }

  predicate NoneEmpty(groups: seq<seq<Rec>>) { groups != [] && forall k :: 0 <= k < |groups| ==> groups[k] != [] }

  lemma {:induction false} FlattenPrefix(groups: seq<seq<Rec>>, k: nat)
    requires k <= |groups|
    ensures |Flatten(groups[..k])| <= |Flatten(groups)|
    ensures Flatten(groups)[..|Flatten(groups[..k])|] == Flatten(groups[..k])
    ensures k < |groups| ==> |Flatten(groups[..k])| + |groups[k]| <= |Flatten(groups)|
  {
    hide Flatten;
    assert groups == groups[..k] + groups[k..];
    FlattenConcat(groups[..k], groups[k..]);
    if k < |groups| {
      assert groups == groups[..k + 1] + groups[k + 1..] && groups[..k + 1] == groups[..k] + [groups[k]];
      FlattenConcat(groups[..k + 1], groups[k + 1..]);
      FlattenSnoc(groups[..k], groups[k]);
    }
  }

  // The record after a place is the next of all records; at the last place there is none.
  lemma BeforeIsPrefix(groups: seq<seq<Rec>>, p: Pos)
    requires NoneEmpty(groups) && InBounds(groups, p)
    ensures var all, n := Flatten(groups), |Before(groups, p)|;
            && n <= |all| && Before(groups, p) == all[..n]
            && (n == |all| <==> p.rec == |groups[p.chunk]|)
            && (n < |all| ==> all[n] == groups[p.chunk][p.rec])
  {
    hide Flatten;
    var chunk, all := groups[p.chunk], Flatten(groups);
    var head := groups[..p.chunk + 1];
    assert head == groups[..p.chunk] + [chunk];
    FlattenSnoc(groups[..p.chunk], chunk);
    FlattenPrefix(groups, p.chunk + 1);
    if p.chunk + 1 < |groups| {
      FlattenPrefix(groups, p.chunk + 1);
    } else {
      assert head == groups;
    }
    assert all[..|Flatten(head)|] == Flatten(groups[..p.chunk]) + chunk;
    assert chunk == chunk[..p.rec] + chunk[p.rec..];
  }

  // The place behind the first n records.
  function PosAt(groups: seq<seq<Rec>>, n: nat): (p: Pos)
    requires NoneEmpty(groups) && n <= |Flatten(groups)|
    ensures InBounds(groups, p) && Before(groups, p) == Flatten(groups)[..n]
  {
    if n == 0 then
      assert groups[..0] == [] && groups[0][..0] == [];
      Pos(0, 0)
    else
      var q := PosAt(groups, n - 1);
      assert q.rec < |groups[q.chunk]| && groups[q.chunk][q.rec] == Flatten(groups)[n - 1]
        by { BeforeIsPrefix(groups, q); }
      assert Flatten(groups)[..n - 1] + [Flatten(groups)[n - 1]] == Flatten(groups)[..n];
      assert InBounds(groups, NextPos(groups, q)) && Before(groups, NextPos(groups, q)) == Flatten(groups)[..n] by {
        BeforeNext(groups, q);
      }
      NextPos(groups, q)
  }

  lemma PosUnique(groups: seq<seq<Rec>>, p: Pos, q: Pos)
    requires NoneEmpty(groups) && InBounds(groups, p) && InBounds(groups, q)
    requires |Before(groups, p)| == |Before(groups, q)|
    ensures p == q
  {
    hide Flatten;
    if p.chunk < q.chunk {
      Earlier(groups, p, q);
    } else if q.chunk < p.chunk {
      Earlier(groups, q, p);
    }
  }

  lemma Earlier(groups: seq<seq<Rec>>, p: Pos, q: Pos)
    requires InBounds(groups, p) && InBounds(groups, q) && p.chunk < q.chunk
    ensures |Before(groups, p)| < |Before(groups, q)|
  {
    hide Flatten;
    FlattenPrefix(groups[..q.chunk], p.chunk);
    assert groups[..q.chunk][..p.chunk] == groups[..p.chunk];
  }

  /** A reader at rest with the first n records behind it. */
  ghost predicate StandsAt(src: Source, groups: seq<seq<Rec>>, n: nat, s: Reader)
    requires NoneEmpty(groups) && n <= |Flatten(groups)| && |groups| == |src.layout.index|
  {
    At(src, groups, PosAt(groups, n), s)
  }

  function OpsOf(recs: seq<Rec>): seq<Op> {
    if recs == [] then [] else OpsOf(recs[..|recs| - 1]) + ReadOps(recs[|recs| - 1])
  }

  function FieldsOf(recs: seq<Rec>): seq<seq<Byte>> {
    if recs == [] then [] else FieldsOf(recs[..|recs| - 1]) + recs[|recs| - 1].fields
  }

  lemma OneRecordRead(src: Source, groups: seq<seq<Rec>>, n: nat, s: Reader)
    requires Holds(src, groups) && NoneEmpty(groups) && n < |Flatten(groups)| && StandsAt(src, groups, n, s)
    ensures var r := Flatten(groups)[n];
            && Resting(s.io) && UndisturbedRun(src, s, ReadOps(r))
            && var after := Sync(src, s, ReadOps(r));
               && after.results == r.fields && after.reader.successful
               && StandsAt(src, groups, n + 1, after.reader)
               && (IsMarker(r) ==> IsNextPC(Flatten(groups)[..n], after.reader.tracker.pc))
  {
    hide Flatten, ReadOps, TrackAll, At, Before, Sync, UndisturbedRun, IsNextPC;
    var all, p := Flatten(groups), PosAt(groups, n);
    BeforeIsPrefix(groups, p);
    RecordRead(src, groups, p, s);
    assert all[..n + 1] == all[..n] + [all[n]];
  }

  function Between(recs: seq<Rec>, a: nat, b: nat): seq<Rec>
    requires a <= b <= |recs|
  {
    recs[a..b]
  }

  /** Asked for the records from a to b, a reader returns exactly their fields, and an opcode has its own PC. */
  ghost predicate ReadsAll(src: Source, groups: seq<seq<Rec>>, a: nat, b: nat, s: Reader)
    requires NoneEmpty(groups) && a <= b <= |Flatten(groups)| && |groups| == |src.layout.index| && Resting(s.io)
  {
    var all := Flatten(groups);
    var recs := Between(all, a, b);
    var after := Sync(src, s, OpsOf(recs));
    && UndisturbedRun(src, s, OpsOf(recs))
    && after.results == FieldsOf(recs)
    && StandsAt(src, groups, b, after.reader)
    && (a < b ==> after.reader.successful)
    && (a < b && IsMarker(all[b - 1]) ==> IsNextPC(all[..b - 1], after.reader.tracker.pc))
  }

  lemma ReadsOneMore(src: Source, groups: seq<seq<Rec>>, a: nat, b: nat, s: Reader)
    requires Holds(src, groups) && NoneEmpty(groups) && a < b <= |Flatten(groups)| && Resting(s.io)
    requires |groups| == |src.layout.index| && ReadsAll(src, groups, a, b - 1, s)
    ensures ReadsAll(src, groups, a, b, s)
  {
    hide Flatten, Holds, ReadOps, TrackAll, StandsAt, NoneEmpty, Sync, UndisturbedRun, OpsOf, FieldsOf, Between,
         Resting, IsNextPC;
    var all := Flatten(groups);
    var before := Sync(src, s, OpsOf(Between(all, a, b - 1)));
    OneRecordRead(src, groups, b - 1, before.reader);
    OneMoreRead(all, a, b);
    SyncConcat(src, s, OpsOf(Between(all, a, b - 1)), ReadOps(all[b - 1]));
  }

  /** Either reader, asked for the records that follow, returns exactly their fields, in order. */
  lemma {:induction false} RecordsRead(src: Source, groups: seq<seq<Rec>>, a: nat, b: nat, s: Reader)
    requires Holds(src, groups) && NoneEmpty(groups) && a <= b <= |Flatten(groups)| && StandsAt(src, groups, a, s)
    ensures Resting(s.io) && ReadsAll(src, groups, a, b, s)
  {
    hide ReadsAll, Holds, NoneEmpty, StandsAt, Flatten;
    SameCount(src, groups);
    StandsAtRests(src, groups, a, s);
    if a == b {
      ReadsNone(src, groups, a, s);
    } else {
      RecordsRead(src, groups, a, b - 1, s);
      ReadsOneMore(src, groups, a, b, s);
    }
  }

  lemma SameCount(src: Source, groups: seq<seq<Rec>>)
    requires Holds(src, groups)
    ensures |groups| == |src.layout.index|
  {
  }

  lemma ReadsNone(src: Source, groups: seq<seq<Rec>>, a: nat, s: Reader)
    requires NoneEmpty(groups) && a <= |Flatten(groups)| && |groups| == |src.layout.index|
    requires StandsAt(src, groups, a, s) && Resting(s.io)
    ensures ReadsAll(src, groups, a, a, s)
  {
    hide StandsAt, Flatten, NoneEmpty, Sync, UndisturbedRun, OpsOf, FieldsOf, Between, TrackAll;
    NothingRead(src, s, Flatten(groups), a);
  }

  lemma NothingRead(src: Source, s: Reader, all: seq<Rec>, a: nat)
    requires Resting(s.io) && a <= |all|
    ensures var ops := OpsOf(Between(all, a, a));
            Sync(src, s, ops) == Outcome(s, FieldsOf(Between(all, a, a))) && UndisturbedRun(src, s, ops)
  {
  }

  lemma OneMoreRead(all: seq<Rec>, a: nat, b: nat)
    requires a < b <= |all|
    ensures OpsOf(Between(all, a, b)) == OpsOf(Between(all, a, b - 1)) + ReadOps(all[b - 1])
    ensures FieldsOf(Between(all, a, b)) == FieldsOf(Between(all, a, b - 1)) + all[b - 1].fields
  {
    hide ReadOps;
    assert all[a..b][..b - 1 - a] == all[a..b - 1];
  }
  lemma StandsAtRests(src: Source, groups: seq<seq<Rec>>, n: nat, s: Reader)
    requires NoneEmpty(groups) && n <= |Flatten(groups)|
    requires |groups| == |src.layout.index| && StandsAt(src, groups, n, s)
    ensures Resting(s.io) && Settle(src, s) == s
  {
    hide PosAt;
  }

  /** The end is seen exactly there: a reader between records has input left unless all are read. */
  lemma EndSeenExactly(src: Source, groups: seq<seq<Rec>>, n: nat, s: Reader)
    requires Holds(src, groups) && NoneEmpty(groups) && n <= |Flatten(groups)| && StandsAt(src, groups, n, s)
    ensures AllInputConsumed(src, s) <==> n == |Flatten(groups)|
    ensures Consumed(s.out) <==> n == |Flatten(groups)|
  {
    hide Flatten, PosAt, Bytes;
    var p := PosAt(groups, n);
    var chunk := groups[p.chunk];
    BeforeIsPrefix(groups, p);
    if p.rec < |chunk| {
      BytesAround(chunk, p.rec);
      assert chunk[p.rec] in chunk;
      SomeBytes(chunk[p.rec]);
    } else {
      assert chunk[..p.rec] == chunk;
    }
  }
}
