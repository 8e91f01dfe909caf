/**
 * Opening a chunked trace and moving in it: seeking by marker count, seeking from an offset and
 * rewinding, by chunk, against reading one record at a time.
 */
module ChunkSeek {
  import opened Trace
  import opened ChunkFile
  import opened ChunkPlaces
  import opened ChunkReader

  // ---------------------------------------------------------------- operations

  /** The reader after open: the first chunk is read on the spot, the next one as at any boundary. */
  function OpenReader(src: Source, blockSize: nat): Reader {
    var (io, out) := ReadChunk(src, Io(PROLOGUE_SIZE, PROLOGUE_SIZE, [], 0, Buf([], blockSize, 0), NONE), 0);
    var s := Reader(out, 0, src.layout.chunkSize, START, false, 1, io);
    if src.prefetch then ReadNextChunk(src, s) else s
  }

  // Where a seek leaves the reader, and whether it threw.
  datatype Sought = Sought(reader: Reader, ok: bool)

  /**
   * Seeking inside a chunk: records are read one at a time until enough markers are behind.  The
   * records that follow are given; reading past the last of them is the end of the trace.
   */
  function SlowSeek(src: Source, s: Reader, target: nat, rest: seq<Rec>): Sought
    requires Resting(s.io)
    decreases |rest|
  {
    if Eof(src, s) || s.markers >= target then Sought(s, true)
    else if rest == [] then Sought(s.(successful := false), false)
    else SlowSeek(src, Sync(src, s, ReadOps(rest[0])).reader, target, rest[1..])
  }

  // The records behind the start of a chunk.
  function ChunkStart(groups: seq<seq<Rec>>, k: nat): nat
    requires k <= |groups|
  {
    |Flatten(groups[..k])|
  }

  /** Seeking by a number of markers, jumping by chunk when a boundary lies between. */
  function Seek(src: Source, groups: seq<seq<Rec>>, s: Reader, n: nat, rest: seq<Rec>): Sought
    requires Resting(s.io) && src.layout.chunkSize >= 1 && |groups| == |src.layout.index|
  {
    var target := s.markers + n;
    if target < s.nextEnd then SlowSeek(src, s, target, rest)
    else
      var cancelled := CancelCurrentChunks(src, s);
      var k := target / src.layout.chunkSize;
      if k >= |src.layout.index| then Sought(Settle(src, cancelled), false)
      else
        var t := Settle(src, SeekToChunk(src, cancelled, k));
        SlowSeek(src, t, t.markers + target % src.layout.chunkSize,
                 Flatten(groups)[Min(ChunkStart(groups, k), |Flatten(groups)|)..])
  }

  function Min(a: nat, b: nat): nat { if a < b then a else b }

  function Rewind(src: Source, s: Reader): Reader
    requires |src.layout.index| > 0
  {
    SeekToChunk(src, CancelCurrentChunks(src, s), 0)
  }

  // ---------------------------------------------------------------- where they lead

  /** The place reached by reading one record at a time until the given number of markers is behind. */
  function SeekIndex(all: seq<Rec>, from: nat, target: nat): (r: nat)
    requires from <= |all|
    ensures from <= r <= |all|
    decreases |all| - from
  {
    if from == |all| || Markers(all[..from]) >= target then from else SeekIndex(all, from + 1, target)
  }

  // The header is the records of the first chunk before the position noted as the trace's start.
  ghost predicate HeaderEnds(src: Source, groups: seq<seq<Rec>>, h: nat) {
    && groups != [] && src.layout.index != [] && h < |groups[0]|
    && Markers(groups[0][..h]) == 0
    && src.traceStart == |Bytes(groups[0][..h])|
    && var t := TrackAll(START, groups[0][..h]);
       src.layout.index[0].startPc == t.nextPc && !t.isBranch
  }

  lemma {:induction false} FullMarkers(groups: seq<seq<Rec>>, k: nat, size: nat)
    requires k <= |groups| && forall i :: 0 <= i < k ==> Markers(groups[i]) == size
    ensures Markers(Flatten(groups[..k])) == k * size
  {
    hide Markers, Flatten;
    if k == 0 {
      NoMarkers();
      assert Flatten(groups[..0]) == [] by { NothingFlattened(groups); }
    } else {
      FullMarkers(groups, k - 1, size);
      SeqAround(groups, k - 1);
      FlattenSnoc(groups[..k - 1], groups[k - 1]);
      MarkersConcat(Flatten(groups[..k - 1]), groups[k - 1]);
      OneMore(k - 1, size);
    }
  }

  lemma NothingFlattened<T>(parts: seq<seq<T>>)
    ensures Flatten(parts[..0]) == []
  {
  }

  // The number of the chunk boundary ahead of a place, counted in chunks.
  function BoundaryAhead(src: Source, groups: seq<seq<Rec>>, p: Pos): (j: nat)
    requires InBounds(groups, p)
    ensures j >= 1
  {
    p.chunk + if Markers(groups[p.chunk][..p.rec]) < src.layout.chunkSize then 1 else 2
  }

  /** A reader's marker count is that of the records behind it, and a chunk boundary lies ahead. */
  lemma MarkersBehind(src: Source, groups: seq<seq<Rec>>, n: nat, s: Reader)
    requires Holds(src, groups) && NoneEmpty(groups) && n <= |Flatten(groups)| && StandsAt(src, groups, n, s)
    ensures s.markers == Markers(Flatten(groups)[..n]) && s.markers < s.nextEnd
    ensures s.nextEnd == BoundaryAhead(src, groups, PosAt(groups, n)) * src.layout.chunkSize
  {
    var p := PosAt(groups, n);
    CountersAt(src, groups, p, s);
    hide PosAt, StandsAt, Markers, Flatten, BoundaryAhead, Before;
    MarkersBefore(src, groups, p);
    MarkersInChunk(src, groups, p);
    hide Holds, NoneEmpty;
    AheadOf(p.chunk, Markers(groups[p.chunk][..p.rec]), src.layout.chunkSize);
  }

  lemma CountersAt(src: Source, groups: seq<seq<Rec>>, p: Pos, s: Reader)
    requires InBounds(groups, p) && |groups| == |src.layout.index| && At(src, groups, p, s)
    ensures var m, size := Markers(groups[p.chunk][..p.rec]), src.layout.chunkSize;
            && s.markers == p.chunk * size + m && s.nextEnd == (p.chunk + (if m < size then 1 else 2)) * size
            && BoundaryAhead(src, groups, p) == p.chunk + if m < size then 1 else 2
  {
    hide Markers, Bytes, IoAt, SamePCs;
  }

  lemma AheadOf(c: nat, m: nat, size: nat)
    requires m <= size && size >= 1
    ensures c * size + m < (c + (if m < size then 1 else 2)) * size
  {
    Products(c, size);
  }

  lemma MarkersInChunk(src: Source, groups: seq<seq<Rec>>, p: Pos)
    requires Holds(src, groups) && InBounds(groups, p)
    ensures Markers(groups[p.chunk][..p.rec]) <= src.layout.chunkSize
  {
    var chunk := groups[p.chunk];
    hide Markers;
    EveryChunkEndsOnMarker(src, groups, p.chunk);
    if p.rec < |chunk| {
      MarkersPrefix(chunk, p.rec);
    } else {
      assert chunk[..p.rec] == chunk;
    }
  }

  lemma MarkersBefore(src: Source, groups: seq<seq<Rec>>, p: Pos)
    requires Holds(src, groups) && InBounds(groups, p)
    ensures Markers(Before(groups, p)) == p.chunk * src.layout.chunkSize + Markers(groups[p.chunk][..p.rec])
  {
    hide Markers, Flatten;
    forall i | 0 <= i < p.chunk
      ensures Markers(groups[i]) == src.layout.chunkSize
    {
      EveryChunkEndsOnMarker(src, groups, i);
    }
    FullMarkers(groups, p.chunk, src.layout.chunkSize);
    MarkersConcat(Flatten(groups[..p.chunk]), groups[p.chunk][..p.rec]);
  }

  // The reader that takes a whole chunk from rest, and everything that follows it.
  lemma ChunkTaken(src: Source, groups: seq<seq<Rec>>, k: nat, s: Reader)
    requires Holds(src, groups) && k < |groups| && s.io.phase.NONE?
    ensures var r := Settle(src, SeekToChunk(src, s, k));
            && IoAt(src, groups, k, r.io) && r.next == Fetched(src, k) + 1
            && r.out == Full(Bytes(groups[k]), if k == 0 then src.traceStart else 0)
            && r.markers == k * src.layout.chunkSize && r.nextEnd == r.markers + src.layout.chunkSize
            && r.tracker == ForcePC(s.tracker, src.layout.index[k].startPc)
  {
    hide Bytes, TaskStep;
    var io0 := s.io.(pos := src.layout.index[k].offset, lastRead := src.layout.index[k].offset);
    ChunkFetched(src, groups, k, io0);
    if src.prefetch && k + 1 < |groups| {
      assert Limit(src.layout, k) == src.layout.index[k + 1].offset;
      ChunkFetched(src, groups, k + 1, ReadChunk(src, io0, k).0);
    }
  }

  lemma CancelRests(src: Source, s: Reader)
    requires src.prefetch || s.io.phase.NONE?
    ensures CancelCurrentChunks(src, s).io.phase.NONE? && CancelCurrentChunks(src, s).tracker == s.tracker
    ensures CancelCurrentChunks(src, Settle(src, s)) == CancelCurrentChunks(src, s)
  {
    hide TaskStep;
    CompleteTwice(src, s.io);
  }

  // The place where a jump to a chunk lands: behind the header in the first, at the start in any other.
  function Landing(groups: seq<seq<Rec>>, k: nat, h: nat): Pos { Pos(k, if k == 0 then h else 0) }

  /** A jump to a chunk lands at its place, with the PC that a sequential reader has there. */
  lemma JumpLands(src: Source, groups: seq<seq<Rec>>, k: nat, h: nat, s: Reader)
    requires Holds(src, groups) && k < |groups| && s.io.phase.NONE? && !s.tracker.isBranch
    requires k == 0 ==> HeaderEnds(src, groups, h)
    ensures InBounds(groups, Landing(groups, k, h))
    ensures At(src, groups, Landing(groups, k, h), Settle(src, SeekToChunk(src, s, k)))
  {
    hide Bytes, TaskStep, Markers, Flatten, IoAt, TrackAll;
    var p, r := Landing(groups, k, h), Settle(src, SeekToChunk(src, s, k));
    ChunkTaken(src, groups, k, s);
    EveryChunkEndsOnMarker(src, groups, k);
    EmptyPrefix(groups[k]);
    Products(k, src.layout.chunkSize);
    assert 0 * src.layout.chunkSize == 0;
    if k == 0 {
      NothingFlattened(groups);
      assert Before(groups, p) == [] + groups[0][..h] == groups[0][..h];
    } else {
      assert Before(groups, p) == Flatten(groups[..k]) + [] == Flatten(groups[..k]);
      assert ChunkHolds(src, groups, k);
      BoundaryTracker(src, groups, k);
    }
  }

  lemma BoundaryTracker(src: Source, groups: seq<seq<Rec>>, k: nat)
    requires Holds(src, groups) && 0 < k <= |groups|
    ensures !TrackAll(START, Flatten(groups[..k])).isBranch
    ensures Flatten(groups[..k]) != [] && IsMarker(Flatten(groups[..k])[|Flatten(groups[..k])| - 1])
  {
    hide Flatten, TrackAll;
    EveryChunkEndsOnMarker(src, groups, k - 1);
    SeqAround(groups, k - 1);
    FlattenSnoc(groups[..k - 1], groups[k - 1]);
    NoBranchAfterMarker(START, Flatten(groups[..k]));
  }

  // ---------------------------------------------------------------- slow and fast

  lemma MarkersMonotone(all: seq<Rec>, a: nat, b: nat)
    requires a <= b <= |all|
    ensures Markers(all[..a]) <= Markers(all[..b])
  {
    hide Markers;
    assert all[..b] == all[..a] + all[a..b];
    MarkersConcat(all[..a], all[a..b]);
  }

  /** A seek may start from any later place that is not yet past its target. */
  lemma {:induction false} SeekIndexFrom(all: seq<Rec>, from: nat, later: nat, target: nat)
    requires from <= later <= |all| && (from < later ==> Markers(all[..later - 1]) < target)
    ensures SeekIndex(all, from, target) == SeekIndex(all, later, target)
    decreases later - from
  {
    hide Markers;
    if from < later {
      MarkersMonotone(all, from, later - 1);
      SeekIndexFrom(all, from + 1, later, target);
    }
  }

  /**
   * Where a seek stops: the first place from which enough markers are behind, which is right behind the
   * marker sought unless it was behind from the start; the end of the trace if there are too few.
   */
  lemma {:induction false} SeekIndexMeaning(all: seq<Rec>, from: nat, target: nat)
    requires from <= |all|
    ensures var r := SeekIndex(all, from, target);
            && (Markers(all[..r]) >= target <==> Markers(all) >= target)
            && (Markers(all) < target ==> r == |all|)
            && (forall i :: from <= i < r ==> Markers(all[..i]) < target)
            && (from < r && Markers(all) >= target ==> Markers(all[..r]) == target && IsMarker(all[r - 1]))
    decreases |all| - from
  {
    hide Markers;
    assert all[..|all|] == all;
    MarkersMonotone(all, from, |all|);
    if from < |all| && Markers(all[..from]) < target {
      SeekIndexMeaning(all, from + 1, target);
      assert all[..from + 1] == all[..from] + [all[from]];
      MarkersSnoc(all[..from], all[from]);
    }
  }

  /** Reading one record at a time: where it stops, and when it runs past the end. */
  lemma {:induction false} SlowSeekLands(src: Source, groups: seq<seq<Rec>>, a: nat, s: Reader, target: nat)
    requires Holds(src, groups) && NoneEmpty(groups) && a <= |Flatten(groups)| && StandsAt(src, groups, a, s)
    ensures var all := Flatten(groups);
            && Resting(s.io)
            && var r := SlowSeek(src, s, target, all[a..]);
               && StandsAt(src, groups, SeekIndex(all, a, target), r.reader)
               && (r.ok <==> Markers(all) >= target || (a == |all| && !s.successful))
    decreases |Flatten(groups)| - a
  {
    var all := Flatten(groups);
    if a < |all| && s.markers < target {
      assert |groups| == |src.layout.index|;
      hide Holds, StandsAt, NoneEmpty, Sync, ReadOps, Markers, Flatten, SlowSeek, SeekIndex;
      SlowSeekGoesOn(src, groups, a, s, target);
      SlowSeekLands(src, groups, a + 1, Sync(src, s, ReadOps(all[a])).reader, target);
    } else {
      SlowSeekStops(src, groups, a, s, target);
    }
  }

  lemma SlowSeekGoesOn(src: Source, groups: seq<seq<Rec>>, a: nat, s: Reader, target: nat)
    requires Holds(src, groups) && NoneEmpty(groups) && a < |Flatten(groups)| && StandsAt(src, groups, a, s)
    requires s.markers < target
    ensures var all := Flatten(groups);
            && Resting(s.io)
            && var t := Sync(src, s, ReadOps(all[a])).reader;
               && t.successful && StandsAt(src, groups, a + 1, t)
               && SlowSeek(src, s, target, all[a..]) == SlowSeek(src, t, target, all[a + 1..])
               && SeekIndex(all, a, target) == SeekIndex(all, a + 1, target)
  {
    hide Holds, StandsAt, NoneEmpty, Sync, ReadOps, Markers, Flatten, SlowSeek, AllInputConsumed;
    OneRecordRead(src, groups, a, s);
    EndSeenExactly(src, groups, a, s);
    MarkersBehind(src, groups, a, s);
    SlowSeekReadsOne(src, s, target, Flatten(groups), a);
  }

  lemma SlowSeekReadsOne(src: Source, s: Reader, target: nat, all: seq<Rec>, a: nat)
    requires Resting(s.io) && a < |all| && !Eof(src, s) && s.markers < target
    ensures SlowSeek(src, s, target, all[a..])
            == SlowSeek(src, Sync(src, s, ReadOps(all[a])).reader, target, all[a + 1..])
  {
    hide Sync, ReadOps, AllInputConsumed;
    assert all[a..][0] == all[a] && all[a..][1..] == all[a + 1..];
  }

  lemma SlowSeekStops(src: Source, groups: seq<seq<Rec>>, a: nat, s: Reader, target: nat)
    requires Holds(src, groups) && NoneEmpty(groups) && a <= |Flatten(groups)| && StandsAt(src, groups, a, s)
    requires a == |Flatten(groups)| || s.markers >= target
    ensures var all := Flatten(groups);
            && Resting(s.io)
            && var r := SlowSeek(src, s, target, all[a..]);
               && StandsAt(src, groups, SeekIndex(all, a, target), r.reader)
               && (r.ok <==> Markers(all) >= target || (a == |all| && !s.successful))
  {
    var all := Flatten(groups);
    StandsAtRests(src, groups, a, s);
    MarkersBehind(src, groups, a, s);
    EndSeenExactly(src, groups, a, s);
    FailedReadStays(src, groups, a, s);
    assert |groups| == |src.layout.index|;
    hide Holds, StandsAt, NoneEmpty, Markers, Flatten, AllInputConsumed;
    assert all[..|all|] == all;
    MarkersMonotone(all, a, |all|);
  }

  lemma FailedReadStays(src: Source, groups: seq<seq<Rec>>, n: nat, s: Reader)
    requires NoneEmpty(groups) && n <= |Flatten(groups)|
    requires |groups| == |src.layout.index| && StandsAt(src, groups, n, s)
    ensures StandsAt(src, groups, n, s.(successful := false))
  {
    hide PosAt;
  }

  // ---------------------------------------------------------------- arithmetic of chunks

  lemma Quotient(t: nat, size: nat)
    requires size >= 1
    ensures t == (t / size) * size + t % size && t % size < size
  {
  }

  lemma AtLeast(q: nat, j: nat, r: nat, size: nat)
    requires r < size && q * size + r >= j * size
    ensures q >= j
  {
    if q < j {
      Scaled(q + 1, j, size);
      OneMore(q, size);
    }
  }

  lemma ChunkAhead(target: nat, j: nat, size: nat)
    requires size >= 1 && j >= 1 && target >= j * size
    ensures target / size >= j && j * size <= (target / size) * size <= target
  {
    Quotient(target, size);
    AtLeast(target / size, j, target % size, size);
    Scaled(j, target / size, size);
  }

  lemma Scaled(a: nat, b: nat, size: nat)
    requires a <= b
    ensures a * size <= b * size
  {
  }

  // The records behind the place where a jump to a chunk lands.
  function LandingIndex(groups: seq<seq<Rec>>, k: nat, h: nat): nat
    requires k <= |groups|
  {
    if k == 0 then h else ChunkStart(groups, k)
  }

  lemma JumpStands(src: Source, groups: seq<seq<Rec>>, k: nat, h: nat, s: Reader)
    requires Holds(src, groups) && NoneEmpty(groups) && k < |groups| && s.io.phase.NONE? && !s.tracker.isBranch
    requires k == 0 ==> HeaderEnds(src, groups, h)
    ensures var c := LandingIndex(groups, k, h);
            && c < |Flatten(groups)| && StandsAt(src, groups, c, Settle(src, SeekToChunk(src, s, k)))
            && Markers(Flatten(groups)[..c]) == k * src.layout.chunkSize
  {
    var c, p := LandingIndex(groups, k, h), Landing(groups, k, h);
    JumpLands(src, groups, k, h, s);
    assert |Before(groups, p)| == c && p.rec < |groups[k]| by {
      hide Flatten;
      if k == 0 {
        NothingFlattened(groups);
      }
    }
    hide Flatten, At, Markers;
    BeforeIsPrefix(groups, p);
    PosUnique(groups, p, PosAt(groups, c));
    MarkersBefore(src, groups, p);
    EmptyPrefix(groups[k]);
    assert 0 * src.layout.chunkSize == 0;
  }

  // Behind the last record of the chunks before a jump lies the boundary's own marker.
  lemma BeforeBoundary(src: Source, groups: seq<seq<Rec>>, k: nat, c: nat)
    requires Holds(src, groups) && 0 < k < |groups| && c == ChunkStart(groups, k)
    ensures 0 < c <= |Flatten(groups)| && Markers(Flatten(groups)[..c]) == Markers(Flatten(groups)[..c - 1]) + 1
  {
    var all, head := Flatten(groups), Flatten(groups[..k]);
    BoundaryTracker(src, groups, k);
    FlattenPrefix(groups, k);
    hide Flatten, Markers;
    assert all[..c] == head;
    SeqAround(all, c - 1);
    assert all[c - 1] == head[c - 1];
    MarkersSnoc(all[..c - 1], all[c - 1]);
  }

  lemma TotalMarkers(src: Source, groups: seq<seq<Rec>>)
    requires Holds(src, groups)
    ensures Markers(Flatten(groups)) <= Capacity(src, groups)
  {
    hide Flatten, Markers;
    var n := |groups| - 1;
    forall i | 0 <= i < n
      ensures Markers(groups[i]) == src.layout.chunkSize
    {
      EveryChunkEndsOnMarker(src, groups, i);
    }
    EveryChunkEndsOnMarker(src, groups, n);
    FullMarkers(groups, n, src.layout.chunkSize);
    SeqAround(groups, n);
    assert groups[..n + 1] == groups;
    FlattenSnoc(groups[..n], groups[n]);
    MarkersConcat(Flatten(groups[..n]), groups[n]);
    OneMore(n, src.layout.chunkSize);
  }

  // Once the boundary ahead is past the last chunk, all markers are behind.
  lemma LastBoundary(src: Source, groups: seq<seq<Rec>>, a: nat, s: Reader)
    requires Holds(src, groups) && NoneEmpty(groups) && a <= |Flatten(groups)| && StandsAt(src, groups, a, s)
    requires s.nextEnd > Capacity(src, groups)
    ensures s.markers == Markers(Flatten(groups))
  {
    var all, p := Flatten(groups), PosAt(groups, a);
    CountersAt(src, groups, p, s);
    MarkersBehind(src, groups, a, s);
    TotalMarkers(src, groups);
    hide Flatten, Markers, StandsAt, Holds, PosAt;
    MarkersMonotone(all, a, |all|);
    assert all[..|all|] == all;
    var j := p.chunk + if Markers(groups[p.chunk][..p.rec]) < src.layout.chunkSize then 1 else 2;
    if j <= |groups| {
      Scaled(j, |groups|, src.layout.chunkSize);
    }
    Products(p.chunk, src.layout.chunkSize);
  }

  /** A jump by chunk misses nothing: a slow seek from before it passes the place where it lands. */
  lemma JumpIsOnTheWay(src: Source, groups: seq<seq<Rec>>, a: nat, s: Reader, target: nat)
    requires Holds(src, groups) && NoneEmpty(groups) && a <= |Flatten(groups)| && StandsAt(src, groups, a, s)
    requires var k := target / src.layout.chunkSize; target >= s.nextEnd && k < |groups|
    ensures var all, k := Flatten(groups), target / src.layout.chunkSize;
            && 0 < k && ChunkStart(groups, k) <= |all|
            && SeekIndex(all, a, target) == SeekIndex(all, ChunkStart(groups, k), target)
  {
    var all, size := Flatten(groups), src.layout.chunkSize;
    var k, j := target / size, BoundaryAhead(src, groups, PosAt(groups, a));
    MarkersBehind(src, groups, a, s);
    assert size >= 1 && |groups| == |src.layout.index|;
    hide Flatten, Markers, StandsAt, Holds, NoneEmpty, PosAt, SeekIndex, BoundaryAhead;
    ChunkAhead(target, j, size);
    var c := ChunkStart(groups, k);
    hide ChunkStart;
    BeforeBoundary(src, groups, k, c);
    ChunkStartMarkers(src, groups, k);
    if c <= a {
      MarkersMonotone(all, c, a);
    }
    SeekIndexFrom(all, a, c, target);
  }

  lemma ChunkStartMarkers(src: Source, groups: seq<seq<Rec>>, k: nat)
    requires Holds(src, groups) && k < |groups|
    ensures ChunkStart(groups, k) <= |Flatten(groups)|
    ensures Markers(Flatten(groups)[..ChunkStart(groups, k)]) == k * src.layout.chunkSize
  {
    hide Flatten, Markers;
    FlattenPrefix(groups, k);
    forall i | 0 <= i < k
      ensures Markers(groups[i]) == src.layout.chunkSize
    {
      EveryChunkEndsOnMarker(src, groups, i);
    }
    FullMarkers(groups, k, src.layout.chunkSize);
  }

  // The markers the chunks of a trace could hold, were the last one full.
  function Capacity(src: Source, groups: seq<seq<Rec>>): nat { |groups| * src.layout.chunkSize }

  // What a caller can check before a seek: the target exists, and lies inside a chunk or is where the reader stands.
  predicate CanSeek(src: Source, groups: seq<seq<Rec>>, a: nat, s: Reader, n: nat)
  {
    var all, target := Flatten(groups), s.markers + n;
    || (target <= Markers(all) && (n == 0 || target < Capacity(src, groups)))
    || (a == |all| && !s.successful && target < s.nextEnd)
  }

  // Where a seek leads: it throws exactly when CanSeek is false, and otherwise lands where a slow seek does.
  ghost predicate SeekLands(src: Source, groups: seq<seq<Rec>>, a: nat, s: Reader, n: nat)
    requires src.layout.chunkSize >= 1 && NoneEmpty(groups) && |groups| == |src.layout.index|
    requires a <= |Flatten(groups)| && Resting(s.io)
  {
    var all := Flatten(groups);
    var r := Seek(src, groups, s, n, all[a..]);
    && (r.ok <==> CanSeek(src, groups, a, s, n))
    && (r.ok ==> StandsAt(src, groups, SeekIndex(all, a, s.markers + n), r.reader))
  }

  /**
   * Seeking by chunk lands where reading one record at a time lands: same records ahead, marker
   * count, boundary and PCs.  It throws exactly when CanSeek is false; of the targets that exist,
   * only the end of a trace whose last chunk is full is refused.
   */
  lemma FastSeekIsSlowSeek(src: Source, groups: seq<seq<Rec>>, a: nat, s: Reader, n: nat)
    requires Holds(src, groups) && NoneEmpty(groups) && a <= |Flatten(groups)| && StandsAt(src, groups, a, s)
    requires !s.tracker.isBranch
    ensures Resting(s.io) && SeekLands(src, groups, a, s, n)
  {
    StandsAtRests(src, groups, a, s);
    if s.markers + n < s.nextEnd {
      SeekInChunk(src, groups, a, s, n);
    } else {
      SeekOverBoundary(src, groups, a, s, n);
    }
    hide SeekLands;
  }

  lemma Sizes(src: Source, groups: seq<seq<Rec>>)
    requires Holds(src, groups)
    ensures |groups| == |src.layout.index| && src.layout.chunkSize >= 1 && groups != []
  {
  }

  lemma SeekOverBoundary(src: Source, groups: seq<seq<Rec>>, a: nat, s: Reader, n: nat)
    requires Holds(src, groups) && NoneEmpty(groups) && a <= |Flatten(groups)| && StandsAt(src, groups, a, s)
    requires !s.tracker.isBranch && s.markers + n >= s.nextEnd
    ensures Resting(s.io) && SeekLands(src, groups, a, s, n)
  {
    hide Flatten, Markers, StandsAt, Holds, NoneEmpty, SeekIndex, PosAt, BoundaryAhead, Capacity, Seek;
    Sizes(src, groups);
    var target := s.markers + n;
    StandsAtRests(src, groups, a, s);
    MarkersBehind(src, groups, a, s);
    CapacityBound(src, groups, target);
    TotalMarkers(src, groups);
    if target / src.layout.chunkSize < |groups| {
      FastSeekJumps(src, groups, a, s, target);
    } else {
      SeekPastEnd(src, groups, s, target, Flatten(groups)[a..]);
    }
  }

  lemma SeekInChunk(src: Source, groups: seq<seq<Rec>>, a: nat, s: Reader, n: nat)
    requires Holds(src, groups) && NoneEmpty(groups) && a <= |Flatten(groups)| && StandsAt(src, groups, a, s)
    requires s.markers + n < s.nextEnd
    ensures Resting(s.io) && SeekLands(src, groups, a, s, n)
  {
    hide Flatten, Markers, StandsAt, Holds, NoneEmpty, SeekIndex, PosAt, BoundaryAhead, Capacity, SlowSeek;
    Sizes(src, groups);
    var all, target := Flatten(groups), s.markers + n;
    SlowSeekLands(src, groups, a, s, target);
    MarkersBehind(src, groups, a, s);
    MarkersAtMost(all, a);
    if target <= Markers(all) {
      ExistsInChunk(src, groups, a, s, n);
    }
  }

  lemma ExistsInChunk(src: Source, groups: seq<seq<Rec>>, a: nat, s: Reader, n: nat)
    requires Holds(src, groups) && NoneEmpty(groups) && a <= |Flatten(groups)| && StandsAt(src, groups, a, s)
    requires s.markers + n < s.nextEnd && s.markers + n <= Markers(Flatten(groups))
    ensures n == 0 || s.markers + n < Capacity(src, groups)
  {
    hide Flatten, Markers, StandsAt, Holds, NoneEmpty, PosAt, BoundaryAhead, Capacity;
    MarkersBehind(src, groups, a, s);
    if s.markers + n >= Capacity(src, groups) {
      LastBoundary(src, groups, a, s);
    }
  }

  lemma MarkersAtMost(all: seq<Rec>, a: nat)
    requires a <= |all|
    ensures Markers(all[..a]) <= Markers(all)
  {
    assert all[..|all|] == all;
    MarkersMonotone(all, a, |all|);
  }

  lemma SeekPastEnd(src: Source, groups: seq<seq<Rec>>, s: Reader, target: nat, rest: seq<Rec>)
    requires Resting(s.io) && src.layout.chunkSize >= 1 && |groups| == |src.layout.index|
    requires target >= s.nextEnd && target >= s.markers && target / src.layout.chunkSize >= |groups|
    ensures !Seek(src, groups, s, target - s.markers, rest).ok
  {
  }

  lemma CapacityBound(src: Source, groups: seq<seq<Rec>>, target: nat)
    requires src.layout.chunkSize >= 1
    ensures target / src.layout.chunkSize < |groups| <==> target < Capacity(src, groups)
  {
    if target / src.layout.chunkSize < |groups| {
      Below(target, |groups|, src.layout.chunkSize);
    } else {
      Above(target, |groups|, src.layout.chunkSize);
    }
  }

  lemma Below(target: nat, n: nat, size: nat)
    requires size >= 1 && target / size < n
    ensures target < n * size
  {
    Quotient(target, size);
    Scaled(target / size + 1, n, size);
    OneMore(target / size, size);
  }

  lemma Above(target: nat, n: nat, size: nat)
    requires size >= 1 && target / size >= n
    ensures target >= n * size
  {
    Quotient(target, size);
    Scaled(n, target / size, size);
  }

  lemma NotPrefetchingRests(src: Source, groups: seq<seq<Rec>>, a: nat, s: Reader)
    requires NoneEmpty(groups) && a <= |Flatten(groups)|
    requires |groups| == |src.layout.index| && StandsAt(src, groups, a, s)
    ensures src.prefetch || s.io.phase.NONE?
  {
    hide PosAt, Flatten, CallerAt;
  }

  lemma FastSeekJumps(src: Source, groups: seq<seq<Rec>>, a: nat, s: Reader, target: nat)
    requires Holds(src, groups) && NoneEmpty(groups) && a <= |Flatten(groups)| && StandsAt(src, groups, a, s)
    requires !s.tracker.isBranch && target >= s.nextEnd && target >= s.markers
    requires target / src.layout.chunkSize < |groups|
    ensures var all := Flatten(groups);
            && Resting(s.io)
            && var r := Seek(src, groups, s, target - s.markers, all[a..]);
               && (r.ok <==> target <= Markers(all))
               && StandsAt(src, groups, SeekIndex(all, a, target), r.reader)
  {
    hide Flatten, Markers, StandsAt, Holds, NoneEmpty, SlowSeek, SeekToChunk, CancelCurrentChunks, Settle, SeekIndex,
         PosAt, BoundaryAhead;
    Sizes(src, groups);
    var all, size := Flatten(groups), src.layout.chunkSize;
    var k, cancelled := target / size, CancelCurrentChunks(src, s);
    StandsAtRests(src, groups, a, s);
    NotPrefetchingRests(src, groups, a, s);
    CancelRests(src, s);
    JumpIsOnTheWay(src, groups, a, s, target);
    JumpStands(src, groups, k, 0, cancelled);
    var t, c := Settle(src, SeekToChunk(src, cancelled, k)), ChunkStart(groups, k);
    MarkersBehind(src, groups, c, t);
    hide ChunkStart;
    SeekByJump(src, groups, s, t, c, target, all[a..]);
    SlowSeekLands(src, groups, c, t, target);
  }

  // A seek over a boundary is a jump and then a slow seek.
  lemma SeekByJump(src: Source, groups: seq<seq<Rec>>, s: Reader, t: Reader, c: nat, target: nat, rest: seq<Rec>)
    requires Resting(s.io) && src.layout.chunkSize >= 1 && |groups| == |src.layout.index|
    requires target >= s.nextEnd && target >= s.markers && target / src.layout.chunkSize < |groups|
    requires t == Settle(src, SeekToChunk(src, CancelCurrentChunks(src, s), target / src.layout.chunkSize))
    requires c == ChunkStart(groups, target / src.layout.chunkSize) <= |Flatten(groups)|
    requires t.markers == (target / src.layout.chunkSize) * src.layout.chunkSize
    ensures Seek(src, groups, s, target - s.markers, rest) == SlowSeek(src, t, target, Flatten(groups)[c..])
  {
    hide Flatten, SlowSeek, SeekToChunk, CancelCurrentChunks, Settle, ChunkStart;
    Quotient(target, src.layout.chunkSize);
  }

  // ---------------------------------------------------------------- rewind and seek from an offset

  /** Rewinding, from any state without a pending branch, stands behind the header, with the initial PC. */
  lemma RewindLands(src: Source, groups: seq<seq<Rec>>, h: nat, s: Reader)
    requires Holds(src, groups) && NoneEmpty(groups) && HeaderEnds(src, groups, h)
    requires (src.prefetch || s.io.phase.NONE?) && !s.tracker.isBranch
    ensures |src.layout.index| > 0 && h < |Flatten(groups)| && StandsAt(src, groups, h, Settle(src, Rewind(src, s)))
  {
    hide Holds, NoneEmpty, HeaderEnds, StandsAt, Settle, SeekToChunk, CancelCurrentChunks, Flatten, PosAt, Markers;
    Sizes(src, groups);
    CancelRests(src, s);
    JumpStands(src, groups, 0, h, CancelCurrentChunks(src, s));
  }

  /** Seeking from a place given by its marker count: to its chunk first, then the rest of the way. */
  function SeekFromOffset(src: Source, groups: seq<seq<Rec>>, s: Reader, at: nat, n: nat, rest: seq<Rec>): Sought
    requires src.layout.chunkSize >= 1 && |groups| == |src.layout.index| && at / src.layout.chunkSize < |groups|
  {
    var t := Settle(src, SeekToChunk(src, CancelCurrentChunks(src, s), at / src.layout.chunkSize));
    var remaining := if at + n >= t.markers then at + n - t.markers else 0;
    if remaining > 0 then Seek(src, groups, t, remaining, rest) else Sought(t, true)
  }

  /**
   * It lands, from any state without a pending branch, where reading from the header on would; it
   * throws if that does not exist.
   */
  lemma SeekFromOffsetLands(src: Source, groups: seq<seq<Rec>>, h: nat, s: Reader, at: nat, n: nat)
    requires Holds(src, groups) && NoneEmpty(groups) && HeaderEnds(src, groups, h)
    requires (src.prefetch || s.io.phase.NONE?) && !s.tracker.isBranch
    requires src.layout.chunkSize >= 1 && |groups| == |src.layout.index| && at / src.layout.chunkSize < |groups|
    ensures var all, k := Flatten(groups), at / src.layout.chunkSize;
            && LandingIndex(groups, k, h) <= |all| && h <= |all|
            && var r := SeekFromOffset(src, groups, s, at, n, all[LandingIndex(groups, k, h)..]);
               && (r.ok <==> at + n <= Markers(all) && at + n < Capacity(src, groups))
               && (r.ok ==> StandsAt(src, groups, SeekIndex(all, h, at + n), r.reader))
  {
    hide Holds, NoneEmpty, HeaderEnds, StandsAt, Settle, SeekToChunk, CancelCurrentChunks, Flatten, PosAt, Markers,
         Seek, Capacity, SeekIndex, LandingIndex;
    var all, k := Flatten(groups), at / src.layout.chunkSize;
    var cancelled := CancelCurrentChunks(src, s);
    var t, c := Settle(src, SeekToChunk(src, cancelled, k)), LandingIndex(groups, k, h);
    CancelRests(src, s);
    JumpStands(src, groups, k, h, cancelled);
    JumpStands(src, groups, 0, h, cancelled);
    HeaderLanding(groups, h);
    ChunkTaken(src, groups, k, cancelled);
    Quotient(at, src.layout.chunkSize);
    CapacityBound(src, groups, at);
    MarkersBehind(src, groups, c, t);
    MarkersAtMost(all, c);
    FromHeader(src, groups, h, k, at + n);
    FastSeekIsSlowSeek(src, groups, c, t, at + n - t.markers);
    SeekIndexStays(all, c, t.markers);
  }

  lemma HeaderLanding(groups: seq<seq<Rec>>, h: nat)
    ensures LandingIndex(groups, 0, h) == h
  {
  }

  lemma SeekIndexStays(all: seq<Rec>, c: nat, target: nat)
    requires c <= |all| && Markers(all[..c]) >= target
    ensures SeekIndex(all, c, target) == c
  {
  }

  // A slow seek from behind the header passes the place where a jump to an earlier chunk lands.
  lemma FromHeader(src: Source, groups: seq<seq<Rec>>, h: nat, k: nat, target: nat)
    requires Holds(src, groups) && NoneEmpty(groups) && HeaderEnds(src, groups, h) && k < |groups|
    requires target >= k * src.layout.chunkSize
    ensures var c, all := LandingIndex(groups, k, h), Flatten(groups);
            h <= |all| && c <= |all| && SeekIndex(all, h, target) == SeekIndex(all, c, target)
  {
    hide Flatten, Markers, SeekIndex;
    FlattenPrefix(groups, 0);
    NothingFlattened(groups);
    if k > 0 {
      var c := ChunkStart(groups, k);
      BeforeBoundary(src, groups, k, c);
      ChunkStartMarkers(src, groups, k);
      FirstChunkFirst(groups, k);
      SeekIndexFrom(Flatten(groups), h, c, target);
    }
  }

  lemma FirstChunkFirst(groups: seq<seq<Rec>>, k: nat)
    requires 0 < k <= |groups|
    ensures |groups[0]| <= ChunkStart(groups, k)
  {
    hide Flatten;
    FlattenPrefix(groups[..k], 0);
    assert groups[..k][..0] == [] && groups[..k][0] == groups[0];
  }
}
