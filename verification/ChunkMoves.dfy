/**
 * Clients that move in a trace while the prefetch task runs: any run of reads, seeks, rewinds and
 * seeks from an offset, under every interleaving of its calls with the task's steps.
 */
module ChunkMoves {
  import Bits
  import opened Trace
  import ChunkFile
  import ChunkWriter
  import opened ChunkPlaces
  import opened ChunkReader
  import opened ChunkSeek
  import opened ChunkTrace

  // Reading records up to an index; jumping to a chunk and reading from there up to an index.
  datatype Move = READ_TO(to: nat) | JUMP_TO(chunk: nat, to: nat)

  // The first record that a move reads.
  function MovesFrom(groups: seq<seq<Rec>>, h: nat, at: nat, m: Move): nat
    requires m.JUMP_TO? ==> m.chunk <= |groups|
  {
    if m.JUMP_TO? then LandingIndex(groups, m.chunk, h) else at
  }

  // The records exist, and no branch target is pending where a jump starts.
  predicate CanMove(groups: seq<seq<Rec>>, h: nat, at: nat, m: Move) {
    && at <= |Flatten(groups)|
    && (m.JUMP_TO? ==> m.chunk < |groups| && !TrackAll(START, Flatten(groups)[..at]).isBranch)
    && MovesFrom(groups, h, at, m) <= m.to <= |Flatten(groups)|
  }

  function RecordsOf(groups: seq<seq<Rec>>, h: nat, at: nat, m: Move): seq<Rec>
    requires CanMove(groups, h, at, m)
  {
    Between(Flatten(groups), MovesFrom(groups, h, at, m), m.to)
  }

  function JumpOps(m: Move): seq<Op> { if m.JUMP_TO? then [CANCEL, JUMP(m.chunk)] else [] }

  predicate CanMoveAll(groups: seq<seq<Rec>>, h: nat, at: nat, moves: seq<Move>)
    decreases |moves|
  {
    moves == [] || (CanMove(groups, h, at, moves[0]) && CanMoveAll(groups, h, moves[0].to, moves[1..]))
  }

  /** The calls that a run of moves makes. */
  function MovesOps(groups: seq<seq<Rec>>, h: nat, at: nat, moves: seq<Move>): seq<Op>
    requires CanMoveAll(groups, h, at, moves)
    decreases |moves|
  {
    if moves == [] then []
    else
      JumpOps(moves[0]) + OpsOf(RecordsOf(groups, h, at, moves[0])) + MovesOps(groups, h, moves[0].to, moves[1..])
  }

  /** The records that a run of moves asks for, and the place where it ends. */
  function MovesRecords(groups: seq<seq<Rec>>, h: nat, at: nat, moves: seq<Move>): seq<Rec>
    requires CanMoveAll(groups, h, at, moves)
    decreases |moves|
  {
    if moves == [] then []
    else RecordsOf(groups, h, at, moves[0]) + MovesRecords(groups, h, moves[0].to, moves[1..])
  }

  function MovesEnd(at: nat, moves: seq<Move>): nat {
    if moves == [] then at else moves[|moves| - 1].to
  }

  // A reader that stands somewhere has no branch target pending when the records behind it leave none.
  lemma NoBranchWhereItStands(src: Source, groups: seq<seq<Rec>>, at: nat, s: Reader)
    requires NoneEmpty(groups) && at <= |Flatten(groups)|
    requires |groups| == |src.layout.index| && StandsAt(src, groups, at, s)
    ensures s.tracker.isBranch == TrackAll(START, Flatten(groups)[..at]).isBranch
  {
    hide Flatten, PosAt, TrackAll, Bytes, Markers, IoAt;
    BeforeIsPrefix(groups, PosAt(groups, at));
  }

  // The two calls of a jump, synchronously.
  lemma JumpIs(src: Source, s: Reader, k: nat)
    requires Resting(s.io) && (src.prefetch || s.io.phase.NONE?) && k < |src.layout.index|
    ensures var jump := [CANCEL, JUMP(k)];
            && UndisturbedRun(src, s, jump)
            && Sync(src, s, jump) == Outcome(Settle(src, SeekToChunk(src, CancelCurrentChunks(src, s), k)), [])
  {
    hide CancelCurrentChunks, SeekToChunk, Settle;
    CancelRests(src, s);
    var cancelled := CancelCurrentChunks(src, s);
    SettledAlready(src, cancelled);
    SyncOne(src, s, CANCEL);
    SyncOne(src, cancelled, JUMP(k));
    SyncConcat(src, s, [CANCEL], [JUMP(k)]);
    assert [CANCEL] + [JUMP(k)] == [CANCEL, JUMP(k)];
  }

  // A jump stands where the chunk's records begin.
  lemma Jumped(src: Source, groups: seq<seq<Rec>>, h: nat, k: nat, s: Reader)
    requires Holds(src, groups) && NoneEmpty(groups) && k < |groups| && (k == 0 ==> HeaderEnds(src, groups, h))
    requires Resting(s.io) && (src.prefetch || s.io.phase.NONE?) && !s.tracker.isBranch
    ensures var c, r := LandingIndex(groups, k, h), Sync(src, s, [CANCEL, JUMP(k)]);
            && c < |Flatten(groups)| && |groups| == |src.layout.index|
            && r.results == [] && UndisturbedRun(src, s, [CANCEL, JUMP(k)]) && StandsAt(src, groups, c, r.reader)
  {
    hide Holds, NoneEmpty, HeaderEnds, StandsAt, Flatten, PosAt, Markers, CancelCurrentChunks, SeekToChunk, Settle,
         Sync, UndisturbedRun;
    Sizes(src, groups);
    CancelRests(src, s);
    JumpIs(src, s, k);
    JumpStands(src, groups, k, h, CancelCurrentChunks(src, s));
  }

  lemma SettledAlready(src: Source, s: Reader)
    requires s.io.phase.NONE?
    ensures Settle(src, s) == s
  {
  }

  // What the synchronous reader does when asked for some calls: the records' fields, up to a place.
  ghost predicate Delivers(src: Source, groups: seq<seq<Rec>>, s: Reader, ops: seq<Op>, recs: seq<Rec>, to: nat)
    requires NoneEmpty(groups) && to <= |Flatten(groups)| && |groups| == |src.layout.index| && Resting(s.io)
  {
    && UndisturbedRun(src, s, ops) && Sync(src, s, ops).results == FieldsOf(recs)
    && StandsAt(src, groups, to, Sync(src, s, ops).reader)
  }

  lemma OneMove(src: Source, groups: seq<seq<Rec>>, h: nat, at: nat, s: Reader, m: Move)
    requires Holds(src, groups) && NoneEmpty(groups) && HeaderEnds(src, groups, h) && CanMove(groups, h, at, m)
    requires |groups| == |src.layout.index| && StandsAt(src, groups, at, s) && Resting(s.io)
    ensures Delivers(src, groups, s, JumpOps(m) + OpsOf(RecordsOf(groups, h, at, m)), RecordsOf(groups, h, at, m), m.to)
  {
    hide Holds, NoneEmpty, HeaderEnds, StandsAt, Flatten, PosAt, Sync, UndisturbedRun, OpsOf, FieldsOf, Between,
         TrackAll, LandingIndex;
    var from, ops := MovesFrom(groups, h, at, m), OpsOf(RecordsOf(groups, h, at, m));
    if m.JUMP_TO? {
      NoBranchWhereItStands(src, groups, at, s);
      NotPrefetchingRests(src, groups, at, s);
      Jumped(src, groups, h, m.chunk, s);
      var t := Sync(src, s, [CANCEL, JUMP(m.chunk)]).reader;
      RecordsRead(src, groups, from, m.to, t);
      SyncConcat(src, s, [CANCEL, JUMP(m.chunk)], ops);
      assert [] + FieldsOf(RecordsOf(groups, h, at, m)) == FieldsOf(RecordsOf(groups, h, at, m));
    } else {
      RecordsRead(src, groups, at, m.to, s);
      assert [] + ops == ops;
    }
  }

  lemma {:induction false} FieldsConcat(a: seq<Rec>, b: seq<Rec>)
    ensures FieldsOf(a + b) == FieldsOf(a) + FieldsOf(b)
  {
    if b == [] {
      assert a + b == a;
    } else {
      var n := |b| - 1;
      assert (a + b)[..|a + b| - 1] == a + b[..n];
      FieldsConcat(a, b[..n]);
    }
  }

  lemma DeliversTwice(src: Source, groups: seq<seq<Rec>>, s: Reader, ops: seq<Op>, recs: seq<Rec>, mid: nat,
                      more: seq<Op>, moreRecs: seq<Rec>, to: nat)
    requires NoneEmpty(groups) && mid <= |Flatten(groups)| && to <= |Flatten(groups)| && |groups| == |src.layout.index|
    requires Resting(s.io) && Delivers(src, groups, s, ops, recs, mid)
    requires Delivers(src, groups, Sync(src, s, ops).reader, more, moreRecs, to)
    ensures Delivers(src, groups, s, ops + more, recs + moreRecs, to)
  {
    hide StandsAt, Flatten, Sync, UndisturbedRun, FieldsOf;
    SyncConcat(src, s, ops, more);
    FieldsConcat(recs, moreRecs);
  }

  lemma NoMoves(src: Source, groups: seq<seq<Rec>>, at: nat, s: Reader)
    requires NoneEmpty(groups) && at <= |Flatten(groups)| && |groups| == |src.layout.index|
    requires Resting(s.io) && StandsAt(src, groups, at, s)
    ensures Delivers(src, groups, s, [], [], at)
  {
    hide StandsAt;
  }

  lemma {:induction false} AllMoves(src: Source, groups: seq<seq<Rec>>, h: nat, at: nat, s: Reader, moves: seq<Move>)
    requires Holds(src, groups) && NoneEmpty(groups) && HeaderEnds(src, groups, h) && CanMoveAll(groups, h, at, moves)
    requires |groups| == |src.layout.index| && at <= |Flatten(groups)| && StandsAt(src, groups, at, s) && Resting(s.io)
    ensures MovesEnd(at, moves) <= |Flatten(groups)|
    ensures Delivers(src, groups, s, MovesOps(groups, h, at, moves), MovesRecords(groups, h, at, moves),
                     MovesEnd(at, moves))
    decreases |moves|
  {
    hide Holds, NoneEmpty, HeaderEnds, StandsAt, Flatten, Sync, OpsOf, RecordsOf, CanMove, JumpOps, Delivers;
    if moves == [] {
      NoMoves(src, groups, at, s);
    } else {
      var m := moves[0];
      InReach(groups, h, at, m);
      OneMove(src, groups, h, at, s, m);
      var ops := JumpOps(m) + OpsOf(RecordsOf(groups, h, at, m));
      StandsThere(src, groups, s, ops, RecordsOf(groups, h, at, m), m.to);
      var t := Sync(src, s, ops).reader;
      AllMoves(src, groups, h, m.to, t, moves[1..]);
      DeliversTwice(src, groups, s, ops, RecordsOf(groups, h, at, m), m.to, MovesOps(groups, h, m.to, moves[1..]),
                    MovesRecords(groups, h, m.to, moves[1..]), MovesEnd(at, moves));
    }
  }

  lemma InReach(groups: seq<seq<Rec>>, h: nat, at: nat, m: Move)
    requires CanMove(groups, h, at, m)
    ensures m.to <= |Flatten(groups)|
  {
  }

  lemma StandsThere(src: Source, groups: seq<seq<Rec>>, s: Reader, ops: seq<Op>, recs: seq<Rec>, to: nat)
    requires NoneEmpty(groups) && to <= |Flatten(groups)| && |groups| == |src.layout.index| && Resting(s.io)
    requires Delivers(src, groups, s, ops, recs, to)
    ensures StandsAt(src, groups, to, Sync(src, s, ops).reader) && Resting(Sync(src, s, ops).reader.io)
  {
  }

  /**
   * However the prefetch task's steps fall between the calls of a run of reads and jumps, the client
   * gets exactly the fields of the records it asked for, in order, and stands behind the last one.
   */
  lemma MovesUnderEveryInterleaving(src: Source, groups: seq<seq<Rec>>, h: nat, at: nat, s: Reader, moves: seq<Move>,
                                    script: seq<Step>)
    requires src.prefetch && Holds(src, groups) && NoneEmpty(groups) && HeaderEnds(src, groups, h)
    requires |groups| == |src.layout.index| && at <= |Flatten(groups)| && StandsAt(src, groups, at, Settle(src, s))
    requires CanMoveAll(groups, h, at, moves) && Calls(script) == MovesOps(groups, h, at, moves)
    ensures MovesEnd(at, moves) <= |Flatten(groups)|
    ensures var r := Exec(src, s, script);
            && r.results == FieldsOf(MovesRecords(groups, h, at, moves))
            && StandsAt(src, groups, MovesEnd(at, moves), Settle(src, r.reader))
  {
    hide Holds, NoneEmpty, HeaderEnds, Flatten, StandsAt, Exec, Settle, Sync, UndisturbedRun, MovesOps, MovesRecords,
         CanMoveAll, FieldsOf;
    AllMoves(src, groups, h, at, Settle(src, s), moves);
    EveryInterleavingIsSynchronous(src, s, script);
  }

  // ---------------------------------------------------------------- a seek is a move

  /** The move that a seek by a number of markers makes. */
  function SeekMove(src: Source, groups: seq<seq<Rec>>, at: nat, s: Reader, n: nat): Move
    requires at <= |Flatten(groups)| && src.layout.chunkSize >= 1
  {
    var target := s.markers + n;
    var to := SeekIndex(Flatten(groups), at, target);
    Bits.QuotientIsNat(target, src.layout.chunkSize);
    if target < s.nextEnd then READ_TO(to) else JUMP_TO(target / src.layout.chunkSize, to)
  }

  lemma {:induction false} OpsConcat(a: seq<Rec>, b: seq<Rec>)
    ensures OpsOf(a + b) == OpsOf(a) + OpsOf(b)
  {
    hide ReadOps;
    if b == [] {
      assert a + b == a;
    } else {
      var n := |b| - 1;
      assert (a + b)[..|a + b| - 1] == a + b[..n];
      OpsConcat(a, b[..n]);
    }
  }

  lemma OpsOfNext(all: seq<Rec>, a: nat, b: nat)
    requires a < b <= |all|
    ensures OpsOf(Between(all, a, b)) == ReadOps(all[a]) + OpsOf(Between(all, a + 1, b))
  {
    hide ReadOps;
    assert all[a..b] == [all[a]] + all[a + 1..b];
    OpsConcat([all[a]], all[a + 1..b]);
    assert OpsOf([all[a]]) == ReadOps(all[a]) by {
      assert [all[a]][..0] == [];
      assert [] + ReadOps(all[a]) == ReadOps(all[a]);
    }
  }

  /** A slow seek that goes through is the reading of the records up to the place it is after. */
  lemma {:induction false} SlowSeekIsReading(src: Source, groups: seq<seq<Rec>>, a: nat, s: Reader, target: nat)
    requires Holds(src, groups) && NoneEmpty(groups) && a <= |Flatten(groups)| && StandsAt(src, groups, a, s)
    ensures Resting(s.io)
    ensures var all := Flatten(groups);
            SlowSeek(src, s, target, all[a..]).ok ==>
              SlowSeek(src, s, target, all[a..]).reader
              == Sync(src, s, OpsOf(Between(all, a, SeekIndex(all, a, target)))).reader
    decreases |Flatten(groups)| - a
  {
    hide Holds, StandsAt, NoneEmpty, Sync, ReadOps, Markers, Flatten, SlowSeek, SeekIndex, OpsOf;
    var all := Flatten(groups);
    Sizes(src, groups);
    StandsAtRests(src, groups, a, s);
    if a < |all| && s.markers < target {
      SlowSeekGoesOn(src, groups, a, s, target);
      var t := Sync(src, s, ReadOps(all[a])).reader;
      SlowSeekIsReading(src, groups, a + 1, t, target);
      var b := SeekIndex(all, a + 1, target);
      OpsOfNext(all, a, b);
      SyncConcat(src, s, ReadOps(all[a]), OpsOf(Between(all, a + 1, b)));
    } else {
      StopsAtOnce(src, groups, a, s, target);
      NothingRead(src, s, all, a);
    }
  }

  lemma StopsAtOnce(src: Source, groups: seq<seq<Rec>>, a: nat, s: Reader, target: nat)
    requires Holds(src, groups) && NoneEmpty(groups) && a <= |Flatten(groups)| && StandsAt(src, groups, a, s)
    requires a == |Flatten(groups)| || s.markers >= target
    ensures var all := Flatten(groups);
            && Resting(s.io) && SeekIndex(all, a, target) == a
            && (SlowSeek(src, s, target, all[a..]).ok ==> SlowSeek(src, s, target, all[a..]).reader == s)
  {
    StandsAtRests(src, groups, a, s);
    MarkersBehind(src, groups, a, s);
    Sizes(src, groups);
    hide Holds, StandsAt, NoneEmpty, Markers, Flatten;
  }

  /** A seek that goes through makes the calls of its move, and nothing else. */
  lemma SeekIsMove(src: Source, groups: seq<seq<Rec>>, h: nat, a: nat, s: Reader, n: nat)
    requires Holds(src, groups) && NoneEmpty(groups) && a <= |Flatten(groups)| && StandsAt(src, groups, a, s)
    requires !s.tracker.isBranch && CanSeek(src, groups, a, s, n)
    ensures src.layout.chunkSize >= 1 && |groups| == |src.layout.index| && Resting(s.io)
    ensures var all, m := Flatten(groups), SeekMove(src, groups, a, s, n);
            && CanMove(groups, h, a, m)
            && Seek(src, groups, s, n, all[a..]).reader
               == Sync(src, s, JumpOps(m) + OpsOf(RecordsOf(groups, h, a, m))).reader
  {
    hide Holds, NoneEmpty, StandsAt, Flatten, Markers, PosAt, Sync, OpsOf, SlowSeek, SeekIndex, Seek, CanSeek, TrackAll;
    Sizes(src, groups);
    StandsAtRests(src, groups, a, s);
    NoBranchWhereItStands(src, groups, a, s);
    FastSeekIsSlowSeek(src, groups, a, s, n);
    if s.markers + n < s.nextEnd {
      ShortSeekIsMove(src, groups, h, a, s, n);
    } else {
      LongSeekIsMove(src, groups, h, a, s, n);
    }
  }

  lemma ShortSeekIsMove(src: Source, groups: seq<seq<Rec>>, h: nat, a: nat, s: Reader, n: nat)
    requires Holds(src, groups) && NoneEmpty(groups) && a <= |Flatten(groups)| && StandsAt(src, groups, a, s)
    requires src.layout.chunkSize >= 1 && |groups| == |src.layout.index| && Resting(s.io)
    requires s.markers + n < s.nextEnd && Seek(src, groups, s, n, Flatten(groups)[a..]).ok
    ensures var all, m := Flatten(groups), SeekMove(src, groups, a, s, n);
            && CanMove(groups, h, a, m)
            && Seek(src, groups, s, n, all[a..]).reader
               == Sync(src, s, JumpOps(m) + OpsOf(RecordsOf(groups, h, a, m))).reader
  {
    hide Holds, NoneEmpty, StandsAt, Flatten, Sync, OpsOf, SlowSeek, SeekIndex;
    SlowSeekIsReading(src, groups, a, s, s.markers + n);
    var ops := OpsOf(Between(Flatten(groups), a, SeekIndex(Flatten(groups), a, s.markers + n)));
    assert [] + ops == ops;
  }

  lemma LongSeekIsMove(src: Source, groups: seq<seq<Rec>>, h: nat, a: nat, s: Reader, n: nat)
    requires Holds(src, groups) && NoneEmpty(groups) && a <= |Flatten(groups)| && StandsAt(src, groups, a, s)
    requires src.layout.chunkSize >= 1 && |groups| == |src.layout.index| && Resting(s.io)
    requires !s.tracker.isBranch && !TrackAll(START, Flatten(groups)[..a]).isBranch
    requires s.markers + n >= s.nextEnd && Seek(src, groups, s, n, Flatten(groups)[a..]).ok
    ensures var all, m := Flatten(groups), SeekMove(src, groups, a, s, n);
            && CanMove(groups, h, a, m)
            && Seek(src, groups, s, n, all[a..]).reader
               == Sync(src, s, JumpOps(m) + OpsOf(RecordsOf(groups, h, a, m))).reader
  {
    hide Holds, NoneEmpty, StandsAt, Flatten, Sync, OpsOf, SlowSeek, SeekIndex, Markers, TrackAll, CancelCurrentChunks,
         SeekToChunk, Settle, Between, ChunkStart, PosAt, UndisturbedRun;
    var all, target := Flatten(groups), s.markers + n;
    var k := target / src.layout.chunkSize;
    NotPrefetchingRests(src, groups, a, s);
    MarkersBehind(src, groups, a, s);
    if k >= |groups| {
      SeekPastEnd(src, groups, s, target, all[a..]);
    } else {
      JumpIsOnTheWay(src, groups, a, s, target);
      var c := ChunkStart(groups, k);
      CancelRests(src, s);
      var cancelled := CancelCurrentChunks(src, s);
      JumpStands(src, groups, k, h, cancelled);
      var t := Settle(src, SeekToChunk(src, cancelled, k));
      Jumped(src, groups, h, k, s);
      JumpIs(src, s, k);
      MarkersBehind(src, groups, c, t);
      SeekByJump(src, groups, s, t, c, target, all[a..]);
      SlowSeekIsReading(src, groups, c, t, target);
      SyncConcat(src, s, [CANCEL, JUMP(k)], OpsOf(Between(all, c, SeekIndex(all, c, target))));
    }
  }

  // ---------------------------------------------------------------- a seek that is refused

  // A trace of one instruction, in one chunk that it fills.
  const ONE_OPCODE: seq<Rec> := [Rec(OPCODE(4), [[240], [19]])]

  function Plain(): (c: ChunkFile.Codec)
    ensures ChunkFile.Lossless(c)
  {
    ChunkFile.Codec(b => b, b => b)
  }

  function OneChunk(): Source {
    Source(ChunkFile.FileOf(Plain(), 1, ChunkWriter.ChunksOf([ONE_OPCODE])), Plain(),
           LayoutOf(Plain(), 1, [ONE_OPCODE], 0), 0, true)
  }

  lemma OneInstruction()
    ensures Flatten([ONE_OPCODE]) == ONE_OPCODE && Markers(ONE_OPCODE) == 1 && Markers(ONE_OPCODE[..0]) == 0
    ensures SeekIndex(ONE_OPCODE, 0, 1) == 1 && AllWellFormed(ONE_OPCODE)
    ensures ChunkWriter.MarkerTerminated([ONE_OPCODE], 1)
  {
    FlattenOne(ONE_OPCODE);
    assert ONE_OPCODE[..0] == [] && ONE_OPCODE[..1] == ONE_OPCODE;
    assert Markers(ONE_OPCODE) == 1;
  }

  /**
   * At the start of that trace, a seek by one marker throws, although there is a marker to pass and
   * reading one record at a time passes it.
   */
  lemma EndOfFullTraceIsRefused()
    ensures var src, groups := OneChunk(), [ONE_OPCODE];
            && Holds(src, groups) && NoneEmpty(groups) && |groups| == |src.layout.index|
            && Flatten(groups) == ONE_OPCODE
            && src.layout.chunkSize == 1
            && var s := Settle(src, OpenReader(src, 0));
               && StandsAt(src, groups, 0, s) && !Seek(src, groups, s, 1, ONE_OPCODE).ok
               && SlowSeek(src, s, 1, ONE_OPCODE).ok
               && StandsAt(src, groups, 1, SlowSeek(src, s, 1, ONE_OPCODE).reader)
  {
    hide Holds, StandsAt, Flatten, Markers, SeekIndex, Seek, SlowSeek, OpenReader, Settle, PosAt, BoundaryAhead,
         TrackAll, Plain, LayoutOf, ChunkFile.FileOf, ChunkWriter.ChunksOf, ChunkWriter.MarkerTerminated, AllWellFormed;
    var src, groups := OneChunk(), [ONE_OPCODE];
    OneInstruction();
    WrittenFileHolds(Plain(), 1, groups, 0, 0, true);
    SizeOfLayout();
    Sizes(src, groups);
    OpenStandsAtStart(src, groups, 0);
    var s := Settle(src, OpenReader(src, 0));
    assert ONE_OPCODE[0..] == ONE_OPCODE;
    SlowSeekLands(src, groups, 0, s, 1);
    MarkersBehind(src, groups, 0, s);
    NoBranchWhereItStands(src, groups, 0, s);
    NoBranchYet();
    FastSeekIsSlowSeek(src, groups, 0, s, 1);
  }

  lemma SizeOfLayout()
    ensures OneChunk().layout.chunkSize == 1
  {
  }

  lemma NoBranchYet()
    ensures !TrackAll(START, ONE_OPCODE[..0]).isBranch
  {
    assert ONE_OPCODE[..0] == [];
  }
}
