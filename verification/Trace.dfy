/**
 * Records as the streams see them, the program counter tracker that follows them, and the division
 * of a record stream into chunks of a fixed number of marker records.
 */
module Trace {
  import opened Bits

  type Byte = b: int | 0 <= b < 256

  // What a record means to the stream: opcodes are the marker records.
  datatype Kind = OPCODE(size: nat) | PC_TARGET(addr: nat) | FORCE_PC(addr: nat) | PLAIN

  // A record is written, and read back, one field at a time; the first field is its descriptor.
  datatype Rec = Rec(kind: Kind, fields: seq<seq<Byte>>)

  predicate IsMarker(r: Rec) { r.kind.OPCODE? }

  // Every record has a descriptor, and an opcode ends with its opcode bytes.
  predicate WellFormed(r: Rec) {
    && r.fields != [] && r.fields[0] != []
    && (IsMarker(r) ==> r.fields[|r.fields| - 1] != [])
    && (r.kind.PC_TARGET? || r.kind.FORCE_PC? ==> r.kind.addr < U64)
  }

  ghost predicate AllWellFormed(recs: seq<Rec>) { forall r :: r in recs ==> WellFormed(r) }

  function Flatten<T>(parts: seq<seq<T>>): seq<T> {
    if parts == [] then [] else Flatten(parts[..|parts| - 1]) + parts[|parts| - 1]
  }

  lemma {:induction false} FlattenConcat<T>(a: seq<seq<T>>, b: seq<seq<T>>)
    ensures Flatten(a + b) == Flatten(a) + Flatten(b)
  {
    if b == [] {
      assert a + b == a;
    } else {
      var n := |b| - 1;
      assert (a + b)[..|a + b| - 1] == a + b[..n];
      FlattenConcat(a, b[..n]);
    }
  }

  lemma FlattenOne<T>(a: seq<T>)
    ensures Flatten([a]) == a
  {
    assert [a][..0] == [];
  }

  function RecBytes(r: Rec): seq<Byte> { Flatten(r.fields) }

  function Bytes(recs: seq<Rec>): seq<Byte> {
    if recs == [] then [] else Bytes(recs[..|recs| - 1]) + RecBytes(recs[|recs| - 1])
  }

  lemma {:induction false} BytesConcat(a: seq<Rec>, b: seq<Rec>)
    ensures Bytes(a + b) == Bytes(a) + Bytes(b)
  {
    if b == [] {
      assert a + b == a;
    } else {
      var n := |b| - 1;
      assert (a + b)[..|a + b| - 1] == a + b[..n];
      BytesConcat(a, b[..n]);
    }
  }

  lemma BytesOne(r: Rec)
    ensures Bytes([r]) == RecBytes(r)
  {
    assert [r][..0] == [];
  }

  function Markers(recs: seq<Rec>): (n: nat)
    ensures n <= |recs|
  {
    if recs == [] then 0
    else Markers(recs[..|recs| - 1]) + (if IsMarker(recs[|recs| - 1]) then 1 else 0)
  }

  lemma {:induction false} MarkersConcat(a: seq<Rec>, b: seq<Rec>)
    ensures Markers(a + b) == Markers(a) + Markers(b)
  {
    if b == [] {
      assert a + b == a;
    } else {
      var n := |b| - 1;
      assert (a + b)[..|a + b| - 1] == a + b[..n];
      MarkersConcat(a, b[..n]);
    }
  }

  // ---------------------------------------------------------------- program counter tracking

  datatype Tracker = Tracker(pc: nat, nextPc: nat, targetPc: nat, isBranch: bool)

  const START: Tracker := Tracker(0, 0, 0, false)

  function Track(t: Tracker, k: Kind): Tracker {
    match k
    case OPCODE(size) =>
      if t.isBranch then Tracker(t.nextPc, t.targetPc, t.targetPc, false)
      else Tracker(t.nextPc, (t.nextPc + size) % U64, t.targetPc, false)
    case PC_TARGET(addr) => t.(targetPc := addr, isBranch := true)
    case FORCE_PC(addr) => t.(nextPc := addr)
    case PLAIN => t
  }

  function TrackAll(t: Tracker, recs: seq<Rec>): Tracker {
    if recs == [] then t else Track(TrackAll(t, recs[..|recs| - 1]), recs[|recs| - 1].kind)
  }

  lemma {:induction false} TrackAllConcat(t: Tracker, a: seq<Rec>, b: seq<Rec>)
    ensures TrackAll(t, a + b) == TrackAll(TrackAll(t, a), b)
  {
    if b == [] {
      assert a + b == a;
    } else {
      var n := |b| - 1;
      assert (a + b)[..|a + b| - 1] == a + b[..n];
      TrackAllConcat(t, a, b[..n]);
    }
  }

  predicate IsWords(t: Tracker) { t.nextPc < U64 && t.targetPc < U64 }

  lemma {:induction false} TrackedPCsAreWords(t: Tracker, recs: seq<Rec>)
    requires IsWords(t) && AllWellFormed(recs)
    ensures IsWords(TrackAll(t, recs))
  {
    if recs != [] {
      TrackedPCsAreWords(t, recs[..|recs| - 1]);
      assert recs[|recs| - 1] in recs;
    }
  }

  // What PCTracker::forcePC leaves: a pending branch target is not cancelled.
  function ForcePC(t: Tracker, pc: nat): Tracker { t.(pc := pc, nextPc := pc) }

  // Two trackers that no later record can tell apart by the PC of an opcode.
  predicate SamePCs(a: Tracker, b: Tracker) {
    a.nextPc == b.nextPc && a.isBranch == b.isBranch && (a.isBranch ==> a.targetPc == b.targetPc)
  }

  lemma {:induction false} SamePCsStay(a: Tracker, b: Tracker, recs: seq<Rec>)
    requires SamePCs(a, b)
    ensures SamePCs(TrackAll(a, recs), TrackAll(b, recs))
    ensures recs != [] && IsMarker(recs[|recs| - 1]) ==> TrackAll(a, recs).pc == TrackAll(b, recs).pc
  {
    if recs != [] {
      SamePCsStay(a, b, recs[..|recs| - 1]);
    }
  }

  /** Forcing the stored PC resumes a boundary tracker exactly when no branch target is pending. */
  lemma ForcePCResumesExactly(current: Tracker, boundary: Tracker)
    requires !boundary.isBranch
    ensures SamePCs(ForcePC(current, boundary.nextPc), boundary) <==> !current.isBranch
  {
  }

  lemma NoBranchAfterMarker(t: Tracker, recs: seq<Rec>)
    requires recs != [] && IsMarker(recs[|recs| - 1])
    ensures !TrackAll(t, recs).isBranch
  {
  }

  // ---------------------------------------------------------------- chunks

  // Finished chunks, and the records of the chunk still open.
  datatype Split = Split(done: seq<seq<Rec>>, open: seq<Rec>)

  /** Records are added to the open chunk until it holds the given number of markers. */
  function SplitAt(recs: seq<Rec>, size: nat): Split {
    if recs == [] then Split([], [])
    else
      var before, last := SplitAt(recs[..|recs| - 1], size), recs[|recs| - 1];
      var open := before.open + [last];
      if IsMarker(last) && Markers(open) >= size then Split(before.done + [open], []) else Split(before.done, open)
  }

  predicate FullChunk(chunk: seq<Rec>, size: nat) {
    chunk != [] && IsMarker(chunk[|chunk| - 1]) && Markers(chunk) == size
  }

  lemma MarkersSnoc(recs: seq<Rec>, r: Rec)
    ensures Markers(recs + [r]) == Markers(recs) + (if IsMarker(r) then 1 else 0)
  {
    assert (recs + [r])[..|recs + [r]| - 1] == recs;
  }

  lemma FlattenSnoc<T>(parts: seq<seq<T>>, p: seq<T>)
    ensures Flatten(parts + [p]) == Flatten(parts) + p
  {
    assert (parts + [p])[..|parts + [p]| - 1] == parts;
  }

  // A split of the records into full chunks and an open one that is not full.
  ghost predicate Divides(s: Split, recs: seq<Rec>, size: nat) {
    && Flatten(s.done) + s.open == recs
    && (forall c :: c in s.done ==> FullChunk(c, size))
    && Markers(s.open) < size
    && Markers(recs) == |s.done| * size + Markers(s.open)
  }

  lemma OneMoreRecord(before: Split, prefix: seq<Rec>, last: Rec, size: nat)
    requires size >= 1 && Divides(before, prefix, size)
    ensures var open := before.open + [last];
            if IsMarker(last) && Markers(open) >= size
              then Divides(Split(before.done + [open], []), prefix + [last], size)
            else Divides(Split(before.done, open), prefix + [last], size)
  {
    hide Flatten, Markers;
    var open := before.open + [last];
    MarkersSnoc(before.open, last);
    MarkersSnoc(prefix, last);
    NoMarkers();
    FlattenSnoc(before.done, open);
    assert (Flatten(before.done) + before.open) + [last] == Flatten(before.done) + open;
    assert (Flatten(before.done) + open) + [] == Flatten(before.done) + open;
    OneMore(|before.done|, size);
  }

  lemma NoMarkers()
    ensures Markers([]) == 0
  {
  }

  lemma OneMore(n: nat, size: nat)
    ensures (n + 1) * size == n * size + size
  {
  }

  /** Every finished chunk holds exactly the given number of markers and ends on one; nothing is lost. */
  lemma {:induction false} SplitMeaning(recs: seq<Rec>, size: nat)
    requires size >= 1
    ensures Divides(SplitAt(recs, size), recs, size)
  {
    hide Markers;
    if recs == [] {
      NoMarkers();
    } else {
      hide Divides;
      var prefix, last := recs[..|recs| - 1], recs[|recs| - 1];
      SplitMeaning(prefix, size);
      OneMoreRecord(SplitAt(prefix, size), prefix, last, size);
      assert recs == prefix + [last];
    }
  }

  /** The chunks a closed file holds: an open chunk is kept only when it ends on a marker. */
  function Kept(s: Split): seq<seq<Rec>> {
    if s.open != [] && IsMarker(s.open[|s.open| - 1]) then s.done + [s.open] else s.done
  }
}
