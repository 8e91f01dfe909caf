/**
 * Where each instruction of a trace stands, told from the records alone: from the last record that
 * moved the program counter, on by the sizes of the opcodes since.
 */
module OpcodePCs {
  import opened Bits
  import opened Trace

  // The bytes that the opcodes of a run of records take.
  function OpcodeBytes(recs: seq<Rec>): nat {
    if recs == [] then 0
    else OpcodeBytes(recs[..|recs| - 1]) + (if IsMarker(recs[|recs| - 1]) then recs[|recs| - 1].kind.size else 0)
  }

  // Record k gives a target to the next opcode, no opcode and no other target being between it and i.
  ghost predicate TargetFor(recs: seq<Rec>, k: nat, i: nat)
    requires i <= |recs|
  {
    && k < i && recs[k].kind.PC_TARGET?
    && forall m :: k < m < i ==> !recs[m].kind.PC_TARGET? && !IsMarker(recs[m])
  }

  // The address that record gives.
  ghost predicate TargetIs(recs: seq<Rec>, i: nat, addr: nat)
    requires i <= |recs|
  {
    exists k: nat :: TargetFor(recs, k, i) && recs[k].kind.addr == addr
  }

  ghost predicate Targeted(recs: seq<Rec>, i: nat)
    requires i <= |recs|
  {
    exists k: nat :: TargetFor(recs, k, i)
  }

  // A record behind which instructions start anew: a forced PC, or an opcode that has a target.
  ghost predicate Jumps(recs: seq<Rec>, i: nat)
    requires i < |recs|
  {
    recs[i].kind.FORCE_PC? || (IsMarker(recs[i]) && Targeted(recs, i))
  }

  // Behind its first j records a trace starts at an address: 0, the forced PC, or the opcode's target.
  ghost predicate StartsAt(recs: seq<Rec>, j: nat, addr: nat)
    requires j <= |recs|
  {
    || (j == 0 && addr == 0)
    || (j > 0 && recs[j - 1].kind == FORCE_PC(addr))
    || (j > 0 && IsMarker(recs[j - 1]) && TargetIs(recs, j - 1, addr))
  }

  ghost predicate StraightFrom(recs: seq<Rec>, j: nat) {
    forall i :: j <= i < |recs| ==> !Jumps(recs, i)
  }

  // The next opcode stands n bytes behind the last jump, n being the sizes of the opcodes since.
  ghost predicate LastJump(recs: seq<Rec>, j: nat, addr: nat) {
    j <= |recs| && StartsAt(recs, j, addr) && StraightFrom(recs, j)
  }

  ghost predicate IsNextPC(recs: seq<Rec>, pc: nat) {
    exists j: nat, addr: nat :: LastJump(recs, j, addr) && pc == (addr + OpcodeBytes(recs[j..])) % U64
  }

  lemma TargetStays(recs: seq<Rec>, r: Rec)
    ensures forall k, i: nat :: i <= |recs| ==> (TargetFor(recs + [r], k, i) <==> TargetFor(recs, k, i))
  {
    var more := recs + [r];
    forall k: nat, i: nat | i <= |recs|
      ensures TargetFor(more, k, i) <==> TargetFor(recs, k, i)
    {
      assert forall m: nat :: m < i ==> more[m] == recs[m];
    }
  }

  lemma JumpsStay(recs: seq<Rec>, r: Rec)
    ensures forall j: nat, addr :: j <= |recs| ==> (StartsAt(recs + [r], j, addr) <==> StartsAt(recs, j, addr))
    ensures forall i: nat :: i < |recs| ==> (Jumps(recs + [r], i) <==> Jumps(recs, i))
    ensures Jumps(recs + [r], |recs|) <==> r.kind.FORCE_PC? || (IsMarker(r) && Targeted(recs, |recs|))
  {
    TargetStays(recs, r);
    hide TargetFor;
    var more := recs + [r];
    assert forall m: nat :: m < |recs| ==> more[m] == recs[m];
    forall i: nat | i <= |recs|
      ensures Targeted(more, i) <==> Targeted(recs, i)
    {
      if k: nat :| TargetFor(recs, k, i) {
        assert TargetFor(more, k, i);
      }
      if k: nat :| TargetFor(more, k, i) {
        assert TargetFor(recs, k, i);
      }
    }
    forall j: nat, addr: nat | j <= |recs|
      ensures StartsAt(more, j, addr) <==> StartsAt(recs, j, addr)
    {
      StartStays(recs, more, j, addr);
    }
  }

  lemma StartStays(recs: seq<Rec>, more: seq<Rec>, j: nat, addr: nat)
    requires j <= |recs| <= |more| && forall m: nat :: m < |recs| ==> more[m] == recs[m]
    requires forall k: nat, i: nat :: i <= |recs| ==> (TargetFor(more, k, i) <==> TargetFor(recs, k, i))
    ensures StartsAt(more, j, addr) <==> StartsAt(recs, j, addr)
  {
    if j > 0 && IsMarker(recs[j - 1]) {
      if TargetIs(recs, j - 1, addr) {
        var k: nat :| TargetFor(recs, k, j - 1) && recs[k].kind.addr == addr;
        TargetIsBefore(recs, k, j - 1);
        assert TargetFor(more, k, j - 1);
      }
      if TargetIs(more, j - 1, addr) {
        var k: nat :| TargetFor(more, k, j - 1) && more[k].kind.addr == addr;
        TargetIsBefore(more, k, j - 1);
        assert TargetFor(recs, k, j - 1);
      }
    }
  }

  lemma OneTarget(recs: seq<Rec>, k: nat, l: nat, i: nat)
    requires i <= |recs| && TargetFor(recs, k, i) && TargetFor(recs, l, i)
    ensures k == l
  {
  }

  /** A trace has at most one next PC. */
  lemma NextPCIsUnique(recs: seq<Rec>, p: nat, q: nat)
    requires IsNextPC(recs, p) && IsNextPC(recs, q)
    ensures p == q
  {
    hide OpcodeBytes;
    var j: nat, a: nat :| LastJump(recs, j, a) && p == (a + OpcodeBytes(recs[j..])) % U64;
    var l: nat, b: nat :| LastJump(recs, l, b) && q == (b + OpcodeBytes(recs[l..])) % U64;
    OneLastJump(recs, j, a, l, b);
  }

  lemma StartIsJump(recs: seq<Rec>, j: nat, addr: nat)
    requires 0 < j <= |recs| && StartsAt(recs, j, addr)
    ensures Jumps(recs, j - 1)
  {
  }

  lemma OneLastJump(recs: seq<Rec>, j: nat, a: nat, l: nat, b: nat)
    requires LastJump(recs, j, a) && LastJump(recs, l, b)
    ensures j == l && a == b
  {
    if j > 0 {
      StartIsJump(recs, j, a);
    }
    if l > 0 {
      StartIsJump(recs, l, b);
    }
    if j > 0 && IsMarker(recs[j - 1]) {
      var k: nat :| TargetFor(recs, k, j - 1) && recs[k].kind.addr == a;
      var m: nat :| TargetFor(recs, m, j - 1) && recs[m].kind.addr == b;
      OneTarget(recs, k, m, j - 1);
    }
  }

  // ---------------------------------------------------------------- the tracker

  /** A branch target is pending exactly when a target record follows the last opcode; the last one counts. */
  lemma {:induction false} PendingTarget(recs: seq<Rec>)
    ensures TrackAll(START, recs).isBranch <==> Targeted(recs, |recs|)
    ensures forall k: nat :: TargetFor(recs, k, |recs|) ==> TrackAll(START, recs).targetPc == recs[k].kind.addr
  {
    if recs != [] {
      var n := |recs| - 1;
      PendingTarget(recs[..n]);
      TargetStays(recs[..n], recs[n]);
      assert recs == recs[..n] + [recs[n]];
      forall k: nat
        ensures TargetFor(recs, k, n + 1) <==>
                if recs[n].kind.PC_TARGET? then k == n else !IsMarker(recs[n]) && TargetFor(recs, k, n)
      {
      }
      if recs[n].kind.PC_TARGET? {
        assert TargetFor(recs, n, n + 1);
      } else if !IsMarker(recs[n]) && TrackAll(START, recs[..n]).isBranch {
        var k: nat :| TargetFor(recs[..n], k, n);
        assert TargetFor(recs, k, n + 1);
      }
    }
  }

  lemma OpcodeBytesSnoc(recs: seq<Rec>, r: Rec, j: nat)
    requires j <= |recs|
    ensures OpcodeBytes((recs + [r])[j..]) == OpcodeBytes(recs[j..]) + if IsMarker(r) then r.kind.size else 0
  {
    var tail := (recs + [r])[j..];
    assert tail[..|tail| - 1] == recs[j..] && tail[|tail| - 1] == r;
  }

  // A record that does not jump only adds its size.
  lemma GoesStraight(recs: seq<Rec>, r: Rec, pc: nat)
    requires IsNextPC(recs, pc) && !Jumps(recs + [r], |recs|)
    ensures IsNextPC(recs + [r], (pc + if IsMarker(r) then r.kind.size else 0) % U64)
  {
    hide OpcodeBytes, Jumps, StartsAt;
    var more, size := recs + [r], if IsMarker(r) then r.kind.size else 0;
    JumpsStay(recs, r);
    var j: nat, addr: nat :| LastJump(recs, j, addr) && pc == (addr + OpcodeBytes(recs[j..])) % U64;
    OpcodeBytesSnoc(recs, r, j);
    assert LastJump(more, j, addr);
    AddMod(addr + OpcodeBytes(recs[j..]), size);
  }

  lemma AddMod(a: nat, b: nat)
    ensures (a % U64 + b) % U64 == (a + b) % U64
  {
    assert a == a / U64 * U64 + a % U64;
    var x := a % U64 + b;
    DivModUnique(a + b, U64, a / U64 + x / U64, x % U64);
  }

  lemma JumpedTo(recs: seq<Rec>, r: Rec, addr: nat)
    requires StartsAt(recs + [r], |recs| + 1, addr) && addr < U64
    ensures IsNextPC(recs + [r], addr)
  {
    var more := recs + [r];
    assert LastJump(more, |more|, addr) && OpcodeBytes(more[|more|..]) == 0;
    DivModUnique(addr, U64, 0, addr);
  }

  /** The tracker's next PC is where the records say that the next opcode stands. */
  lemma {:induction false} NextPCMeaning(recs: seq<Rec>, pc: nat)
    requires AllWellFormed(recs)
    ensures IsNextPC(recs, pc) <==> pc == TrackAll(START, recs).nextPc
  {
    TrackedIsNextPC(recs);
    if IsNextPC(recs, pc) {
      NextPCIsUnique(recs, pc, TrackAll(START, recs).nextPc);
    }
  }

  lemma {:induction false} TrackedIsNextPC(recs: seq<Rec>)
    requires AllWellFormed(recs)
    ensures IsNextPC(recs, TrackAll(START, recs).nextPc)
  {
    if recs == [] {
      assert LastJump(recs, 0, 0) && OpcodeBytes(recs[0..]) == 0;
    } else {
      hide IsNextPC, Track;
      var before, r := recs[..|recs| - 1], recs[|recs| - 1];
      assert recs == before + [r] && r in recs;
      TrackedIsNextPC(before);
      TrackedPCsAreWords(START, before);
      OneMoreTracked(before, r);
    }
  }

  lemma OneMoreTracked(recs: seq<Rec>, r: Rec)
    requires WellFormed(r) && IsWords(TrackAll(START, recs)) && IsNextPC(recs, TrackAll(START, recs).nextPc)
    ensures IsNextPC(recs + [r], Track(TrackAll(START, recs), r.kind).nextPc)
  {
    hide TrackAll, IsNextPC, StartsAt, Targeted, TargetFor, OpcodeBytes;
    var t := TrackAll(START, recs);
    PendingTarget(recs);
    JumpsStay(recs, r);
    if r.kind.FORCE_PC? {
      ForcedStart(recs, r);
      JumpedTo(recs, r, r.kind.addr);
    } else if IsMarker(r) && t.isBranch {
      TargetStart(recs, r);
      JumpedTo(recs, r, t.targetPc);
    } else {
      GoesStraight(recs, r, t.nextPc);
      DivModUnique(t.nextPc, U64, 0, t.nextPc);
    }
  }

  lemma ForcedStart(recs: seq<Rec>, r: Rec)
    requires r.kind.FORCE_PC?
    ensures StartsAt(recs + [r], |recs| + 1, r.kind.addr)
  {
  }

  lemma TargetStart(recs: seq<Rec>, r: Rec)
    requires IsMarker(r) && TrackAll(START, recs).isBranch
    ensures StartsAt(recs + [r], |recs| + 1, TrackAll(START, recs).targetPc)
  {
    hide TargetFor;
    PendingTarget(recs);
    TargetStays(recs, r);
    var k: nat :| TargetFor(recs, k, |recs|);
    assert TargetFor(recs + [r], k, |recs|);
    TargetIsBefore(recs, k, |recs|);
  }

  lemma TargetIsBefore(recs: seq<Rec>, k: nat, i: nat)
    requires i <= |recs| && TargetFor(recs, k, i)
    ensures k < i
  {
  }

  /**
   * The PC of every opcode of a trace: the last record before it that jumps gives an address, and
   * the opcodes between, by their sizes, lead from there to it.
   */
  lemma OpcodePC(recs: seq<Rec>, i: nat)
    requires AllWellFormed(recs) && i < |recs| && IsMarker(recs[i])
    ensures IsNextPC(recs[..i], TrackAll(START, recs[..i + 1]).pc)
  {
    hide TrackAll, IsNextPC;
    OpcodeTracked(recs, i);
    NextPCMeaning(recs[..i], TrackAll(START, recs[..i]).nextPc);
  }

  lemma {:induction false} FlattenWellFormed(parts: seq<seq<Rec>>)
    requires forall k :: 0 <= k < |parts| ==> AllWellFormed(parts[k])
    ensures AllWellFormed(Flatten(parts))
  {
    if parts != [] {
      FlattenWellFormed(parts[..|parts| - 1]);
    }
  }

  lemma OpcodeTracked(recs: seq<Rec>, i: nat)
    requires i < |recs| && IsMarker(recs[i])
    ensures TrackAll(START, recs[..i + 1]).pc == TrackAll(START, recs[..i]).nextPc
  {
    assert recs[..i + 1][..|recs[..i + 1]| - 1] == recs[..i];
  }
}
