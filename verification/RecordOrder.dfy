/**
 * The order of records in an instruction's group: the generator that writes a group, and the check
 * that the writer makes on every record.
 */
module RecordOrder {
  import opened FlatMaps
  import opened Descriptors
  import opened Records

  // ---------------------------------------------------------------- the writer's check

  // What the writer remembers between records.
  datatype Order = Order(last: Descriptor, wroteEventGroup: bool, wrotePageTableWalk: bool, wroteReg: bool,
                         headerStarted: bool, headerFinalized: bool)

  predicate IsInstructionRecord(d: Descriptor) { d.INST_OPCODE16? || d.INST_OPCODE32? }

  // A record may follow the last one by its place in trace order, or by one of the exceptions to it.
  predicate InOrder(s: Order, d: Descriptor) {
    && (s.last.INST_MEM_ACCESS? ==> d.INST_MEM_CONTENT?)
    && (s.last.BUS_MASTER_ACCESS? ==> d.BUS_MASTER_CONTENT?)
    && (|| ToEncoded(d) >= ToEncoded(s.last)
        || IsInstructionRecord(s.last)
        || (s.last.INST_MEM_CONTENT? && d.INST_MEM_ACCESS?)
        || (s.last.BUS_MASTER_CONTENT? && d.BUS_MASTER_ACCESS?)
        || (s.wroteEventGroup && d.EVENT?)
        || ((s.wrotePageTableWalk || s.wroteReg) && d.INST_PC_TARGET?)
        || (s.wrotePageTableWalk && d.INST_REG?)
        || ((s.last.INST_MEM_CONTENT? || s.last.BUS_MASTER_CONTENT?) && d.INST_REG?)
        || d.COMMENT? || d.PROCESS_ID_EXT? || d.FORCE_PC?)
  }

  // A record belongs in the header, after it, or in both.
  predicate InPlace(s: Order, d: Descriptor) {
    match d
    case IDENTIFIER | VERSION => !s.headerStarted
    case COMMENT => s.headerStarted
    case ISA | TRACE_INFO | TRACE_INFO_FEATURE | VLEN_CONFIG | ISA_EXTENDED | END_HEADER =>
      !s.headerFinalized && s.headerStarted
    case PROCESS_ID_EXT | INST_IEM | FORCE_PC => s.headerStarted
    case INST_OPCODE32 | INST_OPCODE16 | INST_REG | INST_READY_REG | INST_PC_TARGET | EVENT | EVENT_PC_TARGET
       | INST_MEM_ACCESS | INST_MEM_CONTENT | BUS_MASTER_ACCESS | BUS_MASTER_CONTENT | PAGE_TABLE_WALK | INST_MICROOP =>
      s.headerFinalized
    case PROTOCOL_ID | CLOCK_ID | TRANSACTION | TRANSACTION_DEPENDENCY | RESERVED => false
  }

  predicate Accepts(s: Order, d: Descriptor) { InOrder(s, d) && InPlace(s, d) }

  function Next(s: Order, d: Descriptor): Order {
    s.(last := d, wroteEventGroup := d.EVENT_PC_TARGET? && s.last.EVENT?, wrotePageTableWalk := d.PAGE_TABLE_WALK?,
       wroteReg := d.INST_REG?)
  }

  // The state after a run of records, if every one of them is accepted.
  function Run(s: Order, recs: seq<Record>): Option<Order> {
    if recs == [] then Some(s)
    else
      match Run(s, recs[..|recs| - 1])
      case None => None
      case Some(t) => if Accepts(t, recs[|recs| - 1].desc) then Some(Next(t, recs[|recs| - 1].desc)) else None
  }

  lemma {:induction false} RunConcat(s: Order, a: seq<Record>, b: seq<Record>)
    ensures Run(s, a + b) == match Run(s, a) { case None => None case Some(t) => Run(t, b) }
  {
    hide Accepts, Next;
    if b == [] {
      assert a + b == a;
    } else {
      var n := |b| - 1;
      assert (a + b)[..|a + b| - 1] == a + b[..n];
      RunConcat(s, a, b[..n]);
    }
  }

  lemma RunSnoc(s: Order, recs: seq<Record>, r: Record)
    ensures Run(s, recs + [r]) == match Run(s, recs) {
              case None => None
              case Some(t) => if Accepts(t, r.desc) then Some(Next(t, r.desc)) else None }
  {
    hide Accepts, Next;
    assert (recs + [r])[..|recs + [r]| - 1] == recs;
  }

  // ---------------------------------------------------------------- the generator

  // Descriptors written together with a second one.
  function PairedWith(d: Descriptor): Option<Descriptor> {
    if d.INST_MEM_ACCESS? then Some(INST_MEM_CONTENT)
    else if d.BUS_MASTER_ACCESS? then Some(BUS_MASTER_CONTENT)
    else if d.EVENT? then Some(EVENT_PC_TARGET)
    else None
  }

  predicate IsSecond(d: Descriptor) { d.INST_MEM_CONTENT? || d.BUS_MASTER_CONTENT? || d.EVENT_PC_TARGET? }

  // Mode changes have no PC target, unless one is the only event.
  predicate TakesSecond(r: Record) { !(r.desc.EVENT? && IsModeChange(r)) }

  // The second records that the first n records take.
  function Taken(first: seq<Record>, n: nat): (k: nat)
    requires n <= |first|
    ensures k <= n
  {
    if n == 0 then 0 else Taken(first, n - 1) + (if TakesSecond(first[n - 1]) then 1 else 0)
  }

  // A record with the second record it takes, if any.
  function PairAt(first: seq<Record>, second: seq<Record>, i: nat): seq<Record>
    requires i < |first| && Taken(first, i + 1) <= |second|
  {
    if TakesSecond(first[i]) then [first[i], second[Taken(first, i)]] else [first[i]]
  }

  function Zip(first: seq<Record>, second: seq<Record>, n: nat): seq<Record>
    requires n <= |first| && Taken(first, n) <= |second|
  {
    if n == 0 then [] else Zip(first, second, n - 1) + PairAt(first, second, n - 1)
  }

  predicate StandaloneModeChange(first: seq<Record>) { |first| == 1 && first[0].desc.EVENT? && IsModeChange(first[0]) }

  // What a proper group has: enough second records, and none that would be left over.
  predicate Matched(first: seq<Record>, second: seq<Record>) {
    if StandaloneModeChange(first) then |second| <= 1 else |second| == Taken(first, |first|)
  }

  // What the generator demands: of targets there may be more than the events take.
  predicate Enough(first: seq<Record>, second: seq<Record>, isEvent: bool) {
    if StandaloneModeChange(first) then |second| <= 1
    else if isEvent then Taken(first, |first|) <= |second|
    else Taken(first, |first|) == |second|
  }

  function Pairs(first: seq<Record>, second: seq<Record>): seq<Record>
    requires StandaloneModeChange(first) || Taken(first, |first|) <= |second|
  {
    if StandaloneModeChange(first) then first + second else Zip(first, second, |first|)
  }

  predicate InGroup(d: Descriptor) {
    match d
    case COMMENT | PROCESS_ID_EXT | FORCE_PC | INST_IEM | INST_PC_TARGET | INST_REG | INST_READY_REG | PAGE_TABLE_WALK
       | INST_MEM_ACCESS | INST_MEM_CONTENT | BUS_MASTER_ACCESS | BUS_MASTER_CONTENT | EVENT | EVENT_PC_TARGET
       | INST_MICROOP | INST_OPCODE32 | INST_OPCODE16 => true
    case _ => false
  }

  /** The records of one instruction. */
  ghost predicate IsGroup(recs: seq<Record>) {
    && (forall r :: r in recs ==> InGroup(r.desc))
    && |Filter(recs, INST_OPCODE32)| + |Filter(recs, INST_OPCODE16)| == 1
    && (forall d :: PairedWith(d).Some? ==> Matched(Filter(recs, d), Filter(recs, PairedWith(d).value)))
  }

  // Nothing stops the generator at a descriptor's turn.
  predicate Writable(recs: seq<Record>, d: Descriptor) {
    PairedWith(d).Some? ==> Enough(Filter(recs, d), Filter(recs, PairedWith(d).value), d.EVENT?)
  }

  // What is written when the sorted view comes to a descriptor.
  function Segment(recs: seq<Record>, d: Descriptor): seq<Record>
    requires Writable(recs, d)
  {
    if PairedWith(d).Some? then Pairs(Filter(recs, d), Filter(recs, PairedWith(d).value))
    else if IsSecond(d) then []
    else Filter(recs, d)
  }

  // ... nor before the n-th descriptor of the sorted view.
  ghost predicate Complete(recs: seq<Record>, n: nat)
    requires n <= |SORTED|
  {
    forall k :: 0 <= k < n ==> Writable(recs, SORTED[k])
  }

  ghost function Written(recs: seq<Record>, n: nat): seq<Record>
    requires n <= |SORTED| && Complete(recs, n)
  {
    if n == 0 then [] else Written(recs, n - 1) + Segment(recs, SORTED[n - 1])
  }

  // A proper group stops the generator nowhere.
  lemma GroupIsWritable(recs: seq<Record>, d: Descriptor)
    requires IsGroup(recs)
    ensures Writable(recs, d)
  {
  }

  lemma GroupIsComplete(recs: seq<Record>, n: nat)
    requires IsGroup(recs) && n <= |SORTED|
    ensures Complete(recs, n)
  {
    hide IsGroup, Writable;
    forall k | 0 <= k < n
      ensures Writable(recs, SORTED[k])
    {
      GroupIsWritable(recs, SORTED[k]);
    }
  }

  // ---------------------------------------------------------------- each record once

  lemma {:induction false} FilterOfZip(first: seq<Record>, second: seq<Record>, a: Descriptor, b: Descriptor, n: nat,
                                       d: Descriptor)
    requires n <= |first| && Taken(first, n) <= |second| && AllHave(first, a) && AllHave(second, b) && a != b
    ensures Filter(Zip(first, second, n), d)
         == if d == a then first[..n] else if d == b then second[..Taken(first, n)] else []
  {
    hide Filter, TakesSecond, PairAt;
    if n == 0 {
      NothingFiltered(d);
    } else {
      var k := Taken(first, n - 1);
      FilterOfZip(first, second, a, b, n - 1, d);
      FilterConcat(Zip(first, second, n - 1), PairAt(first, second, n - 1), d);
      FilterOfPairAt(first, second, a, b, n - 1, d);
      assert first[..n] == first[..n - 1] + [first[n - 1]];
      if TakesSecond(first[n - 1]) {
        assert second[..k + 1] == second[..k] + [second[k]];
      } else {
        assert second[..k] + [] == second[..k];
      }
    }
  }

  lemma FilterOfPairAt(first: seq<Record>, second: seq<Record>, a: Descriptor, b: Descriptor, i: nat, d: Descriptor)
    requires i < |first| && Taken(first, i + 1) <= |second| && AllHave(first, a) && AllHave(second, b) && a != b
    ensures Filter(PairAt(first, second, i), d)
         == if d == a then [first[i]] else if d == b && TakesSecond(first[i]) then [second[Taken(first, i)]] else []
  {
    hide Filter;
    var r := first[i];
    assert r in first;
    FilterOfOne([r], d, a);
    if TakesSecond(r) {
      var t := second[Taken(first, i)];
      assert t in second;
      FilterOfOne([t], d, b);
      FilterConcat([r], [t], d);
      assert [r] + [t] == [r, t];
    }
  }

  lemma FilterOfPairs(first: seq<Record>, second: seq<Record>, a: Descriptor, b: Descriptor, d: Descriptor)
    requires Matched(first, second) && AllHave(first, a) && AllHave(second, b) && a != b
    ensures Filter(Pairs(first, second), d) == if d == a then first else if d == b then second else []
  {
    hide Filter, Zip, TakesSecond;
    if StandaloneModeChange(first) {
      FilterConcat(first, second, d);
      FilterOfOne(first, d, a);
      FilterOfOne(second, d, b);
    } else {
      FilterOfZip(first, second, a, b, |first|, d);
      assert first[..|first|] == first && second[..|second|] == second;
    }
  }

  // The descriptors whose records are written at a descriptor's turn.
  predicate WrittenAt(d: Descriptor, turn: Descriptor) {
    if PairedWith(turn).Some? then d == turn || d == PairedWith(turn).value else !IsSecond(turn) && d == turn
  }

  // The descriptor at whose turn a record is written.
  function TurnOf(d: Descriptor): Descriptor {
    if d.INST_MEM_CONTENT? then INST_MEM_ACCESS
    else if d.BUS_MASTER_CONTENT? then BUS_MASTER_ACCESS
    else if d.EVENT_PC_TARGET? then EVENT
    else d
  }

  lemma OneTurn(d: Descriptor, turn: Descriptor)
    ensures WrittenAt(d, turn) <==> turn == TurnOf(d)
  {
  }

  lemma FilterOfSegment(recs: seq<Record>, turn: Descriptor, d: Descriptor)
    requires IsGroup(recs)
    ensures Filter(Segment(recs, turn), d) == if turn == TurnOf(d) then Filter(recs, d) else []
  {
    hide Filter, Pairs, Matched, TurnOf;
    OneTurn(d, turn);
    FilterHasOne(recs, turn);
    if PairedWith(turn).Some? {
      var second := PairedWith(turn).value;
      FilterHasOne(recs, second);
      FilterOfPairs(Filter(recs, turn), Filter(recs, second), turn, second, d);
    } else if IsSecond(turn) {
      NothingFiltered(d);
    } else {
      FilterOfOne(Filter(recs, turn), d, turn);
    }
  }

  lemma {:induction false} FilterOfWritten(recs: seq<Record>, n: nat, d: Descriptor)
    requires n <= |SORTED| && IsGroup(recs) && StrictlySorted(SORTED)
    ensures Filter(Written(recs, n), d) == if TurnOf(d) in SORTED[..n] then Filter(recs, d) else []
  {
    hide Filter, Segment, ToEncoded, SortedBelow, IsGroup, TurnOf;
    if n == 0 {
      NothingFiltered(d);
    } else {
      GroupIsComplete(recs, n);
      FilterOfWritten(recs, n - 1, d);
      FilterOfSegment(recs, SORTED[n - 1], d);
      GroupIsWritable(recs, SORTED[n - 1]);
      FilterConcat(Written(recs, n - 1), Segment(recs, SORTED[n - 1]), d);
      assert SORTED[..n] == SORTED[..n - 1] + [SORTED[n - 1]];
      assert SORTED[n - 1] !in SORTED[..n - 1];
    }
  }

  /** Writing a group emits each of its records exactly once: sorted by descriptor the output is the group again. */
  lemma EachRecordOnce(recs: seq<Record>, d: Descriptor)
    requires IsGroup(recs)
    ensures |SORTED| == NUM_INTERNAL && Filter(Written(recs, NUM_INTERNAL), d) == Filter(recs, d)
  {
    hide Filter, SortedBelow, IsGroup, Written;
    SortedSequence();
    FilterOfWritten(recs, NUM_INTERNAL, d);
    assert SORTED[..NUM_INTERNAL] == SORTED;
  }

  // ---------------------------------------------------------------- every step accepted

  // Before a descriptor's turn: the header is done, no access waits for its content, and nothing later was written.
  predicate ReadyFor(s: Order, d: Descriptor) {
    && s.headerStarted && s.headerFinalized && !s.last.INST_MEM_ACCESS? && !s.last.BUS_MASTER_ACCESS?
    && (IsInstructionRecord(s.last) || s.last.END_HEADER? || ToEncoded(s.last) <= ToEncoded(d))
  }

  lemma {:induction false} PlainAccepted(s: Order, recs: seq<Record>, d: Descriptor)
    requires AllHave(recs, d) && InGroup(d) && PairedWith(d).None? && !IsSecond(d) && ReadyFor(s, d)
    requires recs != [] && d.INST_IEM? ==> !s.last.END_HEADER?
    ensures Run(s, recs).Some? && ReadyFor(Run(s, recs).value, d)
    ensures recs != [] ==> Run(s, recs).value.last == d
  {
    if recs != [] {
      var n := |recs| - 1;
      PlainAccepted(s, recs[..n], d);
      assert recs[n] in recs;
    }
  }

  // Inside a run of pairs: the last pair is complete, and another may follow.
  predicate BetweenPairs(s: Order, a: Descriptor) {
    && s.headerStarted && s.headerFinalized
    && match a
       case INST_MEM_ACCESS => s.last.INST_MEM_CONTENT?
       case BUS_MASTER_ACCESS => s.last.BUS_MASTER_CONTENT?
       case _ => s.last.EVENT? || (s.last.EVENT_PC_TARGET? && s.wroteEventGroup)
  }

  lemma PairAccepted(s: Order, r: Record, t: Record)
    requires ReadyFor(s, r.desc) || BetweenPairs(s, r.desc)
    requires PairedWith(r.desc) == Some(t.desc)
    ensures Accepts(s, r.desc)
    ensures var u := Next(s, r.desc); Accepts(u, t.desc) && BetweenPairs(Next(u, t.desc), r.desc)
    ensures !TakesSecond(r) ==> BetweenPairs(Next(s, r.desc), r.desc)
  {
  }

  lemma LonePairAccepted(s: Order, r: Record)
    requires (ReadyFor(s, r.desc) || BetweenPairs(s, r.desc)) && !TakesSecond(r)
    ensures Accepts(s, r.desc) && BetweenPairs(Next(s, r.desc), r.desc)
  {
  }

  lemma {:induction false} ZipAccepted(s: Order, first: seq<Record>, second: seq<Record>, a: Descriptor, n: nat)
    requires n <= |first| && Taken(first, n) <= |second| && AllHave(first, a)
    requires PairedWith(a).Some? && AllHave(second, PairedWith(a).value) && ReadyFor(s, a)
    ensures Run(s, Zip(first, second, n)).Some?
    ensures if n == 0 then Run(s, Zip(first, second, n)).value == s
            else BetweenPairs(Run(s, Zip(first, second, n)).value, a)
  {
    hide Accepts, Next, ReadyFor, BetweenPairs, TakesSecond, PairedWith, PairAt, Run;
    if n == 0 {
      NothingRun(s);
    } else {
      ZipAccepted(s, first, second, a, n - 1);
      var t := Run(s, Zip(first, second, n - 1)).value;
      assert first[n - 1] in first;
      PairAtAccepted(t, first, second, n - 1);
      RunConcat(s, Zip(first, second, n - 1), PairAt(first, second, n - 1));
    }
  }

  lemma NothingRun(s: Order)
    ensures Run(s, []) == Some(s)
  {
  }

  lemma RunOne(s: Order, r: Record)
    ensures Run(s, [r]) == if Accepts(s, r.desc) then Some(Next(s, r.desc)) else None
  {
    hide Accepts, Next;
    assert [r][..0] == [];
  }

  lemma PairAtAccepted(s: Order, first: seq<Record>, second: seq<Record>, i: nat)
    requires i < |first| && Taken(first, i + 1) <= |second|
    requires PairedWith(first[i].desc).Some? && AllHave(second, PairedWith(first[i].desc).value)
    requires ReadyFor(s, first[i].desc) || BetweenPairs(s, first[i].desc)
    ensures Run(s, PairAt(first, second, i)).Some?
    ensures BetweenPairs(Run(s, PairAt(first, second, i)).value, first[i].desc)
  {
    hide Accepts, Next, ReadyFor, BetweenPairs, TakesSecond, PairedWith, Run;
    var r := first[i];
    RunOne(s, r);
    if TakesSecond(r) {
      var t := second[Taken(first, i)];
      assert t in second;
      PairAccepted(s, r, t);
      RunOne(Next(s, r.desc), t);
      RunConcat(s, [r], [t]);
      assert [r] + [t] == [r, t];
    } else {
      LonePairAccepted(s, r);
    }
  }

  // After a descriptor's turn: nothing later than the second of its pair was written.
  predicate DoneWith(s: Order, d: Descriptor) {
    && s.headerStarted && s.headerFinalized && !s.last.INST_MEM_ACCESS? && !s.last.BUS_MASTER_ACCESS?
    && (IsInstructionRecord(s.last) || s.last.END_HEADER? || ToEncoded(s.last) <= ToEncoded(d) + 1)
  }

  lemma BetweenPairsIsDone(s: Order, a: Descriptor)
    requires PairedWith(a).Some? && BetweenPairs(s, a)
    ensures DoneWith(s, a)
  {
  }

  lemma StandaloneAccepted(s: Order, first: seq<Record>, second: seq<Record>)
    requires StandaloneModeChange(first) && |second| <= 1 && AllHave(second, EVENT_PC_TARGET) && ReadyFor(s, EVENT)
    ensures Run(s, first + second).Some? && DoneWith(Run(s, first + second).value, EVENT)
  {
    hide ReadyFor, DoneWith, Accepts, Next, Run, BetweenPairs;
    var r := first[0];
    assert first == [r];
    RunOne(s, r);
    LonePairAccepted(s, r);
    BetweenPairsIsDone(Next(s, EVENT), EVENT);
    RunConcat(s, first, second);
    if |second| == 1 {
      assert second[0] in second && second == [second[0]];
      RunOne(Next(s, EVENT), second[0]);
      PairAccepted(s, r, second[0]);
      BetweenPairsIsDone(Next(Next(s, EVENT), EVENT_PC_TARGET), EVENT);
    } else {
      NothingRun(Next(s, EVENT));
    }
  }

  lemma SegmentAccepted(s: Order, recs: seq<Record>, d: Descriptor)
    requires IsGroup(recs) && ReadyFor(s, d)
    requires d.INST_IEM? && s.last.END_HEADER? ==> Filter(recs, INST_IEM) == []
    ensures Run(s, Segment(recs, d)).Some? && DoneWith(Run(s, Segment(recs, d)).value, d)
    ensures Segment(recs, d) == [] ==> Run(s, Segment(recs, d)).value == s
  {
    var first := Filter(recs, d);
    FilterHasOne(recs, d);
    ReadyIsDone(s, d);
    if PairedWith(d).Some? {
      var second := Filter(recs, PairedWith(d).value);
      FilterHasOne(recs, PairedWith(d).value);
      if StandaloneModeChange(first) {
        assert first[0] in first;
        hide Filter, Run, ReadyFor, DoneWith;
        StandaloneAccepted(s, first, second);
      } else {
        hide Filter, ReadyFor, DoneWith, BetweenPairs, ToEncoded;
        ZipAccepted(s, first, second, d, |first|);
        if first != [] {
          BetweenPairsIsDone(Run(s, Zip(first, second, |first|)).value, d);
        }
      }
    } else if !IsSecond(d) && first != [] {
      assert first[0] in first && first[0] in recs;
      PlainAccepted(s, first, d);
      hide Filter, Run, ToEncoded;
      ReadyIsDone(Run(s, first).value, d);
    }
  }

  lemma ReadyIsDone(s: Order, d: Descriptor)
    requires ReadyFor(s, d)
    ensures DoneWith(s, d)
  {
  }

  // Where a group may start: right after the header, or after another instruction's opcode.
  predicate AtGroupStart(s: Order) {
    && s.headerStarted && s.headerFinalized && (s.last.END_HEADER? || IsInstructionRecord(s.last))
    && !s.wroteEventGroup && !s.wrotePageTableWalk && !s.wroteReg
  }

  // An IEM record has a smaller written value than the end of the header: right behind the header a
  // group has to put a comment between them.
  predicate StartsWell(s: Order, recs: seq<Record>) {
    s.last.END_HEADER? && Filter(recs, INST_IEM) != [] ==> Filter(recs, COMMENT) != []
  }

  lemma LastOfRun(s: Order, recs: seq<Record>)
    requires Run(s, recs).Some?
    ensures Run(s, recs).value.last == if recs == [] then s.last else recs[|recs| - 1].desc
  {
    hide Accepts;
  }

  lemma NotInGroup(recs: seq<Record>, d: Descriptor)
    requires IsGroup(recs) && !InGroup(d)
    ensures Filter(recs, d) == []
  {
    hide Filter;
    NoneHave(recs, d);
  }

  // While a written group's last record is the end of the header, nothing of it has been written.
  lemma EndMeansNothing(s: Order, recs: seq<Record>, n: nat)
    requires n <= |SORTED| && StrictlySorted(SORTED) && IsGroup(recs) && Complete(recs, n)
    requires Run(s, Written(recs, n)).Some? && Run(s, Written(recs, n)).value.last.END_HEADER?
    ensures s.last.END_HEADER? && Written(recs, n) == []
  {
    hide Filter, SortedBelow, IsGroup, Written, Run, ToEncoded;
    var out := Written(recs, n);
    LastOfRun(s, out);
    if out != [] {
      FilterOfWritten(recs, n, END_HEADER);
      NotInGroup(recs, END_HEADER);
      FilterHasOne(out, END_HEADER);
    }
  }

  // Comments have their turn before the IEM.
  lemma CommentsFirst(n: nat)
    requires n < |SORTED| && StrictlySorted(SORTED) && (forall d :: d in SORTED) && SORTED[n].INST_IEM?
    ensures COMMENT in SORTED[..n]
  {
    hide SortedBelow;
    assert COMMENT in SORTED;
    var j :| 0 <= j < |SORTED| && SORTED[j] == COMMENT;
    assert ToEncoded(COMMENT) < ToEncoded(INST_IEM);
    assert j < n;
  }

  lemma IemHasComment(s: Order, recs: seq<Record>, n: nat)
    requires n < |SORTED| && StrictlySorted(SORTED) && (forall d :: d in SORTED) && SORTED[n].INST_IEM?
    requires IsGroup(recs) && StartsWell(s, recs) && Complete(recs, n)
    requires Run(s, Written(recs, n)).Some? && Run(s, Written(recs, n)).value.last.END_HEADER?
    ensures Filter(recs, INST_IEM) == []
  {
    hide Filter, SortedBelow, IsGroup, Written, Run, ToEncoded;
    EndMeansNothing(s, recs, n);
    CommentsFirst(n);
    FilterOfWritten(recs, n, COMMENT);
    NothingFiltered(COMMENT);
  }

  lemma {:induction false} WrittenAccepted(s: Order, recs: seq<Record>, n: nat)
    requires n <= |SORTED| && StrictlySorted(SORTED) && IsGroup(recs) && AtGroupStart(s)
    requires StartsWell(s, recs) && forall d :: d in SORTED
    ensures Run(s, Written(recs, n)).Some?
    ensures if n == 0 then Run(s, Written(recs, n)).value == s
            else DoneWith(Run(s, Written(recs, n)).value, SORTED[n - 1])
  {
    hide Filter, Segment, SortedBelow, IsGroup, ToEncoded, StartsWell;
    if n > 0 {
      var d := SORTED[n - 1];
      GroupIsComplete(recs, n);
      WrittenAccepted(s, recs, n - 1);
      if d.INST_IEM? && Run(s, Written(recs, n - 1)).value.last.END_HEADER? {
        IemHasComment(s, recs, n - 1);
      }
      var t := Run(s, Written(recs, n - 1)).value;
      if n > 1 {
        assert ToEncoded(SORTED[n - 2]) < ToEncoded(d);
      }
      assert ReadyFor(t, d);
      GroupIsWritable(recs, d);
      hide Run, ReadyFor, DoneWith, AtGroupStart;
      SegmentAccepted(t, recs, d);
      RunConcat(s, Written(recs, n - 1), Segment(recs, d));
    }
  }

  // ---------------------------------------------------------------- a group ends with its opcode

  lemma {:induction false} NoneHave(recs: seq<Record>, d: Descriptor)
    requires forall r :: r in recs ==> r.desc != d
    ensures Filter(recs, d) == []
  {
    if recs != [] {
      assert recs[|recs| - 1] in recs;
      NoneHave(recs[..|recs| - 1], d);
    }
  }

  // Nothing is written after the turn of the group's opcode.
  lemma NothingAfterOpcode(recs: seq<Record>, opcode: Descriptor, d: Descriptor)
    requires IsGroup(recs) && IsInstructionRecord(opcode)
    requires |Filter(recs, opcode)| == 1 && ToEncoded(d) > ToEncoded(opcode)
    ensures Segment(recs, d) == []
  {
    hide Filter;
    assert PairedWith(d).None?;
    if !InGroup(d) {
      NoneHave(recs, d);
    }
  }

  lemma {:induction false} WrittenTail(recs: seq<Record>, opcode: Descriptor, k: nat, n: nat)
    requires k < n <= |SORTED| && StrictlySorted(SORTED) && SORTED[k] == opcode
    requires IsGroup(recs) && IsInstructionRecord(opcode) && |Filter(recs, opcode)| == 1
    ensures Written(recs, n) == Written(recs, k) + Filter(recs, opcode)
  {
    hide Filter, SortedBelow, IsGroup, ToEncoded, Pairs;
    if n > k + 1 {
      WrittenTail(recs, opcode, k, n - 1);
      NothingAfterOpcode(recs, opcode, SORTED[n - 1]);
    }
  }

  lemma EndsWithOpcode(recs: seq<Record>) returns (before: seq<Record>, opcode: Record)
    requires IsGroup(recs)
    ensures |SORTED| == NUM_INTERNAL && IsInstructionRecord(opcode.desc)
    ensures Written(recs, NUM_INTERNAL) == before + [opcode]
  {
    hide Filter, SortedBelow, Written, IsGroup;
    SortedSequence();
    var d := OpcodeOf(recs);
    var k := PlaceOf(d);
    FilterHasOne(recs, d);
    GroupIsComplete(recs, NUM_INTERNAL);
    WrittenTail(recs, d, k, NUM_INTERNAL);
    before, opcode := Written(recs, k), Filter(recs, d)[0];
    assert opcode in Filter(recs, d) && Filter(recs, d) == [opcode];
  }

  lemma OpcodeOf(recs: seq<Record>) returns (d: Descriptor)
    requires IsGroup(recs)
    ensures IsInstructionRecord(d) && |Filter(recs, d)| == 1
  {
    hide Filter;
    d := if |Filter(recs, INST_OPCODE32)| == 1 then INST_OPCODE32 else INST_OPCODE16;
  }

  lemma PlaceOf(d: Descriptor) returns (k: nat)
    ensures |SORTED| == NUM_INTERNAL && k < NUM_INTERNAL && SORTED[k] == d
  {
    hide SortedBelow;
    SortedSequence();
    assert d in SORTED;
    k :| 0 <= k < |SORTED| && SORTED[k] == d;
  }

  lemma {:induction false} RefusedStays(s: Order, recs: seq<Record>, m: nat, n: nat)
    requires m <= n <= |SORTED| && Complete(recs, n) && Run(s, Written(recs, m)).None?
    ensures Run(s, Written(recs, n)).None?
  {
    hide Run, Segment, SortedBelow, Writable;
    if m < n {
      RefusedStays(s, recs, m, n - 1);
      RunConcat(s, Written(recs, n - 1), Segment(recs, SORTED[n - 1]));
    }
  }

  // Only a comment has a smaller written value than an IEM record in a group.
  lemma BeforeIem(d: Descriptor)
    requires InGroup(d) && ToEncoded(TurnOf(d)) < ToEncoded(INST_IEM)
    ensures d.COMMENT?
  {
  }

  lemma NothingBeforeIem(recs: seq<Record>, n: nat)
    requires n < |SORTED| && StrictlySorted(SORTED) && SORTED[n].INST_IEM? && IsGroup(recs) && Complete(recs, n)
    requires Filter(recs, COMMENT) == []
    ensures Written(recs, n) == []
  {
    hide Filter, SortedBelow, IsGroup, Written, ToEncoded, TurnOf;
    var out := Written(recs, n);
    if out != [] {
      var d := out[0].desc;
      FilterHasOne(out, d);
      FilterOfWritten(recs, n, d);
      assert out[0] in Filter(out, d);
      if !InGroup(d) {
        NotInGroup(recs, d);
      } else {
        var j :| 0 <= j < n && SORTED[j] == TurnOf(d);
        BeforeIem(d);
      }
    }
  }

  lemma HeadRefused(s: Order, recs: seq<Record>)
    requires s.last.END_HEADER? && recs != [] && recs[0].desc.INST_IEM?
    ensures Run(s, recs).None?
  {
    RunOne(s, recs[0]);
    hide Run;
    RunConcat(s, [recs[0]], recs[1..]);
    assert recs == [recs[0]] + recs[1..];
  }

  lemma IemAtHead(recs: seq<Record>, n: nat)
    requires n < |SORTED| && StrictlySorted(SORTED) && SORTED[n].INST_IEM? && IsGroup(recs) && Complete(recs, n + 1)
    requires Filter(recs, COMMENT) == [] && Filter(recs, INST_IEM) != []
    ensures Written(recs, n + 1) != [] && Written(recs, n + 1)[0].desc.INST_IEM?
  {
    hide Filter, SortedBelow, IsGroup;
    NothingBeforeIem(recs, n);
    FilterHasOne(recs, INST_IEM);
    var iems := Filter(recs, INST_IEM);
    assert Written(recs, n + 1) == [] + iems == iems && iems[0] in iems;
  }

  lemma IemRefused(s: Order, recs: seq<Record>)
    requires IsGroup(recs) && AtGroupStart(s) && !StartsWell(s, recs)
    ensures |SORTED| == NUM_INTERNAL && Complete(recs, NUM_INTERNAL) && Run(s, Written(recs, NUM_INTERNAL)).None?
  {
    hide Filter, SortedBelow, IsGroup, Run, Written, Complete;
    SortedSequence();
    var k := PlaceOf(INST_IEM);
    GroupIsComplete(recs, NUM_INTERNAL);
    GroupIsComplete(recs, k + 1);
    IemAtHead(recs, k);
    HeadRefused(s, Written(recs, k + 1));
    RefusedStays(s, recs, k + 1, NUM_INTERNAL);
  }

  /**
   * From just after the header or an opcode, the writer accepts every record of a written group, and
   * is again just after an opcode; it throws exactly when the group comes right behind the header and
   * has an IEM record but no comment.
   */
  lemma GroupAccepted(s: Order, recs: seq<Record>)
    requires IsGroup(recs) && AtGroupStart(s)
    ensures |SORTED| == NUM_INTERNAL && Complete(recs, NUM_INTERNAL)
    ensures var r := Run(s, Written(recs, NUM_INTERNAL));
            && (r.Some? <==> StartsWell(s, recs))
            && (r.Some? ==> AtGroupStart(r.value) && IsInstructionRecord(r.value.last))
  {
    hide Filter, SortedBelow, Written, IsGroup, ToEncoded, StartsWell;
    SortedSequence();
    GroupIsComplete(recs, NUM_INTERNAL);
    if StartsWell(s, recs) {
      WrittenAccepted(s, recs, NUM_INTERNAL);
      var before, opcode := EndsWithOpcode(recs);
      RunSnoc(s, before, opcode);
      HeaderFlagsStay(s, before);
    } else {
      IemRefused(s, recs);
    }
  }

  lemma {:induction false} HeaderFlagsStay(s: Order, recs: seq<Record>)
    ensures Run(s, recs).Some? ==>
              Run(s, recs).value.headerStarted == s.headerStarted
                && Run(s, recs).value.headerFinalized == s.headerFinalized
  {
    hide Accepts;
    if recs != [] {
      HeaderFlagsStay(s, recs[..|recs| - 1]);
    }
  }

  ghost function WrittenAll(groups: seq<seq<Record>>): seq<Record>
    requires |SORTED| == NUM_INTERNAL && forall g :: g in groups ==> IsGroup(g)
  {
    if groups == [] then []
    else
      assert groups[|groups| - 1] in groups;
      GroupIsComplete(groups[|groups| - 1], NUM_INTERNAL);
      WrittenAll(groups[..|groups| - 1]) + Written(groups[|groups| - 1], NUM_INTERNAL)
  }

  /** A whole trace of groups is accepted, from the header on, if its first group is. */
  lemma {:induction false} TraceAccepted(s: Order, groups: seq<seq<Record>>)
    requires AtGroupStart(s) && forall g :: g in groups ==> IsGroup(g)
    requires groups != [] ==> StartsWell(s, groups[0])
    ensures |SORTED| == NUM_INTERNAL && Run(s, WrittenAll(groups)).Some?
    ensures AtGroupStart(Run(s, WrittenAll(groups)).value)
    ensures groups != [] ==> IsInstructionRecord(Run(s, WrittenAll(groups)).value.last)
  {
    hide Filter, SortedBelow, Written, IsGroup, ToEncoded;
    SortedSequence();
    if groups != [] {
      var n := |groups| - 1;
      assert groups[n] in groups;
      GroupIsComplete(groups[n], NUM_INTERNAL);
      TraceAccepted(s, groups[..n]);
      GroupAccepted(Run(s, WrittenAll(groups[..n])).value, groups[n]);
      RunConcat(s, WrittenAll(groups[..n]), Written(groups[n], NUM_INTERNAL));
    }
  }

  const IEM_RECORD: Record := Record(INST_IEM, Number(1))
  const OPCODE_RECORD: Record := Record(INST_OPCODE32, Number(0x13))

  lemma IemGroupFilter(d: Descriptor)
    ensures Filter([IEM_RECORD, OPCODE_RECORD], d)
         == if d.INST_IEM? then [IEM_RECORD] else if d.INST_OPCODE32? then [OPCODE_RECORD] else []
  {
    hide Filter;
    NothingFiltered(d);
    FilterSnoc([], IEM_RECORD, d);
    FilterSnoc([IEM_RECORD], OPCODE_RECORD, d);
    assert [] + [IEM_RECORD] == [IEM_RECORD] && [IEM_RECORD] + [OPCODE_RECORD] == [IEM_RECORD, OPCODE_RECORD];
  }

  lemma IemGroup()
    ensures IsGroup([IEM_RECORD, OPCODE_RECORD])
  {
    hide Filter, Taken, StandaloneModeChange;
    IemGroupFilter(INST_OPCODE32);
    IemGroupFilter(INST_OPCODE16);
    forall d | PairedWith(d).Some?
      ensures Matched(Filter([IEM_RECORD, OPCODE_RECORD], d),
                      Filter([IEM_RECORD, OPCODE_RECORD], PairedWith(d).value))
    {
      IemGroupFilter(d);
      IemGroupFilter(PairedWith(d).value);
      NothingMatches();
    }
  }

  lemma NothingMatches()
    ensures Matched([], [])
  {
  }

  /** Right behind the header an instruction with an IEM record is refused; behind an opcode it is written. */
  lemma FirstIemIsRefused()
    ensures IsGroup([IEM_RECORD, OPCODE_RECORD]) && |SORTED| == NUM_INTERNAL
    ensures Complete([IEM_RECORD, OPCODE_RECORD], NUM_INTERNAL)
    ensures var out := Written([IEM_RECORD, OPCODE_RECORD], NUM_INTERNAL);
            && Run(Order(END_HEADER, false, false, false, true, true), out).None?
            && Run(Order(INST_OPCODE32, false, false, false, true, true), out).Some?
  {
    hide SortedBelow, Written, Run, Complete, Filter, IsGroup;
    IemGroup();
    IemGroupFilter(INST_IEM);
    IemGroupFilter(COMMENT);
    GroupAccepted(Order(END_HEADER, false, false, false, true, true), [IEM_RECORD, OPCODE_RECORD]);
    GroupAccepted(Order(INST_OPCODE32, false, false, false, true, true), [IEM_RECORD, OPCODE_RECORD]);
  }
}
