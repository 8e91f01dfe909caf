/**
 * Whole traces of the writer, for any run of setters, flushes, finalization and records written: which
 * record may stand right behind which, and which belong where.
 */
module WriterRuns {
  import opened FlatMaps
  import opened Descriptors
  import opened Records
  import opened RecordOrder
  import opened Headers
  import opened HeaderRuns

  // ---------------------------------------------------------------- what may stand where

  const OPENING: set<Descriptor> := {IDENTIFIER, VERSION}

  const HEADER_ONLY: set<Descriptor> := {ISA, TRACE_INFO, TRACE_INFO_FEATURE, VLEN_CONFIG, ISA_EXTENDED, END_HEADER}

  const ANYWHERE: set<Descriptor> := {COMMENT, PROCESS_ID_EXT, FORCE_PC, INST_IEM}

  const INSTRUCTION: set<Descriptor> :=
    {INST_PC_TARGET, INST_REG, INST_READY_REG, PAGE_TABLE_WALK, INST_MEM_ACCESS, INST_MEM_CONTENT, BUS_MASTER_ACCESS,
     BUS_MASTER_CONTENT, EVENT, EVENT_PC_TARGET, INST_MICROOP, INST_OPCODE32, INST_OPCODE16}

  // Neighbours of which the second has the smaller written value.
  const DROPS: set<(Descriptor, Descriptor)> :=
    {(INST_MEM_CONTENT, INST_MEM_ACCESS), (BUS_MASTER_CONTENT, BUS_MASTER_ACCESS), (INST_MEM_CONTENT, INST_REG),
     (BUS_MASTER_CONTENT, INST_REG), (PAGE_TABLE_WALK, INST_REG), (PAGE_TABLE_WALK, INST_PC_TARGET),
     (INST_REG, INST_PC_TARGET)}

  // The places where the written value may drop: behind an opcode, at a comment, process ID or PC, at
  // the listed neighbours, and from an event's target to the next event.
  predicate MayDrop(trace: seq<Record>, i: nat)
    requires 0 < i < |trace|
  {
    var before, here := trace[i - 1].desc, trace[i].desc;
    || before in {INST_OPCODE32, INST_OPCODE16}
    || here in {COMMENT, PROCESS_ID_EXT, FORCE_PC}
    || (before, here) in DROPS
    || (i >= 2 && trace[i - 2].desc.EVENT? && before.EVENT_PC_TARGET? && here.EVENT?)
  }

  /** An access is followed by its content, and the written value drops only where it may. */
  predicate MayStand(trace: seq<Record>, i: nat)
    requires i < |trace|
  {
    i > 0 ==>
      var before, here := trace[i - 1].desc, trace[i].desc;
      && (before.INST_MEM_ACCESS? ==> here.INST_MEM_CONTENT?)
      && (before.BUS_MASTER_ACCESS? ==> here.BUS_MASTER_CONTENT?)
      && (ToEncoded(here) < ToEncoded(before) ==> MayDrop(trace, i))
  }

  predicate Belongs(d: Descriptor, headerStarted: bool, headerFinalized: bool) {
    || (d in OPENING && !headerStarted)
    || (d in HEADER_ONLY && headerStarted && !headerFinalized)
    || (d in ANYWHERE && headerStarted)
    || (d in INSTRUCTION && headerFinalized)
  }

  // What the writer remembers is about the records that it has written last.
  predicate Remembers(s: Order, trace: seq<Record>) {
    var n := |trace|;
    && s.last == (if n == 0 then RESERVED else trace[n - 1].desc)
    && s.wroteReg == s.last.INST_REG? && s.wrotePageTableWalk == s.last.PAGE_TABLE_WALK?
    && s.wroteEventGroup == (n >= 2 && trace[n - 2].desc.EVENT? && trace[n - 1].desc.EVENT_PC_TARGET?)
  }

  lemma InOrderExactly(s: Order, trace: seq<Record>, r: Record)
    requires Remembers(s, trace)
    ensures InOrder(s, r.desc) <==> MayStand(trace + [r], |trace|)
  {
    hide ToEncoded;
    var more, n := trace + [r], |trace|;
    assert more[n] == r;
    if n == 0 {
      NothingSmaller(r.desc);
    } else {
      assert more[n - 1].desc == s.last;
      assert (s.last, r.desc) in DROPS <==>
             || (s.last.INST_MEM_CONTENT? && (r.desc.INST_MEM_ACCESS? || r.desc.INST_REG?))
             || (s.last.BUS_MASTER_CONTENT? && (r.desc.BUS_MASTER_ACCESS? || r.desc.INST_REG?))
             || (s.last.PAGE_TABLE_WALK? && (r.desc.INST_REG? || r.desc.INST_PC_TARGET?))
             || (s.last.INST_REG? && r.desc.INST_PC_TARGET?);
    }
  }

  lemma NothingSmaller(d: Descriptor)
    ensures ToEncoded(d) >= ToEncoded(RESERVED)
  {
  }

  lemma InPlaceExactly(s: Order, d: Descriptor)
    requires s.headerFinalized ==> s.headerStarted
    ensures InPlace(s, d) <==> Belongs(d, s.headerStarted, s.headerFinalized)
  {
  }

  /** The records of an instruction are of all the kinds that the writer takes behind the header. */
  lemma GroupKinds(d: Descriptor)
    ensures InGroup(d) <==> Belongs(d, true, true)
  {
  }

  lemma AcceptsExactly(s: Order, trace: seq<Record>, r: Record)
    requires Remembers(s, trace) && (s.headerFinalized ==> s.headerStarted)
    ensures Accepts(s, r.desc) <==>
            MayStand(trace + [r], |trace|) && Belongs(r.desc, s.headerStarted, s.headerFinalized)
    ensures Remembers(Next(s, r.desc), trace + [r])
  {
    InOrderExactly(s, trace, r);
    InPlaceExactly(s, r.desc);
  }

  // From some place of a trace on, every record stands where it may and belongs there.
  predicate FitsFrom(trace: seq<Record>, from: nat, headerStarted: bool, headerFinalized: bool) {
    forall i :: from <= i < |trace| ==> MayStand(trace, i) && Belongs(trace[i].desc, headerStarted, headerFinalized)
  }

  lemma StandsAsBefore(trace: seq<Record>, r: Record)
    ensures forall i :: 0 <= i < |trace| ==>
              (MayStand(trace + [r], i) <==> MayStand(trace, i)) && (trace + [r])[i] == trace[i]
  {
    hide ToEncoded;
    var more := trace + [r];
    forall i | 0 <= i < |trace|
      ensures MayStand(more, i) <==> MayStand(trace, i)
    {
      assert more[i] == trace[i];
      if i > 0 {
        assert more[i - 1] == trace[i - 1];
      }
      if i > 1 {
        assert more[i - 2] == trace[i - 2];
      }
    }
  }

  lemma FitsSnoc(trace: seq<Record>, r: Record, from: nat, headerStarted: bool, headerFinalized: bool)
    requires from <= |trace|
    ensures FitsFrom(trace + [r], from, headerStarted, headerFinalized) <==>
            && FitsFrom(trace, from, headerStarted, headerFinalized)
            && MayStand(trace + [r], |trace|) && Belongs(r.desc, headerStarted, headerFinalized)
  {
    hide MayStand, Belongs;
    StandsAsBefore(trace, r);
    var more := trace + [r];
    assert more[|trace|] == r;
    if FitsFrom(more, from, headerStarted, headerFinalized) {
      forall i | from <= i < |trace|
        ensures MayStand(trace, i) && Belongs(trace[i].desc, headerStarted, headerFinalized)
      {
        assert MayStand(more, i) && Belongs(more[i].desc, headerStarted, headerFinalized);
      }
    }
  }

  /**
   * A run of records behind any trace is accepted exactly when every one of them stands where it may
   * and belongs there.
   */
  lemma {:induction false} RunExactly(s: Order, trace: seq<Record>, recs: seq<Record>)
    requires Remembers(s, trace) && (s.headerFinalized ==> s.headerStarted)
    ensures Run(s, recs).Some? <==> FitsFrom(trace + recs, |trace|, s.headerStarted, s.headerFinalized)
    ensures Run(s, recs).Some? ==> Remembers(Run(s, recs).value, trace + recs)
  {
    hide Accepts, Next, Remembers, FitsFrom;
    if recs == [] {
      assert trace + recs == trace;
      NothingFits(trace, s.headerStarted, s.headerFinalized);
    } else {
      var before, r := recs[..|recs| - 1], recs[|recs| - 1];
      assert trace + recs == (trace + before) + [r];
      RunExactly(s, trace, before);
      HeaderFlagsStay(s, before);
      FitsSnoc(trace + before, r, |trace|, s.headerStarted, s.headerFinalized);
      if Run(s, before).Some? {
        AcceptsExactly(Run(s, before).value, trace + before, r);
      }
    }
  }

  lemma NothingFits(trace: seq<Record>, headerStarted: bool, headerFinalized: bool)
    ensures FitsFrom(trace, |trace|, headerStarted, headerFinalized)
  {
  }

  // ---------------------------------------------------------------- every run of a writer

  datatype Action = CALL(call: Call) | WRITE(rec: Record)

  function DoAction(w: Writer, a: Action): Option<Writer> {
    match a
    case CALL(call) => DoCall(w, call)
    case WRITE(rec) => Emit(w, rec)
  }

  function RunActions(w: Writer, actions: seq<Action>): Option<Writer> {
    if actions == [] then Some(w)
    else
      match RunActions(w, actions[..|actions| - 1])
      case None => None
      case Some(v) => DoAction(v, actions[|actions| - 1])
  }

  // A writer that has gone on by an accepted run of records.
  ghost predicate GoneOn(w: Writer, v: Writer) {
    w.emitted <= v.emitted && Run(w.order, v.emitted[|w.emitted|..]) == Some(v.order)
  }

  lemma Stayed(w: Writer, h: Header)
    ensures GoneOn(w, w.(header := h))
  {
    assert w.emitted[|w.emitted|..] == [];
  }

  lemma GoneOnTwice(u: Writer, v: Writer, w: Writer)
    requires GoneOn(u, v) && GoneOn(v, w)
    ensures GoneOn(u, w)
  {
    hide Run;
    var a, b := v.emitted[|u.emitted|..], w.emitted[|v.emitted|..];
    RunConcat(u.order, a, b);
    assert w.emitted[|u.emitted|..] == a + b;
  }

  lemma EmitGoesOn(w: Writer, recs: seq<Record>)
    ensures EmitAll(w, recs).Some? ==> forall h :: GoneOn(w, EmitAll(w, recs).value.(header := h))
    ensures |recs| == 1 ==> Emit(w, recs[0]) == EmitAll(w, recs)
  {
    hide Run, Accepts, Next;
    EmitAllIsRun(w, recs);
    if EmitAll(w, recs).Some? {
      assert (w.emitted + recs)[|w.emitted|..] == recs;
    }
    if |recs| == 1 {
      assert recs == [recs[0]] && [recs[0]][..0] == [];
    }
  }

  lemma FirstGoesOn(w: Writer)
    ensures FlushComments(w).Some? ==> GoneOn(w, FlushComments(w).value)
    ensures FlushIsa(w).Some? ==> GoneOn(w, FlushIsa(w).value)
    ensures FlushIem(w).Some? ==> GoneOn(w, FlushIem(w).value)
  {
    hide Emit, EmitAll, GoneOn;
    var h := w.header;
    Stayed(w, h);
    EmitGoesOn(w, CommentRecords(h.comments));
    if h.isa.value.Some? {
      EmitGoesOn(w, [Record(ISA, h.isa.value.value)]);
    }
    if h.iem.value.Some? {
      EmitGoesOn(w, [Record(INST_IEM, h.iem.value.value)]);
    }
  }

  lemma InfosGoOn(w: Writer)
    ensures FlushInfos(w).Some? ==> GoneOn(w, FlushInfos(w).value)
    ensures FlushFeatures(w).Some? ==> GoneOn(w, FlushFeatures(w).value)
  {
    hide Emit, EmitAll, GoneOn;
    var h := w.header;
    Stayed(w, h);
    EmitGoesOn(w, InfoRecords(h.infos));
    EmitGoesOn(w, [FeatureRecord(h)]);
  }

  lemma OptionalGoesOn(w: Writer)
    ensures FlushProcessId(w).Some? ==> GoneOn(w, FlushProcessId(w).value)
    ensures FlushPc(w).Some? ==> GoneOn(w, FlushPc(w).value)
  {
    hide Emit, EmitAll, GoneOn;
    var h := w.header;
    Stayed(w, h);
    if h.processId.value.Some? {
      EmitGoesOn(w, [Record(PROCESS_ID_EXT, h.processId.value.value)]);
    }
    if h.pc.value.Some? {
      EmitGoesOn(w, [Record(FORCE_PC, h.pc.value.value)]);
    }
  }

  lemma ConfigGoesOn(w: Writer)
    ensures FlushVlen(w).Some? ==> GoneOn(w, FlushVlen(w).value)
    ensures FlushIsaExtended(w).Some? ==> GoneOn(w, FlushIsaExtended(w).value)
  {
    hide Emit, EmitAll, GoneOn;
    var h := w.header;
    Stayed(w, h);
    if h.vlen.value.Some? {
      EmitGoesOn(w, [Record(VLEN_CONFIG, h.vlen.value.value)]);
    }
    if h.isaExtended.value.Some? {
      EmitGoesOn(w, [Record(ISA_EXTENDED, h.isaExtended.value.value)]);
    }
  }

  lemma FlushGoesOn(w: Writer)
    requires FlushHeader(w).Some?
    ensures GoneOn(w, FlushHeader(w).value)
  {
    hide GoneOn, FlushComments, FlushIsa, FlushIem, FlushInfos, FlushFeatures, FlushProcessId, FlushPc, FlushVlen,
         FlushIsaExtended;
    var a := FlushComments(w).value;
    FirstGoesOn(w);
    var b := FlushIsa(a).value;
    FirstGoesOn(a);
    GoneOnTwice(w, a, b);
    var c := FlushIem(b).value;
    FirstGoesOn(b);
    GoneOnTwice(w, b, c);
    var d := FlushInfos(c).value;
    InfosGoOn(c);
    GoneOnTwice(w, c, d);
    var e := FlushFeatures(d).value;
    InfosGoOn(d);
    GoneOnTwice(w, d, e);
    var f := FlushProcessId(e).value;
    OptionalGoesOn(e);
    GoneOnTwice(w, e, f);
    var g := FlushPc(f).value;
    OptionalGoesOn(f);
    GoneOnTwice(w, f, g);
    var i := FlushVlen(g).value;
    ConfigGoesOn(g);
    GoneOnTwice(w, g, i);
    ConfigGoesOn(i);
    GoneOnTwice(w, i, FlushIsaExtended(i).value);
  }

  // Where a record belongs, by what came before it.
  ghost predicate Placed(trace: seq<Record>, i: nat)
    requires i < |trace|
  {
    var d := trace[i].desc;
    && (d in OPENING ==> i < 2)
    && (d in INSTRUCTION ==> exists j :: 0 <= j < i && trace[j].desc.END_HEADER?)
    && (d in HEADER_ONLY ==> forall j :: 0 <= j < i ==> trace[j].desc !in INSTRUCTION)
    && d in OPENING + HEADER_ONLY + ANYWHERE + INSTRUCTION
  }

  ghost predicate WellPlaced(trace: seq<Record>) {
    forall i :: 0 <= i < |trace| ==> MayStand(trace, i) && Placed(trace, i)
  }

  ghost predicate Keeps(w: Writer) {
    && |w.emitted| >= 2 && w.order.headerStarted && Remembers(w.order, w.emitted) && WellPlaced(w.emitted)
    && (w.order.headerFinalized ==> exists j :: 0 <= j < |w.emitted| && w.emitted[j].desc.END_HEADER?)
    && (!w.order.headerFinalized ==> forall r :: r in w.emitted ==> r.desc !in INSTRUCTION)
  }

  lemma OneMorePlaced(w: Writer, r: Record)
    requires Keeps(w) && Emit(w, r).Some?
    ensures Keeps(Emit(w, r).value)
  {
    hide MayStand, Placed, Accepts, Next, Belongs, Remembers;
    AcceptsExactly(w.order, w.emitted, r);
    NextKeepsFlags(w.order, r.desc);
    StandsAsBefore(w.emitted, r);
    var more := w.emitted + [r];
    forall i | 0 <= i < |more|
      ensures MayStand(more, i) && Placed(more, i)
    {
      if i < |w.emitted| {
        PlacedAsBefore(w.emitted, r, i);
      } else {
        NewlyPlaced(w, r);
      }
    }
    if w.order.headerFinalized {
      var j :| 0 <= j < |w.emitted| && w.emitted[j].desc.END_HEADER?;
      assert more[j] == w.emitted[j];
    } else {
      NoInstruction(r.desc);
    }
  }

  lemma NextKeepsFlags(s: Order, d: Descriptor)
    ensures Next(s, d).headerStarted == s.headerStarted && Next(s, d).headerFinalized == s.headerFinalized
  {
  }

  lemma NoInstruction(d: Descriptor)
    ensures Belongs(d, true, false) ==> d !in INSTRUCTION
  {
  }

  lemma PlacedAsBefore(trace: seq<Record>, r: Record, i: nat)
    requires i < |trace| && Placed(trace, i)
    ensures Placed(trace + [r], i)
  {
    var more := trace + [r];
    assert more[i] == trace[i];
    if trace[i].desc in INSTRUCTION {
      var j :| 0 <= j < i && trace[j].desc.END_HEADER?;
      assert more[j] == trace[j];
    }
  }

  lemma NewlyPlaced(w: Writer, r: Record)
    requires Keeps(w) && Belongs(r.desc, w.order.headerStarted, w.order.headerFinalized)
    ensures Placed(w.emitted + [r], |w.emitted|)
  {
    hide MayStand, Remembers, WellPlaced;
    var more, n := w.emitted + [r], |w.emitted|;
    assert more[n] == r;
    if w.order.headerFinalized {
      var j :| 0 <= j < n && w.emitted[j].desc.END_HEADER?;
      assert more[j] == w.emitted[j];
    }
    assert r.desc in HEADER_ONLY ==> r.desc !in INSTRUCTION && r.desc !in OPENING;
    assert r.desc in INSTRUCTION ==> r.desc !in OPENING;
  }

  lemma {:induction false} RunPlaced(w: Writer, recs: seq<Record>)
    requires Keeps(w) && EmitAll(w, recs).Some?
    ensures Keeps(EmitAll(w, recs).value)
  {
    hide Keeps, Emit;
    if recs != [] {
      RunPlaced(w, recs[..|recs| - 1]);
      OneMorePlaced(EmitAll(w, recs[..|recs| - 1]).value, recs[|recs| - 1]);
    }
  }

  lemma GoneOnPlaced(w: Writer, v: Writer)
    requires Keeps(w) && GoneOn(w, v)
    ensures Keeps(v)
  {
    hide Run, MayStand, Placed, Remembers;
    var recs := v.emitted[|w.emitted|..];
    EmitAllIsRun(w, recs);
    RunPlaced(w, recs);
    assert w.emitted + recs == v.emitted;
  }

  lemma FinalizePlaced(w: Writer)
    requires Keeps(w) && FinalizeHeader(w).Some?
    ensures Keeps(FinalizeHeader(w).value)
  {
    hide FlushHeader, Emit, WithEvent64, LooksComplete, Keeps, GoneOn;
    if !w.order.headerFinalized {
      var ready := w.(header := WithEvent64(w.header));
      HeaderApart(w, ready);
      if !LooksComplete(ready.header) {
        FlushGoesOn(ready);
        GoneOnPlaced(ready, FlushHeader(ready).value);
      }
      var v := if LooksComplete(ready.header) then ready else FlushHeader(ready).value;
      OneMorePlaced(v, Record(END_HEADER, Number(0)));
      EndPlaced(v);
    }
  }

  lemma HeaderApart(w: Writer, v: Writer)
    requires Keeps(w) && v.order == w.order && v.emitted == w.emitted
    ensures Keeps(v)
  {
  }

  lemma EndPlaced(w: Writer)
    requires Emit(w, Record(END_HEADER, Number(0))).Some?
    requires Keeps(Emit(w, Record(END_HEADER, Number(0))).value)
    ensures var u := Emit(w, Record(END_HEADER, Number(0))).value; Keeps(u.(order := u.order.(headerFinalized := true)))
  {
    hide Accepts, MayStand, Placed, WellPlaced;
    var u := Emit(w, Record(END_HEADER, Number(0))).value;
    assert u.emitted[|w.emitted|].desc.END_HEADER?;
  }

  lemma OpenedKeeps()
    ensures Keeps(OPENED)
  {
    var e := OPENED.emitted;
    forall i | 0 <= i < |e|
      ensures MayStand(e, i) && Placed(e, i)
    {
    }
  }

  /**
   * In every run that does not throw, of setters, flushes, finalization and records written: every
   * access is followed by its content, the written value drops only where it may, identifier and
   * version are only at the start, no instruction record comes before the end of the header, and no
   * record of the header behind one.
   */
  lemma {:induction false} EveryRunIsWellPlaced(actions: seq<Action>)
    requires RunActions(OPENED, actions).Some?
    ensures Keeps(RunActions(OPENED, actions).value)
  {
    if actions == [] {
      OpenedKeeps();
    } else {
      hide Keeps, Emit, FlushHeader, FinalizeHeader, Set;
      var before := actions[..|actions| - 1];
      EveryRunIsWellPlaced(before);
      var w := RunActions(OPENED, before).value;
      match actions[|actions| - 1]
      case CALL(SETTER(op)) => HeaderApart(w, w.(header := Set(w.header, op)));
      case CALL(FLUSH) =>
        FlushGoesOn(w);
        GoneOnPlaced(w, FlushHeader(w).value);
      case CALL(FINALIZE) => FinalizePlaced(w);
      case WRITE(rec) => OneMorePlaced(w, rec);
    }
  }

  lemma {:induction false} FinalizedExactly(actions: seq<Action>)
    requires RunActions(OPENED, actions).Some?
    ensures RunActions(OPENED, actions).value.order.headerFinalized <==> CALL(FINALIZE) in actions
  {
    if actions != [] {
      hide Emit, FlushHeader, FinalizeHeader, Set, GoneOn;
      var before, last := actions[..|actions| - 1], actions[|actions| - 1];
      assert actions == before + [last];
      FinalizedExactly(before);
      var w := RunActions(OPENED, before).value;
      match last
      case CALL(SETTER(op)) =>
      case CALL(FLUSH) =>
        FlushGoesOn(w);
        FlagStays(w, FlushHeader(w).value);
      case CALL(FINALIZE) => FinalizeSetsFlag(w);
      case WRITE(rec) => EmitKeepsFlag(w, rec);
    }
  }

  lemma FlagStays(w: Writer, v: Writer)
    requires GoneOn(w, v)
    ensures v.order.headerFinalized == w.order.headerFinalized
  {
    hide Run;
    HeaderFlagsStay(w.order, v.emitted[|w.emitted|..]);
  }

  lemma EmitKeepsFlag(w: Writer, r: Record)
    ensures Emit(w, r).Some? ==> Emit(w, r).value.order.headerFinalized == w.order.headerFinalized
  {
    hide Accepts;
  }

  lemma FinalizeSetsFlag(w: Writer)
    ensures FinalizeHeader(w).Some? ==> FinalizeHeader(w).value.order.headerFinalized
  {
    hide FlushHeader, Emit, WithEvent64, LooksComplete;
  }

  /**
   * Conversely, behind any run the writer takes every run of records of that shape, and no other: each
   * stands where it may, and belongs in the header or behind it as the run has finalized it or not.
   */
  lemma WrittenExactly(actions: seq<Action>, recs: seq<Record>)
    requires RunActions(OPENED, actions).Some?
    ensures var w := RunActions(OPENED, actions).value;
            && (EmitAll(w, recs).Some? <==>
                FitsFrom(w.emitted + recs, |w.emitted|, true, CALL(FINALIZE) in actions))
            && (EmitAll(w, recs).Some? ==> EmitAll(w, recs).value.emitted == w.emitted + recs)
  {
    hide FitsFrom, Run, Remembers, WellPlaced, RunActions;
    EveryRunIsWellPlaced(actions);
    FinalizedExactly(actions);
    var w := RunActions(OPENED, actions).value;
    RunExactly(w.order, w.emitted, recs);
    EmitAllIsRun(w, recs);
  }
}
