/**
 * The trace writer as an object updated in place: the order check on every record, the header and
 * the writing of an instruction's records.
 */
module STFWriters {
  import opened FlatMaps
  import opened Descriptors
  import opened Records
  import opened RecordMaps
  import opened RecordOrder
  import opened GroupOutputs
  import opened Headers
  import opened WriterRuns

  class STFWriter {
    // the records in the stream
    var emitted: seq<Record>

    var lastDesc: Descriptor
    var wroteEventRecordGroup: bool
    var wrotePageTableWalk: bool
    var wroteReg: bool
    var headerStarted: bool
    var headerFinalized: bool

    var headerComments: seq<string>
    var headerCommentsWritten: bool
    var isa: Field
    var initialIem: Field
    var traceInfoRecords: seq<Body>
    var traceInfoRecordsWritten: bool
    var traceFeatures: Option<set<nat>>
    var traceFeaturesWritten: bool
    var initialProcessId: Field
    var initialPc: Field
    var vlenConfig: Field
    var isaExtended: Field
    var force32BitEvents: bool

    ghost function CurrentOrder(): Order
      reads `lastDesc, `wroteEventRecordGroup, `wrotePageTableWalk, `wroteReg, `headerStarted, `headerFinalized
    {
      Order(lastDesc, wroteEventRecordGroup, wrotePageTableWalk, wroteReg, headerStarted, headerFinalized)
    }

    ghost function CurrentHeader(): Header
      reads `headerComments, `headerCommentsWritten, `isa, `initialIem, `traceInfoRecords, `traceInfoRecordsWritten,
            `traceFeatures, `traceFeaturesWritten, `initialProcessId, `initialPc, `vlenConfig, `isaExtended,
            `force32BitEvents
    {
      Header(headerComments, headerCommentsWritten, isa, initialIem, traceInfoRecords, traceInfoRecordsWritten,
             traceFeatures, traceFeaturesWritten, initialProcessId, initialPc, vlenConfig, isaExtended,
             force32BitEvents)
    }

    ghost function State(): Writer
      reads this
    {
      Writer(CurrentHeader(), CurrentOrder(), emitted)
    }

    /** Opens a trace: the identifier and the version come first. */
    constructor ()
      ensures State() == OPENED
    {
      emitted := [];
      lastDesc := RESERVED;
      wroteEventRecordGroup, wrotePageTableWalk, wroteReg, headerStarted, headerFinalized := false, false, false,
        false, false;
      headerComments, headerCommentsWritten, traceInfoRecords, traceInfoRecordsWritten := [], false, [], false;
      traceFeatures, traceFeaturesWritten, force32BitEvents := None, false, false;
      isa, initialIem, initialProcessId, initialPc, vlenConfig, isaExtended := UNSET, UNSET, UNSET, UNSET, UNSET, UNSET;
      new;
      hide Emit;
      ghost var order := Order(RESERVED, false, false, false, false, false);
      FirstTwoRecords();
      assert State() == Writer(EMPTY, order, []);
      var ok1 := Write(IDENTIFIER_RECORD);
      var ok2 := Write(VERSION_RECORD);
      headerStarted := true;
    }

    // Whether a record with the given descriptor may stand behind what was written, and belongs there.
    method CheckOrder(desc: Descriptor) returns (ok: bool)
      ensures ok <==> Accepts(CurrentOrder(), desc)
      ensures Remembers(CurrentOrder(), emitted) && (headerFinalized ==> headerStarted) ==>
                (ok <==> MayStand(emitted + [Record(desc, Number(0))], |emitted|)
                         && Belongs(desc, headerStarted, headerFinalized))
    {
      hide ToEncoded, InPlace, MayStand, Remembers, Belongs;
      if Remembers(CurrentOrder(), emitted) && (headerFinalized ==> headerStarted) {
        AcceptsExactly(CurrentOrder(), emitted, Record(desc, Number(0)));
      }
      var lastWasMemoryAccess, lastWasBusAccess := lastDesc.INST_MEM_ACCESS?, lastDesc.BUS_MASTER_ACCESS?;
      var lastWasMemoryContent, lastWasBusContent := lastDesc.INST_MEM_CONTENT?, lastDesc.BUS_MASTER_CONTENT?;
      if lastWasMemoryAccess && !desc.INST_MEM_CONTENT? {
        return false;
      }
      if lastWasBusAccess && !desc.BUS_MASTER_CONTENT? {
        return false;
      }
      if !(ToEncoded(desc) >= ToEncoded(lastDesc)
           || IsInstructionRecord(lastDesc)
           || (lastWasMemoryContent && desc.INST_MEM_ACCESS?)
           || (lastWasBusContent && desc.BUS_MASTER_ACCESS?)
           || (wroteEventRecordGroup && desc.EVENT?)
           || ((wrotePageTableWalk || wroteReg) && desc.INST_PC_TARGET?)
           || (wrotePageTableWalk && desc.INST_REG?)
           || ((lastWasMemoryContent || lastWasBusContent) && desc.INST_REG?)
           || desc.COMMENT? || desc.PROCESS_ID_EXT? || desc.FORCE_PC?)
      {
        return false;
      }
      ok := InPlace(Order(lastDesc, wroteEventRecordGroup, wrotePageTableWalk, wroteReg, headerStarted,
                          headerFinalized), desc);
    }

    /**
     * Writes a record if it may stand behind what was written and belongs there; otherwise throws and
     * writes nothing.
     */
    method Write(rec: Record) returns (ok: bool)
      modifies `emitted, `lastDesc, `wroteEventRecordGroup, `wrotePageTableWalk, `wroteReg
      ensures ok <==> Emit(old(State()), rec).Some?
      ensures State() == if ok then Emit(old(State()), rec).value else old(State())
      ensures CurrentHeader() == old(CurrentHeader())
    {
      hide Accepts, STFWriter.CurrentHeader;
      ok := CheckOrder(rec.desc);
      if ok {
        emitted := emitted + [rec];
        var lastWasEvent := lastDesc.EVENT?;
        wroteEventRecordGroup := rec.desc.EVENT_PC_TARGET? && lastWasEvent;
        wrotePageTableWalk := rec.desc.PAGE_TABLE_WALK?;
        wroteReg := rec.desc.INST_REG?;
        lastDesc := rec.desc;
      }
    }

    // ---------------------------------------------------------------- the header

    method SetISA(n: nat)
      modifies `isa
      ensures State() == old(State()).(header := Set(old(CurrentHeader()), SET_ISA(n)))
    {
      isa := isa.(value := Some(Number(n)));
    }

    method SetHeaderIEM(n: nat)
      modifies `initialIem
      ensures State() == old(State()).(header := Set(old(CurrentHeader()), SET_IEM(n)))
    {
      initialIem := initialIem.(value := Some(Number(n)));
    }

    method SetHeaderPC(n: nat)
      modifies `initialPc
      ensures State() == old(State()).(header := Set(old(CurrentHeader()), SET_PC(n)))
    {
      initialPc := initialPc.(value := Some(Number(n)));
    }

    method SetVLen(n: nat)
      modifies `vlenConfig
      ensures State() == old(State()).(header := Set(old(CurrentHeader()), SET_VLEN(n)))
    {
      vlenConfig := vlenConfig.(value := Some(Number(n)));
    }

    method SetHeaderProcessID(hw: nat, pid: nat, tid: nat)
      modifies `initialProcessId
      ensures State() == old(State()).(header := Set(old(CurrentHeader()), SET_PROCESS_ID(hw, pid, tid)))
    {
      initialProcessId := initialProcessId.(value := Some(Ids(hw, pid, tid)));
    }

    method SetISAExtendedInfo(info: string)
      modifies `isaExtended
      ensures State() == old(State()).(header := Set(old(CurrentHeader()), SET_ISA_EXTENDED(info)))
    {
      if info == "" {
        isaExtended := isaExtended.(value := None);
      } else {
        isaExtended := isaExtended.(value := Some(Text(info)));
      }
    }

    method AddHeaderComment(comment: string)
      modifies `headerComments
      ensures State() == old(State()).(header := Set(old(CurrentHeader()), ADD_COMMENT(comment)))
    {
      headerComments := headerComments + [comment];
    }

    method AddTraceInfo(info: Body)
      modifies `traceInfoRecords
      ensures State() == old(State()).(header := Set(old(CurrentHeader()), ADD_TRACE_INFO(info)))
    {
      traceInfoRecords := traceInfoRecords + [info];
    }

    method SetTraceFeature(feature: nat)
      modifies `traceFeatures
      ensures State() == old(State()).(header := Set(old(CurrentHeader()), SET_FEATURE(feature)))
    {
      if traceFeatures.None? {
        traceFeatures := Some({feature});
        assert {} + {feature} == {feature};
      } else {
        traceFeatures := Some(traceFeatures.value + {feature});
      }
    }

    method DisableTraceFeature(feature: nat)
      modifies `traceFeatures, `force32BitEvents
      ensures State() == old(State()).(header := Set(old(CurrentHeader()), DISABLE_FEATURE(feature)))
    {
      if feature == EVENT64 {
        force32BitEvents := true;
      }
      if traceFeatures.Some? {
        traceFeatures := Some(traceFeatures.value - {feature});
      }
    }

    // Writes records one after the other, until one is refused.
    method WriteEach(recs: seq<Record>) returns (ok: bool)
      modifies `emitted, `lastDesc, `wroteEventRecordGroup, `wrotePageTableWalk, `wroteReg
      ensures ok <==> EmitAll(old(State()), recs).Some?
      ensures ok ==> State() == EmitAll(old(State()), recs).value
    {
      hide Emit;
      var i := 0;
      while i < |recs|
        invariant 0 <= i <= |recs|
        invariant EmitAll(old(State()), recs[..i]) == Some(State())
      {
        OneMoreEmitted(old(State()), recs, i);
        ok := Write(recs[i]);
        if !ok {
          NothingAfterRefusal(old(State()), recs, i + 1);
          return;
        }
        i := i + 1;
      }
      assert recs[..i] == recs;
      return true;
    }

    // ---- a flush, stage by stage

    method FlushCommentBlock() returns (ok: bool)
      modifies this
      ensures ok <==> FlushComments(old(State())).Some?
      ensures ok ==> State() == FlushComments(old(State())).value
    {
      hide Emit, EmitAll;
      if !headerCommentsWritten && headerComments != [] {
        if isa.written || initialIem.written || initialPc.written || traceInfoRecordsWritten || traceFeaturesWritten {
          return false;
        }
        ok := WriteEach(CommentRecords(headerComments));
        if !ok {
          return;
        }
        EmitAllKeepsHeader(old(State()), CommentRecords(headerComments));
        headerCommentsWritten := true;
      }
      return true;
    }

    method FlushIsaRecord() returns (ok: bool)
      modifies `emitted, `lastDesc, `wroteEventRecordGroup, `wrotePageTableWalk, `wroteReg, `isa
      ensures ok <==> FlushIsa(old(State())).Some?
      ensures ok ==> State() == FlushIsa(old(State())).value
    {
      hide Emit;
      if !isa.written && isa.value.Some? {
        if initialIem.written || initialPc.written || traceInfoRecordsWritten || traceFeaturesWritten {
          return false;
        }
        ok := Write(Record(ISA, isa.value.value));
        if !ok {
          return;
        }
        isa := isa.(written := true);
      }
      return true;
    }

    method FlushIemRecord() returns (ok: bool)
      modifies `emitted, `lastDesc, `wroteEventRecordGroup, `wrotePageTableWalk, `wroteReg, `initialIem
      ensures ok <==> FlushIem(old(State())).Some?
      ensures ok ==> State() == FlushIem(old(State())).value
    {
      hide Emit;
      if !initialIem.written && initialIem.value.Some? {
        if !isa.written || initialPc.written || traceInfoRecordsWritten || traceFeaturesWritten {
          return false;
        }
        ok := Write(Record(INST_IEM, initialIem.value.value));
        if !ok {
          return;
        }
        initialIem := initialIem.(written := true);
      }
      return true;
    }

    method FlushTraceInfos() returns (ok: bool)
      modifies this
      ensures ok <==> FlushInfos(old(State())).Some?
      ensures ok ==> State() == FlushInfos(old(State())).value
    {
      hide Emit, EmitAll;
      if !traceInfoRecordsWritten && traceInfoRecords != [] {
        if !isa.written || !initialIem.written || initialPc.written || traceFeaturesWritten {
          return false;
        }
        ok := WriteEach(InfoRecords(traceInfoRecords));
        if !ok {
          return;
        }
        EmitAllKeepsHeader(old(State()), InfoRecords(traceInfoRecords));
        traceInfoRecordsWritten := true;
      }
      return true;
    }

    method FlushTraceFeatures() returns (ok: bool)
      modifies `emitted, `lastDesc, `wroteEventRecordGroup, `wrotePageTableWalk, `wroteReg, `traceFeatures,
               `traceFeaturesWritten
      ensures ok <==> FlushFeatures(old(State())).Some?
      ensures ok ==> State() == FlushFeatures(old(State())).value
    {
      hide Emit;
      if !traceFeaturesWritten {
        if !isa.written || !initialIem.written || !traceInfoRecordsWritten || initialPc.written {
          return false;
        }
        ghost var w := State();
        if traceFeatures.None? {
          traceFeatures := Some({});
        }
        EmitIgnoresHeader(w, State(), Record(TRACE_INFO_FEATURE, Features(traceFeatures.value)));
        ok := Write(Record(TRACE_INFO_FEATURE, Features(traceFeatures.value)));
        if !ok {
          return;
        }
        traceFeaturesWritten := true;
      }
      return true;
    }

    method FlushProcessIdRecord() returns (ok: bool)
      modifies `emitted, `lastDesc, `wroteEventRecordGroup, `wrotePageTableWalk, `wroteReg, `initialProcessId
      ensures ok <==> FlushProcessId(old(State())).Some?
      ensures ok ==> State() == FlushProcessId(old(State())).value
    {
      hide Emit;
      if !initialProcessId.written && initialProcessId.value.Some? {
        ok := Write(Record(PROCESS_ID_EXT, initialProcessId.value.value));
        if !ok {
          return;
        }
        initialProcessId := initialProcessId.(written := true);
      }
      return true;
    }

    method FlushPcRecord() returns (ok: bool)
      modifies `emitted, `lastDesc, `wroteEventRecordGroup, `wrotePageTableWalk, `wroteReg, `initialPc
      ensures ok <==> FlushPc(old(State())).Some?
      ensures ok ==> State() == FlushPc(old(State())).value
    {
      hide Emit;
      if !initialPc.written && initialPc.value.Some? {
        if !isa.written || !initialIem.written || !traceInfoRecordsWritten || !traceFeaturesWritten {
          return false;
        }
        ok := Write(Record(FORCE_PC, initialPc.value.value));
        if !ok {
          return;
        }
        initialPc := initialPc.(written := true);
      }
      return true;
    }

    method FlushVlenRecord() returns (ok: bool)
      modifies `emitted, `lastDesc, `wroteEventRecordGroup, `wrotePageTableWalk, `wroteReg, `vlenConfig
      ensures ok <==> FlushVlen(old(State())).Some?
      ensures ok ==> State() == FlushVlen(old(State())).value
    {
      hide Emit;
      if !vlenConfig.written && vlenConfig.value.Some? {
        ok := Write(Record(VLEN_CONFIG, vlenConfig.value.value));
        if !ok {
          return;
        }
        vlenConfig := vlenConfig.(written := true);
      }
      return true;
    }

    method FlushIsaExtendedRecord() returns (ok: bool)
      modifies `emitted, `lastDesc, `wroteEventRecordGroup, `wrotePageTableWalk, `wroteReg, `isaExtended
      ensures ok <==> FlushIsaExtended(old(State())).Some?
      ensures ok ==> State() == FlushIsaExtended(old(State())).value
    {
      hide Emit;
      if !isaExtended.written && isaExtended.value.Some? {
        ok := Write(Record(ISA_EXTENDED, isaExtended.value.value));
        if !ok {
          return;
        }
        isaExtended := isaExtended.(written := true);
      }
      return true;
    }

    /** Writes whatever is set and not yet written, in header order; throws when that order is no longer possible. */
    method FlushHeader() returns (ok: bool)
      modifies this
      ensures ok <==> Headers.FlushHeader(old(State())).Some?
      ensures ok ==> State() == Headers.FlushHeader(old(State())).value
    {
      hide FlushComments, FlushIsa, FlushIem, FlushInfos, FlushFeatures, FlushProcessId, FlushPc, FlushVlen,
           FlushIsaExtended;
      if headerFinalized {
        return false;
      }
      ok := FlushFirstStages();
      if !ok {
        return;
      }
      ok := FlushRestStages();
    }

    method FlushFirstStages() returns (ok: bool)
      modifies this
      ensures ok <==> FlushFirst(old(State())).Some?
      ensures ok ==> State() == FlushFirst(old(State())).value
    {
      hide FlushComments, FlushIsa, FlushIem, FlushInfos, FlushFeatures, STFWriter.State;
      ok := FlushCommentBlock();
      if ok {
        ok := FlushIsaRecord();
        if ok {
          ok := FlushIemRecord();
          if ok {
            ok := FlushTraceInfos();
            if ok {
              ok := FlushTraceFeatures();
            }
          }
        }
      }
    }

    method FlushRestStages() returns (ok: bool)
      modifies this
      ensures ok <==> FlushRest(old(State())).Some?
      ensures ok ==> State() == FlushRest(old(State())).value
    {
      hide FlushProcessId, FlushPc, FlushVlen, FlushIsaExtended, STFWriter.State;
      ok := FlushProcessIdRecord();
      if ok {
        ok := FlushPcRecord();
        if ok {
          ok := FlushVlenRecord();
          if ok {
            ok := FlushIsaExtendedRecord();
          }
        }
      }
    }

    method FinalizeHeader() returns (ok: bool)
      modifies this
      ensures ok <==> Headers.FinalizeHeader(old(State())).Some?
      ensures ok ==> State() == Headers.FinalizeHeader(old(State())).value
    {
      hide Headers.FlushHeader, Emit;
      if headerFinalized {
        return true;
      }
      if !headerStarted {
        return false;
      }
      var isRiscv := isa.value == Some(Number(RISCV));
      var isRiscv64 := isRiscv && initialIem.value == Some(Number(RV64));
      if !force32BitEvents && isRiscv64 {
        SetTraceFeature(EVENT64);
      }
      assert State() == old(State()).(header := WithEvent64(old(CurrentHeader())));
      if !(headerCommentsWritten && isa.written && initialIem.written && initialPc.written && traceInfoRecordsWritten
           && traceFeaturesWritten && (vlenConfig.written || vlenConfig.value.None?))
      {
        ok := FlushHeader();
        if !ok {
          return;
        }
      }
      ok := Write(Record(END_HEADER, Number(0)));
      if ok {
        headerFinalized := true;
      }
    }

    // ---------------------------------------------------------------- instructions

    /**
     * Writes two vectors of records pair by pair.  It throws when a record is refused or when there
     * are not enough second records, and for accesses also when there are too many; targets that are
     * left over are dropped.
     */
    method WriteRecordPairs(first: seq<Record>, second: seq<Record>, isEvent: bool) returns (ok: bool)
      requires forall r :: r in first ==> (r.desc.EVENT? <==> isEvent)
      modifies this
      ensures ok <==> Enough(first, second, isEvent) && EmitAll(old(State()), Pairs(first, second)).Some?
      ensures ok ==> State() == EmitAll(old(State()), Pairs(first, second)).value
    {
      hide Emit, EmitAll, Zip, PairAt, STFWriter.State;
      ghost var w := State();
      if isEvent && |first| == 1 && IsModeChange(first[0]) {
        assert first[0] in first;
        ok := Write(first[0]);
        LoneEvent(w, first, second);
        if ok && second != [] {
          if |second| != 1 {
            return false;
          }
          ok := Write(second[0]);
        }
      } else {
        assert !StandaloneModeChange(first) by {
          assert |first| == 1 ==> first[0] in first;
        }
        if !isEvent {
          AllTakeSecond(first, |first|);
          if |second| != |first| {
            return false;
          }
        }
        ok := WriteZipped(first, second, isEvent);
      }
    }

    // The loop of WriteRecordPairs.
    method WriteZipped(first: seq<Record>, second: seq<Record>, isEvent: bool) returns (ok: bool)
      requires forall r :: r in first ==> (r.desc.EVENT? <==> isEvent)
      modifies this
      ensures ok <==> Taken(first, |first|) <= |second| && EmitAll(old(State()), Zip(first, second, |first|)).Some?
      ensures ok ==> State() == EmitAll(old(State()), Zip(first, second, |first|)).value
    {
      hide Emit, EmitAll, Zip, PairAt, STFWriter.State;
      ghost var w := State();
      var i, j := 0, 0;
      NothingZipped(w, first, second);
      while i < |first|
        invariant 0 <= i <= |first| && j == Taken(first, i) <= |second|
        invariant EmitAll(w, Zip(first, second, i)) == Some(State())
      {
        assert first[i] in first;
        PairEmitted(w, first, second, i, State());
        PairRefused(w, first, second, i);
        ok := Write(first[i]);
        if !ok {
          return;
        }
        if !(isEvent && IsModeChange(first[i])) {
          if j >= |second| {
            return false;
          }
          ok := Write(second[j]);
          if !ok {
            return;
          }
          j := j + 1;
        }
        i := i + 1;
      }
      return true;
    }

    // What is written at a descriptor's turn.
    method WriteSegment(records: RecordMap, d: Descriptor) returns (ok: bool)
      requires records.Valid()
      modifies this, records`used
      ensures records.Valid()
      ensures ok <==> Writable(records.log, d) && EmitAll(old(State()), Segment(records.log, d)).Some?
      ensures ok ==> State() == EmitAll(old(State()), Segment(records.log, d)).value
    {
      hide Emit, EmitAll, Filter, Enough, Pairs, STFWriter.State;
      ghost var w := State();
      FilterHasOne(records.log, d);
      var v := records.At(d);
      if PairedWith(d).Some? {
        var u := records.At(PairedWith(d).value);
        ok := WriteRecordPairs(Items(v), Items(u), d.EVENT?);
      } else if IsSecond(d) {
        NothingEmitted(w);
        return true;
      } else {
        ok := WriteEach(Items(v));
      }
    }

    /**
     * Writes an instruction's records from its map, in trace order, accesses and events together with
     * their contents and targets.  It goes through exactly when every turn has enough second records
     * and every record is accepted; a proper group, at its place, is always written.
     */
    method WriteInst(records: RecordMap) returns (ok: bool)
      requires records.Valid()
      modifies this, records`used
      ensures records.Valid() && |SORTED| == NUM_INTERNAL
      ensures var log := records.log;
              && (ok <==> Complete(log, NUM_INTERNAL)
                          && EmitAll(old(State()), RecordOrder.Written(log, NUM_INTERNAL)).Some?)
              && (ok ==> State() == EmitAll(old(State()), RecordOrder.Written(log, NUM_INTERNAL)).value)
      ensures ok ==>
                && emitted == old(emitted) + RecordOrder.Written(records.log, NUM_INTERNAL)
                && PairsTogether(RecordOrder.Written(records.log, NUM_INTERNAL), records.log)
      ensures IsGroup(records.log) && AtGroupStart(old(CurrentOrder())) ==>
                && (ok <==> StartsWell(old(CurrentOrder()), records.log))
                && (ok ==> AtGroupStart(CurrentOrder()))
    {
      hide Emit, EmitAll, SortedBelow, IsGroup, AtGroupStart, Filter, Segment, Writable, NoneFrom, RecordOrder.Written,
           STFWriter.State, PairsTogether;
      SortedSequence();
      StateShown();
      ghost var w, log := State(), records.log;
      if IsGroup(log) && AtGroupStart(w.order) {
        GroupEmitted(w, log);
      }
      var k := records.SkipUnused(0);
      NothingWrittenYet(w, log);
      SkippedSegments(log, 0, k);
      while k < NUM_INTERNAL
        invariant 0 <= k <= NUM_INTERNAL && records.Valid() && records.log == log
        invariant Complete(log, k) && EmitAll(w, RecordOrder.Written(log, k)) == Some(State())
      {
        var d := SORTED[k];
        SegmentEmitted(w, log, k, State());
        ok := WriteSegment(records, d);
        if !ok {
          if Complete(log, NUM_INTERNAL) {
            WrittenRefused(w, log, k + 1, NUM_INTERNAL);
          }
          return;
        }
        var next := records.SkipUnused(k + 1);
        SkippedSegments(log, k + 1, next);
        k := next;
      }
      StateShown();
      EmitAllIsRun(w, RecordOrder.Written(log, NUM_INTERNAL));
      WrittenPairs(log);
      return true;
    }

    lemma StateShown()
      ensures State().emitted == emitted && State().order == CurrentOrder()
    {
    }
  }

  lemma FirstTwoRecords()
    ensures var w := Writer(EMPTY, Order(RESERVED, false, false, false, false, false), []);
            && Emit(w, IDENTIFIER_RECORD).Some? && Emit(Emit(w, IDENTIFIER_RECORD).value, VERSION_RECORD).Some?
            && var v := Emit(Emit(w, IDENTIFIER_RECORD).value, VERSION_RECORD).value;
               v.(order := v.order.(headerStarted := true)) == OPENED
  {
    assert [IDENTIFIER_RECORD] + [VERSION_RECORD] == OPENED.emitted;
  }

  lemma EmitIgnoresHeader(w: Writer, v: Writer, r: Record)
    requires v == w.(header := v.header)
    ensures Emit(v, r).Some? <==> Emit(w, r).Some?
    ensures Emit(w, r).Some? ==> Emit(v, r).value == Emit(w, r).value.(header := v.header)
  {
  }

  lemma NothingEmitted(w: Writer)
    ensures EmitAll(w, []) == Some(w)
  {
  }

  lemma {:induction false} EmitAllConcat(w: Writer, a: seq<Record>, b: seq<Record>)
    ensures EmitAll(w, a + b) == match EmitAll(w, a) { case None => None case Some(v) => EmitAll(v, b) }
  {
    hide Emit;
    if b == [] {
      assert a + b == a;
    } else {
      var n := |b| - 1;
      assert (a + b)[..|a + b| - 1] == a + b[..n];
      EmitAllConcat(w, a, b[..n]);
    }
  }

  lemma EmitOne(w: Writer, r: Record)
    ensures EmitAll(w, [r]) == Emit(w, r)
  {
    hide Emit;
    assert [r][..0] == [];
  }

  lemma LoneEvent(w: Writer, first: seq<Record>, second: seq<Record>)
    requires |first| == 1
    ensures |second| <= 1 ==>
              EmitAll(w, first + second) ==
              if second == [] || Emit(w, first[0]).None? then Emit(w, first[0])
              else Emit(Emit(w, first[0]).value, second[0])
  {
    hide Emit;
    assert first == [first[0]];
    EmitAllConcat(w, first, second);
    EmitOne(w, first[0]);
    if second == [] {
      assert first + second == first;
    } else if |second| == 1 && Emit(w, first[0]).Some? {
      assert second == [second[0]];
      EmitOne(Emit(w, first[0]).value, second[0]);
    }
  }

  lemma {:induction false} AllTakeSecond(first: seq<Record>, n: nat)
    requires n <= |first| && forall r :: r in first ==> !r.desc.EVENT?
    ensures Taken(first, n) == n
  {
    if n > 0 {
      AllTakeSecond(first, n - 1);
      assert first[n - 1] in first;
    }
  }

  lemma {:induction false} TakenGrows(first: seq<Record>, m: nat, n: nat)
    requires m <= n <= |first|
    ensures Taken(first, m) <= Taken(first, n)
  {
    if m < n {
      TakenGrows(first, m, n - 1);
    }
  }

  lemma NothingZipped(w: Writer, first: seq<Record>, second: seq<Record>)
    ensures EmitAll(w, Zip(first, second, 0)) == Some(w)
  {
  }

  lemma {:induction false} ZipPrefixEmitted(w: Writer, first: seq<Record>, second: seq<Record>, m: nat, n: nat)
    requires m <= n <= |first| && Taken(first, n) <= |second| && EmitAll(w, Zip(first, second, n)).Some?
    ensures Taken(first, m) <= |second| && EmitAll(w, Zip(first, second, m)).Some?
  {
    hide EmitAll, PairAt;
    if m < n {
      EmitAllConcat(w, Zip(first, second, n - 1), PairAt(first, second, n - 1));
      ZipPrefixEmitted(w, first, second, m, n - 1);
    }
  }

  // The next pair of a run, record by record.
  lemma PairEmitted(w: Writer, first: seq<Record>, second: seq<Record>, i: nat, v: Writer)
    requires i < |first| && Taken(first, i) <= |second| && EmitAll(w, Zip(first, second, i)) == Some(v)
    ensures var u, j := Emit(v, first[i]), Taken(first, i);
            && Taken(first, i + 1) == j + (if TakesSecond(first[i]) then 1 else 0)
            && (Taken(first, i + 1) <= |second| ==>
                  EmitAll(w, Zip(first, second, i + 1)) ==
                  if u.None? || !TakesSecond(first[i]) then u else Emit(u.value, second[j]))
  {
    hide EmitAll, Emit;
    if Taken(first, i + 1) <= |second| {
      EmitAllConcat(w, Zip(first, second, i), PairAt(first, second, i));
      EmitOne(v, first[i]);
      if TakesSecond(first[i]) {
        var j := Taken(first, i);
        EmitAllConcat(v, [first[i]], [second[j]]);
        assert [first[i]] + [second[j]] == [first[i], second[j]];
        if Emit(v, first[i]).Some? {
          EmitOne(Emit(v, first[i]).value, second[j]);
        }
      }
    }
  }

  // Once a pair is refused or lacks its second record, the whole run is.
  lemma PairRefused(w: Writer, first: seq<Record>, second: seq<Record>, i: nat)
    requires i < |first|
    ensures Taken(first, |first|) <= |second| && EmitAll(w, Zip(first, second, |first|)).Some? ==>
              Taken(first, i + 1) <= |second| && EmitAll(w, Zip(first, second, i + 1)).Some?
  {
    hide EmitAll, Zip;
    TakenGrows(first, i + 1, |first|);
    if Taken(first, |first|) <= |second| && EmitAll(w, Zip(first, second, |first|)).Some? {
      ZipPrefixEmitted(w, first, second, i + 1, |first|);
    }
  }

  lemma NothingWrittenYet(w: Writer, log: seq<Record>)
    ensures Complete(log, 0) && EmitAll(w, RecordOrder.Written(log, 0)) == Some(w)
  {
  }

  // Descriptors that are not in use have nothing to write at their turn.
  lemma {:induction false} SkippedSegments(log: seq<Record>, from: nat, to: nat)
    requires from <= to <= |SORTED| && Complete(log, from) && forall j :: from <= j < to ==> NoneFrom(log, SORTED[j])
    ensures Complete(log, to) && RecordOrder.Written(log, to) == RecordOrder.Written(log, from)
  {
    hide SortedBelow, Filter, NoneFrom, Segment, Writable;
    if from < to {
      SkippedSegments(log, from, to - 1);
      EmptySegment(log, SORTED[to - 1]);
    }
  }

  // The records paired with a descriptor that is not in use have a later place, so there are none.
  lemma EmptySegment(log: seq<Record>, d: Descriptor)
    requires NoneFrom(log, d)
    ensures Writable(log, d) && Segment(log, d) == []
  {
    hide Filter;
    assert Filter(log, d) == [];
    if PairedWith(d).Some? {
      assert ToInternalValue(PairedWith(d).value) >= ToInternalValue(d);
    }
  }

  // The segment at a turn takes the writer one turn further.
  lemma SegmentEmitted(w: Writer, log: seq<Record>, k: nat, v: Writer)
    requires k < |SORTED| && Complete(log, k) && EmitAll(w, RecordOrder.Written(log, k)) == Some(v)
    ensures Complete(log, k + 1) <==> Writable(log, SORTED[k])
    ensures Writable(log, SORTED[k]) ==>
              EmitAll(w, RecordOrder.Written(log, k + 1)) == EmitAll(v, Segment(log, SORTED[k]))
  {
    hide EmitAll, SortedBelow, Segment, Writable;
    if Writable(log, SORTED[k]) {
      EmitAllConcat(w, RecordOrder.Written(log, k), Segment(log, SORTED[k]));
    }
  }

  // Once a record is refused, nothing that follows helps.
  lemma {:induction false} WrittenRefused(w: Writer, log: seq<Record>, k: nat, n: nat)
    requires k <= n <= |SORTED| && Complete(log, n)
    ensures Complete(log, k)
    ensures EmitAll(w, RecordOrder.Written(log, k)).None? ==> EmitAll(w, RecordOrder.Written(log, n)).None?
  {
    hide EmitAll, SortedBelow, Segment, Writable;
    if k < n {
      WrittenRefused(w, log, k, n - 1);
      EmitAllConcat(w, RecordOrder.Written(log, n - 1), Segment(log, SORTED[n - 1]));
    }
  }

  lemma GroupEmitted(w: Writer, log: seq<Record>)
    requires IsGroup(log) && AtGroupStart(w.order)
    ensures |SORTED| == NUM_INTERNAL && Complete(log, NUM_INTERNAL)
    ensures var r := EmitAll(w, RecordOrder.Written(log, NUM_INTERNAL));
            && (r.Some? <==> StartsWell(w.order, log))
            && (r.Some? ==> AtGroupStart(r.value.order))
  {
    hide EmitAll, SortedBelow, IsGroup, AtGroupStart, Writable, RecordOrder.Written, Run;
    GroupAccepted(w.order, log);
    GroupIsComplete(log, NUM_INTERNAL);
    EmitAllIsRun(w, RecordOrder.Written(log, NUM_INTERNAL));
  }

  lemma OneMoreEmitted(w: Writer, recs: seq<Record>, i: nat)
    requires i < |recs|
    ensures EmitAll(w, recs[..i + 1])
            == match EmitAll(w, recs[..i]) { case None => None case Some(v) => Emit(v, recs[i]) }
  {
    hide Emit;
    assert recs[..i + 1][..|recs[..i + 1]| - 1] == recs[..i];
  }

  lemma NothingAfterRefusal(w: Writer, recs: seq<Record>, i: nat)
    requires i <= |recs| && EmitAll(w, recs[..i]).None?
    ensures EmitAll(w, recs).None?
    decreases |recs| - i
  {
    hide Emit, EmitAll;
    if i < |recs| {
      OneMoreEmitted(w, recs, i);
      NothingAfterRefusal(w, recs, i + 1);
    } else {
      assert recs[..i] == recs;
    }
  }

  lemma {:induction false} EmitAllKeepsHeader(w: Writer, recs: seq<Record>)
    ensures EmitAll(w, recs).Some? ==> EmitAll(w, recs).value.header == w.header
  {
    hide Accepts;
    if recs != [] {
      EmitAllKeepsHeader(w, recs[..|recs| - 1]);
    }
  }
}
