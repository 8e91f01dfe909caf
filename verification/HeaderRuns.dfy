/**
 * Headers written in any run of setters, flushes and finalization: what the setters leave, and what
 * every run that does not throw has written.
 */
module HeaderRuns {
  import opened FlatMaps
  import opened Descriptors
  import opened Records
  import opened RecordOrder
  import opened Headers

  // ---------------------------------------------------------------- what the setters leave

  // The field a setter sets, if it sets one, and the value it gives.
  function Target(op: Setter): (Descriptor, Option<Body>) {
    match op
    case SET_ISA(n) => (ISA, Some(Number(n)))
    case SET_IEM(n) => (INST_IEM, Some(Number(n)))
    case SET_PC(n) => (FORCE_PC, Some(Number(n)))
    case SET_VLEN(n) => (VLEN_CONFIG, Some(Number(n)))
    case SET_PROCESS_ID(hw, pid, tid) => (PROCESS_ID_EXT, Some(Ids(hw, pid, tid)))
    case SET_ISA_EXTENDED(s) => (ISA_EXTENDED, Some(Text(s)))
    case ADD_COMMENT(s) => (COMMENT, Some(Text(s)))
    case ADD_TRACE_INFO(info) => (TRACE_INFO, Some(info))
    case SET_FEATURE(_) => (TRACE_INFO_FEATURE, None)
    case DISABLE_FEATURE(_) => (TRACE_INFO_FEATURE, None)
  }

  function FieldOf(op: Setter, d: Descriptor): Option<Body> {
    if Target(op).0 == d then Target(op).1 else None
  }

  // The values given to a field, in order.
  function Given(ops: seq<Setter>, d: Descriptor): seq<Body> {
    if ops == [] then []
    else
      var before, last := Given(ops[..|ops| - 1], d), FieldOf(ops[|ops| - 1], d);
      if last.Some? then before + [last.value] else before
  }

  function Last(bodies: seq<Body>): Option<Body> {
    if bodies == [] then None else Some(bodies[|bodies| - 1])
  }

  // A feature is on when the last setter that names it sets it.
  function FeatureOn(ops: seq<Setter>, f: nat): bool {
    if ops == [] then false
    else
      match ops[|ops| - 1]
      case SET_FEATURE(g) => if f == g then true else FeatureOn(ops[..|ops| - 1], f)
      case DISABLE_FEATURE(g) => if f == g then false else FeatureOn(ops[..|ops| - 1], f)
      case _ => FeatureOn(ops[..|ops| - 1], f)
  }

  function Feature(h: Header, f: nat): bool { h.features.Some? && f in h.features.value }

  function Texts(comments: seq<string>): (r: seq<Body>)
    ensures |r| == |comments|
  {
    seq(|comments|, i requires 0 <= i < |comments| => Text(comments[i]))
  }

  function SingleValue(h: Header, d: Descriptor): Option<Body> {
    if d.ISA? then h.isa.value
    else if d.INST_IEM? then h.iem.value
    else if d.FORCE_PC? then h.pc.value
    else if d.VLEN_CONFIG? then h.vlen.value
    else if d.PROCESS_ID_EXT? then h.processId.value
    else h.isaExtended.value
  }

  predicate IsSingle(d: Descriptor) {
    d.ISA? || d.INST_IEM? || d.FORCE_PC? || d.VLEN_CONFIG? || d.PROCESS_ID_EXT? || d.ISA_EXTENDED?
  }

  // A header holds what a run of setters gave it: its single fields, and the rest.
  predicate HoldsField(h: Header, ops: seq<Setter>, d: Descriptor) {
    var last := Last(Given(ops, d));
    SingleValue(h, d) == if d.ISA_EXTENDED? && last == Some(Text("")) then None else last
  }

  ghost predicate HoldsFields(h: Header, ops: seq<Setter>) {
    forall d :: IsSingle(d) ==> HoldsField(h, ops, d)
  }

  predicate HoldsLists(h: Header, ops: seq<Setter>) {
    Texts(h.comments) == Given(ops, COMMENT) && h.infos == Given(ops, TRACE_INFO)
  }

  predicate HoldsFeature(h: Header, ops: seq<Setter>, f: nat) {
    && Feature(h, f) == FeatureOn(ops, f)
    && (h.force32BitEvents <==> DISABLE_FEATURE(EVENT64) in ops)
  }

  lemma GivenSnoc(ops: seq<Setter>, op: Setter, d: Descriptor)
    ensures Given(ops + [op], d) ==
            if FieldOf(op, d).Some? then Given(ops, d) + [FieldOf(op, d).value] else Given(ops, d)
  {
    hide FieldOf;
    assert (ops + [op])[..|ops + [op]| - 1] == ops;
  }

  lemma FeatureSnoc(ops: seq<Setter>, op: Setter, f: nat)
    ensures FeatureOn(ops + [op], f) ==
            if op == SET_FEATURE(f) then true else if op == DISABLE_FEATURE(f) then false else FeatureOn(ops, f)
  {
    assert (ops + [op])[..|ops + [op]| - 1] == ops;
  }

  lemma OneSetterOfField(h: Header, ops: seq<Setter>, op: Setter, d: Descriptor)
    requires IsSingle(d) && HoldsField(h, ops, d)
    ensures HoldsField(Set(h, op), ops + [op], d)
  {
    hide Given, FeatureOn, Texts, Last;
    GivenSnoc(ops, op, d);
    LastGiven(ops, op);
  }

  lemma OneSetterOfFields(h: Header, ops: seq<Setter>, op: Setter)
    requires HoldsFields(h, ops)
    ensures HoldsFields(Set(h, op), ops + [op])
  {
    hide HoldsField, Set, IsSingle;
    forall d | IsSingle(d)
      ensures HoldsField(Set(h, op), ops + [op], d)
    {
      OneSetterOfField(h, ops, op, d);
    }
  }

  lemma OneSetterOfLists(h: Header, ops: seq<Setter>, op: Setter)
    requires HoldsLists(h, ops)
    ensures HoldsLists(Set(h, op), ops + [op])
  {
    hide Given, Texts;
    GivenSnoc(ops, op, COMMENT);
    GivenSnoc(ops, op, TRACE_INFO);
    TextsSnoc(h.comments, op);
  }

  lemma OneSetterOfFeature(h: Header, ops: seq<Setter>, op: Setter, f: nat)
    requires HoldsFeature(h, ops, f)
    ensures HoldsFeature(Set(h, op), ops + [op], f)
  {
    hide FeatureOn;
    FeatureSnoc(ops, op, f);
  }

  lemma LastGiven(ops: seq<Setter>, op: Setter)
    ensures forall d :: FieldOf(op, d).Some? ==>
              Last(Given(ops, d) + [FieldOf(op, d).value]) == Some(FieldOf(op, d).value)
  {
    hide FieldOf, Given;
  }

  lemma TextsSnoc(comments: seq<string>, op: Setter)
    ensures op.ADD_COMMENT? ==> Texts(comments + [op.s]) == Texts(comments) + [Text(op.s)]
  {
  }

  /** Comments and trace infos collect in order, every other field keeps what it was last given. */
  lemma {:induction false} SettersMeaning(ops: seq<Setter>, f: nat)
    ensures var h := SetAll(EMPTY, ops); HoldsFields(h, ops) && HoldsLists(h, ops) && HoldsFeature(h, ops, f)
  {
    if ops != [] {
      hide HoldsFields, HoldsLists, HoldsFeature, Set;
      var n := |ops| - 1;
      SettersMeaning(ops[..n], f);
      OneSetterOfFields(SetAll(EMPTY, ops[..n]), ops[..n], ops[n]);
      OneSetterOfLists(SetAll(EMPTY, ops[..n]), ops[..n], ops[n]);
      OneSetterOfFeature(SetAll(EMPTY, ops[..n]), ops[..n], ops[n], f);
      assert ops == ops[..n] + [ops[n]];
    }
  }

  // ---------------------------------------------------------------- runs

  datatype Call = SETTER(op: Setter) | FLUSH | FINALIZE

  function DoCall(w: Writer, call: Call): Option<Writer> {
    match call
    case SETTER(op) => Some(w.(header := Set(w.header, op)))
    case FLUSH => FlushHeader(w)
    case FINALIZE => FinalizeHeader(w)
  }

  function RunCalls(w: Writer, calls: seq<Call>): Option<Writer> {
    if calls == [] then Some(w)
    else
      match RunCalls(w, calls[..|calls| - 1])
      case None => None
      case Some(v) => DoCall(v, calls[|calls| - 1])
  }

  // The place of a record in the header; the optional records share one.
  function Rank(d: Descriptor): nat {
    match d
    case IDENTIFIER => 0 case VERSION => 1 case COMMENT => 2 case ISA => 3 case INST_IEM => 4 case TRACE_INFO => 5
    case TRACE_INFO_FEATURE => 6 case PROCESS_ID_EXT | FORCE_PC | VLEN_CONFIG | ISA_EXTENDED => 7 case END_HEADER => 8
    case _ => 9
  }

  predicate Ranked(recs: seq<Record>) {
    forall i, j :: 0 <= i < j < |recs| ==> Rank(recs[i].desc) <= Rank(recs[j].desc)
  }

  // How far the header has come, by what is marked as written.
  function Stage(w: Writer): nat {
    var h := w.header;
    if w.order.headerFinalized then 8
    else if h.processId.written || h.pc.written || h.vlen.written || h.isaExtended.written then 7
    else if h.featuresWritten then 6
    else if h.infosWritten then 5
    else if h.iem.written then 4
    else if h.isa.written then 3
    else if h.commentsWritten then 2
    else 1
  }

  function Written(h: Header, finalized: bool, d: Descriptor): bool {
    match d
    case ISA => h.isa.written
    case INST_IEM => h.iem.written
    case TRACE_INFO_FEATURE => h.featuresWritten
    case PROCESS_ID_EXT => h.processId.written
    case FORCE_PC => h.pc.written
    case VLEN_CONFIG => h.vlen.written
    case ISA_EXTENDED => h.isaExtended.written
    case END_HEADER => finalized
    case IDENTIFIER | VERSION => true
    case _ => false
  }

  // Records a header may hold more than once.
  predicate Repeats(d: Descriptor) { d.COMMENT? || d.TRACE_INFO? }

  // Nothing is marked as written before what must precede it.
  predicate Staged(w: Writer) {
    var h := w.header;
    && (h.iem.written ==> h.isa.written)
    && (h.infosWritten ==> h.iem.written)
    && (h.featuresWritten ==> h.infosWritten)
    && (h.processId.written || h.pc.written || h.vlen.written || h.isaExtended.written || w.order.headerFinalized ==>
          h.featuresWritten)
  }

  /** What every run keeps: each record in its place, each single one written exactly when it is marked so. */
  ghost predicate Kept(w: Writer) {
    && Staged(w)
    && Ranked(w.emitted) && (forall r :: r in w.emitted ==> Rank(r.desc) <= Stage(w))
    && (forall d :: !Repeats(d) ==>
          |Filter(w.emitted, d)| == if Written(w.header, w.order.headerFinalized, d) then 1 else 0)
  }

  // Records of one descriptor, no earlier in the header than anything before them, keep the order.
  lemma RankedSnoc(recs: seq<Record>, more: seq<Record>, d: Descriptor, stage: nat)
    requires Ranked(recs) && AllHave(more, d) && (forall r :: r in recs ==> Rank(r.desc) <= stage) && stage <= Rank(d)
    ensures Ranked(recs + more) && forall r :: r in recs + more ==> Rank(r.desc) <= Rank(d)
  {
    hide Rank;
    var all := recs + more;
    forall i, j | 0 <= i < j < |all|
      ensures Rank(all[i].desc) <= Rank(all[j].desc)
    {
      if j >= |recs| {
        assert all[j] in more;
        assert if i < |recs| then all[i] in recs else all[i] in more;
      }
    }
  }

  lemma {:induction false} EmitAllAdds(w: Writer, recs: seq<Record>)
    ensures EmitAll(w, recs).Some? ==>
              var v := EmitAll(w, recs).value;
              && v.header == w.header && v.emitted == w.emitted + recs
              && v.order.headerStarted == w.order.headerStarted && v.order.headerFinalized == w.order.headerFinalized
  {
    hide Accepts;
    if recs == [] {
      assert w.emitted + [] == w.emitted;
    } else {
      var n := |recs| - 1;
      EmitAllAdds(w, recs[..n]);
      assert w.emitted + recs[..n] + [recs[n]] == w.emitted + recs by { assert recs[..n] + [recs[n]] == recs; }
    }
  }

  // A step that adds some records of one descriptor, and marks that descriptor as written.
  lemma StepKeeps(w: Writer, v: Writer, more: seq<Record>, d: Descriptor)
    requires Kept(w) && v.emitted == w.emitted + more && AllHave(more, d)
    requires Stage(w) <= Rank(d) == Stage(v) && Staged(v)
    requires !Repeats(d) ==> |more| == 1 && !Written(w.header, w.order.headerFinalized, d)
    requires forall e :: Written(v.header, v.order.headerFinalized, e)
                    <==> Written(w.header, w.order.headerFinalized, e) || (e == d && !Repeats(d))
    ensures Kept(v)
  {
    hide Rank, Stage, Staged, Written, Filter;
    RankedSnoc(w.emitted, more, d, Stage(w));
    forall e: Descriptor | !Repeats(e)
      ensures |Filter(v.emitted, e)| == if Written(v.header, v.order.headerFinalized, e) then 1 else 0
    {
      FilterConcat(w.emitted, more, e);
      FilterOfOne(more, e, d);
    }
  }

  lemma SetterKeeps(w: Writer, op: Setter)
    requires Kept(w)
    ensures Kept(w.(header := Set(w.header, op)))
  {
    hide Rank, Filter;
  }

  lemma CommentsKeep(w: Writer)
    requires Kept(w) && !w.order.headerFinalized && FlushComments(w).Some?
    ensures Kept(FlushComments(w).value) && !FlushComments(w).value.order.headerFinalized
  {
    hide EmitAll, Kept;
    EmitAllAdds(w, CommentRecords(w.header.comments));
    if !w.header.commentsWritten && w.header.comments != [] {
      assert Staged(w) by { KeptIsStaged(w); }
      StepKeeps(w, FlushComments(w).value, CommentRecords(w.header.comments), COMMENT);
    }
  }

  lemma KeptIsStaged(w: Writer)
    requires Kept(w)
    ensures Staged(w)
  {
  }

  lemma IsaKeeps(w: Writer)
    requires Kept(w) && !w.order.headerFinalized && FlushIsa(w).Some?
    ensures Kept(FlushIsa(w).value) && !FlushIsa(w).value.order.headerFinalized
  {
    hide Accepts, Kept;
    KeptIsStaged(w);
    if !w.header.isa.written && w.header.isa.value.Some? {
      StepKeeps(w, FlushIsa(w).value, [Record(ISA, w.header.isa.value.value)], ISA);
    }
  }

  lemma IemKeeps(w: Writer)
    requires Kept(w) && !w.order.headerFinalized && FlushIem(w).Some?
    ensures Kept(FlushIem(w).value) && !FlushIem(w).value.order.headerFinalized
  {
    hide Accepts, Kept;
    KeptIsStaged(w);
    if !w.header.iem.written && w.header.iem.value.Some? {
      StepKeeps(w, FlushIem(w).value, [Record(INST_IEM, w.header.iem.value.value)], INST_IEM);
    }
  }

  lemma InfosKeep(w: Writer)
    requires Kept(w) && !w.order.headerFinalized && FlushInfos(w).Some?
    ensures Kept(FlushInfos(w).value) && !FlushInfos(w).value.order.headerFinalized
  {
    hide EmitAll, Kept;
    KeptIsStaged(w);
    EmitAllAdds(w, InfoRecords(w.header.infos));
    if !w.header.infosWritten && w.header.infos != [] {
      StepKeeps(w, FlushInfos(w).value, InfoRecords(w.header.infos), TRACE_INFO);
    }
  }

  lemma FeaturesKeep(w: Writer)
    requires Kept(w) && !w.order.headerFinalized && FlushFeatures(w).Some?
    ensures var v := FlushFeatures(w).value; Kept(v) && !v.order.headerFinalized && v.header.featuresWritten
  {
    hide Accepts, Kept;
    KeptIsStaged(w);
    if !w.header.featuresWritten {
      StepKeeps(w, FlushFeatures(w).value, [FeatureRecord(w.header)], TRACE_INFO_FEATURE);
    }
  }

  lemma ProcessIdKeeps(w: Writer)
    requires Kept(w) && !w.order.headerFinalized && w.header.featuresWritten && FlushProcessId(w).Some?
    ensures var v := FlushProcessId(w).value; Kept(v) && !v.order.headerFinalized && v.header.featuresWritten
  {
    hide Accepts, Kept;
    KeptIsStaged(w);
    if !w.header.processId.written && w.header.processId.value.Some? {
      StepKeeps(w, FlushProcessId(w).value, [Record(PROCESS_ID_EXT, w.header.processId.value.value)], PROCESS_ID_EXT);
    }
  }

  lemma PcKeeps(w: Writer)
    requires Kept(w) && !w.order.headerFinalized && w.header.featuresWritten && FlushPc(w).Some?
    ensures var v := FlushPc(w).value; Kept(v) && !v.order.headerFinalized && v.header.featuresWritten
  {
    hide Accepts, Kept;
    KeptIsStaged(w);
    if !w.header.pc.written && w.header.pc.value.Some? {
      StepKeeps(w, FlushPc(w).value, [Record(FORCE_PC, w.header.pc.value.value)], FORCE_PC);
    }
  }

  lemma VlenKeeps(w: Writer)
    requires Kept(w) && !w.order.headerFinalized && w.header.featuresWritten && FlushVlen(w).Some?
    ensures var v := FlushVlen(w).value; Kept(v) && !v.order.headerFinalized && v.header.featuresWritten
  {
    hide Accepts, Kept;
    KeptIsStaged(w);
    if !w.header.vlen.written && w.header.vlen.value.Some? {
      StepKeeps(w, FlushVlen(w).value, [Record(VLEN_CONFIG, w.header.vlen.value.value)], VLEN_CONFIG);
    }
  }

  lemma IsaExtendedKeeps(w: Writer)
    requires Kept(w) && !w.order.headerFinalized && w.header.featuresWritten && FlushIsaExtended(w).Some?
    ensures var v := FlushIsaExtended(w).value; Kept(v) && !v.order.headerFinalized && v.header.featuresWritten
  {
    hide Accepts, Kept;
    KeptIsStaged(w);
    if !w.header.isaExtended.written && w.header.isaExtended.value.Some? {
      StepKeeps(w, FlushIsaExtended(w).value, [Record(ISA_EXTENDED, w.header.isaExtended.value.value)], ISA_EXTENDED);
    }
  }

  lemma FlushKeeps(w: Writer)
    requires Kept(w) && FlushHeader(w).Some?
    ensures var v := FlushHeader(w).value; Kept(v) && !v.order.headerFinalized && v.header.featuresWritten
  {
    hide Kept, FlushComments, FlushIsa, FlushIem, FlushInfos, FlushFeatures, FlushProcessId, FlushPc, FlushVlen,
         FlushIsaExtended;
    var a := FlushComments(w).value;
    CommentsKeep(w);
    var b := FlushIsa(a).value;
    IsaKeeps(a);
    var c := FlushIem(b).value;
    IemKeeps(b);
    var d := FlushInfos(c).value;
    InfosKeep(c);
    var e := FlushFeatures(d).value;
    FeaturesKeep(d);
    var f := FlushProcessId(e).value;
    ProcessIdKeeps(e);
    var g := FlushPc(f).value;
    PcKeeps(f);
    VlenKeeps(g);
    IsaExtendedKeeps(FlushVlen(g).value);
  }

  lemma EndKeeps(w: Writer)
    requires Kept(w) && !w.order.headerFinalized && w.header.featuresWritten
    requires Emit(w, Record(END_HEADER, Number(0))).Some?
    ensures var u := Emit(w, Record(END_HEADER, Number(0))).value; Kept(u.(order := u.order.(headerFinalized := true)))
  {
    hide Accepts, Kept;
    KeptIsStaged(w);
    var r := Record(END_HEADER, Number(0));
    var u := Emit(w, r).value;
    StepKeeps(w, u.(order := u.order.(headerFinalized := true)), [r], END_HEADER);
  }

  lemma FinalizeKeeps(w: Writer)
    requires Kept(w) && FinalizeHeader(w).Some?
    ensures Kept(FinalizeHeader(w).value)
  {
    hide Kept, FlushHeader, Emit;
    if !w.order.headerFinalized {
      var ready := w.(header := WithEvent64(w.header));
      SetterKeeps(w, SET_FEATURE(EVENT64));
      if LooksComplete(ready.header) {
        EndKeeps(ready);
      } else {
        FlushKeeps(ready);
        EndKeeps(FlushHeader(ready).value);
      }
    }
  }

  /**
   * Every run of setters, flushes and finalization that does not throw: identifier, version,
   * comments, ISA, IEM, trace infos, features, then the optional records, then the end, and each
   * record that may appear once at most once, exactly when it is marked as written.
   */
  lemma {:induction false} EveryRunKeepsOrder(calls: seq<Call>)
    requires RunCalls(OPENED, calls).Some?
    ensures Kept(RunCalls(OPENED, calls).value)
  {
    if calls == [] {
      OpenedIsKept();
    } else {
      hide Kept, FlushHeader, FinalizeHeader;
      var n := |calls| - 1;
      EveryRunKeepsOrder(calls[..n]);
      var v := RunCalls(OPENED, calls[..n]).value;
      match calls[n]
      case SETTER(op) => SetterKeeps(v, op);
      case FLUSH => FlushKeeps(v);
      case FINALIZE => FinalizeKeeps(v);
    }
  }

  lemma OpenedIsKept()
    ensures Kept(OPENED)
  {
    hide Filter;
    forall d: Descriptor
      ensures |Filter(OPENED.emitted, d)| == if Written(EMPTY, false, d) then 1 else 0
    {
      FilterOfOpened(d);
    }
  }

  lemma FilterOfOpened(d: Descriptor)
    ensures Filter(OPENED.emitted, d)
         == if d.IDENTIFIER? then [IDENTIFIER_RECORD] else if d.VERSION? then [VERSION_RECORD] else []
  {
    hide Filter;
    NothingFiltered(d);
    FilterSnoc([], IDENTIFIER_RECORD, d);
    FilterSnoc([IDENTIFIER_RECORD], VERSION_RECORD, d);
    assert [] + [IDENTIFIER_RECORD] == [IDENTIFIER_RECORD];
    assert [IDENTIFIER_RECORD] + [VERSION_RECORD] == OPENED.emitted;
  }

  /**
   * In every such run ISA comes before IEM, IEM before the trace infos, those before the features,
   * and those before the PC.
   */
  lemma RunOrder(calls: seq<Call>, i: nat, j: nat)
    requires RunCalls(OPENED, calls).Some?
    requires i < |RunCalls(OPENED, calls).value.emitted| && j < |RunCalls(OPENED, calls).value.emitted|
    requires var e := RunCalls(OPENED, calls).value.emitted; Rank(e[i].desc) < Rank(e[j].desc)
    ensures i < j
  {
    hide RunCalls;
    EveryRunKeepsOrder(calls);
  }

  // ---------------------------------------------------------------- what an early flush or a late setter loses

  // A single record, once written, stays as it was written.
  lemma WrittenStays(w: Writer, v: Writer, d: Descriptor)
    requires Kept(w) && Kept(v) && w.emitted <= v.emitted && !Repeats(d)
    requires Written(w.header, w.order.headerFinalized, d)
    ensures Filter(v.emitted, d) == Filter(w.emitted, d)
  {
    hide Filter, Staged, Ranked, Stage, Rank;
    var more := v.emitted[|w.emitted|..];
    assert v.emitted == w.emitted + more;
    FilterConcat(w.emitted, more, d);
  }

  // The features that a header has before 64-bit events are added to them say all there is to say.
  predicate Event64Settled(h: Header) {
    h.force32BitEvents || h.isa.value != Some(Number(RISCV)) || h.iem.value != Some(Number(RV64)) || Feature(h, EVENT64)
  }

  /**
   * Flushing fixes the features.  Whatever is set between the flush and a finalization that goes
   * through, the trace says what was set before the flush; finalizing at once would have said what
   * all the setters say, and 64-bit events where they are due.
   */
  lemma FlushFixesFeatures(ops: seq<Setter>, late: seq<Setter>)
    requires CanFlush(SetAll(EMPTY, ops))
    ensures var w := OPENED.(header := SetAll(EMPTY, ops));
            var direct := FinalizeHeader(OPENED.(header := SetAll(EMPTY, ops + late)));
            && FlushHeader(w).Some? && direct.Some?
            && Filter(direct.value.emitted, TRACE_INFO_FEATURE)
              == [FeatureRecord(WithEvent64(SetAll(EMPTY, ops + late)))]
            && var last := FinalizeHeader(SetLate(FlushHeader(w).value, late));
               last.Some? ==> Filter(last.value.emitted, TRACE_INFO_FEATURE) == [FeatureRecord(SetAll(EMPTY, ops))]
  {
    hide SetAll, FlushHeader, FinalizeHeader, Filter, WithEvent64, FeatureRecord, SetLate;
    Flushed(ops);
    CanStillFlush(ops, late);
    FinalizedInOneGo(ops + late);
    Event64KeepsRest(SetAll(EMPTY, ops + late));
    FeaturesOfFinalized(ops + late);
    var v := FlushHeader(OPENED.(header := SetAll(EMPTY, ops))).value;
    if FinalizeHeader(SetLate(v, late)).Some? {
      FeaturesOfFlushed(ops, late);
    }
  }

  /**
   * With nothing set in between, finalizing after a flush goes through, and says what finalizing at
   * once would say exactly when there were no 64-bit events left to add.
   */
  lemma FlushLosesEvent64(ops: seq<Setter>)
    requires CanFlush(SetAll(EMPTY, ops))
    ensures var h := SetAll(EMPTY, ops);
            var w := OPENED.(header := h);
            && FlushHeader(w).Some? && FinalizeHeader(FlushHeader(w).value).Some? && FinalizeHeader(w).Some?
            && var late, direct := FinalizeHeader(FlushHeader(w).value).value, FinalizeHeader(w).value;
               Filter(late.emitted, TRACE_INFO_FEATURE) == Filter(direct.emitted, TRACE_INFO_FEATURE) <==>
               Event64Settled(h)
  {
    hide SetAll, FlushHeader, FinalizeHeader, Filter, WithEvent64, Event64Settled, FeatureRecord, SetLate;
    assert ops + [] == ops;
    var v := FlushHeader(OPENED.(header := SetAll(EMPTY, ops)));
    FlushFixesFeatures(ops, []);
    NothingLate(v.value);
    LateSettersRefused(ops, []);
    SetNothing(SetAll(EMPTY, ops));
    Event64Meaning(SetAll(EMPTY, ops));
  }

  lemma SetNothing(h: Header)
    ensures SetAll(h, []) == h
  {
  }

  lemma NothingLate(w: Writer)
    ensures SetLate(w, []) == w
  {
  }

  lemma Event64KeepsRest(h: Header)
    ensures CanFlush(WithEvent64(h)) <==> CanFlush(h)
    ensures var g := WithEvent64(h); g == h.(features := g.features)
  {
  }

  lemma {:induction false} SetAllConcat(h: Header, a: seq<Setter>, b: seq<Setter>)
    ensures SetAll(h, a + b) == SetAll(SetAll(h, a), b)
  {
    hide Set;
    if b == [] {
      assert a + b == a;
    } else {
      var n := |b| - 1;
      assert (a + b)[..|a + b| - 1] == a + b[..n];
      SetAllConcat(h, a, b[..n]);
    }
  }

  lemma CanStillFlush(ops: seq<Setter>, late: seq<Setter>)
    requires CanFlush(SetAll(EMPTY, ops))
    ensures CanFlush(SetAll(EMPTY, ops + late))
  {
    hide SetAll;
    SetAllConcat(EMPTY, ops, late);
    SettersOnlyAdd(SetAll(EMPTY, ops), late);
  }

  // Setters add to what was set; only the extended ISA string can be taken back.
  predicate Extends(g: Header, h: Header) {
    && (CanFlush(h) ==> CanFlush(g)) && h.comments <= g.comments && (h.pc.value.Some? ==> g.pc.value.Some?)
    && (h.vlen.value.Some? ==> g.vlen.value.Some?) && (h.processId.value.Some? ==> g.processId.value.Some?)
  }

  lemma OneSetterAdds(g: Header, h: Header, op: Setter)
    requires Extends(g, h)
    ensures Extends(Set(g, op), h)
  {
  }

  lemma {:induction false} SettersOnlyAdd(h: Header, late: seq<Setter>)
    ensures Extends(SetAll(h, late), h)
  {
    hide Set;
    if late != [] {
      hide Extends;
      var n := |late| - 1;
      SettersOnlyAdd(h, late[..n]);
      OneSetterAdds(SetAll(h, late[..n]), h, late[n]);
    }
  }

  // ---------------------------------------------------------------- what comes after a flush

  function SetLate(w: Writer, late: seq<Setter>): Writer { w.(header := SetAll(w.header, late)) }

  predicate Pending(f: Field) { f.value.Some? && !f.written }

  // The same values, features apart.
  predicate Alike(g: Header, h: Header) {
    && g.comments == h.comments && g.isa.value == h.isa.value && g.iem.value == h.iem.value && g.infos == h.infos
    && g.processId.value == h.processId.value && g.pc.value == h.pc.value && g.vlen.value == h.vlen.value
    && g.isaExtended.value == h.isaExtended.value
  }

  // The same marks of what was written.
  predicate SameMarks(g: Header, h: Header) {
    && g.commentsWritten == h.commentsWritten && g.isa.written == h.isa.written && g.iem.written == h.iem.written
    && g.infosWritten == h.infosWritten && g.featuresWritten == h.featuresWritten
    && g.processId.written == h.processId.written && g.pc.written == h.pc.written && g.vlen.written == h.vlen.written
    && g.isaExtended.written == h.isaExtended.written
  }

  lemma OneSetterAlike(g: Header, h: Header, op: Setter)
    requires Alike(g, h)
    ensures Alike(Set(g, op), Set(h, op)) && SameMarks(Set(g, op), g)
  {
    match op
    case SET_FEATURE(f) =>
    case DISABLE_FEATURE(f) =>
    case _ =>
  }

  lemma SameMarksTwice(f: Header, g: Header, h: Header)
    requires SameMarks(f, g) && SameMarks(g, h)
    ensures SameMarks(f, h)
  {
  }

  lemma {:induction false} SettersAlike(g: Header, h: Header, ops: seq<Setter>)
    requires Alike(g, h)
    ensures Alike(SetAll(g, ops), SetAll(h, ops)) && SameMarks(SetAll(g, ops), g)
  {
    hide Set, Alike;
    if ops != [] {
      hide SameMarks;
      var n := |ops| - 1;
      SettersAlike(g, h, ops[..n]);
      OneSetterAlike(SetAll(g, ops[..n]), SetAll(h, ops[..n]), ops[n]);
      SameMarksTwice(SetAll(g, ops), SetAll(g, ops[..n]), g);
    }
  }

  // An optional record goes wherever it comes, except that the vector length cannot follow the
  // extended ISA string.
  lemma LateOptional(w: Writer, r: Record)
    requires UpTo(w.order, 13)
    requires r.desc.PROCESS_ID_EXT? || r.desc.FORCE_PC? || r.desc.VLEN_CONFIG? || r.desc.ISA_EXTENDED?
    ensures Emit(w, r).Some? <==> r.desc.VLEN_CONFIG? ==> ToEncoded(w.order.last) <= ToEncoded(VLEN_CONFIG)
    ensures Emit(w, r).Some? ==>
              var v := Emit(w, r).value; v.header == w.header && UpTo(v.order, 13) && v.order.last == r.desc
  {
  }

  function Marked(f: Field): Field { f.(written := f.written || f.value.Some?) }

  // A vector length that comes after an extended ISA string, with nothing in between.
  predicate VlenTooLate(w: Writer) {
    && Pending(w.header.vlen) && !Pending(w.header.processId) && !Pending(w.header.pc)
    && ToEncoded(w.order.last) > ToEncoded(VLEN_CONFIG)
  }

  predicate FixedPartWritten(h: Header) { h.isa.written && h.iem.written && h.infosWritten && h.featuresWritten }

  lemma LateProcessIdAndPc(w: Writer)
    requires UpTo(w.order, 13) && FixedPartWritten(w.header)
    ensures FlushProcessId(w).Some? && FlushPc(FlushProcessId(w).value).Some?
    ensures var h, v := w.header, FlushPc(FlushProcessId(w).value).value;
            && UpTo(v.order, 13) && v.header == h.(processId := Marked(h.processId), pc := Marked(h.pc))
            && (if Pending(h.processId) || Pending(h.pc) then ToEncoded(v.order.last) <= ToEncoded(VLEN_CONFIG)
                else v.order == w.order)
  {
    hide UpTo, Emit, ToEncoded;
    HeaderEncodings();
    var h := w.header;
    if Pending(h.processId) {
      LateOptional(w, Record(PROCESS_ID_EXT, h.processId.value.value));
    }
    var a := FlushProcessId(w).value;
    if Pending(h.pc) {
      LateOptional(a, Record(FORCE_PC, h.pc.value.value));
    }
  }

  lemma LateVlenAndIsaExtended(w: Writer)
    requires UpTo(w.order, 13)
    ensures var h, b := w.header, FlushVlen(w);
            && (b.None? <==> Pending(h.vlen) && ToEncoded(w.order.last) > ToEncoded(VLEN_CONFIG))
            && (b.Some? ==>
                  && FlushIsaExtended(b.value).Some?
                  && var v := FlushIsaExtended(b.value).value;
                     && UpTo(v.order, 13)
                     && v.header == h.(vlen := Marked(h.vlen), isaExtended := Marked(h.isaExtended))
                     && (if Pending(h.isaExtended) then v.order.last == ISA_EXTENDED
                         else v.order.last == w.order.last || v.order.last == VLEN_CONFIG))
  {
    hide UpTo, Emit, ToEncoded;
    HeaderEncodings();
    var h := w.header;
    if Pending(h.vlen) {
      LateOptional(w, Record(VLEN_CONFIG, h.vlen.value.value));
    }
    if FlushVlen(w).Some? && Pending(h.isaExtended) {
      LateOptional(FlushVlen(w).value, Record(ISA_EXTENDED, h.isaExtended.value.value));
    }
  }

  lemma RestOfFlush(w: Writer)
    requires UpTo(w.order, 13) && FixedPartWritten(w.header)
    ensures FlushRest(w).None? <==> VlenTooLate(w)
    ensures FlushRest(w).Some? ==>
              var h, v := w.header, FlushRest(w).value;
              && UpTo(v.order, 13)
              && v.header == h.(processId := Marked(h.processId), pc := Marked(h.pc), vlen := Marked(h.vlen),
                                isaExtended := Marked(h.isaExtended))
              && (if Pending(h.isaExtended) then v.order.last == ISA_EXTENDED
                  else v.order.last == w.order.last || ToEncoded(v.order.last) <= ToEncoded(VLEN_CONFIG))
  {
    hide UpTo, ToEncoded, FlushProcessId, FlushPc, FlushVlen, FlushIsaExtended, Marked, Pending;
    LateProcessIdAndPc(w);
    LateVlenAndIsaExtended(FlushPc(FlushProcessId(w).value).value);
  }

  // What a first flush leaves behind.
  predicate FlushedFrom(w: Writer, h: Header) {
    var g := w.header;
    && UpTo(w.order, 13) && Alike(g, h) && FixedPartWritten(g) && g.commentsWritten == (h.comments != [])
    && (g.pc.written <==> h.pc.value.Some?) && (g.vlen.written <==> h.vlen.value.Some?)
    && (g.processId.written <==> h.processId.value.Some?) && (g.isaExtended.written <==> h.isaExtended.value.Some?)
    && (ToEncoded(w.order.last) > ToEncoded(VLEN_CONFIG) <==> h.isaExtended.value.Some?)
  }

  lemma Flushed(ops: seq<Setter>)
    requires CanFlush(SetAll(EMPTY, ops))
    ensures var w := OPENED.(header := SetAll(EMPTY, ops));
            FlushHeader(w).Some? && FlushedFrom(FlushHeader(w).value, w.header)
  {
    hide SetAll, UpTo, FlushFirst, FlushRest, ToEncoded;
    HeaderEncodings();
    var w := OPENED.(header := SetAll(EMPTY, ops));
    SettersWriteNothing(EMPTY, ops);
    OpenedIsUpTo();
    FirstFlushed(w);
    FirstMarks(w);
    var v := FlushFirst(w).value;
    UpToLater(v.order, 7, 13);
    LastOf(v.order, 7);
    RestOfFlush(v);
  }

  lemma LastOf(s: Order, e: nat)
    requires UpTo(s, e)
    ensures ToEncoded(s.last) <= e
  {
  }

  lemma FirstMarks(w: Writer)
    requires NothingWritten(w.header) && FlushFirst(w).Some?
    ensures var g, h := FlushFirst(w).value.header, w.header;
            && Alike(g, h) && g.commentsWritten == (h.comments != [])
            && !g.processId.written && !g.pc.written && !g.vlen.written && !g.isaExtended.written
  {
    hide EmitAll, Emit;
    if w.header.comments != [] {
      EmitAllAdds(w, CommentRecords(w.header.comments));
    }
    var a := FlushComments(w).value;
    assert a.header == w.header.(commentsWritten := w.header.comments != []);
    hide FlushComments;
    SameHeader(a);
    var c := FlushIem(FlushIsa(a).value).value;
    hide FlushIsa, FlushIem;
    EmitAllAdds(c, InfoRecords(c.header.infos));
    EmitKeepsHeader(FlushInfos(c).value);
  }

  // Finalizing a header whose fixed part is written.
  lemma FinalizeFlushed(w: Writer)
    requires UpTo(w.order, 13) && FixedPartWritten(w.header)
    ensures FinalizeHeader(w).None? <==> (!w.header.commentsWritten && w.header.comments != []) || VlenTooLate(w)
  {
    hide UpTo, Emit, EmitAll, ToEncoded, FlushRest, WithEvent64;
    HeaderEncodings();
    UpToFlags(w.order, 13);
    Event64KeepsRest(w.header);
    var ready := w.(header := WithEvent64(w.header));
    RestOfFlush(ready);
    if LooksComplete(ready.header) {
      EmitAccepted(ready, Record(END_HEADER, Number(0)), 13);
    } else if FlushHeader(ready).Some? {
      EmitAccepted(FlushHeader(ready).value, Record(END_HEADER, Number(0)), 13);
    }
  }

  lemma UpToFlags(s: Order, e: nat)
    requires UpTo(s, e)
    ensures s.headerStarted && !s.headerFinalized
  {
  }

  /**
   * Setting more after a flush makes finalizing throw exactly when it adds the first comment, or a
   * vector length behind an extended ISA string with neither a PC nor a process ID in between.
   */
  lemma LateSettersRefused(ops: seq<Setter>, late: seq<Setter>)
    requires CanFlush(SetAll(EMPTY, ops))
    ensures var h, all := SetAll(EMPTY, ops), SetAll(EMPTY, ops + late);
            && FlushHeader(OPENED.(header := h)).Some?
            && (FinalizeHeader(SetLate(FlushHeader(OPENED.(header := h)).value, late)).None? <==>
                || (h.comments == [] && all.comments != [])
                || (&& h.isaExtended.value.Some? && h.vlen.value.None? && all.vlen.value.Some?
                    && (h.pc.value.Some? || all.pc.value.None?)
                    && (h.processId.value.Some? || all.processId.value.None?)))
  {
    hide SetAll, FlushHeader, FinalizeHeader, UpTo, ToEncoded;
    var h := SetAll(EMPTY, ops);
    Flushed(ops);
    var v := FlushHeader(OPENED.(header := h)).value;
    SettersAlike(v.header, h, late);
    SetAllConcat(EMPTY, ops, late);
    SettersOnlyAdd(h, late);
    FinalizeFlushed(SetLate(v, late));
  }

  lemma Event64Meaning(h: Header)
    ensures FeatureRecord(WithEvent64(h)) == FeatureRecord(h) <==> Event64Settled(h)
  {
    var bits := if h.features.Some? then h.features.value else {};
    if EVENT64 in bits {
      assert bits + {EVENT64} == bits;
    } else {
      assert EVENT64 in bits + {EVENT64};
    }
  }

  lemma FeaturesOfFlushed(ops: seq<Setter>, late: seq<Setter>)
    requires CanFlush(SetAll(EMPTY, ops))
    requires var w := OPENED.(header := SetAll(EMPTY, ops));
             FlushHeader(w).Some? && FinalizeHeader(SetLate(FlushHeader(w).value, late)).Some?
    ensures var h := SetAll(EMPTY, ops);
            Filter(FinalizeHeader(SetLate(FlushHeader(OPENED.(header := h)).value, late)).value.emitted,
                   TRACE_INFO_FEATURE)
            == [FeatureRecord(h)]
  {
    hide SetAll, Kept, UpTo, Filter, FlushFirst, FlushRest, FinalizeHeader, FirstRecords, FeatureRecord;
    var h := SetAll(EMPTY, ops);
    var w := OPENED.(header := h);
    SettersWriteNothing(EMPTY, ops);
    OpenedIsUpTo();
    OpenedIsKept();
    SettersKeep(OPENED, ops);
    FirstFlushed(w);
    var first := FlushFirst(w).value;
    FeaturesOfFirst(h);
    FilterConcat(OPENED.emitted, FirstRecords(h), TRACE_INFO_FEATURE);
    NoFeaturesYet();
    FlushKeeps(w);
    SettersKeep(FlushHeader(w).value, late);
    FinalizeKeeps(SetLate(FlushHeader(w).value, late));
    FirstFlushKeeps(w);
    WrittenStays(first, FinalizeHeader(SetLate(FlushHeader(w).value, late)).value, TRACE_INFO_FEATURE);
  }

  lemma FeaturesOfFinalized(ops: seq<Setter>)
    requires FinalizeHeader(OPENED.(header := SetAll(EMPTY, ops))).Some?
    ensures var h := SetAll(EMPTY, ops);
            Filter(FinalizeHeader(OPENED.(header := h)).value.emitted, TRACE_INFO_FEATURE)
              == [FeatureRecord(WithEvent64(h))]
  {
    hide SetAll, Filter, FinalizeHeader, HeaderRecords, WithEvent64, FeatureRecord;
    var h := WithEvent64(SetAll(EMPTY, ops));
    FinalizedInOneGo(ops);
    FeaturesOfHeader(h);
    NoFeaturesYet();
    FilterConcat(OPENED.emitted, HeaderRecords(h), TRACE_INFO_FEATURE);
  }

  lemma {:induction false} SettersKeep(w: Writer, ops: seq<Setter>)
    requires Kept(w)
    ensures Kept(SetLate(w, ops))
  {
    hide Set, Kept;
    if ops == [] {
      NothingLate(w);
    } else {
      var n := |ops| - 1;
      SettersKeep(w, ops[..n]);
      SetterKeeps(SetLate(w, ops[..n]), ops[n]);
    }
  }

  lemma FirstFlushKeeps(w: Writer)
    requires Kept(w) && !w.order.headerFinalized && FlushFirst(w).Some?
    ensures Kept(FlushFirst(w).value)
  {
    hide Kept, FlushComments, FlushIsa, FlushIem, FlushInfos, FlushFeatures;
    var a := FlushComments(w).value;
    CommentsKeep(w);
    var b := FlushIsa(a).value;
    IsaKeeps(a);
    var c := FlushIem(b).value;
    IemKeeps(b);
    var d := FlushInfos(c).value;
    InfosKeep(c);
    FeaturesKeep(d);
  }

  lemma NoFeaturesYet()
    ensures Filter(OPENED.emitted, TRACE_INFO_FEATURE) == []
  {
    NoneHave(OPENED.emitted, TRACE_INFO_FEATURE);
  }

  lemma FeaturesOfFirst(h: Header)
    ensures Filter(FirstRecords(h), TRACE_INFO_FEATURE) == [FeatureRecord(h)]
  {
    hide CommentRecords, InfoRecords, Optional, Filter;
    var before := CommentRecords(h.comments) + Optional(ISA, h.isa) + Optional(INST_IEM, h.iem) + InfoRecords(h.infos);
    NoneHave(before, TRACE_INFO_FEATURE);
    FilterSnoc(before, FeatureRecord(h), TRACE_INFO_FEATURE);
  }

  lemma FeaturesOfHeader(h: Header)
    ensures Filter(HeaderRecords(h), TRACE_INFO_FEATURE) == [FeatureRecord(h)]
  {
    hide HeaderRecords, FirstRecords, Optional, Filter;
    var after := RestRecords(h) + [Record(END_HEADER, Number(0))];
    SplitRecords(h);
    assert HeaderRecords(h) == FirstRecords(h) + after;
    FeaturesOfFirst(h);
    NoneHave(after, TRACE_INFO_FEATURE);
    FilterConcat(FirstRecords(h), after, TRACE_INFO_FEATURE);
  }

  /**
   * A process ID or extended ISA string set after the rest of the header was flushed is dropped by
   * finalizing exactly when nothing else makes the header look incomplete.
   */
  lemma LateOptionalDropped(w: Writer)
    requires Kept(w) && !w.order.headerFinalized && FinalizeHeader(w).Some?
    ensures var v, complete := FinalizeHeader(w).value, LooksComplete(WithEvent64(w.header));
            && (w.header.processId.value.Some? ==>
                  (Filter(v.emitted, PROCESS_ID_EXT) == [] <==> !w.header.processId.written && complete))
            && (w.header.isaExtended.value.Some? ==>
                  (Filter(v.emitted, ISA_EXTENDED) == [] <==> !w.header.isaExtended.written && complete))
  {
    hide Filter, Staged, Ranked, Rank, Stage, FinalizeHeader, LooksComplete, WithEvent64;
    FinalizeKeeps(w);
    OptionalMarks(w);
  }

  lemma OptionalMarks(w: Writer)
    requires !w.order.headerFinalized && FinalizeHeader(w).Some?
    ensures var v, complete := FinalizeHeader(w).value, LooksComplete(WithEvent64(w.header));
            && (w.header.processId.value.Some? ==>
                  (v.header.processId.written <==> w.header.processId.written || !complete))
            && (w.header.isaExtended.value.Some? ==>
                  (v.header.isaExtended.written <==> w.header.isaExtended.written || !complete))
  {
    hide LooksComplete, FlushHeader, Emit;
    var ready := w.(header := WithEvent64(w.header));
    if !LooksComplete(ready.header) {
      FlushMarks(ready);
    }
    EmitKeepsHeader(if LooksComplete(ready.header) then ready else FlushHeader(ready).value);
  }

  lemma EmitKeepsHeader(w: Writer)
    ensures forall r :: Emit(w, r).Some? ==> Emit(w, r).value.header == w.header
  {
  }

  lemma FlushMarks(w: Writer)
    requires FlushHeader(w).Some?
    ensures var h := FlushHeader(w).value.header;
            && (w.header.processId.value.Some? ==> h.processId.written)
            && (w.header.isaExtended.value.Some? ==> h.isaExtended.written)
  {
    hide EmitAll, Emit, FlushFirst;
    var e := FlushFirst(w).value;
    FirstLeavesOptional(w);
  }

  lemma FirstLeavesOptional(w: Writer)
    requires FlushFirst(w).Some?
    ensures FlushFirst(w).value.header.processId == w.header.processId
    ensures FlushFirst(w).value.header.isaExtended == w.header.isaExtended
  {
    hide EmitAll, Emit;
  }

  // ---------------------------------------------------------------- two headers that lose something

  const RV64_HEADER: seq<Setter> := [SET_ISA(RISCV), SET_IEM(RV64), ADD_TRACE_INFO(Number(0)), SET_PC(0)]

  lemma Rv64Header(comments: seq<string>)
    ensures SetAll(EMPTY.(comments := comments), RV64_HEADER)
         == EMPTY.(comments := comments, isa := Field(Some(Number(RISCV)), false),
                   iem := Field(Some(Number(RV64)), false), infos := [Number(0)], pc := Field(Some(Number(0)), false))
  {
    var h := EMPTY.(comments := comments);
    var ops := RV64_HEADER;
    assert ops[..1] == [] + [ops[0]] && ops[..2] == ops[..1] + [ops[1]] && ops[..3] == ops[..2] + [ops[2]];
    assert ops == ops[..3] + [ops[3]];
    OneMoreSetter(h, [], ops[0]);
    OneMoreSetter(h, ops[..1], ops[1]);
    OneMoreSetter(h, ops[..2], ops[2]);
    OneMoreSetter(h, ops[..3], ops[3]);
    assert [] + [Number(0)] == [Number(0)];
  }

  lemma OneMoreSetter(h: Header, ops: seq<Setter>, op: Setter)
    ensures SetAll(h, ops + [op]) == Set(SetAll(h, ops), op)
  {
    hide Set;
    assert (ops + [op])[..|ops + [op]| - 1] == ops;
  }

  /** An RV64 header: flushed first it has no features, finalized at once it has 64-bit events. */
  lemma EarlyFlushLosesEvent64()
    ensures var w := OPENED.(header := SetAll(EMPTY, RV64_HEADER));
            && FlushHeader(w).Some? && FinalizeHeader(FlushHeader(w).value).Some? && FinalizeHeader(w).Some?
            && Filter(FinalizeHeader(FlushHeader(w).value).value.emitted, TRACE_INFO_FEATURE)
               == [Record(TRACE_INFO_FEATURE, Features({}))]
            && Filter(FinalizeHeader(w).value.emitted, TRACE_INFO_FEATURE)
               == [Record(TRACE_INFO_FEATURE, Features({EVENT64}))]
  {
    hide SetAll, FlushHeader, FinalizeHeader, Filter;
    Rv64Header([]);
    assert RV64_HEADER + [] == RV64_HEADER;
    FlushFixesFeatures(RV64_HEADER, []);
    FlushLosesEvent64(RV64_HEADER);
    NothingLate(FlushHeader(OPENED.(header := SetAll(EMPTY, RV64_HEADER))).value);
    assert {} + {EVENT64} == {EVENT64};
  }

  /** A process ID set after the flush of a header with a comment never reaches the trace. */
  lemma LateProcessIdIsDropped()
    ensures var ops := [ADD_COMMENT("c")] + RV64_HEADER;
            var w := OPENED.(header := SetAll(EMPTY, ops));
            && FlushHeader(w).Some?
            && var last := FinalizeHeader(SetLate(FlushHeader(w).value, [SET_PROCESS_ID(1, 2, 3)]));
               last.Some? && Filter(last.value.emitted, PROCESS_ID_EXT) == []
  {
    hide SetAll, FlushHeader, FinalizeHeader, Filter, Kept, UpTo, ToEncoded;
    var ops, late := [ADD_COMMENT("c")] + RV64_HEADER, [SET_PROCESS_ID(1, 2, 3)];
    SetAllConcat(EMPTY, [ADD_COMMENT("c")], RV64_HEADER);
    OneMoreSetter(EMPTY, [], ADD_COMMENT("c"));
    SetNothing(EMPTY);
    assert [] + [ADD_COMMENT("c")] == [ADD_COMMENT("c")] && [] + ["c"] == ["c"];
    Rv64Header(["c"]);
    var h := SetAll(EMPTY, ops);
    LateSettersRefused(ops, late);
    Flushed(ops);
    var v := FlushHeader(OPENED.(header := h)).value;
    OneMoreSetter(h, [], late[0]);
    OneMoreSetter(v.header, [], late[0]);
    SetNothing(h);
    SetNothing(v.header);
    assert [] + late == late;
    SetAllConcat(EMPTY, ops, late);
    OpenedIsKept();
    SettersKeep(OPENED, ops);
    FlushKeeps(OPENED.(header := h));
    SettersKeep(v, late);
    UpToFlags(v.order, 13);
    Event64KeepsRest(SetLate(v, late).header);
    LateOptionalDropped(SetLate(v, late));
  }
}
