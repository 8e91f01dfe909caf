/**
 * The trace header: what the writer emits for a run of setters and flushes, and what the reader
 * recovers from it.
 */
module Headers {
  import opened FlatMaps
  import opened Descriptors
  import opened Records
  import opened RecordOrder

  const RISCV: nat := 1
  const RV64: nat := 2
  const EVENT64: nat := 19

  // A header field that is written once: its value, if set, and whether it was written.
  datatype Field = Field(value: Option<Body>, written: bool)

  datatype Header = Header(
    comments: seq<string>, commentsWritten: bool,
    isa: Field, iem: Field,
    infos: seq<Body>, infosWritten: bool,
    features: Option<set<nat>>, featuresWritten: bool,
    processId: Field, pc: Field, vlen: Field, isaExtended: Field,
    force32BitEvents: bool)

  // The writer: its header fields, its order check, and the records emitted so far.
  datatype Writer = Writer(header: Header, order: Order, emitted: seq<Record>)

  const UNSET: Field := Field(None, false)

  const EMPTY: Header := Header([], false, UNSET, UNSET, [], false, None, false, UNSET, UNSET, UNSET, UNSET, false)

  const IDENTIFIER_RECORD: Record := Record(IDENTIFIER, Text("STF"))
  const VERSION_RECORD: Record := Record(VERSION, Number(1))

  // After open: the identifier and the version are in the trace.
  const OPENED: Writer :=
    Writer(EMPTY, Order(VERSION, false, false, false, true, false), [IDENTIFIER_RECORD, VERSION_RECORD])

  /** A record goes to the trace if the order check accepts it; otherwise the writer throws. */
  function Emit(w: Writer, r: Record): (v: Option<Writer>)
    ensures v.Some? ==> w.emitted <= v.value.emitted
  {
    if Accepts(w.order, r.desc) then Some(Writer(w.header, Next(w.order, r.desc), w.emitted + [r])) else None
  }

  function EmitAll(w: Writer, recs: seq<Record>): (v: Option<Writer>)
    ensures v.Some? ==> w.emitted <= v.value.emitted
  {
    if recs == [] then Some(w)
    else
      match EmitAll(w, recs[..|recs| - 1])
      case None => None
      case Some(v) => Emit(v, recs[|recs| - 1])
  }

  // Emitting is the order check, and the records appended.
  lemma {:induction false} EmitAllIsRun(w: Writer, recs: seq<Record>)
    ensures EmitAll(w, recs)
         == match Run(w.order, recs) { case None => None case Some(s) => Some(Writer(w.header, s, w.emitted + recs)) }
  {
    hide Accepts, Next;
    if recs == [] {
      assert w.emitted + [] == w.emitted;
    } else {
      var n := |recs| - 1;
      EmitAllIsRun(w, recs[..n]);
      assert w.emitted + recs[..n] + [recs[n]] == w.emitted + recs by { assert recs[..n] + [recs[n]] == recs; }
    }
  }

  // ---------------------------------------------------------------- setters

  datatype Setter =
    | SET_ISA(n: nat) | SET_IEM(n: nat) | SET_PC(n: nat) | SET_VLEN(n: nat)
    | SET_PROCESS_ID(hw: nat, pid: nat, tid: nat)
    | SET_ISA_EXTENDED(s: string) | ADD_COMMENT(s: string) | ADD_TRACE_INFO(info: Body) | SET_FEATURE(f: nat)
    | DISABLE_FEATURE(f: nat)

  function Set(h: Header, op: Setter): Header {
    match op
    case SET_ISA(n) => h.(isa := h.isa.(value := Some(Number(n))))
    case SET_IEM(n) => h.(iem := h.iem.(value := Some(Number(n))))
    case SET_PC(n) => h.(pc := h.pc.(value := Some(Number(n))))
    case SET_VLEN(n) => h.(vlen := h.vlen.(value := Some(Number(n))))
    case SET_PROCESS_ID(hw, pid, tid) => h.(processId := h.processId.(value := Some(Ids(hw, pid, tid))))
    case SET_ISA_EXTENDED(s) => h.(isaExtended := h.isaExtended.(value := if s == "" then None else Some(Text(s))))
    case ADD_COMMENT(s) => h.(comments := h.comments + [s])
    case ADD_TRACE_INFO(info) => h.(infos := h.infos + [info])
    case SET_FEATURE(f) => h.(features := Some((if h.features.Some? then h.features.value else {}) + {f}))
    case DISABLE_FEATURE(f) =>
      h.(force32BitEvents := h.force32BitEvents || f == EVENT64,
         features := if h.features.Some? then Some(h.features.value - {f}) else None)
  }

  function SetAll(h: Header, ops: seq<Setter>): Header {
    if ops == [] then h else Set(SetAll(h, ops[..|ops| - 1]), ops[|ops| - 1])
  }

  // ---------------------------------------------------------------- flush

  function CommentRecords(comments: seq<string>): (r: seq<Record>)
    ensures AllHave(r, COMMENT) && |r| == |comments|
  {
    seq(|comments|, i requires 0 <= i < |comments| => Record(COMMENT, Text(comments[i])))
  }

  function InfoRecords(infos: seq<Body>): (r: seq<Record>)
    ensures AllHave(r, TRACE_INFO) && |r| == |infos|
  {
    seq(|infos|, i requires 0 <= i < |infos| => Record(TRACE_INFO, infos[i]))
  }

  function FlushComments(w: Writer): (r: Option<Writer>)
    ensures r.Some? ==> w.emitted <= r.value.emitted
  {
    var h := w.header;
    if h.commentsWritten || h.comments == [] then Some(w)
    else if h.isa.written || h.iem.written || h.pc.written || h.infosWritten || h.featuresWritten then None
    else
      match EmitAll(w, CommentRecords(h.comments))
      case None => None
      case Some(v) => Some(v.(header := h.(commentsWritten := true)))
  }

  function FlushIsa(w: Writer): (r: Option<Writer>)
    ensures r.Some? ==> w.emitted <= r.value.emitted
  {
    var h := w.header;
    if h.isa.written || h.isa.value.None? then Some(w)
    else if h.iem.written || h.pc.written || h.infosWritten || h.featuresWritten then None
    else
      match Emit(w, Record(ISA, h.isa.value.value))
      case None => None
      case Some(v) => Some(v.(header := h.(isa := h.isa.(written := true))))
  }

  function FlushIem(w: Writer): (r: Option<Writer>)
    ensures r.Some? ==> w.emitted <= r.value.emitted
  {
    var h := w.header;
    if h.iem.written || h.iem.value.None? then Some(w)
    else if !h.isa.written || h.pc.written || h.infosWritten || h.featuresWritten then None
    else
      match Emit(w, Record(INST_IEM, h.iem.value.value))
      case None => None
      case Some(v) => Some(v.(header := h.(iem := h.iem.(written := true))))
  }

  function FlushInfos(w: Writer): (r: Option<Writer>)
    ensures r.Some? ==> w.emitted <= r.value.emitted
  {
    var h := w.header;
    if h.infosWritten || h.infos == [] then Some(w)
    else if !h.isa.written || !h.iem.written || h.pc.written || h.featuresWritten then None
    else
      match EmitAll(w, InfoRecords(h.infos))
      case None => None
      case Some(v) => Some(v.(header := h.(infosWritten := true)))
  }

  // The features record is always written, empty if no feature was set.
  function FlushFeatures(w: Writer): (r: Option<Writer>)
    ensures r.Some? ==> w.emitted <= r.value.emitted
  {
    var h := w.header;
    if h.featuresWritten then Some(w)
    else if !h.isa.written || !h.iem.written || !h.infosWritten || h.pc.written then None
    else
      var bits := if h.features.Some? then h.features.value else {};
      match Emit(w, Record(TRACE_INFO_FEATURE, Features(bits)))
      case None => None
      case Some(v) => Some(v.(header := h.(features := Some(bits), featuresWritten := true)))
  }

  function FlushProcessId(w: Writer): (r: Option<Writer>)
    ensures r.Some? ==> w.emitted <= r.value.emitted
  {
    var h := w.header;
    if h.processId.written || h.processId.value.None? then Some(w)
    else
      match Emit(w, Record(PROCESS_ID_EXT, h.processId.value.value))
      case None => None
      case Some(v) => Some(v.(header := h.(processId := h.processId.(written := true))))
  }

  function FlushPc(w: Writer): (r: Option<Writer>)
    ensures r.Some? ==> w.emitted <= r.value.emitted
  {
    var h := w.header;
    if h.pc.written || h.pc.value.None? then Some(w)
    else if !h.isa.written || !h.iem.written || !h.infosWritten || !h.featuresWritten then None
    else
      match Emit(w, Record(FORCE_PC, h.pc.value.value))
      case None => None
      case Some(v) => Some(v.(header := h.(pc := h.pc.(written := true))))
  }

  function FlushVlen(w: Writer): (r: Option<Writer>)
    ensures r.Some? ==> w.emitted <= r.value.emitted
  {
    var h := w.header;
    if h.vlen.written || h.vlen.value.None? then Some(w)
    else
      match Emit(w, Record(VLEN_CONFIG, h.vlen.value.value))
      case None => None
      case Some(v) => Some(v.(header := h.(vlen := h.vlen.(written := true))))
  }

  function FlushIsaExtended(w: Writer): (r: Option<Writer>)
    ensures r.Some? ==> w.emitted <= r.value.emitted
  {
    var h := w.header;
    if h.isaExtended.written || h.isaExtended.value.None? then Some(w)
    else
      match Emit(w, Record(ISA_EXTENDED, h.isaExtended.value.value))
      case None => None
      case Some(v) => Some(v.(header := h.(isaExtended := h.isaExtended.(written := true))))
  }

  // The part of a flush up to the features, and the optional records after them.
  function FlushFirst(w: Writer): (r: Option<Writer>)
    ensures r.Some? ==> w.emitted <= r.value.emitted
  {
    match FlushComments(w)
    case None => None
    case Some(a) =>
      match FlushIsa(a)
      case None => None
      case Some(b) =>
        match FlushIem(b)
        case None => None
        case Some(c) =>
          match FlushInfos(c)
          case None => None
          case Some(d) => FlushFeatures(d)
  }

  function FlushRest(w: Writer): (r: Option<Writer>)
    ensures r.Some? ==> w.emitted <= r.value.emitted
  {
    match FlushProcessId(w)
    case None => None
    case Some(a) =>
      match FlushPc(a)
      case None => None
      case Some(b) =>
        match FlushVlen(b)
        case None => None
        case Some(c) => FlushIsaExtended(c)
  }

  function FlushHeader(w: Writer): (r: Option<Writer>)
    ensures r.Some? ==> w.emitted <= r.value.emitted
  {
    if w.order.headerFinalized then None
    else
      match FlushFirst(w)
      case None => None
      case Some(v) => FlushRest(v)
  }

  // RV64 traces use 64-bit events unless told otherwise.
  function WithEvent64(h: Header): Header {
    if !h.force32BitEvents && h.isa.value == Some(Number(RISCV)) && h.iem.value == Some(Number(RV64))
    then Set(h, SET_FEATURE(EVENT64)) else h
  }

  // What finalizing takes for a header with nothing left to write.
  predicate LooksComplete(h: Header) {
    && h.commentsWritten && h.isa.written && h.iem.written && h.pc.written && h.infosWritten && h.featuresWritten
    && (h.vlen.written || h.vlen.value.None?)
  }

  function FinalizeHeader(w: Writer): (r: Option<Writer>)
    ensures r.Some? ==> w.emitted <= r.value.emitted
  {
    if w.order.headerFinalized then Some(w)
    else if !w.order.headerStarted then None
    else
      var ready := w.(header := WithEvent64(w.header));
      match if LooksComplete(ready.header) then Some(ready) else FlushHeader(ready)
      case None => None
      case Some(v) =>
        match Emit(v, Record(END_HEADER, Number(0)))
        case None => None
        case Some(u) => Some(u.(order := u.order.(headerFinalized := true)))
  }

  // ---------------------------------------------------------------- the reader

  datatype Parsed = Parsed(comments: seq<Record>, isa: Option<Record>, iem: Option<Record>, pc: Option<Record>,
                           infos: seq<Record>, features: Option<Record>, processId: Option<Record>,
                           vlen: Option<Record>, isaExtended: Option<Record>, complete: bool)

  const NOTHING: Parsed := Parsed([], None, None, None, [], None, None, None, None, false)

  // One record of the header; None when it is not allowed there, or there twice.
  function ParseOne(p: Parsed, r: Record): Option<Parsed> {
    match r.desc
    case COMMENT => Some(p.(comments := p.comments + [r]))
    case ISA => if p.isa.Some? then None else Some(p.(isa := Some(r)))
    case INST_IEM => if p.iem.Some? then None else Some(p.(iem := Some(r)))
    case FORCE_PC => if p.pc.Some? then None else Some(p.(pc := Some(r)))
    case TRACE_INFO => Some(p.(infos := p.infos + [r]))
    case TRACE_INFO_FEATURE => if p.features.Some? then None else Some(p.(features := Some(r)))
    case PROCESS_ID_EXT => if p.processId.Some? then None else Some(p.(processId := Some(r)))
    case VLEN_CONFIG => if p.vlen.Some? then None else Some(p.(vlen := Some(r)))
    case ISA_EXTENDED => if p.isaExtended.Some? then None else Some(p.(isaExtended := Some(r)))
    case END_HEADER => Some(p.(complete := true))
    case _ => None
  }

  // The records up to the end of the header; what follows it is not looked at.
  function Parse(from: Parsed, recs: seq<Record>): Option<Parsed> {
    if recs == [] then Some(from)
    else
      match Parse(from, recs[..|recs| - 1])
      case None => None
      case Some(p) => if p.complete then Some(p) else ParseOne(p, recs[|recs| - 1])
  }

  predicate Validates(p: Parsed) {
    p.complete && p.isa.Some? && p.iem.Some? && p.pc.Some? && p.infos != [] && p.features.Some?
  }

  function ReadHeader(recs: seq<Record>): Option<Parsed> {
    if |recs| < 2 || recs[0] != IDENTIFIER_RECORD || !recs[1].desc.VERSION? then None
    else
      match Parse(NOTHING, recs[2..])
      case None => None
      case Some(p) => if Validates(p) then Some(p) else None
  }

  // ---------------------------------------------------------------- a header written in one go

  predicate NothingWritten(h: Header) {
    && !h.commentsWritten && !h.isa.written && !h.iem.written && !h.infosWritten && !h.featuresWritten
    && !h.processId.written && !h.pc.written && !h.vlen.written && !h.isaExtended.written
  }

  lemma {:induction false} SettersWriteNothing(h: Header, ops: seq<Setter>)
    requires NothingWritten(h)
    ensures NothingWritten(SetAll(h, ops))
  {
    if ops != [] {
      SettersWriteNothing(h, ops[..|ops| - 1]);
    }
  }

  function Optional(d: Descriptor, f: Field): (r: seq<Record>)
    ensures AllHave(r, d)
  {
    if f.value.Some? then [Record(d, f.value.value)] else []
  }

  function FeatureRecord(h: Header): Record {
    Record(TRACE_INFO_FEATURE, Features(if h.features.Some? then h.features.value else {}))
  }

  /** The header of a trace, record by record. */
  function HeaderRecords(h: Header): seq<Record> {
    CommentRecords(h.comments) + Optional(ISA, h.isa) + Optional(INST_IEM, h.iem) + InfoRecords(h.infos)
      + [FeatureRecord(h)]
    + Optional(PROCESS_ID_EXT, h.processId) + Optional(FORCE_PC, h.pc) + Optional(VLEN_CONFIG, h.vlen)
    + Optional(ISA_EXTENDED, h.isaExtended) + [Record(END_HEADER, Number(0))]
  }

  // In the header, with nothing later than an encoded descriptor written.
  predicate UpTo(s: Order, e: nat) {
    && s.headerStarted && !s.headerFinalized && ToEncoded(s.last) <= e && e < ToEncoded(INST_PC_TARGET)
    && !s.wroteEventGroup && !s.wrotePageTableWalk && !s.wroteReg
  }

  predicate IsHeaderRecord(d: Descriptor) {
    d.COMMENT? || d.ISA? || d.INST_IEM? || d.TRACE_INFO? || d.TRACE_INFO_FEATURE? || d.PROCESS_ID_EXT? || d.FORCE_PC?
    || d.VLEN_CONFIG? || d.ISA_EXTENDED? || d.END_HEADER?
  }

  lemma {:induction false} EmitAllAccepted(w: Writer, recs: seq<Record>, d: Descriptor, e: nat)
    requires UpTo(w.order, e) && AllHave(recs, d) && IsHeaderRecord(d) && e <= ToEncoded(d)
    ensures var r := EmitAll(w, recs);
            && r.Some? && r.value.header == w.header && r.value.emitted == w.emitted + recs
            && UpTo(r.value.order, ToEncoded(d))
            && (recs != [] ==> r.value.order.last == d)
  {
    hide Emit, ToEncoded, IsHeaderRecord, UpTo;
    if recs == [] {
      assert w.emitted + [] == w.emitted;
      UpToHeader(w.order, e, d);
    } else {
      var n := |recs| - 1;
      EmitAllAccepted(w, recs[..n], d, e);
      assert recs[n] in recs;
      EmitAccepted(EmitAll(w, recs[..n]).value, recs[n], ToEncoded(d));
      assert recs[..n] + [recs[n]] == recs;
      assert w.emitted + recs[..n] + [recs[n]] == w.emitted + (recs[..n] + [recs[n]]);
    }
  }

  lemma UpToHeader(s: Order, e: nat, d: Descriptor)
    requires UpTo(s, e) && IsHeaderRecord(d) && e <= ToEncoded(d)
    ensures UpTo(s, ToEncoded(d))
  {
  }

  lemma EmitAccepted(w: Writer, r: Record, e: nat)
    requires UpTo(w.order, e) && IsHeaderRecord(r.desc) && e <= ToEncoded(r.desc)
    ensures var v := Emit(w, r);
            && v.Some? && v.value.header == w.header && v.value.emitted == w.emitted + [r]
            && UpTo(v.value.order, ToEncoded(r.desc)) && v.value.order.last == r.desc
  {
  }

  // Nothing but the fields that say what was written differs.
  predicate SameValues(g: Header, h: Header) {
    && g.comments == h.comments && g.isa.value == h.isa.value && g.iem.value == h.iem.value && g.infos == h.infos
    && FeatureRecord(g) == FeatureRecord(h)
    && g.processId.value == h.processId.value && g.pc.value == h.pc.value && g.vlen.value == h.vlen.value
    && g.isaExtended.value == h.isaExtended.value
  }

  predicate CanFlush(h: Header) { h.isa.value.Some? && h.iem.value.Some? && h.infos != [] }

  function FirstRecords(h: Header): seq<Record> {
    CommentRecords(h.comments) + Optional(ISA, h.isa) + Optional(INST_IEM, h.iem) + InfoRecords(h.infos)
      + [FeatureRecord(h)]
  }

  function RestRecords(h: Header): seq<Record> {
    Optional(PROCESS_ID_EXT, h.processId) + Optional(FORCE_PC, h.pc) + Optional(VLEN_CONFIG, h.vlen)
      + Optional(ISA_EXTENDED, h.isaExtended)
  }

  lemma HeaderEncodings()
    ensures ToEncoded(COMMENT) == 3 && ToEncoded(ISA) == 4 && ToEncoded(INST_IEM) == 5 && ToEncoded(TRACE_INFO) == 6
    ensures ToEncoded(TRACE_INFO_FEATURE) == 7 && ToEncoded(PROCESS_ID_EXT) == 8 && ToEncoded(FORCE_PC) == 9
    ensures ToEncoded(VLEN_CONFIG) == 10 && ToEncoded(ISA_EXTENDED) == 13 && ToEncoded(END_HEADER) == 19
    ensures ToEncoded(INST_PC_TARGET) == 31
  {
    hide ToEncoded;
    FixedEncodings();
    OptionalEncodings();
  }

  lemma FixedEncodings()
    ensures ToEncoded(COMMENT) == 3 && ToEncoded(ISA) == 4 && ToEncoded(INST_IEM) == 5 && ToEncoded(TRACE_INFO) == 6
    ensures ToEncoded(TRACE_INFO_FEATURE) == 7
  {
  }

  lemma OptionalEncodings()
    ensures ToEncoded(PROCESS_ID_EXT) == 8 && ToEncoded(FORCE_PC) == 9 && ToEncoded(VLEN_CONFIG) == 10
    ensures ToEncoded(ISA_EXTENDED) == 13 && ToEncoded(END_HEADER) == 19 && ToEncoded(INST_PC_TARGET) == 31
  {
  }

  lemma UpToLater(s: Order, e: nat, f: nat)
    requires UpTo(s, e) && e <= f < ToEncoded(INST_PC_TARGET)
    ensures UpTo(s, f)
  {
  }

  lemma CommentsFlushed(w: Writer)
    requires UpTo(w.order, 3) && NothingWritten(w.header)
    ensures var v, h := FlushComments(w), w.header;
            && v.Some? && v.value.emitted == w.emitted + CommentRecords(h.comments) && UpTo(v.value.order, 3)
            && v.value.header == h.(commentsWritten := h.comments != [])
  {
    hide UpTo, Emit, ToEncoded, EmitAll;
    HeaderEncodings();
    EmitAllAccepted(w, CommentRecords(w.header.comments), COMMENT, 3);
    assert w.emitted + [] == w.emitted;
  }

  lemma IsaAndIemFlushed(w: Writer)
    requires UpTo(w.order, 3) && NothingWritten(w.header.(commentsWritten := false))
    requires w.header.isa.value.Some? && w.header.iem.value.Some?
    ensures var h := w.header;
            && FlushIsa(w).Some? && FlushIem(FlushIsa(w).value).Some?
            && var v := FlushIem(FlushIsa(w).value).value;
               && v.emitted == w.emitted + Optional(ISA, h.isa) + Optional(INST_IEM, h.iem) && UpTo(v.order, 5)
               && v.header == h.(isa := h.isa.(written := true), iem := h.iem.(written := true))
  {
    hide UpTo, Emit, ToEncoded;
    HeaderEncodings();
    EmitAccepted(w, Record(ISA, w.header.isa.value.value), 3);
    EmitAccepted(FlushIsa(w).value, Record(INST_IEM, w.header.iem.value.value), 4);
  }

  lemma InfosAndFeaturesFlushed(w: Writer)
    requires UpTo(w.order, 5) && w.header.isa.written && w.header.iem.written && w.header.infos != []
    requires !w.header.infosWritten && !w.header.featuresWritten && !w.header.pc.written
    ensures var h := w.header;
            && FlushInfos(w).Some? && FlushFeatures(FlushInfos(w).value).Some?
            && var v := FlushFeatures(FlushInfos(w).value).value;
               && v.emitted == w.emitted + InfoRecords(h.infos) + [FeatureRecord(h)] && UpTo(v.order, 7)
               && v.header == h.(infosWritten := true, featuresWritten := true, features := v.header.features)
               && FeatureRecord(v.header) == FeatureRecord(h)
  {
    hide UpTo, Emit, ToEncoded, EmitAll;
    HeaderEncodings();
    EmitAllAccepted(w, InfoRecords(w.header.infos), TRACE_INFO, 5);
    EmitAccepted(FlushInfos(w).value, FeatureRecord(w.header), 6);
  }

  lemma CannotFlush(w: Writer)
    requires NothingWritten(w.header) && !CanFlush(w.header)
    ensures FlushFirst(w).None?
  {
    hide Emit, EmitAll;
    SameHeader(w);
  }

  // Writing comments leaves every other field alone.
  lemma SameHeader(w: Writer)
    ensures FlushComments(w).Some? ==>
              var h := FlushComments(w).value.header; h == w.header.(commentsWritten := h.commentsWritten)
    ensures FlushIsa(w).Some? ==> FlushIsa(w).value.header == w.header.(isa := FlushIsa(w).value.header.isa)
    ensures FlushIem(w).Some? ==> FlushIem(w).value.header == w.header.(iem := FlushIem(w).value.header.iem)
  {
  }

  /** The first flush writes the fixed part of the header exactly when ISA, IEM and a trace info are set. */
  lemma FirstFlushed(w: Writer)
    requires UpTo(w.order, 3) && NothingWritten(w.header) && CanFlush(w.header)
    ensures FlushFirst(w).Some?
    ensures var v := FlushFirst(w).value;
            && v.emitted == w.emitted + FirstRecords(w.header) && UpTo(v.order, 7) && SameValues(v.header, w.header)
            && v.header.isa.written && v.header.iem.written && v.header.infosWritten && v.header.featuresWritten
            && v.header.processId == w.header.processId && v.header.pc == w.header.pc
            && v.header.vlen == w.header.vlen && v.header.isaExtended == w.header.isaExtended
  {
    hide UpTo, FlushComments, FlushIsa, FlushIem, FlushInfos, FlushFeatures, CommentRecords, InfoRecords, Optional,
         FeatureRecord;
    CommentsFlushed(w);
    var a := FlushComments(w).value;
    IsaAndIemFlushed(a);
    var b := FlushIem(FlushIsa(a).value).value;
    InfosAndFeaturesFlushed(b);
    SameFeatures(b.header, w.header);
  }

  lemma SameFeatures(g: Header, h: Header)
    requires g.features == h.features
    ensures FeatureRecord(g) == FeatureRecord(h)
  {
  }

  lemma ProcessIdAndPcFlushed(w: Writer)
    requires UpTo(w.order, 7)
    requires w.header.isa.written && w.header.iem.written && w.header.infosWritten && w.header.featuresWritten
    requires !w.header.processId.written && !w.header.pc.written
    ensures var h := w.header;
            && FlushProcessId(w).Some? && FlushPc(FlushProcessId(w).value).Some?
            && var v := FlushPc(FlushProcessId(w).value).value;
               && v.emitted == w.emitted + Optional(PROCESS_ID_EXT, h.processId) + Optional(FORCE_PC, h.pc)
               && UpTo(v.order, 9)
               && v.header.vlen == h.vlen && v.header.isaExtended == h.isaExtended
  {
    hide UpTo, Emit, ToEncoded;
    HeaderEncodings();
    assert w.emitted + [] == w.emitted;
    if w.header.processId.value.Some? {
      EmitAccepted(w, Record(PROCESS_ID_EXT, w.header.processId.value.value), 7);
    } else {
      UpToLater(w.order, 7, 8);
    }
    var a := FlushProcessId(w).value;
    assert a.emitted + [] == a.emitted;
    if w.header.pc.value.Some? {
      EmitAccepted(a, Record(FORCE_PC, w.header.pc.value.value), 8);
    } else {
      UpToLater(a.order, 8, 9);
    }
  }

  lemma VlenAndIsaExtendedFlushed(w: Writer)
    requires UpTo(w.order, 9) && !w.header.vlen.written && !w.header.isaExtended.written
    ensures var h := w.header;
            && FlushVlen(w).Some? && FlushIsaExtended(FlushVlen(w).value).Some?
            && var v := FlushIsaExtended(FlushVlen(w).value).value;
               && v.emitted == w.emitted + Optional(VLEN_CONFIG, h.vlen) + Optional(ISA_EXTENDED, h.isaExtended)
               && UpTo(v.order, 13)
  {
    hide UpTo, Emit, ToEncoded;
    HeaderEncodings();
    assert w.emitted + [] == w.emitted;
    if w.header.vlen.value.Some? {
      EmitAccepted(w, Record(VLEN_CONFIG, w.header.vlen.value.value), 9);
    } else {
      UpToLater(w.order, 9, 10);
    }
    var a := FlushVlen(w).value;
    assert a.emitted + [] == a.emitted;
    if w.header.isaExtended.value.Some? {
      EmitAccepted(a, Record(ISA_EXTENDED, w.header.isaExtended.value.value), 10);
    } else {
      UpToLater(a.order, 10, 13);
    }
  }

  lemma RestFlushed(w: Writer)
    requires UpTo(w.order, 7)
    requires w.header.isa.written && w.header.iem.written && w.header.infosWritten && w.header.featuresWritten
    requires !w.header.processId.written && !w.header.pc.written
    requires !w.header.vlen.written && !w.header.isaExtended.written
    ensures var r := FlushRest(w);
            r.Some? && r.value.emitted == w.emitted + RestRecords(w.header) && UpTo(r.value.order, 13)
  {
    hide UpTo, FlushProcessId, FlushPc, FlushVlen, FlushIsaExtended, Optional;
    ProcessIdAndPcFlushed(w);
    VlenAndIsaExtendedFlushed(FlushPc(FlushProcessId(w).value).value);
  }

  /**
   * Finalizing a header that was never flushed writes exactly its records, in their order, and
   * succeeds exactly when ISA, IEM and at least one trace info are set.
   */
  lemma FinalizedInOneGo(ops: seq<Setter>)
    ensures var h := WithEvent64(SetAll(EMPTY, ops)); var r := FinalizeHeader(OPENED.(header := SetAll(EMPTY, ops)));
            && (r.Some? <==> CanFlush(h))
            && (r.Some? ==> r.value.emitted == OPENED.emitted + HeaderRecords(h) && AtGroupStart(r.value.order))
  {
    hide SetAll, UpTo, FlushFirst, FlushRest, Emit, ToEncoded, HeaderRecords, FirstRecords, RestRecords, FeatureRecord;
    SettersWriteNothing(EMPTY, ops);
    var h := WithEvent64(SetAll(EMPTY, ops));
    var w := OPENED.(header := h);
    assert UpTo(w.order, 3) by { OpenedIsUpTo(); }
    if CanFlush(h) {
      FirstFlushed(w);
      var v := FlushFirst(w).value;
      RestFlushed(v);
      HeaderEncodings();
      EmitAccepted(FlushRest(v).value, Record(END_HEADER, Number(0)), 13);
      SameRest(v.header, h);
      assert OPENED.emitted + FirstRecords(h) + RestRecords(h) + [Record(END_HEADER, Number(0))]
        == OPENED.emitted + HeaderRecords(h) by {
        SplitRecords(h);
      }
      FlagsOf(FlushRest(v).value.order);
    } else {
      CannotFlush(w);
    }
  }

  lemma OpenedIsUpTo()
    ensures UpTo(OPENED.order, 3)
  {
  }

  lemma SameRest(g: Header, h: Header)
    requires SameValues(g, h)
    ensures RestRecords(g) == RestRecords(h)
  {
  }

  lemma FlagsOf(s: Order)
    requires UpTo(s, 13)
    ensures var t := Next(s, END_HEADER).(headerFinalized := true); AtGroupStart(t)
  {
  }

  lemma SplitRecords(h: Header)
    ensures HeaderRecords(h) == FirstRecords(h) + RestRecords(h) + [Record(END_HEADER, Number(0))]
  {
    hide CommentRecords, InfoRecords, Optional;
    var first, a, b, c, d := FirstRecords(h), Optional(PROCESS_ID_EXT, h.processId), Optional(FORCE_PC, h.pc),
      Optional(VLEN_CONFIG, h.vlen), Optional(ISA_EXTENDED, h.isaExtended);
    assert first + a + b + c + d == first + (a + b + c + d);
  }

  // ---------------------------------------------------------------- reading it back

  lemma {:induction false} ParseConcat(from: Parsed, a: seq<Record>, b: seq<Record>)
    ensures Parse(from, a + b) == match Parse(from, a) { case None => None case Some(p) => Parse(p, b) }
  {
    hide ParseOne;
    if b == [] {
      assert a + b == a;
    } else {
      var n := |b| - 1;
      assert (a + b)[..|a + b| - 1] == a + b[..n];
      ParseConcat(from, a, b[..n]);
    }
  }

  lemma ParseSingle(p: Parsed, r: Record)
    ensures Parse(p, [r]) == if p.complete then Some(p) else ParseOne(p, r)
  {
    hide ParseOne;
    assert [r][..0] == [];
  }

  lemma {:induction false} ParseComments(p: Parsed, recs: seq<Record>)
    requires AllHave(recs, COMMENT) && !p.complete
    ensures Parse(p, recs) == Some(p.(comments := p.comments + recs))
  {
    if recs == [] {
      assert p.comments + [] == p.comments;
    } else {
      var n := |recs| - 1;
      assert recs[n] in recs && recs == recs[..n] + [recs[n]];
      ParseComments(p, recs[..n]);
      assert p.comments + recs == p.comments + recs[..n] + [recs[n]];
    }
  }

  lemma {:induction false} ParseInfos(p: Parsed, recs: seq<Record>)
    requires AllHave(recs, TRACE_INFO) && !p.complete
    ensures Parse(p, recs) == Some(p.(infos := p.infos + recs))
  {
    if recs == [] {
      assert p.infos + [] == p.infos;
    } else {
      var n := |recs| - 1;
      assert recs[n] in recs && recs == recs[..n] + [recs[n]];
      ParseInfos(p, recs[..n]);
      assert p.infos + recs == p.infos + recs[..n] + [recs[n]];
    }
  }

  function OptionalRecord(d: Descriptor, f: Field): Option<Record> {
    if f.value.Some? then Some(Record(d, f.value.value)) else None
  }

  lemma ParseOptional(p: Parsed, d: Descriptor, f: Field)
    requires !p.complete
    ensures Parse(p, Optional(d, f)) == if f.value.Some? then ParseOne(p, Record(d, f.value.value)) else Some(p)
  {
    hide ParseOne;
    if f.value.Some? {
      ParseSingle(p, Record(d, f.value.value));
    }
  }

  // What the reader should find in a header.
  function Expected(h: Header): Parsed {
    Parsed(CommentRecords(h.comments), OptionalRecord(ISA, h.isa), OptionalRecord(INST_IEM, h.iem),
           OptionalRecord(FORCE_PC, h.pc), InfoRecords(h.infos), Some(FeatureRecord(h)),
           OptionalRecord(PROCESS_ID_EXT, h.processId), OptionalRecord(VLEN_CONFIG, h.vlen),
           OptionalRecord(ISA_EXTENDED, h.isaExtended), true)
  }

  lemma ParseFirst(h: Header)
    ensures Parse(NOTHING, FirstRecords(h))
         == Some(NOTHING.(comments := CommentRecords(h.comments), isa := OptionalRecord(ISA, h.isa),
                          iem := OptionalRecord(INST_IEM, h.iem), infos := InfoRecords(h.infos),
                          features := Some(FeatureRecord(h))))
  {
    hide Parse, CommentRecords, InfoRecords, Optional;
    var a, b, c, d := CommentRecords(h.comments), Optional(ISA, h.isa), Optional(INST_IEM, h.iem), InfoRecords(h.infos);
    ParseComments(NOTHING, a);
    assert [] + a == a;
    var p1 := NOTHING.(comments := a);
    ParseConcat(NOTHING, a, b);
    ParseOptional(p1, ISA, h.isa);
    var p2 := p1.(isa := OptionalRecord(ISA, h.isa));
    ParseConcat(NOTHING, a + b, c);
    ParseOptional(p2, INST_IEM, h.iem);
    var p3 := p2.(iem := OptionalRecord(INST_IEM, h.iem));
    ParseConcat(NOTHING, a + b + c, d);
    ParseInfos(p3, d);
    assert [] + d == d;
    var p4 := p3.(infos := d);
    ParseConcat(NOTHING, a + b + c + d, [FeatureRecord(h)]);
    ParseSingle(p4, FeatureRecord(h));
  }

  lemma ParseIdAndPc(p: Parsed, h: Header)
    requires !p.complete && p.processId.None? && p.pc.None?
    ensures Parse(p, Optional(PROCESS_ID_EXT, h.processId) + Optional(FORCE_PC, h.pc))
         == Some(p.(processId := OptionalRecord(PROCESS_ID_EXT, h.processId), pc := OptionalRecord(FORCE_PC, h.pc)))
  {
    hide Parse, Optional;
    ParseOptional(p, PROCESS_ID_EXT, h.processId);
    ParseConcat(p, Optional(PROCESS_ID_EXT, h.processId), Optional(FORCE_PC, h.pc));
    ParseOptional(p.(processId := OptionalRecord(PROCESS_ID_EXT, h.processId)), FORCE_PC, h.pc);
  }

  lemma ParseVlenAndIsaExtended(p: Parsed, h: Header)
    requires !p.complete && p.vlen.None? && p.isaExtended.None?
    ensures Parse(p, Optional(VLEN_CONFIG, h.vlen) + Optional(ISA_EXTENDED, h.isaExtended))
         == Some(p.(vlen := OptionalRecord(VLEN_CONFIG, h.vlen),
                    isaExtended := OptionalRecord(ISA_EXTENDED, h.isaExtended)))
  {
    hide Parse, Optional;
    ParseOptional(p, VLEN_CONFIG, h.vlen);
    ParseConcat(p, Optional(VLEN_CONFIG, h.vlen), Optional(ISA_EXTENDED, h.isaExtended));
    ParseOptional(p.(vlen := OptionalRecord(VLEN_CONFIG, h.vlen)), ISA_EXTENDED, h.isaExtended);
  }

  lemma ParseRest(p: Parsed, h: Header)
    requires !p.complete && p.processId.None? && p.pc.None? && p.vlen.None? && p.isaExtended.None?
    ensures Parse(p, RestRecords(h))
         == Some(p.(processId := OptionalRecord(PROCESS_ID_EXT, h.processId), pc := OptionalRecord(FORCE_PC, h.pc),
                    vlen := OptionalRecord(VLEN_CONFIG, h.vlen),
                    isaExtended := OptionalRecord(ISA_EXTENDED, h.isaExtended)))
  {
    hide Parse, Optional, OptionalRecord;
    var a, b, c, d := Optional(PROCESS_ID_EXT, h.processId), Optional(FORCE_PC, h.pc), Optional(VLEN_CONFIG, h.vlen),
      Optional(ISA_EXTENDED, h.isaExtended);
    assert RestRecords(h) == (a + b) + (c + d);
    ParseConcat(p, a + b, c + d);
    ParseIdAndPc(p, h);
    ParseVlenAndIsaExtended(Parse(p, a + b).value, h);
  }

  /**
   * The header written in one go reads back exactly, whatever the setters were and whatever records
   * follow it: all comments and trace infos in order, the other fields as last set, 64-bit events
   * noted for RV64.  The reader refuses it exactly when no PC was set.
   */
  lemma HeaderRoundTrip(ops: seq<Setter>, following: seq<Record>)
    requires CanFlush(SetAll(EMPTY, ops))
    ensures var h := WithEvent64(SetAll(EMPTY, ops));
            && FinalizeHeader(OPENED.(header := SetAll(EMPTY, ops))).Some?
            && var trace := FinalizeHeader(OPENED.(header := SetAll(EMPTY, ops))).value.emitted + following;
               ReadHeader(trace) == if h.pc.value.Some? then Some(Expected(h)) else None
  {
    hide SetAll, FinalizeHeader, Parse, HeaderRecords, CommentRecords, InfoRecords, Optional;
    var h := WithEvent64(SetAll(EMPTY, ops));
    FinalizedInOneGo(ops);
    ParseHeader(h);
    ParseConcat(NOTHING, HeaderRecords(h), following);
    ParsedAlready(Expected(h), following);
    var trace := FinalizeHeader(OPENED.(header := SetAll(EMPTY, ops))).value.emitted + following;
    assert trace[2..] == HeaderRecords(h) + following;
  }

  lemma ParseHeader(h: Header)
    ensures Parse(NOTHING, HeaderRecords(h)) == Some(Expected(h))
  {
    hide Parse, HeaderRecords, FirstRecords, RestRecords, CommentRecords, InfoRecords, Optional;
    var end := [Record(END_HEADER, Number(0))];
    SplitRecords(h);
    ParseFirst(h);
    ParseConcat(NOTHING, FirstRecords(h), RestRecords(h));
    var p := Parse(NOTHING, FirstRecords(h)).value;
    ParseRest(p, h);
    ParseConcat(NOTHING, FirstRecords(h) + RestRecords(h), end);
    ParseSingle(Parse(p, RestRecords(h)).value, end[0]);
  }

  lemma {:induction false} ParsedAlready(p: Parsed, recs: seq<Record>)
    requires p.complete
    ensures Parse(p, recs) == Some(p)
  {
    hide ParseOne;
    if recs != [] {
      ParsedAlready(p, recs[..|recs| - 1]);
    }
  }
}
