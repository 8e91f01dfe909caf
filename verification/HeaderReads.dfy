/**
 * What the reader takes for a header, told by counting records, and what it finds in the header that
 * any run of setters, flushes and finalization has written.
 */
module HeaderReads {
  import opened FlatMaps
  import opened Descriptors
  import opened Records
  import opened RecordOrder
  import opened Headers
  import opened HeaderRuns

  // ---------------------------------------------------------------- what is a header

  // Records that a header may hold once, and all that it may hold before its end.
  predicate Once(d: Descriptor) { IsSingle(d) || d.TRACE_INFO_FEATURE? }

  predicate HeaderKind(d: Descriptor) { Once(d) || d.COMMENT? || d.TRACE_INFO? }

  predicate Required(d: Descriptor) {
    d.ISA? || d.INST_IEM? || d.FORCE_PC? || d.TRACE_INFO_FEATURE? || d.TRACE_INFO?
  }

  ghost predicate NoneTwice(recs: seq<Record>) {
    && (forall r :: r in recs ==> HeaderKind(r.desc))
    && (forall d :: Once(d) ==> |Filter(recs, d)| <= 1)
  }

  /**
   * The header ends with the record at n: before it, in any order, exactly one ISA, IEM, PC and
   * features record, one trace info or more, and at most one of each of the others but comments.
   */
  ghost predicate HeaderEndsAt(trace: seq<Record>, n: nat) {
    && 2 <= n < |trace| && trace[0] == IDENTIFIER_RECORD && trace[1].desc.VERSION? && trace[n].desc.END_HEADER?
    && NoneTwice(trace[2..n])
    && (forall d :: Required(d) ==> Filter(trace[2..n], d) != [])
  }

  function Only(recs: seq<Record>): Option<Record> { if recs == [] then None else Some(recs[0]) }

  // The records of a header by their kinds.
  function Parts(recs: seq<Record>, complete: bool): Parsed {
    Parsed(Filter(recs, COMMENT), Only(Filter(recs, ISA)), Only(Filter(recs, INST_IEM)), Only(Filter(recs, FORCE_PC)),
           Filter(recs, TRACE_INFO), Only(Filter(recs, TRACE_INFO_FEATURE)), Only(Filter(recs, PROCESS_ID_EXT)),
           Only(Filter(recs, VLEN_CONFIG)), Only(Filter(recs, ISA_EXTENDED)), complete)
  }

  lemma FiltersSnoc(recs: seq<Record>, r: Record)
    ensures forall d :: r.desc != d ==> Filter(recs + [r], d) == Filter(recs, d)
    ensures Filter(recs + [r], r.desc) == Filter(recs, r.desc) + [r]
    ensures Filter(recs, r.desc) == [] ==> Only(Filter(recs + [r], r.desc)) == Some(r)
    ensures Only(Filter(recs, r.desc)).None? <==> Filter(recs, r.desc) == []
  {
    hide Filter;
    forall d: Descriptor
      ensures Filter(recs + [r], d) == if r.desc == d then Filter(recs, d) + [r] else Filter(recs, d)
    {
      FilterSnoc(recs, r, d);
    }
  }

  // With one more record of a kind, only the part of that kind changes.
  lemma IsaPart(recs: seq<Record>, r: Record)
    requires r.desc.ISA? && Filter(recs, ISA) == []
    ensures Parts(recs + [r], false) == Parts(recs, false).(isa := Some(r))
  {
    hide Filter, Only;
    FiltersSnoc(recs, r);
  }

  lemma IemPart(recs: seq<Record>, r: Record)
    requires r.desc.INST_IEM? && Filter(recs, INST_IEM) == []
    ensures Parts(recs + [r], false) == Parts(recs, false).(iem := Some(r))
  {
    hide Filter, Only;
    FiltersSnoc(recs, r);
  }

  lemma PcPart(recs: seq<Record>, r: Record)
    requires r.desc.FORCE_PC? && Filter(recs, FORCE_PC) == []
    ensures Parts(recs + [r], false) == Parts(recs, false).(pc := Some(r))
  {
    hide Filter, Only;
    FiltersSnoc(recs, r);
  }

  lemma FeaturesPart(recs: seq<Record>, r: Record)
    requires r.desc.TRACE_INFO_FEATURE? && Filter(recs, TRACE_INFO_FEATURE) == []
    ensures Parts(recs + [r], false) == Parts(recs, false).(features := Some(r))
  {
    hide Filter, Only;
    FiltersSnoc(recs, r);
  }

  lemma ProcessIdPart(recs: seq<Record>, r: Record)
    requires r.desc.PROCESS_ID_EXT? && Filter(recs, PROCESS_ID_EXT) == []
    ensures Parts(recs + [r], false) == Parts(recs, false).(processId := Some(r))
  {
    hide Filter, Only;
    FiltersSnoc(recs, r);
  }

  lemma VlenPart(recs: seq<Record>, r: Record)
    requires r.desc.VLEN_CONFIG? && Filter(recs, VLEN_CONFIG) == []
    ensures Parts(recs + [r], false) == Parts(recs, false).(vlen := Some(r))
  {
    hide Filter, Only;
    FiltersSnoc(recs, r);
  }

  lemma IsaExtendedPart(recs: seq<Record>, r: Record)
    requires r.desc.ISA_EXTENDED? && Filter(recs, ISA_EXTENDED) == []
    ensures Parts(recs + [r], false) == Parts(recs, false).(isaExtended := Some(r))
  {
    hide Filter, Only;
    FiltersSnoc(recs, r);
  }

  // The part of a kind that may stand once.
  function PartOf(p: Parsed, d: Descriptor): Option<Record> {
    match d
    case ISA => p.isa
    case INST_IEM => p.iem
    case FORCE_PC => p.pc
    case TRACE_INFO_FEATURE => p.features
    case PROCESS_ID_EXT => p.processId
    case VLEN_CONFIG => p.vlen
    case _ => p.isaExtended
  }

  function WithPart(p: Parsed, r: Record): Parsed {
    match r.desc
    case ISA => p.(isa := Some(r))
    case INST_IEM => p.(iem := Some(r))
    case FORCE_PC => p.(pc := Some(r))
    case TRACE_INFO_FEATURE => p.(features := Some(r))
    case PROCESS_ID_EXT => p.(processId := Some(r))
    case VLEN_CONFIG => p.(vlen := Some(r))
    case _ => p.(isaExtended := Some(r))
  }

  lemma ParseOnce(p: Parsed, r: Record)
    requires Once(r.desc)
    ensures ParseOne(p, r) == if PartOf(p, r.desc).Some? then None else Some(WithPart(p, r))
  {
  }

  lemma PartsSnoc(recs: seq<Record>, r: Record)
    requires Once(r.desc) && Filter(recs, r.desc) == []
    ensures Parts(recs + [r], false) == WithPart(Parts(recs, false), r)
  {
    hide Filter, Parts;
    match r.desc
    case ISA => IsaPart(recs, r);
    case INST_IEM => IemPart(recs, r);
    case FORCE_PC => PcPart(recs, r);
    case TRACE_INFO_FEATURE => FeaturesPart(recs, r);
    case PROCESS_ID_EXT => ProcessIdPart(recs, r);
    case VLEN_CONFIG => VlenPart(recs, r);
    case ISA_EXTENDED => IsaExtendedPart(recs, r);
  }

  lemma PartShown(recs: seq<Record>, d: Descriptor)
    requires Once(d)
    ensures PartOf(Parts(recs, false), d) == Only(Filter(recs, d))
  {
    hide Filter, Only;
  }

  lemma OneMoreOnce(recs: seq<Record>, r: Record)
    requires Once(r.desc)
    ensures ParseOne(Parts(recs, false), r)
         == if Filter(recs, r.desc) != [] then None else Some(Parts(recs + [r], false))
  {
    hide Filter, Parts, ParseOne, WithPart, PartOf, Once;
    PartShown(recs, r.desc);
    ParseOnce(Parts(recs, false), r);
    if Filter(recs, r.desc) == [] {
      PartsSnoc(recs, r);
    }
  }

  lemma OneMoreListed(recs: seq<Record>, r: Record)
    requires r.desc.COMMENT? || r.desc.TRACE_INFO?
    ensures ParseOne(Parts(recs, false), r) == Some(Parts(recs + [r], false))
  {
    hide Filter, Only;
    FiltersSnoc(recs, r);
  }

  lemma NoneTwiceSnoc(recs: seq<Record>, r: Record)
    ensures NoneTwice(recs + [r]) <==>
            NoneTwice(recs) && HeaderKind(r.desc) && (Once(r.desc) ==> Filter(recs, r.desc) == [])
  {
    hide Filter, Once;
    forall d: Descriptor
      ensures Filter(recs + [r], d) == if r.desc == d then Filter(recs, d) + [r] else Filter(recs, d)
    {
      FilterSnoc(recs, r, d);
    }
    assert r in recs + [r] && forall q :: q in recs ==> q in recs + [r];
  }

  lemma Unreadable(p: Parsed, r: Record)
    requires !HeaderKind(r.desc) && !r.desc.END_HEADER?
    ensures ParseOne(p, r).None?
  {
  }

  /** Before the end, records are taken exactly when all may stand in a header and none twice. */
  lemma {:induction false} ParsedSoFar(recs: seq<Record>)
    requires forall r :: r in recs ==> !r.desc.END_HEADER?
    ensures Parse(NOTHING, recs) == if NoneTwice(recs) then Some(Parts(recs, false)) else None
  {
    if recs != [] {
      hide ParseOne, NoneTwice, Parts, HeaderKind, Once;
      var before, r := recs[..|recs| - 1], recs[|recs| - 1];
      assert r in recs && recs == before + [r];
      ParsedSoFar(before);
      NoneTwiceSnoc(before, r);
      NotComplete(before);
      if HeaderKind(r.desc) {
        if Once(r.desc) {
          OneMoreOnce(before, r);
        } else {
          ListedOrOnce(r.desc);
          OneMoreListed(before, r);
        }
      } else {
        Unreadable(Parts(before, false), r);
      }
    }
  }

  lemma ListedOrOnce(d: Descriptor)
    requires HeaderKind(d)
    ensures Once(d) || d.COMMENT? || d.TRACE_INFO?
    ensures Once(d) ==> !d.COMMENT? && !d.TRACE_INFO?
  {
  }

  lemma NotComplete(recs: seq<Record>)
    ensures !Parts(recs, false).complete
  {
  }

  lemma FirstEnd(recs: seq<Record>) returns (k: nat)
    requires exists r :: r in recs && r.desc.END_HEADER?
    ensures k < |recs| && recs[k].desc.END_HEADER? && forall r :: r in recs[..k] ==> !r.desc.END_HEADER?
  {
    k := 0;
    while !recs[k].desc.END_HEADER?
      invariant k < |recs| && forall r :: r in recs[..k] ==> !r.desc.END_HEADER?
      invariant exists j :: k <= j < |recs| && recs[j].desc.END_HEADER?
      decreases |recs| - k
    {
      k := k + 1;
    }
  }

  // What is read up to the first end.
  lemma ParsedToEnd(recs: seq<Record>, k: nat)
    requires k < |recs| && recs[k].desc.END_HEADER? && forall r :: r in recs[..k] ==> !r.desc.END_HEADER?
    ensures Parse(NOTHING, recs) == if NoneTwice(recs[..k]) then Some(Parts(recs[..k], true)) else None
  {
    hide Parse, ParseOne, NoneTwice, Filter, Parts;
    ParsedSoFar(recs[..k]);
    assert recs == recs[..k] + ([recs[k]] + recs[k + 1..]);
    ParseConcat(NOTHING, recs[..k], [recs[k]] + recs[k + 1..]);
    if NoneTwice(recs[..k]) {
      var p := Parts(recs[..k], false);
      EndParsed(recs[..k], recs[k]);
      ParseConcat(p, [recs[k]], recs[k + 1..]);
      ParseSingle(p, recs[k]);
      ParsedAlready(Parts(recs[..k], true), recs[k + 1..]);
    }
  }

  lemma EndParsed(recs: seq<Record>, end: Record)
    requires end.desc.END_HEADER?
    ensures !Parts(recs, false).complete && Parts(recs, true).complete
    ensures ParseOne(Parts(recs, false), end) == Some(Parts(recs, true))
  {
    hide Filter, Only;
  }

  lemma PartsValidate(recs: seq<Record>)
    ensures Validates(Parts(recs, true)) <==> forall d :: Required(d) ==> Filter(recs, d) != []
  {
    hide Filter;
    assert Required(ISA) && Required(INST_IEM) && Required(FORCE_PC) && Required(TRACE_INFO);
    assert Required(TRACE_INFO_FEATURE);
  }

  lemma OneEnd(trace: seq<Record>, n: nat, k: nat)
    requires HeaderEndsAt(trace, n) && 2 <= k < |trace| && trace[k].desc.END_HEADER?
    requires forall r :: r in trace[2..k] ==> !r.desc.END_HEADER?
    ensures n == k
  {
    hide Filter;
  }

  /** The reader takes exactly what is a header, and returns its records by kind; what follows does not matter. */
  lemma ReadHeaderExactly(trace: seq<Record>)
    ensures ReadHeader(trace).Some? <==> exists n: nat :: HeaderEndsAt(trace, n)
    ensures forall n: nat :: HeaderEndsAt(trace, n) ==> ReadHeader(trace) == Some(Parts(trace[2..n], true))
  {
    hide Parse, NoneTwice, Filter, Validates, Parts;
    if |trace| >= 2 {
      var recs := trace[2..];
      if exists r :: r in recs && r.desc.END_HEADER? {
        var k := FirstEnd(recs);
        assert recs[..k] == trace[2..k + 2];
        ParsedToEnd(recs, k);
        PartsValidate(recs[..k]);
        assert HeaderEndsAt(trace, k + 2) <==>
               trace[0] == IDENTIFIER_RECORD && trace[1].desc.VERSION? && NoneTwice(recs[..k])
               && Validates(Parts(recs[..k], true));
        forall n: nat | HeaderEndsAt(trace, n)
          ensures n == k + 2
        {
          OneEnd(trace, n, k + 2);
        }
      } else {
        ParsedSoFar(recs);
        NeverEnds(recs);
        forall n: nat
          ensures !HeaderEndsAt(trace, n)
        {
          assert 2 <= n < |trace| ==> trace[n] == recs[n - 2] && trace[n] in recs;
        }
      }
    }
  }

  lemma NeverEnds(recs: seq<Record>)
    ensures !Validates(Parts(recs, false))
  {
  }

  // ---------------------------------------------------------------- what a flush writes

  // The records of one kind that a header calls for.
  function Due(h: Header, d: Descriptor): (r: seq<Record>)
    ensures AllHave(r, d)
  {
    if d.COMMENT? then CommentRecords(h.comments)
    else if d.TRACE_INFO? then InfoRecords(h.infos)
    else if d.TRACE_INFO_FEATURE? then [FeatureRecord(h)]
    else if SingleValue(h, d).Some? then [Record(d, SingleValue(h, d).value)]
    else []
  }

  predicate Noted(h: Header, d: Descriptor) {
    if d.COMMENT? then h.commentsWritten else if d.TRACE_INFO? then h.infosWritten
    else HeaderRuns.Written(h, false, d)
  }

  // Those that are not marked as written yet.
  function Left(h: Header, d: Descriptor): (r: seq<Record>)
    ensures AllHave(r, d)
  {
    if Noted(h, d) then [] else Due(h, d)
  }

  function LeftFirst(h: Header): seq<Record> {
    Left(h, COMMENT) + Left(h, ISA) + Left(h, INST_IEM) + Left(h, TRACE_INFO) + Left(h, TRACE_INFO_FEATURE)
  }

  function LeftRest(h: Header): seq<Record> {
    Left(h, PROCESS_ID_EXT) + Left(h, FORCE_PC) + Left(h, VLEN_CONFIG) + Left(h, ISA_EXTENDED)
  }

  function AfterFirst(h: Header): Header {
    h.(commentsWritten := h.commentsWritten || h.comments != [], isa := Marked(h.isa), iem := Marked(h.iem),
       infosWritten := h.infosWritten || h.infos != [], featuresWritten := true,
       features := if h.featuresWritten || h.features.Some? then h.features else Some({}))
  }

  function AfterRest(h: Header): Header {
    h.(processId := Marked(h.processId), pc := Marked(h.pc), vlen := Marked(h.vlen),
       isaExtended := Marked(h.isaExtended))
  }

  lemma CommentsAdded(w: Writer)
    requires FlushComments(w).Some?
    ensures var h, v := w.header, FlushComments(w).value;
            && v.emitted == w.emitted + Left(h, COMMENT)
            && v.header == h.(commentsWritten := h.commentsWritten || h.comments != [])
  {
    hide EmitAll;
    EmitAllAdds(w, CommentRecords(w.header.comments));
    assert w.emitted + [] == w.emitted;
  }

  lemma IsaAndIemAdded(w: Writer)
    requires FlushIsa(w).Some? && FlushIem(FlushIsa(w).value).Some?
    ensures var h, v := w.header, FlushIem(FlushIsa(w).value).value;
            && v.emitted == w.emitted + Left(h, ISA) + Left(h, INST_IEM)
            && v.header == h.(isa := Marked(h.isa), iem := Marked(h.iem))
  {
    hide Accepts, Next, CommentRecords, InfoRecords, FeatureRecord;
    assert w.emitted + [] == w.emitted;
    var a := FlushIsa(w).value;
    assert a.emitted + [] == a.emitted;
  }

  lemma InfosAndFeaturesAdded(w: Writer)
    requires FlushInfos(w).Some? && FlushFeatures(FlushInfos(w).value).Some?
    ensures var h, v := w.header, FlushFeatures(FlushInfos(w).value).value;
            && v.emitted == w.emitted + Left(h, TRACE_INFO) + Left(h, TRACE_INFO_FEATURE)
            && v.header == h.(infosWritten := h.infosWritten || h.infos != [], featuresWritten := true,
                              features := if h.featuresWritten || h.features.Some? then h.features else Some({}))
  {
    hide EmitAll, Accepts;
    EmitAllAdds(w, InfoRecords(w.header.infos));
    assert w.emitted + [] == w.emitted;
    var a := FlushInfos(w).value;
    assert a.emitted + [] == a.emitted;
  }

  lemma FirstAdded(w: Writer)
    requires FlushFirst(w).Some?
    ensures FlushFirst(w).value.emitted == w.emitted + LeftFirst(w.header)
    ensures FlushFirst(w).value.header == AfterFirst(w.header)
  {
    hide FlushComments, FlushIsa, FlushIem, FlushInfos, FlushFeatures, Left, Marked;
    var h := w.header;
    CommentsAdded(w);
    var a := FlushComments(w).value;
    IsaAndIemAdded(a);
    var b := FlushIem(FlushIsa(a).value).value;
    InfosAndFeaturesAdded(b);
    FixedLeft(a.header, h);
    ListsLeft(b.header, h);
    assert w.emitted + LeftFirst(h) == w.emitted + Left(h, COMMENT) + Left(h, ISA) + Left(h, INST_IEM)
                                       + Left(h, TRACE_INFO) + Left(h, TRACE_INFO_FEATURE);
  }

  // What one part of a flush leaves for the others.
  lemma FixedLeft(g: Header, h: Header)
    requires g == h.(commentsWritten := g.commentsWritten)
    ensures Left(g, ISA) == Left(h, ISA) && Left(g, INST_IEM) == Left(h, INST_IEM)
  {
    hide CommentRecords, InfoRecords, FeatureRecord;
  }

  lemma ListsLeft(g: Header, h: Header)
    requires g == h.(commentsWritten := g.commentsWritten, isa := g.isa, iem := g.iem)
    ensures Left(g, TRACE_INFO) == Left(h, TRACE_INFO) && Left(g, TRACE_INFO_FEATURE) == Left(h, TRACE_INFO_FEATURE)
  {
  }

  lemma OptionalLeft(g: Header, h: Header, d: Descriptor)
    requires d.PROCESS_ID_EXT? || d.FORCE_PC? || d.VLEN_CONFIG? || d.ISA_EXTENDED?
    requires HeaderRuns.Written(g, false, d) == HeaderRuns.Written(h, false, d)
    requires SingleValue(g, d) == SingleValue(h, d)
    ensures Left(g, d) == Left(h, d)
  {
    hide CommentRecords, InfoRecords, FeatureRecord;
  }

  lemma IdAndPcAdded(w: Writer)
    requires FlushProcessId(w).Some? && FlushPc(FlushProcessId(w).value).Some?
    ensures var h, v := w.header, FlushPc(FlushProcessId(w).value).value;
            && v.emitted == w.emitted + Left(h, PROCESS_ID_EXT) + Left(h, FORCE_PC)
            && v.header == h.(processId := Marked(h.processId), pc := Marked(h.pc))
  {
    hide Accepts, Next, CommentRecords, InfoRecords, FeatureRecord;
    assert w.emitted + [] == w.emitted;
    var a := FlushProcessId(w).value;
    assert a.emitted + [] == a.emitted;
  }

  lemma VlenAdded(w: Writer)
    requires FlushVlen(w).Some?
    ensures var h, v := w.header, FlushVlen(w).value;
            v.emitted == w.emitted + Left(h, VLEN_CONFIG) && v.header == h.(vlen := Marked(h.vlen))
  {
    hide Accepts, Next, CommentRecords, InfoRecords, FeatureRecord;
    assert w.emitted + [] == w.emitted;
  }

  lemma IsaExtendedAdded(w: Writer)
    requires FlushIsaExtended(w).Some?
    ensures var h, v := w.header, FlushIsaExtended(w).value;
            v.emitted == w.emitted + Left(h, ISA_EXTENDED) && v.header == h.(isaExtended := Marked(h.isaExtended))
  {
    hide Accepts, Next, CommentRecords, InfoRecords, FeatureRecord;
    assert w.emitted + [] == w.emitted;
  }

  lemma RestAdded(w: Writer)
    requires FlushRest(w).Some?
    ensures FlushRest(w).value.emitted == w.emitted + LeftRest(w.header)
    ensures FlushRest(w).value.header == AfterRest(w.header)
  {
    hide FlushProcessId, FlushPc, FlushVlen, FlushIsaExtended, Left, Marked;
    var h := w.header;
    IdAndPcAdded(w);
    var b := FlushPc(FlushProcessId(w).value).value;
    VlenAdded(b);
    var c := FlushVlen(b).value;
    IsaExtendedAdded(c);
    OptionalLeft(b.header, h, VLEN_CONFIG);
    OptionalLeft(c.header, h, ISA_EXTENDED);
    assert w.emitted + LeftRest(h) == w.emitted + Left(h, PROCESS_ID_EXT) + Left(h, FORCE_PC) + Left(h, VLEN_CONFIG)
                                      + Left(h, ISA_EXTENDED);
  }

  lemma OneOfFive(a: seq<Record>, b: seq<Record>, c: seq<Record>, e: seq<Record>, f: seq<Record>)
    ensures b == c == e == f == [] ==> a + b + c + e + f == a
    ensures a == c == e == f == [] ==> a + b + c + e + f == b
    ensures a == b == e == f == [] ==> a + b + c + e + f == c
    ensures a == b == c == f == [] ==> a + b + c + e + f == e
    ensures a == b == c == e == [] ==> a + b + c + e + f == f
  {
  }

  lemma FilterOfFive(a: seq<Record>, b: seq<Record>, c: seq<Record>, e: seq<Record>, f: seq<Record>, d: Descriptor)
    ensures Filter(a + b + c + e + f, d)
         == Filter(a, d) + Filter(b, d) + Filter(c, d) + Filter(e, d) + Filter(f, d)
  {
    hide Filter;
    FilterConcat(a, b, d);
    FilterConcat(a + b, c, d);
    FilterConcat(a + b + c, e, d);
    FilterConcat(a + b + c + e, f, d);
  }

  predicate InFirst(d: Descriptor) {
    d.COMMENT? || d.ISA? || d.INST_IEM? || d.TRACE_INFO? || d.TRACE_INFO_FEATURE?
  }

  lemma FilterOfKind(h: Header, e: Descriptor, d: Descriptor)
    ensures Filter(Left(h, e), d) == if d == e then Left(h, d) else []
  {
    hide Filter, Left;
    FilterOfOne(Left(h, e), d, e);
  }

  lemma FilterOfFirst(h: Header, d: Descriptor)
    ensures Filter(LeftFirst(h), d) == if InFirst(d) then Left(h, d) else []
  {
    hide Filter, Left;
    FilterOfFive(Left(h, COMMENT), Left(h, ISA), Left(h, INST_IEM), Left(h, TRACE_INFO),
                 Left(h, TRACE_INFO_FEATURE), d);
    FilterOfKind(h, COMMENT, d);
    FilterOfKind(h, ISA, d);
    FilterOfKind(h, INST_IEM, d);
    FilterOfKind(h, TRACE_INFO, d);
    FilterOfKind(h, TRACE_INFO_FEATURE, d);
    OneOfFive(Filter(Left(h, COMMENT), d), Filter(Left(h, ISA), d), Filter(Left(h, INST_IEM), d),
              Filter(Left(h, TRACE_INFO), d), Filter(Left(h, TRACE_INFO_FEATURE), d));
  }

  lemma FilterOfRest(h: Header, d: Descriptor)
    requires HeaderKind(d)
    ensures Filter(LeftRest(h), d) == if InFirst(d) then [] else Left(h, d)
  {
    hide Filter, Left;
    FilterOfFive([], Left(h, PROCESS_ID_EXT), Left(h, FORCE_PC), Left(h, VLEN_CONFIG), Left(h, ISA_EXTENDED), d);
    assert [] + Left(h, PROCESS_ID_EXT) == Left(h, PROCESS_ID_EXT);
    NothingFiltered(d);
    FilterOfKind(h, PROCESS_ID_EXT, d);
    FilterOfKind(h, FORCE_PC, d);
    FilterOfKind(h, VLEN_CONFIG, d);
    FilterOfKind(h, ISA_EXTENDED, d);
    OneOfFive([], Filter(Left(h, PROCESS_ID_EXT), d), Filter(Left(h, FORCE_PC), d), Filter(Left(h, VLEN_CONFIG), d),
              Filter(Left(h, ISA_EXTENDED), d));
  }

  lemma FilterOfLeft(h: Header, d: Descriptor)
    requires HeaderKind(d)
    ensures Filter(LeftFirst(h) + LeftRest(h), d) == Left(h, d)
  {
    hide Filter, Left, LeftFirst, LeftRest;
    FilterConcat(LeftFirst(h), LeftRest(h), d);
    FilterOfFirst(h, d);
    FilterOfRest(h, d);
    assert [] + Left(h, d) == Left(h, d) == Left(h, d) + [];
  }

  /** A flush writes, of every kind, what was due and not written, and leaves all values as they are. */
  lemma FlushAdds(w: Writer, d: Descriptor)
    requires FlushHeader(w).Some? && HeaderKind(d)
    ensures var v := FlushHeader(w).value;
            && Filter(v.emitted, d) == Filter(w.emitted, d) + Left(w.header, d)
            && v.header == AfterRest(AfterFirst(w.header))
  {
    hide FlushFirst, FlushRest, Filter, Left, AfterRest, AfterFirst, LeftFirst, LeftRest;
    FirstAdded(w);
    RestAdded(FlushFirst(w).value);
    RestIsLeft(w.header);
    FilterOfLeft(w.header, d);
    var a, b := LeftFirst(w.header), LeftRest(w.header);
    FilterConcat(w.emitted, a + b, d);
    assert w.emitted + a + b == w.emitted + (a + b);
  }

  lemma RestIsLeft(h: Header)
    ensures LeftRest(AfterFirst(h)) == LeftRest(h)
  {
    hide CommentRecords, InfoRecords, FeatureRecord, Marked, Left;
    forall d: Descriptor | d.PROCESS_ID_EXT? || d.FORCE_PC? || d.VLEN_CONFIG? || d.ISA_EXTENDED?
      ensures Left(AfterFirst(h), d) == Left(h, d)
    {
      OptionalLeft(AfterFirst(h), h, d);
    }
  }

  lemma AfterFlushAlike(h: Header)
    ensures var g := AfterRest(AfterFirst(h));
            && Alike(g, h) && g.force32BitEvents == h.force32BitEvents && g.featuresWritten
  {
  }

  lemma NotedFixed(h: Header, d: Descriptor)
    requires d.ISA? || d.INST_IEM?
    ensures Noted(AfterRest(AfterFirst(h)), d) <==> Noted(h, d) || Due(h, d) != []
  {
    hide CommentRecords, InfoRecords, FeatureRecord;
  }

  lemma NotedOptional(h: Header, d: Descriptor)
    requires d.PROCESS_ID_EXT? || d.FORCE_PC?
    ensures Noted(AfterRest(AfterFirst(h)), d) <==> Noted(h, d) || Due(h, d) != []
  {
    hide CommentRecords, InfoRecords, FeatureRecord;
  }

  lemma NotedConfig(h: Header, d: Descriptor)
    requires d.VLEN_CONFIG? || d.ISA_EXTENDED?
    ensures Noted(AfterRest(AfterFirst(h)), d) <==> Noted(h, d) || Due(h, d) != []
  {
    hide CommentRecords, InfoRecords, FeatureRecord;
  }

  lemma NotedList(h: Header, d: Descriptor)
    requires d.COMMENT? || d.TRACE_INFO? || d.TRACE_INFO_FEATURE?
    ensures Noted(AfterRest(AfterFirst(h)), d) <==> Noted(h, d) || Due(h, d) != []
  {
    hide FeatureRecord;
  }

  // ---------------------------------------------------------------- what a run writes

  function SettersOf(calls: seq<Call>): seq<Setter> {
    if calls == [] then []
    else
      var before, last := SettersOf(calls[..|calls| - 1]), calls[|calls| - 1];
      if last.SETTER? then before + [last.op] else before
  }

  // What the setters of a run have given, and what a call makes of it.
  function HeaderAt(calls: seq<Call>): Header { SetAll(EMPTY, SettersOf(calls)) }

  function Ready(h: Header, call: Call): Header { if call.FINALIZE? then WithEvent64(h) else h }

  // Everything but the process ID and the extended ISA string was written by the flushes of a run.
  predicate NothingElse(calls: seq<Call>)
    decreases |calls|, 1
  {
    && FlushedBy(calls, COMMENT) != [] && FlushedBy(calls, ISA) != [] && FlushedBy(calls, INST_IEM) != []
    && FlushedBy(calls, TRACE_INFO) != [] && FlushedBy(calls, TRACE_INFO_FEATURE) != []
    && FlushedBy(calls, FORCE_PC) != [] && (FlushedBy(calls, VLEN_CONFIG) != [] || HeaderAt(calls).vlen.value.None?)
  }

  /**
   * The records of one kind that a run's header should hold: what had been given at the first flush
   * or finalization that had any to write.  A finalization with nothing else to write forgets the
   * process ID and the extended ISA string, and nothing follows it.
   */
  function FlushedBy(calls: seq<Call>, d: Descriptor): seq<Record>
    decreases |calls|, 0
  {
    if calls == [] then []
    else
      var before, last := calls[..|calls| - 1], calls[|calls| - 1];
      if FlushedBy(before, d) != [] || last.SETTER? || FINALIZE in before then FlushedBy(before, d)
      else if last.FINALIZE? && (d.PROCESS_ID_EXT? || d.ISA_EXTENDED?) && NothingElse(before) then []
      else Due(Ready(HeaderAt(before), last), d)
  }

  // The writer's header and trace are what the run calls for.
  predicate Agrees(calls: seq<Call>, w: Writer, d: Descriptor) {
    && Filter(w.emitted, d) == FlushedBy(calls, d)
    && (Noted(w.header, d) <==> FlushedBy(calls, d) != [])
  }

  predicate SameGiven(g: Header, h: Header) {
    && Alike(g, h) && g.force32BitEvents == h.force32BitEvents
    && (!g.featuresWritten ==> FeatureRecord(g) == FeatureRecord(h))
  }

  ghost predicate Matches(calls: seq<Call>, w: Writer) {
    && Kept(w) && OPENED.emitted <= w.emitted
    && (FINALIZE in calls <==> w.order.headerFinalized)
    && SameGiven(w.header, HeaderAt(calls))
    && forall d :: HeaderKind(d) ==> Agrees(calls, w, d)
  }

  lemma OneMoreCall(calls: seq<Call>, call: Call)
    ensures SettersOf(calls + [call]) == if call.SETTER? then SettersOf(calls) + [call.op] else SettersOf(calls)
    ensures HeaderAt(calls + [call]) == if call.SETTER? then Set(HeaderAt(calls), call.op) else HeaderAt(calls)
    ensures FINALIZE in calls + [call] <==> FINALIZE in calls || call.FINALIZE?
    ensures RunCalls(OPENED, calls + [call])
         == match RunCalls(OPENED, calls) { case None => None case Some(v) => DoCall(v, call) }
  {
    hide Set, DoCall;
    assert (calls + [call])[..|calls + [call]| - 1] == calls;
    if call.SETTER? {
      OneMoreSetter(EMPTY, SettersOf(calls), call.op);
    }
  }

  lemma OneMoreFlushed(calls: seq<Call>, call: Call, d: Descriptor)
    ensures FlushedBy(calls + [call], d)
         == if FlushedBy(calls, d) != [] || call.SETTER? || FINALIZE in calls then FlushedBy(calls, d)
            else if call.FINALIZE? && (d.PROCESS_ID_EXT? || d.ISA_EXTENDED?) && NothingElse(calls) then []
            else Due(Ready(HeaderAt(calls), call), d)
  {
    hide Due, NothingElse, HeaderAt;
    assert (calls + [call])[..|calls + [call]| - 1] == calls;
  }

  lemma SetterSame(g: Header, h: Header, op: Setter)
    requires SameGiven(g, h)
    ensures SameGiven(Set(g, op), Set(h, op))
  {
    OneSetterAlike(g, h, op);
    hide Alike, SameMarks;
    SetterFeatures(g, h, op);
    assert Set(g, op).featuresWritten == g.featuresWritten;
  }

  lemma SetterFeatures(g: Header, h: Header, op: Setter)
    requires g.force32BitEvents == h.force32BitEvents
    ensures Set(g, op).force32BitEvents == Set(h, op).force32BitEvents
    ensures FeatureRecord(g) == FeatureRecord(h) ==> FeatureRecord(Set(g, op)) == FeatureRecord(Set(h, op))
  {
    SetterBits(g, op);
    SetterBits(h, op);
    SetterForces(g, op);
    SetterForces(h, op);
    hide FeatureRecord, Set;
  }

  lemma SetterForces(h: Header, op: Setter)
    ensures Set(h, op).force32BitEvents <==> h.force32BitEvents || op == DISABLE_FEATURE(EVENT64)
  {
  }

  lemma SetterBits(h: Header, op: Setter)
    ensures FeatureRecord(h).body.Features?
    ensures FeatureRecord(Set(h, op)).body
         == Features(match op
                     case SET_FEATURE(f) => FeatureRecord(h).body.bits + {f}
                     case DISABLE_FEATURE(f) => FeatureRecord(h).body.bits - {f}
                     case _ => FeatureRecord(h).body.bits)
    ensures FeatureRecord(Set(h, op)).desc == TRACE_INFO_FEATURE
  {
    if op.DISABLE_FEATURE? {
      assert {} - {op.f} == {};
    }
  }

  lemma NotedSame(g: Header, h: Header, d: Descriptor)
    requires SameMarks(g, h) && HeaderKind(d)
    ensures Noted(g, d) <==> Noted(h, d)
  {
  }

  lemma DueSame(g: Header, h: Header, d: Descriptor)
    requires Alike(g, h) && HeaderKind(d) && (d.TRACE_INFO_FEATURE? ==> FeatureRecord(g) == FeatureRecord(h))
    ensures Due(g, d) == Due(h, d)
  {
    hide FeatureRecord;
  }

  lemma SetterMatches(calls: seq<Call>, w: Writer, op: Setter)
    requires Matches(calls, w)
    ensures Matches(calls + [SETTER(op)], w.(header := Set(w.header, op)))
  {
    hide Kept, Set, Agrees, SameGiven, HeaderKind;
    var more, v := calls + [SETTER(op)], w.(header := Set(w.header, op));
    OneMoreCall(calls, SETTER(op));
    SetterKeeps(w, op);
    SetterSame(w.header, HeaderAt(calls), op);
    forall d | HeaderKind(d)
      ensures Agrees(more, v, d)
    {
      SetterAgrees(calls, w, op, d);
    }
  }

  lemma SetterAgrees(calls: seq<Call>, w: Writer, op: Setter, d: Descriptor)
    requires HeaderKind(d) && Agrees(calls, w, d)
    ensures Agrees(calls + [SETTER(op)], w.(header := Set(w.header, op)), d)
  {
    hide Set, Filter, FlushedBy, Noted, HeaderKind;
    OneMoreFlushed(calls, SETTER(op), d);
    OneSetterAlike(w.header, w.header, op);
    NotedSame(Set(w.header, op), w.header, d);
  }

  // The calls that write: what they find, of a kind that is not written yet, is what was given.
  lemma Event64Same(g: Header, h: Header)
    requires SameGiven(g, h)
    ensures SameGiven(WithEvent64(g), WithEvent64(h)) && SameMarks(WithEvent64(g), g)
  {
    hide Alike;
    AlikeFields(g, h);
    SetterSame(g, h, SET_FEATURE(EVENT64));
    OneSetterAlike(g, g, SET_FEATURE(EVENT64)) by { AlikeItself(g); }
  }

  lemma AlikeFields(g: Header, h: Header)
    requires Alike(g, h)
    ensures g.isa.value == h.isa.value && g.iem.value == h.iem.value && g.vlen.value == h.vlen.value
  {
  }

  lemma AlikeItself(g: Header)
    ensures Alike(g, g)
  {
  }

  // A flush of a header that holds what the run has given.
  lemma FlushAgrees(calls: seq<Call>, call: Call, w: Writer, ready: Header, d: Descriptor)
    requires HeaderKind(d) && Agrees(calls, w, d) && FINALIZE !in calls && !call.SETTER?
    requires SameGiven(ready, Ready(HeaderAt(calls), call)) && SameMarks(ready, w.header)
    requires call.FINALIZE? ==> !NothingElse(calls)
    requires FlushHeader(w.(header := ready)).Some?
    ensures Agrees(calls + [call], FlushHeader(w.(header := ready)).value, d)
  {
    hide FlushHeader, Filter, FlushedBy, AfterRest, AfterFirst, HeaderKind, SameMarks, Alike, Due, Noted, HeaderAt;
    OneMoreFlushed(calls, call, d);
    FlushAdds(w.(header := ready), d);
    NotedSame(ready, w.header, d);
    NotedAfter(ready, d);
    if Noted(w.header, d) {
      assert Filter(w.emitted, d) + [] == Filter(w.emitted, d);
    } else {
      if d.TRACE_INFO_FEATURE? {
        NotedFeatures(ready, d);
      }
      DueSame(ready, Ready(HeaderAt(calls), call), d);
      assert [] + Due(ready, d) == Due(ready, d);
    }
  }

  lemma NotedFeatures(h: Header, d: Descriptor)
    requires !Noted(h, d) && d.TRACE_INFO_FEATURE?
    ensures !h.featuresWritten
  {
  }

  lemma NotedAfter(h: Header, d: Descriptor)
    requires HeaderKind(d)
    ensures Noted(AfterRest(AfterFirst(h)), d) <==> Noted(h, d) || Due(h, d) != []
  {
    hide AfterRest, AfterFirst, Noted, Due;
    if d.ISA? || d.INST_IEM? {
      NotedFixed(h, d);
    } else if d.PROCESS_ID_EXT? || d.FORCE_PC? {
      NotedOptional(h, d);
    } else if IsSingle(d) {
      NotedConfig(h, d);
    } else {
      NotedList(h, d);
    }
  }

  lemma FlushMatches(calls: seq<Call>, w: Writer)
    requires Matches(calls, w) && FlushHeader(w).Some?
    ensures Matches(calls + [FLUSH], FlushHeader(w).value)
  {
    hide Kept, FlushHeader, Agrees, SameGiven, HeaderKind, AfterFirst, AfterRest, SameMarks, HeaderAt;
    var v := FlushHeader(w).value;
    assert w.(header := w.header) == w;
    NotFinal(w);
    FlushKeeps(w);
    OneMoreCall(calls, FLUSH);
    FlushSame(w, HeaderAt(calls));
    MarksItself(w.header);
    forall d | HeaderKind(d)
      ensures Agrees(calls + [FLUSH], v, d)
    {
      FlushAgrees(calls, FLUSH, w, w.header, d);
    }
  }

  lemma NotFinal(w: Writer)
    ensures FlushHeader(w).Some? ==> !w.order.headerFinalized && w.emitted <= FlushHeader(w).value.emitted
  {
    hide FlushFirst, FlushRest;
  }

  lemma MarksItself(h: Header)
    ensures SameMarks(h, h)
  {
  }

  lemma FlushSame(w: Writer, h: Header)
    requires FlushHeader(w).Some? && SameGiven(w.header, h)
    ensures SameGiven(FlushHeader(w).value.header, h)
  {
    hide FlushHeader, AfterRest, AfterFirst, Alike;
    FlushAdds(w, ISA);
    AfterFlushAlike(w.header);
    AlikeTwice(AfterRest(AfterFirst(w.header)), w.header, h);
  }

  lemma AlikeTwice(f: Header, g: Header, h: Header)
    requires Alike(f, g) && Alike(g, h)
    ensures Alike(f, h)
  {
  }

  lemma CompleteShown(h: Header)
    ensures LooksComplete(h) <==>
            && Noted(h, COMMENT) && Noted(h, ISA) && Noted(h, INST_IEM) && Noted(h, TRACE_INFO)
            && Noted(h, TRACE_INFO_FEATURE) && Noted(h, FORCE_PC) && (Noted(h, VLEN_CONFIG) || h.vlen.value.None?)
  {
  }

  lemma NotedIsFlushed(calls: seq<Call>, w: Writer, d: Descriptor)
    requires Matches(calls, w) && HeaderKind(d)
    ensures Noted(WithEvent64(w.header), d) <==> FlushedBy(calls, d) != []
  {
    hide Kept, WithEvent64, HeaderAt, Filter, FlushedBy, SameGiven, HeaderKind, SameMarks, Noted;
    Event64Marks(w.header);
    NotedSame(WithEvent64(w.header), w.header, d);
    assert Agrees(calls, w, d);
  }

  // What a finalization finds left.
  lemma LeftOver(calls: seq<Call>, w: Writer)
    requires Matches(calls, w)
    ensures NothingElse(calls) <==> LooksComplete(WithEvent64(w.header))
  {
    hide Kept, WithEvent64, HeaderAt, Filter, FlushedBy, Noted, LooksComplete, Agrees, Alike;
    CompleteShown(WithEvent64(w.header));
    Event64KeepsRest(w.header);
    AlikeFields(w.header, HeaderAt(calls));
    NotedIsFlushed(calls, w, COMMENT);
    NotedIsFlushed(calls, w, ISA);
    NotedIsFlushed(calls, w, INST_IEM);
    NotedIsFlushed(calls, w, TRACE_INFO);
    NotedIsFlushed(calls, w, TRACE_INFO_FEATURE);
    NotedIsFlushed(calls, w, FORCE_PC);
    NotedIsFlushed(calls, w, VLEN_CONFIG);
  }

  lemma Event64Marks(h: Header)
    ensures SameMarks(WithEvent64(h), h)
  {
  }

  // A finalization that finds nothing to write but the two that it forgets.
  lemma CompleteAgrees(calls: seq<Call>, w: Writer, d: Descriptor)
    requires Matches(calls, w) && HeaderKind(d) && FINALIZE !in calls && NothingElse(calls)
    ensures Filter(w.emitted, d) == FlushedBy(calls + [FINALIZE], d)
    ensures Noted(w.header, d) <==> FlushedBy(calls + [FINALIZE], d) != []
  {
    hide Kept, HeaderAt, Filter, Noted, WithEvent64;
    OneMoreFlushed(calls, FINALIZE, d);
    assert Agrees(calls, w, d);
    hide FlushedBy;
    Event64KeepsRest(HeaderAt(calls));
  }

  lemma EndEmitted(w: Writer, d: Descriptor)
    requires Emit(w, Record(END_HEADER, Number(0))).Some? && HeaderKind(d)
    ensures var v := Emit(w, Record(END_HEADER, Number(0))).value;
            v.header == w.header && Filter(v.emitted, d) == Filter(w.emitted, d)
  {
    hide Accepts, Next, Filter;
    FilterSnoc(w.emitted, Record(END_HEADER, Number(0)), d);
  }

  lemma FinalizeAgrees(calls: seq<Call>, w: Writer, d: Descriptor)
    requires Matches(calls, w) && HeaderKind(d) && !w.order.headerFinalized && FinalizeHeader(w).Some?
    ensures Agrees(calls + [FINALIZE], FinalizeHeader(w).value, d)
  {
    hide Kept, FlushHeader, Emit, SameGiven, HeaderKind, Filter, FlushedBy, NothingElse, HeaderAt, LooksComplete,
         WithEvent64, Agrees, SameMarks;
    LeftOver(calls, w);
    var ready := WithEvent64(w.header);
    Event64Same(w.header, HeaderAt(calls));
    if LooksComplete(ready) {
      EndEmitted(w.(header := ready), d);
      CompleteAgrees(calls, w, d);
      NotedSame(ready, w.header, d);
      AgreesShown(calls + [FINALIZE], w, FinalizeHeader(w).value, d);
    } else {
      FlushAgrees(calls, FINALIZE, w, ready, d);
      EndEmitted(FlushHeader(w.(header := ready)).value, d);
      AgreesMoved(calls + [FINALIZE], FlushHeader(w.(header := ready)).value, FinalizeHeader(w).value, d);
    }
  }

  lemma AgreesShown(calls: seq<Call>, w: Writer, v: Writer, d: Descriptor)
    requires Filter(w.emitted, d) == FlushedBy(calls, d) && (Noted(w.header, d) <==> FlushedBy(calls, d) != [])
    requires Filter(v.emitted, d) == Filter(w.emitted, d) && (Noted(v.header, d) <==> Noted(w.header, d))
    ensures Agrees(calls, v, d)
  {
  }

  lemma AgreesMoved(calls: seq<Call>, w: Writer, v: Writer, d: Descriptor)
    requires Agrees(calls, w, d) && Filter(v.emitted, d) == Filter(w.emitted, d) && v.header == w.header
    ensures Agrees(calls, v, d)
  {
  }

  // A finalization leaves what was given.
  lemma FinalizeSame(w: Writer, h: Header)
    requires !w.order.headerFinalized && FinalizeHeader(w).Some? && Kept(w) && SameGiven(w.header, h)
    ensures var v := FinalizeHeader(w).value;
            SameGiven(v.header, h) && v.order.headerFinalized && w.emitted <= v.emitted
  {
    hide Kept, FlushHeader, Emit, LooksComplete, WithEvent64, Alike, FeatureRecord;
    var ready := w.(header := WithEvent64(w.header));
    AlikeFields(w.header, h);
    Event64Alike(w.header);
    AlikeTwice(ready.header, w.header, h);
    EmitKeepsHeader(if LooksComplete(ready.header) then ready else FlushHeader(ready).value);
    if LooksComplete(ready.header) {
      CompleteHasFeatures(ready.header);
    } else {
      FlushAdds(ready, ISA);
      AfterFlushAlike(ready.header);
      AlikeTwice(FlushHeader(ready).value.header, ready.header, h);
    }
  }

  lemma CompleteHasFeatures(h: Header)
    requires LooksComplete(h)
    ensures h.featuresWritten
  {
  }

  lemma Event64Alike(h: Header)
    ensures Alike(WithEvent64(h), h) && WithEvent64(h).force32BitEvents == h.force32BitEvents
  {
  }

  lemma FinalizeMatches(calls: seq<Call>, w: Writer)
    requires Matches(calls, w) && FinalizeHeader(w).Some?
    ensures Matches(calls + [FINALIZE], FinalizeHeader(w).value)
  {
    hide Kept, Agrees, SameGiven, HeaderKind, FinalizeHeader, HeaderAt;
    OneMoreCall(calls, FINALIZE);
    FinalizeKeeps(w);
    if w.order.headerFinalized {
      FinalizedAlready(w);
      forall d | HeaderKind(d)
        ensures Agrees(calls + [FINALIZE], w, d)
      {
        StillAgrees(calls, w, d);
      }
    } else {
      FinalizeSame(w, HeaderAt(calls));
      forall d | HeaderKind(d)
        ensures Agrees(calls + [FINALIZE], FinalizeHeader(w).value, d)
      {
        FinalizeAgrees(calls, w, d);
      }
    }
  }

  lemma FinalizedAlready(w: Writer)
    requires w.order.headerFinalized
    ensures FinalizeHeader(w) == Some(w)
  {
  }

  lemma StillAgrees(calls: seq<Call>, w: Writer, d: Descriptor)
    requires FINALIZE in calls && Agrees(calls, w, d)
    ensures Agrees(calls + [FINALIZE], w, d)
  {
    hide FlushedBy, Filter, Noted, Due, NothingElse;
    OneMoreFlushed(calls, FINALIZE, d);
  }

  lemma NothingRunYet()
    ensures Matches([], OPENED)
  {
    hide Filter, Kept;
    OpenedIsKept();
    forall d | HeaderKind(d)
      ensures Agrees([], OPENED, d)
    {
      FilterOfOpened(d);
    }
  }

  /**
   * Every run of setters, flushes and finalization that does not throw has written, of each kind,
   * what had been given at the first flush that had any to write.
   */
  lemma {:induction false} RunWrites(calls: seq<Call>)
    requires RunCalls(OPENED, calls).Some?
    ensures Matches(calls, RunCalls(OPENED, calls).value)
  {
    if calls == [] {
      NothingRunYet();
    } else {
      hide Matches, FlushHeader, FinalizeHeader, Set;
      var before, call := calls[..|calls| - 1], calls[|calls| - 1];
      assert calls == before + [call];
      RunWrites(before);
      var w := RunCalls(OPENED, before).value;
      match call
      case SETTER(op) => SetterMatches(before, w, op);
      case FLUSH => FlushMatches(before, w);
      case FINALIZE => FinalizeMatches(before, w);
    }
  }

  // ---------------------------------------------------------------- reading back what a run wrote

  lemma {:induction false} TwoOfAKind(recs: seq<Record>, i: nat, j: nat)
    requires i < j < |recs| && recs[i].desc == recs[j].desc
    ensures |Filter(recs, recs[j].desc)| >= 2
  {
    hide Filter;
    var d := recs[j].desc;
    assert recs[..j] + [recs[j]] + recs[j + 1..] == recs;
    FilterHasOne(recs[..j], d);
    assert recs[i] in recs[..j];
    assert recs[i] in Filter(recs[..j], d);
    FilterSnoc(recs[..j], recs[j], d);
    FilterConcat(recs[..j] + [recs[j]], recs[j + 1..], d);
  }

  lemma RankOfEnd(d: Descriptor)
    ensures Rank(d) == 8 <==> d.END_HEADER?
    ensures Rank(d) < 8 <==> HeaderKind(d) || d.IDENTIFIER? || d.VERSION?
  {
  }

  // A finalized header: identifier and version, then what a header may hold, then its one end.
  lemma EndIsLast(w: Writer)
    requires Kept(w) && w.order.headerFinalized && OPENED.emitted <= w.emitted
    ensures var e := w.emitted; var n := |e| - 1;
            && n >= 2 && e[0] == IDENTIFIER_RECORD && e[1] == VERSION_RECORD && e[n].desc.END_HEADER?
            && forall i :: 2 <= i < n ==> HeaderKind(e[i].desc)
  {
    hide Filter, Rank, HeaderKind, Staged;
    var e := w.emitted;
    var n := |e| - 1;
    FilterHasOne(e, END_HEADER);
    assert |Filter(e, END_HEADER)| == 1;
    var r := Filter(e, END_HEADER)[0];
    assert r in Filter(e, END_HEADER);
    var k :| 0 <= k < |e| && e[k] == r;
    assert e[0] == OPENED.emitted[0] && e[1] == OPENED.emitted[1];
    RankOfEnd(e[k].desc);
    RankOfEnd(e[n].desc);
    assert Rank(e[n].desc) == 8;
    forall i | 2 <= i < n
      ensures HeaderKind(e[i].desc)
    {
      RankOfEnd(e[i].desc);
      if e[i].desc.END_HEADER? {
        TwoOfAKind(e, i, n);
      } else if e[i].desc.IDENTIFIER? {
        TwoOfAKind(e, 0, i);
      } else if e[i].desc.VERSION? {
        TwoOfAKind(e, 1, i);
      }
    }
  }

  lemma InnerFilter(e: seq<Record>, d: Descriptor)
    requires |e| >= 3 && HeaderKind(d)
    requires !HeaderKind(e[0].desc) && !HeaderKind(e[1].desc) && !HeaderKind(e[|e| - 1].desc)
    ensures Filter(e[2..|e| - 1], d) == Filter(e, d)
  {
    hide Filter, HeaderKind;
    var n := |e| - 1;
    var inner := e[2..n];
    assert e == ([] + [e[0]] + [e[1]]) + (inner + [e[n]]);
    NothingFiltered(d);
    FilterSnoc([], e[0], d);
    FilterSnoc([] + [e[0]], e[1], d);
    FilterSnoc(inner, e[n], d);
    FilterConcat([] + [e[0]] + [e[1]], inner + [e[n]], d);
    assert [] + Filter(inner, d) == Filter(inner, d);
  }

  // What the reader should find in a run's header.
  function Found(calls: seq<Call>): Parsed {
    Parsed(FlushedBy(calls, COMMENT), Only(FlushedBy(calls, ISA)), Only(FlushedBy(calls, INST_IEM)),
           Only(FlushedBy(calls, FORCE_PC)), FlushedBy(calls, TRACE_INFO), Only(FlushedBy(calls, TRACE_INFO_FEATURE)),
           Only(FlushedBy(calls, PROCESS_ID_EXT)), Only(FlushedBy(calls, VLEN_CONFIG)),
           Only(FlushedBy(calls, ISA_EXTENDED)), true)
  }

  lemma PartsFound(calls: seq<Call>, inner: seq<Record>)
    requires forall d :: HeaderKind(d) ==> Filter(inner, d) == FlushedBy(calls, d)
    ensures Parts(inner, true) == Found(calls)
  {
    hide Filter, FlushedBy, Only;
    assert HeaderKind(COMMENT) && HeaderKind(ISA) && HeaderKind(INST_IEM) && HeaderKind(TRACE_INFO);
    assert HeaderKind(TRACE_INFO_FEATURE) && HeaderKind(FORCE_PC) && HeaderKind(VLEN_CONFIG);
    assert HeaderKind(PROCESS_ID_EXT) && HeaderKind(ISA_EXTENDED);
  }

  // Everything required but the PC is in a finalized header.
  lemma FixedPartThere(calls: seq<Call>, w: Writer, d: Descriptor)
    requires Matches(calls, w) && w.order.headerFinalized && Required(d)
    ensures !d.FORCE_PC? ==> Filter(w.emitted, d) != []
    ensures HeaderKind(d)
  {
    hide Filter, FlushedBy, Ranked, Rank, Stage;
    assert HeaderKind(d) && Agrees(calls, w, d);
  }

  lemma SinglyWritten(calls: seq<Call>, w: Writer, d: Descriptor)
    requires Matches(calls, w) && Once(d)
    ensures |Filter(w.emitted, d)| <= 1 && HeaderKind(d)
  {
    hide Filter, FlushedBy, Ranked, Rank, Stage, Staged, HeaderRuns.Written;
    assert !Repeats(d);
  }

  lemma RunEnds(calls: seq<Call>, w: Writer, following: seq<Record>)
    requires Matches(calls, w) && w.order.headerFinalized
    ensures |w.emitted| >= 3
    ensures var trace, n := w.emitted + following, |w.emitted| - 1;
            && (HeaderEndsAt(trace, n) <==> FlushedBy(calls, FORCE_PC) != [])
            && (forall k: nat :: HeaderEndsAt(trace, k) ==> k == n)
            && Parts(trace[2..n], true) == Found(calls)
  {
    hide Filter, FlushedBy, HeaderKind, Kept, Once, Required, Parts, Found, SameGiven;
    var e, trace, n := w.emitted, w.emitted + following, |w.emitted| - 1;
    EndIsLast(w);
    var inner := e[2..n];
    assert trace[2..n] == inner;
    FixedKinds();
    forall d | HeaderKind(d)
      ensures Filter(inner, d) == FlushedBy(calls, d)
    {
      InnerFilter(e, d);
      assert Agrees(calls, w, d);
    }
    PartsFound(calls, inner);
    forall d | Once(d)
      ensures |Filter(inner, d)| <= 1
    {
      SinglyWritten(calls, w, d);
    }
    forall d | Required(d)
      ensures HeaderKind(d) && (!d.FORCE_PC? ==> Filter(inner, d) != [])
    {
      FixedPartThere(calls, w, d);
    }
    assert forall r :: r in inner ==> HeaderKind(r.desc);
    forall k: nat | HeaderEndsAt(trace, k)
      ensures k == n
    {
      NoEndInside(trace, k, n);
    }
  }

  lemma FixedKinds()
    ensures Required(FORCE_PC) && HeaderKind(FORCE_PC)
    ensures !HeaderKind(IDENTIFIER) && !HeaderKind(VERSION) && !HeaderKind(END_HEADER)
  {
  }

  lemma NoEndInside(trace: seq<Record>, k: nat, n: nat)
    requires 2 <= n < |trace| && trace[n].desc.END_HEADER? && HeaderEndsAt(trace, k)
    requires forall r :: r in trace[2..n] ==> HeaderKind(r.desc)
    ensures k == n
  {
    hide Filter;
    OneEnd(trace, k, n);
  }

  /**
   * Whatever setters, flushes and finalizations a run makes, if it does not throw its header reads
   * back exactly, each field as it was when the run wrote it; the reader refuses it exactly when the
   * run has written no PC.
   */
  lemma RunReadsBack(calls: seq<Call>, following: seq<Record>)
    requires RunCalls(OPENED, calls).Some? && FINALIZE in calls
    ensures ReadHeader(RunCalls(OPENED, calls).value.emitted + following)
         == if FlushedBy(calls, FORCE_PC) == [] then None else Some(Found(calls))
  {
    hide RunCalls, ReadHeader, FlushedBy, Found, Parts, HeaderEndsAt, Kept, Agrees;
    RunWrites(calls);
    var w := RunCalls(OPENED, calls).value;
    RunEnds(calls, w, following);
    ReadHeaderExactly(w.emitted + following);
  }

  // ---------------------------------------------------------------- the PC of a run

  // The calls before the header is finalized.
  function BeforeEnd(calls: seq<Call>): seq<Call> {
    if calls == [] then []
    else
      var before := calls[..|calls| - 1];
      if FINALIZE in before then BeforeEnd(before) else if calls[|calls| - 1].FINALIZE? then before else calls
  }

  lemma PcSet(h: Header, op: Setter)
    ensures Set(h, op).pc.value.Some? <==> h.pc.value.Some? || op.SET_PC?
  {
  }

  lemma {:induction false} PcGiven(calls: seq<Call>)
    ensures HeaderAt(calls).pc.value.Some? <==> exists n :: SETTER(SET_PC(n)) in calls
  {
    if calls != [] {
      hide HeaderAt, Set;
      var before, call := calls[..|calls| - 1], calls[|calls| - 1];
      assert calls == before + [call];
      PcGiven(before);
      OneMoreCall(before, call);
      if call.SETTER? {
        PcSet(HeaderAt(before), call.op);
      }
      if n :| SETTER(SET_PC(n)) in before {
        assert SETTER(SET_PC(n)) in calls;
      }
      if n :| SETTER(SET_PC(n)) in calls {
        assert SETTER(SET_PC(n)) in before || call == SETTER(SET_PC(n));
      }
      if call.SETTER? && call.op.SET_PC? {
        assert SETTER(SET_PC(call.op.n)) in calls;
      }
    }
  }

  lemma PcDue(h: Header, call: Call)
    ensures Due(Ready(h, call), FORCE_PC) != [] <==> h.pc.value.Some?
  {
    hide CommentRecords, InfoRecords, FeatureRecord, WithEvent64;
    Event64KeepsRest(h);
  }

  lemma {:induction false} PcWritten(calls: seq<Call>)
    ensures FINALIZE !in calls ==> BeforeEnd(calls) == calls
    ensures FlushedBy(calls, FORCE_PC) != [] ==> HeaderAt(BeforeEnd(calls)).pc.value.Some?
    ensures FINALIZE in calls && HeaderAt(BeforeEnd(calls)).pc.value.Some? ==> FlushedBy(calls, FORCE_PC) != []
  {
    if calls != [] {
      var before, call := calls[..|calls| - 1], calls[|calls| - 1];
      assert calls == before + [call];
      PcWritten(before);
      hide HeaderAt, FlushedBy, Due, Ready, Set, NothingElse, RunCalls;
      OneMoreCall(before, call);
      OneMoreFlushed(before, call, FORCE_PC);
      PcDue(HeaderAt(before), call);
      if call.SETTER? {
        PcSet(HeaderAt(before), call.op);
      }
    } else {
      assert FlushedBy(calls, FORCE_PC) == [];
    }
  }

  /** A run that is finalized and does not throw is readable exactly when a PC was set before that. */
  lemma ReadableExactly(calls: seq<Call>, following: seq<Record>)
    requires RunCalls(OPENED, calls).Some? && FINALIZE in calls
    ensures ReadHeader(RunCalls(OPENED, calls).value.emitted + following).Some? <==>
            exists n :: SETTER(SET_PC(n)) in BeforeEnd(calls)
  {
    hide RunCalls, ReadHeader, FlushedBy, HeaderAt;
    RunReadsBack(calls, following);
    PcWritten(calls);
    PcGiven(BeforeEnd(calls));
  }
}
