/**
 * The trace reader's header loop, filling the header fields record by record.
 */
module STFReaders {
  import opened FlatMaps
  import opened Records
  import opened Headers
  import opened HeaderReads

  class STFReader {
    var headerComments: seq<Record>
    var isa: Option<Record>
    var initialIem: Option<Record>
    var initialPc: Option<Record>
    var traceInfoRecords: seq<Record>
    var traceFeatures: Option<Record>
    var initialProcessId: Option<Record>
    var vlenConfig: Option<Record>
    var isaExtended: Option<Record>

    ghost function Fields(complete: bool): Parsed
      reads this
    {
      Parsed(headerComments, isa, initialIem, initialPc, traceInfoRecords, traceFeatures, initialProcessId, vlenConfig,
             isaExtended, complete)
    }

    constructor ()
      ensures Fields(false) == NOTHING
    {
      headerComments, traceInfoRecords := [], [];
      isa, initialIem, initialPc, traceFeatures, initialProcessId, vlenConfig, isaExtended := None, None, None, None,
        None, None, None;
    }

    // One record of the header; throws when it is not allowed there, or there twice.
    method TakeRecord(r: Record) returns (ok: bool, complete: bool)
      modifies this
      ensures ok <==> ParseOne(old(Fields(false)), r).Some?
      ensures ok ==> Some(Fields(complete)) == ParseOne(old(Fields(false)), r)
    {
      ok, complete := true, false;
      match r.desc
      case COMMENT =>
        headerComments := headerComments + [r];
      case ISA =>
        if isa.Some? { return false, false; }
        isa := Some(r);
      case INST_IEM =>
        if initialIem.Some? { return false, false; }
        initialIem := Some(r);
      case FORCE_PC =>
        if initialPc.Some? { return false, false; }
        initialPc := Some(r);
      case TRACE_INFO =>
        traceInfoRecords := traceInfoRecords + [r];
      case TRACE_INFO_FEATURE =>
        if traceFeatures.Some? { return false, false; }
        traceFeatures := Some(r);
      case PROCESS_ID_EXT =>
        if initialProcessId.Some? { return false, false; }
        initialProcessId := Some(r);
      case VLEN_CONFIG =>
        if vlenConfig.Some? { return false, false; }
        vlenConfig := Some(r);
      case ISA_EXTENDED =>
        if isaExtended.Some? { return false, false; }
        isaExtended := Some(r);
      case END_HEADER =>
        complete := true;
      case _ =>
        ok := false;
    }

    /**
     * Reads the header at the start of a trace, and throws exactly when there is none: no end, a record
     * that does not belong there or is there twice, or one missing that is required.
     */
    method ReadHeader(trace: seq<Record>) returns (ok: bool)
      requires Fields(false) == NOTHING
      modifies this
      ensures ok <==> exists n: nat :: HeaderEndsAt(trace, n)
      ensures ok ==> forall n: nat :: HeaderEndsAt(trace, n) ==> Fields(true) == Parts(trace[2..n], true)
      ensures ok ==> Some(Fields(true)) == Headers.ReadHeader(trace)
    {
      hide ParseOne, STFReader.Fields, Parts, HeaderEndsAt;
      ReadHeaderExactly(trace);
      if |trace| < 2 || trace[0] != IDENTIFIER_RECORD || !trace[1].desc.VERSION? {
        return false;
      }
      var recs, i, complete := trace[2..], 0, false;
      while i < |recs| && !complete
        invariant 0 <= i <= |recs|
        invariant Parse(NOTHING, recs[..i]) == Some(Fields(complete))
        invariant Fields(complete).complete == complete
        decreases |recs| - i
      {
        OneMoreParsed(recs, i);
        ok, complete := TakeRecord(recs[i]);
        if !ok {
          NothingAfterError(recs, i + 1);
          return;
        }
        FieldsComplete(complete);
        i := i + 1;
      }
      ParsedRest(recs, i, Fields(complete));
      FieldsShown(complete);
      ok := complete && isa.Some? && initialIem.Some? && initialPc.Some? && traceInfoRecords != []
        && traceFeatures.Some?;
    }

    lemma FieldsComplete(complete: bool)
      ensures Fields(complete).complete == complete
    {
    }

    lemma FieldsShown(complete: bool)
      ensures Validates(Fields(complete)) ==
              (complete && isa.Some? && initialIem.Some? && initialPc.Some? &&
               traceInfoRecords != [] && traceFeatures.Some?)
    {
    }
  }

  lemma OneMoreParsed(recs: seq<Record>, i: nat)
    requires i < |recs|
    ensures Parse(NOTHING, recs[..i + 1])
         == match Parse(NOTHING, recs[..i]) {
              case None => None
              case Some(p) => if p.complete then Some(p) else ParseOne(p, recs[i]) }
  {
    hide ParseOne;
    assert recs[..i + 1][..|recs[..i + 1]| - 1] == recs[..i];
  }

  lemma NothingAfterError(recs: seq<Record>, i: nat)
    requires i <= |recs| && Parse(NOTHING, recs[..i]).None?
    ensures Parse(NOTHING, recs).None?
  {
    hide Parse;
    ParseConcat(NOTHING, recs[..i], recs[i..]);
    assert recs[..i] + recs[i..] == recs;
  }

  lemma ParsedRest(recs: seq<Record>, i: nat, p: Parsed)
    requires i <= |recs| && Parse(NOTHING, recs[..i]) == Some(p) && (i == |recs| || p.complete)
    ensures Parse(NOTHING, recs) == Some(p)
  {
    if p.complete {
      ParseConcat(NOTHING, recs[..i], recs[i..]);
      ParsedAlready(p, recs[i..]);
      assert recs[..i] + recs[i..] == recs;
    } else {
      assert recs[..i] == recs;
    }
  }
}
