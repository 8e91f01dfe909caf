/**
 * Record descriptors: the values written in a trace, the dense values used inside the library, the
 * tables between them, and the library's values in the order of the trace's.
 */
module Descriptors {
  import opened FlatMaps

  datatype Descriptor =
    | RESERVED | INST_REG | INST_OPCODE16 | INST_OPCODE32 | INST_MEM_ACCESS | INST_MEM_CONTENT | INST_PC_TARGET | EVENT
    | EVENT_PC_TARGET | PAGE_TABLE_WALK | BUS_MASTER_ACCESS | BUS_MASTER_CONTENT | COMMENT | FORCE_PC | INST_READY_REG
    | PROCESS_ID_EXT | INST_MICROOP | IDENTIFIER | ISA | INST_IEM | TRACE_INFO | TRACE_INFO_FEATURE | VERSION
    | VLEN_CONFIG
    | PROTOCOL_ID | CLOCK_ID | ISA_EXTENDED | END_HEADER | TRANSACTION | TRANSACTION_DEPENDENCY

  const NUM_INTERNAL: nat := 30

  // One more than the largest value written in a trace; also the mark of a gap between such values.
  const NUM_ENCODED: nat := 252

  // The library's own, dense values.
  function ToInternalValue(d: Descriptor): (k: nat)
    ensures k < NUM_INTERNAL
  {
    match d
    case RESERVED => 0 case INST_REG => 1 case INST_OPCODE16 => 2 case INST_OPCODE32 => 3 case INST_MEM_ACCESS => 4
    case INST_MEM_CONTENT => 5 case INST_PC_TARGET => 6 case EVENT => 7 case EVENT_PC_TARGET => 8
    case PAGE_TABLE_WALK => 9
    case BUS_MASTER_ACCESS => 10 case BUS_MASTER_CONTENT => 11 case COMMENT => 12 case FORCE_PC => 13
    case INST_READY_REG => 14
    case PROCESS_ID_EXT => 15 case INST_MICROOP => 16 case IDENTIFIER => 17 case ISA => 18 case INST_IEM => 19
    case TRACE_INFO => 20 case TRACE_INFO_FEATURE => 21 case VERSION => 22 case VLEN_CONFIG => 23 case PROTOCOL_ID => 24
    case CLOCK_ID => 25 case ISA_EXTENDED => 26 case END_HEADER => 27 case TRANSACTION => 28
    case TRANSACTION_DEPENDENCY => 29
  }

  // The descriptor with an internal value.
  function OfInternalValue(k: nat): Descriptor
    requires k < NUM_INTERNAL
  {
    match k
    case 0 => RESERVED case 1 => INST_REG case 2 => INST_OPCODE16 case 3 => INST_OPCODE32 case 4 => INST_MEM_ACCESS
    case 5 => INST_MEM_CONTENT case 6 => INST_PC_TARGET case 7 => EVENT case 8 => EVENT_PC_TARGET
    case 9 => PAGE_TABLE_WALK case 10 => BUS_MASTER_ACCESS case 11 => BUS_MASTER_CONTENT case 12 => COMMENT
    case 13 => FORCE_PC case 14 => INST_READY_REG case 15 => PROCESS_ID_EXT case 16 => INST_MICROOP
    case 17 => IDENTIFIER case 18 => ISA case 19 => INST_IEM case 20 => TRACE_INFO case 21 => TRACE_INFO_FEATURE
    case 22 => VERSION case 23 => VLEN_CONFIG case 24 => PROTOCOL_ID case 25 => CLOCK_ID case 26 => ISA_EXTENDED
    case 27 => END_HEADER case 28 => TRANSACTION case _ => TRANSACTION_DEPENDENCY
  }

  lemma InternalValues(d: Descriptor, k: nat)
    requires k < NUM_INTERNAL
    ensures OfInternalValue(ToInternalValue(d)) == d && ToInternalValue(OfInternalValue(k)) == k
  {
    hide OfInternalValue, ToInternalValue;
    BackFromInternal(d);
    BackToInternal(k);
  }

  lemma BackFromInternal(d: Descriptor)
    ensures OfInternalValue(ToInternalValue(d)) == d
  {
  }

  lemma BackToInternal(k: nat)
    requires k < NUM_INTERNAL
    ensures ToInternalValue(OfInternalValue(k)) == k
  {
  }

  // The value of a descriptor in a trace.
  function ToEncoded(d: Descriptor): (e: nat)
    ensures e < NUM_ENCODED
  {
    match d
    case RESERVED => 0 case IDENTIFIER => 1 case VERSION => 2 case COMMENT => 3 case ISA => 4 case INST_IEM => 5
    case TRACE_INFO => 6 case TRACE_INFO_FEATURE => 7 case PROCESS_ID_EXT => 8 case FORCE_PC => 9 case VLEN_CONFIG => 10
    case PROTOCOL_ID => 11 case CLOCK_ID => 12 case ISA_EXTENDED => 13 case END_HEADER => 19 case INST_PC_TARGET => 31
    case INST_REG => 40 case INST_READY_REG => 41 case PAGE_TABLE_WALK => 50 case INST_MEM_ACCESS => 60
    case INST_MEM_CONTENT => 61 case BUS_MASTER_ACCESS => 62 case BUS_MASTER_CONTENT => 63 case EVENT => 100
    case EVENT_PC_TARGET => 101 case INST_MICROOP => 230 case INST_OPCODE32 => 240 case INST_OPCODE16 => 241
    case TRANSACTION => 250 case TRANSACTION_DEPENDENCY => 251
  }

  // The descriptor written with a value; none in a gap.
  function ToInternal(e: nat): Option<Descriptor> {
    match e
    case 0 => Some(RESERVED) case 1 => Some(IDENTIFIER) case 2 => Some(VERSION) case 3 => Some(COMMENT)
    case 4 => Some(ISA)
    case 5 => Some(INST_IEM) case 6 => Some(TRACE_INFO) case 7 => Some(TRACE_INFO_FEATURE)
    case 8 => Some(PROCESS_ID_EXT)
    case 9 => Some(FORCE_PC) case 10 => Some(VLEN_CONFIG) case 11 => Some(PROTOCOL_ID) case 12 => Some(CLOCK_ID)
    case 13 => Some(ISA_EXTENDED) case 19 => Some(END_HEADER) case 31 => Some(INST_PC_TARGET) case 40 => Some(INST_REG)
    case 41 => Some(INST_READY_REG) case 50 => Some(PAGE_TABLE_WALK) case 60 => Some(INST_MEM_ACCESS)
    case 61 => Some(INST_MEM_CONTENT) case 62 => Some(BUS_MASTER_ACCESS) case 63 => Some(BUS_MASTER_CONTENT)
    case 100 => Some(EVENT) case 101 => Some(EVENT_PC_TARGET) case 230 => Some(INST_MICROOP)
    case 240 => Some(INST_OPCODE32)
    case 241 => Some(INST_OPCODE16) case 250 => Some(TRANSACTION) case 251 => Some(TRANSACTION_DEPENDENCY)
    case _ => None
  }

  /** The two tables are inverse to each other on the values in use. */
  lemma TablesAreInverse(d: Descriptor, e: nat)
    ensures ToInternal(ToEncoded(d)) == Some(d)
    ensures ToInternal(e) == Some(d) <==> e == ToEncoded(d)
  {
    hide ToInternal, ToEncoded;
    BackFromEncoded(d);
    BackToEncoded(e);
  }

  lemma BackFromEncoded(d: Descriptor)
    ensures ToInternal(ToEncoded(d)) == Some(d)
  {
  }

  lemma BackToEncoded(e: nat)
    ensures ToInternal(e).Some? ==> ToEncoded(ToInternal(e).value) == e
  {
  }

  // The descriptors with an encoded value below a bound, in the order of those values.
  function SortedBelow(bound: nat): seq<Descriptor> {
    if bound == 0 then []
    else
      var before := SortedBelow(bound - 1);
      match ToInternal(bound - 1)
      case Some(d) => before + [d]
      case None => before
  }

  const SORTED: seq<Descriptor> := SortedBelow(NUM_ENCODED)

  predicate StrictlySorted(ds: seq<Descriptor>) {
    forall i, j :: 0 <= i < j < |ds| ==> ToEncoded(ds[i]) < ToEncoded(ds[j])
  }

  lemma {:induction false} SortedBelowMeaning(bound: nat)
    ensures StrictlySorted(SortedBelow(bound))
    ensures forall d :: d in SortedBelow(bound) <==> ToEncoded(d) < bound
  {
    hide ToEncoded, ToInternal;
    if bound > 0 {
      SortedBelowMeaning(bound - 1);
      forall d: Descriptor {
        TablesAreInverse(d, bound - 1);
      }
      assert forall d :: ToEncoded(d) == bound - 1 <==> ToInternal(bound - 1) == Some(d);
      var before := SortedBelow(bound - 1);
      assert forall k :: 0 <= k < |before| ==> before[k] in before;
    }
  }

  lemma DistinctFit(ds: seq<Descriptor>)
    requires StrictlySorted(ds)
    ensures |ds| == |set d | d in ds|
  {
    if ds != [] {
      var n := |ds| - 1;
      DistinctFit(ds[..n]);
      assert ds[n] !in ds[..n];
      assert (set d | d in ds) == (set d | d in ds[..n]) + {ds[n]};
    }
  }

  ghost function KeysBelow(n: nat): (keys: set<nat>)
    ensures |keys| == n && forall k: nat :: k in keys <==> k < n
  {
    if n == 0 then {} else KeysBelow(n - 1) + {n - 1}
  }

  // A set of descriptors is as large as the set of its internal values.
  lemma SameSize(ds: set<Descriptor>, keys: set<nat>)
    requires forall d :: d in ds <==> ToInternalValue(d) in keys
    requires forall k :: k in keys ==> k < NUM_INTERNAL
    ensures |ds| == |keys|
    decreases keys
  {
    hide ToInternalValue, OfInternalValue;
    if keys == {} {
      assert forall d :: d !in ds;
      assert ds == {};
    } else {
      var k :| k in keys;
      var d := OfInternalValue(k);
      forall x: Descriptor {
        InternalValues(x, k);
      }
      assert forall x :: x in ds - {d} <==> ToInternalValue(x) in keys - {k};
      SameSize(ds - {d}, keys - {k});
    }
  }

  /** Every descriptor appears in the sorted sequence, once, in the order of the trace's values. */
  lemma SortedSequence()
    ensures |SORTED| == NUM_INTERNAL && StrictlySorted(SORTED) && forall d :: d in SORTED
  {
    hide ToInternalValue, ToInternal;
    SortedBelowMeaning(NUM_ENCODED);
    DistinctFit(SORTED);
    SameSize((set d | d in SORTED), KeysBelow(NUM_INTERNAL));
  }

  predicate IsToInternal(table: seq<nat>) {
    && |table| == NUM_ENCODED
    && forall e :: 0 <= e < NUM_ENCODED ==>
         table[e] == match ToInternal(e) { case Some(d) => ToInternalValue(d) case None => NUM_ENCODED }
  }

  /** The loop that fills the table from trace values to the library's, with gaps. */
  method InitToInternal() returns (table: array<nat>)
    ensures fresh(table) && IsToInternal(table[..])
  {
    hide ToInternal, ToInternalValue;
    table := new nat[NUM_ENCODED](_ => 0);
    var i := 0;
    while i < NUM_ENCODED
      invariant 0 <= i <= NUM_ENCODED
      invariant forall e :: 0 <= e < i ==>
                  table[e] == match ToInternal(e) { case Some(d) => ToInternalValue(d) case None => NUM_ENCODED }
    {
      match ToInternal(i) {
        case Some(d) => table[i] := ToInternalValue(d);
        case None => table[i] := NUM_ENCODED;
      }
      i := i + 1;
    }
  }

  /** The sequence of descriptors in trace order, gaps skipped. */
  method InitSortedInternalSequence(table: array<nat>) returns (sorted: array<nat>)
    requires IsToInternal(table[..])
    ensures fresh(sorted) && sorted.Length == NUM_INTERNAL == |SORTED|
    ensures forall i :: 0 <= i < NUM_INTERNAL ==> sorted[i] == ToInternalValue(SORTED[i])
  {
    hide ToInternal, ToInternalValue, ToEncoded, SortedBelow;
    SortedSequence();
    NothingSorted();
    sorted := new nat[NUM_INTERNAL](_ => 0);
    var i, e := 0, 0;
    while e < NUM_ENCODED
      invariant 0 <= e <= NUM_ENCODED && i == |SortedBelow(e)| <= NUM_INTERNAL
      invariant forall k :: 0 <= k < i ==> sorted[k] == ToInternalValue(SortedBelow(e)[k])
    {
      PrefixOfSorted(e + 1);
      OneMoreSorted(e);
      assert table[..][e] == table[e];
      if table[e] != NUM_ENCODED {
        sorted[i] := table[e];
        i := i + 1;
      }
      e := e + 1;
    }
  }

  /** Where each descriptor stands in that sequence. */
  method InitReverseMapping(sorted: array<nat>) returns (reverse: array<nat>)
    requires sorted.Length == NUM_INTERNAL == |SORTED|
    requires forall i :: 0 <= i < NUM_INTERNAL ==> sorted[i] == ToInternalValue(SORTED[i])
    ensures fresh(reverse) && reverse.Length == NUM_INTERNAL
    ensures forall i :: 0 <= i < NUM_INTERNAL ==> reverse[ToInternalValue(SORTED[i])] == i
  {
    hide ToInternal, ToInternalValue, ToEncoded;
    SortedSequence();
    reverse := new nat[NUM_INTERNAL](_ => 0);
    var i := 0;
    while i < NUM_INTERNAL
      invariant 0 <= i <= NUM_INTERNAL
      invariant forall k :: 0 <= k < i ==> reverse[ToInternalValue(SORTED[k])] == k
    {
      forall k | 0 <= k < i
        ensures ToInternalValue(SORTED[k]) != ToInternalValue(SORTED[i])
      {
        InternalValues(SORTED[k], 0);
        InternalValues(SORTED[i], 0);
        assert ToEncoded(SORTED[k]) < ToEncoded(SORTED[i]);
      }
      reverse[sorted[i]] := i;
      i := i + 1;
    }
  }

  lemma NothingSorted()
    ensures SortedBelow(0) == []
  {
  }

  lemma OneMoreSorted(e: nat)
    ensures SortedBelow(e + 1) == SortedBelow(e) + (if ToInternal(e).Some? then [ToInternal(e).value] else [])
  {
  }

  lemma PrefixOfSorted(bound: nat)
    requires bound <= NUM_ENCODED
    ensures |SortedBelow(bound)| <= |SORTED|
    decreases NUM_ENCODED - bound
  {
    if bound < NUM_ENCODED {
      PrefixOfSorted(bound + 1);
    }
  }
}
