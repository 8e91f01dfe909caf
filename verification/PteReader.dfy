/**
 * The translation reader: one thread fills the page table from the trace while another asks it for
 * addresses.  Each access to the shared state is one locked, hence atomic, step.
 */
module PteReader {
  import opened FlatMaps
  import opened PageWalk
  import opened PageTableLog
  import opened PageTableReplay
  import opened PageTable

  datatype Operand = STATE | SOURCE | DEST

  // The records the reader thread tells apart; SatpReg is a register record for the SATP register.
  datatype Rec =
    | WalkRec(firstAccess: nat, ptes: seq<Pte>)
    | SatpReg(operand: Operand, value: nat)
    | Opcode
    | ModeEvent(mode: Mode)
    | Other

  const DEFAULT_CHUNK_SIZE: nat := 100000

  const UPDATE_INTERVAL: nat := DEFAULT_CHUNK_SIZE / 10

  // The reader thread's state: instructions read, page table, last published index, and whether an
  // assertion has failed.
  datatype State = State(insts: nat, view: View, lastValid: nat, failed: bool)

  /** What a record does to the page table, given the number of instructions read with it. */
  function EventOf(rec: Rec, insts: nat): Option<Event> {
    match rec
    case WalkRec(firstAccess, ptes) => Some(Walk(firstAccess, ptes))
    case SatpReg(operand, value) =>
      if operand.SOURCE? then None else Some(SatpWrite(insts + (if operand.STATE? then 0 else 2), value))
    case ModeEvent(mode) => Some(ModeChange(if insts == 0 then 0 else insts + 2, mode))
    case _ => None
  }

  // Walk records always publish their position, opcodes only now and then.
  predicate Publishes(rec: Rec, insts: nat) {
    rec.WalkRec? || (rec.Opcode? && insts % UPDATE_INTERVAL == 0)
  }

  /** One turn of the reader thread's loop. */
  function ReadRec(s: State, rec: Rec): (r: State)
    requires PageTableLog.Valid(s.view)
    ensures PageTableLog.Valid(r.view) && r.insts >= s.insts
  {
    if s.failed then s
    else
      var insts := if rec.Opcode? then s.insts + 1 else s.insts;
      var event := EventOf(rec, insts);
      var applied := if event.Some? then Apply(s.view, event.value) else (s.view, true);
      State(insts, applied.0, if applied.1 && Publishes(rec, insts) then insts else s.lastValid, !applied.1)
  }

  /** The reader thread after reading a trace. */
  function After(iem: IEM, recs: seq<Rec>): (s: State)
    ensures PageTableLog.Valid(s.view) && s.lastValid <= s.insts
  {
    if recs == [] then State(0, Initial(iem), 0, false)
    else ReadRec(After(iem, recs[..|recs| - 1]), recs[|recs| - 1])
  }

  /** Each walk record's first access lies beyond the instructions read so far. */
  predicate Ahead(iem: IEM, recs: seq<Rec>) {
    if recs == [] then true
    else
      var before, last := recs[..|recs| - 1], recs[|recs| - 1];
      Ahead(iem, before) && (last.WalkRec? ==> last.firstAccess > After(iem, before).insts)
  }

  // The whole trace is read without a failed assertion.
  predicate Accepted(iem: IEM, recs: seq<Rec>) { !After(iem, recs).failed }

  // ---------------------------------------------------------------- when a record takes effect

  /**
   * What an instruction writes to SATP, and a mode change once the trace is under way, holds from
   * the instruction after the one that is being read; a SATP state record holds from the last
   * instruction read.  No answer for an earlier index changes.
   */
  lemma EarlierInstructionsUnaffected(s: State, rec: Rec, va: nat, i: nat)
    requires PageTableLog.Valid(s.view) && !s.failed
    requires match rec
             case SatpReg(operand, _) => operand.SOURCE? || i < s.insts || (operand.DEST? && i <= s.insts + 1)
             case ModeEvent(_) => s.insts > 0 && i <= s.insts + 1
             case WalkRec(firstAccess, _) => i < firstAccess
             case _ => true
    ensures Translate(ReadRec(s, rec).view, va, i) == Translate(s.view, va, i)
  {
    hide Translate, Apply, PageTableLog.Valid;
    var event := EventOf(rec, if rec.Opcode? then s.insts + 1 else s.insts);
    if event.Some? {
      LaterEventChangesNothing(s.view, event.value, va, i);
    }
  }

  /** From the index at which it takes effect, a mode change is the mode in force. */
  lemma ModeTakesEffect(s: State, mode: Mode)
    requires PageTableLog.Valid(s.view) && !s.failed
    ensures var from := if s.insts == 0 then 0 else s.insts + 2;
            && !ReadRec(s, ModeEvent(mode)).failed
            && Floor(ReadRec(s, ModeEvent(mode)).view.modes, from) == Some(Entry(from, mode))
  {
    hide Floor, Assign, Sorted, WellFormed, DecodeSatp;
    var from := if s.insts == 0 then 0 else s.insts + 2;
    FloorOfAssign(s.view.modes, from, mode, from);
    FloorBelow(s.view.modes, from);
  }

  /**
   * From the index at which it takes effect, a SATP value is the one in force, unless an earlier
   * record wrote one at that very index.
   */
  lemma SatpTakesEffect(s: State, operand: Operand, value: nat)
    requires PageTableLog.Valid(s.view) && !s.failed && !operand.SOURCE?
    requires value in s.view.tables || DecodeSatp(s.view.iem, value).Some?
    ensures var from := if operand.STATE? then s.insts else s.insts + 2;
            var r := ReadRec(s, SatpReg(operand, value));
            && !r.failed && value in r.view.tables
            && Floor(r.view.satps, from) == if Has(s.view.satps, from) then Floor(s.view.satps, from)
                                            else Some(Entry(from, value))
  {
    hide Floor, TryEmplace, Sorted, WellFormed, DecodeSatp;
    var from := if operand.STATE? then s.insts else s.insts + 2;
    TryEmplaceFloor(s.view.satps, from, value, from);
    FloorBelow(s.view.satps, from);
  }

  lemma FloorBelow<V>(m: seq<Entry<V>>, i: nat)
    requires Sorted(m)
    ensures Floor(m, i).Some? ==> Floor(m, i).value.key <= i
  {
  }

  // The last entry of a walk with its address.
  predicate IsLast(ptes: seq<Pte>, k: nat)
    requires k < |ptes|
  {
    forall l :: k < l < |ptes| ==> ptes[l].pa != ptes[k].pa
  }

  lemma OnePutAtIndex(pages: Pages, m: VAMode, index: nat, pte: Pte, addr: nat)
    requires WellFormed(pages) && PutPte(pages, m, index, pte).Some?
    ensures Lookup(PutPte(pages, m, index, pte).value, addr, index) ==
            if addr == pte.pa then Some(Decode(m, pte.raw)) else Lookup(pages, addr, index)
  {
    hide Decode, UpperBound, Insert;
    if pte.pa !in pages {
      FloorOfSingle(index, Decode(m, pte.raw), index);
    } else if Floor(pages[pte.pa], index).value.value != Decode(m, pte.raw) {
      FloorBelow(pages[pte.pa], index);
      NotThere(pages[pte.pa], index);
      FloorOfInsert(pages[pte.pa], index, Decode(m, pte.raw), index);
    }
  }

  lemma NotThere(m: seq<Entry<PTE>>, i: nat)
    requires Sorted(m) && Floor(m, i).Some? && Floor(m, i).value.key != i
    ensures !Has(m, i)
  {
  }

  lemma {:induction false} OthersStay(pages: Pages, m: VAMode, index: nat, ptes: seq<Pte>, addr: nat)
    requires WellFormed(pages) && PutPtes(pages, m, index, ptes).1 && forall pte :: pte in ptes ==> pte.pa != addr
    ensures Lookup(PutPtes(pages, m, index, ptes).0, addr, index) == Lookup(pages, addr, index)
    decreases |ptes|
  {
    if ptes != [] {
      hide Decode, Lookup, PutPte, WellFormed;
      OnePutAtIndex(pages, m, index, ptes[0], addr);
      OthersStay(PutPte(pages, m, index, ptes[0]).value, m, index, ptes[1..], addr);
    }
  }

  lemma {:induction false} PutAtIndex(pages: Pages, m: VAMode, index: nat, ptes: seq<Pte>, k: nat)
    requires WellFormed(pages) && PutPtes(pages, m, index, ptes).1 && k < |ptes| && IsLast(ptes, k)
    ensures Lookup(PutPtes(pages, m, index, ptes).0, ptes[k].pa, index) == Some(Decode(m, ptes[k].raw))
    decreases |ptes|
  {
    hide Decode, Lookup, PutPte, WellFormed;
    var next := PutPte(pages, m, index, ptes[0]).value;
    OnePutAtIndex(pages, m, index, ptes[0], ptes[k].pa);
    if k > 0 {
      PutAtIndex(next, m, index, ptes[1..], k - 1);
    } else {
      OthersStay(next, m, index, ptes[1..], ptes[0].pa);
    }
  }

  /**
   * From its first access on, the entries of a walk record are in the table of the SATP value in force
   * there, at their own addresses; no other address of it and no other table has changed there.
   */
  lemma WalkTakesEffect(s: State, firstAccess: nat, ptes: seq<Pte>, addr: nat)
    requires PageTableLog.Valid(s.view) && !s.failed && !ReadRec(s, WalkRec(firstAccess, ptes)).failed
    ensures var v, e := ReadRec(s, WalkRec(firstAccess, ptes)).view, Floor(s.view.satps, firstAccess);
            && e.Some? && e.value.value in s.view.tables && DecodeSatp(s.view.iem, e.value.value).Some?
            && var satp, mode := e.value.value, DecodeSatp(s.view.iem, e.value.value).value.mode;
               && v.modes == s.view.modes && v.satps == s.view.satps && v.tables.Keys == s.view.tables.Keys
               && (forall t :: t in v.tables && t != satp ==> v.tables[t] == s.view.tables[t])
               && (forall k :: 0 <= k < |ptes| && IsLast(ptes, k) && ptes[k].pa == addr ==>
                     Lookup(v.tables[satp], addr, firstAccess) == Some(Decode(mode, ptes[k].raw)))
               && ((forall pte :: pte in ptes ==> pte.pa != addr) ==>
                     Lookup(v.tables[satp], addr, firstAccess) == Lookup(s.view.tables[satp], addr, firstAccess))
  {
    hide Decode, Lookup, PutPtes, WellFormed, DecodeSatp, UpperBound, Sorted;
    var satp := Floor(s.view.satps, firstAccess).value.value;
    var pages, mode := s.view.tables[satp], DecodeSatp(s.view.iem, satp).value.mode;
    forall k | 0 <= k < |ptes| && IsLast(ptes, k)
      ensures Lookup(PutPtes(pages, mode, firstAccess, ptes).0, ptes[k].pa, firstAccess)
           == Some(Decode(mode, ptes[k].raw))
    {
      PutAtIndex(pages, mode, firstAccess, ptes, k);
    }
    if forall pte :: pte in ptes ==> pte.pa != addr {
      OthersStay(pages, mode, firstAccess, ptes, addr);
    }
  }

  // ---------------------------------------------------------------- answers that stay true

  // Reading one more record.
  lemma ReadOneMore(iem: IEM, recs: seq<Rec>, rec: Rec)
    ensures After(iem, recs + [rec]) == ReadRec(After(iem, recs), rec)
    ensures Ahead(iem, recs + [rec]) <==>
            Ahead(iem, recs) && (rec.WalkRec? ==> rec.firstAccess > After(iem, recs).insts)
  {
    assert (recs + [rec])[..|recs + [rec]| - 1] == recs;
  }

  /** Reading on never changes the answer for an index below the instructions already read. */
  lemma {:induction false} EarlierAnswersStay(iem: IEM, prefix: seq<Rec>, rest: seq<Rec>, va: nat, i: nat)
    requires Ahead(iem, prefix + rest) && i < After(iem, prefix).insts
    ensures Translate(After(iem, prefix + rest).view, va, i) == Translate(After(iem, prefix).view, va, i)
    ensures After(iem, prefix + rest).insts >= After(iem, prefix).insts
  {
    hide Translate, Apply, PageTableLog.Valid, After, Ahead;
    if rest == [] {
      assert prefix + rest == prefix;
    } else {
      var shorter, rec := prefix + rest[..|rest| - 1], rest[|rest| - 1];
      assert prefix + rest == shorter + [rec];
      ReadOneMore(iem, shorter, rec);
      EarlierAnswersStay(iem, prefix, rest[..|rest| - 1], va, i);
      var before := After(iem, shorter);
      var event := EventOf(rec, if rec.Opcode? then before.insts + 1 else before.insts);
      if !before.failed && event.Some? {
        LaterEventChangesNothing(before.view, event.value, va, i);
      }
    }
  }

  // ---------------------------------------------------------------- what is published

  function Opcodes(recs: seq<Rec>): nat {
    if recs == [] then 0 else Opcodes(recs[..|recs| - 1]) + (if recs[|recs| - 1].Opcode? then 1 else 0)
  }

  // The records up to the last walk record.
  function UpToLastWalk(recs: seq<Rec>): (r: seq<Rec>) {
    if recs == [] || recs[|recs| - 1].WalkRec? then recs else UpToLastWalk(recs[..|recs| - 1])
  }

  /**
   * The larger of two numbers: the instructions read, rounded down to ten thousands, and those
   * read before the last walk record.
   */
  function Published(recs: seq<Rec>): nat {
    var rounded, atWalk := Opcodes(recs) / 10000 * 10000, Opcodes(UpToLastWalk(recs));
    if rounded >= atWalk then rounded else atWalk
  }

  lemma {:induction false} FewerOpcodes(recs: seq<Rec>)
    ensures Opcodes(UpToLastWalk(recs)) <= Opcodes(recs)
  {
    if recs != [] && !recs[|recs| - 1].WalkRec? {
      FewerOpcodes(recs[..|recs| - 1]);
    }
  }

  /** Rounding down changes exactly at the multiples. */
  lemma RoundedNext(n: nat)
    ensures (n + 1) / 10000 * 10000 == if (n + 1) % 10000 == 0 then n + 1 else n / 10000 * 10000
    ensures n / 10000 * 10000 <= n
  {
  }

  lemma OneMorePublished(recs: seq<Rec>, rec: Rec)
    ensures Opcodes(recs + [rec]) == Opcodes(recs) + if rec.Opcode? then 1 else 0
    ensures Published(recs + [rec]) == if rec.WalkRec? || (rec.Opcode? && (Opcodes(recs) + 1) % 10000 == 0)
                                       then Opcodes(recs + [rec]) else Published(recs)
  {
    var more := recs + [rec];
    assert more[..|more| - 1] == recs;
    FewerOpcodes(recs);
    RoundedNext(Opcodes(recs));
    RoundedNext(Opcodes(more));
  }

  lemma OneMoreRead(s: State, rec: Rec)
    requires PageTableLog.Valid(s.view) && !ReadRec(s, rec).failed
    ensures var r := ReadRec(s, rec);
            && !s.failed && r.insts == s.insts + (if rec.Opcode? then 1 else 0)
            && r.lastValid == if rec.WalkRec? || (rec.Opcode? && (s.insts + 1) % 10000 == 0) then r.insts
                              else s.lastValid
  {
    hide Apply, PageTableLog.Valid;
  }

  /**
   * After any prefix without a failed assertion the reader has counted its opcodes, and published
   * the larger of the last multiple of ten thousand and its count at the last walk record.
   */
  lemma {:induction false} PublishedExactly(iem: IEM, recs: seq<Rec>)
    requires Accepted(iem, recs)
    ensures After(iem, recs).insts == Opcodes(recs) && After(iem, recs).lastValid == Published(recs)
  {
    hide ReadRec, PageTableLog.Valid;
    if recs != [] {
      var before, rec := recs[..|recs| - 1], recs[|recs| - 1];
      assert recs == before + [rec];
      OneMoreRead(After(iem, before), rec);
      PublishedExactly(iem, before);
      OneMorePublished(before, rec);
    }
  }

  // ---------------------------------------------------------------- every interleaving

  // One step of a run: the reader thread reads a record (or finds the end of the trace), or the
  // other thread asks for a translation.
  datatype Step = Read | Ask(va: nat, index: nat)

  // An answer, and whether its index was below the last published one or the trace was finished.
  datatype Answer = Answer(va: nat, index: nat, settled: bool, outcome: Outcome)

  // What both threads share: how much of the trace has been read, and whether reading is finished.
  datatype Progress = Progress(read: nat, done: bool)

  predicate MayAnswer(iem: IEM, trace: seq<Rec>, p: Progress, index: nat)
    requires p.read <= |trace|
  {
    p.done || index <= After(iem, trace[..p.read]).lastValid
  }

  function StepProgress(trace: seq<Rec>, p: Progress, step: Step): (r: Progress)
    requires p.read <= |trace| && (p.done ==> p.read == |trace|)
    ensures r.read <= |trace| && (r.done ==> r.read == |trace|)
  {
    if step.Ask? then p
    else if p.read < |trace| then p.(read := p.read + 1)
    else p.(done := true)
  }

  /** The answers given along a run; a request that must wait gives none. */
  function Answers(iem: IEM, trace: seq<Rec>, p: Progress, steps: seq<Step>): seq<Answer>
    requires p.read <= |trace| && (p.done ==> p.read == |trace|)
    decreases |steps|
  {
    if steps == [] then []
    else
      var rest := Answers(iem, trace, StepProgress(trace, p, steps[0]), steps[1..]);
      if steps[0].Ask? && MayAnswer(iem, trace, p, steps[0].index) then
        var s := After(iem, trace[..p.read]);
        [Answer(steps[0].va, steps[0].index, p.done || steps[0].index < s.lastValid,
                Translate(s.view, steps[0].va, steps[0].index))] + rest
      else rest
  }

  /**
   * A request is answered at once exactly when the trace was read to its end, or its index is at
   * most the opcodes read, rounded down to ten thousands, or those before the last walk record.
   */
  lemma AnsweredExactly(iem: IEM, trace: seq<Rec>, p: Progress, index: nat)
    requires p.read <= |trace| && (p.done ==> p.read == |trace|) && Accepted(iem, trace[..p.read])
    ensures MayAnswer(iem, trace, p, index) <==>
            p.done || index <= Opcodes(trace[..p.read]) / 10000 * 10000
              || index <= Opcodes(UpToLastWalk(trace[..p.read]))
    ensures forall va :: |Answers(iem, trace, p, [Ask(va, index)])| == if MayAnswer(iem, trace, p, index) then 1 else 0
  {
    hide After, PageTableLog.Valid, Translate, UpToLastWalk, Opcodes;
    PublishedExactly(iem, trace[..p.read]);
  }

  /**
   * Under every interleaving, an answer for an index below the last published one, or given after
   * the end of the trace, is the answer of the whole trace.
   */
  lemma {:induction false} SettledAnswersAreFinal(iem: IEM, trace: seq<Rec>, p: Progress, steps: seq<Step>)
    requires Ahead(iem, trace) && p.read <= |trace| && (p.done ==> p.read == |trace|)
    ensures forall a :: a in Answers(iem, trace, p, steps) && a.settled ==>
              a.outcome == Translate(After(iem, trace).view, a.va, a.index)
    decreases |steps|
  {
    hide Translate, Ahead, PageTableLog.Valid, After;
    if steps != [] {
      SettledAnswersAreFinal(iem, trace, StepProgress(trace, p, steps[0]), steps[1..]);
      if steps[0].Ask? && MayAnswer(iem, trace, p, steps[0].index) {
        var s := After(iem, trace[..p.read]);
        assert trace == trace[..p.read] + trace[p.read..];
        if p.done {
          assert trace[..p.read] == trace;
        } else if steps[0].index < s.lastValid {
          EarlierAnswersStay(iem, trace[..p.read], trace[p.read..], steps[0].va, steps[0].index);
        }
      }
    }
  }

  /**
   * A request below the opcodes read, rounded down to ten thousands, or below those before the last
   * walk record, is answered at once with the answer of the whole trace.
   */
  lemma PublishedAnswersAreFinal(iem: IEM, trace: seq<Rec>, p: Progress, va: nat, index: nat)
    requires Ahead(iem, trace) && p.read <= |trace| && !p.done && Accepted(iem, trace[..p.read])
    requires index < Opcodes(trace[..p.read]) / 10000 * 10000 || index < Opcodes(UpToLastWalk(trace[..p.read]))
    ensures Answers(iem, trace, p, [Ask(va, index)])
         == [Answer(va, index, true, Translate(After(iem, trace).view, va, index))]
  {
    hide Translate, Ahead, PageTableLog.Valid, After, Opcodes, UpToLastWalk;
    PublishedExactly(iem, trace[..p.read]);
    assert trace == trace[..p.read] + trace[p.read..];
    EarlierAnswersStay(iem, trace[..p.read], trace[p.read..], va, index);
  }

  // ---------------------------------------------------------------- the index just published

  /** A SATP value may still be written at i: below machine mode, with none written at i so far. */
  predicate Exposed(v: View, i: nat)
    requires PageTableLog.Valid(v)
  {
    Floor(v.modes, i).Some? && !Floor(v.modes, i).value.value.MACHINE_MODE? && !Has(v.satps, i)
  }

  lemma TakenIndexKeepsAnswer(v: View, value: nat, va: nat, i: nat)
    requires PageTableLog.Valid(v) && !Exposed(v, i)
    ensures Translate(ApplySatp(v, i, value).0, va, i) == Translate(v, va, i)
    ensures !Exposed(ApplySatp(v, i, value).0, i)
  {
    hide DecodeSatp, UpperBound, TableTranslate, Sorted, WellFormed, Insert;
    if Has(v.satps, i) {
      assert Floor(v.satps, i).value in v.satps;
    } else if ApplySatp(v, i, value).1 {
      TryEmplaceFloor(v.satps, i, value, i);
    }
  }

  lemma LaterEventKeepsExposure(v: View, e: Event, i: nat)
    requires PageTableLog.Valid(v) && !Exposed(v, i) && i < e.index
    ensures !Exposed(Apply(v, e).0, i)
  {
    hide DecodeSatp, UpperBound, Sorted, WellFormed, Insert, PutPtes, Assign, TryEmplace;
    match e {
      case Walk(index, ptes) =>
      case SatpWrite(index, value) => TryEmplaceFloor(v.satps, index, value, i);
      case ModeChange(index, mode) => FloorOfAssign(v.modes, index, mode, i);
    }
  }

  lemma {:induction false} UnexposedAnswerStays(iem: IEM, prefix: seq<Rec>, rest: seq<Rec>, va: nat, i: nat)
    requires Ahead(iem, prefix + rest) && 1 <= i <= After(iem, prefix).insts
    requires !Exposed(After(iem, prefix).view, i)
    ensures Translate(After(iem, prefix + rest).view, va, i) == Translate(After(iem, prefix).view, va, i)
    ensures After(iem, prefix + rest).insts >= After(iem, prefix).insts && !Exposed(After(iem, prefix + rest).view, i)
  {
    hide Translate, Apply, PageTableLog.Valid, Exposed, After, Ahead;
    if rest == [] {
      assert prefix + rest == prefix;
    } else {
      var shorter, rec := prefix + rest[..|rest| - 1], rest[|rest| - 1];
      assert prefix + rest == shorter + [rec];
      ReadOneMore(iem, shorter, rec);
      UnexposedAnswerStays(iem, prefix, rest[..|rest| - 1], va, i);
      var before := After(iem, shorter);
      var event := EventOf(rec, if rec.Opcode? then before.insts + 1 else before.insts);
      if !before.failed && event.Some? {
        if i < event.value.index {
          LaterEventChangesNothing(before.view, event.value, va, i);
          LaterEventKeepsExposure(before.view, event.value, i);
        } else {
          SatpAtIndexKeeps(before.view, event.value, va, i);
        }
      }
    }
  }

  lemma SatpAtIndexKeeps(v: View, e: Event, va: nat, i: nat)
    requires PageTableLog.Valid(v) && !Exposed(v, i) && e.SatpWrite? && e.index == i
    ensures Translate(Apply(v, e).0, va, i) == Translate(v, va, i) && !Exposed(Apply(v, e).0, i)
  {
    hide Translate, Exposed;
    TakenIndexKeepsAnswer(v, e.value, va, i);
  }

  lemma ZeroSatp(iem: IEM)
    ensures DecodeSatp(iem, 0) == Some(Satp(0, NO_TRANSLATION))
  {
  }

  lemma ZeroAtIndex(v: View, i: nat, va: nat)
    requires PageTableLog.Valid(v) && Exposed(v, i)
    ensures Translate(ApplySatp(v, i, 0).0, va, i) == Translated(va)
  {
    hide DecodeSatp, UpperBound, Sorted, WellFormed, Insert, TryEmplace;
    ZeroSatp(v.iem);
    TryEmplaceFloor(v.satps, i, 0, i);
  }

  // The same index, two different SATP values, two different answers.
  lemma TwoSatpsTwoAnswers(v: View, i: nat, va: nat, unused: nat)
    requires PageTableLog.Valid(v) && Exposed(v, i)
    requires unused !in v.tables && DecodeSatp(v.iem, unused).Some?
    requires !DecodeSatp(v.iem, unused).value.mode.NO_TRANSLATION?
    ensures Translate(ApplySatp(v, i, 0).0, va, i) == Translated(va)
    ensures Translate(ApplySatp(v, i, unused).0, va, i) == Fault
  {
    hide DecodeSatp, UpperBound, Sorted, WellFormed, Insert, TryEmplace, EntryAddr, LeafAddress;
    ZeroAtIndex(v, i, va);
    TryEmplaceFloor(v.satps, i, unused, i);
    var satp := DecodeSatp(v.iem, unused).value;
    assert NumVpns(satp.mode) >= 1;
    assert WalkFrom(satp.mode, map[], satp.baseAddr, va, i, NumVpns(satp.mode) - 1) == Fault;
  }

  /**
   * The guard lets a request through at the last published index itself.  When that is also the
   * number of instructions read, the answer is final for every way the trace may go on exactly
   * when no SATP value can still be written at it.
   */
  lemma FinalAtLastIndexExactly(iem: IEM, prefix: seq<Rec>, va: nat, i: nat, unused: nat)
    requires Ahead(iem, prefix) && Accepted(iem, prefix) && i == After(iem, prefix).insts >= 1
    requires unused !in After(iem, prefix).view.tables && DecodeSatp(iem, unused).Some?
    requires !DecodeSatp(iem, unused).value.mode.NO_TRANSLATION?
    ensures (forall rest :: Ahead(iem, prefix + rest) && Accepted(iem, prefix + rest) ==>
               Translate(After(iem, prefix + rest).view, va, i) == Translate(After(iem, prefix).view, va, i)) <==>
            !Exposed(After(iem, prefix).view, i)
  {
    hide Translate, Exposed, PageTableLog.Valid, DecodeSatp, ApplySatp, Ahead;
    var s := After(iem, prefix);
    if Exposed(s.view, i) {
      AfterIem(iem, prefix);
      ZeroSatp(iem);
      TwoSatpsTwoAnswers(s.view, i, va, unused);
      ReadOneSatp(iem, prefix, 0);
      ReadOneSatp(iem, prefix, unused);
    } else {
      forall rest | Ahead(iem, prefix + rest) && Accepted(iem, prefix + rest)
        ensures Translate(After(iem, prefix + rest).view, va, i) == Translate(s.view, va, i)
      {
        UnexposedAnswerStays(iem, prefix, rest, va, i);
      }
    }
  }

  lemma {:induction false} AfterIem(iem: IEM, recs: seq<Rec>)
    ensures After(iem, recs).view.iem == iem
  {
    hide PageTableLog.Valid, DecodeSatp, TryEmplace, Assign, PutPtes, Floor;
    if recs != [] {
      AfterIem(iem, recs[..|recs| - 1]);
    }
  }

  lemma ReadOneSatp(iem: IEM, prefix: seq<Rec>, value: nat)
    requires Ahead(iem, prefix) && Accepted(iem, prefix) && DecodeSatp(iem, value).Some?
    ensures Ahead(iem, prefix + [SatpReg(STATE, value)]) && Accepted(iem, prefix + [SatpReg(STATE, value)])
    ensures After(iem, prefix + [SatpReg(STATE, value)]).view ==
            ApplySatp(After(iem, prefix).view, After(iem, prefix).insts, value).0
  {
    hide PageTableLog.Valid, DecodeSatp, TryEmplace, After, Ahead, Sorted, WellFormed;
    AfterIem(iem, prefix);
    ReadOneMore(iem, prefix, SatpReg(STATE, value));
  }

  // A trace on which the guard lets a request through too early: the walk record publishes index 1,
  // and then a SATP state record takes effect at that very index.
  function TooEarly(value: nat): seq<Rec> {
    [ModeEvent(USER_MODE), SatpReg(STATE, value), Opcode, WalkRec(2, []), SatpReg(STATE, 0)]
  }

  lemma UserModeFromStart(iem: IEM)
    ensures ApplyMode(Initial(iem), 0, USER_MODE) == View(iem, [Entry(0, USER_MODE)], [], map[])
  {
  }

  // Below machine mode from the start, with one SATP value written at index 0.
  function OneSatp(iem: IEM, value: nat): (v: View)
    requires DecodeSatp(iem, value).Some?
    ensures PageTableLog.Valid(v)
  {
    View(iem, [Entry(0, USER_MODE)], [Entry(0, value)], map[value := map[]])
  }

  lemma FirstSatp(iem: IEM, value: nat)
    requires DecodeSatp(iem, value).Some?
    ensures ApplySatp(View(iem, [Entry(0, USER_MODE)], [], map[]), 0, value) == (OneSatp(iem, value), true)
  {
    hide DecodeSatp;
    var none: map<nat, Pages> := map[];
    assert none[value := map[]] == map[value := map[]];
    assert TryEmplace([], 0, value) == [Entry(0, value)];
  }

  lemma EmptyWalk(iem: IEM, value: nat)
    requires DecodeSatp(iem, value).Some? && !DecodeSatp(iem, value).value.mode.NO_TRANSLATION?
    ensures ApplyWalk(OneSatp(iem, value), 2, []) == (OneSatp(iem, value), true)
  {
    hide DecodeSatp;
    var v := OneSatp(iem, value);
    assert Floor(v.satps, 2) == Some(Entry(0, value));
    assert v.tables[value := v.tables[value]] == v.tables;
  }

  lemma OneSatpFaults(iem: IEM, value: nat, va: nat)
    requires DecodeSatp(iem, value).Some? && !DecodeSatp(iem, value).value.mode.NO_TRANSLATION?
    ensures Translate(OneSatp(iem, value), va, 1) == Fault && Exposed(OneSatp(iem, value), 1)
  {
    hide DecodeSatp, EntryAddr, LeafAddress;
    assert NumVpns(DecodeSatp(iem, value).value.mode) >= 1;
  }

  lemma ReadingTooEarly(iem: IEM, value: nat)
    requires DecodeSatp(iem, value).Some? && !DecodeSatp(iem, value).value.mode.NO_TRANSLATION?
    ensures Ahead(iem, TooEarly(value)[..4])
    ensures After(iem, TooEarly(value)[..4]) == State(1, OneSatp(iem, value), 1, false)
  {
    hide DecodeSatp, ApplyMode, ApplySatp, ApplyWalk, Initial, OneSatp, PageTableLog.Valid;
    var t := TooEarly(value);
    assert t[..1] == [] + [t[0]] && t[..2] == t[..1] + [t[1]] && t[..3] == t[..2] + [t[2]] && t[..4] == t[..3] + [t[3]];
    UserModeFromStart(iem);
    ReadOneMore(iem, [], t[0]);
    FirstSatp(iem, value);
    ReadOneMore(iem, t[..1], t[1]);
    ReadOneMore(iem, t[..2], t[2]);
    EmptyWalk(iem, value);
    ReadOneMore(iem, t[..3], t[3]);
  }

  lemma AnswerAtPublishedIndexCanChange(iem: IEM, value: nat, va: nat)
    requires DecodeSatp(iem, value).Some? && !DecodeSatp(iem, value).value.mode.NO_TRANSLATION?
    ensures Ahead(iem, TooEarly(value)) && Accepted(iem, TooEarly(value))
    ensures MayAnswer(iem, TooEarly(value), Progress(4, false), 1)
    ensures Translate(After(iem, TooEarly(value)[..4]).view, va, 1) == Fault
    ensures Translate(After(iem, TooEarly(value)).view, va, 1) == Translated(va)
  {
    hide DecodeSatp, After, ApplySatp, Translate, OneSatp, PageTableLog.Valid, Ahead;
    var t := TooEarly(value);
    assert t == t[..4] + [t[4]];
    ReadingTooEarly(iem, value);
    OneSatpFaults(iem, value, va);
    ZeroSatp(iem);
    ReadOneSatp(iem, t[..4], 0);
    ZeroAtIndex(OneSatp(iem, value), 1, va);
    AfterIem(iem, t[..4]);
  }

  // ---------------------------------------------------------------- the reader as an object

  class TranslationReader {
    const iem: IEM
    const trace: seq<Rec>
    const pageTable: PageTableImpl
    var lastValidInsts: nat
    var insts: nat
    var read: nat
    var doneReading: bool
    var failed: bool

    ghost function Footprint(): set<object>
      reads this, pageTable
    {
      {this, pageTable} + pageTable.Tables()
    }

    ghost predicate Valid()
      reads this, pageTable, pageTable.Tables()
    {
      && pageTable.iem == iem && pageTable.Valid()
      && (this as object) !in pageTable.Tables() && (pageTable as object) !in pageTable.Tables()
      && read <= |trace| && (doneReading ==> read == |trace|)
      && After(iem, trace[..read]) == State(insts, pageTable.View(), lastValidInsts, failed)
    }

    ghost function Shared(): Progress
      reads this
    {
      Progress(read, doneReading)
    }

    constructor (iem: IEM, trace: seq<Rec>)
      ensures Valid() && this.iem == iem && this.trace == trace && Shared() == Progress(0, false)
    {
      var table := new PageTableImpl(iem);
      this.iem, this.trace, pageTable := iem, trace, table;
      lastValidInsts, insts, read, doneReading, failed := 0, 0, 0, false, false;
      assert trace[..0] == [];
    }

    /** One turn of the reader thread: the next record under the lock, or the end of the trace. */
    method ReaderStep()
      requires Valid()
      modifies Footprint()
      ensures Valid() && Shared() == StepProgress(trace, old(Shared()), Read)
    {
      hide Apply, PageTableLog.Valid, After, PageTableImpl.Valid, PageTableImpl.View;
      if read == |trace| {
        doneReading := true;
        return;
      }
      var rec := trace[read];
      assert trace[..read + 1] == trace[..read] + [rec];
      ReadOneMore(iem, trace[..read], rec);
      read := read + 1;
      if !failed {
        insts := insts + (if rec.Opcode? then 1 else 0);
        var event := EventOf(rec, insts);
        var ok := true;
        if event.Some? {
          ok := ApplyEvent(event.value);
        }
        if ok && Publishes(rec, insts) {
          lastValidInsts := insts;
        }
        failed := !ok;
      }
    }

    // Hands an event to the page table.
    method ApplyEvent(e: Event) returns (ok: bool)
      requires pageTable.Valid() && (this as object) !in pageTable.Tables()
      requires (pageTable as object) !in pageTable.Tables()
      modifies pageTable, pageTable.Tables()
      ensures pageTable.Valid() && (pageTable.View(), ok) == Apply(old(pageTable.View()), e)
      ensures (this as object) !in pageTable.Tables() && (pageTable as object) !in pageTable.Tables()
    {
      hide ApplyWalk, ApplySatp, ApplyMode, PageTableLog.Valid;
      match e {
        case Walk(index, ptes) => ok := pageTable.Update(index, ptes);
        case SatpWrite(index, value) => ok := pageTable.UpdateSatp(value, index);
        case ModeChange(index, mode) => pageTable.UpdateMode(mode, index); ok := true;
      }
    }

    /** A request of the other thread; none while it has to wait. */
    method Translate(va: nat, index: nat) returns (r: Option<Outcome>)
      requires Valid()
      ensures r.Some? <==> MayAnswer(iem, trace, Shared(), index)
      ensures r.Some? ==> r.value == PageTableLog.Translate(After(iem, trace[..read]).view, va, index)
    {
      hide PageTableLog.Translate, After, PageTableLog.Valid;
      if !doneReading && index > lastValidInsts {
        return None;
      }
      var outcome := pageTable.Translate(va, index);
      return Some(outcome);
    }
  }
}
