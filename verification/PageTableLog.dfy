/**
 * The versioned page table as a value: what each event of a trace does to it, the answer it gives
 * for an address at an instruction index, and the reference it must meet, a replay of the log.
 */
module PageTableLog {
  import opened Bits
  import opened FlatMaps
  import opened PageWalk

  datatype IEM = RV32 | RV64

  datatype Mode = USER_MODE | SUPERVISOR_MODE | HYPERVISOR_MODE | MACHINE_MODE

  datatype Satp = Satp(baseAddr: nat, mode: VAMode)

  // One entry of a page table walk record: where the entry lives and its raw value.
  datatype Pte = Pte(pa: nat, raw: nat)

  datatype Event =
    | Walk(index: nat, ptes: seq<Pte>)
    | SatpWrite(index: nat, value: nat)
    | ModeChange(index: nat, mode: Mode)

  /** Decodes a SATP register value; none when its mode field is not a known mode. */
  function DecodeSatp(iem: IEM, value: nat): (s: Option<Satp>) {
    match iem
    case RV32 =>
      var mode := if And(Shr(value, 31), Pow2(1) - 1) != 0 then SV32 else NO_TRANSLATION;
      Some(Satp(And(value, Pow2(22) - 1) * PAGE_SIZE, mode))
    case RV64 =>
      var base := And(value, Pow2(44) - 1) * PAGE_SIZE;
      match And(Shr(value, 60), Pow2(4) - 1)
      case 0 => Some(Satp(base, NO_TRANSLATION))
      case 8 => Some(Satp(base, SV39))
      case 9 => Some(Satp(base, SV48))
      case 10 => Some(Satp(base, SV57))
      case _ => None
  }

  lemma SatpBaseBound(iem: IEM, value: nat)
    ensures DecodeSatp(iem, value).Some? ==> DecodeSatp(iem, value).value.baseAddr < Pow2(56)
  {
    hide And, Pow2;
    SmallPowers();
    Pow2Add(12, 44);
    Pow2Add(12, 22);
    Pow2Add(34, 22);
    MultipleIsFar(Pow2(34), Pow2(22));
  }

  /**
   * The fields of the register: on RV64 the mode is in the upper four bits, of which 8 stands for 39
   * bits of virtual address and each further one for nine more; on RV32 the upper bit turns Sv32 on.
   * The rest is the page number of the root table, in 44 and 22 bits.
   */
  lemma SatpMeaning(iem: IEM, value: nat)
    ensures iem.RV64? ==>
              var mode, s := value / Pow2(60) % 16, DecodeSatp(iem, value);
              && (s.Some? <==> mode == 0 || 8 <= mode <= 10)
              && (s.Some? ==>
                    && s.value.baseAddr == value % Pow2(44) * 4096
                    && (s.value.mode.NO_TRANSLATION? <==> mode == 0)
                    && (mode > 0 ==> !s.value.mode.SV32? && VirtAddrSize(s.value.mode) == 39 + 9 * (mode - 8)))
    ensures iem.RV32? ==>
              DecodeSatp(iem, value) == Some(Satp(value % Pow2(22) * 4096,
                                                  if value / Pow2(31) % 2 == 1 then SV32 else NO_TRANSLATION))
  {
    hide And, Pow2;
    AndLowMask(Shr(value, 31), 1);
    AndLowMask(value, 22);
    AndLowMask(Shr(value, 60), 4);
    AndLowMask(value, 44);
    OneAndFourBits();
  }

  lemma OneAndFourBits()
    ensures Pow2(1) == 2 && Pow2(4) == 16
  {
    assert Pow2(2) == 4;
  }

  // ---------------------------------------------------------------- one table

  ghost predicate WellFormed(pages: Pages) {
    forall pa :: pa in pages ==> Sorted(pages[pa]) && pages[pa] != []
  }

  /**
   * Records a new version of an entry unless it equals the version valid at that index; none is
   * the failed assertion of a second, different value at one index, or of an entry none of whose
   * versions is that old.
   */
  function PutPte(pages: Pages, m: VAMode, index: nat, pte: Pte): (r: Option<Pages>)
    requires WellFormed(pages)
    ensures r.Some? ==> WellFormed(r.value)
  {
    var entry := Decode(m, pte.raw);
    if pte.pa !in pages then Some(pages[pte.pa := [Entry(index, entry)]])
    else
      match Floor(pages[pte.pa], index)
      case None => None
      case Some(current) =>
        if current.value == entry then Some(pages)
        else if current.key == index then None
        else Some(pages[pte.pa := Insert(pages[pte.pa], index, entry)])
  }

  /** Records the entries of a walk in order, up to the first failure. */
  function PutPtes(pages: Pages, m: VAMode, index: nat, ptes: seq<Pte>): (r: (Pages, bool))
    requires WellFormed(pages)
    ensures WellFormed(r.0)
    decreases |ptes|
  {
    if ptes == [] then (pages, true)
    else
      match PutPte(pages, m, index, ptes[0])
      case None => (pages, false)
      case Some(next) => PutPtes(next, m, index, ptes[1..])
  }

  function TableTranslate(satp: Satp, pages: Pages, va: nat, index: nat): Outcome {
    if satp.mode.NO_TRANSLATION? then Translated(va)
    else WalkFrom(satp.mode, pages, satp.baseAddr, va, index, NumVpns(satp.mode) - 1)
  }

  // ---------------------------------------------------------------- the whole page table

  datatype View = View(iem: IEM, modes: seq<Entry<Mode>>, satps: seq<Entry<nat>>, tables: map<nat, Pages>)

  // A trace that says nothing about the mode starts in machine mode.
  function Initial(iem: IEM): (v: View)
    ensures Valid(v)
  {
    View(iem, [Entry(0, MACHINE_MODE)], [], map[])
  }

  ghost predicate Valid(v: View) {
    && Sorted(v.modes) && Sorted(v.satps)
    && (forall e :: e in v.satps ==> e.value in v.tables)
    && (forall s :: s in v.tables ==> WellFormed(v.tables[s]) && DecodeSatp(v.iem, s).Some?)
  }

  function ApplyWalk(v: View, index: nat, ptes: seq<Pte>): (r: (View, bool))
    requires Valid(v)
    ensures Valid(r.0)
  {
    match Floor(v.satps, index)
    case None => (v, false)
    case Some(e) =>
      var mode := DecodeSatp(v.iem, e.value).value.mode;
      if mode.NO_TRANSLATION? then (v, false)
      else
        var put := PutPtes(v.tables[e.value], mode, index, ptes);
        (v.(tables := v.tables[e.value := put.0]), put.1)
  }

  lemma EmplacedMembers(m: seq<Entry<nat>>, key: nat, v: nat)
    requires Sorted(m)
    ensures forall e :: e in TryEmplace(m, key, v) ==> e in m || e == Entry(key, v)
  {
    hide UpperBound;
  }

  /** The first value written at an index stays; an unknown value gets an empty table. */
  function ApplySatp(v: View, index: nat, value: nat): (r: (View, bool))
    requires Valid(v)
    ensures Valid(r.0)
  {
    if value !in v.tables && DecodeSatp(v.iem, value).None? then (v, false)
    else
      EmplacedMembers(v.satps, index, value);
      (v.(tables := if value in v.tables then v.tables else v.tables[value := map[]],
          satps := TryEmplace(v.satps, index, value)), true)
  }

  /** The last mode written at an index stays. */
  function ApplyMode(v: View, index: nat, mode: Mode): (r: View)
    requires Valid(v)
    ensures Valid(r)
  {
    v.(modes := Assign(v.modes, index, mode))
  }

  function Apply(v: View, e: Event): (r: (View, bool))
    requires Valid(v)
    ensures Valid(r.0)
  {
    match e
    case Walk(index, ptes) => ApplyWalk(v, index, ptes)
    case SatpWrite(index, value) => ApplySatp(v, index, value)
    case ModeChange(index, mode) => (ApplyMode(v, index, mode), true)
  }

  function Translate(v: View, va: nat, index: nat): Outcome
    requires Valid(v)
  {
    match Floor(v.modes, index)
    case None => NoMode
    case Some(mode) =>
      if mode.value.MACHINE_MODE? then Translated(va)
      else
        match Floor(v.satps, index)
        case None => Fault
        case Some(e) => TableTranslate(DecodeSatp(v.iem, e.value).value, v.tables[e.value], va, index)
  }

  /** The table after a log whose every event was accepted. */
  function Run(iem: IEM, log: seq<Event>): (r: Option<View>)
    ensures r.Some? ==> Valid(r.value) && r.value.iem == iem
  {
    if log == [] then Some(Initial(iem))
    else
      match Run(iem, log[..|log| - 1])
      case None => None
      case Some(v) =>
        var next := Apply(v, log[|log| - 1]);
        if next.1 then Some(next.0) else None
  }

  // ---------------------------------------------------------------- the reference: replay the log

  // One entry of a walk record, with the index from which it is valid.
  datatype Write = Write(index: nat, pte: Pte)

  function Writes(index: nat, ptes: seq<Pte>): (ws: seq<Write>) {
    seq(|ptes|, k requires 0 <= k < |ptes| => Write(index, ptes[k]))
  }

  /** The mode in force at an index: greatest index not above it, last arrival among equals. */
  function ModeAt(log: seq<Event>, i: nat): Entry<Mode> {
    if log == [] then Entry(0, MACHINE_MODE)
    else
      var before := ModeAt(log[..|log| - 1], i);
      match log[|log| - 1]
      case ModeChange(index, mode) => if before.key <= index <= i then Entry(index, mode) else before
      case _ => before
  }

  /** The SATP value in force at an index: greatest index not above it, first arrival among equals. */
  function SatpAt(log: seq<Event>, i: nat): Option<Entry<nat>> {
    if log == [] then None
    else
      var before := SatpAt(log[..|log| - 1], i);
      match log[|log| - 1]
      case SatpWrite(index, value) =>
        if index <= i && (before.None? || before.value.key < index) then Some(Entry(index, value)) else before
      case _ => before
  }

  /** The writes routed to a SATP value: those of each walk whose index had that value on arrival. */
  function Routed(log: seq<Event>, satp: nat): seq<Write> {
    if log == [] then []
    else
      var prefix := log[..|log| - 1];
      match log[|log| - 1]
      case Walk(index, ptes) =>
        var e := SatpAt(prefix, index);
        if e.Some? && e.value.value == satp then Routed(prefix, satp) + Writes(index, ptes) else Routed(prefix, satp)
      case _ => Routed(prefix, satp)
  }

  /** Memory after replaying, in arrival order, every write valid at the index. */
  function Replay(ws: seq<Write>, i: nat): map<nat, nat> {
    if ws == [] then map[]
    else
      var mem, last := Replay(ws[..|ws| - 1], i), ws[|ws| - 1];
      if last.index <= i then mem[last.pte.pa := last.pte.raw] else mem
  }

  // Updates of one entry arrive in non-decreasing index order.
  ghost predicate InOrder(ws: seq<Write>) {
    forall a, b :: 0 <= a < b < |ws| && ws[a].pte.pa == ws[b].pte.pa ==> ws[a].index <= ws[b].index
  }

  /** The walk over the replay of the writes routed to a SATP value. */
  function SpecWalk(satp: Satp, ws: seq<Write>, va: nat, i: nat): Outcome {
    if satp.mode.NO_TRANSLATION? then Translated(va)
    else
      match FindLeaf(satp.mode, Replay(ws, i), satp.baseAddr, va, NumVpns(satp.mode) - 1)
      case None => Fault
      case Some(leaf) =>
        Translated(LeafAddress(Ppn(satp.mode, leaf.raw) * PAGE_SIZE, va, Shift(satp.mode, leaf.level)))
  }

  /** The answer the log calls for. */
  function SpecTranslate(iem: IEM, log: seq<Event>, va: nat, i: nat): Outcome {
    if ModeAt(log, i).value.MACHINE_MODE? then Translated(va)
    else
      match SatpAt(log, i)
      case None => Fault
      case Some(e) =>
        match DecodeSatp(iem, e.value)
        case None => Fault
        case Some(satp) => SpecWalk(satp, Routed(log, e.value), va, i)
  }
}
