/**
 * The radix walk over versioned page table entries, and the walk of section 4.3.2 of the RISC-V
 * Privileged Architecture (version 20211203) over plain memory.
 */
module PageWalk {
  import opened Bits
  import opened FlatMaps

  datatype VAMode = SV32 | SV39 | SV48 | SV57 | NO_TRANSLATION

  const PAGE_OFFSET_SIZE: nat := 12

  function PhysAddrSize(m: VAMode): nat { if m.SV32? then 34 else 56 }

  function VirtAddrSize(m: VAMode): nat {
    match m
    case SV32 => 32
    case SV39 => 39
    case SV48 => 48
    case _ => 57
  }

  function VpnSize(m: VAMode): nat { if m.SV32? then 10 else 9 }

  function PteShift(m: VAMode): nat { if m.SV32? then 2 else 3 }

  function NumVpns(m: VAMode): nat { (VirtAddrSize(m) - PAGE_OFFSET_SIZE) / VpnSize(m) }

  function Shift(m: VAMode, level: nat): nat { level * VpnSize(m) }

  // A decoded page table entry.
  datatype PTE = PTE(physAddr: nat, isLeaf: bool)

  // Versions of each entry, by the entry's physical address and then by instruction index.
  type Pages = map<nat, seq<Entry<PTE>>>

  // NoMode is the failed assertion of a table that has forgotten every execution mode.
  datatype Outcome = Translated(pa: int) | Fault | NoMode

  /** The address part of an entry, in 64-bit shifts and masks. */
  function GetAddr(m: VAMode, raw: nat): nat {
    And(Shr(raw, 10) * Pow2(PAGE_OFFSET_SIZE) % U64, Pow2(PhysAddrSize(m)) - 1)
  }

  function GetLeaf(raw: nat): bool { And(raw, 0xA) != 0 }

  function Decode(m: VAMode, raw: nat): PTE { PTE(GetAddr(m, raw), GetLeaf(raw)) }

  /** The index into the table of one level, in shifts and masks. */
  function VpnField(m: VAMode, va: nat, shift: nat): nat {
    And(Shr(Shr(And(va, Pow2(VirtAddrSize(m)) - 1), PAGE_OFFSET_SIZE), shift), Pow2(VpnSize(m)) - 1)
  }

  function Lookup(pages: Pages, addr: nat, index: nat): Option<PTE> {
    if addr !in pages then None
    else
      match Floor(pages[addr], index)
      case None => None
      case Some(e) => Some(e.value)
  }

  function EntryAddr(m: VAMode, base: nat, va: nat, shift: nat): nat {
    (base + VpnField(m, va, shift) * Pow2(PteShift(m))) % U64
  }

  // What the walk returns when it stops at a leaf.
  function LeafAddress(physAddr: nat, va: nat, shift: nat): nat {
    Or(physAddr, And(va, Pow2(shift + PAGE_OFFSET_SIZE) - 1))
  }

  /** The rest of the walk from one level on; a negative level means that no leaf was reached. */
  function WalkFrom(m: VAMode, pages: Pages, base: nat, va: nat, index: nat, level: int): Outcome
    decreases level + 1
  {
    if level < 0 then Fault
    else
      var shift := Shift(m, level);
      match Lookup(pages, EntryAddr(m, base, va, shift), index)
      case None => Fault
      case Some(pte) =>
        if pte.isLeaf then Translated(LeafAddress(pte.physAddr, va, shift))
        else WalkFrom(m, pages, pte.physAddr, va, index, level - 1)
  }

  // ---------------------------------------------------------------- the architecture's own terms

  function Ppn(m: VAMode, raw: nat): nat { raw / Pow2(10) % Pow2(PhysAddrSize(m) - PAGE_OFFSET_SIZE) }

  // Bit 1 is R and bit 3 is X: an entry with either is a leaf.
  predicate ReadOrExecute(raw: nat) { raw / 2 % 2 == 1 || raw / 8 % 2 == 1 }

  function Vpn(m: VAMode, va: nat, level: nat): nat {
    Shr(va, PAGE_OFFSET_SIZE + Shift(m, level)) % Pow2(VpnSize(m))
  }

  const PAGE_SIZE: nat := 4096

  function PteSize(m: VAMode): nat { if m.SV32? then 4 else 8 }

  datatype Leaf = Leaf(raw: nat, level: nat)

  /** The library's own search over a memory of raw entries: the first with R or X, valid or not. */
  function FindLeaf(m: VAMode, mem: map<nat, nat>, a: nat, va: nat, level: int): Option<Leaf>
    decreases level + 1
  {
    if level < 0 then None
    else
      var addr := a + Vpn(m, va, level) * PteSize(m);
      if addr !in mem then None
      else if ReadOrExecute(mem[addr]) then Some(Leaf(mem[addr], level))
      else FindLeaf(m, mem, Ppn(m, mem[addr]) * PAGE_SIZE, va, level - 1)
  }

  /** Step 6: a superpage whose low page-number fields are not zero. */
  predicate Misaligned(m: VAMode, leaf: Leaf) {
    Ppn(m, leaf.raw) % Pow2(Shift(m, leaf.level)) != 0
  }

  // The fields of x from d up, and those of y below.
  function ReplaceLow(x: nat, y: nat, d: nat): int
    requires d > 0
  {
    x / d * d + y % d
  }

  /** Step 8: page offset and low fields from the virtual address, the others from the entry. */
  function ArchAddress(m: VAMode, leaf: Leaf, va: nat): int {
    var low := Pow2(Shift(m, leaf.level));
    ReplaceLow(Ppn(m, leaf.raw), va / PAGE_SIZE, low) * PAGE_SIZE + va % PAGE_SIZE
  }

  // Encodings reserved for future standard use, on a hart without the Svnapot and Svpbmt extensions:
  // bits 54 and up outside Sv32, and U, A or D in a pointer to the next level.
  predicate Reserved(m: VAMode, raw: nat) {
    || (!m.SV32? && raw / Pow2(54) != 0)
    || (!ReadOrExecute(raw) && (raw / 16 % 2 == 1 || raw / 64 % 2 == 1 || raw / 128 % 2 == 1))
  }

  /** Step 3: bit 0 is V, and writable without readable (bits 2 and 1) is reserved. */
  predicate Invalid(m: VAMode, raw: nat) {
    raw % 2 == 0 || (raw / 2 % 2 == 0 && raw / 4 % 2 == 1) || Reserved(m, raw)
  }

  /** Steps 2, 3, 4, 6 and 8, from one level on; an entry that memory does not hold is a fault. */
  function ArchWalk(m: VAMode, mem: map<nat, nat>, a: nat, va: nat, level: int): Outcome
    decreases level + 1
  {
    if level < 0 then Fault
    else
      var addr := a + Vpn(m, va, level) * PteSize(m);
      if addr !in mem || Invalid(m, mem[addr]) then Fault
      else if !ReadOrExecute(mem[addr]) then ArchWalk(m, mem, Ppn(m, mem[addr]) * PAGE_SIZE, va, level - 1)
      else
        var leaf := Leaf(mem[addr], level);
        if Misaligned(m, leaf) then Fault else Translated(ArchAddress(m, leaf, va))
  }

  function ArchTranslate(m: VAMode, mem: map<nat, nat>, base: nat, va: nat): Outcome {
    ArchWalk(m, mem, base, va, NumVpns(m) - 1)
  }

  /** No entry that the library's search reads, down to the leaf it takes, is invalid. */
  predicate PathIsValid(m: VAMode, mem: map<nat, nat>, a: nat, va: nat, level: int)
    decreases level + 1
  {
    level >= 0 ==>
      var addr := a + Vpn(m, va, level) * PteSize(m);
      addr in mem ==>
        && !Invalid(m, mem[addr])
        && (ReadOrExecute(mem[addr]) || PathIsValid(m, mem, Ppn(m, mem[addr]) * PAGE_SIZE, va, level - 1))
  }

  // ---------------------------------------------------------------- one level

  lemma SmallPowers()
    ensures Pow2(10) == 1024 && Pow2(9) == 512 && Pow2(12) == 4096 && Pow2(2) == 4 && Pow2(3) == 8
  {
    assert Pow2(3) == 8;
    assert Pow2(6) == 64;
    assert Pow2(9) == 512;
  }

  lemma MaskedAddress(t: nat, p: nat)
    requires 12 <= p <= 64
    ensures And(t * Pow2(12) % U64, Pow2(p) - 1) == t % Pow2(p - 12) * Pow2(12)
  {
    hide And, Pow2;
    var x := t * Pow2(12);
    AndLowMask(x % U64, p);
    ModOfU64(p);
    Digits(x, Pow2(p), Pow2(64 - p));
    Pow2Add(12, p - 12);
    Digits(x, Pow2(12), Pow2(p - 12));
    DivModUnique(x, Pow2(12), t, 0);
  }

  lemma LeafBits(raw: nat)
    ensures GetLeaf(raw) == ReadOrExecute(raw)
  {
    assert And(raw, 10) == if raw == 0 then 0 else 2 * And(raw / 2, 5);
    assert And(raw / 2, 5) == if raw / 2 == 0 then 0 else raw / 2 % 2 + 2 * And(raw / 2 / 2, 2);
    assert And(raw / 2 / 2, 2) == if raw / 2 / 2 == 0 then 0 else 2 * And(raw / 2 / 2 / 2, 1);
    assert raw / 2 / 2 / 2 == raw / 8;
    AndLowMask(raw / 8, 1);
  }

  /** The decoded entry holds the architecture's page number and leaf test. */
  lemma DecodeMeaning(m: VAMode, raw: nat)
    ensures Decode(m, raw) == PTE(Ppn(m, raw) * PAGE_SIZE, ReadOrExecute(raw))
    ensures Decode(m, raw).physAddr < Pow2(56)
  {
    hide And, Pow2;
    LeafBits(raw);
    SmallPowers();
    MaskedAddress(raw / Pow2(10), PhysAddrSize(m));
    PpnBound(m, raw);
  }

  lemma PpnBound(m: VAMode, raw: nat)
    ensures Ppn(m, raw) * Pow2(12) < Pow2(56)
  {
    hide Pow2;
    Pow2Add(12, PhysAddrSize(m) - 12);
    Pow2Add(PhysAddrSize(m), 56 - PhysAddrSize(m));
    TwoDigits(Pow2(12), Pow2(PhysAddrSize(m) - 12), 0, Ppn(m, raw), 0);
    MultipleIsFar(Pow2(PhysAddrSize(m)), Pow2(56 - PhysAddrSize(m)));
  }

  lemma Levels(m: VAMode, level: nat)
    requires level < NumVpns(m)
    ensures PAGE_OFFSET_SIZE + Shift(m, level) + VpnSize(m) <= VirtAddrSize(m) <= 64
    ensures Pow2(PteShift(m)) == PteSize(m) && Pow2(VpnSize(m)) * PteSize(m) == PAGE_SIZE
  {
    SmallPowers();
    assert (level + 1) * VpnSize(m) <= NumVpns(m) * VpnSize(m);
  }

  /**
   * The levels and widths of each mode: page offset and page-number fields make up the virtual
   * address, and the entries of one table fill a page.
   */
  lemma Geometry(m: VAMode)
    requires !m.NO_TRANSLATION?
    ensures NumVpns(m) == match m { case SV32 => 2 case SV39 => 3 case SV48 => 4 case _ => 5 }
    ensures PAGE_OFFSET_SIZE + NumVpns(m) * VpnSize(m)
         == match m { case SV32 => 32 case SV39 => 39 case SV48 => 48 case _ => 57 }
    ensures Pow2(VpnSize(m)) * PteSize(m) == PAGE_SIZE == Pow2(PAGE_OFFSET_SIZE)
    ensures PteSize(m) == if m.SV32? then 4 else 8
    ensures PhysAddrSize(m) == if m.SV32? then 34 else 56
  {
    SmallPowers();
  }

  // Cutting a number to `top` bits does not change the v bits that start at bit k.
  lemma FieldOfCut(x: nat, k: nat, v: nat, top: nat)
    requires k + v <= top
    ensures Shr(x % Pow2(top), k) % Pow2(v) == Shr(x, k) % Pow2(v)
  {
    hide Pow2;
    Pow2Add(k, top - k);
    Digits(x, Pow2(k), Pow2(top - k));
    Pow2Add(v, top - k - v);
    Digits(Shr(x, k), Pow2(v), Pow2(top - k - v));
  }

  lemma ShrShr(x: nat, a: nat, b: nat)
    ensures Shr(Shr(x, a), b) == Shr(x, a + b)
  {
    hide Pow2;
    Pow2Add(a, b);
    Digits(x, Pow2(a), Pow2(b));
  }

  lemma FieldMeaning(va: nat, shift: nat, v: nat, top: nat)
    requires PAGE_OFFSET_SIZE + shift + v <= top
    ensures And(Shr(Shr(And(va, Pow2(top) - 1), PAGE_OFFSET_SIZE), shift), Pow2(v) - 1) ==
            Shr(va, PAGE_OFFSET_SIZE + shift) % Pow2(v)
  {
    hide And, Pow2, Shr;
    var low := And(va, Pow2(top) - 1);
    AndLowMask(va, top);
    ShrShr(low, PAGE_OFFSET_SIZE, shift);
    AndLowMask(Shr(low, PAGE_OFFSET_SIZE + shift), v);
    FieldOfCut(va, PAGE_OFFSET_SIZE + shift, v, top);
  }

  /** Shifting and masking extract the architecture's field of the level. */
  lemma VpnMeaning(m: VAMode, va: nat, level: nat)
    requires level < NumVpns(m)
    ensures VpnField(m, va, Shift(m, level)) == Vpn(m, va, level)
  {
    hide And, Pow2, Shr, Shift, VpnSize, VirtAddrSize, NumVpns, PteShift, PteSize;
    Levels(m, level);
    FieldMeaning(va, Shift(m, level), VpnSize(m), VirtAddrSize(m));
  }

  // Entry addresses never wrap.
  lemma EntryAddrMeaning(m: VAMode, base: nat, va: nat, level: nat)
    requires level < NumVpns(m) && base < Pow2(56)
    ensures EntryAddr(m, base, va, Shift(m, level)) == base + Vpn(m, va, level) * PteSize(m)
  {
    hide And, Pow2;
    VpnMeaning(m, va, level);
    Levels(m, level);
    assert Vpn(m, va, level) * PteSize(m) < PAGE_SIZE by {
      MultipleIsFar(PteSize(m), Pow2(VpnSize(m)) - Vpn(m, va, level));
    }
    Pow2Of64();
    assert Pow2(64) == Pow2(56) * 256 by {
      Pow2Add(56, 8);
      Pow2Of8();
    }
    SmallPowers();
    assert Pow2(56) >= 4096 by {
      Pow2Add(12, 44);
      MultipleIsFar(4096, Pow2(44));
    }
    DivModUnique(base + Vpn(m, va, level) * PteSize(m), U64, 0, base + Vpn(m, va, level) * PteSize(m));
  }

  // ---------------------------------------------------------------- the whole walk

  lemma AlignedPage(ppn: nat, low: nat)
    requires low > 0 && ppn % low == 0
    ensures PAGE_SIZE * low > 0 && ppn * PAGE_SIZE % (PAGE_SIZE * low) == 0
    ensures ppn / low * low == ppn
  {
    var q := ppn / low;
    assert ppn == low * q;
    TwoDigits(PAGE_SIZE, low, q, 0, 0);
    DivModUnique(ppn * PAGE_SIZE, PAGE_SIZE * low, q, 0);
  }

  lemma LowBits(va: nat, low: nat)
    requires low > 0
    ensures PAGE_SIZE * low > 0
    ensures va % (PAGE_SIZE * low) == va / PAGE_SIZE % low * PAGE_SIZE + va % PAGE_SIZE
  {
    Digits(va, PAGE_SIZE, low);
  }

  lemma OrIsJoin(ppn: nat, va: nat, shift: nat)
    requires ppn % Pow2(shift) == 0
    ensures Or(ppn * PAGE_SIZE, And(va, Pow2(shift + PAGE_OFFSET_SIZE) - 1)) ==
            ppn * PAGE_SIZE + va % (PAGE_SIZE * Pow2(shift))
  {
    hide And, Or, Pow2;
    SmallPowers();
    Pow2Add(12, shift);
    AndLowMask(va, shift + 12);
    AlignedPage(ppn, Pow2(shift));
    OrDisjoint(ppn * PAGE_SIZE, va % (PAGE_SIZE * Pow2(shift)), shift + 12);
  }

  lemma JoinIsReplace(ppn: nat, va: nat, low: nat)
    requires low > 0 && ppn % low == 0
    ensures PAGE_SIZE * low > 0
    ensures ppn * PAGE_SIZE + va % (PAGE_SIZE * low)
            == ReplaceLow(ppn, va / PAGE_SIZE, low) * PAGE_SIZE + va % PAGE_SIZE
  {
    AlignedPage(ppn, low);
    LowBits(va, low);
  }

  /** For an aligned leaf, "or" puts the virtual address below the level and the entry above it. */
  lemma AlignedLeaf(m: VAMode, leaf: Leaf, va: nat)
    requires !Misaligned(m, leaf)
    ensures LeafAddress(Ppn(m, leaf.raw) * PAGE_SIZE, va, Shift(m, leaf.level)) == ArchAddress(m, leaf, va)
  {
    hide And, Or, Pow2, Ppn, Shift, ReplaceLow;
    var ppn, low := Ppn(m, leaf.raw), Pow2(Shift(m, leaf.level));
    OrIsJoin(ppn, va, Shift(m, leaf.level));
    JoinIsReplace(ppn, va, low);
  }

  // The versions valid at an index, decoded from a memory of raw entries.
  ghost predicate Agree(m: VAMode, pages: Pages, mem: map<nat, nat>, index: nat) {
    forall addr :: Lookup(pages, addr, index) == if addr in mem then Some(Decode(m, mem[addr])) else None
  }

  /** The walk is the library's search over the memory that its table decodes. */
  lemma {:induction false} WalkRefines(m: VAMode, pages: Pages, mem: map<nat, nat>, base: nat, va: nat, index: nat,
                                       level: int)
    requires Agree(m, pages, mem, index) && base < Pow2(56) && level < NumVpns(m)
    ensures var leaf := FindLeaf(m, mem, base, va, level);
            WalkFrom(m, pages, base, va, index, level) ==
            if leaf.None? then Fault
            else Translated(LeafAddress(Ppn(m, leaf.value.raw) * PAGE_SIZE, va, Shift(m, leaf.value.level)))
    decreases level + 1
  {
    hide And, Or, Pow2, LeafAddress, EntryAddr, Decode, NumVpns, Vpn, PteSize, Ppn, Shift, Lookup, ReadOrExecute;
    if level >= 0 {
      EntryAddrMeaning(m, base, va, level);
      var addr := base + Vpn(m, va, level) * PteSize(m);
      if addr in mem {
        DecodeMeaning(m, mem[addr]);
        if !ReadOrExecute(mem[addr]) {
          WalkRefines(m, pages, mem, Ppn(m, mem[addr]) * PAGE_SIZE, va, index, level - 1);
        }
      }
    }
  }

  /** The architecture's walk takes the leaf that the library finds, or faults on the way. */
  lemma {:induction false} ArchTakesSameLeaf(m: VAMode, mem: map<nat, nat>, a: nat, va: nat, level: int)
    ensures var leaf := FindLeaf(m, mem, a, va, level);
            ArchWalk(m, mem, a, va, level) ==
            if leaf.None? || !PathIsValid(m, mem, a, va, level) || Misaligned(m, leaf.value) then Fault
            else Translated(ArchAddress(m, leaf.value, va))
    decreases level + 1
  {
    hide Pow2, Vpn, PteSize, Ppn, ReadOrExecute, Invalid, Misaligned, ArchAddress;
    if level >= 0 {
      var addr := a + Vpn(m, va, level) * PteSize(m);
      if addr in mem && !ReadOrExecute(mem[addr]) {
        ArchTakesSameLeaf(m, mem, Ppn(m, mem[addr]) * PAGE_SIZE, va, level - 1);
      }
    }
  }

  /**
   * The walk faults exactly when an entry it needs has no version at the index or no leaf is
   * reached.  Its answer is the architecture's exactly when it faults, or no entry on the way is
   * invalid and the leaf is naturally aligned: both are page faults there, and addresses here.
   */
  lemma WalkMeetsArchitecture(m: VAMode, pages: Pages, mem: map<nat, nat>, base: nat, va: nat, index: nat)
    requires Agree(m, pages, mem, index) && base < Pow2(56)
    ensures var top := NumVpns(m) - 1;
            var walk, leaf := WalkFrom(m, pages, base, va, index, top), FindLeaf(m, mem, base, va, top);
            && (walk.Fault? <==> leaf.None?)
            && (walk == ArchTranslate(m, mem, base, va) <==>
                (leaf.Some? ==> PathIsValid(m, mem, base, va, top) && !Misaligned(m, leaf.value)))
  {
    hide And, Or, Pow2, LeafAddress, ArchAddress, Misaligned, FindLeaf, WalkFrom, ArchWalk, PathIsValid;
    WalkRefines(m, pages, mem, base, va, index, NumVpns(m) - 1);
    ArchTakesSameLeaf(m, mem, base, va, NumVpns(m) - 1);
    var leaf := FindLeaf(m, mem, base, va, NumVpns(m) - 1);
    if leaf.Some? && !Misaligned(m, leaf.value) {
      AlignedLeaf(m, leaf.value, va);
    }
  }

  // ---------------------------------------------------------------- where the two part

  // One entry at address 0, which is the first that a walk from there for address 0 reads.
  lemma OneEntry(raw: nat)
    requires ReadOrExecute(raw)
    ensures Agree(SV39, map[0 := [Entry(0, Decode(SV39, raw))]], map[0 := raw], 0)
    ensures FindLeaf(SV39, map[0 := raw], 0, 0, 2) == Some(Leaf(raw, 2))
    ensures PathIsValid(SV39, map[0 := raw], 0, 0, 2) <==> !Invalid(SV39, raw)
    ensures NumVpns(SV39) == 3
  {
    hide And, Pow2, Invalid, ReadOrExecute, Decode;
    DivModUnique(0, Pow2(30), 0, 0);
    DivModUnique(0, Pow2(9), 0, 0);
    assert Vpn(SV39, 0, 2) == 0;
  }

  /** A readable top-level entry whose V bit is clear: the architecture faults, the walk does not. */
  lemma InvalidEntryTranslates()
    ensures var pages, mem := map[0 := [Entry(0, Decode(SV39, 2))]], map[0 := 2];
            && Agree(SV39, pages, mem, 0)
            && WalkFrom(SV39, pages, 0, 0, 0, 2).Translated?
            && ArchTranslate(SV39, mem, 0, 0) == Fault
  {
    hide And, Pow2, Decode, FindLeaf, WalkFrom, ArchWalk, PathIsValid, Agree;
    OneEntry(2);
    WalkRefines(SV39, map[0 := [Entry(0, Decode(SV39, 2))]], map[0 := 2], 0, 0, 0, 2);
    ArchTakesSameLeaf(SV39, map[0 := 2], 0, 0, 2);
  }

  /** A valid gigabyte page at page number 1: the architecture faults, the walk does not. */
  lemma MisalignedSuperpageTranslates()
    ensures var raw := 0x4CF;
            var pages, mem := map[0 := [Entry(0, Decode(SV39, raw))]], map[0 := raw];
            && Agree(SV39, pages, mem, 0) && !Invalid(SV39, raw)
            && WalkFrom(SV39, pages, 0, 0, 0, 2).Translated?
            && ArchTranslate(SV39, mem, 0, 0) == Fault
  {
    hide And, Pow2, Decode, FindLeaf, WalkFrom, ArchWalk, PathIsValid, Agree;
    var raw := 0x4CF;
    SmallPowers();
    BigPowers();
    DivModUnique(raw, Pow2(54), 0, raw);
    DivModUnique(1, Pow2(44), 0, 1);
    DivModUnique(1, Pow2(18), 0, 1);
    OneEntry(raw);
    WalkRefines(SV39, map[0 := [Entry(0, Decode(SV39, raw))]], map[0 := raw], 0, 0, 0, 2);
    ArchTakesSameLeaf(SV39, map[0 := raw], 0, 0, 2);
  }

  // Powers from 2^12 on exceed any twelve-bit number.
  lemma BigPowers()
    ensures Pow2(18) > 4095 && Pow2(44) > 4095 && Pow2(54) > 4095
  {
    hide Pow2;
    SmallPowers();
    Pow2Add(12, 6);
    Pow2Add(12, 32);
    Pow2Add(12, 42);
    MultipleIsFar(4096, Pow2(6));
    MultipleIsFar(4096, Pow2(32));
    MultipleIsFar(4096, Pow2(42));
  }
}
