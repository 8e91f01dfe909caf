/**
 * The page table as objects: one table per SATP value, updated in place, reached through the map
 * from instruction indices to the SATP value in force.
 */
module PageTable {
  import opened FlatMaps
  import opened PageWalk
  import opened PageTableLog

  class PageTableMap {
    // The SATP value this table was made for.
    ghost const satp: nat
    const mode: VAMode
    const satpBaseAddr: nat
    var physPages: Pages

    constructor (ghost satp: nat, mode: VAMode, satpBaseAddr: nat)
      ensures this.satp == satp && this.mode == mode && this.satpBaseAddr == satpBaseAddr && physPages == map[]
    {
      this.satp, this.mode, this.satpBaseAddr, physPages := satp, mode, satpBaseAddr, map[];
    }

    /** Records the entries of a walk; false is the failed assertion on an entry, or on a table
        that does not translate. */
    method Update(index: nat, ptes: seq<Pte>) returns (ok: bool)
      requires WellFormed(physPages)
      modifies this
      ensures mode.NO_TRANSLATION? ==> !ok && physPages == old(physPages)
      ensures !mode.NO_TRANSLATION? ==> (physPages, ok) == PutPtes(old(physPages), mode, index, ptes)
    {
      if mode.NO_TRANSLATION? {
        return false;
      }
      hide Decode, Floor, Insert;
      for i := 0 to |ptes|
        invariant WellFormed(physPages)
        invariant PutPtes(physPages, mode, index, ptes[i..]) == PutPtes(old(physPages), mode, index, ptes)
      {
        var pte := ptes[i];
        assert ptes[i..][0] == pte && ptes[i..][1..] == ptes[i + 1..];
        var put := PutPte(physPages, mode, index, pte);
        if put.None? {
          return false;
        }
        physPages := put.value;
      }
      return true;
    }

    /** The walk: one level per turn, from the top, until a leaf, a missing entry or no level. */
    method Translate(va: nat, index: nat) returns (r: Outcome)
      ensures r == TableTranslate(Satp(satpBaseAddr, mode), physPages, va, index)
    {
      hide Lookup, EntryAddr, LeafAddress, NumVpns, VpnSize, Shift, SignedShift, WalkFrom;
      if mode.NO_TRANSLATION? {
        return Translated(va);
      }
      var base := satpBaseAddr;
      ghost var level := NumVpns(mode) - 1;
      var shift := SignedShift(mode, NumVpns(mode) - 1);
      while shift >= 0
        invariant level >= -1 && shift == SignedShift(mode, level)
        invariant WalkFrom(mode, physPages, base, va, index, level) ==
                  WalkFrom(mode, physPages, satpBaseAddr, va, index, NumVpns(mode) - 1)
        decreases level + 1
      {
        LevelOfShift(mode, level);
        OneLevel(mode, physPages, base, va, index, level);
        var found := Lookup(physPages, EntryAddr(mode, base, va, shift), index);
        if found.None? {
          return Fault;
        }
        if found.value.isLeaf {
          return Translated(LeafAddress(found.value.physAddr, va, shift));
        }
        base := found.value.physAddr;
        shift := shift - VpnSize(mode);
        level := level - 1;
      }
      LevelOfShift(mode, level);
      OneLevel(mode, physPages, base, va, index, level);
      return Fault;
    }
  }

  lemma OneLevel(mode: VAMode, pages: Pages, base: nat, va: nat, index: nat, level: int)
    ensures WalkFrom(mode, pages, base, va, index, level) ==
            if level < 0 then Fault
            else
              match Lookup(pages, EntryAddr(mode, base, va, Shift(mode, level)), index)
              case None => Fault
              case Some(pte) =>
                if pte.isLeaf then Translated(LeafAddress(pte.physAddr, va, Shift(mode, level)))
                else WalkFrom(mode, pages, pte.physAddr, va, index, level - 1)
  {
    hide Lookup, EntryAddr, LeafAddress, Shift;
  }

  // The loop's shift, which goes below zero after the last level.
  function SignedShift(mode: VAMode, level: int): int { level * VpnSize(mode) }

  lemma LevelOfShift(mode: VAMode, level: int)
    requires level >= -1
    ensures SignedShift(mode, level) >= 0 <==> level >= 0
    ensures level >= 0 ==> SignedShift(mode, level) == Shift(mode, level)
    ensures SignedShift(mode, level) - VpnSize(mode) == SignedShift(mode, level - 1)
  {
  }

  // ---------------------------------------------------------------- indexed tables

  ghost function Satps(m: seq<Entry<PageTableMap>>): (r: seq<Entry<nat>>)
    ensures |r| == |m|
  {
    seq(|m|, k requires 0 <= k < |m| => Entry(m[k].key, m[k].value.satp))
  }

  lemma {:induction false} SatpsUpperBound(m: seq<Entry<PageTableMap>>, i: nat)
    ensures UpperBound(Satps(m), i) == UpperBound(m, i)
  {
    if m != [] && m[|m| - 1].key > i {
      SatpsUpperBound(m[..|m| - 1], i);
      assert Satps(m)[..|m| - 1] == Satps(m[..|m| - 1]);
    }
  }

  lemma SatpsFloor(m: seq<Entry<PageTableMap>>, i: nat)
    ensures Floor(m, i).None? <==> Floor(Satps(m), i).None?
    ensures Floor(m, i).Some? ==>
              Floor(Satps(m), i) == Some(Entry(Floor(m, i).value.key, Floor(m, i).value.value.satp))
    ensures Floor(m, i).Some? ==> Floor(m, i).value in m
  {
    SatpsUpperBound(m, i);
  }

  lemma SatpsInsertAt(m: seq<Entry<PageTableMap>>, n: nat, key: nat, t: PageTableMap)
    requires n <= |m|
    ensures Satps(m[..n] + [Entry(key, t)] + m[n..]) == Satps(m)[..n] + [Entry(key, t.satp)] + Satps(m)[n..]
  {
  }

  lemma SatpsTryEmplace(m: seq<Entry<PageTableMap>>, key: nat, t: PageTableMap)
    requires Sorted(m) && Sorted(Satps(m))
    ensures Satps(TryEmplace(m, key, t)) == TryEmplace(Satps(m), key, t.satp)
    ensures forall e :: e in TryEmplace(m, key, t) ==> e in m || e == Entry(key, t)
  {
    hide Satps, Floor, UpperBound, Sorted;
    SatpsUpperBound(m, key);
    SatpsFloor(m, key);
    SatpsInsertAt(m, UpperBound(m, key), key, t);
  }

  // An empty table for a SATP value with a known mode.
  lemma ValidWithTable(v: View, value: nat)
    requires PageTableLog.Valid(v) && DecodeSatp(v.iem, value).Some?
    ensures PageTableLog.Valid(v.(tables := v.tables[value := map[]]))
  {
    hide DecodeSatp;
  }

  class PageTableImpl {
    const iem: IEM
    var modes: seq<Entry<Mode>>
    var indexedSatpEntries: seq<Entry<PageTableMap>>
    var satpEntries: map<nat, PageTableMap>

    constructor (iem: IEM)
      ensures this.iem == iem && Valid() && View() == Initial(iem) && satpEntries == map[]
    {
      this.iem := iem;
      modes, indexedSatpEntries, satpEntries := [Entry(0, MACHINE_MODE)], [], map[];
    }

    ghost function Tables(): set<object>
      reads this
    {
      set s | s in satpEntries :: satpEntries[s]
    }

    /** The page table as a value. */
    ghost function View(): View
      reads this, Tables()
    {
      PageTableLog.View(iem, modes, Satps(indexedSatpEntries), map s | s in satpEntries :: satpEntries[s].physPages)
    }

    // Each SATP value has its own table, made for it, and the index map points at those tables.
    ghost predicate Valid()
      reads this, Tables()
    {
      && (forall s :: s in satpEntries ==> satpEntries[s].satp == s)
      && (forall s :: s in satpEntries ==>
            DecodeSatp(iem, s) == Some(Satp(satpEntries[s].satpBaseAddr, satpEntries[s].mode)))
      && (forall e :: e in indexedSatpEntries ==>
            e.value.satp in satpEntries && satpEntries[e.value.satp] == e.value)
      && Sorted(indexedSatpEntries)
      && PageTableLog.Valid(View())
    }

    method Update(index: nat, ptes: seq<Pte>) returns (ok: bool)
      requires Valid()
      modifies Tables()
      ensures Valid() && (View(), ok) == ApplyWalk(old(View()), index, ptes)
    {
      hide DecodeSatp, Floor, PutPtes, Satps, Sorted, WellFormed;
      ghost var before := View();
      SatpsFloor(indexedSatpEntries, index);
      var e := Floor(indexedSatpEntries, index);
      if e.None? {
        return false;
      }
      var table := e.value.value;
      assert before.tables[table.satp] == table.physPages;
      ok := table.Update(index, ptes);
      assert View().tables == before.tables[table.satp := table.physPages];
      assert before.tables[table.satp := before.tables[table.satp]] == before.tables;
    }

    // Gives an unknown SATP value an empty table of its own; throws when its mode is not known.
    method TryEmplaceTable(value: nat) returns (ok: bool)
      requires Valid()
      modifies this`satpEntries
      ensures Valid() && (ok <==> value in satpEntries)
      ensures (ok <==> value in old(satpEntries) || DecodeSatp(iem, value).Some?)
      ensures View() == old(View()).(tables := View().tables)
      ensures View().tables == if ok && value !in old(satpEntries) then old(View()).tables[value := map[]]
                               else old(View()).tables
      ensures forall t :: t in Tables() && t !in old(Tables()) ==> fresh(t)
    {
      hide DecodeSatp, PageTableImpl.Valid, PageTableImpl.View;
      ok := value in satpEntries;
      if !ok {
        var satp := DecodeSatp(iem, value);
        ok := satp.Some?;
        if ok {
          AddTable(value, satp.value);
        }
      }
    }

    method AddTable(value: nat, satp: Satp)
      requires Valid() && value !in satpEntries && DecodeSatp(iem, value) == Some(satp)
      modifies this`satpEntries
      ensures Valid() && value in satpEntries
      ensures View() == old(View()).(tables := old(View()).tables[value := map[]])
      ensures forall t :: t in Tables() && t !in old(Tables()) ==> fresh(t)
    {
      hide Floor, PutPtes, Sorted, WellFormed, DecodeSatp, Satps, PageTableLog.Valid;
      ValidWithTable(View(), value);
      var table := new PageTableMap(value, satp.mode, satp.baseAddr);
      satpEntries := satpEntries[value := table];
      assert View().tables == old(View()).tables[value := map[]];
    }

    method UpdateSatp(value: nat, index: nat) returns (ok: bool)
      requires Valid()
      modifies this`indexedSatpEntries, this`satpEntries
      ensures Valid() && (View(), ok) == ApplySatp(old(View()), index, value)
      ensures forall t :: t in Tables() && t !in old(Tables()) ==> fresh(t)
    {
      hide PageTableImpl.Valid, PageTableImpl.View, TryEmplace, DecodeSatp, PageTableLog.Valid;
      ViewTables();
      ok := TryEmplaceTable(value);
      if ok {
        IndexTable(value, index);
      }
    }

    lemma ViewTables()
      requires Valid()
      ensures PageTableLog.Valid(View()) && View().iem == iem
      ensures forall s :: s in satpEntries <==> s in View().tables
    {
      hide DecodeSatp, PageTableLog.Valid;
    }

    // Notes from which index on a table is in force.
    method IndexTable(value: nat, index: nat)
      requires Valid() && value in satpEntries
      modifies this`indexedSatpEntries
      ensures Valid() && View() == old(View()).(satps := TryEmplace(old(View()).satps, index, value))
    {
      hide Floor, PutPtes, Sorted, WellFormed, TryEmplace, DecodeSatp, Satps;
      ghost var tables := View().tables;
      EmplacedMembers(View().satps, index, value);
      SatpsTryEmplace(indexedSatpEntries, index, satpEntries[value]);
      indexedSatpEntries := TryEmplace(indexedSatpEntries, index, satpEntries[value]);
      assert View().tables == tables;
    }

    method UpdateMode(mode: Mode, index: nat)
      requires Valid()
      modifies this`modes
      ensures Valid() && View() == ApplyMode(old(View()), index, mode)
    {
      hide Assign, Sorted, WellFormed, Satps, DecodeSatp;
      modes := Assign(modes, index, mode);
    }

    method Translate(va: nat, index: nat) returns (r: Outcome)
      requires Valid()
      ensures r == PageTableLog.Translate(View(), va, index)
    {
      hide DecodeSatp, UpperBound, Floor, WalkFrom, Satps, Sorted, WellFormed;
      var mode := Floor(modes, index);
      if mode.None? {
        return NoMode;
      }
      if mode.value.value.MACHINE_MODE? {
        return Translated(va);
      }
      SatpsFloor(indexedSatpEntries, index);
      var e := Floor(indexedSatpEntries, index);
      if e.None? {
        return Fault;
      }
      assert satpEntries[e.value.value.satp] == e.value.value;
      r := e.value.value.Translate(va, index);
    }
  }
}
