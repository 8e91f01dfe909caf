/**
 * The page table answers what a replay of its log answers, and what is valid later never changes
 * an answer given for an earlier index.
 */
module PageTableReplay {
  import opened Bits
  import opened FlatMaps
  import opened PageWalk
  import opened PageTableLog

  // ---------------------------------------------------------------- one table against its replay

  // The newest version of an entry is no newer than some index.
  ghost predicate NoneAfter(pages: Pages, pa: nat, index: nat) {
    pa in pages ==> forall e :: e in pages[pa] ==> e.key <= index
  }

  // With updates in order, a write changes what is found from its index on, and nothing else,
  // whether or not the table kept a new version of it.
  lemma PutInOrder(pages: Pages, m: VAMode, w: Write, next: Pages, addr: nat, i: nat)
    requires WellFormed(pages) && PutPte(pages, m, w.index, w.pte) == Some(next)
    requires NoneAfter(pages, w.pte.pa, w.index)
    ensures Lookup(next, addr, i) ==
            if addr == w.pte.pa && w.index <= i then Some(Decode(m, w.pte.raw)) else Lookup(pages, addr, i)
    ensures NoneAfter(next, w.pte.pa, w.index)
  {
    hide Decode, UpperBound;
    var pa, entry := w.pte.pa, Decode(m, w.pte.raw);
    if pa !in pages {
      FloorOfSingle(w.index, entry, i);
    } else if Floor(pages[pa], w.index).value.value != entry {
      FloorOfInsert(pages[pa], w.index, entry, i);
      InsertMembers(pages[pa], w.index, entry);
    } else if w.index <= i {
      FloorBeyond(pages[pa], w.index, i);
    }
  }

  lemma FloorOfSingle(key: nat, v: PTE, i: nat)
    ensures Floor([Entry(key, v)], i) == if key <= i then Some(Entry(key, v)) else None
  {
  }

  lemma InsertMembers(m: seq<Entry<PTE>>, key: nat, v: PTE)
    requires Sorted(m) && !Has(m, key)
    ensures forall e :: e in Insert(m, key, v) ==> e in m || e == Entry(key, v)
  {
  }

  // Past the last key the floor no longer changes.
  lemma FloorBeyond(m: seq<Entry<PTE>>, key: nat, i: nat)
    requires Sorted(m) && key <= i && forall e :: e in m ==> e.key <= key
    ensures Floor(m, i) == Floor(m, key)
  {
    if m != [] {
      assert m[|m| - 1] in m;
    }
  }

  /** The table built from a sequence of writes, none if one of them is refused. */
  function PutAll(m: VAMode, ws: seq<Write>): (r: Option<Pages>)
    ensures r.Some? ==> WellFormed(r.value)
  {
    if ws == [] then Some(map[])
    else
      match PutAll(m, ws[..|ws| - 1])
      case None => None
      case Some(pages) => PutPte(pages, m, ws[|ws| - 1].index, ws[|ws| - 1].pte)
  }

  ghost predicate Bounded(pages: Pages, ws: seq<Write>) {
    forall pa :: pa in pages ==> exists k :: 0 <= k < |ws| && ws[k].pte.pa == pa && NoneAfter(pages, pa, ws[k].index)
  }

  lemma PutKeepsBounded(pages: Pages, m: VAMode, ws: seq<Write>, w: Write, next: Pages)
    requires WellFormed(pages) && PutPte(pages, m, w.index, w.pte) == Some(next)
    requires Bounded(pages, ws) && NoneAfter(next, w.pte.pa, w.index)
    ensures Bounded(next, ws + [w])
  {
    hide Decode, UpperBound, Floor, Insert;
    forall pa | pa in next
      ensures exists k :: 0 <= k < |ws + [w]| && (ws + [w])[k].pte.pa == pa && NoneAfter(next, pa, (ws + [w])[k].index)
    {
      if pa == w.pte.pa {
        assert (ws + [w])[|ws|] == w;
      } else {
        assert next[pa] == pages[pa];
        var k :| 0 <= k < |ws| && ws[k].pte.pa == pa && NoneAfter(pages, pa, ws[k].index);
        assert (ws + [w])[k] == ws[k];
      }
    }
  }

  /** Dropping unchanged versions is invisible: the table holds, at every index, what the replay holds. */
  lemma {:induction false} TableIsReplay(m: VAMode, ws: seq<Write>, pages: Pages)
    requires PutAll(m, ws) == Some(pages) && InOrder(ws)
    ensures forall i :: Agree(m, pages, Replay(ws, i), i)
    ensures Bounded(pages, ws)
  {
    hide Decode, Floor, PutPte;
    if ws != [] {
      var prefix, w := ws[..|ws| - 1], ws[|ws| - 1];
      assert ws == prefix + [w];
      var before := PutAll(m, prefix).value;
      TableIsReplay(m, prefix, before);
      assert NoneAfter(before, w.pte.pa, w.index) by {
        if w.pte.pa in before {
          var k :| 0 <= k < |prefix| && prefix[k].pte.pa == w.pte.pa && NoneAfter(before, w.pte.pa, prefix[k].index);
          assert ws[k].index <= ws[|ws| - 1].index;
        }
      }
      PutInOrder(before, m, w, pages, 0, 0);
      PutKeepsBounded(before, m, prefix, w, pages);
      forall i
        ensures Agree(m, pages, Replay(ws, i), i)
      {
        assert Agree(m, before, Replay(prefix, i), i);
        forall addr
          ensures Lookup(pages, addr, i) == if addr in Replay(ws, i) then Some(Decode(m, Replay(ws, i)[addr])) else None
        {
          PutInOrder(before, m, w, pages, addr, i);
        }
      }
    }
  }

  // ---------------------------------------------------------------- updates in any order

  // An entry that is known but has no version that old, or another one at that very index.
  ghost predicate Refused(pages: Pages, m: VAMode, w: Write) {
    && w.pte.pa in pages
    && ((forall e :: e in pages[w.pte.pa] ==> e.key > w.index) ||
        exists e :: e in pages[w.pte.pa] && e.key == w.index && e.value != Decode(m, w.pte.raw))
  }

  // The table has a version of the entry between an index, exclusive, and another.
  ghost predicate Newer(pages: Pages, pa: nat, from: nat, to: nat) {
    pa in pages && exists e :: e in pages[pa] && from < e.key <= to
  }

  lemma OneKey(m: seq<Entry<PTE>>, a: Entry<PTE>, b: Entry<PTE>)
    requires Sorted(m) && a in m && b in m && a.key == b.key
    ensures a == b
  {
    var i :| 0 <= i < |m| && m[i] == a;
    var j :| 0 <= j < |m| && m[j] == b;
  }

  // The version in force at an index is the only one with that key, and stays in force up to the next.
  lemma FloorAlone(m: seq<Entry<PTE>>, from: nat, to: nat)
    requires Sorted(m) && from <= to && Floor(m, from).Some?
    ensures forall e :: e in m && e.key == from ==> e == Floor(m, from).value
    ensures (forall e :: e in m ==> !(from < e.key <= to)) <==> Floor(m, to) == Floor(m, from)
  {
    hide UpperBound, Floor;
    var a, b := Floor(m, from).value, Floor(m, to);
    assert b.Some?;
    forall e | e in m && e.key == a.key
      ensures e == a
    {
      OneKey(m, e, a);
    }
  }

  lemma RefusedMeaning(pages: Pages, m: VAMode, w: Write)
    requires WellFormed(pages)
    ensures PutPte(pages, m, w.index, w.pte).None? <==> Refused(pages, m, w)
  {
    hide Decode, UpperBound, Insert, Floor, Sorted;
    if w.pte.pa in pages {
      var versions := pages[w.pte.pa];
      assert Sorted(versions) && versions[0] in versions;
      if Floor(versions, w.index).Some? {
        FloorAlone(versions, w.index, w.index);
      }
    }
  }

  lemma NewVersion(m: seq<Entry<PTE>>, key: nat, v: PTE, i: nat)
    requires Sorted(m) && Floor(m, key).Some? && Floor(m, key).value.key != key
    ensures !Has(m, key)
    ensures Floor(Insert(m, key, v), i) ==
            if key <= i && Floor(m, i) == Floor(m, key) then Some(Entry(key, v)) else Floor(m, i)
  {
    hide UpperBound, Insert;
    FloorOfInsert(m, key, v, i);
    if key <= i {
      FloorAlone(m, key, i);
    }
  }

  lemma OwnLookup(pages: Pages, m: VAMode, w: Write, i: nat)
    requires WellFormed(pages) && PutPte(pages, m, w.index, w.pte).Some?
    ensures Lookup(PutPte(pages, m, w.index, w.pte).value, w.pte.pa, i) ==
            if w.index <= i && !Newer(pages, w.pte.pa, w.index, i) then Some(Decode(m, w.pte.raw))
            else Lookup(pages, w.pte.pa, i)
  {
    hide Decode, UpperBound, Insert, Floor, Sorted, Has;
    var pa, entry := w.pte.pa, Decode(m, w.pte.raw);
    if pa !in pages {
      FloorOfSingle(w.index, entry, i);
    } else {
      assert Sorted(pages[pa]);
      if w.index <= i {
        FloorAlone(pages[pa], w.index, i);
      }
      if Floor(pages[pa], w.index).value.value != entry {
        NewVersion(pages[pa], w.index, entry, i);
      }
    }
  }

  /**
   * In whatever order updates come, an entry is refused exactly when it is known but has no version
   * that old, or has a different one at that very index; otherwise it holds from its index on up to
   * the next version, and nothing else changes.
   */
  lemma PutExactly(pages: Pages, m: VAMode, w: Write, addr: nat, i: nat)
    requires WellFormed(pages)
    ensures PutPte(pages, m, w.index, w.pte).None? <==> Refused(pages, m, w)
    ensures PutPte(pages, m, w.index, w.pte).Some? ==>
              Lookup(PutPte(pages, m, w.index, w.pte).value, addr, i) ==
              if addr == w.pte.pa && w.index <= i && !Newer(pages, addr, w.index, i) then Some(Decode(m, w.pte.raw))
              else Lookup(pages, addr, i)
  {
    RefusedMeaning(pages, m, w);
    hide Decode, UpperBound, Insert, Floor, Refused, Newer;
    if PutPte(pages, m, w.index, w.pte).Some? {
      OwnLookup(pages, m, w, i);
    }
  }

  lemma LaterTurn(pages: Pages, m: VAMode, index: nat, ptes: seq<Pte>, k: nat)
    requires WellFormed(pages) && k + 1 < |ptes| && PutPte(pages, m, index, ptes[0]).Some?
    ensures PutPtes(pages, m, index, ptes[..k + 1]).0
         == PutPtes(PutPte(pages, m, index, ptes[0]).value, m, index, ptes[1..][..k]).0
  {
    hide WellFormed, PutPte;
    assert ptes[..k + 1][1..] == ptes[1..][..k];
  }

  // Whether each entry of a walk is accepted on its turn.
  ghost predicate NoneRefused(pages: Pages, m: VAMode, index: nat, ptes: seq<Pte>)
    requires WellFormed(pages)
  {
    forall k :: 0 <= k < |ptes| ==> !Refused(PutPtes(pages, m, index, ptes[..k]).0, m, Write(index, ptes[k]))
  }

  lemma FirstRefused(pages: Pages, m: VAMode, index: nat, ptes: seq<Pte>)
    requires WellFormed(pages) && ptes != []
    ensures NoneRefused(pages, m, index, ptes) ==> PutPte(pages, m, index, ptes[0]).Some?
    ensures PutPte(pages, m, index, ptes[0]).Some? ==>
              (NoneRefused(pages, m, index, ptes) <==>
               NoneRefused(PutPte(pages, m, index, ptes[0]).value, m, index, ptes[1..]))
  {
    assert ptes[..0] == [] && PutPtes(pages, m, index, []).0 == pages;
    RefusedMeaning(pages, m, Write(index, ptes[0]));
    hide WellFormed, Refused, PutPte, PutPtes;
    var next := PutPte(pages, m, index, ptes[0]);
    if next.Some? {
      forall k | 0 <= k < |ptes| - 1
        ensures PutPtes(pages, m, index, ptes[..k + 1]).0 == PutPtes(next.value, m, index, ptes[1..][..k]).0
        ensures ptes[1..][k] == ptes[k + 1]
      {
        LaterTurn(pages, m, index, ptes, k);
      }
      if NoneRefused(next.value, m, index, ptes[1..]) {
        forall k | 0 <= k < |ptes|
          ensures !Refused(PutPtes(pages, m, index, ptes[..k]).0, m, Write(index, ptes[k]))
        {
          if k > 0 {
            assert !Refused(PutPtes(next.value, m, index, ptes[1..][..k - 1]).0, m, Write(index, ptes[1..][k - 1]));
          }
        }
      }
    }
  }

  /** A walk is recorded to its end exactly when none of its entries is refused on its turn. */
  lemma {:induction false} PutAllExactly(pages: Pages, m: VAMode, index: nat, ptes: seq<Pte>)
    requires WellFormed(pages)
    ensures PutPtes(pages, m, index, ptes).1 <==> NoneRefused(pages, m, index, ptes)
    decreases |ptes|
  {
    hide WellFormed, PutPte;
    if ptes != [] {
      hide NoneRefused;
      FirstRefused(pages, m, index, ptes);
      var next := PutPte(pages, m, index, ptes[0]);
      if next.Some? {
        PutAllExactly(next.value, m, index, ptes[1..]);
      }
    }
  }

  /**
   * Which events an assertion stops: a walk at an index where no translating SATP value is in force or
   * with an entry that is refused, and a new SATP value with an unknown mode.
   */
  lemma AppliedExactly(v: View, e: Event)
    requires PageTableLog.Valid(v)
    ensures Apply(v, e).1 <==>
            match e
            case Walk(index, ptes) =>
              && Floor(v.satps, index).Some?
              && var satp := Floor(v.satps, index).value.value;
                 && satp in v.tables && DecodeSatp(v.iem, satp).Some?
                 && var m := DecodeSatp(v.iem, satp).value.mode;
                    && !m.NO_TRANSLATION? && WellFormed(v.tables[satp]) && NoneRefused(v.tables[satp], m, index, ptes)
            case SatpWrite(_, value) => value in v.tables || DecodeSatp(v.iem, value).Some?
            case ModeChange(_, _) => true
  {
    hide DecodeSatp, NoneRefused, PutPtes, Sorted, WellFormed, UpperBound;
    if e.Walk? && Floor(v.satps, e.index).Some? {
      var satp := Floor(v.satps, e.index).value.value;
      PutAllExactly(v.tables[satp], DecodeSatp(v.iem, satp).value.mode, e.index, e.ptes);
    }
  }

  // ---------------------------------------------------------------- the log as a whole

  lemma {:induction false} PutAllThenPtes(m: VAMode, ws: seq<Write>, index: nat, ptes: seq<Pte>)
    requires PutAll(m, ws).Some? && PutPtes(PutAll(m, ws).value, m, index, ptes).1
    ensures PutAll(m, ws + Writes(index, ptes)) == Some(PutPtes(PutAll(m, ws).value, m, index, ptes).0)
    decreases |ptes|
  {
    hide PutPte;
    if ptes == [] {
      assert ws + Writes(index, ptes) == ws;
    } else {
      var w := Write(index, ptes[0]);
      assert (ws + [w])[..|ws + [w]| - 1] == ws;
      PutAllThenPtes(m, ws + [w], index, ptes[1..]);
      assert ws + Writes(index, ptes) == ws + [w] + Writes(index, ptes[1..]);
    }
  }

  /** What an accepted log leaves: the modes, the SATP values and one table per SATP value. */
  lemma {:induction false} RunMeaning(iem: IEM, log: seq<Event>, v: View)
    requires Run(iem, log) == Some(v)
    ensures forall i :: Floor(v.modes, i) == Some(ModeAt(log, i))
    ensures forall i :: Floor(v.satps, i) == SatpAt(log, i)
    ensures forall s :: s in v.tables && !DecodeSatp(iem, s).value.mode.NO_TRANSLATION? ==>
              PutAll(DecodeSatp(iem, s).value.mode, Routed(log, s)) == Some(v.tables[s])
    ensures forall s :: s !in v.tables ==> Routed(log, s) == []
  {
    hide DecodeSatp, UpperBound, PutPte, PutPtes, Writes, Sorted, WellFormed, Assign, TryEmplace;
    if log == [] {
      forall i ensures Floor(v.modes, i) == Some(ModeAt(log, i)) {
        ModeAtStart(i);
      }
      forall i ensures Floor(v.satps, i) == SatpAt(log, i) {
        NothingAtStart(i);
      }
    } else {
      var prefix, e := log[..|log| - 1], log[|log| - 1];
      var before := Run(iem, prefix).value;
      RunMeaning(iem, prefix, before);
      match e {
        case Walk(index, ptes) =>
          var satp := SatpAt(prefix, index);
          assert Floor(before.satps, index) == satp;
          PutAllThenPtes(DecodeSatp(iem, satp.value.value).value.mode, Routed(prefix, satp.value.value), index, ptes);
        case SatpWrite(index, value) =>
          forall i ensures Floor(v.satps, i) == SatpAt(log, i) {
            TryEmplaceFloor(before.satps, index, value, i);
          }
        case ModeChange(index, mode) =>
          forall i ensures Floor(v.modes, i) == Some(ModeAt(log, i)) {
            FloorOfAssign(before.modes, index, mode, i);
          }
      }
    }
  }

  lemma ModeAtStart(i: nat)
    ensures Floor([Entry(0, MACHINE_MODE)], i) == Some(Entry(0, MACHINE_MODE))
  {
  }

  lemma NothingAtStart(i: nat)
    ensures Floor<nat>([], i) == None
  {
  }

  lemma TryEmplaceFloor(m: seq<Entry<nat>>, key: nat, v: nat, i: nat)
    requires Sorted(m)
    ensures Floor(TryEmplace(m, key, v), i) ==
            if key <= i && (Floor(m, i).None? || Floor(m, i).value.key < key) then Some(Entry(key, v)) else Floor(m, i)
  {
    hide UpperBound, Insert;
    if Has(m, key) {
      assert Floor(m, key).value in m;
    } else {
      FloorOfInsert(m, key, v, i);
    }
  }

  lemma TableWalkIsReplay(satp: Satp, ws: seq<Write>, pages: Pages, va: nat, i: nat)
    requires !satp.mode.NO_TRANSLATION? ==> PutAll(satp.mode, ws) == Some(pages) && InOrder(ws)
    requires satp.baseAddr < Pow2(56)
    ensures TableTranslate(satp, pages, va, i) == SpecWalk(satp, ws, va, i)
  {
    hide PutAll, Replay, InOrder, LeafAddress, WalkFrom, FindLeaf, NumVpns, Shift, Ppn, Agree, Bounded, Pow2;
    if !satp.mode.NO_TRANSLATION? {
      TableIsReplay(satp.mode, ws, pages);
      assert Agree(satp.mode, pages, Replay(ws, i), i);
      WalkRefines(satp.mode, pages, Replay(ws, i), satp.baseAddr, va, i, NumVpns(satp.mode) - 1);
    }
  }

  /**
   * For every accepted log whose updates of one entry arrive in index order, the answer at an
   * index is that of the log: the mode check, the SATP value in force, and a walk over the replay
   * of the writes routed to that value.
   */
  lemma TranslateIsReplay(iem: IEM, log: seq<Event>, v: View, va: nat, i: nat)
    requires Run(iem, log) == Some(v)
    requires forall s :: InOrder(Routed(log, s))
    ensures Translate(v, va, i) == SpecTranslate(iem, log, va, i)
  {
    hide DecodeSatp, Floor, PutAll, ModeAt, SatpAt, Routed, InOrder, Run, TableTranslate, SpecWalk, Sorted, WellFormed,
         Pow2;
    RunMeaning(iem, log, v);
    assert Floor(v.modes, i) == Some(ModeAt(log, i));
    var e := Floor(v.satps, i);
    assert e == SatpAt(log, i);
    if e.Some? {
      SatpBaseBound(iem, e.value.value);
      TableWalkIsReplay(DecodeSatp(iem, e.value.value).value, Routed(log, e.value.value), v.tables[e.value.value], va,
                        i);
    }
  }

  /**
   * While a translating SATP value is in force below machine mode, the answer is the
   * architecture's over the replayed memory exactly when it is a fault, or no entry on the way is
   * invalid and the leaf is aligned.
   */
  lemma TranslateMeetsArchitecture(iem: IEM, log: seq<Event>, v: View, va: nat, i: nat, e: Entry<nat>, satp: Satp)
    requires Run(iem, log) == Some(v)
    requires forall s :: InOrder(Routed(log, s))
    requires !ModeAt(log, i).value.MACHINE_MODE? && SatpAt(log, i) == Some(e)
    requires DecodeSatp(iem, e.value) == Some(satp) && !satp.mode.NO_TRANSLATION?
    ensures var mem := Replay(Routed(log, e.value), i);
            var leaf := FindLeaf(satp.mode, mem, satp.baseAddr, va, NumVpns(satp.mode) - 1);
            && (Translate(v, va, i).Fault? <==> leaf.None?)
            && (Translate(v, va, i) == ArchTranslate(satp.mode, mem, satp.baseAddr, va) <==>
                (leaf.Some? ==>
                   && PathIsValid(satp.mode, mem, satp.baseAddr, va, NumVpns(satp.mode) - 1)
                   && !Misaligned(satp.mode, leaf.value)))
  {
    hide DecodeSatp, Floor, PutAll, ModeAt, SatpAt, Routed, InOrder, Run, ArchTranslate, WalkFrom, Replay, FindLeaf;
    hide Sorted, WellFormed, Pow2, NumVpns, Misaligned, PathIsValid, Agree, Bounded;
    RunMeaning(iem, log, v);
    assert Floor(v.modes, i) == Some(ModeAt(log, i));
    assert Floor(v.satps, i) == SatpAt(log, i);
    SatpBaseBound(iem, e.value);
    var ws, pages := Routed(log, e.value), v.tables[e.value];
    TableIsReplay(satp.mode, ws, pages);
    assert Agree(satp.mode, pages, Replay(ws, i), i);
    WalkMeetsArchitecture(satp.mode, pages, Replay(ws, i), satp.baseAddr, va, i);
  }

  /**
   * With updates in order, a write is refused exactly when the newest version of its entry carries
   * the same index and different contents.
   */
  lemma RefusedExactly(pages: Pages, m: VAMode, w: Write)
    requires WellFormed(pages) && NoneAfter(pages, w.pte.pa, w.index)
    ensures PutPte(pages, m, w.index, w.pte).None? <==>
            w.pte.pa in pages && exists e :: e in pages[w.pte.pa] && e.key == w.index && e.value != Decode(m, w.pte.raw)
  {
    hide Decode, UpperBound, Insert;
    if w.pte.pa in pages {
      var versions := pages[w.pte.pa];
      assert versions[0] in versions;
      var newest := Floor(versions, w.index).value;
      assert newest in versions;
      forall e | e in versions && e.key == w.index ensures e == newest {
        var j :| 0 <= j < |versions| && versions[j] == e;
        var k :| 0 <= k < |versions| && versions[k] == newest;
      }
    }
  }

  // ---------------------------------------------------------------- what comes later

  lemma LaterPte(pages: Pages, m: VAMode, index: nat, pte: Pte, next: Pages, addr: nat, i: nat)
    requires WellFormed(pages) && PutPte(pages, m, index, pte) == Some(next) && i < index
    ensures Lookup(next, addr, i) == Lookup(pages, addr, i)
  {
    hide Decode, UpperBound;
    if pte.pa !in pages {
      FloorOfSingle(index, Decode(m, pte.raw), i);
    } else if Floor(pages[pte.pa], index).value.value != Decode(m, pte.raw) {
      FloorOfInsert(pages[pte.pa], index, Decode(m, pte.raw), i);
    }
  }

  lemma {:induction false} LaterPtes(pages: Pages, m: VAMode, index: nat, ptes: seq<Pte>, i: nat)
    requires WellFormed(pages) && i < index
    ensures forall addr :: Lookup(PutPtes(pages, m, index, ptes).0, addr, i) == Lookup(pages, addr, i)
    decreases |ptes|
  {
    hide PutPte, Lookup;
    if ptes != [] && PutPte(pages, m, index, ptes[0]).Some? {
      var next := PutPte(pages, m, index, ptes[0]).value;
      LaterPtes(next, m, index, ptes[1..], i);
      forall addr ensures Lookup(next, addr, i) == Lookup(pages, addr, i) {
        LaterPte(pages, m, index, ptes[0], next, addr, i);
      }
    }
  }

  // A walk sees nothing of the table but what it finds at its index.
  lemma {:induction false} WalkSeesLookups(m: VAMode, p: Pages, q: Pages, base: nat, va: nat, i: nat, level: int)
    requires forall addr :: Lookup(p, addr, i) == Lookup(q, addr, i)
    ensures WalkFrom(m, p, base, va, i, level) == WalkFrom(m, q, base, va, i, level)
    decreases level + 1
  {
    hide Lookup, EntryAddr, LeafAddress, Shift;
    if level >= 0 {
      var found := Lookup(p, EntryAddr(m, base, va, Shift(m, level)), i);
      assert found == Lookup(q, EntryAddr(m, base, va, Shift(m, level)), i);
      if found.Some? && !found.value.isLeaf {
        WalkSeesLookups(m, p, q, found.value.physAddr, va, i, level - 1);
      }
    }
  }

  lemma LaterWalk(v: View, index: nat, ptes: seq<Pte>, va: nat, i: nat)
    requires Valid(v) && i < index
    ensures Translate(ApplyWalk(v, index, ptes).0, va, i) == Translate(v, va, i)
  {
    hide DecodeSatp, UpperBound, Floor, Lookup, PutPtes, WalkFrom, NumVpns, Sorted, WellFormed;
    var at, now := Floor(v.satps, index), Floor(v.satps, i);
    if at.Some? && now.Some? && at.value.value == now.value.value {
      var satp := DecodeSatp(v.iem, now.value.value).value;
      var pages := v.tables[now.value.value];
      LaterPtes(pages, satp.mode, index, ptes, i);
      WalkSeesLookups(satp.mode, PutPtes(pages, satp.mode, index, ptes).0, pages, satp.baseAddr, va, i,
                      NumVpns(satp.mode) - 1);
    }
  }

  lemma LaterSatp(v: View, index: nat, value: nat, va: nat, i: nat)
    requires Valid(v) && i < index
    ensures Translate(ApplySatp(v, index, value).0, va, i) == Translate(v, va, i)
  {
    hide DecodeSatp, UpperBound, Floor, TableTranslate, TryEmplace, Sorted, WellFormed;
    TryEmplaceFloor(v.satps, index, value, i);
    if Floor(v.satps, i).Some? {
      assert Floor(v.satps, i).value in v.satps;
    }
  }

  lemma LaterMode(v: View, index: nat, mode: Mode, va: nat, i: nat)
    requires Valid(v) && i < index
    ensures Translate(ApplyMode(v, index, mode), va, i) == Translate(v, va, i)
  {
    hide DecodeSatp, UpperBound, Floor, TableTranslate, Assign, Sorted, WellFormed;
    FloorOfAssign(v.modes, index, mode, i);
  }

  /**
   * An event at an index above i changes no answer at i, success or failure, even when the table
   * refuses the event half-way.
   */
  lemma LaterEventChangesNothing(v: View, e: Event, va: nat, i: nat)
    requires Valid(v) && i < e.index
    ensures Translate(Apply(v, e).0, va, i) == Translate(v, va, i)
  {
    hide Translate, ApplyWalk, ApplySatp, ApplyMode;
    match e {
      case Walk(index, ptes) => LaterWalk(v, index, ptes, va, i);
      case SatpWrite(index, value) => LaterSatp(v, index, value, va, i);
      case ModeChange(index, mode) => LaterMode(v, index, mode, va, i);
    }
  }
}
