/**
 * The map that sorts an instruction's records by type: vectors that keep one slot when empty, an
 * array of them by descriptor, and the iterator over it in trace order.
 */
module RecordMaps {
  import opened FlatMaps
  import opened Descriptors
  import opened Records

  // A vector's slots; an empty slot holds no record.
  type Slots = seq<Option<Record>>

  // Either one empty slot, or no empty slot.
  predicate IsSmallVector(v: Slots) { v == [None] || forall i :: 0 <= i < |v| ==> v[i].Some? }

  function Items(v: Slots): (r: seq<Record>)
    requires IsSmallVector(v)
    ensures v == [None] || |r| == |v|
  {
    if v == [None] then [] else seq(|v|, i requires 0 <= i < |v| => v[i].value)
  }

  function EmplaceBack(v: Slots, r: Record): Slots {
    if |v| == 1 && v[0].None? then v[0 := Some(r)] else v + [Some(r)]
  }

  function ClearSlots(v: Slots): Slots {
    if v != [] then [None] else v
  }

  function Size(v: Slots): nat {
    if |v| == 1 && v[0].None? then 0 else |v|
  }

  /** The empty slot is invisible: appending, clearing and counting act on the records held. */
  lemma SmallVectorHolds(v: Slots, r: Record)
    requires IsSmallVector(v)
    ensures IsSmallVector(EmplaceBack(v, r)) && Items(EmplaceBack(v, r)) == Items(v) + [r]
    ensures IsSmallVector(ClearSlots(v)) && Items(ClearSlots(v)) == []
    ensures Size(v) == |Items(v)|
  {
    if v == [None] {
      assert EmplaceBack(v, r) == [Some(r)];
    } else {
      var w := v + [Some(r)];
      assert EmplaceBack(v, r) == w && w[|v|] == Some(r);
      assert Items(w) == Items(v) + [r];
    }
  }

  class RecordMap {
    const arr: array<Slots>
    var used: nat
    var count: nat
    // the records emplaced since the last clear
    ghost var log: seq<Record>

    ghost predicate Valid()
      reads this, arr
    {
      && arr.Length == NUM_INTERNAL && used <= NUM_INTERNAL && count == |log|
      && (forall k :: 0 <= k < NUM_INTERNAL ==>
            IsSmallVector(arr[k]) && Items(arr[k]) == Filter(log, OfInternalValue(k)))
      && (forall k :: used <= k < NUM_INTERNAL ==> Items(arr[k]) == [])
    }

    constructor ()
      ensures Valid() && fresh(arr) && log == []
    {
      arr := new Slots[NUM_INTERNAL](_ => [None]);
      used, count, log := 0, 0, [];
    }

    method Emplace(r: Record)
      requires Valid()
      modifies this, arr
      ensures Valid() && log == old(log) + [r]
    {
      hide OfInternalValue, ToInternalValue, Items, IsSmallVector, EmplaceBack;
      var key := ToInternalValue(r.desc);
      SmallVectorHolds(arr[key], r);
      forall k | 0 <= k < NUM_INTERNAL
        ensures Filter(log + [r], OfInternalValue(k)) == if k == key then Items(arr[k]) + [r] else Items(arr[k])
      {
        InternalValues(r.desc, k);
        FilterSnoc(log, r, OfInternalValue(k));
      }
      count := count + 1;
      used := if used < key + 1 then key + 1 else used;
      arr[key] := EmplaceBack(arr[key], r);
      log := log + [r];
    }

    method Clear()
      requires Valid()
      modifies this, arr
      ensures Valid() && log == []
    {
      hide OfInternalValue, Items, IsSmallVector, ClearSlots;
      count := 0;
      var i := 0;
      while i < used
        invariant 0 <= i <= used == old(used) && count == 0
        invariant forall k :: 0 <= k < NUM_INTERNAL ==> IsSmallVector(arr[k])
        invariant forall k :: 0 <= k < i || used <= k < NUM_INTERNAL ==> Items(arr[k]) == []
      {
        SmallVectorHolds(arr[i], Record(RESERVED, Number(0)));
        arr[i] := ClearSlots(arr[i]);
        i := i + 1;
      }
      used := 0;
      log := [];
      forall d: Descriptor {
        NothingFiltered(d);
      }
    }

    /** The vector of a descriptor; looking it up takes its place in the array into use. */
    method At(d: Descriptor) returns (v: Slots)
      requires Valid()
      modifies `used
      ensures Valid() && IsSmallVector(v) && Items(v) == Filter(log, d)
    {
      var key := ToInternalValue(d);
      InternalValues(d, 0);
      used := if used < key + 1 then key + 1 else used;
      v := arr[key];
    }

    method Count(d: Descriptor) returns (n: nat)
      requires Valid()
      ensures n == |Filter(log, d)|
    {
      var key := ToInternalValue(d);
      InternalValues(d, 0);
      if used <= key {
        return 0;
      }
      SmallVectorHolds(arr[key], Record(RESERVED, Number(0)));
      n := Size(arr[key]);
    }

    method NumRecords() returns (n: nat)
      requires Valid()
      ensures n == |log|
    {
      n := count;
    }

    lemma UnusedAreEmpty(first: Descriptor)
      requires Valid() && used <= ToInternalValue(first)
      ensures NoneFrom(log, first)
    {
      hide ToInternalValue, OfInternalValue, Filter;
      forall d | ToInternalValue(d) >= ToInternalValue(first)
        ensures Filter(log, d) == []
      {
        InternalValues(d, 0);
      }
    }

    /** From the given position in trace order, the first whose descriptor is in use. */
    method SkipUnused(from: nat) returns (k: nat)
      requires Valid() && from <= NUM_INTERNAL == |SORTED|
      ensures from <= k <= NUM_INTERNAL && (k < NUM_INTERNAL ==> ToInternalValue(SORTED[k]) < used)
      ensures forall j :: from <= j < k ==> NoneFrom(log, SORTED[j])
    {
      hide ToInternalValue, OfInternalValue, Filter, SortedBelow, NoneFrom;
      k := from;
      while k < NUM_INTERNAL && used <= ToInternalValue(SORTED[k])
        invariant from <= k <= NUM_INTERNAL
        invariant forall j :: from <= j < k ==> NoneFrom(log, SORTED[j])
      {
        UnusedAreEmpty(SORTED[k]);
        k := k + 1;
      }
    }

    /** The records in iteration order over the sorted view: the stable sort of what was emplaced. */
    method Sorted() returns (out: seq<Record>)
      requires Valid()
      ensures IsStableSort(out, log) && |out| == count
    {
      SortedIsStableSort(log);
      SortedKeepsAll(log);
      out := [];
      if used == 0 {
        NothingUsed();
        return;
      }
      hide SortedBelow, Filter;
      var k := SkipUnused(0);
      SkippedAreEmpty(log, 0, k);
      while k < NUM_INTERNAL
        invariant 0 <= k <= NUM_INTERNAL && (k < NUM_INTERNAL ==> ToInternalValue(SORTED[k]) < used)
        invariant out == SortedBy(log, k)
      {
        InternalValues(SORTED[k], 0);
        out := out + Items(arr[ToInternalValue(SORTED[k])]);
        assert out == SortedBy(log, k + 1);
        var next := SkipUnused(k + 1);
        SkippedAreEmpty(log, k + 1, next);
        k := next;
      }
    }

    lemma NothingUsed()
      requires Valid() && used == 0
      ensures |SORTED| == NUM_INTERNAL && SortedBy(log, NUM_INTERNAL) == []
    {
      SortedSequence();
      hide SortedBelow, NoneFrom;
      forall j | 0 <= j < NUM_INTERNAL
        ensures NoneFrom(log, SORTED[j])
      {
        UnusedAreEmpty(SORTED[j]);
      }
      SkippedAreEmpty(log, 0, NUM_INTERNAL);
    }
  }

  // No records of the descriptor, nor of any whose place in the array comes later.
  ghost predicate NoneFrom(log: seq<Record>, first: Descriptor) {
    forall d :: ToInternalValue(d) >= ToInternalValue(first) ==> Filter(log, d) == []
  }

  lemma {:induction false} SkippedAreEmpty(log: seq<Record>, from: nat, to: nat)
    requires from <= to <= |SORTED| && forall j :: from <= j < to ==> NoneFrom(log, SORTED[j])
    ensures SortedBy(log, to) == SortedBy(log, from)
  {
    hide SortedBelow, Filter;
    if from < to {
      SkippedAreEmpty(log, from, to - 1);
    }
  }

  /** The sorted view loses no record: it is as long as what was emplaced. */
  lemma {:induction false} SortedKeepsAll(log: seq<Record>)
    ensures |SORTED| == NUM_INTERNAL && |SortedBy(log, NUM_INTERNAL)| == |log|
  {
    hide SortedBelow;
    SortedSequence();
    if log == [] {
      EmptySorted(NUM_INTERNAL);
    } else {
      var n := |log| - 1;
      SortedKeepsAll(log[..n]);
      assert log[n].desc in SORTED;
      var k :| 0 <= k < NUM_INTERNAL && SORTED[k] == log[n].desc;
      OneMoreSorted(log[..n], log[n], k, NUM_INTERNAL);
      assert log == log[..n] + [log[n]];
    }
  }

  lemma {:induction false} EmptySorted(n: nat)
    requires n <= |SORTED|
    ensures SortedBy([], n) == []
  {
    hide SortedBelow;
    if n > 0 {
      EmptySorted(n - 1);
    }
  }

  lemma {:induction false} OneMoreSorted(log: seq<Record>, r: Record, k: nat, n: nat)
    requires n <= |SORTED| && k < |SORTED| && SORTED[k] == r.desc && StrictlySorted(SORTED)
    ensures |SortedBy(log + [r], n)| == |SortedBy(log, n)| + (if k < n then 1 else 0)
  {
    hide SortedBelow, Filter, ToEncoded;
    if n > 0 {
      OneMoreSorted(log, r, k, n - 1);
      FilterSnoc(log, r, SORTED[n - 1]);
      assert n - 1 != k ==> SORTED[n - 1] != SORTED[k];
    }
  }
}
