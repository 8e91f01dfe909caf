/**
 * Records by descriptor, their subsequences, and the stable sort by trace descriptor.
 */
module Records {
  import opened Descriptors

  datatype Body =
    | Number(n: nat)
    | Text(s: string)
    | Features(bits: set<nat>)
    | Ids(hwThread: nat, process: nat, thread: nat)
    | EventBody(modeChange: bool, code: nat)

  datatype Record = Record(desc: Descriptor, body: Body)

  predicate IsModeChange(r: Record) { r.body.EventBody? && r.body.modeChange }

  // The records with a given descriptor, in order.
  function Filter(recs: seq<Record>, d: Descriptor): seq<Record> {
    if recs == [] then []
    else
      var before, last := Filter(recs[..|recs| - 1], d), recs[|recs| - 1];
      if last.desc == d then before + [last] else before
  }

  lemma FilterSnoc(recs: seq<Record>, r: Record, d: Descriptor)
    ensures Filter(recs + [r], d) == if r.desc == d then Filter(recs, d) + [r] else Filter(recs, d)
  {
    assert (recs + [r])[..|recs + [r]| - 1] == recs;
  }

  lemma {:induction false} FilterConcat(a: seq<Record>, b: seq<Record>, d: Descriptor)
    ensures Filter(a + b, d) == Filter(a, d) + Filter(b, d)
  {
    if b == [] {
      assert a + b == a;
    } else {
      var n := |b| - 1;
      assert (a + b)[..|a + b| - 1] == a + b[..n];
      FilterConcat(a, b[..n], d);
    }
  }

  predicate AllHave(recs: seq<Record>, d: Descriptor) { forall r :: r in recs ==> r.desc == d }

  lemma {:induction false} FilterOfOne(recs: seq<Record>, d: Descriptor, e: Descriptor)
    requires AllHave(recs, e)
    ensures Filter(recs, d) == if d == e then recs else []
  {
    if recs != [] {
      FilterOfOne(recs[..|recs| - 1], d, e);
      assert recs[|recs| - 1] in recs;
      assert recs == recs[..|recs| - 1] + [recs[|recs| - 1]];
    }
  }

  lemma {:induction false} FilterHasOne(recs: seq<Record>, d: Descriptor)
    ensures AllHave(Filter(recs, d), d)
    ensures forall r :: r in Filter(recs, d) <==> r in recs && r.desc == d
  {
    if recs != [] {
      FilterHasOne(recs[..|recs| - 1], d);
      assert forall r :: r in recs <==> r in recs[..|recs| - 1] || r == recs[|recs| - 1];
    }
  }

  predicate InTraceOrder(recs: seq<Record>) {
    forall i, j :: 0 <= i < j < |recs| ==> ToEncoded(recs[i].desc) <= ToEncoded(recs[j].desc)
  }

  /** In trace order, and for each descriptor the same records in the same order. */
  ghost predicate IsStableSort(sorted: seq<Record>, recs: seq<Record>) {
    InTraceOrder(sorted) && forall d :: Filter(sorted, d) == Filter(recs, d)
  }

  /** There is only one stable sort. */
  lemma {:induction false} StableSortIsUnique(a: seq<Record>, b: seq<Record>)
    requires InTraceOrder(a) && InTraceOrder(b) && forall d :: Filter(a, d) == Filter(b, d)
    ensures a == b
    decreases |a|
  {
    hide ToEncoded;
    if a == [] || b == [] {
      SortOfNothing(a, b);
    } else {
      var m, n := |a| - 1, |b| - 1;
      LastIsLast(a, b);
      LastIsLast(b, a);
      TablesAreInverse(a[m].desc, ToEncoded(b[n].desc));
      TablesAreInverse(b[n].desc, ToEncoded(b[n].desc));
      assert a == a[..m] + [a[m]] && b == b[..n] + [b[n]];
      forall d: Descriptor
        ensures Filter(a[..m], d) == Filter(b[..n], d)
      {
        FilterSnoc(a[..m], a[m], d);
        FilterSnoc(b[..n], b[n], d);
        if d == a[m].desc {
          SameInit(Filter(a[..m], d), a[m], Filter(b[..n], d), b[n]);
        }
      }
      FilterSnoc(a[..m], a[m], a[m].desc);
      FilterSnoc(b[..n], b[n], a[m].desc);
      SameInit(Filter(a[..m], a[m].desc), a[m], Filter(b[..n], a[m].desc), b[n]);
      StableSortIsUnique(a[..m], b[..n]);
    }
  }

  lemma SameInit<T>(s: seq<T>, x: T, t: seq<T>, y: T)
    requires s + [x] == t + [y]
    ensures s == t && x == y
  {
    assert (s + [x])[|s|] == x && (t + [y])[|t|] == y;
    assert s == (s + [x])[..|s|] && t == (t + [y])[..|t|];
  }

  lemma SortOfNothing(a: seq<Record>, b: seq<Record>)
    requires (a == [] || b == []) && forall d :: Filter(a, d) == Filter(b, d)
    ensures a == b
  {
    if a != [] {
      SomethingFiltered(a);
    } else if b != [] {
      SomethingFiltered(b);
    }
  }

  lemma SomethingFiltered(recs: seq<Record>)
    requires recs != []
    ensures Filter(recs, recs[0].desc) != []
  {
    FilterHasOne(recs, recs[0].desc);
    assert recs[0] in Filter(recs, recs[0].desc);
  }

  lemma LastIsLast(a: seq<Record>, b: seq<Record>)
    requires a != [] && b != [] && InTraceOrder(b) && forall d :: Filter(a, d) == Filter(b, d)
    ensures ToEncoded(a[|a| - 1].desc) <= ToEncoded(b[|b| - 1].desc)
  {
    hide ToEncoded;
    var x := a[|a| - 1];
    FilterHasOne(a, x.desc);
    FilterHasOne(b, x.desc);
    assert x in Filter(b, x.desc);
    var k :| 0 <= k < |b| && b[k] == x;
  }

  // ---------------------------------------------------------------- the sorted view

  // The records of the first n descriptors in trace order, each descriptor's in their own order.
  function SortedBy(recs: seq<Record>, n: nat): seq<Record>
    requires n <= |SORTED|
  {
    if n == 0 then [] else SortedBy(recs, n - 1) + Filter(recs, SORTED[n - 1])
  }

  lemma {:induction false} SortedByFilters(recs: seq<Record>, n: nat, d: Descriptor)
    requires n <= |SORTED| && StrictlySorted(SORTED)
    ensures Filter(SortedBy(recs, n), d) == if d in SORTED[..n] then Filter(recs, d) else []
  {
    hide ToEncoded, Filter, SortedBelow;
    if n == 0 {
      NothingFiltered(d);
    } else {
      var before, d0 := SortedBy(recs, n - 1), SORTED[n - 1];
      SortedByFilters(recs, n - 1, d);
      FilterHasOne(recs, d0);
      FilterConcat(before, Filter(recs, d0), d);
      FilterOfOne(Filter(recs, d0), d, d0);
      assert SORTED[..n] == SORTED[..n - 1] + [d0];
      assert d0 !in SORTED[..n - 1];
    }
  }

  lemma {:induction false} SortedByIsOrdered(recs: seq<Record>, n: nat)
    requires n <= |SORTED| && StrictlySorted(SORTED)
    ensures forall r :: r in SortedBy(recs, n) ==> r.desc in SORTED[..n]
    ensures InTraceOrder(SortedBy(recs, n))
  {
    hide ToEncoded, Filter, SortedBelow;
    if n > 0 {
      var before, d0 := SortedBy(recs, n - 1), SORTED[n - 1];
      SortedByIsOrdered(recs, n - 1);
      FilterHasOne(recs, d0);
      assert SORTED[..n] == SORTED[..n - 1] + [d0];
      forall r | r in before
        ensures ToEncoded(r.desc) < ToEncoded(d0)
      {
        var k :| 0 <= k < n - 1 && SORTED[..n - 1][k] == r.desc;
        assert SORTED[k] == r.desc;
      }
      OrderedTogether(before, Filter(recs, d0), d0);
    }
  }

  lemma NothingFiltered(d: Descriptor)
    ensures Filter([], d) == []
  {
  }

  lemma OrderedTogether(a: seq<Record>, b: seq<Record>, d: Descriptor)
    requires InTraceOrder(a) && AllHave(b, d) && forall r :: r in a ==> ToEncoded(r.desc) < ToEncoded(d)
    ensures InTraceOrder(a + b)
  {
    hide ToEncoded;
    var s := a + b;
    forall i, j | 0 <= i < j < |s|
      ensures ToEncoded(s[i].desc) <= ToEncoded(s[j].desc)
    {
      if j >= |a| {
        assert s[j] in b;
        assert if i < |a| then s[i] in a else s[i] in b;
      }
    }
  }

  /** Collecting descriptor by descriptor in trace order is the stable sort. */
  lemma SortedIsStableSort(recs: seq<Record>)
    ensures |SORTED| == NUM_INTERNAL && IsStableSort(SortedBy(recs, NUM_INTERNAL), recs)
  {
    hide Filter, SortedBelow, SortedBy;
    SortedSequence();
    SortedByIsOrdered(recs, NUM_INTERNAL);
    assert SORTED[..NUM_INTERNAL] == SORTED;
    forall d: Descriptor
      ensures Filter(SortedBy(recs, NUM_INTERNAL), d) == Filter(recs, d)
    {
      SortedByFilters(recs, NUM_INTERNAL, d);
    }
  }
}
