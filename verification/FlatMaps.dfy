/**
 * Sorted association sequences: the flat maps in which the page table stores what became valid at
 * which instruction index.
 */
module FlatMaps {

  datatype Option<+T> = None | Some(value: T)

  datatype Entry<+V> = Entry(key: nat, value: V)

  ghost predicate Sorted<V>(m: seq<Entry<V>>) {
    forall i, j :: 0 <= i < j < |m| ==> m[i].key < m[j].key
  }

  /** The number of entries whose key is at most the given one. */
  function UpperBound<V>(m: seq<Entry<V>>, key: nat): (n: nat)
    ensures n <= |m|
    ensures Sorted(m) ==> forall i :: 0 <= i < |m| ==> (m[i].key <= key <==> i < n)
  {
    if m == [] then 0
    else if m[|m| - 1].key <= key then |m|
    else UpperBound(m[..|m| - 1], key)
  }

  /** The entry with the greatest key that is at most the given one. */
  function Floor<V>(m: seq<Entry<V>>, key: nat): (e: Option<Entry<V>>)
    ensures Sorted(m) && e.Some? ==> e.value in m && e.value.key <= key
    ensures Sorted(m) && e.Some? ==> forall x :: x in m && x.key <= key ==> x.key <= e.value.key
    ensures Sorted(m) && e.None? ==> forall x :: x in m ==> x.key > key
  {
    var n := UpperBound(m, key);
    if n == 0 then None else Some(m[n - 1])
  }

  predicate Has<V>(m: seq<Entry<V>>, key: nat) {
    var e := Floor(m, key);
    e.Some? && e.value.key == key
  }

  lemma SortedInsert<V>(m: seq<Entry<V>>, n: nat, e: Entry<V>)
    requires Sorted(m) && n <= |m|
    requires (forall i :: 0 <= i < n ==> m[i].key < e.key) && (forall i :: n <= i < |m| ==> m[i].key > e.key)
    ensures Sorted(m[..n] + [e] + m[n..])
  {
    var r := m[..n] + [e] + m[n..];
    assert forall i :: 0 <= i < n ==> r[i] == m[i];
    assert forall i :: n < i < |r| ==> r[i] == m[i - 1];
  }

  // A new key belongs strictly between the entries on either side.
  lemma Between<V>(m: seq<Entry<V>>, key: nat)
    requires Sorted(m) && !Has(m, key)
    ensures var n := UpperBound(m, key);
            (forall i :: 0 <= i < n ==> m[i].key < key) && (forall i :: n <= i < |m| ==> m[i].key > key)
  {
    var n := UpperBound(m, key);
    if n > 0 {
      assert m[n - 1].key != key;
    }
  }

  function Insert<V>(m: seq<Entry<V>>, key: nat, v: V): (r: seq<Entry<V>>)
    requires Sorted(m) && !Has(m, key)
    ensures Sorted(r) && r != []
  {
    var n := UpperBound(m, key);
    Between(m, key);
    SortedInsert(m, n, Entry(key, v));
    m[..n] + [Entry(key, v)] + m[n..]
  }

  /** Keeps an existing entry. */
  function TryEmplace<V>(m: seq<Entry<V>>, key: nat, v: V): (r: seq<Entry<V>>)
    requires Sorted(m)
    ensures Sorted(r)
  {
    if Has(m, key) then m else Insert(m, key, v)
  }

  /** Overwrites an existing entry. */
  function Assign<V>(m: seq<Entry<V>>, key: nat, v: V): (r: seq<Entry<V>>)
    requires Sorted(m)
    ensures Sorted(r)
  {
    if Has(m, key) then m[UpperBound(m, key) - 1 := Entry(key, v)] else Insert(m, key, v)
  }

  // In a sorted map a floor is determined by what it promises.
  lemma FloorIs<V>(m: seq<Entry<V>>, key: nat, j: nat)
    requires Sorted(m) && j < |m| && m[j].key <= key
    requires j + 1 < |m| ==> m[j + 1].key > key
    ensures Floor(m, key) == Some(m[j])
  {
  }

  // Where the entries of a map stand after an insertion.
  lemma InsertShape<V>(m: seq<Entry<V>>, key: nat, v: V)
    requires Sorted(m) && !Has(m, key)
    ensures var n, r := UpperBound(m, key), Insert(m, key, v);
            && |r| == |m| + 1 && r[n] == Entry(key, v)
            && (forall j :: 0 <= j < n ==> r[j] == m[j]) && (forall j :: n <= j < |m| ==> r[j + 1] == m[j])
  {
    hide UpperBound, Has;
  }

  /** A new entry is the floor from its key on, up to the next key, and nowhere else. */
  lemma FloorOfInsert<V>(m: seq<Entry<V>>, key: nat, v: V, i: nat)
    requires Sorted(m) && !Has(m, key)
    ensures Floor(Insert(m, key, v), i) ==
            if key <= i && (Floor(m, i).None? || Floor(m, i).value.key < key) then Some(Entry(key, v)) else Floor(m, i)
  {
    hide UpperBound, Insert;
    var n, r := UpperBound(m, key), Insert(m, key, v);
    var k := UpperBound(m, i);
    InsertShape(m, key, v);
    if key <= i {
      assert k >= n;
      if k < |m| {
        assert m[k].key > i && r[k + 1] == m[k];
      }
      if k == n {
        FloorIs(r, i, n);
      } else {
        assert m[k - 1].key > key && r[k] == m[k - 1];
        FloorIs(r, i, k);
      }
    } else {
      assert r[k].key > i by {
        if k < n {
          assert r[k] == m[k];
        }
      }
      if k > 0 {
        assert r[k - 1] == m[k - 1];
        FloorIs(r, i, k - 1);
      }
    }
  }

  // Overwriting replaces the one entry of its key.
  lemma OverwriteShape<V>(m: seq<Entry<V>>, key: nat, v: V)
    requires Sorted(m) && Has(m, key)
    ensures var n, r := UpperBound(m, key), Assign(m, key, v);
            n >= 1 && m[n - 1].key == key && r == m[n - 1 := Entry(key, v)]
  {
    hide UpperBound;
  }

  lemma FloorOfOverwrite<V>(m: seq<Entry<V>>, n: nat, v: V, i: nat)
    requires Sorted(m) && n < |m|
    ensures var e := Entry(m[n].key, v);
            Floor(m[n := e], i) == if Floor(m, i) == Some(m[n]) then Some(e) else Floor(m, i)
  {
    hide UpperBound;
    var r, k := m[n := Entry(m[n].key, v)], UpperBound(m, i);
    assert forall j :: 0 <= j < |m| ==> r[j].key == m[j].key;
    if k > 0 {
      FloorIs(r, i, k - 1);
    }
  }

  /** Overwriting changes the value from its key on, up to the next key, and nowhere else. */
  lemma FloorOfAssign<V>(m: seq<Entry<V>>, key: nat, v: V, i: nat)
    requires Sorted(m)
    ensures Floor(Assign(m, key, v), i) ==
            if key <= i && (Floor(m, i).None? || Floor(m, i).value.key <= key) then Some(Entry(key, v)) else Floor(m, i)
  {
    if Has(m, key) {
      hide UpperBound, Assign;
      OverwriteShape(m, key, v);
      FloorOfOverwrite(m, UpperBound(m, key) - 1, v, i);
      if Floor(m, i).Some? {
        assert Floor(m, i).value == m[UpperBound(m, i) - 1];
      }
    } else {
      FloorOfInsert(m, key, v, i);
    }
  }
}
