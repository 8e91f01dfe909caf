/**
 * A view of two vectors as one, and its random-access iterator, which holds the vector it is in and
 * a place in that vector.
 */
module CombinedViews {

  // A place in one of the two vectors; the end of the first vector is not a place, the start of the second is.
  datatype Place = Place(inFirst: bool, index: nat)

  predicate IsPlace<T>(v1: seq<T>, v2: seq<T>, p: Place) {
    if p.inFirst then p.index < |v1| else p.index <= |v2|
  }

  // pos_(): the place counted over both vectors.
  function Position<T>(v1: seq<T>, p: Place): nat {
    if p.inFirst then p.index else |v1| + p.index
  }

  function PlaceAt<T>(v1: seq<T>, v2: seq<T>, pos: nat): Place
    requires pos <= |v1| + |v2|
  {
    if pos < |v1| then Place(true, pos) else Place(false, pos - |v1|)
  }

  /** Places and positions are the same thing: equal places are those at equal positions. */
  lemma PlacesArePositions<T>(v1: seq<T>, v2: seq<T>, p: Place, q: Place, pos: nat)
    requires IsPlace(v1, v2, p) && IsPlace(v1, v2, q) && pos <= |v1| + |v2|
    ensures Position(v1, p) <= |v1| + |v2| && PlaceAt(v1, v2, Position(v1, p)) == p
    ensures IsPlace(v1, v2, PlaceAt(v1, v2, pos)) && Position(v1, PlaceAt(v1, v2, pos)) == pos
    ensures p == q <==> Position(v1, p) == Position(v1, q)
  {
  }

  /** An iterator over v1 and then v2. */
  class CombinedIterator<T> {
    const vec1: seq<T>
    const vec2: seq<T>
    var inFirst: bool
    // may stand one past the end of the first vector until it is moved to the second
    var index: int

    ghost predicate Valid()
      reads this
    {
      0 <= index && IsPlace(vec1, vec2, Place(inFirst, index))
    }

    function Pos(): (p: nat)
      requires Valid()
      reads this
      ensures p <= |vec1| + |vec2|
    {
      if inFirst then index else |vec1| + index
    }

    constructor Begin(v1: seq<T>, v2: seq<T>)
      ensures vec1 == v1 && vec2 == v2 && Valid() && Pos() == 0
    {
      vec1, vec2 := v1, v2;
      inFirst, index := true, 0;
      new;
      CheckIteratorFwd();
    }

    constructor End(v1: seq<T>, v2: seq<T>)
      ensures vec1 == v1 && vec2 == v2 && Valid() && Pos() == |v1| + |v2|
    {
      vec1, vec2 := v1, v2;
      inFirst, index := false, |v2|;
    }

    constructor Copy(it: CombinedIterator<T>)
      requires it.Valid()
      ensures vec1 == it.vec1 && vec2 == it.vec2 && Valid() && Pos() == it.Pos()
    {
      vec1, vec2 := it.vec1, it.vec2;
      inFirst, index := it.inFirst, it.index;
    }

    method SkipToVec1()
      modifies this
      ensures inFirst && index == |vec1| - 1
    {
      inFirst, index := true, |vec1| - 1;
    }

    method SkipToVec2()
      modifies this
      ensures !inFirst && index == 0
    {
      inFirst, index := false, 0;
    }

    method CheckIteratorFwd()
      modifies this
      ensures if old(inFirst && index == |vec1|) then !inFirst && index == 0
              else inFirst == old(inFirst) && index == old(index)
    {
      if inFirst && index == |vec1| {
        SkipToVec2();
      }
    }

    method CheckIteratorRev() returns (moved: bool)
      modifies this
      ensures moved == old(!inFirst && index == 0)
      ensures if moved then inFirst && index == |vec1| - 1 else inFirst == old(inFirst) && index == old(index)
    {
      moved := !inFirst && index == 0;
      if moved {
        SkipToVec1();
      }
    }

    method Increment()
      requires Valid() && Pos() < |vec1| + |vec2|
      modifies this
      ensures Valid() && Pos() == old(Pos()) + 1
    {
      index := index + 1;
      CheckIteratorFwd();
    }

    method Decrement()
      requires Valid() && Pos() > 0
      modifies this
      ensures Valid() && Pos() == old(Pos()) - 1
    {
      var moved := CheckIteratorRev();
      index := index - if moved then 0 else 1;
    }

    // Where the iterator points, in the view or outside it.
    function Target(): int
      reads this
    {
      if inFirst then index else |vec1| + index
    }

    /**
     * Moves by any distance, in either direction and over the seam.  Inside the view it always
     * arrives, as an iterator of the view.  Leaving the view throws only where no seam is crossed:
     * past the end from the second vector, before the beginning from the first.
     */
    method Advance(n: int) returns (ok: bool)
      requires Valid()
      modifies this
      ensures ok <==> (if old(inFirst) then old(Pos()) + n >= 0 else old(Pos()) + n <= |vec1| + |vec2|)
      ensures Target() == if ok then old(Pos()) + n else old(Pos())
      ensures 0 <= Target() <= |vec1| + |vec2| ==> Valid() && Pos() == Target()
    {
      var pos := index;
      var curSize := if inFirst then |vec1| else |vec2|;
      if n > 0 {
        if pos + n > curSize {
          if !inFirst {
            return false;
          }
          SkipToVec2();
          index := index + n - (curSize - pos);
        } else {
          index := index + n;
          CheckIteratorFwd();
        }
      } else if n < 0 {
        if pos + n < 0 {
          if inFirst {
            return false;
          }
          SkipToVec1();
          index := index + n + pos + 1;
        } else {
          var moved := CheckIteratorRev();
          index := index + n + if moved then 1 else 0;
        }
      }
      return true;
    }

    /** The iterator n places on, as a new object. */
    method Plus(n: int) returns (r: CombinedIterator<T>)
      requires Valid() && 0 <= Pos() + n <= |vec1| + |vec2|
      ensures fresh(r) && r.Valid() && r.vec1 == vec1 && r.vec2 == vec2 && r.Pos() == Pos() + n
    {
      r := new CombinedIterator<T>.Copy(this);
      var ok := r.Advance(n);
    }

    predicate Equals(other: CombinedIterator<T>)
      reads this, other
    {
      inFirst == other.inFirst && index == other.index
    }

    function Deref(): T
      requires Valid() && Pos() < |vec1| + |vec2|
      reads this
    {
      if inFirst then vec1[index] else vec2[index]
    }

    /** The element at a distance from the iterator. */
    method At(n: int) returns (x: T)
      requires Valid() && 0 <= Pos() + n < |vec1| + |vec2|
      ensures x == (vec1 + vec2)[Pos() + n]
    {
      var it := Plus(n);
      x := it.Deref();
    }
  }

  /** Subtraction agrees with position. */
  method Difference<T>(b: CombinedIterator<T>, a: CombinedIterator<T>) returns (n: int)
    requires a.Valid() && b.Valid() && a.vec1 == b.vec1 && a.vec2 == b.vec2
    ensures n == b.Pos() - a.Pos()
    ensures n == 0 <==> b.Equals(a)
  {
    n := b.Pos() - a.Pos();
  }

  /** Going n places and n back is going nowhere, and the distance between is n. */
  method ThereAndBack<T>(it: CombinedIterator<T>, n: int) returns (back: CombinedIterator<T>, distance: int)
    requires it.Valid() && 0 <= it.Pos() + n <= |it.vec1| + |it.vec2|
    ensures back.Equals(it) && distance == n
  {
    var there := it.Plus(n);
    back := there.Plus(-n);
    distance := Difference(there, it);
  }

  /** From begin to end the iterator visits the first vector and then the second, whichever are empty. */
  method Visit<T>(v1: seq<T>, v2: seq<T>) returns (visited: seq<T>)
    ensures visited == v1 + v2
  {
    visited := [];
    var it := new CombinedIterator<T>.Begin(v1, v2);
    var end := new CombinedIterator<T>.End(v1, v2);
    while !it.Equals(end)
      invariant fresh(it) && fresh(end) && it != end && it.Valid() && end.Valid() && end.Pos() == |v1| + |v2|
      invariant it.vec1 == end.vec1 == v1 && it.vec2 == end.vec2 == v2
      invariant visited == (v1 + v2)[..it.Pos()]
      decreases |v1| + |v2| - it.Pos()
    {
      visited := visited + [it.Deref()];
      it.Increment();
    }
  }
}
