/**
 * The growing buffers of the compressed streams: linear growth by a granule, or doubling.
 */
module CompressionBuffers {
  import opened Bits
  import opened Trace

  // The largest size that doubling reaches before it leaves 64 bits.
  const MAX_SIZE: nat := U64 / 2

  // The number of doublings is what the growth is about: a size is the old one times a power of two.
  ghost predicate DoublesTo(from: nat, to: nat, least: nat) {
    exists k: nat :: k >= 1 && to == from * Pow2(k) && (k >= 2 ==> from * Pow2(k - 1) < least)
  }

  // A size shifted left k times, in 64 bits.
  function Doubled(from: nat, k: nat): (r: nat)
    ensures r < U64
  {
    from * Pow2(k) % U64
  }

  /** Whether the doubling loop ends, which a caller can tell by trying 63 shifts. */
  ghost predicate DoublingEnds(from: nat, least: nat) {
    exists k :: 1 <= k < 64 && Doubled(from, k) >= least
  }

  // The first shift that reaches a size.
  ghost predicate Reaches(from: nat, least: nat, k: nat) {
    k >= 1 && Doubled(from, k) >= least && forall j :: 1 <= j < k ==> Doubled(from, j) < least
  }

  class CompressionBuffer {
    var buf: array<Byte>
    var size: nat
    var writePtr: nat
    var granule: nat
    const exponential: bool

    // what has been written, and how many bytes reallocations have copied
    ghost var contents: seq<Byte>
    ghost var copied: nat

    ghost predicate Valid()
      reads this, buf
    {
      && writePtr <= buf.Length && buf[..writePtr] == contents
      && (exponential ==> copied <= buf.Length && (copied == 0 || copied < 2 * writePtr))
    }

    // What the next reallocation makes room for: a doubling buffer first allocates just its granule.
    predicate HasRoomFor(newSize: nat)
      reads this
    {
      exponential && buf.Length == 0 ==> newSize <= granule
    }

    constructor (exponential: bool)
      ensures Valid() && fresh(buf) && contents == [] && copied == 0 && buf.Length == 0
      ensures granule == 0 && this.exponential == exponential
    {
      this.exponential := exponential;
      buf := new Byte[0];
      granule, size, writePtr, contents, copied := 0, 0, 0, [], 0;
    }

    /**
     * Before anything is written, sets the granule and makes room for a first size; a doubling
     * buffer that has no allocation gets the granule instead, whether or not that is enough.
     */
    method InitSize(first: nat, granule: nat)
      requires Valid() && contents == [] && granule > 0 && first <= MAX_SIZE
      modifies this
      ensures Valid() && this.granule == granule && contents == [] && writePtr == 0 && size == first
      ensures buf == old(buf) || fresh(buf)
      ensures exponential && old(buf.Length) == 0 && first > 0 ==> buf.Length == granule
      ensures !exponential || old(buf.Length) > 0 ==> size <= buf.Length
    {
      this.granule := granule;
      Fit(first);
    }

    /** Linear growth: the least multiple of the granule that fits. */
    method NextSizeLinear(newSize: nat) returns (r: nat)
      requires granule > 0 && newSize > 0
      ensures r % granule == 0 && newSize <= r < newSize + granule
    {
      r := granule * (1 + (newSize - 1) / granule);
      MultipleOf(granule, newSize - 1);
    }

    /**
     * Exponential growth: the old size doubled, as often as needed and no more; an empty allocation
     * grows to the granule, whether or not that is enough.
     */
    method NextSizeExponential(newSize: nat) returns (r: nat)
      requires buf.Length < newSize < U64 && (buf.Length > 0 ==> DoublingEnds(buf.Length, newSize))
      ensures buf.Length == 0 ==> r == granule
      ensures buf.Length > 0 ==>
                newSize <= r && exists k :: Reaches(buf.Length, newSize, k) && r == Doubled(buf.Length, k)
      ensures 0 < buf.Length && newSize <= MAX_SIZE ==>
                2 * buf.Length <= r < U64 && DoublesTo(buf.Length, r, newSize)
    {
      hide Doubled, DoublesTo;
      if buf.Length == 0 {
        return granule;
      }
      r := (buf.Length * 2) % U64;
      ghost var k := 1;
      DoubledOnce(buf.Length);
      while r < newSize
        invariant 1 <= k < 64 && r == Doubled(buf.Length, k)
        invariant forall j :: 1 <= j < k ==> Doubled(buf.Length, j) < newSize
        decreases 64 - k
      {
        DoubledAgain(buf.Length, k);
        r := (r * 2) % U64;
        k := k + 1;
      }
      assert Reaches(buf.Length, newSize, k);
      if newSize <= MAX_SIZE {
        NoWrapBefore(buf.Length, newSize, k);
      }
    }

    // Reallocates if the new allocation is larger, and copies what was written.
    method Resize(newSize: nat, actualSize: nat)
      requires writePtr <= buf.Length
      modifies this`buf, this`size, this`copied
      ensures size == newSize && buf.Length >= old(buf.Length)
      ensures buf.Length == if actualSize > old(buf.Length) then actualSize else old(buf.Length)
      ensures buf == old(buf) || fresh(buf)
      ensures buf[..writePtr] == old(buf[..writePtr])
      ensures copied == old(copied) + if actualSize > old(buf.Length) then writePtr else 0
    {
      size := newSize;
      if actualSize > buf.Length {
        var newBuf := new Byte[actualSize](_ => 0);
        var i := 0;
        while i < writePtr
          invariant 0 <= i <= writePtr <= buf.Length && newBuf.Length == actualSize
          invariant newBuf[..i] == buf[..i] && fresh(newBuf) && newBuf != buf
          invariant buf == old(buf) && buf[..] == old(buf[..]) && size == newSize && copied == old(copied)
          modifies newBuf
        {
          newBuf[i] := buf[i];
          i := i + 1;
        }
        copied := copied + writePtr;
        buf := newBuf;
      }
    }

    /** Makes room for more bytes; what was written stays. */
    method Fit(n: nat)
      requires Valid() && granule > 0 && writePtr + n <= MAX_SIZE
      modifies this`buf, this`size, this`copied
      ensures size == writePtr + n && (size <= buf.Length <==> old(HasRoomFor(writePtr + n)))
      ensures buf == old(buf) || fresh(buf)
      ensures buf[..writePtr] == old(buf[..writePtr]) && buf.Length >= old(buf.Length)
      ensures if writePtr + n <= old(buf.Length) then copied == old(copied) && buf.Length == old(buf.Length)
              else copied == old(copied) + writePtr && (exponential ==> buf.Length >= 2 * old(buf.Length))
                   && (!exponential ==> buf.Length % granule == 0 && buf.Length < writePtr + n + granule)
                   && (exponential && old(buf.Length) == 0 ==> buf.Length == granule)
    {
      var newSize := n + writePtr;
      if newSize > buf.Length {
        var next;
        if exponential {
          if buf.Length > 0 {
            DoublingEndsExactly(buf.Length, newSize);
          }
          next := NextSizeExponential(newSize);
        } else {
          next := NextSizeLinear(newSize);
        }
        Resize(newSize, next);
      } else if newSize != size {
        Resize(newSize, newSize);
      }
    }

    /**
     * Appends to the buffer.  Over any run of appends the contents are what was written, the write
     * pointer stays inside the allocation, and a doubling buffer copies less than twice what it holds.
     */
    method Write(data: seq<Byte>)
      requires Valid() && granule > 0 && writePtr + |data| <= MAX_SIZE && HasRoomFor(writePtr + |data|)
      modifies this`buf, this`size, this`copied, this`writePtr, this`contents, buf
      ensures Valid() && contents == old(contents) + data && writePtr == old(writePtr) + |data|
      ensures (buf == old(buf) || fresh(buf)) && buf.Length >= old(buf.Length)
      ensures exponential ==> copied == 0 || copied < 2 * |contents|
    {
      Fit(|data|);
      CopyIn(data);
      writePtr := writePtr + |data|;
      contents := contents + data;
    }

    // Copies bytes behind what was written.
    method CopyIn(data: seq<Byte>)
      requires writePtr + |data| <= buf.Length
      modifies buf
      ensures buf[..writePtr + |data|] == old(buf[..writePtr]) + data
    {
      var i := 0;
      ghost var before := buf[..writePtr];
      while i < |data|
        invariant 0 <= i <= |data| && buf[..writePtr] == before
        invariant buf[writePtr..writePtr + i] == data[..i]
      {
        buf[writePtr + i] := data[i];
        i := i + 1;
      }
      assert buf[writePtr..writePtr + |data|] == data;
    }
  }

  /**
   * The doubling loop ends exactly when one of 63 shifts reaches the size, as later ones give zero.
   * Up to half of 64 bits it always does.
   */
  lemma DoublingEndsExactly(from: nat, least: nat)
    requires 0 < from && 0 < least < U64
    ensures DoublingEnds(from, least) <==> exists k: nat :: k >= 1 && Doubled(from, k) >= least
    ensures from < least <= MAX_SIZE ==> DoublingEnds(from, least)
  {
    hide Doubled;
    forall k: nat | k >= 64
      ensures Doubled(from, k) < least
    {
      ShiftedOut(from, k);
    }
    if from < least <= MAX_SIZE {
      PowerOfZero(from);
      var k := FindReach(from, least, 0);
    }
  }

  lemma PowerOfZero(from: nat)
    ensures from * Pow2(0) == from
  {
  }

  lemma ShiftedOut(from: nat, k: nat)
    requires k >= 64
    ensures Doubled(from, k) == 0
  {
    hide Pow2;
    Pow2Of64();
    Pow2Add(64, k - 64);
    assert from * (U64 * Pow2(k - 64)) == U64 * (from * Pow2(k - 64));
    DivModUnique(from * Pow2(k), U64, from * Pow2(k - 64), 0);
  }

  lemma InWord(from: nat, k: nat)
    requires from * Pow2(k) < U64
    ensures Doubled(from, k) == from * Pow2(k)
  {
    hide Pow2;
    DivModUnique(from * Pow2(k), U64, 0, from * Pow2(k));
  }

  // A shift that stays below half of 64 bits has fewer than 63 places.
  lemma FewPlaces(from: nat, k: nat)
    requires 0 < from && from * Pow2(k) < MAX_SIZE
    ensures k < 63
  {
    hide Pow2;
    MultipleIsFar(Pow2(k), from);
    if k >= 63 {
      PowersGrow(63, k);
      Pow2Of64();
      OnePowerMore(63);
    }
  }

  lemma {:induction false} FindReach(from: nat, least: nat, k: nat) returns (r: nat)
    requires 0 < from && from * Pow2(k) < least <= MAX_SIZE
    ensures 1 <= r < 64 && Doubled(from, r) >= least
    decreases 64 - k
  {
    hide Pow2, Doubled;
    FewPlaces(from, k);
    OnePowerMore(k);
    Twice(from, Pow2(k));
    InWord(from, k + 1);
    if from * Pow2(k + 1) >= least {
      r := k + 1;
    } else {
      r := FindReach(from, least, k + 1);
    }
  }

  lemma DoubledOnce(from: nat)
    ensures (from * 2) % U64 == Doubled(from, 1)
  {
    assert Pow2(1) == 2;
  }

  lemma DoubledAgain(from: nat, k: nat)
    ensures (Doubled(from, k) * 2) % U64 == Doubled(from, k + 1)
  {
    hide Pow2;
    OnePowerMore(k);
    Twice(from, Pow2(k));
    var x := from * Pow2(k);
    var q, r := x / U64, x % U64;
    var p, t := (r * 2) / U64, (r * 2) % U64;
    assert x == U64 * q + r && r * 2 == U64 * p + t;
    DivModUnique(x * 2, U64, 2 * q + p, t);
  }

  // Up to half of 64 bits nothing is shifted out before the size is reached.
  lemma NoWrapBefore(from: nat, least: nat, k: nat)
    requires 0 < from < least <= MAX_SIZE && Reaches(from, least, k)
    ensures Doubled(from, k) == from * Pow2(k) >= 2 * from && DoublesTo(from, Doubled(from, k), least)
  {
    hide Pow2, Doubled;
    NotReachedBefore(from, least, k - 1);
    OnePowerMore(k - 1);
    Twice(from, Pow2(k - 1));
    InWord(from, k);
    MultipleIsFar(from, Pow2(k - 1));
  }

  lemma {:induction false} NotReachedBefore(from: nat, least: nat, k: nat)
    requires 0 < from < least <= MAX_SIZE && forall j :: 1 <= j <= k ==> Doubled(from, j) < least
    ensures from * Pow2(k) < least
  {
    hide Doubled;
    if k == 0 {
      PowerOfZero(from);
    } else {
      NotReachedBefore(from, least, k - 1);
      Twice(from, Pow2(k - 1));
      InWord(from, k);
    }
  }

  /** From a power of two no shift reaches more than half of 64 bits: the loop never ends. */
  lemma DoublingNeverEnds(j: nat, newSize: nat)
    requires MAX_SIZE < newSize < U64
    ensures !DoublingEnds(Pow2(j), newSize)
  {
    hide Pow2;
    forall k: nat
      ensures Doubled(Pow2(j), k) < newSize
    {
      Pow2Add(j, k);
      PowerInWord(j + k);
    }
  }

  lemma PowerInWord(n: nat)
    ensures Pow2(n) % U64 <= MAX_SIZE
  {
    hide Pow2;
    Pow2Of64();
    if n < 64 {
      OnePowerMore(63);
      PowersGrow(n, 63);
    } else {
      Pow2Add(64, n - 64);
      DivModUnique(Pow2(n), U64, Pow2(n - 64), 0);
    }
  }

  lemma OnePowerMore(n: nat)
    ensures Pow2(n + 1) == 2 * Pow2(n)
  {
  }

  lemma PowersGrow(m: nat, n: nat)
    requires m <= n
    ensures Pow2(m) <= Pow2(n)
  {
    if m < n {
      PowersGrow(m, n - 1);
    }
  }

  lemma MultipleOf(g: nat, x: nat)
    requires g > 0
    ensures g * (1 + x / g) % g == 0 && x < g * (1 + x / g) <= x + g
  {
    assert x == g * (x / g) + x % g;
    DivModUnique(g * (1 + x / g), g, 1 + x / g, 0);
  }

  lemma Twice(a: nat, p: nat)
    ensures a * p * 2 == a * (2 * p)
  {
  }

  /** Appending piece by piece is appending all of it. */
  method WriteAll(pieces: seq<seq<Byte>>, first: nat, granule: nat, exponential: bool) returns (b: CompressionBuffer)
    requires granule > 0 && 0 < first <= MAX_SIZE && |Flatten(pieces)| <= MAX_SIZE
    ensures b.Valid() && b.contents == Flatten(pieces) == b.buf[..b.writePtr]
    ensures exponential ==> b.copied == 0 || b.copied < 2 * |Flatten(pieces)|
  {
    b := new CompressionBuffer(exponential);
    b.InitSize(first, granule);
    var i := 0;
    while i < |pieces|
      invariant 0 <= i <= |pieces| && fresh(b) && fresh(b.buf) && b.Valid() && b.contents == Flatten(pieces[..i])
      invariant b.exponential == exponential && b.granule > 0 && b.buf.Length > 0
    {
      FlattenPiece(pieces, i);
      b.Write(pieces[i]);
      i := i + 1;
    }
    assert pieces[..i] == pieces;
  }

  lemma FlattenPiece(pieces: seq<seq<Byte>>, i: nat)
    requires i < |pieces|
    ensures Flatten(pieces[..i + 1]) == Flatten(pieces[..i]) + pieces[i]
    ensures |Flatten(pieces[..i])| + |pieces[i]| <= |Flatten(pieces)|
  {
    hide Flatten;
    assert pieces[..i + 1] == pieces[..i] + [pieces[i]] && pieces == pieces[..i + 1] + pieces[i + 1..];
    FlattenSnoc(pieces[..i], pieces[i]);
    FlattenConcat(pieces[..i + 1], pieces[i + 1..]);
  }
}
