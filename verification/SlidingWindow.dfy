/**
 * The sliding-window reader: a circular buffer refilled by halves while an iterator moves through
 * it.  Items are numbered from 1; skipped items are dropped on the way into the buffer.
 */
module SlidingWindow {
  import opened Bits

  // One item of the underlying trace, and whether the reader's filter drops it.
  datatype Raw = Raw(body: int, skip: bool)

  // One slot of the circular buffer.
  datatype Item = Item(index: nat, skipped: bool, body: int)

  // What a reset item looks like: index 0, not skipped.
  const BLANK := Item(0, false, 0)

  // An iterator is copied freely, so it is a value; it holds no part of the window.
  datatype Iter = Iter(index: nat, loc: nat, end: bool)

  datatype Step = Moved(index: nat, loc: nat) | AtEnd | Thrown

  datatype Lookup = Found(item: Item) | NoItem | OutOfWindow

  /** The bodies of the items that are not skipped, in order. */
  function Kept(s: seq<Raw>): (r: seq<int>)
    ensures |r| <= |s|
  {
    if s == [] then []
    else
      var rest := Kept(s[..|s| - 1]);
      if s[|s| - 1].skip then rest else rest + [s[|s| - 1].body]
  }

  lemma {:induction false} KeptPrefix(s: seq<Raw>, n: nat)
    requires n <= |s|
    ensures Kept(s[..n]) <= Kept(s)
  {
    if n < |s| {
      KeptPrefix(s[..|s| - 1], n);
      assert s[..|s| - 1][..n] == s[..n];
    } else {
      assert s[..n] == s;
    }
  }

  // Reading one more item appends its body when it is kept, and nothing otherwise.
  lemma KeptNext(s: seq<Raw>, n: nat)
    requires n < |s|
    ensures Kept(s[..n + 1]) == if s[n].skip then Kept(s[..n]) else Kept(s[..n]) + [s[n].body]
    ensures Kept(s[..n + 1]) <= Kept(s)
  {
    assert s[..n + 1][..n] == s[..n];
    KeptPrefix(s, n + 1);
  }

  // Without skipping, every item is kept.
  lemma {:induction false} KeptAll(s: seq<Raw>)
    requires forall i :: 0 <= i < |s| ==> !s[i].skip
    ensures |Kept(s)| == |s|
  {
    if s != [] {
      KeptAll(s[..|s| - 1]);
    }
  }

  /** The slot of the x-th item loaded (from 0) into a circular buffer of the given size. */
  function Slot(x: nat, size: nat): (r: nat)
    requires size > 0
    ensures r < size
    ensures x < size ==> r == x
  {
    if x < size then x else Slot(x - size, size)
  }

  lemma {:induction false} SlotAdd(x: nat, c: nat, size: nat)
    requires 0 < size && c <= size
    ensures Slot(x + c, size) == if Slot(x, size) + c < size then Slot(x, size) + c else Slot(x, size) + c - size
  {
    if x >= size {
      SlotAdd(x - size, c, size);
    }
  }

  // Items less than a buffer apart never share a slot.
  lemma SlotDistinct(x: nat, y: nat, size: nat)
    requires size > 0 && x < y < x + size
    ensures Slot(x, size) != Slot(y, size)
  {
    SlotAdd(x, y - x, size);
  }

  // Loading item w overwrites nothing of the window but its oldest item.
  lemma OnlyOldestShares(w: nat, size: nat)
    requires size > 0
    ensures forall x: nat :: w < x + size && x < w ==> Slot(x, size) != Slot(w, size)
  {
    forall x: nat | w < x + size && x < w
      ensures Slot(x, size) != Slot(w, size)
    {
      SlotDistinct(x, w, size);
    }
  }

  function KeptItem(kept: seq<int>, i: nat): Item
    requires 1 <= i <= |kept|
  {
    Item(i, false, kept[i - 1])
  }

  /**
   * The window: of the kept items base+1 .. seen loaded so far, the newest |b| sit in their slots;
   * the oldest of a full window is exempt when told so.
   */
  ghost predicate Holds(b: seq<Item>, kept: seq<int>, base: nat, seen: nat, exceptOldest: bool)
    requires |b| > 0 && base <= seen <= |kept|
  {
    forall x: nat :: seen - base <= x + |b| && x < seen - base
                     && (exceptOldest ==> seen - base < x + |b|) ==>
      b[Slot(x, |b|)] == KeptItem(kept, base + x + 1)
  }

  lemma NothingLoaded(b: seq<Item>, kept: seq<int>, base: nat)
    requires |b| > 0 && base <= |kept|
    ensures Holds(b, kept, base, base, false)
  {
  }

  lemma NotYetFull(b: seq<Item>, kept: seq<int>, base: nat, seen: nat)
    requires |b| > 0 && base <= seen <= |kept| && seen < base + |b| && Holds(b, kept, base, seen, true)
    ensures Holds(b, kept, base, seen, false)
  {
  }

  // Overwriting the next slot costs the window at most its oldest item ...
  lemma OverwriteNext(b: seq<Item>, kept: seq<int>, base: nat, seen: nat, item: Item)
    requires |b| > 0 && base <= seen <= |kept| && Holds(b, kept, base, seen, true)
    ensures Holds(b[Slot(seen - base, |b|) := item], kept, base, seen, true)
    // ... and when it is overwritten by the next kept item, the window moves on by one item.
    ensures seen < |kept| && item == KeptItem(kept, seen + 1) ==>
              Holds(b[Slot(seen - base, |b|) := item], kept, base, seen + 1, false)
  {
    OnlyOldestShares(seen - base, |b|);
  }

  function Wrap(x: nat, size: nat): nat
    requires x < 2 * size
  {
    if x < size then x else x - size
  }

  // Where the window's ends are once w items have been loaded.
  predicate Ends(head: nat, tail: nat, w: nat, size: nat): (e: bool)
    requires size > 0
    ensures e ==> head < size && tail < size
    ensures e && w > 0 ==> tail == Slot(w - 1, size)
    ensures e && w >= size ==> head == Slot(w, size)
  {
    && head == (if w < size then 0 else Slot(w, size))
    && tail == (if w == 0 then 0 else Slot(w - 1, size))
  }

  // Whole refills leave the tail at the end of one half or the other.
  predicate AtHalf(tail: nat, size: nat) {
    tail + 1 == size || tail + 1 == size / 2
  }

  lemma FreshEnds(w: nat, size: nat)
    requires w <= size && 0 < size
    ensures Ends(0, if w == 0 then 0 else w - 1, w, size)
  {
    SlotAdd(0, size, size);
  }

  // A full window moves both ends together.
  lemma AdvanceEnds(head: nat, tail: nat, w: nat, count: nat, size: nat)
    requires size > 0 && count <= size && w >= size && Ends(head, tail, w, size)
    ensures Ends(Wrap(head + count, size), Wrap(tail + count, size), w + count, size)
  {
    SlotAdd(w - 1, count, size);
    SlotAdd(w, count, size);
  }

  // One less, in 64 bits.
  function Decremented(x: nat): nat { (x + U64 - 1) % U64 }

  class BufferedReader {
    const source: seq<Raw>
    const bufferSize: nat
    const onlyUserMode: bool
    ghost const sizeLog: nat

    var buf: array?<Item>
    var head: nat
    var tail: nat
    var numItemsRead: nat
    var rawRead: nat
    var numSkipped: nat
    var lastItemRead: bool
    var bufferIsEmpty: bool
    // Kept items that had been read when the buffer was last built from scratch.
    ghost var base: nat

    constructor (source: seq<Raw>, bufferSize: nat, onlyUserMode: bool, ghost sizeLog: nat)
      requires bufferSize == Pow2(sizeLog) && 4 <= bufferSize && 2 * bufferSize <= U64 && sizeLog <= 64
      requires |source| + bufferSize < U64
      requires onlyUserMode || forall i :: 0 <= i < |source| ==> !source[i].skip
      ensures this.source == source && this.bufferSize == bufferSize && this.onlyUserMode == onlyUserMode
      ensures Configured() && Counts() && buf == null && tail == 0 && rawRead == 0 && !lastItemRead
    {
      this.source, this.bufferSize, this.onlyUserMode, this.sizeLog := source, bufferSize, onlyUserMode, sizeLog;
      buf, head, tail, numItemsRead, rawRead, numSkipped := null, 0, 0, 0, 0, 0;
      lastItemRead, bufferIsEmpty, base := false, true, 0;
      assert source[..0] == [];
    }

    // The constructor's configuration: a power of two of at least 4 slots, and a trace whose
    // length fits the index type.
    ghost predicate Configured()
    {
      && bufferSize == Pow2(sizeLog) && 4 <= bufferSize && 2 * bufferSize <= U64 && sizeLog <= 64
      && |source| + bufferSize < U64
      && bufferSize % 2 == 0
      && (onlyUserMode || forall i :: 0 <= i < |source| ==> !source[i].skip)
    }

    ghost predicate Counts(): (c: bool)
      reads this
      ensures c ==> numSkipped <= rawRead <= |source|
    {
      rawRead <= |source| && numSkipped + |Kept(source[..rawRead])| == rawRead
    }

    // Kept items read from the source so far: the index of the newest one.
    function Seen(): nat
      requires Counts()
      reads this
    {
      rawRead - numSkipped
    }

    lemma SeenBound()
      requires Counts()
      ensures Seen() <= |Kept(source)|
      ensures rawRead == |source| ==> Seen() == |Kept(source)|
    {
      KeptPrefix(source, rawRead);
      assert source[..|source|] == source;
    }

    // The window of the buffer as it stands.
    ghost predicate Window(exceptOldest: bool)
      reads this, buf
    {
      && Configured() && Counts()
      && buf != null && buf.Length == bufferSize
      && base <= Seen() <= |Kept(source)|
      && Holds(buf[..], Kept(source), base, Seen(), exceptOldest)
    }

    lemma RelaxWindow(exceptOldest: bool)
      requires Window(exceptOldest)
      ensures Window(true)
    {
    }

    ghost predicate Valid()
      reads this, buf
    {
      && Window(lastItemRead)
      && (lastItemRead ==> rawRead == |source|)
      && (bufferIsEmpty <==> Seen() == base)
      && (!lastItemRead ==> Seen() - base >= bufferSize && AtHalf(tail, bufferSize))
      && Ends(head, tail, Seen() - base, bufferSize)
      && (lastItemRead && Seen() - base >= bufferSize ==> buf[head] == BLANK)
      && (bufferIsEmpty ==> buf[head] == BLANK)
    }

    // The index of the oldest item of the window.
    ghost function First(): nat
      requires Counts() && base <= Seen()
      reads this
    {
      if Seen() - base <= bufferSize then base + 1 else Seen() - bufferSize + 1
    }

    // An iterator handed out since the buffer was built, possibly long left behind by the window.
    ghost predicate Tracks(index: nat, loc: nat)
      reads this
    {
      Counts() && base < index <= Seen() && bufferSize > 0 && loc == Slot(index - base - 1, bufferSize)
    }

    // An iterator in the window that is not the item lost to the failed read at the end of the trace.
    ghost predicate Live(index: nat, loc: nat)
      requires Counts() && base <= Seen()
      reads this
    {
      && Tracks(index, loc)
      && First() <= index
      && (lastItemRead && Seen() - base >= bufferSize ==> First() < index)
      && (index == Seen() ==> lastItemRead)
    }

    // Indexing mask: bitwise "and" on 64-bit words.
    function Mask(x: nat): (r: nat)
      requires Configured()
    {
      And(x % U64, bufferSize - 1)
    }

    lemma MaskIsWrap(x: nat)
      requires Configured() && x < 2 * bufferSize && x < U64
      ensures Mask(x) == Wrap(x, bufferSize)
    {
      hide And, Pow2;
      AndLowMask(x, sizeLog);
      if x < bufferSize {
        DivModUnique(x, bufferSize, 0, x);
      } else {
        DivModUnique(x, bufferSize, 1, x - bufferSize);
      }
    }

    // The largest word masks to the last slot.
    lemma MaskOfAllOnes()
      requires Configured()
      ensures Mask(U64 - 1) == bufferSize - 1
    {
      hide And, Pow2;
      ModOfU64(sizeLog);
      AndLowMask(U64 - 1, sizeLog);
      var q := Pow2(64 - sizeLog);
      assert bufferSize * (q - 1) == bufferSize * q - bufferSize;
      DivModUnique(U64 - 1, bufferSize, q - 1, bufferSize - 1);
    }

    method NextSlot(pos: nat, ghost x: nat) returns (next: nat)
      requires Configured() && pos == Slot(x, bufferSize)
      ensures next == Slot(x + 1, bufferSize)
    {
      SlotAdd(x, 1, bufferSize);
      MaskIsWrap(pos + 1);
      next := Mask(pos + 1);
    }

    method PreviousSlot(pos: nat, ghost x: nat) returns (previous: nat)
      requires Configured() && pos == Slot(x + 1, bufferSize)
      ensures previous == Slot(x, bufferSize)
    {
      SlotAdd(x, 1, bufferSize);
      MaskOfMinusOne(pos);
      previous := Mask(Decremented(pos));
    }

    // Decrementing slot 0 wraps at 64 bits and is masked to the last slot.
    lemma MaskOfMinusOne(pos: nat)
      requires Configured() && pos < bufferSize
      ensures Mask(Decremented(pos)) == if pos == 0 then bufferSize - 1 else pos - 1
    {
      hide And, Pow2, Kept, Mask;
      if pos == 0 {
        MaskOfAllOnes();
        DivModUnique(U64 - 1, U64, 0, U64 - 1);
      } else {
        DivModUnique(pos + U64 - 1, U64, 1, pos - 1);
        MaskIsWrap(pos - 1);
      }
    }

    /**
     * Resets the slot, then fills it with the next item unless the trace is exhausted.  The slot
     * is the next one of the circle, so only the oldest item of a full window is at risk.
     */
    method ReadNextItem(pos: nat) returns (eof: bool)
      requires Window(true) && pos == Slot(Seen() - base, bufferSize)
      modifies this`rawRead, this`numSkipped, buf
      ensures Window(true)
      ensures eof <==> old(rawRead) == |source|
      ensures eof ==> buf[pos] == BLANK && rawRead == old(rawRead) && Seen() == old(Seen())
      ensures !eof ==> rawRead == old(rawRead) + 1
      ensures !eof && buf[pos].skipped ==> source[old(rawRead)].skip && Seen() == old(Seen())
      ensures !eof && !buf[pos].skipped ==>
                !source[old(rawRead)].skip && Seen() == old(Seen()) + 1 && Window(false)
    {
      hide Kept, Slot, Pow2, And;
      ghost var before, seen := buf[..], Seen();
      buf[pos] := BLANK;
      if rawRead == |source| {
        OverwriteNext(before, Kept(source), base, seen, BLANK);
        return true;
      }
      KeptNext(source, rawRead);
      var next := source[rawRead];
      rawRead := rawRead + 1;
      numSkipped := numSkipped + (if next.skip then 1 else 0);
      var item := Item(rawRead - numSkipped, next.skip, next.body);
      buf[pos] := item;
      OverwriteNext(before, Kept(source), base, seen, item);
      assert buf[..] == before[pos := item];
      return false;
    }

    // The reading loop of InitItemBuffer: fills the fresh buffer from its first slot on.
    method LoadItems()
      requires Window(false) && tail == 0 && Seen() == base
      requires lastItemRead ==> rawRead == |source|
      modifies this`tail, this`rawRead, this`numSkipped, this`lastItemRead, buf
      ensures Window(false) && tail == Seen() - base <= bufferSize
      ensures lastItemRead ==> rawRead == |source| && tail < bufferSize
      ensures !lastItemRead ==> tail == bufferSize
      ensures tail == 0 ==> buf[0] == BLANK
    {
      hide Kept, Slot, Pow2, And, Holds;
      var i := 0;
      while i < bufferSize
        invariant 0 <= i <= bufferSize && tail == i && (lastItemRead ==> i == 0 && rawRead == |source|)
        invariant Window(false) && base + i == Seen()
        decreases |source| - rawRead
      {
        RelaxWindow(false);
        var eof := ReadNextItem(i);
        if eof {
          NotYetFull(buf[..], Kept(source), base, Seen());
          lastItemRead := true;
          break;
        }
        if buf[i].skipped {
          NotYetFull(buf[..], Kept(source), base, Seen());
          continue;
        }
        tail := tail + 1;
        i := i + 1;
      }
    }

    /** Builds the buffer from the current position of the source; false when nothing is left. */
    method InitItemBuffer() returns (ok: bool)
      requires Configured() && Counts() && tail == 0 && (lastItemRead ==> rawRead == |source|)
      modifies this
      ensures Valid() && fresh(buf)
      ensures base == old(Seen()) && head == 0 && Seen() - base <= bufferSize && !LostOldest()
      ensures ok <==> base < |Kept(source)|
      ensures ok <==> !bufferIsEmpty
    {
      hide Kept, Slot, Pow2, And, Ends, Holds, AtHalf;
      buf := new Item[bufferSize](_ => BLANK);
      base := Seen();
      SeenBound();
      NothingLoaded(buf[..], Kept(source), base);
      LoadItems();
      ok := SetEnds();
      SeenBound();
    }

    // The end of building the buffer: the tail moves from behind the newest item onto it.
    method SetEnds() returns (ok: bool)
      requires Window(false) && tail == Seen() - base <= bufferSize
      requires lastItemRead ==> rawRead == |source| && tail < bufferSize
      requires !lastItemRead ==> tail == bufferSize
      requires tail == 0 ==> buf[0] == BLANK
      modifies this`head, this`tail, this`bufferIsEmpty
      ensures Valid() && head == 0
      ensures ok <==> Seen() > base
      ensures ok <==> !bufferIsEmpty
    {
      hide Kept, Slot, Pow2, And, Ends, Holds;
      RelaxWindow(false);
      FreshEnds(tail, bufferSize);
      if tail == 0 {
        bufferIsEmpty := true;
        head := 0;
        return false;
      }
      bufferIsEmpty := false;
      tail := tail - 1;
      head := 0;
      return true;
    }

    /** Refills half of the buffer over its oldest half, stopping at the end of the trace. */
    method FillHalfBuffer() returns (count: nat)
      requires Valid() && !bufferIsEmpty
      modifies this`head, this`tail, this`rawRead, this`numSkipped, this`lastItemRead, buf
      ensures Valid() && !bufferIsEmpty
      ensures count == Seen() - old(Seen()) <= bufferSize / 2
      ensures count < bufferSize / 2 ==> lastItemRead
      ensures old(lastItemRead) ==> count == 0 && lastItemRead
    {
      hide Kept, Slot, Pow2, And, Holds, Ends, Wrap, AtHalf, LostOldest, First, Live, Tracks;
      var initial := Seen();
      ghost var w := initial - base;
      FillUntil(initial + bufferSize / 2);
      count := Seen() - initial;
      SeenBound();
      MoveEnds(w, count);
    }

    // The refilling loop.
    method FillUntil(max: nat)
      requires Window(lastItemRead) && base < Seen() < max && tail == Slot(Seen() - base - 1, bufferSize)
      requires lastItemRead ==> rawRead == |source|
      modifies this`rawRead, this`numSkipped, this`lastItemRead, buf
      ensures Window(lastItemRead) && old(Seen()) <= Seen() <= max
      ensures lastItemRead ==> rawRead == |source|
      ensures Seen() < max ==> lastItemRead
      ensures old(lastItemRead) ==> lastItemRead && Seen() == old(Seen())
      ensures lastItemRead ==> buf[Slot(Seen() - base, bufferSize)] == BLANK
    {
      hide Kept, Slot, Pow2, And, Holds, Configured;
      var pos := tail;
      ghost var oldestIntact := !lastItemRead;
      while Seen() < max
        invariant Window(!oldestIntact) && old(Seen()) <= Seen() <= max
        invariant lastItemRead == old(lastItemRead)
        invariant lastItemRead ==> rawRead == |source| && Seen() == old(Seen())
        invariant pos == Slot(Seen() - base - 1, bufferSize)
        invariant Seen() == max ==> oldestIntact
        decreases |source| - rawRead
      {
        var eof;
        eof, pos, oldestIntact := FillNext(pos, oldestIntact);
        if eof {
          RelaxWindow(!oldestIntact);
          lastItemRead := true;
          return;
        }
      }
      RelaxWindow(!oldestIntact);
    }

    // The body of the refilling loop: the slot after the newest item is filled, and left again
    // when the item is skipped.
    method FillNext(pos: nat, ghost intact: bool) returns (eof: bool, pos': nat, ghost intact': bool)
      requires Window(!intact) && base < Seen() && pos == Slot(Seen() - base - 1, bufferSize)
      modifies this`rawRead, this`numSkipped, buf
      ensures Window(!intact') && old(Seen()) <= Seen() <= old(Seen()) + 1
      ensures eof <==> old(rawRead) == |source|
      ensures eof ==>
                rawRead == old(rawRead) && Seen() == old(Seen()) && buf[Slot(Seen() - base, bufferSize)] == BLANK
      ensures !eof ==> rawRead == old(rawRead) + 1 && pos' == Slot(Seen() - base - 1, bufferSize)
      ensures Seen() > old(Seen()) ==> intact'
    {
      hide Kept, Slot, Pow2, And, Holds, Mask, Configured;
      pos' := NextSlot(pos, Seen() - base - 1);
      RelaxWindow(!intact);
      eof := ReadNextItem(pos');
      intact' := !eof && !buf[pos'].skipped;
      if !eof && buf[pos'].skipped {
        pos' := PreviousSlot(pos', Seen() - base - 1);
      }
    }

    // The end of the refill: both ends move by the number of items read.
    method MoveEnds(ghost w: nat, count: nat)
      requires Configured() && w > 0 && count <= bufferSize && (count > 0 ==> w >= bufferSize)
      requires Ends(head, tail, w, bufferSize)
      modifies this`head, this`tail
      ensures Ends(head, tail, w + count, bufferSize)
      ensures count == 0 ==> head == old(head) && tail == old(tail)
      ensures count == bufferSize / 2 && AtHalf(old(tail), bufferSize) ==> AtHalf(tail, bufferSize)
    {
      hide Ends;
      if count != 0 {
        AdvanceEnds(head, tail, w, count, bufferSize);
        MaskIsWrap(tail + count);
        MaskIsWrap(head + count);
        tail := Mask(tail + count);
        head := Mask(head + count);
      }
    }

    // The window check made on every use of an iterator.
    predicate Passes(index: nat)
      requires buf != null && head < buf.Length && tail < buf.Length
      reads this, buf
    {
      index >= buf[head].index && (buf[tail].skipped || index <= buf[tail].index)
    }

    // The failed read at the end of the trace lands on the oldest item of a full window.
    ghost predicate LostOldest()
      requires Counts() && base <= Seen()
      reads this
    {
      lastItemRead && Seen() - base >= bufferSize
    }

    // An item of the window that is not lost sits in its slot.
    lemma SlotHolds(x: nat)
      requires Valid() && x < Seen() - base <= x + bufferSize
      ensures !LostOldest() || base + x + 1 != First() ==>
                buf[Slot(x, bufferSize)] == KeptItem(Kept(source), base + x + 1)
    {
      hide And, Pow2, Kept, Slot;
      assert buf[Slot(x, bufferSize)] == buf[..][Slot(x, bufferSize)];
    }

    lemma WindowEnds()
      requires Valid() && !bufferIsEmpty
      ensures 1 <= First() <= Seen()
      ensures buf[tail] == KeptItem(Kept(source), Seen())
      ensures buf[head] == if LostOldest() then BLANK else KeptItem(Kept(source), First())
    {
      hide Kept, Pow2, And, Holds, Slot, AtHalf;
      var w := Seen() - base;
      SlotHolds(w - 1);
      SlotHolds(First() - base - 1);
      if w >= bufferSize {
        SlotAdd(w - bufferSize, bufferSize, bufferSize);
      }
    }

    /** What the window check accepts: the window, plus everything older once the oldest is lost. */
    lemma PassesExactly(index: nat)
      requires Valid() && !bufferIsEmpty
      ensures Passes(index) <==> index <= Seen() && (LostOldest() || First() <= index)
    {
      hide Kept, Pow2, And, Holds, Slot;
      WindowEnds();
    }

    // Every slot of a full window holds one of its items.
    lemma {:induction false} SlotInWindow(loc: nat, w: nat) returns (x: nat)
      requires Configured() && loc < bufferSize <= w
      ensures w - bufferSize <= x < w && Slot(x, bufferSize) == loc
    {
      hide And, Pow2, Kept;
      if w == bufferSize {
        x := loc;
      } else {
        x := SlotInWindow(loc, w - 1);
        if x < w - bufferSize {
          SlotAdd(x, bufferSize, bufferSize);
          x := x + bufferSize;
        }
      }
    }

    /**
     * An iterator handed out since the buffer was built dereferences to its own item exactly when
     * that item is still in the window and is not the one lost to the end of the trace.
     */
    lemma DerefExactly(index: nat, loc: nat)
      requires Valid() && Tracks(index, loc)
      ensures buf[loc] == KeptItem(Kept(source), index) <==> First() <= index && !(LostOldest() && index == First())
      ensures buf[loc].index == index <==> First() <= index && !(LostOldest() && index == First())
    {
      hide And, Pow2, Kept, Slot, Holds;
      var w := Seen() - base;
      WindowEnds();
      OldestAtHead(index, loc);
      if First() > index {
        var x := SlotInWindow(loc, w);
        SlotHolds(x);
        OldestAtHead(base + x + 1, loc);
      } else if !LostOldest() || index != First() {
        SlotHolds(index - base - 1);
      }
    }

    // The oldest item of a full window sits at the head.
    lemma OldestAtHead(index: nat, loc: nat)
      requires Valid() && Tracks(index, loc)
      ensures Seen() - base >= bufferSize && index == First() ==> loc == head
    {
      hide And, Pow2, Kept, Slot, Holds;
      if Seen() - base >= bufferSize && index == First() {
        SlotAdd(index - base - 1, bufferSize, bufferSize);
      }
    }

    /** Until the end of the trace is seen, the window check is enough. */
    lemma PassingDerefsToItself(index: nat, loc: nat)
      requires Valid() && Tracks(index, loc) && !lastItemRead && Passes(index)
      ensures buf[loc] == KeptItem(Kept(source), index)
    {
      hide And, Pow2, Kept, Slot, Holds;
      PassesExactly(index);
      DerefExactly(index, loc);
    }

    /** Dereferences an iterator. */
    method Current(it: Iter) returns (r: Lookup)
      requires Valid() && (it.end || Tracks(it.index, it.loc))
      ensures r.NoItem? <==> it.end
      ensures r.OutOfWindow? <==> !it.end && !(LostOldest() || First() <= it.index)
      ensures !it.end && First() <= it.index && !(LostOldest() && it.index == First()) ==>
                r == Found(KeptItem(Kept(source), it.index))
      ensures !it.end && Usable(it) ==> r == Found(KeptItem(Kept(source), it.index))
      ensures !it.end && LostOldest() && it.index == First() ==> r == Found(BLANK)
      // Past the end of the trace an iterator outside the window is answered with the wrong item.
      ensures r.Found? && !(First() <= it.index && !(LostOldest() && it.index == First())) ==>
                r.item.index != it.index
    {
      hide And, Pow2, Kept, Slot, Holds;
      if it.end {
        return NoItem;
      }
      PassesExactly(it.index);
      if !Passes(it.index) {
        return OutOfWindow;
      }
      DerefExactly(it.index, it.loc);
      OldestAtHead(it.index, it.loc);
      return Found(buf[it.loc]);
    }

    // An iterator in the window is at the tail exactly when it is at the newest item.
    lemma AtTail(index: nat, loc: nat)
      requires Valid() && Tracks(index, loc) && First() <= index
      ensures loc == tail <==> index == Seen()
      ensures tail > 0 && loc == tail - 1 <==> tail > 0 && index + 1 == Seen()
    {
      hide And, Pow2, Kept, Slot, Holds;
      SlotAdd(index - base - 1, Seen() - index, bufferSize);
    }

    lemma BeforeTail()
      requires Valid()
      ensures Decremented(tail) == if tail == 0 then U64 - 1 else tail - 1
      ensures tail < U64 - 1 && (!lastItemRead ==> tail > 0) && 2 <= bufferSize / 2 <= bufferSize - 2
    {
      hide And, Pow2, Kept, Slot, Holds;
      if tail > 0 {
        DivModUnique(tail + U64 - 1, U64, 1, tail - 1);
      } else {
        DivModUnique(U64 - 1, U64, 0, U64 - 1);
      }
    }

    // The slots of a window never hold a skipped item.
    lemma NeverSkipped(index: nat, loc: nat)
      requires Valid() && Tracks(index, loc)
      ensures !buf[loc].skipped
    {
      hide And, Pow2, Kept, Slot;
      WindowEnds();
      var w, x := Seen() - base, index - base - 1;
      if w >= bufferSize {
        x := SlotInWindow(loc, w);
        SlotAdd(x, bufferSize, bufferSize);
      }
      if LostOldest() && x + bufferSize == w {
      } else {
        assert buf[..][Slot(x, bufferSize)] == KeptItem(Kept(source), base + x + 1);
      }
    }

    // Lets a user-mode reader drop the item the iterator has just reached.
    method ReaderSkipCallback(index: nat, loc: nat) returns (ok: bool, skip: bool, index': nat)
      requires Valid() && Tracks(index, loc)
      ensures !skip && index' == index
      ensures LostOldest() || First() <= index ==> ok
    {
      hide And, Pow2, Kept, Slot, Holds;
      ok, skip, index' := true, false, index;
      if onlyUserMode {
        PassesExactly(index);
        if !Passes(index) {
          return false, false, index;
        }
        skip := buf[loc].skipped;
        index' := index - (if skip then 1 else 0);
        NeverSkipped(index, loc);
      }
    }

    // Half a buffer is read, or the rest of the trace, exactly on the way to the newest item.
    ghost predicate Refilled(before: nat, index: nat)
      requires Counts()
      reads this
    {
      if index + 1 != before then Seen() == before
      else before <= Seen() <= before + bufferSize / 2 && (lastItemRead || Seen() == before + bufferSize / 2)
    }

    /** Advances an iterator, refilling the buffer when it stands on the item before the newest. */
    method MoveToNextItem(index: nat, loc: nat) returns (step: Step)
      requires Valid() && Tracks(index, loc)
      modifies this`head, this`tail, this`numItemsRead, this`rawRead, this`numSkipped, this`lastItemRead, buf
      ensures Valid() && Seen() >= old(Seen())
      ensures !old(Passes(index)) ==> step.Thrown?
      ensures old(Live(index, loc)) ==> MovedOn(step, index) && Refilled(old(Seen()), index)
      ensures step.Moved? ==> numItemsRead == step.index
    {
      hide And, Pow2, Kept, Slot, Holds, Ends, Configured, Passes, AtHalf;
      var i: nat, l: nat, skipItem := index, loc, true;
      while skipItem
        invariant Valid() && Seen() >= old(Seen())
        invariant skipItem ==> i == index && l == loc && unchanged(this, buf)
        invariant !skipItem ==> old(Passes(index))
        invariant !skipItem && old(Live(index, loc)) ==> MovedOn(Moved(i, l), index) && Refilled(old(Seen()), index)
        decreases skipItem
      {
        var skip;
        step, skip := OnePass(i, l);
        if !step.Moved? {
          return;
        }
        i, l, skipItem := step.index, step.loc, skip;
      }
      numItemsRead := i;
      return Moved(i, l);
    }

    // What a live iterator becomes.
    ghost predicate MovedOn(step: Step, index: nat)
      requires Counts() && base <= Seen()
      reads this
    {
      if index == |Kept(source)| then step.AtEnd?
      else step.Moved? && step.index == index + 1 && Live(step.index, step.loc) && First() < step.index
    }

    // The body of the loop in MoveToNextItem, and whether the reader asks for another round.
    method OnePass(index: nat, loc: nat) returns (step: Step, skip: bool)
      requires Valid() && Tracks(index, loc)
      modifies this`head, this`tail, this`rawRead, this`numSkipped, this`lastItemRead, buf
      ensures Valid() && Seen() >= old(Seen())
      ensures !old(Passes(index)) ==> step.Thrown?
      ensures old(Live(index, loc)) ==> MovedOn(step, index) && Refilled(old(Seen()), index)
      ensures !skip
    {
      hide And, Pow2, Kept, Slot, Holds, Ends, Configured, Passes, Refilled;
      skip := false;
      PassesExactly(index);
      if !Passes(index) {
        return Thrown, false;
      }
      RefillIfNeeded(index, loc);
      if loc == tail {
        return AtEnd, false;
      }
      var l := NextSlot(loc, index - base - 1);
      var ok, again, i := ReaderSkipCallback(index + 1, l);
      if !ok {
        return Thrown, false;
      }
      return Moved(i, l), again;
    }

    // The refill inside MoveToNextItem, and what is known about the iterator afterwards.
    method RefillIfNeeded(index: nat, loc: nat)
      requires Valid() && Tracks(index, loc)
      modifies this`head, this`tail, this`rawRead, this`numSkipped, this`lastItemRead, buf
      ensures Valid() && Tracks(index, loc) && Seen() >= old(Seen())
      ensures loc != tail ==> index < Seen()
      ensures old(Live(index, loc)) ==>
                && First() <= index
                && (loc == tail <==> index == |Kept(source)|)
                && (index + 1 == Seen() ==> lastItemRead)
                && Refilled(old(Seen()), index)
    {
      hide And, Pow2, Kept, Slot, Holds, Ends, Passes, Configured, AtHalf, Decremented;
      RefillDue(index, loc);
      if loc == Decremented(tail) {
        var _ := FillHalfBuffer();
      }
      SeenBound();
      if First() <= index {
        AtTail(index, loc);
      }
    }

    // Until the end of the trace is seen, a live iterator stands just before the tail exactly when it
    // is on the item before the newest.
    lemma RefillDue(index: nat, loc: nat)
      requires Valid() && Tracks(index, loc)
      ensures bufferSize / 2 <= bufferSize - 2
      ensures Live(index, loc) && loc == Decremented(tail) ==> index + 1 == Seen()
      ensures Live(index, loc) && !lastItemRead && index + 1 == Seen() ==> loc == Decremented(tail)
    {
      hide And, Pow2, Kept, Slot, Holds, Decremented;
      BeforeTail();
      if Live(index, loc) {
        AtTail(index, loc);
      }
    }

    // An iterator that has not been overtaken by the window, or the end iterator.
    ghost predicate Usable(it: Iter)
      reads this, buf
    {
      Valid() && (if it.end then true else Live(it.index, it.loc))
    }

    // What a loop over the rest of the trace sees from the kept item of the given index on.
    ghost function Rest(index: nat): (r: seq<Item>)
      requires 1 <= index
      ensures index > |Kept(source)| ==> r == []
    {
      if index > |Kept(source)| then []
      else seq(|Kept(source)| - index + 1,
               k requires 0 <= k <= |Kept(source)| - index => KeptItem(Kept(source), index + k))
    }

    lemma RestStep(index: nat)
      requires 1 <= index <= |Kept(source)|
      ensures Rest(index) == [KeptItem(Kept(source), index)] + Rest(index + 1)
    {
    }

    // The iterator stands on the kept item of the given index, or is the end when there is none.
    ghost predicate StandsOn(it: Iter, index: nat)
      reads this, buf
    {
      Usable(it) && if index > |Kept(source)| then it.end else !it.end && it.index == index
    }

    /**
     * The iterator constructor.  It stands on the oldest item of the window when the buffer was
     * not built yet or its head is at slot 0, as after a seek; when the window has moved it takes
     * the head's index and slot 0.
     */
    method Begin() returns (it: Iter)
      requires buf == null ==> Configured() && Counts() && tail == 0 && !lastItemRead
      requires buf != null ==> Valid()
      modifies this
      ensures Valid() && (old(buf) == null ==> fresh(buf))
      ensures old(buf) == null ==> base == old(Seen()) && Seen() - base <= bufferSize && head == 0 && !LostOldest()
      ensures old(buf) != null ==> unchanged(this)
      ensures head == 0 && !LostOldest() ==> StandsOn(it, First()) && Leads(it)
      ensures head != 0 || LostOldest() ==> it == Iter(if LostOldest() then 0 else First(), 0, false)
    {
      hide Kept, Pow2, And, Slot, Holds, Ends;
      var end := false;
      if buf == null {
        var ok := InitItemBuffer();
        end := !ok;
      } else {
        end := bufferIsEmpty;
      }
      if !bufferIsEmpty {
        WindowEnds();
        OldestAtSlot0();
      }
      SeenBound();
      EmptyWindow();
      it := Iter(buf[head].index, 0, end);
    }

    // A window whose head is at slot 0 has its oldest item there.
    lemma OldestAtSlot0()
      requires Valid() && !bufferIsEmpty
      ensures head == 0 ==> Slot(First() - base - 1, bufferSize) == 0
    {
      hide Kept, Pow2, And, Slot, Holds;
      SlotAdd(First() - base - 1, if Seen() - base >= bufferSize then bufferSize else 0, bufferSize);
    }

    lemma EmptyWindow()
      requires Valid()
      ensures bufferIsEmpty ==> head == 0 && lastItemRead && !LostOldest() && First() > |Kept(source)|
    {
      hide Kept, Pow2, And, Slot, Holds;
      SeenBound();
    }

    // No iterator just returned by Begin or Increment is the oldest of a window that wraps.
    ghost predicate Leads(it: Iter)
      reads this
    {
      it.end || it.loc != tail + 1
    }

    /** The pre-increment operator. */
    method Increment(it: Iter) returns (it': Iter)
      requires Usable(it) && !it.end
      modifies this`head, this`tail, this`numItemsRead, this`rawRead, this`numSkipped, this`lastItemRead, buf
      ensures StandsOn(it', it.index + 1) && Leads(it')
      ensures Refilled(old(Seen()), it.index)
    {
      hide Kept, Pow2, And, Slot, Holds, Ends;
      SeenBound();
      var step := MoveToNextItem(it.index, it.loc);
      if step.Moved? {
        JustPastTail(step.index, step.loc);
      }
      it' := match step
        case Moved(index, loc) => Iter(index, loc, false)
        case _ => it.(end := true);
    }

    /**
     * A loop from an iterator to the end: every kept item from there on, once each, in order, with
     * consecutive indices; no access trips the window check.
     */
    method Drain(start: Iter, ghost index: nat) returns (items: seq<Item>)
      requires 1 <= index && StandsOn(start, index)
      modifies this`head, this`tail, this`numItemsRead, this`rawRead, this`numSkipped, this`lastItemRead, buf
      ensures items == Rest(index)
      ensures Valid()
    {
      hide Kept, Pow2, And, Slot, Holds, Ends, Rest, KeptItem, Configured, AtHalf, First, LostOldest;
      var it := start;
      items := [];
      while !it.end
        invariant Valid() && StandsOn(it, index + |items|)
        invariant items + Rest(index + |items|) == Rest(index)
        decreases |Kept(source)| - |items| - index + 1
      {
        var r := Current(it);
        RestStep(it.index);
        items := items + [r.item];
        it := Increment(it);
      }
    }

    /** Iterating a freshly opened reader from begin to end. */
    method ReadAll() returns (items: seq<Item>)
      requires Configured() && Counts() && buf == null && tail == 0 && !lastItemRead && rawRead == 0
      modifies this
      ensures |items| == |Kept(source)|
      ensures forall k :: 0 <= k < |items| ==> items[k] == Item(k + 1, false, Kept(source)[k])
    {
      hide Pow2, And, Slot, Holds, Ends;
      assert Seen() == 0 by { assert source[..0] == []; }
      var it := Begin();
      items := Drain(it, 1);
      forall k | 0 <= k < |items|
        ensures items[k] == Item(k + 1, false, Kept(source)[k])
      {
        assert items[k] == KeptItem(Kept(source), 1 + k);
      }
    }

    /** Whether an iterator stands on the last item of the trace; throws when the window has left it behind. */
    method IsLastItem(it: Iter) returns (ok: bool, last: bool)
      requires Valid() && !it.end && Tracks(it.index, it.loc)
      ensures ok <==> LostOldest() || First() <= it.index
      ensures ok && First() <= it.index ==> (last <==> lastItemRead && it.index == |Kept(source)|)
      ensures Usable(it) ==> ok && (last <==> it.index == |Kept(source)|)
    {
      hide Kept, Pow2, And, Slot, Holds, Ends;
      SeenBound();
      PassesExactly(it.index);
      if !Passes(it.index) {
        return false, false;
      }
      if First() <= it.index {
        AtTail(it.index, it.loc);
      }
      return true, lastItemRead && it.loc == tail;
    }

    /**
     * Skips the source forward; an error when the trace is not that long.  Once the end of the
     * trace was seen there is nothing to skip: whether that is an error is up to the stream.
     */
    method SkipSource(n: nat, quietAtEnd: bool) returns (ok: bool)
      requires Configured() && Counts() && !onlyUserMode && (lastItemRead ==> rawRead == |source|)
      modifies this`rawRead
      ensures Counts() && rawRead == if old(rawRead) + n <= |source| then old(rawRead) + n else |source|
      ensures Seen() == rawRead
      ensures ok <==> old(rawRead) + n <= |source| || (lastItemRead && quietAtEnd)
    {
      NothingSkipped(rawRead);
      if lastItemRead && quietAtEnd {
        return true;
      }
      ok := n <= |source| - rawRead;
      rawRead := if ok then rawRead + n else |source|;
      NothingSkipped(rawRead);
    }

    lemma NothingSkipped(n: nat)
      requires Configured() && !onlyUserMode && n <= |source|
      ensures |Kept(source[..n])| == n && |Kept(source)| == |source|
    {
      KeptAll(source[..n]);
      KeptAll(source);
    }

    // The reader's own count of the items from an iterator to the newest one, in 64-bit arithmetic.
    function NumBuffered(loc: nat): nat
      requires loc < U64
      reads this`tail
    {
      (tail + (U64 - loc) + 1) % U64
    }

    // The count is right unless the window wraps between the iterator and the newest item; then it
    // is huge, except for an iterator just past the tail, where it wraps to zero.
    lemma NumBufferedIs(it: Iter)
      requires Usable(it) && !it.end
      ensures it.loc <= tail ==> NumBuffered(it.loc) == Seen() - it.index + 1
      ensures it.loc == tail + 1 ==> NumBuffered(it.loc) == 0 && Seen() - it.index + 1 == bufferSize
      ensures it.loc > tail + 1 ==> NumBuffered(it.loc) > U64 - bufferSize
    {
      hide Kept, Pow2, And, Slot, Holds, Ends;
      JustPastTail(it.index, it.loc);
      SlotAdd(it.index - base - 1, Seen() - it.index, bufferSize);
      if it.loc <= tail {
        DivModUnique(tail + (U64 - it.loc) + 1, U64, 1, tail - it.loc + 1);
      } else if it.loc == tail + 1 {
        DivModUnique(tail + (U64 - it.loc) + 1, U64, 1, 0);
      } else {
        DivModUnique(tail + (U64 - it.loc) + 1, U64, 0, tail + (U64 - it.loc) + 1);
      }
    }

    // The oldest item of a full window, unless it sits at slot 0.
    ghost predicate OldestOfFull(index: nat, loc: nat)
      requires Counts() && base <= Seen()
      reads this
    {
      Seen() - base >= bufferSize && index == First() && loc != 0
    }

    /** The slot just past the tail is that of the oldest item of a full window. */
    lemma JustPastTail(index: nat, loc: nat)
      requires Valid() && Tracks(index, loc) && First() <= index
      ensures loc == tail + 1 <==> OldestOfFull(index, loc)
    {
      hide Kept, Pow2, And, Slot, Holds;
      SlotAdd(index - base - 1, Seen() - index, bufferSize);
    }

    /** Seeking by single increments. */
    method SlowSeek(start: Iter, n: nat, ghost index: nat) returns (it: Iter)
      requires 1 <= index && StandsOn(start, index)
      modifies this`head, this`tail, this`numItemsRead, this`rawRead, this`numSkipped, this`lastItemRead, buf
      ensures StandsOn(it, if index > |Kept(source)| then index else index + n)
    {
      hide Kept, Pow2, And, Slot, Holds, Ends;
      it := start;
      var i := 0;
      while i < n && !it.end
        invariant 0 <= i <= n
        invariant StandsOn(it, index + i)
      {
        it := Increment(it);
        i := i + 1;
      }
    }

    /**
     * Seeks an iterator: item by item when the target is buffered or items may be skipped, else by
     * skipping the source and rebuilding the buffer.  Unless the iterator is on the oldest item of
     * a full window this is n increments, and an error can only mean that the trace is too short.
     * If it is, the buffered count is zero and a whole buffer too many items are skipped.
     */
    method Seek(start: Iter, n: nat, quietAtEnd: bool) returns (ok: bool, it: Iter)
      requires Usable(start) && !start.end && n <= U64 - bufferSize
      modifies this, buf
      ensures ok ==> Valid()
      ensures old(onlyUserMode || !OldestOfFull(start.index, start.loc) || n == 0) ==>
                && (start.index + n <= |Kept(source)| ==> ok)
                && (ok ==> StandsOn(it, start.index + n))
      ensures old(!onlyUserMode && OldestOfFull(start.index, start.loc) && n > 0) ==>
                && (ok <==> start.index + n + bufferSize <= |Kept(source)| + 1)
                && (ok ==> StandsOn(it, start.index + n + bufferSize))
    {
      hide Kept, Pow2, And, Slot, Holds, Ends, NumBuffered, AtHalf;
      SeenBound();
      JustPastTail(start.index, start.loc);
      NumBufferedIs(start);
      var buffered := NumBuffered(start.loc);
      if onlyUserMode || n <= buffered {
        it := SlowSeek(start, n, start.index);
        return true, it;
      }
      NothingSkipped(rawRead);
      ok := SkipSource(n - buffered, quietAtEnd);
      it := start;
      if ok {
        head := 0;
        tail := 0;
        var _ := InitItemBuffer();
        it := Begin();
      }
    }

    /** From an iterator just returned by Begin or Increment, a seek is that many increments. */
    method SeekLeading(start: Iter, n: nat, quietAtEnd: bool) returns (ok: bool, it: Iter)
      requires Usable(start) && !start.end && Leads(start) && n <= U64 - bufferSize
      modifies this, buf
      ensures start.index + n <= |Kept(source)| ==> ok
      ensures ok ==> StandsOn(it, start.index + n)
    {
      hide Kept, Pow2, And, Slot, Holds, Ends;
      JustPastTail(start.index, start.loc);
      ok, it := Seek(start, n, quietAtEnd);
    }
  }

  // ---------------------------------------------------------------- where it goes wrong

  function Plain(n: nat): (s: seq<Raw>)
    ensures |s| == n && forall i :: 0 <= i < n ==> !s[i].skip
  {
    seq(n, i => Raw(i, false))
  }

  lemma AllKept(n: nat)
    ensures |Kept(Plain(n))| == n
  {
    KeptAll(Plain(n));
  }

  lemma FourIsPow2()
    ensures Pow2(2) == 4
  {
  }

  // A window of four slots over a trace without skipped items, and two copies of its iterator: one
  // on the given item, and one that has gone on to item 4, so that the window was refilled.
  method GoOn(r: BufferedReader, kept: nat) returns (copy: Iter)
    requires r.Configured() && r.bufferSize == 4 && !r.onlyUserMode && |r.source| >= 5
    requires r.Counts() && r.buf == null && r.tail == 0 && !r.lastItemRead && r.rawRead == 0
    requires 2 <= kept <= 3
    modifies r
    ensures r.Valid() && r.base == 0 && fresh(r.buf)
    ensures r.Seen() == if |r.source| == 5 then 5 else 6
    ensures |r.source| == 5 ==> r.lastItemRead
    ensures !copy.end && copy.index == kept && r.Tracks(copy.index, copy.loc)
  {
    hide Kept, Pow2, And, Slot, Holds, Ends, BufferedReader.Configured;
    r.NothingSkipped(0);
    assert r.Seen() == 0 by { assert r.source[..0] == []; }
    var first := r.Begin();
    r.SeenBound();
    var second := r.Increment(first);
    var third := r.Increment(second);
    copy := if kept == 2 then second else third;
    var _ := r.Increment(third);
    r.SeenBound();
  }

  /** Twelve items: a seek by one from a copy left on item 3 of the window 3 to 6 lands on item 8. */
  method StaleSeekLandsTooFar() returns (start: Iter, ok: bool, it: Iter)
    ensures start.index == 3 && ok && !it.end && it.index == 8
  {
    hide Kept, Pow2, And, Slot, Holds, Ends, Plain;
    AllKept(12);
    FourIsPow2();
    var r := new BufferedReader(Plain(12), 4, false, 2);
    start := GoOn(r, 3);
    r.NothingSkipped(r.rawRead);
    r.OldestAtHead(start.index, start.loc);
    ok, it := r.Seek(start, 1, false);
  }

  /** Five items: the read that finds the end resets the slot of item 2, still in the window. */
  method LostItemReadsBlank() returns (it: Iter, answer: Lookup)
    ensures it.index == 2 && !it.end && answer == Found(BLANK)
  {
    hide Kept, Pow2, And, Slot, Holds, Ends, Plain;
    FourIsPow2();
    var r := new BufferedReader(Plain(5), 4, false, 2);
    it := GoOn(r, 2);
    answer := r.Current(it);
  }
}
