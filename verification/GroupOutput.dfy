/**
 * What an instruction's group is, and which record stands right behind which in its output, told from
 * the records' own bodies.
 */
module GroupOutputs {
  import opened FlatMaps
  import opened Descriptors
  import opened Records
  import opened RecordOrder

  // The events that are no mode changes.
  function Ordinary(events: seq<Record>): seq<Record> {
    if events == [] then []
    else
      var before, last := Ordinary(events[..|events| - 1]), events[|events| - 1];
      if last.body.EventBody? && last.body.modeChange then before else before + [last]
  }

  // A mode change that is the only event.
  predicate LoneModeChange(events: seq<Record>) { |events| == 1 && Ordinary(events) == [] }

  lemma {:induction false} OrdinaryAreTaken(events: seq<Record>, n: nat)
    requires n <= |events| && AllHave(events, EVENT)
    ensures Taken(events, n) == |Ordinary(events[..n])|
  {
    if n > 0 {
      OrdinaryAreTaken(events, n - 1);
      assert events[..n][..|events[..n]| - 1] == events[..n - 1];
      assert events[n - 1] in events;
    }
  }

  lemma {:induction false} AllAreTaken(accesses: seq<Record>, a: Descriptor, n: nat)
    requires n <= |accesses| && AllHave(accesses, a) && !a.EVENT?
    ensures Taken(accesses, n) == n
  {
    if n > 0 {
      AllAreTaken(accesses, a, n - 1);
      assert accesses[n - 1] in accesses;
    }
  }

  lemma LoneMeaning(events: seq<Record>)
    requires AllHave(events, EVENT)
    ensures StandaloneModeChange(events) <==> LoneModeChange(events)
  {
    if |events| == 1 {
      assert events[0] in events;
      assert events[..0] == [] && Ordinary([]) == [];
    }
  }

  lemma NotAlone(accesses: seq<Record>, a: Descriptor)
    requires AllHave(accesses, a) && !a.EVENT?
    ensures !StandaloneModeChange(accesses)
  {
    if |accesses| == 1 {
      assert accesses[0] in accesses;
    }
  }

  // As many contents as accesses, and a target for every event that is no mode change; a mode change
  // that is the only event may have one.
  predicate PairsUp(recs: seq<Record>) {
    var events, targets := Filter(recs, EVENT), Filter(recs, EVENT_PC_TARGET);
    && |Filter(recs, INST_MEM_CONTENT)| == |Filter(recs, INST_MEM_ACCESS)|
    && |Filter(recs, BUS_MASTER_CONTENT)| == |Filter(recs, BUS_MASTER_ACCESS)|
    && (if LoneModeChange(events) then |targets| <= 1 else |targets| == |Ordinary(events)|)
  }

  /** What makes records the group of an instruction. */
  lemma GroupMeaning(recs: seq<Record>)
    ensures IsGroup(recs) <==>
            && (forall r :: r in recs ==> InGroup(r.desc))
            && |Filter(recs, INST_OPCODE32)| + |Filter(recs, INST_OPCODE16)| == 1
            && PairsUp(recs)
  {
    hide Filter, StandaloneModeChange, Ordinary, LoneModeChange, Taken;
    AccessesMatched(recs, INST_MEM_ACCESS, INST_MEM_CONTENT);
    AccessesMatched(recs, BUS_MASTER_ACCESS, BUS_MASTER_CONTENT);
    EventsMatched(recs);
    assert PairedWith(INST_MEM_ACCESS).Some? && PairedWith(BUS_MASTER_ACCESS).Some? && PairedWith(EVENT).Some?;
  }

  lemma AccessesMatched(recs: seq<Record>, a: Descriptor, b: Descriptor)
    requires !a.EVENT?
    ensures var first, second := Filter(recs, a), Filter(recs, b);
            && (Matched(first, second) <==> |second| == |first|)
            && (Enough(first, second, false) <==> |second| == |first|)
  {
    hide Filter;
    FilterHasOne(recs, a);
    NotAlone(Filter(recs, a), a);
    AllAreTaken(Filter(recs, a), a, |Filter(recs, a)|);
  }

  lemma EventsMatched(recs: seq<Record>)
    ensures var events, targets := Filter(recs, EVENT), Filter(recs, EVENT_PC_TARGET);
            && (Matched(events, targets) <==>
                if LoneModeChange(events) then |targets| <= 1 else |targets| == |Ordinary(events)|)
            && (Enough(events, targets, true) <==>
                if LoneModeChange(events) then |targets| <= 1 else |targets| >= |Ordinary(events)|)
  {
    hide Filter;
    var events := Filter(recs, EVENT);
    FilterHasOne(recs, EVENT);
    LoneMeaning(events);
    OrdinaryAreTaken(events, |events|);
    assert events[..|events|] == events;
  }

  /**
   * What stops the generator: an access without content or the reverse, fewer targets than events
   * that are no mode changes, or a second target for a mode change that is the only event.
   */
  lemma CompleteMeaning(recs: seq<Record>)
    ensures |SORTED| == NUM_INTERNAL
    ensures var events, targets := Filter(recs, EVENT), Filter(recs, EVENT_PC_TARGET);
            Complete(recs, NUM_INTERNAL) <==>
            && |Filter(recs, INST_MEM_CONTENT)| == |Filter(recs, INST_MEM_ACCESS)|
            && |Filter(recs, BUS_MASTER_CONTENT)| == |Filter(recs, BUS_MASTER_ACCESS)|
            && (if LoneModeChange(events) then |targets| <= 1 else |targets| >= |Ordinary(events)|)
  {
    hide Filter, StandaloneModeChange, Ordinary, LoneModeChange, Taken, SortedBelow, Enough;
    AccessesMatched(recs, INST_MEM_ACCESS, INST_MEM_CONTENT);
    AccessesMatched(recs, BUS_MASTER_ACCESS, BUS_MASTER_CONTENT);
    EventsMatched(recs);
    var i := PlaceOf(INST_MEM_ACCESS);
    var j := PlaceOf(BUS_MASTER_ACCESS);
    var k := PlaceOf(EVENT);
    assert forall d :: PairedWith(d).Some? <==> d.INST_MEM_ACCESS? || d.BUS_MASTER_ACCESS? || d.EVENT?;
    if Complete(recs, NUM_INTERNAL) {
      assert Writable(recs, SORTED[i]) && Writable(recs, SORTED[j]) && Writable(recs, SORTED[k]);
    }
  }

  // ---------------------------------------------------------------- right behind each other

  // What stands right behind the record at p, a first record of the given kind.
  ghost predicate Followed(out: seq<Record>, first: seq<Record>, second: seq<Record>, a: Descriptor, b: Descriptor,
                           p: nat)
    requires p < |out|
  {
    out[p].desc == a ==>
      var k := |Filter(out[..p], a)|;
      && k < |first| && out[p] == first[k]
      && (if StandaloneModeChange(first) then second != [] ==> p + 1 < |out| && out[p + 1] == second[0]
          else if TakesSecond(first[k]) then
            p + 1 < |out| && Taken(first, k) < |second| && out[p + 1] == second[Taken(first, k)]
          else p + 1 < |out| ==> out[p + 1].desc != b)
  }

  ghost predicate AllFollowed(out: seq<Record>, first: seq<Record>, second: seq<Record>, a: Descriptor, b: Descriptor) {
    forall p :: 0 <= p < |out| ==> Followed(out, first, second, a, b, p)
  }

  lemma FollowedWithMore(out: seq<Record>, more: seq<Record>, first: seq<Record>, second: seq<Record>, a: Descriptor,
                         b: Descriptor, p: nat)
    requires p < |out| && Followed(out, first, second, a, b, p) && (more == [] || more[0].desc != b)
    ensures Followed(out + more, first, second, a, b, p)
  {
    hide Filter, Taken, TakesSecond, StandaloneModeChange;
    assert (out + more)[..p] == out[..p];
  }

  lemma FollowedBehind(before: seq<Record>, out: seq<Record>, first: seq<Record>, second: seq<Record>, a: Descriptor,
                       b: Descriptor, p: nat)
    requires p < |out| && Followed(out, first, second, a, b, p) && Filter(before, a) == []
    ensures Followed(before + out, first, second, a, b, |before| + p)
  {
    hide Filter, Taken, TakesSecond, StandaloneModeChange;
    assert (before + out)[..|before| + p] == before + out[..p];
    FilterConcat(before, out[..p], a);
    assert [] + Filter(out[..p], a) == Filter(out[..p], a);
  }

  lemma {:induction false} ZipFollowed(first: seq<Record>, second: seq<Record>, a: Descriptor, b: Descriptor, n: nat)
    requires n <= |first| && Taken(first, n) <= |second| && AllHave(first, a) && AllHave(second, b) && a != b
    requires !StandaloneModeChange(first)
    ensures AllFollowed(Zip(first, second, n), first, second, a, b)
  {
    hide Filter, Followed, TakesSecond, StandaloneModeChange, PairAt;
    if n > 0 {
      ZipFollowed(first, second, a, b, n - 1);
      var out, pair := Zip(first, second, n - 1), PairAt(first, second, n - 1);
      PairShown(first, second, n - 1);
      assert first[n - 1] in first;
      forall p | 0 <= p < |out + pair|
        ensures Followed(out + pair, first, second, a, b, p)
      {
        if p < |out| {
          FollowedWithMore(out, pair, first, second, a, b, p);
        } else {
          LastPairFollowed(first, second, a, b, n - 1, p);
        }
      }
    }
  }

  lemma PairShown(first: seq<Record>, second: seq<Record>, i: nat)
    requires i < |first| && Taken(first, i + 1) <= |second|
    ensures Taken(first, i) <= |second| && Zip(first, second, i + 1) == Zip(first, second, i) + PairAt(first, second, i)
    ensures var pair := PairAt(first, second, i);
            && pair != [] && pair[0] == first[i]
            && (if TakesSecond(first[i]) then
                  |pair| == 2 && Taken(first, i) < |second| && pair[1] == second[Taken(first, i)]
                else |pair| == 1)
  {
    hide TakesSecond;
  }

  lemma LastPairFollowed(first: seq<Record>, second: seq<Record>, a: Descriptor, b: Descriptor, i: nat, p: nat)
    requires i < |first| && Taken(first, i + 1) <= |second| && AllHave(first, a) && AllHave(second, b) && a != b
    requires !StandaloneModeChange(first) && Taken(first, i) <= |second|
    requires |Zip(first, second, i)| <= p < |Zip(first, second, i + 1)|
    ensures Followed(Zip(first, second, i + 1), first, second, a, b, p)
  {
    hide Filter, TakesSecond, StandaloneModeChange, Taken, Zip, PairAt;
    var out, all := Zip(first, second, i), Zip(first, second, i + 1);
    PairShown(first, second, i);
    if p == |out| {
      FilterOfZip(first, second, a, b, i, a);
      assert all[..p] == out;
    } else {
      assert all[p] == second[Taken(first, i)] && all[p] in second;
    }
  }

  lemma LoneFollowed(first: seq<Record>, second: seq<Record>, a: Descriptor, b: Descriptor)
    requires StandaloneModeChange(first) && |second| <= 1 && AllHave(first, a) && AllHave(second, b) && a != b
    ensures AllFollowed(first + second, first, second, a, b)
  {
    var out := first + second;
    forall p | 0 <= p < |out|
      ensures Followed(out, first, second, a, b, p)
    {
      if p == 0 {
        assert out[..0] == [];
      } else {
        assert out[p] in second;
      }
    }
  }

  // ---------------------------------------------------------------- over the whole output

  lemma {:induction false} ZipMembers(first: seq<Record>, second: seq<Record>, n: nat)
    requires n <= |first| && Taken(first, n) <= |second|
    ensures forall r :: r in Zip(first, second, n) ==> r in first || r in second
  {
    hide TakesSecond;
    if n > 0 {
      ZipMembers(first, second, n - 1);
    }
  }

  lemma SegmentMembers(recs: seq<Record>, turn: Descriptor)
    requires Writable(recs, turn)
    ensures forall r :: r in Segment(recs, turn) ==> WrittenAt(r.desc, turn)
  {
    hide Filter, Zip, Taken;
    FilterHasOne(recs, turn);
    if PairedWith(turn).Some? {
      var first, second := Filter(recs, turn), Filter(recs, PairedWith(turn).value);
      FilterHasOne(recs, PairedWith(turn).value);
      if !StandaloneModeChange(first) {
        ZipMembers(first, second, |first|);
      }
    }
  }

  lemma {:induction false} WrittenMembers(recs: seq<Record>, n: nat)
    requires n <= |SORTED| && Complete(recs, n)
    ensures forall r :: r in Written(recs, n) ==> exists k :: 0 <= k < n && WrittenAt(r.desc, SORTED[k])
  {
    hide Segment, SortedBelow, WrittenAt, Writable;
    if n > 0 {
      WrittenMembers(recs, n - 1);
      SegmentMembers(recs, SORTED[n - 1]);
    }
  }

  lemma SegmentFollowed(recs: seq<Record>, a: Descriptor, b: Descriptor)
    requires PairedWith(a) == Some(b) && Writable(recs, a)
    ensures AllFollowed(Segment(recs, a), Filter(recs, a), Filter(recs, b), a, b)
  {
    hide Filter, Zip, Taken, StandaloneModeChange, AllFollowed, TakesSecond;
    var first, second := Filter(recs, a), Filter(recs, b);
    FilterHasOne(recs, a);
    FilterHasOne(recs, b);
    if StandaloneModeChange(first) {
      LoneFollowed(first, second, a, b);
    } else {
      ZipFollowed(first, second, a, b, |first|);
    }
  }

  lemma {:induction false} WrittenFollowed(recs: seq<Record>, n: nat, a: Descriptor, b: Descriptor)
    requires n <= |SORTED| && StrictlySorted(SORTED) && Complete(recs, n) && PairedWith(a) == Some(b)
    ensures AllFollowed(Written(recs, n), Filter(recs, a), Filter(recs, b), a, b)
  {
    hide Filter, Segment, SortedBelow, Writable, Followed, ToEncoded;
    if n > 0 {
      WrittenFollowed(recs, n - 1, a, b);
      var first, second := Filter(recs, a), Filter(recs, b);
      var before, turn := Written(recs, n - 1), SORTED[n - 1];
      var segment := Segment(recs, turn);
      forall p | 0 <= p < |before + segment|
        ensures Followed(before + segment, first, second, a, b, p)
      {
        if p < |before| && turn != a {
          SegmentMembers(recs, turn);
          OtherTurn(turn, a, b);
          FollowedWithMore(before, segment, first, second, a, b, p);
        } else if p < |before| {
          NotYet(recs, n - 1, a);
          Unfollowed(before + segment, first, second, a, b, p);
        } else {
          TurnFollowed(recs, n - 1, a, b, p);
        }
      }
    }
  }

  lemma OtherTurn(turn: Descriptor, a: Descriptor, b: Descriptor)
    requires PairedWith(a) == Some(b) && turn != a
    ensures !WrittenAt(a, turn) && !WrittenAt(b, turn)
  {
  }

  lemma Unfollowed(out: seq<Record>, first: seq<Record>, second: seq<Record>, a: Descriptor, b: Descriptor, p: nat)
    requires p < |out| && out[p].desc != a
    ensures Followed(out, first, second, a, b, p)
  {
  }

  // Before its turn no record of a kind is written.
  lemma NotYet(recs: seq<Record>, n: nat, a: Descriptor)
    requires n < |SORTED| && StrictlySorted(SORTED) && Complete(recs, n) && SORTED[n] == a && PairedWith(a).Some?
    ensures Filter(Written(recs, n), a) == [] && forall r :: r in Written(recs, n) ==> r.desc != a
  {
    hide Filter, SortedBelow, Written, ToEncoded, Writable;
    WrittenMembers(recs, n);
    forall r | r in Written(recs, n)
      ensures r.desc != a
    {
      var k :| 0 <= k < n && WrittenAt(r.desc, SORTED[k]);
      assert ToEncoded(SORTED[k]) < ToEncoded(a);
    }
    NoneHave(Written(recs, n), a);
  }

  lemma TurnFollowed(recs: seq<Record>, n: nat, a: Descriptor, b: Descriptor, p: nat)
    requires n < |SORTED| && StrictlySorted(SORTED) && Complete(recs, n) && PairedWith(a) == Some(b)
    requires Writable(recs, SORTED[n])
    requires |Written(recs, n)| <= p < |Written(recs, n) + Segment(recs, SORTED[n])|
    ensures Followed(Written(recs, n) + Segment(recs, SORTED[n]), Filter(recs, a), Filter(recs, b), a, b, p)
  {
    hide Filter, SortedBelow, Segment, Written, Followed, ToEncoded, Writable;
    var first, second, before, segment := Filter(recs, a), Filter(recs, b), Written(recs, n), Segment(recs, SORTED[n]);
    if SORTED[n] == a {
      SegmentFollowed(recs, a, b);
      NotYet(recs, n, a);
      FollowedBehind(before, segment, first, second, a, b, p - |before|);
    } else {
      SegmentMembers(recs, SORTED[n]);
      OtherTurn(SORTED[n], a, b);
      assert (before + segment)[p] == segment[p - |before|] && segment[p - |before|] in segment;
      Unfollowed(before + segment, first, second, a, b, p);
    }
  }

  // ---------------------------------------------------------------- in the records' own terms

  // The k-th access is right before the k-th content.
  ghost predicate AccessBeforeContent(out: seq<Record>, contents: seq<Record>, a: Descriptor, p: nat)
    requires p < |out|
  {
    out[p].desc == a ==>
      var k := |Filter(out[..p], a)|;
      p + 1 < |out| && k < |contents| && out[p + 1] == contents[k]
  }

  // The k-th event that is no mode change is right before the k-th target; a mode change is before
  // none, unless it is the only event and there is one.
  ghost predicate EventBeforeTarget(out: seq<Record>, events: seq<Record>, targets: seq<Record>, p: nat)
    requires p < |out|
  {
    out[p].desc.EVENT? ==>
      var k := |Filter(out[..p], EVENT)|;
      && k < |events| && out[p] == events[k]
      && (if LoneModeChange(events) then targets != [] ==> p + 1 < |out| && out[p + 1] == targets[0]
          else if out[p].body.EventBody? && out[p].body.modeChange then
            p + 1 < |out| ==> !out[p + 1].desc.EVENT_PC_TARGET?
          else
            var m := |Ordinary(events[..k])|;
            p + 1 < |out| && m < |targets| && out[p + 1] == targets[m])
  }

  ghost predicate PairsTogether(out: seq<Record>, recs: seq<Record>) {
    forall p :: 0 <= p < |out| ==>
      && AccessBeforeContent(out, Filter(recs, INST_MEM_CONTENT), INST_MEM_ACCESS, p)
      && AccessBeforeContent(out, Filter(recs, BUS_MASTER_CONTENT), BUS_MASTER_ACCESS, p)
      && EventBeforeTarget(out, Filter(recs, EVENT), Filter(recs, EVENT_PC_TARGET), p)
  }

  lemma AccessAt(out: seq<Record>, recs: seq<Record>, a: Descriptor, b: Descriptor, p: nat)
    requires p < |out| && !a.EVENT? && Followed(out, Filter(recs, a), Filter(recs, b), a, b, p)
    ensures AccessBeforeContent(out, Filter(recs, b), a, p)
  {
    hide Filter, Taken;
    FilterHasOne(recs, a);
    var first := Filter(recs, a);
    NotAlone(first, a);
    if out[p].desc == a {
      var k := |Filter(out[..p], a)|;
      AllAreTaken(first, a, k);
      assert first[k] in first;
    }
  }

  lemma EventAt(out: seq<Record>, recs: seq<Record>, p: nat)
    requires p < |out|
    requires Followed(out, Filter(recs, EVENT), Filter(recs, EVENT_PC_TARGET), EVENT, EVENT_PC_TARGET, p)
    ensures EventBeforeTarget(out, Filter(recs, EVENT), Filter(recs, EVENT_PC_TARGET), p)
  {
    hide Filter, Taken, Ordinary, LoneModeChange, StandaloneModeChange;
    FilterHasOne(recs, EVENT);
    var events := Filter(recs, EVENT);
    LoneMeaning(events);
    if out[p].desc.EVENT? {
      OrdinaryAreTaken(events, |Filter(out[..p], EVENT)|);
    }
  }

  /**
   * In what the generator writes, the k-th access is followed by the k-th content and the k-th event
   * that is no mode change by the k-th target, surplus targets or not.
   */
  lemma WrittenPairs(recs: seq<Record>)
    requires |SORTED| == NUM_INTERNAL && Complete(recs, NUM_INTERNAL)
    ensures PairsTogether(Written(recs, NUM_INTERNAL), recs)
  {
    hide Filter, SortedBelow, Written, Followed, AccessBeforeContent, EventBeforeTarget, Complete;
    SortedSequence();
    var out := Written(recs, NUM_INTERNAL);
    WrittenFollowed(recs, NUM_INTERNAL, INST_MEM_ACCESS, INST_MEM_CONTENT);
    WrittenFollowed(recs, NUM_INTERNAL, BUS_MASTER_ACCESS, BUS_MASTER_CONTENT);
    WrittenFollowed(recs, NUM_INTERNAL, EVENT, EVENT_PC_TARGET);
    forall p | 0 <= p < |out|
      ensures AccessBeforeContent(out, Filter(recs, INST_MEM_CONTENT), INST_MEM_ACCESS, p)
      ensures AccessBeforeContent(out, Filter(recs, BUS_MASTER_CONTENT), BUS_MASTER_ACCESS, p)
      ensures EventBeforeTarget(out, Filter(recs, EVENT), Filter(recs, EVENT_PC_TARGET), p)
    {
      AccessAt(out, recs, INST_MEM_ACCESS, INST_MEM_CONTENT, p);
      AccessAt(out, recs, BUS_MASTER_ACCESS, BUS_MASTER_CONTENT, p);
      EventAt(out, recs, p);
    }
  }

  /**
   * Of the targets of events, the ones that are left over are dropped: what is written holds all the
   * events, and as many targets as there are events that are no mode changes.
   */
  lemma SurplusTargetsDropped(events: seq<Record>, targets: seq<Record>)
    requires AllHave(events, EVENT) && AllHave(targets, EVENT_PC_TARGET)
    requires !LoneModeChange(events) && |Ordinary(events)| <= |targets|
    ensures Enough(events, targets, true) && Filter(Pairs(events, targets), EVENT) == events
    ensures Filter(Pairs(events, targets), EVENT_PC_TARGET) == targets[..|Ordinary(events)|]
  {
    hide Filter, Zip, TakesSecond, Ordinary, LoneModeChange, StandaloneModeChange;
    LoneMeaning(events);
    OrdinaryAreTaken(events, |events|);
    assert events[..|events|] == events;
    FilterOfZip(events, targets, EVENT, EVENT_PC_TARGET, |events|, EVENT);
    FilterOfZip(events, targets, EVENT, EVENT_PC_TARGET, |events|, EVENT_PC_TARGET);
  }
}
