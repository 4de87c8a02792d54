/** One segment of the first pass: it keeps the invariant and achieves `SegmentDone`. */
module LayoutSteps {
  import opened Words
  import opened LayoutModel
  import opened LayoutFacts
  import opened SegmentFacts
  import opened SelfPlaced
  import opened SegmentResult
  import opened Congruence

  ghost predicate PlanSound(wide: bool, secs0: seq<Sec>, lo: nat, p: Plan) {
    Sound(wide, secs0, lo, p.secs, p.total, p.log) && FlagsAgree(p.secs, p.gen, p.log)
  }

  ghost predicate NoEntryOf(log: seq<Place>, s: int) {
    forall k :: 0 <= k < |log| ==> log[k].owner != s
  }

  /** Before the inner loop of segment `i` (`r0`) and after it (`r`). */
  ghost predicate SegmentRun(h: Header, secs0: seq<Sec>, lo: nat, p: Plan, i: nat, r0: Run, r: Run) {
    && PlanSound(h.wide, secs0, lo, p) && i < |p.segs| && InRange(p.segs, |p.secs|)
    && NoEntryOf(p.log, i)
    && r0 == StartRun(h, p, p.segs[i])
    && RunSound(h.wide, secs0, lo, r0)
    && PlaceUpTo(h.wide, p.segs[i], i, r0, |p.segs[i].secs|) == Some(r)
    && RunSound(h.wide, secs0, lo, r) && RunLater(r0, r, i)
    && (forall k :: 0 <= k < |p.segs[i].secs| ==> r.gen[p.segs[i].secs[k]])
  }

  lemma StartRunSame(h: Header, p: Plan, seg: Seg)
    requires |p.gen| == |p.secs|
    requires forall k :: 0 <= k < |seg.secs| ==> seg.secs[k] < |p.gen|
    ensures var r := StartRun(h, p, seg);
      r.secs == p.secs && r.gen == p.gen && r.log == p.log && p.total <= r.total
  {
  }

  lemma StartRunSound(h: Header, secs0: seq<Sec>, lo: nat, p: Plan, seg: Seg)
    requires PlanSound(h.wide, secs0, lo, p) && forall k :: 0 <= k < |seg.secs| ==> seg.secs[k] < |p.secs|
    ensures RunSound(h.wide, secs0, lo, StartRun(h, p, seg))
  {
    hide StartRun, Once, Recorded, Restrained;
    StartRunSame(h, p, seg);
  }

  lemma SegmentRunHolds(h: Header, secs0: seq<Sec>, lo: nat, p: Plan, i: nat) returns (r0: Run, r: Run)
    requires PlanSound(h.wide, secs0, lo, p) && i < |p.segs| && InRange(p.segs, |p.secs|)
    requires NoEntryOf(p.log, i) && LayoutSegment(h, p, i).Some?
    ensures SegmentRun(h, secs0, lo, p, i, r0, r)
    ensures LayoutSegment(h, p, i).value
            == Plan(r.secs, p.segs[i := FinishSegment(h.wide, p.segs[i], r)], r.gen, r.total, r.log)
  {
    var seg := p.segs[i];
    r0 := StartRun(h, p, seg);
    StartRunSame(h, p, seg);
    r := PlaceUpTo(h.wide, seg, i, r0, |seg.secs|).value;
    PlaceUpToSound(h.wide, secs0, lo, seg, i, r0, |seg.secs|);
  }

  /** A listed section that segment `i` placed was free before. */
  lemma OwnedWasFree(h: Header, secs0: seq<Sec>, lo: nat, p: Plan, i: nat, r0: Run, r: Run, x: nat)
    requires SegmentRun(h, secs0, lo, p, i, r0, r) && x < |p.secs| && Owns(r.log, i, x)
    ensures !Logs(p.log, x) && (r.secs[x].stype == SHT_NULL || !p.gen[x]) && p.secs[x].stype == r.secs[x].stype
  {
    hide PlaceUpTo, StartRun, Chained, Recorded, Restrained;
    StartRunSame(h, p, p.segs[i]);
    assert SameButPlace(secs0[x], p.secs[x]) && SameButPlace(secs0[x], r.secs[x]);
    var b :| 0 <= b < |r.log| && r.log[b].sec == x && r.log[b].owner == i;
    forall a | 0 <= a < |p.log| ensures p.log[a].sec != x {
      assert p.log[a] == r.log[..|p.log|][a] == r.log[a];
    }
  }

  /** A listed section that segment `i` did not place was placed before. */
  lemma OtherWasPlaced(h: Header, secs0: seq<Sec>, lo: nat, p: Plan, i: nat, r0: Run, r: Run, x: nat)
    requires SegmentRun(h, secs0, lo, p, i, r0, r) && x < |p.secs| && Logs(r.log, x) && !Owns(r.log, i, x)
    ensures Logs(p.log, x) && p.gen[x] && r.secs[x] == p.secs[x]
  {
    StartRunSame(h, p, p.segs[i]);
    var b :| 0 <= b < |r.log| && r.log[b].sec == x;
    assert b < |p.log|;
    assert r.log[..|p.log|][b] == p.log[b];
  }

  lemma MatchesToParallel(wide: bool, secs0: seq<Sec>, seg: Seg, i: int, r: Run)
    requires RunMatches(wide, secs0, seg, i, r)
    ensures Parallel(wide, secs0, r.secs, FinishSegment(wide, seg, r), r.log, i)
  {
    forall k | 0 <= k < |r.log| && r.log[k].owner == i && 0 != r.log[k].sec < |r.secs| == |secs0| && AddressMatters(secs0[r.log[k].sec])
      ensures Corresponds(wide, r.secs[r.log[k].sec], seg.vaddr, Trunc(wide, r.start))
    {
      TruncDiff(wide, r.start, r.secs[r.log[k].sec].offset);
    }
  }

  lemma ParallelHolds(h: Header, secs0: seq<Sec>, lo: nat, p: Plan, i: nat, r0: Run, r: Run)
    requires SegmentRun(h, secs0, lo, p, i, r0, r)
    ensures Parallel(h.wide, secs0, r.secs, FinishSegment(h.wide, p.segs[i], r), r.log, i)
  {
    var seg := p.segs[i];
    StartRunSame(h, p, seg);
    assert RunMatches(h.wide, secs0, seg, i, r0);
    PlaceUpToMatches(h.wide, secs0, lo, seg, i, r0, |seg.secs|);
    MatchesToParallel(h.wide, secs0, seg, i, r);
  }

  lemma FreshStart(h: Header, p: Plan, seg: Seg)
    requires |p.gen| == |p.secs|
    requires forall k :: 0 <= k < |seg.secs| ==> seg.secs[k] < |p.gen|
    requires StartsFresh(p, seg) && !StartsAtZero(seg)
    ensures var r := StartRun(h, p, seg);
      r.total == p.total + SegPadding(seg.align, seg.vaddr, p.total % W64) && r.start == r.total % W64 && r.file == r.mem == 0
  {
  }

  lemma ZeroStart(h: Header, p: Plan, seg: Seg)
    requires |p.gen| == |p.secs|
    requires forall k :: 0 <= k < |seg.secs| ==> seg.secs[k] < |p.gen|
    requires |seg.secs| > 0 && StartsAtZero(seg)
    ensures var r := StartRun(h, p, seg);
      r.total == p.total && r.start == 0 && r.file == r.mem == p.total % W64
  {
  }

  lemma SharedRunStart(h: Header, p: Plan, seg: Seg)
    requires |p.gen| == |p.secs|
    requires forall k :: 0 <= k < |seg.secs| ==> seg.secs[k] < |p.gen|
    requires |seg.secs| > 0 && p.gen[seg.secs[0]] && !StartsAtZero(seg)
    ensures var r := StartRun(h, p, seg);
      r.total == p.total && r.start == p.secs[seg.secs[0]].offset && r.file == r.mem == 0
  {
  }

  lemma TruncSmall(wide: bool, v: nat)
    requires v < Modulus(wide)
    ensures Trunc(wide, v) == v && v % W64 == v
  {
  }

  lemma CongruentHolds(h: Header, secs0: seq<Sec>, lo: nat, p: Plan, i: nat, r0: Run, r: Run)
    requires SegmentRun(h, secs0, lo, p, i, r0, r) && r.total < Modulus(h.wide)
    ensures LoaderCongruent(p.segs[i], FinishSegment(h.wide, p.segs[i], r), r.log, i)
  {
    var seg := p.segs[i];
    if |seg.secs| > 0 && Owns(r.log, i, seg.secs[0]) && !StartsAtZero(seg) && 0 < seg.align <= W64 / 2 {
      OwnedWasFree(h, secs0, lo, p, i, r0, r, seg.secs[0]);
      OwnedIsNotNull(h.wide, secs0, lo, r, i, seg.secs[0]);
      FreshStart(h, p, seg);
      TruncSmall(h.wide, p.total);
      TruncSmall(h.wide, r0.total);
      PaddingUpTo63(seg.align, seg.vaddr, p.total);
    }
  }

  lemma OwnedIsNotNull(wide: bool, secs0: seq<Sec>, lo: nat, r: Run, s: int, x: nat)
    requires RunSound(wide, secs0, lo, r) && Owns(r.log, s, x) && x < |r.secs|
    ensures r.secs[x].stype != SHT_NULL
  {
    assert Logs(r.log, x);
  }

  lemma {:induction false} NobitsBytesStatic(secs0: seq<Sec>, secs: seq<Sec>, list: seq<nat>, n: nat)
    requires |secs0| == |secs| && ListInRange(list, |secs|) && n <= |list|
    requires forall x :: 0 <= x < |secs| ==> SameButPlace(secs0[x], secs[x])
    ensures NobitsBytes(secs0, list, n) == NobitsBytes(secs, list, n)
  {
    if n > 0 {
      NobitsBytesStatic(secs0, secs, list, n - 1);
    }
  }

  /** The file range of a placed section, read off its header. */
  lemma OffsetOfEntry(wide: bool, secs0: seq<Sec>, lo: nat, r: Run, b: nat)
    requires RunSound(wide, secs0, lo, r) && r.total < Modulus(wide)
    requires b < |r.log| && r.log[b].sec != 0
    ensures r.log[b].sec < |r.secs| == |secs0|
    ensures r.secs[r.log[b].sec].offset == r.log[b].at && r.log[b].at + r.log[b].len <= r.total
    ensures SameButPlace(secs0[r.log[b].sec], r.secs[r.log[b].sec]) && r.log[b].len == FileLen(r.secs[r.log[b].sec])
  {
    assert Recorded(wide, secs0, r.secs, r.log[b]);
    TruncSmall(wide, r.log[b].at);
  }

  /** What the entries of segment `i` say about the offsets of its sections. */
  lemma CoversFromLog(wide: bool, secs0: seq<Sec>, lo: nat, seg: Seg, i: nat, r: Run)
    requires RunSound(wide, secs0, lo, r) && r.total < Modulus(wide) && ListInRange(seg.secs, |r.secs|)
    requires PlacedItself(r.secs, seg, r.log, i) && Tight(secs0, i, r)
    requires forall k :: 0 <= k < |r.log| && r.log[k].owner == i ==> r.log[k].sec in seg.secs
    ensures Covers(r.secs, FinishSegment(wide, seg, r)) <==> GapsBehind(secs0, r.log, i)
  {
    hide GapsBehind, NoGap, Sound, FlagsAgree;
    TruncSmall(wide, r.start);
    TruncSmall(wide, r.file);
    forall k | 0 <= k < |r.log| && r.log[k].owner == i
      ensures r.log[k].sec < |r.secs| == |secs0| && r.log[k].sec != 0 && IsBacked(secs0, r.log[k]) == Backed(r.secs[r.log[k].sec])
      ensures r.secs[r.log[k].sec].offset == r.log[k].at && (IsBacked(secs0, r.log[k]) ==> r.log[k].len == r.secs[r.log[k].sec].size)
    {
      OwnedEntry(wide, secs0, lo, seg, i, r, k);
    }
    if Covers(r.secs, FinishSegment(wide, seg, r)) {
      forall k | 0 <= k < |r.log| && r.log[k].owner == i && IsBacked(secs0, r.log[k])
        ensures r.log[k].at + r.log[k].len <= r.start + r.file
      {
        var a :| 0 <= a < |seg.secs| && seg.secs[a] == r.log[k].sec;
      }
    }
    if Within(secs0, r.log, i, r.start + r.file) {
      forall k | 0 <= k < |seg.secs| && seg.secs[k] != 0 && Backed(r.secs[seg.secs[k]])
        ensures r.start <= r.secs[seg.secs[k]].offset
        ensures r.secs[seg.secs[k]].offset + r.secs[seg.secs[k]].size <= r.start + r.file
      {
        var b :| 0 <= b < |r.log| && r.log[b].sec == seg.secs[k] && r.log[b].owner == i;
      }
    }
  }

  /** An entry of a segment that placed all its sections itself. */
  lemma OwnedEntry(wide: bool, secs0: seq<Sec>, lo: nat, seg: Seg, i: nat, r: Run, k: nat)
    requires RunSound(wide, secs0, lo, r) && r.total < Modulus(wide) && ListInRange(seg.secs, |r.secs|)
    requires PlacedItself(r.secs, seg, r.log, i) && k < |r.log| && r.log[k].owner == i && r.log[k].sec in seg.secs
    ensures r.log[k].sec < |r.secs| == |secs0| && r.log[k].sec != 0 && IsBacked(secs0, r.log[k]) == Backed(r.secs[r.log[k].sec])
    ensures r.secs[r.log[k].sec].offset == r.log[k].at && (IsBacked(secs0, r.log[k]) ==> r.log[k].len == r.secs[r.log[k].sec].size)
  {
    hide Chained, Once, Recorded, Restrained, Distinct;
    var x := r.log[k].sec;
    var a :| 0 <= a < |seg.secs| && seg.secs[a] == x;
    assert Owns(r.log, i, x);
    OwnedIsNotNull(wide, secs0, lo, r, i, x);
    OffsetOfEntry(wide, secs0, lo, r, k);
  }

  /** How the run of a segment starts that will place all its sections itself. */
  lemma SelfPlacedStart(h: Header, secs0: seq<Sec>, lo: nat, p: Plan, i: nat, r0: Run, r: Run)
    requires SegmentRun(h, secs0, lo, p, i, r0, r) && r.total < Modulus(h.wide)
    requires PlacedItself(r.secs, p.segs[i], r.log, i)
    ensures |secs0| == |r.secs| && PlacesAll(secs0, r0.gen, p.segs[i].secs)
    ensures Tight(secs0, i, r0) && r0.start + r0.file == r0.total && r0.mem == r0.file
    ensures InOrder(secs0, p.segs[i].secs, i, r0.log, 0)
  {
    hide PlaceOne, PlaceUpTo, StartRun, Chained, Once, Recorded, Restrained;
    var seg := p.segs[i];
    StartRunSame(h, p, seg);
    forall k | 0 <= k < |seg.secs| ensures secs0[seg.secs[k]].stype == SHT_NULL || !r0.gen[seg.secs[k]] {
      assert SameButPlace(secs0[seg.secs[k]], r.secs[seg.secs[k]]);
      if r.secs[seg.secs[k]].stype != SHT_NULL {
        OwnedWasFree(h, secs0, lo, p, i, r0, r, seg.secs[k]);
      }
    }
    TruncSmall(h.wide, p.total);
    TruncSmall(h.wide, r0.total);
    if StartsAtZero(seg) {
      ZeroStart(h, p, seg);
    } else {
      assert StartsFresh(p, seg);
      FreshStart(h, p, seg);
    }
  }

  /** The run of a segment that places all its sections itself. */
  lemma TightHolds(h: Header, secs0: seq<Sec>, lo: nat, p: Plan, i: nat, r0: Run, r: Run)
    requires SegmentRun(h, secs0, lo, p, i, r0, r) && r.total < Modulus(h.wide)
    requires PlacedItself(r.secs, p.segs[i], r.log, i)
    ensures |secs0| == |r.secs| && Tight(secs0, i, r) && InOrder(secs0, p.segs[i].secs, i, r.log, |p.segs[i].secs|)
  {
    hide PlaceOne, PlaceUpTo, Tight, FlagsAgree, PlacesAll, InOrder, PlacedItself;
    SelfPlacedStart(h, secs0, lo, p, i, r0, r);
    PlaceUpToTight(h.wide, secs0, lo, p.segs[i], i, r0, |p.segs[i].secs|);
    PlaceUpToInOrder(h.wide, secs0, lo, p.segs[i], i, r0, |p.segs[i].secs|);
  }

  /** What holds of the sections before layout holds of them afterwards. */
  lemma MemoryStatic(secs0: seq<Sec>, secs: seq<Sec>, seg: Seg)
    requires |secs0| == |secs| && ListInRange(seg.secs, |secs|)
    requires forall x :: 0 <= x < |secs| ==> SameButPlace(secs0[x], secs[x])
    ensures AllTakeMemory(secs0, seg) == AllTakeMemory(secs, seg)
    ensures BackedAreAlloc(secs0, seg.secs) == BackedAreAlloc(secs, seg.secs)
    ensures AllTakeMemory(secs, seg) ==> BackedAreAlloc(secs, seg.secs)
  {
    hide HasBit;
    forall x | 0 <= x < |secs| ensures TakesMemory(seg, secs0[x]) == TakesMemory(seg, secs[x]) {
      assert SameButPlace(secs0[x], secs[x]);
    }
  }

  lemma MemoryFromLog(wide: bool, secs0: seq<Sec>, lo: nat, seg: Seg, i: nat, r: Run)
    requires RunSound(wide, secs0, lo, r) && r.total < Modulus(wide) && ListInRange(seg.secs, |r.secs|)
    requires PlacedItself(r.secs, seg, r.log, i)
    requires Roomy(secs0, i, r) && r.mem < Modulus(wide) && r.start < Modulus(wide)
    ensures MemoryCovers(r.secs, FinishSegment(wide, seg, r))
  {
    TruncSmall(wide, r.start);
    TruncSmall(wide, r.mem);
    forall k | 0 <= k < |seg.secs| && seg.secs[k] != 0 && r.secs[seg.secs[k]].stype != SHT_NULL
      ensures r.start <= r.secs[seg.secs[k]].offset
      ensures r.secs[seg.secs[k]].offset - r.start + r.secs[seg.secs[k]].size <= r.mem
    {
      var b :| 0 <= b < |r.log| && r.log[b].sec == seg.secs[k] && r.log[b].owner == i;
      OffsetOfEntry(wide, secs0, lo, r, b);
    }
  }

  lemma OwnMemoryHolds(h: Header, secs0: seq<Sec>, lo: nat, p: Plan, i: nat, r0: Run, r: Run)
    requires SegmentRun(h, secs0, lo, p, i, r0, r) && r.total < Modulus(h.wide)
    requires PlacedItself(r.secs, p.segs[i], r.log, i)
    ensures OwnMemory(h.wide, r.secs, p.segs[i], FinishSegment(h.wide, p.segs[i], r), r.total)
  {
    hide PlaceOne, PlaceUpTo, Tight, FlagsAgree, PlacesAll, InOrder, PlacedItself, AllTakeMemory, BackedAreAlloc;
    var seg := p.segs[i];
    if r.total + NobitsBytes(r.secs, seg.secs, |seg.secs|) < Modulus(h.wide) && BackedAreAlloc(r.secs, seg.secs) {
      SelfPlacedStart(h, secs0, lo, p, i, r0, r);
      NobitsBytesStatic(secs0, r.secs, seg.secs, |seg.secs|);
      MemoryStatic(secs0, r.secs, seg);
      PlaceUpToAmple(h.wide, secs0, lo, seg, i, r0, |seg.secs|);
      TruncSmall(h.wide, r.mem);
      TruncSmall(h.wide, r.file);
      if AllTakeMemory(r.secs, seg) {
        RoomyAtFirst(h, secs0, lo, p, i, r0, r);
        PlaceUpToRoomy(h.wide, secs0, lo, seg, i, r0, |seg.secs|);
        MemoryFromLog(h.wide, secs0, lo, seg, i, r);
      }
    }
    MemoryStatic(secs0, r.secs, seg);
  }

  lemma RoomyAtFirst(h: Header, secs0: seq<Sec>, lo: nat, p: Plan, i: nat, r0: Run, r: Run)
    requires SegmentRun(h, secs0, lo, p, i, r0, r) && r0.start + r0.file == r0.total && r0.mem == r0.file
    ensures Roomy(secs0, i, r0)
  {
    hide PlaceOne, PlaceUpTo, Sound, StartRun;
    StartRunSame(h, p, p.segs[i]);
  }

  lemma OwnImageHolds(h: Header, secs0: seq<Sec>, lo: nat, p: Plan, i: nat, r0: Run, r: Run)
    requires SegmentRun(h, secs0, lo, p, i, r0, r) && r.total < Modulus(h.wide)
    ensures |secs0| == |r.secs|
    ensures OwnImage(h.wide, secs0, r.secs, p.segs[i], FinishSegment(h.wide, p.segs[i], r), r.log, r.total, i)
  {
    hide PlaceOne, PlaceUpTo, Tight, FlagsAgree, PlacedItself, GapsBehind, Settled, Covers, OwnMemory;
    var seg := p.segs[i];
    if PlacedItself(r.secs, seg, r.log, i) {
      TightHolds(h, secs0, lo, p, i, r0, r);
      assert seg.secs[..|seg.secs|] == seg.secs;
      CoversFromLog(h.wide, secs0, lo, seg, i, r);
      OwnMemoryHolds(h, secs0, lo, p, i, r0, r);
    }
  }

  // ---------------------------------------------------------------- segments whose sections others placed

  lemma SharedCoversFromEnds(wide: bool, secs: seq<Sec>, seg: Seg, r: Run)
    requires ListInRange(seg.secs, |secs|) && r.secs == secs && EndsAscend(secs, seg.secs, r.start)
    requires r.start < Modulus(wide)
    requires forall k :: 0 <= k < |seg.secs| && Backed(secs[seg.secs[k]]) ==>
               secs[seg.secs[k]].offset + secs[seg.secs[k]].size < Modulus(wide)
    requires exists none :: r.file == LastEnd(secs, seg.secs, |seg.secs|, none) - r.start
    ensures Covers(secs, FinishSegment(wide, seg, r))
  {
    TruncSmall(wide, r.start);
    var none :| r.file == LastEnd(secs, seg.secs, |seg.secs|, none) - r.start;
    LastEndFacts(secs, seg.secs, |seg.secs|, r.start, none);
    forall k | 0 <= k < |seg.secs| && seg.secs[k] != 0 && Backed(secs[seg.secs[k]])
      ensures r.start + Trunc(wide, r.file) >= secs[seg.secs[k]].offset + secs[seg.secs[k]].size
    {
      assert LastEnd(secs, seg.secs, |seg.secs|, none) < Modulus(wide);
      TruncSmall(wide, r.file);
    }
  }

  /** What a segment finds whose sections were all placed before. */
  lemma SharedSetting(h: Header, secs0: seq<Sec>, lo: nat, p: Plan, i: nat, r0: Run, r: Run)
    requires SegmentRun(h, secs0, lo, p, i, r0, r) && r.total < Modulus(h.wide)
    requires PlacedByOthers(r.secs, p.segs[i], r.log, i)
    ensures r0.start == SharedStart(r.secs, p.segs[i]) && r0.start < Modulus(h.wide)
    ensures r0.file == r0.mem && r0.start + r0.file <= r.total && (!StartsAtZero(p.segs[i]) ==> r0.file == 0)
    ensures AllPlaced(r0.secs, r0.gen, p.segs[i].secs) && SameOnList(r0.secs, r.secs, p.segs[i].secs)
    ensures forall k :: 0 <= k < |p.segs[i].secs| && Backed(r.secs[p.segs[i].secs[k]]) ==>
               r.secs[p.segs[i].secs[k]].offset + r.secs[p.segs[i].secs[k]].size <= r.total
  {
    hide PlaceUpTo, StartRun, Chained, Once, Recorded, Restrained, EndsAscend;
    var seg := p.segs[i];
    StartRunSame(h, p, seg);
    forall k | 0 <= k < |seg.secs|
      ensures r.secs[seg.secs[k]].stype == SHT_NULL || p.gen[seg.secs[k]]
      ensures r0.secs[seg.secs[k]] == r.secs[seg.secs[k]]
      ensures seg.secs[k] != 0 && r.secs[seg.secs[k]].stype != SHT_NULL ==>
                r.secs[seg.secs[k]].offset + FileLen(r.secs[seg.secs[k]]) <= r.total
    {
      SharedSection(h, secs0, lo, p, i, r0, r, seg.secs[k]);
    }
    if StartsAtZero(seg) {
      ZeroStart(h, p, seg);
    } else {
      SharedRunStart(h, p, seg);
    }
  }

  lemma SharedSection(h: Header, secs0: seq<Sec>, lo: nat, p: Plan, i: nat, r0: Run, r: Run, x: nat)
    requires SegmentRun(h, secs0, lo, p, i, r0, r) && r.total < Modulus(h.wide)
    requires x in p.segs[i].secs && !Owns(r.log, i, x)
    ensures x < |r.secs| && r0.secs[x] == r.secs[x] && (r.secs[x].stype == SHT_NULL || p.gen[x])
    ensures x != 0 && r.secs[x].stype != SHT_NULL ==> r.secs[x].offset + FileLen(r.secs[x]) <= r.total
  {
    StartRunSame(h, p, p.segs[i]);
    assert SameButPlace(secs0[x], r0.secs[x]) && SameButPlace(secs0[x], r.secs[x]);
    if r.secs[x].stype != SHT_NULL {
      assert r.gen[x] && Logs(r.log, x);
      OtherWasPlaced(h, secs0, lo, p, i, r0, r, x);
      var b :| 0 <= b < |r.log| && r.log[b].sec == x;
      if x != 0 {
        OffsetOfEntry(h.wide, secs0, lo, r, b);
      }
    }
  }

  /** A run over sections that are all placed moves nothing and covers them. */
  lemma SharedImageFrom(wide: bool, seg: Seg, i: nat, r0: Run, r: Run)
    requires AllPlaced(r0.secs, r0.gen, seg.secs) && SameOnList(r0.secs, r.secs, seg.secs)
    requires PlaceUpTo(wide, seg, i, r0, |seg.secs|) == Some(r) && PlacedByOthers(r.secs, seg, r.log, i)
    requires r0.start == SharedStart(r.secs, seg) && r0.start < Modulus(wide) && r.total < Modulus(wide)
    requires r0.file == r0.mem && r0.start + r0.file <= r.total && (!StartsAtZero(seg) ==> r0.file == 0)
    requires forall k :: 0 <= k < |seg.secs| && Backed(r.secs[seg.secs[k]]) ==>
               r.secs[seg.secs[k]].offset + r.secs[seg.secs[k]].size <= r.total
    ensures SharedImage(wide, r.secs, seg, FinishSegment(wide, seg, r), r.log, r.total, i)
  {
    EndsSame(r0.secs, r.secs, seg.secs, r0.start);
    PlaceUpToPlaced(wide, seg, i, r0, |seg.secs|);
    SharedCoversFromEnds(wide, r.secs, seg, r);
    if BackedAreAlloc(r.secs, seg.secs) && NobitsBehind(r.secs, seg.secs, r0.start)
      && (StartsAtZero(seg) ==> Led(r.secs, seg.secs)) && r.total + NobitsReach(r.secs, seg.secs, |seg.secs|) < Modulus(wide)
    {
      SharedMemoryHolds(wide, seg, i, r0, r);
    }
  }

  lemma SharedImageHolds(h: Header, secs0: seq<Sec>, lo: nat, p: Plan, i: nat, r0: Run, r: Run)
    requires SegmentRun(h, secs0, lo, p, i, r0, r) && r.total < Modulus(h.wide)
    ensures SharedImage(h.wide, r.secs, p.segs[i], FinishSegment(h.wide, p.segs[i], r), r.log, r.total, i)
  {
    if PlacedByOthers(r.secs, p.segs[i], r.log, i) {
      SharedSetting(h, secs0, lo, p, i, r0, r);
      SharedImageFrom(h.wide, p.segs[i], i, r0, r);
    }
  }

  lemma SharedMemoryHolds(wide: bool, seg: Seg, i: nat, r0: Run, r: Run)
    requires AllPlaced(r0.secs, r0.gen, seg.secs) && EndsAscend(r0.secs, seg.secs, r0.start)
    requires NobitsBehind(r0.secs, seg.secs, r0.start) && BackedAreAlloc(r0.secs, seg.secs)
    requires r0.file == r0.mem && r0.start + r0.file <= r.total && (r0.file == 0 || Led(r0.secs, seg.secs))
    requires PlaceUpTo(wide, seg, i, r0, |seg.secs|) == Some(r)
    requires forall k :: 0 <= k < |seg.secs| && Backed(r0.secs[seg.secs[k]]) ==>
               r0.secs[seg.secs[k]].offset + r0.secs[seg.secs[k]].size <= r.total
    requires r.total + NobitsReach(r0.secs, seg.secs, |seg.secs|) < Modulus(wide)
    ensures FinishSegment(wide, seg, r).filesz <= FinishSegment(wide, seg, r).memsz
  {
    PlaceUpToPlaced(wide, seg, i, r0, |seg.secs|);
    PlacedMemoryUpTo(wide, seg, i, r0, |seg.secs|, r.total);
    LastEndBounded(r0.secs, seg.secs, |seg.secs|, r0.start, r0.start + r0.file, r.total);
    TruncSmall(wide, r.mem);
    TruncSmall(wide, r.file);
  }

  // ---------------------------------------------------------------- one whole segment

  lemma ListedArePlacedHolds(h: Header, secs0: seq<Sec>, lo: nat, p: Plan, i: nat, r0: Run, r: Run)
    requires SegmentRun(h, secs0, lo, p, i, r0, r)
    ensures ListedArePlaced(r.secs, p.segs[i], r.log)
  {
  }

  lemma LayoutSegmentKeeps(h: Header, secs0: seq<Sec>, lo: nat, p: Plan, i: nat)
    requires PlanSound(h.wide, secs0, lo, p) && i < |p.segs| && InRange(p.segs, |p.secs|)
    requires NoEntryOf(p.log, i) && LayoutSegment(h, p, i).Some?
    ensures var p' := LayoutSegment(h, p, i).value;
      && PlanSound(h.wide, secs0, lo, p')
      && Later(p.secs, p.total, p.log, p'.secs, p'.total, p'.log, i)
      && SegmentDone(h.wide, secs0, p.segs[i], p'.secs, p'.segs[i], p'.log, p'.total, i)
      && (forall s :: 0 <= s < |p.segs| && s != i ==> p'.segs[s] == p.segs[s])
  {
    hide PlaceUpTo, StartRun, LayoutSegment, OwnImage, SharedImage, LoaderCongruent, Parallel, Chained, Once, Recorded, Restrained;
    var r0, r := SegmentRunHolds(h, secs0, lo, p, i);
    StartRunSame(h, p, p.segs[i]);
    ListedArePlacedHolds(h, secs0, lo, p, i, r0, r);
    ParallelHolds(h, secs0, lo, p, i, r0, r);
    if r.total < Modulus(h.wide) {
      OwnImageHolds(h, secs0, lo, p, i, r0, r);
      SharedImageHolds(h, secs0, lo, p, i, r0, r);
      CongruentHolds(h, secs0, lo, p, i, r0, r);
    }
  }
}
