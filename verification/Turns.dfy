/** The moment at which a segment is laid out, and what of it is left in the finished file: exact laws of one step
    become exact laws of the file. */
module Turns {
  import opened Words
  import opened LayoutModel
  import opened LayoutFacts
  import opened SegmentFacts
  import opened SelfPlaced
  import opened SegmentResult
  import opened SegmentOrder
  import opened LayoutSteps
  import opened LayoutTheorems
  import opened SharedMemory
  import opened MixedCoverage

  /** Between `p` and `q` segment `s`, the sections it lists and its entries stay as they are. */
  ghost predicate Kept(p: Plan, q: Plan, s: nat) {
    && s < |p.segs| == |q.segs| && q.segs[s] == p.segs[s]
    && |p.secs| == |q.secs| && SameOnList(p.secs, q.secs, p.segs[s].secs)
    && p.total <= q.total && |p.log| <= |q.log| && q.log[..|p.log|] == p.log
    && forall k :: |p.log| <= k < |q.log| ==> q.log[k].owner != s
  }

  lemma KeptTrans(p: Plan, q: Plan, r: Plan, s: nat)
    requires Kept(p, q, s) && Kept(q, r, s)
    ensures Kept(p, r, s)
  {
    assert r.log[..|p.log|] == r.log[..|q.log|][..|p.log|];
    forall k | |p.log| <= k < |r.log| ensures r.log[k].owner != s {
      if k < |q.log| {
        assert r.log[..|q.log|][k] == r.log[k];
      }
    }
  }

  /** The next segment leaves those that are finished alone. */
  lemma NextKeeps(h: Header, secs0: seq<Sec>, segs0: seq<Seg>, lo: nat, order: seq<nat>, m: nat, q: Plan, s: nat)
    requires m < |order| && FirstPass(h.wide, secs0, segs0, lo, order, m, q) && s in order[..m]
    requires LayoutSegment(h, q, order[m]).Some?
    ensures Kept(q, LayoutSegment(h, q, order[m]).value, s)
  {
    hide LayoutSegment, OwnImage, SharedImage, LoaderCongruent, Parallel, EntriesListed, Chained, Once, Recorded, Restrained, KeepsIdentity;
    var i := order[m];
    assert i != s;
    assert order[..m + 1] == order[..m] + [i] && i !in order[..m];
    LayoutSegmentKeeps(h, secs0, lo, q, i);
    var q' := LayoutSegment(h, q, i).value;
    SameListOf(h.wide, secs0, segs0, q, order[..m], s);
    forall k | 0 <= k < |q.segs[s].secs| ensures q'.secs[q.segs[s].secs[k]] == q.secs[q.segs[s].secs[k]] {
      StaysOrNull(h.wide, secs0, lo, q, q', i, q.segs[s].secs[k]);
    }
  }

  lemma SameListOf(wide: bool, secs0: seq<Sec>, segs0: seq<Seg>, q: Plan, done: seq<nat>, s: nat)
    requires |q.segs| == |segs0| && InRange(segs0, |q.secs|) && |secs0| == |q.secs|
    requires DoneOrUntouched(wide, secs0, segs0, q, done) && s in done && s < |segs0|
    ensures q.segs[s].secs == segs0[s].secs && ListInRange(q.segs[s].secs, |q.secs|)
    ensures ListedArePlaced(q.secs, q.segs[s], q.log)
  {
  }

  /** A section that is placed, or null, is the same after one more segment. */
  lemma StaysOrNull(wide: bool, secs0: seq<Sec>, lo: nat, q: Plan, q': Plan, i: int, x: nat)
    requires PlanSound(wide, secs0, lo, q) && PlanSound(wide, secs0, lo, q')
    requires Later(q.secs, q.total, q.log, q'.secs, q'.total, q'.log, i)
    requires x < |q.secs| && (Logs(q.log, x) || q.secs[x].stype == SHT_NULL)
    ensures q'.secs[x] == q.secs[x]
  {
    hide Chained, Once, Recorded, Restrained;
    assert SameButPlace(secs0[x], q.secs[x]) && SameButPlace(secs0[x], q'.secs[x]);
  }

  /** From the turn of segment number `n` to that of number `m`. */
  lemma {:induction false} TurnsKeep(h: Header, secs0: seq<Sec>, segs0: seq<Seg>, lo: nat, order: seq<nat>, n: nat, m: nat, p0: Plan)
    requires n < m <= |order| && FirstPass(h.wide, secs0, segs0, lo, order, 0, p0)
    requires SegmentsUpTo(h, p0, order, m).Some?
    ensures SegmentsUpTo(h, p0, order, n + 1).Some?
    ensures Kept(SegmentsUpTo(h, p0, order, n + 1).value, SegmentsUpTo(h, p0, order, m).value, order[n])
  {
    hide LayoutSegment, Kept, DoneOrUntouched, Sound, EntriesListed;
    if m == n + 1 {
      var q := SegmentsUpTo(h, p0, order, m).value;
      SegmentsUpToKeep(h, secs0, segs0, lo, order, m, p0);
      KeptSelf(q, order[n]);
    } else {
      var q := SegmentsUpToUnfold(h, p0, order, m);
      TurnsKeep(h, secs0, segs0, lo, order, n, m - 1, p0);
      SegmentsUpToKeep(h, secs0, segs0, lo, order, m - 1, p0);
      assert order[n] in order[..m - 1];
      NextKeeps(h, secs0, segs0, lo, order, m - 1, q, order[n]);
      KeptTrans(SegmentsUpTo(h, p0, order, n + 1).value, q, SegmentsUpTo(h, p0, order, m).value, order[n]);
    }
  }

  lemma KeptSelf(q: Plan, s: nat)
    requires s < |q.segs| && InRange(q.segs, |q.secs|)
    ensures Kept(q, q, s)
  {
  }

  /** The second pass and the section header table. */
  lemma CompletedKeeps(wide: bool, p: Plan, s: nat)
    requires s < |p.segs| && InRange(p.segs, |p.secs|)
    ensures Kept(p, Completed(wide, p).plan, s)
  {
    hide LooseUpTo, PlaceLoose;
    LooseAppends(wide, p, |p.secs|);
    forall k | 0 <= k < |p.segs[s].secs| ensures LooseUpTo(wide, p, |p.secs|).secs[p.segs[s].secs[k]] == p.secs[p.segs[s].secs[k]] {
      assert p.segs[s].secs[k] in p.segs[s].secs;
      LooseKeepsListed(wide, p, |p.secs|, p.segs[s].secs[k]);
    }
  }

  /** The plan that meets segment number `n` of the order. */
  ghost predicate MeetsTurn(h: Header, secs: seq<Sec>, segs: seq<Seg>, n: nat, p: Plan)
    requires InRange(segs, |secs|)
  {
    var raised := Raised(secs, segs);
    var order := Ordered(raised);
    && n < |order| && DistinctOrder(order, |raised|)
    && SegmentsUpTo(h, StartPlan(h, secs, segs), order, n) == Some(p)
    && PlanSound(h.wide, secs, HeadersEnd(h, segs), p)
    && |p.segs| == |raised| && InRange(p.segs, |p.secs|) && NoEntryOf(p.log, order[n]) && p.segs[order[n]] == raised[order[n]]
    && LayoutSegment(h, p, order[n]).Some?
  }

  /** Every segment has its turn, and what it leaves there is what the finished file holds. */
  lemma TurnOf(h: Header, secs: seq<Sec>, segs: seq<Seg>, n: nat) returns (p: Plan)
    requires InRange(segs, |secs|) && FileLayout(h, secs, segs).Some? && n < |Ordered(Raised(secs, segs))|
    ensures MeetsTurn(h, secs, segs, n, p)
    ensures Kept(LayoutSegment(h, p, Ordered(Raised(secs, segs))[n]).value, FileLayout(h, secs, segs).value.plan, Ordered(Raised(secs, segs))[n])
  {
    hide LayoutSegment, Ordered, Raised, Kept, HeadersEnd, Completed, SegmentDone, EntriesListed, Sound, FlagsAgree;
    var raised := Raised(secs, segs);
    var order := Ordered(raised);
    OrderedIsComplete(raised);
    var p0 := StartPlan(h, secs, segs);
    StartIsSound(h, secs, segs, order);
    TurnsKeep(h, secs, raised, HeadersEnd(h, segs), order, n, |order|, p0);
    p := SegmentsUpToUnfold(h, p0, order, n + 1);
    SegmentsUpToKeep(h, secs, raised, HeadersEnd(h, segs), order, n, p0);
    assert order[n] !in order[..n];
    var last := SegmentsUpTo(h, p0, order, |order|).value;
    SegmentsUpToKeep(h, secs, raised, HeadersEnd(h, segs), order, |order|, p0);
    CompletedKeeps(h.wide, last, order[n]);
    KeptTrans(SegmentsUpTo(h, p0, order, n + 1).value, last, Completed(h.wide, last).plan, order[n]);
  }

  lemma StartIsSound(h: Header, secs: seq<Sec>, segs: seq<Seg>, order: seq<nat>)
    requires InRange(segs, |secs|) && DistinctOrder(order, |segs|)
    ensures FirstPass(h.wide, secs, Raised(secs, segs), HeadersEnd(h, segs), order, 0, StartPlan(h, secs, segs))
  {
    hide HeadersEnd, RaiseAlign, SegmentDone;
  }

  // ---------------------------------------------------------------- what keeps its meaning

  lemma OwnsKept(p: Plan, q: Plan, s: nat, x: nat)
    requires Kept(p, q, s)
    ensures Owns(p.log, s, x) <==> Owns(q.log, s, x)
  {
    if Owns(p.log, s, x) {
      var k :| 0 <= k < |p.log| && p.log[k].sec == x && p.log[k].owner == s;
      assert q.log[..|p.log|][k] == q.log[k];
    }
    if Owns(q.log, s, x) {
      var k :| 0 <= k < |q.log| && q.log[k].sec == x && q.log[k].owner == s;
      assert q.log[..|p.log|][k] == q.log[k];
    }
  }

  lemma EntryKept(p: Plan, q: Plan, s: nat, x: nat)
    requires Kept(p, q, s) && Once(q.log) && Owns(p.log, s, x) && Owns(q.log, s, x)
    ensures EntryOf(p.log, s, x) == EntryOf(q.log, s, x)
  {
    hide EntryOf;
    var e := EntryOf(p.log, s, x);
    var a :| 0 <= a < |p.log| && p.log[a] == e;
    assert q.log[..|p.log|][a] == q.log[a];
    OneEntry(q.log, s, x, a);
  }

  /** The log of the finished file says the same about the segment's own entries as the log at its turn. */
  ghost predicate SameEntries(log: seq<Place>, log': seq<Place>, s: int) {
    && (forall x :: Owns(log, s, x) <==> Owns(log', s, x))
    && (forall x :: Owns(log, s, x) && Owns(log', s, x) ==> EntryOf(log, s, x) == EntryOf(log', s, x))
  }

  lemma EntriesKept(p: Plan, q: Plan, s: nat)
    requires Kept(p, q, s) && Once(q.log)
    ensures SameEntries(p.log, q.log, s)
  {
    hide EntryOf, Owns, Kept, Once;
    forall x: nat ensures Owns(p.log, s, x) <==> Owns(q.log, s, x) {
      OwnsKept(p, q, s, x);
    }
    forall x: nat | Owns(p.log, s, x) && Owns(q.log, s, x) ensures EntryOf(p.log, s, x) == EntryOf(q.log, s, x) {
      EntryKept(p, q, s, x);
    }
  }

  lemma {:induction false} LastSame(secs: seq<Sec>, secs': seq<Sec>, list: seq<nat>, log: seq<Place>, log': seq<Place>, s: int, n: nat)
    requires SameOnList(secs, secs', list) && SameEntries(log, log', s) && n <= |list|
    ensures LastOther(secs, list, log, s, n) == LastOther(secs', list, log', s, n)
    ensures LastBacked(secs, list, n) == LastBacked(secs', list, n)
  {
    hide EntryOf, Owns;
    if n > 0 {
      LastSame(secs, secs', list, log, log', s, n - 1);
    }
  }

  lemma RangesSame(secs: seq<Sec>, secs': seq<Sec>, list: seq<nat>, log: seq<Place>, log': seq<Place>, s: int, j: int, n: nat, end: int)
    requires SameOnList(secs, secs', list) && SameEntries(log, log', s) && n <= |list|
    ensures Unpadded(secs, list, log, s, j, n) == Unpadded(secs', list, log', s, j, n)
    ensures Joins(list, log, s, j, n, end) == Joins(list, log', s, j, n, end)
  {
    hide EntryOf, Owns;
    forall k | 0 <= k <= n ensures NoneOwn(list, log, s, j, k) == NoneOwn(list, log', s, j, k) { }
  }

  lemma ReachesSame(secs: seq<Sec>, secs': seq<Sec>, seg0: Seg, log: seq<Place>, log': seq<Place>, s: int)
    requires SameOnList(secs, secs', seg0.secs) && SameEntries(log, log', s) && |seg0.secs| > 0
    ensures Reaches(secs, seg0, log, s) == Reaches(secs', seg0, log', s)
  {
    hide EntryOf, Owns, Unpadded, Joins, LastOther, LastBacked;
    var list := seg0.secs;
    LastSame(secs, secs', list, log, log', s, |list|);
    var l := LastBacked(secs, list, |list|);
    if l >= 0 {
      LastSame(secs, secs', list, log, log', s, l);
      var j := LastOther(secs, list, log, s, l);
      RangesSame(secs, secs', list, log, log', s, j, l, 0);
      RangesSame(secs, secs', list, log, log', s, -1, l + 1, SharedStart(secs, seg0));
      if j >= 0 {
        RangesSame(secs, secs', list, log, log', s, j, l + 1, EndOf(secs[list[j]]));
      }
    }
  }

  lemma ImageSame(secs: seq<Sec>, secs': seq<Sec>, seg0: Seg, seg: Seg)
    requires SameOnList(secs, secs', seg0.secs) && seg.secs == seg0.secs
    ensures Covers(secs, seg) == Covers(secs', seg) && Regular(secs, seg0) == Regular(secs', seg0)
    ensures StartsBefore(secs, seg.secs, seg.offset) == StartsBefore(secs', seg.secs, seg.offset)
  {
  }

  lemma SharedSame(secs: seq<Sec>, secs': seq<Sec>, seg0: Seg, log: seq<Place>, log': seq<Place>, s: int)
    requires SameOnList(secs, secs', seg0.secs) && SameEntries(log, log', s)
    ensures PlacedByOthers(secs, seg0, log, s) == PlacedByOthers(secs', seg0, log', s)
  {
    hide EntryOf, Owns, EndsAscend;
    ImageSame(secs, secs', seg0, seg0);
    if Regular(secs, seg0) {
      EndsSame(secs, secs', seg0.secs, SharedStart(secs, seg0));
    }
  }

  // ---------------------------------------------------------------- the laws of the finished file

  lemma FileIsSound(h: Header, secs: seq<Sec>, segs: seq<Seg>)
    requires InRange(segs, |secs|) && FileLayout(h, secs, segs).Some?
    ensures Once(FileLayout(h, secs, segs).value.plan.log)
  {
    EverySectionOnce(h, secs, segs);
  }

  lemma PositionOf(segs: seq<Seg>, s: nat) returns (n: nat)
    requires s < |segs|
    ensures n < |Ordered(segs)| && Ordered(segs)[n] == s
  {
    hide Ordered;
    OrderedIsComplete(segs);
    assert s in Ordered(segs);
    n :| 0 <= n < |Ordered(segs)| && Ordered(segs)[n] == s;
  }

  /** In a finished file a segment covers its file-backed sections, whoever placed them, if and only if it starts in
      front of all of them and the last one says so: placed by another segment it ends last, placed by this one it went
      on, with those in front of it, where the last section of another segment ends, and without a gap. */
  lemma SegmentCoveredExactly(h: Header, secs: seq<Sec>, segs: seq<Seg>, s: nat)
    requires InRange(segs, |secs|) && s < |segs| && FileLayout(h, secs, segs).Some?
    requires FileLayout(h, secs, segs).value.plan.total < Modulus(h.wide) && Distinct(segs[s].secs)
    requires var q := FileLayout(h, secs, segs).value.plan;
      |q.secs| == |secs| && |q.segs| == |segs| && Regular(q.secs, Raised(secs, segs)[s])
    ensures var q, seg0 := FileLayout(h, secs, segs).value.plan, Raised(secs, segs)[s];
      && q.segs[s].secs == seg0.secs == segs[s].secs
      && (Covers(q.secs, q.segs[s])
          <==> StartsBefore(q.secs, seg0.secs, q.segs[s].offset) && Reaches(q.secs, seg0, q.log, s))
  {
    hide FileLayout, LayoutSegment, Ordered, RaiseAlign, Sound, FlagsAgree, Covers, Regular, Reaches, StartsBefore, Distinct, Once,
         HeadersEnd, StartPlan, SegmentsUpTo;
    var raised := Raised(secs, segs);
    var n := PositionOf(raised, s);
    var p := TurnOf(h, secs, segs, n);
    var p', q := LayoutSegment(h, p, s).value, FileLayout(h, secs, segs).value.plan;
    FileIsSound(h, secs, segs);
    EntriesKept(p', q, s);
    SameLists(h, p, s);
    assert SameOnList(p'.secs, q.secs, raised[s].secs);
    ImageSame(p'.secs, q.secs, raised[s], q.segs[s]);
    CoversTurn(h, secs, HeadersEnd(h, segs), p, s);
    NotEmpty(q.secs, raised[s], q.log, s);
    ReachesSame(p'.secs, q.secs, raised[s], p'.log, q.log, s);
  }

  lemma SameLists(h: Header, p: Plan, s: nat)
    requires s < |p.segs| && |p.gen| == |p.secs| && InRange(p.segs, |p.secs|) && LayoutSegment(h, p, s).Some?
    ensures LayoutSegment(h, p, s).value.segs[s].secs == p.segs[s].secs
  {
    hide PlaceUpTo, StartRun;
  }

  /** In a finished file a segment whose sections others placed, its file-backed ones SHF_ALLOC, claims at least as
      much memory as file bytes if and only if the surplus of its sections without file bytes says so. Only a segment at
      offset 0 looks at the file position at its turn. */
  lemma SharedMemoryExactly(h: Header, secs: seq<Sec>, segs: seq<Seg>, n: nat) returns (position: nat)
    requires InRange(segs, |secs|) && n < |Ordered(Raised(secs, segs))| && FileLayout(h, secs, segs).Some?
    requires FileLayout(h, secs, segs).value.plan.total < Modulus(h.wide)
    requires var q, s := FileLayout(h, secs, segs).value.plan, Ordered(Raised(secs, segs))[n];
      && s < |segs| && |q.secs| == |secs| && |q.segs| == |segs| && segs[s].memsz < Modulus(h.wide)
      && PlacedByOthers(q.secs, Raised(secs, segs)[s], q.log, s) && BackedAreAlloc(q.secs, Raised(secs, segs)[s].secs)
    ensures OrderHandles(segs, Ordered(Raised(secs, segs)))
    ensures SegmentsUpTo(h, StartPlan(h, secs, segs), Ordered(Raised(secs, segs)), n).Some?
    ensures position == SegmentsUpTo(h, StartPlan(h, secs, segs), Ordered(Raised(secs, segs)), n).value.total
    ensures var q, s := FileLayout(h, secs, segs).value.plan, Ordered(Raised(secs, segs))[n];
      var seg0 := Raised(secs, segs)[s];
      var reached := Reached(q.secs, seg0, position);
      && q.segs[s].filesz == LastEnd(q.secs, seg0.secs, |seg0.secs|, reached) - SharedStart(q.secs, seg0)
      && (q.segs[s].filesz <= q.segs[s].memsz
          <==> EnoughMemory(h.wide, seg0.memsz, q.segs[s].filesz, Surplus(q.secs, seg0, |seg0.secs|, reached)))
  {
    hide FileLayout, LayoutSegment, Ordered, RaiseAlign, Sound, FlagsAgree, Once, HeadersEnd, StartPlan, SegmentsUpTo, EnoughMemory,
         Surplus, PlacedByOthers, BackedAreAlloc, LastEnd, SharedStart, StartsAtZero;
    var raised := Raised(secs, segs);
    var s := Ordered(raised)[n];
    var p := TurnOf(h, secs, segs, n);
    position := p.total;
    var p', q := LayoutSegment(h, p, s).value, FileLayout(h, secs, segs).value.plan;
    FileIsSound(h, secs, segs);
    EntriesKept(p', q, s);
    SameLists(h, p, s);
    assert SameOnList(p'.secs, q.secs, raised[s].secs);
    SharedSame(p'.secs, q.secs, raised[s], p'.log, q.log, s);
    AllocSame(p'.secs, q.secs, raised[s].secs);
    SharedMemoryTurn(h, secs, HeadersEnd(h, segs), p, s);
    NotEmpty(q.secs, raised[s], q.log, s);
    SharedStartSame(p'.secs, q.secs, raised[s], position);
    LastEndSame(p'.secs, q.secs, raised[s].secs, |raised[s].secs|, Reached(q.secs, raised[s], position));
    SurplusSame(p'.secs, q.secs, raised[s], |raised[s].secs|, Reached(q.secs, raised[s], position));
  }

  ghost predicate OrderHandles(segs: seq<Seg>, order: seq<nat>) { forall k :: 0 <= k < |order| ==> order[k] < |segs| }

  lemma NotEmpty(secs: seq<Sec>, seg0: Seg, log: seq<Place>, s: int)
    requires ListInRange(seg0.secs, |secs|)
    ensures Regular(secs, seg0) || PlacedByOthers(secs, seg0, log, s) ==> |seg0.secs| > 0
  {
  }

  lemma AllocSame(secs: seq<Sec>, secs': seq<Sec>, list: seq<nat>)
    requires SameOnList(secs, secs', list)
    ensures BackedAreAlloc(secs, list) == BackedAreAlloc(secs', list)
  {
    hide HasBit;
  }

  lemma SharedStartSame(secs: seq<Sec>, secs': seq<Sec>, seg0: Seg, position: nat)
    requires SameOnList(secs, secs', seg0.secs) && |seg0.secs| > 0
    ensures Reached(secs, seg0, position) == Reached(secs', seg0, position)
    ensures SharedStart(secs, seg0) == SharedStart(secs', seg0)
  {
  }
}
