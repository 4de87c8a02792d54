/** Coverage from the object alone: segments that are nested or apart cover their file-backed sections. */
module ObjectCoverage {
  import opened Words
  import opened LayoutModel
  import opened LayoutFacts
  import opened SegmentFacts
  import opened SelfPlaced
  import opened SegmentResult
  import opened SegmentOrder
  import opened LayoutSteps
  import opened LayoutTheorems
  import opened LoadableLayout
  import opened MixedCoverage
  import opened Turns

  /** The segment shares sections only with segments that contain it or that it contains; in front of its file-backed
      sections stand only sections without file bytes that have an address or no alignment. */
  ghost predicate WellListed(secs: seq<Sec>, segs: seq<Seg>, s: nat)
    requires InRange(segs, |secs|) && s < |segs|
  {
    |segs[s].secs| > 0 ==> Laminar(segs, s) && Regular(secs, segs[s]) && Settled(secs, segs[s].secs)
  }

  // ---------------------------------------------------------------- who places the sections of a segment

  lemma FirstLister(segs: seq<Seg>, order: seq<nat>, n: nat, x: nat) returns (j: nat)
    requires Handles(segs, order) && n < |order| && x in segs[order[n]].secs
    ensures j <= n && x in segs[order[j]].secs && !ListedBefore(segs, order, j, x)
  {
    j := 0;
    while x !in segs[order[j]].secs
      invariant j <= n && forall i :: 0 <= i < j ==> x !in segs[order[i]].secs
      decreases n - j
    {
      j := j + 1;
    }
  }

  /** Every segment is contained in one that meets none of its own sections placed. */
  lemma Placer(segs: seq<Seg>, order: seq<nat>, n: nat) returns (j: nat)
    requires Handles(segs, order) && WidestFirst(segs, order) && n < |order| && |segs[order[n]].secs| > 0
    requires forall s :: 0 <= s < |segs| && |segs[s].secs| > 0 ==> Laminar(segs, s)
    ensures j <= n && Contained(segs[order[n]].secs, segs[order[j]].secs)
    ensures forall k :: 0 <= k < |segs[order[j]].secs| ==> !ListedBefore(segs, order, j, segs[order[j]].secs[k])
    ensures StrictlyAscending(segs[order[n]].secs) && StrictlyAscending(segs[order[j]].secs)
  {
    hide InsideOf, ListedBefore;
    var list := segs[order[n]].secs;
    var x := list[0];
    j := FirstLister(segs, order, n, x);
    var outer := segs[order[j]].secs;
    assert Laminar(segs, order[n]) && Laminar(segs, order[j]);
    assert x in list && Meets(list, list) && Meets(list, outer);
    AllOrNone(segs, order, j);
    var k :| 0 <= k < |outer| && outer[k] == x;
    if !Contained(list, outer) {
      StrictContainmentWaits(segs[order[j]], segs[order[n]]);
    }
  }

  // ---------------------------------------------------------------- the log of one segment

  /** The entries of a segment stand in the order of its list. */
  ghost predicate OwnAscend(log: seq<Place>, s: int) {
    forall a, b :: 0 <= a < b < |log| && log[a].owner == log[b].owner == s ==> log[a].sec < log[b].sec
  }

  ghost predicate OwnWithin(log: seq<Place>, s: int, list: seq<nat>, n: nat)
    requires n <= |list|
  {
    forall a :: 0 <= a < |log| && log[a].owner == s ==> log[a].sec in list[..n]
  }

  lemma {:induction false} PlaceUpToAscends(wide: bool, seg: Seg, owner: int, r: Run, n: nat)
    requires n <= |seg.secs| && |r.secs| == |r.gen| && ListInRange(seg.secs, |r.secs|) && StrictlyAscending(seg.secs)
    requires NoEntryOf(r.log, owner) && PlaceUpTo(wide, seg, owner, r, n).Some?
    ensures OwnAscend(PlaceUpTo(wide, seg, owner, r, n).value.log, owner)
    ensures OwnWithin(PlaceUpTo(wide, seg, owner, r, n).value.log, owner, seg.secs, n)
  {
    hide PlaceOne, OwnAscend, OwnWithin, StrictlyAscending;
    if n == 0 {
      NothingOwn(r.log, owner, seg.secs);
    } else {
      var r1 := PlaceUpToUnfold(wide, seg, owner, r, n);
      PlaceUpToAscends(wide, seg, owner, r, n - 1);
      PlaceOneAscends(wide, seg, owner, r1, n - 1);
    }
  }

  lemma NothingOwn(log: seq<Place>, owner: int, list: seq<nat>)
    requires NoEntryOf(log, owner)
    ensures OwnAscend(log, owner) && OwnWithin(log, owner, list, 0)
  {
  }

  lemma PlaceOneAscends(wide: bool, seg: Seg, owner: int, r: Run, n: nat)
    requires n < |seg.secs| && |r.secs| == |r.gen| && ListInRange(seg.secs, |r.secs|) && StrictlyAscending(seg.secs)
    requires PlaceOne(wide, seg, owner, r, seg.secs[n]).Some?
    requires OwnAscend(r.log, owner) && OwnWithin(r.log, owner, seg.secs, n)
    ensures OwnAscend(PlaceOne(wide, seg, owner, r, seg.secs[n]).value.log, owner)
    ensures OwnWithin(PlaceOne(wide, seg, owner, r, seg.secs[n]).value.log, owner, seg.secs, n + 1)
  {
    assert seg.secs[..n + 1] == seg.secs[..n] + [seg.secs[n]];
    if r.secs[seg.secs[n]].stype != SHT_NULL && !r.gen[seg.secs[n]] {
      var at, r' := PlaceOneSizes(wide, seg, owner, r, seg.secs[n]);
      AscendAppend(r.log, owner, seg.secs, n, r'.log[|r.log|]);
    }
  }

  lemma AscendAppend(log: seq<Place>, owner: int, list: seq<nat>, n: nat, e: Place)
    requires n < |list| && StrictlyAscending(list) && OwnAscend(log, owner) && OwnWithin(log, owner, list, n)
    requires e.owner == owner && e.sec == list[n]
    ensures OwnAscend(log + [e], owner) && OwnWithin(log + [e], owner, list, n + 1)
  {
    assert list[..n + 1] == list[..n] + [list[n]];
    forall a | 0 <= a < |log| && log[a].owner == owner ensures log[a].sec < e.sec && log[a].sec in list[..n + 1] {
      assert log[a].sec in list[..n];
      var k :| 0 <= k < n && list[k] == log[a].sec;
    }
  }

  /** What a segment leaves that meets none of its sections placed. */
  lemma PlacerTurn(h: Header, secs0: seq<Sec>, lo: nat, p: Plan, i: nat)
    requires PlanSound(h.wide, secs0, lo, p) && i < |p.segs| && InRange(p.segs, |p.secs|)
    requires NoEntryOf(p.log, i) && LayoutSegment(h, p, i).Some? && StrictlyAscending(p.segs[i].secs)
    requires forall k :: 0 <= k < |p.segs[i].secs| ==> !p.gen[p.segs[i].secs[k]]
    ensures var p' := LayoutSegment(h, p, i).value;
      && OwnAscend(p'.log, i) && |p'.secs| == |p.secs|
      && forall k :: 0 <= k < |p.segs[i].secs| && p'.secs[p.segs[i].secs[k]].stype != SHT_NULL ==> Owns(p'.log, i, p.segs[i].secs[k])
  {
    hide PlaceUpTo, StartRun, FinishSegment, Chained, Once, Recorded, Restrained, OwnAscend, Owns;
    var seg := p.segs[i];
    var r0, r := SegmentRunHolds(h, secs0, lo, p, i);
    StartRunSame(h, p, seg);
    PlaceUpToAscends(h.wide, seg, i, r0, |seg.secs|);
    forall k | 0 <= k < |seg.secs| && r.secs[seg.secs[k]].stype != SHT_NULL ensures Owns(r.log, i, seg.secs[k]) {
      FreeIsOwned(h, secs0, lo, p, i, r0, r, seg.secs[k]);
    }
  }

  lemma FreeIsOwned(h: Header, secs0: seq<Sec>, lo: nat, p: Plan, i: nat, r0: Run, r: Run, x: nat)
    requires SegmentRun(h, secs0, lo, p, i, r0, r) && x in p.segs[i].secs && x < |r.secs|
    requires x < |p.gen| && !p.gen[x] && r.secs[x].stype != SHT_NULL
    ensures Owns(r.log, i, x)
  {
    hide PlaceUpTo, StartRun, Chained, Once, Recorded, Restrained;
    StartRunSame(h, p, p.segs[i]);
    assert !Logs(p.log, x) && Logs(r.log, x);
    forall a | 0 <= a < |p.log| ensures r.log[a].sec != x {
      assert r.log[..|p.log|][a] == p.log[a];
    }
    var b :| 0 <= b < |r.log| && r.log[b].sec == x;
    assert r.log[b].owner == i;
  }

  // ---------------------------------------------------------------- the finished file

  lemma {:induction false} GoingUpTo(h: Header, secs0: seq<Sec>, segs0: seq<Seg>, lo: nat, order: seq<nat>, n: nat, p: Plan)
    requires n <= |order| && FirstPass(h.wide, secs0, segs0, lo, order, 0, p) && p.segs == segs0 && Handles(segs0, order)
    requires Going(h, segs0, order, 0, p) && SegmentsUpTo(h, p, order, n).Some?
    ensures Going(h, segs0, order, n, SegmentsUpTo(h, p, order, n).value)
  {
    hide LayoutSegment, Going, DoneOrUntouched, OwnersIn, EntriesListed;
    if n > 0 {
      var q := SegmentsUpToUnfold(h, p, order, n);
      GoingUpTo(h, secs0, segs0, lo, order, n - 1, p);
      SegmentsUpToKeep(h, secs0, segs0, lo, order, n - 1, p);
      GoingStep(h, secs0, segs0, lo, order, n - 1, q);
    }
  }

  /** At its turn a segment finds placed what was listed before. */
  lemma FlagsAtTurn(h: Header, secs: seq<Sec>, segs: seq<Seg>, n: nat, p: Plan)
    requires InRange(segs, |secs|) && MeetsTurn(h, secs, segs, n, p)
    ensures Handles(Raised(secs, segs), Ordered(Raised(secs, segs)))
    ensures FlagsListed(Raised(secs, segs), Ordered(Raised(secs, segs)), n, p.gen)
  {
    hide SegmentsUpTo, LayoutSegment, Ordered, RaiseAlign, SegmentDone;
    var raised := Raised(secs, segs);
    var order := Ordered(raised);
    StartIsSound(h, secs, segs, order);
    assert Going(h, raised, order, 0, StartPlan(h, secs, segs));
    GoingUpTo(h, secs, raised, HeadersEnd(h, segs), order, n, StartPlan(h, secs, segs));
  }

  /** In the finished file: a segment that met none of its sections placed owns them all, in list order. */
  lemma PlacerKeeps(h: Header, secs: seq<Sec>, segs: seq<Seg>, j: nat)
    requires InRange(segs, |secs|) && FileLayout(h, secs, segs).Some? && j < |Ordered(Raised(secs, segs))|
    requires Handles(Raised(secs, segs), Ordered(Raised(secs, segs)))
    requires var raised, order := Raised(secs, segs), Ordered(Raised(secs, segs));
      StrictlyAscending(raised[order[j]].secs)
      && forall k :: 0 <= k < |raised[order[j]].secs| ==> !ListedBefore(raised, order, j, raised[order[j]].secs[k])
    ensures var q, t := FileLayout(h, secs, segs).value.plan, Ordered(Raised(secs, segs))[j];
      var list := Raised(secs, segs)[t].secs;
      && |q.secs| == |secs| && ListInRange(list, |secs|) && OwnAscend(q.log, t)
      && forall k :: 0 <= k < |list| && q.secs[list[k]].stype != SHT_NULL ==> Owns(q.log, t, list[k])
  {
    hide FileLayout, LayoutSegment, Ordered, RaiseAlign, Chained, Once, Recorded, Restrained, OwnAscend, Owns, HeadersEnd, StartPlan, SegmentsUpTo,
         ListedBefore, StrictlyAscending;
    var raised := Raised(secs, segs);
    var t := Ordered(raised)[j];
    var p := TurnOf(h, secs, segs, j);
    var p', q := LayoutSegment(h, p, t).value, FileLayout(h, secs, segs).value.plan;
    FlagsAtTurn(h, secs, segs, j, p);
    PlacerTurn(h, secs, HeadersEnd(h, segs), p, t);
    SameLists(h, p, t);
    AscendKept(p', q, t);
    forall k | 0 <= k < |raised[t].secs| && q.secs[raised[t].secs[k]].stype != SHT_NULL ensures Owns(q.log, t, raised[t].secs[k]) {
      OwnsKept(p', q, t, raised[t].secs[k]);
    }
  }

  lemma AscendKept(p: Plan, q: Plan, s: nat)
    requires Kept(p, q, s) && OwnAscend(p.log, s)
    ensures OwnAscend(q.log, s)
  {
    forall a | 0 <= a < |p.log| ensures q.log[a] == p.log[a] {
      assert q.log[..|p.log|][a] == q.log[a];
    }
  }

  /** Two sections of one segment, in list order: the first ends in front of the second. */
  lemma InFileOrder(wide: bool, secs0: seq<Sec>, lo: nat, q: Plan, t: int, x: nat, y: nat)
    requires Sound(wide, secs0, lo, q.secs, q.total, q.log) && q.total < Modulus(wide) && OwnAscend(q.log, t)
    requires 0 < x < y < |q.secs| && Owns(q.log, t, x) && Owns(q.log, t, y)
    ensures q.secs[x].offset + FileLen(q.secs[x]) <= q.secs[y].offset
    ensures q.secs[y].offset + FileLen(q.secs[y]) <= q.total
  {
    var a :| 0 <= a < |q.log| && q.log[a].sec == x && q.log[a].owner == t;
    var b :| 0 <= b < |q.log| && q.log[b].sec == y && q.log[b].owner == t;
    assert a < b;
    assert Recorded(wide, secs0, q.secs, q.log[a]) && Recorded(wide, secs0, q.secs, q.log[b]);
    assert SameButPlace(secs0[x], q.secs[x]) && SameButPlace(secs0[y], q.secs[y]);
    TruncSmall(wide, q.log[a].at);
    TruncSmall(wide, q.log[b].at);
  }

  lemma EndInFile(wide: bool, secs0: seq<Sec>, lo: nat, q: Plan, t: int, x: nat)
    requires Sound(wide, secs0, lo, q.secs, q.total, q.log) && q.total < Modulus(wide) && 0 < x < |q.secs| && Owns(q.log, t, x)
    ensures q.secs[x].offset + FileLen(q.secs[x]) <= q.total
  {
    var a :| 0 <= a < |q.log| && q.log[a].sec == x && q.log[a].owner == t;
    assert Recorded(wide, secs0, q.secs, q.log[a]) && SameButPlace(secs0[x], q.secs[x]);
    TruncSmall(wide, q.log[a].at);
  }

  /** All sections of the list are placed by one segment in this order. */
  lemma InnerAscends(wide: bool, secs0: seq<Sec>, lo: nat, q: Plan, t: int, seg0: Seg)
    requires Sound(wide, secs0, lo, q.secs, q.total, q.log) && q.total < Modulus(wide) && OwnAscend(q.log, t)
    requires ListInRange(seg0.secs, |q.secs|) && Regular(q.secs, seg0) && StrictlyAscending(seg0.secs)
    requires forall k :: 0 <= k < |seg0.secs| && q.secs[seg0.secs[k]].stype != SHT_NULL ==> Owns(q.log, t, seg0.secs[k])
    ensures EndsAscend(q.secs, seg0.secs, SharedStart(q.secs, seg0))
  {
    hide Sound, OwnAscend, Owns;
    var list := seg0.secs;
    forall b | 0 <= b < |list| && Backed(q.secs[list[b]])
      ensures SharedStart(q.secs, seg0) <= q.secs[list[b]].offset && q.secs[list[b]].offset + q.secs[list[b]].size < W64
    {
      EndInFile(wide, secs0, lo, q, t, list[b]);
      if b > 0 && !StartsAtZero(seg0) {
        InFileOrder(wide, secs0, lo, q, t, list[0], list[b]);
      }
    }
    forall a, b | 0 <= a < b < |list| && Backed(q.secs[list[a]]) && Backed(q.secs[list[b]])
      ensures q.secs[list[a]].offset + q.secs[list[a]].size <= q.secs[list[b]].offset + q.secs[list[b]].size
    {
      InFileOrder(wide, secs0, lo, q, t, list[a], list[b]);
    }
  }

  /** What one segment owns another does not. */
  lemma NotOwned(wide: bool, secs0: seq<Sec>, lo: nat, q: Plan, t: int, s: int, x: nat)
    requires Sound(wide, secs0, lo, q.secs, q.total, q.log) && s != t && Owns(q.log, t, x)
    ensures !Owns(q.log, s, x)
  {
  }

  /** Types and list regularity survive layout. */
  lemma RegularKept(secs0: seq<Sec>, secs: seq<Sec>, seg0: Seg)
    requires |secs0| == |secs| && ListInRange(seg0.secs, |secs|) && Regular(secs0, seg0)
    requires forall x :: 0 <= x < |secs| ==> SameButPlace(secs0[x], secs[x])
    ensures Regular(secs, seg0)
  {
  }

  lemma FilePasses(h: Header, secs: seq<Sec>, segs: seq<Seg>)
    requires InRange(segs, |secs|) && FileLayout(h, secs, segs).Some?
    ensures var q := FileLayout(h, secs, segs).value.plan;
      && Sound(h.wide, secs, HeadersEnd(h, segs), q.secs, q.total, q.log) && |q.secs| == |secs| && |q.segs| == |segs|
      && (forall x :: 0 <= x < |secs| ==> SameButPlace(secs[x], q.secs[x]))
  {
    hide FileLayout, HeadersEnd, Chained, Once, Recorded, Restrained, LooseLog, LooseAligned, AllDone;
    FileLayoutKeeps(h, secs, segs);
  }

  /** Null sections that a segment lists are in no segment's log. */
  lemma NullsNotOwned(h: Header, secs: seq<Sec>, segs: seq<Seg>, s: nat, x: nat)
    requires InRange(segs, |secs|) && FileLayout(h, secs, segs).Some? && s < |segs| && x in segs[s].secs && x < |secs|
    requires secs[x].stype == SHT_NULL
    ensures !Owns(FileLayout(h, secs, segs).value.plan.log, s, x)
  {
    hide FileLayout, Owns, Logs, Once;
    EverySectionOnce(h, secs, segs);
    assert InSegment(segs, x);
    OwnedIsLogged(FileLayout(h, secs, segs).value.plan.log, s, x);
  }

  /** Every segment whose sections another one places covers them. */
  lemma InnerCovered(h: Header, secs: seq<Sec>, segs: seq<Seg>, s: nat, t: nat)
    requires InRange(segs, |secs|) && FileLayout(h, secs, segs).Some? && s < |segs| && s != t
    requires FileLayout(h, secs, segs).value.plan.total < Modulus(h.wide)
    requires Regular(secs, segs[s]) && StrictlyAscending(segs[s].secs)
    requires var q := FileLayout(h, secs, segs).value.plan;
      && |q.secs| == |secs| && |q.segs| == |segs| && OwnAscend(q.log, t)
      && forall k :: 0 <= k < |segs[s].secs| && q.secs[segs[s].secs[k]].stype != SHT_NULL ==> Owns(q.log, t, segs[s].secs[k])
    ensures var q := FileLayout(h, secs, segs).value.plan;
      q.segs[s].secs == segs[s].secs && ListInRange(segs[s].secs, |q.secs|) && Covers(q.secs, q.segs[s])
  {
    hide FileLayout, RaiseAlign, HeadersEnd, Sound, Owns, OwnAscend, Covers, EndsAscend, Regular, OwnImage, LoaderCongruent, Parallel,
         StrictlyAscending, SharedStart, NobitsBehind, NobitsReach, Led, BackedAreAlloc;
    var q, seg0 := FileLayout(h, secs, segs).value.plan, Raised(secs, segs)[s];
    FilePasses(h, secs, segs);
    RegularRaised(secs, segs[s], seg0);
    RegularKept(secs, q.secs, seg0);
    InnerAscends(h.wide, secs, HeadersEnd(h, segs), q, t, seg0);
    forall k | 0 <= k < |seg0.secs| ensures !Owns(q.log, s, seg0.secs[k]) {
      if q.secs[seg0.secs[k]].stype == SHT_NULL {
        NullsNotOwned(h, secs, segs, s, seg0.secs[k]);
      } else {
        NotOwned(h.wide, secs, HeadersEnd(h, segs), q, t, s, seg0.secs[k]);
      }
    }
    LayoutSegmentsDone(h, secs, segs, s);
  }

  lemma RegularRaised(secs: seq<Sec>, seg: Seg, seg0: Seg)
    requires ListInRange(seg.secs, |secs|) && Regular(secs, seg) && seg0 == seg.(align := seg0.align)
    ensures Regular(secs, seg0)
  {
  }

  /** Every segment that places its own sections covers them. */
  lemma OuterCovered(h: Header, secs: seq<Sec>, segs: seq<Seg>, s: nat)
    requires InRange(segs, |secs|) && FileLayout(h, secs, segs).Some? && s < |segs|
    requires FileLayout(h, secs, segs).value.plan.total < Modulus(h.wide)
    requires Regular(secs, segs[s]) && StrictlyAscending(segs[s].secs) && Settled(secs, segs[s].secs)
    requires var q := FileLayout(h, secs, segs).value.plan;
      && |q.secs| == |secs| && |q.segs| == |segs|
      && forall k :: 0 <= k < |segs[s].secs| && q.secs[segs[s].secs[k]].stype != SHT_NULL ==> Owns(q.log, s, segs[s].secs[k])
    ensures var q := FileLayout(h, secs, segs).value.plan;
      q.segs[s].secs == segs[s].secs && ListInRange(segs[s].secs, |q.secs|) && Covers(q.secs, q.segs[s])
  {
    hide FileLayout, RaiseAlign, HeadersEnd, Sound, Owns, Covers, Regular, GapsBehind, Settled;
    var q, seg0 := FileLayout(h, secs, segs).value.plan, Raised(secs, segs)[s];
    FilePasses(h, secs, segs);
    RegularRaised(secs, segs[s], seg0);
    RegularKept(secs, q.secs, seg0);
    AscendingWeakens(seg0.secs);
    CoveredExactly(h, secs, segs, s);
  }

  /** In a finished file whose segments are nested or apart, with ascending lists in which sections without file bytes
      in front of file-backed ones have an address or no alignment, every segment covers its file-backed sections. */
  lemma ObjectCovered(h: Header, secs: seq<Sec>, segs: seq<Seg>, s: nat)
    requires InRange(segs, |secs|) && FileLayout(h, secs, segs).Some? && s < |segs| && |segs[s].secs| > 0
    requires FileLayout(h, secs, segs).value.plan.total < Modulus(h.wide)
    requires forall t :: 0 <= t < |segs| ==> WellListed(secs, segs, t)
    ensures var q := FileLayout(h, secs, segs).value.plan;
      && |q.secs| == |secs| && |q.segs| == |segs| && q.segs[s].secs == segs[s].secs && ListInRange(segs[s].secs, |q.secs|)
      && Covers(q.secs, q.segs[s])
  {
    hide FileLayout, RaiseAlign, Ordered, Sound, Owns, OwnAscend, Covers, Regular, Settled, ListedBefore, InsideOf, HeadersEnd;
    var raised := Raised(secs, segs);
    var order := Ordered(raised);
    FilePasses(h, secs, segs);
    OrderedIsComplete(raised);
    var n := PositionOf(raised, s);
    LaminarLists(segs, raised);
    forall i | 0 <= i < |raised| && |raised[i].secs| > 0 ensures Laminar(raised, i) {
      assert WellListed(secs, segs, i);
    }
    assert WellListed(secs, segs, s);
    var j := Placer(raised, order, n);
    PlacerKeeps(h, secs, segs, j);
    var t, q := order[j], FileLayout(h, secs, segs).value.plan;
    forall k | 0 <= k < |segs[s].secs| && q.secs[segs[s].secs[k]].stype != SHT_NULL ensures Owns(q.log, t, segs[s].secs[k]) {
      assert raised[s].secs[k] in raised[t].secs;
      var i :| 0 <= i < |raised[t].secs| && raised[t].secs[i] == raised[s].secs[k];
    }
    if t == s {
      OuterCovered(h, secs, segs, s);
    } else {
      InnerCovered(h, secs, segs, s, t);
    }
  }

  lemma LaminarLists(segs: seq<Seg>, raised: seq<Seg>)
    requires |raised| == |segs| && forall s :: 0 <= s < |segs| ==> raised[s].secs == segs[s].secs
    ensures forall s :: 0 <= s < |segs| ==> Laminar(raised, s) == Laminar(segs, s)
  {
    hide Meets, Nested, StrictlyAscending;
  }
}
