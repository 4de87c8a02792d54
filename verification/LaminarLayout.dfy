/** Layout of objects whose segments are nested or apart and whose listed sections have addresses: exactly when it
    succeeds. */
module LaminarLayout {
  import opened Words
  import opened LayoutModel
  import opened LayoutFacts
  import opened SegmentFacts
  import opened SelfPlaced
  import opened SegmentResult
  import opened SegmentOrder
  import opened LayoutSteps
  import opened LayoutTheorems
  import opened LayoutSuccess
  import opened LoadableLayout
  import SharedMemory

  /** The distance of a section from its segment's address, as the program computes it. */
  function Distance(sec: Sec, vaddr: Word64): Word64 { Sub64(sec.addr, vaddr) }

  /** The distance that the first `n` sections of a list reach when each pinned one stands at its address. */
  function Cursor(secs: seq<Sec>, list: seq<nat>, vaddr: Word64, n: nat, room: nat): Word64
    requires n <= |list| && ListInRange(list, |secs|)
  {
    if n == 0 then room % W64
    else if Pinned(secs[list[n - 1]]) then Add64(Distance(secs[list[n - 1]], vaddr), secs[list[n - 1]].size)
    else Cursor(secs, list, vaddr, n - 1, room)
  }

  /** No pinned section among the first `n` stands nearer to the segment's address than the sections in front of it
      reach. */
  ghost predicate DistancesAscend(secs: seq<Sec>, list: seq<nat>, vaddr: Word64, n: nat, room: nat)
    requires n <= |list| && ListInRange(list, |secs|)
  {
    forall b :: 0 <= b < n && Pinned(secs[list[b]]) ==> Cursor(secs, list, vaddr, b, room) <= Distance(secs[list[b]], vaddr)
  }

  ghost predicate Addressed(secs: seq<Sec>, list: seq<nat>)
    requires ListInRange(list, |secs|)
  {
    forall k :: 0 <= k < |list| ==> secs[list[k]].stype == SHT_NULL || secs[list[k]].addrSet
  }

  // ---------------------------------------------------------------- one segment

  lemma PinnedMoves(wide: bool, seg: Seg, owner: int, r: Run, index: nat)
    requires index < |r.secs| == |r.gen| && Pinned(r.secs[index]) && !r.gen[index]
    requires PlaceOne(wide, seg, owner, r, index).Some?
    ensures var r' := PlaceOne(wide, seg, owner, r, index).value;
      r'.start == r.start && Sub64(r'.total % W64, r'.start) == Add64(Distance(r.secs[index], seg.vaddr), r.secs[index].size)
  {
    hide Stamp, TakesMemory, Add64, Sub64;
    var sec := r.secs[index];
    var at, r' := PlaceOneSplit(wide, seg, owner, r, index);
    PresetPosition(sec.addr, seg.vaddr, r.total, at, r.start);
    FurtherOn(at, sec.size, r.start, Distance(sec, seg.vaddr));
  }

  lemma FurtherOn(at: nat, size: Word64, start: Word64, d: Word64)
    requires Sub64(at % W64, start) == d
    ensures Sub64((at + size) % W64, start) == Add64(d, size)
  {
    TruncDiffWide(at, start);
    TruncDiffWide(at + size, start);
    SharedMemory.AddResidues(at - start, size);
  }

  /** A segment that places all its sections itself does not fail if and only if their distances ascend. */
  lemma {:induction false} PlaceUpToExactly(wide: bool, secs0: seq<Sec>, lo: nat, seg: Seg, owner: int, r: Run, n: nat, room: nat)
    requires RunSound(wide, secs0, lo, r) && PlacesAll(secs0, r.gen, seg.secs) && n <= |seg.secs|
    requires Addressed(secs0, seg.secs) && Sub64(r.total % W64, r.start) == room % W64
    ensures PlaceUpTo(wide, seg, owner, r, n).Some? <==> DistancesAscend(secs0, seg.secs, seg.vaddr, n, room)
    ensures PlaceUpTo(wide, seg, owner, r, n).Some? ==>
      var r' := PlaceUpTo(wide, seg, owner, r, n).value;
      r'.start == r.start && Sub64(r'.total % W64, r'.start) == Cursor(secs0, seg.secs, seg.vaddr, n, room)
  {
    hide PlaceOne, Sound, Pinned, Sub64, Add64, Distance;
    if n > 0 {
      PlaceUpToExactly(wide, secs0, lo, seg, owner, r, n - 1, room);
      if PlaceUpTo(wide, seg, owner, r, n - 1).Some? {
        var r1 := NextIsFree(wide, secs0, lo, seg, owner, r, n);
        AddressedStep(wide, secs0, seg, owner, r1, n - 1);
      }
    }
  }

  lemma AddressedStep(wide: bool, secs0: seq<Sec>, seg: Seg, owner: int, r: Run, n: nat)
    requires n < |seg.secs| && ListInRange(seg.secs, |secs0|) && |r.secs| == |r.gen| == |secs0| && Addressed(secs0, seg.secs)
    requires r.secs[seg.secs[n]].stype == secs0[seg.secs[n]].stype
    requires secs0[seg.secs[n]].stype != SHT_NULL ==> r.secs[seg.secs[n]] == secs0[seg.secs[n]] && !r.gen[seg.secs[n]]
    ensures var sec, o := secs0[seg.secs[n]], PlaceOne(wide, seg, owner, r, seg.secs[n]);
      && (o.None? <==> Pinned(sec) && Distance(sec, seg.vaddr) < Sub64(r.total % W64, r.start))
      && (o.Some? ==> o.value.start == r.start
                      && Sub64(o.value.total % W64, o.value.start)
                         == if Pinned(sec) then Add64(Distance(sec, seg.vaddr), sec.size) else Sub64(r.total % W64, r.start))
  {
    hide PlaceOne, Sub64, Add64;
    var index := seg.secs[n];
    if secs0[index].stype == SHT_NULL {
      NullChangesNothing(wide, seg, owner, r, index);
    } else {
      PlaceOneFails(wide, seg, owner, r, index);
      if Pinned(secs0[index]) {
        if PlaceOne(wide, seg, owner, r, index).Some? {
          PinnedMoves(wide, seg, owner, r, index);
        }
      } else {
        UnmovedStep(wide, seg, owner, r, index);
        UnmovedStart(wide, seg, owner, r, index);
      }
    }
  }

  lemma UnmovedStart(wide: bool, seg: Seg, owner: int, r: Run, index: nat)
    requires index < |r.secs| == |r.gen| && PlaceOne(wide, seg, owner, r, index).Some?
    ensures PlaceOne(wide, seg, owner, r, index).value.start == r.start
  {
  }

  lemma FreshExactly(h: Header, secs0: seq<Sec>, lo: nat, p: Plan, i: nat)
    requires PlanSound(h.wide, secs0, lo, p) && i < |p.segs| && InRange(p.segs, |p.secs|)
    requires Distinct(p.segs[i].secs) && |p.segs[i].secs| > 0 && Addressed(secs0, p.segs[i].secs)
    requires forall k :: 0 <= k < |p.segs[i].secs| ==> !p.gen[p.segs[i].secs[k]]
    ensures LayoutSegment(h, p, i).Some?
            <==> DistancesAscend(secs0, p.segs[i].secs, p.segs[i].vaddr, |p.segs[i].secs|, if StartsAtZero(p.segs[i]) then p.total else 0)
  {
    hide PlaceOne, PlaceUpTo, StartRun, Chained, Once, Recorded, Restrained, RunSound, PlacesAll, SegPadding, StartsAtZero,
         DistancesAscend, Addressed;
    var seg := p.segs[i];
    StartRunSame(h, p, seg);
    FreeArePlaced(secs0, p.gen, seg.secs);
    StartRunSound(h, secs0, lo, p, seg);
    var r := StartRun(h, p, seg);
    if StartsAtZero(seg) {
      ZeroStart(h, p, seg);
      PlaceUpToExactly(h.wide, secs0, lo, seg, i, r, |seg.secs|, p.total);
    } else {
      FreshStart(h, p, seg);
      PlaceUpToExactly(h.wide, secs0, lo, seg, i, r, |seg.secs|, 0);
    }
  }

  // ---------------------------------------------------------------- the first pass

  /** Segments with pinned sections are nested or apart and list only sections with addresses; no segment without an
      offset stands in front of one at offset 0. */
  ghost predicate LaminarObject(secs: seq<Sec>, segs: seq<Seg>)
    requires InRange(segs, |secs|)
  {
    && (forall a, b :: 0 <= a < b < |segs| && StartsAtZero(segs[b]) ==> segs[a].offsetSet)
    && (forall s :: 0 <= s < |segs| && HasPinned(secs, segs[s]) ==>
          Laminar(segs, s) && ZerosNested(segs, s) && Addressed(secs, segs[s].secs))
  }

  /** Number `n` of the order places pinned sections. */
  ghost predicate PlacesPinned(secs: seq<Sec>, segs: seq<Seg>, order: seq<nat>, n: nat)
    requires Handles(segs, order) && n < |order|
  {
    && HasPinned(secs, segs[order[n]])
    && forall k :: 0 <= k < |segs[order[n]].secs| ==> !ListedBefore(segs, order, n, segs[order[n]].secs[k])
  }

  /** The distances of number `n` of the order ascend, if it places its sections. */
  ghost predicate TurnAscends(h: Header, secs: seq<Sec>, segs: seq<Seg>, order: seq<nat>, n: nat)
    requires InRange(segs, |secs|) && Handles(segs, order) && n < |order|
  {
    var seg := segs[order[n]];
    PlacesPinned(secs, segs, order, n) ==> DistancesAscend(secs, seg.secs, seg.vaddr, |seg.secs|, Room(h, segs, seg))
  }

  /** The turn of a segment. */
  lemma TurnExactly(h: Header, secs0: seq<Sec>, segs0: seq<Seg>, lo: nat, order: seq<nat>, n: nat, p: Plan)
    requires n < |order| && FirstPass(h.wide, secs0, segs0, lo, order, n, p) && Handles(segs0, order)
    requires order == Ordered(segs0) && Going(h, segs0, order, n, p) && LaminarObject(secs0, segs0)
    ensures LayoutSegment(h, p, order[n]).Some? <==> TurnAscends(h, secs0, segs0, order, n)
  {
    hide LayoutSegment, SegmentDone, EntriesListed, ListedBefore, HeadersEnd, Sound, Ordered, InsideOf, DistancesAscend, Addressed,
         StartsAtZero, Laminar, ZerosNested, HasPinned;
    var i := order[n];
    var list := segs0[i].secs;
    assert order[..n + 1] == order[..n] + [i];
    assert i !in order[..n];
    assert p.segs[i] == segs0[i];
    if !HasPinned(secs0, segs0[i]) {
      UnpinnedTurn(h, secs0, segs0, lo, order, n, p);
    } else {
      PinnedNotEmpty(secs0, segs0[i]);
      OrderedIsComplete(segs0);
      AllOrNone(segs0, order, n);
      if k :| 0 <= k < |list| && p.gen[list[k]] {
        assert forall k :: 0 <= k < |list| ==> p.gen[list[k]];
        assert ListedBefore(segs0, order, n, list[k]);
        MarkedSucceeds(h, secs0, lo, p, i);
      } else {
        SelfIsDistinct(segs0, i);
        if StartsAtZero(segs0[i]) {
          ZeroTurn(segs0, order, n);
        }
        FreshExactly(h, secs0, lo, p, i);
      }
    }
  }

  lemma PinnedNotEmpty(secs: seq<Sec>, seg: Seg)
    requires HasPinned(secs, seg)
    ensures |seg.secs| > 0
  {
  }

  lemma {:induction false} SegmentsUpToExactly(h: Header, secs0: seq<Sec>, segs0: seq<Seg>, lo: nat, order: seq<nat>, n: nat, p: Plan)
    requires n <= |order| && FirstPass(h.wide, secs0, segs0, lo, order, 0, p) && p.segs == segs0 && Handles(segs0, order)
    requires order == Ordered(segs0) && Going(h, segs0, order, 0, p) && LaminarObject(secs0, segs0)
    ensures SegmentsUpTo(h, p, order, n).Some? <==> forall m :: 0 <= m < n ==> TurnAscends(h, secs0, segs0, order, m)
    ensures SegmentsUpTo(h, p, order, n).Some? ==> Going(h, segs0, order, n, SegmentsUpTo(h, p, order, n).value)
  {
    hide LayoutSegment, LaminarObject, Going, Ordered, DoneOrUntouched, OwnersIn, EntriesListed, TurnAscends;
    if n > 0 {
      SegmentsUpToExactly(h, secs0, segs0, lo, order, n - 1, p);
      if SegmentsUpTo(h, p, order, n - 1).Some? {
        SegmentsUpToKeep(h, secs0, segs0, lo, order, n - 1, p);
        var q := SegmentsUpTo(h, p, order, n - 1).value;
        TurnExactly(h, secs0, segs0, lo, order, n - 1, q);
        if LayoutSegment(h, q, order[n - 1]).Some? {
          GoingStep(h, secs0, segs0, lo, order, n - 1, q);
        }
      }
    }
  }

  lemma LaminarRaised(secs: seq<Sec>, segs: seq<Seg>)
    requires InRange(segs, |secs|) && LaminarObject(secs, segs)
    ensures LaminarObject(secs, Raised(secs, segs))
  {
    hide RaiseAlign, Addressed, Pinned;
    var raised := Raised(secs, segs);
    assert forall s :: 0 <= s < |segs| ==> raised[s].secs == segs[s].secs && StartsAtZero(raised[s]) == StartsAtZero(segs[s]);
    forall s | 0 <= s < |raised| && HasPinned(secs, raised[s]) ensures Laminar(raised, s) && ZerosNested(raised, s) {
      assert HasPinned(secs, segs[s]);
    }
  }

  /** Layout of such an object succeeds if and only if, in every segment that places its sections, each pinned one
      stands at least as far from the segment's address as those in front of it reach (the headers, at offset 0). */
  lemma LaminarLayoutExactly(h: Header, secs: seq<Sec>, segs: seq<Seg>)
    requires InRange(segs, |secs|) && LaminarObject(secs, segs)
    ensures Handles(segs, Ordered(Raised(secs, segs)))
    ensures var raised, order := Raised(secs, segs), Ordered(Raised(secs, segs));
      FileLayout(h, secs, segs).Some? <==> forall n :: 0 <= n < |order| ==> TurnAscends(h, secs, raised, order, n)
  {
    hide SegmentsUpTo, LooseUpTo, Ordered, TableStart, LaminarObject, RaiseAlign, Includes, TurnAscends;
    var raised := Raised(secs, segs);
    OrderedIsComplete(raised);
    LaminarRaised(secs, segs);
    var order, p0 := Ordered(raised), StartPlan(h, secs, segs);
    assert FirstPass(h.wide, secs, raised, HeadersEnd(h, segs), order, 0, p0);
    assert Going(h, raised, order, 0, p0);
    SegmentsUpToExactly(h, secs, raised, HeadersEnd(h, segs), order, |order|, p0);
  }
}
