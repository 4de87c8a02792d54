/** When layout cannot fail: it gives up only over a preset address that lies behind the bytes already placed. */
module LayoutSuccess {
  import opened Words
  import opened LayoutModel
  import opened LayoutFacts
  import opened SegmentFacts
  import opened SegmentOrder
  import opened LayoutSteps
  import opened LayoutTheorems

  /** The section has file bytes that belong at an address given beforehand. */
  predicate Pinned(s: Sec) { s.addrSet && FileLen(s) != 0 }

  /** No segment lists a pinned section. */
  ghost predicate Unpinned(secs: seq<Sec>, segs: seq<Seg>) {
    forall s, k :: 0 <= s < |segs| && 0 <= k < |segs[s].secs| && segs[s].secs[k] < |secs| ==> !Pinned(secs[segs[s].secs[k]])
  }

  /** One section fails exactly when it is pinned, still free, and its distance from the segment's address is smaller
      than that of the file position from the segment's start. */
  lemma PlaceOneFails(wide: bool, seg: Seg, owner: int, r: Run, index: nat)
    requires index < |r.secs| == |r.gen|
    ensures PlaceOne(wide, seg, owner, r, index).None?
            <==> Pinned(r.secs[index]) && !r.gen[index]
                 && Sub64(r.secs[index].addr, seg.vaddr) < Sub64(r.total % W64, r.start)
  {
    hide Stamp, TakesMemory, Add64, Sub64;
  }

  lemma {:induction false} PlaceUpToSucceeds(wide: bool, secs0: seq<Sec>, lo: nat, seg: Seg, owner: int, r: Run, n: nat)
    requires RunSound(wide, secs0, lo, r) && n <= |seg.secs|
    requires forall k :: 0 <= k < |seg.secs| ==> seg.secs[k] < |r.secs|
    requires forall k :: 0 <= k < |seg.secs| ==> !Pinned(secs0[seg.secs[k]])
    ensures PlaceUpTo(wide, seg, owner, r, n).Some?
  {
    hide PlaceOne, Pinned;
    if n > 0 {
      PlaceUpToSucceeds(wide, secs0, lo, seg, owner, r, n - 1);
      PlaceUpToSound(wide, secs0, lo, seg, owner, r, n - 1);
      var r1 := PlaceUpTo(wide, seg, owner, r, n - 1).value;
      FreeIsUnpinned(wide, secs0, lo, r1, seg.secs[n - 1]);
      PlaceOneFails(wide, seg, owner, r1, seg.secs[n - 1]);
    }
  }

  /** A free section is pinned only if it was from the beginning. */
  lemma FreeIsUnpinned(wide: bool, secs0: seq<Sec>, lo: nat, r: Run, x: nat)
    requires RunSound(wide, secs0, lo, r) && x < |r.secs| && !Pinned(secs0[x])
    ensures Pinned(r.secs[x]) ==> r.gen[x]
  {
    FreeIsInitial(wide, secs0, lo, r, x);
  }

  lemma LayoutSegmentSucceeds(h: Header, secs0: seq<Sec>, lo: nat, p: Plan, i: nat)
    requires PlanSound(h.wide, secs0, lo, p) && i < |p.segs| && InRange(p.segs, |p.secs|)
    requires forall k :: 0 <= k < |p.segs[i].secs| ==> !Pinned(secs0[p.segs[i].secs[k]])
    ensures LayoutSegment(h, p, i).Some?
  {
    hide PlaceOne, PlaceUpTo, StartRun, Pinned;
    StartRunSame(h, p, p.segs[i]);
    PlaceUpToSucceeds(h.wide, secs0, lo, p.segs[i], i, StartRun(h, p, p.segs[i]), |p.segs[i].secs|);
  }

  lemma {:induction false} SegmentsUpToSucceed(h: Header, secs0: seq<Sec>, segs0: seq<Seg>, lo: nat, order: seq<nat>, n: nat, p: Plan)
    requires n <= |order| && FirstPass(h.wide, secs0, segs0, lo, order, 0, p) && p.segs == segs0 && Unpinned(secs0, segs0)
    ensures SegmentsUpTo(h, p, order, n).Some?
  {
    hide LayoutSegment, Pinned, DoneOrUntouched, OwnersIn, EntriesListed;
    if n > 0 {
      SegmentsUpToSucceed(h, secs0, segs0, lo, order, n - 1, p);
      SegmentsUpToKeep(h, secs0, segs0, lo, order, n - 1, p);
      LayoutSegmentSucceeds(h, secs0, lo, SegmentsUpTo(h, p, order, n - 1).value, order[n - 1]);
    }
  }

  lemma UnpinnedRaised(secs: seq<Sec>, segs: seq<Seg>)
    requires InRange(segs, |secs|) && Unpinned(secs, segs)
    ensures Unpinned(secs, Raised(secs, segs))
  {
    hide Pinned, RaiseAlign;
    forall s, k | 0 <= s < |segs| && 0 <= k < |Raised(secs, segs)[s].secs| && Raised(secs, segs)[s].secs[k] < |secs|
      ensures !Pinned(secs[Raised(secs, segs)[s].secs[k]])
    {
      assert Raised(secs, segs)[s].secs == segs[s].secs;
    }
  }

  /** Layout succeeds whenever no segment lists a file-backed, non-empty section with a preset address. */
  lemma UnpinnedLayoutSucceeds(h: Header, secs: seq<Sec>, segs: seq<Seg>)
    requires InRange(segs, |secs|) && Unpinned(secs, segs)
    ensures FileLayout(h, secs, segs).Some?
  {
    hide SegmentsUpTo, LooseUpTo, Drain, SwapUpTo, TableStart, Unpinned, RaiseAlign, Includes;
    OrderedIsComplete(Raised(secs, segs));
    UnpinnedRaised(secs, segs);
    var order, p0 := Ordered(Raised(secs, segs)), StartPlan(h, secs, segs);
    assert FirstPass(h.wide, secs, Raised(secs, segs), HeadersEnd(h, segs), order, 0, p0);
    SegmentsUpToSucceed(h, secs, Raised(secs, segs), HeadersEnd(h, segs), order, |order|, p0);
  }
}
