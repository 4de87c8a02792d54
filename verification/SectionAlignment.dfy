/** Where the layout is free to choose the position of a section, it chooses a multiple of the section's alignment. */
module SectionAlignment {
  import opened Words
  import opened LayoutModel
  import opened LayoutFacts
  import opened SegmentFacts
  import opened LayoutSteps
  import opened SegmentOrder
  import opened LayoutTheorems
  import Congruence

  /** The entry starts at a multiple of the alignment of its section. */
  predicate EntryAligned(secs0: seq<Sec>, e: Place) {
    e.sec < |secs0| && secs0[e.sec].align > 1 ==> e.at % secs0[e.sec].align == 0
  }

  /** The entries made for sections of segments that came without an address are aligned. */
  ghost predicate ChosenAligned(secs0: seq<Sec>, log: seq<Place>, total: nat) {
    total < W64 ==>
      forall k :: 0 <= k < |log| && log[k].owner != LOOSE && log[k].sec < |secs0| && !secs0[log[k].sec].addrSet
        ==> EntryAligned(secs0, log[k])
  }

  /** The padding in front of a section without an address ends at a multiple of its alignment. */
  lemma FreePaddingAligns(align: Word64, total: nat)
    requires align > 1 && total < W64
    ensures (total + (align - total % W64 % align) % align) % align == 0
  {
    LoosePaddingAligns(align, total);
    Congruence.SmallMod(total, W64);
    if total % align == 0 {
      Congruence.AddOne(0, align);
    } else {
      Congruence.SmallMod(align - total % align, align);
    }
  }

  lemma PlaceOneAligns(wide: bool, secs0: seq<Sec>, lo: nat, seg: Seg, owner: int, r: Run, index: nat)
    requires RunSound(wide, secs0, lo, r) && index < |r.secs| && PlaceOne(wide, seg, owner, r, index).Some?
    requires ChosenAligned(secs0, r.log, r.total)
    ensures ChosenAligned(secs0, PlaceOne(wide, seg, owner, r, index).value.log, PlaceOne(wide, seg, owner, r, index).value.total)
  {
    hide FileLen;
    if r.secs[index].stype != SHT_NULL && !r.gen[index] {
      FreeIsInitial(wide, secs0, lo, r, index);
      var at, r' := PlaceOneSizes(wide, seg, owner, r, index);
      ChosenPosition(wide, seg, owner, r, index, at, r');
    }
  }

  /** The position that a section without an address gets. */
  lemma ChosenPosition(wide: bool, seg: Seg, owner: int, r: Run, index: nat, at: nat, r': Run)
    requires index < |r.secs| == |r.gen| && r.secs[index].stype != SHT_NULL && !r.gen[index]
    requires PlaceOne(wide, seg, owner, r, index) == Some(r') && r'.total == at + FileLen(r.secs[index]) && r.total <= at
    ensures r'.total < W64 && !r.secs[index].addrSet && r.secs[index].align > 1 ==> at % r.secs[index].align == 0
  {
    hide Stamp, Add64, Sub64, TakesMemory;
    var align := r.secs[index].align;
    if r'.total < W64 && !r.secs[index].addrSet && align > 1 {
      FreePaddingAligns(align, r.total);
    }
  }

  lemma {:induction false} PlaceUpToAligns(wide: bool, secs0: seq<Sec>, lo: nat, seg: Seg, owner: int, r: Run, n: nat)
    requires RunSound(wide, secs0, lo, r) && n <= |seg.secs|
    requires forall k :: 0 <= k < |seg.secs| ==> seg.secs[k] < |r.secs|
    requires PlaceUpTo(wide, seg, owner, r, n).Some? && ChosenAligned(secs0, r.log, r.total)
    ensures ChosenAligned(secs0, PlaceUpTo(wide, seg, owner, r, n).value.log, PlaceUpTo(wide, seg, owner, r, n).value.total)
  {
    hide PlaceOne, ChosenAligned;
    if n > 0 {
      var r1 := PlaceUpToUnfold(wide, seg, owner, r, n);
      PlaceUpToAligns(wide, secs0, lo, seg, owner, r, n - 1);
      PlaceUpToSound(wide, secs0, lo, seg, owner, r, n - 1);
      PlaceOneAligns(wide, secs0, lo, seg, owner, r1, seg.secs[n - 1]);
    }
  }

  lemma LayoutSegmentAligns(h: Header, secs0: seq<Sec>, lo: nat, p: Plan, i: nat)
    requires PlanSound(h.wide, secs0, lo, p) && i < |p.segs| && InRange(p.segs, |p.secs|)
    requires NoEntryOf(p.log, i) && LayoutSegment(h, p, i).Some? && ChosenAligned(secs0, p.log, p.total)
    ensures ChosenAligned(secs0, LayoutSegment(h, p, i).value.log, LayoutSegment(h, p, i).value.total)
  {
    hide PlaceOne, PlaceUpTo, StartRun, FinishSegment;
    var r0, r := SegmentRunHolds(h, secs0, lo, p, i);
    StartRunSame(h, p, p.segs[i]);
    PlaceUpToAligns(h.wide, secs0, lo, p.segs[i], i, r0, |p.segs[i].secs|);
  }

  lemma {:induction false} SegmentsUpToAlign(h: Header, secs0: seq<Sec>, segs0: seq<Seg>, lo: nat, order: seq<nat>, n: nat, p: Plan)
    requires n <= |order| && FirstPass(h.wide, secs0, segs0, lo, order, 0, p)
    requires SegmentsUpTo(h, p, order, n).Some? && p.log == []
    ensures ChosenAligned(secs0, SegmentsUpTo(h, p, order, n).value.log, SegmentsUpTo(h, p, order, n).value.total)
  {
    hide LayoutSegment, DoneOrUntouched, EntriesListed;
    if n > 0 {
      var q := SegmentsUpToUnfold(h, p, order, n);
      SegmentsUpToAlign(h, secs0, segs0, lo, order, n - 1, p);
      SegmentsUpToKeep(h, secs0, segs0, lo, order, n - 1, p);
      assert NoEntryOf(q.log, order[n - 1]);
      LayoutSegmentAligns(h, secs0, lo, q, order[n - 1]);
    }
  }

  lemma {:induction false} LooseUpToAligns(wide: bool, secs0: seq<Sec>, p: Plan, n: nat)
    requires n <= |p.secs| && ChosenAligned(secs0, p.log, p.total)
    ensures ChosenAligned(secs0, LooseUpTo(wide, p, n).log, LooseUpTo(wide, p, n).total)
  {
    hide LoosePadding, Trunc, EntryAligned;
    if n > 0 {
      LooseUpToAligns(wide, secs0, p, n - 1);
    }
  }

  /** The whole layout aligns what it is free to place. */
  lemma LayoutAligns(h: Header, secs: seq<Sec>, segs: seq<Seg>, order: seq<nat>)
    requires InRange(segs, |secs|) && Complete(order, |segs|) && Layout(h, secs, segs, order).Some?
    ensures var q := Layout(h, secs, segs, order).value.plan;
      ChosenAligned(secs, q.log, q.total)
  {
    hide EntryAligned, LayoutSegment, SegmentsUpTo, LooseUpTo, PlaceLoose, Trunc;
    var p0, lo := StartPlan(h, secs, segs), HeadersEnd(h, segs);
    assert FirstPass(h.wide, secs, Raised(secs, segs), lo, order, 0, p0);
    SegmentsUpToAlign(h, secs, Raised(secs, segs), lo, order, |order|, p0);
    SegmentsUpToKeep(h, secs, Raised(secs, segs), lo, order, |order|, p0);
    var p := SegmentsUpTo(h, p0, order, |order|).value;
    LooseUpToAligns(h.wide, secs, p, |p.secs|);
  }

  lemma FileLayoutAligns(h: Header, secs: seq<Sec>, segs: seq<Seg>)
    requires InRange(segs, |secs|) && FileLayout(h, secs, segs).Some?
    ensures var q := FileLayout(h, secs, segs).value.plan;
      ChosenAligned(secs, q.log, q.total)
  {
    hide Layout, Ordered, Raised, ChosenAligned;
    OrderedIsComplete(Raised(secs, segs));
    LayoutAligns(h, secs, segs, Ordered(Raised(secs, segs)));
  }

  /** In a finished layout every section whose position was free, because no segment lists it or because it came
      without an address, stands at a file offset that is a multiple of its alignment. */
  lemma FreeSectionsAreAligned(h: Header, secs: seq<Sec>, segs: seq<Seg>, i: nat)
    requires InRange(segs, |secs|) && FileLayout(h, secs, segs).Some?
    requires FileLayout(h, secs, segs).value.plan.total < Modulus(h.wide)
    requires 0 < i < |secs| && secs[i].align > 1
    requires if InSegment(segs, i) then secs[i].stype != SHT_NULL && !secs[i].addrSet else true
    ensures var q := FileLayout(h, secs, segs).value.plan.secs;
      i < |q| && q[i].offset % secs[i].align == 0
  {
    hide FileLayout, Sound, SecondPass, Once, LooseLog, LooseAligned, ChosenAligned, Raised, HeadersEnd, Chained;
    FileLayoutAligns(h, secs, segs);
    FileLayoutKeeps(h, secs, segs);
    EverySectionOnce(h, secs, segs);
    MembershipOfRaised(secs, segs, i);
    FreeSectionAligned(h, secs, Raised(secs, segs), HeadersEnd(h, segs), FileLayout(h, secs, segs).value.plan, i);
  }

  lemma FreeSectionAligned(h: Header, secs0: seq<Sec>, segs0: seq<Seg>, lo: nat, q: Plan, i: nat)
    requires SecondPass(h.wide, secs0, segs0, lo, |secs0|, q) && ChosenAligned(secs0, q.log, q.total)
    requires 0 < i < |secs0| && secs0[i].align > 1 && Logs(q.log, i) && q.total < Modulus(h.wide)
    requires InSegment(segs0, i) ==> !secs0[i].addrSet
    ensures i < |q.secs| && q.secs[i].offset % secs0[i].align == 0
  {
    hide AllDone, InSegment, EntriesListed;
    var b := PlacedAt(h, secs0, lo, q, i);
    assert SameButPlace(secs0[i], q.secs[i]);
    assert q.log[b].owner == LOOSE || EntryAligned(secs0, q.log[b]) by {
      if !InSegment(segs0, i) {
        LoggedOwner(secs0, segs0, q.log, b);
      }
    }
  }

  /** A section that no segment lists was placed as such. */
  lemma LoggedOwner(secs0: seq<Sec>, segs0: seq<Seg>, log: seq<Place>, b: nat)
    requires LooseLog(secs0, segs0, log, |secs0|) && b < |log| && !InSegment(segs0, log[b].sec)
    ensures log[b].owner == LOOSE
  {
  }
}
