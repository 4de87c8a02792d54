/** No more bytes are skipped than an alignment or a preset address asks for. */
module Gaps {
  import opened Words
  import opened LayoutModel
  import opened LayoutFacts
  import opened SegmentResult
  import opened SegmentOrder
  import opened LayoutSteps
  import opened LayoutTheorems
  import opened Turns
  import Resave

  function AtLeastOne(align: nat): nat { if align == 0 then 1 else align }

  /** The end of the last entry, or `lo` when there is none. */
  function EndOf(log: seq<Place>, lo: nat): nat {
    if log == [] then lo else log[|log| - 1].at + log[|log| - 1].len
  }

  /** The bytes skipped in front of a section: less than its alignment when nothing else decides, none when it has no
      bytes in the file but an address. */
  predicate PadIsNeeded(s0: Sec, e: Place) {
    && (!s0.addrSet || e.owner == -1 ==> e.pad < AtLeastOne(s0.align))
    && (s0.addrSet && e.owner != -1 && (s0.stype == 8 || s0.size == 0) ==> e.pad == 0)
  }

  /** The bytes between entry `k` with its padding and what stands in front of it: less than the alignment of the segment
      that starts there, and none elsewhere. */
  predicate GapIsNeeded(segs0: seq<Seg>, log: seq<Place>, lo: nat, k: nat)
    requires k < |log|
  {
    var e := log[k];
    e.at - e.pad == EndOf(log[..k], lo)
    || (&& 0 <= e.owner < |segs0| && (k == 0 || log[k - 1].owner != e.owner)
        && 0 < e.at - e.pad - EndOf(log[..k], lo) < AtLeastOne(segs0[e.owner].align))
  }

  ghost predicate Snug(secs0: seq<Sec>, segs0: seq<Seg>, log: seq<Place>, lo: nat) {
    forall k :: 0 <= k < |log| ==> log[k].sec < |secs0| && PadIsNeeded(secs0[log[k].sec], log[k]) && GapIsNeeded(segs0, log, lo, k)
  }

  lemma SnugAppend(secs0: seq<Sec>, segs0: seq<Seg>, log: seq<Place>, lo: nat, e: Place)
    requires Snug(secs0, segs0, log, lo) && e.sec < |secs0| && PadIsNeeded(secs0[e.sec], e)
    requires var gap := e.at - e.pad - EndOf(log, lo);
      gap == 0 || (0 <= e.owner < |segs0| && NoEntryOf(log, e.owner) && 0 < gap < AtLeastOne(segs0[e.owner].align))
    ensures Snug(secs0, segs0, log + [e], lo) && EndOf(log + [e], lo) == e.at + e.len
  {
    hide PadIsNeeded;
    var log' := log + [e];
    forall k | 0 <= k < |log'|
      ensures log'[k].sec < |secs0| && PadIsNeeded(secs0[log'[k].sec], log'[k]) && GapIsNeeded(segs0, log', lo, k)
    {
      if k < |log| {
        assert log'[..k] == log[..k];
        assert GapIsNeeded(segs0, log, lo, k);
      } else {
        assert log'[..k] == log;
      }
    }
  }

  // ---------------------------------------------------------------- one segment

  /** During the run of segment `owner`; before its first entry the bytes skipped for its start may lie in between. */
  ghost predicate SnugRun(secs0: seq<Sec>, segs0: seq<Seg>, lo: nat, owner: int, r: Run) {
    && Snug(secs0, segs0, r.log, lo)
    && (r.total == EndOf(r.log, lo)
        || (0 <= owner < |segs0| && NoEntryOf(r.log, owner) && 0 < r.total - EndOf(r.log, lo) < AtLeastOne(segs0[owner].align)))
  }

  /** The padding of a section that is placed. */
  lemma PadOf(seg: Seg, s0: Sec, pos: Word64, start: Word64, file: Word64)
    requires SecAlign(seg, s0, false, pos, start, file).Some? && s0.stype != SHT_NULL
    ensures var pad := SecAlign(seg, s0, false, pos, start, file).value;
      && (!s0.addrSet ==> pad < AtLeastOne(s0.align)) && (s0.addrSet && (s0.stype == 8 || s0.size == 0) ==> pad == 0)
  {
  }

  lemma PlaceOneSnug(wide: bool, secs0: seq<Sec>, segs0: seq<Seg>, lo: nat, owner: nat, r: Run, index: nat)
    requires RunSound(wide, secs0, lo, r) && owner < |segs0| && index < |r.secs| && SnugRun(secs0, segs0, lo, owner, r)
    requires PlaceOne(wide, segs0[owner], owner, r, index).Some?
    ensures var r' := PlaceOne(wide, segs0[owner], owner, r, index).value;
      && SnugRun(secs0, segs0, lo, owner, r')
      && ((r.secs[index].stype != SHT_NULL && !r.gen[index]) || r.total == EndOf(r.log, lo) ==> r'.total == EndOf(r'.log, lo))
  {
    hide Snug, Chained, Once, Recorded, Restrained, Stamp, SecAlign;
    if r.secs[index].stype != SHT_NULL && !r.gen[index] {
      var at, r' := PlaceOneSplit(wide, segs0[owner], owner, r, index);
      assert !Logs(r.log, index) && r.secs[index] == secs0[index];
      PadOf(segs0[owner], secs0[index], r.total % W64, r.start, r.file);
      var e := Place(index, owner, at, FileLen(secs0[index]), at - r.total);
      SnugAppend(secs0, segs0, r.log, lo, e);
    } else {
      PlacedLeavesLog(wide, segs0[owner], owner, r, index);
    }
  }

  lemma PlacedLeavesLog(wide: bool, seg: Seg, owner: int, r: Run, index: nat)
    requires index < |r.secs| == |r.gen| && PlaceOne(wide, seg, owner, r, index).Some?
    requires r.secs[index].stype == SHT_NULL || r.gen[index]
    ensures PlaceOne(wide, seg, owner, r, index).value.log == r.log && PlaceOne(wide, seg, owner, r, index).value.total == r.total
  {
  }

  lemma {:induction false} PlaceUpToSnug(wide: bool, secs0: seq<Sec>, segs0: seq<Seg>, lo: nat, owner: nat, r: Run, n: nat)
    requires RunSound(wide, secs0, lo, r) && owner < |segs0| && n <= |segs0[owner].secs| && SnugRun(secs0, segs0, lo, owner, r)
    requires forall k :: 0 <= k < |segs0[owner].secs| ==> segs0[owner].secs[k] < |r.secs|
    requires PlaceUpTo(wide, segs0[owner], owner, r, n).Some?
    ensures var r' := PlaceUpTo(wide, segs0[owner], owner, r, n).value;
      && SnugRun(secs0, segs0, lo, owner, r')
      && (r.total == EndOf(r.log, lo)
          || (n > 0 && r.secs[segs0[owner].secs[0]].stype != SHT_NULL && !r.gen[segs0[owner].secs[0]])
          ==> r'.total == EndOf(r'.log, lo))
  {
    hide PlaceOne, SnugRun, Sound, FlagsAgree;
    if n > 0 {
      PlaceUpToSound(wide, secs0, lo, segs0[owner], owner, r, n - 1);
      var r1 := PlaceUpToUnfold(wide, segs0[owner], owner, r, n);
      PlaceUpToSnug(wide, secs0, segs0, lo, owner, r, n - 1);
      Resave.FlagsSize(r.secs, r.gen, r.log);
      Resave.FlagsSize(r1.secs, r1.gen, r1.log);
      PlaceOneSnug(wide, secs0, segs0, lo, owner, r1, segs0[owner].secs[n - 1]);
    }
  }

  /** How many bytes are skipped for the start of a segment. */
  lemma StartGap(h: Header, p: Plan, seg: Seg)
    requires |p.gen| == |p.secs|
    requires forall k :: 0 <= k < |seg.secs| ==> seg.secs[k] < |p.gen|
    ensures var r := StartRun(h, p, seg);
      r.total == p.total || (|seg.secs| > 0 && !StartsAtZero(seg) && !p.gen[seg.secs[0]] && 0 < r.total - p.total < AtLeastOne(seg.align))
  {
    hide SegPadding;
    SegPaddingBound(seg.align, seg.vaddr, p.total % W64);
  }

  lemma SegPaddingBound(align: Word64, vaddr: Word64, pos: Word64)
    ensures SegPadding(align, vaddr, pos) < AtLeastOne(align)
  {
  }

  lemma LayoutSegmentSnug(h: Header, secs0: seq<Sec>, segs0: seq<Seg>, lo: nat, p: Plan, i: nat)
    requires PlanSound(h.wide, secs0, lo, p) && i < |p.segs| == |segs0| && InRange(p.segs, |p.secs|) && p.segs[i] == segs0[i]
    requires NoEntryOf(p.log, i) && LayoutSegment(h, p, i).Some?
    requires |segs0[i].secs| == 0 || StartsAtZero(segs0[i]) || p.secs[segs0[i].secs[0]].stype != SHT_NULL
    requires Snug(secs0, segs0, p.log, lo) && p.total == EndOf(p.log, lo)
    ensures var p' := LayoutSegment(h, p, i).value; Snug(secs0, segs0, p'.log, lo) && p'.total == EndOf(p'.log, lo)
  {
    hide PlaceUpTo, StartRun, Sound, FlagsAgree, Snug, EndOf, RunLater, StartsAtZero;
    Resave.FlagsSize(p.secs, p.gen, p.log);
    var r0, r := SegmentRunHolds(h, secs0, lo, p, i);
    StartRunSame(h, p, segs0[i]);
    StartGap(h, p, segs0[i]);
    PlaceUpToSnug(h.wide, secs0, segs0, lo, i, r0, |segs0[i].secs|);
  }

  lemma {:induction false} SegmentsSnug(h: Header, secs0: seq<Sec>, segs0: seq<Seg>, lo: nat, order: seq<nat>, n: nat, p0: Plan)
    requires n <= |order| && FirstPass(h.wide, secs0, segs0, lo, order, 0, p0) && SegmentsUpTo(h, p0, order, n).Some?
    requires Resave.Headed(secs0, segs0) && p0.log == [] && p0.total == lo && p0.segs == segs0
    ensures var p := SegmentsUpTo(h, p0, order, n).value; Snug(secs0, segs0, p.log, lo) && p.total == EndOf(p.log, lo)
  {
    hide LayoutSegment, FirstPass, Resave.Headed, PlanSound, SegmentDone;
    Resave.FirstPassShape(h.wide, secs0, segs0, lo, order, 0, p0);
    if n > 0 {
      var q := SegmentsUpToUnfold(h, p0, order, n);
      SegmentsUpToKeep(h, secs0, segs0, lo, order, n - 1, p0);
      Resave.TurnMeets(h, secs0, segs0, lo, order, n - 1, q);
      SegmentsSnug(h, secs0, segs0, lo, order, n - 1, p0);
      LayoutSegmentSnug(h, secs0, segs0, lo, q, order[n - 1]);
    }
  }

  // ---------------------------------------------------------------- sections outside all segments

  lemma LoosePadBound(align: Word64, pos: Word64)
    ensures LoosePadding(align, pos) < AtLeastOne(align)
  {
  }

  lemma PlaceLooseSnug(wide: bool, secs0: seq<Sec>, segs0: seq<Seg>, lo: nat, p: Plan, n: nat)
    requires n < |p.secs| == |secs0| && p.secs[n].align == secs0[n].align
    requires Snug(secs0, segs0, p.log, lo) && p.total == EndOf(p.log, lo)
    ensures var q := PlaceLoose(wide, p, n); Snug(secs0, segs0, q.log, lo) && q.total == EndOf(q.log, lo)
  {
    hide Snug, LoosePadding, InSegment, Trunc;
    if !InSegment(p.segs, n) {
      LoosePadBound(p.secs[n].align, p.total % W64);
      var at := p.total + LoosePadding(p.secs[n].align, p.total % W64);
      SnugAppend(secs0, segs0, p.log, lo, Place(n, LOOSE, at, FileLen(p.secs[n]), at - p.total));
    }
  }

  lemma {:induction false} LooseSnug(wide: bool, secs0: seq<Sec>, segs0: seq<Seg>, lo: nat, p: Plan, n: nat)
    requires n <= |p.secs| == |secs0| && forall i :: 0 <= i < |secs0| ==> p.secs[i].align == secs0[i].align
    requires Snug(secs0, segs0, p.log, lo) && p.total == EndOf(p.log, lo)
    ensures var q := LooseUpTo(wide, p, n); Snug(secs0, segs0, q.log, lo) && q.total == EndOf(q.log, lo)
  {
    hide PlaceLoose, Snug;
    if n > 0 {
      LooseSnug(wide, secs0, segs0, lo, p, n - 1);
      Resave.LooseStays(wide, p, n - 1, n - 1);
      PlaceLooseSnug(wide, secs0, segs0, lo, LooseUpTo(wide, p, n - 1), n - 1);
    }
  }

  // ---------------------------------------------------------------- the whole file

  /** A finished file has no bytes to spare: it starts directly behind the headers, skips less than the alignment of a
      section or segment in front of what is to be aligned, nothing elsewhere except up to a preset address, and fewer
      than four bytes in front of the section header table. */
  lemma NoNeedlessGap(h: Header, secs: seq<Sec>, segs: seq<Seg>)
    requires InRange(segs, |secs|) && FileLayout(h, secs, segs).Some? && Resave.Headed(secs, segs)
    ensures var q, lo := FileLayout(h, secs, segs).value.plan, h.ehsize + h.phentsize * |segs|;
      && Snug(secs, Raised(secs, segs), q.log, lo)
      && 0 <= q.total - EndOf(q.log, lo) < 4
  {
    hide LayoutSegment, SegmentsUpTo, Ordered, RaiseAlign, LooseUpTo, FirstPass, Resave.Headed, HeadersEnd, SegmentDone, Snug, TableStart, Sound;
    var raised, lo := Raised(secs, segs), HeadersEnd(h, segs);
    var order, p0 := Ordered(raised), StartPlan(h, secs, segs);
    OrderedIsComplete(raised);
    HeadedRaised(secs, segs);
    StartIsSound(h, secs, segs, order);
    SnugAtFirst(secs, raised, lo);
    SegmentsSnug(h, secs, raised, lo, order, |order|, p0);
    SegmentsUpToKeep(h, secs, raised, lo, order, |order|, p0);
    var p := SegmentsUpTo(h, p0, order, |order|).value;
    Resave.FirstPassShape(h.wide, secs, raised, lo, order, |order|, p);
    SameAligns(h.wide, secs, raised, lo, order, p);
    LooseSnug(h.wide, secs, raised, lo, p, |p.secs|);
    TableGap(LooseUpTo(h.wide, p, |p.secs|).total);
    HeadersLiteral(h, segs);
  }

  lemma HeadersLiteral(h: Header, segs: seq<Seg>)
    ensures HeadersEnd(h, segs) == h.ehsize + h.phentsize * |segs|
  {
  }

  lemma TableGap(total: nat)
    ensures 0 <= TableStart(total) - total < 4
  {
  }

  lemma SnugAtFirst(secs0: seq<Sec>, segs0: seq<Seg>, lo: nat)
    ensures Snug(secs0, segs0, [], lo)
  {
  }

  lemma HeadedRaised(secs: seq<Sec>, segs: seq<Seg>)
    requires InRange(segs, |secs|) && Resave.Headed(secs, segs)
    ensures InRange(Raised(secs, segs), |secs|) && Resave.Headed(secs, Raised(secs, segs))
  {
    hide RaiseAlign;
  }

  lemma SameAligns(wide: bool, secs0: seq<Sec>, segs0: seq<Seg>, lo: nat, order: seq<nat>, p: Plan)
    requires FirstPass(wide, secs0, segs0, lo, order, |order|, p)
    ensures |p.secs| == |secs0| && forall i :: 0 <= i < |secs0| ==> p.secs[i].align == secs0[i].align
  {
    hide Chained, Once, Recorded, Restrained, DoneOrUntouched;
    forall i | 0 <= i < |secs0| ensures p.secs[i].align == secs0[i].align {
      assert SameButPlace(secs0[i], p.secs[i]);
    }
  }

  /** A section outside all segments is only given an offset. */
  lemma LooseKeepsAddress(h: Header, secs: seq<Sec>, segs: seq<Seg>, i: nat)
    requires InRange(segs, |secs|) && FileLayout(h, secs, segs).Some? && i < |secs| && !InSegment(segs, i)
    ensures var q := FileLayout(h, secs, segs).value.plan;
      i < |q.secs| && q.secs[i] == secs[i].(offset := q.secs[i].offset)
  {
    hide LayoutSegment, SegmentsUpTo, Ordered, RaiseAlign, LooseUpTo, FirstPass, HeadersEnd, SegmentDone, TableStart, InSegment, PlaceLoose;
    var raised, lo := Raised(secs, segs), HeadersEnd(h, segs);
    var order, p0 := Ordered(raised), StartPlan(h, secs, segs);
    OrderedIsComplete(raised);
    StartIsSound(h, secs, segs, order);
    SegmentsUpToKeep(h, secs, raised, lo, order, |order|, p0);
    var p := SegmentsUpTo(h, p0, order, |order|).value;
    Resave.FirstPassShape(h.wide, secs, raised, lo, order, |order|, p);
    MembershipOfRaised(secs, segs, i);
    FirstPassSkips(h.wide, secs, raised, lo, order, p, i);
    Resave.LooseStays(h.wide, p, |p.secs|, i);
    Resave.LooseStays(h.wide, p, i, i);
    LooseStep(h.wide, LooseUpTo(h.wide, p, i), i);
    assert LooseUpTo(h.wide, p, i + 1) == PlaceLoose(h.wide, LooseUpTo(h.wide, p, i), i) by { LooseNext(h.wide, p, i); }
  }

  lemma LooseNext(wide: bool, p: Plan, i: nat)
    requires i < |p.secs|
    ensures LooseUpTo(wide, p, i + 1) == PlaceLoose(wide, LooseUpTo(wide, p, i), i)
  {
  }

  lemma LooseStep(wide: bool, p: Plan, i: nat)
    requires i < |p.secs|
    ensures PlaceLoose(wide, p, i).secs[i] == p.secs[i].(offset := PlaceLoose(wide, p, i).secs[i].offset)
  {
  }

  lemma FirstPassSkips(wide: bool, secs0: seq<Sec>, segs0: seq<Seg>, lo: nat, order: seq<nat>, p: Plan, i: nat)
    requires FirstPass(wide, secs0, segs0, lo, order, |order|, p) && i < |secs0| && !InSegment(segs0, i)
    ensures |p.secs| == |secs0| && p.secs[i] == secs0[i]
  {
    hide Chained, Once, Recorded, Restrained, DoneOrUntouched;
    assert order[..|order|] == order;
    forall k | 0 <= k < |p.log| ensures p.log[k].sec != i {
      assert p.log[k].owner in order;
      assert p.log[k].sec in segs0[p.log[k].owner].secs;
    }
  }
}
