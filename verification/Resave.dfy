/** Laying out a file that has been laid out: a loaded object keeps its layout, so saving it over and over writes the
    same file. */
module Resave {
  import opened Words
  import opened LayoutModel
  import opened LayoutFacts
  import opened SegmentResult
  import opened SegmentOrder
  import opened LayoutSteps
  import opened LayoutTheorems
  import opened Turns
  import LoadableLayout

  ghost predicate Addressed(secs: seq<Sec>) { forall i :: 0 <= i < |secs| ==> secs[i].addrSet }

  ghost predicate OffsetsSet(segs: seq<Seg>) { forall s :: 0 <= s < |segs| ==> segs[s].offsetSet }

  /** `later` is what becomes of addressed sections: only the offsets of those without a place still change. */
  ghost predicate Becomes(secs: seq<Sec>, log: seq<Place>, later: seq<Sec>) {
    && |later| == |secs| && Addressed(later)
    && (forall i :: 0 <= i < |secs| ==> later[i] == secs[i].(offset := later[i].offset))
    && (forall i :: 0 <= i < |secs| && Logs(log, i) ==> later[i] == secs[i])
  }

  /** Only the offset of an addressed section is ever assigned. */
  lemma OnlyOffset(wide: bool, secs0: seq<Sec>, lo: nat, secs: seq<Sec>, total: nat, log: seq<Place>, i: nat)
    requires Addressed(secs0) && Sound(wide, secs0, lo, secs, total, log) && i < |secs|
    ensures secs[i] == secs0[i].(offset := secs[i].offset)
  {
    assert SameButPlace(secs0[i], secs[i]) && Restrained(wide, i, secs0[i], secs[i]);
  }

  lemma BecomesBefore(wide: bool, secs0: seq<Sec>, lo: nat, secs: seq<Sec>, total: nat, log: seq<Place>,
                      secs': seq<Sec>, total': nat, log': seq<Place>, owner: int, later: seq<Sec>)
    requires Addressed(secs0) && Sound(wide, secs0, lo, secs, total, log) && Sound(wide, secs0, lo, secs', total', log')
    requires Later(secs, total, log, secs', total', log', owner) && Becomes(secs', log', later)
    ensures Becomes(secs, log, later)
  {
    hide Sound;
    forall i | 0 <= i < |secs|
      ensures later[i] == secs[i].(offset := later[i].offset)
      ensures Logs(log, i) ==> later[i] == secs[i]
    {
      if Logs(log, i) {
        LogsPrefix(log, log', i);
      }
      SoundSize(wide, secs0, lo, secs', total', log');
      SoundSize(wide, secs0, lo, secs, total, log);
      OnlyOffset(wide, secs0, lo, secs, total, log, i);
      OnlyOffset(wide, secs0, lo, secs', total', log', i);
    }
  }

  lemma SoundSize(wide: bool, secs0: seq<Sec>, lo: nat, secs: seq<Sec>, total: nat, log: seq<Place>)
    requires Sound(wide, secs0, lo, secs, total, log)
    ensures |secs| == |secs0|
  {
  }

  // ---------------------------------------------------------------- the first pass again

  /** `seg'` is `seg` with its layout result. */
  ghost predicate Finished(seg: Seg, seg': Seg) {
    && seg' == seg.(filesz := seg'.filesz, memsz := seg'.memsz, offset := seg'.offset, offsetSet := seg'.offsetSet)
    && StartsAtZero(seg') == StartsAtZero(seg)
  }

  /** The second time a section finds the place it has. */
  lemma PlaceOneAgain(wide: bool, seg: Seg, seg': Seg, owner: int, r: Run, index: nat, later: seq<Sec>)
    requires FlagsAgree(r.secs, r.gen, r.log) && index < |r.secs| && Finished(seg, seg')
    requires PlaceOne(wide, seg, owner, r, index).Some?
    requires Becomes(r.secs, r.log, later)
    requires var r1 := PlaceOne(wide, seg, owner, r, index).value; Becomes(r1.secs, r1.log, later)
    ensures PlaceOne(wide, seg', owner, r.(secs := later), index) == Some(PlaceOne(wide, seg, owner, r, index).value.(secs := later))
  {
    hide Trunc, Sub64, Add64, FlagsAgree;
    FlagsSize(r.secs, r.gen, r.log);
    var r1 := PlaceOne(wide, seg, owner, r, index).value;
    if r.secs[index].stype != SHT_NULL {
      if r.gen[index] {
        FlaggedIsLogged(r.secs, r.gen, r.log, index);
      } else {
        var at, r' := PlaceOneSplit(wide, seg, owner, r, index);
        LogsAppend(r.log, r1.log[|r.log|], index);
        assert later[index] == r1.secs[index];
        assert later[index := later[index]] == later;
      }
    }
  }

  /** A section without file bytes that was placed without an address has one the second time and is not padded any
      more: it finds the place it has if and only if it was not padded. */
  lemma NewSectionStaysExactly(wide: bool, seg: Seg, owner: int, r: Run, index: nat)
    requires index < |r.secs| == |r.gen| && !r.gen[index] && !r.secs[index].addrSet
    requires r.secs[index].stype != SHT_NULL && (r.secs[index].stype == SHT_NOBITS || r.secs[index].size == 0)
    requires PlaceOne(wide, seg, owner, r, index).Some?
    ensures var r1 := PlaceOne(wide, seg, owner, r, index).value;
      PlaceOne(wide, seg, owner, r.(secs := r1.secs), index) == Some(r1) <==> r1.total == r.total
  {
    hide Trunc, Sub64;
    var at, r1 := PlaceOneSplit(wide, seg, owner, r, index);
    assert r1.log[|r.log|].pad == at - r.total;
    var r2 := PlaceOne(wide, seg, owner, r.(secs := r1.secs), index).value;
    assert r2.log[|r.log|].pad == 0;
    if at == r.total {
      assert r1.secs[index := r1.secs[index]] == r1.secs;
    }
  }

  lemma FlaggedIsLogged(secs: seq<Sec>, gen: seq<bool>, log: seq<Place>, i: nat)
    requires FlagsAgree(secs, gen, log) && i < |secs| && gen[i] && secs[i].stype != SHT_NULL
    ensures Logs(log, i)
  {
  }

  lemma {:induction false} PlaceUpToAgain(wide: bool, secs0: seq<Sec>, lo: nat, seg: Seg, seg': Seg, owner: int, r: Run, n: nat, later: seq<Sec>)
    requires RunSound(wide, secs0, lo, r) && Addressed(secs0) && n <= |seg.secs| && Finished(seg, seg')
    requires forall k :: 0 <= k < |seg.secs| ==> seg.secs[k] < |r.secs|
    requires PlaceUpTo(wide, seg, owner, r, n).Some?
    requires var r1 := PlaceUpTo(wide, seg, owner, r, n).value; Becomes(r1.secs, r1.log, later)
    ensures Becomes(r.secs, r.log, later)
    ensures PlaceUpTo(wide, seg', owner, r.(secs := later), n) == Some(PlaceUpTo(wide, seg, owner, r, n).value.(secs := later))
  {
    hide PlaceOne, Becomes, Finished, Sound, FlagsAgree, Later, Addressed;
    SameList(seg, seg');
    FlagsSize(r.secs, r.gen, r.log);
    if n > 0 {
      var r1 := PlaceUpToUnfold(wide, seg, owner, r, n);
      var r2 := PlaceOne(wide, seg, owner, r1, seg.secs[n - 1]).value;
      PlaceUpToSound(wide, secs0, lo, seg, owner, r, n - 1);
      PlaceOneSound(wide, secs0, lo, seg, owner, r1, seg.secs[n - 1]);
      BecomesBefore(wide, secs0, lo, r1.secs, r1.total, r1.log, r2.secs, r2.total, r2.log, owner, later);
      PlaceUpToAgain(wide, secs0, lo, seg, seg', owner, r, n - 1, later);
      SoundSize(wide, secs0, lo, r1.secs, r1.total, r1.log);
      BecomesSize(r1.secs, r1.log, later);
      PlaceOneAgain(wide, seg, seg', owner, r1, seg.secs[n - 1], later);
    } else {
      BecomesSize(r.secs, r.log, later);
    }
  }

  lemma SameList(seg: Seg, seg': Seg)
    requires Finished(seg, seg')
    ensures seg'.secs == seg.secs
  {
  }

  lemma BecomesSize(secs: seq<Sec>, log: seq<Place>, later: seq<Sec>)
    requires Becomes(secs, log, later)
    ensures |later| == |secs|
  {
  }

  /** The second time a segment starts where it started. */
  lemma StartRunAgain(h: Header, p: Plan, seg: Seg, seg': Seg, later: seq<Sec>, segs': seq<Seg>)
    requires FlagsAgree(p.secs, p.gen, p.log) && Becomes(p.secs, p.log, later) && Finished(seg, seg') && |segs'| == |p.segs|
    requires forall k :: 0 <= k < |seg.secs| ==> seg.secs[k] < |p.gen|
    requires |seg.secs| == 0 || StartsAtZero(seg) || p.secs[seg.secs[0]].stype != SHT_NULL
    ensures StartRun(h, p.(secs := later, segs := segs'), seg') == StartRun(h, p, seg).(secs := later)
  {
    hide FlagsAgree;
    FlagsSize(p.secs, p.gen, p.log);
    if |seg.secs| > 0 && p.gen[seg.secs[0]] && !StartsAtZero(seg) {
      FlaggedIsLogged(p.secs, p.gen, p.log, seg.secs[0]);
    }
  }

  lemma FlagsSize(secs: seq<Sec>, gen: seq<bool>, log: seq<Place>)
    requires FlagsAgree(secs, gen, log)
    ensures |gen| == |secs|
  {
  }

  /** A segment whose turn comes with its result already in it keeps it. */
  lemma FinishAgain(wide: bool, seg: Seg, r: Run, later: seq<Sec>)
    ensures var seg' := FinishSegment(wide, seg, r); FinishSegment(wide, seg', r.(secs := later)) == seg'
  {
  }

  lemma LayoutSegmentAgain(h: Header, secs0: seq<Sec>, lo: nat, p: Plan, i: nat, later: seq<Sec>, segs': seq<Seg>)
    requires PlanSound(h.wide, secs0, lo, p) && Addressed(secs0) && i < |p.segs| == |segs'| && InRange(p.segs, |p.secs|)
    requires NoEntryOf(p.log, i) && LayoutSegment(h, p, i).Some?
    requires var p' := LayoutSegment(h, p, i).value; Becomes(p'.secs, p'.log, later) && segs'[i] == p'.segs[i]
    requires StartsAtZero(segs'[i]) == StartsAtZero(p.segs[i]) && InRange(segs', |later|) && |later| == |p.gen|
    requires |p.segs[i].secs| == 0 || StartsAtZero(p.segs[i]) || p.secs[p.segs[i].secs[0]].stype != SHT_NULL
    ensures Becomes(p.secs, p.log, later)
    ensures LayoutSegment(h, p.(secs := later, segs := segs'), i)
         == Some(LayoutSegment(h, p, i).value.(secs := later, segs := segs'))
  {
    hide Becomes, Sound, FlagsAgree, StartRun, PlaceUpTo, StartsAtZero, FinishSegment, Later, Addressed;
    var seg, seg' := p.segs[i], segs'[i];
    var r0, r := SegmentRunHolds(h, secs0, lo, p, i);
    FinishedHolds(h.wide, seg, r);
    FlagsSize(p.secs, p.gen, p.log);
    StartRunSame(h, p, seg);
    SoundSize(h.wide, secs0, lo, p.secs, p.total, p.log);
    PlaceUpToAgain(h.wide, secs0, lo, seg, seg', i, r0, |seg.secs|, later);
    StartRunAgain(h, p, seg, seg', later, segs');
    FinishAgain(h.wide, seg, r, later);
    SameList(seg, seg');
    assert segs'[i := seg'] == segs';
  }

  lemma FinishedHolds(wide: bool, seg: Seg, r: Run)
    requires StartsAtZero(FinishSegment(wide, seg, r)) == StartsAtZero(seg)
    ensures Finished(seg, FinishSegment(wide, seg, r))
  {
  }

  /** The first section of a segment that starts elsewhere than at offset 0 is no null section. */
  ghost predicate Headed(secs: seq<Sec>, segs: seq<Seg>)
    requires InRange(segs, |secs|)
  {
    forall s :: 0 <= s < |segs| && |segs[s].secs| > 0 && !StartsAtZero(segs[s]) ==> secs[segs[s].secs[0]].stype != SHT_NULL
  }

  /** The same segments start at offset 0, over the same sections. */
  ghost predicate SameStarts(segs: seq<Seg>, segs': seq<Seg>) {
    && |segs'| == |segs|
    && forall s :: 0 <= s < |segs| ==>
         segs'[s].secs == segs[s].secs && StartsAtZero(segs'[s]) == StartsAtZero(segs[s])
         && (segs'[s].offset == 0 <==> segs[s].offset == 0)
  }

  ghost predicate HasResults(p: Plan, order: seq<nat>, n: nat, segs': seq<Seg>) {
    n <= |order| && forall k :: 0 <= k < n ==> order[k] < |p.segs| == |segs'| && segs'[order[k]] == p.segs[order[k]]
  }

  /** What the turn of segment number `n` needs of the plan that it meets. */
  lemma TurnMeets(h: Header, secs0: seq<Sec>, segs0: seq<Seg>, lo: nat, order: seq<nat>, n: nat, q: Plan)
    requires n < |order| && FirstPass(h.wide, secs0, segs0, lo, order, n, q)
    requires InRange(segs0, |secs0|) && Headed(secs0, segs0)
    ensures var i := order[n];
      && PlanSound(h.wide, secs0, lo, q) && i < |q.segs| == |segs0| && |q.secs| == |q.gen| == |secs0| && InRange(q.segs, |q.secs|)
      && NoEntryOf(q.log, i) && q.segs[i] == segs0[i]
      && (|q.segs[i].secs| == 0 || StartsAtZero(q.segs[i]) || q.secs[q.segs[i].secs[0]].stype != SHT_NULL)
  {
    hide Chained, Once, Recorded, Restrained, EntriesListed, SegmentDone;
    var i := order[n];
    assert i !in order[..n];
    if |segs0[i].secs| > 0 {
      assert SameButPlace(secs0[segs0[i].secs[0]], q.secs[segs0[i].secs[0]]);
    }
  }

  lemma ResultsBefore(h: Header, p: Plan, p': Plan, order: seq<nat>, n: nat, count: nat, segs': seq<Seg>)
    requires 0 < n <= |order| && DistinctOrder(order, count) && |p'.segs| == |p.segs| == count
    requires forall s :: 0 <= s < |p.segs| && s != order[n - 1] ==> p'.segs[s] == p.segs[s]
    requires HasResults(p', order, n, segs')
    ensures HasResults(p, order, n - 1, segs') && segs'[order[n - 1]] == p'.segs[order[n - 1]]
  {
  }

  /** The first pass over its own results. */
  lemma {:induction false} SegmentsAgain(h: Header, secs0: seq<Sec>, segs0: seq<Seg>, lo: nat, order: seq<nat>, n: nat, p0: Plan,
                                         later: seq<Sec>, segs': seq<Seg>)
    requires n <= |order| && FirstPass(h.wide, secs0, segs0, lo, order, 0, p0) && p0.segs == segs0
    requires SegmentsUpTo(h, p0, order, n).Some?
    requires Addressed(secs0) && Headed(secs0, segs0) && SameStarts(segs0, segs')
    requires |later| == |secs0| && InRange(segs', |later|)
    requires var p := SegmentsUpTo(h, p0, order, n).value; Becomes(p.secs, p.log, later) && HasResults(p, order, n, segs')
    ensures SegmentsUpTo(h, p0.(secs := later, segs := segs'), order, n)
         == Some(SegmentsUpTo(h, p0, order, n).value.(secs := later, segs := segs'))
  {
    hide LayoutSegment, FirstPass, Becomes, HasResults, Headed, Addressed, PlanSound, Later, NoEntryOf, SegmentDone, Sound, FlagsAgree;
    FirstPassShape(h.wide, secs0, segs0, lo, order, 0, p0);
    if n > 0 {
      var i := order[n - 1];
      var q := SegmentsUpToUnfold(h, p0, order, n);
      SegmentsUpToKeep(h, secs0, segs0, lo, order, n - 1, p0);
      TurnMeets(h, secs0, segs0, lo, order, n - 1, q);
      LayoutSegmentKeeps(h, secs0, lo, q, i);
      var q' := LayoutSegment(h, q, i).value;
      ResultsBefore(h, q, q', order, n, |segs0|, segs');
      LayoutSegmentAgain(h, secs0, lo, q, i, later, segs');
      SegmentsAgain(h, secs0, segs0, lo, order, n - 1, p0, later, segs');
    }
  }

  lemma FirstPassShape(wide: bool, secs0: seq<Sec>, segs0: seq<Seg>, lo: nat, order: seq<nat>, n: nat, p: Plan)
    requires FirstPass(wide, secs0, segs0, lo, order, n, p)
    ensures DistinctOrder(order, |segs0|) && |p.segs| == |segs0| && |p.secs| == |p.gen| == |secs0| && InRange(p.segs, |p.secs|)
  {
  }

  // ---------------------------------------------------------------- the order

  /** Waiting is a matter of the lists. */
  lemma SameWaiting(segs: seq<Seg>, segs': seq<Seg>, w: seq<nat>)
    requires SameStarts(segs, segs') && Handles(segs, w) && w != []
    ensures Handles(segs', w) && Waits(segs', w) == Waits(segs, w)
  {
  }

  lemma {:induction false} SameDrain(segs: seq<Seg>, segs': seq<Seg>, w: seq<nat>)
    requires SameStarts(segs, segs') && Handles(segs, w) && Handles(segs', w)
    ensures Drain(segs', w) == Drain(segs, w)
    decreases |w|, if w == [] then 0 else FirstWidest(segs, w)
  {
    hide SameStarts, Waits, FirstWidest;
    if w != [] {
      SameWaiting(segs, segs', w);
      SameHandles(segs, segs', w[1..]);
      SameHandles(segs, segs', w[1..] + [w[0]]);
      if Waits(segs, w) {
        RotationApproaches(segs, w);
        SameDrain(segs, segs', w[1..] + [w[0]]);
      } else {
        SameDrain(segs, segs', w[1..]);
      }
    }
  }

  lemma SameHandles(segs: seq<Seg>, segs': seq<Seg>, w: seq<nat>)
    requires SameStarts(segs, segs')
    ensures Handles(segs, w) == Handles(segs', w)
  {
  }

  lemma SameSwap(segs: seq<Seg>, segs': seq<Seg>, w: seq<nat>, slot: nat, i: nat)
    requires SameStarts(segs, segs') && Handles(segs, w) && Handles(segs', w) && slot <= i < |w|
    ensures SwapStep(segs', w, slot, i) == SwapStep(segs, w, slot, i)
  {
    hide StartsAtZero;
    assert StartsAtZero(segs'[w[i]]) == StartsAtZero(segs[w[i]]);
    assert segs'[w[slot]].offset == 0 <==> segs[w[slot]].offset == 0;
  }

  lemma {:induction false} SameSwaps(segs: seq<Seg>, segs': seq<Seg>, w: seq<nat>, n: nat)
    requires SameStarts(segs, segs') && Handles(segs, w) && Handles(segs', w) && n <= |w|
    ensures SwapUpTo(segs', w, n) == SwapUpTo(segs, w, n)
  {
    hide SameStarts, SwapStep;
    if n > 0 {
      SameSwaps(segs, segs', w, n - 1);
      var (w1, slot) := SwapUpTo(segs, w, n - 1);
      SameHandles(segs, segs', w1);
      SameSwap(segs, segs', w1, slot, n - 1);
    }
  }

  /** The finished segments are taken in the order in which they were laid out. */
  lemma SameOrder(segs: seq<Seg>, segs': seq<Seg>)
    requires SameStarts(segs, segs')
    ensures Ordered(segs') == Ordered(segs)
  {
    hide SameStarts, SwapUpTo, Drain;
    var w := Handle(|segs|);
    SameSize(segs, segs');
    SameSwaps(segs, segs', w, |segs|);
    SameDrain(segs, segs', SwapUpTo(segs, w, |segs|).0);
  }

  lemma SameSize(segs: seq<Seg>, segs': seq<Seg>)
    requires SameStarts(segs, segs')
    ensures |segs| == |segs'|
  {
  }

  // ---------------------------------------------------------------- the second pass again

  /** What the second pass makes of a section is settled when its turn is over. */
  lemma {:induction false} LooseStays(wide: bool, p: Plan, n: nat, i: nat)
    requires n <= |p.secs| && i < |p.secs|
    ensures i >= n ==> LooseUpTo(wide, p, n).secs[i] == p.secs[i]
    ensures i < n ==> LooseUpTo(wide, p, n).secs[i] == LooseUpTo(wide, p, i + 1).secs[i]
  {
    hide Trunc, LoosePadding, InSegment;
    if n > 0 && i != n - 1 {
      LooseStays(wide, p, n - 1, i);
    }
  }

  /** The second time a section outside all segments finds the place it has. */
  lemma PlaceLooseAgain(wide: bool, p: Plan, i: nat, later: seq<Sec>, segs': seq<Seg>)
    requires i < |p.secs| == |later| && SameStarts(p.segs, segs')
    requires later[i] == p.secs[i].(offset := later[i].offset)
    requires later[i] == PlaceLoose(wide, p, i).secs[i]
    ensures PlaceLoose(wide, p.(secs := later, segs := segs'), i) == PlaceLoose(wide, p, i).(secs := later, segs := segs')
  {
    hide Trunc, LoosePadding;
    SameMembership(segs', p.segs, i);
    assert later[i := later[i]] == later;
  }

  lemma {:induction false} LooseAgain(wide: bool, p: Plan, n: nat, later: seq<Sec>, segs': seq<Seg>)
    requires n <= |p.secs| && SameStarts(p.segs, segs') && later == LooseUpTo(wide, p, |p.secs|).secs
    requires forall i :: 0 <= i < |p.secs| ==> later[i] == p.secs[i].(offset := later[i].offset)
    ensures LooseUpTo(wide, p.(secs := later, segs := segs'), n) == LooseUpTo(wide, p, n).(secs := later, segs := segs')
  {
    hide PlaceLoose, SameStarts;
    if n > 0 {
      LooseAgain(wide, p, n - 1, later, segs');
      LooseStays(wide, p, n - 1, n - 1);
      LooseStays(wide, p, |p.secs|, n - 1);
      PlaceLooseAgain(wide, LooseUpTo(wide, p, n - 1), n - 1, later, segs');
    }
  }

  // ---------------------------------------------------------------- where segments start

  /** The segment lists sections from a proper first one on, or none; a segment for the program headers lies behind the
      file header. */
  ghost predicate Proper(secs: seq<Sec>, seg: Seg)
    requires ListInRange(seg.secs, |secs|)
  {
    (|seg.secs| > 0 ==> Regular(secs, seg)) && (HeaderSegment(seg) ==> seg.offset != 0)
  }

  /** A segment ends up at offset 0 if and only if it was there. */
  lemma StartKept(h: Header, secs0: seq<Sec>, lo: nat, p: Plan, i: nat)
    requires PlanSound(h.wide, secs0, lo, p) && i < |p.segs| && InRange(p.segs, |p.secs|)
    requires NoEntryOf(p.log, i) && LayoutSegment(h, p, i).Some?
    requires 0 < h.ehsize <= lo && p.segs[i].offsetSet && LayoutSegment(h, p, i).value.total < Modulus(h.wide)
    requires ListInRange(p.segs[i].secs, |secs0|) && Proper(secs0, p.segs[i])
    ensures var seg' := LayoutSegment(h, p, i).value.segs[i];
      seg'.offsetSet && (seg'.offset == 0 <==> p.segs[i].offset == 0)
  {
    hide PlaceUpTo, StartRun, Chained, Once, Recorded;
    var seg := p.segs[i];
    var r0, r := SegmentRunHolds(h, secs0, lo, p, i);
    StartRunSame(h, p, seg);
    TruncSmall(h.wide, p.total);
    TruncSmall(h.wide, r0.total);
    TruncSmall(h.wide, h.ehsize);
    if !StartsAtZero(seg) && |seg.secs| > 0 && p.gen[seg.secs[0]] {
      FirstBehindHeaders(h.wide, secs0, lo, p, seg.secs[0]);
    }
    StartElsewhere(h, p, seg);
    TruncSmall(h.wide, r0.start);
  }

  /** A section placed before lies behind the headers. */
  lemma FirstBehindHeaders(wide: bool, secs0: seq<Sec>, lo: nat, p: Plan, x: nat)
    requires PlanSound(wide, secs0, lo, p) && 0 < x < |p.secs| && p.gen[x] && secs0[x].stype != SHT_NULL && p.total < Modulus(wide)
    ensures lo <= p.secs[x].offset < Modulus(wide)
  {
    assert SameButPlace(secs0[x], p.secs[x]);
    var b :| 0 <= b < |p.log| && p.log[b].sec == x;
    assert Recorded(wide, secs0, p.secs, p.log[b]);
    TruncSmall(wide, p.log[b].at);
  }

  lemma StartElsewhere(h: Header, p: Plan, seg: Seg)
    requires |p.gen| == |p.secs| && 0 < h.ehsize < W64 && 0 < p.total && |p.segs| > 0
    requires forall k :: 0 <= k < |seg.secs| ==> seg.secs[k] < |p.gen|
    requires StartRun(h, p, seg).total < W64 && seg.offsetSet && (HeaderSegment(seg) ==> seg.offset != 0)
    requires !StartsAtZero(seg) && |seg.secs| > 0 && p.gen[seg.secs[0]] ==> p.secs[seg.secs[0]].offset > 0
    ensures StartRun(h, p, seg).start == 0 <==> seg.offset == 0
    ensures StartRun(h, p, seg).start == 0 || StartRun(h, p, seg).start == h.ehsize || StartRun(h, p, seg).start == StartRun(h, p, seg).total
         || (|seg.secs| > 0 && p.gen[seg.secs[0]] && StartRun(h, p, seg).start == p.secs[seg.secs[0]].offset && !StartsAtZero(seg))
  {
    hide StartRun;
    if |seg.secs| == 0 {
      EmptyStart(h, p, seg);
    } else if StartsAtZero(seg) {
      ZeroStart(h, p, seg);
    } else if p.gen[seg.secs[0]] {
      SharedRunStart(h, p, seg);
    } else {
      FreshStart(h, p, seg);
      StartRunSame(h, p, seg);
    }
  }

  lemma EmptyStart(h: Header, p: Plan, seg: Seg)
    requires |p.gen| == |p.secs| && |seg.secs| == 0 && |p.segs| > 0
    ensures var r := StartRun(h, p, seg);
      r.total == p.total
      && r.start == if HeaderSegment(seg) then h.ehsize % W64 else if StartsAtZero(seg) then 0 else p.total % W64
  {
  }

  // ---------------------------------------------------------------- the whole file again

  /** As after `load`: every section has an address and every segment an offset. */
  ghost predicate Ready(h: Header, secs: seq<Sec>, segs: seq<Seg>)
    requires InRange(segs, |secs|)
  {
    && Addressed(secs) && OffsetsSet(segs) && h.ehsize > 0
    && forall s :: 0 <= s < |segs| ==> ListInRange(segs[s].secs, |secs|) && Proper(secs, segs[s])
  }

  lemma FileStarts(h: Header, secs: seq<Sec>, segs: seq<Seg>, s: nat)
    requires InRange(segs, |secs|) && s < |segs| && Ready(h, secs, segs) && FileLayout(h, secs, segs).Some?
    requires FileLayout(h, secs, segs).value.plan.total < Modulus(h.wide)
    ensures var q := FileLayout(h, secs, segs).value.plan;
      && |q.segs| == |segs| && q.segs[s].secs == segs[s].secs && q.segs[s].offsetSet
      && (q.segs[s].offset == 0 <==> segs[s].offset == 0)
  {
    hide FileLayout, LayoutSegment, Ordered, RaiseAlign, Sound, FlagsAgree, StartPlan, SegmentsUpTo, Regular;
    var raised := Raised(secs, segs);
    var n := PositionOf(raised, s);
    var p := TurnOf(h, secs, segs, n);
    ProperRaised(secs, segs[s], raised[s].align);
    StartKept(h, secs, HeadersEnd(h, segs), p, s);
  }

  lemma ProperRaised(secs: seq<Sec>, seg: Seg, align: Word64)
    requires ListInRange(seg.secs, |secs|) && Proper(secs, seg)
    ensures Proper(secs, seg.(align := align))
  {
  }

  lemma {:induction false} NothingToRaise(secs: seq<Sec>, list: seq<nat>, align: Word64, n: nat)
    requires n <= |list| && forall k :: 0 <= k < |list| ==> list[k] < |secs|
    requires forall k :: 0 <= k < n ==> secs[list[k]].align <= align
    ensures RaiseAlign(secs, list, align, n) == align
  {
    if n > 0 {
      NothingToRaise(secs, list, align, n - 1);
    }
  }

  /** The alignments are raised once. */
  lemma RaisedOnce(h: Header, secs: seq<Sec>, segs: seq<Seg>)
    requires InRange(segs, |secs|) && FileLayout(h, secs, segs).Some?
    ensures var q := FileLayout(h, secs, segs).value.plan;
      |q.secs| == |secs| && |q.segs| == |segs| && InRange(q.segs, |q.secs|) && Raised(q.secs, q.segs) == q.segs
  {
    hide FileLayout, RaiseAlign, SegmentDone;
    var q, raised := FileLayout(h, secs, segs).value.plan, Raised(secs, segs);
    FileShape(h, secs, segs);
    forall s | 0 <= s < |segs| ensures Raised(q.secs, q.segs)[s] == q.segs[s] {
      var list := segs[s].secs;
      RaisedCovers(secs, list, segs[s].align, |list|);
      forall k | 0 <= k < |list| ensures q.secs[list[k]].align <= q.segs[s].align {
        assert SameButPlace(secs[list[k]], q.secs[list[k]]);
      }
      NothingToRaise(q.secs, list, q.segs[s].align, |list|);
    }
  }

  lemma FileShape(h: Header, secs: seq<Sec>, segs: seq<Seg>)
    requires InRange(segs, |secs|) && FileLayout(h, secs, segs).Some?
    ensures var q := FileLayout(h, secs, segs).value.plan;
      && |q.secs| == |secs| && |q.segs| == |segs| && InRange(q.segs, |q.secs|)
      && Sound(h.wide, secs, HeadersEnd(h, segs), q.secs, q.total, q.log)
      && (forall s :: 0 <= s < |segs| ==> q.segs[s].secs == segs[s].secs && q.segs[s].align == Raised(secs, segs)[s].align)
      && (forall s :: 0 <= s < |segs| ==> KeepsIdentity(h.wide, Raised(secs, segs)[s], q.segs[s]))
      && (forall i :: 0 <= i < |secs| ==> SameButPlace(secs[i], q.secs[i]))
  {
    hide FileLayout, RaiseAlign, HeadersEnd, OwnImage, SharedImage, LoaderCongruent, Parallel, ListedArePlaced, Chained, Once, Recorded, Restrained, LooseLog, LooseAligned;
    FileLayoutKeeps(h, secs, segs);
  }

  /** The plan in front of the second pass already holds what the finished file holds. */
  lemma FirstBecomes(wide: bool, secs0: seq<Sec>, segs0: seq<Seg>, lo: nat, order: seq<nat>, p: Plan, q: Plan)
    requires FirstPass(wide, secs0, segs0, lo, order, |order|, p) && Addressed(secs0) && InRange(p.segs, |p.secs|)
    requires Complete(order, |segs0|) && SameMembers(p.segs, segs0)
    requires Sound(wide, secs0, lo, q.secs, q.total, q.log) && q.secs == LooseUpTo(wide, p, |p.secs|).secs
    ensures Becomes(p.secs, p.log, q.secs)
  {
    hide LooseUpTo, Chained, Once, Recorded, DoneOrUntouched;
    assert order[..|order|] == order;
    forall i | 0 <= i < |p.secs|
      ensures q.secs[i] == p.secs[i].(offset := q.secs[i].offset) && q.secs[i].addrSet
      ensures Logs(p.log, i) ==> q.secs[i] == p.secs[i]
    {
      OnlyOffset(wide, secs0, lo, p.secs, p.total, p.log, i);
      OnlyOffset(wide, secs0, lo, q.secs, q.total, q.log, i);
      if Logs(p.log, i) {
        var k :| 0 <= k < |p.log| && p.log[k].sec == i;
        assert p.log[k].owner in order;
        assert i in p.segs[p.log[k].owner].secs;
        LooseKeepsListed(wide, p, |p.secs|, i);
      }
    }
  }

  ghost predicate SameMembers(segs: seq<Seg>, segs0: seq<Seg>) {
    |segs| == |segs0| && forall s :: 0 <= s < |segs| ==> segs[s].secs == segs0[s].secs
  }

  /** Laying out the result of a layout gives this result again: nothing moves, and no segment changes its size. */
  lemma LayoutAgain(h: Header, secs: seq<Sec>, segs: seq<Seg>)
    requires InRange(segs, |secs|) && Ready(h, secs, segs) && FileLayout(h, secs, segs).Some?
    requires FileLayout(h, secs, segs).value.plan.total < Modulus(h.wide)
    ensures var q := FileLayout(h, secs, segs).value.plan;
      && |q.secs| == |secs| && |q.segs| == |segs| && InRange(q.segs, |q.secs|)
      && FileLayout(h, q.secs, q.segs) == FileLayout(h, secs, segs)
  {
    hide LayoutSegment, SegmentsUpTo, Ordered, RaiseAlign, Sound, LooseUpTo, FirstPass, Becomes, Ready, HeadersEnd, SegmentDone;
    var d, raised, lo := FileLayout(h, secs, segs).value, Raised(secs, segs), HeadersEnd(h, segs);
    var q, order, p0 := d.plan, Ordered(raised), StartPlan(h, secs, segs);
    FileShape(h, secs, segs);
    RaisedOnce(h, secs, segs);
    forall s | 0 <= s < |segs| ensures q.segs[s].offsetSet && (q.segs[s].offset == 0 <==> segs[s].offset == 0) {
      FileStarts(h, secs, segs, s);
    }
    ReadyRaised(h, secs, segs);
    assert SameStarts(raised, q.segs);
    SameOrder(raised, q.segs);
    OrderedIsComplete(raised);
    StartIsSound(h, secs, segs, order);
    SegmentsUpToKeep(h, secs, raised, lo, order, |order|, p0);
    var p := SegmentsUpTo(h, p0, order, |order|).value;
    FirstPassShape(h.wide, secs, raised, lo, order, |order|, p);
    assert Layout(h, secs, segs, order) == Some(Completed(h.wide, p));
    FirstBecomes(h.wide, secs, raised, lo, order, p, q);
    SegmentsAgain(h, secs, raised, lo, order, |order|, p0, q.secs, q.segs);
    BecomesSize(p.secs, p.log, q.secs);
    LooseBecomes(p, q.secs);
    LooseAgain(h.wide, p, |p.secs|, q.secs, q.segs);
    SameHeaders(h, segs, q.segs);
    assert StartPlan(h, q.secs, q.segs) == p0.(secs := q.secs, segs := q.segs);
  }

  lemma SameHeaders(h: Header, segs: seq<Seg>, segs': seq<Seg>)
    requires |segs| == |segs'|
    ensures HeadersEnd(h, segs) == HeadersEnd(h, segs')
  {
  }

  lemma LooseBecomes(p: Plan, later: seq<Sec>)
    requires Becomes(p.secs, p.log, later)
    ensures forall i :: 0 <= i < |p.secs| ==> later[i] == p.secs[i].(offset := later[i].offset)
  {
  }

  lemma ReadyRaised(h: Header, secs: seq<Sec>, segs: seq<Seg>)
    requires InRange(segs, |secs|) && Ready(h, secs, segs)
    ensures Addressed(secs) && InRange(Raised(secs, segs), |secs|) && Headed(secs, Raised(secs, segs))
    ensures forall s :: 0 <= s < |segs| ==> Raised(secs, segs)[s].offsetSet && Raised(secs, segs)[s].offset == segs[s].offset
  {
    hide RaiseAlign;
  }

  /** An executable as it is loaded meets the conditions, and its layout succeeds. */
  lemma LoadedFileIsReady()
    ensures InRange(LoadableLayout.LOADED_SEGMENTS, |LoadableLayout.LOADED_SECTIONS|)
    ensures Ready(Header(true, 64, 56, 64), LoadableLayout.LOADED_SECTIONS, LoadableLayout.LOADED_SEGMENTS)
    ensures FileLayout(Header(true, 64, 56, 64), LoadableLayout.LOADED_SECTIONS, LoadableLayout.LOADED_SEGMENTS).Some?
  {
    hide FileLayout, LoadableLayout.Loadable;
    LoadableLayout.LoadedFileIsLoadable();
    LoadableLayout.LoadableLayoutSucceeds(Header(true, 64, 56, 64), LoadableLayout.LOADED_SECTIONS, LoadableLayout.LOADED_SEGMENTS);
  }
}
