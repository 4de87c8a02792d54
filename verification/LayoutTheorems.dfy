/** The layout of a whole file. */
module LayoutTheorems {
  import opened Words
  import opened LayoutModel
  import opened LayoutFacts
  import opened SegmentFacts
  import opened SelfPlaced
  import opened SegmentResult
  import opened LayoutSteps
  import opened SegmentOrder
  import Congruence

  ghost predicate DistinctOrder(order: seq<nat>, n: nat) {
    && (forall k :: 0 <= k < |order| ==> order[k] < n)
    && (forall a, b :: 0 <= a < b < |order| ==> order[a] != order[b])
  }

  /** A segment only places sections that it lists. */
  ghost predicate EntriesListed(segs0: seq<Seg>, log: seq<Place>) {
    forall k :: 0 <= k < |log| && 0 <= log[k].owner < |segs0| ==> log[k].sec in segs0[log[k].owner].secs
  }

  ghost predicate NewAreListed(log: seq<Place>, log': seq<Place>, list: seq<nat>) {
    |log| <= |log'| && log'[..|log|] == log && forall k :: |log| <= k < |log'| ==> log'[k].sec in list
  }

  lemma {:induction false} PlaceUpToListed(wide: bool, seg: Seg, owner: int, r: Run, n: nat)
    requires n <= |seg.secs| && |r.secs| == |r.gen|
    requires forall k :: 0 <= k < |seg.secs| ==> seg.secs[k] < |r.secs|
    requires PlaceUpTo(wide, seg, owner, r, n).Some?
    ensures NewAreListed(r.log, PlaceUpTo(wide, seg, owner, r, n).value.log, seg.secs)
  {
    if n > 0 {
      PlaceUpToListed(wide, seg, owner, r, n - 1);
      var r1 := PlaceUpTo(wide, seg, owner, r, n - 1).value;
      PlaceOneListed(wide, seg, owner, r1, seg.secs[n - 1]);
      var r2 := PlaceUpTo(wide, seg, owner, r, n).value;
      assert r2.log[..|r.log|] == r2.log[..|r1.log|][..|r.log|];
      forall k | |r.log| <= k < |r2.log| ensures r2.log[k].sec in seg.secs {
        if k < |r1.log| {
          assert r2.log[..|r1.log|][k] == r2.log[k];
        }
      }
    }
  }

  lemma PlaceOneListed(wide: bool, seg: Seg, owner: int, r: Run, index: nat)
    requires index < |r.secs| == |r.gen| && PlaceOne(wide, seg, owner, r, index).Some? && index in seg.secs
    ensures NewAreListed(r.log, PlaceOne(wide, seg, owner, r, index).value.log, seg.secs)
  {
    if r.secs[index].stype != SHT_NULL && !r.gen[index] {
      var at, r' := PlaceOneSplit(wide, seg, owner, r, index);
    }
  }

  lemma LayoutSegmentListed(h: Header, p: Plan, i: nat)
    requires i < |p.segs| && |p.gen| == |p.secs| && InRange(p.segs, |p.secs|)
    requires LayoutSegment(h, p, i).Some?
    ensures NewAreListed(p.log, LayoutSegment(h, p, i).value.log, p.segs[i].secs)
  {
    StartRunSame(h, p, p.segs[i]);
    PlaceUpToListed(h.wide, p.segs[i], i, StartRun(h, p, p.segs[i]), |p.segs[i].secs|);
  }

  ghost predicate OwnersIn(log: seq<Place>, done: seq<nat>) {
    forall k :: 0 <= k < |log| ==> log[k].owner in done
  }

  /** The segments in `done` are finished, the others untouched. */
  ghost predicate DoneOrUntouched(wide: bool, secs0: seq<Sec>, segs0: seq<Seg>, p: Plan, done: seq<nat>)
    requires |p.segs| == |segs0| && InRange(segs0, |p.secs|) && |secs0| == |p.secs|
  {
    && (forall s :: 0 <= s < |segs0| && s !in done ==> p.segs[s] == segs0[s])
    && (forall s :: 0 <= s < |segs0| && s in done ==>
          SegmentDone(wide, secs0, segs0[s], p.secs, p.segs[s], p.log, p.total, s))
  }

  /** After the first `n` segments of the worklist. */
  ghost predicate FirstPass(wide: bool, secs0: seq<Sec>, segs0: seq<Seg>, lo: nat, order: seq<nat>, n: nat, p: Plan) {
    && PlanSound(wide, secs0, lo, p)
    && |p.segs| == |segs0| && InRange(segs0, |secs0|) && InRange(p.segs, |p.secs|)
    && n <= |order| && DistinctOrder(order, |segs0|)
    && OwnersIn(p.log, order[..n])
    && EntriesListed(segs0, p.log)
    && DoneOrUntouched(wide, secs0, segs0, p, order[..n])
  }

  lemma LogStep(segs0: seq<Seg>, log: seq<Place>, log': seq<Place>, done: seq<nat>, i: nat)
    requires OwnersIn(log, done) && EntriesListed(segs0, log) && i < |segs0|
    requires NewAreListed(log, log', segs0[i].secs)
    requires forall k :: |log| <= k < |log'| ==> log'[k].owner == i
    ensures OwnersIn(log', done + [i]) && EntriesListed(segs0, log')
  {
    forall k | 0 <= k < |log'|
      ensures log'[k].owner in done + [i]
      ensures 0 <= log'[k].owner < |segs0| ==> log'[k].sec in segs0[log'[k].owner].secs
    {
      if k < |log| {
        assert log'[..|log|][k] == log'[k];
      }
    }
  }

  lemma DoneStep(wide: bool, secs0: seq<Sec>, segs0: seq<Seg>, p: Plan, p': Plan, done: seq<nat>, i: nat)
    requires |p.segs| == |p'.segs| == |segs0| && |p.secs| == |p'.secs| == |secs0| && InRange(segs0, |p.secs|)
    requires DoneOrUntouched(wide, secs0, segs0, p, done) && i < |segs0| && i !in done
    requires Later(p.secs, p.total, p.log, p'.secs, p'.total, p'.log, i)
    requires SegmentDone(wide, secs0, segs0[i], p'.secs, p'.segs[i], p'.log, p'.total, i)
    requires forall s :: 0 <= s < |p.segs| && s != i ==> p'.segs[s] == p.segs[s]
    requires forall x :: 0 <= x < |p.secs| && p.secs[x].stype == SHT_NULL ==> !Logs(p'.log, x)
    ensures DoneOrUntouched(wide, secs0, segs0, p', done + [i])
  {
    forall s | 0 <= s < |segs0| && s in done + [i]
      ensures SegmentDone(wide, secs0, segs0[s], p'.secs, p'.segs[s], p'.log, p'.total, s)
    {
      if s != i {
        SegmentDoneLater(wide, secs0, segs0[s], p.secs, p.segs[s], p.log, p.total, p'.secs, p'.log, p'.total, s, i);
      }
    }
  }

  lemma FirstPassStep(h: Header, secs0: seq<Sec>, segs0: seq<Seg>, lo: nat, order: seq<nat>, n: nat, p: Plan)
    requires n < |order| && FirstPass(h.wide, secs0, segs0, lo, order, n, p)
    requires LayoutSegment(h, p, order[n]).Some?
    ensures FirstPass(h.wide, secs0, segs0, lo, order, n + 1, LayoutSegment(h, p, order[n]).value)
  {
    var i := order[n];
    assert order[..n + 1] == order[..n] + [i];
    assert i !in order[..n];
    assert p.segs[i] == segs0[i];
    LayoutSegmentKeeps(h, secs0, lo, p, i);
    LayoutSegmentListed(h, p, i);
    var p' := LayoutSegment(h, p, i).value;
    LogStep(segs0, p.log, p'.log, order[..n], i);
    forall x | 0 <= x < |p.secs| && p.secs[x].stype == SHT_NULL ensures !Logs(p'.log, x) {
      assert SameButPlace(secs0[x], p.secs[x]) && SameButPlace(secs0[x], p'.secs[x]);
    }
    DoneStep(h.wide, secs0, segs0, p, p', order[..n], i);
  }

  lemma SegmentsUpToUnfold(h: Header, p: Plan, order: seq<nat>, n: nat) returns (q: Plan)
    requires 0 < n <= |order| && (forall k :: 0 <= k < |order| ==> order[k] < |p.segs|)
    requires |p.gen| == |p.secs| && InRange(p.segs, |p.secs|)
    requires SegmentsUpTo(h, p, order, n).Some?
    ensures SegmentsUpTo(h, p, order, n - 1) == Some(q)
    ensures |q.segs| == |p.segs| && |q.secs| == |q.gen| == |p.secs| && InRange(q.segs, |q.secs|)
    ensures SegmentsUpTo(h, p, order, n) == LayoutSegment(h, q, order[n - 1])
  {
    q := SegmentsUpTo(h, p, order, n - 1).value;
  }

  lemma {:induction false} SegmentsUpToKeep(h: Header, secs0: seq<Sec>, segs0: seq<Seg>, lo: nat, order: seq<nat>, n: nat, p: Plan)
    requires n <= |order| && FirstPass(h.wide, secs0, segs0, lo, order, 0, p)
    requires SegmentsUpTo(h, p, order, n).Some?
    ensures FirstPass(h.wide, secs0, segs0, lo, order, n, SegmentsUpTo(h, p, order, n).value)
  {
    hide LayoutSegment;
    if n > 0 {
      SegmentsUpToKeep(h, secs0, segs0, lo, order, n - 1, p);
      var q := SegmentsUpToUnfold(h, p, order, n);
      FirstPassStep(h, secs0, segs0, lo, order, n - 1, q);
    }
  }

  // ---------------------------------------------------------------- second pass

  /** Sections that no segment lists start at a multiple of their alignment. */
  ghost predicate LooseAligned(wide: bool, secs: seq<Sec>, log: seq<Place>, total: nat) {
    total < Modulus(wide) ==>
      forall k :: 0 <= k < |log| && log[k].owner == LOOSE && log[k].sec < |secs| && secs[log[k].sec].align > 1
        ==> log[k].at % secs[log[k].sec].align == 0
  }

  ghost predicate AllDone(wide: bool, secs0: seq<Sec>, segs0: seq<Seg>, q: Plan)
    requires |q.segs| == |segs0| && InRange(segs0, |q.secs|) && |secs0| == |q.secs|
  {
    forall s :: 0 <= s < |segs0| ==> SegmentDone(wide, secs0, segs0[s], q.secs, q.segs[s], q.log, q.total, s)
  }

  /** Which sections have a place after `n` steps of the second pass. */
  ghost predicate LooseLog(secs0: seq<Sec>, segs0: seq<Seg>, log: seq<Place>, n: nat) {
    && (forall k :: 0 <= k < |log| ==> LOOSE <= log[k].owner < |segs0|)
    && EntriesListed(segs0, log)
    && (forall k :: 0 <= k < |log| && log[k].owner == LOOSE ==> log[k].sec < n && !InSegment(segs0, log[k].sec))
    && (forall i :: 0 <= i < n && !InSegment(segs0, i) ==> Logs(log, i))
    && (forall i :: 0 <= i < |secs0| && InSegment(segs0, i) && Logs(log, i) ==> secs0[i].stype != SHT_NULL)
  }

  /** After the first `n` sections of the second pass. */
  ghost predicate SecondPass(wide: bool, secs0: seq<Sec>, segs0: seq<Seg>, lo: nat, n: nat, q: Plan) {
    && Sound(wide, secs0, lo, q.secs, q.total, q.log)
    && |q.segs| == |segs0| && InRange(segs0, |secs0|) && n <= |q.secs|
    && LooseLog(secs0, segs0, q.log, n)
    && AllDone(wide, secs0, segs0, q)
    && LooseAligned(wide, q.secs, q.log, q.total)
  }

  lemma FirstToSecond(wide: bool, secs0: seq<Sec>, segs0: seq<Seg>, lo: nat, order: seq<nat>, p: Plan)
    requires FirstPass(wide, secs0, segs0, lo, order, |order|, p)
    requires forall s :: 0 <= s < |segs0| ==> s in order
    ensures SecondPass(wide, secs0, segs0, lo, 0, p)
  {
    assert order[..|order|] == order;
    forall i | 0 <= i < |p.secs| && InSegment(segs0, i) && Logs(p.log, i) ensures secs0[i].stype != SHT_NULL {
      assert SameButPlace(secs0[i], p.secs[i]);
    }
  }

  lemma LoosePaddingAligns(align: Word64, total: nat)
    requires align > 1 && total < W64
    ensures (total + LoosePadding(align, total % W64)) % align == 0
  {
    assert total % W64 == total;
    var c := total % align;
    if c != 0 {
      Congruence.ModShift(total, align - c, align);
      Congruence.AddOne(0, align);
      assert (total + (align - c)) % align == (c + (align - c)) % align == 0;
    }
  }

  lemma FreeInSecondPass(wide: bool, secs0: seq<Sec>, segs0: seq<Seg>, lo: nat, n: nat, q: Plan)
    requires SecondPass(wide, secs0, segs0, lo, n, q) && n < |q.secs| && !InSegment(segs0, n)
    ensures !Logs(q.log, n) && q.secs[n] == secs0[n]
  {
    forall k | 0 <= k < |q.log| ensures q.log[k].sec != n {
      if q.log[k].owner != LOOSE {
        assert q.log[k].sec in segs0[q.log[k].owner].secs;
      }
    }
  }

  lemma SameMembership(segs: seq<Seg>, segs0: seq<Seg>, i: nat)
    requires |segs| == |segs0| && forall s :: 0 <= s < |segs| ==> segs[s].secs == segs0[s].secs
    ensures InSegment(segs, i) == InSegment(segs0, i)
  {
    if InSegment(segs, i) {
      var s :| 0 <= s < |segs| && i in segs[s].secs;
      assert i in segs0[s].secs;
    }
    if InSegment(segs0, i) {
      var s :| 0 <= s < |segs0| && i in segs0[s].secs;
      assert i in segs[s].secs;
    }
  }

  lemma SameInSecondPass(wide: bool, secs0: seq<Sec>, segs0: seq<Seg>, lo: nat, n: nat, q: Plan, i: nat)
    requires SecondPass(wide, secs0, segs0, lo, n, q)
    ensures InSegment(q.segs, i) == InSegment(segs0, i)
  {
    hide Sound, LooseLog, LooseAligned, InSegment;
    SameMembership(q.segs, segs0, i);
  }

  lemma LooseAlignedStep(wide: bool, secs: seq<Sec>, log: seq<Place>, total: nat, i: nat, sec': Sec, at: nat)
    requires LooseAligned(wide, secs, log, total) && i < |secs| && sec'.align == secs[i].align
    requires at == total + LoosePadding(secs[i].align, total % W64)
    ensures LooseAligned(wide, secs[i := sec'], log + [Place(i, LOOSE, at, FileLen(secs[i]), at - total)], at + FileLen(secs[i]))
  {
    if at + FileLen(secs[i]) < Modulus(wide) && secs[i].align > 1 {
      LoosePaddingAligns(secs[i].align, total);
    }
  }

  lemma LooseLogStep(secs0: seq<Sec>, segs0: seq<Seg>, log: seq<Place>, n: nat, e: Place)
    requires LooseLog(secs0, segs0, log, n) && e.sec == n && e.owner == LOOSE && !InSegment(segs0, n)
    ensures LooseLog(secs0, segs0, log + [e], n + 1)
  {
    LogsAppendAll(log, e);
  }

  lemma LooseSkip(secs0: seq<Sec>, segs0: seq<Seg>, log: seq<Place>, n: nat)
    requires LooseLog(secs0, segs0, log, n) && InSegment(segs0, n)
    ensures LooseLog(secs0, segs0, log, n + 1)
  {
  }

  lemma AllDoneLater(wide: bool, secs0: seq<Sec>, segs0: seq<Seg>, q: Plan, q': Plan)
    requires |q.segs| == |segs0| && InRange(segs0, |q.secs|) && |secs0| == |q.secs| && AllDone(wide, secs0, segs0, q)
    requires q'.segs == q.segs && Later(q.secs, q.total, q.log, q'.secs, q'.total, q'.log, LOOSE)
    requires forall x :: 0 <= x < |q.secs| ==> SameButPlace(secs0[x], q.secs[x])
    requires forall x :: 0 <= x < |secs0| && InSegment(segs0, x) && Logs(q'.log, x) ==> secs0[x].stype != SHT_NULL
    ensures AllDone(wide, secs0, segs0, q')
  {
    forall s | 0 <= s < |segs0|
      ensures SegmentDone(wide, secs0, segs0[s], q'.secs, q'.segs[s], q'.log, q'.total, s)
    {
      forall k | 0 <= k < |segs0[s].secs| && q.secs[segs0[s].secs[k]].stype == SHT_NULL
        ensures !Logs(q'.log, segs0[s].secs[k])
      {
        assert segs0[s].secs[k] in segs0[s].secs && InSegment(segs0, segs0[s].secs[k]);
        assert SameButPlace(secs0[segs0[s].secs[k]], q.secs[segs0[s].secs[k]]);
      }
      SegmentDoneLater(wide, secs0, segs0[s], q.secs, q.segs[s], q.log, q.total, q'.secs, q'.log, q'.total, s, LOOSE);
    }
  }

  /** How a section outside all segments gets its place. */
  lemma PlaceLooseShape(wide: bool, q: Plan, n: nat) returns (e: Place, sec': Sec)
    requires n < |q.secs| && !InSegment(q.segs, n)
    ensures PlaceLoose(wide, q, n) == q.(secs := q.secs[n := sec'], total := e.at + e.len, log := q.log + [e])
    ensures var pad := LoosePadding(q.secs[n].align, q.total % W64);
      e == Place(n, LOOSE, q.total + pad, FileLen(q.secs[n]), pad)
    ensures SameButPlace(q.secs[n], sec') && Restrained(wide, n, q.secs[n], sec') && (n != 0 ==> sec'.offset == Trunc(wide, e.at))
  {
    var at := q.total + LoosePadding(q.secs[n].align, q.total % W64);
    TruncOfResidue(wide, at);
    e := Place(n, LOOSE, at, FileLen(q.secs[n]), at - q.total);
    sec' := PlaceLoose(wide, q, n).secs[n];
  }

  /** Placing section `n` outside all segments. */
  lemma PlaceLooseSound(wide: bool, secs0: seq<Sec>, segs0: seq<Seg>, lo: nat, n: nat, q: Plan)
    requires SecondPass(wide, secs0, segs0, lo, n, q) && n < |q.secs| && !InSegment(segs0, n)
    ensures var q' := PlaceLoose(wide, q, n);
      && Sound(wide, secs0, lo, q'.secs, q'.total, q'.log)
      && Later(q.secs, q.total, q.log, q'.secs, q'.total, q'.log, LOOSE)
      && LooseLog(secs0, segs0, q'.log, n + 1)
      && LooseAligned(wide, q'.secs, q'.log, q'.total)
      && q'.segs == q.segs
  {
    hide PlaceLoose, LoosePadding, Trunc, LooseAligned, LooseLog, InSegment, Later, AllDone, Chained, Once, Recorded, Restrained;
    SameInSecondPass(wide, secs0, segs0, lo, n, q, n);
    FreeInSecondPass(wide, secs0, segs0, lo, n, q);
    var e, sec' := PlaceLooseShape(wide, q, n);
    AppendKeepsSound(wide, secs0, lo, q.secs, q.total, q.log, e, sec');
    LooseAlignedStep(wide, q.secs, q.log, q.total, n, sec', e.at);
    LooseLogStep(secs0, segs0, q.log, n, e);
  }

  lemma SecondPassStep(wide: bool, secs0: seq<Sec>, segs0: seq<Seg>, lo: nat, n: nat, q: Plan)
    requires SecondPass(wide, secs0, segs0, lo, n, q) && n < |q.secs|
    ensures SecondPass(wide, secs0, segs0, lo, n + 1, PlaceLoose(wide, q, n))
  {
    SameMembership(q.segs, segs0, n);
    if InSegment(segs0, n) {
      LooseSkip(secs0, segs0, q.log, n);
    } else {
      PlaceLooseSound(wide, secs0, segs0, lo, n, q);
      AllDoneLater(wide, secs0, segs0, q, PlaceLoose(wide, q, n));
    }
  }

  lemma {:induction false} LooseUpToKeep(wide: bool, secs0: seq<Sec>, segs0: seq<Seg>, lo: nat, p: Plan, n: nat)
    requires SecondPass(wide, secs0, segs0, lo, 0, p) && n <= |p.secs|
    ensures SecondPass(wide, secs0, segs0, lo, n, LooseUpTo(wide, p, n))
  {
    hide PlaceLoose;
    if n > 0 {
      LooseUpToKeep(wide, secs0, segs0, lo, p, n - 1);
      SecondPassStep(wide, secs0, segs0, lo, n - 1, LooseUpTo(wide, p, n - 1));
    }
  }

  /** The second pass leaves listed sections alone. */
  lemma {:induction false} LooseKeepsListed(wide: bool, p: Plan, n: nat, i: nat)
    requires n <= |p.secs| && i < |p.secs| && InSegment(p.segs, i)
    ensures LooseUpTo(wide, p, n).secs[i] == p.secs[i]
  {
    hide Trunc, LoosePadding;
    if n > 0 {
      LooseKeepsListed(wide, p, n - 1, i);
    }
  }

  /** It only adds entries behind the others, none for a segment. */
  lemma {:induction false} LooseAppends(wide: bool, p: Plan, n: nat)
    requires n <= |p.secs|
    ensures var q := LooseUpTo(wide, p, n);
      && p.total <= q.total && |p.log| <= |q.log| && q.log[..|p.log|] == p.log
      && forall k :: |p.log| <= k < |q.log| ==> q.log[k].owner == LOOSE
  {
    hide Trunc, LoosePadding, InSegment;
    if n > 0 {
      LooseAppends(wide, p, n - 1);
    }
  }

  // ---------------------------------------------------------------- the whole file

  /** A worklist that takes every segment once. */
  ghost predicate Complete(order: seq<nat>, n: nat) {
    DistinctOrder(order, n) && forall s :: 0 <= s < n ==> s in order
  }

  lemma MembershipOfRaised(secs: seq<Sec>, segs: seq<Seg>, i: nat)
    requires InRange(segs, |secs|)
    ensures InSegment(Raised(secs, segs), i) == InSegment(segs, i)
  {
    SameMembership(Raised(secs, segs), segs, i);
  }

  /** Moving the end of the file keeps the invariant. */
  lemma SecondPassGrows(wide: bool, secs0: seq<Sec>, segs0: seq<Seg>, lo: nat, n: nat, q: Plan, total: nat)
    requires SecondPass(wide, secs0, segs0, lo, n, q) && q.total <= total
    ensures SecondPass(wide, secs0, segs0, lo, n, q.(total := total))
  {
    AllDoneLater(wide, secs0, segs0, q, q.(total := total));
  }

  /** The three passes together: whatever the sections, segments and worklist order, a layout that succeeds
      ends in the invariant of the second pass with nothing left to place. */
  lemma LayoutKeeps(h: Header, secs: seq<Sec>, segs: seq<Seg>, order: seq<nat>)
    requires InRange(segs, |secs|) && Complete(order, |segs|)
    requires Layout(h, secs, segs, order).Some?
    ensures var d := Layout(h, secs, segs, order).value;
      && SecondPass(h.wide, secs, Raised(secs, segs), HeadersEnd(h, segs), |secs|, d.plan)
      && d.shoff == Trunc(h.wide, d.plan.total)
      && d.plan.total % W64 % 4 == 0
      && Chained(d.plan.log, HeadersEnd(h, segs), d.plan.total)
  {
    var p0, lo := StartPlan(h, secs, segs), HeadersEnd(h, segs);
    hide HeadersEnd;
    assert FirstPass(h.wide, secs, Raised(secs, segs), lo, order, 0, p0);
    SegmentsUpToKeep(h, secs, Raised(secs, segs), lo, order, |order|, p0);
    var p := SegmentsUpTo(h, p0, order, |order|).value;
    FirstToSecond(h.wide, secs, Raised(secs, segs), lo, order, p);
    LooseUpToKeep(h.wide, secs, Raised(secs, segs), lo, p, |p.secs|);
    var q := LooseUpTo(h.wide, p, |p.secs|);
    SecondPassGrows(h.wide, secs, Raised(secs, segs), lo, |secs|, q, TableStart(q.total));
    TruncOfResidue(h.wide, TableStart(q.total));
    TableAligned(q.total);
  }

  lemma TableAligned(total: nat)
    ensures TableStart(total) % W64 % 4 == 0
  {
    ResidueOfFour(total);
    var end := total + (4 - total % 4) % 4;
    assert TableStart(total) == end && end % 4 == 0;
    ResidueOfFour(end);
  }

  lemma ResidueOfFour(v: nat)
    ensures v % W64 % 4 == v % 4
  {
    var q := v / W64;
    assert v == 4 * (q * (W64 / 4)) + v % W64;
  }

  /** What `save` computes before it writes: the layout in the order of `get_ordered_segments`. */
  function FileLayout(h: Header, secs: seq<Sec>, segs: seq<Seg>): Option<Done>
    requires InRange(segs, |secs|)
  {
    OrderedIsComplete(Raised(secs, segs));
    Layout(h, secs, segs, Ordered(Raised(secs, segs)))
  }

  lemma FileLayoutKeeps(h: Header, secs: seq<Sec>, segs: seq<Seg>)
    requires InRange(segs, |secs|) && FileLayout(h, secs, segs).Some?
    ensures var d := FileLayout(h, secs, segs).value;
      && SecondPass(h.wide, secs, Raised(secs, segs), HeadersEnd(h, segs), |secs|, d.plan)
      && d.shoff == Trunc(h.wide, d.plan.total)
      && d.plan.total % W64 % 4 == 0
      && Chained(d.plan.log, HeadersEnd(h, segs), d.plan.total)
  {
    hide Layout, SecondPass, Raised, HeadersEnd, Chained;
    OrderedIsComplete(Raised(secs, segs));
    LayoutKeeps(h, secs, segs, Ordered(Raised(secs, segs)));
  }

  /** Every section other than section 0 gets a file offset exactly once; only a null section that a segment
      lists gets none. */
  lemma EverySectionOnce(h: Header, secs: seq<Sec>, segs: seq<Seg>)
    requires InRange(segs, |secs|) && FileLayout(h, secs, segs).Some?
    ensures var log := FileLayout(h, secs, segs).value.plan.log;
      && Once(log)
      && forall i :: 0 <= i < |secs| ==> (Logs(log, i) <==> !(secs[i].stype == SHT_NULL && InSegment(segs, i)))
  {
    FileLayoutKeeps(h, secs, segs);
    var d := FileLayout(h, secs, segs).value;
    hide FileLayout;
    forall i | 0 <= i < |secs|
      ensures Logs(d.plan.log, i) <==> !(secs[i].stype == SHT_NULL && InSegment(segs, i))
    {
      MembershipOfRaised(secs, segs, i);
      if InSegment(segs, i) && secs[i].stype != SHT_NULL {
        var s :| 0 <= s < |segs| && i in segs[s].secs;
        assert SegmentDone(h.wide, secs, Raised(secs, segs)[s], d.plan.secs, d.plan.segs[s], d.plan.log, d.plan.total, s);
        assert SameButPlace(secs[i], d.plan.secs[i]);
      }
    }
  }

  predicate Apart(a: int, la: int, b: int, lb: int) { a + la <= b || b + lb <= a }

  /** The file ranges of a layout: headers, file bytes of the sections, and section header table. */
  ghost predicate RangesApart(h: Header, secs: seq<Sec>, segs: seq<Seg>, shoff: nat) {
    && (forall i :: 0 < i < |secs| && FileLen(secs[i]) > 0 ==>
          HeadersEnd(h, segs) <= secs[i].offset && secs[i].offset + FileLen(secs[i]) <= shoff)
    && (forall i, j :: 0 < i < j < |secs| && FileLen(secs[i]) > 0 && FileLen(secs[j]) > 0 ==>
          Apart(secs[i].offset, FileLen(secs[i]), secs[j].offset, FileLen(secs[j])))
    && HeadersEnd(h, segs) <= shoff
  }

  lemma PlacedAt(h: Header, secs0: seq<Sec>, lo: nat, q: Plan, i: nat) returns (b: nat)
    requires Sound(h.wide, secs0, lo, q.secs, q.total, q.log) && q.total < Modulus(h.wide)
    requires 0 < i < |q.secs| && Logs(q.log, i)
    ensures b < |q.log| && q.log[b].sec == i
    ensures q.secs[i].offset == q.log[b].at && FileLen(q.secs[i]) == q.log[b].len
  {
    b :| 0 <= b < |q.log| && q.log[b].sec == i;
    assert Recorded(h.wide, secs0, q.secs, q.log[b]) && SameButPlace(secs0[i], q.secs[i]);
    TruncSmall(h.wide, q.log[b].at);
  }

  /** A file that is shorter than the field width can express has no two parts on the same byte. */
  lemma LayoutRangesApart(h: Header, secs: seq<Sec>, segs: seq<Seg>)
    requires InRange(segs, |secs|) && FileLayout(h, secs, segs).Some?
    requires FileLayout(h, secs, segs).value.plan.total < Modulus(h.wide)
    ensures var d := FileLayout(h, secs, segs).value;
      RangesApart(h, d.plan.secs, d.plan.segs, d.shoff) && d.shoff == d.plan.total && d.shoff % 4 == 0
  {
    hide FileLayout, AllDone, LooseLog, LooseAligned, InSegment;
    FileLayoutKeeps(h, secs, segs);
    EverySectionOnce(h, secs, segs);
    var d := FileLayout(h, secs, segs).value;
    TruncSmall(h.wide, d.plan.total);
    var q, lo := d.plan, HeadersEnd(h, segs);
    assert HeadersEnd(h, q.segs) == lo;
    forall i | 0 < i < |q.secs| && FileLen(q.secs[i]) > 0
      ensures Logs(q.log, i)
      ensures lo <= q.secs[i].offset && q.secs[i].offset + FileLen(q.secs[i]) <= q.total
    {
      assert SameButPlace(secs[i], q.secs[i]);
      var b := PlacedAt(h, secs, lo, q, i);
    }
    forall i, j | 0 < i < j < |q.secs| && FileLen(q.secs[i]) > 0 && FileLen(q.secs[j]) > 0
      ensures Apart(q.secs[i].offset, FileLen(q.secs[i]), q.secs[j].offset, FileLen(q.secs[j]))
    {
      var a := PlacedAt(h, secs, lo, q, i);
      var b := PlacedAt(h, secs, lo, q, j);
      assert a != b;
    }
  }

  /** What every segment of a finished layout satisfies: the correspondence of addresses and offsets, the loader's
      congruence, and the coverage of its sections. */
  lemma LayoutSegmentsDone(h: Header, secs: seq<Sec>, segs: seq<Seg>, s: nat)
    requires InRange(segs, |secs|) && s < |segs| && FileLayout(h, secs, segs).Some?
    ensures var q := FileLayout(h, secs, segs).value.plan;
      && |q.secs| == |secs| && |q.segs| == |segs|
      && SegmentDone(h.wide, secs, Raised(secs, segs)[s], q.secs, q.segs[s], q.log, q.total, s)
  {
    FileLayoutKeeps(h, secs, segs);
  }

  /** In a finished file a segment that placed all its sections itself covers the file-backed ones if and only if no
      bytes were skipped in front of a section without file bytes that stands before a file-backed one; so always when
      those sections came with an address, as in every loaded file, or without alignment. */
  lemma CoveredExactly(h: Header, secs: seq<Sec>, segs: seq<Seg>, s: nat)
    requires InRange(segs, |secs|) && s < |segs| && FileLayout(h, secs, segs).Some?
    requires FileLayout(h, secs, segs).value.plan.total < Modulus(h.wide)
    requires var q := FileLayout(h, secs, segs).value.plan;
      |q.secs| == |secs| && |q.segs| == |segs| && PlacedItself(q.secs, Raised(secs, segs)[s], q.log, s)
    ensures var q := FileLayout(h, secs, segs).value.plan;
      && q.segs[s].secs == segs[s].secs && ListInRange(segs[s].secs, |q.secs|)
      && (Covers(q.secs, q.segs[s]) <==> GapsBehind(secs, q.log, s))
      && (Settled(secs, segs[s].secs) ==> Covers(q.secs, q.segs[s]))
  {
    hide FileLayout, PlacedItself, Covers, GapsBehind, Settled, RaiseAlign, OwnMemory;
    LayoutSegmentsDone(h, secs, segs, s);
  }

  /** The alignment that layout works with is at least that of every section in the list. */
  lemma {:induction false} RaisedCovers(secs: seq<Sec>, list: seq<nat>, align: Word64, n: nat)
    requires n <= |list| && forall k :: 0 <= k < |list| ==> list[k] < |secs|
    ensures RaiseAlign(secs, list, align, n) >= align
    ensures forall k :: 0 <= k < n ==> RaiseAlign(secs, list, align, n) >= secs[list[k]].align
    ensures RaiseAlign(secs, list, align, n) == align || exists k :: 0 <= k < n && RaiseAlign(secs, list, align, n) == secs[list[k]].align
  {
    if n > 0 {
      RaisedCovers(secs, list, align, n - 1);
    }
  }
}
