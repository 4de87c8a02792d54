/** Layout of objects whose sections have addresses, as every loaded file has: it succeeds when the addresses ascend
    and the segments are nested or apart. */
module LoadableLayout {
  import opened Words
  import opened LayoutModel
  import opened LayoutFacts
  import opened SegmentFacts
  import opened SelfPlaced
  import opened SegmentResult
  import opened SegmentOrder
  import opened LayoutSteps
  import opened LayoutTheorems
  import opened LayoutSuccess

  // ---------------------------------------------------------------- conditions on the object

  ghost predicate Meets(a: seq<nat>, b: seq<nat>) { exists k :: 0 <= k < |a| && a[k] in b }

  ghost predicate Contained(a: seq<nat>, b: seq<nat>) { forall k :: 0 <= k < |a| ==> a[k] in b }

  ghost predicate Nested(a: seq<nat>, b: seq<nat>) { Contained(a, b) || Contained(b, a) }

  ghost predicate HasPinned(secs: seq<Sec>, seg: Seg) {
    exists k :: 0 <= k < |seg.secs| && seg.secs[k] < |secs| && Pinned(secs[seg.secs[k]])
  }

  /** Pinned sections follow each other without overlap, at least `room` bytes behind `vaddr`, and every section listed
      in front of one has an address. */
  ghost predicate AddressesAscend(secs: seq<Sec>, list: seq<nat>, vaddr: int, room: int)
    requires forall k :: 0 <= k < |list| ==> list[k] < |secs|
  {
    && (forall b :: 0 <= b < |list| && Pinned(secs[list[b]]) ==> vaddr + room <= secs[list[b]].addr)
    && (forall a, b :: 0 <= a < b < |list| && Pinned(secs[list[b]]) ==>
          && (secs[list[a]].stype == SHT_NULL || secs[list[a]].addrSet)
          && (Pinned(secs[list[a]]) ==> secs[list[a]].addr + secs[list[a]].size <= secs[list[b]].addr))
  }

  /** Where the first section of a segment can stand at the earliest, counted from the segment's start. */
  function Room(h: Header, segs: seq<Seg>, seg: Seg): nat {
    if StartsAtZero(seg) then HeadersEnd(h, segs) else 0
  }

  /** Segment `s` shares sections only with segments that contain it or that it contains. */
  ghost predicate Laminar(segs: seq<Seg>, s: nat)
    requires s < |segs|
  {
    forall t :: 0 <= t < |segs| && Meets(segs[s].secs, segs[t].secs) ==>
      StrictlyAscending(segs[t].secs) && Nested(segs[s].secs, segs[t].secs)
  }

  /** The segments at offset 0 that have sections are nested. */
  ghost predicate ZerosNested(segs: seq<Seg>, s: nat)
    requires s < |segs|
  {
    StartsAtZero(segs[s]) ==>
      forall t :: 0 <= t < |segs| && StartsAtZero(segs[t]) && |segs[t].secs| > 0 ==> Meets(segs[s].secs, segs[t].secs)
  }

  ghost predicate Loadable(h: Header, secs: seq<Sec>, segs: seq<Seg>)
    requires InRange(segs, |secs|)
  {
    && (forall a, b :: 0 <= a < b < |segs| && StartsAtZero(segs[b]) ==> segs[a].offsetSet)
    && (forall s :: 0 <= s < |segs| && HasPinned(secs, segs[s]) ==>
          && Laminar(segs, s)
          && ZerosNested(segs, s)
          && AddressesAscend(secs, segs[s].secs, segs[s].vaddr, Room(h, segs, segs[s])))
  }

  // ---------------------------------------------------------------- one segment

  lemma CurrentDistance(total: nat, base: nat)
    requires base <= total && total - base < W64
    ensures Sub64(total % W64, base % W64) == total - base
  {
    TruncDiffWide(total, base % W64);
    TruncDiffWide(base, total);
    assert (total - base % W64) % W64 == (total - base) % W64;
  }

  /** A pinned section that is not behind the file position goes to the distance that its address asks for. */
  lemma PinnedStep(wide: bool, seg: Seg, owner: int, r: Run, index: nat, base: nat)
    requires index < |r.secs| == |r.gen| && Pinned(r.secs[index]) && !r.gen[index]
    requires r.start == base % W64 && base <= r.total && r.total - base + seg.vaddr <= r.secs[index].addr
    ensures PlaceOne(wide, seg, owner, r, index).Some?
    ensures PlaceOne(wide, seg, owner, r, index).value.total == base + r.secs[index].addr - seg.vaddr + r.secs[index].size
  {
    hide Stamp, TakesMemory, Add64;
    CurrentDistance(r.total, base);
    assert Sub64(r.secs[index].addr, seg.vaddr) == r.secs[index].addr - seg.vaddr;
  }

  lemma UnmovedStep(wide: bool, seg: Seg, owner: int, r: Run, index: nat)
    requires index < |r.secs| == |r.gen| && (r.secs[index].stype != SHT_NULL ==> !r.gen[index])
    requires r.secs[index].stype == SHT_NULL || (r.secs[index].addrSet && !Pinned(r.secs[index]))
    ensures PlaceOne(wide, seg, owner, r, index).Some? && PlaceOne(wide, seg, owner, r, index).value.total == r.total
  {
    hide Stamp, TakesMemory, Add64, Sub64;
  }

  /** No pinned section from number `n` on lies behind the file position. */
  ghost predicate Ahead(secs: seq<Sec>, list: seq<nat>, n: nat, vaddr: int, distance: int)
    requires forall k :: 0 <= k < |list| ==> list[k] < |secs|
  {
    forall b :: n <= b < |list| && Pinned(secs[list[b]]) ==> vaddr + distance <= secs[list[b]].addr
  }

  /** A segment that places all its sections itself does not fail when their addresses ascend. */
  lemma {:induction false} PlaceUpToAhead(wide: bool, secs0: seq<Sec>, lo: nat, seg: Seg, owner: int, r: Run, n: nat, base: nat)
    requires RunSound(wide, secs0, lo, r) && PlacesAll(secs0, r.gen, seg.secs) && n <= |seg.secs|
    requires r.start == base % W64 && base <= r.total
    requires AddressesAscend(secs0, seg.secs, seg.vaddr, r.total - base)
    ensures PlaceUpTo(wide, seg, owner, r, n).Some?
    ensures base <= PlaceUpTo(wide, seg, owner, r, n).value.total
    ensures Ahead(secs0, seg.secs, n, seg.vaddr, PlaceUpTo(wide, seg, owner, r, n).value.total - base)
  {
    hide PlaceOne, RunSound, Pinned;
    if n > 0 {
      PlaceUpToAhead(wide, secs0, lo, seg, owner, r, n - 1, base);
      var r1 := NextIsFree(wide, secs0, lo, seg, owner, r, n);
      PlaceOneAhead(wide, secs0, seg, owner, r1, n - 1, base, r.total - base);
    }
  }

  lemma PlaceOneAhead(wide: bool, secs0: seq<Sec>, seg: Seg, owner: int, r: Run, n: nat, base: nat, room: int)
    requires n < |seg.secs| && |r.secs| == |r.gen| == |secs0| && forall k :: 0 <= k < |seg.secs| ==> seg.secs[k] < |secs0|
    requires r.start == base % W64 && base <= r.total
    requires AddressesAscend(secs0, seg.secs, seg.vaddr, room) && Ahead(secs0, seg.secs, n, seg.vaddr, r.total - base)
    requires r.secs[seg.secs[n]].stype == secs0[seg.secs[n]].stype
    requires secs0[seg.secs[n]].stype != SHT_NULL ==> r.secs[seg.secs[n]] == secs0[seg.secs[n]] && !r.gen[seg.secs[n]]
    ensures PlaceOne(wide, seg, owner, r, seg.secs[n]).Some?
    ensures base <= PlaceOne(wide, seg, owner, r, seg.secs[n]).value.total
    ensures Ahead(secs0, seg.secs, n + 1, seg.vaddr, PlaceOne(wide, seg, owner, r, seg.secs[n]).value.total - base)
  {
    hide PlaceOne;
    var index := seg.secs[n];
    if secs0[index].stype == SHT_NULL {
      UnmovedStep(wide, seg, owner, r, index);
    } else if Pinned(secs0[index]) {
      PinnedStep(wide, seg, owner, r, index, base);
    } else if secs0[index].addrSet {
      UnmovedStep(wide, seg, owner, r, index);
    } else {
      PlaceOneFails(wide, seg, owner, r, index);
      PlaceOneTotal(wide, seg, owner, r, index);
    }
  }

  /** A segment all of whose sections are placed does not fail. */
  lemma {:induction false} PlaceUpToMarked(wide: bool, secs0: seq<Sec>, lo: nat, seg: Seg, owner: int, r: Run, n: nat)
    requires RunSound(wide, secs0, lo, r) && n <= |seg.secs|
    requires forall k :: 0 <= k < |seg.secs| ==> seg.secs[k] < |r.secs| && r.gen[seg.secs[k]]
    ensures PlaceUpTo(wide, seg, owner, r, n).Some?
  {
    hide PlaceOne, Sound;
    if n > 0 {
      PlaceUpToMarked(wide, secs0, lo, seg, owner, r, n - 1);
      PlaceUpToSound(wide, secs0, lo, seg, owner, r, n - 1);
      PlaceOneFails(wide, seg, owner, PlaceUpTo(wide, seg, owner, r, n - 1).value, seg.secs[n - 1]);
    }
  }

  // ---------------------------------------------------------------- the worklist

  lemma CountInAscending(s: seq<nat>, x: nat)
    requires StrictlyAscending(s)
    ensures multiset(s)[x] == if x in s then 1 else 0
  {
    if x in s {
      var k :| 0 <= k < |s| && s[k] == x;
      assert s == s[..k] + [s[k]] + s[k + 1..];
      assert x !in s[..k] && x !in s[k + 1..];
      assert multiset(s) == multiset(s[..k]) + multiset{x} + multiset(s[k + 1..]);
    }
  }

  /** On strictly ascending lists containment is inclusion. */
  lemma ContainedIsInclusion(a: seq<nat>, b: seq<nat>)
    requires StrictlyAscending(a) && StrictlyAscending(b) && Contained(a, b)
    ensures multiset(a) <= multiset(b)
    ensures !Contained(b, a) ==> multiset(a) < multiset(b)
  {
    forall x ensures multiset(a)[x] <= multiset(b)[x] {
      CountInAscending(a, x);
      CountInAscending(b, x);
    }
    if !Contained(b, a) {
      var k :| 0 <= k < |b| && b[k] !in a;
      CountInAscending(a, b[k]);
      CountInAscending(b, b[k]);
      assert multiset(a)[b[k]] != multiset(b)[b[k]];
    }
  }

  lemma AscendingWeakens(s: seq<nat>)
    requires StrictlyAscending(s)
    ensures Ascending(s) && Distinct(s)
  {
  }

  lemma StrictContainmentWaits(inner: Seg, outer: Seg)
    requires StrictlyAscending(inner.secs) && StrictlyAscending(outer.secs)
    requires Contained(inner.secs, outer.secs) && !Contained(outer.secs, inner.secs)
    ensures InsideOf(inner, outer)
  {
    hide Includes;
    AscendingWeakens(inner.secs);
    AscendingWeakens(outer.secs);
    ContainedIsInclusion(inner.secs, outer.secs);
    FewerIsShorter(inner.secs, outer.secs);
    IncludesIsInclusion(outer.secs, inner.secs);
  }

  /** Section `x` is listed by one of the first `n` segments of the order. */
  ghost predicate ListedBefore(segs: seq<Seg>, order: seq<nat>, n: nat, x: nat)
    requires Handles(segs, order) && n <= |order|
  {
    exists j :: 0 <= j < n && x in segs[order[j]].secs
  }

  /** When its turn comes, either all sections of a segment were listed before, or none was. */
  lemma AllOrNone(segs: seq<Seg>, order: seq<nat>, n: nat)
    requires Handles(segs, order) && WidestFirst(segs, order) && n < |order| && Laminar(segs, order[n])
    ensures var list := segs[order[n]].secs;
      || (forall k :: 0 <= k < |list| ==> ListedBefore(segs, order, n, list[k]))
      || (forall k :: 0 <= k < |list| ==> !ListedBefore(segs, order, n, list[k]))
  {
    hide InsideOf;
    var s := order[n];
    var list := segs[s].secs;
    if k :| 0 <= k < |list| && ListedBefore(segs, order, n, list[k]) {
      var j :| 0 <= j < n && list[k] in segs[order[j]].secs;
      var other := segs[order[j]].secs;
      assert Meets(list, other);
      assert list[k] in list && Meets(list, list);
      if !Contained(list, other) {
        StrictContainmentWaits(segs[order[j]], segs[s]);
      }
      forall i | 0 <= i < |list| ensures ListedBefore(segs, order, n, list[i]) {
        assert list[i] in segs[order[j]].secs;
      }
    }
  }

  /** In front of number `k` of the worklist, which does not have to wait, all have to wait. */
  ghost predicate NextTaken(segs: seq<Seg>, w: seq<nat>, k: nat)
    requires Handles(segs, w)
  {
    && k < |w|
    && (forall i :: 0 <= i < |w| ==> !InsideOf(segs[w[k]], segs[w[i]]))
    && (forall j :: 0 <= j < k ==> exists i :: 0 <= i < |w| && InsideOf(segs[w[j]], segs[w[i]]))
  }

  lemma Rotated(w: seq<nat>, i: nat)
    requires w != [] && i < |w|
    ensures (w[1..] + [w[0]])[if i == 0 then |w| - 1 else i - 1] == w[i]
  {
  }

  lemma RotationKeepsNext(segs: seq<Seg>, w: seq<nat>, k: nat)
    requires Handles(segs, w) && NextTaken(segs, w, k) && k > 0
    ensures Handles(segs, w[1..] + [w[0]]) && NextTaken(segs, w[1..] + [w[0]], k - 1)
    ensures (w[1..] + [w[0]])[k - 1] == w[k]
  {
    hide InsideOf;
    var w' := w[1..] + [w[0]];
    Rotated(w, k);
    forall j | 0 <= j < k - 1 ensures exists i :: 0 <= i < |w'| && InsideOf(segs[w'[j]], segs[w'[i]]) {
      assert w'[j] == w[j + 1];
      var i :| 0 <= i < |w| && InsideOf(segs[w[j + 1]], segs[w[i]]);
      Rotated(w, i);
      assert InsideOf(segs[w'[j]], segs[w'[if i == 0 then |w| - 1 else i - 1]]);
    }
  }

  lemma FrontWaits(segs: seq<Seg>, w: seq<nat>, k: nat)
    requires Handles(segs, w) && NextTaken(segs, w, k)
    ensures Waits(segs, w) <==> k > 0
  {
    hide Includes;
    if k > 0 {
      var i :| 0 <= i < |w| && InsideOf(segs[w[0]], segs[w[i]]);
    }
  }

  /** Then it is the first that is taken. */
  lemma {:induction false} FirstTaken(segs: seq<Seg>, w: seq<nat>, k: nat)
    requires Handles(segs, w) && NextTaken(segs, w, k)
    ensures Drain(segs, w) != [] && Drain(segs, w)[0] == w[k]
    decreases k
  {
    hide InsideOf, FirstWidest, NextTaken, Waits;
    FrontWaits(segs, w, k);
    NextNonEmpty(segs, w, k);
    if k > 0 {
      RotationApproaches(segs, w);
      RotationKeepsNext(segs, w, k);
      FirstTaken(segs, w[1..] + [w[0]], k - 1);
    }
  }

  lemma NextNonEmpty(segs: seq<Seg>, w: seq<nat>, k: nat)
    requires Handles(segs, w) && NextTaken(segs, w, k)
    ensures k < |w|
  {
  }

  // ---------------------------------------------------------------- the segment at offset 0

  /** A segment at offset 0 that no segment contains strictly is taken first of all, unless one with the same sections
      is. */
  lemma ZeroTakenFirst(segs: seq<Seg>, s: nat)
    requires s < |segs| && StartsAtZero(segs[s]) && |segs[s].secs| > 0
    requires forall a, b :: 0 <= a < b < |segs| && StartsAtZero(segs[b]) ==> segs[a].offsetSet
    requires Laminar(segs, s) && ZerosNested(segs, s)
    requires forall t :: 0 <= t < |segs| ==> !InsideOf(segs[s], segs[t])
    ensures Ordered(segs) != [] && Ordered(segs)[0] < |segs| && segs[Ordered(segs)[0]].secs == segs[s].secs
  {
    hide InsideOf, Drain, SwapUpTo, StartsAtZero, Laminar, ZerosNested;
    var all := Handle(|segs|);
    var m := ZerosArePrefix(segs, all);
    var w := SwapUpTo(segs, all, |segs|).0;
    assert all[s] == s;
    assert s in multiset(all);
    assert s in w;
    var k0 :| 0 <= k0 < |w| && w[k0] == s;
    var k := FirstLike(segs, w, segs[s].secs, k0);
    assert forall j :: 0 <= j <= k ==> StartsAtZero(segs[w[j]]);
    ZeroIsNext(segs, w, k, s);
    FirstTaken(segs, w, k);
  }

  /** The first segment of the worklist with this section list. */
  lemma FirstLike(segs: seq<Seg>, w: seq<nat>, list: seq<nat>, k0: nat) returns (k: nat)
    requires Handles(segs, w) && k0 < |w| && segs[w[k0]].secs == list
    ensures k <= k0 && segs[w[k]].secs == list && forall j :: 0 <= j < k ==> segs[w[j]].secs != list
  {
    k := 0;
    while segs[w[k]].secs != list
      invariant k <= k0 && forall j :: 0 <= j < k ==> segs[w[j]].secs != list
      decreases k0 - k
    {
      k := k + 1;
    }
  }

  lemma {:induction false} SameElements(a: seq<nat>, b: seq<nat>)
    requires StrictlyAscending(a) && StrictlyAscending(b) && Contained(a, b) && Contained(b, a)
    ensures a == b
    decreases |a|
  {
    hide StrictlyAscending, Contained;
    HeadsEqual(a, b);
    if a != [] {
      TailsContained(a, b);
      TailsContained(b, a);
      SameElements(a[1..], b[1..]);
      assert a == [a[0]] + a[1..] && b == [b[0]] + b[1..];
    }
  }

  lemma HeadsEqual(a: seq<nat>, b: seq<nat>)
    requires StrictlyAscending(a) && StrictlyAscending(b) && Contained(a, b) && Contained(b, a)
    ensures a == [] <==> b == []
    ensures a != [] ==> a[0] == b[0]
  {
    if a != [] {
      assert a[0] in b;
      assert b[0] in a;
    }
    if b != [] {
      assert b[0] in a;
    }
  }

  lemma TailsContained(a: seq<nat>, b: seq<nat>)
    requires StrictlyAscending(a) && StrictlyAscending(b) && Contained(a, b) && a != [] && b != [] && a[0] == b[0]
    ensures Contained(a[1..], b[1..]) && StrictlyAscending(a[1..])
  {
    forall k | 0 <= k < |a[1..]| ensures a[1..][k] in b[1..] {
      assert a[k + 1] in b && a[k + 1] != b[0];
      var i :| 0 <= i < |b| && b[i] == a[k + 1];
      assert b[1..][i - 1] == a[k + 1];
    }
  }

  lemma ZeroIsNext(segs: seq<Seg>, w: seq<nat>, k: nat, s: nat)
    requires Handles(segs, w) && k < |w| && s < |segs| && segs[w[k]].secs == segs[s].secs && |segs[s].secs| > 0 && s in w
    requires StartsAtZero(segs[s]) && Laminar(segs, s) && ZerosNested(segs, s)
    requires forall t :: 0 <= t < |segs| ==> !InsideOf(segs[s], segs[t])
    requires forall j :: 0 <= j < k ==> StartsAtZero(segs[w[j]]) && segs[w[j]].secs != segs[s].secs
    ensures NextTaken(segs, w, k)
  {
    hide Includes, StartsAtZero;
    var i :| 0 <= i < |w| && w[i] == s;
    forall j | 0 <= j < k ensures InsideOf(segs[w[j]], segs[w[i]]) {
      ZeroWaits(segs, w[j], s);
    }
  }

  lemma ZeroWaits(segs: seq<Seg>, t: nat, s: nat)
    requires t < |segs| && s < |segs| && StartsAtZero(segs[s]) && StartsAtZero(segs[t]) && |segs[s].secs| > 0
    requires Laminar(segs, s) && ZerosNested(segs, s) && !InsideOf(segs[s], segs[t])
    requires segs[t].secs != segs[s].secs
    ensures InsideOf(segs[t], segs[s])
  {
    hide StartsAtZero, Includes;
    var a, b := segs[t].secs, segs[s].secs;
    if |a| == 0 {
      EmptyIncluded(b);
    } else {
      assert Meets(b, a);
      assert b[0] in b && Meets(b, b);
      if !Contained(a, b) {
        StrictContainmentWaits(segs[s], segs[t]);
      } else if Contained(b, a) {
        SameElements(a, b);
      } else {
        StrictContainmentWaits(segs[t], segs[s]);
      }
    }
  }

  lemma EmptyIncluded(b: seq<nat>)
    ensures Includes(b, [])
  {
  }

  // ---------------------------------------------------------------- the first pass

  /** The flags say which sections the first `n` segments list. */
  ghost predicate FlagsListed(segs: seq<Seg>, order: seq<nat>, n: nat, gen: seq<bool>)
    requires Handles(segs, order) && n <= |order|
  {
    forall x :: 0 <= x < |gen| ==> (gen[x] <==> ListedBefore(segs, order, n, x))
  }

  /** Laying out a segment flags its sections and no others. */
  lemma LayoutSegmentFlags(h: Header, secs0: seq<Sec>, lo: nat, p: Plan, i: nat)
    requires PlanSound(h.wide, secs0, lo, p) && i < |p.segs| && InRange(p.segs, |p.secs|)
    requires NoEntryOf(p.log, i) && LayoutSegment(h, p, i).Some?
    ensures var gen := LayoutSegment(h, p, i).value.gen;
      |gen| == |p.gen| && forall x :: 0 <= x < |gen| ==> (gen[x] <==> p.gen[x] || x in p.segs[i].secs)
  {
    hide PlaceOne, PlaceUpTo, StartRun, FinishSegment, Sound;
    var seg := p.segs[i];
    var r0, r := SegmentRunHolds(h, secs0, lo, p, i);
    StartRunSame(h, p, seg);
    forall x | 0 <= x < |r.gen| ensures r.gen[x] <==> p.gen[x] || x in seg.secs {
      if x in seg.secs {
        var k :| 0 <= k < |seg.secs| && seg.secs[k] == x;
      } else {
        assert seg.secs[..|seg.secs|] == seg.secs;
        PlaceUpToFlags(h.wide, seg, i, r0, |seg.secs|, x);
      }
    }
  }

  /** A segment without sections moves nothing. */
  lemma EmptyMovesNothing(h: Header, p: Plan, i: nat)
    requires i < |p.segs| && |p.gen| == |p.secs| && InRange(p.segs, |p.secs|) && p.segs[i].secs == []
    ensures LayoutSegment(h, p, i).Some? && LayoutSegment(h, p, i).value.total == p.total
  {
  }

  /** A segment that places all its sections itself, with ascending addresses. */
  lemma FreshSucceeds(h: Header, secs0: seq<Sec>, lo: nat, p: Plan, i: nat)
    requires PlanSound(h.wide, secs0, lo, p) && i < |p.segs| && InRange(p.segs, |p.secs|)
    requires Distinct(p.segs[i].secs) && |p.segs[i].secs| > 0
    requires forall k :: 0 <= k < |p.segs[i].secs| ==> !p.gen[p.segs[i].secs[k]]
    requires AddressesAscend(secs0, p.segs[i].secs, p.segs[i].vaddr, if StartsAtZero(p.segs[i]) then p.total else 0)
    ensures LayoutSegment(h, p, i).Some?
  {
    hide PlaceOne, PlaceUpTo, StartRun, Chained, Once, Recorded, Restrained, AddressesAscend, RunSound, PlacesAll, SegPadding,
         StartsAtZero;
    var seg := p.segs[i];
    StartRunSame(h, p, seg);
    FreeArePlaced(secs0, p.gen, seg.secs);
    StartRunSound(h, secs0, lo, p, seg);
    var r := StartRun(h, p, seg);
    if StartsAtZero(seg) {
      ZeroStart(h, p, seg);
      PlaceUpToAhead(h.wide, secs0, lo, seg, i, r, |seg.secs|, 0);
    } else {
      FreshStart(h, p, seg);
      PlaceUpToAhead(h.wide, secs0, lo, seg, i, r, |seg.secs|, r.total);
    }
  }

  lemma FreeArePlaced(secs0: seq<Sec>, gen: seq<bool>, list: seq<nat>)
    requires Distinct(list) && |gen| == |secs0| && forall k :: 0 <= k < |list| ==> list[k] < |gen| && !gen[list[k]]
    ensures PlacesAll(secs0, gen, list)
  {
  }

  lemma MarkedSucceeds(h: Header, secs0: seq<Sec>, lo: nat, p: Plan, i: nat)
    requires PlanSound(h.wide, secs0, lo, p) && i < |p.segs| && InRange(p.segs, |p.secs|)
    requires forall k :: 0 <= k < |p.segs[i].secs| ==> p.gen[p.segs[i].secs[k]]
    ensures LayoutSegment(h, p, i).Some?
  {
    hide PlaceOne, PlaceUpTo, StartRun, Sound, RunSound;
    StartRunSame(h, p, p.segs[i]);
    StartRunSound(h, secs0, lo, p, p.segs[i]);
    PlaceUpToMarked(h.wide, secs0, lo, p.segs[i], i, StartRun(h, p, p.segs[i]), |p.segs[i].secs|);
  }

  lemma ListedNext(segs: seq<Seg>, order: seq<nat>, n: nat, x: nat)
    requires Handles(segs, order) && n < |order|
    ensures ListedBefore(segs, order, n + 1, x) <==> ListedBefore(segs, order, n, x) || x in segs[order[n]].secs
  {
    if x in segs[order[n]].secs {
      assert order[n] == order[n];
    }
    if ListedBefore(segs, order, n + 1, x) {
      var j :| 0 <= j < n + 1 && x in segs[order[j]].secs;
    }
    if ListedBefore(segs, order, n, x) {
      var j :| 0 <= j < n && x in segs[order[j]].secs;
    }
  }

  /** Between the segments of the first pass: flags, and the position as long as no segment had sections. */
  ghost predicate Going(h: Header, segs0: seq<Seg>, order: seq<nat>, n: nat, p: Plan)
    requires Handles(segs0, order) && n <= |order|
  {
    && FlagsListed(segs0, order, n, p.gen)
    && ((forall j :: 0 <= j < n ==> segs0[order[j]].secs == []) ==> p.total == HeadersEnd(h, segs0))
  }

  lemma GoingStep(h: Header, secs0: seq<Sec>, segs0: seq<Seg>, lo: nat, order: seq<nat>, n: nat, p: Plan)
    requires n < |order| && FirstPass(h.wide, secs0, segs0, lo, order, n, p) && Handles(segs0, order)
    requires LayoutSegment(h, p, order[n]).Some? && Going(h, segs0, order, n, p)
    ensures Going(h, segs0, order, n + 1, LayoutSegment(h, p, order[n]).value)
  {
    hide LayoutSegment, SegmentDone, EntriesListed, ListedBefore, HeadersEnd, Sound, FlagsAgree;
    var i := order[n];
    assert order[..n + 1] == order[..n] + [i];
    assert i !in order[..n];
    assert p.segs[i] == segs0[i];
    LayoutSegmentFlags(h, secs0, lo, p, i);
    forall x: nat ensures ListedBefore(segs0, order, n + 1, x) <==> ListedBefore(segs0, order, n, x) || x in segs0[i].secs {
      ListedNext(segs0, order, n, x);
    }
    if segs0[i].secs == [] {
      EmptyMovesNothing(h, p, i);
    }
  }

  /** The turn of a segment with pinned sections. */
  lemma PinnedTurn(h: Header, secs0: seq<Sec>, segs0: seq<Seg>, lo: nat, order: seq<nat>, n: nat, p: Plan)
    requires n < |order| && FirstPass(h.wide, secs0, segs0, lo, order, n, p) && Handles(segs0, order)
    requires order == Ordered(segs0) && Going(h, segs0, order, n, p) && Loadable(h, secs0, segs0)
    requires HasPinned(secs0, segs0[order[n]])
    ensures LayoutSegment(h, p, order[n]).Some?
  {
    hide LayoutSegment, SegmentDone, EntriesListed, ListedBefore, HeadersEnd, Sound, Ordered, AddressesAscend, InsideOf,
         StartsAtZero, Laminar, ZerosNested;
    var i := order[n];
    var list := segs0[i].secs;
    assert order[..n + 1] == order[..n] + [i];
    assert i !in order[..n];
    assert p.segs[i] == segs0[i];
    OrderedIsComplete(segs0);
    AllOrNone(segs0, order, n);
    if k :| 0 <= k < |list| && p.gen[list[k]] {
      assert forall k :: 0 <= k < |list| ==> p.gen[list[k]];
      MarkedSucceeds(h, secs0, lo, p, i);
    } else {
      SelfIsDistinct(segs0, i);
      if StartsAtZero(segs0[i]) {
        ZeroTurn(segs0, order, n);
      }
      FreshSucceeds(h, secs0, lo, p, i);
    }
  }

  lemma SelfIsDistinct(segs: seq<Seg>, s: nat)
    requires s < |segs| && |segs[s].secs| > 0 && Laminar(segs, s)
    ensures Distinct(segs[s].secs)
  {
    assert segs[s].secs[0] in segs[s].secs && Meets(segs[s].secs, segs[s].secs);
  }

  /** When a segment at offset 0 meets only free sections, no segment with sections was taken before. */
  lemma ZeroTurn(segs: seq<Seg>, order: seq<nat>, n: nat)
    requires order == Ordered(segs) && Handles(segs, order) && n < |order| && StartsAtZero(segs[order[n]])
    requires |segs[order[n]].secs| > 0 && Laminar(segs, order[n]) && ZerosNested(segs, order[n])
    requires forall a, b :: 0 <= a < b < |segs| && StartsAtZero(segs[b]) ==> segs[a].offsetSet
    requires forall k :: 0 <= k < |segs[order[n]].secs| ==> !ListedBefore(segs, order, n, segs[order[n]].secs[k])
    ensures n == 0
  {
    hide Ordered, StartsAtZero, Laminar, ZerosNested, Includes;
    var s := order[n];
    var x := segs[s].secs[0];
    OrderedIsComplete(segs);
    forall t | 0 <= t < |segs| ensures !InsideOf(segs[s], segs[t]) {
      assert t in order;
      var j :| 0 <= j < |order| && order[j] == t;
      InsideIsListed(segs[s], segs[t]);
      ListedBy(segs, order, n, j, x);
    }
    ZeroTakenFirst(segs, s);
    ListedBy(segs, order, n, 0, x);
  }

  lemma ListedBy(segs: seq<Seg>, order: seq<nat>, n: nat, j: nat, x: nat)
    requires Handles(segs, order) && n <= |order| && j < |order|
    ensures j < n && x in segs[order[j]].secs ==> ListedBefore(segs, order, n, x)
  {
  }

  lemma InsideIsListed(inner: Seg, outer: Seg)
    requires |inner.secs| > 0
    ensures InsideOf(inner, outer) ==> inner.secs[0] in outer.secs
  {
    if InsideOf(inner, outer) {
      IncludedListed(outer.secs, inner.secs, 0);
    }
  }

  lemma {:induction false} IncludedListed(big: seq<nat>, small: seq<nat>, k: nat)
    requires Includes(big, small) && k < |small|
    ensures small[k] in big
  {
    if small[0] == big[0] {
      if k > 0 {
        IncludedListed(big[1..], small[1..], k - 1);
      }
    } else {
      IncludedListed(big[1..], small, k);
    }
  }

  lemma {:induction false} SegmentsUpToGo(h: Header, secs0: seq<Sec>, segs0: seq<Seg>, lo: nat, order: seq<nat>, n: nat, p: Plan)
    requires n <= |order| && FirstPass(h.wide, secs0, segs0, lo, order, 0, p) && p.segs == segs0 && Handles(segs0, order)
    requires order == Ordered(segs0) && Going(h, segs0, order, 0, p) && Loadable(h, secs0, segs0)
    ensures SegmentsUpTo(h, p, order, n).Some? && Going(h, segs0, order, n, SegmentsUpTo(h, p, order, n).value)
  {
    hide LayoutSegment, Loadable, Going, Ordered, DoneOrUntouched, OwnersIn, EntriesListed, HasPinned;
    if n > 0 {
      SegmentsUpToGo(h, secs0, segs0, lo, order, n - 1, p);
      SegmentsUpToKeep(h, secs0, segs0, lo, order, n - 1, p);
      var q := SegmentsUpTo(h, p, order, n - 1).value;
      if HasPinned(secs0, segs0[order[n - 1]]) {
        PinnedTurn(h, secs0, segs0, lo, order, n - 1, q);
      } else {
        UnpinnedTurn(h, secs0, segs0, lo, order, n - 1, q);
      }
      GoingStep(h, secs0, segs0, lo, order, n - 1, q);
    }
  }

  lemma UnpinnedTurn(h: Header, secs0: seq<Sec>, segs0: seq<Seg>, lo: nat, order: seq<nat>, n: nat, p: Plan)
    requires n < |order| && FirstPass(h.wide, secs0, segs0, lo, order, n, p) && Handles(segs0, order)
    requires !HasPinned(secs0, segs0[order[n]])
    ensures LayoutSegment(h, p, order[n]).Some?
  {
    hide LayoutSegment, SegmentDone, EntriesListed, Sound, Pinned;
    var i := order[n];
    assert i !in order[..n];
    assert p.segs[i] == segs0[i];
    LayoutSegmentSucceeds(h, secs0, lo, p, i);
  }

  // ---------------------------------------------------------------- the whole file

  lemma LoadableRaised(h: Header, secs: seq<Sec>, segs: seq<Seg>)
    requires InRange(segs, |secs|) && Loadable(h, secs, segs)
    ensures Loadable(h, secs, Raised(secs, segs))
  {
    hide RaiseAlign, AddressesAscend, Pinned;
    var raised := Raised(secs, segs);
    assert forall s :: 0 <= s < |segs| ==> raised[s].secs == segs[s].secs && StartsAtZero(raised[s]) == StartsAtZero(segs[s]);
    forall s | 0 <= s < |raised| && HasPinned(secs, raised[s])
      ensures Laminar(raised, s) && ZerosNested(raised, s)
      ensures AddressesAscend(secs, raised[s].secs, raised[s].vaddr, Room(h, raised, raised[s]))
    {
      assert HasPinned(secs, segs[s]);
    }
  }

  /** Layout succeeds for every object whose pinned sections stand, in each segment that lists some, in ascending
      address order without overlap, at or behind the segment's address (behind the headers for a segment at offset 0),
      and whose segments are nested or apart. */
  lemma LoadableLayoutSucceeds(h: Header, secs: seq<Sec>, segs: seq<Seg>)
    requires InRange(segs, |secs|) && Loadable(h, secs, segs)
    ensures FileLayout(h, secs, segs).Some?
  {
    hide SegmentsUpTo, LooseUpTo, Ordered, TableStart, Loadable, RaiseAlign, Includes;
    var raised := Raised(secs, segs);
    OrderedIsComplete(raised);
    LoadableRaised(h, secs, segs);
    var order, p0 := Ordered(raised), StartPlan(h, secs, segs);
    assert FirstPass(h.wide, secs, raised, HeadersEnd(h, segs), order, 0, p0);
    assert Going(h, raised, order, 0, p0);
    SegmentsUpToGo(h, secs, raised, HeadersEnd(h, segs), order, |order|, p0);
  }

  // ---------------------------------------------------------------- a loaded file

  const LOADED_SECTIONS := [
    Sec(SHT_NULL, 0, 0, true, 0, 0, 0),
    Sec(1, SHF_ALLOC, 0x40_1000, true, 16, 256, 0x1000),
    Sec(6, SHF_ALLOC, 0x40_1100, true, 8, 64, 0x1100),
    Sec(SHT_NOBITS, SHF_ALLOC, 0x40_1140, true, 8, 32, 0x1140)]

  const LOADED_SEGMENTS := [
    Seg(1, 0x1000, 0x40_0000, 0x1140, 0x1160, 0, true, [0, 1, 2, 3]),
    Seg(2, 8, 0x40_1100, 64, 64, 0x1100, true, [2])]

  /** An executable as it is loaded: code, dynamic section and zeroed data in a segment at offset 0, and a segment for
      the dynamic section alone. */
  lemma LoadedFileIsLoadable()
    ensures InRange(LOADED_SEGMENTS, 4)
    ensures Loadable(Header(true, 64, 56, 64), LOADED_SECTIONS, LOADED_SEGMENTS)
    ensures HasPinned(LOADED_SECTIONS, LOADED_SEGMENTS[0]) && HasPinned(LOADED_SECTIONS, LOADED_SEGMENTS[1])
  {
    hide Laminar, ZerosNested, AddressesAscend, StartsAtZero;
    LoadedAddresses();
    LoadedNested();
    assert Pinned(LOADED_SECTIONS[LOADED_SEGMENTS[0].secs[1]]) && Pinned(LOADED_SECTIONS[LOADED_SEGMENTS[1].secs[0]]);
  }

  lemma LoadedAddresses()
    ensures InRange(LOADED_SEGMENTS, 4)
    ensures AddressesAscend(LOADED_SECTIONS, [0, 1, 2, 3], 0x40_0000, HeadersEnd(Header(true, 64, 56, 64), LOADED_SEGMENTS))
    ensures AddressesAscend(LOADED_SECTIONS, [2], 0x40_1100, 0)
    ensures StartsAtZero(LOADED_SEGMENTS[0]) && !StartsAtZero(LOADED_SEGMENTS[1])
  {
    assert HeadersEnd(Header(true, 64, 56, 64), LOADED_SEGMENTS) == 176;
  }

  lemma LoadedNested()
    ensures Laminar(LOADED_SEGMENTS, 0) && Laminar(LOADED_SEGMENTS, 1)
    ensures ZerosNested(LOADED_SEGMENTS, 0) && ZerosNested(LOADED_SEGMENTS, 1)
  {
    hide Nested, StrictlyAscending, Meets;
    LoadedLists();
  }

  lemma LoadedLists()
    ensures forall s, t :: 0 <= s < 2 && 0 <= t < 2 ==>
      StrictlyAscending(LOADED_SEGMENTS[t].secs) && Nested(LOADED_SEGMENTS[s].secs, LOADED_SEGMENTS[t].secs)
    ensures Meets(LOADED_SEGMENTS[0].secs, LOADED_SEGMENTS[0].secs)
  {
    var outer, inner := [0, 1, 2, 3], [2];
    assert LOADED_SEGMENTS[0].secs == outer && LOADED_SEGMENTS[1].secs == inner;
    assert outer[2] == 2 && inner[0] == 2;
    assert Contained(inner, outer) && Contained(outer, outer) && Contained(inner, inner);
    assert outer[0] in outer && Meets(outer, outer);
    hide Contained, Meets;
    assert forall s, t :: 0 <= s < 2 && 0 <= t < 2 ==> Nested(LOADED_SEGMENTS[s].secs, LOADED_SEGMENTS[t].secs);
  }
}
