/** The order in which `elfio::get_ordered_segments` takes the segments: a worklist that puts a segment back
    at the end as long as another waiting segment lists all its sections and more. */
module SegmentOrder {
  import opened LayoutModel

  // ---------------------------------------------------------------- std::includes

  /** `std::includes` as the C++ standard library computes it. */
  predicate Includes(big: seq<nat>, small: seq<nat>) {
    if small == [] then true
    else if big == [] then false
    else if small[0] < big[0] then false
    else if big[0] < small[0] then Includes(big[1..], small)
    else Includes(big[1..], small[1..])
  }

  ghost predicate Ascending(s: seq<nat>) {
    forall a, b :: 0 <= a < b < |s| ==> s[a] <= s[b]
  }

  ghost predicate StrictlyAscending(s: seq<nat>) {
    forall a, b :: 0 <= a < b < |s| ==> s[a] < s[b]
  }

  lemma CountHead(s: seq<nat>, x: nat)
    requires s != []
    ensures multiset(s)[x] == multiset(s[1..])[x] + if x == s[0] then 1 else 0
  {
    assert s == [s[0]] + s[1..];
    assert multiset(s) == multiset{s[0]} + multiset(s[1..]);
  }

  /** Nothing below the head of an ascending list is in it. */
  lemma BelowHead(s: seq<nat>, x: nat)
    requires Ascending(s) && s != [] && x < s[0]
    ensures multiset(s)[x] == 0
  {
    assert x !in s;
  }

  /** On ascending lists it decides inclusion, counting repetitions. */
  lemma {:induction false} IncludesIsInclusion(big: seq<nat>, small: seq<nat>)
    requires Ascending(big) && Ascending(small)
    ensures Includes(big, small) <==> multiset(small) <= multiset(big)
  {
    if small == [] {
    } else if big == [] {
      assert small[0] in multiset(small);
    } else if small[0] < big[0] {
      CountHead(small, small[0]);
      BelowHead(big, small[0]);
      assert multiset(small)[small[0]] > multiset(big)[small[0]];
    } else {
      var rest := if big[0] < small[0] then small else small[1..];
      IncludesIsInclusion(big[1..], rest);
      forall x ensures multiset(small)[x] <= multiset(big)[x] <==> multiset(rest)[x] <= multiset(big[1..])[x] {
        CountHead(big, x);
        CountHead(small, x);
        if big[0] < small[0] {
          BelowHead(small, big[0]);
        }
      }
      InclusionByCount(small, big, rest, big[1..]);
    }
  }

  lemma InclusionByCount(a: seq<nat>, b: seq<nat>, c: seq<nat>, d: seq<nat>)
    requires forall x :: multiset(a)[x] <= multiset(b)[x] <==> multiset(c)[x] <= multiset(d)[x]
    ensures multiset(a) <= multiset(b) <==> multiset(c) <= multiset(d)
  {
  }

  /** The sections of `a` are among those of `b`, which has more. */
  predicate InsideOf(a: Seg, b: Seg) { |a.secs| < |b.secs| && Includes(b.secs, a.secs) }

  // ---------------------------------------------------------------- the worklist loop

  predicate Handles(segs: seq<Seg>, w: seq<nat>) { forall k :: 0 <= k < |w| ==> w[k] < |segs| }

  /** The front segment has to wait. */
  predicate Waits(segs: seq<Seg>, w: seq<nat>)
    requires Handles(segs, w) && w != []
  {
    exists k :: 1 <= k < |w| && InsideOf(segs[w[0]], segs[w[k]])
  }

  /** The position of the first segment with the most sections. */
  function FirstWidest(segs: seq<Seg>, w: seq<nat>): (k: nat)
    requires Handles(segs, w) && w != []
    ensures k < |w|
    ensures forall j :: 0 <= j < |w| ==> |segs[w[j]].secs| <= |segs[w[k]].secs|
    ensures forall j :: 0 <= j < k ==> |segs[w[j]].secs| < |segs[w[k]].secs|
  {
    if |w| == 1 then 0
    else
      var k := FirstWidest(segs, w[..|w| - 1]);
      assert forall j :: 0 <= j < |w| - 1 ==> w[..|w| - 1][j] == w[j];
      if |segs[w[|w| - 1]].secs| > |segs[w[k]].secs| then |w| - 1 else k
  }

  /** Putting the front segment back brings the widest segment one step nearer to the front. */
  lemma RotationApproaches(segs: seq<Seg>, w: seq<nat>)
    requires Handles(segs, w) && w != [] && Waits(segs, w)
    ensures Handles(segs, w[1..] + [w[0]])
    ensures FirstWidest(segs, w[1..] + [w[0]]) < FirstWidest(segs, w)
  {
    var w' := w[1..] + [w[0]];
    var k, k' := FirstWidest(segs, w), FirstWidest(segs, w');
    assert k > 0 && w'[k - 1] == w[k];
    assert forall j :: 0 <= j < |w| - 1 ==> w'[j] == w[j + 1];
  }

  lemma HeadAndTail(w: seq<nat>)
    requires w != []
    ensures multiset(w) == multiset{w[0]} + multiset(w[1..])
  {
    assert w == [w[0]] + w[1..];
  }

  lemma RotationSame(w: seq<nat>)
    requires w != []
    ensures multiset(w[1..] + [w[0]]) == multiset(w)
  {
    HeadAndTail(w);
  }

  /** What the loop makes of a worklist. */
  function Drain(segs: seq<Seg>, w: seq<nat>): (r: seq<nat>)
    requires Handles(segs, w)
    ensures multiset(r) == multiset(w)
    decreases |w|, if w == [] then 0 else FirstWidest(segs, w)
  {
    if w == [] then []
    else if Waits(segs, w) then
      RotationApproaches(segs, w);
      RotationSame(w);
      Drain(segs, w[1..] + [w[0]])
    else
      HeadAndTail(w);
      [w[0]] + Drain(segs, w[1..])
  }

  /** One round of the loop, with `res` collected before: the front segment goes back to the end, or is taken. */
  lemma DrainRound(segs: seq<Seg>, res: seq<nat>, w: seq<nat>)
    requires Handles(segs, w) && w != []
    ensures Handles(segs, w[1..]) && Handles(segs, w[1..] + [w[0]])
    ensures if Waits(segs, w)
            then res + Drain(segs, w[1..] + [w[0]]) == res + Drain(segs, w)
                 && |w[1..] + [w[0]]| == |w| && FirstWidest(segs, w[1..] + [w[0]]) < FirstWidest(segs, w)
            else (res + [w[0]]) + Drain(segs, w[1..]) == res + Drain(segs, w) && |w[1..]| < |w|
  {
    if Waits(segs, w) {
      RotationApproaches(segs, w);
    } else {
      assert res + ([w[0]] + Drain(segs, w[1..])) == (res + [w[0]]) + Drain(segs, w[1..]);
    }
  }

  ghost predicate WidestFirst(segs: seq<Seg>, order: seq<nat>)
    requires Handles(segs, order)
  {
    forall a, b :: 0 <= a < b < |order| ==> !InsideOf(segs[order[a]], segs[order[b]])
  }

  lemma SameHandles(segs: seq<Seg>, w: seq<nat>, r: seq<nat>)
    requires Handles(segs, w) && multiset(r) == multiset(w)
    ensures Handles(segs, r)
  {
    forall k | 0 <= k < |r| ensures r[k] < |segs| {
      assert r[k] in multiset(r);
      assert r[k] in w;
    }
  }

  /** No segment comes before one that lists all its sections and more. */
  lemma {:induction false} DrainOrders(segs: seq<Seg>, w: seq<nat>)
    requires Handles(segs, w)
    ensures Handles(segs, Drain(segs, w)) && WidestFirst(segs, Drain(segs, w))
    decreases |w|, if w == [] then 0 else FirstWidest(segs, w)
  {
    SameHandles(segs, w, Drain(segs, w));
    if w == [] {
    } else if Waits(segs, w) {
      RotationApproaches(segs, w);
      DrainOrders(segs, w[1..] + [w[0]]);
    } else {
      DrainOrders(segs, w[1..]);
      var rest := Drain(segs, w[1..]);
      forall b | 0 <= b < |rest| ensures !InsideOf(segs[w[0]], segs[rest[b]]) {
        assert rest[b] in multiset(rest);
        assert rest[b] in w[1..];
        var k :| 0 <= k < |w[1..]| && w[1..][k] == rest[b];
        assert w[k + 1] == rest[b];
      }
    }
  }

  // ---------------------------------------------------------------- segments at offset 0

  /** Iteration `i` of the pass that opens the function; `slot` is the next free position at the front. */
  function SwapStep(segs: seq<Seg>, w: seq<nat>, slot: nat, i: nat): (r: (seq<nat>, nat))
    requires Handles(segs, w) && slot <= i < |w|
    ensures |r.0| == |w| && r.1 <= i + 1 && multiset(r.0) == multiset(w) && Handles(segs, r.0)
  {
    if i != slot && StartsAtZero(segs[w[i]]) then
      var slot1 := if segs[w[slot]].offset == 0 then slot + 1 else slot;
      (w[i := w[slot1]][slot1 := w[i]], slot1 + 1)
    else (w, slot)
  }

  /** The first `n` iterations. */
  function SwapUpTo(segs: seq<Seg>, w: seq<nat>, n: nat): (r: (seq<nat>, nat))
    requires Handles(segs, w) && n <= |w|
    ensures |r.0| == |w| && r.1 <= n && multiset(r.0) == multiset(w) && Handles(segs, r.0)
  {
    if n == 0 then (w, 0)
    else
      var (w1, slot) := SwapUpTo(segs, w, n - 1);
      SwapStep(segs, w1, slot, n - 1)
  }

  lemma SwapUpToFirst(segs: seq<Seg>, w: seq<nat>)
    requires Handles(segs, w)
    ensures SwapUpTo(segs, w, 0) == (w, 0)
  {
  }

  lemma SwapUpToNext(segs: seq<Seg>, w: seq<nat>, n: nat)
    requires Handles(segs, w) && n < |w|
    ensures SwapUpTo(segs, w, n + 1) == SwapStep(segs, SwapUpTo(segs, w, n).0, SwapUpTo(segs, w, n).1, n)
  {
  }

  /** Up to `n`, the segments at offset 0 stand in front, except possibly one that the pass skipped. */
  ghost predicate ZerosCollected(segs: seq<Seg>, w: seq<nat>, slot: nat, n: nat)
    requires Handles(segs, w) && slot <= n <= |w|
  {
    && (forall k :: 0 <= k < slot ==> segs[w[k]].offset == 0)
    && (forall k :: slot < k < n ==> !StartsAtZero(segs[w[k]]))
  }

  lemma {:induction false} SwapCollects(segs: seq<Seg>, w: seq<nat>, n: nat)
    requires Handles(segs, w) && n <= |w|
    ensures ZerosCollected(segs, SwapUpTo(segs, w, n).0, SwapUpTo(segs, w, n).1, n)
  {
    hide SwapStep, ZerosCollected, StartsAtZero;
    if n == 0 {
      NothingCollected(segs, w);
    } else {
      SwapCollects(segs, w, n - 1);
      CollectStep(segs, SwapUpTo(segs, w, n - 1).0, SwapUpTo(segs, w, n - 1).1, n - 1);
    }
  }

  lemma NothingCollected(segs: seq<Seg>, w: seq<nat>)
    requires Handles(segs, w)
    ensures ZerosCollected(segs, w, 0, 0)
  {
  }

  lemma CollectStep(segs: seq<Seg>, w: seq<nat>, slot: nat, i: nat)
    requires Handles(segs, w) && slot <= i < |w| && ZerosCollected(segs, w, slot, i)
    ensures var r := SwapStep(segs, w, slot, i);
      ZerosCollected(segs, r.0, r.1, i + 1)
  {
  }

  /** The pass ends with a front part in which every segment has offset 0, and all segments whose offset was set
      to 0 are in it. */
  lemma ZerosFront(segs: seq<Seg>, w: seq<nat>) returns (m: nat)
    requires Handles(segs, w)
    ensures var r := SwapUpTo(segs, w, |w|).0;
      && m <= |r|
      && (forall k :: 0 <= k < m ==> segs[r[k]].offset == 0)
      && (forall k :: m <= k < |r| ==> !StartsAtZero(segs[r[k]]))
  {
    SwapCollects(segs, w, |w|);
    var (r, slot) := SwapUpTo(segs, w, |w|);
    m := if slot < |r| && StartsAtZero(segs[r[slot]]) then slot + 1 else slot;
  }

  /** Iteration `i` swaps, and before that steps over a segment in front whose offset was never set. */
  predicate StepsOver(segs: seq<Seg>, w: seq<nat>, slot: nat, i: nat)
    requires Handles(segs, w) && slot <= i < |w|
  {
    i != slot && StartsAtZero(segs[w[i]]) && segs[w[slot]].offset == 0 && !segs[w[slot]].offsetSet
  }

  /** None of the first `n` iterations does that. */
  ghost predicate NoneSteppedOver(segs: seq<Seg>, w: seq<nat>, n: nat)
    requires Handles(segs, w) && n <= |w|
  {
    forall i :: 0 <= i < n ==> !StepsOver(segs, SwapUpTo(segs, w, i).0, SwapUpTo(segs, w, i).1, i)
  }

  /** The segments set to offset 0 are the first `m`. */
  ghost predicate ZeroPrefix(segs: seq<Seg>, w: seq<nat>, m: nat)
    requires Handles(segs, w)
  {
    m <= |w| && forall k :: 0 <= k < |w| ==> (StartsAtZero(segs[w[k]]) <==> k < m)
  }

  /** Up to `slot` the front part is settled: all set to 0, or one that is not stands in front of one that is. */
  ghost predicate FrontSettled(segs: seq<Seg>, w: seq<nat>, slot: nat, clean: bool)
    requires Handles(segs, w) && slot <= |w|
  {
    if clean then forall k :: 0 <= k < slot ==> StartsAtZero(segs[w[k]])
    else exists k :: 0 <= k < slot - 1 && !StartsAtZero(segs[w[k]]) && StartsAtZero(segs[w[k + 1]])
  }

  lemma FrontStep(segs: seq<Seg>, w: seq<nat>, slot: nat, i: nat, clean: bool)
    requires Handles(segs, w) && slot <= i < |w| && FrontSettled(segs, w, slot, clean)
    ensures var r := SwapStep(segs, w, slot, i);
      FrontSettled(segs, r.0, r.1, clean && !StepsOver(segs, w, slot, i))
  {
    hide StartsAtZero;
    var r := SwapStep(segs, w, slot, i);
    assert forall k :: 0 <= k < slot ==> r.0[k] == w[k];
    if !clean {
      var k :| 0 <= k < slot - 1 && !StartsAtZero(segs[w[k]]) && StartsAtZero(segs[w[k + 1]]);
      assert !StartsAtZero(segs[r.0[k]]) && StartsAtZero(segs[r.0[k + 1]]);
    } else if StepsOver(segs, w, slot, i) {
      SteppedOver(segs, w, slot, i);
    } else {
      CleanStep(segs, w, slot, i);
    }
  }

  lemma SteppedOver(segs: seq<Seg>, w: seq<nat>, slot: nat, i: nat)
    requires Handles(segs, w) && slot <= i < |w| && StepsOver(segs, w, slot, i)
    ensures var r := SwapStep(segs, w, slot, i);
      slot + 1 < r.1 <= |r.0| && !StartsAtZero(segs[r.0[slot]]) && StartsAtZero(segs[r.0[slot + 1]])
  {
  }

  lemma CleanStep(segs: seq<Seg>, w: seq<nat>, slot: nat, i: nat)
    requires Handles(segs, w) && slot <= i < |w| && !StepsOver(segs, w, slot, i)
    requires forall k :: 0 <= k < slot ==> StartsAtZero(segs[w[k]])
    ensures var r := SwapStep(segs, w, slot, i);
      r.1 <= |r.0| && forall k :: 0 <= k < r.1 ==> StartsAtZero(segs[r.0[k]])
  {
  }

  lemma {:induction false} SwapSettles(segs: seq<Seg>, w: seq<nat>, n: nat)
    requires Handles(segs, w) && n <= |w|
    ensures FrontSettled(segs, SwapUpTo(segs, w, n).0, SwapUpTo(segs, w, n).1, NoneSteppedOver(segs, w, n))
  {
    hide SwapStep, SwapUpTo, StepsOver, FrontSettled;
    if n == 0 {
      SwapUpToFirst(segs, w);
      NothingSettled(segs, w);
    } else {
      SwapSettles(segs, w, n - 1);
      SwapUpToNext(segs, w, n - 1);
      var (w1, slot) := SwapUpTo(segs, w, n - 1);
      FrontStep(segs, w1, slot, n - 1, NoneSteppedOver(segs, w, n - 1));
    }
  }

  lemma NothingSettled(segs: seq<Seg>, w: seq<nat>)
    requires Handles(segs, w)
    ensures FrontSettled(segs, w, 0, true)
  {
  }

  /** The segments set to offset 0 end as a prefix of the worklist if and only if no swap stepped over a segment
      without an offset. */
  lemma ZerosArePrefixExactly(segs: seq<Seg>, w: seq<nat>)
    requires Handles(segs, w)
    ensures (exists m :: ZeroPrefix(segs, SwapUpTo(segs, w, |w|).0, m)) <==> NoneSteppedOver(segs, w, |w|)
  {
    hide SwapUpTo, NoneSteppedOver, FrontSettled, ZerosCollected, ZeroPrefix, StartsAtZero;
    SwapSettles(segs, w, |w|);
    SwapCollects(segs, w, |w|);
    var (r, slot) := SwapUpTo(segs, w, |w|);
    if NoneSteppedOver(segs, w, |w|) {
      var m := CleanPrefix(segs, r, slot);
    } else {
      SkippedIsNoPrefix(segs, r, slot);
    }
  }

  lemma CleanPrefix(segs: seq<Seg>, r: seq<nat>, slot: nat) returns (m: nat)
    requires Handles(segs, r) && slot <= |r| && FrontSettled(segs, r, slot, true) && ZerosCollected(segs, r, slot, |r|)
    ensures ZeroPrefix(segs, r, m)
  {
    m := if slot < |r| && StartsAtZero(segs[r[slot]]) then slot + 1 else slot;
  }

  lemma SkippedIsNoPrefix(segs: seq<Seg>, r: seq<nat>, slot: nat)
    requires Handles(segs, r) && slot <= |r| && FrontSettled(segs, r, slot, false)
    ensures forall m :: !ZeroPrefix(segs, r, m)
  {
    hide StartsAtZero;
    var k :| 0 <= k < slot - 1 && !StartsAtZero(segs[r[k]]) && StartsAtZero(segs[r[k + 1]]);
    forall m ensures !ZeroPrefix(segs, r, m) {
      assert ZeroPrefix(segs, r, m) ==> !(k < m) && k + 1 < m;
    }
  }

  /** No segment without an offset stands in front of one set to 0: so the list is after loading a file and
      adding segments. */
  ghost predicate UnsetBehind(segs: seq<Seg>, w: seq<nat>)
    requires Handles(segs, w)
  {
    forall a, b :: 0 <= a < b < |w| && StartsAtZero(segs[w[b]]) ==> segs[w[a]].offsetSet
  }

  lemma UnsetStaysBehind(segs: seq<Seg>, w: seq<nat>, slot: nat, i: nat)
    requires Handles(segs, w) && slot <= i < |w| && UnsetBehind(segs, w)
    ensures !StepsOver(segs, w, slot, i) && UnsetBehind(segs, SwapStep(segs, w, slot, i).0)
  {
    var r := SwapStep(segs, w, slot, i).0;
    if r != w {
      assert forall k :: 0 <= k <= i ==> segs[w[k]].offsetSet;
      assert forall k :: i < k < |w| ==> r[k] == w[k];
      forall a, b | 0 <= a < b < |r| && StartsAtZero(segs[r[b]]) ensures segs[r[a]].offsetSet {
        if a > i {
          assert r[a] == w[a] && r[b] == w[b];
        }
      }
    }
  }

  lemma {:induction false} UnsetBehindUpTo(segs: seq<Seg>, w: seq<nat>, n: nat)
    requires Handles(segs, w) && n <= |w| && UnsetBehind(segs, w)
    ensures NoneSteppedOver(segs, w, n) && UnsetBehind(segs, SwapUpTo(segs, w, n).0)
  {
    hide SwapStep, SwapUpTo, StepsOver, UnsetBehind;
    if n == 0 {
      SwapUpToFirst(segs, w);
    } else {
      UnsetBehindUpTo(segs, w, n - 1);
      SwapUpToNext(segs, w, n - 1);
      UnsetStaysBehind(segs, SwapUpTo(segs, w, n - 1).0, SwapUpTo(segs, w, n - 1).1, n - 1);
    }
  }

  /** Then the segments set to offset 0 become a prefix. */
  lemma ZerosArePrefix(segs: seq<Seg>, w: seq<nat>) returns (m: nat)
    requires Handles(segs, w) && UnsetBehind(segs, w)
    ensures ZeroPrefix(segs, SwapUpTo(segs, w, |w|).0, m)
  {
    UnsetBehindUpTo(segs, w, |w|);
    ZerosArePrefixExactly(segs, w);
    m :| ZeroPrefix(segs, SwapUpTo(segs, w, |w|).0, m);
  }

  /** A caller that uses the iterators of the segment list to put a new segment in front of one at offset 0 gets the
      new one first. */
  lemma RearrangedSegmentStaysInFront(zero: Seg, newSeg: Seg)
    requires StartsAtZero(zero) && !newSeg.offsetSet && newSeg.offset == 0
    ensures SwapUpTo([newSeg, zero], [0, 1], 2).0 == [0, 1] && !NoneSteppedOver([newSeg, zero], [0, 1], 2)
  {
    var segs := [newSeg, zero];
    SwapUpToFirst(segs, [0, 1]);
    SwapUpToNext(segs, [0, 1], 0);
    SwapUpToNext(segs, [0, 1], 1);
    assert SwapUpTo(segs, [0, 1], 1) == ([0, 1], 0);
    assert StepsOver(segs, SwapUpTo(segs, [0, 1], 1).0, SwapUpTo(segs, [0, 1], 1).1, 1);
  }

  // ---------------------------------------------------------------- together

  function Handle(n: nat): seq<nat> { seq(n, i => i) }

  /** The order of `get_ordered_segments`. */
  function Ordered(segs: seq<Seg>): (r: seq<nat>)
    ensures multiset(r) == multiset(Handle(|segs|))
  {
    Drain(segs, SwapUpTo(segs, Handle(|segs|), |segs|).0)
  }

  lemma {:induction false} HandleCount(n: nat, x: nat)
    ensures multiset(Handle(n))[x] == if x < n then 1 else 0
  {
    if n > 0 {
      assert Handle(n) == Handle(n - 1) + [n - 1];
      HandleCount(n - 1, x);
    }
  }

  /** The order takes every segment exactly once, and none before a segment that contains it. */
  lemma OrderedIsComplete(segs: seq<Seg>)
    ensures forall s :: 0 <= s < |segs| ==> s in Ordered(segs)
    ensures forall a, b :: 0 <= a < b < |Ordered(segs)| ==> Ordered(segs)[a] != Ordered(segs)[b]
    ensures Handles(segs, Ordered(segs)) && WidestFirst(segs, Ordered(segs))
  {
    var r := Ordered(segs);
    SameHandles(segs, Handle(|segs|), r);
    DrainOrders(segs, SwapUpTo(segs, Handle(|segs|), |segs|).0);
    forall s | 0 <= s < |segs| ensures s in r {
      HandleCount(|segs|, s);
      assert s in multiset(r);
    }
    forall a, b | 0 <= a < b < |r| ensures r[a] != r[b] {
      if r[a] == r[b] {
        HandleCount(|segs|, r[a]);
        TwiceCounted(r, a, b);
      }
    }
  }

  lemma TwiceCounted(r: seq<nat>, a: nat, b: nat)
    requires a < b < |r| && r[a] == r[b]
    ensures multiset(r)[r[a]] >= 2
  {
    assert r == r[..b] + [r[b]] + r[b + 1..];
    assert r[a] in r[..b];
    assert multiset(r) == multiset(r[..b]) + multiset{r[b]} + multiset(r[b + 1..]);
  }

  lemma {:induction false} CountedLength(s: seq<nat>)
    ensures |multiset(s)| == |s|
  {
    if s != [] {
      assert s == [s[0]] + s[1..];
      CountedLength(s[1..]);
    }
  }

  lemma FewerIsShorter(a: seq<nat>, b: seq<nat>)
    requires multiset(a) < multiset(b)
    ensures |a| < |b|
  {
    CountedLength(a);
    CountedLength(b);
    var more := multiset(b) - multiset(a);
    assert multiset(b) == multiset(a) + more;
    assert more != multiset{};
  }

  /** With ascending section lists no segment is laid out before one whose list strictly includes its own. */
  lemma ContainersFirst(segs: seq<Seg>, a: nat, b: nat)
    requires a < b < |Ordered(segs)| && forall s :: 0 <= s < |segs| ==> Ascending(segs[s].secs)
    ensures Handles(segs, Ordered(segs))
    ensures !(multiset(segs[Ordered(segs)[a]].secs) < multiset(segs[Ordered(segs)[b]].secs))
  {
    hide Includes, Ordered, Ascending;
    OrderedIsComplete(segs);
    var inner, outer := segs[Ordered(segs)[a]], segs[Ordered(segs)[b]];
    assert !InsideOf(inner, outer);
    IncludesIsInclusion(outer.secs, inner.secs);
    if multiset(inner.secs) < multiset(outer.secs) {
      FewerIsShorter(inner.secs, outer.secs);
    }
  }

  // ---------------------------------------------------------------- segments that have no reason to move

  ghost predicate NoneInside(segs: seq<Seg>) {
    forall a, b :: 0 <= a < |segs| && 0 <= b < |segs| ==> !InsideOf(segs[a], segs[b])
  }

  lemma {:induction false} NothingWaits(segs: seq<Seg>, w: seq<nat>)
    requires Handles(segs, w) && NoneInside(segs)
    ensures Drain(segs, w) == w
    decreases |w|
  {
    hide Waits, NoneInside, FirstWidest;
    if w != [] {
      FrontIsFree(segs, w);
      NothingWaits(segs, w[1..]);
      assert w == [w[0]] + w[1..];
    }
  }

  lemma FrontIsFree(segs: seq<Seg>, w: seq<nat>)
    requires Handles(segs, w) && NoneInside(segs) && w != []
    ensures !Waits(segs, w)
  {
    hide InsideOf;
  }

  lemma {:induction false} NothingSwapped(segs: seq<Seg>, w: seq<nat>, n: nat)
    requires Handles(segs, w) && n <= |w| && forall k :: 0 <= k < |segs| ==> !StartsAtZero(segs[k])
    ensures SwapUpTo(segs, w, n).0 == w
  {
    if n > 0 {
      NothingSwapped(segs, w, n - 1);
    }
  }

  /** Where no segment contains another and none was set to offset 0, the segments are taken in the order of the file. */
  lemma OrderIsKept(segs: seq<Seg>)
    requires NoneInside(segs) && forall k :: 0 <= k < |segs| ==> !StartsAtZero(segs[k])
    ensures |Ordered(segs)| == |segs| && forall k :: 0 <= k < |segs| ==> Ordered(segs)[k] == k
  {
    hide SwapUpTo, Drain, StartsAtZero;
    var w := Handle(|segs|);
    NothingSwapped(segs, w, |w|);
    NothingWaits(segs, w);
  }
}
