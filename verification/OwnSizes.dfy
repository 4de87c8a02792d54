/** The sizes of a segment that places its sections itself, exactly: what each section adds to the file size and to the
    memory size. */
module OwnSizes {
  import opened Words
  import opened LayoutModel
  import opened LayoutFacts
  import opened SegmentFacts
  import opened SelfPlaced
  import opened SegmentResult
  import opened SegmentOrder
  import opened LayoutSteps
  import opened LayoutTheorems
  import opened Turns

  /** A section counts towards the memory of a segment of type `ptype` when it has the flag SHF_ALLOC (0x2); but a
      thread-local (0x400) section without file bytes (type 8) only in a segment of type PT_TLS (7). */
  predicate InMemory(ptype: nat, flags: nat, stype: nat) {
    flags / 2 % 2 == 1 && (flags / 0x400 % 2 == 0 || stype != 8 || ptype == 7)
  }

  /** The bytes that the entries of `owner` add to the file size: size and padding of every section with file bytes. */
  function FileSum(secs0: seq<Sec>, log: seq<Place>, owner: int): int {
    if log == [] then 0
    else
      var e := log[|log| - 1];
      FileSum(secs0, log[..|log| - 1], owner)
      + if e.owner == owner && e.sec < |secs0| && secs0[e.sec].stype != 8 then secs0[e.sec].size + e.pad else 0
  }

  /** The bytes that they add to the memory size. */
  function MemorySum(secs0: seq<Sec>, ptype: nat, log: seq<Place>, owner: int): int {
    if log == [] then 0
    else
      var e := log[|log| - 1];
      MemorySum(secs0, ptype, log[..|log| - 1], owner)
      + if e.owner == owner && e.sec < |secs0| && InMemory(ptype, secs0[e.sec].flags, secs0[e.sec].stype) then secs0[e.sec].size + e.pad else 0
  }

  lemma SumsAppend(secs0: seq<Sec>, ptype: nat, log: seq<Place>, owner: int, e: Place)
    requires e.owner == owner && e.sec < |secs0|
    ensures FileSum(secs0, log + [e], owner)
         == FileSum(secs0, log, owner) + if secs0[e.sec].stype != 8 then secs0[e.sec].size + e.pad else 0
    ensures MemorySum(secs0, ptype, log + [e], owner) == MemorySum(secs0, ptype, log, owner)
              + if InMemory(ptype, secs0[e.sec].flags, secs0[e.sec].stype) then secs0[e.sec].size + e.pad else 0
  {
    assert (log + [e])[..|log + [e]| - 1] == log;
  }

  /** Entries of others add nothing. */
  lemma {:induction false} SumsOfPrefix(secs0: seq<Sec>, ptype: nat, log: seq<Place>, log': seq<Place>, owner: int)
    requires |log| <= |log'| && log'[..|log|] == log && forall k :: |log| <= k < |log'| ==> log'[k].owner != owner
    ensures FileSum(secs0, log', owner) == FileSum(secs0, log, owner)
    ensures MemorySum(secs0, ptype, log', owner) == MemorySum(secs0, ptype, log, owner)
    decreases |log'|
  {
    if |log| == |log'| {
      assert log' == log;
    } else {
      var init := log'[..|log'| - 1];
      assert init[..|log|] == log;
      SumsOfPrefix(secs0, ptype, log, init, owner);
    }
  }

  /** Started with sizes `file0` and `mem0` and nothing placed, the run has these sizes. */
  ghost predicate Counted(secs0: seq<Sec>, ptype: nat, owner: int, r: Run, file0: int, mem0: int) {
    && r.file == (file0 + FileSum(secs0, r.log, owner)) % W64
    && r.mem == (mem0 + MemorySum(secs0, ptype, r.log, owner)) % W64
  }

  lemma AddCounted(sum: int, more: int)
    ensures Add64(sum % W64, more) == (sum + more) % W64
  {
  }

  lemma AddTwice(a: int, size: int, pad: int)
    ensures Add64(a, Add64(size, pad)) == (a + size + pad) % W64
  {
    var q := (size + pad) / W64;
    assert Add64(size, pad) == size + pad - q * W64;
    assert a + Add64(size, pad) == (a + size + pad) + (-q) * W64;
    Shifted(a + size + pad, -q);
  }

  lemma Shifted(v: int, q: int)
    ensures (v + q * W64) % W64 == v % W64
  {
  }

  lemma SameMemoryRule(seg: Seg, sec: Sec)
    ensures TakesMemory(seg, sec) == InMemory(seg.ptype, sec.flags, sec.stype)
  {
  }

  lemma PlaceOneCounted(wide: bool, secs0: seq<Sec>, seg: Seg, owner: int, r: Run, index: nat, file0: int, mem0: int)
    requires index < |r.secs| == |r.gen| == |secs0| && r.secs[index] == secs0[index] && secs0[index].stype != SHT_NULL && !r.gen[index]
    requires PlaceOne(wide, seg, owner, r, index).Some? && Counted(secs0, seg.ptype, owner, r, file0, mem0)
    ensures Counted(secs0, seg.ptype, owner, PlaceOne(wide, seg, owner, r, index).value, file0, mem0)
  {
    hide PlaceOne, Add64, TakesMemory, InMemory, FileSum, MemorySum;
    var at, r' := PlaceOneSizes(wide, seg, owner, r, index);
    var e := Place(index, owner, at, FileLen(secs0[index]), at - r.total);
    SameMemoryRule(seg, secs0[index]);
    SumsAppend(secs0, seg.ptype, r.log, owner, e);
    AddTwice(r.file, secs0[index].size, e.pad);
    AddTwice(r.mem, secs0[index].size, e.pad);
    AddCounted(file0 + FileSum(secs0, r.log, owner), secs0[index].size + e.pad);
    AddCounted(mem0 + MemorySum(secs0, seg.ptype, r.log, owner), secs0[index].size + e.pad);
    PlainSum(r.file, secs0[index].size, e.pad);
    PlainSum(r.mem, secs0[index].size, e.pad);
  }

  lemma PlainSum(a: int, size: int, pad: int)
    ensures Add64(a, size + pad) == (a + size + pad) % W64
  {
  }

  /** A run that places all sections of the list counts each of them. */
  lemma {:induction false} PlaceUpToCounted(wide: bool, secs0: seq<Sec>, lo: nat, seg: Seg, owner: int, r: Run, n: nat, file0: int, mem0: int)
    requires RunSound(wide, secs0, lo, r) && PlacesAll(secs0, r.gen, seg.secs) && n <= |seg.secs|
    requires PlaceUpTo(wide, seg, owner, r, n).Some? && Counted(secs0, seg.ptype, owner, r, file0, mem0)
    ensures Counted(secs0, seg.ptype, owner, PlaceUpTo(wide, seg, owner, r, n).value, file0, mem0)
  {
    hide PlaceOne, Counted, RunSound;
    if n > 0 {
      var r1 := NextIsFree(wide, secs0, lo, seg, owner, r, n);
      var index := seg.secs[n - 1];
      PlaceUpToCounted(wide, secs0, lo, seg, owner, r, n - 1, file0, mem0);
      if secs0[index].stype == SHT_NULL {
        NullChangesNothing(wide, seg, owner, r1, index);
        FlagsDoNotCount(secs0, seg.ptype, owner, r1, r1.gen[index := true], file0, mem0);
      } else {
        PlaceOneCounted(wide, secs0, seg, owner, r1, index, file0, mem0);
      }
    }
  }

  lemma FlagsDoNotCount(secs0: seq<Sec>, ptype: nat, owner: int, r: Run, gen: seq<bool>, file0: int, mem0: int)
    requires Counted(secs0, ptype, owner, r, file0, mem0)
    ensures Counted(secs0, ptype, owner, r.(gen := gen), file0, mem0)
  {
  }

  lemma {:induction false} NothingCounted(secs0: seq<Sec>, ptype: nat, log: seq<Place>, owner: int)
    requires NoEntryOf(log, owner)
    ensures FileSum(secs0, log, owner) == 0 && MemorySum(secs0, ptype, log, owner) == 0
  {
    if log != [] {
      NothingCounted(secs0, ptype, log[..|log| - 1], owner);
    }
  }

  /** The sizes that a segment brings along: those in front of it at offset 0, otherwise none. */
  function Brought(seg0: Seg, position: nat): nat {
    if seg0.offsetSet && seg0.offset == 0 then position else 0
  }

  lemma SizesTurn(h: Header, secs0: seq<Sec>, lo: nat, p: Plan, i: nat)
    requires PlanSound(h.wide, secs0, lo, p) && i < |p.segs| && InRange(p.segs, |p.secs|)
    requires NoEntryOf(p.log, i) && LayoutSegment(h, p, i).Some? && LayoutSegment(h, p, i).value.total < Modulus(h.wide)
    requires PlacedItself(LayoutSegment(h, p, i).value.secs, p.segs[i], LayoutSegment(h, p, i).value.log, i)
    ensures var p', seg0 := LayoutSegment(h, p, i).value, p.segs[i];
      var mem := (Brought(seg0, p.total) + MemorySum(secs0, seg0.ptype, p'.log, i)) % W64;
      && p'.segs[i].filesz == Trunc(h.wide, (Brought(seg0, p.total) + FileSum(secs0, p'.log, i)) % W64)
      && p'.segs[i].memsz == if seg0.memsz < mem then Trunc(h.wide, mem) else seg0.memsz
  {
    hide PlaceUpTo, StartRun, FileSum, MemorySum, Tight, InOrder, PlacesAll, Sound, StartsAtZero;
    var seg := p.segs[i];
    var r0, r := SegmentRunHolds(h, secs0, lo, p, i);
    SelfPlacedStart(h, secs0, lo, p, i, r0, r);
    StartRunSame(h, p, seg);
    NothingCounted(secs0, seg.ptype, p.log, i);
    OwnStart(h, secs0, lo, p, i, r0, r);
    PlaceUpToCounted(h.wide, secs0, lo, seg, i, r0, |seg.secs|, r0.file, r0.mem);
  }

  lemma OwnStart(h: Header, secs0: seq<Sec>, lo: nat, p: Plan, i: nat, r0: Run, r: Run)
    requires SegmentRun(h, secs0, lo, p, i, r0, r) && r.total < Modulus(h.wide) && PlacedItself(r.secs, p.segs[i], r.log, i)
    requires PlacesAll(secs0, r0.gen, p.segs[i].secs) && |secs0| == |r.secs|
    ensures r0.file == r0.mem == Brought(p.segs[i], p.total)
  {
    hide PlaceUpTo, StartRun, Chained, Once, Recorded, Restrained;
    var seg := p.segs[i];
    StartRunSame(h, p, seg);
    TruncSmall(h.wide, p.total);
    if StartsAtZero(seg) {
      ZeroStart(h, p, seg);
    } else {
      assert SameButPlace(secs0[seg.secs[0]], r.secs[seg.secs[0]]);
      FreshStart(h, p, seg);
    }
  }

  lemma SumsKept(secs0: seq<Sec>, ptype: nat, p: Plan, q: Plan, s: nat)
    requires Kept(p, q, s)
    ensures FileSum(secs0, q.log, s) == FileSum(secs0, p.log, s) && MemorySum(secs0, ptype, q.log, s) == MemorySum(secs0, ptype, p.log, s)
  {
    hide FileSum, MemorySum;
    SumsOfPrefix(secs0, ptype, p.log, q.log, s);
  }

  /** In the finished file, the sizes of a segment that placed all its sections itself are what these sections and the
      bytes skipped in front of them add up to; a larger memory size given before stays. A thread-local section without
      file bytes adds to the memory of a PT_TLS segment only. */
  lemma OwnSizesExactly(h: Header, secs: seq<Sec>, segs: seq<Seg>, n: nat) returns (position: nat)
    requires InRange(segs, |secs|) && FileLayout(h, secs, segs).Some? && n < |Ordered(Raised(secs, segs))|
    requires FileLayout(h, secs, segs).value.plan.total < Modulus(h.wide)
    requires var q, s := FileLayout(h, secs, segs).value.plan, Ordered(Raised(secs, segs))[n];
      && s < |segs| && |q.secs| == |secs| && |q.segs| == |segs| && PlacedItself(q.secs, Raised(secs, segs)[s], q.log, s)
    ensures OrderHandles(segs, Ordered(Raised(secs, segs)))
    ensures SegmentsUpTo(h, StartPlan(h, secs, segs), Ordered(Raised(secs, segs)), n).Some?
    ensures position == SegmentsUpTo(h, StartPlan(h, secs, segs), Ordered(Raised(secs, segs)), n).value.total
    ensures var q, s := FileLayout(h, secs, segs).value.plan, Ordered(Raised(secs, segs))[n];
      var mem := (Brought(segs[s], position) + MemorySum(secs, segs[s].ptype, q.log, s)) % W64;
      && q.segs[s].filesz == Trunc(h.wide, (Brought(segs[s], position) + FileSum(secs, q.log, s)) % W64)
      && q.segs[s].memsz == if segs[s].memsz < mem then Trunc(h.wide, mem) else segs[s].memsz
  {
    hide FileLayout, LayoutSegment, Ordered, RaiseAlign, Sound, FlagsAgree, Once, HeadersEnd, StartPlan, SegmentsUpTo,
         FileSum, MemorySum, PlacedItself;
    var raised := Raised(secs, segs);
    var s := Ordered(raised)[n];
    var p := TurnOf(h, secs, segs, n);
    position := p.total;
    var p', q := LayoutSegment(h, p, s).value, FileLayout(h, secs, segs).value.plan;
    FileIsSound(h, secs, segs);
    EntriesKept(p', q, s);
    SumsKept(secs, raised[s].ptype, p', q, s);
    SameLists(h, p, s);
    OwnedSame(p'.secs, q.secs, raised[s], p'.log, q.log, s);
    SizesTurn(h, secs, HeadersEnd(h, segs), p, s);
  }

  lemma OwnedSame(secs: seq<Sec>, secs': seq<Sec>, seg0: Seg, log: seq<Place>, log': seq<Place>, s: int)
    requires SameOnList(secs, secs', seg0.secs) && SameEntries(log, log', s)
    ensures PlacedItself(secs, seg0, log, s) == PlacedItself(secs', seg0, log', s)
  {
    hide Owns;
    ImageSame(secs, secs', seg0, seg0);
  }
}
