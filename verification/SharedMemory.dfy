/** How much memory a segment claims whose sections other segments placed: the exact law, and when it is at least
    the file size. */
module SharedMemory {
  import opened Words
  import opened LayoutModel
  import opened LayoutFacts
  import opened SegmentFacts
  import opened SegmentResult
  import opened LayoutSteps

  /** What the sections without file bytes among the first `n` add to the memory size beyond the file size: each
      reaches from the end of the file-backed section in front of it to its own end, which may lie before that. */
  function Surplus(secs: seq<Sec>, seg: Seg, n: nat, none: int): int
    requires n <= |seg.secs| && ListInRange(seg.secs, |secs|)
  {
    if n == 0 then 0
    else
      var sec := secs[seg.secs[n - 1]];
      Surplus(secs, seg, n - 1, none)
      + if sec.stype == SHT_NOBITS && TakesMemory(seg, sec) then sec.offset + sec.size - LastEnd(secs, seg.secs, n - 1, none) else 0
  }

  lemma AddResidues(a: int, b: int)
    ensures (a % W64 + b) % W64 == (a + b) % W64
  {
    TruncDiffWide(a, -b);
  }

  lemma AddPad(sum: Word64, size: Word64, offset: Word64, start: Word64, file: Word64)
    ensures Add64(sum, Add64(size, Sub64(Sub64(offset, start), file))) == (sum + size + offset - start - file) % W64
  {
    var a := Sub64(offset, start);
    var b := Sub64(a, file);
    TruncDiffWide(offset - start, file);
    assert b == (offset - start - file) % W64;
    var c := Add64(size, b);
    AddResidues(offset - start - file, size);
    assert c == (offset - start - file + size) % W64;
    AddResidues(offset - start - file + size, sum);
  }

  lemma SameDistance(file: int, surplus: int, d: int)
    ensures ((file + surplus) % W64 + d) % W64 == ((file + d) % W64 + surplus) % W64
  {
    AddResidues(file + surplus, d);
    AddResidues(file + d, surplus);
  }

  /** One more section that was placed before. */
  lemma SurplusStep(wide: bool, seg: Seg, owner: int, r: Run, index: nat, end: int, surplus: int)
    requires index < |r.secs| == |r.gen| && r.secs[index].stype != SHT_NULL && r.gen[index]
    requires Backed(r.secs[index]) ==> HasBit(r.secs[index].flags, SHF_ALLOC)
    requires r.file == end - r.start && r.mem == (r.file + surplus) % W64
    ensures PlaceOne(wide, seg, owner, r, index).Some?
    ensures var r', sec := PlaceOne(wide, seg, owner, r, index).value, r.secs[index];
      var more := if sec.stype == SHT_NOBITS && TakesMemory(seg, sec) then sec.offset + sec.size - end else 0;
      r'.mem == (r'.file + (surplus + more)) % W64
  {
    hide HasBit, Add64, Sub64;
    var sec := r.secs[index];
    AddPad(r.mem, sec.size, sec.offset, r.start, r.file);
    AddPad(r.file, sec.size, sec.offset, r.start, r.file);
    var d := sec.size + sec.offset - r.start - r.file;
    if Backed(sec) {
      assert TakesMemory(seg, sec);
      SameDistance(r.file, surplus, d);
    } else if TakesMemory(seg, sec) {
      AddResidues(r.file + surplus, d);
    }
  }

  /** A run over sections that others placed, started with equal sizes: memory size and file size differ by the
      surplus, modulo 2^64. */
  lemma {:induction false} PlaceUpToSurplus(wide: bool, seg: Seg, owner: int, r: Run, n: nat)
    requires n <= |seg.secs| && AllPlaced(r.secs, r.gen, seg.secs) && EndsAscend(r.secs, seg.secs, r.start)
    requires BackedAreAlloc(r.secs, seg.secs) && r.file == r.mem
    ensures PlaceUpTo(wide, seg, owner, r, n).Some?
    ensures var r' := PlaceUpTo(wide, seg, owner, r, n).value;
      r'.mem == (r'.file + Surplus(r.secs, seg, n, r.start + r.file)) % W64
  {
    hide PlaceOne, EndsAscend, LastEnd, HasBit;
    PlaceUpToPlaced(wide, seg, owner, r, n);
    if n > 0 {
      PlaceUpToSurplus(wide, seg, owner, r, n - 1);
      PlaceUpToPlaced(wide, seg, owner, r, n - 1);
      var r1 := PlaceUpToUnfold(wide, seg, owner, r, n);
      var index := seg.secs[n - 1];
      if r.secs[index].stype == SHT_NULL {
        NullKeepsSizes(wide, seg, owner, r1, index);
      } else {
        SurplusStep(wide, seg, owner, r1, index, LastEnd(r.secs, seg.secs, n - 1, r.start + r.file),
                    Surplus(r.secs, seg, n - 1, r.start + r.file));
      }
    }
  }

  lemma NullKeepsSizes(wide: bool, seg: Seg, owner: int, r: Run, index: nat)
    requires index < |r.secs| == |r.gen| && r.secs[index].stype == SHT_NULL
    ensures PlaceOne(wide, seg, owner, r, index).Some?
    ensures PlaceOne(wide, seg, owner, r, index).value == r.(gen := r.gen[index := true])
  {
  }

  lemma {:induction false} LastEndSame(secs: seq<Sec>, secs': seq<Sec>, list: seq<nat>, n: nat, none: int)
    requires SameOnList(secs, secs', list) && n <= |list|
    ensures LastEnd(secs, list, n, none) == LastEnd(secs', list, n, none)
  {
    if n > 0 {
      LastEndSame(secs, secs', list, n - 1, none);
    }
  }

  lemma {:induction false} SurplusSame(secs: seq<Sec>, secs': seq<Sec>, seg: Seg, n: nat, none: int)
    requires SameOnList(secs, secs', seg.secs) && n <= |seg.secs|
    ensures Surplus(secs, seg, n, none) == Surplus(secs', seg, n, none)
  {
    hide TakesMemory, LastEnd;
    if n > 0 {
      SurplusSame(secs, secs', seg, n - 1, none);
      LastEndSame(secs, secs', seg.secs, n - 1, none);
    }
  }

  /** The larger of the old memory size and the computed one is at least the file size. */
  predicate EnoughMemory(wide: bool, old': int, file: int, surplus: int) {
    var mem := (file + surplus) % W64;
    if mem < Modulus(wide) then file <= old' || file <= mem else file <= mem % Modulus(wide)
  }

  /** As long as nothing wraps around: the surplus is not negative, or the old size is large enough. */
  lemma EnoughWithoutWrap(wide: bool, old': int, file: int, surplus: int)
    requires 0 <= file + surplus < Modulus(wide)
    ensures EnoughMemory(wide, old', file, surplus) <==> surplus >= 0 || file <= old'
  {
  }

  /** What stands for the end of the file-backed section in front of the first one: the segment's start, or the file
      position for a segment at offset 0. */
  function Reached(secs: seq<Sec>, seg0: Seg, position: nat): nat
    requires |seg0.secs| > 0 && seg0.secs[0] < |secs|
  {
    if StartsAtZero(seg0) then position else SharedStart(secs, seg0)
  }

  lemma MaxMemory(wide: bool, seg: Seg, r: Run, surplus: int)
    requires r.mem == (r.file + surplus) % W64 && r.file < Modulus(wide) && seg.memsz < Modulus(wide)
    ensures FinishSegment(wide, seg, r).filesz == r.file
    ensures FinishSegment(wide, seg, r).filesz <= FinishSegment(wide, seg, r).memsz
            <==> EnoughMemory(wide, seg.memsz, r.file, surplus)
  {
    TruncSmall(wide, r.file);
    if r.mem < Modulus(wide) {
      TruncSmall(wide, r.mem);
    }
  }

  /** When its turn comes, a segment whose sections others placed claims at least as much memory as file bytes if and
      only if the surplus says so. */
  lemma SharedMemoryTurn(h: Header, secs0: seq<Sec>, lo: nat, p: Plan, i: nat)
    requires PlanSound(h.wide, secs0, lo, p) && i < |p.segs| && InRange(p.segs, |p.secs|)
    requires NoEntryOf(p.log, i) && LayoutSegment(h, p, i).Some? && LayoutSegment(h, p, i).value.total < Modulus(h.wide)
    requires p.segs[i].memsz < Modulus(h.wide)
    requires var p' := LayoutSegment(h, p, i).value;
      PlacedByOthers(p'.secs, p.segs[i], p'.log, i) && BackedAreAlloc(p'.secs, p.segs[i].secs)
    ensures var p', seg0 := LayoutSegment(h, p, i).value, p.segs[i];
      var n, reached := |seg0.secs|, Reached(p'.secs, seg0, p.total);
      && p'.segs[i].filesz == LastEnd(p'.secs, seg0.secs, n, reached) - SharedStart(p'.secs, seg0)
      && (p'.segs[i].filesz <= p'.segs[i].memsz
          <==> EnoughMemory(h.wide, seg0.memsz, p'.segs[i].filesz, Surplus(p'.secs, seg0, n, reached)))
  {
    hide PlaceUpTo, StartRun, Sound, FinishSegment, EnoughMemory, EndsAscend, HasBit, Regular;
    var seg := p.segs[i];
    var r0, r := SegmentRunHolds(h, secs0, lo, p, i);
    StartRunSame(h, p, seg);
    SharedSetting(h, secs0, lo, p, i, r0, r);
    SharedReached(h, secs0, lo, p, i, r0, r);
    SharedSizes(h.wide, seg, i, r0, r);
    MaxMemory(h.wide, seg, r, Surplus(r.secs, seg, |seg.secs|, r0.start + r0.file));
  }

  lemma SharedReached(h: Header, secs0: seq<Sec>, lo: nat, p: Plan, i: nat, r0: Run, r: Run)
    requires SegmentRun(h, secs0, lo, p, i, r0, r) && r.total < Modulus(h.wide)
    requires PlacedByOthers(r.secs, p.segs[i], r.log, i)
    ensures r0.start + r0.file == Reached(r.secs, p.segs[i], p.total)
  {
    hide PlaceUpTo, StartRun, Sound, EndsAscend;
    SharedSetting(h, secs0, lo, p, i, r0, r);
    StartRunSame(h, p, p.segs[i]);
    if StartsAtZero(p.segs[i]) {
      ZeroStart(h, p, p.segs[i]);
      TruncSmall(h.wide, p.total);
    }
  }

  lemma SharedSizes(wide: bool, seg: Seg, i: nat, r0: Run, r: Run)
    requires AllPlaced(r0.secs, r0.gen, seg.secs) && SameOnList(r0.secs, r.secs, seg.secs)
    requires PlaceUpTo(wide, seg, i, r0, |seg.secs|) == Some(r) && EndsAscend(r.secs, seg.secs, r0.start)
    requires BackedAreAlloc(r.secs, seg.secs) && r0.file == r0.mem && r0.start + r0.file <= r.total
    requires forall k :: 0 <= k < |seg.secs| && Backed(r.secs[seg.secs[k]]) ==>
               r.secs[seg.secs[k]].offset + r.secs[seg.secs[k]].size <= r.total
    ensures r.mem == (r.file + Surplus(r.secs, seg, |seg.secs|, r0.start + r0.file)) % W64
    ensures r.file == LastEnd(r.secs, seg.secs, |seg.secs|, r0.start + r0.file) - r0.start && r.file <= r.total
  {
    hide PlaceUpTo, EndsAscend, HasBit, LastEnd;
    EndsSame(r0.secs, r.secs, seg.secs, r0.start);
    PlaceUpToSurplus(wide, seg, i, r0, |seg.secs|);
    PlaceUpToPlaced(wide, seg, i, r0, |seg.secs|);
    SurplusSame(r0.secs, r.secs, seg, |seg.secs|, r0.start + r0.file);
    LastEndSame(r0.secs, r.secs, seg.secs, |seg.secs|, r0.start + r0.file);
    LastEndBounded(r.secs, seg.secs, |seg.secs|, r0.start, r0.start + r0.file, r.total);
  }
}
