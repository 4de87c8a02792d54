/** What `load_segments` makes of the section lists of a saved object. */
module Reload {
  import opened Words
  import L = LayoutModel
  import LF = LayoutFacts
  import LT = LayoutTheorems
  import SF = SegmentFacts
  import SR = SegmentResult
  import SelfPlaced
  import Resave
  import opened Bytes
  import opened FileImage
  import opened FileLoad
  import opened SaveFile

  /** A section at the same distance from its segment's address as from its offset, within `span` bytes, is found by
      its address. */
  lemma FoundByAddress(wide: bool, sec: L.Sec, vaddr: Word64, offset: Word64, span: Word64)
    requires SF.Corresponds(wide, sec, vaddr, offset) && sec.size > 0
    requires offset <= sec.offset && sec.offset - offset + sec.size <= span && vaddr + span < Modulus(wide)
    requires sec.addr < Modulus(wide) && sec.offset < Modulus(wide)
    ensures sec.addr == vaddr + sec.offset - offset
    ensures IsSectInSeg(sec.addr, sec.size, vaddr, (vaddr + span) % W64)
  {
    var d := sec.offset - offset;
    DistanceKept(wide, d);
    DistanceKept(wide, sec.addr - vaddr);
    SmallResidue(vaddr + span);
    SmallResidue(sec.addr + sec.size);
  }

  lemma DistanceKept(wide: bool, d: int)
    requires -Modulus(wide) <= d < Modulus(wide)
    ensures Trunc(wide, d) == if d >= 0 then d else d + Modulus(wide)
  {
  }

  lemma SmallResidue(v: int)
    requires 0 <= v < W64
    ensures v % W64 == v
  {
  }

  /** A section that the file image covers is found by its offset. */
  lemma FoundByOffset(sec: L.Sec, offset: Word64, span: Word64)
    requires sec.size > 0 && offset <= sec.offset && sec.offset + sec.size <= offset + span < W64
    ensures IsSectInSeg(sec.offset, sec.size, offset, (offset + span) % W64)
  {
  }

  /** Section `i` of segment `s` can be found again: a section of the memory image was placed by this segment, with a
      position that its address decides or follows, and the memory image covers it; any other one has file bytes that
      the file image covers. Neither image wraps around. */
  ghost predicate Findable(m: InMemory, d: L.Done, s: nat, i: nat)
    requires |m.o.ident| == IDENT_SIZE && |m.addrSet| == |m.o.sections|
    requires |d.plan.secs| == |m.o.sections| && |d.plan.segs| == |m.o.segments|
    requires s < |m.o.segments| && i < |m.o.sections|
  {
    var sec, seg, wide := d.plan.secs[i], d.plan.segs[s], IsWide(m.o.ident);
    if HasBit(sec.flags, L.SHF_ALLOC) then
      && LF.Owns(d.plan.log, s, i) && SF.AddressMatters(Secs(m)[i])
      && SR.ListInRange(seg.secs, |d.plan.secs|) && SR.MemoryCovers(d.plan.secs, seg)
      && seg.vaddr + seg.memsz < Modulus(wide)
    else
      && SF.Backed(sec)
      && SR.ListInRange(seg.secs, |d.plan.secs|) && SR.Covers(d.plan.secs, seg)
      && seg.offset + seg.filesz < W64
  }

  /** What layout says about one section of one segment. */
  lemma LaidOutSection(m: InMemory, s: nat, i: nat)
    requires Usable(m) && L.InRange(Segs(m), |Secs(m)|) && LaidOut(m).Some?
    requires s < |m.o.segments| && 0 < i < |m.o.sections|
    ensures var q := LaidOut(m).value.plan;
      && |q.secs| == |m.o.sections| && |q.segs| == |m.o.segments|
      && q.segs[s].secs == m.lists[s] && q.segs[s].vaddr == Small(m.o.segments[s].vaddr)
      && LF.SameButPlace(Secs(m)[i], q.secs[i]) && (LF.FitsClass(IsWide(m.o.ident), Secs(m)[i]) ==> LF.FitsClass(IsWide(m.o.ident), q.secs[i]))
      && (LF.Owns(q.log, s, i) && SF.AddressMatters(Secs(m)[i]) ==>
            SF.Corresponds(IsWide(m.o.ident), q.secs[i], q.segs[s].vaddr, q.segs[s].offset))
  {
    hide Usable, L.RaiseAlign, LT.FileLayout, SF.Corresponds, SR.OwnImage, SR.SharedImage, SR.LoaderCongruent, LF.Sound, SF.AddressMatters;
    IdentSize(m);
    LayoutResult(m);
    LT.LayoutSegmentsDone(Head(m), Secs(m), Segs(m), s);
    var q := LaidOut(m).value.plan;
    if LF.Owns(q.log, s, i) && SF.AddressMatters(Secs(m)[i]) {
      var k :| 0 <= k < |q.log| && q.log[k].sec == i && q.log[k].owner == s;
      assert SF.Corresponds(IsWide(m.o.ident), q.secs[q.log[k].sec], q.segs[s].vaddr, q.segs[s].offset);
    }
  }

  /** The headers of the laid-out object. */
  lemma AppliedHeaders(m: InMemory, d: L.Done, s: nat, i: nat)
    requires Usable(m) && |d.plan.secs| == |m.o.sections| && |d.plan.segs| == |m.o.segments|
    requires s < |m.o.segments| && i < |m.o.sections| && LF.SameButPlace(Secs(m)[i], d.plan.secs[i])
    requires d.plan.segs[s].vaddr == Small(m.o.segments[s].vaddr)
    ensures var h, g, sec, seg := Applied(m, d).sections[i].header, Applied(m, d).segments[s], d.plan.secs[i], d.plan.segs[s];
      && h.flags == sec.flags && h.addr == sec.addr && h.offset == sec.offset && h.size == sec.size
      && sec.size == m.o.sections[i].header.size && sec.stype == m.o.sections[i].header.stype
      && g.vaddr == seg.vaddr && g.memsz == seg.memsz && g.offset == seg.offset && g.filesz == seg.filesz
    ensures LF.FitsClass(IsWide(m.o.ident), Secs(m)[i])
  {
    hide NameOf, EhdrValues, EhdrWidths, ShdrValues, ShdrWidths, PhdrValues, PhdrWidths, Fits, EhdrSize, ShdrSize, PhdrSize;
    ShdrBounds(IsWide(m.o.ident), m.o.sections[i].header);
    PhdrBounds(IsWide(m.o.ident), m.o.segments[s]);
  }

  /** After saving and loading, a segment lists every non-empty section again that it listed before and that can be
      found. */
  lemma SectionsReturn(m: InMemory, s: nat, k: nat)
    requires Usable(m) && L.InRange(Segs(m), |Secs(m)|) && LaidOut(m).Some?
    requires LaidOut(m).value.plan.total < Modulus(IsWide(m.o.ident))
    requires |LaidOut(m).value.plan.secs| == |m.o.sections| && |LaidOut(m).value.plan.segs| == |m.o.segments|
    requires s < |m.o.segments| && k < |m.lists[s]| && 0 < m.lists[s][k] < |m.o.sections|
    requires Findable(m, LaidOut(m).value, s, m.lists[s][k])
    requires m.o.sections[m.lists[s][k]].header.stype != SHT_NULL && m.o.sections[m.lists[s][k]].header.size > 0
    ensures var saved := PutAll([], SaveWrites(Applied(m, LaidOut(m).value)));
      && Loaded(saved).Some? && s < |Loaded(saved).value.lists|
      && m.lists[s][k] in Loaded(saved).value.lists[s]
  {
    hide LaidOut, Applied, Loaded, PutAll, SaveWrites, Usable, Members, Load, SF.Corresponds, SF.AddressMatters;
    IdentSize(m);
    var d, wide, i := LaidOut(m).value, IsWide(m.o.ident), m.lists[s][k];
    SaveThenLoad(m);
    var o := Applied(m, d);
    LaidOutSection(m, s, i);
    AppliedHeaders(m, d, s, i);
    var sec, seg := d.plan.secs[i], d.plan.segs[s];
    assert sec.stype != SHT_NULL;
    if HasBit(sec.flags, L.SHF_ALLOC) {
      FoundByAddress(wide, sec, seg.vaddr, seg.offset, seg.memsz);
    } else {
      FoundByOffset(sec, seg.offset, seg.filesz);
    }
    assert BelongsTo(o.sections[i].header, o.segments[s]);
    MembersExactly(o.sections, o.segments[s], |o.sections|);
  }

  /** A segment of the memory image that placed all its sections itself. */
  ghost predicate MemorySegment(wide: bool, q: L.Plan, seg0: L.Seg, s: nat) {
    && s < |q.segs| && SR.ListInRange(seg0.secs, |q.secs|)
    && SR.PlacedItself(q.secs, seg0, q.log, s) && SF.AllTakeMemory(q.secs, seg0)
    && q.total + SF.NobitsBytes(q.secs, seg0.secs, |seg0.secs|) < Modulus(wide)
    && q.segs[s].vaddr + q.segs[s].memsz < Modulus(wide)
  }

  /** Such a segment gets every non-empty section back whose position its address decided or followed. */
  lemma MemorySegmentReturns(m: InMemory, s: nat, k: nat)
    requires Usable(m) && L.InRange(Segs(m), |Secs(m)|) && LaidOut(m).Some?
    requires LaidOut(m).value.plan.total < Modulus(IsWide(m.o.ident))
    requires s < |m.o.segments|
    requires MemorySegment(IsWide(m.o.ident), LaidOut(m).value.plan, L.Raised(Secs(m), Segs(m))[s], s)
    requires |LaidOut(m).value.plan.secs| == |m.o.sections| && |LaidOut(m).value.plan.segs| == |m.o.segments|
    requires k < |m.lists[s]| && 0 < m.lists[s][k] < |m.o.sections|
    requires m.o.sections[m.lists[s][k]].header.stype != SHT_NULL && m.o.sections[m.lists[s][k]].header.size > 0
    requires SF.AddressMatters(Secs(m)[m.lists[s][k]])
    ensures var saved := PutAll([], SaveWrites(Applied(m, LaidOut(m).value)));
      && Loaded(saved).Some? && s < |Loaded(saved).value.lists|
      && m.lists[s][k] in Loaded(saved).value.lists[s]
  {
    hide Applied, Loaded, PutAll, SaveWrites, LaidOut, Usable, SF.AddressMatters, L.RaiseAlign, MemorySegment, SR.MemoryCovers;
    IdentSize(m);
    var d, i := LaidOut(m).value, m.lists[s][k];
    LaidOutSection(m, s, i);
    AppliedHeaders(m, d, s, i);
    LaidOutSegment(m, s);
    MemoryHolds(IsWide(m.o.ident), Secs(m), d.plan, L.Raised(Secs(m), Segs(m))[s], s, k);
    SectionsReturn(m, s, k);
  }

  lemma LaidOutSegment(m: InMemory, s: nat)
    requires Usable(m) && L.InRange(Segs(m), |Secs(m)|) && LaidOut(m).Some? && s < |m.o.segments|
    ensures var q, seg0 := LaidOut(m).value.plan, L.Raised(Secs(m), Segs(m))[s];
      && |q.secs| == |m.o.sections| && |q.segs| == |m.o.segments|
      && SR.ListInRange(seg0.secs, |q.secs|) && seg0.secs == m.lists[s]
      && SR.SegmentDone(IsWide(m.o.ident), Secs(m), seg0, q.secs, q.segs[s], q.log, q.total, s)
  {
    hide Usable, L.RaiseAlign, LT.FileLayout, SR.SegmentDone;
    IdentSize(m);
    LT.LayoutSegmentsDone(Head(m), Secs(m), Segs(m), s);
  }

  /** The memory image of such a segment covers its sections, each of which it placed. */
  lemma MemoryHolds(wide: bool, secs0: seq<L.Sec>, q: L.Plan, seg0: L.Seg, s: nat, k: nat)
    requires s < |q.segs| && |secs0| == |q.secs| && SR.ListInRange(seg0.secs, |q.secs|) && q.total < Modulus(wide)
    requires SR.SegmentDone(wide, secs0, seg0, q.secs, q.segs[s], q.log, q.total, s) && MemorySegment(wide, q, seg0, s)
    requires k < |seg0.secs| && q.secs[seg0.secs[k]].stype != SHT_NULL
    ensures q.segs[s].secs == seg0.secs && SR.MemoryCovers(q.secs, q.segs[s])
    ensures q.segs[s].vaddr + q.segs[s].memsz < Modulus(wide)
    ensures LF.Owns(q.log, s, seg0.secs[k]) && HasBit(q.secs[seg0.secs[k]].flags, L.SHF_ALLOC)
  {
    hide SR.PlacedItself, SF.AllTakeMemory, SR.Covers, SR.MemoryCovers, SR.SharedImage, SR.LoaderCongruent, SR.Parallel,
         SelfPlaced.GapsBehind, SelfPlaced.Settled, SF.BackedAreAlloc, SF.NobitsBytes;
    SelfOwned(q, seg0, s, k);
  }

  lemma SelfOwned(q: L.Plan, seg0: L.Seg, s: nat, k: nat)
    requires k < |seg0.secs| && SR.ListInRange(seg0.secs, |q.secs|) && SR.PlacedItself(q.secs, seg0, q.log, s)
    requires SF.AllTakeMemory(q.secs, seg0) && q.secs[seg0.secs[k]].stype != SHT_NULL
    ensures LF.Owns(q.log, s, seg0.secs[k]) && HasBit(q.secs[seg0.secs[k]].flags, L.SHF_ALLOC)
  {
    hide HasBit, LF.Owns;
  }

  // ---------------------------------------------------------------- the bytes of a segment

  /** After saving and loading, the data of a segment holds the bytes of every file-backed section that it covers. */
  lemma SegmentBytesReturn(m: InMemory, s: nat, k: nat)
    requires Usable(m) && L.InRange(Segs(m), |Secs(m)|) && LaidOut(m).Some?
    requires LaidOut(m).value.plan.total < Modulus(IsWide(m.o.ident))
    requires |LaidOut(m).value.plan.secs| == |m.o.sections| && |LaidOut(m).value.plan.segs| == |m.o.segments|
    requires s < |m.o.segments| && k < |m.lists[s]| && 0 < m.lists[s][k] < |m.o.sections| && m.o.segments[s].ptype != PT_NULL
    requires InFile(m.o.sections[m.lists[s][k]].header)
    requires var q := LaidOut(m).value.plan; SR.ListInRange(q.segs[s].secs, |q.secs|) && SR.Covers(q.secs, q.segs[s])
    requires var o := Applied(m, LaidOut(m).value);
      o.segments[s].offset + o.segments[s].filesz <= |PutAll([], SaveWrites(o))|
    ensures var o, x := Applied(m, LaidOut(m).value), m.lists[s][k];
      var data, d := SegmentData(PutAll([], SaveWrites(o)), o.segments[s]), o.sections[x].header.offset - o.segments[s].offset;
      && 0 <= d && data.Some? && d + o.sections[x].header.size <= |data.value|
      && data.value[d..d + o.sections[x].header.size] == m.o.sections[x].data
  {
    hide LaidOut, PutAll, SaveWrites, Usable, Consistent, Bands, Image, Applied, SegmentData, L.RaiseAlign;
    IdentSize(m);
    var d, x := LaidOut(m).value, m.lists[s][k];
    var o := Applied(m, d);
    AppliedBands(m);
    AppliedConsistent(m);
    BandsApart(o, L.HeadersEnd(Head(m), Segs(m)));
    SaveMakesImage(o);
    LaidOutSection(m, s, x);
    AppliedHeaders(m, d, s, x);
    AppliedSame(m, d, s, x);
    assert SF.Backed(d.plan.secs[x]);
    SegmentDataHolds(o, PutAll([], SaveWrites(o)), s, x);
    SegmentDataSize(PutAll([], SaveWrites(o)), o.segments[s]);
  }

  lemma SegmentDataSize(img: seq<Byte>, h: SegmentHeader)
    ensures SegmentData(img, h).Some? ==> |SegmentData(img, h).value| == h.filesz
  {
  }

  /** Layout touches neither the bytes nor the types. */
  lemma AppliedSame(m: InMemory, d: L.Done, s: nat, i: nat)
    requires |d.plan.secs| == |m.o.sections| && |d.plan.segs| == |m.o.segments|
    requires s < |m.o.segments| && i < |m.o.sections|
    ensures Applied(m, d).sections[i].data == m.o.sections[i].data
    ensures Applied(m, d).sections[i].header.stype == m.o.sections[i].header.stype
    ensures Applied(m, d).sections[i].header.size == m.o.sections[i].header.size
    ensures Applied(m, d).segments[s].ptype == m.o.segments[s].ptype
  {
  }

  // ---------------------------------------------------------------- saving again

  /** The object that loading the saved file gives, if its segments list the same sections again. */
  function Returned(m: InMemory, d: L.Done): InMemory
    requires |d.plan.secs| == |m.o.sections| && |d.plan.segs| == |m.o.segments|
  {
    InMemory(Applied(m, d), AllTrue(|m.o.sections|), AllTrue(|m.o.segments|), m.lists)
  }

  lemma ReturnedSection(m: InMemory, d: L.Done, i: nat)
    requires |m.addrSet| == |m.o.sections| && |d.plan.secs| == |m.o.sections| && |d.plan.segs| == |m.o.segments| && i < |m.o.sections|
    requires |m.o.ident| == IDENT_SIZE && Fits(ShdrWidths(IsWide(m.o.ident)), ShdrValues(m.o.sections[i].header))
    requires LF.SameButPlace(Secs(m)[i], d.plan.secs[i]) && d.plan.secs[i].addrSet
    ensures Secs(Returned(m, d))[i] == d.plan.secs[i]
  {
    ShdrBounds(IsWide(m.o.ident), m.o.sections[i].header);
  }

  lemma ReturnedSegment(m: InMemory, d: L.Done, s: nat, seg0: L.Seg)
    requires |m.offsetSet| == |m.lists| == |m.o.segments|
    requires |d.plan.secs| == |m.o.sections| && |d.plan.segs| == |m.o.segments| && s < |m.o.segments|
    requires |m.o.ident| == IDENT_SIZE && Fits(PhdrWidths(IsWide(m.o.ident)), PhdrValues(IsWide(m.o.ident), m.o.segments[s]))
    requires seg0 == Segs(m)[s].(align := seg0.align) && SR.KeepsIdentity(IsWide(m.o.ident), seg0, d.plan.segs[s])
    ensures Segs(Returned(m, d))[s] == d.plan.segs[s]
  {
    PhdrBounds(IsWide(m.o.ident), m.o.segments[s]);
  }

  /** Layout reads off it what layout left. */
  lemma ReturnedParts(m: InMemory)
    requires Usable(m) && L.InRange(Segs(m), |Secs(m)|) && LaidOut(m).Some?
    requires Resave.Ready(Head(m), Secs(m), Segs(m)) && LaidOut(m).value.plan.total < Modulus(IsWide(m.o.ident))
    ensures var d := LaidOut(m).value;
      && |d.plan.secs| == |m.o.sections| && |d.plan.segs| == |m.o.segments|
      && Head(Returned(m, d)) == Head(m) && Secs(Returned(m, d)) == d.plan.secs && Segs(Returned(m, d)) == d.plan.segs
  {
    hide Resave.Ready, LT.FileLayout, L.RaiseAlign, Fits, ShdrWidths, PhdrWidths, ShdrValues, PhdrValues, EhdrValues, EhdrWidths,
         EhdrSize, ShdrSize, PhdrSize, GoodIdent, NameOf, LF.SameButPlace, SR.KeepsIdentity, SecOf, SegOf;
    IdentSize(m);
    LayoutResult(m);
    Resave.ReadyRaised(Head(m), Secs(m), Segs(m));
    var d := LaidOut(m).value;
    forall i | 0 <= i < |d.plan.secs| ensures Secs(Returned(m, d))[i] == d.plan.secs[i] {
      assert LF.Restrained(IsWide(m.o.ident), i, Secs(m)[i], d.plan.secs[i]);
      ReturnedSection(m, d, i);
    }
    forall s | 0 <= s < |d.plan.segs| ensures Segs(Returned(m, d))[s] == d.plan.segs[s] {
      ReturnedSegment(m, d, s, L.Raised(Secs(m), Segs(m))[s]);
    }
  }

  /** The results are in the headers already. */
  lemma AppliedTwice(m: InMemory, d: L.Done)
    requires |d.plan.secs| == |m.o.sections| && |d.plan.segs| == |m.o.segments|
    ensures Applied(Returned(m, d), d) == Applied(m, d)
  {
  }

  /** A loaded object whose file, once saved, assigns each section to the segments that listed it: loading that file
      and saving it again, unchanged, lays it out the same way and writes the same bytes. */
  lemma SaveLoadSave(m: InMemory)
    requires Usable(m) && L.InRange(Segs(m), |Secs(m)|) && LaidOut(m).Some?
    requires Resave.Ready(Head(m), Secs(m), Segs(m)) && LaidOut(m).value.plan.total < Modulus(IsWide(m.o.ident))
    requires |LaidOut(m).value.plan.secs| == |m.o.sections| && |LaidOut(m).value.plan.segs| == |m.o.segments|
    requires var o := Applied(m, LaidOut(m).value); MemberLists(o.sections, o.segments, |o.segments|) == m.lists
    ensures var d := LaidOut(m).value;
      var saved := PutAll([], SaveWrites(Applied(m, d)));
      && Loaded(saved) == Some(Returned(m, d))
      && L.InRange(Segs(Returned(m, d)), |Secs(Returned(m, d))|) && LaidOut(Returned(m, d)) == Some(d)
      && PutAll([], SaveWrites(Applied(Returned(m, d), d))) == saved
  {
    hide Usable, LT.FileLayout, Applied, Resave.Ready, SaveWrites, PutAll, MemberLists, Loaded, Load;
    IdentSize(m);
    SaveThenLoad(m);
    ReturnedParts(m);
    Resave.LayoutAgain(Head(m), Secs(m), Segs(m));
    AppliedTwice(m, LaidOut(m).value);
  }
}
