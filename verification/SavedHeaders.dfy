/** What `save` leaves in the headers of an object, field by field. */
module SavedHeaders {
  import opened Words
  import L = LayoutModel
  import LF = LayoutFacts
  import LT = LayoutTheorems
  import SA = SectionAlignment
  import SR = SegmentResult
  import Gaps
  import opened FileImage
  import opened FileLoad
  import opened SaveFile

  /** Everything that layout has no say in stays: of a section all but address and offset, of a segment all but
      alignment, sizes and offset, of the file header all but the numbers and places of the two tables. A preset address
      stays too, and the address of a section that no segment lists. */
  lemma OtherFieldsStay(m: InMemory)
    requires Usable(m) && L.InRange(Segs(m), |Secs(m)|) && LaidOut(m).Some?
    ensures |LaidOut(m).value.plan.secs| == |m.o.sections| && |LaidOut(m).value.plan.segs| == |m.o.segments|
    ensures var o := Applied(m, LaidOut(m).value);
      && |o.sections| == |m.o.sections| && |o.segments| == |m.o.segments| && o.ident == m.o.ident
      && o.header == m.o.header.(phnum := |m.o.segments|, phoff := if |m.o.segments| > 0 then m.o.header.ehsize else 0,
                                 shnum := |m.o.sections|, shoff := o.header.shoff)
      && (forall i :: 0 <= i < |o.sections| ==>
            o.sections[i] == m.o.sections[i].(header := m.o.sections[i].header.(addr := o.sections[i].header.addr, offset := o.sections[i].header.offset)))
      && (forall s :: 0 <= s < |o.segments| ==>
            o.segments[s] == m.o.segments[s].(align := o.segments[s].align, filesz := o.segments[s].filesz,
                                              memsz := o.segments[s].memsz, offset := o.segments[s].offset))
  {
    hide LaidOut, Usable, LF.Restrained, LF.SameButPlace, SR.KeepsIdentity;
    LayoutResult(m);
  }

  ghost predicate Listed(m: InMemory, i: nat) { exists s :: 0 <= s < |m.lists| && i in m.lists[s] }

  lemma ListedIsInSegment(m: InMemory, i: nat)
    requires |m.offsetSet| == |m.lists| == |m.o.segments|
    ensures Listed(m, i) <==> L.InSegment(Segs(m), i)
  {
    if Listed(m, i) {
      var s :| 0 <= s < |m.lists| && i in m.lists[s];
      assert i in Segs(m)[s].secs;
    }
  }

  /** A preset address stays, and so does the address of a section that no segment lists. */
  lemma AddressesStay(m: InMemory, i: nat)
    requires Usable(m) && L.InRange(Segs(m), |Secs(m)|) && LaidOut(m).Some? && i < |m.o.sections|
    requires |LaidOut(m).value.plan.secs| == |m.o.sections| && |LaidOut(m).value.plan.segs| == |m.o.segments|
    requires m.addrSet[i] || !Listed(m, i)
    ensures Applied(m, LaidOut(m).value).sections[i].header.addr == m.o.sections[i].header.addr
  {
    hide LT.FileLayout, Fits, ShdrWidths, ShdrValues, EhdrWidths, EhdrValues, PhdrWidths, PhdrValues, NameOf, GoodIdent,
         EhdrSize, ShdrSize, PhdrSize, L.InSegment, Listed, SR.KeepsIdentity, LF.SameButPlace;
    IdentSize(m);
    LayoutResult(m);
    ShdrBounds(IsWide(m.o.ident), m.o.sections[i].header);
    assert LF.Restrained(IsWide(m.o.ident), i, Secs(m)[i], LaidOut(m).value.plan.secs[i]);
    if !Listed(m, i) {
      ListedIsInSegment(m, i);
      Gaps.LooseKeepsAddress(Head(m), Secs(m), Segs(m), i);
    }
  }

  /** In the saved headers sh_offset is a multiple of sh_addralign for every section that layout was free to place: those
      in no segment, and those that came without an address. */
  lemma OffsetsAreAligned(m: InMemory, i: nat)
    requires Usable(m) && L.InRange(Segs(m), |Secs(m)|) && LaidOut(m).Some? && 0 < i < |m.o.sections|
    requires LaidOut(m).value.plan.total < Modulus(IsWide(m.o.ident))
    requires |LaidOut(m).value.plan.secs| == |m.o.sections| && |LaidOut(m).value.plan.segs| == |m.o.segments|
    requires !Listed(m, i) || (!m.addrSet[i] && m.o.sections[i].header.stype != 0)
    ensures var h := Applied(m, LaidOut(m).value).sections[i].header; h.addralign > 1 ==> h.offset % h.addralign == 0
  {
    hide LT.FileLayout, Fits, ShdrWidths, ShdrValues, EhdrWidths, EhdrValues, PhdrWidths, PhdrValues, NameOf, GoodIdent,
         EhdrSize, ShdrSize, PhdrSize, L.InSegment, Listed;
    IdentSize(m);
    ShdrBounds(IsWide(m.o.ident), m.o.sections[i].header);
    ListedIsInSegment(m, i);
    if m.o.sections[i].header.addralign > 1 {
      SA.FreeSectionsAreAligned(Head(m), Secs(m), Segs(m), i);
    }
  }

  /** The segment started with a section that it placed, elsewhere than at offset 0. */
  ghost predicate StartedItself(m: InMemory, s: nat, log: seq<L.Place>)
    requires s < |m.o.segments| == |m.lists| == |m.offsetSet|
  {
    |m.lists[s]| > 0 && LF.Owns(log, s, m.lists[s][0]) && !(m.offsetSet[s] && m.o.segments[s].offset == 0)
  }

  /** p_align ends at least as large as it was and as sh_addralign of every listed section; p_offset is congruent to
      p_vaddr modulo it for a segment that started with a section of its own, elsewhere than at offset 0. */
  lemma SegmentsAreCongruent(m: InMemory, s: nat)
    requires Usable(m) && L.InRange(Segs(m), |Secs(m)|) && LaidOut(m).Some? && s < |m.o.segments|
    requires LaidOut(m).value.plan.total < Modulus(IsWide(m.o.ident))
    requires |LaidOut(m).value.plan.secs| == |m.o.sections| && |LaidOut(m).value.plan.segs| == |m.o.segments|
    ensures var g := Applied(m, LaidOut(m).value).segments[s];
      && g.align >= m.o.segments[s].align
      && (forall k :: 0 <= k < |m.lists[s]| && m.lists[s][k] < |m.o.sections| ==> g.align >= m.o.sections[m.lists[s][k]].header.addralign)
      && (StartedItself(m, s, LaidOut(m).value.plan.log) && 0 < g.align <= 0x8000_0000_0000_0000
          ==> g.offset % g.align == g.vaddr % g.align)
  {
    hide LT.FileLayout, Fits, ShdrWidths, ShdrValues, EhdrWidths, EhdrValues, PhdrWidths, PhdrValues, NameOf, GoodIdent,
         EhdrSize, ShdrSize, PhdrSize, LF.Owns, L.RaiseAlign, SR.OwnImage, SR.SharedImage, SR.Parallel, SR.ListedArePlaced;
    IdentSize(m);
    LT.LayoutSegmentsDone(Head(m), Secs(m), Segs(m), s);
    PhdrBounds(IsWide(m.o.ident), m.o.segments[s]);
    var seg := Segs(m)[s];
    LT.RaisedCovers(Secs(m), seg.secs, seg.align, |seg.secs|);
    forall k | 0 <= k < |m.lists[s]| && m.lists[s][k] < |m.o.sections|
      ensures Secs(m)[m.lists[s][k]].align == m.o.sections[m.lists[s][k]].header.addralign
    {
      ShdrBounds(IsWide(m.o.ident), m.o.sections[m.lists[s][k]].header);
    }
  }
}
