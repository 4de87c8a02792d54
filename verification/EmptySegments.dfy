/** Segments without sections: the one for the program header table, and all others. */
module EmptySegments {
  import opened Words
  import L = LayoutModel
  import LF = LayoutFacts
  import LS = LayoutSteps
  import LT = LayoutTheorems
  import SO = SegmentOrder
  import SR = SegmentResult
  import Turns
  import opened FileImage
  import opened FileLoad
  import opened SaveFile

  function Larger(a: int, b: int): int { if a < b then b else a }

  lemma EmptyKeepsPosition(h: L.Header, p: L.Plan, i: nat)
    requires i < |p.segs| && |p.gen| == |p.secs| && L.InRange(p.segs, |p.secs|) && |p.segs[i].secs| == 0
    ensures L.LayoutSegment(h, p, i).Some? && L.LayoutSegment(h, p, i).value.total == p.total
  {
    hide L.PlaceOne;
  }

  /** A segment without sections at its turn: one of type 6 (PT_PHDR) gets the program header table, which stands behind
      the file header; any other one gets no file bytes, at offset 0 if that was set and else at the file position. */
  lemma EmptyTurn(h: L.Header, p: L.Plan, i: nat)
    requires i < |p.segs| && |p.gen| == |p.secs| && L.InRange(p.segs, |p.secs|) && |p.segs[i].secs| == 0
    requires p.total < Modulus(h.wide) && h.ehsize + h.phentsize * |p.segs| < Modulus(h.wide)
    requires p.segs[i].memsz < Modulus(h.wide)
    ensures L.LayoutSegment(h, p, i).Some?
    ensures var seg0, seg, p' := p.segs[i], L.LayoutSegment(h, p, i).value.segs[i], L.LayoutSegment(h, p, i).value;
      && p'.total == p.total && p'.secs == p.secs && p'.log == p.log
      && (if seg0.ptype == 6 then
            && seg.offset == h.ehsize && seg.filesz == h.phentsize * |p.segs| && seg.memsz == Larger(seg0.memsz, seg.filesz)
          else
            && seg.offset == (if seg0.offsetSet && seg0.offset == 0 then 0 else p.total)
            && seg.filesz == 0 && seg.memsz == seg0.memsz)
  {
    hide L.PlaceOne;
    LS.TruncSmall(h.wide, p.total);
    LS.TruncSmall(h.wide, h.ehsize);
    LS.TruncSmall(h.wide, h.phentsize * |p.segs|);
  }

  /** In the finished file: the file position that decides is the one when the segment's turn comes. */
  lemma EmptySegment(h: L.Header, secs: seq<L.Sec>, segs: seq<L.Seg>, n: nat) returns (position: nat)
    requires L.InRange(segs, |secs|) && LT.FileLayout(h, secs, segs).Some? && n < |SO.Ordered(L.Raised(secs, segs))|
    requires LT.FileLayout(h, secs, segs).value.plan.total < Modulus(h.wide)
    requires var s := SO.Ordered(L.Raised(secs, segs))[n]; s < |segs| && segs[s].secs == [] && segs[s].memsz < Modulus(h.wide)
    ensures Turns.OrderHandles(segs, SO.Ordered(L.Raised(secs, segs)))
    ensures L.SegmentsUpTo(h, L.StartPlan(h, secs, segs), SO.Ordered(L.Raised(secs, segs)), n).Some?
    ensures position == L.SegmentsUpTo(h, L.StartPlan(h, secs, segs), SO.Ordered(L.Raised(secs, segs)), n).value.total
    ensures var q, s := LT.FileLayout(h, secs, segs).value.plan, SO.Ordered(L.Raised(secs, segs))[n];
      && |q.segs| == |segs| && q.segs[s].secs == []
      && (if segs[s].ptype == 6 then
            && q.segs[s].offset == h.ehsize && q.segs[s].filesz == h.phentsize * |segs|
            && q.segs[s].memsz == Larger(segs[s].memsz, q.segs[s].filesz)
          else
            && q.segs[s].offset == (if segs[s].offsetSet && segs[s].offset == 0 then 0 else position)
            && q.segs[s].filesz == 0 && q.segs[s].memsz == segs[s].memsz)
  {
    hide LT.FileLayout, L.LayoutSegment, SO.Ordered, L.RaiseAlign, LF.Sound, LF.FlagsAgree, L.SegmentsUpTo;
    var raised := L.Raised(secs, segs);
    var s := SO.Ordered(raised)[n];
    var p := Turns.TurnOf(h, secs, segs, n);
    position := p.total;
    HeadersFit(h, secs, segs, p);
    EmptyKeepsPosition(h, p, s);
    EmptyTurn(h, p, s);
  }

  lemma HeadersFit(h: L.Header, secs: seq<L.Sec>, segs: seq<L.Seg>, p: L.Plan)
    requires LS.PlanSound(h.wide, secs, L.HeadersEnd(h, segs), p) && |p.segs| == |segs|
    ensures h.ehsize + h.phentsize * |p.segs| <= p.total
  {
  }

  lemma PositionOf(h: L.Header, secs: seq<L.Sec>, segs: seq<L.Seg>, s: nat) returns (n: nat)
    requires L.InRange(segs, |secs|) && s < |segs|
    ensures n < |SO.Ordered(L.Raised(secs, segs))| && SO.Ordered(L.Raised(secs, segs))[n] == s
  {
    hide SO.Ordered;
    n := Turns.PositionOf(L.Raised(secs, segs), s);
  }

  // ---------------------------------------------------------------- the program header table in the file

  /** File position `a` belongs to the program header that `save` writes for segment `i`. */
  ghost predicate InProgramHeader(o: ElfObject, i: int, a: int)
    requires |o.ident| == IDENT_SIZE
  {
    0 <= i < |o.segments| && SegmentWrite(o, i).at <= a < SegmentWrite(o, i).at + |SegmentWrite(o, i).bytes|
  }

  /** The segment of type PT_PHDR without sections starts where e_phoff says, and its file image is exactly what is
      written for all program headers, if their entries have the size of the structure; with larger entries it holds the
      gaps between them as well. Its memory size is the same, unless a larger one was given before. */
  lemma HeaderSegmentHoldsTable(m: InMemory, s: nat)
    requires Usable(m) && L.InRange(Segs(m), |Secs(m)|) && LaidOut(m).Some?
    requires LaidOut(m).value.plan.total < Modulus(IsWide(m.o.ident))
    requires s < |m.o.segments| && m.o.segments[s].ptype == 6 && m.lists[s] == []
    ensures |LaidOut(m).value.plan.secs| == |m.o.sections| && |LaidOut(m).value.plan.segs| == |m.o.segments|
    ensures var o := Applied(m, LaidOut(m).value);
      var g := o.segments[s];
      && g.offset == o.header.phoff && g.filesz == o.header.phentsize * o.header.phnum
      && g.memsz == Larger(m.o.segments[s].memsz, g.filesz)
      && (forall i, a :: InProgramHeader(o, i, a) ==> InFileImage(a, g))
      && (o.header.phentsize == (if o.ident[4] == 2 then 56 else 32) ==>
            forall a :: InFileImage(a, g) ==> exists i :: InProgramHeader(o, i, a))
  {
    hide LaidOut, Fits, EhdrWidths, EhdrValues, ShdrWidths, ShdrValues, PhdrWidths, PhdrValues, NameOf, GoodIdent, Record,
         EhdrSize, ShdrSize, PhdrSize;
    IdentSize(m);
    LayoutResult(m);
    HeaderSegmentValues(m, s);
    var o := Applied(m, LaidOut(m).value);
    TableRange(o, s);
  }

  lemma HeaderSegmentValues(m: InMemory, s: nat)
    requires Usable(m) && L.InRange(Segs(m), |Secs(m)|) && LaidOut(m).Some?
    requires LaidOut(m).value.plan.total < Modulus(IsWide(m.o.ident))
    requires s < |m.o.segments| && m.o.segments[s].ptype == 6 && m.lists[s] == []
    requires |LaidOut(m).value.plan.segs| == |m.o.segments|
    ensures var q := LaidOut(m).value.plan;
      && q.segs[s].offset == m.o.header.ehsize && q.segs[s].filesz == m.o.header.phentsize * |m.o.segments|
      && q.segs[s].memsz == Larger(m.o.segments[s].memsz, q.segs[s].filesz)
  {
    hide LT.FileLayout, SO.Ordered, L.Raised, Fits, EhdrWidths, EhdrValues, ShdrWidths, ShdrValues, PhdrWidths, PhdrValues, NameOf,
         GoodIdent, EhdrSize, ShdrSize, PhdrSize, L.SegmentsUpTo, L.StartPlan;
    IdentSize(m);
    PhdrBounds(IsWide(m.o.ident), m.o.segments[s]);
    var n := PositionOf(Head(m), Secs(m), Segs(m), s);
    var position := EmptySegment(Head(m), Secs(m), Segs(m), n);
  }

  lemma TableRange(o: ElfObject, s: nat)
    requires |o.ident| == IDENT_SIZE && s < |o.segments| && o.segments[s].offset == o.header.phoff
    requires o.segments[s].filesz == o.header.phentsize * |o.segments| && PhdrSize(IsWide(o.ident)) <= o.header.phentsize
    ensures forall i, a :: InProgramHeader(o, i, a) ==> InFileImage(a, o.segments[s])
    ensures o.header.phentsize == (if o.ident[4] == 2 then 56 else 32) ==>
      forall a :: InFileImage(a, o.segments[s]) ==> exists i :: InProgramHeader(o, i, a)
  {
    hide Record;
    SegmentHeaderSize(IsWide(o.ident));
    forall i, a | InProgramHeader(o, i, a) ensures InFileImage(a, o.segments[s]) {
      StrideEnd(o.header.phentsize, PhdrSize(IsWide(o.ident)), i, |o.segments|);
    }
    if o.header.phentsize == (if o.ident[4] == 2 then 56 else 32) {
      forall a | InFileImage(a, o.segments[s]) ensures exists i :: InProgramHeader(o, i, a) {
        var i := (a - o.header.phoff) / o.header.phentsize;
        assert InProgramHeader(o, i, a);
      }
    }
  }
}
