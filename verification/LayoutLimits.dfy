/** Objects that `save` lays out successfully although a section ends up outside its segment's file image, or a
    segment off its address. */
module LayoutLimits {
  import opened Words
  import opened LayoutModel
  import opened LayoutFacts
  import opened SegmentFacts
  import opened SegmentResult
  import opened SegmentOrder
  import opened LayoutSteps
  import opened LayoutTheorems
  import Congruence
  import MixedCoverage
  import Turns

  const HEADER := Header(true, 64, 56, 64)
  const NULL_SECTION := Sec(SHT_NULL, 0, 0, false, 0, 0, 0)

  function Progbits(align: Word64, size: Word64): Sec { Sec(1, SHF_ALLOC, 0, false, align, size, 0) }

  function Nobits(align: Word64, size: Word64): Sec { Sec(SHT_NOBITS, SHF_ALLOC, 0, false, align, size, 0) }

  function Load(align: Word64, vaddr: Word64, list: seq<nat>): Seg { Seg(1, align, vaddr, 0, 0, 0, false, list) }

  lemma OneInOrder(seg: Seg)
    ensures Ordered([seg]) == [0]
  {
    assert Handle(1) == [0];
    SwapUpToFirst([seg], [0]);
    SwapUpToNext([seg], [0], 0);
    assert SwapUpTo([seg], [0], 1).0 == [0];
    assert [0][1..] == [];
    assert !Waits([seg], [0]);
    assert Drain([seg], []) == [];
  }

  /** Layout of an object with one segment, from the plan that its first pass makes. */
  lemma OneSegment(h: Header, secs: seq<Sec>, seg: Seg, p: Plan)
    requires InRange([seg], |secs|) && LayoutSegment(h, StartPlan(h, secs, [seg]), 0) == Some(p) && p.segs[0].secs == seg.secs
    ensures FileLayout(h, secs, [seg]).Some?
    ensures var q := FileLayout(h, secs, [seg]).value.plan;
      |q.secs| == |secs| && q.segs == p.segs && forall k :: 0 <= k < |seg.secs| ==> q.secs[seg.secs[k]] == p.secs[seg.secs[k]]
  {
    hide LayoutSegment, Drain, SwapUpTo, PlaceLoose, TableStart, Trunc;
    var raised, p0 := Raised(secs, [seg]), StartPlan(h, secs, [seg]);
    assert |raised| == 1 && raised == [raised[0]];
    OneInOrder(raised[0]);
    assert SegmentsUpTo(h, p0, [0], 0) == Some(p0);
    assert SegmentsUpTo(h, p0, [0], 1) == Some(p);
    forall k | 0 <= k < |seg.secs| ensures LooseUpTo(h.wide, p, |p.secs|).secs[seg.secs[k]] == p.secs[seg.secs[k]] {
      assert seg.secs[k] in p.segs[0].secs;
      LooseKeepsListed(h.wide, p, |p.secs|, seg.secs[k]);
    }
  }

  const GAP_SECTIONS := [NULL_SECTION, Progbits(1, 4), Nobits(16, 8), Progbits(1, 8)]

  const GAP_SEGMENT := Load(16, 0, [1, 2, 3])

  lemma GapStart()
    ensures InRange([GAP_SEGMENT], 4)
    ensures var p0 := Plan(GAP_SECTIONS, [GAP_SEGMENT], NothingPlaced(4), 120, []);
      StartRun(HEADER, p0, GAP_SEGMENT) == Run(GAP_SECTIONS, NothingPlaced(4), 128, [], 128, 0, 0)
  {
  }

  lemma GapFirst() returns (r: Run)
    ensures PlaceOne(true, GAP_SEGMENT, 0, Run(GAP_SECTIONS, NothingPlaced(4), 128, [], 128, 0, 0), 1) == Some(r)
    ensures r.total == 132 && r.file == 4 && r.start == 128 && |r.secs| == |r.gen| == 4
    ensures r.secs[2..] == GAP_SECTIONS[2..] && !r.gen[2] && !r.gen[3]
  {
    assert SecAlign(GAP_SEGMENT, GAP_SECTIONS[1], false, 128, 128, 0) == Some(0);
    hide SecAlign;
    r := PlaceOne(true, GAP_SEGMENT, 0, Run(GAP_SECTIONS, NothingPlaced(4), 128, [], 128, 0, 0), 1).value;
  }

  lemma GapSecond(r: Run) returns (r': Run)
    requires r.total == 132 && r.file == 4 && r.start == 128 && |r.secs| == |r.gen| == 4
    requires r.secs[2..] == GAP_SECTIONS[2..] && !r.gen[2] && !r.gen[3]
    ensures PlaceOne(true, GAP_SEGMENT, 0, r, 2) == Some(r')
    ensures r'.total == 144 && r'.file == 4 && r'.start == 128 && |r'.secs| == |r'.gen| == 4
    ensures r'.secs[3] == GAP_SECTIONS[3] && !r'.gen[3]
  {
    assert r.secs[2] == r.secs[2..][0] && r.secs[3] == r.secs[2..][1];
    assert SecAlign(GAP_SEGMENT, r.secs[2], false, 132, 128, 4) == Some(12);
    r' := PlaceOne(true, GAP_SEGMENT, 0, r, 2).value;
  }

  lemma GapThird(r: Run) returns (r': Run)
    requires r.total == 144 && r.file == 4 && r.start == 128 && |r.secs| == |r.gen| == 4
    requires r.secs[3] == GAP_SECTIONS[3] && !r.gen[3]
    ensures PlaceOne(true, GAP_SEGMENT, 0, r, 3) == Some(r')
    ensures r'.file == 12 && r'.start == 128 && |r'.secs| == 4 && r'.secs[3].offset == 144
    ensures r'.secs[3].size == 8 && r'.secs[3].stype == 1
  {
    assert SecAlign(GAP_SEGMENT, r.secs[3], false, 144, 128, 4) == Some(0);
    r' := PlaceOne(true, GAP_SEGMENT, 0, r, 3).value;
  }

  /** Bytes skipped for a section without file bytes move the file position but not the segment's file size, so the
      file-backed section behind it is not covered. */
  lemma NobitsInTheMiddle()
    ensures var seg := Load(1, 0, [1, 2, 3]);
      && InRange([seg], 4) && FileLayout(HEADER, GAP_SECTIONS, [seg]).Some?
      && var q := FileLayout(HEADER, GAP_SECTIONS, [seg]).value.plan;
         |q.secs| == 4 && |q.segs| == 1 && q.segs[0].secs == [1, 2, 3] && !Covers(q.secs, q.segs[0])
  {
    hide PlaceOne, StartRun, FileLayout, SecAlign;
    var seg, secs := Load(1, 0, [1, 2, 3]), GAP_SECTIONS;
    var p0 := Plan(secs, [GAP_SEGMENT], NothingPlaced(4), 120, []);
    GapAlign();
    GapStart();
    var r0 := StartRun(HEADER, p0, GAP_SEGMENT);
    var r1 := GapFirst();
    var r2 := GapSecond(r1);
    var r3 := GapThird(r2);
    assert PlaceUpTo(true, GAP_SEGMENT, 0, r0, 0) == Some(r0);
    assert PlaceUpTo(true, GAP_SEGMENT, 0, r0, 1) == Some(r1);
    assert PlaceUpTo(true, GAP_SEGMENT, 0, r0, 2) == Some(r2);
    assert PlaceUpTo(true, GAP_SEGMENT, 0, r0, 3) == Some(r3);
    OneSegment(HEADER, secs, seg, LayoutSegment(HEADER, p0, 0).value);
    assert [1, 2, 3][2] == 3;
  }

  lemma GapAlign()
    ensures InRange([Load(1, 0, [1, 2, 3])], 4)
    ensures Raised(GAP_SECTIONS, [Load(1, 0, [1, 2, 3])]) == [Load(16, 0, [1, 2, 3])]
  {
    var list := [1, 2, 3];
    assert RaiseAlign(GAP_SECTIONS, list, 1, 1) == 1;
    assert RaiseAlign(GAP_SECTIONS, list, 1, 2) == 16;
    assert RaiseAlign(GAP_SECTIONS, list, 1, 3) == 16;
  }

  // ---------------------------------------------------------------- two segments that overlap without being nested

  const SHARED_SECTIONS := [NULL_SECTION, Progbits(1, 8), Progbits(1, 8), Progbits(1, 8)]
  const SHARED_SEGMENTS := [Load(1, 0, [1, 3]), Load(1, 0, [1, 2])]

  /** A section without address or alignment goes to the file position. */
  lemma PlacePlain(seg: Seg, owner: int, r: Run, index: nat, size: Word64) returns (r': Run)
    requires 0 < index < |r.secs| == |r.gen| && r.secs[index] == Progbits(1, size) && !r.gen[index]
    requires r.total + size < W64 && r.file + size < W64
    ensures PlaceOne(true, seg, owner, r, index) == Some(r')
    ensures r'.total == r.total + size && r'.file == r.file + size && r'.start == r.start
    ensures r'.secs == r.secs[index := r'.secs[index]] && r'.gen == r.gen[index := true]
    ensures r'.secs[index].offset == r.total && r'.secs[index].size == size && r'.secs[index].stype == 1
    ensures r'.secs[index].flags == SHF_ALLOC
  {
    hide SecAlign, Add64, TakesMemory;
    PlainAlign(seg, r.secs[index], r.total, r.start, r.file);
    FileStep(0, r.file, r.file, size, r.file);
    r' := PlaceOne(true, seg, owner, r, index).value;
  }

  lemma PlainAlign(seg: Seg, sec: Sec, total: nat, start: Word64, file: Word64)
    requires !sec.addrSet && sec.align == 1
    ensures SecAlign(seg, sec, false, total % W64, start, file) == Some(0)
  {
  }

  /** The first segment places sections 1 and 3. */
  lemma SharedFirst() returns (p: Plan)
    ensures InRange(SHARED_SEGMENTS, 4)
    ensures LayoutSegment(HEADER, Plan(SHARED_SECTIONS, SHARED_SEGMENTS, NothingPlaced(4), 176, []), 0) == Some(p)
    ensures p.total == 192 && p.gen == [false, true, false, true] && |p.secs| == 4 && p.segs[1..] == SHARED_SEGMENTS[1..] && |p.segs| == 2
    ensures p.secs[1].offset == 176 && p.secs[1].size == 8 && p.secs[1].stype == 1 && p.secs[2] == Progbits(1, 8)
    ensures p.segs[0].secs == [1, 3] && p.secs[0] == NULL_SECTION
  {
    var seg := SHARED_SEGMENTS[0];
    var r0 := Run(SHARED_SECTIONS, NothingPlaced(4), 176, [], 176, 0, 0);
    assert StartRun(HEADER, Plan(SHARED_SECTIONS, SHARED_SEGMENTS, NothingPlaced(4), 176, []), seg) == r0;
    hide PlaceOne, StartRun;
    var r1 := PlacePlain(seg, 0, r0, 1, 8);
    var r2 := PlacePlain(seg, 0, r1, 3, 8);
    assert seg.secs == [1, 3];
    assert PlaceUpTo(true, seg, 0, r0, 0) == Some(r0);
    assert PlaceUpTo(true, seg, 0, r0, 1) == Some(r1);
    assert PlaceUpTo(true, seg, 0, r0, 2) == Some(r2);
    p := LayoutSegment(HEADER, Plan(SHARED_SECTIONS, SHARED_SEGMENTS, NothingPlaced(4), 176, []), 0).value;
  }

  /** The second one starts with section 1, where that already stands, and adds section 2 behind section 3. */
  lemma SharedSecond(p: Plan) returns (p': Plan)
    requires p.total == 192 && p.gen == [false, true, false, true] && |p.secs| == 4 && |p.segs| == 2
    requires p.segs[1] == Load(1, 0, [1, 2]) && InRange(p.segs, 4) && p.segs[0].secs == [1, 3]
    requires p.secs[1].offset == 176 && p.secs[1].size == 8 && p.secs[1].stype == 1 && p.secs[2] == Progbits(1, 8)
    ensures LayoutSegment(HEADER, p, 1) == Some(p')
    ensures |p'.secs| == 4 && |p'.segs| == 2 && p'.segs[0].secs == [1, 3] && p'.segs[1].secs == [1, 2]
    ensures p'.segs[1].offset == 176 && p'.segs[1].filesz == 16
    ensures p'.secs[2].offset == 192 && p'.secs[2].size == 8 && p'.secs[2].stype == 1
    ensures p'.secs[0] == p.secs[0] && p'.secs[1] == p.secs[1] && p'.total == 200
  {
    var seg := p.segs[1];
    var r0 := StartRun(HEADER, p, seg);
    assert r0 == Run(p.secs, p.gen, 192, p.log, 176, 0, 0);
    var r1 := PlaceOne(true, seg, 1, r0, 1).value;
    assert r1 == r0.(file := 8, mem := r1.mem);
    hide PlaceOne, StartRun;
    var r2 := PlacePlain(seg, 1, r1, 2, 8);
    assert seg.secs == [1, 2];
    assert PlaceUpTo(true, seg, 1, r0, 0) == Some(r0);
    assert PlaceUpTo(true, seg, 1, r0, 1) == Some(r1);
    assert PlaceUpTo(true, seg, 1, r0, 2) == Some(r2);
    p' := LayoutSegment(HEADER, p, 1).value;
  }

  lemma TwoInOrder(segs: seq<Seg>)
    requires |segs| == 2 && !segs[0].offsetSet && !segs[1].offsetSet && |segs[0].secs| == |segs[1].secs|
    ensures Ordered(segs) == [0, 1]
  {
    hide Includes;
    assert Handle(2) == [0, 1];
    SwapUpToFirst(segs, [0, 1]);
    SwapUpToNext(segs, [0, 1], 0);
    SwapUpToNext(segs, [0, 1], 1);
    assert SwapUpTo(segs, [0, 1], 2).0 == [0, 1];
    assert [0, 1][1..] == [1] && [1][1..] == [];
    assert !Waits(segs, [0, 1]) && !Waits(segs, [1]);
    assert Drain(segs, []) == [];
    assert Drain(segs, [1]) == [1];
  }

  lemma SharedAlign()
    ensures InRange(SHARED_SEGMENTS, 4) && Raised(SHARED_SECTIONS, SHARED_SEGMENTS) == SHARED_SEGMENTS
  {
    assert RaiseAlign(SHARED_SECTIONS, [1, 3], 1, 1) == 1;
    assert RaiseAlign(SHARED_SECTIONS, [1, 3], 1, 2) == 1;
    assert RaiseAlign(SHARED_SECTIONS, [1, 2], 1, 1) == 1;
    assert RaiseAlign(SHARED_SECTIONS, [1, 2], 1, 2) == 1;
  }

  /** Layout of an object with two segments in a given order. */
  lemma TwoSegments(h: Header, secs: seq<Sec>, segs: seq<Seg>, order: seq<nat>, p1: Plan, p2: Plan)
    requires InRange(segs, |secs|) && |segs| == 2 && |secs| == 4 && Raised(secs, segs) == segs
    requires Ordered(segs) == order && |order| == 2 && order[0] < 2 && order[1] < 2
    requires LayoutSegment(h, StartPlan(h, secs, segs), order[0]) == Some(p1)
    requires |p1.segs| == 2 && |p1.secs| == |p1.gen| == 4 && InRange(p1.segs, 4)
    requires LayoutSegment(h, p1, order[1]) == Some(p2) && |p2.secs| == 4 && |p2.segs| == 2
    requires p2.secs[0] == NULL_SECTION && !InSegment(p2.segs, 0) && forall x :: 1 <= x < 4 ==> InSegment(p2.segs, x)
    ensures FileLayout(h, secs, segs).Some?
    ensures var q := FileLayout(h, secs, segs).value.plan;
      q.secs == p2.secs && q.segs == p2.segs && q.total <= p2.total + 3
  {
    hide LayoutSegment, Drain, SwapUpTo, RaiseAlign, InSegment;
    var p0 := StartPlan(h, secs, segs);
    assert SegmentsUpTo(h, p0, order, 0) == Some(p0);
    assert SegmentsUpTo(h, p0, order, 1) == Some(p1);
    assert SegmentsUpTo(h, p0, order, 2) == Some(p2);
    OnlyNullLoose(h.wide, p2);
  }

  lemma OnlyNullLoose(wide: bool, p: Plan)
    requires |p.secs| == 4 && p.secs[0] == NULL_SECTION && !InSegment(p.segs, 0) && forall x :: 1 <= x < 4 ==> InSegment(p.segs, x)
    ensures var q := LooseUpTo(wide, p, 4);
      q.secs == p.secs && q.total == p.total
  {
    hide InSegment, Trunc;
    assert LooseUpTo(wide, p, 0) == p;
    var q := LooseUpTo(wide, p, 1);
    assert q.secs == p.secs && q.total == p.total && q.segs == p.segs;
    assert LooseUpTo(wide, p, 2) == q;
    assert LooseUpTo(wide, p, 3) == q;
    assert LooseUpTo(wide, p, 4) == q;
  }

  /** A segment that adds a new section behind one that another segment has placed counts the sizes of the two, not
      the distance between them: its last section did not go on where the placed one ends. */
  lemma SharedThenNew()
    ensures InRange(SHARED_SEGMENTS, 4) && FileLayout(HEADER, SHARED_SECTIONS, SHARED_SEGMENTS).Some?
    ensures var q := FileLayout(HEADER, SHARED_SECTIONS, SHARED_SEGMENTS).value.plan;
      && |q.secs| == 4 && |q.segs| == 2 && q.segs[1].secs == [1, 2] && !Covers(q.secs, q.segs[1])
      && Raised(SHARED_SECTIONS, SHARED_SEGMENTS) == SHARED_SEGMENTS
      && MixedCoverage.StartsBefore(q.secs, [1, 2], q.segs[1].offset)
      && !MixedCoverage.Reaches(q.secs, SHARED_SEGMENTS[1], q.log, 1)
  {
    hide LayoutSegment, Ordered, FileLayout, RaiseAlign, MixedCoverage.Reaches;
    SharedAlign();
    TwoInOrder(SHARED_SEGMENTS);
    var p1 := SharedFirst();
    assert p1.segs[1] == p1.segs[1..][0];
    var p2 := SharedSecond(p1);
    assert 1 in p2.segs[1].secs && 2 in p2.segs[1].secs && 3 in [1, 3] && 3 in p2.segs[0].secs;
    TwoSegments(HEADER, SHARED_SECTIONS, SHARED_SEGMENTS, [0, 1], p1, p2);
    assert [1, 2][0] == 1 && [1, 2][1] == 2;
    Turns.SegmentCoveredExactly(HEADER, SHARED_SECTIONS, SHARED_SEGMENTS, 1);
  }

  // ---------------------------------------------------------------- a segment at offset 0 over placed sections

  const LESS_SECTIONS := [NULL_SECTION, Nobits(1, 8), Progbits(1, 16), Progbits(1, 100)]
  const LESS_SEGMENTS := [Seg(1, 1, 0, 0, 0, 0, true, [1, 2]), Load(1, 0, [1, 2, 3])]

  lemma LessOrder()
    ensures InRange(LESS_SEGMENTS, 4) && Raised(LESS_SECTIONS, LESS_SEGMENTS) == LESS_SEGMENTS
    ensures Ordered(LESS_SEGMENTS) == [1, 0]
  {
    LessAlign();
    LessWaits();
    LessDrain();
  }

  lemma LessAlign()
    ensures InRange(LESS_SEGMENTS, 4) && Raised(LESS_SECTIONS, LESS_SEGMENTS) == LESS_SEGMENTS
  {
    assert RaiseAlign(LESS_SECTIONS, [1, 2], 1, 1) == 1;
    assert RaiseAlign(LESS_SECTIONS, [1, 2], 1, 2) == 1;
    assert RaiseAlign(LESS_SECTIONS, [1, 2, 3], 1, 1) == 1;
    assert RaiseAlign(LESS_SECTIONS, [1, 2, 3], 1, 2) == 1;
    assert RaiseAlign(LESS_SECTIONS, [1, 2, 3], 1, 3) == 1;
  }

  lemma LessWaits()
    ensures InsideOf(LESS_SEGMENTS[0], LESS_SEGMENTS[1]) && !InsideOf(LESS_SEGMENTS[1], LESS_SEGMENTS[0])
  {
    assert [1, 2, 3][1..] == [2, 3] && [1, 2][1..] == [2] && [2, 3][1..] == [3] && [2][1..] == [];
    assert Includes([2, 3], [2]) && Includes([1, 2, 3], [1, 2]);
  }

  lemma LessDrain()
    ensures Ordered(LESS_SEGMENTS) == [1, 0]
  {
    hide Includes;
    LessWaits();
    var segs := LESS_SEGMENTS;
    assert Handle(2) == [0, 1];
    SwapUpToFirst(segs, [0, 1]);
    SwapUpToNext(segs, [0, 1], 0);
    SwapUpToNext(segs, [0, 1], 1);
    assert SwapUpTo(segs, [0, 1], 2).0 == [0, 1];
    assert [0, 1][1..] + [[0, 1][0]] == [1, 0] && [1, 0][1..] == [0] && [0][1..] == [];
    assert InsideOf(segs[[0, 1][0]], segs[[0, 1][1]]) && Waits(segs, [0, 1]);
    assert !Waits(segs, [1, 0]) && !Waits(segs, [0]);
    assert Drain(segs, []) == [];
    assert Drain(segs, [0]) == [0];
    assert Drain(segs, [1, 0]) == [1] + Drain(segs, [0]);
  }

  /** The large segment places all three sections. */
  lemma LessFirst() returns (p: Plan)
    ensures LayoutSegment(HEADER, Plan(LESS_SECTIONS, LESS_SEGMENTS, NothingPlaced(4), 176, []), 1) == Some(p)
    ensures InRange(LESS_SEGMENTS, 4)
    ensures p.total == 292 && p.gen == [false, true, true, true] && |p.secs| == 4 && |p.segs| == 2
    ensures p.secs[0] == NULL_SECTION && p.segs[0] == LESS_SEGMENTS[0] && p.segs[1].secs == [1, 2, 3]
    ensures p.secs[1].offset == 176 && p.secs[1].size == 8 && p.secs[1].stype == SHT_NOBITS && p.secs[1].flags == SHF_ALLOC
    ensures p.secs[2].offset == 176 && p.secs[2].size == 16 && p.secs[2].stype == 1 && p.secs[2].flags == SHF_ALLOC
    ensures p.secs[3].stype == 1
  {
    var seg := LESS_SEGMENTS[1];
    var p0 := Plan(LESS_SECTIONS, LESS_SEGMENTS, NothingPlaced(4), 176, []);
    var r0 := Run(LESS_SECTIONS, NothingPlaced(4), 176, [], 176, 0, 0);
    assert StartRun(HEADER, p0, seg) == r0;
    var r1 := LessNobits(seg, r0);
    hide PlaceOne, StartRun;
    var r2 := PlacePlain(seg, 1, r1, 2, 16);
    var r3 := PlacePlain(seg, 1, r2, 3, 100);
    assert seg.secs == [1, 2, 3];
    assert PlaceUpTo(true, seg, 1, r0, 0) == Some(r0);
    assert PlaceUpTo(true, seg, 1, r0, 1) == Some(r1);
    assert PlaceUpTo(true, seg, 1, r0, 2) == Some(r2);
    assert PlaceUpTo(true, seg, 1, r0, 3) == Some(r3);
    p := LayoutSegment(HEADER, p0, 1).value;
  }

  lemma LessNobits(seg: Seg, r: Run) returns (r': Run)
    requires r == Run(LESS_SECTIONS, NothingPlaced(4), 176, [], 176, 0, 0)
    ensures PlaceOne(true, seg, 1, r, 1) == Some(r')
    ensures r'.total == 176 && r'.file == 0 && r'.start == 176 && r'.gen == r.gen[1 := true] && r'.secs == r.secs[1 := r'.secs[1]]
    ensures r'.secs[1].offset == 176 && r'.secs[1].size == 8 && r'.secs[1].stype == SHT_NOBITS && r'.secs[1].flags == SHF_ALLOC
  {
    assert SecAlign(seg, r.secs[1], false, 176, 176, 0) == Some(0);
    hide SecAlign;
    r' := PlaceOne(true, seg, 1, r, 1).value;
  }

  /** The segment at offset 0 meets the section without file bytes first, far in front of the file position. */
  lemma LessSecond(p: Plan) returns (p': Plan)
    requires p.total == 292 && p.gen == [false, true, true, true] && |p.secs| == 4 && |p.segs| == 2
    requires p.segs[0] == LESS_SEGMENTS[0] && p.segs[1].secs == [1, 2, 3] && InRange(p.segs, 4)
    requires p.secs[1].offset == 176 && p.secs[1].size == 8 && p.secs[1].stype == SHT_NOBITS && p.secs[1].flags == SHF_ALLOC
    requires p.secs[2].offset == 176 && p.secs[2].size == 16 && p.secs[2].stype == 1 && p.secs[2].flags == SHF_ALLOC
    ensures LayoutSegment(HEADER, p, 0) == Some(p')
    ensures p'.secs == p.secs && p'.total == 292 && |p'.segs| == 2 && p'.segs[1].secs == [1, 2, 3] && p'.segs[0].secs == [1, 2]
    ensures p'.segs[0].filesz == 192 && p'.segs[0].memsz == 84
  {
    var seg := p.segs[0];
    var r0 := Run(p.secs, p.gen, 292, p.log, 0, 292, 292);
    assert StartRun(HEADER, p, seg) == r0;
    var r1 := r0.(mem := 184);
    LessStep(seg, r0, 1, 176, 8, 292, 292);
    LessStep(seg, r1, 2, 176, 16, 292, 184);
    hide PlaceOne, StartRun;
    var r2 := r1.(file := 192, mem := 84);
    assert seg.secs == [1, 2];
    assert PlaceUpTo(true, seg, 0, r0, 0) == Some(r0);
    assert PlaceUpTo(true, seg, 0, r0, 1) == Some(r1);
    assert PlaceUpTo(true, seg, 0, r0, 2) == Some(r2);
    p' := LayoutSegment(HEADER, p, 0).value;
  }

  lemma LessStep(seg: Seg, r: Run, index: nat, offset: Word64, size: Word64, file: Word64, mem: Word64)
    requires index < |r.secs| == |r.gen| && r.gen[index] && r.start == 0 && r.file == file && r.mem == mem
    requires r.secs[index].offset == offset && r.secs[index].size == size && r.secs[index].flags == SHF_ALLOC
    requires r.secs[index].stype == SHT_NOBITS || r.secs[index].stype == 1
    requires 0 <= offset + size - file + mem < W64 && offset + size < W64
    ensures PlaceOne(true, seg, 0, r, index)
            == Some(r.(mem := offset + size - file + mem, file := if r.secs[index].stype == SHT_NOBITS then file else offset + size,
                       gen := r.gen))
  {
    PlacedMemory(mem, size, offset, 0, file);
    PlacedMemory(file, size, offset, 0, file);
    hide Add64, Sub64;
  }

  /** A segment at offset 0 whose sections another one placed in ascending order, the file-backed one SHF_ALLOC, claims
      less memory than file bytes. */
  lemma ZeroSegmentClaimsLess()
    ensures InRange(LESS_SEGMENTS, 4) && FileLayout(HEADER, LESS_SECTIONS, LESS_SEGMENTS).Some?
    ensures var q := FileLayout(HEADER, LESS_SECTIONS, LESS_SEGMENTS).value.plan;
      |q.secs| == 4 && |q.segs| == 2 && q.segs[0].filesz == 192 && q.segs[0].memsz == 84
  {
    hide LayoutSegment, Ordered, FileLayout, RaiseAlign;
    LessOrder();
    var p1 := LessFirst();
    var p2 := LessSecond(p1);
    assert 1 in [1, 2, 3] && 2 in [1, 2, 3] && 3 in [1, 2, 3] && 3 in p2.segs[1].secs;
    TwoSegments(HEADER, LESS_SECTIONS, LESS_SEGMENTS, [1, 0], p1, p2);
  }

  // ---------------------------------------------------------------- an alignment above 2^63

  const HUGE: Word64 := W64 / 2 + 200

  const HUGE_SEGMENT := Load(HUGE, W64 / 2 - 1, [1])

  const HUGE_SECTIONS := [NULL_SECTION, Progbits(1, 8)]

  lemma HugeStart()
    ensures InRange([HUGE_SEGMENT], 2) && Raised(HUGE_SECTIONS, [HUGE_SEGMENT]) == [HUGE_SEGMENT]
    ensures var p0 := Plan(HUGE_SECTIONS, [HUGE_SEGMENT], NothingPlaced(2), 120, []);
      StartRun(HEADER, p0, HUGE_SEGMENT) == Run(HUGE_SECTIONS, NothingPlaced(2), 199, [], 199, 0, 0)
  {
    assert RaiseAlign(HUGE_SECTIONS, [1], HUGE, 1) == HUGE;
    Congruence.SmallMod(W64 / 2 - 1, HUGE);
    Congruence.SmallMod(120, HUGE);
    Congruence.PaddingValue(HUGE, W64 / 2 - 1, 120);
    Congruence.SmallMod(79, HUGE);
    assert SegPadding(HUGE, W64 / 2 - 1, 120) == 79;
  }

  /** A new segment behind the headers whose file position is not congruent to its virtual address. */
  lemma PaddingCanFail()
    ensures InRange([HUGE_SEGMENT], 2) && FileLayout(HEADER, HUGE_SECTIONS, [HUGE_SEGMENT]).Some?
    ensures var q := FileLayout(HEADER, HUGE_SECTIONS, [HUGE_SEGMENT]).value.plan;
      |q.segs| == 1 && q.segs[0].align == HUGE && q.segs[0].offset % HUGE != q.segs[0].vaddr % HUGE
  {
    hide StartRun, FileLayout, PlaceOne, HUGE;
    HugeStart();
    var p0 := Plan(HUGE_SECTIONS, [HUGE_SEGMENT], NothingPlaced(2), 120, []);
    var r0 := StartRun(HEADER, p0, HUGE_SEGMENT);
    var r1 := PlacePlain(HUGE_SEGMENT, 0, r0, 1, 8);
    assert PlaceUpTo(true, HUGE_SEGMENT, 0, r0, 0) == Some(r0);
    assert PlaceUpTo(true, HUGE_SEGMENT, 0, r0, 1) == Some(r1);
    var p := LayoutSegment(HEADER, p0, 0).value;
    OneSegment(HEADER, HUGE_SECTIONS, HUGE_SEGMENT, p);
    assert p.segs[0].offset == 199;
    NotCongruent();
  }

  lemma NotCongruent()
    ensures 199 % HUGE != (W64 / 2 - 1) % HUGE
  {
    Congruence.SmallMod(199, HUGE);
    Congruence.SmallMod(W64 / 2 - 1, HUGE);
  }
}
