/** The objects that `elfio::save` lays out, and the layout passes as the program runs them: sections and
    segments are updated in place while `currentFilePos` moves through the file. */
module ElfFile {
  import opened Words
  import opened LayoutModel
  import opened SegmentOrder
  import LayoutTheorems

  class Section {
    const wide: bool
    var stype: nat
    var flags: nat
    var addr: Word64
    var addrSet: bool
    var align: Word64
    var size: Word64
    var offset: Word64

    constructor (wide: bool)
      ensures this.wide == wide && Val() == Sec(SHT_NULL, 0, 0, false, 0, 0, 0)
    {
      this.wide := wide;
      stype, flags, addr, addrSet, align, size, offset := SHT_NULL, 0, 0, false, 0, 0, 0;
    }

    ghost function Val(): Sec
      reads this
    {
      Sec(stype, flags, addr, addrSet, align, size, offset)
    }

    method SetAddress(value: Word64)
      modifies this
      ensures Val() == old(Val()).(addr := Trunc(wide, value), addrSet := true)
    {
      addr := Trunc(wide, value);
      addrSet := true;
    }

    method SetOffset(value: Word64)
      modifies this
      ensures Val() == old(Val()).(offset := Trunc(wide, value))
    {
      offset := Trunc(wide, value);
    }
  }

  class Segment {
    const wide: bool
    var ptype: nat
    var align: Word64
    var vaddr: Word64
    var filesz: Word64
    var memsz: Word64
    var offset: Word64
    var offsetSet: bool
    var secs: seq<nat>

    constructor (wide: bool)
      ensures this.wide == wide && Val() == Seg(0, 0, 0, 0, 0, 0, false, [])
    {
      this.wide := wide;
      ptype, align, vaddr, filesz, memsz, offset, offsetSet, secs := 0, 0, 0, 0, 0, 0, false, [];
    }

    ghost function Val(): Seg
      reads this
    {
      Seg(ptype, align, vaddr, filesz, memsz, offset, offsetSet, secs)
    }

    /** Lists one more section, and raises the alignment to that section's. */
    method AddSectionIndex(index: nat, addrAlign: Word64) returns (count: nat)
      modifies this
      ensures Val() == old(Val()).(secs := old(secs) + [index], align := if addrAlign > old(align) then Trunc(wide, addrAlign) else old(align))
      ensures count == (|old(secs)| + 1) % 0x1_0000
    {
      secs := secs + [index];
      if addrAlign > align {
        align := Trunc(wide, addrAlign);
      }
      count := |secs| % 0x1_0000;
    }

    method SetFileSize(value: Word64)
      modifies this
      ensures Val() == old(Val()).(filesz := Trunc(wide, value))
    {
      filesz := Trunc(wide, value);
    }

    method SetMemorySize(value: Word64)
      modifies this
      ensures Val() == old(Val()).(memsz := Trunc(wide, value))
    {
      memsz := Trunc(wide, value);
    }

    method SetOffset(value: Word64)
      modifies this
      ensures Val() == old(Val()).(offset := Trunc(wide, value), offsetSet := true)
    {
      offset := Trunc(wide, value);
      offsetSet := true;
    }
  }

  ghost function SecVals(ss: seq<Section>): (r: seq<Sec>)
    reads ss
    ensures |r| == |ss| && forall i :: 0 <= i < |ss| ==> r[i] == ss[i].Val()
  {
    if ss == [] then [] else SecVals(ss[..|ss| - 1]) + [ss[|ss| - 1].Val()]
  }

  ghost function SegVals(ss: seq<Segment>): (r: seq<Seg>)
    reads ss
    ensures |r| == |ss| && forall i :: 0 <= i < |ss| ==> r[i] == ss[i].Val()
  {
    if ss == [] then [] else SegVals(ss[..|ss| - 1]) + [ss[|ss| - 1].Val()]
  }

  /** The part of class `elfio` that layout works on. */
  class Elfio {
    const wide: bool
    const ehsize: nat
    const phentsize: nat
    const shentsize: nat
    var segmentsOffset: Word64
    var sectionsOffset: Word64
    var sections: seq<Section>
    var segments: seq<Segment>
    var currentFilePos: Word64
    // the same position without wrap-around, and the history of placements
    ghost var total: nat
    ghost var log: seq<Place>

    ghost predicate SectionsOk()
      reads `sections
    {
      && (forall a, b :: 0 <= a < b < |sections| ==> sections[a] != sections[b])
      && (forall a :: 0 <= a < |sections| ==> sections[a].wide == wide)
    }

    ghost predicate ListsOk()
      reads `sections, `segments, segments
    {
      forall a, k :: 0 <= a < |segments| && 0 <= k < |segments[a].secs| ==> segments[a].secs[k] < |sections|
    }

    ghost predicate Valid()
      reads `sections, `segments, segments
    {
      && SectionsOk()
      && (forall a, b :: 0 <= a < b < |segments| ==> segments[a] != segments[b])
      && (forall a :: 0 <= a < |segments| ==> segments[a].wide == wide)
      && ListsOk()
      && |sections| < 0x1_0000 && |segments| < 0x1_0000
      && ehsize < 0x1_0000 && phentsize < 0x1_0000 && shentsize < 0x1_0000
    }

    function Head(): Header { Header(wide, ehsize, phentsize, shentsize) }

    ghost predicate AtPosition()
      reads `currentFilePos, `total
    {
      currentFilePos == total % W64
    }

    // -------------------------------------------------------------- queries

    method IsSectionWithoutSegment(i: nat) returns (without: bool)
      ensures without <==> !InSegment(SegVals(segments), i)
    {
      hide SegVals;
      var found := false;
      var j := 0;
      while !found && j < |segments|
        invariant 0 <= j <= |segments|
        invariant found ==> InSegment(SegVals(segments), i)
        invariant !found ==> forall s :: 0 <= s < j ==> i !in segments[s].secs
        decreases |segments| - j
      {
        var k := 0;
        while !found && k < |segments[j].secs|
          invariant 0 <= k <= |segments[j].secs|
          invariant found ==> i in segments[j].secs
          invariant !found ==> i !in segments[j].secs[..k]
          decreases |segments[j].secs| - k
        {
          found := segments[j].secs[k] == i;
          k := k + 1;
        }
        if found {
          assert i in SegVals(segments)[j].secs;
        }
        j := j + 1;
      }
      without := !found;
    }

    method IsSubsequenceOf(a: Segment, b: Segment) returns (found: bool)
      ensures found == InsideOf(a.Val(), b.Val())
    {
      found := false;
      if |a.secs| < |b.secs| {
        found := Includes(b.secs, a.secs);
      }
    }

    /** The pass that opens `GetOrderedSegments`. */
    method BringZerosToFront() returns (worklist: seq<nat>)
      ensures worklist == SwapUpTo(SegVals(segments), Handle(|segments|), |segments|).0
    {
      hide SegVals, SwapUpTo;
      ghost var segs := SegVals(segments);
      ghost var all := Handle(|segments|);
      worklist := Handle(|segments|);
      var nextSlot := 0;
      var i := 0;
      SwapUpToFirst(segs, all);
      while i < |worklist|
        invariant |worklist| == |all| && i <= |worklist|
        invariant worklist == SwapUpTo(segs, all, i).0 && nextSlot == SwapUpTo(segs, all, i).1
      {
        ghost var next := SwapStep(segs, worklist, nextSlot, i);
        SwapUpToNext(segs, all, i);
        assert segs[worklist[i]] == segments[worklist[i]].Val() && segs[worklist[nextSlot]] == segments[worklist[nextSlot]].Val();
        if i != nextSlot && segments[worklist[i]].offsetSet && segments[worklist[i]].offset == 0 {
          if segments[worklist[nextSlot]].offset == 0 {
            nextSlot := nextSlot + 1;
          }
          worklist := worklist[i := worklist[nextSlot]][nextSlot := worklist[i]];
          nextSlot := nextSlot + 1;
        }
        assert worklist == next.0 && nextSlot == next.1;
        i := i + 1;
      }
    }

    /** Is the front segment inside one of those behind it? */
    method HasToWait(worklist: seq<nat>) returns (waits: bool)
      requires Handles(SegVals(segments), worklist) && worklist != []
      ensures waits == Waits(SegVals(segments), worklist)
    {
      hide SegVals, Includes;
      ghost var segs := SegVals(segments);
      var i := 1;
      while i < |worklist|
        invariant 1 <= i <= |worklist|
        invariant forall k :: 1 <= k < i ==> !InsideOf(segs[worklist[0]], segs[worklist[k]])
      {
        var inside := IsSubsequenceOf(segments[worklist[0]], segments[worklist[i]]);
        if inside {
          return true;
        }
        i := i + 1;
      }
      waits := false;
    }

    /** The segments in layout order, each as its position in `segments`. */
    method GetOrderedSegments() returns (res: seq<nat>)
      ensures res == Ordered(SegVals(segments))
    {
      hide SegVals, Drain, Waits, FirstWidest, Includes, SwapUpTo;
      ghost var segs := SegVals(segments);
      var worklist := BringZerosToFront();
      res := [];
      assert res + Drain(segs, worklist) == Ordered(segs);
      while worklist != []
        invariant segs == SegVals(segments)
        invariant Handles(segs, worklist)
        invariant res + Drain(segs, worklist) == Ordered(segs)
        decreases |worklist|, if worklist == [] then 0 else FirstWidest(segs, worklist)
      {
        DrainRound(segs, res, worklist);
        var seg := worklist[0];
        var waits := HasToWait(worklist);
        worklist := worklist[1..];
        if waits {
          worklist := worklist + [seg];
        } else {
          res := res + [seg];
        }
      }
    }

    // -------------------------------------------------------------- layout passes

    /** The padding in front of a section; None means the layout has to be given up. */
    method PaddingBefore(seg: Segment, sec: Section, generated: bool, start: Word64, filesize: Word64)
      returns (o: Option<Word64>)
      ensures o == SecAlign(seg.Val(), sec.Val(), generated, currentFilePos, start, filesize)
    {
      var secAlign: Word64 := 0;
      if !generated && sec.addrSet && sec.stype != SHT_NOBITS && sec.stype != SHT_NULL && sec.size != 0 {
        var reqOffset := Sub64(sec.addr, seg.vaddr);
        var curOffset := Sub64(currentFilePos, start);
        if reqOffset < curOffset {
          return None;
        }
        secAlign := reqOffset - curOffset;
      } else if !generated && !sec.addrSet {
        var align := if sec.align == 0 then 1 else sec.align;
        var error := currentFilePos % align;
        secAlign := (align - error) % align;
      } else if generated {
        secAlign := Sub64(Sub64(sec.offset, start), filesize);
      }
      o := Some(secAlign);
    }

    method Advance(bytes: Word64)
      requires AtPosition()
      modifies this`currentFilePos, this`total
      ensures AtPosition() && total == old(total) + bytes
    {
      AddResidue(total, bytes);
      currentFilePos := Add64(currentFilePos, bytes);
      total := total + bytes;
    }

    /** Gives a section that is not placed yet its address (if it has none), its offset and its bytes. */
    method PlaceAt(seg: Segment, sec: Section, ghost owner: int, index: nat, start: Word64, ghost pad: nat)
      requires AtPosition() && sec.wide == wide && sec.stype != SHT_NULL
      modifies this`currentFilePos, this`total, this`log, sec
      ensures AtPosition() && total == old(total) + FileLen(old(sec.Val()))
      ensures sec.Val() == Stamp(wide, seg.Val(), old(sec.Val()), index, old(total) % W64, start)
      ensures log == old(log) + [Place(index, owner, old(total), FileLen(old(sec.Val())), pad)]
    {
      log := log + [Place(index, owner, total, FileLen(sec.Val()), pad)];
      if !sec.addrSet {
        sec.SetAddress(Sub64(Add64(seg.vaddr, currentFilePos), start));
      }
      if index != 0 {
        sec.SetOffset(currentFilePos);
      }
      if sec.stype != SHT_NOBITS {
        Advance(sec.size);
      }
    }

    /** One iteration of the inner loop of `LayoutSegmentsAndTheirSections`. */
    method PlaceSection(seg: Segment, ghost owner: int, index: nat, generated: seq<bool>, start: Word64,
                        memory: Word64, filesize: Word64)
      returns (ok: bool, generated': seq<bool>, memory': Word64, filesize': Word64)
      requires SectionsOk() && AtPosition() && index < |sections| == |generated|
      modifies this`currentFilePos, this`total, this`log, sections[index]
      ensures var o := PlaceOne(wide, seg.Val(), owner,
                                old(Run(SecVals(sections), generated, total, log, start, memory, filesize)), index);
        && (ok <==> o.Some?)
        && (ok ==> o.value == Run(SecVals(sections), generated', total, log, start, memory', filesize'))
      ensures AtPosition()
    {
      hide SecVals, PlaceOne, SecAlign, Stamp, Add64, Sub64, HasBit;
      var sec := sections[index];
      ghost var before := SecVals(sections);
      ghost var run := Run(before, generated, total, log, start, memory, filesize);
      generated', memory', filesize' := generated, memory, filesize;
      if sec.stype == SHT_NULL {
        generated' := generated[index := true];
        NullIs(wide, seg.Val(), owner, run, index);
        return true, generated', memory', filesize';
      }
      var secAlign := PaddingBefore(seg, sec, generated[index], start, filesize);
      if secAlign == None {
        GivenUp(wide, seg.Val(), owner, run, index);
        return false, generated', memory', filesize';
      }

      if HasBit(sec.flags, SHF_ALLOC) && !(HasBit(sec.flags, SHF_TLS) && seg.ptype != PT_TLS && sec.stype == SHT_NOBITS) {
        memory' := Add64(memory, Add64(sec.size, secAlign.value));
      }
      if sec.stype != SHT_NOBITS {
        filesize' := Add64(filesize, Add64(sec.size, secAlign.value));
      }
      if generated[index] {
        SkippedIs(wide, seg.Val(), owner, run, index, secAlign.value, run.(mem := memory', file := filesize'));
        return true, generated', memory', filesize';
      }

      Advance(secAlign.value);
      assert seg.Val() == old(seg.Val()) && sec.Val() == before[index];
      PlaceAt(seg, sec, owner, index, start, secAlign.value);
      generated' := generated[index := true];
      ok := true;
      assert SecVals(sections) == before[index := sec.Val()];
      PlacedIs(wide, seg.Val(), owner, run, index,
               secAlign.value, Run(SecVals(sections), generated', total, log, start, memory', filesize'));
    }

    /** Where segment `seg` starts, with its initial sizes; a segment that brings its own first section is aligned. */
    method StartSegment(seg: Segment, generated: seq<bool>) returns (start: Word64, memory: Word64, filesize: Word64)
      requires Valid() && AtPosition() && |generated| == |sections| && HeaderPlaced()
      requires forall k :: 0 <= k < |seg.secs| ==> seg.secs[k] < |sections|
      modifies this`currentFilePos, this`total
      ensures AtPosition()
      ensures Run(SecVals(sections), generated, total, log, start, memory, filesize)
              == StartRun(Head(), old(Plan(SecVals(sections), SegVals(segments), generated, total, log)), seg.Val())
    {
      hide SecVals, SegVals;
      start, memory, filesize := currentFilePos, 0, 0;
      if seg.ptype == PT_PHDR && |seg.secs| == 0 {
        start := segmentsOffset;
        HeaderBytes(phentsize, |segments|);
        filesize := phentsize * |segments|;
        memory := filesize;
      } else if seg.offsetSet && seg.offset == 0 {
        start := 0;
        if |seg.secs| > 0 {
          filesize := currentFilePos;
          memory := filesize;
        }
      } else if |seg.secs| > 0 && !generated[seg.secs[0]] {
        var align := if seg.align > 0 then seg.align else 1;
        var curPageAlignment := currentFilePos % align;
        var reqPageAlignment := seg.vaddr % align;
        var error := Sub64(reqPageAlignment, curPageAlignment);
        Advance(Add64(seg.align, error) % align);
        start := currentFilePos;
      } else if |seg.secs| > 0 {
        start := sections[seg.secs[0]].offset;
      }
    }

    /** The inner loop of `LayoutSegmentsAndTheirSections`. */
    method PlaceSections(seg: Segment, ghost owner: int, generated: seq<bool>, start: Word64, memory: Word64, filesize: Word64)
      returns (ok: bool, generated': seq<bool>, memory': Word64, filesize': Word64)
      requires SectionsOk() && AtPosition() && |generated| == |sections|
      requires forall k :: 0 <= k < |seg.secs| ==> seg.secs[k] < |sections|
      modifies this`currentFilePos, this`total, this`log, sections
      ensures AtPosition()
      ensures var o := PlaceUpTo(wide, seg.Val(), owner,
                                 old(Run(SecVals(sections), generated, total, log, start, memory, filesize)), |seg.secs|);
        && (ok <==> o.Some?)
        && (ok ==> o.value == Run(SecVals(sections), generated', total, log, start, memory', filesize'))
    {
      hide SecVals, PlaceOne, PlaceUpTo;
      ghost var val := seg.Val();
      ghost var run := Run(SecVals(sections), generated, total, log, start, memory, filesize);
      generated', memory', filesize' := generated, memory, filesize;
      PlaceUpToFirst(wide, val, owner, run);
      var j := 0;
      while j < |seg.secs|
        invariant 0 <= j <= |val.secs|
        invariant seg.Val() == val
        invariant AtPosition() && |generated'| == |sections|
        invariant PlaceUpTo(wide, val, owner, run, j)
                  == Some(Run(SecVals(sections), generated', total, log, start, memory', filesize'))
      {
        PlaceUpToNext(wide, val, owner, run, j);
        ok, generated', memory', filesize' := PlaceSection(seg, owner, seg.secs[j], generated', start, memory', filesize');
        if !ok {
          PlaceUpToFails(wide, val, owner, run, j + 1, |val.secs|);
          return;
        }
        j := j + 1;
      }
      ok := true;
    }

    /** Stores the start position and the sizes of a segment. */
    method FinishOneSegment(seg: Segment, ghost r: Run, start: Word64, memory: Word64, filesize: Word64)
      requires seg.wide == wide && r.start == start && r.mem == memory && r.file == filesize
      modifies seg
      ensures seg.Val() == FinishSegment(wide, old(seg.Val()), r) && seg.secs == old(seg.secs)
    {
      seg.SetFileSize(filesize);
      if seg.memsz < memory {
        seg.SetMemorySize(memory);
      }
      seg.SetOffset(start);
    }

    /** Start position, sections and sizes of a segment. */
    method RunSegment(i: nat, generated: seq<bool>)
      returns (ok: bool, generated': seq<bool>, start: Word64, memory: Word64, filesize: Word64)
      requires Valid() && AtPosition() && HeaderPlaced() && i < |segments| && |generated| == |sections|
      modifies this`currentFilePos, this`total, this`log, sections
      ensures AtPosition() && SegVals(segments) == old(SegVals(segments)) && InRange(SegVals(segments), |sections|)
      ensures var o := PlaceUpTo(wide, SegVals(segments)[i], i,
                                 StartRun(Head(), old(Plan(SecVals(sections), SegVals(segments), generated, total, log)), SegVals(segments)[i]),
                                 |SegVals(segments)[i].secs|);
        && (ok <==> o.Some?)
        && (ok ==> o.value == Run(SecVals(sections), generated', total, log, start, memory, filesize))
    {
      hide SecVals, SegVals, StartRun, PlaceUpTo, SectionsOk, ListsOk;
      ListsInRange(i);
      start, memory, filesize := StartSegment(segments[i], generated);
      ok, generated', memory, filesize := PlaceSections(segments[i], i, generated, start, memory, filesize);
    }

    /** One iteration of the outer loop of `LayoutSegmentsAndTheirSections`. */
    method LayoutOneSegment(i: nat, generated: seq<bool>) returns (ok: bool, generated': seq<bool>)
      requires Valid() && AtPosition() && HeaderPlaced() && i < |segments| && |generated| == |sections|
      modifies this`currentFilePos, this`total, this`log, sections, segments
      ensures Valid() && AtPosition() && HeaderPlaced()
      ensures var o := LayoutSegment(Head(), old(Plan(SecVals(sections), SegVals(segments), generated, total, log)), i);
        && (ok <==> o.Some?)
        && (ok ==> o.value == Plan(SecVals(sections), SegVals(segments), generated', total, log))
    {
      hide SecVals, SegVals, StartRun, PlaceUpTo, FinishSegment, Trunc, SectionsOk, ListsOk, FileLen;
      var seg := segments[i];
      ghost var segs := SegVals(segments);
      var start, memory, filesize;
      ok, generated', start, memory, filesize := RunSegment(i, generated);
      if !ok {
        return;
      }
      ghost var done := Run(SecVals(sections), generated', total, log, start, memory, filesize);
      FinishOneSegment(seg, done, start, memory, filesize);
      assert forall a :: 0 <= a < |segments| && a != i ==> segments[a].Val() == segs[a];
      assert forall a :: 0 <= a < |segments| ==> segments[a].secs == segs[a].secs;
      assert SegVals(segments) == segs[i := FinishSegment(wide, segs[i], done)];
      ListsKept();
    }

    lemma AllListsInRange()
      requires ListsOk()
      ensures InRange(SegVals(segments), |sections|)
    {
      hide SegVals;
    }

    lemma ListsInRange(i: nat)
      requires ListsOk() && i < |segments|
      ensures InRange(SegVals(segments), |sections|)
      ensures forall k :: 0 <= k < |segments[i].secs| ==> segments[i].secs[k] < |sections|
    {
      hide SegVals;
    }

    twostate lemma ListsKept()
      requires old(ListsOk()) && sections == old(sections) && segments == old(segments)
      requires forall a :: 0 <= a < |segments| ==> segments[a].secs == old(segments[a].secs)
      ensures ListsOk()
    {
    }

    /** The outer loop of `LayoutSegmentsAndTheirSections`. */
    method LayoutWorklist(worklist: seq<nat>) returns (ok: bool, ghost gen: seq<bool>)
      requires Valid() && AtPosition() && HeaderPlaced()
      requires forall k :: 0 <= k < |worklist| ==> worklist[k] < |segments|
      modifies this`currentFilePos, this`total, this`log, sections, segments
      ensures Valid() && AtPosition() && HeaderPlaced()
      ensures FirstPassResult(Head(), old(Plan(SecVals(sections), SegVals(segments), NothingPlaced(|sections|), total, log)),
                              worklist, |worklist|, ok, Plan(SecVals(sections), SegVals(segments), gen, total, log))
    {
      hide SecVals, SegVals, LayoutSegment, SegmentsUpTo, NothingPlaced, FirstPassResult, SectionsOk, ListsOk, InRange;
      var generated := NothingPlaced(|sections|);
      AllListsInRange();
      gen := generated;
      ghost var head, p0 := Head(), Plan(SecVals(sections), SegVals(segments), generated, total, log);
      FirstPassStarts(head, p0, worklist);
      ok := true;
      var i := 0;
      while ok && i < |worklist|
        invariant 0 <= i <= |worklist|
        invariant Valid() && AtPosition() && HeaderPlaced()
        invariant gen == generated
        invariant FirstPassResult(head, p0, worklist, i, ok, Plan(SecVals(sections), SegVals(segments), generated, total, log))
      {
        ghost var q := Plan(SecVals(sections), SegVals(segments), generated, total, log);
        FirstPassShape(head, p0, worklist, i, q);
        ok, generated := LayoutOneSegment(worklist[i], generated);
        gen := generated;
        FirstPassContinues(head, p0, worklist, i, q, ok, Plan(SecVals(sections), SegVals(segments), generated, total, log));
        i := i + 1;
      }
      FirstPassEnds(head, p0, worklist, i, ok, Plan(SecVals(sections), SegVals(segments), gen, total, log));
    }

    /** Segments in worklist order; no further one is laid out after a failure. */
    method LayoutSegmentsAndTheirSections() returns (ok: bool, ghost gen: seq<bool>)
      requires Valid() && AtPosition() && HeaderPlaced()
      modifies this`currentFilePos, this`total, this`log, sections, segments
      ensures Valid() && AtPosition() && HeaderPlaced()
      ensures FirstPassResult(Head(), old(Plan(SecVals(sections), SegVals(segments), NothingPlaced(|sections|), total, log)),
                              old(Ordered(SegVals(segments))), |old(Ordered(SegVals(segments)))|, ok,
                              Plan(SecVals(sections), SegVals(segments), gen, total, log))
    {
      hide SecVals, SegVals, Ordered, NothingPlaced, FirstPassResult;
      var worklist := GetOrderedSegments();
      OrderedIsComplete(SegVals(segments));
      ok, gen := LayoutWorklist(worklist);
    }

    /** The sections that no segment lists, behind all segments. */
    method LayoutSectionsWithoutSegments()
      requires Valid() && AtPosition()
      modifies this`currentFilePos, this`total, this`log, sections
      ensures AtPosition()
      ensures forall gen :: var p := old(Plan(SecVals(sections), SegVals(segments), gen, total, log));
        LooseUpTo(wide, p, |sections|) == Plan(SecVals(sections), SegVals(segments), gen, total, log)
    {
      hide SecVals, SegVals, LooseUpTo, PlaceLoose;
      ghost var p := Plan(SecVals(sections), SegVals(segments), [], total, log);
      LooseUpToFirst(wide, p);
      var i := 0;
      while i < |sections|
        invariant 0 <= i <= |sections|
        invariant AtPosition() && SegVals(segments) == p.segs
        invariant LooseUpTo(wide, p, i) == Plan(SecVals(sections), SegVals(segments), [], total, log)
      {
        LooseUpToNext(wide, p, i);
        var without := IsSectionWithoutSegment(i);
        if without {
          PlaceLooseSection(i);
        } else {
          NotLoose(wide, LooseUpTo(wide, p, i), i);
        }
        i := i + 1;
      }
      forall gen
        ensures LooseUpTo(wide, old(Plan(SecVals(sections), SegVals(segments), gen, total, log)), |sections|)
                == Plan(SecVals(sections), SegVals(segments), gen, total, log)
      {
        LooseIgnoresFlags(wide, p, gen, |sections|);
      }
    }

    method AlignLoose(sectionAlign: Word64)
      requires AtPosition()
      modifies this`currentFilePos, this`total
      ensures AtPosition() && total == old(total) + LoosePadding(sectionAlign, old(total) % W64)
    {
      if sectionAlign > 1 && currentFilePos % sectionAlign != 0 {
        Advance(sectionAlign - currentFilePos % sectionAlign);
      }
    }

    method PlaceLooseSection(i: nat)
      requires SectionsOk() && AtPosition() && i < |sections| && !InSegment(SegVals(segments), i)
      modifies this`currentFilePos, this`total, this`log, sections[i]
      ensures AtPosition()
      ensures PlaceLoose(wide, old(Plan(SecVals(sections), SegVals(segments), [], total, log)), i)
              == Plan(SecVals(sections), SegVals(segments), [], total, log)
    {
      hide SecVals, SegVals, Trunc, PlaceLoose, InSegment, LoosePadding;
      var sec := sections[i];
      ghost var p := Plan(SecVals(sections), SegVals(segments), [], total, log);
      AlignLoose(sec.align);
      assert sec.Val() == p.secs[i];
      log := log + [Place(i, LOOSE, total, FileLen(sec.Val()), total - p.total)];
      if i != 0 {
        sec.SetOffset(currentFilePos);
      }
      if SHT_NOBITS != sec.stype && SHT_NULL != sec.stype {
        Advance(sec.size);
      }
      assert SecVals(sections) == p.secs[i := sec.Val()];
      assert SegVals(segments) == p.segs;
      LooseIs(wide, p, i, Plan(SecVals(sections), SegVals(segments), [], total, log));
    }

    /** The section header table goes to the next multiple of four. */
    method LayoutSectionTable()
      requires AtPosition()
      modifies this`currentFilePos, this`total, this`sectionsOffset
      ensures AtPosition() && total == TableStart(old(total)) && sectionsOffset == Trunc(wide, total % W64)
    {
      var alignmentError := currentFilePos % 4;
      Advance((4 - alignmentError) % 4);
      sectionsOffset := Trunc(wide, currentFilePos);
    }

    /** Raises the alignment of every segment to the largest of its sections. */
    method CalcSegmentAlignment()
      requires Valid()
      modifies segments
      ensures Valid() && InRange(old(SegVals(segments)), |sections|)
      ensures SegVals(segments) == Raised(SecVals(sections), old(SegVals(segments)))
    {
      hide SecVals, SegVals, RaiseAlign, Raised;
      ghost var segs0, secs := SegVals(segments), SecVals(sections);
      ghost var raised := Raised(secs, segs0);
      var s := 0;
      while s < |segments|
        invariant 0 <= s <= |segments| && ListsOk() && SecVals(sections) == secs
        invariant forall a :: 0 <= a < s ==> segments[a].Val() == raised[a]
        invariant forall a :: s <= a < |segments| ==> segments[a].Val() == segs0[a]
      {
        RaisedAt(secs, segs0, s);
        RaiseSegment(segments[s]);
        s := s + 1;
      }
    }

    method RaiseSegment(seg: Segment)
      requires forall k :: 0 <= k < |seg.secs| ==> seg.secs[k] < |sections|
      modifies seg
      ensures seg.secs == old(seg.secs)
      ensures seg.Val() == old(seg.Val()).(align := RaiseAlign(SecVals(sections), old(seg.secs), old(seg.align), |old(seg.secs)|))
    {
      hide SecVals;
      var i := 0;
      while i < |seg.secs|
        invariant 0 <= i <= |seg.secs| && seg.secs == old(seg.secs)
        invariant seg.Val() == old(seg.Val()).(align := RaiseAlign(SecVals(sections), seg.secs, old(seg.align), i))
      {
        var sect := sections[seg.secs[i]];
        if sect.align > seg.align {
          seg.align := sect.align;
        }
        i := i + 1;
      }
    }

    /** The program header table directly behind the file header, and the position behind both. */
    method PlaceHeader()
      requires Valid()
      modifies this`currentFilePos, this`total, this`log, this`segmentsOffset, this`sectionsOffset
      ensures HeaderPlaced() && AtPosition() && total == ehsize + phentsize * |segments| && log == [] && sectionsOffset == 0
    {
      segmentsOffset := if |segments| > 0 then ehsize else 0;
      sectionsOffset := 0;
      HeaderBytes(phentsize, |segments|);
      var tableBytes := phentsize * |segments|;
      currentFilePos := Add64(ehsize, tableBytes);
      total := ehsize + tableBytes;
      log := [];
    }

    /** The header fields that layout needs, and the alignment of the segments. */
    method StartFile()
      requires Valid()
      modifies this`currentFilePos, this`total, this`log, this`segmentsOffset, this`sectionsOffset, segments
      ensures Valid() && HeaderPlaced() && AtPosition()
      ensures InRange(old(SegVals(segments)), |sections|)
      ensures Plan(SecVals(sections), SegVals(segments), NothingPlaced(|sections|), total, log)
              == StartPlan(Head(), old(SecVals(sections)), old(SegVals(segments)))
    {
      hide SecVals, SegVals, Raised, NothingPlaced, InRange, SectionsOk;
      PlaceHeader();
      CalcSegmentAlignment();
      assert SecVals(sections) == old(SecVals(sections));
    }

    /** The part of `save` that decides where everything goes. */
    method LayoutFile() returns (ok: bool, ghost gen: seq<bool>)
      requires Valid()
      modifies this`currentFilePos, this`total, this`log, this`segmentsOffset, this`sectionsOffset, sections, segments
      ensures var head, secs, segs := Head(), old(SecVals(sections)), old(SegVals(segments));
        && InRange(segs, |secs|)
        && var o := LayoutTheorems.FileLayout(head, secs, segs);
        && (ok <==> o.Some?)
        && (ok ==> o.value == Done(Plan(SecVals(sections), SegVals(segments), gen, total, log), sectionsOffset))
      ensures HeaderPlaced()
    {
      hide SecVals, SegVals, SegmentsUpTo, LooseUpTo, Ordered, Raised, TableStart, Trunc, NothingPlaced, HeadersEnd, Completed;
      ghost var secs, segs := SecVals(sections), SegVals(segments);
      StartFile();
      ghost var p0 := StartPlan(Head(), secs, segs);
      OrderedIsComplete(p0.segs);
      ok, gen := LayoutSegmentsAndTheirSections();
      if ok {
        LayoutRest(gen);
      }
    }

    /** The second pass and the section header table. */
    method LayoutRest(ghost gen: seq<bool>)
      requires Valid() && AtPosition()
      modifies this`currentFilePos, this`total, this`log, this`sectionsOffset, sections
      ensures old(Completed(wide, Plan(SecVals(sections), SegVals(segments), gen, total, log)))
              == Done(Plan(SecVals(sections), SegVals(segments), gen, total, log), sectionsOffset)
    {
      hide SecVals, SegVals, LooseUpTo, TableStart, Trunc;
      ghost var p := Plan(SecVals(sections), SegVals(segments), gen, total, log);
      LayoutSectionsWithoutSegments();
      ghost var q := Plan(SecVals(sections), SegVals(segments), gen, total, log);
      assert q == LooseUpTo(wide, p, |sections|);
      LayoutSectionTable();
      assert SecVals(sections) == q.secs && SegVals(segments) == q.segs;
    }

    ghost predicate HeaderPlaced()
      reads `segments, `segmentsOffset
    {
      segmentsOffset == if |segments| > 0 then ehsize % W64 else 0
    }
  }

  lemma ProductBound(a: nat, b: nat, x: nat, y: nat)
    requires a <= x && b <= y
    ensures a * b <= x * y
  {
    assert a * b <= a * y;
    assert a * y <= x * y;
  }

  lemma HeaderBytes(size: nat, count: nat)
    requires size < 0x1_0000 && count < 0x1_0000
    ensures 0 <= size * count <= 0x1_0000_0000
    ensures size * count % W64 == size * count
  {
    var v := size * count;
    assert v <= 0x1_0000_0000 by {
      ProductBound(size, count, 0x1_0000, 0x1_0000);
    }
    WordResidue(v);
  }

  lemma WordResidue(v: nat)
    requires v < W64
    ensures v % W64 == v
  {
  }

  /** The run after a first placement, field by field. */
  lemma PlacedIs(wide: bool, seg: Seg, owner: int, r: Run, index: nat, pad: Word64, r': Run)
    requires index < |r.secs| == |r.gen| && r.secs[index].stype != SHT_NULL && !r.gen[index]
    requires SecAlign(seg, r.secs[index], false, r.total % W64, r.start, r.file) == Some(pad)
    requires r'.secs == r.secs[index := Stamp(wide, seg, r.secs[index], index, (r.total + pad) % W64, r.start)]
    requires r'.gen == r.gen[index := true]
    requires r'.total == r.total + pad + FileLen(r.secs[index])
    requires r'.log == r.log + [Place(index, owner, r.total + pad, FileLen(r.secs[index]), pad)]
    requires r'.start == r.start
    requires r'.mem == if TakesMemory(seg, r.secs[index]) then Add64(r.mem, Add64(r.secs[index].size, pad)) else r.mem
    requires r'.file == if r.secs[index].stype != SHT_NOBITS then Add64(r.file, Add64(r.secs[index].size, pad)) else r.file
    ensures PlaceOne(wide, seg, owner, r, index) == Some(r')
  {
    hide SecAlign, Stamp, Add64;
  }

  /** The run after meeting a section that was placed before. */
  lemma SkippedIs(wide: bool, seg: Seg, owner: int, r: Run, index: nat, pad: Word64, r': Run)
    requires index < |r.secs| == |r.gen| && r.secs[index].stype != SHT_NULL && r.gen[index]
    requires SecAlign(seg, r.secs[index], true, r.total % W64, r.start, r.file) == Some(pad)
    requires r' == r.(mem := r'.mem, file := r'.file)
    requires r'.mem == if TakesMemory(seg, r.secs[index]) then Add64(r.mem, Add64(r.secs[index].size, pad)) else r.mem
    requires r'.file == if r.secs[index].stype != SHT_NOBITS then Add64(r.file, Add64(r.secs[index].size, pad)) else r.file
    ensures PlaceOne(wide, seg, owner, r, index) == Some(r')
  {
    hide SecAlign, Stamp, Add64;
  }

  lemma GivenUp(wide: bool, seg: Seg, owner: int, r: Run, index: nat)
    requires index < |r.secs| == |r.gen| && r.secs[index].stype != SHT_NULL
    requires SecAlign(seg, r.secs[index], r.gen[index], r.total % W64, r.start, r.file) == None
    ensures PlaceOne(wide, seg, owner, r, index) == None
  {
  }

  lemma NullIs(wide: bool, seg: Seg, owner: int, r: Run, index: nat)
    requires index < |r.secs| == |r.gen| && r.secs[index].stype == SHT_NULL
    ensures PlaceOne(wide, seg, owner, r, index) == Some(r.(gen := r.gen[index := true]))
  {
  }

  lemma PlaceUpToFirst(wide: bool, seg: Seg, owner: int, r: Run)
    requires |r.secs| == |r.gen| && forall k :: 0 <= k < |seg.secs| ==> seg.secs[k] < |r.secs|
    ensures PlaceUpTo(wide, seg, owner, r, 0) == Some(r)
  {
  }

  lemma PlaceUpToNext(wide: bool, seg: Seg, owner: int, r: Run, n: nat)
    requires |r.secs| == |r.gen| && (forall k :: 0 <= k < |seg.secs| ==> seg.secs[k] < |r.secs|) && n < |seg.secs|
    requires PlaceUpTo(wide, seg, owner, r, n).Some?
    ensures PlaceUpTo(wide, seg, owner, r, n + 1) == PlaceOne(wide, seg, owner, PlaceUpTo(wide, seg, owner, r, n).value, seg.secs[n])
  {
  }

  lemma {:induction false} PlaceUpToFails(wide: bool, seg: Seg, owner: int, r: Run, m: nat, n: nat)
    requires |r.secs| == |r.gen| && (forall k :: 0 <= k < |seg.secs| ==> seg.secs[k] < |r.secs|) && m <= n <= |seg.secs|
    requires PlaceUpTo(wide, seg, owner, r, m) == None
    ensures PlaceUpTo(wide, seg, owner, r, n) == None
  {
    hide PlaceOne;
    if m < n {
      PlaceUpToFails(wide, seg, owner, r, m, n - 1);
    }
  }

  lemma SegmentsUpToNext(h: Header, p: Plan, order: seq<nat>, n: nat)
    requires (forall k :: 0 <= k < |order| ==> order[k] < |p.segs|) && |p.gen| == |p.secs| && InRange(p.segs, |p.secs|)
    requires n < |order| && SegmentsUpTo(h, p, order, n).Some?
    ensures var q := SegmentsUpTo(h, p, order, n).value;
      |q.segs| == |p.segs| && |q.secs| == |q.gen| == |p.secs| && InRange(q.segs, |q.secs|)
      && SegmentsUpTo(h, p, order, n + 1) == LayoutSegment(h, q, order[n])
  {
  }

  lemma {:induction false} SegmentsUpToFails(h: Header, p: Plan, order: seq<nat>, m: nat, n: nat)
    requires (forall k :: 0 <= k < |order| ==> order[k] < |p.segs|) && |p.gen| == |p.secs| && InRange(p.segs, |p.secs|)
    requires m <= n <= |order| && SegmentsUpTo(h, p, order, m) == None
    ensures SegmentsUpTo(h, p, order, n) == None
  {
    hide LayoutSegment;
    if m < n {
      SegmentsUpToFails(h, p, order, m, n - 1);
    }
  }

  lemma LooseUpToFirst(wide: bool, p: Plan)
    ensures LooseUpTo(wide, p, 0) == p
  {
  }

  lemma LooseUpToNext(wide: bool, p: Plan, n: nat)
    requires n < |p.secs|
    ensures LooseUpTo(wide, p, n + 1) == PlaceLoose(wide, LooseUpTo(wide, p, n), n)
  {
  }

  /** The plan after placing a loose section, field by field. */
  lemma LooseIs(wide: bool, p: Plan, i: nat, q: Plan)
    requires i < |p.secs| && !InSegment(p.segs, i) && q.segs == p.segs && q.gen == p.gen
    requires var at := p.total + LoosePadding(p.secs[i].align, p.total % W64);
      && q.secs == p.secs[i := if i != 0 then p.secs[i].(offset := Trunc(wide, at % W64)) else p.secs[i]]
      && q.total == at + FileLen(p.secs[i])
      && q.log == p.log + [Place(i, LOOSE, at, FileLen(p.secs[i]), at - p.total)]
    ensures PlaceLoose(wide, p, i) == q
  {
    hide LoosePadding, Trunc, InSegment;
  }

  lemma RaisedAt(secs: seq<Sec>, segs: seq<Seg>, s: nat)
    requires InRange(segs, |secs|) && s < |segs|
    ensures Raised(secs, segs)[s] == segs[s].(align := RaiseAlign(secs, segs[s].secs, segs[s].align, |segs[s].secs|))
  {
  }

  lemma NotLoose(wide: bool, p: Plan, i: nat)
    requires i < |p.secs| && InSegment(p.segs, i)
    ensures PlaceLoose(wide, p, i) == p
  {
  }

  /** The second pass does not look at the flags of the first. */
  lemma {:induction false} LooseIgnoresFlags(wide: bool, p: Plan, gen: seq<bool>, n: nat)
    requires n <= |p.secs|
    ensures LooseUpTo(wide, p.(gen := gen), n) == LooseUpTo(wide, p, n).(gen := gen)
  {
    hide LoosePadding, Trunc, InSegment;
    if n > 0 {
      LooseIgnoresFlags(wide, p, gen, n - 1);
    }
  }

  /** What the first `n` steps over `order` make of `p0`: plan `p`, or nothing. */
  ghost predicate FirstPassResult(h: Header, p0: Plan, order: seq<nat>, n: nat, ok: bool, p: Plan) {
    && |p0.gen| == |p0.secs| && InRange(p0.segs, |p0.secs|) && Handles(p0.segs, order) && n <= |order|
    && var o := SegmentsUpTo(h, p0, order, n);
    && (ok <==> o.Some?)
    && (ok ==> o.value == p)
  }

  lemma FirstPassStarts(h: Header, p0: Plan, order: seq<nat>)
    requires |p0.gen| == |p0.secs| && InRange(p0.segs, |p0.secs|) && Handles(p0.segs, order)
    ensures FirstPassResult(h, p0, order, 0, true, p0)
  {
  }

  lemma FirstPassShape(h: Header, p0: Plan, order: seq<nat>, i: nat, q: Plan)
    requires i < |order| && FirstPassResult(h, p0, order, i, true, q)
    ensures |q.segs| == |p0.segs| && |q.secs| == |q.gen| == |p0.secs| && InRange(q.segs, |q.secs|)
  {
    SegmentsUpToNext(h, p0, order, i);
  }

  /** One more segment. */
  lemma FirstPassContinues(h: Header, p0: Plan, order: seq<nat>, i: nat, q: Plan, ok: bool, p: Plan)
    requires i < |order| && FirstPassResult(h, p0, order, i, true, q)
    requires |q.gen| == |q.secs| && InRange(q.segs, |q.secs|) && order[i] < |q.segs|
    requires ok <==> LayoutSegment(h, q, order[i]).Some?
    requires ok ==> LayoutSegment(h, q, order[i]).value == p
    ensures FirstPassResult(h, p0, order, i + 1, ok, p)
  {
    hide LayoutSegment;
    SegmentsUpToNext(h, p0, order, i);
  }

  lemma FirstPassEnds(h: Header, p0: Plan, order: seq<nat>, i: nat, ok: bool, q: Plan)
    requires FirstPassResult(h, p0, order, i, ok, q)
    requires ok ==> i == |order|
    ensures FirstPassResult(h, p0, order, |order|, ok, q)
  {
    if !ok {
      SegmentsUpToFails(h, p0, order, i, |order|);
    }
  }

  lemma AddResidue(total: nat, bytes: Word64)
    ensures Add64(total % W64, bytes) == (total + bytes) % W64
  {
  }
}
