/** What is known about a segment from the moment it has been laid out until the file is complete. */
module SegmentResult {
  import opened Words
  import opened LayoutModel
  import opened LayoutFacts
  import opened SegmentFacts
  import opened SelfPlaced

  ghost predicate ListInRange(list: seq<nat>, n: nat) {
    forall k :: 0 <= k < |list| ==> list[k] < n
  }

  /** Every file-backed section of the segment lies inside the segment's file image. */
  ghost predicate Covers(secs: seq<Sec>, seg: Seg)
    requires ListInRange(seg.secs, |secs|)
  {
    forall k :: 0 <= k < |seg.secs| && seg.secs[k] != 0 && Backed(secs[seg.secs[k]]) ==>
      && seg.offset <= secs[seg.secs[k]].offset
      && secs[seg.secs[k]].offset + secs[seg.secs[k]].size <= seg.offset + seg.filesz
  }

  /** Every section of the segment, with or without file bytes, ends within the segment's memory image. */
  ghost predicate MemoryCovers(secs: seq<Sec>, seg: Seg)
    requires ListInRange(seg.secs, |secs|)
  {
    forall k :: 0 <= k < |seg.secs| && seg.secs[k] != 0 && secs[seg.secs[k]].stype != SHT_NULL ==>
      && seg.offset <= secs[seg.secs[k]].offset
      && secs[seg.secs[k]].offset - seg.offset + secs[seg.secs[k]].size <= seg.memsz
  }

  /** The segment has sections, section 0 (if it lists it) is the null section, and the null section comes
      first only in a segment that starts at file offset 0. */
  ghost predicate Regular(secs: seq<Sec>, seg0: Seg)
    requires ListInRange(seg0.secs, |secs|)
  {
    && |seg0.secs| > 0
    && (secs[seg0.secs[0]].stype != SHT_NULL || StartsAtZero(seg0))
    && (forall k :: 0 <= k < |seg0.secs| && seg0.secs[k] == 0 ==> secs[0].stype == SHT_NULL)
  }

  /** The segment placed all its sections itself. */
  ghost predicate PlacedItself(secs: seq<Sec>, seg0: Seg, log: seq<Place>, s: int)
    requires ListInRange(seg0.secs, |secs|)
  {
    && Regular(secs, seg0)
    && (forall k :: 0 <= k < |seg0.secs| && secs[seg0.secs[k]].stype != SHT_NULL ==> Owns(log, s, seg0.secs[k]))
    && Distinct(seg0.secs)
  }

  /** Where a segment starts whose sections were all placed by other segments. */
  function SharedStart(secs: seq<Sec>, seg0: Seg): Word64
    requires |seg0.secs| > 0 && seg0.secs[0] < |secs|
  {
    if StartsAtZero(seg0) then 0 else secs[seg0.secs[0]].offset
  }

  /** All sections of the segment were placed by other segments, and they are listed in ascending order. */
  ghost predicate PlacedByOthers(secs: seq<Sec>, seg0: Seg, log: seq<Place>, s: int)
    requires ListInRange(seg0.secs, |secs|)
  {
    && Regular(secs, seg0)
    && (forall k :: 0 <= k < |seg0.secs| ==> !Owns(log, s, seg0.secs[k]))
    && EndsAscend(secs, seg0.secs, SharedStart(secs, seg0))
  }

  /** The header fields of the class can hold the layout's results. */
  predicate SegFitsClass(wide: bool, seg: Seg) {
    seg.filesz < Modulus(wide) && seg.memsz < Modulus(wide) && seg.offset < Modulus(wide)
  }

  /** The segment keeps its type, alignment, address and sections; in a 64-bit file its memory size never shrinks. */
  predicate KeepsIdentity(wide: bool, seg0: Seg, seg: Seg) {
    && (wide ==> seg0.memsz <= seg.memsz)
    && (seg0.memsz < Modulus(wide) ==> SegFitsClass(wide, seg))
    && seg == seg0.(filesz := seg.filesz, memsz := seg.memsz, offset := seg.offset, offsetSet := true)
  }

  /** Every section it lists has a place. */
  ghost predicate ListedArePlaced(secs: seq<Sec>, seg: Seg, log: seq<Place>)
    requires ListInRange(seg.secs, |secs|)
  {
    forall k :: 0 <= k < |seg.secs| && secs[seg.secs[k]].stype != SHT_NULL ==> Logs(log, seg.secs[k])
  }

  /** Addresses and offsets of the sections that segment `s` placed run in parallel. */
  ghost predicate Parallel(wide: bool, secs0: seq<Sec>, secs: seq<Sec>, seg: Seg, log: seq<Place>, s: int) {
    forall k :: 0 <= k < |log| && log[k].owner == s && 0 != log[k].sec < |secs| == |secs0| && AddressMatters(secs0[log[k].sec])
      ==> Corresponds(wide, secs[log[k].sec], seg.vaddr, seg.offset)
  }

  /** The memory that a segment claims, as long as what needs no file bytes still fits behind the file position. */
  ghost predicate OwnMemory(wide: bool, secs: seq<Sec>, seg0: Seg, seg: Seg, total: nat)
    requires seg.secs == seg0.secs && ListInRange(seg.secs, |secs|)
  {
    total + NobitsBytes(secs, seg.secs, |seg.secs|) < Modulus(wide) ==>
      && (BackedAreAlloc(secs, seg.secs) ==> seg.filesz <= seg.memsz)
      && (AllTakeMemory(secs, seg0) ==> MemoryCovers(secs, seg))
  }

  /** A segment that placed all its sections itself covers the file-backed ones exactly when no bytes were skipped for
      a section without file bytes in front of a file-backed one, and so whenever those sections have an address or
      no alignment. */
  ghost predicate OwnImage(wide: bool, secs0: seq<Sec>, secs: seq<Sec>, seg0: Seg, seg: Seg, log: seq<Place>, total: nat, s: int)
    requires seg.secs == seg0.secs && ListInRange(seg.secs, |secs|) && |secs0| == |secs|
  {
    PlacedItself(secs, seg0, log, s) ==>
      && (Covers(secs, seg) <==> GapsBehind(secs0, log, s))
      && (Settled(secs0, seg.secs) ==> Covers(secs, seg))
      && OwnMemory(wide, secs, seg0, seg, total)
  }

  ghost predicate SharedImage(wide: bool, secs: seq<Sec>, seg0: Seg, seg: Seg, log: seq<Place>, total: nat, s: int)
    requires seg.secs == seg0.secs && ListInRange(seg.secs, |secs|)
  {
    PlacedByOthers(secs, seg0, log, s) ==>
      && Covers(secs, seg)
      && (BackedAreAlloc(secs, seg.secs) && NobitsBehind(secs, seg.secs, SharedStart(secs, seg0))
          && (StartsAtZero(seg0) ==> Led(secs, seg.secs))
          && total + NobitsReach(secs, seg.secs, |seg.secs|) < Modulus(wide)
          ==> seg.filesz <= seg.memsz)
  }

  ghost predicate LoaderCongruent(seg0: Seg, seg: Seg, log: seq<Place>, s: int) {
    && |seg.secs| > 0 && Owns(log, s, seg.secs[0]) && !StartsAtZero(seg0) && 0 < seg.align <= W64 / 2
    ==> seg.offset % seg.align == seg.vaddr % seg.align
  }

  /** What the layout of segment `s` (before: `seg0`, after: `seg`) achieves. */
  ghost predicate SegmentDone(wide: bool, secs0: seq<Sec>, seg0: Seg, secs: seq<Sec>, seg: Seg,
                              log: seq<Place>, total: nat, s: int)
    requires ListInRange(seg0.secs, |secs|) && |secs0| == |secs|
  {
    && KeepsIdentity(wide, seg0, seg)
    && ListedArePlaced(secs, seg, log)
    && Parallel(wide, secs0, secs, seg, log, s)
    && (total < Modulus(wide) ==>
          && OwnImage(wide, secs0, secs, seg0, seg, log, total, s)
          && SharedImage(wide, secs, seg0, seg, log, total, s)
          && LoaderCongruent(seg0, seg, log, s))
  }

  lemma OwnsLater(secs: seq<Sec>, total: nat, log: seq<Place>, secs': seq<Sec>, total': nat, log': seq<Place>,
                  owner: int, s: int, i: nat)
    requires Later(secs, total, log, secs', total', log', owner) && s != owner
    ensures Owns(log, s, i) <==> Owns(log', s, i)
  {
    if Owns(log, s, i) {
      var k :| 0 <= k < |log| && log[k].sec == i && log[k].owner == s;
      assert log'[..|log|][k] == log'[k];
    }
    if Owns(log', s, i) {
      var k :| 0 <= k < |log'| && log'[k].sec == i && log'[k].owner == s;
      assert k < |log|;
      assert log'[..|log|][k] == log'[k];
    }
  }

  /** Sums over a list only look at the listed sections. */
  lemma {:induction false} SumsSame(secs: seq<Sec>, secs': seq<Sec>, list: seq<nat>, n: nat)
    requires |secs| == |secs'| && ListInRange(list, |secs|) && n <= |list|
    requires forall k :: 0 <= k < |list| ==> secs'[list[k]] == secs[list[k]]
    ensures NobitsBytes(secs', list, n) == NobitsBytes(secs, list, n)
    ensures NobitsReach(secs', list, n) == NobitsReach(secs, list, n)
  {
    if n > 0 {
      SumsSame(secs, secs', list, n - 1);
    }
  }

  /** Null sections that a segment lists never get a place. */
  ghost predicate NullsUnplaced(secs: seq<Sec>, list: seq<nat>, log: seq<Place>) {
    forall k :: 0 <= k < |list| && list[k] < |secs| && secs[list[k]].stype == SHT_NULL ==> !Logs(log, list[k])
  }

  /** The sections of a finished segment stay as they are. */
  lemma ListedStay(secs: seq<Sec>, seg: Seg, log: seq<Place>, total: nat,
                   secs': seq<Sec>, log': seq<Place>, total': nat, s: int, owner: int)
    requires ListInRange(seg.secs, |secs|) && ListedArePlaced(secs, seg, log) && NullsUnplaced(secs, seg.secs, log')
    requires Later(secs, total, log, secs', total', log', owner) && s != owner
    ensures ListedArePlaced(secs', seg, log')
    ensures forall k :: 0 <= k < |seg.secs| ==> secs'[seg.secs[k]] == secs[seg.secs[k]]
    ensures forall k :: 0 <= k < |seg.secs| ==> (Owns(log, s, seg.secs[k]) <==> Owns(log', s, seg.secs[k]))
  {
    forall k | 0 <= k < |seg.secs|
      ensures secs'[seg.secs[k]] == secs[seg.secs[k]]
      ensures secs[seg.secs[k]].stype != SHT_NULL ==> Logs(log', seg.secs[k])
      ensures Owns(log, s, seg.secs[k]) <==> Owns(log', s, seg.secs[k])
    {
      if secs[seg.secs[k]].stype != SHT_NULL {
        LogsPrefix(log, log', seg.secs[k]);
      }
      OwnsLater(secs, total, log, secs', total', log', owner, s, seg.secs[k]);
    }
  }

  lemma ParallelLater(wide: bool, secs0: seq<Sec>, secs: seq<Sec>, seg: Seg, log: seq<Place>, total: nat,
                      secs': seq<Sec>, log': seq<Place>, total': nat, s: int, owner: int)
    requires Parallel(wide, secs0, secs, seg, log, s)
    requires Later(secs, total, log, secs', total', log', owner) && s != owner
    ensures Parallel(wide, secs0, secs', seg, log', s)
  {
    forall k | 0 <= k < |log'| && log'[k].owner == s && 0 != log'[k].sec < |secs'| == |secs0| && AddressMatters(secs0[log'[k].sec])
      ensures Corresponds(wide, secs'[log'[k].sec], seg.vaddr, seg.offset)
    {
      assert k < |log|;
      assert log'[..|log|][k] == log'[k];
      assert Logs(log, log[k].sec);
    }
  }

  ghost predicate SameOnList(secs: seq<Sec>, secs': seq<Sec>, list: seq<nat>) {
    |secs'| == |secs| && ListInRange(list, |secs|) && forall k :: 0 <= k < |list| ==> secs'[list[k]] == secs[list[k]]
  }

  lemma EndsSame(secs: seq<Sec>, secs': seq<Sec>, list: seq<nat>, start: nat)
    requires SameOnList(secs, secs', list)
    ensures EndsAscend(secs, list, start) == EndsAscend(secs', list, start)
    ensures NobitsBehind(secs, list, start) == NobitsBehind(secs', list, start)
    ensures BackedAreAlloc(secs, list) == BackedAreAlloc(secs', list)
    ensures Led(secs, list) == Led(secs', list)
  {
    hide HasBit;
    forall b | 0 <= b < |list| && secs[list[b]].stype == SHT_NOBITS
      ensures (exists a :: 0 <= a < b && Backed(secs[list[a]])) <==> (exists a :: 0 <= a < b && Backed(secs'[list[a]]))
    {
      assert forall a :: 0 <= a < b ==> Backed(secs[list[a]]) == Backed(secs'[list[a]]);
    }
  }

  lemma MemorySame(secs: seq<Sec>, secs': seq<Sec>, seg0: Seg, seg: Seg)
    requires seg.secs == seg0.secs && SameOnList(secs, secs', seg.secs)
    ensures AllTakeMemory(secs, seg0) == AllTakeMemory(secs', seg0)
    ensures MemoryCovers(secs, seg) == MemoryCovers(secs', seg)
    ensures BackedAreAlloc(secs, seg.secs) == BackedAreAlloc(secs', seg.secs)
    ensures Covers(secs, seg) == Covers(secs', seg)
  {
    hide TakesMemory, HasBit;
  }

  /** Entries of other owners make no difference. */
  lemma GapsLater(secs0: seq<Sec>, secs: seq<Sec>, total: nat, log: seq<Place>, secs': seq<Sec>, total': nat, log': seq<Place>,
                  owner: int, s: int)
    requires Later(secs, total, log, secs', total', log', owner) && s != owner
    ensures GapsBehind(secs0, log, s) <==> GapsBehind(secs0, log', s)
  {
    forall k | 0 <= k < |log| ensures log'[k] == log[k] {
      assert log'[..|log|][k] == log'[k];
    }
  }

  lemma OwnImageLater(wide: bool, secs0: seq<Sec>, secs: seq<Sec>, secs': seq<Sec>, seg0: Seg, seg: Seg,
                      log: seq<Place>, log': seq<Place>, total: nat, total': nat, s: int)
    requires seg.secs == seg0.secs && SameOnList(secs, secs', seg.secs) && total <= total' && |secs0| == |secs|
    requires forall k :: 0 <= k < |seg.secs| ==> (Owns(log, s, seg.secs[k]) <==> Owns(log', s, seg.secs[k]))
    requires GapsBehind(secs0, log, s) <==> GapsBehind(secs0, log', s)
    requires OwnImage(wide, secs0, secs, seg0, seg, log, total, s)
    ensures OwnImage(wide, secs0, secs', seg0, seg, log', total', s)
  {
    hide GapsBehind, Settled, Covers, MemoryCovers, AllTakeMemory, BackedAreAlloc;
    SumsSame(secs, secs', seg.secs, |seg.secs|);
    MemorySame(secs, secs', seg0, seg);
    if PlacedItself(secs', seg0, log', s) {
      assert PlacedItself(secs, seg0, log, s);
    }
  }

  lemma SharedImageLater(wide: bool, secs: seq<Sec>, secs': seq<Sec>, seg0: Seg, seg: Seg, log: seq<Place>, log': seq<Place>,
                         total: nat, total': nat, s: int)
    requires seg.secs == seg0.secs && SameOnList(secs, secs', seg.secs) && total <= total'
    requires forall k :: 0 <= k < |seg.secs| ==> (Owns(log, s, seg.secs[k]) <==> Owns(log', s, seg.secs[k]))
    requires SharedImage(wide, secs, seg0, seg, log, total, s)
    ensures SharedImage(wide, secs', seg0, seg, log', total', s)
  {
    if PlacedByOthers(secs', seg0, log', s) {
      SumsSame(secs, secs', seg.secs, |seg.secs|);
      EndsSame(secs, secs', seg.secs, SharedStart(secs, seg0));
      assert PlacedByOthers(secs, seg0, log, s);
      assert Covers(secs', seg) by {
        assert Covers(secs, seg);
      }
    }
  }

  /** Nothing that happens later undoes what a finished segment achieved. */
  lemma SegmentDoneLater(wide: bool, secs0: seq<Sec>, seg0: Seg, secs: seq<Sec>, seg: Seg, log: seq<Place>, total: nat,
                         secs': seq<Sec>, log': seq<Place>, total': nat, s: int, owner: int)
    requires ListInRange(seg0.secs, |secs|) && |secs0| == |secs|
    requires SegmentDone(wide, secs0, seg0, secs, seg, log, total, s) && NullsUnplaced(secs, seg.secs, log')
    requires Later(secs, total, log, secs', total', log', owner) && s != owner
    ensures SegmentDone(wide, secs0, seg0, secs', seg, log', total', s)
  {
    ListedStay(secs, seg, log, total, secs', log', total', s, owner);
    ParallelLater(wide, secs0, secs, seg, log, total, secs', log', total', s, owner);
    assert SameOnList(secs, secs', seg.secs);
    if total' < Modulus(wide) {
      GapsLater(secs0, secs, total, log, secs', total', log', owner, s);
      OwnImageLater(wide, secs0, secs, secs', seg0, seg, log, log', total, total', s);
      SharedImageLater(wide, secs, secs', seg0, seg, log, log', total, total', s);
    }
  }
}
