/** A segment that places all its sections itself: when its file image covers them, and how much memory it claims. */
module SelfPlaced {
  import opened Words
  import opened LayoutModel
  import opened LayoutFacts
  import opened SegmentFacts

  /** Before the run no section of the list is placed, and none is listed twice. */
  ghost predicate PlacesAll(secs0: seq<Sec>, gen: seq<bool>, list: seq<nat>) {
    && Distinct(list) && |gen| == |secs0|
    && forall k :: 0 <= k < |list| ==> list[k] < |secs0| && (secs0[list[k]].stype == SHT_NULL || !gen[list[k]])
  }

  /** Section number `n - 1` of the list meets the loop free and unchanged. */
  lemma NextIsFree(wide: bool, secs0: seq<Sec>, lo: nat, seg: Seg, owner: int, r: Run, n: nat) returns (r1: Run)
    requires RunSound(wide, secs0, lo, r) && PlacesAll(secs0, r.gen, seg.secs) && 0 < n <= |seg.secs|
    requires PlaceUpTo(wide, seg, owner, r, n - 1).Some?
    ensures PlaceUpTo(wide, seg, owner, r, n - 1) == Some(r1) && RunSound(wide, secs0, lo, r1)
    ensures |r1.secs| == |r1.gen| == |secs0| && r1.start == r.start
    ensures PlaceUpTo(wide, seg, owner, r, n) == PlaceOne(wide, seg, owner, r1, seg.secs[n - 1])
    ensures r1.secs[seg.secs[n - 1]].stype == secs0[seg.secs[n - 1]].stype
    ensures secs0[seg.secs[n - 1]].stype != SHT_NULL ==>
      r1.secs[seg.secs[n - 1]] == secs0[seg.secs[n - 1]] && !r1.gen[seg.secs[n - 1]]
    ensures PlaceUpTo(wide, seg, owner, r, n).Some? ==> r1.total <= PlaceUpTo(wide, seg, owner, r, n).value.total
  {
    hide PlaceOne, Sound;
    r1 := PlaceUpTo(wide, seg, owner, r, n - 1).value;
    PlaceUpToSound(wide, secs0, lo, seg, owner, r, n - 1);
    if PlaceUpTo(wide, seg, owner, r, n).Some? {
      PlaceOneTotal(wide, seg, owner, r1, seg.secs[n - 1]);
    }
    DistinctPrefix(seg.secs, n - 1);
    PlaceUpToFlags(wide, seg, owner, r, n - 1, seg.secs[n - 1]);
    FreeIsInitial(wide, secs0, lo, r1, seg.secs[n - 1]);
  }

  /** A null section changes neither position nor sizes nor log. */
  lemma NullChangesNothing(wide: bool, seg: Seg, owner: int, r: Run, index: nat)
    requires index < |r.secs| == |r.gen| && r.secs[index].stype == SHT_NULL
    ensures PlaceOne(wide, seg, owner, r, index) == Some(r.(gen := r.gen[index := true]))
  {
  }

  // ---------------------------------------------------------------- the file image

  predicate IsNobits(secs0: seq<Sec>, e: Place) { e.sec < |secs0| && secs0[e.sec].stype == SHT_NOBITS }

  predicate IsBacked(secs0: seq<Sec>, e: Place) { e.sec < |secs0| && secs0[e.sec].stype != SHT_NOBITS }

  /** No bytes were skipped in front of a section without file bytes. */
  ghost predicate NoGap(secs0: seq<Sec>, log: seq<Place>, owner: int) {
    forall k :: 0 <= k < |log| && log[k].owner == owner && IsNobits(secs0, log[k]) ==> log[k].pad == 0
  }

  /** No bytes were skipped in front of a section without file bytes that stands before a file-backed one. */
  ghost predicate GapsBehind(secs0: seq<Sec>, log: seq<Place>, owner: int) {
    forall k, m :: 0 <= k < m < |log| && log[k].owner == log[m].owner == owner && IsNobits(secs0, log[k]) && IsBacked(secs0, log[m])
      ==> log[k].pad == 0
  }

  /** The file-backed sections that `owner` placed end by `hi`. */
  ghost predicate Within(secs0: seq<Sec>, log: seq<Place>, owner: int, hi: nat) {
    forall k :: 0 <= k < |log| && log[k].owner == owner && IsBacked(secs0, log[k]) ==> log[k].at + log[k].len <= hi
  }

  /** The sections that `owner` placed lie between `start` and `total`. */
  ghost predicate Between(log: seq<Place>, owner: int, start: nat, total: nat) {
    forall k :: 0 <= k < |log| && log[k].owner == owner ==> start <= log[k].at && log[k].at + log[k].len <= total
  }

  /** The running file size reaches the file position exactly as long as no bytes were skipped for sections without
      file bytes, and all file-backed sections exactly as long as none stands behind such a gap. */
  ghost predicate Tight(secs0: seq<Sec>, owner: int, r: Run) {
    && r.start + r.file <= r.total
    && Between(r.log, owner, r.start, r.total)
    && (r.start + r.file == r.total <==> NoGap(secs0, r.log, owner))
    && (Within(secs0, r.log, owner, r.start + r.file) <==> GapsBehind(secs0, r.log, owner))
  }

  lemma BackedStep(secs0: seq<Sec>, owner: int, r: Run, r': Run, e: Place)
    requires Tight(secs0, owner, r) && e.owner == owner && IsBacked(secs0, e)
    requires e.at == r.total + e.pad && r'.total == e.at + e.len && r'.start == r.start && r'.log == r.log + [e]
    requires r'.file == r.file + e.len + e.pad
    ensures Tight(secs0, owner, r')
  {
    GapsAppendBacked(secs0, r.log, owner, e);
    var hi, hi' := r.start + r.file, r'.start + r'.file;
    assert r'.log[|r.log|] == e;
    assert forall k :: 0 <= k < |r.log| ==> r'.log[k] == r.log[k];
    if NoGap(secs0, r.log, owner) {
      assert Within(secs0, r'.log, owner, hi');
    } else {
      assert !Within(secs0, r'.log, owner, hi');
    }
  }

  lemma GapsAppendBacked(secs0: seq<Sec>, log: seq<Place>, owner: int, e: Place)
    requires e.owner == owner && IsBacked(secs0, e)
    ensures NoGap(secs0, log + [e], owner) <==> NoGap(secs0, log, owner)
    ensures GapsBehind(secs0, log + [e], owner) <==> NoGap(secs0, log, owner)
  {
    var log' := log + [e];
    assert log'[|log|] == e && forall k :: 0 <= k < |log| ==> log'[k] == log[k];
    if GapsBehind(secs0, log', owner) {
      forall k | 0 <= k < |log| && log[k].owner == owner && IsNobits(secs0, log[k]) ensures log[k].pad == 0 {
        assert log'[k].owner == log'[|log|].owner == owner;
      }
    }
  }

  lemma NobitsStep(secs0: seq<Sec>, owner: int, r: Run, r': Run, e: Place)
    requires Tight(secs0, owner, r) && e.owner == owner && IsNobits(secs0, e)
    requires e.at == r.total + e.pad && e.len == 0 && r'.total == e.at && r'.start == r.start && r'.log == r.log + [e]
    requires r'.file == r.file
    ensures Tight(secs0, owner, r')
  {
    assert r'.log[|r.log|] == e;
    assert forall k :: 0 <= k < |r.log| ==> r'.log[k] == r.log[k];
  }

  lemma {:induction false} PlaceUpToTight(wide: bool, secs0: seq<Sec>, lo: nat, seg: Seg, owner: int, r: Run, n: nat)
    requires RunSound(wide, secs0, lo, r) && PlacesAll(secs0, r.gen, seg.secs) && n <= |seg.secs|
    requires PlaceUpTo(wide, seg, owner, r, n).Some? && PlaceUpTo(wide, seg, owner, r, n).value.total < W64
    requires Tight(secs0, owner, r)
    ensures Tight(secs0, owner, PlaceUpTo(wide, seg, owner, r, n).value)
  {
    hide PlaceOne, Tight, RunSound, Add64, TakesMemory;
    if n > 0 {
      var r1 := NextIsFree(wide, secs0, lo, seg, owner, r, n);
      var index := seg.secs[n - 1];
      PlaceUpToTight(wide, secs0, lo, seg, owner, r, n - 1);
      if secs0[index].stype == SHT_NULL {
        NullChangesNothing(wide, seg, owner, r1, index);
        TightIgnoresFlags(secs0, owner, r1, r1.gen[index := true]);
      } else {
        PlaceOneTight(wide, secs0, seg, owner, r1, index);
      }
    }
  }

  lemma TightIgnoresFlags(secs0: seq<Sec>, owner: int, r: Run, gen: seq<bool>)
    requires Tight(secs0, owner, r)
    ensures Tight(secs0, owner, r.(gen := gen))
  {
  }

  lemma PlaceOneTight(wide: bool, secs0: seq<Sec>, seg: Seg, owner: int, r: Run, index: nat)
    requires index < |r.secs| == |r.gen| == |secs0| && r.secs[index] == secs0[index] && secs0[index].stype != SHT_NULL && !r.gen[index]
    requires PlaceOne(wide, seg, owner, r, index).Some? && PlaceOne(wide, seg, owner, r, index).value.total < W64
    requires Tight(secs0, owner, r)
    ensures Tight(secs0, owner, PlaceOne(wide, seg, owner, r, index).value)
  {
    hide PlaceOne, Add64, TakesMemory;
    var at, r' := PlaceOneSizes(wide, seg, owner, r, index);
    var e := Place(index, owner, at, FileLen(secs0[index]), at - r.total);
    if secs0[index].stype != SHT_NOBITS {
      FileStep(r.start, r.total, r.file, secs0[index].size, at);
      BackedStep(secs0, owner, r, r', e);
    } else {
      NobitsStep(secs0, owner, r, r', e);
    }
  }

  // ---------------------------------------------------------------- a condition on the sections alone

  /** In front of such a section without file bytes nothing is ever skipped. */
  predicate Fixed(s: Sec) { s.addrSet || s.align <= 1 }

  /** Sections without file bytes that are listed before a file-backed one have an address or no alignment. */
  ghost predicate Settled(secs: seq<Sec>, list: seq<nat>)
    requires forall k :: 0 <= k < |list| ==> list[k] < |secs|
  {
    forall a, b :: 0 <= a < b < |list| && secs[list[a]].stype == SHT_NOBITS && Backed(secs[list[b]]) ==> Fixed(secs[list[a]])
  }

  /** What the log says about the first `n` sections of the list. */
  ghost predicate InOrder(secs0: seq<Sec>, list: seq<nat>, owner: int, log: seq<Place>, n: nat)
    requires n <= |list| && forall k :: 0 <= k < |list| ==> list[k] < |secs0|
  {
    && (forall k :: 0 <= k < |log| && log[k].owner == owner ==> log[k].sec in list[..n])
    && (forall k :: 0 <= k < |log| && log[k].owner == owner && IsNobits(secs0, log[k]) && Fixed(secs0[log[k].sec]) ==> log[k].pad == 0)
    && (Settled(secs0, list) ==> GapsBehind(secs0, log, owner))
  }

  lemma FixedIsNotPadded(wide: bool, seg: Seg, owner: int, r: Run, index: nat)
    requires index < |r.secs| == |r.gen| && r.secs[index].stype == SHT_NOBITS && !r.gen[index] && Fixed(r.secs[index])
    ensures PlaceOne(wide, seg, owner, r, index).Some?
    ensures PlaceOne(wide, seg, owner, r, index).value.log == r.log + [Place(index, owner, r.total, 0, 0)]
  {
    hide Stamp, TakesMemory, Add64, Sub64;
  }

  lemma InOrderStep(secs0: seq<Sec>, list: seq<nat>, owner: int, log: seq<Place>, n: nat, e: Place)
    requires n < |list| && (forall k :: 0 <= k < |list| ==> list[k] < |secs0|) && InOrder(secs0, list, owner, log, n)
    requires e.owner == owner && e.sec == list[n] && secs0[e.sec].stype != SHT_NULL
    requires IsNobits(secs0, e) && Fixed(secs0[e.sec]) ==> e.pad == 0
    ensures InOrder(secs0, list, owner, log + [e], n + 1)
  {
    var log' := log + [e];
    assert list[..n + 1] == list[..n] + [list[n]];
    assert log'[|log|] == e && forall k :: 0 <= k < |log| ==> log'[k] == log[k];
    if Settled(secs0, list) && IsBacked(secs0, e) {
      forall k | 0 <= k < |log| && log[k].owner == owner && IsNobits(secs0, log[k]) ensures log[k].pad == 0 {
        assert log[k].sec in list[..n];
        var a :| 0 <= a < n && list[a] == log[k].sec;
      }
    }
  }

  lemma {:induction false} PlaceUpToInOrder(wide: bool, secs0: seq<Sec>, lo: nat, seg: Seg, owner: int, r: Run, n: nat)
    requires RunSound(wide, secs0, lo, r) && PlacesAll(secs0, r.gen, seg.secs) && n <= |seg.secs|
    requires PlaceUpTo(wide, seg, owner, r, n).Some? && InOrder(secs0, seg.secs, owner, r.log, 0)
    ensures InOrder(secs0, seg.secs, owner, PlaceUpTo(wide, seg, owner, r, n).value.log, n)
  {
    hide PlaceOne, RunSound, Add64, TakesMemory, InOrder, Fixed;
    if n > 0 {
      var r1 := NextIsFree(wide, secs0, lo, seg, owner, r, n);
      var index := seg.secs[n - 1];
      PlaceUpToInOrder(wide, secs0, lo, seg, owner, r, n - 1);
      if secs0[index].stype == SHT_NULL {
        NullChangesNothing(wide, seg, owner, r1, index);
        InOrderSkip(secs0, seg.secs, owner, r1.log, n - 1);
      } else {
        var at, r' := PlaceOneSizes(wide, seg, owner, r1, index);
        var e := Place(index, owner, at, FileLen(secs0[index]), at - r1.total);
        if secs0[index].stype == SHT_NOBITS && Fixed(secs0[index]) {
          FixedIsNotPadded(wide, seg, owner, r1, index);
          assert r'.log[|r1.log|] == e;
        }
        InOrderStep(secs0, seg.secs, owner, r1.log, n - 1, e);
      }
    }
  }

  lemma InOrderSkip(secs0: seq<Sec>, list: seq<nat>, owner: int, log: seq<Place>, n: nat)
    requires n < |list| && (forall k :: 0 <= k < |list| ==> list[k] < |secs0|) && InOrder(secs0, list, owner, log, n)
    ensures InOrder(secs0, list, owner, log, n + 1)
  {
    assert list[..n + 1] == list[..n] + [list[n]];
  }

  // ---------------------------------------------------------------- the memory image

  /** The running memory size is at least the file size, and at most the position plus what needs no file bytes. */
  ghost predicate Ample(secs0: seq<Sec>, list: seq<nat>, r: Run, n: nat)
    requires n <= |list| && forall k :: 0 <= k < |list| ==> list[k] < |secs0|
  {
    r.start + r.file <= r.total && r.file <= r.mem && r.mem + r.start <= r.total + NobitsBytes(secs0, list, n)
  }

  lemma {:induction false} PlaceUpToAmple(wide: bool, secs0: seq<Sec>, lo: nat, seg: Seg, owner: int, r: Run, n: nat)
    requires RunSound(wide, secs0, lo, r) && PlacesAll(secs0, r.gen, seg.secs) && n <= |seg.secs|
    requires BackedAreAlloc(secs0, seg.secs) && Ample(secs0, seg.secs, r, 0)
    requires PlaceUpTo(wide, seg, owner, r, n).Some?
    requires PlaceUpTo(wide, seg, owner, r, n).value.total + NobitsBytes(secs0, seg.secs, n) < W64
    ensures Ample(secs0, seg.secs, PlaceUpTo(wide, seg, owner, r, n).value, n)
  {
    hide PlaceOne, RunSound, Add64, HasBit;
    if n > 0 {
      var r1 := NextIsFree(wide, secs0, lo, seg, owner, r, n);
      var index := seg.secs[n - 1];
      NobitsBytesMonotone(secs0, seg.secs, n - 1, n);
      PlaceUpToAmple(wide, secs0, lo, seg, owner, r, n - 1);
      if secs0[index].stype == SHT_NULL {
        NullChangesNothing(wide, seg, owner, r1, index);
      } else {
        var at, r' := PlaceOneSizes(wide, seg, owner, r1, index);
        SizesStep(r1.start, r1.total, r1.file, r1.mem, secs0[index].size, at, NobitsBytes(secs0, seg.secs, n - 1));
      }
    }
  }

  /** The running memory size reaches the end of every section placed so far, with or without file bytes. */
  ghost predicate Roomy(secs0: seq<Sec>, owner: int, r: Run) {
    && r.start <= r.total <= r.start + r.mem
    && forall k :: 0 <= k < |r.log| && r.log[k].owner == owner && r.log[k].sec < |secs0| ==>
         r.start <= r.log[k].at && r.log[k].at + secs0[r.log[k].sec].size <= r.start + r.mem
  }

  lemma PlaceOneRoomy(wide: bool, secs0: seq<Sec>, seg: Seg, owner: int, r: Run, n: nat)
    requires n < |seg.secs| && |r.secs| == |r.gen| == |secs0|
    requires forall k :: 0 <= k < |seg.secs| ==> seg.secs[k] < |r.secs|
    requires PlaceOne(wide, seg, owner, r, seg.secs[n]).Some?
    requires Ample(secs0, seg.secs, r, n) && Roomy(secs0, owner, r) && AllTakeMemory(secs0, seg)
    requires r.secs[seg.secs[n]] == secs0[seg.secs[n]] && secs0[seg.secs[n]].stype != SHT_NULL && !r.gen[seg.secs[n]]
    requires PlaceOne(wide, seg, owner, r, seg.secs[n]).value.total + NobitsBytes(secs0, seg.secs, n + 1) < W64
    ensures Roomy(secs0, owner, PlaceOne(wide, seg, owner, r, seg.secs[n]).value)
  {
    hide PlaceOne, SecAlign, Add64, TakesMemory;
    var sec, bytes := secs0[seg.secs[n]], NobitsBytes(secs0, seg.secs, n);
    var at, r' := PlaceOneSizes(wide, seg, owner, r, seg.secs[n]);
    SizesStep(r.start, r.total, r.file, r.mem, sec.size, at, bytes);
  }

  lemma {:induction false} PlaceUpToRoomy(wide: bool, secs0: seq<Sec>, lo: nat, seg: Seg, owner: int, r: Run, n: nat)
    requires RunSound(wide, secs0, lo, r) && PlacesAll(secs0, r.gen, seg.secs) && n <= |seg.secs|
    requires BackedAreAlloc(secs0, seg.secs) && AllTakeMemory(secs0, seg)
    requires Ample(secs0, seg.secs, r, 0) && Roomy(secs0, owner, r)
    requires PlaceUpTo(wide, seg, owner, r, n).Some?
    requires PlaceUpTo(wide, seg, owner, r, n).value.total + NobitsBytes(secs0, seg.secs, n) < W64
    ensures Roomy(secs0, owner, PlaceUpTo(wide, seg, owner, r, n).value)
  {
    hide PlaceOne, RunSound, Ample, Roomy, BackedAreAlloc, AllTakeMemory;
    if n > 0 {
      var r1 := NextIsFree(wide, secs0, lo, seg, owner, r, n);
      var index := seg.secs[n - 1];
      NobitsBytesMonotone(secs0, seg.secs, n - 1, n);
      PlaceUpToAmple(wide, secs0, lo, seg, owner, r, n - 1);
      PlaceUpToRoomy(wide, secs0, lo, seg, owner, r, n - 1);
      if secs0[index].stype == SHT_NULL {
        SkipRoomy(wide, secs0, seg, owner, r1, index);
      } else {
        PlaceOneRoomy(wide, secs0, seg, owner, r1, n - 1);
      }
    }
  }

  lemma SkipRoomy(wide: bool, secs0: seq<Sec>, seg: Seg, owner: int, r: Run, index: nat)
    requires index < |r.secs| == |r.gen| && r.secs[index].stype == SHT_NULL && Roomy(secs0, owner, r)
    ensures PlaceOne(wide, seg, owner, r, index).Some?
    ensures Roomy(secs0, owner, PlaceOne(wide, seg, owner, r, index).value)
  {
  }
}
