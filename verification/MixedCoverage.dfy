/** Which file-backed sections the file image of a segment covers, whoever placed them: the exact law. */
module MixedCoverage {
  import opened Words
  import opened LayoutModel
  import opened LayoutFacts
  import opened SegmentFacts
  import opened SelfPlaced
  import opened SegmentResult
  import opened LayoutSteps

  function EndOf(s: Sec): nat { s.offset + s.size }

  /** The entry that segment `s` made for section `x`. */
  ghost function EntryOf(log: seq<Place>, s: int, x: nat): (e: Place)
    requires Owns(log, s, x)
    ensures e in log && e.sec == x && e.owner == s
  {
    var a :| 0 <= a < |log| && log[a].sec == x && log[a].owner == s;
    log[a]
  }

  /** The last of the first `n` sections of the list that is file-backed and placed by another segment, or -1. */
  ghost function LastOther(secs: seq<Sec>, list: seq<nat>, log: seq<Place>, s: int, n: nat): (j: int)
    requires n <= |list| && ListInRange(list, |secs|)
    ensures -1 <= j < n
    ensures j >= 0 ==> Backed(secs[list[j]]) && !Owns(log, s, list[j])
  {
    if n == 0 then -1
    else if Backed(secs[list[n - 1]]) && !Owns(log, s, list[n - 1]) then n - 1
    else LastOther(secs, list, log, s, n - 1)
  }

  /** The last of the first `n` sections of the list that is file-backed, or -1. */
  function LastBacked(secs: seq<Sec>, list: seq<nat>, n: nat): (j: int)
    requires n <= |list| && ListInRange(list, |secs|)
    ensures -1 <= j < n && (j >= 0 ==> Backed(secs[list[j]]))
    ensures forall k :: 0 <= k < n && Backed(secs[list[k]]) ==> k <= j
  {
    if n == 0 then -1 else if Backed(secs[list[n - 1]]) then n - 1 else LastBacked(secs, list, n - 1)
  }

  /** The segment places none of the sections behind number `j` and in front of number `n`. */
  ghost predicate NoneOwn(list: seq<nat>, log: seq<Place>, s: int, j: int, n: nat)
    requires n <= |list|
  {
    forall k :: 0 <= k < n && j < k ==> !Owns(log, s, list[k])
  }

  /** The first section that the segment places behind number `j` starts, with its padding, at `end`. */
  ghost predicate Joins(list: seq<nat>, log: seq<Place>, s: int, j: int, n: nat, end: int)
    requires n <= |list|
  {
    forall k :: 0 <= k < n && j < k && Owns(log, s, list[k]) && NoneOwn(list, log, s, j, k)
      ==> EntryOf(log, s, list[k]).at - EntryOf(log, s, list[k]).pad == end
  }

  /** No bytes were skipped for the sections without file bytes that the segment placed behind number `j`. */
  ghost predicate Unpadded(secs: seq<Sec>, list: seq<nat>, log: seq<Place>, s: int, j: int, n: nat)
    requires n <= |list| && ListInRange(list, |secs|)
  {
    forall k :: 0 <= k < n && j < k && Owns(log, s, list[k]) && secs[list[k]].stype == SHT_NOBITS
      ==> EntryOf(log, s, list[k]).pad == 0
  }

  /** Where the sections behind the last one of another segment should go on. */
  ghost function EndBefore(secs: seq<Sec>, list: seq<nat>, log: seq<Place>, s: int, n: nat, base: int): int
    requires n <= |list| && ListInRange(list, |secs|)
  {
    var j := LastOther(secs, list, log, s, n);
    if j >= 0 then EndOf(secs[list[j]]) else base
  }

  /** Between two sections of the run: the running file size reaches `reach`, the file position is `total`. The two
      agree as long as the sections of the segment went on directly where the last one of another segment ends. */
  ghost predicate Tracks(secs: seq<Sec>, list: seq<nat>, log: seq<Place>, s: int, n: nat, reach: int, total: int, base: int, total0: int)
    requires n <= |list| && ListInRange(list, |secs|)
  {
    var j, end := LastOther(secs, list, log, s, n), EndBefore(secs, list, log, s, n, base);
    && reach <= total
    && (reach == total <==> Unpadded(secs, list, log, s, j, n) && Joins(list, log, s, j, n, end)
                            && (NoneOwn(list, log, s, j, n) ==> total == end))
    && (j < 0 ==> Joins(list, log, s, -1, n, total0) && (NoneOwn(list, log, s, -1, n) ==> total == total0))
  }

  /** Section number `k`, which the segment placed, went on directly where the last one of another segment ends. */
  ghost predicate GoesOn(secs: seq<Sec>, list: seq<nat>, log: seq<Place>, s: int, k: nat, base: int)
    requires k < |list| && ListInRange(list, |secs|)
  {
    var j := LastOther(secs, list, log, s, k);
    Unpadded(secs, list, log, s, j, k) && Joins(list, log, s, j, k + 1, EndBefore(secs, list, log, s, k, base))
  }

  /** What the running file size reaches, told by the last file-backed section. */
  ghost predicate Hits(secs: seq<Sec>, list: seq<nat>, log: seq<Place>, s: int, n: nat, reach: int, base: int)
    requires n <= |list| && ListInRange(list, |secs|)
  {
    var l := LastBacked(secs, list, n);
    if l < 0 then reach == base
    else if Owns(log, s, list[l]) then
      reach <= EndOf(secs[list[l]]) && (reach == EndOf(secs[list[l]]) <==> GoesOn(secs, list, log, s, l, base))
    else reach == EndOf(secs[list[l]])
  }

  // ---------------------------------------------------------------- one section

  lemma SkipStep(secs: seq<Sec>, list: seq<nat>, log: seq<Place>, s: int, n: nat, reach: int, total: int, base: int, total0: int)
    requires n < |list| && ListInRange(list, |secs|) && !Backed(secs[list[n]]) && !Owns(log, s, list[n])
    requires Tracks(secs, list, log, s, n, reach, total, base, total0) && Hits(secs, list, log, s, n, reach, base)
    ensures Tracks(secs, list, log, s, n + 1, reach, total, base, total0) && Hits(secs, list, log, s, n + 1, reach, base)
  {
    hide EntryOf, GoesOn, Owns, Unpadded, Joins, NoneOwn;
    var j, end := LastOther(secs, list, log, s, n), EndBefore(secs, list, log, s, n, base);
    assert LastOther(secs, list, log, s, n + 1) == j;
    RangesSkip(secs, list, log, s, j, n, end);
    RangesSkip(secs, list, log, s, -1, n, total0);
  }

  /** A section that the segment does not place makes no difference. */
  lemma RangesSkip(secs: seq<Sec>, list: seq<nat>, log: seq<Place>, s: int, j: int, n: nat, end: int)
    requires n < |list| && ListInRange(list, |secs|) && !Owns(log, s, list[n])
    ensures Unpadded(secs, list, log, s, j, n + 1) <==> Unpadded(secs, list, log, s, j, n)
    ensures Joins(list, log, s, j, n + 1, end) <==> Joins(list, log, s, j, n, end)
    ensures NoneOwn(list, log, s, j, n + 1) <==> NoneOwn(list, log, s, j, n)
  {
    hide EntryOf, Owns;
  }

  lemma OtherStep(secs: seq<Sec>, list: seq<nat>, log: seq<Place>, s: int, n: nat, total: int, base: int, total0: int)
    requires n < |list| && ListInRange(list, |secs|) && Backed(secs[list[n]]) && !Owns(log, s, list[n])
    requires EndOf(secs[list[n]]) <= total
    ensures Tracks(secs, list, log, s, n + 1, EndOf(secs[list[n]]), total, base, total0)
    ensures Hits(secs, list, log, s, n + 1, EndOf(secs[list[n]]), base)
  {
    hide EntryOf, GoesOn, Owns;
  }

  /** A section that the segment places: where it stands decides together with what is in front of it. */
  lemma RangesOwn(secs: seq<Sec>, list: seq<nat>, log: seq<Place>, s: int, j: int, n: nat, end: int, total: int)
    requires j < n < |list| && ListInRange(list, |secs|) && Owns(log, s, list[n])
    requires EntryOf(log, s, list[n]).at - EntryOf(log, s, list[n]).pad == total
    ensures Unpadded(secs, list, log, s, j, n + 1)
            <==> Unpadded(secs, list, log, s, j, n) && (secs[list[n]].stype == SHT_NOBITS ==> EntryOf(log, s, list[n]).pad == 0)
    ensures Joins(list, log, s, j, n + 1, end)
            <==> Joins(list, log, s, j, n, end) && (NoneOwn(list, log, s, j, n) ==> total == end)
    ensures !NoneOwn(list, log, s, j, n + 1)
  {
    hide EntryOf, Owns;
  }

  lemma OwnStep(secs: seq<Sec>, list: seq<nat>, log: seq<Place>, s: int, n: nat, reach: int, reach': int, total: int,
                base: int, total0: int)
    requires n < |list| && ListInRange(list, |secs|) && Owns(log, s, list[n]) && secs[list[n]].stype != SHT_NULL
    requires Tracks(secs, list, log, s, n, reach, total, base, total0) && Hits(secs, list, log, s, n, reach, base)
    requires var e := EntryOf(log, s, list[n]);
      && e.at - e.pad == total
      && (if Backed(secs[list[n]]) then reach' == reach + e.pad + e.len && e.at + e.len == EndOf(secs[list[n]])
          else reach' == reach && e.len == 0)
    ensures var e := EntryOf(log, s, list[n]);
      && Tracks(secs, list, log, s, n + 1, reach', e.at + e.len, base, total0) && Hits(secs, list, log, s, n + 1, reach', base)
  {
    hide EntryOf, Owns, Unpadded, Joins, NoneOwn;
    var j, end := LastOther(secs, list, log, s, n), EndBefore(secs, list, log, s, n, base);
    RangesOwn(secs, list, log, s, j, n, end, total);
    RangesOwn(secs, list, log, s, -1, n, total0, total);
    assert LastOther(secs, list, log, s, n + 1) == j;
  }

  // ---------------------------------------------------------------- the run of one segment

  /** The run of segment `i` from `r0` to `r`. */
  ghost predicate WholeRun(wide: bool, secs0: seq<Sec>, lo: nat, seg: Seg, i: int, r0: Run, r: Run) {
    && RunSound(wide, secs0, lo, r0) && NoEntryOf(r0.log, i)
    && Distinct(seg.secs) && ListInRange(seg.secs, |r0.secs|)
    && (forall k :: 0 <= k < |seg.secs| && seg.secs[k] == 0 ==> secs0[0].stype == SHT_NULL)
    && PlaceUpTo(wide, seg, i, r0, |seg.secs|) == Some(r)
    && RunSound(wide, secs0, lo, r) && RunLater(r0, r, i) && r.total < Modulus(wide)
  }

  lemma {:induction false} PlaceUpToLater(wide: bool, secs0: seq<Sec>, lo: nat, seg: Seg, i: int, r0: Run, m: nat, n: nat)
    requires RunSound(wide, secs0, lo, r0) && m <= n <= |seg.secs| && ListInRange(seg.secs, |r0.secs|)
    requires PlaceUpTo(wide, seg, i, r0, n).Some?
    ensures PlaceUpTo(wide, seg, i, r0, m).Some?
    ensures RunLater(PlaceUpTo(wide, seg, i, r0, m).value, PlaceUpTo(wide, seg, i, r0, n).value, i)
  {
    hide PlaceOne, Sound, Later;
    if m == n {
      var r := PlaceUpTo(wide, seg, i, r0, n).value;
      LaterRefl(r.secs, r.total, r.log, i);
    } else {
      var r1 := PlaceUpToUnfold(wide, seg, i, r0, n);
      PlaceUpToLater(wide, secs0, lo, seg, i, r0, m, n - 1);
      PlaceUpToSound(wide, secs0, lo, seg, i, r0, n - 1);
      PlaceOneSound(wide, secs0, lo, seg, i, r1, seg.secs[n - 1]);
      RunLaterTrans(PlaceUpTo(wide, seg, i, r0, m).value, r1, PlaceUpTo(wide, seg, i, r0, n).value, i);
    }
  }

  /** The entries of a section agree. */
  lemma OneEntry(log: seq<Place>, s: int, x: nat, a: nat)
    requires Once(log) && a < |log| && log[a].sec == x
    ensures Owns(log, s, x) <==> log[a].owner == s
    ensures Owns(log, s, x) ==> EntryOf(log, s, x) == log[a]
  {
    if Owns(log, s, x) {
      var e := EntryOf(log, s, x);
      var b :| 0 <= b < |log| && log[b] == e;
      assert a == b;
    }
  }

  /** A section that was placed before the run is not placed by it, and stays. */
  lemma PlacedBefore(wide: bool, secs0: seq<Sec>, lo: nat, seg: Seg, i: int, r0: Run, r: Run, x: nat)
    requires WholeRun(wide, secs0, lo, seg, i, r0, r) && x < |r0.secs| && Logs(r0.log, x)
    ensures !Owns(r.log, i, x) && r.secs[x] == r0.secs[x]
  {
    hide PlaceUpTo, Chained, Recorded, Restrained, FlagsAgree;
    var a :| 0 <= a < |r0.log| && r0.log[a].sec == x;
    assert r.log[..|r0.log|][a] == r.log[a];
    OneEntry(r.log, i, x, a);
  }

  lemma NullNotOwned(wide: bool, secs0: seq<Sec>, lo: nat, r: Run, i: int, x: nat)
    requires RunSound(wide, secs0, lo, r) && x < |r.secs| && r.secs[x].stype == SHT_NULL
    ensures !Owns(r.log, i, x)
  {
    hide Chained, Recorded, Restrained, Once, Owns, Logs;
    OwnedIsLogged(r.log, i, x);
  }

  lemma OwnedIsLogged(log: seq<Place>, s: int, x: nat)
    ensures Owns(log, s, x) ==> Logs(log, x)
  {
  }

  /** Section number `n` when the loop meets it: placed before the run, or free and as it was at the start. */
  lemma MeetsSection(wide: bool, secs0: seq<Sec>, lo: nat, seg: Seg, i: int, r0: Run, r: Run, n: nat) returns (r1: Run)
    requires WholeRun(wide, secs0, lo, seg, i, r0, r) && n < |seg.secs|
    ensures PlaceUpTo(wide, seg, i, r0, n) == Some(r1) && RunSound(wide, secs0, lo, r1) && RunLater(r1, r, i)
    ensures |r1.secs| == |r1.gen| == |r.secs| == |secs0| == |r0.gen| && r1.start == r0.start
    ensures PlaceUpTo(wide, seg, i, r0, n + 1) == PlaceOne(wide, seg, i, r1, seg.secs[n])
    ensures PlaceOne(wide, seg, i, r1, seg.secs[n]).Some?
    ensures r1.gen[seg.secs[n]] == r0.gen[seg.secs[n]]
    ensures r.secs[seg.secs[n]].stype == r1.secs[seg.secs[n]].stype == secs0[seg.secs[n]].stype
    ensures PlaceUpTo(wide, seg, i, r0, n + 1).value.total <= r.total
    ensures r1.secs[seg.secs[n]].stype != SHT_NULL && r1.gen[seg.secs[n]] ==>
      !Owns(r.log, i, seg.secs[n]) && Logs(r1.log, seg.secs[n]) && r.secs[seg.secs[n]] == r1.secs[seg.secs[n]]
  {
    hide PlaceOne, Chained, Recorded, Restrained, Once;
    var x := seg.secs[n];
    PlaceUpToLater(wide, secs0, lo, seg, i, r0, n, |seg.secs|);
    PlaceUpToLater(wide, secs0, lo, seg, i, r0, n + 1, |seg.secs|);
    r1 := PlaceUpTo(wide, seg, i, r0, n).value;
    PlaceUpToSound(wide, secs0, lo, seg, i, r0, n);
    DistinctPrefix(seg.secs, n);
    PlaceUpToFlags(wide, seg, i, r0, n, x);
    assert SameButPlace(secs0[x], r0.secs[x]) && SameButPlace(secs0[x], r1.secs[x]) && SameButPlace(secs0[x], r.secs[x]);
    if r1.secs[x].stype != SHT_NULL && r1.gen[x] {
      assert Logs(r0.log, x);
      PlacedBefore(wide, secs0, lo, seg, i, r0, r, x);
      LogsPrefix(r0.log, r1.log, x);
    }
  }

  /** The end of a file-backed section that was placed before is not behind the file position. */
  lemma PlacedEnd(wide: bool, secs0: seq<Sec>, lo: nat, r1: Run, x: nat)
    requires RunSound(wide, secs0, lo, r1) && r1.total < Modulus(wide)
    requires 0 < x < |r1.secs| && Logs(r1.log, x) && Backed(r1.secs[x])
    ensures EndOf(r1.secs[x]) <= r1.total
  {
    var b :| 0 <= b < |r1.log| && r1.log[b].sec == x;
    OffsetOfEntry(wide, secs0, lo, r1, b);
  }

  /** The entry that the run makes for a free section, as it stands in the end. */
  lemma OwnEntry(wide: bool, secs0: seq<Sec>, lo: nat, r2: Run, r: Run, i: int, e: Place)
    requires RunLater(r2, r, i) && RunSound(wide, secs0, lo, r) && r.total < Modulus(wide)
    requires |r2.log| > 0 && r2.log[|r2.log| - 1] == e && e.owner == i && e.sec != 0
    ensures Owns(r.log, i, e.sec) && EntryOf(r.log, i, e.sec) == e
    ensures e.sec < |r.secs| && r.secs[e.sec].offset == e.at && e.len == FileLen(r.secs[e.sec])
  {
    hide Chained, Recorded, Restrained, EntryOf;
    var a := |r2.log| - 1;
    assert r.log[..|r2.log|][a] == r.log[a];
    OneEntry(r.log, i, e.sec, a);
    OffsetOfEntry(wide, secs0, lo, r, a);
  }

  /** What the loop does with a section that was placed before: the file size reaches its end. */
  lemma PlacedFile(wide: bool, seg: Seg, i: int, r1: Run, index: nat)
    requires index < |r1.secs| == |r1.gen| && r1.gen[index] && r1.secs[index].stype != SHT_NULL
    requires Backed(r1.secs[index]) ==> r1.start <= r1.secs[index].offset && EndOf(r1.secs[index]) < W64
    ensures PlaceOne(wide, seg, i, r1, index).Some?
    ensures var r2 := PlaceOne(wide, seg, i, r1, index).value;
      && r2.total == r1.total && r2.start == r1.start
      && r2.file == if Backed(r1.secs[index]) then EndOf(r1.secs[index]) - r1.start else r1.file
  {
    hide Add64, Sub64, TakesMemory;
    if Backed(r1.secs[index]) {
      PlacedSizes(r1.secs[index].offset, r1.secs[index].size, r1.start, r1.file);
    }
  }

  /** All file-backed sections of the list lie behind `start`. */
  ghost predicate StartsBefore(secs: seq<Sec>, list: seq<nat>, start: int)
    requires ListInRange(list, |secs|)
  {
    forall k :: 0 <= k < |list| && Backed(secs[list[k]]) ==> start <= secs[list[k]].offset
  }

  lemma {:induction false} RunTracks(wide: bool, secs0: seq<Sec>, lo: nat, seg: Seg, i: int, r0: Run, r: Run, n: nat)
    requires WholeRun(wide, secs0, lo, seg, i, r0, r) && n <= |seg.secs|
    requires ListInRange(seg.secs, |r.secs|) && StartsBefore(r.secs, seg.secs, r0.start) && r0.start + r0.file <= r0.total
    ensures PlaceUpTo(wide, seg, i, r0, n).Some?
    ensures var r1, base := PlaceUpTo(wide, seg, i, r0, n).value, r0.start + r0.file;
      && r1.start == r0.start
      && Tracks(r.secs, seg.secs, r.log, i, n, r1.start + r1.file, r1.total, base, r0.total)
      && Hits(r.secs, seg.secs, r.log, i, n, r1.start + r1.file, base)
  {
    hide PlaceOne, RunSound, RunLater, Tracks, Hits, Owns, EntryOf;
    if n == 0 {
      TracksAtFirst(r.secs, seg.secs, r.log, i, r0.start + r0.file, r0.total);
    } else {
      var r1 := MeetsSection(wide, secs0, lo, seg, i, r0, r, n - 1);
      RunTracks(wide, secs0, lo, seg, i, r0, r, n - 1);
      SectionTracks(wide, secs0, lo, seg, i, r0, r, r1, n - 1);
    }
  }

  lemma TracksAtFirst(secs: seq<Sec>, list: seq<nat>, log: seq<Place>, s: int, base: int, total0: int)
    requires ListInRange(list, |secs|) && base <= total0
    ensures Tracks(secs, list, log, s, 0, base, total0, base, total0) && Hits(secs, list, log, s, 0, base, base)
  {
  }

  lemma SectionTracks(wide: bool, secs0: seq<Sec>, lo: nat, seg: Seg, i: int, r0: Run, r: Run, r1: Run, n: nat)
    requires WholeRun(wide, secs0, lo, seg, i, r0, r) && n < |seg.secs|
    requires PlaceUpTo(wide, seg, i, r0, n) == Some(r1)
    requires ListInRange(seg.secs, |r.secs|) && StartsBefore(r.secs, seg.secs, r0.start)
    requires Tracks(r.secs, seg.secs, r.log, i, n, r1.start + r1.file, r1.total, r0.start + r0.file, r0.total)
    requires Hits(r.secs, seg.secs, r.log, i, n, r1.start + r1.file, r0.start + r0.file)
    ensures PlaceUpTo(wide, seg, i, r0, n + 1).Some?
    ensures var r2, base := PlaceUpTo(wide, seg, i, r0, n + 1).value, r0.start + r0.file;
      && r2.start == r0.start
      && Tracks(r.secs, seg.secs, r.log, i, n + 1, r2.start + r2.file, r2.total, base, r0.total)
      && Hits(r.secs, seg.secs, r.log, i, n + 1, r2.start + r2.file, base)
  {
    hide PlaceOne, PlaceUpTo, RunSound, RunLater, Tracks, Hits, Owns, EntryOf;
    var x, base := seg.secs[n], r0.start + r0.file;
    var r1' := MeetsSection(wide, secs0, lo, seg, i, r0, r, n);
    var r2 := PlaceOne(wide, seg, i, r1, x).value;
    if r1.secs[x].stype == SHT_NULL {
      NullNotOwned(wide, secs0, lo, r, i, x);
      NullChangesNothing(wide, seg, i, r1, x);
      SkipStep(r.secs, seg.secs, r.log, i, n, r1.start + r1.file, r1.total, base, r0.total);
    } else if r1.gen[x] {
      if Backed(r1.secs[x]) {
        TotalOrder(r1, r, i);
        PlacedEnd(wide, secs0, lo, r1, x);
        PlacedFile(wide, seg, i, r1, x);
        OtherStep(r.secs, seg.secs, r.log, i, n, r1.total, base, r0.total);
      } else {
        PlacedFile(wide, seg, i, r1, x);
        SkipStep(r.secs, seg.secs, r.log, i, n, r1.start + r1.file, r1.total, base, r0.total);
      }
    } else {
      FreeTracks(wide, secs0, lo, seg, i, r0, r, r1, n);
    }
  }

  lemma TotalOrder(r1: Run, r: Run, i: int)
    requires RunLater(r1, r, i)
    ensures r1.total <= r.total
  {
  }

  lemma FreeTracks(wide: bool, secs0: seq<Sec>, lo: nat, seg: Seg, i: int, r0: Run, r: Run, r1: Run, n: nat)
    requires WholeRun(wide, secs0, lo, seg, i, r0, r) && n < |seg.secs| && ListInRange(seg.secs, |r.secs|)
    requires PlaceUpTo(wide, seg, i, r0, n) == Some(r1) && |r1.secs| == |r1.gen| == |r.secs|
    requires r1.secs[seg.secs[n]].stype != SHT_NULL && !r1.gen[seg.secs[n]]
    requires Tracks(r.secs, seg.secs, r.log, i, n, r1.start + r1.file, r1.total, r0.start + r0.file, r0.total)
    requires Hits(r.secs, seg.secs, r.log, i, n, r1.start + r1.file, r0.start + r0.file)
    ensures PlaceUpTo(wide, seg, i, r0, n + 1).Some?
    ensures var r2, base := PlaceUpTo(wide, seg, i, r0, n + 1).value, r0.start + r0.file;
      && r2.start == r0.start
      && Tracks(r.secs, seg.secs, r.log, i, n + 1, r2.start + r2.file, r2.total, base, r0.total)
      && Hits(r.secs, seg.secs, r.log, i, n + 1, r2.start + r2.file, base)
  {
    hide PlaceOne, PlaceUpTo, RunSound, RunLater, Hits, Owns, EntryOf, Add64, TakesMemory, LastOther, Unpadded, Joins, NoneOwn;
    var x, base := seg.secs[n], r0.start + r0.file;
    var r1' := MeetsSection(wide, secs0, lo, seg, i, r0, r, n);
    PlaceUpToLater(wide, secs0, lo, seg, i, r0, n + 1, |seg.secs|);
    var at, r2 := PlaceOneSizes(wide, seg, i, r1, x);
    FreeIsInitial(wide, secs0, lo, r1, x);
    SameSize(wide, secs0, lo, r, x);
    var e := Place(x, i, at, FileLen(r1.secs[x]), at - r1.total);
    assert r2.log[|r2.log| - 1] == e;
    OwnEntry(wide, secs0, lo, r2, r, i, e);
    if Backed(r1.secs[x]) {
      FileStep(r1.start, r1.total, r1.file, r1.secs[x].size, at);
    }
    OwnStep(r.secs, seg.secs, r.log, i, n, r1.start + r1.file, r2.start + r2.file, r1.total, base, r0.total);
  }

  lemma SameSize(wide: bool, secs0: seq<Sec>, lo: nat, r: Run, x: nat)
    requires RunSound(wide, secs0, lo, r) && x < |r.secs|
    ensures |secs0| == |r.secs| && r.secs[x].size == secs0[x].size && r.secs[x].stype == secs0[x].stype
  {
    assert SameButPlace(secs0[x], r.secs[x]);
  }

  // ---------------------------------------------------------------- the law

  /** Section number `l`, which the segment placed, and those it placed in front of it go on where the last section of
      another segment ends: they leave no gap behind that end, or behind the start when there is no such section. */
  ghost predicate Continues(secs: seq<Sec>, seg0: Seg, log: seq<Place>, s: int, l: nat)
    requires l < |seg0.secs| && ListInRange(seg0.secs, |secs|)
  {
    var j := LastOther(secs, seg0.secs, log, s, l);
    && Unpadded(secs, seg0.secs, log, s, j, l)
    && (if j >= 0 then Joins(seg0.secs, log, s, j, l + 1, EndOf(secs[seg0.secs[j]]))
        else StartsAtZero(seg0) || Owns(log, s, seg0.secs[0])
             || Joins(seg0.secs, log, s, -1, l + 1, SharedStart(secs, seg0)))
  }

  /** The last file-backed section of the list decides: one of another segment must end last, one of this segment must
      have gone on without a gap. */
  ghost predicate Reaches(secs: seq<Sec>, seg0: Seg, log: seq<Place>, s: int)
    requires ListInRange(seg0.secs, |secs|)
  {
    var l := LastBacked(secs, seg0.secs, |seg0.secs|);
    if l < 0 then true
    else if Owns(log, s, seg0.secs[l]) then Continues(secs, seg0, log, s, l)
    else forall k :: 0 <= k <= l && Backed(secs[seg0.secs[k]]) ==> EndOf(secs[seg0.secs[k]]) <= EndOf(secs[seg0.secs[l]])
  }

  /** Sections listed in front of one that the segment placed end in front of it. */
  lemma EndsBeforeOwn(wide: bool, secs0: seq<Sec>, lo: nat, seg: Seg, i: int, r0: Run, r: Run, l: nat, k: nat)
    requires WholeRun(wide, secs0, lo, seg, i, r0, r) && k < l < |seg.secs| && ListInRange(seg.secs, |r.secs|)
    requires Owns(r.log, i, seg.secs[l]) && Backed(r.secs[seg.secs[l]]) && Backed(r.secs[seg.secs[k]])
    ensures EndOf(r.secs[seg.secs[k]]) <= EndOf(r.secs[seg.secs[l]])
  {
    hide PlaceOne, PlaceUpTo, Chained, Recorded, Restrained, Once, Owns, EntryOf;
    var x, y := seg.secs[k], seg.secs[l];
    var r1 := MeetsSection(wide, secs0, lo, seg, i, r0, r, l);
    PlaceUpToSound(wide, secs0, lo, seg, i, r0, l);
    SameSize(wide, secs0, lo, r, x);
    SameSize(wide, secs0, lo, r1, x);
    assert Logs(r1.log, x) && r.secs[x] == r1.secs[x];
    PlacedEnd(wide, secs0, lo, r1, x);
    PlaceUpToLater(wide, secs0, lo, seg, i, r0, l + 1, |seg.secs|);
    var at, r2 := PlaceOneSizes(wide, seg, i, r1, y);
    var e := Place(y, i, at, FileLen(r1.secs[y]), at - r1.total);
    assert r2.log[|r2.log| - 1] == e;
    OwnEntry(wide, secs0, lo, r2, r, i, e);
  }

  /** The file size of a run reaches every file-backed section exactly when the last one says so. */
  lemma RunReaches(wide: bool, secs0: seq<Sec>, lo: nat, seg: Seg, i: int, r0: Run, r: Run)
    requires WholeRun(wide, secs0, lo, seg, i, r0, r) && |seg.secs| > 0
    requires ListInRange(seg.secs, |r.secs|) && StartsBefore(r.secs, seg.secs, r0.start) && r0.start + r0.file <= r0.total
    requires if StartsAtZero(seg) || Owns(r.log, i, seg.secs[0]) then r0.start + r0.file == r0.total
             else r0.start + r0.file == SharedStart(r.secs, seg)
    ensures r.start + r.file <= r.total && r.start == r0.start
    ensures (forall k :: 0 <= k < |seg.secs| && Backed(r.secs[seg.secs[k]]) ==> EndOf(r.secs[seg.secs[k]]) <= r.start + r.file)
            <==> Reaches(r.secs, seg, r.log, i)
  {
    hide PlaceUpTo, RunSound, RunLater, Owns, EntryOf, Unpadded, Joins, NoneOwn, StartsAtZero, SharedStart;
    var n, base := |seg.secs|, r0.start + r0.file;
    RunTracks(wide, secs0, lo, seg, i, r0, r, n);
    var l := LastBacked(r.secs, seg.secs, n);
    if l >= 0 && Owns(r.log, i, seg.secs[l]) {
      forall k | 0 <= k < l && Backed(r.secs[seg.secs[k]]) ensures EndOf(r.secs[seg.secs[k]]) <= EndOf(r.secs[seg.secs[l]]) {
        EndsBeforeOwn(wide, secs0, lo, seg, i, r0, r, l, k);
      }
      RunTracks(wide, secs0, lo, seg, i, r0, r, l + 1);
      assert LastOther(r.secs, seg.secs, r.log, i, l + 1) == LastOther(r.secs, seg.secs, r.log, i, l);
      assert GoesOn(r.secs, seg.secs, r.log, i, l, base) <==> Continues(r.secs, seg, r.log, i, l);
    }
  }

  /** How the run of a segment starts, whoever placed its sections. */
  lemma AnyStart(h: Header, secs0: seq<Sec>, lo: nat, p: Plan, i: nat, r0: Run, r: Run)
    requires SegmentRun(h, secs0, lo, p, i, r0, r) && r.total < Modulus(h.wide)
    requires Regular(r.secs, p.segs[i]) && Distinct(p.segs[i].secs)
    ensures WholeRun(h.wide, secs0, lo, p.segs[i], i, r0, r)
    ensures r0.start + r0.file <= r0.total && r0.start < Modulus(h.wide)
    ensures if StartsAtZero(p.segs[i]) || Owns(r.log, i, p.segs[i].secs[0]) then r0.start + r0.file == r0.total
            else r0.start + r0.file == SharedStart(r.secs, p.segs[i])
  {
    hide PlaceUpTo, StartRun, Chained, Recorded, Restrained, Once;
    var seg := p.segs[i];
    StartRunSame(h, p, seg);
    StartRunSound(h, secs0, lo, p, seg);
    TruncSmall(h.wide, r0.total);
    TruncSmall(h.wide, p.total);
    SameTypes(h.wide, secs0, lo, r);
    assert WholeRun(h.wide, secs0, lo, seg, i, r0, r);
    if StartsAtZero(seg) {
      ZeroStart(h, p, seg);
    } else if p.gen[seg.secs[0]] {
      SharedRunStart(h, p, seg);
      SharedFirst(h, secs0, lo, p, i, r0, r);
    } else {
      FreshStart(h, p, seg);
      FirstOwned(h, secs0, lo, p, i, r0, r);
    }
  }

  lemma SameTypes(wide: bool, secs0: seq<Sec>, lo: nat, r: Run)
    requires RunSound(wide, secs0, lo, r)
    ensures |secs0| == |r.secs| && forall x :: 0 <= x < |r.secs| ==> r.secs[x].stype == secs0[x].stype
  {
    forall x | 0 <= x < |r.secs| ensures r.secs[x].stype == secs0[x].stype {
      SameSize(wide, secs0, lo, r, x);
    }
  }

  /** The first section of the list was placed before. */
  lemma SharedFirst(h: Header, secs0: seq<Sec>, lo: nat, p: Plan, i: nat, r0: Run, r: Run)
    requires SegmentRun(h, secs0, lo, p, i, r0, r) && WholeRun(h.wide, secs0, lo, p.segs[i], i, r0, r)
    requires |p.segs[i].secs| > 0 && p.gen[p.segs[i].secs[0]] && p.secs[p.segs[i].secs[0]].stype != SHT_NULL && p.segs[i].secs[0] != 0
    ensures !Owns(r.log, i, p.segs[i].secs[0]) && r.secs[p.segs[i].secs[0]] == p.secs[p.segs[i].secs[0]]
    ensures p.secs[p.segs[i].secs[0]].offset <= p.total
  {
    hide PlaceUpTo, StartRun, Recorded, Restrained, Once;
    var x := p.segs[i].secs[0];
    StartRunSame(h, p, p.segs[i]);
    assert Logs(r0.log, x);
    PlacedBefore(h.wide, secs0, lo, p.segs[i], i, r0, r, x);
    var b :| 0 <= b < |r0.log| && r0.log[b].sec == x;
    OffsetOfEntry(h.wide, secs0, lo, r0, b);
    assert p.log[b].at <= p.total;
  }

  /** The first section of the list is placed by this run. */
  lemma FirstOwned(h: Header, secs0: seq<Sec>, lo: nat, p: Plan, i: nat, r0: Run, r: Run)
    requires SegmentRun(h, secs0, lo, p, i, r0, r)
    requires |p.segs[i].secs| > 0 && !p.gen[p.segs[i].secs[0]] && r.secs[p.segs[i].secs[0]].stype != SHT_NULL
    ensures Owns(r.log, i, p.segs[i].secs[0])
  {
    hide PlaceUpTo, StartRun, Chained, Recorded, Restrained, Once;
    var x := p.segs[i].secs[0];
    StartRunSame(h, p, p.segs[i]);
    assert !Logs(p.log, x) && Logs(r.log, x);
    forall a | 0 <= a < |p.log| ensures r.log[a].sec != x {
      assert r.log[..|p.log|][a] == p.log[a];
    }
    var b :| 0 <= b < |r.log| && r.log[b].sec == x;
    assert r.log[b].owner == i;
  }

  /** When its turn comes, a segment covers its file-backed sections, whoever placed them, if and only if it starts in
      front of all of them and the last one says so. */
  lemma CoversTurn(h: Header, secs0: seq<Sec>, lo: nat, p: Plan, i: nat)
    requires PlanSound(h.wide, secs0, lo, p) && i < |p.segs| && InRange(p.segs, |p.secs|)
    requires NoEntryOf(p.log, i) && LayoutSegment(h, p, i).Some? && LayoutSegment(h, p, i).value.total < Modulus(h.wide)
    requires Regular(LayoutSegment(h, p, i).value.secs, p.segs[i]) && Distinct(p.segs[i].secs)
    ensures var p' := LayoutSegment(h, p, i).value;
      Covers(p'.secs, p'.segs[i])
      <==> StartsBefore(p'.secs, p.segs[i].secs, p'.segs[i].offset) && Reaches(p'.secs, p.segs[i], p'.log, i)
  {
    hide PlaceUpTo, StartRun, Sound, Reaches, RunLater, Distinct;
    var seg := p.segs[i];
    var r0, r := SegmentRunHolds(h, secs0, lo, p, i);
    AnyStart(h, secs0, lo, p, i, r0, r);
    TruncSmall(h.wide, r0.start);
    assert LayoutSegment(h, p, i).value.segs[i] == FinishSegment(h.wide, seg, r);
    SameStart(h.wide, secs0, lo, seg, i, r0, r);
    if StartsBefore(r.secs, seg.secs, r0.start) {
      RunReaches(h.wide, secs0, lo, seg, i, r0, r);
      TruncSmall(h.wide, r.file);
    }
  }

  lemma SameStart(wide: bool, secs0: seq<Sec>, lo: nat, seg: Seg, i: int, r0: Run, r: Run)
    requires WholeRun(wide, secs0, lo, seg, i, r0, r)
    ensures r.start == r0.start
  {
  }
}
