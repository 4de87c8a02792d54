/** What every step of the layout passes keeps: the log is a chain of disjoint ranges, no section is placed
    twice, and nothing that was placed ever moves. */
module LayoutFacts {
  import opened Words
  import opened LayoutModel

  ghost predicate Chained(log: seq<Place>, lo: nat, hi: nat) {
    && (forall k :: 0 <= k < |log| ==> lo + log[k].pad <= log[k].at && log[k].at + log[k].len <= hi)
    && (forall a, b :: 0 <= a < b < |log| ==> log[a].at + log[a].len + log[b].pad <= log[b].at)
  }

  ghost predicate Once(log: seq<Place>) {
    forall a, b :: 0 <= a < b < |log| ==> log[a].sec != log[b].sec
  }

  ghost predicate Logs(log: seq<Place>, i: nat) {
    exists k :: 0 <= k < |log| && log[k].sec == i
  }

  ghost predicate Owns(log: seq<Place>, s: int, i: nat) {
    exists k :: 0 <= k < |log| && log[k].sec == i && log[k].owner == s
  }

  /** `s` is `s0` with at most its address and file offset assigned. */
  ghost predicate SameButPlace(s0: Sec, s: Sec) {
    s == s0.(addr := s.addr, addrSet := s.addrSet, offset := s.offset)
  }

  /** Address and offset are values that the header fields of the class can hold. */
  predicate FitsClass(wide: bool, s: Sec) { s.addr < Modulus(wide) && s.offset < Modulus(wide) }

  /** Section 0 keeps its offset, an address given beforehand stays, and what fits the class goes on fitting. */
  ghost predicate Restrained(wide: bool, i: nat, s0: Sec, s: Sec) {
    && (i == 0 ==> s.offset == s0.offset)
    && (s0.addrSet ==> s.addrSet && s.addr == s0.addr)
    && (FitsClass(wide, s0) ==> FitsClass(wide, s))
  }

  ghost predicate Recorded(wide: bool, secs0: seq<Sec>, secs: seq<Sec>, e: Place) {
    && e.sec < |secs| == |secs0|
    && e.len == FileLen(secs0[e.sec])
    && (e.sec != 0 ==> secs[e.sec].offset == Trunc(wide, e.at))
  }

  /** The invariant of all three passes. */
  ghost predicate Sound(wide: bool, secs0: seq<Sec>, lo: nat, secs: seq<Sec>, total: nat, log: seq<Place>) {
    && |secs| == |secs0|
    && lo <= total
    && Chained(log, lo, total)
    && Once(log)
    && (forall k :: 0 <= k < |log| ==> Recorded(wide, secs0, secs, log[k]))
    && (forall i :: 0 <= i < |secs| ==> SameButPlace(secs0[i], secs[i]))
    && (forall i :: 0 <= i < |secs| ==> Restrained(wide, i, secs0[i], secs[i]))
    && (forall i :: 0 <= i < |secs| && !Logs(log, i) ==> secs[i] == secs0[i])
  }

  /** In the first pass the flags say which sections are placed (or need no place). */
  ghost predicate FlagsAgree(secs: seq<Sec>, gen: seq<bool>, log: seq<Place>) {
    && |gen| == |secs|
    && (forall i :: 0 <= i < |secs| && Logs(log, i) ==> gen[i] && secs[i].stype != SHT_NULL)
    && (forall i :: 0 <= i < |secs| && gen[i] && secs[i].stype != SHT_NULL ==> Logs(log, i))
  }

  /** From one moment to a later one: placed sections stay, and new entries lie behind the old end. */
  ghost predicate Later(secs: seq<Sec>, total: nat, log: seq<Place>,
                        secs': seq<Sec>, total': nat, log': seq<Place>, owner: int) {
    && |secs'| == |secs|
    && total <= total'
    && |log| <= |log'| && log'[..|log|] == log
    && (forall i :: 0 <= i < |secs| && Logs(log, i) ==> secs'[i] == secs[i])
    && (forall i :: 0 <= i < |secs| && !Logs(log', i) ==> secs'[i] == secs[i])
    && (forall k :: |log| <= k < |log'| ==> log'[k].owner == owner && total <= log'[k].at)
  }

  lemma TruncOfResidue(wide: bool, v: int)
    ensures Trunc(wide, v % W64) == Trunc(wide, v)
  {
    var q := v / W64;
    assert v == v % W64 + (q * W32) * W32;
    NarrowResidue(v % W64, q * W32);
  }

  lemma NarrowResidue(r: int, k: int)
    ensures (r + k * W32) % W32 == r % W32
  {
  }

  lemma LogsAppend(log: seq<Place>, e: Place, i: nat)
    ensures Logs(log + [e], i) <==> Logs(log, i) || e.sec == i
  {
    if Logs(log, i) {
      var k :| 0 <= k < |log| && log[k].sec == i;
      assert (log + [e])[k].sec == i;
    }
    if e.sec == i {
      assert (log + [e])[|log|].sec == i;
    }
  }

  lemma LogsAppendAll(log: seq<Place>, e: Place)
    ensures forall i: nat :: Logs(log + [e], i) <==> Logs(log, i) || e.sec == i
  {
    forall i: nat ensures Logs(log + [e], i) <==> Logs(log, i) || e.sec == i {
      LogsAppend(log, e, i);
    }
  }

  /** Writing one new entry behind the end keeps the invariant. */
  lemma AppendKeepsSound(wide: bool, secs0: seq<Sec>, lo: nat, secs: seq<Sec>, total: nat, log: seq<Place>,
                         e: Place, sec': Sec)
    requires Sound(wide, secs0, lo, secs, total, log)
    requires e.sec < |secs| && !Logs(log, e.sec)
    requires total + e.pad <= e.at && e.len == FileLen(secs0[e.sec])
    requires SameButPlace(secs0[e.sec], sec') && Restrained(wide, e.sec, secs0[e.sec], sec')
    requires e.sec != 0 ==> sec'.offset == Trunc(wide, e.at)
    ensures Sound(wide, secs0, lo, secs[e.sec := sec'], e.at + e.len, log + [e])
    ensures Later(secs, total, log, secs[e.sec := sec'], e.at + e.len, log + [e], e.owner)
  {
    LogsAppendAll(log, e);
    var log' := log + [e];
    forall k | 0 <= k < |log| ensures log[k].sec != e.sec {
      assert Logs(log, log[k].sec);
    }
    forall k | 0 <= k < |log'| ensures Recorded(wide, secs0, secs[e.sec := sec'], log'[k]) {
      if k < |log| {
        assert Recorded(wide, secs0, secs, log[k]);
      }
    }
  }

  lemma LaterRefl(secs: seq<Sec>, total: nat, log: seq<Place>, owner: int)
    ensures Later(secs, total, log, secs, total, log, owner)
  {
  }

  lemma LogsPrefix(log: seq<Place>, log': seq<Place>, i: nat)
    requires |log| <= |log'| && log'[..|log|] == log && Logs(log, i)
    ensures Logs(log', i)
  {
    var k :| 0 <= k < |log| && log[k].sec == i;
    assert log'[..|log|][k] == log'[k];
  }

  lemma LaterTrans(s1: seq<Sec>, t1: nat, l1: seq<Place>, s2: seq<Sec>, t2: nat, l2: seq<Place>,
                   s3: seq<Sec>, t3: nat, l3: seq<Place>, owner: int)
    requires Later(s1, t1, l1, s2, t2, l2, owner) && Later(s2, t2, l2, s3, t3, l3, owner)
    ensures Later(s1, t1, l1, s3, t3, l3, owner)
  {
    assert l3[..|l1|] == l3[..|l2|][..|l1|] == l1;
    forall i | 0 <= i < |s1| && Logs(l1, i) ensures s3[i] == s1[i] {
      LogsPrefix(l1, l2, i);
    }
    forall i | 0 <= i < |s1| && !Logs(l3, i) ensures s3[i] == s1[i] {
      if Logs(l2, i) {
        LogsPrefix(l2, l3, i);
      }
    }
    forall k | |l1| <= k < |l3| ensures l3[k].owner == owner && t1 <= l3[k].at {
      if k < |l2| {
        assert l3[..|l2|][k] == l3[k] == l2[k];
      }
    }
  }

  // ---------------------------------------------------------------- first pass, inner loop

  ghost predicate RunSound(wide: bool, secs0: seq<Sec>, lo: nat, r: Run) {
    Sound(wide, secs0, lo, r.secs, r.total, r.log) && FlagsAgree(r.secs, r.gen, r.log)
  }

  ghost predicate RunLater(r: Run, r': Run, owner: int) {
    && r'.start == r.start
    && Later(r.secs, r.total, r.log, r'.secs, r'.total, r'.log, owner)
    && |r'.gen| == |r.gen|
    && forall i :: 0 <= i < |r.gen| && r.gen[i] ==> r'.gen[i]
  }

  lemma RunLaterTrans(r1: Run, r2: Run, r3: Run, owner: int)
    requires RunLater(r1, r2, owner) && RunLater(r2, r3, owner)
    ensures RunLater(r1, r3, owner)
  {
    LaterTrans(r1.secs, r1.total, r1.log, r2.secs, r2.total, r2.log, r3.secs, r3.total, r3.log, owner);
  }

  lemma AppendKeepsFlags(secs: seq<Sec>, gen: seq<bool>, log: seq<Place>, e: Place, sec': Sec)
    requires FlagsAgree(secs, gen, log) && e.sec < |secs|
    requires sec'.stype == secs[e.sec].stype != SHT_NULL
    ensures FlagsAgree(secs[e.sec := sec'], gen[e.sec := true], log + [e])
  {
    LogsAppendAll(log, e);
  }

  lemma PutAtSound(wide: bool, secs0: seq<Sec>, lo: nat, r: Run, index: nat, owner: int, at: nat, sec': Sec)
    requires RunSound(wide, secs0, lo, r) && index < |r.secs|
    requires !r.gen[index] && r.secs[index].stype != SHT_NULL && r.total <= at
    requires SameButPlace(r.secs[index], sec') && Restrained(wide, index, r.secs[index], sec')
    requires index != 0 ==> sec'.offset == Trunc(wide, at)
    ensures RunSound(wide, secs0, lo, PutAt(r, index, owner, at, sec'))
    ensures RunLater(r, PutAt(r, index, owner, at, sec'), owner)
  {
    hide Chained, Once, Recorded, Later;
    var e := Place(index, owner, at, FileLen(r.secs[index]), at - r.total);
    assert SameButPlace(secs0[index], r.secs[index]) && Restrained(wide, index, secs0[index], r.secs[index]);
    AppendKeepsSound(wide, secs0, lo, r.secs, r.total, r.log, e, sec');
    AppendKeepsFlags(r.secs, r.gen, r.log, e, sec');
  }

  lemma StampFacts(wide: bool, seg: Seg, sec: Sec, index: nat, at: nat, start: Word64)
    ensures SameButPlace(sec, Stamp(wide, seg, sec, index, at % W64, start))
    ensures Restrained(wide, index, sec, Stamp(wide, seg, sec, index, at % W64, start))
    ensures index != 0 ==> Stamp(wide, seg, sec, index, at % W64, start).offset == Trunc(wide, at)
  {
    TruncOfResidue(wide, at);
  }

  /** How a section that was not placed before gets its place. */
  lemma PlaceOneSplit(wide: bool, seg: Seg, owner: int, r: Run, index: nat) returns (at: nat, r': Run)
    requires index < |r.secs| == |r.gen|
    requires PlaceOne(wide, seg, owner, r, index).Some?
    requires r.secs[index].stype != SHT_NULL && !r.gen[index]
    ensures r' == PlaceOne(wide, seg, owner, r, index).value
    ensures Some(at - r.total) == SecAlign(seg, r.secs[index], false, r.total % W64, r.start, r.file)
    ensures r.total <= at
    ensures r' == PutAt(r, index, owner, at, Stamp(wide, seg, r.secs[index], index, at % W64, r.start))
                    .(mem := r'.mem, file := r'.file)
  {
    at := r.total + SecAlign(seg, r.secs[index], false, r.total % W64, r.start, r.file).value;
    r' := PlaceOne(wide, seg, owner, r, index).value;
  }

  lemma PlaceOneSound(wide: bool, secs0: seq<Sec>, lo: nat, seg: Seg, owner: int, r: Run, index: nat)
    requires RunSound(wide, secs0, lo, r) && index < |r.secs|
    requires PlaceOne(wide, seg, owner, r, index).Some?
    ensures RunSound(wide, secs0, lo, PlaceOne(wide, seg, owner, r, index).value)
    ensures RunLater(r, PlaceOne(wide, seg, owner, r, index).value, owner)
    ensures PlaceOne(wide, seg, owner, r, index).value.gen[index]
  {
    var sec := r.secs[index];
    if sec.stype != SHT_NULL && !r.gen[index] {
      var at, r' := PlaceOneSplit(wide, seg, owner, r, index);
      StampFacts(wide, seg, sec, index, at, r.start);
      PutAtSound(wide, secs0, lo, r, index, owner, at, Stamp(wide, seg, sec, index, at % W64, r.start));
    } else {
      LaterRefl(r.secs, r.total, r.log, owner);
    }
  }

  lemma PlaceUpToUnfold(wide: bool, seg: Seg, owner: int, r: Run, n: nat) returns (r1: Run)
    requires 0 < n <= |seg.secs| && |r.secs| == |r.gen|
    requires forall k :: 0 <= k < |seg.secs| ==> seg.secs[k] < |r.secs|
    requires PlaceUpTo(wide, seg, owner, r, n).Some?
    ensures PlaceUpTo(wide, seg, owner, r, n - 1) == Some(r1) && |r1.secs| == |r1.gen| == |r.gen|
    ensures PlaceUpTo(wide, seg, owner, r, n) == PlaceOne(wide, seg, owner, r1, seg.secs[n - 1])
  {
    r1 := PlaceUpTo(wide, seg, owner, r, n - 1).value;
  }

  lemma {:induction false} PlaceUpToSound(wide: bool, secs0: seq<Sec>, lo: nat, seg: Seg, owner: int, r: Run, n: nat)
    requires RunSound(wide, secs0, lo, r) && n <= |seg.secs|
    requires forall k :: 0 <= k < |seg.secs| ==> seg.secs[k] < |r.secs|
    requires PlaceUpTo(wide, seg, owner, r, n).Some?
    ensures RunSound(wide, secs0, lo, PlaceUpTo(wide, seg, owner, r, n).value)
    ensures RunLater(r, PlaceUpTo(wide, seg, owner, r, n).value, owner)
    ensures forall k :: 0 <= k < n ==> PlaceUpTo(wide, seg, owner, r, n).value.gen[seg.secs[k]]
  {
    if n == 0 {
      LaterRefl(r.secs, r.total, r.log, owner);
    } else {
      PlaceUpToSound(wide, secs0, lo, seg, owner, r, n - 1);
      var r1 := PlaceUpToUnfold(wide, seg, owner, r, n);
      PlaceOneSound(wide, secs0, lo, seg, owner, r1, seg.secs[n - 1]);
      var r2 := PlaceOne(wide, seg, owner, r1, seg.secs[n - 1]).value;
      RunLaterTrans(r, r1, r2, owner);
      AllFlagged(seg.secs, r1, r2, n);
    }
  }

  lemma AllFlagged(list: seq<nat>, r1: Run, r2: Run, n: nat)
    requires 0 < n <= |list| && (forall k :: 0 <= k < |list| ==> list[k] < |r1.gen|) && |r1.gen| == |r2.gen|
    requires forall i :: 0 <= i < |r1.gen| && r1.gen[i] ==> r2.gen[i]
    requires forall k :: 0 <= k < n - 1 ==> r1.gen[list[k]]
    requires r2.gen[list[n - 1]]
    ensures forall k :: 0 <= k < n ==> r2.gen[list[k]]
  {
  }
}
