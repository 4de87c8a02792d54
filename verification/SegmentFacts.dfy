/** What laying out one segment establishes: the address/offset correspondence of the sections it places,
    the loader's congruence, and which sections its file image covers. */
module SegmentFacts {
  import opened Words
  import opened LayoutModel
  import opened LayoutFacts

  /** Sections whose address the layout has to respect or to invent. */
  predicate AddressMatters(s0: Sec) {
    !s0.addrSet || (FileLen(s0) != 0)
  }

  /** sh_offset - p_offset = sh_addr - p_vaddr, in the width of the file class. */
  predicate Corresponds(wide: bool, s: Sec, vaddr: int, start: int) {
    Trunc(wide, s.offset - start) == Trunc(wide, s.addr - vaddr)
  }

  lemma TruncDiffWide(a: int, b: int)
    ensures (a % W64 - b) % W64 == (a - b) % W64
    ensures (b - a % W64) % W64 == (b - a) % W64
  {
    var q := a / W64;
    assert a % W64 == a - q * W64;
  }

  lemma TruncDiffNarrow(a: int, b: int)
    ensures (a % W32 - b) % W32 == (a - b) % W32
    ensures (b - a % W32) % W32 == (b - a) % W32
  {
    var q := a / W32;
    assert a % W32 == a - q * W32;
  }

  lemma TruncDiff(wide: bool, a: int, b: int)
    ensures Trunc(wide, Trunc(wide, a) - b) == Trunc(wide, a - b)
    ensures Trunc(wide, b - Trunc(wide, a)) == Trunc(wide, b - a)
  {
    if wide {
      TruncDiffWide(a, b);
    } else {
      TruncDiffNarrow(a, b);
    }
  }

  /** A preset address decides the position of its section. */
  lemma PresetPosition(addr: Word64, vaddr: Word64, total: nat, at: nat, start: Word64)
    requires at == total + Sub64(addr, vaddr) - Sub64(total % W64, start)
    ensures Sub64(at % W64, start) == Sub64(addr, vaddr)
  {
    TruncDiffWide(at, start);
    SamePosition(total, start, Sub64(addr, vaddr));
  }

  lemma SamePosition(total: nat, start: Word64, distance: Word64)
    ensures (total + distance - Sub64(total % W64, start) - start) % W64 == distance
  {
    var q, p := total / W64, total % W64;
    assert Sub64(p, start) == if p >= start then p - start else p - start + W64;
  }

  /** An invented address follows from the position. */
  lemma InventedAddress(vaddr: Word64, pos: Word64, start: Word64)
    ensures Sub64(Sub64(Add64(vaddr, pos), start), vaddr) == Sub64(pos, start)
  {
  }

  lemma TruncOfSub64(wide: bool, a: int, b: int)
    ensures Trunc(wide, Sub64(a, b)) == Trunc(wide, a - b)
  {
    TruncOfResidue(wide, a - b);
  }

  lemma TruncSame(wide: bool, a: int, b: int, c: int, d: int)
    requires Sub64(a, b) == Sub64(c, d)
    ensures Trunc(wide, a - b) == Trunc(wide, c - d)
  {
    TruncOfSub64(wide, a, b);
    TruncOfSub64(wide, c, d);
  }

  lemma StampCorresponds(wide: bool, seg: Seg, sec: Sec, index: nat, total: nat, at: nat, start: Word64, file: Word64)
    requires index != 0 && sec.stype != SHT_NULL && AddressMatters(sec)
    requires total <= at
    requires SecAlign(seg, sec, false, total % W64, start, file) == Some(at - total)
    ensures Corresponds(wide, Stamp(wide, seg, sec, index, at % W64, start), seg.vaddr, start)
  {
    var s := Stamp(wide, seg, sec, index, at % W64, start);
    var pos := at % W64;
    TruncDiff(wide, pos, start);
    assert Trunc(wide, s.offset - start) == Trunc(wide, pos - start);
    if sec.addrSet {
      PresetPosition(sec.addr, seg.vaddr, total, at, start);
      TruncSame(wide, pos, start, sec.addr, seg.vaddr);
    } else {
      var a := Sub64(Add64(seg.vaddr, pos), start);
      TruncDiff(wide, a, seg.vaddr);
      InventedAddress(seg.vaddr, pos, start);
      TruncSame(wide, a, seg.vaddr, pos, start);
    }
  }

  // ---------------------------------------------------------------- all sections placed by one segment

  ghost predicate RunMatches(wide: bool, secs0: seq<Sec>, seg: Seg, owner: int, r: Run) {
    forall k :: 0 <= k < |r.log| && r.log[k].owner == owner && 0 != r.log[k].sec < |secs0| == |r.secs|
      && AddressMatters(secs0[r.log[k].sec])
      ==> Corresponds(wide, r.secs[r.log[k].sec], seg.vaddr, r.start)
  }

  lemma PlaceOneMatches(wide: bool, secs0: seq<Sec>, lo: nat, seg: Seg, owner: int, r: Run, index: nat)
    requires RunSound(wide, secs0, lo, r) && index < |r.secs|
    requires PlaceOne(wide, seg, owner, r, index).Some?
    requires RunMatches(wide, secs0, seg, owner, r)
    ensures RunMatches(wide, secs0, seg, owner, PlaceOne(wide, seg, owner, r, index).value)
  {
    var sec := r.secs[index];
    if sec.stype != SHT_NULL && !r.gen[index] {
      var at, r' := PlaceOneSplit(wide, seg, owner, r, index);
      assert !Logs(r.log, index);
      assert sec == secs0[index];
      if index != 0 && AddressMatters(sec) {
        StampCorresponds(wide, seg, sec, index, r.total, at, r.start, r.file);
      }
      forall k | 0 <= k < |r'.log| && r'.log[k].owner == owner && 0 != r'.log[k].sec && AddressMatters(secs0[r'.log[k].sec])
        ensures Corresponds(wide, r'.secs[r'.log[k].sec], seg.vaddr, r.start)
      {
        if k < |r.log| {
          assert r'.log[k] == r.log[k];
          assert Logs(r.log, r.log[k].sec);
        }
      }
    }
  }

  lemma {:induction false} PlaceUpToMatches(wide: bool, secs0: seq<Sec>, lo: nat, seg: Seg, owner: int, r: Run, n: nat)
    requires RunSound(wide, secs0, lo, r) && n <= |seg.secs|
    requires forall k :: 0 <= k < |seg.secs| ==> seg.secs[k] < |r.secs|
    requires PlaceUpTo(wide, seg, owner, r, n).Some?
    requires RunMatches(wide, secs0, seg, owner, r)
    ensures RunMatches(wide, secs0, seg, owner, PlaceUpTo(wide, seg, owner, r, n).value)
  {
    if n > 0 {
      PlaceUpToMatches(wide, secs0, lo, seg, owner, r, n - 1);
      PlaceUpToSound(wide, secs0, lo, seg, owner, r, n - 1);
      PlaceOneMatches(wide, secs0, lo, seg, owner, PlaceUpTo(wide, seg, owner, r, n - 1).value, seg.secs[n - 1]);
    }
  }

  // ---------------------------------------------------------------- sizes

  predicate Backed(s: Sec) { s.stype != SHT_NULL && s.stype != SHT_NOBITS }

  ghost predicate Distinct(list: seq<nat>) {
    forall a, b :: 0 <= a < b < |list| ==> list[a] != list[b]
  }

  ghost predicate BackedAreAlloc(secs: seq<Sec>, list: seq<nat>)
    requires forall k :: 0 <= k < |list| ==> list[k] < |secs|
  {
    forall k :: 0 <= k < |list| && secs[list[k]].stype != SHT_NULL && secs[list[k]].stype != SHT_NOBITS
      ==> HasBit(secs[list[k]].flags, SHF_ALLOC)
  }

  /** The memory that the first `n` sections of `list` need beyond their file bytes. */
  function NobitsBytes(secs: seq<Sec>, list: seq<nat>, n: nat): nat
    requires n <= |list| && forall k :: 0 <= k < |list| ==> list[k] < |secs|
  {
    if n == 0 then 0
    else NobitsBytes(secs, list, n - 1) + if secs[list[n - 1]].stype == SHT_NOBITS then secs[list[n - 1]].size else 0
  }

  lemma {:induction false} NobitsBytesMonotone(secs: seq<Sec>, list: seq<nat>, m: nat, n: nat)
    requires m <= n <= |list| && forall k :: 0 <= k < |list| ==> list[k] < |secs|
    ensures NobitsBytes(secs, list, m) <= NobitsBytes(secs, list, n)
  {
    if m < n {
      NobitsBytesMonotone(secs, list, m, n - 1);
    }
  }

  /** The sizes a section adds when it is placed for the first time. */
  lemma PlaceOneSizes(wide: bool, seg: Seg, owner: int, r: Run, index: nat) returns (at: nat, r': Run)
    requires index < |r.secs| == |r.gen|
    requires PlaceOne(wide, seg, owner, r, index).Some?
    requires r.secs[index].stype != SHT_NULL && !r.gen[index]
    ensures r' == PlaceOne(wide, seg, owner, r, index).value
    ensures r.total <= at && r'.total == at + FileLen(r.secs[index]) && r'.start == r.start
    ensures r'.log == r.log + [Place(index, owner, at, FileLen(r.secs[index]), at - r.total)]
    ensures var d := Add64(r.secs[index].size, at - r.total);
            && r'.mem == (if TakesMemory(seg, r.secs[index]) then Add64(r.mem, d) else r.mem)
            && r'.file == (if r.secs[index].stype != SHT_NOBITS then Add64(r.file, d) else r.file)
  {
    at, r' := PlaceOneSplit(wide, seg, owner, r, index);
  }

  /** Without wrap-around, adding one placed section is ordinary addition. */
  lemma SizesStep(start: int, total: nat, file: Word64, mem: Word64, size: Word64, at: nat, bytes: nat)
    requires start + file <= total <= at && 0 <= start
    requires mem + start <= total + bytes && at + bytes + size < W64
    ensures Add64(mem, Add64(size, at - total)) == mem + size + at - total
    ensures Add64(file, Add64(size, at - total)) == file + size + at - total
  {
  }

  lemma FileStep(start: int, total: nat, file: Word64, size: Word64, at: nat)
    requires start + file <= total <= at && 0 <= start && at + size < W64
    ensures Add64(file, Add64(size, at - total)) == file + size + at - total
  {
  }

  /** Sections that are not placed yet are as they were at the start. */
  lemma FreeIsInitial(wide: bool, secs0: seq<Sec>, lo: nat, r: Run, x: nat)
    requires RunSound(wide, secs0, lo, r) && x < |r.secs|
    ensures secs0[x].stype == r.secs[x].stype
    ensures r.secs[x].stype != SHT_NULL && !r.gen[x] ==> r.secs[x] == secs0[x]
  {
    assert SameButPlace(secs0[x], r.secs[x]);
  }

  /** Every section of the segment counts towards its memory size. */
  ghost predicate AllTakeMemory(secs: seq<Sec>, seg: Seg)
    requires forall k :: 0 <= k < |seg.secs| ==> seg.secs[k] < |secs|
  {
    forall k :: 0 <= k < |seg.secs| && secs[seg.secs[k]].stype != SHT_NULL ==> TakesMemory(seg, secs[seg.secs[k]])
  }

  /** A run only places sections of its list. */
  lemma {:induction false} PlaceUpToFlags(wide: bool, seg: Seg, owner: int, r: Run, n: nat, i: nat)
    requires n <= |seg.secs| && |r.secs| == |r.gen| && i < |r.gen|
    requires forall k :: 0 <= k < |seg.secs| ==> seg.secs[k] < |r.secs|
    requires PlaceUpTo(wide, seg, owner, r, n).Some?
    requires i !in seg.secs[..n]
    ensures PlaceUpTo(wide, seg, owner, r, n).value.gen[i] == r.gen[i]
  {
    if n > 0 {
      assert seg.secs[..n] == seg.secs[..n - 1] + [seg.secs[n - 1]];
      PlaceUpToFlags(wide, seg, owner, r, n - 1, i);
      assert seg.secs[n - 1] in seg.secs[..n];
    }
  }

  lemma DistinctPrefix(list: seq<nat>, n: nat)
    requires Distinct(list) && n < |list|
    ensures list[n] !in list[..n]
  {
  }

  lemma PlaceOneTotal(wide: bool, seg: Seg, owner: int, r: Run, index: nat)
    requires index < |r.secs| == |r.gen| && PlaceOne(wide, seg, owner, r, index).Some?
    ensures r.total <= PlaceOne(wide, seg, owner, r, index).value.total
  {
    if r.secs[index].stype != SHT_NULL && !r.gen[index] {
      var at, r' := PlaceOneSizes(wide, seg, owner, r, index);
    }
  }

  // ---------------------------------------------------------------- all sections placed earlier

  /** The file-backed sections of `list` lie behind `start` and end one after the other. */
  ghost predicate EndsAscend(secs: seq<Sec>, list: seq<nat>, start: nat)
    requires forall k :: 0 <= k < |list| ==> list[k] < |secs|
  {
    && (forall k :: 0 <= k < |list| && Backed(secs[list[k]]) ==>
          start <= secs[list[k]].offset && secs[list[k]].offset + secs[list[k]].size < W64)
    && (forall a, b :: 0 <= a < b < |list| && Backed(secs[list[a]]) && Backed(secs[list[b]]) ==>
          secs[list[a]].offset + secs[list[a]].size <= secs[list[b]].offset + secs[list[b]].size)
  }

  /** The sections of `list` without file bytes lie behind `start` and behind the file-backed ones before them. */
  ghost predicate NobitsBehind(secs: seq<Sec>, list: seq<nat>, start: nat)
    requires forall k :: 0 <= k < |list| ==> list[k] < |secs|
  {
    && (forall k :: 0 <= k < |list| && secs[list[k]].stype == SHT_NOBITS ==> start <= secs[list[k]].offset)
    && (forall a, b :: 0 <= a < b < |list| && Backed(secs[list[a]]) && secs[list[b]].stype == SHT_NOBITS ==>
          secs[list[a]].offset + secs[list[a]].size <= secs[list[b]].offset)
  }

  /** An upper bound for the memory that sections without file bytes add to an already placed segment. */
  function NobitsReach(secs: seq<Sec>, list: seq<nat>, n: nat): nat
    requires n <= |list| && forall k :: 0 <= k < |list| ==> list[k] < |secs|
  {
    if n == 0 then 0
    else NobitsReach(secs, list, n - 1)
         + if secs[list[n - 1]].stype == SHT_NOBITS then secs[list[n - 1]].size + secs[list[n - 1]].offset else 0
  }

  ghost predicate AllPlaced(secs: seq<Sec>, gen: seq<bool>, list: seq<nat>) {
    |secs| == |gen| && forall k :: 0 <= k < |list| ==> list[k] < |gen| && (gen[list[k]] || secs[list[k]].stype == SHT_NULL)
  }

  /** The end of the last file-backed section among the first `n`, or `none`. */
  function LastEnd(secs: seq<Sec>, list: seq<nat>, n: nat, none: int): int
    requires n <= |list| && forall k :: 0 <= k < |list| ==> list[k] < |secs|
  {
    if n == 0 then none
    else if Backed(secs[list[n - 1]]) then secs[list[n - 1]].offset + secs[list[n - 1]].size
    else LastEnd(secs, list, n - 1, none)
  }

  lemma {:induction false} LastEndFacts(secs: seq<Sec>, list: seq<nat>, n: nat, start: nat, none: int)
    requires n <= |list| && (forall k :: 0 <= k < |list| ==> list[k] < |secs|) && EndsAscend(secs, list, start)
    ensures forall k :: 0 <= k < n && Backed(secs[list[k]]) ==>
              secs[list[k]].offset + secs[list[k]].size <= LastEnd(secs, list, n, none)
    ensures if exists k :: 0 <= k < n && Backed(secs[list[k]])
            then start <= LastEnd(secs, list, n, none) < W64
              && exists k :: 0 <= k < n && Backed(secs[list[k]])
                   && LastEnd(secs, list, n, none) == secs[list[k]].offset + secs[list[k]].size
            else LastEnd(secs, list, n, none) == none
  {
    if n > 0 {
      LastEndFacts(secs, list, n - 1, start, none);
    }
  }

  /** A section that was placed earlier moves the running file size to its own end. */
  lemma PlacedSizes(offset: Word64, size: Word64, start: Word64, file: Word64)
    requires start <= offset && offset + size < W64
    ensures Add64(file, Add64(size, Sub64(Sub64(offset, start), file))) == offset + size - start
  {
    var a := offset - start;
    var b := Sub64(a, file);
    assert Sub64(offset, start) == a;
    assert b == if a >= file then a - file else a - file + W64;
    var c := Add64(size, b);
    assert c == if size + b < W64 then size + b else size + b - W64;
  }

  lemma {:induction false} PlaceUpToPlaced(wide: bool, seg: Seg, owner: int, r: Run, n: nat)
    requires n <= |seg.secs| && AllPlaced(r.secs, r.gen, seg.secs)
    requires EndsAscend(r.secs, seg.secs, r.start)
    ensures PlaceUpTo(wide, seg, owner, r, n).Some?
    ensures var r' := PlaceUpTo(wide, seg, owner, r, n).value;
      r'.secs == r.secs && r'.total == r.total && r'.log == r.log && r'.start == r.start && AllPlaced(r'.secs, r'.gen, seg.secs)
    ensures PlaceUpTo(wide, seg, owner, r, n).value.file == LastEnd(r.secs, seg.secs, n, r.start + r.file) - r.start
  {
    if n > 0 {
      PlaceUpToPlaced(wide, seg, owner, r, n - 1);
      var sec := r.secs[seg.secs[n - 1]];
      var r1 := PlaceUpTo(wide, seg, owner, r, n - 1).value;
      if Backed(sec) {
        PlacedSizes(sec.offset, sec.size, r.start, r1.file);
      }
    }
  }

  /** How one already placed section changes the running memory size. */
  lemma PlacedMemory(mem: Word64, size: Word64, offset: Word64, start: Word64, file: Word64)
    requires 0 <= mem + offset + size - start - file < W64
    ensures Add64(mem, Add64(size, Sub64(Sub64(offset, start), file))) == mem + offset + size - start - file
  {
    var a := Sub64(offset, start);
    assert a == if offset >= start then offset - start else offset - start + W64;
    var b := Sub64(a, file);
    assert b == if a >= file then a - file else a - file + W64;
    var c := Add64(size, b);
    assert c == if size + b < W64 then size + b else size + b - W64;
  }

  /** Every section of `list` without file bytes follows a file-backed one. */
  ghost predicate Led(secs: seq<Sec>, list: seq<nat>)
    requires forall k :: 0 <= k < |list| ==> list[k] < |secs|
  {
    forall b :: 0 <= b < |list| && secs[list[b]].stype == SHT_NOBITS ==> exists a :: 0 <= a < b && Backed(secs[list[a]])
  }

  /** The file bytes collected before section `n` without file bytes end in front of it. */
  lemma LastEndBefore(secs: seq<Sec>, list: seq<nat>, n: nat, start: nat, none: int)
    requires n < |list| && (forall k :: 0 <= k < |list| ==> list[k] < |secs|)
    requires EndsAscend(secs, list, start) && NobitsBehind(secs, list, start) && (none == start || Led(secs, list))
    requires secs[list[n]].stype == SHT_NOBITS
    ensures LastEnd(secs, list, n, none) <= secs[list[n]].offset
  {
    LastEndFacts(secs, list, n, start, none);
  }

  /** One more already placed section keeps the memory size between the file size and its bound. */
  lemma PlacedMemoryStep(wide: bool, seg: Seg, owner: int, r: Run, index: nat, hi: nat, bound: nat)
    requires index < |r.secs| == |r.gen|
    requires var sec := r.secs[index];
      && sec.stype != SHT_NULL && r.gen[index]
      && (Backed(sec) ==> HasBit(sec.flags, SHF_ALLOC) && sec.offset + sec.size <= hi && r.start <= sec.offset)
      && (!Backed(sec) ==> r.start + r.file <= sec.offset)
      && hi + bound + (if sec.stype == SHT_NOBITS then sec.offset + sec.size else 0) < W64
    requires r.start + r.file <= hi && r.file <= r.mem <= r.file + bound
    ensures PlaceOne(wide, seg, owner, r, index).Some?
    ensures var r', sec := PlaceOne(wide, seg, owner, r, index).value, r.secs[index];
      r'.file <= r'.mem <= r'.file + bound + if sec.stype == SHT_NOBITS then sec.offset + sec.size else 0
  {
    hide Add64, Sub64, HasBit;
    var sec := r.secs[index];
    if TakesMemory(seg, sec) {
      PlacedMemory(r.mem, sec.size, sec.offset, r.start, r.file);
    }
    if Backed(sec) {
      assert TakesMemory(seg, sec);
      PlacedSizes(sec.offset, sec.size, r.start, r.file);
    }
  }

  /** A segment over placed sections that starts with equal sizes (both 0, or both the file position for a segment at
      offset 0) never claims less memory than file bytes. */
  lemma {:induction false} PlacedMemoryUpTo(wide: bool, seg: Seg, owner: int, r: Run, n: nat, hi: nat)
    requires n <= |seg.secs| && AllPlaced(r.secs, r.gen, seg.secs)
    requires EndsAscend(r.secs, seg.secs, r.start) && NobitsBehind(r.secs, seg.secs, r.start)
    requires BackedAreAlloc(r.secs, seg.secs) && r.file == r.mem && (r.file == 0 || Led(r.secs, seg.secs))
    requires forall k :: 0 <= k < |seg.secs| && Backed(r.secs[seg.secs[k]]) ==>
               r.secs[seg.secs[k]].offset + r.secs[seg.secs[k]].size <= hi
    requires r.start + r.file <= hi && hi + NobitsReach(r.secs, seg.secs, n) < W64
    ensures PlaceUpTo(wide, seg, owner, r, n).Some?
    ensures var r' := PlaceUpTo(wide, seg, owner, r, n).value;
      r'.file <= r'.mem <= r'.file + NobitsReach(r.secs, seg.secs, n)
  {
    hide PlaceOne, Backed, EndsAscend, NobitsBehind, BackedAreAlloc, Led;
    PlaceUpToPlaced(wide, seg, owner, r, n);
    if n > 0 {
      PlacedMemoryUpTo(wide, seg, owner, r, n - 1, hi);
      PlaceUpToPlaced(wide, seg, owner, r, n - 1);
      var r1 := PlaceUpToUnfold(wide, seg, owner, r, n);
      PlacedMemoryOne(wide, seg, owner, r, r1, n, hi);
    }
  }

  lemma PlacedMemoryOne(wide: bool, seg: Seg, owner: int, r: Run, r1: Run, n: nat, hi: nat)
    requires 0 < n <= |seg.secs| && AllPlaced(r.secs, r.gen, seg.secs) && AllPlaced(r1.secs, r1.gen, seg.secs)
    requires EndsAscend(r.secs, seg.secs, r.start) && NobitsBehind(r.secs, seg.secs, r.start)
    requires BackedAreAlloc(r.secs, seg.secs) && r1.secs == r.secs && r1.start == r.start
    requires r.file == 0 || Led(r.secs, seg.secs)
    requires forall k :: 0 <= k < |seg.secs| && Backed(r.secs[seg.secs[k]]) ==>
               r.secs[seg.secs[k]].offset + r.secs[seg.secs[k]].size <= hi
    requires r.start + r.file <= hi && hi + NobitsReach(r.secs, seg.secs, n) < W64
    requires r1.file == LastEnd(r.secs, seg.secs, n - 1, r.start + r.file) - r.start
    requires r1.file <= r1.mem <= r1.file + NobitsReach(r.secs, seg.secs, n - 1)
    ensures PlaceOne(wide, seg, owner, r1, seg.secs[n - 1]).Some?
    ensures var r' := PlaceOne(wide, seg, owner, r1, seg.secs[n - 1]).value;
      r'.file <= r'.mem <= r'.file + NobitsReach(r.secs, seg.secs, n)
  {
    hide SecAlign, Led, HasBit;
    var index := seg.secs[n - 1];
    if r.secs[index].stype != SHT_NULL {
      LastEndBounded(r.secs, seg.secs, n - 1, r.start, r.start + r.file, hi);
      if r.secs[index].stype == SHT_NOBITS {
        LastEndBefore(r.secs, seg.secs, n - 1, r.start, r.start + r.file);
      }
      PlacedMemoryStep(wide, seg, owner, r1, index, hi, NobitsReach(r.secs, seg.secs, n - 1));
    }
  }

  lemma LastEndBounded(secs: seq<Sec>, list: seq<nat>, n: nat, start: nat, none: int, hi: int)
    requires n <= |list| && (forall k :: 0 <= k < |list| ==> list[k] < |secs|) && EndsAscend(secs, list, start)
    requires none <= hi && forall k :: 0 <= k < |list| && Backed(secs[list[k]]) ==> secs[list[k]].offset + secs[list[k]].size <= hi
    ensures LastEnd(secs, list, n, none) <= hi
  {
    LastEndFacts(secs, list, n, start, none);
  }
}
