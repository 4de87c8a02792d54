/** The overlap check `validate`: what its endpoint tests mean, and that a laid-out file passes it. */
module Validation {
  import opened Words
  import opened LayoutModel
  import opened LayoutFacts
  import opened LayoutTheorems
  import opened ElfFile

  predicate IsOffsetInSection(offset: Word64, sec: Sec) {
    offset >= sec.offset && offset < Add64(sec.offset, sec.size)
  }

  /** Pairs that the check looks at. `SHT_NOBITS` is used as a bit mask, so every type with that bit is skipped. */
  predicate Considered(a: Sec, b: Sec) {
    && !HasBit(a.stype, SHT_NOBITS) && !HasBit(b.stype, SHT_NOBITS)
    && a.size > 0 && b.size > 0 && a.offset > 0 && b.offset > 0
  }

  /** The four endpoint tests. */
  predicate EndpointInside(a: Sec, b: Sec) {
    || IsOffsetInSection(a.offset, b)
    || IsOffsetInSection(Sub64(Add64(a.offset, a.size), 1), b)
    || IsOffsetInSection(b.offset, a)
    || IsOffsetInSection(Sub64(Add64(b.offset, b.size), 1), a)
  }

  predicate Reported(a: Sec, b: Sec) { Considered(a, b) && EndpointInside(a, b) }

  /** A byte of the file that belongs to both sections. */
  ghost predicate ShareByte(a: Sec, b: Sec) {
    exists x: int :: Inside(x, a) && Inside(x, b)
  }

  predicate Inside(x: int, s: Sec) { s.offset <= x < s.offset + s.size }

  /** For sections that end below 2^64 the endpoint tests decide whether the two share a byte. */
  lemma EndpointsDecideOverlap(a: Sec, b: Sec)
    requires a.size > 0 && b.size > 0
    requires a.offset + a.size < W64 && b.offset + b.size < W64
    ensures EndpointInside(a, b) <==> ShareByte(a, b)
  {
    if EndpointInside(a, b) {
      if IsOffsetInSection(a.offset, b) {
        assert Inside(a.offset, a) && Inside(a.offset, b);
      } else {
        assert Inside(b.offset, a) && Inside(b.offset, b);
      }
    }
    if ShareByte(a, b) {
      var x: int :| Inside(x, a) && Inside(x, b);
      if a.offset <= b.offset {
        assert IsOffsetInSection(b.offset, a);
      } else {
        assert IsOffsetInSection(a.offset, b);
      }
    }
  }

  /** The section ends at or behind 2^64, so that its computed end is smaller than its offset. */
  predicate ReachesTop(s: Sec) { s.offset + s.size >= W64 }

  /** What the endpoint tests find of section `a`, whose end wraps around, in section `b`: the last byte of `a`
      modulo 2^64. */
  predicate WrappedInside(a: Sec, b: Sec) {
    b.offset <= a.offset + a.size - 1 - W64 < b.offset + b.size
  }

  /** When the endpoint tests answer correctly although `a` reaches the top and `b` does not: a shared byte shows only
      if `a` starts in `b`, and without one the wrapped end of `a` must not lie in `b`. */
  predicate RightAtTop(a: Sec, b: Sec) {
    if a.offset < b.offset + b.size then b.offset <= a.offset else !WrappedInside(a, b)
  }

  /** The endpoint tests answer correctly exactly when both sections end below 2^64, or one does and the other is
      seen from its start. */
  lemma EndpointsRightExactly(a: Sec, b: Sec)
    requires a.size > 0 && b.size > 0
    ensures (EndpointInside(a, b) <==> ShareByte(a, b))
            <==> if !ReachesTop(a) && !ReachesTop(b) then true
                 else if !ReachesTop(b) then RightAtTop(a, b)
                 else if !ReachesTop(a) then RightAtTop(b, a)
                 else false
  {
    if !ReachesTop(a) && !ReachesTop(b) {
      EndpointsDecideOverlap(a, b);
    } else if !ReachesTop(b) {
      OneAtTop(a, b);
    } else if !ReachesTop(a) {
      OneAtTop(b, a);
      assert EndpointInside(a, b) == EndpointInside(b, a) && ShareByte(a, b) == ShareByte(b, a);
    } else {
      BothAtTop(a, b);
    }
  }

  lemma SharedExactly(a: Sec, b: Sec)
    requires a.size > 0 && b.size > 0
    ensures ShareByte(a, b) <==> a.offset < b.offset + b.size && b.offset < a.offset + a.size
  {
    if a.offset < b.offset + b.size && b.offset < a.offset + a.size {
      var x := if a.offset <= b.offset then b.offset else a.offset;
      assert Inside(x, a) && Inside(x, b);
    }
  }

  lemma NothingInTop(offset: Word64, s: Sec)
    requires ReachesTop(s)
    ensures !IsOffsetInSection(offset, s)
  {
    assert Add64(s.offset, s.size) == s.offset + s.size - W64;
  }

  lemma OneAtTop(a: Sec, b: Sec)
    requires a.size > 0 && b.size > 0 && ReachesTop(a) && !ReachesTop(b)
    ensures (EndpointInside(a, b) <==> ShareByte(a, b)) <==> RightAtTop(a, b)
  {
    SharedExactly(a, b);
    NothingInTop(b.offset, a);
    NothingInTop(Sub64(Add64(b.offset, b.size), 1), a);
    assert Add64(b.offset, b.size) == b.offset + b.size;
    assert Add64(a.offset, a.size) == a.offset + a.size - W64;
    var last := Sub64(Add64(a.offset, a.size), 1);
    assert last == if a.offset + a.size == W64 then W64 - 1 else a.offset + a.size - 1 - W64;
  }

  lemma BothAtTop(a: Sec, b: Sec)
    requires ReachesTop(a) && ReachesTop(b) && a.size > 0 && b.size > 0
    ensures ShareByte(a, b) && !EndpointInside(a, b)
  {
    assert Inside(W64 - 1, a) && Inside(W64 - 1, b);
    NothingInTop(a.offset, b);
    NothingInTop(Sub64(Add64(a.offset, a.size), 1), b);
    NothingInTop(b.offset, a);
    NothingInTop(Sub64(Add64(b.offset, b.size), 1), a);
  }

  /** Of two sections that end below 2^64 an overlap is reported if and only if there is one, both lie behind file
      offset 0, and the type of neither has the bit 8 that SHT_NOBITS consists of. */
  lemma OverlapReportedExactly(a: Sec, b: Sec)
    requires !ReachesTop(a) && !ReachesTop(b)
    ensures Reported(a, b) <==> ShareByte(a, b) && a.offset > 0 && b.offset > 0 && a.stype / 8 % 2 == 0 && b.stype / 8 % 2 == 0
  {
    if a.size > 0 && b.size > 0 {
      EndpointsDecideOverlap(a, b);
    }
  }

  const DYNSYM := Sec(11, SHF_ALLOC, 0, false, 8, 48, 4096)
  const TEXT := Sec(1, SHF_ALLOC, 0, false, 1, 512, 4100)

  /** A dynamic symbol table (type 11) and a text section on the same bytes pass the check. */
  lemma DynamicSymbolsAreSkipped()
    ensures ShareByte(DYNSYM, TEXT) && DYNSYM.stype != SHT_NOBITS && TEXT.stype != SHT_NOBITS && !Reported(DYNSYM, TEXT)
  {
    SharedExactly(DYNSYM, TEXT);
    OverlapReportedExactly(DYNSYM, TEXT);
  }

  /** Two sections on the very last byte of the address range share it unnoticed. */
  lemma LastByteGoesUnnoticed(a: Sec)
    requires a.offset == W64 - 1 && a.size == 1
    ensures ShareByte(a, a) && !EndpointInside(a, a)
  {
    BothAtTop(a, a);
  }

  /** The first reported pair, in the order of the two loops. */
  ghost predicate FirstReported(secs: seq<Sec>, r: Option<(nat, nat)>) {
    match r
    case None => forall i, j :: 0 <= i < j < |secs| ==> !Reported(secs[i], secs[j])
    case Some(p) =>
      && p.0 < p.1 < |secs| && Reported(secs[p.0], secs[p.1])
      && (forall i, j :: 0 <= i < j < |secs| && (i < p.0 || (i == p.0 && j < p.1)) ==> !Reported(secs[i], secs[j]))
  }

  /** `validate`: the two sections named in its message, or None for the empty message. */
  method Validate(file: Elfio) returns (r: Option<(nat, nat)>)
    ensures FirstReported(SecVals(file.sections), r)
  {
    hide SecVals, EndpointInside, Considered;
    ghost var secs := SecVals(file.sections);
    var i := 0;
    while i < |file.sections|
      invariant 0 <= i <= |secs|
      invariant forall a, b :: 0 <= a < i && a < b < |secs| ==> !Reported(secs[a], secs[b])
    {
      var j := i + 1;
      while j < |file.sections|
        invariant i < j <= |secs|
        invariant forall b :: i < b < j ==> !Reported(secs[i], secs[b])
      {
        var overlap := CheckPair(file.sections[i], file.sections[j]);
        if overlap {
          return Some((i, j));
        }
        j := j + 1;
      }
      i := i + 1;
    }
    r := None;
  }

  method CheckPair(a: Section, b: Section) returns (overlap: bool)
    ensures overlap == Reported(a.Val(), b.Val())
  {
    overlap := false;
    if !HasBit(a.stype, SHT_NOBITS) && !HasBit(b.stype, SHT_NOBITS) && a.size > 0 && b.size > 0 && a.offset > 0 && b.offset > 0 {
      overlap := OffsetInSection(a.offset, b);
      if !overlap {
        overlap := OffsetInSection(Sub64(Add64(a.offset, a.size), 1), b);
      }
      if !overlap {
        overlap := OffsetInSection(b.offset, a);
      }
      if !overlap {
        overlap := OffsetInSection(Sub64(Add64(b.offset, b.size), 1), a);
      }
    }
  }

  method OffsetInSection(offset: Word64, sec: Section) returns (inside: bool)
    ensures inside == IsOffsetInSection(offset, sec.Val())
  {
    inside := offset >= sec.offset && offset < Add64(sec.offset, sec.size);
  }

  /** Null sections have no bytes, and section 0 has none or no place. */
  ghost predicate NullsAreEmpty(secs: seq<Sec>) {
    && (|secs| > 0 ==> secs[0].offset == 0 || secs[0].size == 0)
    && (forall i :: 0 < i < |secs| && secs[i].stype == SHT_NULL ==> secs[i].size == 0)
  }

  /** The check finds nothing in a file whose layout succeeded. */
  lemma LaidOutFileIsValid(h: Header, secs: seq<Sec>, segs: seq<Seg>)
    requires InRange(segs, |secs|) && NullsAreEmpty(secs) && FileLayout(h, secs, segs).Some?
    requires FileLayout(h, secs, segs).value.plan.total < Modulus(h.wide)
    ensures FirstReported(FileLayout(h, secs, segs).value.plan.secs, None)
  {
    hide FileLayout, HeadersEnd, Sound, EndpointInside, IsOffsetInSection;
    LayoutRangesApart(h, secs, segs);
    KeptByLayout(h, secs, segs);
    var q := FileLayout(h, secs, segs).value.plan.secs;
    forall i, j | 0 <= i < j < |q| ensures !Reported(q[i], q[j]) {
      if Considered(q[i], q[j]) {
        ConsideredHasBytes(secs, q, i, i, j);
        ConsideredHasBytes(secs, q, j, i, j);
        EndpointsDecideOverlap(q[i], q[j]);
        ApartShareNothing(q[i], q[j]);
      }
    }
  }

  lemma KeptByLayout(h: Header, secs: seq<Sec>, segs: seq<Seg>)
    requires InRange(segs, |secs|) && FileLayout(h, secs, segs).Some?
    ensures var q := FileLayout(h, secs, segs).value.plan.secs;
      |q| == |secs| && forall i :: 0 <= i < |secs| ==> SameButPlace(secs[i], q[i]) && Restrained(h.wide, i, secs[i], q[i])
  {
    hide FileLayout, HeadersEnd, Chained, Once, LooseLog, LooseAligned, AllDone;
    FileLayoutKeeps(h, secs, segs);
  }

  /** A section that the check looks at is not section 0 and has bytes in the file. */
  lemma ConsideredHasBytes(secs: seq<Sec>, q: seq<Sec>, k: nat, i: nat, j: nat)
    requires |q| == |secs| && NullsAreEmpty(secs) && i < |q| && j < |q| && (k == i || k == j)
    requires forall x :: 0 <= x < |secs| ==> SameButPlace(secs[x], q[x]) && (x == 0 ==> q[x].offset == secs[x].offset)
    requires Considered(q[i], q[j])
    ensures k > 0 && FileLen(q[k]) == q[k].size > 0
  {
  }

  lemma ApartShareNothing(a: Sec, b: Sec)
    requires LayoutTheorems.Apart(a.offset, a.size, b.offset, b.size)
    ensures !ShareByte(a, b)
  {
  }
}
