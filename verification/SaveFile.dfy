/** The whole of `save` and `load`: a laid-out object is written without overlaps and loads back unchanged. */
module SaveFile {
  import opened Words
  import opened Bytes
  import L = LayoutModel
  import LF = LayoutFacts
  import LT = LayoutTheorems
  import SR = SegmentResult
  import LayoutSuccess
  import opened FileImage
  import opened FileLoad

  /** The fields fit the file class, the buffers have the sizes their headers tell, the section lists are in range,
      and section 0 has no bytes in the file. */
  ghost predicate Usable(m: InMemory) {
    && GoodIdent(m.o.ident)
    && |m.addrSet| == |m.o.sections| && |m.offsetSet| == |m.lists| == |m.o.segments|
    && |m.o.sections| < 0x1_0000 && |m.o.segments| < 0x1_0000
    && Fits(EhdrWidths(IsWide(m.o.ident)), EhdrValues(m.o.header))
    && (forall i :: 0 <= i < |m.o.sections| ==>
          && Fits(ShdrWidths(IsWide(m.o.ident)), ShdrValues(m.o.sections[i].header))
          && |m.o.sections[i].data| == (if InFile(m.o.sections[i].header) then m.o.sections[i].header.size else 0)
          && m.o.sections[i].name == NameOf(m.o.sections, m.o.header.shstrndx, i))
    && (forall i :: 0 <= i < |m.o.segments| ==>
          Fits(PhdrWidths(IsWide(m.o.ident)), PhdrValues(IsWide(m.o.ident), m.o.segments[i])))
    && (forall s, k :: 0 <= s < |m.lists| && 0 <= k < |m.lists[s]| ==> m.lists[s][k] < |m.o.sections|)
    && (|m.o.sections| > 0 ==> !InFile(m.o.sections[0].header))
    && m.o.header.ehsize >= EhdrSize(IsWide(m.o.ident))
    && m.o.header.phentsize >= PhdrSize(IsWide(m.o.ident))
    && m.o.header.shentsize >= ShdrSize(IsWide(m.o.ident))
  }

  function Small(v: nat): Word64 { if v < W64 then v else 0 }

  function SecOf(h: SectionHeader, addrSet: bool): L.Sec {
    L.Sec(h.stype, h.flags, Small(h.addr), addrSet, Small(h.addralign), Small(h.size), Small(h.offset))
  }

  function SegOf(h: SegmentHeader, offsetSet: bool, list: seq<nat>): L.Seg {
    L.Seg(h.ptype, Small(h.align), Small(h.vaddr), Small(h.filesz), Small(h.memsz), Small(h.offset), offsetSet, list)
  }

  function Secs(m: InMemory): (r: seq<L.Sec>)
    requires |m.addrSet| == |m.o.sections|
    ensures |r| == |m.o.sections| && forall i :: 0 <= i < |r| ==> r[i] == SecOf(m.o.sections[i].header, m.addrSet[i])
  {
    seq(|m.o.sections|, i requires 0 <= i < |m.o.sections| => SecOf(m.o.sections[i].header, m.addrSet[i]))
  }

  function Segs(m: InMemory): (r: seq<L.Seg>)
    requires |m.offsetSet| == |m.lists| == |m.o.segments|
    ensures |r| == |m.o.segments|
    ensures forall i :: 0 <= i < |r| ==> r[i] == SegOf(m.o.segments[i], m.offsetSet[i], m.lists[i])
  {
    seq(|m.o.segments|, i requires 0 <= i < |m.o.segments| => SegOf(m.o.segments[i], m.offsetSet[i], m.lists[i]))
  }

  function Head(m: InMemory): L.Header
    requires |m.o.ident| == IDENT_SIZE
  {
    L.Header(IsWide(m.o.ident), m.o.header.ehsize, m.o.header.phentsize, m.o.header.shentsize)
  }

  /** The object with the results of layout in its headers. */
  function Applied(m: InMemory, d: L.Done): (o: ElfObject)
    requires |d.plan.secs| == |m.o.sections| && |d.plan.segs| == |m.o.segments|
    ensures |o.sections| == |m.o.sections| && |o.segments| == |m.o.segments| && o.ident == m.o.ident
  {
    var h := m.o.header.(phnum := |m.o.segments|, phoff := if |m.o.segments| > 0 then m.o.header.ehsize else 0,
                         shnum := |m.o.sections|, shoff := d.shoff);
    ElfObject(m.o.ident, h,
              seq(|m.o.sections|, i requires 0 <= i < |m.o.sections| =>
                m.o.sections[i].(header := m.o.sections[i].header.(addr := d.plan.secs[i].addr, offset := d.plan.secs[i].offset))),
              seq(|m.o.segments|, i requires 0 <= i < |m.o.segments| =>
                m.o.segments[i].(align := d.plan.segs[i].align, filesz := d.plan.segs[i].filesz,
                                 memsz := d.plan.segs[i].memsz, offset := d.plan.segs[i].offset)))
  }

  /** Layout of an object in memory; None where `save` returns false. */
  function LaidOut(m: InMemory): (r: Option<L.Done>)
    requires |m.o.ident| == IDENT_SIZE && |m.addrSet| == |m.o.sections| && |m.offsetSet| == |m.lists| == |m.o.segments|
    requires L.InRange(Segs(m), |Secs(m)|)
  {
    LT.FileLayout(Head(m), Secs(m), Segs(m))
  }

  lemma WordWidth(wide: bool)
    ensures Pow256(Word(wide)) == Modulus(wide) && Pow256(4) == W32 && Pow256(2) == 0x1_0000
  {
    Pow256Values();
  }

  lemma ShdrBounds(wide: bool, h: SectionHeader)
    requires Fits(ShdrWidths(wide), ShdrValues(h))
    ensures h.addr < Modulus(wide) && h.offset < Modulus(wide) && h.size < Modulus(wide) && h.addralign < Modulus(wide)
    ensures h.stype < W32
  {
    WordWidth(wide);
    var w, v := ShdrWidths(wide), ShdrValues(h);
    assert v[1] < Pow256(w[1]) && v[3] < Pow256(w[3]) && v[4] < Pow256(w[4]) && v[5] < Pow256(w[5]) && v[8] < Pow256(w[8]);
  }

  lemma PhdrBounds(wide: bool, h: SegmentHeader)
    requires Fits(PhdrWidths(wide), PhdrValues(wide, h))
    ensures h.vaddr < Modulus(wide) && h.filesz < Modulus(wide) && h.memsz < Modulus(wide)
    ensures h.align < Modulus(wide) && h.offset < Modulus(wide)
  {
    WordWidth(wide);
    var w, v := PhdrWidths(wide), PhdrValues(wide, h);
    assert v[1] < Pow256(w[1]) && v[2] < Pow256(w[2]) && v[3] < Pow256(w[3]) && v[4] < Pow256(w[4])
      && v[5] < Pow256(w[5]) && v[6] < Pow256(w[6]) && v[7] < Pow256(w[7]);
  }

  /** New addresses and offsets keep a section header in its fields. */
  lemma ShdrStillFits(wide: bool, h: SectionHeader, addr: nat, offset: nat)
    requires Fits(ShdrWidths(wide), ShdrValues(h)) && addr < Modulus(wide) && offset < Modulus(wide)
    ensures Fits(ShdrWidths(wide), ShdrValues(h.(addr := addr, offset := offset)))
  {
    WordWidth(wide);
    var w, v, v' := ShdrWidths(wide), ShdrValues(h), ShdrValues(h.(addr := addr, offset := offset));
    forall i | 0 <= i < |w| ensures v'[i] < Pow256(w[i]) {
      assert v[i] < Pow256(w[i]);
      assert i != 3 && i != 4 ==> v'[i] == v[i];
    }
  }

  lemma PhdrStillFits(wide: bool, h: SegmentHeader, align: nat, filesz: nat, memsz: nat, offset: nat)
    requires Fits(PhdrWidths(wide), PhdrValues(wide, h))
    requires align < Modulus(wide) && filesz < Modulus(wide) && memsz < Modulus(wide) && offset < Modulus(wide)
    ensures Fits(PhdrWidths(wide), PhdrValues(wide, h.(align := align, filesz := filesz, memsz := memsz, offset := offset)))
  {
    WordWidth(wide);
    Pow256Values();
    var h' := h.(align := align, filesz := filesz, memsz := memsz, offset := offset);
    var w, v, v' := PhdrWidths(wide), PhdrValues(wide, h), PhdrValues(wide, h');
    forall i | 0 <= i < |w| ensures v'[i] < Pow256(w[i]) {
      assert v[i] < Pow256(w[i]);
    }
  }

  lemma EhdrStillFits(wide: bool, h: FileHeader, phnum: nat, phoff: nat, shnum: nat, shoff: nat)
    requires Fits(EhdrWidths(wide), EhdrValues(h))
    requires phnum < 0x1_0000 && shnum < 0x1_0000 && phoff < 0x1_0000 && shoff < Modulus(wide)
    ensures Fits(EhdrWidths(wide), EhdrValues(h.(phnum := phnum, phoff := phoff, shnum := shnum, shoff := shoff)))
  {
    WordWidth(wide);
    var h' := h.(phnum := phnum, phoff := phoff, shnum := shnum, shoff := shoff);
    var w, v, v' := EhdrWidths(wide), EhdrValues(h), EhdrValues(h');
    forall i | 0 <= i < |w| ensures v'[i] < Pow256(w[i]) {
      assert v[i] < Pow256(w[i]);
      assert i != 4 && i != 5 && i != 9 && i != 11 ==> v'[i] == v[i];
    }
  }

  lemma HalfBounds(wide: bool, h: FileHeader)
    requires Fits(EhdrWidths(wide), EhdrValues(h))
    ensures h.ehsize < 0x1_0000
  {
    WordWidth(wide);
    assert EhdrValues(h)[7] < Pow256(EhdrWidths(wide)[7]);
  }

  // ---------------------------------------------------------------- the laid-out object

  /** What layout leaves of the in-memory object, read off the layout's invariant. */
  lemma LayoutResult(m: InMemory)
    requires Usable(m) && L.InRange(Segs(m), |Secs(m)|) && LaidOut(m).Some?
    ensures var q := LaidOut(m).value.plan;
      && |q.secs| == |m.o.sections| && |q.segs| == |m.o.segments|
      && (forall i :: 0 <= i < |q.secs| ==> LF.SameButPlace(Secs(m)[i], q.secs[i]))
      && (forall i :: 0 <= i < |q.secs| ==> LF.Restrained(IsWide(m.o.ident), i, Secs(m)[i], q.secs[i]))
      && (forall s :: 0 <= s < |q.segs| ==>
            SR.KeepsIdentity(IsWide(m.o.ident), L.Raised(Secs(m), Segs(m))[s], q.segs[s]))
      && LaidOut(m).value.shoff < Modulus(IsWide(m.o.ident))
  {
    hide Usable, L.Raised, L.HeadersEnd, LF.Chained, LF.Once, LT.LooseLog, LT.LooseAligned, LT.FileLayout;
    IdentSize(m);
    LT.FileLayoutKeeps(Head(m), Secs(m), Segs(m));
  }

  lemma IdentSize(m: InMemory)
    requires Usable(m)
    ensures |m.o.ident| == IDENT_SIZE
    ensures |m.addrSet| == |m.o.sections| && |m.offsetSet| == |m.lists| == |m.o.segments|
  {
  }

  lemma ListsInRange(m: InMemory)
    requires Usable(m)
    ensures L.InRange(Segs(m), |Secs(m)|)
  {
  }

  /** Raising the alignment of a segment to that of its sections keeps it within the class. */
  lemma {:induction false} RaiseFits(wide: bool, secs: seq<L.Sec>, list: seq<nat>, align: Word64, n: nat)
    requires n <= |list| && forall k :: 0 <= k < |list| ==> list[k] < |secs|
    requires align < Modulus(wide) && forall i :: 0 <= i < |secs| ==> secs[i].align < Modulus(wide)
    ensures L.RaiseAlign(secs, list, align, n) < Modulus(wide)
  {
    if n > 0 {
      RaiseFits(wide, secs, list, align, n - 1);
    }
  }

  lemma SectionFits(m: InMemory, i: nat)
    requires Usable(m) && L.InRange(Segs(m), |Secs(m)|) && LaidOut(m).Some? && i < |m.o.sections|
    ensures var h, q := m.o.sections[i].header, LaidOut(m).value.plan.secs;
      |q| == |m.o.sections| &&
      Fits(ShdrWidths(IsWide(m.o.ident)), ShdrValues(h.(addr := q[i].addr, offset := q[i].offset)))
  {
    hide LaidOut, ShdrValues, ShdrWidths, Fits, LF.SameButPlace, SR.KeepsIdentity;
    LayoutResult(m);
    var wide, h, q := IsWide(m.o.ident), m.o.sections[i].header, LaidOut(m).value.plan.secs;
    ShdrBounds(wide, h);
    assert LF.Restrained(wide, i, Secs(m)[i], q[i]);
    ShdrStillFits(wide, h, q[i].addr, q[i].offset);
  }

  lemma SegmentFits(m: InMemory, s: nat)
    requires Usable(m) && L.InRange(Segs(m), |Secs(m)|) && LaidOut(m).Some? && s < |m.o.segments|
    ensures var h, q := m.o.segments[s], LaidOut(m).value.plan.segs;
      |q| == |m.o.segments| &&
      Fits(PhdrWidths(IsWide(m.o.ident)),
           PhdrValues(IsWide(m.o.ident), h.(align := q[s].align, filesz := q[s].filesz, memsz := q[s].memsz, offset := q[s].offset)))
  {
    hide LaidOut, ShdrValues, ShdrWidths, PhdrValues, PhdrWidths, Fits, LF.SameButPlace, LF.Restrained;
    LayoutResult(m);
    var wide, h, q := IsWide(m.o.ident), m.o.segments[s], LaidOut(m).value.plan.segs;
    PhdrBounds(wide, h);
    forall i | 0 <= i < |Secs(m)| ensures Secs(m)[i].align < Modulus(wide) {
      ShdrBounds(wide, m.o.sections[i].header);
    }
    RaiseFits(wide, Secs(m), Segs(m)[s].secs, Segs(m)[s].align, |Segs(m)[s].secs|);
    assert SR.KeepsIdentity(wide, L.Raised(Secs(m), Segs(m))[s], q[s]);
    PhdrStillFits(wide, h, q[s].align, q[s].filesz, q[s].memsz, q[s].offset);
  }

  /** The laid-out object is consistent. */
  lemma AppliedConsistent(m: InMemory)
    requires Usable(m) && L.InRange(Segs(m), |Secs(m)|) && LaidOut(m).Some?
    requires |LaidOut(m).value.plan.secs| == |m.o.sections| && |LaidOut(m).value.plan.segs| == |m.o.segments|
    ensures Consistent(Applied(m, LaidOut(m).value))
  {
    hide LaidOut, ShdrValues, ShdrWidths, PhdrValues, PhdrWidths, EhdrValues, EhdrWidths, Fits, GoodIdent,
         LF.SameButPlace, LF.Restrained, SR.KeepsIdentity, Small;
    IdentSize(m);
    var d, wide := LaidOut(m).value, IsWide(m.o.ident);
    var o := Applied(m, d);
    LayoutResult(m);
    HalfBounds(wide, m.o.header);
    EhdrStillFits(wide, m.o.header, o.header.phnum, o.header.phoff, o.header.shnum, o.header.shoff);
    forall i | 0 <= i < |o.sections|
      ensures Fits(ShdrWidths(wide), ShdrValues(o.sections[i].header))
      ensures |o.sections[i].data| == (if InFile(o.sections[i].header) then o.sections[i].header.size else 0)
      ensures o.sections[i].name == NameOf(o.sections, o.header.shstrndx, i)
    {
      SectionFits(m, i);
      SameNames(m, d, i);
    }
    forall s | 0 <= s < |o.segments| ensures Fits(PhdrWidths(wide), PhdrValues(wide, o.segments[s])) {
      SegmentFits(m, s);
    }
  }

  lemma SameNames(m: InMemory, d: L.Done, i: nat)
    requires |d.plan.secs| == |m.o.sections| && |d.plan.segs| == |m.o.segments| && i < |m.o.sections|
    ensures NameOf(Applied(m, d).sections, m.o.header.shstrndx, i) == NameOf(m.o.sections, m.o.header.shstrndx, i)
  {
  }

  // ---------------------------------------------------------------- no two writes overlap

  /** File header, program headers, section data and section headers lie in this order. */
  ghost predicate Bands(o: ElfObject, lo: nat)
    requires |o.ident| == IDENT_SIZE
  {
    && EhdrSize(IsWide(o.ident)) <= o.header.ehsize
    && PhdrSize(IsWide(o.ident)) <= o.header.phentsize
    && ShdrSize(IsWide(o.ident)) <= o.header.shentsize
    && (|o.segments| > 0 ==> o.header.phoff == o.header.ehsize)
    && o.header.ehsize + o.header.phentsize * |o.segments| <= lo <= o.header.shoff
    && (forall i :: 0 <= i < |o.sections| && InFile(o.sections[i].header) ==>
          lo <= o.sections[i].header.offset && o.sections[i].header.offset + |o.sections[i].data| <= o.header.shoff)
    && (forall i, j :: 0 <= i < j < |o.sections| && InFile(o.sections[i].header) && InFile(o.sections[j].header) ==>
          Apart(SectionDataWrite(o, i), SectionDataWrite(o, j)))
  }

  lemma OneMore(entry: nat, n: nat)
    ensures entry * (n + 1) == entry * n + entry
  {
  }

  lemma {:induction false} StrideEnd(entry: nat, size: nat, i: nat, n: nat)
    requires size <= entry && i < n
    ensures entry * i + size <= entry * n
  {
    OneMore(entry, n - 1);
    if i < n - 1 {
      StrideEnd(entry, size, i, n - 1);
    }
  }

  lemma ProductGrows(entry: nat, n: nat)
    ensures entry * n >= 0
  {
  }

  lemma SegmentsApart(o: ElfObject, lo: nat, i: nat, j: nat)
    requires |o.ident| == IDENT_SIZE && Bands(o, lo) && i < j < |o.segments|
    ensures Apart(SegmentWrite(o, i), SegmentWrite(o, j))
  {
    hide Record, PhdrValues;
    StrideEnd(o.header.phentsize, PhdrSize(IsWide(o.ident)), i, j);
  }

  lemma SectionHeadersApart(o: ElfObject, lo: nat, i: nat, j: nat)
    requires |o.ident| == IDENT_SIZE && Bands(o, lo) && i < j < |o.sections|
    ensures Apart(SectionHeaderWrite(o, i), SectionHeaderWrite(o, j))
  {
    hide Record, ShdrValues;
    StrideEnd(o.header.shentsize, ShdrSize(IsWide(o.ident)), i, j);
  }

  /** Between which positions write number `k` lies. */
  function BandOf(o: ElfObject, k: nat): nat {
    if k == 0 then 0 else if k > 2 * |o.sections| then 1 else if k % 2 == 0 then 2 else 3
  }

  function BandStart(o: ElfObject, lo: nat, band: nat): nat {
    if band == 0 then 0 else if band == 1 then o.header.ehsize else if band == 2 then lo else o.header.shoff
  }

  lemma HeaderInBand(o: ElfObject, lo: nat)
    requires |o.ident| == IDENT_SIZE && Bands(o, lo)
    ensures HeaderWrite(o).at + |HeaderWrite(o).bytes| <= o.header.ehsize
  {
    hide Record, EhdrValues;
  }

  lemma SegmentInBand(o: ElfObject, lo: nat, i: nat)
    requires |o.ident| == IDENT_SIZE && Bands(o, lo) && i < |o.segments|
    ensures o.header.ehsize <= SegmentWrite(o, i).at && SegmentWrite(o, i).at + |SegmentWrite(o, i).bytes| <= lo
  {
    hide Record, PhdrValues;
    StrideEnd(o.header.phentsize, PhdrSize(IsWide(o.ident)), i, |o.segments|);
    ProductGrows(o.header.phentsize, i);
  }

  lemma SectionHeaderInBand(o: ElfObject, i: nat)
    requires |o.ident| == IDENT_SIZE && i < |o.sections|
    ensures o.header.shoff <= SectionHeaderWrite(o, i).at
  {
    ProductGrows(o.header.shentsize, i);
  }

  lemma InBand(o: ElfObject, lo: nat, k: nat)
    requires |o.ident| == IDENT_SIZE && Bands(o, lo) && k < 1 + 2 * |o.sections| + |o.segments|
    ensures var w, b := WriteAt(o, k), BandOf(o, k);
      w.bytes == [] || (BandStart(o, lo, b) <= w.at && (b < 3 ==> w.at + |w.bytes| <= BandStart(o, lo, b + 1)))
  {
    if k == 0 {
      HeaderInBand(o, lo);
    } else if k > 2 * |o.sections| {
      SegmentInBand(o, lo, k - 1 - 2 * |o.sections|);
    } else if k % 2 == 1 {
      SectionHeaderInBand(o, (k - 1) / 2);
    }
  }

  lemma BandsAscend(o: ElfObject, lo: nat, a: nat, b: nat)
    requires |o.ident| == IDENT_SIZE && Bands(o, lo) && a < b <= 3
    ensures BandStart(o, lo, a + 1) <= BandStart(o, lo, b)
  {
    ProductGrows(o.header.phentsize, |o.segments|);
  }

  lemma SameBandApart(o: ElfObject, lo: nat, j: nat, k: nat)
    requires |o.ident| == IDENT_SIZE && Bands(o, lo) && j < k < 1 + 2 * |o.sections| + |o.segments|
    requires BandOf(o, j) == BandOf(o, k)
    ensures Apart(WriteAt(o, j), WriteAt(o, k))
  {
    if k > 2 * |o.sections| {
      SegmentsApart(o, lo, j - 1 - 2 * |o.sections|, k - 1 - 2 * |o.sections|);
    } else if k % 2 == 1 {
      SectionHeadersApart(o, lo, (j - 1) / 2, (k - 1) / 2);
    } else {
      assert (j - 1) / 2 < (k - 1) / 2;
    }
  }

  lemma BandsApart(o: ElfObject, lo: nat)
    requires |o.ident| == IDENT_SIZE && Bands(o, lo)
    ensures AllApart(SaveWrites(o))
  {
    hide SaveWrites, WriteAt, BandOf, BandStart, Bands;
    SaveWritesAt(o, 0);
    forall j, k | 0 <= j < k < |SaveWrites(o)| ensures Apart(SaveWrites(o)[j], SaveWrites(o)[k]) {
      SaveWritesAt(o, j);
      SaveWritesAt(o, k);
      if BandOf(o, j) == BandOf(o, k) {
        SameBandApart(o, lo, j, k);
      } else {
        OtherBandApart(o, lo, j, k);
      }
    }
  }

  lemma OtherBandApart(o: ElfObject, lo: nat, j: nat, k: nat)
    requires |o.ident| == IDENT_SIZE && Bands(o, lo) && j < k < 1 + 2 * |o.sections| + |o.segments|
    requires BandOf(o, j) != BandOf(o, k)
    ensures Apart(WriteAt(o, j), WriteAt(o, k))
  {
    hide WriteAt, Bands, BandStart;
    InBand(o, lo, j);
    InBand(o, lo, k);
    var a, b := BandOf(o, j), BandOf(o, k);
    if a < b {
      BandsAscend(o, lo, a, b);
    } else {
      BandsAscend(o, lo, b, a);
    }
  }

  /** The laid-out object lies in bands. */
  lemma AppliedBands(m: InMemory)
    requires Usable(m) && L.InRange(Segs(m), |Secs(m)|) && LaidOut(m).Some?
    requires LaidOut(m).value.plan.total < Modulus(IsWide(m.o.ident))
    ensures |LaidOut(m).value.plan.secs| == |m.o.sections| && |LaidOut(m).value.plan.segs| == |m.o.segments|
    ensures Bands(Applied(m, LaidOut(m).value), L.HeadersEnd(Head(m), Segs(m)))
  {
    hide ShdrValues, ShdrWidths, PhdrValues, PhdrWidths, EhdrValues, EhdrWidths, Fits, NameOf,
         LF.Restrained, LF.SameButPlace, SR.KeepsIdentity, LT.FileLayout, Record, EhdrSize, ShdrSize, PhdrSize, GoodIdent;
    IdentSize(m);
    LayoutResult(m);
    LT.LayoutRangesApart(Head(m), Secs(m), Segs(m));
    var d := LaidOut(m).value;
    var o, q := Applied(m, d), d.plan.secs;
    assert L.HeadersEnd(Head(m), d.plan.segs) == L.HeadersEnd(Head(m), Segs(m));
    forall i | 0 <= i < |o.sections| && InFile(o.sections[i].header)
      ensures i > 0 && L.FileLen(q[i]) == |o.sections[i].data| > 0
    {
      AppliedData(m, d, i);
    }
  }

  lemma AppliedData(m: InMemory, d: L.Done, i: nat)
    requires Usable(m) && |d.plan.secs| == |m.o.sections| && |d.plan.segs| == |m.o.segments| && i < |m.o.sections|
    requires LF.SameButPlace(Secs(m)[i], d.plan.secs[i]) && InFile(m.o.sections[i].header)
    ensures i > 0 && L.FileLen(d.plan.secs[i]) == |m.o.sections[i].data| > 0
  {
    ShdrBounds(IsWide(m.o.ident), m.o.sections[i].header);
  }

  /** Whatever object in memory is saved successfully into a file that its class can address, loading the file
      gives the laid-out object back: the file header, every section header, every section's bytes and name, and
      every program header, in either byte order and for both classes. */
  lemma SaveThenLoad(m: InMemory)
    requires Usable(m) && LaidOut(m).Some?
    requires LaidOut(m).value.plan.total < Modulus(IsWide(m.o.ident))
    ensures |LaidOut(m).value.plan.secs| == |m.o.sections| && |LaidOut(m).value.plan.segs| == |m.o.segments|
    ensures var o := Applied(m, LaidOut(m).value);
      Load(PutAll([], SaveWrites(o))) == Some(o)
      && Loaded(PutAll([], SaveWrites(o)))
         == Some(InMemory(o, AllTrue(|o.sections|), AllTrue(|o.segments|), MemberLists(o.sections, o.segments, |o.segments|)))
  {
    hide LaidOut, Bands, Applied, Consistent;
    ListsInRange(m);
    AppliedBands(m);
    AppliedConsistent(m);
    BandsApart(Applied(m, LaidOut(m).value), L.HeadersEnd(Head(m), Segs(m)));
    SaveLoadRoundTrip(Applied(m, LaidOut(m).value));
  }

  /** A 64-bit little-endian file with the null section only. */
  const SMALLEST := InMemory(
    ElfObject([0x7f, 0x45, 0x4c, 0x46, 2, 1, 1, 0, 0, 0, 0, 0, 0, 0, 0, 0],
              FileHeader(2, 62, 1, 0, 0, 0, 0, 64, 56, 0, 64, 1, 0),
              [Section(SectionHeader(0, 0, 0, 0, 0, 0, 0, 0, 0, 0), [], [])], []),
    [false], [], [])

  lemma SmallestIsUsable()
    ensures Usable(SMALLEST) && L.InRange(Segs(SMALLEST), |Secs(SMALLEST)|)
  {
    hide Total;
    StructureSizes(true);
    Pow256Values();
    var o := SMALLEST.o;
    assert o.ident[..4] == [0x7f, 0x45, 0x4c, 0x46];
    assert Fits(EhdrWidths(true), EhdrValues(o.header));
    assert Fits(ShdrWidths(true), ShdrValues(o.sections[0].header));
  }

  /** It is laid out: 64 bytes of header and the section header table behind them. */
  lemma SmallestIsLaidOut()
    ensures Usable(SMALLEST) && L.InRange(Segs(SMALLEST), |Secs(SMALLEST)|)
    ensures LaidOut(SMALLEST).Some? && LaidOut(SMALLEST).value.plan.total == 64
  {
    hide Usable;
    SmallestIsUsable();
    IdentSize(SMALLEST);
    var h, secs := Head(SMALLEST), Secs(SMALLEST);
    assert Segs(SMALLEST) == [];
    LayoutSuccess.UnpinnedLayoutSucceeds(h, secs, []);
    assert L.Raised(secs, []) == [];
    var p := L.StartPlan(h, secs, []);
    assert L.PlaceLoose(true, p, 0).total == 64;
    assert L.LooseUpTo(true, p, 1) == L.PlaceLoose(true, L.LooseUpTo(true, p, 0), 0);
  }
}
