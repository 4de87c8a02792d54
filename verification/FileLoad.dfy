/** What `load` makes of an image, and the round trip through `save`. */
module FileLoad {
  import opened Words
  import opened Bytes
  import opened StringTable
  import opened FileImage
  import LayoutModel
  import opened SegmentOrder

  /** `n` bytes of the image; outside of it the buffer keeps its zeros. */
  function Read(img: seq<Byte>, at: nat, n: nat): (b: seq<Byte>)
    ensures |b| == n
  {
    if at + n <= |img| then img[at..at + n] else seq(n, _ => 0)
  }

  function LoadedSectionHeader(img: seq<Byte>, ident: seq<Byte>, at: nat): SectionHeader
    requires |ident| == IDENT_SIZE
  {
    ShdrOf(Fields(Converts(ident), ShdrWidths(IsWide(ident)), Read(img, at, ShdrSize(IsWide(ident)))))
  }

  function LoadedSegment(img: seq<Byte>, ident: seq<Byte>, at: nat): SegmentHeader
    requires |ident| == IDENT_SIZE
  {
    PhdrOf(IsWide(ident), Fields(Converts(ident), PhdrWidths(IsWide(ident)), Read(img, at, PhdrSize(IsWide(ident)))))
  }

  /** Section data is read when there is any and it is shorter than the stream. */
  function LoadedData(img: seq<Byte>, h: SectionHeader): seq<Byte> {
    if InFile(h) && h.size < |img| then Read(img, h.offset, h.size) else []
  }

  /** The first `n` sections, still without names. */
  function LoadedSections(img: seq<Byte>, ident: seq<Byte>, header: FileHeader, n: nat): (r: seq<Section>)
    requires |ident| == IDENT_SIZE
    ensures |r| == n
  {
    if n == 0 then []
    else
      var h := LoadedSectionHeader(img, ident, header.shoff + header.shentsize * (n - 1));
      LoadedSections(img, ident, header, n - 1) + [Section(h, LoadedData(img, h), [])]
  }

  /** The name of a section according to the section name string table. */
  function NameOf(sections: seq<Section>, shstrndx: nat, i: nat): seq<Byte>
    requires i < |sections|
  {
    if shstrndx == SHN_UNDEF || shstrndx >= |sections| then []
    else
      match StringAt(sections[shstrndx].data, sections[i].header.name)
      case None => []
      case Some(p) => p
  }

  function Named(sections: seq<Section>, shstrndx: nat, n: nat): (r: seq<Section>)
    requires n <= |sections|
    ensures |r| == n
  {
    if n == 0 then []
    else Named(sections, shstrndx, n - 1) + [sections[n - 1].(name := NameOf(sections, shstrndx, n - 1))]
  }

  function LoadedSegments(img: seq<Byte>, ident: seq<Byte>, header: FileHeader, n: nat): (r: seq<SegmentHeader>)
    requires |ident| == IDENT_SIZE
    ensures |r| == n
  {
    if n == 0 then []
    else LoadedSegments(img, ident, header, n - 1) + [LoadedSegment(img, ident, header.phoff + header.phentsize * (n - 1))]
  }

  /** `load`: None where it returns false. */
  function Load(img: seq<Byte>): Option<ElfObject> {
    if |img| < IDENT_SIZE || !GoodIdent(img[..IDENT_SIZE]) then None
    else
      var ident := img[..IDENT_SIZE];
      if |img| < EhdrSize(IsWide(ident)) then None
      else
        var header := EhdrOf(Fields(Converts(ident), EhdrWidths(IsWide(ident)), img[IDENT_SIZE..EhdrSize(IsWide(ident))]));
        var raw := LoadedSections(img, ident, header, header.shnum);
        Some(ElfObject(ident, header, Named(raw, header.shstrndx, header.shnum),
                       LoadedSegments(img, ident, header, header.phnum)))
  }

  // ---------------------------------------------------------------- which sections belong to a segment

  /** `is_sect_in_seg`. */
  predicate IsSectInSeg(sectBegin: nat, sectSize: nat, segBegin: nat, segEnd: nat) {
    segBegin <= sectBegin && (sectBegin + sectSize) % W64 <= segEnd && sectBegin < segEnd
  }

  /** Sections that are loaded into memory are matched by address, the others by file offset. */
  predicate BelongsTo(sec: SectionHeader, seg: SegmentHeader) {
    if HasBit(sec.flags, LayoutModel.SHF_ALLOC)
    then IsSectInSeg(sec.addr, sec.size, seg.vaddr, (seg.vaddr + seg.memsz) % W64)
    else IsSectInSeg(sec.offset, sec.size, seg.offset, (seg.offset + seg.filesz) % W64)
  }

  /** Those of the first `n` sections that belong to a segment. */
  function Members(sections: seq<Section>, seg: SegmentHeader, n: nat): seq<nat>
    requires n <= |sections|
  {
    if n == 0 then []
    else Members(sections, seg, n - 1) + if BelongsTo(sections[n - 1].header, seg) then [n - 1] else []
  }

  function MemberLists(sections: seq<Section>, segments: seq<SegmentHeader>, n: nat): (r: seq<seq<nat>>)
    requires n <= |segments|
    ensures |r| == n && forall s :: 0 <= s < n ==> r[s] == Members(sections, segments[s], |sections|)
  {
    if n == 0 then [] else MemberLists(sections, segments, n - 1) + [Members(sections, segments[n - 1], |sections|)]
  }

  /** A loaded segment lists exactly the sections that belong to it, in strictly ascending order. */
  lemma {:induction false} MembersExactly(sections: seq<Section>, seg: SegmentHeader, n: nat)
    requires n <= |sections|
    ensures forall x :: x in Members(sections, seg, n) <==> 0 <= x < n && BelongsTo(sections[x].header, seg)
    ensures StrictlyAscending(Members(sections, seg, n))
  {
    hide BelongsTo, StrictlyAscending;
    NothingAscends();
    if n > 0 {
      MembersExactly(sections, seg, n - 1);
      var r := Members(sections, seg, n - 1);
      forall a | 0 <= a < |r| ensures r[a] < n - 1 {
        assert r[a] in r;
      }
      AppendAscends(r, n - 1);
      assert r + [] == r;
    }
  }

  lemma NothingAscends()
    ensures StrictlyAscending([])
  {
  }

  lemma AppendAscends(r: seq<nat>, x: nat)
    requires StrictlyAscending(r) && forall a :: 0 <= a < |r| ==> r[a] < x
    ensures StrictlyAscending(r + [x])
  {
  }

  function AllTrue(n: nat): (r: seq<bool>)
    ensures |r| == n && forall i :: 0 <= i < n ==> r[i]
  {
    seq(n, _ => true)
  }

  /** The object in memory after `load`: every section counts as having an address and every segment as having an
      offset, and each segment lists its sections. */
  function Loaded(img: seq<Byte>): Option<InMemory> {
    match Load(img)
    case None => None
    case Some(o) =>
      Some(InMemory(o, AllTrue(|o.sections|), AllTrue(|o.segments|), MemberLists(o.sections, o.segments, |o.segments|)))
  }

  /** Address `a` belongs to the section, or to the memory image of the segment. */
  predicate AtAddress(a: int, h: SectionHeader) { h.addr <= a < h.addr + h.size }

  predicate InMemoryImage(a: int, g: SegmentHeader) { g.vaddr <= a < g.vaddr + g.memsz }

  /** File position `a` belongs to the section, or to the file image of the segment. */
  predicate AtOffset(a: int, h: SectionHeader) { h.offset <= a < h.offset + h.size }

  predicate InFileImage(a: int, g: SegmentHeader) { g.offset <= a < g.offset + g.filesz }

  /** A loaded segment lists a section with the flag SHF_ALLOC (bit 0x2) if and only if all its addresses lie in the
      segment's memory image, and any other section if and only if all its file positions lie in the segment's file
      image; an empty section if and only if its start does. No range wraps around. */
  lemma ListedExactly(img: seq<Byte>, s: nat, x: nat)
    requires Loaded(img).Some?
    requires s < |Loaded(img).value.o.segments| && x < |Loaded(img).value.o.sections|
    requires var h, g := Loaded(img).value.o.sections[x].header, Loaded(img).value.o.segments[s];
      if h.flags / 2 % 2 == 1 then h.addr + h.size < W64 && g.vaddr + g.memsz < W64
      else h.offset + h.size < W64 && g.offset + g.filesz < W64
    ensures s < |Loaded(img).value.lists|
    ensures var h, g := Loaded(img).value.o.sections[x].header, Loaded(img).value.o.segments[s];
      x in Loaded(img).value.lists[s] <==>
        if h.flags / 2 % 2 == 1 then
          (if h.size > 0 then forall a: int :: AtAddress(a, h) ==> InMemoryImage(a, g) else InMemoryImage(h.addr, g))
        else
          (if h.size > 0 then forall a: int :: AtOffset(a, h) ==> InFileImage(a, g) else InFileImage(h.offset, g))
  {
    hide Load, Members, BelongsTo;
    var o := Loaded(img).value.o;
    var h, g := o.sections[x].header, o.segments[s];
    MembersExactly(o.sections, g, |o.sections|);
    if h.flags / 2 % 2 == 1 {
      AddressesInside(h, g);
    } else {
      OffsetsInside(h, g);
    }
  }

  lemma AddressesInside(h: SectionHeader, g: SegmentHeader)
    requires h.flags / 2 % 2 == 1 && h.addr + h.size < W64 && g.vaddr + g.memsz < W64
    ensures BelongsTo(h, g) <==> if h.size > 0 then forall a: int :: AtAddress(a, h) ==> InMemoryImage(a, g) else InMemoryImage(h.addr, g)
  {
    if h.size > 0 {
      assert AtAddress(h.addr, h) && AtAddress(h.addr + h.size - 1, h);
    }
  }

  lemma OffsetsInside(h: SectionHeader, g: SegmentHeader)
    requires h.flags / 2 % 2 == 0 && h.offset + h.size < W64 && g.offset + g.filesz < W64
    ensures BelongsTo(h, g) <==> if h.size > 0 then forall a: int :: AtOffset(a, h) ==> InFileImage(a, g) else InFileImage(h.offset, g)
  {
    if h.size > 0 {
      assert AtOffset(h.offset, h) && AtOffset(h.offset + h.size - 1, h);
    }
  }

  const PT_NULL := 0

  /** The bytes that loading a segment reads; None where its buffer stays empty. */
  function SegmentData(img: seq<Byte>, h: SegmentHeader): Option<seq<Byte>> {
    if h.ptype != PT_NULL && h.filesz != 0 && h.filesz <= |img| then Some(Read(img, h.offset, h.filesz)) else None
  }

  class InStream {
    const img: seq<Byte>

    constructor (img: seq<Byte>)
      ensures this.img == img
    {
      this.img := img;
    }

    method LoadSections(ident: seq<Byte>, header: FileHeader) returns (sections: seq<Section>, addrSet: seq<bool>)
      requires |ident| == IDENT_SIZE
      ensures sections == Named(LoadedSections(img, ident, header, header.shnum), header.shstrndx, header.shnum)
      ensures addrSet == AllTrue(header.shnum)
    {
      hide LoadedSectionHeader, LoadedData, NameOf;
      var raw: seq<Section> := [];
      addrSet := [];
      var i := 0;
      while i < header.shnum
        invariant i <= header.shnum && raw == LoadedSections(img, ident, header, i)
        invariant |addrSet| == i && forall k :: 0 <= k < i ==> addrSet[k]
      {
        var h := LoadedSectionHeader(img, ident, header.shoff + header.shentsize * i);
        raw := raw + [Section(h, LoadedData(img, h), [])];
        addrSet := addrSet + [true];
        i := i + 1;
      }
      sections := [];
      i := 0;
      while i < header.shnum
        invariant i <= header.shnum && sections == Named(raw, header.shstrndx, i)
      {
        sections := sections + [raw[i].(name := NameOf(raw, header.shstrndx, i))];
        i := i + 1;
      }
    }

    /** The sections that belong to a segment. */
    method SectionsOf(sections: seq<Section>, seg: SegmentHeader) returns (list: seq<nat>)
      ensures list == Members(sections, seg, |sections|)
    {
      hide BelongsTo;
      list := [];
      var j := 0;
      while j < |sections|
        invariant j <= |sections| && list == Members(sections, seg, j)
      {
        if BelongsTo(sections[j].header, seg) {
          list := list + [j];
        }
        j := j + 1;
      }
    }

    method LoadSegments(ident: seq<Byte>, header: FileHeader, sections: seq<Section>)
      returns (segments: seq<SegmentHeader>, offsetSet: seq<bool>, lists: seq<seq<nat>>, data: seq<Option<seq<Byte>>>)
      requires |ident| == IDENT_SIZE
      ensures segments == LoadedSegments(img, ident, header, header.phnum)
      ensures offsetSet == AllTrue(header.phnum) && lists == MemberLists(sections, segments, header.phnum)
      ensures |data| == header.phnum && forall k :: 0 <= k < |data| ==> data[k] == SegmentData(img, segments[k])
    {
      hide LoadedSegment, Members, SegmentData;
      segments, offsetSet, lists, data := [], [], [], [];
      var i := 0;
      while i < header.phnum
        invariant i <= header.phnum && segments == LoadedSegments(img, ident, header, i)
        invariant |offsetSet| == i && forall k :: 0 <= k < i ==> offsetSet[k]
        invariant |lists| == i && forall k :: 0 <= k < i ==> lists[k] == Members(sections, segments[k], |sections|)
        invariant |data| == i && forall k :: 0 <= k < i ==> data[k] == SegmentData(img, segments[k])
      {
        var seg := LoadedSegment(img, ident, header.phoff + header.phentsize * i);
        var list := SectionsOf(sections, seg);
        segments := segments + [seg];
        offsetSet := offsetSet + [true];
        lists := lists + [list];
        data := data + [SegmentData(img, seg)];
        i := i + 1;
      }
    }

    method LoadFile() returns (r: Option<InMemory>)
      ensures r == Loaded(img)
    {
      hide GoodIdent, Fields, Named, LoadedSections, LoadedSegments, Members, Converts;
      if |img| < IDENT_SIZE || !GoodIdent(img[..IDENT_SIZE]) {
        return None;
      }
      var ident := img[..IDENT_SIZE];
      if |img| < EhdrSize(IsWide(ident)) {
        return None;
      }
      var header := EhdrOf(Fields(Converts(ident), EhdrWidths(IsWide(ident)), img[IDENT_SIZE..EhdrSize(IsWide(ident))]));
      var sections, addrSet := LoadSections(ident, header);
      var segments, offsetSet, lists, _ := LoadSegments(ident, header, sections);
      r := Some(InMemory(ElfObject(ident, header, sections, segments), addrSet, offsetSet, lists));
    }
  }

  // ---------------------------------------------------------------- the round trip

  /** An object whose parts agree with each other and fit the fields of the file. */
  ghost predicate Consistent(o: ElfObject) {
    && GoodIdent(o.ident)
    && Fits(EhdrWidths(IsWide(o.ident)), EhdrValues(o.header))
    && o.header.shnum == |o.sections| && o.header.phnum == |o.segments|
    && (forall i :: 0 <= i < |o.sections| ==>
          && Fits(ShdrWidths(IsWide(o.ident)), ShdrValues(o.sections[i].header))
          && |o.sections[i].data| == (if InFile(o.sections[i].header) then o.sections[i].header.size else 0)
          && o.sections[i].name == NameOf(o.sections, o.header.shstrndx, i))
    && (forall i :: 0 <= i < |o.segments| ==>
          Fits(PhdrWidths(IsWide(o.ident)), PhdrValues(IsWide(o.ident), o.segments[i])))
  }

  lemma ReadHeld(img: seq<Byte>, w: Write)
    requires Holds(img, w)
    ensures Read(img, w.at, |w.bytes|) == w.bytes
  {
  }

  lemma ShdrReadBack(wide: bool, conv: bool, h: SectionHeader)
    requires Fits(ShdrWidths(wide), ShdrValues(h))
    ensures ShdrOf(Fields(conv, ShdrWidths(wide), Record(conv, ShdrWidths(wide), ShdrValues(h)))) == h
  {
    RecordRoundTrip(conv, ShdrWidths(wide), ShdrValues(h));
  }

  lemma PhdrReadBack(wide: bool, conv: bool, h: SegmentHeader)
    requires Fits(PhdrWidths(wide), PhdrValues(wide, h))
    ensures PhdrOf(wide, Fields(conv, PhdrWidths(wide), Record(conv, PhdrWidths(wide), PhdrValues(wide, h)))) == h
  {
    RecordRoundTrip(conv, PhdrWidths(wide), PhdrValues(wide, h));
  }

  lemma EhdrReadBack(wide: bool, conv: bool, h: FileHeader)
    requires Fits(EhdrWidths(wide), EhdrValues(h))
    ensures EhdrOf(Fields(conv, EhdrWidths(wide), Record(conv, EhdrWidths(wide), EhdrValues(h)))) == h
  {
    RecordRoundTrip(conv, EhdrWidths(wide), EhdrValues(h));
  }

  /** Every part of the object stands in the image. */
  ghost predicate Image(o: ElfObject, img: seq<Byte>)
    requires |o.ident| == IDENT_SIZE
  {
    && Holds(img, HeaderWrite(o))
    && (forall i :: 0 <= i < |o.sections| ==>
          Holds(img, SectionHeaderWrite(o, i)) && (InFile(o.sections[i].header) ==> Holds(img, SectionDataWrite(o, i))))
    && (forall i :: 0 <= i < |o.segments| ==> Holds(img, SegmentWrite(o, i)))
  }

  /** A section's data never starts at the very beginning of the file. */
  ghost predicate DataBehindHeader(o: ElfObject) {
    forall i :: 0 <= i < |o.sections| && InFile(o.sections[i].header) ==> o.sections[i].header.offset > 0
  }

  lemma SectionLoads(o: ElfObject, img: seq<Byte>, i: nat)
    requires Consistent(o) && Image(o, img) && DataBehindHeader(o) && i < |o.sections|
    ensures LoadedSectionHeader(img, o.ident, o.header.shoff + o.header.shentsize * i) == o.sections[i].header
    ensures LoadedData(img, o.sections[i].header) == o.sections[i].data
  {
    hide Record, Fields, ShdrOf, ShdrValues, EhdrValues, PhdrValues, EhdrWidths, PhdrWidths, NameOf;
    var h := o.sections[i].header;
    ReadHeld(img, SectionHeaderWrite(o, i));
    ShdrReadBack(IsWide(o.ident), Converts(o.ident), h);
    if InFile(h) {
      ReadHeld(img, SectionDataWrite(o, i));
    }
  }

  /** The data of a segment holds the bytes of every section that its file image covers, at the section's distance. */
  lemma SegmentDataHolds(o: ElfObject, img: seq<Byte>, s: nat, i: nat)
    requires Consistent(o) && Image(o, img) && s < |o.segments| && i < |o.sections| && InFile(o.sections[i].header)
    requires o.segments[s].ptype != PT_NULL && o.segments[s].offset + o.segments[s].filesz <= |img|
    requires o.segments[s].offset <= o.sections[i].header.offset
    requires o.sections[i].header.offset + o.sections[i].header.size <= o.segments[s].offset + o.segments[s].filesz
    ensures SegmentData(img, o.segments[s]).Some?
    ensures var d := o.sections[i].header.offset - o.segments[s].offset;
      SegmentData(img, o.segments[s]).value[d..d + o.sections[i].header.size] == o.sections[i].data
  {
    hide Record, Fields, ShdrValues, EhdrValues, PhdrValues, EhdrWidths, PhdrWidths, NameOf;
    var h, g := o.sections[i].header, o.segments[s];
    ReadHeld(img, SectionDataWrite(o, i));
    SliceOfSlice(img, g.offset, g.filesz, h.offset - g.offset, h.size);
  }

  lemma SliceOfSlice(img: seq<Byte>, at: nat, n: nat, d: nat, k: nat)
    requires d + k <= n && at + n <= |img|
    ensures img[at..at + n][d..d + k] == img[at + d..at + d + k]
  {
    var whole := img[at..at + n];
    var part := whole[d..d + k];
    forall j | 0 <= j < k ensures part[j] == img[at + d + j] {
      assert part[j] == whole[d + j];
    }
  }

  lemma {:induction false} SectionsLoad(o: ElfObject, img: seq<Byte>, n: nat)
    requires Consistent(o) && Image(o, img) && DataBehindHeader(o) && n <= |o.sections|
    ensures forall i :: 0 <= i < n ==>
      LoadedSections(img, o.ident, o.header, n)[i] == Section(o.sections[i].header, o.sections[i].data, [])
  {
    hide LoadedSectionHeader, LoadedData, Image, Consistent, DataBehindHeader;
    if n > 0 {
      SectionsLoad(o, img, n - 1);
      SectionLoads(o, img, n - 1);
    }
  }

  lemma {:induction false} NamesLoad(o: ElfObject, raw: seq<Section>, n: nat)
    requires Consistent(o) && |raw| == |o.sections| && n <= |raw|
    requires forall i :: 0 <= i < |raw| ==> raw[i] == Section(o.sections[i].header, o.sections[i].data, [])
    ensures Named(raw, o.header.shstrndx, n) == o.sections[..n]
  {
    hide ShdrValues, ShdrWidths, EhdrValues, EhdrWidths, PhdrValues, PhdrWidths, Fits, CString, StringAt, GoodIdent;
    if n > 0 {
      NamesLoad(o, raw, n - 1);
      assert NameOf(raw, o.header.shstrndx, n - 1) == NameOf(o.sections, o.header.shstrndx, n - 1);
      assert o.sections[..n] == o.sections[..n - 1] + [o.sections[n - 1]];
    }
  }

  lemma SegmentLoads(o: ElfObject, img: seq<Byte>, i: nat)
    requires Consistent(o) && Image(o, img) && i < |o.segments|
    ensures LoadedSegment(img, o.ident, o.header.phoff + o.header.phentsize * i) == o.segments[i]
  {
    hide Record, Fields, PhdrOf, ShdrValues, EhdrValues, PhdrValues, EhdrWidths, ShdrWidths, NameOf;
    ReadHeld(img, SegmentWrite(o, i));
    PhdrReadBack(IsWide(o.ident), Converts(o.ident), o.segments[i]);
  }

  lemma {:induction false} SegmentsLoad(o: ElfObject, img: seq<Byte>, n: nat)
    requires Consistent(o) && Image(o, img) && n <= |o.segments|
    ensures LoadedSegments(img, o.ident, o.header, n) == o.segments[..n]
  {
    hide LoadedSegment, Consistent, Image;
    if n > 0 {
      GoodSize(o);
      SegmentsLoad(o, img, n - 1);
      SegmentLoads(o, img, n - 1);
      assert o.segments[..n] == o.segments[..n - 1] + [o.segments[n - 1]];
    }
  }

  /** An image that holds every part of an object loads as that object: file header, section headers, section
      data, section names and program headers, in either byte order and for both classes. */
  lemma ImageLoads(o: ElfObject, img: seq<Byte>)
    requires Consistent(o) && Image(o, img) && DataBehindHeader(o)
    ensures Load(img) == Some(o)
  {
    hide Record, Fields, EhdrOf, ShdrValues, EhdrValues, PhdrValues, EhdrWidths, PhdrWidths, ShdrWidths, NameOf;
    var wide, conv := IsWide(o.ident), Converts(o.ident);
    var rec := Record(conv, EhdrWidths(wide), EhdrValues(o.header));
    assert img[0..IDENT_SIZE + |rec|] == o.ident + rec;
    assert img[..IDENT_SIZE] == o.ident && img[IDENT_SIZE..EhdrSize(wide)] == rec;
    EhdrReadBack(wide, conv, o.header);
    SectionsLoad(o, img, |o.sections|);
    NamesLoad(o, LoadedSections(img, o.ident, o.header, |o.sections|), |o.sections|);
    SegmentsLoad(o, img, |o.segments|);
    assert o.sections[..|o.sections|] == o.sections && o.segments[..|o.segments|] == o.segments;
  }

  lemma {:induction false} SectionWriteAt(o: ElfObject, n: nat, i: nat)
    requires |o.ident| == IDENT_SIZE && i < n <= |o.sections|
    ensures |SectionWrites(o, n)| == 2 * n
    ensures SectionWrites(o, n)[2 * i] == SectionHeaderWrite(o, i) && SectionWrites(o, n)[2 * i + 1] == SectionDataWrite(o, i)
  {
    hide SectionHeaderWrite, SectionDataWrite;
    if n > 1 {
      SectionWriteAt(o, n - 1, if i < n - 1 then i else 0);
    }
  }

  lemma {:induction false} SegmentWriteAt(o: ElfObject, n: nat, i: nat)
    requires |o.ident| == IDENT_SIZE && i < n <= |o.segments|
    ensures |SegmentWrites(o, n)| == n && SegmentWrites(o, n)[i] == SegmentWrite(o, i)
  {
    hide SegmentWrite;
    if n > 1 {
      SegmentWriteAt(o, n - 1, if i < n - 1 then i else 0);
    }
  }

  lemma WriteCounts(o: ElfObject)
    requires |o.ident| == IDENT_SIZE
    ensures |SectionWrites(o, |o.sections|)| == 2 * |o.sections| && |SegmentWrites(o, |o.segments|)| == |o.segments|
  {
    if |o.sections| > 0 {
      SectionWriteAt(o, |o.sections|, 0);
    }
    if |o.segments| > 0 {
      SegmentWriteAt(o, |o.segments|, 0);
    }
  }

  /** Write number `k` of `save`. */
  function WriteAt(o: ElfObject, k: nat): Write
    requires |o.ident| == IDENT_SIZE && k < 1 + 2 * |o.sections| + |o.segments|
  {
    if k == 0 then HeaderWrite(o)
    else if k <= 2 * |o.sections| then
      if k % 2 == 1 then SectionHeaderWrite(o, (k - 1) / 2) else SectionDataWrite(o, (k - 1) / 2)
    else SegmentWrite(o, k - 1 - 2 * |o.sections|)
  }

  lemma SaveWritesAt(o: ElfObject, k: nat)
    requires |o.ident| == IDENT_SIZE && k < 1 + 2 * |o.sections| + |o.segments|
    ensures |SaveWrites(o)| == 1 + 2 * |o.sections| + |o.segments| && SaveWrites(o)[k] == WriteAt(o, k)
  {
    hide SectionHeaderWrite, SectionDataWrite, SegmentWrite, HeaderWrite;
    WriteCounts(o);
    if 1 <= k <= 2 * |o.sections| {
      SectionWriteAt(o, |o.sections|, (k - 1) / 2);
    } else if k > 2 * |o.sections| {
      SegmentWriteAt(o, |o.segments|, k - 1 - 2 * |o.sections|);
    }
  }

  lemma {:induction false} TotalPositive(widths: seq<nat>)
    requires widths != [] && widths[0] > 0
    ensures Total(widths) > 0
  {
  }

  lemma WriteSurvives(o: ElfObject, k: nat)
    requires |o.ident| == IDENT_SIZE && AllApart(SaveWrites(o)) && k < 1 + 2 * |o.sections| + |o.segments|
    requires WriteAt(o, k).bytes != []
    ensures Holds(PutAll([], SaveWrites(o)), WriteAt(o, k))
  {
    hide Put, PutAll, SaveWrites, AllApart, Holds, WriteAt;
    SaveWritesAt(o, k);
    DisjointWritesSurvive([], SaveWrites(o), k);
  }

  lemma SectionWriteNumbers(o: ElfObject, i: nat)
    requires |o.ident| == IDENT_SIZE && i < |o.sections|
    ensures WriteAt(o, 2 * i + 1) == SectionHeaderWrite(o, i) && SectionHeaderWrite(o, i).bytes != []
    ensures WriteAt(o, 2 * i + 2) == SectionDataWrite(o, i)
  {
    TotalPositive(ShdrWidths(IsWide(o.ident)));
    hide Record, Total, ShdrValues;
    assert (2 * i + 1 - 1) / 2 == i && (2 * i + 2 - 1) / 2 == i;
  }

  lemma SegmentWriteNumber(o: ElfObject, i: nat)
    requires |o.ident| == IDENT_SIZE && i < |o.segments|
    ensures WriteAt(o, 1 + 2 * |o.sections| + i) == SegmentWrite(o, i) && SegmentWrite(o, i).bytes != []
  {
    TotalPositive(PhdrWidths(IsWide(o.ident)));
    hide Record, Total, PhdrValues;
  }

  lemma SectionHeaderSurvives(o: ElfObject, i: nat)
    requires |o.ident| == IDENT_SIZE && AllApart(SaveWrites(o)) && i < |o.sections|
    ensures Holds(PutAll([], SaveWrites(o)), SectionHeaderWrite(o, i))
  {
    SectionWriteNumbers(o, i);
    hide Put, PutAll, SaveWrites, AllApart, Holds, WriteAt, SectionHeaderWrite, SectionDataWrite;
    WriteSurvives(o, 2 * i + 1);
  }

  lemma SectionDataSurvives(o: ElfObject, i: nat)
    requires |o.ident| == IDENT_SIZE && AllApart(SaveWrites(o)) && i < |o.sections|
    requires InFile(o.sections[i].header) && o.sections[i].data != []
    ensures Holds(PutAll([], SaveWrites(o)), SectionDataWrite(o, i))
  {
    SectionWriteNumbers(o, i);
    hide Put, PutAll, SaveWrites, AllApart, Holds, WriteAt, SectionHeaderWrite;
    WriteSurvives(o, 2 * i + 2);
  }

  lemma SegmentSurvives(o: ElfObject, i: nat)
    requires |o.ident| == IDENT_SIZE && AllApart(SaveWrites(o)) && i < |o.segments|
    ensures Holds(PutAll([], SaveWrites(o)), SegmentWrite(o, i))
  {
    SegmentWriteNumber(o, i);
    hide Put, PutAll, SaveWrites, AllApart, Holds, WriteAt, SegmentWrite;
    WriteSurvives(o, 1 + 2 * |o.sections| + i);
  }

  /** Saving without overlaps leaves every part in the image. */
  lemma SaveMakesImage(o: ElfObject)
    requires Consistent(o) && AllApart(SaveWrites(o))
    ensures Image(o, PutAll([], SaveWrites(o))) && DataBehindHeader(o)
  {
    hide Put, PutAll, SaveWrites, AllApart, Holds, Consistent, SectionHeaderWrite, SectionDataWrite, SegmentWrite, InFile;
    GoodSize(o);
    var img := PutAll([], SaveWrites(o));
    WriteSurvives(o, 0);
    forall i | 0 <= i < |o.sections|
      ensures Holds(img, SectionHeaderWrite(o, i))
      ensures InFile(o.sections[i].header) ==> Holds(img, SectionDataWrite(o, i)) && o.sections[i].header.offset > 0
    {
      SectionHeaderSurvives(o, i);
      if InFile(o.sections[i].header) {
        SectionDataSurvives(o, i);
        ApartFromHeader(o, i);
      }
    }
    forall i | 0 <= i < |o.segments| ensures Holds(img, SegmentWrite(o, i)) {
      SegmentSurvives(o, i);
    }
  }

  lemma GoodSize(o: ElfObject)
    requires Consistent(o)
    ensures |o.ident| == IDENT_SIZE && HeaderWrite(o).bytes != []
    ensures forall i :: 0 <= i < |o.sections| && InFile(o.sections[i].header) ==> o.sections[i].data != []
  {
  }

  lemma ApartFromHeader(o: ElfObject, i: nat)
    requires Consistent(o) && AllApart(SaveWrites(o)) && i < |o.sections| && InFile(o.sections[i].header)
    ensures o.sections[i].header.offset > 0
  {
    hide SaveWrites, Record, EhdrValues, EhdrWidths, Total, Fits, NameOf;
    SaveWritesAt(o, 0);
    SaveWritesAt(o, 2 * i + 2);
    assert Apart(SaveWrites(o)[0], SaveWrites(o)[2 * i + 2]);
  }

  /** A consistent object whose parts do not overlap is loaded back unchanged from the file that `save` writes. */
  lemma SaveLoadRoundTrip(o: ElfObject)
    requires Consistent(o) && AllApart(SaveWrites(o))
    ensures Load(PutAll([], SaveWrites(o))) == Some(o)
  {
    SaveMakesImage(o);
    ImageLoads(o, PutAll([], SaveWrites(o)));
  }
}
