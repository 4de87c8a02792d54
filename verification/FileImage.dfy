/** The bytes that `save_header`, `save_sections` and `save_segments` write, and what `load` reads back from them. */
module FileImage {
  import opened Words
  import opened Bytes
  import opened StringTable

  const SHN_UNDEF := 0
  const IDENT_SIZE := 16
  const EI_CLASS := 4
  const EI_DATA := 5
  const ELFCLASS32: Byte := 1
  const ELFCLASS64: Byte := 2
  const ELFDATA2LSB: Byte := 1

  // ---------------------------------------------------------------- records of fields

  function Total(widths: seq<nat>): nat { if widths == [] then 0 else widths[0] + Total(widths[1..]) }

  ghost predicate Fits(widths: seq<nat>, values: seq<nat>) {
    |values| == |widths| && forall i :: 0 <= i < |widths| ==> values[i] < Pow256(widths[i])
  }

  /** A header structure in the byte order of the file. */
  function Record(conv: bool, widths: seq<nat>, values: seq<nat>): (b: seq<Byte>)
    requires |values| == |widths|
    ensures |b| == Total(widths)
  {
    if widths == [] then [] else Field(conv, widths[0], values[0]) + Record(conv, widths[1..], values[1..])
  }

  /** The fields of a header structure read from the file. */
  function Fields(conv: bool, widths: seq<nat>, b: seq<Byte>): (v: seq<nat>)
    requires |b| == Total(widths)
    ensures |v| == |widths|
  {
    if widths == [] then []
    else [FieldValue(conv, b[..widths[0]])] + Fields(conv, widths[1..], b[widths[0]..])
  }

  lemma {:induction false} RecordRoundTrip(conv: bool, widths: seq<nat>, values: seq<nat>)
    requires Fits(widths, values)
    ensures Fields(conv, widths, Record(conv, widths, values)) == values
  {
    hide Field, FieldValue;
    if widths != [] {
      var b := Record(conv, widths, values);
      var first, rest := Field(conv, widths[0], values[0]), Record(conv, widths[1..], values[1..]);
      assert b[..widths[0]] == first && b[widths[0]..] == rest;
      FieldRoundTrip(conv, widths[0], values[0]);
      RecordRoundTrip(conv, widths[1..], values[1..]);
      assert values == [values[0]] + values[1..];
    }
  }

  // ---------------------------------------------------------------- the three header structures

  datatype FileHeader = FileHeader(etype: nat, machine: nat, version: nat, entry: nat, phoff: nat, shoff: nat, flags: nat,
                                   ehsize: nat, phentsize: nat, phnum: nat, shentsize: nat, shnum: nat, shstrndx: nat)

  datatype SectionHeader = SectionHeader(name: nat, stype: nat, flags: nat, addr: nat, offset: nat, size: nat,
                                         link: nat, info: nat, addralign: nat, entsize: nat)

  datatype SegmentHeader = SegmentHeader(ptype: nat, flags: nat, offset: nat, vaddr: nat, paddr: nat,
                                         filesz: nat, memsz: nat, align: nat)

  /** The width of addresses, offsets and sizes in the file class. */
  function Word(wide: bool): nat { if wide then 8 else 4 }

  function EhdrWidths(wide: bool): seq<nat> {
    var w := Word(wide);
    [2, 2, 4, w, w, w, 4, 2, 2, 2, 2, 2, 2]
  }

  function EhdrValues(h: FileHeader): seq<nat> {
    [h.etype, h.machine, h.version, h.entry, h.phoff, h.shoff, h.flags,
     h.ehsize, h.phentsize, h.phnum, h.shentsize, h.shnum, h.shstrndx]
  }

  function EhdrOf(v: seq<nat>): FileHeader
    requires |v| == 13
  {
    FileHeader(v[0], v[1], v[2], v[3], v[4], v[5], v[6], v[7], v[8], v[9], v[10], v[11], v[12])
  }

  function ShdrWidths(wide: bool): seq<nat> {
    var w := Word(wide);
    [4, 4, w, w, w, w, 4, 4, w, w]
  }

  function ShdrValues(h: SectionHeader): seq<nat> {
    [h.name, h.stype, h.flags, h.addr, h.offset, h.size, h.link, h.info, h.addralign, h.entsize]
  }

  function ShdrOf(v: seq<nat>): SectionHeader
    requires |v| == 10
  {
    SectionHeader(v[0], v[1], v[2], v[3], v[4], v[5], v[6], v[7], v[8], v[9])
  }

  /** The two classes order the fields of a program header differently. */
  function PhdrWidths(wide: bool): seq<nat> {
    if wide then [4, 4, 8, 8, 8, 8, 8, 8] else [4, 4, 4, 4, 4, 4, 4, 4]
  }

  function PhdrValues(wide: bool, h: SegmentHeader): seq<nat> {
    if wide then [h.ptype, h.flags, h.offset, h.vaddr, h.paddr, h.filesz, h.memsz, h.align]
    else [h.ptype, h.offset, h.vaddr, h.paddr, h.filesz, h.memsz, h.flags, h.align]
  }

  function PhdrOf(wide: bool, v: seq<nat>): SegmentHeader
    requires |v| == 8
  {
    if wide then SegmentHeader(v[0], v[1], v[2], v[3], v[4], v[5], v[6], v[7])
    else SegmentHeader(v[0], v[6], v[1], v[2], v[3], v[4], v[5], v[7])
  }

  function EhdrSize(wide: bool): nat { IDENT_SIZE + Total(EhdrWidths(wide)) }

  function ShdrSize(wide: bool): nat { Total(ShdrWidths(wide)) }

  function PhdrSize(wide: bool): nat { Total(PhdrWidths(wide)) }

  lemma FileHeaderSize(wide: bool)
    ensures EhdrSize(wide) == if wide then 64 else 52
  {
    if wide {
      assert Total([2, 2, 4, 8, 8, 8, 4, 2, 2, 2, 2, 2, 2]) == 48;
    } else {
      assert Total([2, 2, 4, 4, 4, 4, 4, 2, 2, 2, 2, 2, 2]) == 36;
    }
  }

  lemma SectionHeaderSize(wide: bool)
    ensures ShdrSize(wide) == if wide then 64 else 40
  {
    if wide {
      assert Total([4, 4, 8, 8, 8, 8, 4, 4, 8, 8]) == 64;
    } else {
      assert Total([4, 4, 4, 4, 4, 4, 4, 4, 4, 4]) == 40;
    }
  }

  lemma SegmentHeaderSize(wide: bool)
    ensures PhdrSize(wide) == if wide then 56 else 32
  {
    if wide {
      assert Total([4, 4, 8, 8, 8, 8, 8, 8]) == 56;
    } else {
      assert Total([4, 4, 4, 4, 4, 4, 4, 4]) == 32;
    }
  }

  /** The structures have the sizes that the standard gives for the two classes. */
  lemma StructureSizes(wide: bool)
    ensures EhdrSize(wide) == if wide then 64 else 52
    ensures ShdrSize(wide) == if wide then 64 else 40
    ensures PhdrSize(wide) == if wide then 56 else 32
  {
    hide EhdrSize, ShdrSize, PhdrSize;
    FileHeaderSize(wide);
    SectionHeaderSize(wide);
    SegmentHeaderSize(wide);
  }

  // ---------------------------------------------------------------- the object

  datatype Section = Section(header: SectionHeader, data: seq<Byte>, name: seq<Byte>)

  datatype ElfObject = ElfObject(ident: seq<Byte>, header: FileHeader, sections: seq<Section>, segments: seq<SegmentHeader>)

  /** An object in memory: its header fields, and what layout needs besides them. */
  datatype InMemory = InMemory(o: ElfObject, addrSet: seq<bool>, offsetSet: seq<bool>, lists: seq<seq<nat>>)

  predicate IsWide(ident: seq<Byte>)
    requires |ident| == IDENT_SIZE
  {
    ident[EI_CLASS] == ELFCLASS64
  }

  /** The convertor is on when the file's byte order is not that of the (little-endian) host. */
  predicate Converts(ident: seq<Byte>)
    requires |ident| == IDENT_SIZE
  {
    ident[EI_DATA] != ELFDATA2LSB
  }

  predicate GoodIdent(ident: seq<Byte>) {
    && |ident| == IDENT_SIZE
    && ident[..4] == [0x7f, 0x45, 0x4c, 0x46]
    && (ident[EI_CLASS] == ELFCLASS64 || ident[EI_CLASS] == ELFCLASS32)
  }

  /** The section has bytes in the file. */
  predicate InFile(h: SectionHeader) { h.stype != SHT_NOBITS && h.stype != SHT_NULL && h.size != 0 }

  // ---------------------------------------------------------------- writing

  datatype Write = Write(at: nat, bytes: seq<Byte>)

  /** Writing at a position of a file; a gap is filled with zeros. */
  function Put(img: seq<Byte>, w: Write): (r: seq<Byte>)
    ensures |r| == if |w.bytes| == 0 then |img| else if |img| < w.at + |w.bytes| then w.at + |w.bytes| else |img|
  {
    if |w.bytes| == 0 then img
    else
      var base := if |img| < w.at then img + seq(w.at - |img|, _ => 0) else img;
      base[..w.at] + w.bytes + if w.at + |w.bytes| <= |base| then base[w.at + |w.bytes|..] else []
  }

  function PutAll(img: seq<Byte>, ws: seq<Write>): seq<Byte> {
    if ws == [] then img else Put(PutAll(img, ws[..|ws| - 1]), ws[|ws| - 1])
  }

  /** No byte is written by both. */
  predicate Apart(a: Write, b: Write) {
    a.bytes == [] || b.bytes == [] || a.at + |a.bytes| <= b.at || b.at + |b.bytes| <= a.at
  }

  ghost predicate AllApart(ws: seq<Write>) {
    forall i, j :: 0 <= i < j < |ws| ==> Apart(ws[i], ws[j])
  }

  /** The file holds `w.bytes` at `w.at`. */
  predicate Holds(img: seq<Byte>, w: Write) {
    w.at + |w.bytes| <= |img| && img[w.at..w.at + |w.bytes|] == w.bytes
  }

  lemma PutHolds(img: seq<Byte>, w: Write)
    requires w.bytes != []
    ensures Holds(Put(img, w), w)
  {
  }

  lemma PutKeeps(img: seq<Byte>, w: Write, v: Write)
    requires Holds(img, v) && Apart(v, w)
    ensures Holds(Put(img, w), v)
  {
    if w.bytes != [] {
      var r := Put(img, w);
      assert forall k :: v.at <= k < v.at + |v.bytes| ==> r[k] == img[k];
      assert r[v.at..v.at + |v.bytes|] == img[v.at..v.at + |v.bytes|];
    }
  }

  /** Writes to disjoint ranges all survive, in whatever order they happen. */
  lemma {:induction false} DisjointWritesSurvive(img: seq<Byte>, ws: seq<Write>, k: nat)
    requires AllApart(ws) && k < |ws| && ws[k].bytes != []
    ensures Holds(PutAll(img, ws), ws[k])
  {
    hide Put, Holds;
    var init, last := ws[..|ws| - 1], ws[|ws| - 1];
    if k == |ws| - 1 {
      PutHolds(PutAll(img, init), last);
    } else {
      assert init[k] == ws[k];
      DisjointWritesSurvive(img, init, k);
      PutKeeps(PutAll(img, init), last, ws[k]);
    }
  }

  lemma PutAllAppend(img: seq<Byte>, ws: seq<Write>, w: Write)
    ensures PutAll(img, ws + [w]) == Put(PutAll(img, ws), w)
  {
    assert (ws + [w])[..|ws + [w]| - 1] == ws;
  }

  function HeaderWrite(o: ElfObject): Write
    requires |o.ident| == IDENT_SIZE
  {
    Write(0, o.ident + Record(Converts(o.ident), EhdrWidths(IsWide(o.ident)), EhdrValues(o.header)))
  }

  function SectionHeaderWrite(o: ElfObject, i: nat): Write
    requires |o.ident| == IDENT_SIZE && i < |o.sections|
  {
    Write(o.header.shoff + o.header.shentsize * i,
          Record(Converts(o.ident), ShdrWidths(IsWide(o.ident)), ShdrValues(o.sections[i].header)))
  }

  /** The data of a section; the buffer of a well-formed section holds exactly its size. */
  function SectionDataWrite(o: ElfObject, i: nat): Write
    requires i < |o.sections|
  {
    Write(o.sections[i].header.offset, if InFile(o.sections[i].header) then o.sections[i].data else [])
  }

  function SegmentWrite(o: ElfObject, i: nat): Write
    requires |o.ident| == IDENT_SIZE && i < |o.segments|
  {
    Write(o.header.phoff + o.header.phentsize * i,
          Record(Converts(o.ident), PhdrWidths(IsWide(o.ident)), PhdrValues(IsWide(o.ident), o.segments[i])))
  }

  /** The writes of `save_sections` for the first `n` sections. */
  function SectionWrites(o: ElfObject, n: nat): seq<Write>
    requires |o.ident| == IDENT_SIZE && n <= |o.sections|
  {
    if n == 0 then [] else SectionWrites(o, n - 1) + [SectionHeaderWrite(o, n - 1)] + [SectionDataWrite(o, n - 1)]
  }

  function SegmentWrites(o: ElfObject, n: nat): seq<Write>
    requires |o.ident| == IDENT_SIZE && n <= |o.segments|
  {
    if n == 0 then [] else SegmentWrites(o, n - 1) + [SegmentWrite(o, n - 1)]
  }

  function SaveWrites(o: ElfObject): seq<Write>
    requires |o.ident| == IDENT_SIZE
  {
    [HeaderWrite(o)] + SectionWrites(o, |o.sections|) + SegmentWrites(o, |o.segments|)
  }

  class OutStream {
    var img: seq<Byte>

    constructor ()
      ensures img == []
    {
      img := [];
    }

    method WriteAt(at: nat, bytes: seq<Byte>)
      modifies this
      ensures img == Put(old(img), Write(at, bytes))
    {
      img := Put(img, Write(at, bytes));
    }

    method SaveHeader(o: ElfObject)
      requires |o.ident| == IDENT_SIZE
      modifies this
      ensures img == Put(old(img), HeaderWrite(o))
    {
      WriteAt(0, o.ident + Record(Converts(o.ident), EhdrWidths(IsWide(o.ident)), EhdrValues(o.header)));
    }

    method SaveSections(o: ElfObject, ghost before: seq<Write>)
      requires |o.ident| == IDENT_SIZE && img == PutAll([], before)
      modifies this
      ensures img == PutAll([], before + SectionWrites(o, |o.sections|))
    {
      hide Put, PutAll, SectionWrites, Record;
      var i := 0;
      NoSectionWrites(o, before);
      while i < |o.sections|
        invariant i <= |o.sections| && img == PutAll([], before + SectionWrites(o, i))
      {
        var sec := o.sections[i];
        SectionWritesNext(o, before, i);
        WriteAt(o.header.shoff + o.header.shentsize * i,
                Record(Converts(o.ident), ShdrWidths(IsWide(o.ident)), ShdrValues(sec.header)));
        if InFile(sec.header) {
          WriteAt(sec.header.offset, sec.data);
        } else {
          PutNothing(img, SectionDataWrite(o, i));
        }
        i := i + 1;
      }
    }

    method SaveSegments(o: ElfObject, ghost before: seq<Write>)
      requires |o.ident| == IDENT_SIZE && img == PutAll([], before)
      modifies this
      ensures img == PutAll([], before + SegmentWrites(o, |o.segments|))
    {
      hide Put, PutAll, SegmentWrites, Record;
      var i := 0;
      NoSegmentWrites(o, before);
      while i < |o.segments|
        invariant i <= |o.segments| && img == PutAll([], before + SegmentWrites(o, i))
      {
        SegmentWritesNext(o, before, i);
        WriteAt(o.header.phoff + o.header.phentsize * i,
                Record(Converts(o.ident), PhdrWidths(IsWide(o.ident)), PhdrValues(IsWide(o.ident), o.segments[i])));
        i := i + 1;
      }
    }

    /** The writing part of `save`. */
    method Save(o: ElfObject)
      requires |o.ident| == IDENT_SIZE && img == []
      modifies this
      ensures img == PutAll([], SaveWrites(o))
    {
      hide Put, Record;
      SaveHeader(o);
      PutAllAppend([], [], HeaderWrite(o));
      assert [] + [HeaderWrite(o)] == [HeaderWrite(o)];
      SaveSections(o, [HeaderWrite(o)]);
      SaveSegments(o, [HeaderWrite(o)] + SectionWrites(o, |o.sections|));
    }
  }

  lemma NoSectionWrites(o: ElfObject, before: seq<Write>)
    requires |o.ident| == IDENT_SIZE
    ensures before + SectionWrites(o, 0) == before
  {
  }

  lemma SectionWritesNext(o: ElfObject, before: seq<Write>, i: nat)
    requires |o.ident| == IDENT_SIZE && i < |o.sections|
    ensures PutAll([], before + SectionWrites(o, i + 1))
            == Put(Put(PutAll([], before + SectionWrites(o, i)), SectionHeaderWrite(o, i)), SectionDataWrite(o, i))
  {
    hide Put, PutAll, SectionHeaderWrite, SectionDataWrite;
    var ws, w1, w2 := before + SectionWrites(o, i), SectionHeaderWrite(o, i), SectionDataWrite(o, i);
    PutAllAppend([], ws, w1);
    PutAllAppend([], ws + [w1], w2);
    assert ws + [w1] + [w2] == before + SectionWrites(o, i + 1);
  }

  lemma NoSegmentWrites(o: ElfObject, before: seq<Write>)
    requires |o.ident| == IDENT_SIZE
    ensures before + SegmentWrites(o, 0) == before
  {
  }

  lemma SegmentWritesNext(o: ElfObject, before: seq<Write>, i: nat)
    requires |o.ident| == IDENT_SIZE && i < |o.segments|
    ensures PutAll([], before + SegmentWrites(o, i + 1)) == Put(PutAll([], before + SegmentWrites(o, i)), SegmentWrite(o, i))
  {
    hide Put, PutAll, SegmentWrite;
    var ws, w := before + SegmentWrites(o, i), SegmentWrite(o, i);
    PutAllAppend([], ws, w);
    assert ws + [w] == before + SegmentWrites(o, i + 1);
  }

  lemma PutNothing(img: seq<Byte>, w: Write)
    requires w.bytes == []
    ensures Put(img, w) == img
  {
  }
}
