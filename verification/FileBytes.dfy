/** Where the fields of the header structures stand in a file, byte by byte. */
module FileBytes {
  import opened Words
  import opened Bytes
  import opened StringTable
  import opened FileImage
  import opened FileLoad

  // ---------------------------------------------------------------- fields of a record

  /** The number of bytes in front of field `k`. */
  function Start(widths: seq<nat>, k: nat): nat
    requires k <= |widths|
  {
    if k == 0 then 0 else widths[0] + Start(widths[1..], k - 1)
  }

  lemma {:induction false} StartNext(widths: seq<nat>, k: nat)
    requires k < |widths|
    ensures Start(widths, k + 1) == Start(widths, k) + widths[k] <= Total(widths)
  {
    if k > 0 {
      StartNext(widths[1..], k - 1);
    } else {
      assert Start(widths[1..], 0) == 0;
    }
  }

  lemma SubSlice(b: seq<Byte>, lo: nat, hi: nat, i: nat, j: nat)
    requires lo <= hi <= |b| && i <= j <= hi - lo
    ensures b[lo..hi][i..j] == b[lo + i..lo + j]
  {
    var s := b[lo..hi];
    var t := s[i..j];
    forall k | 0 <= k < j - i ensures t[k] == b[lo + i + k] {
      assert t[k] == s[i + k];
    }
  }

  lemma {:induction false} FieldsAt(conv: bool, widths: seq<nat>, b: seq<Byte>, k: nat)
    requires |b| == Total(widths) && k < |widths|
    ensures Start(widths, k) + widths[k] <= |b|
    ensures Fields(conv, widths, b)[k] == FieldValue(conv, b[Start(widths, k)..Start(widths, k) + widths[k]])
  {
    hide FieldValue;
    StartNext(widths, k);
    var w := widths[0];
    if k > 0 {
      FieldsAt(conv, widths[1..], b[w..], k - 1);
      var s := Start(widths[1..], k - 1);
      assert b[w..] == b[w..|b|];
      SubSlice(b, w, |b|, s, s + widths[k]);
    }
  }

  /** A field of a record that stands at `at`. */
  lemma FieldInFile(conv: bool, widths: seq<nat>, img: seq<Byte>, at: nat, k: nat, start: nat)
    requires at + Total(widths) <= |img| && k < |widths| && Start(widths, k) == start
    ensures start + widths[k] <= Total(widths)
    ensures Fields(conv, widths, img[at..at + Total(widths)])[k] == FieldValue(conv, img[at + start..at + start + widths[k]])
  {
    hide FieldValue, Fields, Start, Total;
    FieldsAt(conv, widths, img[at..at + Total(widths)], k);
    SubSlice(img, at, at + Total(widths), start, start + widths[k]);
  }

  lemma FieldIsNumber(conv: bool, widths: seq<nat>, img: seq<Byte>, at: nat, k: nat, start: nat)
    requires at + Total(widths) <= |img| && k < |widths| && Start(widths, k) == start
    ensures start + widths[k] <= Total(widths) && Start(widths, k + 1) == start + widths[k]
    ensures var v := Fields(conv, widths, img[at..at + Total(widths)])[k];
      && (widths[k] == 2 ==> v == Number2(conv, img, at + start))
      && (widths[k] == 4 ==> v == Number4(conv, img, at + start))
      && (widths[k] == 8 ==> v == Number8(conv, img, at + start))
  {
    hide FieldValue, Fields, Start, Total, Number2, Number4, Number8;
    FieldInFile(conv, widths, img, at, k, start);
    StartNext(widths, k);
    if widths[k] == 2 {
      FieldIsNumber2(conv, img, at + start);
    } else if widths[k] == 4 {
      FieldIsNumber4(conv, img, at + start);
    } else if widths[k] == 8 {
      FieldIsNumber8(conv, img, at + start);
    }
  }

  // ---------------------------------------------------------------- the three structures

  /** The file header, field by field. */
  ghost predicate EhdrStands(msb: bool, wide: bool, img: seq<Byte>, h: FileHeader) {
    && |img| >= (if wide then 64 else 52)
    && h.etype == Number2(msb, img, 16) && h.machine == Number2(msb, img, 18) && h.version == Number4(msb, img, 20)
    && (if wide then
          && h.entry == Number8(msb, img, 24) && h.phoff == Number8(msb, img, 32) && h.shoff == Number8(msb, img, 40)
          && h.flags == Number4(msb, img, 48) && h.ehsize == Number2(msb, img, 52) && h.phentsize == Number2(msb, img, 54)
          && h.phnum == Number2(msb, img, 56) && h.shentsize == Number2(msb, img, 58) && h.shnum == Number2(msb, img, 60)
          && h.shstrndx == Number2(msb, img, 62)
        else
          && h.entry == Number4(msb, img, 24) && h.phoff == Number4(msb, img, 28) && h.shoff == Number4(msb, img, 32)
          && h.flags == Number4(msb, img, 36) && h.ehsize == Number2(msb, img, 40) && h.phentsize == Number2(msb, img, 42)
          && h.phnum == Number2(msb, img, 44) && h.shentsize == Number2(msb, img, 46) && h.shnum == Number2(msb, img, 48)
          && h.shstrndx == Number2(msb, img, 50))
  }

  ghost predicate ShdrStands(msb: bool, wide: bool, img: seq<Byte>, at: nat, h: SectionHeader) {
    && at + (if wide then 64 else 40) <= |img|
    && h.name == Number4(msb, img, at) && h.stype == Number4(msb, img, at + 4)
    && (if wide then
          && h.flags == Number8(msb, img, at + 8) && h.addr == Number8(msb, img, at + 16) && h.offset == Number8(msb, img, at + 24)
          && h.size == Number8(msb, img, at + 32) && h.link == Number4(msb, img, at + 40) && h.info == Number4(msb, img, at + 44)
          && h.addralign == Number8(msb, img, at + 48) && h.entsize == Number8(msb, img, at + 56)
        else
          && h.flags == Number4(msb, img, at + 8) && h.addr == Number4(msb, img, at + 12) && h.offset == Number4(msb, img, at + 16)
          && h.size == Number4(msb, img, at + 20) && h.link == Number4(msb, img, at + 24) && h.info == Number4(msb, img, at + 28)
          && h.addralign == Number4(msb, img, at + 32) && h.entsize == Number4(msb, img, at + 36))
  }

  ghost predicate PhdrStands(msb: bool, wide: bool, img: seq<Byte>, at: nat, h: SegmentHeader) {
    && at + (if wide then 56 else 32) <= |img|
    && h.ptype == Number4(msb, img, at)
    && (if wide then
          && h.flags == Number4(msb, img, at + 4) && h.offset == Number8(msb, img, at + 8) && h.vaddr == Number8(msb, img, at + 16)
          && h.paddr == Number8(msb, img, at + 24) && h.filesz == Number8(msb, img, at + 32)
          && h.memsz == Number8(msb, img, at + 40) && h.align == Number8(msb, img, at + 48)
        else
          && h.offset == Number4(msb, img, at + 4) && h.vaddr == Number4(msb, img, at + 8) && h.paddr == Number4(msb, img, at + 12)
          && h.filesz == Number4(msb, img, at + 16) && h.memsz == Number4(msb, img, at + 20) && h.flags == Number4(msb, img, at + 24)
          && h.align == Number4(msb, img, at + 28))
  }

  lemma EhdrFields(conv: bool, wide: bool, img: seq<Byte>)
    requires EhdrSize(wide) <= |img|
    ensures EhdrStands(conv, wide, img, EhdrOf(Fields(conv, EhdrWidths(wide), img[16..EhdrSize(wide)])))
  {
    hide Fields, Start, Total, Number2, Number4, Number8;
    StructureSizes(wide);
    var w, word := EhdrWidths(wide), Word(wide);
    FirstStart(w);
    FieldIsNumber(conv, w, img, 16, 0, 0);
    FieldIsNumber(conv, w, img, 16, 1, 2);
    FieldIsNumber(conv, w, img, 16, 2, 4);
    FieldIsNumber(conv, w, img, 16, 3, 8);
    FieldIsNumber(conv, w, img, 16, 4, 8 + word);
    FieldIsNumber(conv, w, img, 16, 5, 8 + 2 * word);
    FieldIsNumber(conv, w, img, 16, 6, 8 + 3 * word);
    FieldIsNumber(conv, w, img, 16, 7, 12 + 3 * word);
    FieldIsNumber(conv, w, img, 16, 8, 14 + 3 * word);
    FieldIsNumber(conv, w, img, 16, 9, 16 + 3 * word);
    FieldIsNumber(conv, w, img, 16, 10, 18 + 3 * word);
    FieldIsNumber(conv, w, img, 16, 11, 20 + 3 * word);
    FieldIsNumber(conv, w, img, 16, 12, 22 + 3 * word);
  }

  lemma FirstStart(widths: seq<nat>)
    ensures Start(widths, 0) == 0
  {
  }

  lemma ShdrFields(conv: bool, wide: bool, img: seq<Byte>, at: nat)
    requires at + ShdrSize(wide) <= |img|
    ensures ShdrStands(conv, wide, img, at, ShdrOf(Fields(conv, ShdrWidths(wide), img[at..at + ShdrSize(wide)])))
  {
    hide Fields, Start, Total, Number2, Number4, Number8;
    StructureSizes(wide);
    var w, word := ShdrWidths(wide), Word(wide);
    FirstStart(w);
    FieldIsNumber(conv, w, img, at, 0, 0);
    FieldIsNumber(conv, w, img, at, 1, 4);
    FieldIsNumber(conv, w, img, at, 2, 8);
    FieldIsNumber(conv, w, img, at, 3, 8 + word);
    FieldIsNumber(conv, w, img, at, 4, 8 + 2 * word);
    FieldIsNumber(conv, w, img, at, 5, 8 + 3 * word);
    FieldIsNumber(conv, w, img, at, 6, 8 + 4 * word);
    FieldIsNumber(conv, w, img, at, 7, 12 + 4 * word);
    FieldIsNumber(conv, w, img, at, 8, 16 + 4 * word);
    FieldIsNumber(conv, w, img, at, 9, 16 + 5 * word);
  }

  lemma PhdrFields(conv: bool, wide: bool, img: seq<Byte>, at: nat)
    requires at + PhdrSize(wide) <= |img|
    ensures PhdrStands(conv, wide, img, at, PhdrOf(wide, Fields(conv, PhdrWidths(wide), img[at..at + PhdrSize(wide)])))
  {
    hide Fields, Start, Total, Number2, Number4, Number8;
    StructureSizes(wide);
    var w, word := PhdrWidths(wide), Word(wide);
    FirstStart(w);
    FieldIsNumber(conv, w, img, at, 0, 0);
    FieldIsNumber(conv, w, img, at, 1, 4);
    FieldIsNumber(conv, w, img, at, 2, 8);
    FieldIsNumber(conv, w, img, at, 3, 8 + word);
    FieldIsNumber(conv, w, img, at, 4, 8 + 2 * word);
    FieldIsNumber(conv, w, img, at, 5, 8 + 3 * word);
    FieldIsNumber(conv, w, img, at, 6, 8 + 4 * word);
    FieldIsNumber(conv, w, img, at, 7, 8 + 5 * word);
  }

  // ---------------------------------------------------------------- what loading reads

  /** Exactly these files are loaded: the four magic bytes, class 1 or 2, and room for the file header of the class. */
  lemma LoadsExactly(img: seq<Byte>)
    ensures Load(img).Some?
      <==> |img| >= 16 && img[0] == 0x7f && img[1] == 'E' as int && img[2] == 'L' as int && img[3] == 'F' as int
           && (img[4] == 1 || img[4] == 2) && |img| >= (if img[4] == 2 then 64 else 52)
  {
    hide Fields, EhdrSize, EhdrOf, LoadedSections, Named, LoadedSegments;
    StructureSizes(true);
    StructureSizes(false);
    if |img| >= 16 {
      assert img[..16][..4] == [img[0], img[1], img[2], img[3]];
    }
  }

  /** The file header of a loaded file: for byte order 1 (least significant byte first) and any other (most significant
      first), class 2 (64 bits) and class 1. */
  lemma LoadedFileHeader(img: seq<Byte>)
    requires Load(img).Some?
    ensures |img| >= 52 && Load(img).value.ident == img[..16]
    ensures EhdrStands(img[5] != 1, img[4] == 2, img, Load(img).value.header)
  {
    hide Fields, EhdrSize, EhdrOf, LoadedSections, Named, LoadedSegments, EhdrStands, GoodIdent;
    StructureSizes(IsWide(img[..16]));
    EhdrFields(Converts(img[..16]), IsWide(img[..16]), img);
  }

  lemma {:induction false} NamedKeeps(sections: seq<Section>, shstrndx: nat, n: nat, i: nat)
    requires i < n <= |sections|
    ensures Named(sections, shstrndx, n)[i] == sections[i].(name := NameOf(sections, shstrndx, i))
  {
    hide NameOf;
    if i < n - 1 {
      NamedKeeps(sections, shstrndx, n - 1, i);
    }
  }

  /** Where header `i` of a table stands. */
  function EntryAt(table: nat, entrySize: nat, i: nat): nat { table + entrySize * i }

  lemma {:induction false} LoadedAt(img: seq<Byte>, ident: seq<Byte>, header: FileHeader, n: nat, i: nat)
    requires |ident| == IDENT_SIZE && i < n
    ensures var h := LoadedSectionHeader(img, ident, EntryAt(header.shoff, header.shentsize, i));
      LoadedSections(img, ident, header, n)[i] == Section(h, LoadedData(img, h), [])
  {
    hide LoadedSectionHeader, LoadedData;
    if i < n - 1 {
      LoadedAt(img, ident, header, n - 1, i);
    }
  }

  lemma {:induction false} SegmentAt(img: seq<Byte>, ident: seq<Byte>, header: FileHeader, n: nat, i: nat)
    requires |ident| == IDENT_SIZE && i < n
    ensures LoadedSegments(img, ident, header, n)[i] == LoadedSegment(img, ident, EntryAt(header.phoff, header.phentsize, i))
  {
    hide LoadedSegment;
    if i < n - 1 {
      SegmentAt(img, ident, header, n - 1, i);
    }
  }

  lemma LoadShape(img: seq<Byte>)
    requires Load(img).Some?
    ensures var o := Load(img).value;
      && |o.ident| == IDENT_SIZE
      && o.sections == Named(LoadedSections(img, o.ident, o.header, o.header.shnum), o.header.shstrndx, o.header.shnum)
      && o.segments == LoadedSegments(img, o.ident, o.header, o.header.phnum)
  {
    hide LoadedSections, Named, LoadedSegments, EhdrOf, Fields, GoodIdent, EhdrSize, EhdrWidths;
  }

  /** A section of a loaded file before names are looked up. */
  lemma LoadedParts(img: seq<Byte>, i: nat) returns (raw: seq<Section>)
    requires Load(img).Some? && i < |Load(img).value.sections|
    ensures var o := Load(img).value;
      && |o.ident| == IDENT_SIZE && |raw| == |o.sections| == o.header.shnum
      && o.sections[i].header == LoadedSectionHeader(img, o.ident, EntryAt(o.header.shoff, o.header.shentsize, i))
      && o.sections[i].data == LoadedData(img, o.sections[i].header)
      && o.sections[i].name == NameOf(raw, o.header.shstrndx, i)
      && (forall k :: 0 <= k < |raw| ==> raw[k].header == o.sections[k].header && raw[k].data == o.sections[k].data)
  {
    hide LoadedSectionHeader, LoadedData, NameOf, LoadedSections, Named, LoadedSegments, Load;
    LoadShape(img);
    var o := Load(img).value;
    raw := LoadedSections(img, o.ident, o.header, o.header.shnum);
    LoadedAt(img, o.ident, o.header, o.header.shnum, i);
    NamedKeeps(raw, o.header.shstrndx, o.header.shnum, i);
    forall k | 0 <= k < |raw| ensures raw[k].header == o.sections[k].header && raw[k].data == o.sections[k].data {
      NamedKeeps(raw, o.header.shstrndx, o.header.shnum, k);
    }
  }

  /** There are as many sections and segments as the file header says. */
  lemma LoadedCounts(img: seq<Byte>)
    requires Load(img).Some?
    ensures |Load(img).value.sections| == Load(img).value.header.shnum
    ensures |Load(img).value.segments| == Load(img).value.header.phnum
  {
    hide LoadedSections, Named, LoadedSegments, EhdrOf, Fields, GoodIdent;
  }

  /** Section header `i` stands at e_shoff + i * e_shentsize. */
  lemma LoadedSectionHeaderBytes(img: seq<Byte>, i: nat)
    requires Load(img).Some? && i < |Load(img).value.sections|
    requires var h := Load(img).value.header;
      EntryAt(h.shoff, h.shentsize, i) + (if img[4] == 2 then 64 else 40) <= |img|
    ensures |img| >= 52
    ensures var o := Load(img).value;
      ShdrStands(img[5] != 1, img[4] == 2, img, EntryAt(o.header.shoff, o.header.shentsize, i), o.sections[i].header)
  {
    hide Load, LoadedSectionHeader, LoadedData, NameOf, ShdrStands, IsWide, Converts;
    LoadedHere(img);
    var o := Load(img).value;
    var raw := LoadedParts(img, i);
    SectionHeaderAt(img, o.ident, EntryAt(o.header.shoff, o.header.shentsize, i));
  }

  lemma SectionHeaderAt(img: seq<Byte>, ident: seq<Byte>, at: nat)
    requires |ident| == IDENT_SIZE && at + (if IsWide(ident) then 64 else 40) <= |img|
    ensures ShdrStands(Converts(ident), IsWide(ident), img, at, LoadedSectionHeader(img, ident, at))
  {
    hide Fields, ShdrSize, ShdrOf, ShdrStands, IsWide, Converts;
    StructureSizes(IsWide(ident));
    ShdrFields(Converts(ident), IsWide(ident), img, at);
  }

  /** Program header `i` stands at e_phoff + i * e_phentsize. */
  lemma LoadedSegmentHeaderBytes(img: seq<Byte>, i: nat)
    requires Load(img).Some? && i < |Load(img).value.segments|
    requires var h := Load(img).value.header;
      EntryAt(h.phoff, h.phentsize, i) + (if img[4] == 2 then 56 else 32) <= |img|
    ensures |img| >= 52
    ensures var o := Load(img).value;
      PhdrStands(img[5] != 1, img[4] == 2, img, EntryAt(o.header.phoff, o.header.phentsize, i), o.segments[i])
  {
    hide Load, Fields, PhdrSize, PhdrOf, PhdrStands, LoadedSegments, Converts, IsWide;
    LoadedHere(img);
    LoadShape(img);
    var o := Load(img).value;
    SegmentAt(img, o.ident, o.header, o.header.phnum, i);
    StructureSizes(IsWide(o.ident));
    PhdrFields(Converts(o.ident), IsWide(o.ident), img, EntryAt(o.header.phoff, o.header.phentsize, i));
  }

  lemma LoadedHere(img: seq<Byte>)
    requires Load(img).Some?
    ensures |img| >= 52 && |Load(img).value.ident| == IDENT_SIZE
    ensures IsWide(Load(img).value.ident) == (img[4] == 2) && Converts(Load(img).value.ident) == (img[5] != 1)
  {
    hide Load;
    LoadedFileHeader(img);
  }

  /** A section's data are the bytes at its offset when it is neither SHT_NULL (0) nor SHT_NOBITS (8), not empty, and
      smaller than the file; otherwise there are none. */
  lemma LoadedSectionBytes(img: seq<Byte>, i: nat)
    requires Load(img).Some? && i < |Load(img).value.sections|
    ensures var sec := Load(img).value.sections[i];
      var h := sec.header;
      if h.stype != 0 && h.stype != 8 && 0 < h.size < |img|
      then h.offset + h.size <= |img| ==> sec.data == img[h.offset..h.offset + h.size]
      else sec.data == []
  {
    hide Load, NameOf;
    var raw := LoadedParts(img, i);
  }

  /** A section's name is the string at sh_name in the section that e_shstrndx names, up to its NUL byte. */
  lemma LoadedName(img: seq<Byte>, i: nat)
    requires Load(img).Some? && i < |Load(img).value.sections|
    ensures var o := Load(img).value;
      var at, name := o.sections[i].header.name, o.sections[i].name;
      if 0 < o.header.shstrndx < |o.sections| && at < |o.sections[o.header.shstrndx].data| then
        var table := o.sections[o.header.shstrndx].data;
        0 !in name && at + |name| <= |table| && table[at..at + |name|] == name
        && (at + |name| == |table| || table[at + |name|] == 0)
      else name == []
  {
    hide Load, LoadedData, LoadedSectionHeader;
    var raw := LoadedParts(img, i);
    var o := Load(img).value;
    var at := o.sections[i].header.name;
    if 0 < o.header.shstrndx < |o.sections| && at < |o.sections[o.header.shstrndx].data| {
      StringStands(o.sections[o.header.shstrndx].data, at);
    }
  }

  lemma StringStands(table: seq<Byte>, at: nat)
    requires at < |table|
    ensures var name := CString(table[at..]);
      && 0 !in name && at + |name| <= |table| && table[at..at + |name|] == name
      && (at + |name| == |table| || table[at + |name|] == 0)
  {
    var tail := table[at..];
    assert tail == table[at..|table|];
    SubSlice(table, at, |table|, 0, |CString(tail)|);
  }

  /** A segment's data are read when its type is not PT_NULL (0), it has file bytes, and no more than the file. */
  lemma LoadedSegmentBytes(img: seq<Byte>, h: SegmentHeader)
    ensures SegmentData(img, h).Some? <==> h.ptype != 0 && 0 < h.filesz <= |img|
    ensures SegmentData(img, h).Some? && h.offset + h.filesz <= |img| ==>
      SegmentData(img, h).value == img[h.offset..h.offset + h.filesz]
  {
  }

  // ---------------------------------------------------------------- what saving leaves

  /** Byte `k` is written by `w`. */
  predicate Covers(w: Write, k: nat) { w.at <= k < w.at + |w.bytes| }

  lemma PutBytes(img: seq<Byte>, w: Write, k: nat)
    requires k < |Put(img, w)|
    ensures Put(img, w)[k] == if Covers(w, k) then w.bytes[k - w.at] else if k < |img| then img[k] else 0
  {
  }

  /** A file holds zeros where nothing was written, and ends where its last write ends. */
  lemma {:induction false} UnwrittenIsZero(ws: seq<Write>, k: nat)
    requires forall i :: 0 <= i < |ws| ==> !Covers(ws[i], k)
    ensures k < |PutAll([], ws)| ==> PutAll([], ws)[k] == 0
  {
    hide Put;
    if ws != [] {
      var init, last := ws[..|ws| - 1], ws[|ws| - 1];
      UnwrittenIsZero(init, k);
      if k < |PutAll([], ws)| {
        PutBytes(PutAll([], init), last, k);
      }
    }
  }

  lemma {:induction false} EndOfFile(ws: seq<Write>)
    ensures forall i :: 0 <= i < |ws| && ws[i].bytes != [] ==> ws[i].at + |ws[i].bytes| <= |PutAll([], ws)|
    ensures PutAll([], ws) == [] || exists i :: 0 <= i < |ws| && ws[i].bytes != [] && ws[i].at + |ws[i].bytes| == |PutAll([], ws)|
  {
    if ws != [] {
      var init, last := ws[..|ws| - 1], ws[|ws| - 1];
      EndOfFile(init);
      assert forall i :: 0 <= i < |init| ==> init[i] == ws[i];
      assert ws[|ws| - 1] == last;
    }
  }

  /** The saved file, byte by byte: the identification, every field of the file header, of the section headers and of
      the program headers in the byte order that e_ident[EI_DATA] names, and the bytes of the sections. */
  lemma SavedFileBytes(o: ElfObject)
    requires Consistent(o) && AllApart(SaveWrites(o))
    ensures var img, msb, wide := PutAll([], SaveWrites(o)), o.ident[5] != 1, o.ident[4] == 2;
      && |img| >= 52 && img[..16] == o.ident && EhdrStands(msb, wide, img, o.header)
      && (forall i :: 0 <= i < |o.sections| ==>
            ShdrStands(msb, wide, img, EntryAt(o.header.shoff, o.header.shentsize, i), o.sections[i].header))
      && (forall i :: 0 <= i < |o.segments| ==>
            PhdrStands(msb, wide, img, EntryAt(o.header.phoff, o.header.phentsize, i), o.segments[i]))
      && (forall i :: 0 <= i < |o.sections| && o.sections[i].header.stype != 0 && o.sections[i].header.stype != 8 && o.sections[i].header.size > 0 ==>
            && o.sections[i].header.offset + o.sections[i].header.size <= |img|
            && img[o.sections[i].header.offset..o.sections[i].header.offset + o.sections[i].header.size] == o.sections[i].data)
  {
    hide PutAll, SaveWrites, Consistent, Load, Image, Record, Fields, EhdrStands, ShdrStands, PhdrStands, DataBehindHeader;
    GoodSize(o);
    var img := PutAll([], SaveWrites(o));
    SaveLoadRoundTrip(o);
    SaveMakesImage(o);
    LoadedFileHeader(img);
    forall i | 0 <= i < |o.sections|
      ensures ShdrStands(img[5] != 1, img[4] == 2, img, EntryAt(o.header.shoff, o.header.shentsize, i), o.sections[i].header)
    {
      SectionHeaderRoom(o, img, i);
      LoadedSectionHeaderBytes(img, i);
    }
    forall i | 0 <= i < |o.segments|
      ensures PhdrStands(img[5] != 1, img[4] == 2, img, EntryAt(o.header.phoff, o.header.phentsize, i), o.segments[i])
    {
      SegmentHeaderRoom(o, img, i);
      LoadedSegmentHeaderBytes(img, i);
    }
    forall i | 0 <= i < |o.sections| && o.sections[i].header.stype != 0 && o.sections[i].header.stype != 8 && o.sections[i].header.size > 0
      ensures o.sections[i].header.offset + o.sections[i].header.size <= |img|
      ensures img[o.sections[i].header.offset..o.sections[i].header.offset + o.sections[i].header.size] == o.sections[i].data
    {
      SectionBytesHeld(o, img, i);
    }
  }

  lemma SectionHeaderRoom(o: ElfObject, img: seq<Byte>, i: nat)
    requires Consistent(o) && Image(o, img) && i < |o.sections|
    ensures |o.ident| == 16 && EntryAt(o.header.shoff, o.header.shentsize, i) + (if o.ident[4] == 2 then 64 else 40) <= |img|
  {
    hide Record, NameOf, Fits;
    StructureSizes(IsWide(o.ident));
    assert Holds(img, SectionHeaderWrite(o, i));
  }

  lemma SegmentHeaderRoom(o: ElfObject, img: seq<Byte>, i: nat)
    requires Consistent(o) && Image(o, img) && i < |o.segments|
    ensures |o.ident| == 16 && EntryAt(o.header.phoff, o.header.phentsize, i) + (if o.ident[4] == 2 then 56 else 32) <= |img|
  {
    hide Record, NameOf, Fits;
    StructureSizes(IsWide(o.ident));
    assert Holds(img, SegmentWrite(o, i));
  }

  lemma SectionBytesHeld(o: ElfObject, img: seq<Byte>, i: nat)
    requires Consistent(o) && Image(o, img) && i < |o.sections|
    requires o.sections[i].header.stype != 0 && o.sections[i].header.stype != 8 && o.sections[i].header.size > 0
    ensures o.sections[i].header.offset + o.sections[i].header.size <= |img|
    ensures img[o.sections[i].header.offset..o.sections[i].header.offset + o.sections[i].header.size] == o.sections[i].data
  {
    hide Record, NameOf, Fits;
    assert Holds(img, SectionDataWrite(o, i));
  }
}
