/** What the three layout passes of `elfio::save` compute, written over values.

    `total` is the file position as a mathematical integer; the program's `current_file_pos` is
    `total % 2^64`, and every decision below looks at that residue only.  `log` records every assignment
    of a file range to a section, in the order in which they happen. */
module LayoutModel {
  import opened Words

  const SHF_ALLOC := 0x2
  const SHF_TLS := 0x400
  const PT_PHDR := 6
  const PT_TLS := 7
  const LOOSE := -1

  datatype Sec = Sec(stype: nat, flags: nat, addr: Word64, addrSet: bool, align: Word64, size: Word64, offset: Word64)

  datatype Seg = Seg(ptype: nat, align: Word64, vaddr: Word64, filesz: Word64, memsz: Word64,
                     offset: Word64, offsetSet: bool, secs: seq<nat>)

  /** The fields of the file header that layout reads. */
  datatype Header = Header(wide: bool, ehsize: nat, phentsize: nat, shentsize: nat)

  /** Section `sec` was given the `len` bytes from file position `at`, after skipping `pad` bytes, while segment
      `owner` was laid out (`LOOSE` for a section that no segment lists). */
  datatype Place = Place(sec: nat, owner: int, at: nat, len: nat, pad: nat)

  datatype Plan = Plan(secs: seq<Sec>, segs: seq<Seg>, gen: seq<bool>, total: nat, log: seq<Place>)

  /** The state of the inner loop, which places the sections of one segment. */
  datatype Run = Run(secs: seq<Sec>, gen: seq<bool>, total: nat, log: seq<Place>,
                     start: Word64, mem: Word64, file: Word64)

  datatype Done = Done(plan: Plan, shoff: nat)

  /** The bytes a section takes in the file. */
  function FileLen(s: Sec): Word64 {
    if s.stype == SHT_NOBITS || s.stype == SHT_NULL then 0 else s.size
  }

  predicate InRange(segs: seq<Seg>, n: nat) {
    forall s, k :: 0 <= s < |segs| && 0 <= k < |segs[s].secs| ==> segs[s].secs[k] < n
  }

  predicate InSegment(segs: seq<Seg>, i: nat) {
    exists s :: 0 <= s < |segs| && i in segs[s].secs
  }

  // ---------------------------------------------------------------- one section of one segment

  /** The padding in front of a section, or None where the program gives up because the section's address
      lies behind the bytes already placed. */
  function SecAlign(seg: Seg, sec: Sec, generated: bool, pos: Word64, start: Word64, file: Word64): Option<Word64> {
    if !generated && sec.addrSet && sec.stype != SHT_NOBITS && sec.stype != SHT_NULL && sec.size != 0 then
      var req := Sub64(sec.addr, seg.vaddr);
      var cur := Sub64(pos, start);
      if req < cur then None else Some(req - cur)
    else if !generated && !sec.addrSet then
      var align := if sec.align == 0 then 1 else sec.align;
      Some((align - pos % align) % align)
    else if generated then
      Some(Sub64(Sub64(sec.offset, start), file))
    else
      Some(0)
  }

  /** SHF_ALLOC, except thread-local NOBITS data in a segment that is not PT_TLS. */
  predicate TakesMemory(seg: Seg, sec: Sec) {
    && HasBit(sec.flags, SHF_ALLOC)
    && !(HasBit(sec.flags, SHF_TLS) && seg.ptype != PT_TLS && sec.stype == SHT_NOBITS)
  }

  /** The section once it is placed with its first byte at `pos`. */
  function Stamp(wide: bool, seg: Seg, sec: Sec, index: nat, pos: Word64, start: Word64): Sec {
    var s1 := if sec.addrSet then sec
              else sec.(addr := Trunc(wide, Sub64(Add64(seg.vaddr, pos), start)), addrSet := true);
    if index != 0 then s1.(offset := Trunc(wide, pos)) else s1
  }

  /** Section `index` becomes `sec'` and takes its file bytes from position `at`. */
  function PutAt(r: Run, index: nat, owner: int, at: nat, sec': Sec): Run
    requires index < |r.secs| == |r.gen| && r.total <= at
  {
    var len := FileLen(r.secs[index]);
    r.(secs := r.secs[index := sec'], gen := r.gen[index := true],
       total := at + len, log := r.log + [Place(index, owner, at, len, at - r.total)])
  }

  function PlaceOne(wide: bool, seg: Seg, owner: int, r: Run, index: nat): Option<Run>
    requires index < |r.secs| == |r.gen|
  {
    var sec := r.secs[index];
    if sec.stype == SHT_NULL then
      Some(r.(gen := r.gen[index := true]))
    else
      match SecAlign(seg, sec, r.gen[index], r.total % W64, r.start, r.file)
      case None => None
      case Some(pad) =>
        var mem := if TakesMemory(seg, sec) then Add64(r.mem, Add64(sec.size, pad)) else r.mem;
        var file := if sec.stype != SHT_NOBITS then Add64(r.file, Add64(sec.size, pad)) else r.file;
        if r.gen[index] then
          Some(r.(mem := mem, file := file))
        else
          var at := r.total + pad;
          var sec' := Stamp(wide, seg, sec, index, at % W64, r.start);
          Some(PutAt(r, index, owner, at, sec').(mem := mem, file := file))
  }

  /** The first `n` iterations of the inner loop. */
  function PlaceUpTo(wide: bool, seg: Seg, owner: int, r: Run, n: nat): (o: Option<Run>)
    requires n <= |seg.secs| && |r.secs| == |r.gen|
    requires forall k :: 0 <= k < |seg.secs| ==> seg.secs[k] < |r.secs|
    ensures o.Some? ==> |o.value.secs| == |r.secs| == |o.value.gen|
  {
    if n == 0 then Some(r)
    else
      match PlaceUpTo(wide, seg, owner, r, n - 1)
      case None => None
      case Some(r1) => PlaceOne(wide, seg, owner, r1, seg.secs[n - 1])
  }

  // ---------------------------------------------------------------- one segment

  /** The segment brings its own first bytes: it has sections, and the first was not placed before. */
  predicate StartsFresh(p: Plan, seg: Seg)
    requires forall k :: 0 <= k < |seg.secs| ==> seg.secs[k] < |p.gen|
  {
    |seg.secs| > 0 && !p.gen[seg.secs[0]]
  }

  /** The padding in front of a segment that starts fresh, in wrap-around arithmetic. */
  function SegPadding(align: Word64, vaddr: Word64, pos: Word64): Word64 {
    var a := if align > 0 then align else 1;
    var error := Sub64(vaddr % a, pos % a);
    Add64(align, error) % a
  }

  predicate HeaderSegment(seg: Seg) { seg.ptype == PT_PHDR && |seg.secs| == 0 }

  predicate StartsAtZero(seg: Seg) { seg.offsetSet && seg.offset == 0 }

  /** The four ways in which a segment gets its start position. */
  function StartRun(h: Header, p: Plan, seg: Seg): (r: Run)
    requires |p.gen| == |p.secs|
    requires forall k :: 0 <= k < |seg.secs| ==> seg.secs[k] < |p.gen|
    ensures |r.secs| == |r.gen| == |p.secs|
  {
    var pos := p.total % W64;
    if HeaderSegment(seg) then
      var bytes := h.phentsize * |p.segs| % W64;
      Run(p.secs, p.gen, p.total, p.log, (if |p.segs| > 0 then h.ehsize % W64 else 0), bytes, bytes)
    else if StartsAtZero(seg) then
      var bytes := if |seg.secs| > 0 then pos else 0;
      Run(p.secs, p.gen, p.total, p.log, 0, bytes, bytes)
    else if StartsFresh(p, seg) then
      var total := p.total + SegPadding(seg.align, seg.vaddr, pos);
      Run(p.secs, p.gen, total, p.log, total % W64, 0, 0)
    else if |seg.secs| > 0 then
      Run(p.secs, p.gen, p.total, p.log, p.secs[seg.secs[0]].offset, 0, 0)
    else
      Run(p.secs, p.gen, p.total, p.log, pos, 0, 0)
  }

  function FinishSegment(wide: bool, seg: Seg, r: Run): Seg {
    seg.(filesz := Trunc(wide, r.file),
         memsz := if seg.memsz < r.mem then Trunc(wide, r.mem) else seg.memsz,
         offset := Trunc(wide, r.start),
         offsetSet := true)
  }

  function LayoutSegment(h: Header, p: Plan, i: nat): (o: Option<Plan>)
    requires i < |p.segs| && |p.gen| == |p.secs| && InRange(p.segs, |p.secs|)
    ensures o.Some? ==> |o.value.segs| == |p.segs| && |o.value.secs| == |o.value.gen| == |p.secs|
    ensures o.Some? ==> forall s :: 0 <= s < |p.segs| ==> o.value.segs[s].secs == p.segs[s].secs
  {
    var seg := p.segs[i];
    match PlaceUpTo(h.wide, seg, i, StartRun(h, p, seg), |seg.secs|)
    case None => None
    case Some(r) => Some(Plan(r.secs, p.segs[i := FinishSegment(h.wide, seg, r)], r.gen, r.total, r.log))
  }

  /** The first `n` segments of the worklist. */
  function SegmentsUpTo(h: Header, p: Plan, order: seq<nat>, n: nat): (o: Option<Plan>)
    requires n <= |order| && (forall k :: 0 <= k < |order| ==> order[k] < |p.segs|)
    requires |p.gen| == |p.secs| && InRange(p.segs, |p.secs|)
    ensures o.Some? ==> |o.value.segs| == |p.segs| && |o.value.secs| == |o.value.gen| == |p.secs|
    ensures o.Some? ==> forall s :: 0 <= s < |p.segs| ==> o.value.segs[s].secs == p.segs[s].secs
  {
    if n == 0 then Some(p)
    else
      match SegmentsUpTo(h, p, order, n - 1)
      case None => None
      case Some(q) => LayoutSegment(h, q, order[n - 1])
  }

  // ---------------------------------------------------------------- sections of no segment, section table

  function LoosePadding(align: Word64, pos: Word64): Word64 {
    if align > 1 && pos % align != 0 then align - pos % align else 0
  }

  function PlaceLoose(wide: bool, p: Plan, i: nat): Plan
    requires i < |p.secs|
  {
    if InSegment(p.segs, i) then p
    else
      var sec := p.secs[i];
      var at := p.total + LoosePadding(sec.align, p.total % W64);
      var sec' := if i != 0 then sec.(offset := Trunc(wide, at % W64)) else sec;
      p.(secs := p.secs[i := sec'], total := at + FileLen(sec),
         log := p.log + [Place(i, LOOSE, at, FileLen(sec), at - p.total)])
  }

  function LooseUpTo(wide: bool, p: Plan, n: nat): (q: Plan)
    requires n <= |p.secs|
    ensures q.segs == p.segs && q.gen == p.gen && |q.secs| == |p.secs|
  {
    if n == 0 then p else PlaceLoose(wide, LooseUpTo(wide, p, n - 1), n - 1)
  }

  function TableStart(total: nat): nat { total + (4 - total % W64 % 4) % 4 }

  // ---------------------------------------------------------------- everything

  function RaiseAlign(secs: seq<Sec>, list: seq<nat>, align: Word64, n: nat): Word64
    requires n <= |list| && forall k :: 0 <= k < |list| ==> list[k] < |secs|
  {
    if n == 0 then align
    else
      var a := RaiseAlign(secs, list, align, n - 1);
      if secs[list[n - 1]].align > a then secs[list[n - 1]].align else a
  }

  function Raised(secs: seq<Sec>, segs: seq<Seg>): (r: seq<Seg>)
    requires InRange(segs, |secs|)
    ensures |r| == |segs|
  {
    seq(|segs|, i requires 0 <= i < |segs| =>
      segs[i].(align := RaiseAlign(secs, segs[i].secs, segs[i].align, |segs[i].secs|)))
  }

  function HeadersEnd(h: Header, segs: seq<Seg>): nat { h.ehsize + h.phentsize * |segs| }

  function NothingPlaced(n: nat): (r: seq<bool>)
    ensures |r| == n && forall i :: 0 <= i < n ==> !r[i]
  {
    seq(n, _ => false)
  }

  function StartPlan(h: Header, secs: seq<Sec>, segs: seq<Seg>): Plan
    requires InRange(segs, |secs|)
  {
    Plan(secs, Raised(secs, segs), NothingPlaced(|secs|), HeadersEnd(h, segs), [])
  }

  /** The second pass and the section header table. */
  function Completed(wide: bool, p: Plan): Done {
    var q := LooseUpTo(wide, p, |p.secs|);
    var end := TableStart(q.total);
    Done(q.(total := end), Trunc(wide, end % W64))
  }

  /** The layout of a whole file, with the segments taken in the given order. */
  function Layout(h: Header, secs: seq<Sec>, segs: seq<Seg>, order: seq<nat>): Option<Done>
    requires InRange(segs, |secs|)
    requires forall k :: 0 <= k < |order| ==> order[k] < |segs|
  {
    match SegmentsUpTo(h, StartPlan(h, secs, segs), order, |order|)
    case None => None
    case Some(p) => Some(Completed(h.wide, p))
  }
}
