/** Note sections: what `add_note` writes and what `process_section` and `get_note` find again. */
module Notes {
  import opened Words
  import opened Bytes
  import SD = SectionData

  /** A note as it is passed to `add_note`; the descriptor may be absent although a size is given. */
  datatype Note = Note(ntype: nat, name: seq<Byte>, desc: Option<seq<Byte>>, descSize: nat)

  /** The fields fit their 32-bit words with room for rounding up, and a descriptor has the size given. */
  ghost predicate NoteOk(n: Note) {
    && n.ntype < W32 && |n.name| + 1 <= W32 - 4 && n.descSize <= W32 - 4
    && (n.desc.Some? ==> |n.desc.value| == n.descSize)
  }

  /** A note that announces no bytes it does not write. */
  predicate Honest(n: Note) { n.desc.Some? || n.descSize == 0 }

  function Zeros(n: nat): (z: seq<Byte>)
    ensures |z| == n
  {
    if n == 0 then [] else [0] + Zeros(n - 1)
  }

  /** The next multiple of four, in 32-bit arithmetic. */
  function Round4(n: nat): nat { (n + 3) % W32 / 4 * 4 }

  function Padded(b: seq<Byte>): seq<Byte> {
    b + Zeros(if |b| % 4 != 0 then 4 - |b| % 4 else 0)
  }

  lemma PaddedLength(b: seq<Byte>)
    requires |b| <= W32 - 4
    ensures |Padded(b)| == Round4(|b|)
  {
  }

  function DescBytes(n: Note): seq<Byte> {
    if n.desc.Some? && n.descSize != 0 then Padded(n.desc.value) else []
  }

  /** The bytes of one note. */
  function Encode(conv: bool, n: Note): seq<Byte> {
    Field(conv, 4, |n.name| + 1) + Field(conv, 4, n.descSize) + Field(conv, 4, n.ntype)
    + Padded(n.name + [0]) + DescBytes(n)
  }

  function EncodeAll(conv: bool, notes: seq<Note>): seq<Byte> {
    if notes == [] then [] else Encode(conv, notes[0]) + EncodeAll(conv, notes[1..])
  }

  /** Where the writer starts each note, the first one at `base`. */
  function WriterStarts(conv: bool, notes: seq<Note>, base: nat): seq<nat> {
    if notes == [] then [] else [base] + WriterStarts(conv, notes[1..], base + |Encode(conv, notes[0])|)
  }

  /** A 32-bit word of the section. */
  function WordAt(conv: bool, data: seq<Byte>, p: nat): nat
    requires p + 4 <= |data|
  {
    FieldValue(conv, data[p..p + 4])
  }

  /** The length of the note at `p` as its own header tells it. */
  function Stride(conv: bool, data: seq<Byte>, p: nat): (d: nat)
    requires p + 12 <= |data|
    ensures d >= 12
  {
    12 + Round4(WordAt(conv, data, p)) + Round4(WordAt(conv, data, p + 4))
  }

  /** The positions that `process_section` records from `p` on. */
  function ReaderStarts(conv: bool, data: seq<Byte>, p: nat): seq<nat>
    decreases |data| - p
  {
    if p + 12 <= |data| then [p] + ReaderStarts(conv, data, p + Stride(conv, data, p)) else []
  }

  /** What `get_note` reports: type, name, and where the descriptor starts (nowhere for an empty one) with its size. */
  datatype Report = Report(ntype: nat, name: seq<Byte>, desc: Option<nat>, descSize: nat)

  function NoteAt(conv: bool, data: seq<Byte>, p: nat): Option<Report>
    requires p + 12 <= |data|
  {
    var namesz, descsz := WordAt(conv, data, p), WordAt(conv, data, p + 4);
    var room := |data| - p;
    if namesz < 1 || namesz > room || namesz + descsz > room then None
    else if p + 12 + namesz - 1 > |data| then None
    else
      Some(Report(WordAt(conv, data, p + 8), data[p + 12..p + 12 + namesz - 1],
                  if descsz == 0 then None else Some(p + 12 + Round4(namesz)), descsz))
  }

  /** The report is that of note `n`, and its descriptor stands in the data. */
  predicate Reports(data: seq<Byte>, r: Option<Report>, n: Note) {
    && r.Some? && r.value.ntype == n.ntype && r.value.name == n.name && r.value.descSize == n.descSize
    && (n.descSize == 0 <==> r.value.desc.None?)
    && (n.descSize != 0 ==>
          && r.value.desc.value + n.descSize <= |data|
          && n.desc == Some(data[r.value.desc.value..r.value.desc.value + n.descSize]))
  }

  lemma SubSlice(data: seq<Byte>, p: nat, len: nat, a: nat, b: nat)
    requires p + len <= |data| && a <= b <= len
    ensures data[p..p + len][a..b] == data[p + a..p + b]
  {
    var s := data[p..p + len];
    assert forall i :: 0 <= i < b - a ==> s[a..b][i] == s[a + i] == data[p + a + i];
  }

  lemma ThreeParts(a: seq<Byte>, b: seq<Byte>, c: seq<Byte>, rest: seq<Byte>)
    requires |a| == |b| == |c| == 4
    ensures (a + b + c + rest)[0..4] == a && (a + b + c + rest)[4..8] == b && (a + b + c + rest)[8..12] == c
  {
  }

  /** The first part of a concatenation that stands at `p`, and what follows it. */
  lemma SplitAt(data: seq<Byte>, p: nat, a: seq<Byte>, b: seq<Byte>)
    requires p <= |data| && data[p..] == a + b
    ensures p + |a| <= |data| && data[p..p + |a|] == a && data[p + |a|..] == b
  {
    assert data[p..p + |a|] == data[p..][..|a|];
    assert data[p + |a|..] == data[p..][|a|..];
  }

  lemma HeaderRead(conv: bool, v: nat)
    requires v < W32
    ensures FieldValue(conv, Field(conv, 4, v)) == v
  {
    Pow256Values();
    FieldRoundTrip(conv, 4, v);
  }

  /** The three header words of a note that stands at `p`. */
  lemma HeaderAt(conv: bool, n: Note, data: seq<Byte>, p: nat)
    requires NoteOk(n) && p + |Encode(conv, n)| <= |data|
    requires data[p..p + |Encode(conv, n)|] == Encode(conv, n)
    ensures p + 12 <= |data|
    ensures WordAt(conv, data, p) == |n.name| + 1 && WordAt(conv, data, p + 4) == n.descSize
    ensures WordAt(conv, data, p + 8) == n.ntype
  {
    hide Field, FieldValue, Padded, DescBytes, Zeros;
    var e := Encode(conv, n);
    var a, b, c := Field(conv, 4, |n.name| + 1), Field(conv, 4, n.descSize), Field(conv, 4, n.ntype);
    ThreeParts(a, b, c, Padded(n.name + [0]) + DescBytes(n));
    assert e == a + b + c + (Padded(n.name + [0]) + DescBytes(n));
    SubSlice(data, p, |e|, 0, 4);
    SubSlice(data, p, |e|, 4, 8);
    SubSlice(data, p, |e|, 8, 12);
    HeaderRead(conv, |n.name| + 1);
    HeaderRead(conv, n.descSize);
    HeaderRead(conv, n.ntype);
  }

  lemma EncodeLength(conv: bool, n: Note)
    requires NoteOk(n)
    ensures |Encode(conv, n)| == 12 + Round4(|n.name| + 1) + if Honest(n) then Round4(n.descSize) else 0
  {
    PaddedLength(n.name + [0]);
    if n.desc.Some? {
      PaddedLength(n.desc.value);
    }
  }

  /** An honest note is as long as its header says; any other is shorter. */
  lemma StrideOfNote(conv: bool, n: Note, data: seq<Byte>, p: nat)
    requires NoteOk(n) && p + |Encode(conv, n)| <= |data|
    requires data[p..p + |Encode(conv, n)|] == Encode(conv, n)
    ensures p + 12 <= |data|
    ensures Honest(n) ==> Stride(conv, data, p) == |Encode(conv, n)|
    ensures !Honest(n) ==> Stride(conv, data, p) > |Encode(conv, n)|
  {
    hide Encode, WordAt;
    HeaderAt(conv, n, data, p);
    EncodeLength(conv, n);
  }

  /** All notes but the last one are honest. */
  ghost predicate HonestButLast(notes: seq<Note>) {
    forall k :: 0 <= k < |notes| - 1 ==> Honest(notes[k])
  }

  ghost predicate AllOk(notes: seq<Note>) { forall k :: 0 <= k < |notes| ==> NoteOk(notes[k]) }

  lemma ReaderStep(conv: bool, data: seq<Byte>, p: nat)
    ensures p + 12 <= |data| ==>
      ReaderStarts(conv, data, p) == [p] + ReaderStarts(conv, data, p + Stride(conv, data, p))
    ensures p + 12 > |data| ==> ReaderStarts(conv, data, p) == []
  {
  }

  lemma HonestTail(notes: seq<Note>)
    requires notes != []
    ensures HonestButLast(notes) <==> (notes[1..] == [] || Honest(notes[0])) && HonestButLast(notes[1..])
    ensures AllOk(notes) ==> AllOk(notes[1..])
  {
    var rest := notes[1..];
    assert forall k :: 0 <= k < |rest| ==> rest[k] == notes[k + 1];
    if HonestButLast(notes) {
      forall k | 0 <= k < |rest| - 1 ensures Honest(rest[k]) {
        assert Honest(notes[k + 1]);
      }
    }
    if (rest == [] || Honest(notes[0])) && HonestButLast(rest) {
      forall k | 0 <= k < |notes| - 1 ensures Honest(notes[k]) {
        assert k > 0 ==> notes[k] == rest[k - 1];
      }
    }
  }

  /** One note: the reader goes on where the next note starts, or misses it. */
  lemma ReaderMeetsWriter(conv: bool, n: Note, rest: seq<Note>, data: seq<Byte>, p: nat)
    requires NoteOk(n) && p <= |data| && data[p..] == Encode(conv, n) + EncodeAll(conv, rest)
    requires var q := p + |Encode(conv, n)|;
      ReaderStarts(conv, data, q) == WriterStarts(conv, rest, q) <==> HonestButLast(rest)
    ensures ReaderStarts(conv, data, p) == [p] + WriterStarts(conv, rest, p + |Encode(conv, n)|)
            <==> (rest == [] || Honest(n)) && HonestButLast(rest)
  {
    hide Encode, Stride;
    SplitAt(data, p, Encode(conv, n), EncodeAll(conv, rest));
    StrideOfNote(conv, n, data, p);
    ReaderStep(conv, data, p);
    var q, next := p + |Encode(conv, n)|, p + Stride(conv, data, p);
    var found, written := ReaderStarts(conv, data, next), WriterStarts(conv, rest, q);
    HeadAndTail(p, found, written);
    if !Honest(n) {
      ReaderStep(conv, data, next);
      if rest != [] {
        assert written[0] == q < next;
      }
    }
  }

  /** A fresh accessor finds exactly the positions at which the writer started the notes, if and only if every note
      but the last announces no more bytes than it writes. */
  lemma {:induction false} ReaderFindsWriter(conv: bool, notes: seq<Note>, data: seq<Byte>, p: nat)
    requires AllOk(notes) && p <= |data| && data[p..] == EncodeAll(conv, notes)
    ensures ReaderStarts(conv, data, p) == WriterStarts(conv, notes, p) <==> HonestButLast(notes)
  {
    hide Encode, Stride, HonestButLast, AllOk, NoteOk;
    if notes == [] {
      ReaderStep(conv, data, p);
      EmptyIsHonest();
    } else {
      HonestTail(notes);
      FirstOk(notes);
      SplitAt(data, p, Encode(conv, notes[0]), EncodeAll(conv, notes[1..]));
      ReaderFindsWriter(conv, notes[1..], data, p + |Encode(conv, notes[0])|);
      ReaderMeetsWriter(conv, notes[0], notes[1..], data, p);
    }
  }

  lemma EmptyIsHonest()
    ensures HonestButLast([])
  {
  }

  lemma FirstOk(notes: seq<Note>)
    requires AllOk(notes) && notes != []
    ensures NoteOk(notes[0])
  {
  }

  lemma HeadAndTail(p: nat, a: seq<nat>, b: seq<nat>)
    ensures [p] + a == [p] + b <==> a == b
  {
    if [p] + a == [p] + b {
      assert a == ([p] + a)[1..] == ([p] + b)[1..] == b;
    }
  }

  /** The note at position `p` of a section is read back with its type, name and descriptor. */
  lemma NoteIsRead(conv: bool, n: Note, data: seq<Byte>, p: nat)
    requires NoteOk(n) && Honest(n) && p + |Encode(conv, n)| <= |data|
    requires data[p..p + |Encode(conv, n)|] == Encode(conv, n)
    ensures p + 12 <= |data|
    ensures Reports(data, NoteAt(conv, data, p), n)
  {
    hide Encode, WordAt;
    HeaderAt(conv, n, data, p);
    EncodeLength(conv, n);
    NameStands(conv, n, data, p);
    if n.descSize != 0 {
      DescStands(conv, n, data, p);
    }
  }

  lemma NameStands(conv: bool, n: Note, data: seq<Byte>, p: nat)
    requires NoteOk(n) && p + |Encode(conv, n)| <= |data| && data[p..p + |Encode(conv, n)|] == Encode(conv, n)
    ensures p + 12 + |n.name| <= |data| && data[p + 12..p + 12 + |n.name|] == n.name
  {
    hide Encode;
    NamePart(conv, n);
    SubSlice(data, p, |Encode(conv, n)|, 12, 12 + |n.name|);
  }

  lemma DescStands(conv: bool, n: Note, data: seq<Byte>, p: nat)
    requires NoteOk(n) && Honest(n) && n.descSize != 0
    requires p + |Encode(conv, n)| <= |data| && data[p..p + |Encode(conv, n)|] == Encode(conv, n)
    ensures var at := p + 12 + Round4(|n.name| + 1);
      at + n.descSize <= |data| && data[at..at + n.descSize] == n.desc.value
  {
    hide Encode, Round4;
    DescPart(conv, n);
    var at := 12 + Round4(|n.name| + 1);
    SubSlice(data, p, |Encode(conv, n)|, at, at + n.descSize);
  }

  lemma NamePart(conv: bool, n: Note)
    requires NoteOk(n)
    ensures |Encode(conv, n)| >= 12 + |n.name| && Encode(conv, n)[12..12 + |n.name|] == n.name
  {
    hide Field, DescBytes, Zeros;
    var head := Field(conv, 4, |n.name| + 1) + Field(conv, 4, n.descSize) + Field(conv, 4, n.ntype);
    var pad := Zeros(if |n.name + [0]| % 4 != 0 then 4 - |n.name + [0]| % 4 else 0);
    NameBetween(head, n.name, [0], pad, DescBytes(n));
  }

  lemma NameBetween(head: seq<Byte>, name: seq<Byte>, nul: seq<Byte>, pad: seq<Byte>, rest: seq<Byte>)
    ensures var all := head + ((name + nul) + pad) + rest;
      |all| >= |head| + |name| && all[|head|..|head| + |name|] == name
  {
  }

  lemma DescPart(conv: bool, n: Note)
    requires NoteOk(n) && Honest(n) && n.descSize != 0
    ensures var at := 12 + Round4(|n.name| + 1);
      |Encode(conv, n)| >= at + n.descSize && Encode(conv, n)[at..at + n.descSize] == n.desc.value
  {
    hide Field, Round4, Zeros;
    PaddedLength(n.name + [0]);
    var head := Field(conv, 4, |n.name| + 1) + Field(conv, 4, n.descSize) + Field(conv, 4, n.ntype);
    var pad := Zeros(if n.descSize % 4 != 0 then 4 - n.descSize % 4 else 0);
    assert Encode(conv, n) == (head + Padded(n.name + [0])) + (n.desc.value + pad);
  }

  // ---------------------------------------------------------------- byte for byte

  /** `a` is `n` rounded up to a multiple of four. */
  ghost predicate UpToFour(n: nat, a: nat) { a % 4 == 0 && n <= a < n + 4 }

  lemma RoundsUp(n: nat, a: nat)
    requires UpToFour(n, a) && n <= 0xffff_fffc
    ensures Round4(n) == a
  {
  }

  lemma ZerosAreZero(n: nat, i: nat)
    requires i < n
    ensures Zeros(n)[i] == 0
  {
    if i > 0 {
      ZerosAreZero(n - 1, i - 1);
    }
  }

  /** A padded text, then zeros up to a multiple of four. */
  lemma PaddedBytes(b: seq<Byte>, a: nat)
    requires UpToFour(|b|, a)
    ensures |Padded(b)| == a >= |b| && Padded(b)[..|b|] == b && forall i :: |b| <= i < a ==> Padded(b)[i] == 0
  {
    hide Zeros;
    forall i | |b| <= i < a ensures Padded(b)[i] == 0 {
      ZerosAreZero(a - |b|, i - |b|);
    }
  }

  /** The three header words are the length of the name with its NUL byte, the length of the descriptor, and the type,
      in the byte order of the file. */
  lemma HeaderBytes(conv: bool, n: Note)
    requires NoteOk(n)
    ensures var e := Encode(conv, n);
      && |e| >= 12 && Number4(conv, e, 0) == |n.name| + 1 && Number4(conv, e, 4) == n.descSize && Number4(conv, e, 8) == n.ntype
  {
    hide Encode, Number4;
    var e := Encode(conv, n);
    EncodeLength(conv, n);
    assert e[0..0 + |e|] == e;
    HeaderAt(conv, n, e, 0);
    FieldIsNumber4(conv, e, 0);
    FieldIsNumber4(conv, e, 4);
    FieldIsNumber4(conv, e, 8);
  }

  /** A note, byte for byte: header, name, NUL byte and zeros up to a multiple of four, descriptor and zeros up to a
      multiple of four. */
  lemma NoteBytes(conv: bool, n: Note, a: nat, d: nat)
    requires NoteOk(n) && UpToFour(|n.name| + 1, a) && UpToFour(n.descSize, d)
    ensures var e := Encode(conv, n);
      && |e| == 12 + a + (if n.desc.Some? then d else 0)
      && Number4(conv, e, 0) == |n.name| + 1 && Number4(conv, e, 4) == n.descSize && Number4(conv, e, 8) == n.ntype
      && e[12..12 + |n.name|] == n.name && (forall i :: 12 + |n.name| <= i < 12 + a ==> e[i] == 0)
      && (n.desc.Some? ==>
            && e[12 + a..12 + a + n.descSize] == n.desc.value
            && (forall i :: 12 + a + n.descSize <= i < |e| ==> e[i] == 0))
  {
    hide Field, Padded, Number4, UpToFour;
    HeaderBytes(conv, n);
    var head := Field(conv, 4, |n.name| + 1) + Field(conv, 4, n.descSize) + Field(conv, 4, n.ntype);
    var name := n.name + [0];
    PaddedBytes(name, a);
    if n.desc.Some? {
      PaddedBytes(n.desc.value, d);
    }
    if n.descSize == 0 {
      assert d == 0 by { NoneUp(d); }
    }
    Assembled(head, name, Padded(name), DescBytes(n), a);
    if n.desc.Some? && n.descSize != 0 {
      assert DescBytes(n)[..n.descSize] == n.desc.value;
    }
    assert name[..|n.name|] == n.name;
    assert Encode(conv, n)[12..12 + |n.name|] == Encode(conv, n)[12..12 + |name|][..|n.name|];
  }

  lemma NoneUp(d: nat)
    requires UpToFour(0, d)
    ensures d == 0
  {
  }

  lemma Assembled(head: seq<Byte>, name: seq<Byte>, padded: seq<Byte>, desc: seq<Byte>, a: nat)
    requires |head| == 12 && |padded| == a >= |name| && padded[..|name|] == name
    ensures var e := head + padded + desc;
      && e[12..12 + |name|] == name && e[12 + a..] == desc && (forall i :: 0 <= i < a ==> e[12 + i] == padded[i])
      && (forall i :: 12 <= i < 12 + a ==> e[i] == padded[i - 12]) && (forall i :: 12 + a <= i < |e| ==> e[i] == desc[i - 12 - a])
      && forall k :: 0 <= k <= |desc| ==> e[12 + a..12 + a + k] == desc[..k]
  {
    var e := head + padded + desc;
    forall i | 0 <= i < |name| ensures e[12..12 + |name|][i] == name[i] {
      assert padded[..|name|][i] == padded[i];
    }
    assert e[12..12 + |name|] == name;
  }

  /** The reader goes on behind name and descriptor as the header tells their lengths, and stops where fewer than
      twelve bytes are left. */
  lemma ReaderGoesOn(conv: bool, data: seq<Byte>, p: nat, a: nat, d: nat)
    ensures p + 12 > |data| ==> ReaderStarts(conv, data, p) == []
    ensures p + 12 <= |data| && Number4(conv, data, p) <= 0xffff_fffc && Number4(conv, data, p + 4) <= 0xffff_fffc
      && UpToFour(Number4(conv, data, p), a) && UpToFour(Number4(conv, data, p + 4), d)
      ==> ReaderStarts(conv, data, p) == [p] + ReaderStarts(conv, data, p + 12 + a + d)
  {
    hide Number4, UpToFour, Round4;
    ReaderStep(conv, data, p);
    if p + 12 <= |data| && Number4(conv, data, p) <= 0xffff_fffc && Number4(conv, data, p + 4) <= 0xffff_fffc
      && UpToFour(Number4(conv, data, p), a) && UpToFour(Number4(conv, data, p + 4), d) {
      StrideIs(conv, data, p);
      FieldIsNumber4(conv, data, p);
      FieldIsNumber4(conv, data, p + 4);
      RoundsUp(Number4(conv, data, p), a);
      RoundsUp(Number4(conv, data, p + 4), d);
    }
  }

  /** What is reported of the bytes at `p`, and when nothing is. */
  lemma ReportedExactly(conv: bool, data: seq<Byte>, p: nat, a: nat)
    requires p + 12 <= |data| && Number4(conv, data, p) <= 0xffff_fffc && UpToFour(Number4(conv, data, p), a)
    ensures var namesz, descsz := Number4(conv, data, p), Number4(conv, data, p + 4);
      && (NoteAt(conv, data, p).None? <==> namesz == 0 || p + namesz + descsz > |data| || p + 12 + namesz - 1 > |data|)
      && (NoteAt(conv, data, p).Some? ==>
            NoteAt(conv, data, p).value == Report(Number4(conv, data, p + 8), data[p + 12..p + 12 + namesz - 1],
                                                  if descsz == 0 then None else Some(p + 12 + a), descsz))
  {
    hide Number4, UpToFour, Round4, FieldValue;
    FieldIsNumber4(conv, data, p);
    FieldIsNumber4(conv, data, p + 4);
    FieldIsNumber4(conv, data, p + 8);
    RoundsUp(Number4(conv, data, p), a);
  }

  /** Every note of an honest history is found at its place and read back. */
  lemma {:induction false} EveryNoteIsRead(conv: bool, notes: seq<Note>, data: seq<Byte>, p: nat, i: nat)
    requires AllOk(notes) && (forall k :: 0 <= k < |notes| ==> Honest(notes[k]))
    requires p <= |data| && data[p..] == EncodeAll(conv, notes) && i < |notes|
    ensures i < |ReaderStarts(conv, data, p)|
    ensures var q := ReaderStarts(conv, data, p)[i];
      q + 12 <= |data| && Reports(data, NoteAt(conv, data, q), notes[i])
  {
    hide Encode, Stride, NoteAt;
    var n, e := notes[0], Encode(conv, notes[0]);
    SplitAt(data, p, e, EncodeAll(conv, notes[1..]));
    StrideOfNote(conv, n, data, p);
    ReaderStep(conv, data, p);
    if i == 0 {
      NoteIsRead(conv, n, data, p);
    } else {
      EveryNoteIsRead(conv, notes[1..], data, p + |e|, i - 1);
    }
  }

  lemma {:induction false} EncodeAllAppends(conv: bool, notes: seq<Note>, n: Note)
    ensures EncodeAll(conv, notes + [n]) == EncodeAll(conv, notes) + Encode(conv, n)
  {
    hide Encode;
    if notes == [] {
      assert [n][1..] == [];
    } else {
      assert (notes + [n])[1..] == notes[1..] + [n];
      EncodeAllAppends(conv, notes[1..], n);
    }
  }

  lemma {:induction false} WriterStartsAppends(conv: bool, notes: seq<Note>, n: Note, base: nat)
    ensures WriterStarts(conv, notes + [n], base) == WriterStarts(conv, notes, base) + [base + |EncodeAll(conv, notes)|]
  {
    hide Encode;
    if notes == [] {
      assert [n][1..] == [];
    } else {
      var next := base + |Encode(conv, notes[0])|;
      assert (notes + [n])[1..] == notes[1..] + [n];
      WriterStartsAppends(conv, notes[1..], n, next);
      StartsAssoc(base, WriterStarts(conv, notes[1..], next), next + |EncodeAll(conv, notes[1..])|);
    }
  }

  lemma StartsAssoc(a: nat, s: seq<nat>, b: nat)
    ensures [a] + (s + [b]) == ([a] + s) + [b]
  {
  }

  lemma StrideIs(conv: bool, data: seq<Byte>, p: nat)
    requires p + 12 <= |data|
    ensures Stride(conv, data, p) == 12 + Round4(WordAt(conv, data, p)) + Round4(WordAt(conv, data, p + 4))
  {
  }

  lemma RecordedNext(before: seq<nat>, p: nat, rest: seq<nat>)
    ensures before + ([p] + rest) == before + [p] + rest
  {
  }

  /** An accessor over a note section. */
  class NoteAccessor {
    const section: SD.SectionData
    const conv: bool
    var noteStartPositions: seq<nat>

    constructor (section: SD.SectionData, conv: bool)
      requires section.Valid()
      ensures this.section == section && this.conv == conv
      ensures noteStartPositions == ReaderStarts(conv, section.Contents(), 0)
    {
      this.section, this.conv := section, conv;
      noteStartPositions := [];
      new;
      ProcessSection();
    }

    method Word(p: nat) returns (w: nat)
      requires section.Valid() && p + 4 <= section.size
      ensures w == WordAt(conv, section.Contents(), p)
    {
      assert section.data[p..p + 4] == section.Contents()[p..p + 4];
      w := FieldValue(conv, section.data[p..p + 4]);
    }

    method Slice(p: nat, q: nat) returns (s: seq<Byte>)
      requires section.Valid() && p <= q <= section.size
      ensures s == section.Contents()[p..q]
    {
      if section.data == null {
        return [];
      }
      assert section.data[p..q] == section.Contents()[p..q];
      s := section.data[p..q];
    }

    /** Walks over the notes of the section and records where each one starts. */
    method ProcessSection()
      requires section.Valid()
      modifies this
      ensures noteStartPositions == ReaderStarts(conv, section.Contents(), 0)
    {
      hide FieldValue, Round4, ReaderStarts, WordAt, Stride;
      noteStartPositions := [];
      ghost var data := section.Contents();
      ReaderStep(conv, data, 0);
      if section.data == null || section.size == 0 {
        return;
      }
      var current := 0;
      while current + 12 <= section.size
        invariant noteStartPositions + ReaderStarts(conv, data, current) == ReaderStarts(conv, data, 0)
        decreases |data| - current
      {
        ReaderStep(conv, data, current);
        StrideIs(conv, data, current);
        ghost var before := noteStartPositions;
        noteStartPositions := noteStartPositions + [current];
        var namesz := Word(current);
        var descsz := Word(current + 4);
        current := current + (12 + Round4(namesz) + Round4(descsz));
        RecordedNext(before, noteStartPositions[|before|], ReaderStarts(conv, data, current));
      }
      ReaderStep(conv, data, current);
    }

    /** Appends a note and records where it starts. */
    method AddNote(n: Note)
      requires section.Valid() && section.stype != SHT_NOBITS && NoteOk(n)
      requires 2 * (section.dataSize + |Encode(conv, n)|) < W32
      modifies this, section, section.data
      ensures section.Valid() && section.stype == old(section.stype)
      ensures section.Contents() == old(section.Contents()) + Encode(conv, n)
      ensures noteStartPositions == old(noteStartPositions) + [|old(section.Contents())|]
    {
      hide Field, LittleEndian;
      var nameLen := |n.name| + 1;
      var buffer := Field(conv, 4, nameLen) + Field(conv, 4, n.descSize) + Field(conv, 4, n.ntype);
      var name := n.name + [0];
      if nameLen % 4 != 0 {
        name := name + Zeros(4 - nameLen % 4);
      }
      var desc := [];
      if n.desc.Some? && n.descSize != 0 {
        desc := n.desc.value;
        if n.descSize % 4 != 0 {
          desc := desc + Zeros(4 - n.descSize % 4);
        }
      }
      assert Zeros(0) == [];
      assert name == Padded(n.name + [0]) && desc == DescBytes(n);
      noteStartPositions := noteStartPositions + [section.size];
      section.AppendData(buffer + name + desc);
    }

    /** The report on note `index`; None where `get_note` returns false, or would read a name past the data of the
        section. Like the program it does not look whether the descriptor ends inside the section. */
    method GetNote(index: nat) returns (r: Option<Report>)
      requires section.Valid()
      requires index < |noteStartPositions| <= section.size && noteStartPositions[index] + 12 <= section.size
      ensures r == NoteAt(conv, section.Contents(), noteStartPositions[index])
    {
      hide WordAt;
      if index >= section.size {
        return None;
      }
      var p := noteStartPositions[index];
      var ntype := Word(p + 8);
      var namesz := Word(p);
      var descSize := Word(p + 4);
      var maxNameSize := section.size - p;
      if namesz < 1 || namesz > maxNameSize || namesz + descSize > maxNameSize {
        return None;
      }
      if p + 12 + namesz - 1 > section.size {
        return None;
      }
      var name := Slice(p + 12, p + 12 + namesz - 1);
      var at := p + 12 + Round4(namesz);
      r := Some(Report(ntype, name, if descSize == 0 then None else Some(at), descSize));
    }
  }

  /** A descriptor size without a descriptor makes a fresh accessor lose the next note. */
  lemma AbsentDescriptorLosesNotes(conv: bool)
    ensures var notes := [Note(1, [], None, 4), Note(1, [], None, 0)];
      ReaderStarts(conv, EncodeAll(conv, notes), 0) != WriterStarts(conv, notes, 0)
  {
    var notes := [Note(1, [], None, 4), Note(1, [], None, 0)];
    assert EncodeAll(conv, notes)[0..] == EncodeAll(conv, notes);
    ReaderFindsWriter(conv, notes, EncodeAll(conv, notes), 0);
    assert !Honest(notes[0]);
  }
}
