/** Bytes, words in either byte order, and the conversion that `endianess_convertor` performs. */
module Bytes {
  import opened Words

  type Byte = x: int | 0 <= x < 256

  function Pow256(n: nat): (r: nat)
    ensures r > 0
  {
    if n == 0 then 1 else 256 * Pow256(n - 1)
  }

  /** The `n` low bytes of `v`, least significant first. */
  function LittleEndian(n: nat, v: nat): (b: seq<Byte>)
    ensures |b| == n
  {
    if n == 0 then [] else [v % 256] + LittleEndian(n - 1, v / 256)
  }

  function Value(b: seq<Byte>): (v: nat) {
    if b == [] then 0 else b[0] + 256 * Value(b[1..])
  }

  function Reversed(b: seq<Byte>): (r: seq<Byte>)
    ensures |r| == |b| && forall i :: 0 <= i < |b| ==> r[i] == b[|b| - 1 - i]
  {
    if b == [] then [] else Reversed(b[1..]) + [b[0]]
  }

  lemma {:induction false} ValueBound(b: seq<Byte>)
    ensures Value(b) < Pow256(|b|)
  {
    if b != [] {
      ValueBound(b[1..]);
    }
  }

  lemma {:induction false} ReadWritten(n: nat, v: nat)
    requires v < Pow256(n)
    ensures Value(LittleEndian(n, v)) == v
  {
    if n > 0 {
      ReadWritten(n - 1, v / 256);
      assert LittleEndian(n, v)[1..] == LittleEndian(n - 1, v / 256);
    }
  }

  lemma {:induction false} WriteRead(b: seq<Byte>)
    ensures LittleEndian(|b|, Value(b)) == b
  {
    if b != [] {
      WriteRead(b[1..]);
      assert Value(b) % 256 == b[0] && Value(b) / 256 == Value(b[1..]);
      assert b == [b[0]] + b[1..];
    }
  }

  lemma ReversedTwice(b: seq<Byte>)
    ensures Reversed(Reversed(b)) == b
  {
  }

  /** The byte swap of an `n`-byte word. */
  function Swapped(n: nat, v: nat): nat { Value(Reversed(LittleEndian(n, v))) }

  /** Swapping twice gives the word back. */
  lemma SwapTwice(n: nat, v: nat)
    requires v < Pow256(n)
    ensures Swapped(n, v) < Pow256(n) && Swapped(n, Swapped(n, v)) == v
  {
    var b := LittleEndian(n, v);
    ValueBound(Reversed(b));
    WriteRead(Reversed(b));
    ReversedTwice(b);
    ReadWritten(n, v);
  }

  // ---------------------------------------------------------------- the convertor as written

  function Convert16(conv: bool, v: nat): nat {
    if !conv then v else (v % 256) * 0x100 + v / 0x100 % 256
  }

  function Convert32(conv: bool, v: nat): nat {
    if !conv then v
    else (v % 256) * 0x100_0000 + (v / 0x100 % 256) * 0x1_0000 + (v / 0x1_0000 % 256) * 0x100 + v / 0x100_0000 % 256
  }

  function Convert64(conv: bool, v: nat): nat {
    if !conv then v
    else
      (v % 256) * 0x100_0000_0000_0000 + (v / 0x100 % 256) * 0x1_0000_0000_0000
      + (v / 0x1_0000 % 256) * 0x100_0000_0000 + (v / 0x100_0000 % 256) * 0x1_0000_0000
      + (v / 0x1_0000_0000 % 256) * 0x100_0000 + (v / 0x100_0000_0000 % 256) * 0x1_0000
      + (v / 0x1_0000_0000_0000 % 256) * 0x100 + v / 0x100_0000_0000_0000 % 256
  }

  lemma Value2(a: Byte, b: Byte)
    ensures Value([a, b]) == a + 0x100 * b
  {
    assert [a, b][1..] == [b] && [b][1..] == [];
    assert Value([]) == 0 && Value([b]) == b + 256 * Value([]) && Value([a, b]) == a + 256 * Value([b]);
  }

  lemma Value4(a: Byte, b: Byte, c: Byte, d: Byte)
    ensures Value([a, b, c, d]) == a + 0x100 * b + 0x1_0000 * c + 0x100_0000 * d
  {
    assert [a, b, c, d][1..] == [b, c, d] && [b, c, d][1..] == [c, d];
    assert Value([a, b, c, d]) == a + 256 * Value([b, c, d]) && Value([b, c, d]) == b + 256 * Value([c, d]);
    Value2(c, d);
  }

  lemma Value8(lo: seq<Byte>, hi: seq<Byte>)
    requires |lo| == 4 && |hi| == 4
    ensures Value(lo + hi) == Value(lo) + 0x1_0000_0000 * Value(hi)
  {
    assert lo == [lo[0], lo[1], lo[2], lo[3]];
    Value4(lo[0], lo[1], lo[2], lo[3]);
    assert (lo + hi)[1..] == lo[1..] + hi;
    assert (lo[1..] + hi)[1..] == lo[2..] + hi;
    assert (lo[2..] + hi)[1..] == lo[3..] + hi;
    assert (lo[3..] + hi)[1..] == hi;
    assert Value(lo + hi) == lo[0] + 256 * Value(lo[1..] + hi);
    assert Value(lo[1..] + hi) == lo[1] + 256 * Value(lo[2..] + hi);
    assert Value(lo[2..] + hi) == lo[2] + 256 * Value(lo[3..] + hi);
    assert Value(lo[3..] + hi) == lo[3] + 256 * Value(hi);
  }

  lemma Little2(v: nat)
    ensures LittleEndian(2, v) == [v % 256, v / 0x100 % 256]
  {
    assert LittleEndian(0, v / 256 / 256) == [];
    assert LittleEndian(1, v / 256) == [v / 256 % 256];
    assert LittleEndian(2, v) == [v % 256] + LittleEndian(1, v / 256);
  }

  lemma Little4(v: nat)
    ensures LittleEndian(4, v) == [v % 256, v / 0x100 % 256, v / 0x1_0000 % 256, v / 0x100_0000 % 256]
  {
    Little2(v / 256 / 256);
    assert LittleEndian(4, v) == [v % 256] + LittleEndian(3, v / 256);
    assert LittleEndian(3, v / 256) == [v / 256 % 256] + LittleEndian(2, v / 256 / 256);
    assert v / 256 / 256 == v / 0x1_0000 && v / 0x1_0000 / 256 == v / 0x100_0000;
  }

  lemma Little8(v: nat)
    ensures LittleEndian(8, v) == LittleEndian(4, v) + LittleEndian(4, v / 0x1_0000_0000)
  {
    var w := v / 256 / 256 / 256 / 256;
    assert w == v / 0x1_0000_0000;
    assert LittleEndian(5, v / 256 / 256 / 256) == [v / 256 / 256 / 256 % 256] + LittleEndian(4, w);
    assert LittleEndian(6, v / 256 / 256) == [v / 256 / 256 % 256] + LittleEndian(5, v / 256 / 256 / 256);
    assert LittleEndian(8, v) == [v % 256] + LittleEndian(7, v / 256);
    assert LittleEndian(7, v / 256) == [v / 256 % 256] + LittleEndian(6, v / 256 / 256);
    Little4(v);
    assert v / 256 / 256 == v / 0x1_0000 && v / 256 / 256 / 256 == v / 0x100_0000;
  }

  /** The shifts and masks of the convertor are the byte swap, at every width. */
  lemma ConvertIsSwap16(v: nat)
    ensures Convert16(true, v) == Swapped(2, v)
  {
    Little2(v);
    var b := LittleEndian(2, v);
    assert Reversed(b) == [b[1], b[0]];
    Value2(b[1], b[0]);
  }

  lemma ConvertIsSwap32(v: nat)
    ensures Convert32(true, v) == Swapped(4, v)
  {
    Little4(v);
    var b := LittleEndian(4, v);
    assert Reversed(b) == [b[3], b[2], b[1], b[0]];
    Value4(b[3], b[2], b[1], b[0]);
  }

  lemma ConvertIsSwap64(v: nat)
    ensures Convert64(true, v) == Swapped(8, v)
  {
    Little8(v);
    var w := v / 0x1_0000_0000;
    Little4(v);
    Little4(w);
    var lo, hi := LittleEndian(4, v), LittleEndian(4, w);
    assert Reversed(lo + hi) == [hi[3], hi[2], hi[1], hi[0]] + [lo[3], lo[2], lo[1], lo[0]];
    Value8([hi[3], hi[2], hi[1], hi[0]], [lo[3], lo[2], lo[1], lo[0]]);
    Value4(hi[3], hi[2], hi[1], hi[0]);
    Value4(lo[3], lo[2], lo[1], lo[0]);
    assert w / 0x100 == v / 0x100_0000_0000 && w / 0x1_0000 == v / 0x1_0000_0000_0000
      && w / 0x100_0000 == v / 0x100_0000_0000_0000;
  }

  // ---------------------------------------------------------------- fields as they stand in a file

  /** The bytes that a host of little-endian order stores for field value `v` after conversion. */
  function Field(conv: bool, n: nat, v: nat): (b: seq<Byte>)
    ensures |b| == n
  {
    LittleEndian(n, if conv then Swapped(n, v) else v)
  }

  /** The value that a host of little-endian order reads from these bytes, converted. */
  function FieldValue(conv: bool, b: seq<Byte>): nat {
    if conv then Swapped(|b|, Value(b)) else Value(b)
  }

  /** Conversion on writing is undone by conversion on reading. */
  lemma FieldRoundTrip(conv: bool, n: nat, v: nat)
    requires v < Pow256(n)
    ensures FieldValue(conv, Field(conv, n, v)) == v
  {
    SwapTwice(n, v);
    ReadWritten(n, if conv then Swapped(n, v) else v);
  }

  /** With conversion the bytes stand most significant first. */
  lemma ConvertedIsBigEndian(n: nat, v: nat)
    requires v < Pow256(n)
    ensures Field(true, n, v) == Reversed(LittleEndian(n, v))
  {
    WriteRead(Reversed(LittleEndian(n, v)));
  }

  lemma Pow256Values()
    ensures Pow256(1) == 256 && Pow256(2) == 0x1_0000 && Pow256(4) == W32 && Pow256(8) == W64
  {
    assert Pow256(3) == 0x100_0000 && Pow256(5) == 0x100_0000_0000 && Pow256(6) == 0x1_0000_0000_0000;
    assert Pow256(7) == 0x100_0000_0000_0000;
  }

  // ---------------------------------------------------------------- numbers at positions of a file

  /** The number in two, four or eight bytes from position `at`, most significant byte first or last. */
  function Number2(msb: bool, b: seq<Byte>, at: nat): nat
    requires at + 2 <= |b|
  {
    if msb then 0x100 * b[at] as int + b[at + 1] else b[at] + 0x100 * b[at + 1] as int
  }

  function Number4(msb: bool, b: seq<Byte>, at: nat): nat
    requires at + 4 <= |b|
  {
    if msb then 0x1_0000 * Number2(true, b, at) + Number2(true, b, at + 2)
    else Number2(false, b, at) + 0x1_0000 * Number2(false, b, at + 2)
  }

  function Number8(msb: bool, b: seq<Byte>, at: nat): nat
    requires at + 8 <= |b|
  {
    if msb then 0x1_0000_0000 * Number4(true, b, at) + Number4(true, b, at + 4)
    else Number4(false, b, at) + 0x1_0000_0000 * Number4(false, b, at + 4)
  }

  /** What the convertor makes of a field is the value of its bytes, read from the other end. */
  lemma ConvertedValue(b: seq<Byte>)
    ensures FieldValue(true, b) == Value(Reversed(b)) && FieldValue(false, b) == Value(b)
  {
    WriteRead(b);
  }

  lemma FieldIsNumber2(conv: bool, b: seq<Byte>, at: nat)
    requires at + 2 <= |b|
    ensures FieldValue(conv, b[at..at + 2]) == Number2(conv, b, at)
  {
    hide Value, FieldValue, Reversed;
    var f := b[at..at + 2];
    ConvertedValue(f);
    assert f == [b[at], b[at + 1]] && Reversed(f) == [b[at + 1], b[at]];
    Value2(b[at], b[at + 1]);
    Value2(b[at + 1], b[at]);
  }

  lemma FieldIsNumber4(conv: bool, b: seq<Byte>, at: nat)
    requires at + 4 <= |b|
    ensures FieldValue(conv, b[at..at + 4]) == Number4(conv, b, at)
  {
    hide Value, FieldValue, Reversed;
    var f := b[at..at + 4];
    ConvertedValue(f);
    assert f == [b[at], b[at + 1], b[at + 2], b[at + 3]] && Reversed(f) == [b[at + 3], b[at + 2], b[at + 1], b[at]];
    Value4(b[at], b[at + 1], b[at + 2], b[at + 3]);
    Value4(b[at + 3], b[at + 2], b[at + 1], b[at]);
  }

  lemma FieldIsNumber8(conv: bool, b: seq<Byte>, at: nat)
    requires at + 8 <= |b|
    ensures FieldValue(conv, b[at..at + 8]) == Number8(conv, b, at)
  {
    hide Value, FieldValue, Reversed, Number4;
    var f, lo, hi := b[at..at + 8], b[at..at + 4], b[at + 4..at + 8];
    ConvertedValue(f);
    ConvertedValue(lo);
    ConvertedValue(hi);
    FieldIsNumber4(conv, b, at);
    FieldIsNumber4(conv, b, at + 4);
    assert f == lo + hi;
    assert Reversed(f) == Reversed(hi) + Reversed(lo);
    Value8(lo, hi);
    Value8(Reversed(hi), Reversed(lo));
  }
}
