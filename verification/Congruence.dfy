/** The wrap-around padding in front of a segment, and when it gives the loader's congruence. */
module Congruence {
  import opened Words
  import opened LayoutModel

  lemma {:induction false} ModPlusMultiple(r: int, k: int, a: int)
    requires a > 0
    ensures (r + k * a) % a == r % a
    decreases if k < 0 then -k else k
  {
    if k > 0 {
      ModPlusMultiple(r, k - 1, a);
      AddOne(r + (k - 1) * a, a);
      assert r + k * a == r + (k - 1) * a + a;
    } else if k < 0 {
      ModPlusMultiple(r, k + 1, a);
      AddOne(r + k * a, a);
      assert r + (k + 1) * a == r + k * a + a;
    }
  }

  lemma AddOne(x: int, a: int)
    requires a > 0
    ensures (x + a) % a == x % a
  {
    var q, r := x / a, x % a;
    assert x == q * a + r;
    var q', r' := (x + a) / a, (x + a) % a;
    assert x + a == q' * a + r';
    assert (q + 1) * a == q * a + a;
    QuotientUnique(q + 1, r, q', r', a);
  }

  lemma {:induction false} AtLeast(k: nat, a: nat)
    requires k >= 1
    ensures k * a >= a
  {
    if k > 1 {
      AtLeast(k - 1, a);
      assert k * a == (k - 1) * a + a;
    }
  }

  lemma Distribute(q: int, q': int, a: int)
    ensures (q - q') * a == q * a - q' * a
  {
  }

  lemma QuotientUnique(q: int, r: int, q': int, r': int, a: int)
    requires 0 <= r < a && 0 <= r' < a && q * a + r == q' * a + r'
    ensures q == q' && r == r'
  {
    if q < q' {
      Distribute(q', q, a);
      AtLeast(q' - q, a);
    } else if q > q' {
      Distribute(q, q', a);
      AtLeast(q - q', a);
    }
  }

  /** Adding to a residue or to the number itself gives the same residue. */
  lemma ModShift(x: int, d: int, a: int)
    requires a > 0
    ensures (x + d) % a == (x % a + d) % a
  {
    ModPlusMultiple(x % a + d, x / a, a);
    assert x + d == x % a + d + (x / a) * a;
  }

  lemma SmallMod(x: int, a: int)
    requires 0 <= x < a
    ensures x % a == x
  {
  }

  lemma WrapTwice(a: Word64, q: Word64, c: Word64)
    requires q < a && c < a
    ensures Add64(a, Sub64(q, c)) == if a + q - c < W64 then a + q - c else a + q - c - W64
  {
    if q >= c {
      assert Sub64(q, c) == q - c;
    } else {
      assert Sub64(q, c) == q - c + W64;
    }
  }

  /** The subtraction and the addition of `SegPadding` cancel their wrap-around unless the sum itself is 2^64 or more. */
  lemma PaddingValue(align: Word64, vaddr: Word64, pos: Word64)
    requires align > 0
    ensures var t := align + vaddr % align - pos % align;
      0 < t < 2 * align && SegPadding(align, vaddr, pos) == (if t < W64 then t else t - W64) % align
  {
    WrapTwice(align, vaddr % align, pos % align);
  }

  /** With `c` the residue of the position and `q` the wanted one. */
  lemma ResidueReached(pos: nat, pad: int, align: int, q: int, t: int)
    requires align > 0 && 0 <= q < align && t == align + q - pos % align && pad == t % align
    ensures (pos + pad) % align == q
  {
    var c := pos % align;
    ModShift(pos, pad, align);
    ModShift(t, c, align);
    assert t + c == q + align && pad + c == c + pad;
    AddOne(q, align);
    SmallMod(q, align);
  }

  lemma ResidueMissed(pos: nat, pad: int, align: Word64, q: int, t: int)
    requires align > 0 && 0 <= q < align && t == align + q - pos % align
    requires W64 <= t < 2 * align && pad == (t - W64) % align
    ensures (pos + pad) % align != q
  {
    ModShift(pos, pad, align);
    SmallMod(t - W64, align);
    assert pos % align + pad == q + align - W64;
    SmallMod(q + align - W64, align);
  }

  /** The first byte of a segment that starts fresh is congruent to its virtual address modulo its alignment,
      exactly when the alignment plus the residue difference stays below 2^64. */
  lemma PaddingExact(align: Word64, vaddr: Word64, pos: Word64)
    requires align > 0
    ensures (pos + SegPadding(align, vaddr, pos)) % align == vaddr % align
            <==> align + vaddr % align - pos % align < W64
  {
    var t := align + vaddr % align - pos % align;
    PaddingValue(align, vaddr, pos);
    if t < W64 {
      ResidueReached(pos, SegPadding(align, vaddr, pos), align, vaddr % align, t);
    } else {
      ResidueMissed(pos, SegPadding(align, vaddr, pos), align, vaddr % align, t);
    }
  }

  /** Every alignment up to 2^63 is safe. */
  lemma PaddingUpTo63(align: Word64, vaddr: Word64, pos: Word64)
    requires 0 < align <= W64 / 2
    ensures (pos + SegPadding(align, vaddr, pos)) % align == vaddr % align
  {
    PaddingExact(align, vaddr, pos);
    PaddingValue(align, vaddr, pos);
  }
}
