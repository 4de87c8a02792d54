/** The System V hash function of symbol names, and its integer law. */
module HashFunction {
  import opened Words
  import opened Bytes
  import opened StringTable

  // ---------------------------------------------------------------- words of bits

  /** `a & b`. */
  function And(a: nat, b: nat): nat {
    if a == 0 then 0 else (if a % 2 == 1 && b % 2 == 1 then 1 else 0) + 2 * And(a / 2, b / 2)
  }

  /** `a ^ b`. */
  function Xor(a: nat, b: nat): nat {
    if a == 0 then b else (if a % 2 != b % 2 then 1 else 0) + 2 * Xor(a / 2, b / 2)
  }

  function Bit(v: nat, place: nat): nat
    requires place > 0
  {
    v / place % 2
  }

  // ---------------------------------------------------------------- the function

  /** One round of the loop on `uint32_t`. */
  function HashStep(h: nat, c: Byte): nat {
    var h1 := (h * 16 + c) % W32;
    var g := And(h1, 0xf000_0000);
    var h2 := if g != 0 then Xor(h1, g / 0x100_0000) else h1;
    And(h2, W32 - 1 - g % W32)
  }

  function HashFrom(h: nat, name: seq<Byte>): nat
    decreases name
  {
    if name == [] then h else HashFrom(HashStep(h, name[0]), name[1..])
  }

  method ElfHash(name: seq<Byte>) returns (h: nat)
    ensures h == HashFrom(0, CString(name)) && h < 0x1000_0000
  {
    hide HashStep, CString, HashFrom;
    h := 0;
    var i := 0;
    assert name[0..] == name;
    while i < |name| && name[i] != 0
      invariant i <= |name|
      invariant HashFrom(h, CString(name[i..])) == HashFrom(0, CString(name))
    {
      CStringFrom(name, i);
      HashFromStep(h, name[i], CString(name[i + 1..]));
      h := HashStep(h, name[i]);
      i := i + 1;
    }
    CStringFrom(name, i);
    HashFromEnd(h);
    HashIsSmall(0, CString(name));
  }

  lemma HashFromStep(h: nat, c: Byte, rest: seq<Byte>)
    ensures HashFrom(h, [c] + rest) == HashFrom(HashStep(h, c), rest)
  {
    hide HashStep;
    assert ([c] + rest)[1..] == rest;
  }

  lemma HashFromEnd(h: nat)
    ensures HashFrom(h, []) == h
  {
  }

  // ---------------------------------------------------------------- four bits at a time

  lemma AndBit(a: nat, x: nat, b: nat, y: nat)
    requires x < 2 && y < 2
    ensures And(2 * a + x, 2 * b + y) == (if x == 1 && y == 1 then 1 else 0) + 2 * And(a, b)
  {
    assert (2 * a + x) / 2 == a && (2 * b + y) / 2 == b && (2 * a + x) % 2 == x && (2 * b + y) % 2 == y;
    assert And(0, b) == 0;
  }

  lemma XorBit(a: nat, x: nat, b: nat, y: nat)
    requires x < 2 && y < 2
    ensures Xor(2 * a + x, 2 * b + y) == (if x != y then 1 else 0) + 2 * Xor(a, b)
  {
    assert (2 * a + x) / 2 == a && (2 * b + y) / 2 == b && (2 * a + x) % 2 == x && (2 * b + y) % 2 == y;
    assert Xor(0, b) == b;
  }

  /** The four bits of a nibble. */
  lemma Bits(u: nat) returns (u0: nat, u1: nat, u2: nat, u3: nat)
    requires u < 16
    ensures u0 < 2 && u1 < 2 && u2 < 2 && u3 < 2 && u == u0 + 2 * (u1 + 2 * (u2 + 2 * u3))
    ensures u0 == u % 2 && u1 == u / 2 % 2 && u2 == u / 4 % 2 && u3 == u / 8 % 2
  {
    u0, u1, u2, u3 := u % 2, u / 2 % 2, u / 4 % 2, u / 8 % 2;
  }

  lemma AndNibble(a: nat, u: nat, b: nat, v: nat)
    requires u < 16 && v < 16
    ensures And(16 * a + u, 16 * b + v) == And(u, v) + 16 * And(a, b)
  {
    hide And;
    var u0, u1, u2, u3 := Bits(u);
    var v0, v1, v2, v3 := Bits(v);
    AndFour(a, u0, u1, u2, u3, b, v0, v1, v2, v3);
    AndFour(0, u0, u1, u2, u3, 0, v0, v1, v2, v3);
    AndZero(0);
  }

  lemma AndFour(a: nat, u0: nat, u1: nat, u2: nat, u3: nat, b: nat, v0: nat, v1: nat, v2: nat, v3: nat)
    requires u0 < 2 && u1 < 2 && u2 < 2 && u3 < 2 && v0 < 2 && v1 < 2 && v2 < 2 && v3 < 2
    ensures And(2 * (2 * (2 * (2 * a + u3) + u2) + u1) + u0, 2 * (2 * (2 * (2 * b + v3) + v2) + v1) + v0)
         == Both(u0, v0) + 2 * Both(u1, v1) + 4 * Both(u2, v2) + 8 * Both(u3, v3) + 16 * And(a, b)
  {
    hide And;
    AndBit(a, u3, b, v3);
    AndBit(2 * a + u3, u2, 2 * b + v3, v2);
    AndBit(2 * (2 * a + u3) + u2, u1, 2 * (2 * b + v3) + v2, v1);
    AndBit(2 * (2 * (2 * a + u3) + u2) + u1, u0, 2 * (2 * (2 * b + v3) + v2) + v1, v0);
  }

  function Both(x: nat, y: nat): nat { if x == 1 && y == 1 then 1 else 0 }

  function Either(x: nat, y: nat): nat { if x != y then 1 else 0 }

  lemma XorFour(a: nat, u0: nat, u1: nat, u2: nat, u3: nat, b: nat, v0: nat, v1: nat, v2: nat, v3: nat)
    requires u0 < 2 && u1 < 2 && u2 < 2 && u3 < 2 && v0 < 2 && v1 < 2 && v2 < 2 && v3 < 2
    ensures Xor(2 * (2 * (2 * (2 * a + u3) + u2) + u1) + u0, 2 * (2 * (2 * (2 * b + v3) + v2) + v1) + v0)
         == Either(u0, v0) + 2 * Either(u1, v1) + 4 * Either(u2, v2) + 8 * Either(u3, v3) + 16 * Xor(a, b)
  {
    hide Xor;
    XorBit(a, u3, b, v3);
    XorBit(2 * a + u3, u2, 2 * b + v3, v2);
    XorBit(2 * (2 * a + u3) + u2, u1, 2 * (2 * b + v3) + v2, v1);
    XorBit(2 * (2 * (2 * a + u3) + u2) + u1, u0, 2 * (2 * (2 * b + v3) + v2) + v1, v0);
  }

  lemma XorNibble(a: nat, u: nat, b: nat, v: nat)
    requires u < 16 && v < 16
    ensures Xor(16 * a + u, 16 * b + v) == Xor(u, v) + 16 * Xor(a, b)
  {
    hide Xor;
    var u0, u1, u2, u3 := Bits(u);
    var v0, v1, v2, v3 := Bits(v);
    XorFour(a, u0, u1, u2, u3, b, v0, v1, v2, v3);
    XorFour(0, u0, u1, u2, u3, 0, v0, v1, v2, v3);
    XorZero(0);
  }

  lemma {:induction false} AndZero(a: nat)
    ensures And(a, 0) == 0
  {
    if a > 0 {
      AndZero(a / 2);
    }
  }

  lemma {:induction false} XorZero(a: nat)
    ensures Xor(a, 0) == a
  {
    if a > 0 {
      XorZero(a / 2);
    }
  }

  /** Masking with all four bits set, or with the complement. */
  lemma NibbleMasks(u: nat)
    requires u < 16
    ensures And(u, 15) == u && And(u, 15 - u) == 0
  {
    hide And;
    AndBit(u / 2, u % 2, 7, 1);
    AndBit(u / 4, u / 2 % 2, 3, 1);
    AndBit(u / 8, u / 4 % 2, 1, 1);
    AndBit(0, u / 8, 0, 1);
    AndBit(u / 2, u % 2, 7 - u / 2, 1 - u % 2);
    AndBit(u / 4, u / 2 % 2, 3 - u / 4, 1 - u / 2 % 2);
    AndBit(u / 8, u / 4 % 2, 1 - u / 8, 1 - u / 4 % 2);
    AndBit(0, u / 8, 0, 1 - u / 8);
    AndZero(0);
  }

  lemma AndAbove(a: nat, b: nat)
    ensures And(a, 16 * b) == 16 * And(a / 16, b)
  {
    hide And;
    AndNibble(a / 16, a % 16, b, 0);
    AndZero(a % 16);
  }

  lemma AndOnes(a: nat, b: nat)
    ensures And(a, 16 * b + 15) == a % 16 + 16 * And(a / 16, b)
  {
    hide And;
    AndNibble(a / 16, a % 16, b, 15);
    NibbleMasks(a % 16);
  }

  /** Masking out all but the four high bits. */
  lemma TopBits(a: nat)
    requires a < W32
    ensures And(a, 0xf000_0000) == a / 0x1000_0000 * 0x1000_0000
  {
    hide And;
    AndAbove(a, 0xf00_0000);
    AndAbove(a / 0x10, 0xf0_0000);
    AndAbove(a / 0x100, 0xf_0000);
    AndAbove(a / 0x1000, 0xf000);
    AndAbove(a / 0x1_0000, 0xf00);
    AndAbove(a / 0x10_0000, 0xf0);
    AndAbove(a / 0x100_0000, 0xf);
    NibbleMasks(a / 0x1000_0000);
  }

  lemma FourNibbles(a: nat, b: nat)
    ensures And(a, 0x1_0000 * b + 0xffff) == a % 0x1_0000 + 0x1_0000 * And(a / 0x1_0000, b)
  {
    hide And;
    AndOnes(a, 0x1000 * b + 0xfff);
    AndOnes(a / 0x10, 0x100 * b + 0xff);
    AndOnes(a / 0x100, 0x10 * b + 0xf);
    AndOnes(a / 0x1000, b);
    assert a / 0x10 / 0x10 == a / 0x100 && a / 0x100 / 0x10 == a / 0x1000 && a / 0x1000 / 0x10 == a / 0x1_0000;
  }

  lemma ThreeNibbles(a: nat, b: nat)
    ensures And(a, 0x1000 * b + 0xfff) == a % 0x1000 + 0x1000 * And(a / 0x1000, b)
  {
    hide And;
    AndOnes(a, 0x100 * b + 0xff);
    AndOnes(a / 0x10, 0x10 * b + 0xf);
    AndOnes(a / 0x100, b);
    assert a / 0x10 / 0x10 == a / 0x100 && a / 0x100 / 0x10 == a / 0x1000;
  }

  /** Masking with 28 ones behind `b`. */
  lemma LowBits(a: nat, b: nat)
    ensures And(a, b * 0x1000_0000 + 0xfff_ffff) == a % 0x1000_0000 + 0x1000_0000 * And(a / 0x1000_0000, b)
  {
    hide And;
    FourNibbles(a, 0x1000 * b + 0xfff);
    ThreeNibbles(a / 0x1_0000, b);
    assert a / 0x1_0000 / 0x1000 == a / 0x1000_0000;
  }

  /** Four bits xored into bits 4 to 7. */
  lemma XorSecondNibble(high: nat, u: nat, low: nat, t: nat)
    requires u < 16 && low < 16 && t < 16
    ensures Xor(256 * high + 16 * u + low, 16 * t) == 256 * high + 16 * Xor(u, t) + low
  {
    hide Xor;
    XorNibble(16 * high + u, low, t, 0);
    XorZero(low);
    XorNibble(high, u, 0, t);
    XorZero(high);
  }

  lemma XorBits(u: nat, t: nat)
    requires u < 16 && t < 16
    ensures Xor(u, t) == Xor4(u, t)
  {
    hide Xor, Either;
    var u0, u1, u2, u3 := Bits(u);
    var v0, v1, v2, v3 := Bits(t);
    XorOfBits(u, u0, u1, u2, u3, t, v0, v1, v2, v3);
  }

  lemma XorOfBits(u: nat, u0: nat, u1: nat, u2: nat, u3: nat, v: nat, v0: nat, v1: nat, v2: nat, v3: nat)
    requires u0 < 2 && u1 < 2 && u2 < 2 && u3 < 2 && v0 < 2 && v1 < 2 && v2 < 2 && v3 < 2
    requires u == u0 + 2 * (u1 + 2 * (u2 + 2 * u3)) && v == v0 + 2 * (v1 + 2 * (v2 + 2 * v3))
    ensures Xor(u, v) == Either(u0, v0) + 2 * Either(u1, v1) + 4 * Either(u2, v2) + 8 * Either(u3, v3)
  {
    hide Xor, Either;
    XorFour(0, u0, u1, u2, u3, 0, v0, v1, v2, v3);
    XorZero(0);
  }

  // ---------------------------------------------------------------- the integer law

  /** Four bits `u` xored with four bits `t`. */
  function Xor4(u: nat, t: nat): (x: nat)
    ensures x < 16
  {
    Either(u % 2, t % 2) + 2 * Either(u / 2 % 2, t / 2 % 2) + 4 * Either(u / 4 % 2, t / 4 % 2) + 8 * Either(u / 8 % 2, t / 8 % 2)
  }

  /** The low 28 bits of a 32-bit word, with the four bits above them xored into bits 4 to 7. */
  function Folded(s: nat): nat { s % 16 + 16 * Xor4(s / 16 % 16, s / 0x1000_0000) + s % 0x1000_0000 / 256 * 256 }

  /** One round in whole numbers: sixteen times `h` plus `c`, folded to 28 bits. */
  function Round(h: nat, c: nat): nat { Folded((16 * h + c) % 0x1_0000_0000) }

  /** The bits of a 32-bit word in four groups. */
  lemma Groups(s: nat) returns (t: nat, mid: nat, u: nat, low: nat)
    requires s < W32
    ensures t < 16 && mid < 0x10_0000 && u < 16 && low < 16
    ensures s == 0x1000_0000 * t + 256 * mid + 16 * u + low
    ensures t == s / 0x1000_0000 && mid == s % 0x1000_0000 / 256 && u == s / 16 % 16 && low == s % 16
  {
    t, mid, u, low := s / 0x1000_0000, s % 0x1000_0000 / 256, s / 16 % 16, s % 16;
    NibblesOf(s);
    HighOf(s / 16 / 16);
    assert s / 16 / 16 == s / 256 && s / 256 / 0x10_0000 == t;
    BelowHigh(s, t, s % 0x1000_0000);
  }

  lemma NibblesOf(s: nat)
    ensures s == 256 * (s / 16 / 16) + 16 * (s / 16 % 16) + s % 16
  {
  }

  lemma HighOf(v: nat)
    ensures v == 0x10_0000 * (v / 0x10_0000) + v % 0x10_0000
  {
  }

  lemma BelowHigh(s: nat, t: nat, r: nat)
    requires s == 0x1000_0000 * t + r
    ensures s / 256 == 0x10_0000 * t + r / 256
  {
  }

  /** Clearing the four high bits. */
  lemma Masked(v: nat, t: nat)
    requires t < 16 && v < 0x1000_0000
    ensures And(0x1000_0000 * t + v, W32 - 1 - t * 0x1000_0000) == v
  {
    hide And;
    LowBits(0x1000_0000 * t + v, 15 - t);
    assert (0x1000_0000 * t + v) / 0x1000_0000 == t && (0x1000_0000 * t + v) % 0x1000_0000 == v;
    NibbleMasks(t);
  }

  /** Shifting, masking and xoring is this. */
  lemma StepIsRound(h: nat, c: Byte)
    ensures HashStep(h, c) == Round(h, c) < 0x1000_0000
  {
    hide And, Xor, Xor4;
    var s := (16 * h + c) % W32;
    var t, mid, u, low := Groups(s);
    TopBits(s);
    XorBits(u, t);
    XorSecondNibble(0x10_0000 * t + mid, u, low, t);
    if t == 0 {
      XorZero(u);
    }
    Masked(256 * mid + 16 * Xor4(u, t) + low, t);
  }

  /** The hash of any string stays below 2^28. */
  lemma {:induction false} HashIsSmall(h: nat, name: seq<Byte>)
    requires h < 0x1000_0000
    ensures HashFrom(h, name) < 0x1000_0000
    decreases name
  {
    hide HashStep, Round;
    if name != [] {
      StepIsRound(h, name[0]);
      HashIsSmall(HashStep(h, name[0]), name[1..]);
    }
  }

  function Pow16(n: nat): nat { if n == 0 then 1 else 16 * Pow16(n - 1) }

  /** The bytes of a name as the digits of a number to the base 16 (digits may exceed 15). */
  function Positional(name: seq<Byte>): nat {
    if name == [] then 0 else name[0] * Pow16(|name| - 1) + Positional(name[1..])
  }

  lemma {:induction false} Pow16Positive(n: nat)
    ensures Pow16(n) >= 1
  {
    if n > 0 {
      Pow16Positive(n - 1);
    }
  }

  /** As long as nothing reaches 2^28, hashing is reading digits. */
  lemma {:induction false} SmallIsPositional(h: nat, name: seq<Byte>)
    requires h * Pow16(|name|) + Positional(name) < 0x1000_0000
    ensures HashFrom(h, name) == h * Pow16(|name|) + Positional(name)
    decreases name
  {
    hide HashStep, Round;
    if name != [] {
      var n := |name| - 1;
      Pow16Positive(n);
      Horner(h, name[0], Pow16(n));
      StepIsRound(h, name[0]);
      SmallRound(h, name[0]);
      SmallIsPositional(HashStep(h, name[0]), name[1..]);
    }
  }

  lemma Horner(h: nat, c: nat, p: nat)
    requires p >= 1
    ensures h * (16 * p) + c * p == (16 * h + c) * p >= 16 * h + c
  {
  }

  lemma SmallRound(h: nat, c: Byte)
    requires 16 * h + c < 0x1000_0000
    ensures Round(h, c) == 16 * h + c
  {
    hide Folded;
    SmallFolded(16 * h + c);
  }

  lemma SmallFolded(s: nat)
    requires s < 0x1000_0000
    ensures Folded(s) == s
  {
    hide Xor4;
    var t, mid, u, low := Groups(s);
    NothingXored(u);
  }

  lemma NothingXored(u: nat)
    requires u < 16
    ensures Xor4(u, 0) == u
  {
    var u0, u1, u2, u3 := Bits(u);
  }

  /** The hash of a name is its positional sum if and only if that stays below 2^28. */
  lemma HashIsPositionalExactly(name: seq<Byte>)
    ensures HashFrom(0, name) == Positional(name) <==> Positional(name) < 0x1000_0000
  {
    hide HashFrom, Positional;
    HashIsSmall(0, name);
    if Positional(name) < 0x1000_0000 {
      SmallIsPositional(0, name);
    }
  }

  lemma Digit(d: nat, p: nat)
    requires d < 240
    ensures d * p <= 240 * p
  {
  }

  lemma {:induction false} PositionalBound(name: seq<Byte>)
    requires forall i :: 0 <= i < |name| ==> name[i] < 240
    ensures Positional(name) <= 16 * (Pow16(|name|) - 1)
  {
    if name != [] {
      PositionalBound(name[1..]);
      Digit(name[0], Pow16(|name| - 1));
    }
  }

  /** So for every name of at most six bytes below 240, such as ASCII names. */
  lemma ShortNames(name: seq<Byte>)
    requires |name| <= 6 && forall i :: 0 <= i < |name| ==> name[i] < 240
    ensures HashFrom(0, name) == Positional(name)
  {
    hide HashFrom, Positional;
    PositionalBound(name);
    assert Pow16(6) == 0x100_0000 && Pow16(5) == 0x10_0000 && Pow16(4) == 0x1_0000 && Pow16(3) == 0x1000;
    HashIsPositionalExactly(name);
  }

  /** The hash function in whole numbers. */
  function IntegerHash(h: nat, name: seq<Byte>): nat
    decreases name
  {
    if name == [] then h else IntegerHash(Round(h, name[0]), name[1..])
  }

  lemma {:induction false} HashIsInteger(h: nat, name: seq<Byte>)
    ensures HashFrom(h, name) == IntegerHash(h, name)
    decreases name
  {
    hide HashStep, Round;
    if name != [] {
      StepIsRound(h, name[0]);
      HashIsInteger(HashStep(h, name[0]), name[1..]);
    }
  }
}
