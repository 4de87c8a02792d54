/** Fixed-width unsigned arithmetic as the ELF classes use it: every position is computed in 64 bits,
    and a header field keeps only the low 64 or the low 32 bits depending on the file class. Also the two section
    types that own no bytes of the file. */
module Words {
  const W32: int := 0x1_0000_0000
  const W64: int := 0x1_0000_0000_0000_0000

  const SHT_NULL := 0
  const SHT_NOBITS := 8

  type Word64 = x: int | 0 <= x < W64

  function Add64(a: int, b: int): Word64 { (a + b) % W64 }

  function Sub64(a: int, b: int): Word64 { (a - b) % W64 }

  /** One more than the largest value a file-class-dependent field can hold. */
  function Modulus(wide: bool): int { if wide then W64 else W32 }

  /** What is left of a value stored into a file-class-dependent field. */
  function Trunc(wide: bool, v: int): int { if wide then v % W64 else v % W32 }

  /** Bit `b` (a power of two) of `v`. */
  predicate HasBit(v: nat, b: nat)
    requires b > 0
  {
    v / b % 2 == 1
  }

  datatype Option<+T> = None | Some(value: T)
}
