/** 32-bit integers.  The reductions are written as one conditional correction by 2^32, which is all
    that one addition, subtraction or cast needs; `Wrap32IsTwosComplement` and `U32IsModulo` relate them
    to the general modular form. */
module Words {
  type u32 = x: nat | x < 0x1_0000_0000
  type int32 = x: int | -0x8000_0000 <= x < 0x8000_0000

  function U32(x: nat): (r: u32)
    requires x < 0x2_0000_0000
  {
    if x < 0x1_0000_0000 then x else x - 0x1_0000_0000
  }

  function Wrap32(x: int): (r: int32)
    requires -0x1_8000_0000 <= x < 0x1_8000_0000
  {
    if x >= 0x8000_0000 then x - 0x1_0000_0000
    else if x < -0x8000_0000 then x + 0x1_0000_0000
    else x
  }

  predicate FitsInt32(x: int) {
    -0x8000_0000 <= x < 0x8000_0000
  }

  lemma Wrap32IsTwosComplement(x: int)
    requires -0x1_8000_0000 <= x < 0x1_8000_0000
    ensures Wrap32(x) == (x + 0x8000_0000) % 0x1_0000_0000 - 0x8000_0000
    ensures Wrap32(x) == x <==> FitsInt32(x)
  {
  }

  lemma U32IsModulo(x: nat)
    requires x < 0x2_0000_0000
    ensures U32(x) == x % 0x1_0000_0000
  {
  }

  /** `x` and `y` differ by `k` words. */
  predicate Apart(x: int, y: int, k: int) {
    x == y + k * 0x1_0000_0000
  }

  /** Equality modulo 2^32. */
  ghost predicate Congruent(x: int, y: int) {
    exists k: int :: Apart(x, y, k)
  }
}
