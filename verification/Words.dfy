/** 32-bit machine words as bounded integers. */
module Words {
  const MODULUS_32: int := 0x1_0000_0000

  type Word = x: int | 0 <= x < MODULUS_32

  /** Reduction modulo 2^32, as unsigned C arithmetic does it. */
  function Wrap(x: int): Word {
    x % MODULUS_32
  }

  /** The word read as a two's complement number. */
  function Signed(x: Word): int {
    if x < 0x8000_0000 then x else x - MODULUS_32
  }

  /** -1 for true, 0 for false. */
  function Truth(b: bool): Word {
    if b then 0xFFFF_FFFF else 0
  }
}
