/** Unsigned machine integers that the program computes with as numbers. */
module Words {
  type octet = n: int | 0 <= n < 256
  type uint16 = n: int | 0 <= n < 0x1_0000
  type uint32 = n: int | 0 <= n < 0x1_0000_0000
  type uint64 = n: int | 0 <= n < 0x1_0000_0000_0000_0000

  /** Arithmetic in 16 and in 32 bits. */
  function Wrap16(n: int): uint16 { n % 0x1_0000 }
  function Wrap32(n: int): uint32 { n % 0x1_0000_0000 }
}
