/** Numbers kept in 32 bits. */
module Words {

  function Wrap(x: int): nat { x % 0x1_0000_0000 }

  /** Read as a signed number. */
  function Signed(x: int): int {
    if Wrap(x) >= 0x8000_0000 then Wrap(x) - 0x1_0000_0000 else Wrap(x)
  }
}
