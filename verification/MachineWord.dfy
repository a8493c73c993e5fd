/** Unsigned integers of 32 bits. */
module MachineWord {

  const WORD := 0x1_0000_0000

  type Word = x: int | 0 <= x < WORD
}
