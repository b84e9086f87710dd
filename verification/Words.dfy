/** The machine widths that matter. */
module Words {

  const U32: nat := 0x1_0000_0000
  const U64: nat := 0x1_0000_0000_0000_0000

  type Byte = bv8

  const NUL: Byte := 0
}
