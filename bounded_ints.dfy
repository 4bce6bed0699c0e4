/** The machine integer widths the program uses. */
module BoundedInts {

  type uint8 = x: int | 0 <= x < 0x100

  type uint16 = x: int | 0 <= x < 0x1_0000
}
