// Machine integers as ranges of the mathematical ones.
module MachineInts {
  type Byte = b: int | 0 <= b < 0x100
  type U16 = u: int | 0 <= u < 0x1_0000
  type U32 = u: int | 0 <= u < 0x1_0000_0000
  type U64 = u: int | 0 <= u < 0x1_0000_0000_0000_0000
}
