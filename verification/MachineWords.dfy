// The sizes of machine words, which the models count with mathematical integers.
module MachineWords {
  const TWO32: nat := 0x1_0000_0000
  const TWO48: nat := 0x1_0000_0000_0000
  const TWO64: nat := 0x1_0000_0000_0000_0000
}
