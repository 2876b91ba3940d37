/** Machine words. */
module MachineWords {
  type byte = bv8

  type word = bv32

  type long = bv64
}
