module Numbers {
  const U64_MAX: nat := 0xffff_ffff_ffff_ffff
  const I64_MAX: nat := 0x7fff_ffff_ffff_ffff
  const I64_MIN := -0x8000_0000_0000_0000

  function Least(a: int, b: int): int {
    if a < b then a else b
  }

  function Bit(b: bool): nat {
    if b then 1 else 0
  }
}
