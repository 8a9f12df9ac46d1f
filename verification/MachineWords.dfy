/** Integer widths of the target. The DSP server is built for a 32-bit processor: it reads the DSP's
    32-bit words through a pointer to unsigned long, so long and unsigned long are 32 bits wide here. */
module MachineWords {

  type u8 = x: int | 0 <= x < 0x100
  type u16 = x: int | 0 <= x < 0x1_0000
  type u32 = x: int | 0 <= x < 0x1_0000_0000

  function Wrap16(x: int): u16 {
    x % 0x1_0000
  }

  function Wrap32(x: int): u32 {
    x % 0x1_0000_0000
  }

  /** Conversion to the signed 16-bit type. */
  function ToShort(x: int): int {
    var w := Wrap16(x);
    if w < 0x8000 then w else w - 0x1_0000
  }

  /** Conversion to the signed 32-bit types int and long. */
  function ToInt32(x: int): int {
    var w := Wrap32(x);
    if w < 0x8000_0000 then w else w - 0x1_0000_0000
  }

  lemma WrapAdd(a: int, b: int)
    ensures Wrap32(Wrap32(a) + b) == Wrap32(a + b)
  {
    assert a == Wrap32(a) + 0x1_0000_0000 * (a / 0x1_0000_0000);
  }
}
