/** The configured channels and the 16-bit plug masks. */
module SenseSettings {

  /** The numbers of the bits set in a 16-bit word. */
  type Bits = s: set<int> | forall b <- s :: 0 <= b < 16

  datatype Setting = Setting(ctrlChannel: int, plugBit: int, muxChannel: int, nameMx: string)
}
