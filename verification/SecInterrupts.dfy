/** Interrupt registers of the channels: four bits each, two channels a byte, read in whole 32-bit words. */
module SecInterrupts {
  import opened BitWords

  function ByteCount(ecChannelCount: nat): nat {
    ecChannelCount / 2 + if ecChannelCount % 2 != 0 then 1 else 0
  }

  function StuffedCount(byteCount: nat): nat {
    (byteCount / 4 + if byteCount % 4 != 0 then 1 else 0) * 4
  }

  lemma BytesForHalves(n: nat)
    ensures 2 * ByteCount(n) - 1 <= n <= 2 * ByteCount(n)
  {
  }

  lemma WholeWords(n: nat)
    ensures StuffedCount(n) % 4 == 0 && n <= StuffedCount(n) < n + 4
  {
  }

  /** The read is made of whole words, covers every index used, and is no word longer than needed. */
  lemma EveryIndexIsRead(ecChannelCount: nat)
    ensures var n := StuffedCount(ByteCount(ecChannelCount));
            n % 4 == 0 && 2 * n < ecChannelCount + 8 && forall c: nat :: c < ecChannelCount ==> c / 2 < n
  {
    BytesForHalves(ecChannelCount);
    WholeWords(ByteCount(ecChannelCount));
    hide ByteCount, StuffedCount;
  }

  function ShiftDown(s: set<int>, n: nat): set<int> {
    set b <- s :: b - n
  }

  function UpperHalf(b: Byte): (r: Nibble)
  {
    var s := ShiftDown(b * Field(4, 8), 4);
    assert forall k <- s :: 0 <= k < 4;
    s
  }

  lemma ShiftedDown(s: set<int>, n: nat, b: int)
    ensures b in ShiftDown(s, n) <==> b + n in s
  {
    if b + n in s {
      assert b + n - n in ShiftDown(s, n);
    }
  }

  function Unpacked(regs: seq<Byte>, channel: nat): Nibble
    requires channel / 2 < |regs|
  {
    if channel % 2 == 0 then regs[channel / 2] * Field(0, 4)
    else UpperHalf(regs[channel / 2])
  }

  /** Bit k of a channel is bit k of its byte, or four bits further up for an odd channel. */
  lemma UnpackedBits(regs: seq<Byte>, channel: nat, k: int)
    requires channel / 2 < |regs|
    ensures k in Unpacked(regs, channel) <==> 0 <= k < 4 && k + 4 * (channel % 2) in regs[channel / 2]
  {
    ShiftedDown(regs[channel / 2] * Field(4, 8), 4, k);
  }

  /** How the hardware lays the registers out: even channels in the lower half of a byte, odd ones in the upper half. */
  function PackedByte(low: Nibble, high: Nibble): Byte {
    low + ShiftUp(high, 4)
  }

  function NibbleOf(nibbles: seq<Nibble>, c: nat): Nibble {
    if c < |nibbles| then nibbles[c] else {}
  }

  function Packed(nibbles: seq<Nibble>): seq<Byte> {
    seq(StuffedCount(ByteCount(|nibbles|)), i requires 0 <= i =>
      PackedByte(NibbleOf(nibbles, 2 * i), NibbleOf(nibbles, 2 * i + 1)))
  }

  lemma HalvesOf(low: Nibble, high: Nibble)
    ensures PackedByte(low, high) * Field(0, 4) == low
    ensures UpperHalf(PackedByte(low, high)) == high
  {
    hide Field;
    var b := PackedByte(low, high);
    forall k ensures k in b * Field(0, 4) <==> k in low {
      Shifted(high, 4, k);
    }
    forall k ensures k in ShiftDown(b * Field(4, 8), 4) <==> k in high {
      ShiftedDown(b * Field(4, 8), 4, k);
      Shifted(high, 4, k + 4);
    }
  }

  /** Each channel sees its own register, whatever the number of channels. */
  lemma UnpackInvertsPack(nibbles: seq<Nibble>, c: nat)
    requires c < |nibbles|
    ensures c / 2 < |Packed(nibbles)| && Unpacked(Packed(nibbles), c) == nibbles[c]
  {
    EveryIndexIsRead(|nibbles|);
    hide StuffedCount, ByteCount, PackedByte;
    var i := c / 2;
    HalvesOf(NibbleOf(nibbles, 2 * i), NibbleOf(nibbles, 2 * i + 1));
    assert Packed(nibbles)[i] == PackedByte(NibbleOf(nibbles, 2 * i), NibbleOf(nibbles, 2 * i + 1));
    assert c == 2 * i || c == 2 * i + 1;
  }
}
