/** The interrupt handler of the error calculator server. */
module Sec1000dServers {
  import opened BitWords
  import opened NotificationValues
  import opened SecChannels
  import opened SecInterrupts

  /** The interrupt registers behind the device node. How many bytes a read delivers, one number per read, is not under
      the server's control. */
  class SecDeviceNode {
    var irqBytes: seq<Byte>
    var step: nat
    const delivers: nat -> nat

    constructor (irqBytes: seq<Byte>, delivers: nat -> nat)
      ensures this.irqBytes == irqBytes && this.delivers == delivers && step == 0
    {
      this.irqBytes, this.delivers, step := irqBytes, delivers, 0;
    }

    /** Fills a buffer of zeros as far as bytes are delivered. */
    method Read(count: nat) returns (buffer: seq<Byte>)
      modifies this`step
      ensures step == old(step) + 1 && buffer == Received(irqBytes, delivers(old(step)), count)
    {
      buffer := Received(irqBytes, delivers(step), count);
      step := step + 1;
    }
  }

  function Received(irqBytes: seq<Byte>, delivered: nat, count: nat): (r: seq<Byte>)
    ensures |r| == count
  {
    seq(count, i requires 0 <= i => if i < delivered && i < |irqBytes| then irqBytes[i] else {})
  }

  lemma CompleteRead(irqBytes: seq<Byte>, delivered: nat, count: nat)
    requires count <= delivered && count <= |irqBytes|
    ensures Received(irqBytes, delivered, count) == irqBytes[..count]
  {
  }

  /** What one register value does to the notifier of a channel. */
  ghost predicate Notified(was: Word, wasAnnounced: seq<Word>, now: Word, nowAnnounced: seq<Word>, reg: Nibble) {
    && now == was + reg
    && nowAnnounced == wasAnnounced + if reg - was == {} then [] else [reg - was]
  }

  class Sec1000dServer {
    const channels: seq<SecChannel>
    const device: SecDeviceNode

    predicate Valid() {
      forall i, j :: 0 <= i < j < |channels| ==> channels[i] != channels[j] && channels[i].notifier != channels[j].notifier
    }

    constructor (channels: seq<SecChannel>, device: SecDeviceNode)
      requires forall i, j :: 0 <= i < j < |channels| ==>
                 channels[i] != channels[j] && channels[i].notifier != channels[j].notifier
      ensures this.channels == channels && this.device == device && Valid()
    {
      this.channels, this.device := channels, device;
    }

    ghost function Notifiers(): set<NotificationValue> {
      set i | 0 <= i < |channels| :: channels[i].notifier
    }

    /** Every channel is notified of its own register. With a complete read of registers packed by the hardware, this is
        the channel's own value, announced bit by bit where it was not set before. */
    method SECIntHandler()
      requires Valid()
      modifies device`step, Notifiers()
      ensures var regs := Received(device.irqBytes, device.delivers(old(device.step)), StuffedCount(ByteCount(|channels|)));
              forall c: nat :: c < |channels| ==>
                c / 2 < |regs| && Notified(old(channels[c].notifier.value), old(channels[c].notifier.announced),
                                           channels[c].notifier.value, channels[c].notifier.announced, Unpacked(regs, c))
      ensures forall nibbles: seq<Nibble> ::
                |nibbles| == |channels| && device.irqBytes == Packed(nibbles)
                && |device.irqBytes| <= device.delivers(old(device.step)) ==>
                  forall c: nat :: c < |channels| ==>
                    Notified(old(channels[c].notifier.value), old(channels[c].notifier.announced),
                             channels[c].notifier.value, channels[c].notifier.announced, nibbles[c])
    {
      hide Unpacked, StuffedCount, ByteCount, Packed;
      var ecChannelCount := |channels|;
      var bytesToRead := StuffedCount(ByteCount(ecChannelCount));
      EveryIndexIsRead(ecChannelCount);
      var interruptREGS := device.Read(bytesToRead);
      NotifyChannels(interruptREGS);
      forall nibbles: seq<Nibble> |
        |nibbles| == |channels| && device.irqBytes == Packed(nibbles) && |device.irqBytes| <= device.delivers(old(device.step))
        ensures forall c: nat :: c < |channels| ==> Unpacked(interruptREGS, c) == nibbles[c]
      {
        PackedLength(nibbles);
        CompleteRead(device.irqBytes, device.delivers(old(device.step)), bytesToRead);
        assert interruptREGS == Packed(nibbles);
        forall c: nat | c < |channels| ensures Unpacked(interruptREGS, c) == nibbles[c] {
          UnpackInvertsPack(nibbles, c);
        }
      }
    }

    static lemma PackedLength(nibbles: seq<Nibble>)
      ensures |Packed(nibbles)| == StuffedCount(ByteCount(|nibbles|))
    {
    }

    method NotifyChannels(regs: seq<Byte>)
      requires Valid() && forall c: nat :: c < |channels| ==> c / 2 < |regs|
      modifies Notifiers()
      ensures forall c: nat :: c < |channels| ==>
                Notified(old(channels[c].notifier.value), old(channels[c].notifier.announced),
                         channels[c].notifier.value, channels[c].notifier.announced, Unpacked(regs, c))
    {
      hide Unpacked;
      for channel := 0 to |channels|
        invariant forall c: nat :: channel <= c < |channels| ==>
                    channels[c].notifier.value == old(channels[c].notifier.value)
                    && channels[c].notifier.announced == old(channels[c].notifier.announced)
        invariant forall c: nat :: c < channel ==>
                    Notified(old(channels[c].notifier.value), old(channels[c].notifier.announced),
                             channels[c].notifier.value, channels[c].notifier.announced, Unpacked(regs, c))
      {
        var irqRegVal := Unpacked(regs, channel);
        RisingIsNew(channels[channel].notifier.value, irqRegVal);
        channels[channel].SetIntReg(irqRegVal);
      }
    }

    static lemma RisingIsNew(value: Word, reg: Nibble)
      ensures Rising(value, Set(reg)) == reg - value && Updated(value, Set(reg)) == value + reg
    {
    }
  }
}
