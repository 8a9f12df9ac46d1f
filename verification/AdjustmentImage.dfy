/** The stored form of adjustment data: a big-endian size and checksum in front of the payload. The checksum function
    is a parameter. */
module AdjustmentImage {
  import opened MachineWords
  import opened EepromI2c

  type Crc = Bytes -> u16

  const HEADER_LEN: nat := 6

  function Be16(n: u16): (b: Bytes)
    ensures |b| == 2
  {
    [n / 0x100, n % 0x100]
  }

  function Be32(n: u32): (b: Bytes)
    ensures |b| == 4
  {
    Be16(n / 0x1_0000) + Be16(n % 0x1_0000)
  }

  function ReadBe16(b: Bytes, at: nat): u16
    requires at + 2 <= |b|
  {
    var high: int, low: int := b[at], b[at + 1];
    high * 0x100 + low
  }

  function ReadBe32(b: Bytes, at: nat): u32
    requires at + 4 <= |b|
  {
    var high: int, low: int := ReadBe16(b, at), ReadBe16(b, at + 2);
    high * 0x1_0000 + low
  }

  lemma Be32ReadsBack(n: u32, tail: Bytes)
    ensures ReadBe32(Be32(n) + tail, 0) == n
  {
    var b := Be32(n) + tail;
    assert b[0] == n / 0x1_0000 / 0x100 && b[1] == n / 0x1_0000 % 0x100;
    assert b[2] == n % 0x1_0000 / 0x100 && b[3] == n % 0x1_0000 % 0x100;
  }

  /** Stream writes into a buffer; they extend a buffer that is too short, but never skip past its end. */
  function SetChecksum(ba: Bytes, checksum: u16): (r: Bytes)
    ensures |ba| >= HEADER_LEN ==> |r| == |ba|
  {
    if |ba| < 4 then ba else ba[..4] + Be16(checksum) + if |ba| > HEADER_LEN then ba[HEADER_LEN..] else []
  }

  function SetCount(ba: Bytes): (r: Bytes)
    ensures |ba| >= 4 ==> |r| == |ba|
  {
    Be32(Wrap32(|ba|)) + if |ba| > 4 then ba[4..] else []
  }

  /** The checksum is taken while its own field holds zero. */
  function Zeroed(ba: Bytes): Bytes {
    SetChecksum(ba, 0)
  }

  function Sealed(crc: Crc, ba: Bytes): Bytes {
    var b := Zeroed(SetCount(ba));
    SetChecksum(b, crc(b))
  }

  /** An image as the write function leaves it on the chip, read with its own header. */
  predicate IsImage(crc: Crc, image: Bytes) {
    && HEADER_LEN <= |image|
    && ReadBe32(image, 0) == |image|
    && ReadBe16(image, 4) == crc(Zeroed(image))
  }

  lemma ReadBe16Inverts(b: Bytes, at: nat)
    requires at + 2 <= |b|
    ensures Be16(ReadBe16(b, at)) == b[at..at + 2]
  {
    var high: int, low: int := b[at], b[at + 1];
    assert (high * 0x100 + low) / 0x100 == high && (high * 0x100 + low) % 0x100 == low;
  }

  lemma ReadBe32Inverts(b: Bytes, at: nat)
    requires at + 4 <= |b|
    ensures Be32(ReadBe32(b, at)) == b[at..at + 4]
  {
    ReadBe16Inverts(b, at);
    ReadBe16Inverts(b, at + 2);
    var high: int, low: int := ReadBe16(b, at), ReadBe16(b, at + 2);
    assert (high * 0x1_0000 + low) / 0x1_0000 == high && (high * 0x1_0000 + low) % 0x1_0000 == low;
    assert b[at..at + 4] == b[at..at + 2] + b[at + 2..at + 4];
  }

  lemma SetChecksumTwice(ba: Bytes, a: u16, b: u16)
    requires |ba| >= HEADER_LEN
    ensures SetChecksum(SetChecksum(ba, a), b) == SetChecksum(ba, b)
  {
    assert SetChecksum(ba, a)[..4] == ba[..4];
    assert SetChecksum(ba, a)[HEADER_LEN..] == ba[HEADER_LEN..];
  }

  lemma OwnChecksum(ba: Bytes)
    requires |ba| >= HEADER_LEN
    ensures SetChecksum(ba, ReadBe16(ba, 4)) == ba
  {
    ReadBe16Inverts(ba, 4);
    assert ba == ba[..4] + ba[4..6] + ba[6..];
  }

  lemma OwnCount(ba: Bytes)
    requires |ba| >= 4 && ReadBe32(ba, 0) == |ba|
    ensures SetCount(ba) == ba
  {
    hide Be32, ReadBe32;
    ReadBe32Inverts(ba, 0);
    assert ba == ba[..4] + ba[4..];
    assert ba[0..4] == ba[..4];
  }

  lemma ZeroedKeepsCount(ba: Bytes)
    requires |ba| >= HEADER_LEN
    ensures ReadBe32(Zeroed(ba), 0) == ReadBe32(ba, 0)
  {
    assert Zeroed(ba)[..4] == ba[..4];
    assert forall i :: 0 <= i < 4 ==> Zeroed(ba)[i] == ba[i];
  }

  /** What is sealed is an image, with the payload untouched. */
  lemma SealedIsImage(crc: Crc, ba: Bytes)
    requires HEADER_LEN <= |ba| < 0x1_0000_0000
    ensures IsImage(crc, Sealed(crc, ba)) && |Sealed(crc, ba)| == |ba|
    ensures Sealed(crc, ba)[HEADER_LEN..] == ba[HEADER_LEN..]
  {
    hide Be32, ReadBe32, ReadBe16, SetChecksum, SetCount;
    var counted := SetCount(ba);
    var b := Zeroed(counted);
    var image := SetChecksum(b, crc(b));
    CountReadsBack(ba);
    ZeroedPayload(counted, crc(b));
    SetChecksumTwice(counted, 0, crc(b));
    SetChecksumTwice(counted, crc(b), 0);
    ZeroedKeepsCount(image);
    ZeroedKeepsCount(counted);
    ChecksumReadsBack(b, crc(b));
    assert Zeroed(image) == b;
  }

  lemma CountReadsBack(ba: Bytes)
    requires HEADER_LEN <= |ba| < 0x1_0000_0000
    ensures |SetCount(ba)| == |ba| && ReadBe32(SetCount(ba), 0) == |ba| && SetCount(ba)[HEADER_LEN..] == ba[HEADER_LEN..]
  {
    Be32ReadsBack(|ba|, ba[4..]);
    hide Be32, ReadBe32;
    assert Wrap32(|ba|) == |ba|;
  }

  lemma ZeroedPayload(ba: Bytes, checksum: u16)
    requires |ba| >= HEADER_LEN
    ensures |SetChecksum(SetChecksum(ba, 0), checksum)| == |SetChecksum(ba, 0)| == |ba|
    ensures SetChecksum(SetChecksum(ba, 0), checksum)[HEADER_LEN..] == ba[HEADER_LEN..]
  {
    SetChecksumTwice(ba, 0, checksum);
  }

  lemma ChecksumReadsBack(ba: Bytes, checksum: u16)
    requires |ba| >= HEADER_LEN
    ensures ReadBe16(SetChecksum(ba, checksum), 4) == checksum
  {
    var r := SetChecksum(ba, checksum);
    assert r[4] == checksum / 0x100 && r[5] == checksum % 0x100;
  }

  /** The cache file: re-sealing what a chip read validated gives back the chip image byte for byte. */
  lemma ResealedImage(crc: Crc, image: Bytes)
    requires IsImage(crc, image)
    ensures Sealed(crc, Zeroed(image)) == image
  {
    var z := Zeroed(image);
    ZeroedKeepsCount(image);
    OwnCount(z);
    SetChecksumTwice(image, 0, 0);
    SetChecksumTwice(image, 0, crc(z));
    OwnChecksum(image);
  }

  /** A cache file that passes its check is the chip image, provided the checksum tells the two apart if they differ. */
  lemma CacheIsImage(crc: Crc, image: Bytes, file: Bytes)
    requires IsImage(crc, image) && |file| == |image| && crc(Zeroed(file)) == ReadBe16(image, 4)
    requires crc(Zeroed(file)) == crc(Zeroed(image)) ==> Zeroed(file) == Zeroed(image)
    ensures SetChecksum(Zeroed(file), ReadBe16(image, 4)) == image
    ensures SetChecksum(Zeroed(file), ReadBe16(image, 4))[HEADER_LEN..] == Zeroed(image)[HEADER_LEN..]
  {
    SetChecksumTwice(image, 0, ReadBe16(image, 4));
    OwnChecksum(image);
    assert Zeroed(image)[HEADER_LEN..] == image[HEADER_LEN..];
  }

  // ---------- the stored form byte by byte

  /** The bytes with a zero checksum field. */
  function Blank(image: Bytes): Bytes
    requires |image| >= HEADER_LEN
  {
    image[..4] + [0, 0] + image[6..]
  }

  /** Four bytes of size and two of checksum, high byte first; the checksum is that of the image with zeros in its place. */
  predicate SealedBytes(crc: Crc, image: Bytes) {
    && |image| >= HEADER_LEN
    && image[0] as int * 0x100_0000 + image[1] as int * 0x1_0000 + image[2] as int * 0x100 + image[3] as int == |image|
    && image[4] as int * 0x100 + image[5] as int == crc(Blank(image)) as int
  }

  lemma ZeroedIsBlank(ba: Bytes)
    requires |ba| >= HEADER_LEN
    ensures Zeroed(ba) == Blank(ba)
    ensures |Zeroed(ba)| == |ba| && Zeroed(ba)[4] == 0 && Zeroed(ba)[5] == 0
    ensures forall i :: 0 <= i < |ba| && i != 4 && i != 5 ==> Zeroed(ba)[i] == ba[i]
  {
  }

  /** An image is what has these bytes, and nothing else is. */
  lemma ImageInBytes(crc: Crc, image: Bytes)
    ensures IsImage(crc, image) <==> SealedBytes(crc, image)
  {
    if |image| >= HEADER_LEN {
      ZeroedIsBlank(image);
    }
    hide Zeroed, Blank;
  }

  /** Sealing writes exactly these bytes and leaves all others. */
  lemma SealedInBytes(crc: Crc, ba: Bytes)
    requires HEADER_LEN <= |ba| < 0x1_0000_0000
    ensures SealedBytes(crc, Sealed(crc, ba)) && |Sealed(crc, ba)| == |ba| && Sealed(crc, ba)[6..] == ba[6..]
  {
    hide Sealed, SealedBytes, IsImage;
    SealedIsImage(crc, ba);
    ImageInBytes(crc, Sealed(crc, ba));
  }
}
