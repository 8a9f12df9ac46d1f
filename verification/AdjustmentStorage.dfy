/** Adjustment data on an EEPROM with an optional cache file beside it. */
module AdjustmentStorage {
  import opened MachineWords
  import opened Wrappers
  import opened EepromI2c
  import opened EepromDriver
  import opened AdjustmentImage

  datatype DiskAnswer = Fine | NoPath | NotOpened | Short(n: nat)

  /** The cache directory. The answers to its operations, one per step, are not under the service's control. */
  class CacheDir {
    var files: map<string, Bytes>
    var step: nat
    const answers: nat -> DiskAnswer

    constructor (files: map<string, Bytes>, answers: nat -> DiskAnswer)
      ensures this.files == files && this.answers == answers && step == 0
    {
      this.files, this.answers, step := files, answers, 0;
    }

    method ReadAll(name: string) returns (r: Option<Bytes>)
      modifies this`step
      ensures step == old(step) + 1
      ensures r == if name in files && answers(old(step)) == Fine then Some(files[name]) else None
    {
      r := if name in files && answers(step) == Fine then Some(files[name]) else None;
      step := step + 1;
    }

    /** Removes the file and opens a new one. */
    method Recreate(name: string) returns (created: bool)
      modifies this
      ensures step == old(step) + 1
      ensures created == !(answers(old(step)).NoPath? || answers(old(step)).NotOpened?)
      ensures files == if answers(old(step)).NoPath? then old(files)
                       else if answers(old(step)).NotOpened? then old(files) - {name}
                       else old(files)[name := []]
    {
      var a := answers(step);
      step := step + 1;
      created := false;
      if !a.NoPath? {
        files := files - {name};
        if !a.NotOpened? {
          files := files[name := []];
          created := true;
        }
      }
    }

    method Write(name: string, data: Bytes) returns (written: nat)
      modifies this
      ensures step == old(step) + 1 && written <= |data| && files == old(files)[name := data[..written]]
      ensures answers(old(step)) == Fine ==> written == |data|
    {
      var a := answers(step);
      step := step + 1;
      written := if a.Short? && a.n < |data| then a.n else |data|;
      files := files[name := data[..written]];
    }
  }

  /** The size in the chip's header; only meaningful on an adjusted chip. */
  function StoredSize(mem: Bytes): nat
    requires |mem| >= HEADER_LEN
  {
    ReadBe32(mem, 0)
  }

  function StoredChecksum(mem: Bytes): u16
    requires |mem| >= HEADER_LEN
  {
    ReadBe16(mem, 4)
  }

  /** The chip holds an image. */
  predicate Adjusted(crc: Crc, mem: Bytes) {
    && |mem| >= HEADER_LEN
    && HEADER_LEN <= StoredSize(mem) <= |mem|
    && IsImage(crc, mem[..StoredSize(mem)])
  }

  /** The image can be read back: its size, passed on as a 16-bit count, does not wrap. */
  predicate Readable(crc: Crc, mem: Bytes) {
    Adjusted(crc, mem) && StoredSize(mem) < 0x1_0000
  }

  /** Data read from the chip and found valid. */
  predicate FromChip(crc: Crc, mem: Bytes, data: Bytes) {
    && |mem| >= HEADER_LEN
    && StoredSize(mem) <= |mem| && StoredSize(mem) < 0x1_0000
    && data == Zeroed(mem[..StoredSize(mem)])
    && crc(data) == StoredChecksum(mem)
  }

  /** The cache file fits the header of the chip. */
  predicate CacheFits(crc: Crc, mem: Bytes, files: map<string, Bytes>, name: string) {
    && |mem| >= HEADER_LEN && StoredSize(mem) <= |mem|
    && name != "" && name in files && |files[name]| == StoredSize(mem)
    && crc(Zeroed(files[name])) == StoredChecksum(mem)
  }

  /** Data read from a fitting cache file, with the checksum put back. */
  predicate FromCache(crc: Crc, mem: Bytes, files: map<string, Bytes>, name: string, data: Bytes) {
    && CacheFits(crc, mem, files, name)
    && data == SetChecksum(Zeroed(files[name]), StoredChecksum(mem))
  }

  lemma HeaderOfPrefix(mem: Bytes, n: nat)
    requires HEADER_LEN <= n <= |mem|
    ensures ReadBe32(mem[..n], 0) == ReadBe32(mem, 0) && ReadBe16(mem[..n], 4) == ReadBe16(mem, 4)
  {
    assert forall i :: 0 <= i < HEADER_LEN ==> mem[..n][i] == mem[i];
  }

  /** A valid chip read of at least a header means that the chip holds an image, and the other way round. */
  lemma ValidReadIsImage(crc: Crc, mem: Bytes)
    requires |mem| >= HEADER_LEN && HEADER_LEN <= StoredSize(mem) <= |mem| && StoredSize(mem) < 0x1_0000
    ensures FromChip(crc, mem, Zeroed(mem[..StoredSize(mem)])) <==> Adjusted(crc, mem)
  {
    HeaderOfPrefix(mem, StoredSize(mem));
  }

  /** The cache file made from a valid chip read is the chip image byte for byte, if and only if the stored size covers
      the header. */
  lemma CacheFileIsChipImage(crc: Crc, mem: Bytes, data: Bytes)
    requires FromChip(crc, mem, data)
    ensures Sealed(crc, data) == mem[..StoredSize(mem)] <==> StoredSize(mem) >= HEADER_LEN
  {
    if StoredSize(mem) >= HEADER_LEN {
      ValidReadIsImage(crc, mem);
      ResealedImage(crc, mem[..StoredSize(mem)]);
    } else {
      assert |data| <= HEADER_LEN;
      assert |Sealed(crc, data)| == HEADER_LEN;
    }
  }

  /** A cached read gives the same payload as a read of the chip, provided the checksum tells the file from the image
      if they differ. */
  lemma CachedReadAgrees(crc: Crc, mem: Bytes, files: map<string, Bytes>, name: string, cached: Bytes, fromChip: Bytes)
    requires FromCache(crc, mem, files, name, cached) && FromChip(crc, mem, fromChip)
    requires StoredSize(mem) >= HEADER_LEN
    requires crc(Zeroed(files[name])) == crc(fromChip) ==> Zeroed(files[name]) == fromChip
    ensures files[name][..4] == mem[..4] && cached == mem[..StoredSize(mem)]
    ensures cached[HEADER_LEN..] == fromChip[HEADER_LEN..]
  {
    var image := mem[..StoredSize(mem)];
    HeaderOfPrefix(mem, StoredSize(mem));
    CacheIsImage(crc, image, files[name]);
    assert files[name][..4] == Zeroed(files[name])[..4] == Zeroed(image)[..4] == image[..4];
  }

  /** And it is accepted: the cache file that a chip read leaves passes its check against the same chip. */
  lemma OwnCacheFileIsAccepted(crc: Crc, mem: Bytes, files: map<string, Bytes>, name: string, data: Bytes)
    requires FromChip(crc, mem, data) && StoredSize(mem) >= HEADER_LEN
    requires name != "" && name in files && files[name] == Sealed(crc, data)
    ensures FromCache(crc, mem, files, name, mem[..StoredSize(mem)])
  {
    var image := mem[..StoredSize(mem)];
    CacheFileIsChipImage(crc, mem, data);
    HeaderOfPrefix(mem, StoredSize(mem));
    SetChecksumTwice(image, 0, StoredChecksum(mem));
    OwnChecksum(image);
  }

  /** A complete write leaves the chip adjusted with the written payload. */
  lemma WriteLeavesImage(crc: Crc, mem: Bytes, data: Bytes)
    requires HEADER_LEN <= |data| <= |mem| && |data| < 0x1_0000
    ensures var after := FlatWrite(mem, 0, Sealed(crc, data));
            Adjusted(crc, after) && StoredSize(after) == |data| && after[HEADER_LEN..|data|] == data[HEADER_LEN..]
  {
    var image := Sealed(crc, data);
    var after := FlatWrite(mem, 0, image);
    SealedIsImage(crc, data);
    assert after[..|data|] == image;
    HeaderOfPrefix(after, |data|);
    assert after[HEADER_LEN..|data|] == image[HEADER_LEN..];
  }

  // The laws of the stored form, byte by byte

  /** The first n bytes of the chip are a sealed image. */
  predicate ChipHolds(crc: Crc, mem: Bytes, n: nat) {
    n <= |mem| && SealedBytes(crc, mem[..n])
  }

  lemma HeldIsStored(crc: Crc, mem: Bytes, n: nat)
    requires ChipHolds(crc, mem, n) && n < 0x1_0000
    ensures Readable(crc, mem) && StoredSize(mem) == n && n >= HEADER_LEN
  {
    ImageInBytes(crc, mem[..n]);
    HeaderOfPrefix(mem, n);
    hide SealedBytes, Zeroed;
  }

  /** What can be read back is what starts with a sealed image of fewer than 65536 bytes. */
  lemma ReadableInBytes(crc: Crc, mem: Bytes)
    ensures Readable(crc, mem) <==> exists n: nat :: n < 0x1_0000 && ChipHolds(crc, mem, n)
  {
    if Readable(crc, mem) {
      ImageInBytes(crc, mem[..StoredSize(mem)]);
      assert ChipHolds(crc, mem, StoredSize(mem));
    }
    hide Readable, SealedBytes;
    forall n: nat | n < 0x1_0000 && ChipHolds(crc, mem, n) ensures Readable(crc, mem) {
      HeldIsStored(crc, mem, n);
    }
  }

  /** Data read from such a chip is the image with a zero checksum field. */
  lemma FromChipInBytes(crc: Crc, mem: Bytes, n: nat, data: Bytes)
    requires ChipHolds(crc, mem, n) && n < 0x1_0000
    ensures FromChip(crc, mem, data) <==> data == mem[..4] + [0, 0] + mem[6..n]
  {
    HeldIsStored(crc, mem, n);
    ZeroedIsBlank(mem[..n]);
    HeaderOfPrefix(mem, n);
    assert Blank(mem[..n]) == mem[..4] + [0, 0] + mem[6..n];
    ImageInBytes(crc, mem[..n]);
    hide Zeroed, SealedBytes;
  }

  /** A complete write leaves exactly the sealed form, with the payload untouched. */
  lemma WriteLeavesBytes(crc: Crc, mem: Bytes, data: Bytes)
    requires HEADER_LEN <= |data| <= |mem| && |data| < 0x1_0000
    ensures var after := FlatWrite(mem, 0, Sealed(crc, data));
            ChipHolds(crc, after, |data|) && after[6..|data|] == data[6..] && |after| == |mem| && after[|data|..] == mem[|data|..]
  {
    SealedInBytes(crc, data);
    hide Sealed, SealedBytes;
    var after := FlatWrite(mem, 0, Sealed(crc, data));
    assert after[..|data|] == Sealed(crc, data);
    assert after[6..|data|] == Sealed(crc, data)[6..];
  }

  lemma SealedKeepsLength(crc: Crc, ba: Bytes)
    requires |ba| >= HEADER_LEN
    ensures |Sealed(crc, ba)| == |ba|
  {
  }

  lemma FlatReadFront(mem: Bytes, size: nat)
    requires size <= |mem|
    ensures FlatRead(mem, 0, size) == mem[..size]
  {
  }

  class AdjustmentEepromReadWrite {
    const eeprom: EepromI2c24LCxxx
    const cache: CacheDir
    const crc: Crc
    var adjData: Bytes
    var checksum: u16
    var adjDataReadIsValid: bool

    constructor (eeprom: EepromI2c24LCxxx, cache: CacheDir, crc: Crc)
      ensures this.eeprom == eeprom && this.cache == cache && this.crc == crc
      ensures adjData == [] && checksum == 0 && !adjDataReadIsValid
    {
      this.eeprom, this.cache, this.crc := eeprom, cache, crc;
      adjData, checksum, adjDataReadIsValid := [], 0, false;
    }

    predicate Valid()
      reads eeprom.chip
    {
      eeprom.Valid()
    }

    method ReadSizeAndChecksum() returns (ok: bool, size: u32)
      requires Valid()
      modifies this`checksum, eeprom.chip`step
      ensures Valid() && eeprom.chip.step >= old(eeprom.chip.step)
      ensures ok ==> size == StoredSize(eeprom.chip.mem) <= eeprom.byteCapacity && checksum == StoredChecksum(eeprom.chip.mem)
      ensures FaultFree(eeprom.chip.answers, old(eeprom.chip.step)) ==>
                ok == (StoredSize(eeprom.chip.mem) <= eeprom.byteCapacity)
    {
      ok, size := false, 0;
      var header := eeprom.ReadData(HEADER_LEN, 0);
      if |header| != HEADER_LEN {
        return;
      }
      assert header == eeprom.chip.mem[..HEADER_LEN];
      HeaderOfPrefix(eeprom.chip.mem, HEADER_LEN);
      size := ReadBe32(header, 0);
      checksum := ReadBe16(header, 4);
      ok := size <= eeprom.byteCapacity;
    }

    method ReadAllAndValidateFromChip(size: u32) returns (ok: bool, ba: Bytes)
      requires Valid() && size <= eeprom.byteCapacity
      modifies eeprom.chip`step
      ensures Valid() && eeprom.chip.step >= old(eeprom.chip.step)
      ensures ok ==> size < 0x1_0000 && ba == Zeroed(eeprom.chip.mem[..size]) && crc(ba) == checksum
      ensures FaultFree(eeprom.chip.answers, old(eeprom.chip.step)) && size < 0x1_0000 ==>
                ok == (crc(Zeroed(eeprom.chip.mem[..size])) == checksum)
    {
      hide FlatRead, ReadRolling, SetChecksum, FaultFree;
      ok := false;
      ba := eeprom.ReadData(Wrap16(size), 0);
      if |ba| < size {
        return;
      }
      FlatReadFront(eeprom.chip.mem, size);
      ba := SetChecksum(ba, 0);
      ok := crc(ba) == checksum;
    }

    method ReadAllAndValidateFromCache(size: u32, name: string) returns (ok: bool, ba: Bytes)
      modifies cache`step
      ensures cache.step >= old(cache.step)
      ensures ok ==> name != "" && name in cache.files && |cache.files[name]| == size
                     && crc(Zeroed(cache.files[name])) == checksum && ba == SetChecksum(Zeroed(cache.files[name]), checksum)
      ensures cache.answers(old(cache.step)) == Fine ==>
                ok == (name != "" && name in cache.files && |cache.files[name]| == size
                       && crc(Zeroed(cache.files[name])) == checksum)
    {
      ok, ba := false, [];
      if name == "" {
        return;
      }
      var file := cache.ReadAll(name);
      if file.Some? && |file.value| == size {
        var cacheData := SetChecksum(file.value, 0);
        var sum := crc(cacheData);
        if sum == checksum {
          ba := SetChecksum(cacheData, sum);
          ok := true;
        }
      }
    }

    method SetCountAndChecksum(ba: Bytes) returns (r: Bytes)
      modifies this`checksum
      ensures r == Sealed(crc, ba) && checksum == crc(Zeroed(SetCount(ba)))
    {
      r := SetCount(ba);
      r := SetChecksum(r, 0);
      checksum := crc(r);
      r := SetChecksum(r, checksum);
    }

    /** No file but the named one changes; that one is afterwards missing, as it was, or a prefix of the sealed data. */
    method WriteRawDataToCache(ba: Bytes, name: string)
      modifies this`checksum, cache
      ensures name == "" ==> cache.files == old(cache.files)
      ensures cache.files - {name} == old(cache.files) - {name}
      ensures name in cache.files ==> cache.files[name] <= Sealed(crc, ba) || cache.files == old(cache.files)
      ensures name != "" && cache.answers(old(cache.step)) == Fine && cache.answers(old(cache.step) + 1) == Fine ==>
                cache.files == old(cache.files)[name := Sealed(crc, ba)]
    {
      if name == "" {
        return;
      }
      var created := cache.Recreate(name);
      if created {
        var image := SetCountAndChecksum(ba);
        var written := cache.Write(name, image);
        assert image[..written] <= image && image[..|image|] == image;
      }
    }

    /** Valid data is kept. Otherwise the cache file is preferred, then the chip, and a chip read renews the file. */
    method ReadDataCached(name: string) returns (ok: bool)
      requires Valid()
      modifies this, eeprom.chip`step, cache
      ensures Valid() && ok == adjDataReadIsValid
      ensures old(adjDataReadIsValid) ==> ok && adjData == old(adjData) && cache.files == old(cache.files)
      ensures !old(adjDataReadIsValid) && ok ==>
                || FromCache(crc, eeprom.chip.mem, old(cache.files), name, adjData)
                || FromChip(crc, eeprom.chip.mem, adjData)
      ensures !old(adjDataReadIsValid) && ok && cache.answers(old(cache.step)) == Fine ==>
                CacheFits(crc, eeprom.chip.mem, old(cache.files), name) ==>
                  FromCache(crc, eeprom.chip.mem, old(cache.files), name, adjData)
      ensures !ok ==> adjData == old(adjData) && cache.files == old(cache.files)
      ensures cache.files - {name} == old(cache.files) - {name} && (name == "" ==> cache.files == old(cache.files))
      ensures cache.files != old(cache.files) ==> FromChip(crc, eeprom.chip.mem, adjData)
      ensures cache.files != old(cache.files) && name in cache.files ==> cache.files[name] <= Sealed(crc, adjData)
      ensures !old(adjDataReadIsValid) && ok && name != "" && (forall k :: k >= old(cache.step) ==> cache.answers(k) == Fine) ==>
                || cache.files == old(cache.files)[name := Sealed(crc, adjData)]
                || FromCache(crc, eeprom.chip.mem, old(cache.files), name, adjData)
      ensures FaultFree(eeprom.chip.answers, old(eeprom.chip.step)) && Readable(crc, eeprom.chip.mem) ==> ok
      ensures FaultFree(eeprom.chip.answers, old(eeprom.chip.step)) ==>
                forall n: nat :: n < 0x1_0000 && ChipHolds(crc, eeprom.chip.mem, n) ==>
                  ok && (!old(adjDataReadIsValid) && (name == "" || name !in old(cache.files)) ==>
                           adjData == eeprom.chip.mem[..4] + [0, 0] + eeprom.chip.mem[6..n])
    {
      hide Zeroed, Sealed, SetChecksum, IsImage, SealedBytes;
      ghost var mem := eeprom.chip.mem;
      forall n: nat | n < 0x1_0000 && ChipHolds(crc, mem, n)
        ensures n >= HEADER_LEN && Readable(crc, mem)
        ensures forall data: Bytes :: FromChip(crc, mem, data) ==> data == mem[..4] + [0, 0] + mem[6..n]
      {
        HeldIsStored(crc, mem, n);
        forall data: Bytes | FromChip(crc, mem, data) ensures data == mem[..4] + [0, 0] + mem[6..n] {
          FromChipInBytes(crc, mem, n, data);
        }
      }
      if adjDataReadIsValid {
        return true;
      }
      var sizeOk, size := ReadSizeAndChecksum();
      var readOk, ba := false, [];
      if sizeOk {
        readOk, ba := ReadAllAndValidateFromCache(size, name);
        if !readOk {
          if HEADER_LEN <= size < 0x1_0000 {
            ValidReadIsImage(crc, mem);
          }
          readOk, ba := ReadAllAndValidateFromChip(size);
          if readOk {
            assert FromChip(crc, mem, ba);
            WriteRawDataToCache(ba, name);
          }
        }
      }
      if readOk {
        adjData := ba;
        adjDataReadIsValid := true;
      }
      ok := adjDataReadIsValid;
    }

    method ReadData() returns (ok: bool)
      requires Valid()
      modifies this, eeprom.chip`step, cache
      ensures Valid() && ok == adjDataReadIsValid && cache.files == old(cache.files)
      ensures old(adjDataReadIsValid) ==> ok && adjData == old(adjData)
      ensures !old(adjDataReadIsValid) && ok ==> FromChip(crc, eeprom.chip.mem, adjData)
      ensures !ok ==> adjData == old(adjData)
      ensures FaultFree(eeprom.chip.answers, old(eeprom.chip.step)) && Readable(crc, eeprom.chip.mem) ==> ok
    {
      ok := ReadDataCached("");
    }

    method SetData(ba: Bytes)
      modifies this`adjData
      ensures adjData == ba
    {
      adjData := ba;
    }

    /** True means that the whole sealed image is on the chip. Every write makes the next read go to the chip. */
    method WriteData() returns (ok: bool)
      requires Valid()
      modifies this, eeprom.chip
      ensures Valid() && !adjDataReadIsValid && adjData == Sealed(crc, old(adjData))
      ensures exists n: nat :: n <= |adjData| && eeprom.chip.mem == FlatWrite(old(eeprom.chip.mem), 0, adjData[..n])
      ensures ok ==> |adjData| <= eeprom.byteCapacity && |adjData| < 0x1_0000
                     && eeprom.chip.mem == FlatWrite(old(eeprom.chip.mem), 0, adjData)
      ensures ok && |old(adjData)| >= HEADER_LEN ==>
                && ChipHolds(crc, eeprom.chip.mem, |old(adjData)|) && eeprom.chip.mem[6..|old(adjData)|] == old(adjData)[6..]
                && |eeprom.chip.mem| == |old(eeprom.chip.mem)|
                && eeprom.chip.mem[|old(adjData)|..] == old(eeprom.chip.mem)[|old(adjData)|..]
      ensures eeprom.chip.answers(old(eeprom.chip.step)) == Done && Patient(eeprom.chip.answers, old(eeprom.chip.step) + 1) ==>
                ok == (|adjData| <= eeprom.byteCapacity && |adjData| < 0x1_0000)
    {
      hide Sealed, FlatWrite, WritePages, Patient, ChipHolds;
      ghost var was := adjData;
      adjDataReadIsValid := false;
      adjData := SetCountAndChecksum(adjData);
      var count := |adjData|;
      var written := eeprom.WriteData(adjData, Wrap16(count), 0);
      assert written <= Stored(eeprom.byteCapacity, 0, Wrap16(count));
      assert adjData[..count] == adjData;
      ok := count == written;
      if ok && |was| >= HEADER_LEN {
        SealedKeepsLength(crc, was);
        WriteLeavesBytes(crc, old(eeprom.chip.mem), was);
      }
    }

    /** On the 65536-byte chip the reset writes nothing and reports failure. */
    method ResetData() returns (ok: bool)
      requires Valid()
      modifies this`adjDataReadIsValid, eeprom.chip
      ensures Valid() && !adjDataReadIsValid
      ensures eeprom.byteCapacity == 0x1_0000 ==> !ok && eeprom.chip.mem == old(eeprom.chip.mem)
      ensures eeprom.byteCapacity < 0x1_0000 && eeprom.chip.answers(old(eeprom.chip.step)) == Done ==>
                Patient(eeprom.chip.answers, old(eeprom.chip.step) + 1) ==>
                ok && eeprom.chip.mem == seq(eeprom.byteCapacity, _ => 0xFF)
    {
      adjDataReadIsValid := false;
      var n := eeprom.Reset();
      ok := n == eeprom.byteCapacity;
    }
  }
}
