/** A clamp writes its adjustment data to its EEPROM and reads it back. */
module Clamps {
  import opened MachineWords
  import opened EepromI2c
  import opened EepromDriver
  import opened AdjustmentImage
  import opened AdjustmentStorage
  import opened ClampCodec
  import opened ClampImage

  class Clamp {
    const storage: AdjustmentEepromReadWrite
    const typeName: TypeName
    var header: Header
    var rangeList: seq<SenseRange>
    var rangeListSecondary: seq<SenseRange>

    constructor (storage: AdjustmentEepromReadWrite, typeName: TypeName, header: Header,
                 rangeList: seq<SenseRange>, rangeListSecondary: seq<SenseRange>)
      ensures this.storage == storage && this.typeName == typeName
      ensures Value() == ClampData(header, rangeList, rangeListSecondary)
    {
      this.storage, this.typeName, this.header := storage, typeName, header;
      this.rangeList, this.rangeListSecondary := rangeList, rangeListSecondary;
    }

    function Value(): ClampData
      reads this
    {
      ClampData(header, rangeList, rangeListSecondary)
    }

    static method WriteRangeList(ranges: seq<SenseRange>) returns (ba: Bytes)
      ensures ba == WriteRanges(ranges)
    {
      hide WriteRange;
      ba := [];
      for i := 0 to |ranges|
        invariant ba == WriteRanges(ranges[..i])
      {
        WriteRangesAppends(ranges[..i], ranges[i]);
        assert ranges[..i + 1] == ranges[..i] + [ranges[i]];
        ba := ba + WriteRange(ranges[i]);
      }
      assert ranges[..|ranges|] == ranges;
    }

    /** True means that the chip holds this clamp's data. */
    method ExportClampAdjData(dateTimeWrite: Stored) returns (ok: bool)
      requires storage.Valid()
      modifies this`header, storage, storage.eeprom.chip
      ensures storage.Valid() && !storage.adjDataReadIsValid
      ensures Value() == old(Value()).(header := old(header).(adjDate := dateTimeWrite))
      ensures ok ==> Holds(storage.crc, storage.eeprom.chip.mem, typeName, Value())
      ensures storage.eeprom.chip.answers(old(storage.eeprom.chip.step)) == Done ==>
                Patient(storage.eeprom.chip.answers, old(storage.eeprom.chip.step) + 1) ==>
                  var size := HEADER_LEN + |Payload(typeName, Value())|;
                  ok == (size <= storage.eeprom.byteCapacity && size < 0x1_0000)
    {
      hide WriteHeader, WriteRanges, Sealed, FlatWrite, Adjusted, Patient, EepromI2c24LCxxx.Valid;
      header := header.(adjDate := dateTimeWrite);
      var ba: Bytes := Be32(0) + Be16(0) + WriteHeader(typeName, header);
      var primary := WriteRangeList(rangeList);
      var secondary := WriteRangeList(rangeListSecondary);
      ba := ba + primary + secondary;
      WriteRangesOfBoth(rangeList, rangeListSecondary);
      assert ba[HEADER_LEN..] == Payload(typeName, Value());
      ghost var was := storage.eeprom.chip.mem;
      storage.SetData(ba);
      assert |Sealed(storage.crc, ba)| == |ba| by {
        if |ba| < 0x1_0000_0000 {
          SealedIsImage(storage.crc, ba);
        }
        SealedLength(storage.crc, ba);
      }
      ok := storage.WriteData();
      if ok {
        SizeOfChip(storage);
        WriteLeavesImage(storage.crc, was, ba);
      }
    }

    static lemma SizeOfChip(storage: AdjustmentEepromReadWrite)
      requires storage.Valid()
      ensures |storage.eeprom.chip.mem| == storage.eeprom.byteCapacity
    {
    }

    static lemma SealedLength(crc: Crc, ba: Bytes)
      requires |ba| >= HEADER_LEN
      ensures |Sealed(crc, ba)| == |ba|
    {
    }

    /** The first range of that name, searched in the primary list and then in the secondary one. */
    method GetRange(name: Stored) returns (i: nat)
      ensures i == FirstIndex(rangeList + rangeListSecondary, name)
    {
      ghost var all := rangeList + rangeListSecondary;
      FirstIndexIs(all, name);
      i := 0;
      while i < |rangeList|
        invariant 0 <= i <= |rangeList| && forall j :: 0 <= j < i ==> Text(all[j].name) != Text(name)
      {
        if Text(rangeList[i].name) == Text(name) {
          assert all[i] == rangeList[i];
          return;
        }
        assert all[i] == rangeList[i];
        i := i + 1;
      }
      while i < |rangeList| + |rangeListSecondary|
        invariant |rangeList| <= i <= |all| && forall j :: 0 <= j < i ==> Text(all[j].name) != Text(name)
      {
        assert all[i] == rangeListSecondary[i - |rangeList|];
        if Text(rangeListSecondary[i - |rangeList|].name) == Text(name) {
          return;
        }
        i := i + 1;
      }
    }

    /** Reads records until the stream is at its end. */
    method ReadRecords(s: Bytes) returns (n: nat)
      modifies this`rangeList, this`rangeListSecondary
      ensures |rangeList| == old(|rangeList|) && |rangeListSecondary| == old(|rangeListSecondary|)
      ensures rangeList + rangeListSecondary == Apply(old(rangeList + rangeListSecondary), ReadRanges(s))
      ensures n == Hits(old(rangeList + rangeListSecondary), ReadRanges(s))
    {
      hide ReadRange, ReadRanges, Apply, Hits, FirstIndex, SameNames;
      ghost var was := rangeList + rangeListSecondary;
      var rest := s;
      n := 0;
      OwnNames(was);
      while rest != []
        invariant |rangeList| == old(|rangeList|) && |rangeListSecondary| == old(|rangeListSecondary|)
        invariant Apply(rangeList + rangeListSecondary, ReadRanges(rest)) == Apply(was, ReadRanges(s))
        invariant SameNames(rangeList + rangeListSecondary, was)
        invariant n + Hits(was, ReadRanges(rest)) == Hits(was, ReadRanges(s))
        decreases |rest|
      {
        ghost var all := rangeList + rangeListSecondary;
        var record := ReadRange(rest);
        RecordsStep(all, was, rest);
        var i := GetRange(record.value.name);
        if i < |rangeList| {
          n := n + 1;
          rangeList := rangeList[i := rangeList[i].(data := record.value.data)];
        } else if i < |rangeList| + |rangeListSecondary| {
          n := n + 1;
          var k := i - |rangeList|;
          rangeListSecondary := rangeListSecondary[k := rangeListSecondary[k].(data := record.value.data)];
        }
        assert rangeList + rangeListSecondary == Put(all, record.value);
        rest := record.rest;
      }
      RecordsEnd(rangeList + rangeListSecondary, was);
    }

    static lemma OwnNames(all: seq<SenseRange>)
      ensures SameNames(all, all)
    {
    }

    static lemma RecordsEnd(all: seq<SenseRange>, was: seq<SenseRange>)
      ensures Apply(all, ReadRanges([])) == all && Hits(was, ReadRanges([])) == 0
    {
    }

    static lemma RecordsStep(all: seq<SenseRange>, was: seq<SenseRange>, rest: Bytes)
      requires rest != [] && SameNames(all, was)
      ensures var record := ReadRange(rest);
              && Apply(all, ReadRanges(rest)) == Apply(Put(all, record.value), ReadRanges(record.rest))
              && SameNames(Put(all, record.value), was)
              && Hits(was, ReadRanges(rest)) ==
                 (if FirstIndex(all, record.value.name) < |all| then 1 else 0) + Hits(was, ReadRanges(record.rest))
    {
      hide ReadRange;
      var record := ReadRange(rest);
      assert ReadRanges(rest)[1..] == ReadRanges(record.rest);
      PutKeepsNames(all, record.value);
      SameNamesSameIndex(all, was, record.value.name);
    }

    /** Decodes what the storage read. Success means that as many records as there are ranges found one. With a chip
        that holds a clamp's data, no failing transfer, and distinctly named ranges of the same names, everything is
        restored. */
    method ImportClampAdjData() returns (ok: bool)
      requires storage.Valid()
      modifies this, storage, storage.eeprom.chip`step, storage.cache
      ensures storage.Valid()
      ensures !storage.adjDataReadIsValid ==> !ok && Value() == old(Value())
      ensures storage.adjDataReadIsValid ==>
                && Value() == Decoded(old(Value()), Body(storage.adjData))
                && ok == (Hits(old(Value()).All(), ReadRanges(ReadHeader(Body(storage.adjData)).rest)) == |Value().All()|)
      ensures old(storage.adjDataReadIsValid) ==> storage.adjDataReadIsValid && storage.adjData == old(storage.adjData)
      ensures !old(storage.adjDataReadIsValid) && FaultFree(storage.eeprom.chip.answers, old(storage.eeprom.chip.step)) ==>
                forall c: ClampData ::
                  Holds(storage.crc, storage.eeprom.chip.mem, typeName, c) && SameNames(old(Value()).All(), c.All()) ==>
                    ok && Restored(Value(), c)
    {
      hide Zeroed, IsImage, ReadHeader, ReadRanges, Hits, Apply, Payload, Adjusted, FaultFree, EepromI2c24LCxxx.Valid;
      ghost var was := Value();
      var readOk := storage.ReadData();
      if !readOk {
        forall c: ClampData | FaultFree(storage.eeprom.chip.answers, old(storage.eeprom.chip.step))
          ensures !Holds(storage.crc, storage.eeprom.chip.mem, typeName, c)
        {
        }
        return false;
      }
      var ba := storage.adjData;
      var stream := if |ba| < HEADER_LEN then [] else ba[HEADER_LEN..];
      var h := ReadHeader(stream);
      header := h.value;
      var n := ReadRecords(h.rest);
      ok := n == |rangeList| + |rangeListSecondary|;
      assert Value() == Decoded(was, stream) by {
        ghost var all := rangeList + rangeListSecondary;
        assert all[..|rangeList|] == rangeList && all[|rangeList|..] == rangeListSecondary;
      }
      if !old(storage.adjDataReadIsValid) {
        forall c: ClampData | Holds(storage.crc, storage.eeprom.chip.mem, typeName, c) && SameNames(was.All(), c.All())
          ensures ok && Restored(Value(), c)
        {
          PayloadSurvives(storage.crc, storage.eeprom.chip.mem, ba, typeName, c);
          DecodedIsStored(typeName, c, was);
        }
      }
    }

    static lemma PayloadSurvives(crc: Crc, mem: Bytes, ba: Bytes, typeName: TypeName, c: ClampData)
      requires FromChip(crc, mem, ba) && Holds(crc, mem, typeName, c)
      ensures Body(ba) == Payload(typeName, c)
    {
      var image := mem[..StoredSize(mem)];
      assert Zeroed(image)[HEADER_LEN..] == image[HEADER_LEN..];
      assert image[HEADER_LEN..] == mem[HEADER_LEN..StoredSize(mem)];
    }
  }

  /** Skipping the header stops at the end of data that is too short. */
  function Body(ba: Bytes): Bytes {
    if |ba| < HEADER_LEN then [] else ba[HEADER_LEN..]
  }

  /** Type, flags, version, serial number and date are back, and so is the data of every range if the names are
      distinct. */
  ghost predicate Restored(r: ClampData, c: ClampData) {
    && r.header == c.header && SameNames(r.All(), c.All())
    && (DistinctNames(c.All()) ==> forall j :: 0 <= j < |c.All()| ==> r.All()[j].data == c.All()[j].data)
  }

  /** One clamp writes, another one on the same chip reads: with a successful export and no failing transfer afterwards
      everything is back. */
  method ExportThenImport(writer: Clamp, reader: Clamp, dateTimeWrite: Stored)
    returns (exported: bool, imported: bool, ghost readStart: nat)
    requires writer != reader && writer.storage != reader.storage
    requires writer.storage.eeprom.chip == reader.storage.eeprom.chip && writer.storage.crc == reader.storage.crc
    requires writer.storage.Valid() && reader.storage.Valid() && writer.typeName == reader.typeName
    requires !reader.storage.adjDataReadIsValid && SameNames(reader.Value().All(), writer.Value().All())
    modifies writer, writer.storage, writer.storage.eeprom.chip, reader, reader.storage, reader.storage.cache
    ensures writer.Value() == old(writer.Value()).(header := old(writer.header).(adjDate := dateTimeWrite))
    ensures exported && FaultFree(writer.storage.eeprom.chip.answers, readStart) ==>
              imported && Restored(reader.Value(), writer.Value())
  {
    hide Holds, Restored, FaultFree, Decoded;
    exported := writer.ExportClampAdjData(dateTimeWrite);
    readStart := writer.storage.eeprom.chip.step;
    ghost var c := writer.Value();
    imported := reader.ImportClampAdjData();
    assert writer.Value() == c;
  }
}
