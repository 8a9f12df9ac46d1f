/** The EEPROM driver over a bus whose transfers may fail at any time. */
module EepromDriver {
  import opened MachineWords
  import opened EepromI2c

  /** The chip behind the bus. The answers to the transfers, one per step, are not under the driver's control. */
  class I2cChip {
    var mem: Bytes
    var step: nat
    const answers: nat -> Answer

    constructor (mem: Bytes, answers: nat -> Answer)
      ensures this.mem == mem && this.answers == answers && step == 0
    {
      this.mem, this.answers, step := mem, answers, 0;
    }

    method WriteTransfer(address: u16, data: Bytes) returns (r: Answer)
      requires address < |mem| && |data| <= PAGE
      modifies this
      ensures r == answers(old(step)) && step == old(step) + 1
      ensures mem == if r == Done then PageWrite(old(mem), address, data) else old(mem)
    {
      r := answers(step);
      step := step + 1;
      if r == Done {
        mem := PageWrite(mem, address, data);
      }
    }

    /** Sequential read; the chip rolls over at its end. */
    method ReadTransfer(address: u16, length: nat) returns (r: Answer, data: Bytes)
      requires mem != []
      modifies this`step
      ensures r == answers(old(step)) && step == old(step) + 1
      ensures r == Done ==> |data| == length && ReadRolling(mem, address, data)
    {
      r := answers(step);
      step := step + 1;
      var m := mem;
      data := if r == Done then seq(length, i requires 0 <= i => m[(address + i) % |m|]) else [];
    }
  }

  /** From this transfer on, the chip is busy for fewer than the given number of attempts and then takes the data. */
  predicate TakenWithin(answers: nat -> Answer, n: nat, attempts: nat)
    decreases attempts
  {
    attempts > 0 && (answers(n) == Done || (answers(n) == Nack && TakenWithin(answers, n + 1, attempts - 1)))
  }

  ghost predicate Patient(answers: nat -> Answer, from: nat) {
    forall n: nat :: n >= from ==> TakenWithin(answers, n, WRITE_ATTEMPTS)
  }

  ghost predicate FaultFree(answers: nat -> Answer, from: nat) {
    forall n: nat :: n >= from ==> answers(n) == Done
  }

  /** How far a write has come: after so many bytes the memory is the flat write of that prefix, and finishing the
      split write from here gives what the whole split write gives. */
  ghost predicate WriteProgress(was: Bytes, memAddress: u16, all: Bytes, mem: Bytes, address: u16, written: nat) {
    && written <= |all| && |mem| == |was|
    && address == Wrap16(memAddress + written)
    && (0 < written < |all| ==> (memAddress + written) % PAGE == 0)
    && (CounterHolds(|was|, memAddress, |all|) ==>
          mem == FlatWrite(was, memAddress, all[..written]) && written <= Stored(|was|, memAddress, |all|))
    && (|was| == ADDRESSES ==> mem == Rolled(was, memAddress, all[..written]))
    && WritePages(mem, address, all[written..]) == WritePages(was, memAddress, all)
  }

  lemma NothingWritten(mem: Bytes, address: nat)
    ensures FlatWrite(mem, address, []) == mem
  {
  }

  lemma NothingRolled(mem: Bytes, address: nat)
    ensures Rolled(mem, address, []) == mem
  {
  }

  lemma WriteStarts(mem: Bytes, memAddress: u16, all: Bytes)
    ensures WriteProgress(mem, memAddress, all, mem, memAddress, 0)
  {
    NothingWritten(mem, memAddress);
    NothingRolled(mem, memAddress);
    hide FlatWrite, WritePages, Rolled;
    assert all[0..] == all;
  }

  lemma PageMultiple(k: int)
    ensures k * PAGE % PAGE == 0
  {
  }

  lemma ChunkEnds(memAddress: nat, written: nat, address: u16, toWrite: nat)
    requires address == Wrap16(memAddress + written) && toWrite > 0
    ensures var l := ChunkLength(address, toWrite);
            && Wrap16(address + l) == Wrap16(memAddress + written + l)
            && (l < toWrite ==> (memAddress + written + l) % PAGE == 0)
  {
    var x, l := memAddress + written, ChunkLength(address, toWrite);
    var q := x / 0x1_0000;
    assert x == q * 0x1_0000 + address;
    LapsDoNotMatter(q, address + l);
    if l < toWrite {
      assert l == PAGE - address % PAGE;
      assert x + l == (q * 1024 + address / PAGE + 1) * PAGE;
      PageMultiple(q * 1024 + address / PAGE + 1);
    }
    hide ChunkLength;
  }

  lemma ChunkStays(capacity: nat, memAddress: u16, count: nat, written: nat)
    requires capacity % PAGE == 0 && capacity <= 0x1_0000 && CounterHolds(capacity, memAddress, count)
    requires written < count && written <= Stored(capacity, memAddress, count)
    requires Wrap16(memAddress + written) < capacity
    ensures Wrap16(memAddress + written) == memAddress + written
    ensures written + ChunkLength(memAddress + written, count - written) <= Stored(capacity, memAddress, count)
  {
    assert memAddress + written < 0x1_0000;
    CapacityIsPageEnd(capacity, memAddress + written, ChunkLength(memAddress + written, count - written));
  }

  lemma ChunkAppends(all: Bytes, written: nat, l: nat)
    requires written + l <= |all|
    ensures var chunk, rest := all[written..written + l], all[written..];
            |chunk| == l && chunk == rest[..l] && rest[l..] == all[written + l..] && all[..written] + chunk == all[..written + l]
  {
  }

  /** One more chunk while the address counter holds. */
  lemma FlatAdvances(was: Bytes, memAddress: u16, all: Bytes, mem: Bytes, address: u16, written: nat, l: nat)
    requires |was| % PAGE == 0 && |was| <= 0x1_0000 && written < |all| && address < |was|
    requires address == Wrap16(memAddress + written) && l == ChunkLength(address, |all| - written)
    requires CounterHolds(|was|, memAddress, |all|) && written <= Stored(|was|, memAddress, |all|)
    requires mem == FlatWrite(was, memAddress, all[..written])
    ensures written + l <= Stored(|was|, memAddress, |all|)
    ensures FlatWrite(mem, address, all[written..written + l]) == FlatWrite(was, memAddress, all[..written + l])
  {
    hide FlatWrite, Stored, CounterHolds, ChunkLength, Wrap16;
    ChunkStays(|was|, memAddress, |all|, written);
    FlatWriteAppends(was, memAddress, all[..written], all[written..written + l]);
    ChunkAppends(all, written, l);
  }

  /** One more chunk where the address goes on at 0. */
  lemma RolledAdvances(was: Bytes, memAddress: u16, all: Bytes, mem: Bytes, address: u16, written: nat, l: nat)
    requires |was| == ADDRESSES && written < |all| <= ADDRESSES && address == Wrap16(memAddress + written)
    requires l == ChunkLength(address, |all| - written) && mem == Rolled(was, memAddress, all[..written])
    ensures FlatWrite(mem, address, all[written..written + l]) == Rolled(was, memAddress, all[..written + l])
  {
    hide FlatWrite, Rolled, ChunkLength, Wrap16;
    ChunkAppends(all, written, l);
    CapacityIsPageEnd(ADDRESSES, address, l);
    FlatIsRolled(mem, address, all[written..written + l]);
    RolledAppends(was, memAddress, all[..written], all[written..written + l]);
  }

  lemma WriteAdvances(was: Bytes, memAddress: u16, all: Bytes, mem: Bytes, address: u16, written: nat)
    requires WriteProgress(was, memAddress, all, mem, address, written)
    requires |was| % PAGE == 0 && |was| <= 0x1_0000 && written < |all| <= ADDRESSES && address < |was|
    ensures var l := ChunkLength(address, |all| - written);
            WriteProgress(was, memAddress, all, PageWrite(mem, address, all[written..written + l]),
                          Wrap16(address + l), written + l)
  {
    hide PageWrite, FlatWrite, WritePages, Stored, CounterHolds, ChunkLength, Rolled, Wrap16;
    var l := ChunkLength(address, |all| - written);
    ChunkAppends(all, written, l);
    PageWriteIsFlat(mem, address, all[written..written + l]);
    FirstChunk(mem, address, all[written..]);
    ChunkEnds(memAddress, written, address, |all| - written);
    if CounterHolds(|was|, memAddress, |all|) {
      FlatAdvances(was, memAddress, all, mem, address, written, l);
    }
    if |was| == ADDRESSES {
      RolledAdvances(was, memAddress, all, mem, address, written, l);
    }
  }

  /** Where a write ends, early or not. */
  lemma WriteStops(was: Bytes, memAddress: u16, all: Bytes, mem: Bytes, address: u16, written: nat)
    requires WriteProgress(was, memAddress, all, mem, address, written) && |was| <= 0x1_0000
    ensures CounterHolds(|was|, memAddress, |all|) ==>
              mem == FlatWrite(was, memAddress, all[..written]) && written <= Stored(|was|, memAddress, |all|)
    ensures |was| == ADDRESSES ==> mem == Rolled(was, memAddress, all[..written])
    ensures written < Stored(|was|, memAddress, |all|) ==> written == 0 || (memAddress + written) % PAGE == 0
    ensures written == |all| || address >= |was| ==>
              && mem == WritePages(was, memAddress, all)
              && (CounterHolds(|was|, memAddress, |all|) ==> written == Stored(|was|, memAddress, |all|))
  {
    NothingBeyond(|was|, memAddress, |all|);
    if written == |all| || address >= |was| {
      NothingLeft(mem, address, all[written..]);
      if CounterHolds(|was|, memAddress, |all|) {
        AllStored(|was|, memAddress, |all|, written);
      }
    }
    hide FlatWrite, WritePages, Stored, CounterHolds, Rolled;
  }

  lemma NothingLeft(mem: Bytes, address: u16, rest: Bytes)
    requires rest == [] || address >= |mem|
    ensures WritePages(mem, address, rest) == mem
  {
  }

  lemma AllStored(capacity: nat, memAddress: u16, count: nat, written: nat)
    requires CounterHolds(capacity, memAddress, count) && written <= Stored(capacity, memAddress, count)
    requires written == count || (written < count && Wrap16(memAddress + written) >= capacity)
    requires capacity <= 0x1_0000
    ensures written == Stored(capacity, memAddress, count)
  {
  }

  lemma ChunkOfPrefix(data: Bytes, count: nat, from: nat, l: nat)
    requires from + l <= count <= |data|
    ensures data[from..from + l] == data[..count][from..from + l] && data[..from] == data[..count][..from]
  {
  }

  class EepromI2c24LCxxx {
    const chip: I2cChip
    const byteCapacity: nat

    /** The capacity is a number of whole pages that 16 address bits can reach. */
    predicate Valid()
      reads chip
    {
      0 < byteCapacity <= 0x1_0000 && byteCapacity % PAGE == 0 && |chip.mem| == byteCapacity
    }

    constructor (chip: I2cChip, byteCapacity: nat)
      requires 0 < byteCapacity <= 0x1_0000 && byteCapacity % PAGE == 0 && |chip.mem| == byteCapacity
      ensures this.chip == chip && this.byteCapacity == byteCapacity && Valid()
    {
      this.chip, this.byteCapacity := chip, byteCapacity;
    }

    /** Acknowledge polling: a chip still busy with the page before does not acknowledge. */
    method WriteChunk(address: u16, chunk: Bytes) returns (r: Answer)
      requires address < |chip.mem| && |chunk| <= PAGE
      modifies chip
      ensures chip.mem == if r == Done then PageWrite(old(chip.mem), address, chunk) else old(chip.mem)
      ensures chip.step >= old(chip.step)
      ensures TakenWithin(chip.answers, old(chip.step), WRITE_ATTEMPTS) ==> r == Done
    {
      hide PageWrite;
      r := Nack;
      var i := 0;
      while i < WRITE_ATTEMPTS
        invariant 0 <= i <= WRITE_ATTEMPTS && r == Nack && chip.mem == old(chip.mem)
        invariant chip.step >= old(chip.step)
        invariant TakenWithin(chip.answers, old(chip.step), WRITE_ATTEMPTS) ==>
                    TakenWithin(chip.answers, chip.step, WRITE_ATTEMPTS - i)
      {
        r := chip.WriteTransfer(address, chunk);
        if r == Done {
          break;
        } else if r != Nack {
          break;
        }
        i := i + 1;
      }
    }

    /** Writes page by page. The result counts the bytes stored. */
    method WriteData(data: Bytes, count: u16, memAddress: u16) returns (written: nat)
      requires Valid() && count <= |data|
      modifies chip
      ensures Valid() && chip.step > old(chip.step) && written <= count
      ensures CounterHolds(byteCapacity, memAddress, count) ==>
                && chip.mem == FlatWrite(old(chip.mem), memAddress, data[..written])
                && written <= Stored(byteCapacity, memAddress, count)
      ensures byteCapacity == ADDRESSES ==> chip.mem == Rolled(old(chip.mem), memAddress, data[..written])
      ensures written < Stored(byteCapacity, memAddress, count) ==> written == 0 || (memAddress + written) % PAGE == 0
      ensures chip.answers(old(chip.step)) == Done && Patient(chip.answers, old(chip.step) + 1) ==>
                && chip.mem == WritePages(old(chip.mem), memAddress, data[..count])
                && (CounterHolds(byteCapacity, memAddress, count) ==> written == Stored(byteCapacity, memAddress, count))
    {
      hide PageWrite, FlatWrite, WritePages, TakenWithin, WriteProgress, Stored, CounterHolds, Rolled;
      ghost var was := chip.mem;
      ghost var all := data[..count];
      NothingWritten(was, memAddress);
      NothingRolled(was, memAddress);
      var probe, _ := chip.ReadTransfer(0, 5);
      if probe != Done {
        return 0;
      }
      var address: u16 := memAddress;
      var toWrite: nat := count;
      written := 0;
      WriteStarts(was, memAddress, all);
      while toWrite > 0 && address < byteCapacity
        invariant written + toWrite == count && |chip.mem| == byteCapacity && chip.step > old(chip.step)
        invariant WriteProgress(was, memAddress, all, chip.mem, address, written)
        decreases toWrite
      {
        var l := ChunkLength(address, toWrite);
        var chunk := data[written..written + l];
        ChunkOfPrefix(data, count, written, l);
        WriteAdvances(was, memAddress, all, chip.mem, address, written);
        var r := WriteChunk(address, chunk);
        if r != Done {
          WriteStops(was, memAddress, all, chip.mem, address, written);
          return;
        }
        address := Wrap16(address + l);
        toWrite := toWrite - l;
        written := written + l;
      }
      ChunkOfPrefix(data, count, written, 0);
      WriteStops(was, memAddress, all, chip.mem, address, written);
    }

    /** Overwrites the chip with 0xFF. The capacity is passed on as a 16-bit count. */
    method Reset() returns (bytesReset: nat)
      requires Valid()
      modifies chip
      ensures Valid()
      ensures byteCapacity == 0x1_0000 ==> bytesReset == 0 && chip.mem == old(chip.mem)
      ensures byteCapacity < 0x1_0000 && chip.answers(old(chip.step)) == Done && Patient(chip.answers, old(chip.step) + 1) ==>
                bytesReset == byteCapacity && chip.mem == seq(byteCapacity, _ => 0xFF)
    {
      var freshBuff: Bytes := seq(byteCapacity, _ => 0xFF);
      var count := Wrap16(byteCapacity);
      bytesReset := WriteData(freshBuff, count, 0);
      assert byteCapacity == 0x1_0000 ==> FlatWrite(old(chip.mem), 0, []) == old(chip.mem);
      assert byteCapacity < 0x1_0000 ==> freshBuff[..count] == freshBuff
                                         && FlatWrite(old(chip.mem), 0, freshBuff) == freshBuff;
    }

    /** Reads in blocks of 4096 bytes and stops at the first failing transfer. A range past the end of a chip whose
        capacity divides the addresses goes on at its beginning. */
    method ReadData(count: u16, memAddress: u16) returns (data: Bytes)
      requires Valid()
      modifies chip`step
      ensures chip.step >= old(chip.step) && |data| <= count
      ensures memAddress + count <= byteCapacity ==> data == FlatRead(chip.mem, memAddress, |data|)
      ensures WholeLaps(byteCapacity) ==> ReadRolling(chip.mem, memAddress, data)
      ensures FaultFree(chip.answers, old(chip.step)) ==> |data| == count
    {
      hide FlatRead, ReadRolling, ReadProgress, WholeLaps, Wrap16;
      ReadStarts(chip.mem, memAddress, count);
      data := [];
      var address: u16 := memAddress;
      var toRead: nat := count;
      while toRead > 0
        invariant |data| + toRead == count && chip.step >= old(chip.step)
        invariant ReadProgress(chip.mem, memAddress, count, data, address)
      {
        var l := if toRead > BLOCK_READ_LEN then BLOCK_READ_LEN else toRead;
        var r, block := chip.ReadTransfer(address, l);
        if r != Done {
          break;
        }
        ReadAdvances(chip.mem, memAddress, count, data, address, block);
        data := data + block;
        address := Wrap16(address + l);
        toRead := toRead - l;
      }
      ReadStops(chip.mem, memAddress, count, data, address);
    }

    /** How far a read has come. */
    ghost predicate ReadProgress(mem: Bytes, memAddress: u16, count: u16, data: Bytes, address: u16)
      requires mem != []
    {
      && |data| <= count && address == Wrap16(memAddress + |data|)
      && (memAddress + count <= |mem| ==> data == FlatRead(mem, memAddress, |data|))
      && (WholeLaps(|mem|) ==> ReadRolling(mem, memAddress, data))
    }

    lemma ReadStarts(mem: Bytes, memAddress: u16, count: u16)
      requires mem != []
      ensures ReadProgress(mem, memAddress, count, [], memAddress)
    {
      NothingRead(mem, memAddress);
      hide FlatRead, ReadRolling, WholeLaps;
    }

    lemma FlatReadAdvances(mem: Bytes, memAddress: u16, read: nat, address: u16, block: Bytes)
      requires mem != [] && memAddress + read + |block| <= |mem| <= ADDRESSES && address == Wrap16(memAddress + read)
      requires ReadRolling(mem, address, block)
      ensures FlatRead(mem, memAddress, read) + block == FlatRead(mem, memAddress, read + |block|)
    {
      if block == [] {
      } else {
        assert Wrap16(memAddress + read) == memAddress + read;
        hide FlatRead, ReadRolling, Wrap16;
        BlockInRange(mem, address, block);
        FlatReadAppends(mem, memAddress, read, |block|);
      }
    }

    lemma ReadAdvances(mem: Bytes, memAddress: u16, count: u16, data: Bytes, address: u16, block: Bytes)
      requires mem != [] && |mem| <= ADDRESSES && |data| + |block| <= count
      requires ReadProgress(mem, memAddress, count, data, address) && ReadRolling(mem, address, block)
      ensures ReadProgress(mem, memAddress, count, data + block, Wrap16(address + |block|))
    {
      hide FlatRead, ReadRolling, WholeLaps, Wrap16;
      WrapMore(memAddress + |data|, |block|);
      if memAddress + count <= |mem| {
        FlatReadAdvances(mem, memAddress, |data|, address, block);
      }
      if WholeLaps(|mem|) {
        BlockRolls(mem, memAddress, data, block);
      }
    }

    lemma ReadStops(mem: Bytes, memAddress: u16, count: u16, data: Bytes, address: u16)
      requires mem != [] && ReadProgress(mem, memAddress, count, data, address)
      ensures memAddress + count <= |mem| ==> data == FlatRead(mem, memAddress, |data|)
      ensures WholeLaps(|mem|) ==> ReadRolling(mem, memAddress, data)
    {
      hide FlatRead, ReadRolling, WholeLaps, Wrap16;
    }

    lemma WrapMore(x: int, l: int)
      ensures Wrap16(Wrap16(x) + l) == Wrap16(x + l)
    {
      LapsDoNotMatter(x / ADDRESSES, Wrap16(x) + l);
    }

    lemma BlockRolls(mem: Bytes, memAddress: nat, data: Bytes, block: Bytes)
      requires WholeLaps(|mem|) && ReadRolling(mem, memAddress, data)
      requires ReadRolling(mem, Wrap16(memAddress + |data|), block)
      ensures ReadRolling(mem, memAddress, data + block)
    {
      var all := data + block;
      forall i | 0 <= i < |all| ensures all[i] == mem[(memAddress + i) % |mem|] {
        if i >= |data| {
          SamePlace(|mem|, memAddress + |data|, i - |data|);
          assert all[i] == block[i - |data|];
        }
      }
    }

    lemma SamePlace(m: nat, x: nat, i: nat)
      requires m > 0 && ADDRESSES % m == 0
      ensures (Wrap16(x) + i) % m == (x + i) % m
    {
      var q, c := x / ADDRESSES, ADDRESSES / m;
      assert ADDRESSES == c * m;
      assert x + i == q * (c * m) + (Wrap16(x) + i);
      assert q * (c * m) == q * c * m;
      LapsOfChip(q * c, m, Wrap16(x) + i);
    }

    lemma LapsOfChip(q: int, m: nat, a: int)
      requires m > 0
      ensures (q * m + a) % m == a % m
      decreases if q < 0 then -q else q
    {
      if q > 0 {
        LapsOfChip(q - 1, m, a);
        assert q * m + a == (q - 1) * m + a + m;
        OneLap((q - 1) * m + a, m);
      } else if q < 0 {
        LapsOfChip(q + 1, m, a);
        assert q * m + a + m == (q + 1) * m + a;
        OneLap(q * m + a, m);
      }
    }

    lemma OneLap(x: int, m: nat)
      requires m > 0
      ensures (x + m) % m == x % m
    {
      var q, r := x / m, x % m;
      assert x + m == (q + 1) * m + r;
      Remainder(x + m, q + 1, r, m);
    }

    lemma Remainder(x: int, q: int, r: int, m: nat)
      requires m > 0 && x == q * m + r && 0 <= r < m
      ensures x % m == r
    {
      var d: int := x / m - q;
      assert d * m == r - x % m;
      assert d >= 1 ==> d * m >= m;
      assert d <= -1 ==> d * m <= 0 - m;
    }

    lemma BlockInRange(mem: Bytes, address: nat, block: Bytes)
      requires address + |block| <= |mem| && mem != []
      requires ReadRolling(mem, address, block)
      ensures block == FlatRead(mem, address, |block|)
    {
      forall i | 0 <= i < |block| ensures block[i] == mem[address + i] {
        SmallMod(address + i, |mem|);
      }
    }

    lemma SmallMod(x: nat, m: nat)
      requires x < m
      ensures x % m == x
    {
    }
  }

  lemma FaultFreeIsPatient(answers: nat -> Answer, from: nat)
    requires FaultFree(answers, from)
    ensures Patient(answers, from)
  {
  }

  /** Writing and reading back: what is written in range without a failing transfer is what is read. */
  method WriteThenRead(eeprom: EepromI2c24LCxxx, data: Bytes, memAddress: u16) returns (written: nat, readBack: Bytes)
    requires eeprom.Valid() && |data| < ADDRESSES
    modifies eeprom.chip
    ensures eeprom.Valid()
    ensures FaultFree(eeprom.chip.answers, old(eeprom.chip.step)) && memAddress + |data| <= eeprom.byteCapacity ==>
              && written == |data| && readBack == data
              && eeprom.chip.mem == FlatWrite(old(eeprom.chip.mem), memAddress, data)
  {
    hide WritePages, Patient, TakenWithin, Rolled, FlatWrite, FlatRead;
    ghost var was := eeprom.chip.mem;
    if FaultFree(eeprom.chip.answers, eeprom.chip.step) {
      FaultFreeIsPatient(eeprom.chip.answers, eeprom.chip.step + 1);
    }
    written := eeprom.WriteData(data, |data|, memAddress);
    readBack := eeprom.ReadData(|data|, memAddress);
    if memAddress + |data| <= eeprom.byteCapacity {
      ReadsWhatWasWritten(was, memAddress, data);
      assert data[..|data|] == data;
    }
  }
}
