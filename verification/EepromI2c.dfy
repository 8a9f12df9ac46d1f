/** The 24LCxxx EEPROM: a chip whose page writes wrap inside 64-byte pages, and the driver that splits at pages. */
module EepromI2c {
  import opened MachineWords

  type Bytes = seq<u8>

  const PAGE: nat := 64
  const BLOCK_READ_LEN: nat := 4096
  const WRITE_ATTEMPTS: nat := 100
  const ADDRESSES: nat := 0x1_0000

  /** The answers of the bus driver: done, no acknowledge, anything else. A transfer that is not done stores nothing. */
  datatype Answer = Done | Nack | IoError

  /** What the chip does with up to 64 bytes: the address counter wraps inside the page. */
  function PageWrite(mem: Bytes, address: nat, data: Bytes): (r: Bytes)
    ensures |r| == |mem|
  {
    seq(|mem|, i requires 0 <= i < |mem| =>
      var d := (i - address) % PAGE;
      if i / PAGE == address / PAGE && d < |data| then data[d] else mem[i])
  }

  /** The simple form: the bytes at their addresses, everything else unchanged. */
  function FlatWrite(mem: Bytes, address: nat, data: Bytes): (r: Bytes)
    ensures |r| == |mem|
  {
    seq(|mem|, i requires 0 <= i < |mem| => if address <= i < address + |data| then data[i - address] else mem[i])
  }

  lemma PageWriteIsFlat(mem: Bytes, address: nat, data: Bytes)
    requires address % PAGE + |data| <= PAGE
    ensures PageWrite(mem, address, data) == FlatWrite(mem, address, data)
  {
    forall i | 0 <= i < |mem| ensures PageWrite(mem, address, data)[i] == FlatWrite(mem, address, data)[i] {
      SamePage(i, address, |data|);
    }
  }

  lemma SamePage(i: nat, address: nat, n: nat)
    requires address % PAGE + n <= PAGE
    ensures i / PAGE == address / PAGE && (i - address) % PAGE < n <==> address <= i < address + n
    ensures address <= i < address + n ==> (i - address) % PAGE == i - address
  {
    var p, o := address / PAGE, address % PAGE;
    assert address == p * PAGE + o && i == i / PAGE * PAGE + i % PAGE;
    if i / PAGE == p {
      assert i - address == i % PAGE - o;
    }
  }

  lemma FlatWriteAppends(mem: Bytes, address: nat, a: Bytes, b: Bytes)
    ensures FlatWrite(FlatWrite(mem, address, a), address + |a|, b) == FlatWrite(mem, address, a + b)
  {
  }

  /** Writing with the source's 16-bit address counter and no failing transfer. */
  function WritePages(mem: Bytes, address: u16, data: Bytes): (r: Bytes)
    ensures |r| == |mem|
    decreases |data|
  {
    if data == [] || address >= |mem| then mem
    else
      var l := ChunkLength(address, |data|);
      WritePages(PageWrite(mem, address, data[..l]), Wrap16(address + l), data[l..])
  }

  function ChunkLength(address: u16, toWrite: nat): (l: nat)
    ensures l <= toWrite && (toWrite > 0 ==> l > 0) && address % PAGE + l <= PAGE
  {
    var room := PAGE - address % PAGE;
    if toWrite > room then room else toWrite
  }

  /** How much of a write lands on a chip of this capacity. */
  function Stored(capacity: nat, address: nat, count: nat): nat {
    if address >= capacity then 0 else if count > capacity - address then capacity - address else count
  }

  /** The address counter does not wrap: the chip is smaller than 65536 bytes, or the write ends inside it. */
  predicate CounterHolds(capacity: nat, address: nat, count: nat) {
    capacity < 0x1_0000 || address + count <= 0x1_0000
  }

  lemma CapacityIsPageEnd(capacity: nat, address: nat, l: nat)
    requires capacity % PAGE == 0 && address < capacity && address % PAGE + l <= PAGE
    ensures address + l <= capacity
  {
    var p := address / PAGE;
    assert address == p * PAGE + address % PAGE && capacity == capacity / PAGE * PAGE;
    assert p < capacity / PAGE;
    assert (p + 1) * PAGE <= capacity / PAGE * PAGE;
  }

  lemma FirstChunk(mem: Bytes, address: u16, data: Bytes)
    requires data != [] && address < |mem|
    ensures var l := ChunkLength(address, |data|);
            WritePages(mem, address, data) == WritePages(FlatWrite(mem, address, data[..l]), Wrap16(address + l), data[l..])
  {
    PageWriteIsFlat(mem, address, data[..ChunkLength(address, |data|)]);
    hide PageWrite, FlatWrite;
  }

  lemma StoredSplits(capacity: nat, address: u16, count: nat)
    requires capacity % PAGE == 0 && address < capacity && count > 0
    ensures var l := ChunkLength(address, count);
            address + l <= capacity && Stored(capacity, address, count) == l + Stored(capacity, address + l, count - l)
  {
    CapacityIsPageEnd(capacity, address, ChunkLength(address, count));
  }

  lemma CounterHoldsNext(capacity: nat, address: u16, count: nat)
    requires capacity % PAGE == 0 && capacity <= 0x1_0000 && address < capacity && CounterHolds(capacity, address, count)
    ensures var l := ChunkLength(address, count);
            l < count ==> address + l < 0x1_0000 && CounterHolds(capacity, address + l, count - l)
    ensures Stored(capacity, address, count) <= count
  {
    CapacityIsPageEnd(capacity, address, ChunkLength(address, count));
  }

  lemma NoWrap(address: nat)
    requires address < 0x1_0000
    ensures Wrap16(address) == address
  {
  }

  lemma RestIsFlat(mem: Bytes, address: u16, data: Bytes, l: nat)
    requires l <= |data| && address + l <= |mem|
    requires Stored(|mem|, address, |data|) == l + Stored(|mem|, address + l, |data| - l) <= |data|
    ensures FlatWrite(FlatWrite(mem, address, data[..l]), address + l, data[l..][..Stored(|mem|, address + l, |data| - l)])
            == FlatWrite(mem, address, data[..Stored(|mem|, address, |data|)])
  {
    hide FlatWrite;
    var m := Stored(|mem|, address + l, |data| - l);
    PrefixSplits(data, l, m);
    FlatWriteAppends(mem, address, data[..l], data[l..][..m]);
  }

  /** The split write is the flat write of what fits, when the address counter does not wrap. */
  lemma {:induction false} WritePagesIsFlat(mem: Bytes, address: u16, data: Bytes)
    requires |mem| % PAGE == 0 && |mem| <= 0x1_0000 && CounterHolds(|mem|, address, |data|)
    ensures WritePages(mem, address, data) == FlatWrite(mem, address, data[..Stored(|mem|, address, |data|)])
    decreases |data|
  {
    if data == [] || address >= |mem| {
      assert FlatWrite(mem, address, []) == mem;
    } else {
      hide PageWrite, FlatWrite, Stored, WritePages, ChunkLength, CounterHolds, Wrap16;
      CounterHoldsNext(|mem|, address, |data|);
      var l := ChunkLength(address, |data|);
      var chunk, rest := data[..l], data[l..];
      var next := FlatWrite(mem, address, chunk);
      FirstChunk(mem, address, data);
      StoredSplits(|mem|, address, |data|);
      if rest == [] {
        WriteNothing(next, Wrap16(address + l));
        NothingStored(|mem|, address + l);
        assert data[..l] == chunk;
      } else {
        NoWrap(address + l);
        WritePagesIsFlat(next, address + l, rest);
        RestIsFlat(mem, address, data, l);
      }
    }
  }

  lemma PrefixSplits(data: Bytes, l: nat, m: nat)
    requires l + m <= |data|
    ensures data[..l + m] == data[..l] + data[l..][..m]
  {
  }

  lemma WriteNothing(mem: Bytes, address: u16)
    ensures WritePages(mem, address, []) == mem
  {
  }

  lemma NothingStored(capacity: nat, address: nat)
    ensures Stored(capacity, address, 0) == 0
  {
  }

  lemma NothingBeyond(capacity: nat, address: nat, count: nat)
    ensures Stored(capacity, address, count) <= count
  {
  }

  /** What a chip with as many bytes as addresses holds after a write whose address wraps. */
  function Rolled(mem: Bytes, address: nat, data: Bytes): (r: Bytes)
    ensures |r| == |mem|
  {
    seq(|mem|, i requires 0 <= i < |mem| =>
      var d := (i - address) % ADDRESSES;
      if d < |data| then data[d] else mem[i])
  }

  lemma FlatIsRolled(mem: Bytes, address: nat, data: Bytes)
    requires |mem| <= ADDRESSES && address + |data| <= ADDRESSES
    ensures FlatWrite(mem, address, data) == Rolled(mem, address, data)
  {
    forall i | 0 <= i < |mem| ensures FlatWrite(mem, address, data)[i] == Rolled(mem, address, data)[i] {
      if i < address {
        assert (i - address) % ADDRESSES == i - address + ADDRESSES;
      }
    }
  }

  lemma LapsDoNotMatter(q: int, a: int)
    ensures Wrap16(q * ADDRESSES + a) == Wrap16(a)
  {
  }

  lemma Distances(i: int, address: int, n: nat)
    requires n <= ADDRESSES
    ensures var d := (i - address) % ADDRESSES;
            (i - Wrap16(address + n)) % ADDRESSES == if d >= n then d - n else d - n + ADDRESSES
  {
    var d, q := (i - address) % ADDRESSES, (i - address) / ADDRESSES;
    var p := (address + n) / ADDRESSES;
    assert i - Wrap16(address + n) == (q + p) * ADDRESSES + (d - n);
    LapsDoNotMatter(q + p, d - n);
  }

  lemma RolledAppends(mem: Bytes, address: nat, a: Bytes, b: Bytes)
    requires |a| + |b| <= ADDRESSES
    ensures Rolled(Rolled(mem, address, a), Wrap16(address + |a|), b) == Rolled(mem, address, a + b)
  {
    var twice := Rolled(Rolled(mem, address, a), Wrap16(address + |a|), b);
    forall i | 0 <= i < |mem| ensures twice[i] == Rolled(mem, address, a + b)[i] {
      Distances(i, address, |a|);
    }
  }

  /** On a chip of 65536 bytes the split write is exactly the write whose address wraps to 0. */
  lemma {:induction false} WritePagesRolls(mem: Bytes, address: u16, data: Bytes)
    requires |mem| == ADDRESSES && |data| <= ADDRESSES
    ensures WritePages(mem, address, data) == Rolled(mem, address, data)
    decreases |data|
  {
    if data == [] {
      assert Rolled(mem, address, []) == mem;
    } else {
      hide PageWrite, FlatWrite, WritePages, ChunkLength, Rolled;
      var l := ChunkLength(address, |data|);
      FirstChunk(mem, address, data);
      CapacityIsPageEnd(ADDRESSES, address, l);
      FlatIsRolled(mem, address, data[..l]);
      WritePagesRolls(FlatWrite(mem, address, data[..l]), Wrap16(address + l), data[l..]);
      RolledAppends(mem, address, data[..l], data[l..]);
      assert data[..l] + data[l..] == data;
    }
  }

  /** What goes wrong where the counter wraps: the byte at address 0 is overwritten. */
  lemma WrapsToAddress0(mem: Bytes, address: u16, data: Bytes)
    requires |mem| == ADDRESSES && |data| <= ADDRESSES && 0 < address && address + |data| > ADDRESSES
    ensures WritePages(mem, address, data)[0] == data[ADDRESSES - address]
  {
    WritePagesRolls(mem, address, data);
    assert (0 - address) % ADDRESSES == ADDRESSES - address;
    hide WritePages;
  }

  ghost predicate AlwaysFlat(capacity: nat, address: u16, count: u16) {
    forall mem: Bytes, data: Bytes :: |mem| == capacity && |data| == count ==>
      WritePages(mem, address, data) == FlatWrite(mem, address, data[..Stored(capacity, address, count)])
  }

  lemma StoredIsPrefix(capacity: nat, address: nat, count: nat)
    ensures Stored(capacity, address, count) <= count
  {
  }

  /** The split write is the flat write of what fits, for every content of chip and data, if and only if the address
      counter holds. */
  lemma FlatIffCounterHolds(capacity: nat, address: u16, count: u16)
    requires capacity % PAGE == 0 && capacity <= ADDRESSES
    ensures AlwaysFlat(capacity, address, count) <==> CounterHolds(capacity, address, count)
  {
    StoredIsPrefix(capacity, address, count);
    if CounterHolds(capacity, address, count) {
      forall mem: Bytes, data: Bytes | |mem| == capacity && |data| == count
        ensures WritePages(mem, address, data) == FlatWrite(mem, address, data[..Stored(capacity, address, count)])
      {
        WritePagesIsFlat(mem, address, data);
      }
    } else {
      var mem: Bytes, data: Bytes := seq(capacity, _ => 0), seq(count, _ => 1);
      WrapsToAddress0(mem, address, data);
      var n := Stored(capacity, address, count);
      assert FlatWrite(mem, address, data[..n])[0] == 0;
    }
  }

  function FlatRead(mem: Bytes, address: nat, count: nat): Bytes
    requires address + count <= |mem|
  {
    mem[address..address + count]
  }

  /** A read that goes on at the beginning of the chip. */
  ghost predicate ReadRolling(mem: Bytes, address: nat, data: Bytes)
    requires mem != []
  {
    forall i :: 0 <= i < |data| ==> data[i] == mem[(address + i) % |mem|]
  }

  /** The chip's content repeats a whole number of times over the addresses. */
  predicate WholeLaps(capacity: nat) {
    capacity > 0 && ADDRESSES % capacity == 0
  }

  lemma NothingRead(mem: Bytes, address: nat)
    requires mem != []
    ensures ReadRolling(mem, address, []) && (address <= |mem| ==> FlatRead(mem, address, 0) == [])
  {
  }

  lemma FlatReadAppends(mem: Bytes, address: nat, a: nat, b: nat)
    requires address + a + b <= |mem|
    ensures FlatRead(mem, address, a) + FlatRead(mem, address + a, b) == FlatRead(mem, address, a + b)
  {
  }

  lemma ReadsWhatWasWritten(mem: Bytes, address: nat, data: Bytes)
    requires address + |data| <= |mem|
    ensures FlatRead(FlatWrite(mem, address, data), address, |data|) == data
  {
  }
}
