/** The adjustment data of a clamp as a byte stream. A read past the end yields zero, or an empty string, and leaves
    the stream at its end. */
module ClampCodec {
  import opened MachineWords
  import opened EepromI2c
  import opened AdjustmentImage

  const NULL_LENGTH: u32 := 0xFFFF_FFFF
  const ORDER: nat := 3

  datatype QString = Null | Units(units: seq<u16>)

  /** The null string and the empty string compare equal. */
  function Text(q: QString): seq<u16> {
    if q.Null? then [] else q.units
  }

  /** A string whose length in bytes fits its length field. */
  type Stored = q: QString | 2 * |Text(q)| < 0x8000_0000 witness Null

  /** The eight bytes of a floating point number. */
  type Double = b: Bytes | |b| == 8 witness [0, 0, 0, 0, 0, 0, 0, 0]

  const ZERO: Double := [0, 0, 0, 0, 0, 0, 0, 0]

  datatype AdjDataNode = AdjDataNode(correction: Double, argument: Double)

  datatype AdjDataItemBase = AdjDataItem(status: u8, coefficients: seq<Double>, nodes: seq<AdjDataNode>)

  type AdjDataItem = i: AdjDataItemBase | |i.coefficients| == |i.nodes| == ORDER + 1
    witness AdjDataItem(0, [ZERO, ZERO, ZERO, ZERO], seq(4, _ => AdjDataNode(ZERO, ZERO)))

  datatype AdjDataRange = AdjDataRange(gain: AdjDataItem, phase: AdjDataItem, offset: AdjDataItem)

  datatype SenseRange = SenseRange(name: Stored, data: AdjDataRange)

  datatype Read<+T> = Read(value: T, rest: Bytes)

  // Writers

  function WriteUnits(units: seq<u16>): (b: Bytes)
    ensures |b| == 2 * |units|
  {
    if units == [] then [] else Be16(units[0]) + WriteUnits(units[1..])
  }

  function WriteString(q: Stored): Bytes {
    if q.Null? then Be32(NULL_LENGTH) else Be32(2 * |q.units|) + WriteUnits(q.units)
  }

  function WriteDoubles(ds: seq<Double>): Bytes {
    if ds == [] then [] else ds[0] + WriteDoubles(ds[1..])
  }

  function WriteNodes(nodes: seq<AdjDataNode>): Bytes {
    if nodes == [] then [] else nodes[0].correction + nodes[0].argument + WriteNodes(nodes[1..])
  }

  function WriteItem(item: AdjDataItem): Bytes {
    [item.status] + WriteDoubles(item.coefficients) + WriteNodes(item.nodes)
  }

  function WriteRange(r: SenseRange): Bytes {
    WriteString(r.name) + (WriteItem(r.data.gain) + (WriteItem(r.data.phase) + WriteItem(r.data.offset)))
  }

  function WriteRanges(rs: seq<SenseRange>): Bytes {
    if rs == [] then [] else WriteRange(rs[0]) + WriteRanges(rs[1..])
  }

  // Readers

  function ReadU8(s: Bytes): Read<u8> {
    if s == [] then Read(0, []) else Read(s[0], s[1..])
  }

  function ReadU32(s: Bytes): Read<u32> {
    if |s| < 4 then Read(0, []) else Read(ReadBe32(s, 0), s[4..])
  }

  function ReadUnits(s: Bytes): (units: seq<u16>)
    ensures |units| == |s| / 2
  {
    if |s| < 2 then [] else [ReadBe16(s, 0)] + ReadUnits(s[2..])
  }

  function ReadString(s: Bytes): (r: Read<Stored>)
    ensures s != [] ==> |r.rest| < |s|
  {
    var length := ReadU32(s);
    if length.value == NULL_LENGTH then Read(Null, length.rest)
    else if length.value % 2 == 1 then Read(Units([]), length.rest)
    else if length.value > |length.rest| || length.value >= 0x8000_0000 then Read(Units([]), [])
    else Read(Units(ReadUnits(length.rest[..length.value])), length.rest[length.value..])
  }

  function ReadDouble(s: Bytes): Read<Double> {
    if |s| < 8 then Read(ZERO, []) else Read(s[..8], s[8..])
  }

  function ReadDoubles(s: Bytes, n: nat): (r: Read<seq<Double>>)
    ensures |r.value| == n && |r.rest| <= |s|
    decreases n
  {
    if n == 0 then Read([], s)
    else
      var first := ReadDouble(s);
      var others := ReadDoubles(first.rest, n - 1);
      Read([first.value] + others.value, others.rest)
  }

  function ReadNodes(s: Bytes, n: nat): (r: Read<seq<AdjDataNode>>)
    ensures |r.value| == n && |r.rest| <= |s|
    decreases n
  {
    if n == 0 then Read([], s)
    else
      var correction := ReadDouble(s);
      var argument := ReadDouble(correction.rest);
      var others := ReadNodes(argument.rest, n - 1);
      Read([AdjDataNode(correction.value, argument.value)] + others.value, others.rest)
  }

  function ReadItem(s: Bytes): (r: Read<AdjDataItem>)
    ensures |r.rest| <= |s|
  {
    var status := ReadU8(s);
    var coefficients := ReadDoubles(status.rest, ORDER + 1);
    var nodes := ReadNodes(coefficients.rest, ORDER + 1);
    Read(AdjDataItem(status.value, coefficients.value, nodes.value), nodes.rest)
  }

  function ReadRangeData(s: Bytes): (r: Read<AdjDataRange>)
    ensures |r.rest| <= |s|
  {
    var gain := ReadItem(s);
    var phase := ReadItem(gain.rest);
    var offset := ReadItem(phase.rest);
    Read(AdjDataRange(gain.value, phase.value, offset.value), offset.rest)
  }

  function ReadRange(s: Bytes): (r: Read<SenseRange>)
    ensures s != [] ==> |r.rest| < |s|
  {
    var name := ReadString(s);
    var data := ReadRangeData(name.rest);
    Read(SenseRange(name.value, data.value), data.rest)
  }

  function ReadRanges(s: Bytes): seq<SenseRange>
    decreases |s|
  {
    if s == [] then [] else
      var first := ReadRange(s);
      [first.value] + ReadRanges(first.rest)
  }

  // Each reader inverts its writer, whatever follows.

  lemma U32ReadsBack(n: u32, rest: Bytes)
    ensures ReadU32(Be32(n) + rest) == Read(n, rest)
  {
    Be32ReadsBack(n, rest);
  }

  lemma {:induction false} UnitsReadBack(units: seq<u16>)
    ensures ReadUnits(WriteUnits(units)) == units
  {
    if units == [] {
    } else {
      var b := WriteUnits(units);
      assert b[0] == units[0] / 0x100 && b[1] == units[0] % 0x100;
      assert b[2..] == WriteUnits(units[1..]);
      UnitsReadBack(units[1..]);
    }
  }

  lemma StringReadsBack(q: Stored, rest: Bytes)
    ensures ReadString(WriteString(q) + rest) == Read(q, rest)
  {
    if q.Null? {
      U32ReadsBack(NULL_LENGTH, rest);
    } else {
      var body := WriteUnits(q.units);
      assert WriteString(q) + rest == Be32(2 * |q.units|) + (body + rest);
      U32ReadsBack(2 * |q.units|, body + rest);
      assert (body + rest)[..|body|] == body && (body + rest)[|body|..] == rest;
      UnitsReadBack(q.units);
    }
  }

  lemma DoubleReadsBack(d: Double, rest: Bytes)
    ensures ReadDouble(d + rest) == Read(d, rest)
  {
    assert (d + rest)[..8] == d && (d + rest)[8..] == rest;
  }

  lemma {:induction false} DoublesReadBack(ds: seq<Double>, rest: Bytes)
    ensures ReadDoubles(WriteDoubles(ds) + rest, |ds|) == Read(ds, rest)
  {
    if ds == [] {
      assert [] + rest == rest;
    } else {
      var tail := WriteDoubles(ds[1..]) + rest;
      assert WriteDoubles(ds) + rest == ds[0] + tail;
      DoubleReadsBack(ds[0], tail);
      DoublesReadBack(ds[1..], rest);
      assert [ds[0]] + ds[1..] == ds;
    }
  }

  lemma {:induction false} NodesReadBack(nodes: seq<AdjDataNode>, rest: Bytes)
    ensures ReadNodes(WriteNodes(nodes) + rest, |nodes|) == Read(nodes, rest)
  {
    if nodes == [] {
      assert [] + rest == rest;
    } else {
      var tail := WriteNodes(nodes[1..]) + rest;
      assert WriteNodes(nodes) + rest == nodes[0].correction + (nodes[0].argument + tail);
      DoubleReadsBack(nodes[0].correction, nodes[0].argument + tail);
      DoubleReadsBack(nodes[0].argument, tail);
      NodesReadBack(nodes[1..], rest);
      assert [nodes[0]] + nodes[1..] == nodes;
    }
  }

  lemma ItemReadsBack(item: AdjDataItem, rest: Bytes)
    ensures ReadItem(WriteItem(item) + rest) == Read(item, rest)
  {
    hide ReadDoubles, ReadNodes, WriteDoubles, WriteNodes;
    var nodes := WriteNodes(item.nodes) + rest;
    var coefficients := WriteDoubles(item.coefficients) + nodes;
    assert WriteItem(item) + rest == [item.status] + coefficients;
    assert ([item.status] + coefficients)[1..] == coefficients;
    DoublesReadBack(item.coefficients, nodes);
    NodesReadBack(item.nodes, rest);
  }

  lemma RangeReadsBack(r: SenseRange, rest: Bytes)
    ensures ReadRange(WriteRange(r) + rest) == Read(r, rest)
  {
    hide WriteString, WriteItem, ReadString, ReadItem;
    var offset := WriteItem(r.data.offset) + rest;
    var phase := WriteItem(r.data.phase) + offset;
    var gain := WriteItem(r.data.gain) + phase;
    assert WriteRange(r) + rest == WriteString(r.name) + gain;
    StringReadsBack(r.name, gain);
    ItemReadsBack(r.data.gain, phase);
    ItemReadsBack(r.data.phase, offset);
    ItemReadsBack(r.data.offset, rest);
  }

  lemma RangeIsNotEmpty(r: SenseRange)
    ensures WriteRange(r) != []
  {
  }

  lemma FirstRangeReadsBack(r: SenseRange, rest: Bytes)
    ensures ReadRanges(WriteRange(r) + rest) == [r] + ReadRanges(rest)
  {
    hide WriteRange, ReadRange;
    RangeIsNotEmpty(r);
    RangeReadsBack(r, rest);
    assert WriteRange(r) + rest != [];
  }

  lemma {:induction false} RangesReadBack(rs: seq<SenseRange>)
    ensures ReadRanges(WriteRanges(rs)) == rs
  {
    hide WriteRange, ReadRange, ReadRanges;
    if rs == [] {
      NothingToRead();
    } else {
      FirstRangeReadsBack(rs[0], WriteRanges(rs[1..]));
      RangesReadBack(rs[1..]);
    }
  }

  lemma NothingToRead()
    ensures ReadRanges([]) == []
  {
  }

  lemma {:induction false} WriteRangesAppends(a: seq<SenseRange>, r: SenseRange)
    ensures WriteRanges(a + [r]) == WriteRanges(a) + WriteRange(r)
  {
    hide WriteRange;
    if a == [] {
      assert WriteRanges([r]) == WriteRange(r) + WriteRanges([]) == WriteRange(r);
    } else {
      assert (a + [r])[1..] == a[1..] + [r];
      WriteRangesAppends(a[1..], r);
    }
  }

  lemma {:induction false} WriteRangesOfBoth(a: seq<SenseRange>, b: seq<SenseRange>)
    ensures WriteRanges(a + b) == WriteRanges(a) + WriteRanges(b)
  {
    hide WriteRange;
    if a == [] {
      assert a + b == b;
    } else {
      assert (a + b)[1..] == a[1..] + b;
      WriteRangesOfBoth(a[1..], b);
    }
  }
}
