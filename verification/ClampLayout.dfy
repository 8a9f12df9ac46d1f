/** Where the stored data of a clamp has its bytes, and what a string that is cut off reads as. */
module ClampLayout {
  import opened MachineWords
  import opened EepromI2c
  import opened AdjustmentImage
  import opened ClampCodec
  import opened ClampImage

  const ITEM_LEN: nat := 97

  lemma {:induction false} DoublesAt(ds: seq<Double>, i: nat)
    requires i < |ds|
    ensures |WriteDoubles(ds)| == 8 * |ds| && WriteDoubles(ds)[8 * i..8 * i + 8] == ds[i]
  {
    var all := WriteDoubles(ds);
    if |ds| > 1 {
      DoublesAt(ds[1..], if i == 0 then 0 else i - 1);
      if i > 0 {
        assert all[8 * i..8 * i + 8] == WriteDoubles(ds[1..])[8 * (i - 1)..8 * (i - 1) + 8];
      }
    } else {
      var rest := ds[1..];
      assert rest == [] && WriteDoubles(rest) == [];
      assert all == ds[0] + WriteDoubles(rest);
    }
    assert i == 0 ==> all[..8] == ds[0];
  }

  lemma {:induction false} NodesAt(nodes: seq<AdjDataNode>, i: nat)
    requires i < |nodes|
    ensures var all := WriteNodes(nodes);
            && |all| == 16 * |nodes|
            && all[16 * i..16 * i + 8] == nodes[i].correction && all[16 * i + 8..16 * i + 16] == nodes[i].argument
  {
    var all, first := WriteNodes(nodes), nodes[0].correction + nodes[0].argument;
    var rest := WriteNodes(nodes[1..]);
    assert all == first + rest && |first| == 16;
    if |nodes| > 1 {
      NodesAt(nodes[1..], if i == 0 then 0 else i - 1);
      if i > 0 {
        assert all[16 * i..16 * i + 8] == rest[16 * (i - 1)..16 * (i - 1) + 8];
        assert all[16 * i + 8..16 * i + 16] == rest[16 * (i - 1) + 8..16 * (i - 1) + 16];
      }
    }
    assert i == 0 ==> all[..8] == nodes[0].correction && all[8..16] == nodes[0].argument;
  }

  /** An item is 97 bytes long: its status, four coefficients, and four nodes of a correction and an argument. */
  ghost predicate ItemBytes(item: AdjDataItem, b: Bytes) {
    && |b| == ITEM_LEN && b[0] == item.status
    && (forall i :: 0 <= i < 4 ==> b[1 + 8 * i..9 + 8 * i] == item.coefficients[i])
    && (forall i :: 0 <= i < 4 ==> b[33 + 16 * i..41 + 16 * i] == item.nodes[i].correction
                                   && b[41 + 16 * i..49 + 16 * i] == item.nodes[i].argument)
  }

  lemma SliceOfMiddle(a: Bytes, b: Bytes, c: Bytes, i: nat, j: nat)
    requires i <= j <= |b|
    ensures (a + b + c)[|a| + i..|a| + j] == b[i..j]
  {
  }

  lemma CoefficientAt(item: AdjDataItem, i: nat)
    requires i < 4
    ensures |WriteItem(item)| == ITEM_LEN && WriteItem(item)[1 + 8 * i..9 + 8 * i] == item.coefficients[i]
  {
    hide WriteDoubles, WriteNodes;
    var cs, ns := WriteDoubles(item.coefficients), WriteNodes(item.nodes);
    DoublesAt(item.coefficients, i);
    NodesAt(item.nodes, 0);
    SliceOfMiddle([item.status], cs, ns, 8 * i, 8 * i + 8);
  }

  lemma NodeAt(item: AdjDataItem, i: nat)
    requires i < 4
    ensures |WriteItem(item)| == ITEM_LEN && WriteItem(item)[33 + 16 * i..41 + 16 * i] == item.nodes[i].correction
    ensures WriteItem(item)[41 + 16 * i..49 + 16 * i] == item.nodes[i].argument
  {
    hide WriteDoubles, WriteNodes;
    var cs, ns := WriteDoubles(item.coefficients), WriteNodes(item.nodes);
    DoublesAt(item.coefficients, 0);
    NodesAt(item.nodes, i);
    SliceOfMiddle([item.status] + cs, ns, [], 16 * i, 16 * i + 8);
    SliceOfMiddle([item.status] + cs, ns, [], 16 * i + 8, 16 * i + 16);
    assert WriteItem(item) == [item.status] + cs + ns + [];
  }

  lemma ItemLayout(item: AdjDataItem)
    ensures ItemBytes(item, WriteItem(item))
  {
    CoefficientAt(item, 0);
    assert WriteItem(item)[0] == item.status;
    hide WriteItem;
    forall i | 0 <= i < 4 ensures WriteItem(item)[1 + 8 * i..9 + 8 * i] == item.coefficients[i] {
      CoefficientAt(item, i);
    }
    forall i | 0 <= i < 4
      ensures WriteItem(item)[33 + 16 * i..41 + 16 * i] == item.nodes[i].correction
      ensures WriteItem(item)[41 + 16 * i..49 + 16 * i] == item.nodes[i].argument
    {
      NodeAt(item, i);
    }
  }

  /** A string is its length in bytes, high byte first, and its units, high byte first; the null string is four bytes of
      0xFF. */
  ghost predicate StringBytes(q: Stored, b: Bytes) {
    if q.Null? then b == [0xFF, 0xFF, 0xFF, 0xFF]
    else
      && |b| == 4 + 2 * |q.units|
      && b[0] as int * 0x100_0000 + b[1] as int * 0x1_0000 + b[2] as int * 0x100 + b[3] as int == 2 * |q.units|
      && forall i :: 0 <= i < |q.units| ==> b[4 + 2 * i] as int * 0x100 + b[5 + 2 * i] as int == q.units[i] as int
  }

  lemma {:induction false} UnitsAt(units: seq<u16>, i: nat)
    requires i < |units|
    ensures var b := WriteUnits(units); b[2 * i] as int * 0x100 + b[2 * i + 1] as int == units[i] as int
  {
    if i == 0 {
    } else {
      UnitsAt(units[1..], i - 1);
      assert WriteUnits(units)[2 * i] == WriteUnits(units[1..])[2 * (i - 1)];
      assert WriteUnits(units)[2 * i + 1] == WriteUnits(units[1..])[2 * (i - 1) + 1];
    }
  }

  lemma Be32Bytes(n: u32)
    ensures var b := Be32(n);
            b[0] as int * 0x100_0000 + b[1] as int * 0x1_0000 + b[2] as int * 0x100 + b[3] as int == n as int
  {
    var high, low := n / 0x1_0000, n % 0x1_0000;
    assert Be32(n)[0] == high / 0x100 && Be32(n)[1] == high % 0x100 && Be32(n)[2] == low / 0x100 && Be32(n)[3] == low % 0x100;
  }

  lemma StringLayout(q: Stored)
    ensures StringBytes(q, WriteString(q))
  {
    if !q.Null? {
      Be32Bytes(2 * |q.units|);
      var b, units := WriteString(q), WriteUnits(q.units);
      hide WriteUnits;
      forall i | 0 <= i < |q.units| ensures b[4 + 2 * i] as int * 0x100 + b[5 + 2 * i] as int == q.units[i] as int {
        UnitsAt(q.units, i);
        assert b[4 + 2 * i] == units[2 * i] && b[5 + 2 * i] == units[2 * i + 1];
      }
    }
  }

  /** A record is the name of its range and its gain, phase and offset items. */
  lemma RangeLayout(r: SenseRange)
    ensures var b, n := WriteRange(r), |WriteString(r.name)|;
            && |b| == n + 3 * ITEM_LEN && StringBytes(r.name, b[..n])
            && ItemBytes(r.data.gain, b[n..n + ITEM_LEN])
            && ItemBytes(r.data.phase, b[n + ITEM_LEN..n + 2 * ITEM_LEN])
            && ItemBytes(r.data.offset, b[n + 2 * ITEM_LEN..])
  {
    hide WriteItem, WriteString, ItemBytes, StringBytes;
    ItemLayout(r.data.gain);
    ItemLayout(r.data.phase);
    ItemLayout(r.data.offset);
    StringLayout(r.name);
    ItemLength(r.data.gain);
    ItemLength(r.data.phase);
    ItemLength(r.data.offset);
    FourParts(WriteString(r.name), WriteItem(r.data.gain), WriteItem(r.data.phase), WriteItem(r.data.offset));
  }

  lemma ItemLength(item: AdjDataItem)
    ensures |WriteItem(item)| == ITEM_LEN
  {
    hide WriteItem;
    ItemLayout(item);
  }

  lemma FourParts(a: Bytes, b: Bytes, c: Bytes, d: Bytes)
    ensures var s := a + (b + (c + d));
            && |s| == |a| + |b| + |c| + |d| && s[..|a|] == a && s[|a|..|a| + |b|] == b
            && s[|a| + |b|..|a| + |b| + |c|] == c && s[|a| + |b| + |c|..] == d
  {
    var s := a + (b + (c + d));
    assert s == a + b + (c + d) && s == (a + b) + c + d && s == (a + b + c) + d + [];
    SliceOfMiddle(a, b, c + d, 0, |b|);
    SliceOfMiddle(a + b, c, d, 0, |c|);
    SliceOfMiddle(a + b + c, d, [], 0, |d|);
    assert s[|a| + |b| + |c|..] == s[|a| + |b| + |c|..|s|];
  }

  /** Some strings one behind the other. */
  function Strings(qs: seq<Stored>): Bytes {
    if qs == [] then [] else WriteString(qs[0]) + Strings(qs[1..])
  }

  /** A clamp's data starts with its type in one byte and its flags in four, high byte first; the name of the type, the
      version, the serial number and the date follow, and then the records of the primary and of the secondary ranges. */
  lemma PayloadLayout(typeName: TypeName, c: ClampData)
    ensures var b, h := Payload(typeName, c), c.header;
            && |b| >= 5 && b[0] == h.typ
            && b[1] as int * 0x100_0000 + b[2] as int * 0x1_0000 + b[3] as int * 0x100 + b[4] as int == h.flags as int
            && b[5..] == Strings([typeName(h.typ), h.version, h.serial, h.adjDate]) + WriteRanges(c.ranges) + WriteRanges(c.secondary)
  {
    var b, h := Payload(typeName, c), c.header;
    WriteRangesOfBoth(c.ranges, c.secondary);
    Be32Bytes(h.flags);
    FourStrings(typeName(h.typ), h.version, h.serial, h.adjDate);
    hide WriteString, WriteRanges, Strings;
    var strings := Strings([typeName(h.typ), h.version, h.serial, h.adjDate]);
    assert WriteHeader(typeName, h) == [h.typ] + Be32(h.flags) + strings;
    assert b == [h.typ] + Be32(h.flags) + (strings + WriteRanges(c.All()));
  }

  lemma FourStrings(p: Stored, q: Stored, r: Stored, s: Stored)
    ensures Strings([p, q, r, s]) == WriteString(p) + (WriteString(q) + (WriteString(r) + WriteString(s)))
  {
    hide WriteString;
    var one, two, three, four: seq<Stored> := [s], [r, s], [q, r, s], [p, q, r, s];
    assert one[1..] == [] && two[1..] == one && three[1..] == two && four[1..] == three;
    assert Strings(one) == WriteString(s) + Strings([]);
    assert Strings(one) == WriteString(s);
    assert Strings(two) == WriteString(r) + Strings(one);
    assert Strings(three) == WriteString(q) + Strings(two);
    assert Strings(four) == WriteString(p) + Strings(three);
  }

  /** A string that is cut off anywhere reads as an empty one, and ends the stream. */
  lemma CutStringIsEmpty(q: Stored, k: nat)
    requires k < |WriteString(q)|
    ensures ReadString(WriteString(q)[..k]) == Read(Units([]), [])
  {
    var s := WriteString(q)[..k];
    if k >= 4 && !q.Null? {
      assert s == Be32(2 * |q.units|) + s[4..];
      U32ReadsBack(2 * |q.units|, s[4..]);
    }
    hide WriteUnits, Be32;
  }

  // ---------- what any stream reads as

  /** The eight bytes at a place of a stream, or zeros when they are not all there. */
  function DoubleAt(s: Bytes, at: nat): Double {
    if at + 8 <= |s| then s[at..at + 8] else [0, 0, 0, 0, 0, 0, 0, 0]
  }

  function From(s: Bytes, at: nat): Bytes {
    if at <= |s| then s[at..] else []
  }

  lemma OneDouble(s: Bytes)
    ensures ReadDouble(s) == Read(DoubleAt(s, 0), From(s, 8))
  {
  }

  lemma Further(s: Bytes, at: nat, more: nat)
    ensures From(From(s, at), more) == From(s, at + more) && DoubleAt(From(s, at), more) == DoubleAt(s, at + more)
  {
    if at + more + 8 <= |s| {
      assert s[at..][more..more + 8] == s[at + more..at + more + 8];
    }
  }

  lemma {:induction false} DoublesOf(s: Bytes, n: nat)
    ensures ReadDoubles(s, n).rest == From(s, 8 * n)
    ensures forall i :: 0 <= i < n ==> ReadDoubles(s, n).value[i] == DoubleAt(s, 8 * i)
    decreases n
  {
    hide DoubleAt, From, ReadDouble;
    if n == 0 {
      FromStart(s);
    } else {
      OneDouble(s);
      DoublesOf(From(s, 8), n - 1);
      Further(s, 8, 8 * (n - 1));
      forall i | 0 <= i < n ensures ReadDoubles(s, n).value[i] == DoubleAt(s, 8 * i) {
        if i > 0 {
          Further(s, 8, 8 * (i - 1));
        }
      }
    }
  }

  lemma FromStart(s: Bytes)
    ensures From(s, 0) == s
  {
  }

  lemma {:induction false} NodesOf(s: Bytes, n: nat)
    ensures ReadNodes(s, n).rest == From(s, 16 * n)
    ensures forall i :: 0 <= i < n ==>
              ReadNodes(s, n).value[i] == AdjDataNode(DoubleAt(s, 16 * i), DoubleAt(s, 16 * i + 8))
    decreases n
  {
    hide DoubleAt, From, ReadDouble;
    if n == 0 {
      FromStart(s);
    } else {
      OneDouble(s);
      OneDouble(From(s, 8));
      Further(s, 8, 0);
      Further(s, 8, 8);
      NodesOf(From(s, 16), n - 1);
      Further(s, 16, 16 * (n - 1));
      forall i | 0 <= i < n
        ensures ReadNodes(s, n).value[i] == AdjDataNode(DoubleAt(s, 16 * i), DoubleAt(s, 16 * i + 8))
      {
        if i > 0 {
          Further(s, 16, 16 * (i - 1));
          Further(s, 16, 16 * (i - 1) + 8);
        }
      }
    }
  }

  /** Reading an item from any stream takes each number from its place, or zero when the stream does not reach so far. */
  lemma ItemOfAnyStream(s: Bytes)
    ensures var r := ReadItem(s);
            && r.rest == From(s, ITEM_LEN) && r.value.status == (if s == [] then 0 else s[0])
            && (forall i :: 0 <= i < 4 ==> r.value.coefficients[i] == DoubleAt(s, 1 + 8 * i))
            && (forall i :: 0 <= i < 4 ==> r.value.nodes[i] == AdjDataNode(DoubleAt(s, 33 + 16 * i), DoubleAt(s, 41 + 16 * i)))
  {
    hide ReadDoubles, ReadNodes, DoubleAt, From;
    StatusOf(s);
    DoublesOf(From(s, 1), 4);
    Further(s, 1, 32);
    NodesOf(From(s, 33), 4);
    Further(s, 33, 64);
    forall i | 0 <= i < 4
      ensures DoubleAt(From(s, 1), 8 * i) == DoubleAt(s, 1 + 8 * i)
      ensures DoubleAt(From(s, 33), 16 * i) == DoubleAt(s, 33 + 16 * i)
      ensures DoubleAt(From(s, 33), 16 * i + 8) == DoubleAt(s, 41 + 16 * i)
    {
      Further(s, 1, 8 * i);
      Further(s, 33, 16 * i);
      Further(s, 33, 16 * i + 8);
    }
  }

  lemma StatusOf(s: Bytes)
    ensures ReadU8(s) == Read(if s == [] then 0 else s[0], From(s, 1))
  {
  }

  /** The number in the four bytes at a place, high byte first, or zero when they are not all there. */
  function NumberAt(s: Bytes, at: nat): int {
    if at + 4 <= |s|
    then s[at] as int * 0x100_0000 + s[at + 1] as int * 0x1_0000 + s[at + 2] as int * 0x100 + s[at + 3] as int
    else 0
  }

  /** Reading a string from any stream: null for the length of all ones; empty for an odd length, and for one that the
      stream cannot hold, which ends the stream; else as many units as the length has pairs of bytes. */
  lemma StringOfAnyStream(s: Bytes)
    ensures var r, n, body := ReadString(s), NumberAt(s, 0), From(s, 4);
            && (n == 0xFFFF_FFFF ==> r == Read(Null, body))
            && (n != 0xFFFF_FFFF && n % 2 == 1 ==> r == Read(Units([]), body))
            && (n % 2 == 0 && (n > |body| || n >= 0x8000_0000) ==> r == Read(Units([]), []))
            && (n % 2 == 0 && n <= |body| && n < 0x8000_0000 ==>
                  && r.rest == body[n..] && r.value.Units? && |r.value.units| == n / 2
                  && forall i :: 0 <= i < n / 2 ==>
                       r.value.units[i] as int == body[2 * i] as int * 0x100 + body[2 * i + 1] as int)
  {
    hide ReadUnits, From;
    LengthOf(s);
    var n, body := NumberAt(s, 0), From(s, 4);
    if n % 2 == 0 && n <= |body| && n < 0x8000_0000 {
      var k: nat := n;
      forall i | 0 <= i < k / 2
        ensures ReadUnits(body[..k])[i] as int == body[2 * i] as int * 0x100 + body[2 * i + 1] as int
      {
        UnitOf(body[..k], i);
      }
    }
    hide NumberAt;
  }

  lemma LengthOf(s: Bytes)
    ensures 0 <= NumberAt(s, 0) <= 0xFFFF_FFFF && ReadU32(s) == Read(NumberAt(s, 0), From(s, 4))
  {
  }

  lemma {:induction false} UnitOf(s: Bytes, i: nat)
    requires 2 * i + 1 < |s|
    ensures ReadUnits(s)[i] as int == s[2 * i] as int * 0x100 + s[2 * i + 1] as int
  {
    if i == 0 {
    } else {
      UnitOf(s[2..], i - 1);
    }
  }
}
