/** What a clamp stores, and what reading it back does to a clamp with ranges of its own. */
module ClampImage {
  import opened MachineWords
  import opened EepromI2c
  import opened AdjustmentImage
  import opened AdjustmentStorage
  import opened ClampCodec

  datatype Header = Header(typ: u8, flags: u32, version: Stored, serial: Stored, adjDate: Stored)

  datatype ClampData = ClampData(header: Header, ranges: seq<SenseRange>, secondary: seq<SenseRange>) {
    function All(): seq<SenseRange> {
      ranges + secondary
    }
  }

  type TypeName = u8 -> Stored

  /** The name of the type is stored for compatibility and skipped when reading. */
  function WriteHeader(typeName: TypeName, h: Header): Bytes {
    [h.typ] + (Be32(h.flags) + (WriteString(typeName(h.typ))
    + (WriteString(h.version) + (WriteString(h.serial) + WriteString(h.adjDate)))))
  }

  function ReadHeader(s: Bytes): Read<Header> {
    var typ := ReadU8(s);
    var flags := ReadU32(typ.rest);
    var skipped := ReadString(flags.rest);
    var version := ReadString(skipped.rest);
    var serial := ReadString(version.rest);
    var adjDate := ReadString(serial.rest);
    Read(Header(typ.value, flags.value, version.value, serial.value, adjDate.value), adjDate.rest)
  }

  lemma HeaderReadsBack(typeName: TypeName, h: Header, rest: Bytes)
    ensures ReadHeader(WriteHeader(typeName, h) + rest) == Read(h, rest)
  {
    hide WriteString, ReadString, Be32, ReadU32;
    var adjDate := WriteString(h.adjDate) + rest;
    var serial := WriteString(h.serial) + adjDate;
    var version := WriteString(h.version) + serial;
    var skipped := WriteString(typeName(h.typ)) + version;
    var flags := Be32(h.flags) + skipped;
    assert WriteHeader(typeName, h) + rest == [h.typ] + flags;
    assert ([h.typ] + flags)[1..] == flags;
    U32ReadsBack(h.flags, skipped);
    StringReadsBack(typeName(h.typ), version);
    StringReadsBack(h.version, serial);
    StringReadsBack(h.serial, adjDate);
    StringReadsBack(h.adjDate, rest);
  }

  function Payload(typeName: TypeName, c: ClampData): Bytes {
    WriteHeader(typeName, c.header) + WriteRanges(c.All())
  }

  /** The first range of that name: the primary ranges come before the secondary ones. */
  function FirstIndex(all: seq<SenseRange>, name: Stored): (i: nat)
    ensures i <= |all|
  {
    if all == [] || Text(all[0].name) == Text(name) then 0 else 1 + FirstIndex(all[1..], name)
  }

  lemma {:induction false} FirstIndexIs(all: seq<SenseRange>, name: Stored)
    ensures forall j :: 0 <= j < FirstIndex(all, name) ==> Text(all[j].name) != Text(name)
    ensures FirstIndex(all, name) < |all| ==> Text(all[FirstIndex(all, name)].name) == Text(name)
  {
    if all == [] || Text(all[0].name) == Text(name) {
    } else {
      FirstIndexIs(all[1..], name);
      forall j | 0 <= j < FirstIndex(all, name) ensures Text(all[j].name) != Text(name) {
        assert j > 0 ==> all[j] == all[1..][j - 1];
      }
    }
  }

  /** One record read from the stream. */
  function Put(all: seq<SenseRange>, record: SenseRange): (r: seq<SenseRange>)
    ensures |r| == |all|
  {
    var i := FirstIndex(all, record.name);
    if i < |all| then all[i := all[i].(data := record.data)] else all
  }

  function Apply(all: seq<SenseRange>, records: seq<SenseRange>): (r: seq<SenseRange>)
    ensures |r| == |all|
    decreases |records|
  {
    if records == [] then all else Apply(Put(all, records[0]), records[1..])
  }

  /** How many records found a range. */
  function Hits(all: seq<SenseRange>, records: seq<SenseRange>): nat {
    if records == [] then 0
    else (if FirstIndex(all, records[0].name) < |all| then 1 else 0) + Hits(all, records[1..])
  }

  /** Reading the body of the stored data into a clamp. */
  function Decoded(was: ClampData, body: Bytes): ClampData {
    var h := ReadHeader(body);
    var all := Apply(was.All(), ReadRanges(h.rest));
    ClampData(h.value, all[..|was.ranges|], all[|was.ranges|..])
  }

  predicate SameNames(a: seq<SenseRange>, b: seq<SenseRange>) {
    |a| == |b| && forall i :: 0 <= i < |a| ==> Text(a[i].name) == Text(b[i].name)
  }

  predicate DistinctNames(all: seq<SenseRange>) {
    forall i, j :: 0 <= i < j < |all| ==> Text(all[i].name) != Text(all[j].name)
  }

  lemma {:induction false} SameNamesSameIndex(a: seq<SenseRange>, b: seq<SenseRange>, name: Stored)
    requires SameNames(a, b)
    ensures FirstIndex(a, name) == FirstIndex(b, name)
  {
    if a == [] || Text(a[0].name) == Text(name) {
    } else {
      SameNamesSameIndex(a[1..], b[1..], name);
    }
  }

  lemma PutKeepsNames(all: seq<SenseRange>, record: SenseRange)
    ensures SameNames(Put(all, record), all)
  {
  }

  /** The last record of that name. */
  function LastData(records: seq<SenseRange>, name: Stored, otherwise: AdjDataRange): AdjDataRange {
    if records == [] then otherwise
    else LastData(records[1..], name, if Text(records[0].name) == Text(name) then records[0].data else otherwise)
  }

  /** What every range holds after reading any records: the first range of a name gets the last record of that name,
      and a later range of the same name is never written. */
  lemma {:induction false} ApplyEffect(all: seq<SenseRange>, records: seq<SenseRange>, j: nat)
    requires j < |all|
    ensures Apply(all, records)[j].name == all[j].name
    ensures Apply(all, records)[j].data ==
            if FirstIndex(all, all[j].name) == j then LastData(records, all[j].name, all[j].data) else all[j].data
    decreases |records|
  {
    if records == [] {
    } else {
      var record := records[0];
      var next := Put(all, record);
      PutKeepsNames(all, record);
      SameNamesSameIndex(next, all, all[j].name);
      FirstIndexIs(all, record.name);
      FirstIndexIs(all, all[j].name);
      if Text(record.name) == Text(all[j].name) {
        SameText(all, record.name, all[j].name);
      }
      ApplyEffect(next, records[1..], j);
    }
  }

  lemma {:induction false} SameText(all: seq<SenseRange>, a: Stored, b: Stored)
    requires Text(a) == Text(b)
    ensures FirstIndex(all, a) == FirstIndex(all, b)
  {
    if all == [] {
    } else {
      SameText(all[1..], a, b);
    }
  }

  /** Every record finds a range when the names are the same, distinct or not: reading reports success. */
  lemma {:induction false} AllHit(all: seq<SenseRange>, records: seq<SenseRange>)
    requires forall k :: 0 <= k < |records| ==> FirstIndex(all, records[k].name) < |all|
    ensures Hits(all, records) == |records|
  {
    if records == [] {
    } else {
      forall k | 0 <= k < |records[1..]| ensures FirstIndex(all, records[1..][k].name) < |all| {
        assert records[1..][k] == records[k + 1];
      }
      AllHit(all, records[1..]);
    }
  }

  lemma OwnRecordsHit(all: seq<SenseRange>, records: seq<SenseRange>)
    requires SameNames(all, records)
    ensures Hits(all, records) == |all|
  {
    forall k | 0 <= k < |records| ensures FirstIndex(all, records[k].name) < |all| {
      FirstIndexIs(all, records[k].name);
    }
    AllHit(all, records);
  }

  lemma {:induction false} LastDataOfDistinct(records: seq<SenseRange>, j: nat, name: Stored, otherwise: AdjDataRange)
    requires j < |records| && Text(records[j].name) == Text(name) && DistinctNames(records)
    ensures LastData(records, name, otherwise) == records[j].data
  {
    if j == 0 {
      NoOtherRecord(records[1..], name, records[0].data);
    } else {
      LastDataOfDistinct(records[1..], j - 1, name, otherwise);
    }
  }

  lemma {:induction false} NoOtherRecord(records: seq<SenseRange>, name: Stored, otherwise: AdjDataRange)
    requires forall k :: 0 <= k < |records| ==> Text(records[k].name) != Text(name)
    ensures LastData(records, name, otherwise) == otherwise
  {
    if records == [] {
    } else {
      forall k | 0 <= k < |records[1..]| ensures Text(records[1..][k].name) != Text(name) {
        assert records[1..][k] == records[k + 1];
      }
      NoOtherRecord(records[1..], name, otherwise);
    }
  }

  /** After reading the records, every range holds the data of its own record. */
  predicate Restores(all: seq<SenseRange>, records: seq<SenseRange>)
    requires |all| == |records|
  {
    forall j :: 0 <= j < |all| ==> Apply(all, records)[j].data == records[j].data
  }

  lemma DistinctRestores(all: seq<SenseRange>, records: seq<SenseRange>)
    requires SameNames(all, records) && DistinctNames(records)
    ensures Restores(all, records)
  {
    forall j | 0 <= j < |all| ensures Apply(all, records)[j].data == records[j].data {
      FirstIndexIs(all, all[j].name);
      ApplyEffect(all, records, j);
      LastDataOfDistinct(records, j, all[j].name, all[j].data);
    }
  }

  lemma SharedNameIsNotRestored(records: seq<SenseRange>, i: nat, j: nat, other: AdjDataRange)
    requires i < j < |records| && Text(records[i].name) == Text(records[j].name) && other != records[j].data
    ensures var all := records[j := records[j].(data := other)];
            SameNames(all, records) && !Restores(all, records)
  {
    var all := records[j := records[j].(data := other)];
    FirstIndexIs(all, all[j].name);
    ApplyEffect(all, records, j);
    assert Apply(all, records)[j].data == other;
  }

  function Other(d: AdjDataRange): (r: AdjDataRange)
    ensures r != d
  {
    var changed: AdjDataItem := d.gain.(status := if d.gain.status == 0 then 1 else 0);
    d.(gain := changed)
  }

  /** Distinct names are exactly what reading back needs: with them every clamp with the same ranges is restored, and
      without them some clamp with the same ranges is not, although reading reports success. */
  lemma RestoresIffDistinct(records: seq<SenseRange>)
    ensures DistinctNames(records) <==>
            forall all: seq<SenseRange> :: SameNames(all, records) ==> Restores(all, records)
  {
    if DistinctNames(records) {
      forall all: seq<SenseRange> | SameNames(all, records) ensures Restores(all, records) {
        DistinctRestores(all, records);
      }
    } else {
      var i, j :| 0 <= i < j < |records| && Text(records[i].name) == Text(records[j].name);
      SharedNameIsNotRestored(records, i, j, Other(records[j].data));
    }
  }

  /** Success is decided by counting: two records for one range hide that another range got none. */
  lemma RepeatedRecordHidesMissingOne(a: SenseRange, b: SenseRange, first: AdjDataRange, second: AdjDataRange)
    requires Text(a.name) != Text(b.name)
    ensures var records := [a.(data := first), a.(data := second)];
            Hits([a, b], records) == 2 && Apply([a, b], records)[1] == b
  {
    var records := [a.(data := first), a.(data := second)];
    var once := [a.(data := first), b];
    var twice := [a.(data := second), b];
    assert records[1..] == [a.(data := second)] && records[1..][1..] == [];
    assert Put([a, b], records[0]) == once && Put(once, records[1]) == twice;
    assert Apply([a, b], records) == Apply(once, records[1..]) == Apply(twice, []);
    assert Hits([a, b], records[1..]) == 1;
  }

  function HitSet(all: seq<SenseRange>, records: seq<SenseRange>): set<nat> {
    if records == [] then {}
    else
      var i := FirstIndex(all, records[0].name);
      (if i < |all| then {i} else {}) + HitSet(all, records[1..])
  }

  predicate NoneHits(all: seq<SenseRange>, records: seq<SenseRange>, i: nat) {
    forall k :: 0 <= k < |records| ==> FirstIndex(all, records[k].name) != i
  }

  /** No two records find the same range. Records that find none may repeat. */
  predicate HitsApart(all: seq<SenseRange>, records: seq<SenseRange>) {
    forall i, j :: 0 <= i < j < |records| && FirstIndex(all, records[i].name) < |all| ==>
      FirstIndex(all, records[i].name) != FirstIndex(all, records[j].name)
  }

  lemma {:induction false} HitSetIs(all: seq<SenseRange>, records: seq<SenseRange>, i: nat)
    ensures i in HitSet(all, records) <==> i < |all| && !NoneHits(all, records, i)
  {
    if records == [] {
    } else {
      HitSetIs(all, records[1..], i);
      assert forall k :: 0 < k < |records| ==> records[k] == records[1..][k - 1];
      assert forall k :: 0 <= k < |records[1..]| ==> records[1..][k] == records[k + 1];
    }
  }

  lemma HitsApartStep(all: seq<SenseRange>, records: seq<SenseRange>)
    requires records != []
    ensures var i := FirstIndex(all, records[0].name);
            HitsApart(all, records) <==> HitsApart(all, records[1..]) && (i < |all| ==> NoneHits(all, records[1..], i))
  {
    var rest := records[1..];
    assert forall k :: 0 < k < |records| ==> records[k] == rest[k - 1];
    assert forall k :: 0 <= k < |rest| ==> rest[k] == records[k + 1];
  }

  /** As many ranges are found as records find one, if and only if no two records find the same range. */
  lemma {:induction false} HitSetSize(all: seq<SenseRange>, records: seq<SenseRange>)
    ensures |HitSet(all, records)| <= Hits(all, records)
    ensures |HitSet(all, records)| == Hits(all, records) <==> HitsApart(all, records)
  {
    if records == [] {
    } else {
      HitSetSize(all, records[1..]);
      HitsApartStep(all, records);
      var i := FirstIndex(all, records[0].name);
      HitSetIs(all, records[1..], i);
      hide HitsApart, NoneHits, FirstIndex;
      var rest := HitSet(all, records[1..]);
      if i in rest {
        assert {i} + rest == rest;
      }
    }
  }

  function Below(n: nat): (s: set<nat>)
    ensures |s| == n && forall i: nat :: i in s <==> i < n
  {
    if n == 0 then {} else Below(n - 1) + {n - 1}
  }

  lemma FullIff(s: set<nat>, n: nat)
    requires forall i :: i in s ==> i < n
    ensures (forall i :: 0 <= i < n ==> i in s) <==> |s| == n
  {
    assert s <= Below(n);
    if s != Below(n) {
      SmallerSubset(s, Below(n));
    }
  }

  lemma SmallerSubset(s: set<nat>, t: set<nat>)
    requires s < t
    ensures |s| < |t|
  {
    assert t == s + (t - s);
  }

  ghost predicate HasRecord(records: seq<SenseRange>, r: SenseRange) {
    exists k :: 0 <= k < |records| && Text(records[k].name) == Text(r.name)
  }

  lemma RecordFindsOwnRange(all: seq<SenseRange>, records: seq<SenseRange>, j: nat)
    requires DistinctNames(all) && j < |all|
    ensures HasRecord(records, all[j]) <==> j in HitSet(all, records)
  {
    HitSetIs(all, records, j);
    forall k | 0 <= k < |records| ensures FirstIndex(all, records[k].name) == j <==> Text(records[k].name) == Text(all[j].name) {
      FirstIndexIs(all, records[k].name);
    }
  }

  lemma HitRangeHasRecord(all: seq<SenseRange>, records: seq<SenseRange>, j: nat)
    requires j < |all| && j in HitSet(all, records)
    ensures HasRecord(records, all[j])
  {
    HitSetIs(all, records, j);
    var k :| 0 <= k < |records| && FirstIndex(all, records[k].name) == j;
    FirstIndexIs(all, records[k].name);
  }

  /** When reading reports success and no two records found the same range, every range has a record, whatever its
      name. */
  lemma SuccessCoversAllRanges(all: seq<SenseRange>, records: seq<SenseRange>)
    requires HitsApart(all, records) && Hits(all, records) == |all|
    ensures forall j :: 0 <= j < |all| ==> HasRecord(records, all[j])
  {
    HitSetSize(all, records);
    forall i | i in HitSet(all, records) ensures i < |all| {
      HitSetIs(all, records, i);
    }
    FullIff(HitSet(all, records), |all|);
    forall j | 0 <= j < |all| ensures HasRecord(records, all[j]) {
      HitRangeHasRecord(all, records, j);
    }
  }

  /** When reading reports success and the ranges have distinct names, every range has a record if and only if no two
      records found the same range. */
  lemma SuccessCoversIff(all: seq<SenseRange>, records: seq<SenseRange>)
    requires DistinctNames(all) && Hits(all, records) == |all|
    ensures (forall j :: 0 <= j < |all| ==> HasRecord(records, all[j])) <==> HitsApart(all, records)
  {
    HitSetSize(all, records);
    forall i | i in HitSet(all, records) ensures i < |all| {
      HitSetIs(all, records, i);
    }
    forall j | 0 <= j < |all| ensures HasRecord(records, all[j]) <==> j in HitSet(all, records) {
      RecordFindsOwnRange(all, records, j);
    }
    hide HasRecord, HitsApart, HitSet, Hits, DistinctNames;
    FullIff(HitSet(all, records), |all|);
  }

  /** Of two ranges of one name in both lists the primary one is read into, and the secondary one stays as it was. */
  lemma PrimaryIsPreferred(was: ClampData, body: Bytes, i: nat, j: nat)
    requires i < |was.ranges| && j < |was.secondary| && Text(was.ranges[i].name) == Text(was.secondary[j].name)
    requires forall k: nat :: k < i ==> Text(was.ranges[k].name) != Text(was.ranges[i].name)
    ensures var r, records := Decoded(was, body), ReadRanges(ReadHeader(body).rest);
            && |r.ranges| == |was.ranges| && |r.secondary| == |was.secondary| && r.secondary[j] == was.secondary[j]
            && r.ranges[i].data == LastData(records, was.ranges[i].name, was.ranges[i].data)
  {
    hide ReadHeader, ReadRanges, Apply, LastData;
    var all, records := was.All(), ReadRanges(ReadHeader(body).rest);
    FirstIndexIs(all, all[i].name);
    FirstIndexIs(all, all[|was.ranges| + j].name);
    ApplyEffect(all, records, i);
    ApplyEffect(all, records, |was.ranges| + j);
    assert all[i] == was.ranges[i] && all[|was.ranges| + j] == was.secondary[j];
    assert forall k: nat :: k < i ==> all[k] == was.ranges[k];
    hide FirstIndex;
  }

  /** The chip holds the data of this clamp. */
  predicate Holds(crc: Crc, mem: Bytes, typeName: TypeName, c: ClampData) {
    Readable(crc, mem) && mem[HEADER_LEN..StoredSize(mem)] == Payload(typeName, c)
  }

  /** Reading the body of what the chip holds into a clamp with ranges of the same names gives back the header and finds
      every range; with distinct names the data of all ranges is back. */
  lemma DecodedIsStored(typeName: TypeName, c: ClampData, was: ClampData)
    requires SameNames(was.All(), c.All())
    ensures var r := Decoded(was, Payload(typeName, c));
            && r.header == c.header && |r.ranges| == |was.ranges| && SameNames(r.All(), c.All())
            && Hits(was.All(), ReadRanges(ReadHeader(Payload(typeName, c)).rest)) == |was.All()|
            && (DistinctNames(c.All()) ==> forall j :: 0 <= j < |c.All()| ==> r.All()[j].data == c.All()[j].data)
  {
    hide WriteHeader, ReadHeader, ReadRanges, WriteRanges, Apply, Hits;
    var r := Decoded(was, Payload(typeName, c));
    HeaderReadsBack(typeName, c.header, WriteRanges(c.All()));
    RangesReadBack(c.All());
    OwnRecordsHit(was.All(), c.All());
    var all := Apply(was.All(), c.All());
    assert r.All() == all;
    forall j | 0 <= j < |all| ensures all[j].name == was.All()[j].name {
      ApplyEffect(was.All(), c.All(), j);
    }
    if DistinctNames(c.All()) {
      DistinctRestores(was.All(), c.All());
    }
  }
}
