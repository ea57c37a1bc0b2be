/**
  The on-disk part of src/common/pico_blockdev/partition.c: the
  little-endian 32-bit field decoder `pico_blockdev_extractle32` and the
  classic IBM-PC Master Boot Record layout it is applied to (four 16-byte
  entries at byte 0x1BE of sector 0, signature 0x55 0xAA at bytes 510-511,
  start sector and sector count at entry offsets 8 and 12).
*/
module Mbr {
  import opened Common

  const SectorSize: nat := 512
  /** Byte offset of the partition table in sector 0. */
  const TableOffset: nat := 0x1BE
  /** `sizeof(struct msdos_partition)`. */
  const EntrySize: nat := 16
  const EntryCount: nat := 4

  /**
    `pico_blockdev_extractle32`: byte `k` is shifted left by `8 * k` and
    ORed in; the shifted bytes occupy disjoint bits, so the OR is their sum.
  */
  function ExtractLE32(src: seq<byte>): (v: u32)
    requires |src| >= 4
  {
    src[0] as int + src[1] as int * 0x100 + src[2] as int * 0x1_0000 + src[3] as int * 0x100_0000
  }

  /** The four bytes an `uint32_t` is stored as on a little-endian machine, least significant first. */
  function EncodeLE32(v: u32): (b: seq<byte>)
    ensures |b| == 4
  {
    var q1 := v / 0x100;
    var q2 := q1 / 0x100;
    [v % 0x100, q1 % 0x100, q2 % 0x100, q2 / 0x100]
  }

  /** Decoding an encoded value gives it back. */
  lemma DecodeEncode(v: u32)
    ensures ExtractLE32(EncodeLE32(v)) == v
  {
    var q1 := v / 0x100;
    var q2 := q1 / 0x100;
    assert v == v % 0x100 + 0x100 * q1;
    assert q1 == q1 % 0x100 + 0x100 * q2;
    assert q2 == q2 % 0x100 + 0x100 * (q2 / 0x100);
  }

  /** Encoding a decoded field gives back its four bytes. */
  lemma EncodeDecode(src: seq<byte>)
    requires |src| == 4
    ensures EncodeLE32(ExtractLE32(src)) == src
  {
    var v := ExtractLE32(src);
    var q1 := src[1] as int + 0x100 * src[2] as int + 0x1_0000 * src[3] as int;
    var q2 := src[2] as int + 0x100 * src[3] as int;
    assert v == src[0] as int + 0x100 * q1;
    assert v / 0x100 == q1 && v % 0x100 == src[0] as int;
    assert q1 == src[1] as int + 0x100 * q2;
    assert q1 / 0x100 == q2 && q1 % 0x100 == src[1] as int;
    assert q2 / 0x100 == src[3] as int && q2 % 0x100 == src[2] as int;
  }

  /** The 0x55 0xAA signature at bytes 510 and 511 of a whole sector. */
  predicate HasSignature(sector: seq<byte>)
  {
    |sector| >= SectorSize && sector[510] == 0x55 && sector[511] == 0xAA
  }

  /** The 16 bytes of table entry `i`. */
  function Entry(sector: seq<byte>, i: nat): (e: seq<byte>)
    requires |sector| >= SectorSize && i < EntryCount
    ensures |e| == EntrySize
  {
    sector[TableOffset + EntrySize * i .. TableOffset + EntrySize * (i + 1)]
  }

  /**
    An entry counts as a partition when its boot indicator (byte 0) is
    non-zero. The type byte (offset 4), which standard MBR uses for
    "empty", is not looked at.
  */
  predicate Occupied(entry: seq<byte>)
    requires |entry| == EntrySize
  {
    entry[0] != 0
  }

  /** A partition found in the table: its slot, first sector and sector count. */
  datatype PartInfo = PartInfo(slot: nat, start: u32, count: u32)

  /** `start_sect` and `nr_sects` of an entry. */
  function Decode(entry: seq<byte>, slot: nat): PartInfo
    requires |entry| == EntrySize
  {
    PartInfo(slot, ExtractLE32(entry[8..12]), ExtractLE32(entry[12..16]))
  }

  /** The decoded start and count are exactly the little-endian fields at entry offsets 8 and 12. */
  lemma DecodeFields(entry: seq<byte>, slot: nat)
    requires |entry| == EntrySize
    ensures Decode(entry, slot).slot == slot
    ensures EncodeLE32(Decode(entry, slot).start) == entry[8..12]
    ensures EncodeLE32(Decode(entry, slot).count) == entry[12..16]
  {
    EncodeDecode(entry[8..12]);
    EncodeDecode(entry[12..16]);
  }

  /** What table slot `i` yields: its partition when the boot indicator is non-zero, nothing otherwise. */
  function Slot(sector: seq<byte>, i: nat): Option<PartInfo>
    requires |sector| >= SectorSize && i < EntryCount
  {
    var e := Entry(sector, i);
    if Occupied(e) then Some(Decode(e, i)) else None
  }

  /** The four slots of the table, in order. */
  function Table(sector: seq<byte>): (t: seq<Option<PartInfo>>)
    requires |sector| >= SectorSize
    ensures |t| == EntryCount && forall i :: 0 <= i < EntryCount ==> t[i] == Slot(sector, i)
  {
    [Slot(sector, 0), Slot(sector, 1), Slot(sector, 2), Slot(sector, 3)]
  }

  /** The partitions among `slots`, in slot order. */
  function Found(slots: seq<Option<PartInfo>>): seq<PartInfo>
    decreases |slots|
  {
    if |slots| == 0 then []
    else
      var prev := Found(slots[..|slots| - 1]);
      match slots[|slots| - 1]
      case Some(p) => prev + [p]
      case None => prev
  }

  /** The partitions a scan of `sector` finds: none without the signature. */
  function Partitions(sector: seq<byte>): seq<PartInfo>
  {
    if HasSignature(sector) then Found(Table(sector)) else []
  }

  /** Every partition a slot yields carries that slot's number. */
  predicate Numbered(slots: seq<Option<PartInfo>>)
  {
    forall j :: 0 <= j < |slots| && slots[j].Some? ==> slots[j].value.slot == j
  }

  predicate SlotsAscending(r: seq<PartInfo>)
  {
    forall k, l :: 0 <= k < l < |r| ==> r[k].slot < r[l].slot
  }

  /** Examining one more slot adds its partition, when it has one, after the others. */
  lemma FoundSnoc(slots: seq<Option<PartInfo>>, o: Option<PartInfo>)
    ensures Found(slots + [o]) == if o.Some? then Found(slots) + [o.value] else Found(slots)
  {
    assert (slots + [o])[..|slots|] == slots;
  }

  /** No more partitions than slots, and every partition found is the content of its own slot. */
  lemma {:induction false} FoundFromSlots(slots: seq<Option<PartInfo>>)
    requires Numbered(slots)
    ensures |Found(slots)| <= |slots|
    ensures forall k :: 0 <= k < |Found(slots)| ==>
      Found(slots)[k].slot < |slots| && slots[Found(slots)[k].slot] == Some(Found(slots)[k])
    decreases |slots|
  {
    if |slots| > 0 {
      var prefix := slots[..|slots| - 1];
      assert Numbered(prefix) by {
        forall j | 0 <= j < |prefix| && prefix[j].Some?
          ensures prefix[j].value.slot == j
        {
          assert prefix[j] == slots[j];
        }
      }
      FoundFromSlots(prefix);
      var r := Found(slots);
      forall k | 0 <= k < |r|
        ensures r[k].slot < |slots| && slots[r[k].slot] == Some(r[k])
      {
        if k < |Found(prefix)| {
          assert r[k] == Found(prefix)[k];
          assert slots[r[k].slot] == prefix[r[k].slot];
        }
      }
    }
  }

  /** The partitions come out in strictly ascending slot order. */
  lemma {:induction false} FoundAscending(slots: seq<Option<PartInfo>>)
    requires Numbered(slots)
    ensures SlotsAscending(Found(slots))
    decreases |slots|
  {
    if |slots| > 0 {
      var prefix := slots[..|slots| - 1];
      assert Numbered(prefix) by {
        forall j | 0 <= j < |prefix| && prefix[j].Some?
          ensures prefix[j].value.slot == j
        {
          assert prefix[j] == slots[j];
        }
      }
      FoundAscending(prefix);
      FoundFromSlots(prefix);
    }
  }

  /** A slot yields an element of the result exactly when it holds a partition. */
  lemma {:induction false} FoundExactly(slots: seq<Option<PartInfo>>)
    requires Numbered(slots)
    ensures forall j :: 0 <= j < |slots| ==>
      (slots[j].Some? <==> exists k :: 0 <= k < |Found(slots)| && Found(slots)[k].slot == j)
    decreases |slots|
  {
    if |slots| > 0 {
      var prefix := slots[..|slots| - 1];
      assert Numbered(prefix) by {
        forall j | 0 <= j < |prefix| && prefix[j].Some?
          ensures prefix[j].value.slot == j
        {
          assert prefix[j] == slots[j];
        }
      }
      FoundExactly(prefix);
      FoundFromSlots(prefix);
      var prev := Found(prefix);
      var r := Found(slots);
      var last := slots[|slots| - 1];
      assert r == if last.Some? then prev + [last.value] else prev;
      forall j | 0 <= j < |slots|
        ensures slots[j].Some? <==> exists k :: 0 <= k < |r| && r[k].slot == j
      {
        if j < |prefix| {
          assert slots[j] == prefix[j];
          assert last.Some? ==> last.value.slot == |slots| - 1;
          if exists k :: 0 <= k < |r| && r[k].slot == j {
            var k :| 0 <= k < |r| && r[k].slot == j;
            assert r[k] == prev[k];
            assert prefix[j].Some?;
          }
          if exists k :: 0 <= k < |prev| && prev[k].slot == j {
            var k :| 0 <= k < |prev| && prev[k].slot == j;
            assert r[k] == prev[k];
          }
        } else if slots[j].Some? {
          assert r[|prev|].slot == j;
        } else {
          forall k | 0 <= k < |r|
            ensures r[k].slot != j
          {
            assert r[k] == prev[k];
          }
        }
      }
      assert r == Found(slots);
    }
  }

  /** The table's slots are numbered by their position. */
  lemma TableNumbered(sector: seq<byte>)
    requires |sector| >= SectorSize
    ensures Numbered(Table(sector))
  {
    forall j | 0 <= j < EntryCount && Table(sector)[j].Some?
      ensures Table(sector)[j].value.slot == j
    {
      assert Table(sector)[j] == Slot(sector, j);
    }
  }

  /**
    What a scan of the table finds: nothing without the signature;
    otherwise the partitions in strictly ascending slot order, one for
    exactly the slots whose boot indicator is non-zero, each with the
    little-endian start and count fields of its own entry.
  */
  lemma PartitionsSpec(sector: seq<byte>)
    ensures !HasSignature(sector) ==> Partitions(sector) == []
    ensures |Partitions(sector)| <= EntryCount
    ensures HasSignature(sector) ==>
      && SlotsAscending(Partitions(sector))
      && (forall i :: 0 <= i < EntryCount ==>
            (Occupied(Entry(sector, i)) <==> exists k :: 0 <= k < |Partitions(sector)| && Partitions(sector)[k].slot == i))
      && (forall k :: 0 <= k < |Partitions(sector)| ==>
            && Partitions(sector)[k].slot < EntryCount
            && Partitions(sector)[k] == Decode(Entry(sector, Partitions(sector)[k].slot), Partitions(sector)[k].slot))
  {
    if HasSignature(sector) {
      var t := Table(sector);
      TableNumbered(sector);
      FoundFromSlots(t);
      FoundAscending(t);
      FoundExactly(t);
      var r := Found(t);
      forall i | 0 <= i < EntryCount
        ensures Occupied(Entry(sector, i)) <==> t[i].Some?
      {
        assert t[i] == Slot(sector, i);
      }
      forall k | 0 <= k < |r|
        ensures r[k] == Decode(Entry(sector, r[k].slot), r[k].slot)
      {
        assert t[r[k].slot] == Slot(sector, r[k].slot);
      }
    }
  }

  /**
    A signed sector whose slots 0 and 2 have a non-zero boot indicator and
    slots 1 and 3 a zero one gives exactly two partitions, slot 0 then
    slot 2, whatever the type bytes say.
  */
  lemma ExampleSlotsZeroAndTwo(sector: seq<byte>)
    requires HasSignature(sector)
    requires sector[0x1BE] != 0 && sector[0x1CE] == 0 && sector[0x1DE] != 0 && sector[0x1EE] == 0
    ensures |Partitions(sector)| == 2
    ensures Partitions(sector)[0] == PartInfo(0, ExtractLE32(sector[0x1C6..0x1CA]), ExtractLE32(sector[0x1CA..0x1CE]))
    ensures Partitions(sector)[1] == PartInfo(2, ExtractLE32(sector[0x1E6..0x1EA]), ExtractLE32(sector[0x1EA..0x1EE]))
  {
    assert Entry(sector, 0)[0] == sector[0x1BE];
    assert Entry(sector, 1)[0] == sector[0x1CE];
    assert Entry(sector, 2)[0] == sector[0x1DE];
    assert Entry(sector, 3)[0] == sector[0x1EE];
    assert Entry(sector, 0)[8..12] == sector[0x1C6..0x1CA];
    assert Entry(sector, 0)[12..16] == sector[0x1CA..0x1CE];
    assert Entry(sector, 2)[8..12] == sector[0x1E6..0x1EA];
    assert Entry(sector, 2)[12..16] == sector[0x1EA..0x1EE];
    var t := Table(sector);
    var p0 := Decode(Entry(sector, 0), 0);
    var p2 := Decode(Entry(sector, 2), 2);
    assert t == [Some(p0), None, Some(p2), None];
    assert t == [Some(p0)] + [None] + [Some(p2)] + [None];
    FoundSnoc([], Some(p0));
    FoundSnoc([Some(p0)], None);
    FoundSnoc([Some(p0), None], Some(p2));
    FoundSnoc([Some(p0), None, Some(p2)], None);
    assert [Some(p0)] == [] + [Some(p0)];
    assert [Some(p0)] + [None] == [Some(p0), None];
    assert [Some(p0), None] + [Some(p2)] == [Some(p0), None, Some(p2)];
    assert [Some(p0), None, Some(p2)] + [None] == t;
  }
}
