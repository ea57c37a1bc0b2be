/**
  The block-device layer: the generic dispatchers of
  src/common/pico_blockdev/blockdev.c (and their identical rp2 variant in
  src/rp2_common/pico_blockdev/blockdev.c), the partition devices of
  src/common/pico_blockdev/partition.c, and the registration of a device,
  which for a device without a parent scans its Master Boot Record and
  registers one partition device per occupied table slot.

  Devices live in an arena `seq<Device>`; a device is named by its index,
  which stands for the `pico_blockdev_t *` the C passes around, and a
  parent always has a smaller index than its children. A disk driver's
  operations are pure functions of their arguments; their own state is
  not modelled.
*/
module BlockDev {
  import opened Common
  import opened Mbr

  /** `PICO_IOCTL_BLKGETSIZE`: the device size in sectors, as a `uint32_t`. */
  const BlkGetSize: byte := 0

  /** The result of a `read_sector` call and the contents of its buffer afterwards. */
  datatype ReadReply = ReadReply(status: int, data: seq<byte>)

  /** The result of an `ioctl` call and the contents of its `data` buffer afterwards. */
  datatype IoctlReply = IoctlReply(status: int, data: seq<byte>)

  /**
    A driver's `pico_blockdev_ops_t`: each operation may be NULL. Each is
    given the device it was called on, then the arguments of the C call.
  */
  datatype DriverOps = DriverOps(
    init: Option<nat -> int>,
    readSector: Option<(nat, seq<byte>, u32, nat) -> ReadReply>,
    writeSector: Option<(nat, seq<byte>, u32, nat) -> int>,
    ioctl: Option<(nat, byte, seq<byte>) -> IoctlReply>)

  /**
    What a device is: a disk served by a driver, or a partition created by
    the scanner (`pico_blockdev_part_t`, whose operations are `part_ops`).
  */
  datatype DevOps = Driver(ops: DriverOps) | Partition(startSector: u32, numSectors: u32)

  /** A registered device; `childs` is the counter `init` resets and the scanner increments. */
  datatype Device = Device(ops: DevOps, parent: Option<nat>, childs: nat)

  /** Parents come first in the arena, and every partition has a parent. */
  predicate WellFormed(devs: seq<Device>)
  {
    forall k :: 0 <= k < |devs| ==>
      && (devs[k].parent.Some? ==> devs[k].parent.value < k)
      && (devs[k].ops.Partition? ==> devs[k].parent.Some?)
  }

  /** `start_sector + d->start_sector` in `uint32_t` arithmetic. */
  function AddSectors(a: u32, b: nat): u32
  {
    (a + b) % U32Modulus
  }

  /**
    `pico_blockdev_read_sector`: -1 with the buffer untouched when the
    driver has no `read_sector`; a partition forwards to its parent with
    its start sector added.
  */
  function ReadSector(devs: seq<Device>, id: nat, buf: seq<byte>, start: u32, count: nat): ReadReply
    requires WellFormed(devs) && id < |devs|
    decreases id
  {
    match devs[id].ops
    case Driver(ops) =>
      if ops.readSector.Some? then ops.readSector.value(id, buf, start, count) else ReadReply(-1, buf)
    case Partition(first, _) =>
      ReadSector(devs, devs[id].parent.value, buf, AddSectors(start, first), count)
  }

  /** `pico_blockdev_write_sector`, with the same forwarding as `ReadSector`. */
  function WriteSector(devs: seq<Device>, id: nat, data: seq<byte>, start: u32, count: nat): int
    requires WellFormed(devs) && id < |devs|
    decreases id
  {
    match devs[id].ops
    case Driver(ops) =>
      if ops.writeSector.Some? then ops.writeSector.value(id, data, start, count) else -1
    case Partition(first, _) =>
      WriteSector(devs, devs[id].parent.value, data, AddSectors(start, first), count)
  }

  /**
    `pico_blockdev_ioctl`: a partition answers `BLKGETSIZE` itself by
    storing its sector count in the first four bytes of `data`, and passes
    every other command to its parent unchanged.
  */
  function Ioctl(devs: seq<Device>, id: nat, cmd: byte, data: seq<byte>): IoctlReply
    requires WellFormed(devs) && id < |devs|
    requires cmd == BlkGetSize ==> |data| >= 4
    decreases id
  {
    match devs[id].ops
    case Driver(ops) =>
      if ops.ioctl.Some? then ops.ioctl.value(id, cmd, data) else IoctlReply(-1, data)
    case Partition(_, size) =>
      if cmd == BlkGetSize then IoctlReply(0, EncodeLE32(size) + data[4..])
      else Ioctl(devs, devs[id].parent.value, cmd, data)
  }

  /**
    A dispatcher on a driver's device whose operation is NULL returns -1
    and leaves the buffer as it was.
  */
  lemma DispatchAbsent(devs: seq<Device>, id: nat, buf: seq<byte>, start: u32, count: nat, cmd: byte)
    requires WellFormed(devs) && id < |devs| && devs[id].ops.Driver?
    requires cmd == BlkGetSize ==> |buf| >= 4
    ensures devs[id].ops.ops.readSector.None? ==> ReadSector(devs, id, buf, start, count) == ReadReply(-1, buf)
    ensures devs[id].ops.ops.writeSector.None? ==> WriteSector(devs, id, buf, start, count) == -1
    ensures devs[id].ops.ops.ioctl.None? ==> Ioctl(devs, id, cmd, buf) == IoctlReply(-1, buf)
  {
  }

  /**
    A dispatcher on a driver's device whose operation is present calls it
    with the same device and arguments and returns its result unchanged.
  */
  lemma DispatchPresent(devs: seq<Device>, id: nat, buf: seq<byte>, start: u32, count: nat, cmd: byte)
    requires WellFormed(devs) && id < |devs| && devs[id].ops.Driver?
    requires cmd == BlkGetSize ==> |buf| >= 4
    ensures var ops := devs[id].ops.ops;
      && (ops.readSector.Some? ==> ReadSector(devs, id, buf, start, count) == ops.readSector.value(id, buf, start, count))
      && (ops.writeSector.Some? ==> WriteSector(devs, id, buf, start, count) == ops.writeSector.value(id, buf, start, count))
      && (ops.ioctl.Some? ==> Ioctl(devs, id, cmd, buf) == ops.ioctl.value(id, cmd, buf))
  {
  }

  /** The disk a device's sector I/O ends up at: the nearest driver's device up the parent chain. */
  function Disk(devs: seq<Device>, id: nat): (d: nat)
    requires WellFormed(devs) && id < |devs|
    ensures d <= id && devs[d].ops.Driver?
    decreases id
  {
    if devs[id].ops.Driver? then id else Disk(devs, devs[id].parent.value)
  }

  /** The sum of the start sectors of the partitions between a device and its disk. */
  function ChainOffset(devs: seq<Device>, id: nat): nat
    requires WellFormed(devs) && id < |devs|
    decreases id
  {
    match devs[id].ops
    case Driver(_) => 0
    case Partition(first, _) => first + ChainOffset(devs, devs[id].parent.value)
  }

  /** Adding offsets one at a time modulo 2^32 is adding their sum once. */
  lemma AddSectorsTwice(s: u32, a: u32, b: nat)
    ensures AddSectors(AddSectors(s, a), b) == AddSectors(s, a + b)
  {
    var m := U32Modulus;
    var q := (s + a) / m;
    assert s + a == q * m + AddSectors(s, a);
    assert AddSectors(s, a) + b == (s + a + b) - q * m;
  }

  /**
    Reading through any stack of partitions reads the disk below them, at
    the requested sector plus all their start sectors modulo 2^32, with
    the same buffer and count.
  */
  lemma {:induction false} ReadFollowsChain(devs: seq<Device>, id: nat, buf: seq<byte>, start: u32, count: nat)
    requires WellFormed(devs) && id < |devs|
    ensures ReadSector(devs, id, buf, start, count)
         == ReadSector(devs, Disk(devs, id), buf, AddSectors(start, ChainOffset(devs, id)), count)
    decreases id
  {
    if devs[id].ops.Partition? {
      var p := devs[id].parent.value;
      var first := devs[id].ops.startSector;
      ReadFollowsChain(devs, p, buf, AddSectors(start, first), count);
      AddSectorsTwice(start, first, ChainOffset(devs, p));
    }
  }

  /** The same for writes. */
  lemma {:induction false} WriteFollowsChain(devs: seq<Device>, id: nat, data: seq<byte>, start: u32, count: nat)
    requires WellFormed(devs) && id < |devs|
    ensures WriteSector(devs, id, data, start, count)
         == WriteSector(devs, Disk(devs, id), data, AddSectors(start, ChainOffset(devs, id)), count)
    decreases id
  {
    if devs[id].ops.Partition? {
      var p := devs[id].parent.value;
      var first := devs[id].ops.startSector;
      WriteFollowsChain(devs, p, data, AddSectors(start, first), count);
      AddSectorsTwice(start, first, ChainOffset(devs, p));
    }
  }

  /** Every command but `BLKGETSIZE` reaches the disk's driver unchanged, with the same buffer. */
  lemma {:induction false} IoctlFollowsChain(devs: seq<Device>, id: nat, cmd: byte, data: seq<byte>)
    requires WellFormed(devs) && id < |devs| && cmd != BlkGetSize
    ensures Ioctl(devs, id, cmd, data) == Ioctl(devs, Disk(devs, id), cmd, data)
    decreases id
  {
    if devs[id].ops.Partition? {
      IoctlFollowsChain(devs, devs[id].parent.value, cmd, data);
    }
  }

  /**
    `BLKGETSIZE` on a partition succeeds without consulting its parent:
    the first four bytes of `data` then decode to its sector count and the
    rest of the buffer is untouched.
  */
  lemma PartitionGetSize(devs: seq<Device>, id: nat, data: seq<byte>)
    requires WellFormed(devs) && id < |devs| && devs[id].ops.Partition? && |data| >= 4
    ensures Ioctl(devs, id, BlkGetSize, data).status == 0
    ensures |Ioctl(devs, id, BlkGetSize, data).data| == |data|
    ensures ExtractLE32(Ioctl(devs, id, BlkGetSize, data).data) == devs[id].ops.numSectors
    ensures Ioctl(devs, id, BlkGetSize, data).data[4..] == data[4..]
  {
    var r := Ioctl(devs, id, BlkGetSize, data);
    DecodeEncode(devs[id].ops.numSectors);
    assert r.data[..4] == EncodeLE32(devs[id].ops.numSectors);
  }

  /**
    A disk in slot 0 and a partition starting at sector 2048 in slot 1:
    reading sector 10 of the partition reads sector 2058 of the disk, and
    a start of 0xFFFF_FFFF plus sector 2 wraps round to sector 1.
  */
  lemma ExamplePartitionOffset(ops: DriverOps, buf: seq<byte>)
    requires ops.readSector.Some?
    ensures var devs := [Device(Driver(ops), None, 1), Device(Partition(2048, 1000), Some(0), 0)];
      ReadSector(devs, 1, buf, 10, 1) == ops.readSector.value(0, buf, 2058, 1)
    ensures var devs := [Device(Driver(ops), None, 1), Device(Partition(0xFFFF_FFFF, 1), Some(0), 0)];
      ReadSector(devs, 1, buf, 2, 1) == ops.readSector.value(0, buf, 1, 1)
  {
  }

  /** The device record the scanner creates for a partition found under `parent`. */
  function PartDevice(parent: nat, p: PartInfo): Device
  {
    Device(Partition(p.start, p.count), Some(parent), 0)
  }

  /**
    `pico_blockdev_check_msdos_partition` for one entry found under `id`:
    the parent's counter goes up by one and the new device is appended.
  */
  function AddPartition(devs: seq<Device>, id: nat, p: PartInfo): (r: seq<Device>)
    requires id < |devs|
    ensures |r| == |devs| + 1
  {
    devs[id := devs[id].(childs := devs[id].childs + 1)] + [PartDevice(id, p)]
  }

  /** The arena after the partitions `found` were created under `id`, in order. */
  function Scanned(devs: seq<Device>, id: nat, found: seq<PartInfo>): (r: seq<Device>)
    requires id < |devs|
    ensures |r| == |devs| + |found|
    decreases |found|
  {
    if |found| == 0 then devs
    else AddPartition(Scanned(devs, id, found[..|found| - 1]), id, found[|found| - 1])
  }

  /** The indices `n`, `n + 1`, ..., `n + k - 1`. */
  function NewIds(n: nat, k: nat): (r: seq<nat>)
    ensures |r| == k
    decreases k
  {
    if k == 0 then [] else NewIds(n, k - 1) + [n + k - 1]
  }

  /**
    One step of a scan as seen by the registration log: when the arena
    grows by one device, the log gains that device's index; otherwise
    neither changes. So the log always holds the indices of the devices
    added since the scan began, in order.
  */
  lemma LogStep(log: seq<nat>, n: nat, evs: seq<nat>, evs': seq<nat>, m: nat, m': nat)
    requires n <= m && evs == log + NewIds(n, m - n)
    requires (m' == m + 1 && evs' == evs + [m]) || (m' == m && evs' == evs)
    ensures n <= m' && evs' == log + NewIds(n, m' - n)
  {
    if m' == m + 1 {
      assert NewIds(n, m' - n) == NewIds(n, m - n) + [m];
    }
  }

  /** The `j`-th new index is `n + j`. */
  lemma {:induction false} NewIdsAt(n: nat, k: nat)
    ensures forall j :: 0 <= j < k ==> NewIds(n, k)[j] == n + j
    decreases k
  {
    if k > 0 {
      NewIdsAt(n, k - 1);
    }
  }

  /** The 512-byte sector buffer the scanner reads into (modelled as zeroed). */
  function EmptySector(): (s: seq<byte>)
    ensures |s| == SectorSize
  {
    seq(SectorSize, _ => 0)
  }

  /**
    What a scan of device `id` finds: sector 0 is read with a count of 1,
    and the table is parsed only when that read returned 0.
  */
  function ScanFound(devs: seq<Device>, id: nat): seq<PartInfo>
    requires WellFormed(devs) && id < |devs|
  {
    var rep := ReadSector(devs, id, EmptySector(), 0, 1);
    if rep.status == 0 then Partitions(rep.data) else []
  }

  /**
    The arena a scan produces is well formed again: the scanned device's
    counter has gone up by the number of partitions found, every other
    device is untouched, and every device added is a partition whose
    parent is the scanned device, carrying the start and count of the
    table entry it came from and a zero counter.
  */
  lemma {:induction false} ScannedShape(devs: seq<Device>, id: nat, found: seq<PartInfo>)
    requires WellFormed(devs) && id < |devs|
    ensures WellFormed(Scanned(devs, id, found))
    ensures Scanned(devs, id, found)[id] == devs[id].(childs := devs[id].childs + |found|)
    ensures forall k :: 0 <= k < |devs| && k != id ==> Scanned(devs, id, found)[k] == devs[k]
    ensures forall k :: 0 <= k < |found| ==>
      Scanned(devs, id, found)[|devs| + k] == Device(Partition(found[k].start, found[k].count), Some(id), 0)
    decreases |found|
  {
    if |found| > 0 {
      var prefix := found[..|found| - 1];
      ScannedShape(devs, id, prefix);
      var s := Scanned(devs, id, prefix);
      var r := AddPartition(s, id, found[|found| - 1]);
      assert r == Scanned(devs, id, found);
      forall k | 0 <= k < |r|
        ensures (r[k].parent.Some? ==> r[k].parent.value < k) && (r[k].ops.Partition? ==> r[k].parent.Some?)
      {
        if k < |s| {
          assert r[k].ops == s[k].ops && r[k].parent == s[k].parent;
        }
      }
      forall k | 0 <= k < |found|
        ensures r[|devs| + k] == PartDevice(id, found[k])
      {
        if k < |prefix| {
          assert r[|devs| + k] == s[|devs| + k];
        }
      }
    }
  }

  /** A scan that finds nothing leaves the arena as it was. */
  lemma ScannedNothing(devs: seq<Device>, id: nat)
    requires id < |devs|
    ensures Scanned(devs, id, []) == devs && NewIds(|devs|, 0) == []
  {
  }

  /** Creating one more partition extends the arena of the partitions created so far. */
  lemma ScannedSnoc(devs: seq<Device>, id: nat, found: seq<PartInfo>, p: PartInfo)
    requires id < |devs|
    ensures Scanned(devs, id, found + [p]) == AddPartition(Scanned(devs, id, found), id, p)
  {
    assert (found + [p])[..|found|] == found;
  }

  /** The arena after the scan loop has examined the table slots `slots`, in order. */
  function SlotsScanned(devs: seq<Device>, id: nat, slots: seq<Option<PartInfo>>): (r: seq<Device>)
    requires id < |devs|
    ensures |r| >= |devs|
    decreases |slots|
  {
    if |slots| == 0 then devs
    else
      var prev := SlotsScanned(devs, id, slots[..|slots| - 1]);
      match slots[|slots| - 1]
      case Some(p) => AddPartition(prev, id, p)
      case None => prev
  }

  /** Examining one more slot: a slot holding a partition creates it, an empty one changes nothing. */
  lemma SlotsScannedSnoc(devs: seq<Device>, id: nat, slots: seq<Option<PartInfo>>, o: Option<PartInfo>)
    requires id < |devs|
    ensures SlotsScanned(devs, id, slots + [o]) ==
      if o.Some? then AddPartition(SlotsScanned(devs, id, slots), id, o.value) else SlotsScanned(devs, id, slots)
  {
    assert (slots + [o])[..|slots|] == slots;
  }

  /**
    One round of the slot loop: examining slot `i` either adds its
    partition or changes nothing, so the tree stays that of the slots
    examined so far.
  */
  lemma ExamineStep(devs0: seq<Device>, id: nat, slots: seq<Option<PartInfo>>, i: nat,
                    before: seq<Device>, after: seq<Device>)
    requires id < |devs0| && i < |slots|
    requires before == SlotsScanned(devs0, id, slots[..i])
    requires slots[i].Some? ==> after == AddPartition(before, id, slots[i].value)
    requires slots[i].None? ==> after == before
    ensures after == SlotsScanned(devs0, id, slots[..i + 1])
  {
    var prefix, o := slots[..i], slots[i];
    assert slots[..i + 1] == prefix + [o];
    SlotsScannedSnoc(devs0, id, prefix, o);
  }

  /**
    Examining the slots one at a time creates exactly the partitions they
    hold, in slot order.
  */
  lemma {:induction false} SlotsScannedSpec(devs: seq<Device>, id: nat, slots: seq<Option<PartInfo>>)
    requires id < |devs|
    ensures SlotsScanned(devs, id, slots) == Scanned(devs, id, Found(slots))
    decreases |slots|
  {
    if |slots| > 0 {
      var prefix := slots[..|slots| - 1];
      SlotsScannedSpec(devs, id, prefix);
      assert slots == prefix + [slots[|slots| - 1]];
      FoundSnoc(prefix, slots[|slots| - 1]);
      if slots[|slots| - 1].Some? {
        ScannedSnoc(devs, id, Found(prefix), slots[|slots| - 1].value);
      }
    }
  }

  /**
    The devices of the system and the order in which
    `pico_blockdev_register_event` saw them.
  */
  class DeviceTree {
    var devices: seq<Device>
    var events: seq<nat>

    ghost predicate Valid()
      reads this
    {
      WellFormed(devices)
    }

    constructor ()
      ensures Valid() && devices == [] && events == []
    {
      devices := [];
      events := [];
    }

    /**
      A driver brings a disk into existence (its own `pico_blockdev_t`
      with the driver's operations); nothing is registered yet.
    */
    method AddDisk(ops: DriverOps, parent: Option<nat>) returns (id: nat)
      requires Valid()
      requires parent.Some? ==> parent.value < |devices|
      modifies this
      ensures Valid()
      ensures id == |old(devices)| && devices == old(devices) + [Device(Driver(ops), parent, 0)]
      ensures events == old(events)
    {
      id := |devices|;
      devices := devices + [Device(Driver(ops), parent, 0)];
    }

    /**
      `pico_blockdev_init`: the counter is reset first, then the driver's
      `init` runs, or -1 when it has none; a partition's `init` returns 0.
    */
    method Init(id: nat) returns (r: int)
      requires Valid() && id < |devices|
      modifies this
      ensures Valid() && events == old(events)
      ensures devices == old(devices)[id := old(devices)[id].(childs := 0)]
      ensures r == match devices[id].ops
        case Partition(_, _) => 0
        case Driver(ops) => if ops.init.Some? then ops.init.value(id) else -1
    {
      devices := devices[id := devices[id].(childs := 0)];
      match devices[id].ops {
        case Partition(_, _) =>
          r := 0;
        case Driver(ops) =>
          if ops.init.Some? {
            r := ops.init.value(id);
          } else {
            r := -1;
          }
      }
    }

    /** `pico_blockdev_get_children`. */
    method GetChildren(id: nat) returns (c: nat)
      requires id < |devices|
      ensures c == devices[id].childs
    {
      c := devices[id].childs;
    }

    /**
      `pico_blockdev_register`: a device without a parent has its partition
      table scanned (registering each partition found before itself); then
      the registration hook fires for the device, and the result is 0. A
      partition has a parent, so registering it never scans again.
    */
    method Register(id: nat) returns (r: int)
      requires Valid() && id < |devices|
      modifies this
      ensures Valid() && r == 0
      ensures old(devices[id].parent).Some? ==> devices == old(devices) && events == old(events) + [id]
      ensures old(devices[id].parent).None? ==>
        var found := ScanFound(old(devices), id);
        && devices == Scanned(old(devices), id, found)
        && events == old(events) + NewIds(|old(devices)|, |found|) + [id]
      decreases if devices[id].parent.None? then 1 else 0, 3
    {
      if devices[id].parent.None? {
        ScanPartitions(id);
      }
      events := events + [id];
      r := 0;
    }

    /**
      `pico_blockdev_scan_partitions`: read sector 0 and, when that
      succeeds and the sector carries the signature, examine the four
      table slots in ascending order.
    */
    method ScanPartitions(id: nat)
      requires Valid() && id < |devices|
      modifies this
      ensures Valid()
      ensures devices == Scanned(old(devices), id, ScanFound(old(devices), id))
      ensures events == old(events) + NewIds(|old(devices)|, |ScanFound(old(devices), id)|)
      decreases 1, 2
    {
      var rep := ReadSector(devices, id, EmptySector(), 0, 1);
      if rep.status == 0 && HasSignature(rep.data) {
        ExamineSlots(id, rep.data);
      } else {
        ScannedNothing(devices, id);
      }
    }

    /** The loop of `pico_blockdev_scan_partitions` over the four table slots of a signed sector. */
    method ExamineSlots(id: nat, sector: seq<byte>)
      requires Valid() && id < |devices| && |sector| >= SectorSize
      modifies this
      ensures Valid()
      ensures devices == Scanned(old(devices), id, Found(Table(sector)))
      ensures events == old(events) + NewIds(|old(devices)|, |devices| - |old(devices)|)
      decreases 1, 1
    {
      ghost var devs0, events0 := devices, events;
      ghost var table := Table(sector);
      var i := 0;
      while i < EntryCount
        invariant 0 <= i <= EntryCount
        invariant Valid() && id < |devs0|
        invariant devices == SlotsScanned(devs0, id, table[..i])
        invariant events == events0 + NewIds(|devs0|, |devices| - |devs0|)
      {
        ghost var before, evs := devices, events;
        CheckMsdosPartition(id, sector, i);
        ExamineStep(devs0, id, table, i, before, devices);
        LogStep(events0, |devs0|, evs, events, |before|, |devices|);
        i := i + 1;
      }
      assert table[..EntryCount] == table;
      SlotsScannedSpec(devs0, id, table);
    }

    /**
      `pico_blockdev_check_msdos_partition`: an entry whose boot indicator
      is non-zero becomes a new partition device under `id`, the counter of
      `id` goes up by one, and the new device is registered.
    */
    method CheckMsdosPartition(id: nat, sector: seq<byte>, i: nat)
      requires Valid() && id < |devices|
      requires |sector| >= SectorSize && i < EntryCount
      modifies this
      ensures Valid()
      ensures Occupied(Entry(sector, i)) ==>
        && devices == AddPartition(old(devices), id, Decode(Entry(sector, i), i))
        && events == old(events) + [|old(devices)|]
      ensures !Occupied(Entry(sector, i)) ==> devices == old(devices) && events == old(events)
      ensures Slot(sector, i).Some? ==>
        devices == AddPartition(old(devices), id, Slot(sector, i).value) && events == old(events) + [|old(devices)|]
      ensures Slot(sector, i).None? ==> devices == old(devices) && events == old(events)
      decreases 1, 0
    {
      var entry := Entry(sector, i);
      if Occupied(entry) {
        var p := Decode(entry, i);
        ScannedShape(devices, id, [p]);
        devices := AddPartition(devices, id, p);
        var newId := |devices| - 1;
        assert devices[newId] == PartDevice(id, p);
        var status := Register(newId);
      }
    }
  }
}
