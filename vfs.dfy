/**
  The VFS mount registry and global descriptor table of
  src/rp2_common/pico_vfs/vfs.c: the globals `s_vfs[4]`, `s_vfs_count`,
  `s_fd_table[16]` and `vfs_initialised`, and the operations that register
  mounts, reserve descriptor ranges, route paths and descriptors, and open
  files and directories.

  Drivers are reached through an operations vtable whose members are
  optional pure functions; the table lock is an empty stub in the source
  and is not modelled. errno is the `Err` part of an `Outcome`.
*/
module Vfs {
  import opened Common
  import opened VfsPath

  /** `MAX_FDS`. */
  const MaxFds: nat := 16
  /** `VFS_MAX_COUNT`. */
  const VfsMaxCount: nat := 4
  /** The byte a free descriptor slot holds in `vfs_index` (`-1` stored into an `uint8_t`). */
  const UnusedIndex: int := 255

  // newlib's errno values
  const ENOENT: int := 2
  const EBADF: int := 9
  const ENOMEM: int := 12
  const EBUSY: int := 16
  const ENOSYS: int := 88

  /** A `DIR*` stream: the owning registry index and the driver's own iteration state. */
  datatype Dir = Dir(vfsIndex: int, state: nat)

  /** The members of `pico_vfs_ops_t` that `open`, `close`, `write`, `lseek` and `opendir` dispatch through; `None` is a NULL pointer. */
  datatype VfsOps = VfsOps(
    open: Option<(string, int, int) -> int>,
    close: Option<int -> int>,
    write: Option<(int, seq<byte>) -> int>,
    lseek: Option<(int, int, int) -> int>,
    opendir: Option<string -> Option<Dir>>)

  /** `pico_vfs_entry_t`: the copied vtable, the prefix and the slot index. */
  datatype Entry = Entry(ops: VfsOps, prefix: Prefix, index: nat)

  /**
    `pico_vfs_fd_table_t`. A slot is free exactly when its `vfs_index`
    byte is 255; the other fields of a free slot are never read.
  */
  datatype FdSlot = Unused | Used(vfsIndex: byte, localFd: byte, permanent: bool)

  /** What a call returns: a value, or -1 (NULL) with errno set to `errno`. */
  datatype Outcome<T> = Ok(value: T) | Err(errno: int)

  /** The byte stored in a slot's `vfs_index` field. */
  function StoredIndex(slot: FdSlot): (b: byte)
    ensures b == UnusedIndex <==> slot.Unused? || slot.vfsIndex == UnusedIndex
  {
    if slot.Unused? then UnusedIndex else slot.vfsIndex
  }

  /**
    The free-slot test as vfs.c:213 and vfs.c:323 write it: the `uint8_t`
    field, promoted to `int`, compared with -1.
  */
  predicate FreeAsWritten(slot: FdSlot)
  {
    StoredIndex(slot) as int == -1
  }

  /**
    The test as written holds for no slot, not even for one `pico_vfs_init`
    has just freed (it holds 255): `open` would never find a free slot and
    a range reservation would fail at its first slot. The model tests
    `Unused?` instead.
  */
  lemma FreeAsWrittenNeverHolds(slot: FdSlot)
    ensures !FreeAsWritten(slot)
    ensures slot.Unused? ==> StoredIndex(slot) == UnusedIndex
  {
  }

  /** The branch `VFSCALL_R` and `VFSCALL_R_N` take (vfs.c:268-284). */
  datatype CallBranch = ReportEnosys | CallThrough

  /** The branch as written: the `!= NULL` test is the wrong way round. */
  function VfsCallAsWritten<T>(op: Option<T>): CallBranch
  {
    if op.Some? then ReportEnosys else CallThrough
  }

  /**
    As written, a driver that supplies the operation gets ENOSYS and one
    that does not has its NULL pointer called. The model calls a present
    operation and reports ENOSYS for an absent one.
  */
  lemma VfsCallAsWrittenInverted<T>(op: Option<T>)
    ensures VfsCallAsWritten(op) == ReportEnosys <==> op.Some?
    ensures VfsCallAsWritten(op) == CallThrough <==> op.None?
  {
  }

  /** `pico_vfs_valid_fd`. */
  predicate ValidFd(fd: int)
  {
    fd < MaxFds && fd >= 0
  }

  /** The ops of the root entry `pico_vfs_init` registers: only `opendir`, which finds nothing. */
  function RootOps(): VfsOps
  {
    VfsOps(None, None, None, None, Some((name: string) => None))
  }

  /** The prefix view of one registry slot. */
  function SlotPrefix(slot: Option<Entry>): Option<Prefix>
  {
    if slot.Some? then Some(slot.value.prefix) else None
  }

  function PrefixView(s: seq<Option<Entry>>): (r: seq<Option<Prefix>>)
    ensures |r| == |s| && forall i :: 0 <= i < |s| ==> r[i] == SlotPrefix(s[i])
  {
    seq(|s|, i requires 0 <= i < |s| => SlotPrefix(s[i]))
  }

  /**
    The slot a new registration takes in the registry slots `s`: the
    lowest NULL one, or `|s|` (an appended slot) when there is none.
  */
  function FirstFree(s: seq<Option<Entry>>): (i: nat)
    ensures i <= |s|
    ensures i < |s| ==> s[i].None?
    ensures forall j :: 0 <= j < i ==> s[j].Some?
    decreases |s|
  {
    if |s| == 0 || s[0].None? then 0 else 1 + FirstFree(s[1..])
  }

  /** The lowest NULL slot (or the end) is the only index with those properties. */
  lemma FirstFreeIs(s: seq<Option<Entry>>, i: nat)
    requires i <= |s| && (i < |s| ==> s[i].None?)
    requires forall j :: 0 <= j < i ==> s[j].Some?
    ensures FirstFree(s) == i
  {
  }

  class VfsTable {
    var fdTable: array<FdSlot>
    var vfs: array<Option<Entry>>
    var vfsCount: nat
    var initialised: bool

    ghost predicate Valid()
      reads this, vfs
    {
      && fdTable.Length == MaxFds
      && vfs.Length == VfsMaxCount
      && vfsCount <= VfsMaxCount
      && (forall i :: 0 <= i < VfsMaxCount && vfs[i].Some? ==>
            vfs[i].value.index == i && WellShaped(vfs[i].value.prefix))
      && (forall i :: vfsCount <= i < VfsMaxCount ==> vfs[i].None?)
    }

    /** The prefixes of the first `s_vfs_count` slots, as `pico_vfs_get_vfs_for_path` scans them. */
    ghost function Prefixes(): seq<Option<Prefix>>
      reads this, vfs
      requires Valid()
    {
      PrefixView(vfs[..vfsCount])
    }

    /**
      The slot `pico_vfs_register_common` would take now; it is
      `VfsMaxCount` exactly when all four slots are taken.
    */
    ghost function NextSlot(): (i: nat)
      reads this, vfs
      requires Valid()
      ensures i <= vfsCount && (i == VfsMaxCount <==> forall j :: 0 <= j < VfsMaxCount ==> vfs[j].Some?)
    {
      var s := vfs[..vfsCount];
      assert forall j :: 0 <= j < vfsCount ==> s[j] == vfs[j];
      assert vfsCount < VfsMaxCount ==> vfs[vfsCount].None?;
      FirstFree(s)
    }

    /** The zero-initialised globals before `pico_vfs_init`: every `s_fd_table` slot is all-zero bytes. */
    constructor ()
      ensures Valid() && fresh(fdTable) && fresh(vfs)
      ensures vfsCount == 0 && !initialised
      ensures forall i :: 0 <= i < MaxFds ==> fdTable[i] == Used(0, 0, false)
    {
      fdTable := new FdSlot[MaxFds](_ => Used(0, 0, false));
      vfs := new Option<Entry>[VfsMaxCount](_ => None);
      vfsCount := 0;
      initialised := false;
    }

    /** `get_vfs_entry_for_index`: bounds-checked slot lookup. */
    function EntryForIndex(index: int): (e: Option<Entry>)
      reads this, vfs
      requires Valid()
      ensures e.Some? <==> 0 <= index < vfsCount && vfs[index].Some?
      ensures e.Some? ==> e == vfs[index] && e.value.index == index
    {
      if index < 0 || index >= vfsCount as int then None else vfs[index]
    }

    /**
      `pico_vfs_get_vfs_for_fd`: the entry a descriptor is bound to. A free
      slot reads as index 255, which is never below `s_vfs_count`.
    */
    function GetVfsForFd(fd: int): (e: Option<Entry>)
      reads this, vfs, fdTable
      requires Valid()
      ensures e.Some? <==>
        ValidFd(fd) && fdTable[fd].Used? && fdTable[fd].vfsIndex < vfsCount && vfs[fdTable[fd].vfsIndex].Some?
      ensures e.Some? ==> e.value.index == fdTable[fd].vfsIndex
    {
      if ValidFd(fd) then EntryForIndex(StoredIndex(fdTable[fd])) else None
    }

    /**
      The prologue `VFSDECL_R` of every descriptor call: the entry and the
      driver-local descriptor, or EBADF. (`pico_vfs_local_fd` reads an
      `uint8_t`, so its `local_fd < 0` test never fires.)
    */
    function ResolveFd(fd: int): (r: Outcome<(Entry, int)>)
      reads this, vfs, fdTable
      requires Valid()
      ensures r.Err? <==> GetVfsForFd(fd).None?
      ensures r.Err? ==> r.errno == EBADF
      ensures r.Ok? ==> r.value.0.index == fdTable[fd].vfsIndex && r.value.1 == fdTable[fd].localFd
    {
      var e := GetVfsForFd(fd);
      if e.None? then Err(EBADF)
      else Ok((e.value, fdTable[fd].localFd as int))
    }

    /**
      `pico_vfs_lseek`. The source's `VFSCALL_R` tests `ops.name != NULL`
      the wrong way round; modelled as intended: a missing op gives ENOSYS.
    */
    function Lseek(fd: int, offset: int, whence: int): (r: Outcome<int>)
      reads this, vfs, fdTable
      requires Valid()
      ensures ResolveFd(fd).Err? ==> r == Err(EBADF)
      ensures ResolveFd(fd).Ok? && ResolveFd(fd).value.0.ops.lseek.None? ==> r == Err(ENOSYS)
      ensures ResolveFd(fd).Ok? && ResolveFd(fd).value.0.ops.lseek.Some? ==>
        r == Ok(ResolveFd(fd).value.0.ops.lseek.value(fdTable[fd].localFd as int, offset, whence))
    {
      match ResolveFd(fd)
      case Err(e) => Err(e)
      case Ok((entry, local)) =>
        if entry.ops.lseek.None? then Err(ENOSYS) else Ok(entry.ops.lseek.value(local, offset, whence))
    }

    /** `pico_vfs_write`, with the same prologue and the same corrected NULL test. */
    function Write(fd: int, data: seq<byte>): (r: Outcome<int>)
      reads this, vfs, fdTable
      requires Valid()
      ensures ResolveFd(fd).Err? ==> r == Err(EBADF)
      ensures ResolveFd(fd).Ok? && ResolveFd(fd).value.0.ops.write.None? ==> r == Err(ENOSYS)
      ensures ResolveFd(fd).Ok? && ResolveFd(fd).value.0.ops.write.Some? ==>
        r == Ok(ResolveFd(fd).value.0.ops.write.value(fdTable[fd].localFd as int, data))
    {
      match ResolveFd(fd)
      case Err(e) => Err(e)
      case Ok((entry, local)) =>
        if entry.ops.write.None? then Err(ENOSYS) else Ok(entry.ops.write.value(local, data))
    }

    /**
      `pico_vfs_register_common`: validate the prefix, then take the lowest
      NULL slot below `s_vfs_count`, or append one, failing with ENOMEM
      once all four slots exist.
    */
    method RegisterCommon(prefix: Prefix, ops: VfsOps) returns (err: int, index: int)
      requires Valid()
      modifies this, vfs
      ensures Valid() && vfs == old(vfs) && fdTable == old(fdTable) && initialised == old(initialised)
      ensures err == 0 || err == EINVAL || err == ENOMEM
      ensures err == EINVAL <==> !WellShaped(prefix)
      ensures err == ENOMEM <==>
        WellShaped(prefix) && old(vfsCount) == VfsMaxCount && forall j :: 0 <= j < VfsMaxCount ==> old(vfs[j]).Some?
      ensures err != 0 ==> vfsCount == old(vfsCount) && vfs[..] == old(vfs[..]) && index == -1
      ensures err == 0 ==>
        && 0 <= index <= old(vfsCount) && index < VfsMaxCount
        && (index < old(vfsCount) ==> old(vfs[index]).None?)
        && (forall j :: 0 <= j < index ==> old(vfs[j]).Some?)
        && vfs[index] == Some(Entry(ops, prefix, index))
        && (forall j :: 0 <= j < VfsMaxCount && j != index ==> vfs[j] == old(vfs[j]))
        && vfsCount == if index == old(vfsCount) then old(vfsCount) + 1 else old(vfsCount)
      ensures err == ENOMEM <==> WellShaped(prefix) && old(NextSlot()) == VfsMaxCount
      ensures err == 0 ==> index == old(NextSlot())
      ensures vfsCount >= old(vfsCount)
    {
      index := -1;
      if prefix.Path? && CheckPrefix(prefix.p) != 0 {
        err := EINVAL;
        return;
      }
      var i: nat := 0;
      while i < vfsCount
        invariant i <= vfsCount
        invariant forall j :: 0 <= j < i ==> vfs[j].Some?
      {
        if vfs[i].None? {
          break;
        }
        i := i + 1;
      }
      FirstFreeIs(vfs[..vfsCount], i);
      if i == vfsCount {
        if vfsCount >= VfsMaxCount {
          err := ENOMEM;
          return;
        }
        vfsCount := vfsCount + 1;
      }
      vfs[i] := Some(Entry(ops, prefix, i));
      index := i;
      err := 0;
    }

    /** `pico_vfs_register`: returns 0 or the errno value, not the slot index. */
    method Register(basePath: string, ops: VfsOps) returns (r: int)
      requires Valid()
      modifies this, vfs
      ensures Valid() && vfs == old(vfs) && fdTable == old(fdTable) && initialised == old(initialised)
      ensures r == 0 || r == EINVAL || r == ENOMEM
      ensures r == EINVAL <==> CheckPrefix(basePath) != 0
      ensures r == ENOMEM <==> CheckPrefix(basePath) == 0 && old(NextSlot()) == VfsMaxCount
      ensures r != 0 ==> vfsCount == old(vfsCount) && vfs[..] == old(vfs[..])
      ensures r == 0 ==>
        var i := old(NextSlot());
        && i < vfsCount && vfs[i] == Some(Entry(ops, Path(basePath), i))
        && (forall j :: 0 <= j < VfsMaxCount && j != i ==> vfs[j] == old(vfs[j]))
        && vfsCount == if i == old(vfsCount) then old(vfsCount) + 1 else old(vfsCount)
    {
      var index;
      r, index := RegisterCommon(Path(basePath), ops);
    }

    /**
      `pico_vfs_register_fd_range_for_vfs_index`: bind every descriptor of
      the half-open range [minFd, maxFd) permanently to `index`, each with
      itself as local descriptor; on meeting a taken slot, free again the
      slots bound so far and fail with EINVAL. (The source compares the
      `uint8_t` field with -1, which never holds; modelled as intended.)
    */
    method RegisterFdRangeForIndex(index: nat, minFd: int, maxFd: int) returns (r: int)
      requires Valid()
      requires index < VfsMaxCount
      requires 0 <= minFd && maxFd <= MaxFds
      modifies fdTable
      ensures r == 0 || r == EINVAL
      ensures r == 0 <==> forall i :: minFd <= i < maxFd ==> old(fdTable[i]).Unused?
      ensures r == 0 ==> forall i :: 0 <= i < MaxFds ==>
        fdTable[i] == if minFd <= i < maxFd then Used(index, i, true) else old(fdTable[i])
      ensures r != 0 ==> fdTable[..] == old(fdTable[..])
    {
      var i := minFd;
      while i < maxFd
        invariant minFd <= i
        invariant minFd <= maxFd ==> i <= maxFd
        invariant minFd > maxFd ==> i == minFd
        invariant forall k :: minFd <= k < i ==> old(fdTable[k]).Unused? && fdTable[k] == Used(index, k, true)
        invariant forall k :: 0 <= k < MaxFds && !(minFd <= k < i) ==> fdTable[k] == old(fdTable[k])
      {
        if fdTable[i].Used? {
          var j := minFd;
          while j < i
            invariant minFd <= j <= i
            invariant forall k :: minFd <= k < j ==> fdTable[k] == old(fdTable[k])
            invariant forall k :: j <= k < i ==> fdTable[k] == Used(index, k, true)
            invariant forall k :: 0 <= k < MaxFds && !(minFd <= k < i) ==> fdTable[k] == old(fdTable[k])
          {
            if fdTable[j].Used? && fdTable[j].vfsIndex == index {
              fdTable[j] := Unused;
            }
            j := j + 1;
          }
          assert fdTable[..] == old(fdTable[..]);
          return EINVAL;
        }
        fdTable[i] := Used(index, i, true);
        i := i + 1;
      }
      return 0;
    }

    /**
      `pico_vfs_register_fd_range`: check the bounds, register a
      never-path-matched entry, then reserve [minFd, maxFd) for it. Returns
      the slot index, -1 on failure (the entry stays registered when only
      the reservation failed), or EINVAL itself for bad bounds.
    */
    method RegisterFdRange(ops: VfsOps, minFd: int, maxFd: int) returns (r: int)
      requires Valid()
      modifies this, vfs, fdTable
      ensures Valid() && vfs == old(vfs) && fdTable == old(fdTable) && initialised == old(initialised)
      ensures minFd < 0 || maxFd < 0 || minFd > MaxFds || maxFd > MaxFds || minFd > maxFd ==>
        r == EINVAL && vfsCount == old(vfsCount) && vfs[..] == old(vfs[..]) && fdTable[..] == old(fdTable[..])
      ensures r >= 0 && r != EINVAL ==>
        && r < vfsCount && vfs[r] == Some(Entry(ops, Ignored, r))
        && forall i :: 0 <= i < MaxFds ==>
             fdTable[i] == if minFd <= i < maxFd then Used(r, i, true) else old(fdTable[i])
      ensures r == -1 ==> fdTable[..] == old(fdTable[..])
      ensures r == EINVAL || r == -1 || 0 <= r < VfsMaxCount
      ensures vfsCount >= old(vfsCount)
      ensures 0 <= minFd <= maxFd <= MaxFds ==>
        && r != EINVAL
        && (r >= 0 <==> old(NextSlot()) < VfsMaxCount && forall i :: minFd <= i < maxFd ==> old(fdTable[i]).Unused?)
        && (r >= 0 ==> r == old(NextSlot()))
      ensures 0 <= minFd <= maxFd <= MaxFds && old(NextSlot()) < VfsMaxCount ==>
        var k := old(NextSlot());
        && vfs[k] == Some(Entry(ops, Ignored, k))
        && (forall j :: 0 <= j < VfsMaxCount && j != k ==> vfs[j] == old(vfs[j]))
        && vfsCount == if k == old(vfsCount) then old(vfsCount) + 1 else old(vfsCount)
      ensures 0 <= minFd <= maxFd <= MaxFds && old(NextSlot()) == VfsMaxCount ==>
        r == -1 && vfsCount == old(vfsCount) && vfs[..] == old(vfs[..]) && fdTable[..] == old(fdTable[..])
    {
      if minFd < 0 || maxFd < 0 || minFd > MaxFds || maxFd > MaxFds || minFd > maxFd {
        return EINVAL;
      }
      var err, index := RegisterCommon(Ignored, ops);
      if err == 0 {
        err := RegisterFdRangeForIndex(index, minFd, maxFd);
        if err != 0 {
          index := -1;
        }
      } else {
        index := -1;
      }
      return index;
    }

    /**
      `pico_vfs_get_vfs_for_path`: scan the first `s_vfs_count` slots
      keeping the best match so far and its prefix length.
    */
    method GetVfsForPath(path: string) returns (best: Option<nat>)
      requires Valid()
      ensures best == Resolve(Prefixes(), path)
      ensures best.Some? ==> best.value < vfsCount && vfs[best.value].Some? && vfs[best.value].value.prefix.Path?
    {
      ghost var s := Prefixes();
      best := None;
      var bestLen: int := -1;
      var len := |path|;
      var i: nat := 0;
      assert s[..0] == [];
      while i < vfsCount
        invariant i <= vfsCount == |s|
        invariant forall k :: 0 <= k < |s| ==> s[k] == SlotPrefix(vfs[k])
        invariant ScanInv(s[..i], path, best, bestLen)
      {
        ghost var best0, bestLen0 := best, bestLen;
        var slot := vfs[i];
        assert SlotPrefix(slot) == s[i];
        if slot.None? || slot.value.prefix.Ignored? {
          // never matched by path
        } else {
          var p := slot.value.prefix.p;
          if len < |p| || path[..|p|] != p {
            // prefix does not match
          } else if |p| == 0 && best.None? {
            best := Some(i);
          } else if len > |p| && path[|p|] != '/' {
            // no separator after the prefix
          } else if bestLen < |p| {
            bestLen := |p|;
            best := Some(i);
          }
        }
        assert (best, bestLen) == ScanStep(best0, bestLen0, s[i], i, path);
        ScanStepKeepsInv(s, path, i, best0, bestLen0);
        i := i + 1;
      }
      assert s[..vfsCount] == s;
      ResolveSound(s, path);
    }

    /** One iteration of the scan over slot `i`, as the loop body performs it. */
    static function ScanStep(best: Option<nat>, bestLen: int, slot: Option<Prefix>, i: nat, path: string): (Option<nat>, int)
    {
      if slot.None? || slot.value.Ignored? then (best, bestLen)
      else
        var p := slot.value.p;
        if |path| < |p| || path[..|p|] != p then (best, bestLen)
        else if |p| == 0 && best.None? then (Some(i), bestLen)
        else if |path| > |p| && path[|p|] != '/' then (best, bestLen)
        else if bestLen < |p| then (Some(i), |p|)
        else (best, bestLen)
    }

    /** The scan state after the slots `t`: the selection so far and the length it recorded. */
    static ghost predicate ScanInv(t: seq<Option<Prefix>>, path: string, best: Option<nat>, bestLen: int)
    {
      && (LongestMatch(t, path).Some? ==>
            best == LongestMatch(t, path) && bestLen == PrefixLen(t[best.value]))
      && (LongestMatch(t, path).None? ==>
            best == DefaultMatch(t, path) &&
            bestLen == (if |Defaults(t)| >= 2 && RootLike(path) then 0 else -1))
    }

    /** How the spec functions grow by one slot. */
    static lemma GrowOne(s: seq<Option<Prefix>>, path: string, i: nat)
      requires i < |s|
      ensures forall k :: 0 <= k < i ==> s[..i + 1][k] == s[..i][k]
      ensures LongestMatch(s[..i + 1], path) ==
        var lm := LongestMatch(s[..i], path);
        if MountMatch(s[i], path) && (lm.None? || PrefixLen(s[..i][lm.value]) < PrefixLen(s[i])) then Some(i) else lm
      ensures Defaults(s[..i + 1]) == Defaults(s[..i]) + if DefaultMount(s[i]) then [i] else []
    {
      var t := s[..i + 1];
      assert t[..i] == s[..i];
      assert t[i] == s[i];
    }

    static lemma ScanStepKeepsInv(s: seq<Option<Prefix>>, path: string, i: nat, best: Option<nat>, bestLen: int)
      requires i < |s|
      requires ScanInv(s[..i], path, best, bestLen)
      ensures ScanInv(s[..i + 1], path, ScanStep(best, bestLen, s[i], i, path).0, ScanStep(best, bestLen, s[i], i, path).1)
    {
      GrowOne(s, path, i);
      var u, t, x := s[..i], s[..i + 1], s[i];
      var lm := LongestMatch(u, path);
      var next := ScanStep(best, bestLen, x, i, path);
      if lm.Some? {
        assert t[lm.value] == u[lm.value];
      }
      if x.None? || x.value.Ignored? {
        assert next == (best, bestLen);
      } else if |path| < |x.value.p| || path[..|x.value.p|] != x.value.p {
        assert next == (best, bestLen);
      } else if |x.value.p| == 0 {
        assert DefaultMount(x);
        if best.None? {
          assert Defaults(u) == [];
        } else if |path| > 0 && path[0] != '/' {
          assert next == (best, bestLen);
        } else if bestLen < 0 {
          assert |Defaults(u)| == 1;
        } else {
          assert next == (best, bestLen);
        }
      } else if |path| > |x.value.p| && path[|x.value.p|] != '/' {
        assert !MountMatch(x, path);
      } else {
        assert MountMatch(x, path);
      }
    }

    /**
      `pico_vfs_open`: route the path, call the driver's open on the
      translated path and bind the lowest free slot non-permanently to the
      entry. When no slot is free the driver's close is called on the new
      handle (`closed`) and the call fails with ENOMEM. The source stores
      the never-assigned `fd_within_vfs`; modelled as intended, the
      driver's handle `ret`, as an `uint8_t`.
    */
    method Open(path: string, flags: int, mode: int) returns (r: Outcome<int>, closed: Option<int>)
      requires Valid()
      modifies fdTable
      ensures Resolve(Prefixes(), path).None? ==>
        r == Err(ENOENT) && closed.None? && fdTable[..] == old(fdTable[..])
      ensures Resolve(Prefixes(), path).Some? ==>
        var e := vfs[Resolve(Prefixes(), path).value].value;
        && (e.ops.open.None? ==> r == Err(ENOSYS) && closed.None? && fdTable[..] == old(fdTable[..]))
        && (e.ops.open.Some? ==>
              var ret := e.ops.open.value(Translate(PrefixLen(Some(e.prefix)), path), flags, mode);
              && (ret < 0 ==> r == Ok(ret) && closed.None? && fdTable[..] == old(fdTable[..]))
              && (ret >= 0 && r.Ok? ==>
                    && 0 <= r.value < MaxFds && old(fdTable[r.value]).Unused?
                    && (forall k :: 0 <= k < r.value ==> old(fdTable[k]).Used?)
                    && fdTable[r.value] == Used(e.index, ret % 256, false)
                    && (forall k :: 0 <= k < MaxFds && k != r.value ==> fdTable[k] == old(fdTable[k]))
                    && ResolveFd(r.value) == Ok((e, ret % 256))
                    && closed.None?)
              && (ret >= 0 && r.Err? ==>
                    && r.errno == ENOMEM
                    && (forall k :: 0 <= k < MaxFds ==> old(fdTable[k]).Used?)
                    && fdTable[..] == old(fdTable[..])
                    && closed == if e.ops.close.Some? then Some(ret) else None))
      ensures r.Ok? && r.value >= 0 ==> Resolve(Prefixes(), path).Some?
    {
      closed := None;
      var m := GetVfsForPath(path);
      if m.None? {
        return Err(ENOENT), None;
      }
      var e := vfs[m.value].value;
      var p := Translate(|e.prefix.p|, path);
      if e.ops.open.None? {
        return Err(ENOSYS), None;
      }
      var ret := e.ops.open.value(p, flags, mode);
      if ret >= 0 {
        var i := 0;
        while i < MaxFds
          invariant 0 <= i <= MaxFds
          invariant forall k :: 0 <= k < i ==> fdTable[k].Used?
          invariant fdTable[..] == old(fdTable[..])
        {
          if fdTable[i].Unused? {
            fdTable[i] := Used(e.index as byte, (ret % 256) as byte, false);
            return Ok(i), None;
          }
          i := i + 1;
        }
        if e.ops.close.Some? {
          var closeResult := e.ops.close.value(ret);
          closed := Some(ret);
        }
        return Err(ENOMEM), closed;
      }
      return Ok(ret), None;
    }

    /**
      `pico_vfs_opendir`: route the path, call the driver's opendir on the
      translated path and stamp a returned stream with the entry's index.
    */
    method OpenDir(name: string) returns (r: Outcome<Option<Dir>>)
      requires Valid()
      ensures Resolve(Prefixes(), name).None? ==> r == Err(ENOENT)
      ensures Resolve(Prefixes(), name).Some? ==>
        var e := vfs[Resolve(Prefixes(), name).value].value;
        && (e.ops.opendir.None? ==> r == Err(ENOSYS))
        && (e.ops.opendir.Some? ==>
              var d := e.ops.opendir.value(Translate(PrefixLen(Some(e.prefix)), name));
              && (d.None? ==> r == Ok(None))
              && (d.Some? ==> r == Ok(Some(Dir(e.index, d.value.state)))))
      ensures r.Ok? && r.value.Some? ==> EntryForIndex(r.value.value.vfsIndex).Some?
    {
      var m := GetVfsForPath(name);
      if m.None? {
        return Err(ENOENT);
      }
      var e := vfs[m.value].value;
      var p := Translate(|e.prefix.p|, name);
      if e.ops.opendir.None? {
        return Err(ENOSYS);
      }
      var d := e.ops.opendir.value(p);
      if d.Some? {
        d := Some(d.value.(vfsIndex := e.index));
      }
      return Ok(d);
    }

    /**
      `pico_vfs_init`: once only (EBUSY afterwards), free every descriptor
      slot and register the root entry with the empty prefix. Returns its
      slot index, or -1 when registration fails.
    */
    method Init() returns (r: int)
      requires Valid()
      modifies this, vfs, fdTable
      ensures Valid() && vfs == old(vfs) && fdTable == old(fdTable)
      ensures old(initialised) ==>
        r == EBUSY && initialised && vfsCount == old(vfsCount) && vfs[..] == old(vfs[..]) && fdTable[..] == old(fdTable[..])
      ensures !old(initialised) ==>
        && initialised
        && (forall i :: 0 <= i < MaxFds ==> fdTable[i].Unused?)
        && (r == -1 <==> old(vfsCount) == VfsMaxCount && forall j :: 0 <= j < VfsMaxCount ==> old(vfs[j]).Some?)
        && (r == -1 ==> vfsCount == old(vfsCount) && vfs[..] == old(vfs[..]))
        && (r != -1 ==>
              && r == old(NextSlot()) && r < vfsCount && vfs[r] == Some(Entry(RootOps(), Path([]), r))
              && (forall j :: 0 <= j < VfsMaxCount && j != r ==> vfs[j] == old(vfs[j]))
              && vfsCount == if r == old(vfsCount) then old(vfsCount) + 1 else old(vfsCount))
    {
      if initialised {
        return EBUSY;
      }
      initialised := true;
      var i := 0;
      while i < MaxFds
        invariant 0 <= i <= MaxFds
        invariant Valid() && vfs == old(vfs) && fdTable == old(fdTable)
        invariant vfsCount == old(vfsCount) && vfs[..] == old(vfs[..]) && initialised
        invariant forall k :: 0 <= k < i ==> fdTable[k].Unused?
      {
        fdTable[i] := Unused;
        i := i + 1;
      }
      var err, index := RegisterCommon(Path([]), RootOps());
      return index;
    }
  }
}
