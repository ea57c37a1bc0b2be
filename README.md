# pico-sdk VFS, block devices and host simulators in Dafny

This project models three parts of the alvieboy fork of the Raspberry Pi
Pico SDK and proves properties of the model.

- **The VFS layer** (`src/rp2_common/pico_vfs/vfs.c`), modelled as the
  class `Vfs.VfsTable`. It has a registry of at most four mount entries
  (`s_vfs`, `s_vfs_count`) and a table of sixteen global file descriptors
  (`s_fd_table`).
  - A mount prefix is validated and the entry takes the lowest free
    registry slot.
  - A path is routed to the entry with the longest matching prefix, which
    must end at a '/' boundary. The prefix is then stripped off.
  - A descriptor range can be reserved for an entry, with rollback when a
    slot is taken.
  - `open` binds the lowest free descriptor. `opendir` stamps the stream
    with its owner. `init` runs once.
  - The pure routing rules live in module `VfsPath`.
- **The block-device layer** (`src/common/pico_blockdev/blockdev.c`,
  `src/common/pico_blockdev/partition.c`, and the rp2 copy of the
  dispatchers in `src/rp2_common/pico_blockdev/blockdev.c`).
  - The operations dispatch through a vtable and return -1 for a NULL
    operation. A partition adds its start sector (modulo 2^32) before
    forwarding I/O to its parent, and answers `BLKGETSIZE` itself.
  - Registering a device without a parent scans its Master Boot Record.
    The scan reads sector 0 and checks the 0x55 0xAA signature, then
    creates and registers one partition device per table slot whose boot
    indicator is non-zero, in slot order.
  - The MBR layout and the little-endian decoder are in module `Mbr`.
  - The devices and their registration order are in `BlockDev.DeviceTree`.
- **The host simulators** of GPIO, I2C and SPI (`src/host/...`).
  - GPIO: 32 pins with a level rule, plus listeners notified only when
    the level changes.
  - I2C: a start/stop/restart flag machine over a handler list, where an
    acknowledge from any handler counts.
  - SPI: a handler list where the first handler to claim a transfer wins.

Callbacks and drivers are opaque C code. Each is modelled as a pure
function of what it has seen so far (the bus or call history) and of its
arguments. Every call the code makes into them is recorded in a log field,
so contracts can say which calls were made, in which order, and with what.
Errors that the C reports through `errno` come back as the `Err` part of
an `Outcome`. The errno values are newlib's: ENOENT 2, EBADF 9, ENOMEM 12,
EBUSY 16, EINVAL 22, ENOSYS 88.

Where the C has an evident defect, the model follows the intent and the
"## Findings" table records the defect. Other divergences:

- `open` stores the uninitialised `fd_within_vfs` as the local descriptor.
  The model stores the driver's handle `ret`, truncated to `uint8_t`.
- `pico_vfs_register` returns 0 or an errno value, not the slot index, as
  the C does.
- The scanner decides on the boot-indicator byte, as the C does, not on
  the type byte that standard MBR uses to mark an empty entry.
- The `childs` counter is used by the C but is missing from
  `struct pico_blockdev__`. The model gives every device the field.
- `i2c_write_blocking` needs `len >= 1`. With `len == 0` its do-while would
  send a byte and wrap `len` round.
- SPI stores a handler's `int` result in a `size_t`. A negative result
  therefore claims the transfer too, and the model keeps that.

## Model

| member | source | states |
|---|---|---|
| VfsPath.CheckPrefix | src/rp2_common/pico_vfs/vfs.c:159-166 | the prefix is accepted (0) exactly when it is empty, or 2 to 16 characters long, starting with '/' and not ending with '/'; otherwise EINVAL |
| VfsPath.LongestMatchIsLongest | src/rp2_common/pico_vfs/vfs.c:64-108 | the longest-match scan finds nothing exactly when no non-empty prefix matches; otherwise its pick is at least as long as every match and strictly longer than every earlier match |
| VfsPath.ResolveSound | src/rp2_common/pico_vfs/vfs.c:77-95 | a routed path lands on a path entry (never a descriptor-range entry) whose prefix is a byte prefix of the path, followed by the path's end or '/' when the prefix is non-empty |
| VfsPath.ResolveLongestWins | src/rp2_common/pico_vfs/vfs.c:86-105 | when a non-empty prefix matches, the strictly longest wins and the earliest slot breaks ties; an empty-prefix entry is chosen only when none matches, and nothing only when there is no empty-prefix entry either |
| VfsPath.Translate | src/rp2_common/pico_vfs/vfs.c:54-62 | the stripped path is "/" when the path is exactly the prefix; otherwise prefix and result concatenate back to the path |
| VfsPath.TranslateIsAbsolute | src/rp2_common/pico_vfs/vfs.c:54-62 | a path routed to a non-empty prefix reaches the driver as a non-empty path starting with '/' |
| VfsPath.ExampleNestedMounts | src/rp2_common/pico_vfs/vfs.c:98-105 | with mounts "/a" and "/a/b", the path "/a/b/c" goes to "/a/b" |
| VfsPath.ExampleNoPartialComponent | src/rp2_common/pico_vfs/vfs.c:88-93 | with mounts "/a", "/a/b" and "", the path "/a1" matches neither named mount and goes to the empty-prefix entry |
| Vfs.StoredIndex | src/rp2_common/pico_vfs/vfs.c:23-39 | the stored `vfs_index` byte is 255 exactly for a free slot or a slot bound to index 255 |
| Vfs.FreeAsWrittenNeverHolds | src/rp2_common/pico_vfs/vfs.c:213 | the free-slot test as written (`uint8_t` compared with -1) holds for no slot, a freed one included |
| Vfs.VfsCallAsWrittenInverted | src/rp2_common/pico_vfs/vfs.c:268-275 | as written, `VFSCALL_R` reports ENOSYS exactly when the operation is present and calls through exactly when it is NULL |
| Vfs.VfsTable.constructor | src/rp2_common/pico_vfs/vfs.c:41-44 | the zero-initialised globals: no mounts, not initialised, every descriptor slot all-zero bytes |
| Vfs.VfsTable.EntryForIndex | src/rp2_common/pico_vfs/vfs.c:110-117 | an entry is returned exactly for an index below `s_vfs_count` whose slot is non-NULL, and it carries that index |
| Vfs.VfsTable.GetVfsForFd | src/rp2_common/pico_vfs/vfs.c:129-143 | a descriptor resolves exactly when 0 <= fd < 16, its slot is bound, and the bound index names a registered entry; the entry is the one with that index |
| Vfs.VfsTable.ResolveFd | src/rp2_common/pico_vfs/vfs.c:260-266 | the common prologue fails with EBADF exactly when the descriptor does not resolve, and otherwise yields the entry and the stored local descriptor |
| Vfs.VfsTable.Lseek | src/rp2_common/pico_vfs/vfs.c:292-295 | EBADF for a bad descriptor, ENOSYS when the entry has no `lseek`, otherwise the driver's result for the local descriptor and the same arguments |
| Vfs.VfsTable.Write | src/rp2_common/pico_vfs/vfs.c:297-300 | the same three outcomes for `write`, with the same data |
| Vfs.FirstFree | src/rp2_common/pico_vfs/vfs.c:171-176 | the slot a registration takes: every slot below it is occupied, and it is either a NULL slot or one past the last |
| Vfs.VfsTable.RegisterCommon | src/rp2_common/pico_vfs/vfs.c:157-201 | EINVAL exactly for an ill-shaped prefix and ENOMEM exactly when all four slots are taken, with nothing changed; otherwise the entry goes to `FirstFree` of the registry (the lowest NULL slot below the count, or an appended one) and records its own slot index; other slots are untouched and the count grows only on an append |
| Vfs.VfsTable.Register | src/rp2_common/pico_vfs/vfs.c:203-206 | returns 0, EINVAL (exactly when the prefix check fails) or ENOMEM (exactly when the prefix is valid and all four slots are taken); on success the new entry sits in the slot `FirstFree` picks, with its own index, every other slot is untouched and the count grows only on an append; on failure nothing changes |
| Vfs.VfsTable.RegisterFdRangeForIndex | src/rp2_common/pico_vfs/vfs.c:208-229 | succeeds exactly when every slot of [minFd, maxFd) was free; it then binds each permanently to the index with itself as local descriptor and leaves every other slot as it was; on failure the whole table is as before |
| Vfs.VfsTable.RegisterFdRange | src/rp2_common/pico_vfs/vfs.c:231-257 | out-of-range bounds give EINVAL with nothing touched; with valid bounds the result is never EINVAL, and it is the new entry's slot exactly when the registry had room and every descriptor of [minFd, maxFd) was free, with the range bound permanently to it; whenever the registry had room the never-routed entry stays registered in the slot `FirstFree` picks, on -1 too, with the other slots untouched; a full registry gives -1 with nothing changed; -1 leaves the descriptor table unchanged |
| Vfs.VfsTable.GetVfsForPath | src/rp2_common/pico_vfs/vfs.c:64-108 | the scan returns exactly the slot the routing rule selects, and that slot holds a path entry |
| Vfs.VfsTable.Open | src/rp2_common/pico_vfs/vfs.c:302-343 | ENOENT when no mount matches, ENOSYS without a driver `open`, a negative driver result passed through; otherwise the lowest free slot is bound non-permanently to the entry and resolves back to it, or, when none is free, the driver's `close` is called on the handle and the call fails with ENOMEM |
| Vfs.VfsTable.OpenDir | src/rp2_common/pico_vfs/vfs.c:352-374 | ENOENT when no mount matches, ENOSYS without a driver `opendir`; a returned stream is stamped with the entry's index, which names a registered entry |
| Vfs.VfsTable.Init | src/rp2_common/pico_vfs/vfs.c:386-435 | a second call gives EBUSY and changes nothing; the first frees all sixteen descriptors and registers the root entry with the empty prefix in the slot `FirstFree` picks, returning that index with the other slots untouched, or -1 with the registry unchanged exactly when the registry is full |
| Mbr.DecodeEncode | src/common/pico_blockdev/partition.c:81-88 | decoding the four little-endian bytes of a 32-bit value gives the value back |
| Mbr.EncodeDecode | src/common/pico_blockdev/partition.c:81-88 | encoding a decoded field gives its four bytes back, so the decoder is a bijection |
| Mbr.DecodeFields | src/common/pico_blockdev/partition.c:92-96 | a decoded entry carries its slot, and its start and count are exactly the little-endian fields at entry offsets 8 and 12 |
| Mbr.FoundFromSlots | src/common/pico_blockdev/partition.c:117-120 | no more partitions than slots, and each partition found is the content of its own slot |
| Mbr.FoundAscending | src/common/pico_blockdev/partition.c:117-120 | the partitions come out in strictly ascending slot order |
| Mbr.FoundExactly | src/common/pico_blockdev/partition.c:93-105 | a slot yields a partition exactly when it is occupied |
| Mbr.PartitionsSpec | src/common/pico_blockdev/partition.c:108-123 | nothing without the signature; otherwise at most four partitions in ascending slot order, one exactly for each entry with a non-zero boot indicator, each decoded from its own entry |
| Mbr.ExampleSlotsZeroAndTwo | src/common/pico_blockdev/partition.c:90-106 | a signed sector with boot indicators set in slots 0 and 2 gives exactly those two partitions, in that order, with their entries' start and count fields |
| BlockDev.DispatchAbsent | src/common/pico_blockdev/blockdev.c:6-31 | on a driver's device with a NULL operation, read, write and ioctl return -1 and leave the buffer as it was (the rp2 copy, src/rp2_common/pico_blockdev/blockdev.c:3-29, is the same code) |
| BlockDev.DispatchPresent | src/common/pico_blockdev/blockdev.c:6-31 | a present operation is called with the same device and arguments, and its result is returned unchanged (likewise in the rp2 copy, src/rp2_common/pico_blockdev/blockdev.c:3-29) |
| BlockDev.ReadFollowsChain | src/common/pico_blockdev/partition.c:45-52 | reading through any stack of partitions reads the disk below, at the requested sector plus all their start sectors modulo 2^32, with the same buffer and count |
| BlockDev.WriteFollowsChain | src/common/pico_blockdev/partition.c:54-60 | the same for writes |
| BlockDev.IoctlFollowsChain | src/common/pico_blockdev/partition.c:62-79 | every command other than `BLKGETSIZE` reaches the disk's driver unchanged, with the same buffer |
| BlockDev.PartitionGetSize | src/common/pico_blockdev/partition.c:69-72 | `BLKGETSIZE` on a partition returns 0 without the parent; the first four bytes decode to its sector count and the rest of the buffer is untouched |
| BlockDev.ExamplePartitionOffset | src/common/pico_blockdev/partition.c:45-52 | sector 10 of a partition starting at 2048 is disk sector 2058, and a start of 0xFFFF_FFFF plus 2 wraps round to sector 1 |
| BlockDev.ScannedShape | src/common/pico_blockdev/partition.c:95-104 | after a scan the tree is well formed, the scanned device's counter went up by the number found, other devices are untouched, and each new device is a partition under the scanned device with its entry's start and count |
| BlockDev.SlotsScannedSpec | src/common/pico_blockdev/partition.c:117-120 | examining the slots one by one creates exactly the partitions found, in slot order |
| BlockDev.DeviceTree.AddDisk | src/common/pico_blockdev/include/pico/blockdev.h:22-27 | a driver creating its own `pico_blockdev_t` (its ops and optional parent): the device is appended with a zero counter, nothing else changes and nothing is registered |
| BlockDev.DeviceTree.Init | src/common/pico_blockdev/blockdev.c:33-41 | the counter is reset to 0 whatever happens; the result is the driver's `init`, -1 without one, and 0 for a partition |
| BlockDev.DeviceTree.GetChildren | src/common/pico_blockdev/blockdev.c:43-46 | returns the current counter |
| BlockDev.DeviceTree.Register | src/common/pico_blockdev/blockdev.c:55-64 | returns 0; a device with a parent only fires the registration hook; one without is scanned first, its partitions registered (each once, in creation order) before it |
| BlockDev.DeviceTree.ScanPartitions | src/common/pico_blockdev/partition.c:108-123 | the tree becomes the one with the partitions the sector-0 read yields, and the log gains their new indices in order; a failed read or missing signature changes nothing |
| BlockDev.DeviceTree.ExamineSlots | src/common/pico_blockdev/partition.c:117-120 | the four slots examined in order create the sector's partitions and register them in creation order |
| BlockDev.DeviceTree.CheckMsdosPartition | src/common/pico_blockdev/partition.c:90-106 | an entry with a non-zero boot indicator appends a partition under the device with its decoded start and count, bumps the device's counter, and registers the new device; any other entry changes nothing |
| Gpio.LevelRule | src/host/hardware_gpio/gpio.c:47-55 | an output reads its stored bit, a driven input reads the external value, an undriven input reads high exactly under a pull-up |
| Gpio.PullIrrelevantWhenDriven | src/host/hardware_gpio/gpio.c:47-55 | changing the pull of an output or of a driven input changes nothing readable and notifies nobody |
| Gpio.SetPullsPriority | src/host/hardware_gpio/gpio.c:92-96 | up wins over down, and neither selects no pull |
| Gpio.ExternalDriveWins | src/host/hardware_gpio/gpio.c:222-246 | every setting except FLOAT makes an input read what it applies: high for PULLUP and DRIVE_HIGH, low for PULLDOWN and DRIVE_LOW |
| Gpio.PutKeepsLowBit | src/host/hardware_gpio/gpio.c:182-186 | an output reads the low bit of the value put, so -1 and 3 read high and 2 low |
| Gpio.NotificationsOnChangeOnly | src/host/hardware_gpio/gpio.c:57-66 | an unchanged level notifies nobody; a changed one notifies every listener in list order with the new level |
| Gpio.GpioBank.constructor | src/host/hardware_gpio/gpio.c:34 | all 32 pins start all-zero with no listeners |
| Gpio.GpioBank.AddListener | src/host/hardware_gpio/gpio.c:36-45 | the listener is prepended to that pin's list; nothing else changes |
| Gpio.GpioBank.PropagateIfNeeded | src/host/hardware_gpio/gpio.c:57-66 | the log gains one call per listener, in list order, with the new level, exactly when the level differs from the old one |
| Gpio.GpioBank.PullUp | src/host/hardware_gpio/gpio.c:73-77 | only that pin changes, to pull-up, with listeners notified of a level change |
| Gpio.GpioBank.PullDown | src/host/hardware_gpio/gpio.c:79-84 | the same with pull-down |
| Gpio.GpioBank.DisablePulls | src/host/hardware_gpio/gpio.c:86-90 | the same with no pull |
| Gpio.GpioBank.SetPulls | src/host/hardware_gpio/gpio.c:92-96 | the same with the pull chosen by up-over-down priority |
| Gpio.GpioBank.Put | src/host/hardware_gpio/gpio.c:182-186 | only that pin changes, storing the low bit of the value, with listeners notified of a level change |
| Gpio.GpioBank.SetDir | src/host/hardware_gpio/gpio.c:204-208 | only that pin changes direction, with listeners notified of a level change |
| Gpio.GpioBank.Get | src/host/hardware_gpio/gpio.c:153-156 | true exactly when the pin's level is high |
| Gpio.GpioBank.SetExternalDrive | src/host/hardware_gpio/gpio.c:222-246 | only that pin's external drive and value change, and nobody is notified |
| I2c.AckedIffSomeAnswerZero | src/host/hardware_i2c/i2c.c:83-95 | a byte is acknowledged exactly when some handler answered 0 |
| I2c.AddressByte | src/host/hardware_i2c/i2c.c:104 | the address byte is the address with its low bit cleared, not shifted |
| I2c.DataPhaseSent | src/host/hardware_i2c/i2c.c:106-114 | the data phase sends between one byte and all of them, and succeeds only if it sent them all |
| I2c.DataPhaseAcks | src/host/hardware_i2c/i2c.c:106-114 | every byte before the last one sent was acknowledged, and the phase succeeds exactly when the last one sent was, so it stops at the first unacknowledged byte |
| I2c.StubResults | src/host/hardware_i2c/i2c.c:38-51 | init returns the baudrate, one byte is writable, none readable |
| I2c.I2cBus.constructor | src/host/hardware_i2c/i2c.c:16-22 | no handlers, and `restart_on_next` starts true |
| I2c.I2cBus.RegisterHandler | src/host/hardware_i2c/i2c.c:25-36 | the handler is prepended |
| I2c.I2cBus.StartAll | src/host/hardware_i2c/i2c.c:63-71 | one start per handler, in list order |
| I2c.I2cBus.StopAll | src/host/hardware_i2c/i2c.c:73-81 | one stop per handler, in list order |
| I2c.I2cBus.DoTrans | src/host/hardware_i2c/i2c.c:83-95 | every handler is asked, in order, with no short cut; the result is 0 exactly when one acknowledged, else -1 |
| I2c.I2cBus.SendData | src/host/hardware_i2c/i2c.c:106-114 | the loop makes exactly the calls of the data phase and returns 0 exactly when it succeeded |
| I2c.I2cBus.WriteBlocking | src/host/hardware_i2c/i2c.c:96-125 | start only when `restart_on_next` was set, then the address byte, data only after an acknowledged address, stop unless `nostop`; `restart_on_next` becomes `!nostop`; the result is 0 exactly when address and data were acknowledged, otherwise `PICO_ERROR_GENERIC` |
| I2c.I2cBus.ReadBlocking | src/host/hardware_i2c/i2c.c:127-132 | start then stop on every handler, the flag untouched, result -1 |
| Spi.ChainSpec | src/host/hardware_spi/spi.c:96-104 | handlers are called in list order with the same arguments; all but the last called declined; the walk stops only at a claiming handler, whose result is returned; -1 when all declined; never 0 |
| Spi.Repeated | src/host/hardware_spi/spi.c:126-127 | `len` copies of `repeated_tx_data` |
| Spi.StubResults | src/host/hardware_spi/spi.c:44-89 | init and set_baudrate return the baudrate, get_baudrate 0, always writable and readable, never busy |
| Spi.SpiBus.RegisterHandler | src/host/hardware_spi/spi.c:29-36 | the handler is prepended, so it is tried first |
| Spi.SpiBus.Offer | src/host/hardware_spi/spi.c:96-104 | the loop makes exactly the calls of the handler walk and returns its result and receive buffer |
| Spi.SpiBus.WriteReadBlocking | src/host/hardware_spi/spi.c:91-105 | the walk with the receive buffer `dst` offered |
| Spi.SpiBus.WriteBlocking | src/host/hardware_spi/spi.c:107-120 | the walk with a NULL receive buffer |
| Spi.SpiBus.ReadBlocking | src/host/hardware_spi/spi.c:122-139 | the walk with `len` copies of `repeated_tx_data` as transmit buffer |

## Left out

- Allocation failure: `malloc` in `pico_vfs_register_common`, `partition.c`, `gpio.c`, `i2c.c` and `spi.c` is assumed to succeed. The ENOMEM that `pico_vfs_register_common` returns on a failed `malloc` is not modelled. Its ENOMEM for a full registry is.
- Concrete drivers, filesystems and device simulations behind the vtables and callbacks. Each is an optional pure function of its arguments, or of the call history.
- The 16-byte `path_prefix` buffer. Prefixes are strings, so a 16-character prefix, which validation accepts, is stored whole. In the C it leaves no room for the terminating NUL.
- `vfs_index` truncation: registry indices are at most 3, so storing one in an `uint8_t` loses nothing, and it is not modelled further.
- Vfs.VfsTable.Open: stores the driver's handle `ret`, modulo 256 as the `uint8_t` field keeps it, as the local descriptor, and passes it to the driver's `close` on the ENOMEM path. The C (src/rp2_common/pico_vfs/vfs.c:312, 326 and 335) uses `fd_within_vfs`, which is never assigned, so as written the stored local descriptor and the descriptor `close` receives are indeterminate; the model states the evident intent instead.
- `pico_vfs_get_vfs_for_index`. It is not used by the routed calls, and it dereferences a NULL slot without a check.
- The table lock, which is an empty stub; `printf`, `vfs_debug` and `sleep_ms(5000)`; newlib's `struct _reent` and the `_write_r`/`opendir` aliases.
- Mount enumeration: the root entry's `opendir` always finds nothing, and no readdir dispatch exists.
- BlockDev.DeviceTree.ScanPartitions: the buffer sector 0 is read into is modelled as zeroed. The C buffer is uninitialised, and a driver that reports success without filling it leaves garbage that the model does not capture.
- BlockDev.DeviceTree.Register: the weak `pico_blockdev_register_event` hook is modelled as appending the device's index to `events`. A stronger override's own effects are not modelled.
- The device tree is an arena of values addressed by index. Pointer aliasing and the struct-overlay casts between `pico_blockdev_part_t` and `pico_blockdev_t` are represented by the `DevOps` variants.
- GPIO: the empty stubs (function select, masks, slew, hysteresis, IRQ, drive strength, `gpio_get_all`, `gpio_init`) and the effects of the listener callbacks themselves.
- I2C: the aborting raw read/write and the timeout variants. A handler's `start` and `stop` results are ignored, as in the C.
- SPI: the empty stubs (reset, format, slave, deinit), the 16-bit variants (declared only), and a handler writing beyond `len`.

## Findings

| source | as written | input that shows it | evidently intended | confidence | as-written member | corrected member |
|---|---|---|---|---|---|---|
| src/rp2_common/pico_vfs/vfs.c:213 | `s_fd_table[i].vfs_index != -1` and `== -1` compare an `uint8_t`, promoted to `int`, with -1 | a freed slot, holding 255, after `pico_vfs_init`: `open`, once its driver call goes through, never finds it free and fails with ENOMEM, and every reservation of a non-empty range fails | a slot is free exactly when it holds the unused marker | high; not executed | Vfs.FreeAsWrittenNeverHolds | Vfs.VfsTable.Open |
| src/rp2_common/pico_vfs/vfs.c:268-275 | `VFSCALL_R` reports ENOSYS when `ops.name != NULL` and calls through otherwise | an entry registered with a non-NULL `lseek`: `lseek` on one of its descriptors fails with ENOSYS | call a present operation, report ENOSYS for an absent one | high; not executed | Vfs.VfsCallAsWrittenInverted | Vfs.VfsTable.Lseek |
