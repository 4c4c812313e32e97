# Exynos snapshot, S2MU004 fuel gauge and shared-memory IPC, modelled in Dafny

This project models three drivers of a Samsung Exynos kernel tree and proves properties of the model.

- **exynos-snapshot** (`drivers/trace/exynos-ss.c`) is the crash-debugging framework. It covers:
  - a table of named memory items, looked up by name prefix, each with its own enable flags;
  - the boot-time reservation and layout of those items, and their fix-up after a reboot;
  - an event log of fixed-capacity rings: one ring per CPU, or one global ring, per event category;
  - the recorders that write into those rings;
  - the byte-stream items (the kernel log, the platform log, the SFR dump) with their wrap-around cursor;
  - the per-CPU panic words of the header;
  - the dumper cursor that replays a ring oldest first;
  - the crash-key combination;
  - the Android pmsg dispatcher;
  - the sysfs stores that switch items and edit the exclusion lists.

  The modules are SnapshotItems, SnapshotRing, SnapshotEvents, SnapshotSfr, SnapshotCore (class `Snapshot`), SnapshotDumper, SnapshotKeys and SnapshotPmsg.
- **S2MU004 fuel gauge** (`drivers/power/s2mu004_fuelgauge.c`). It covers:
  - the decoding of the gauge registers: current, temperature, voltage, raw state of charge;
  - the OCV/SOC table lookup;
  - the current/voltage gauge-mode hysteresis and the surge workaround that repacks register bits;
  - capacity scaling, clamping and smoothing;
  - the register initialisation and battery-table load of `init_regs`;
  - the monitor-register selections of the temperature and average-current reads;
  - the `get_property`/`set_property` state updates.

  The modules are FgCodec, OcvTable and FuelGauge (class `Gauge`).
- **Shared-memory IPC** (`drivers/misc/mcu_ipc/shm_ipc.c`). It covers:
  - the secure-boot parameters;
  - the page arithmetic of a region request;
  - the lazily cached region mappings.

  The module is ShmIpc (class `ShmPlatData`).

CInt holds C's integer semantics:
- truncating division;
- arithmetic shift;
- 32- and 64-bit conversions;
- power-of-two masks.

Wrappers holds `Option`.

How the model is built:
- Code that updates state in place is a class. Its methods are specified against functions on values:
  - the event log is `SnapshotEvents.EventLog`, a sequence of two-dimensional arrays;
  - a method's contract is stated through `View`, the `SnapshotRing.RingState` value of one category.
- Atomics are plain integers. Clocks, `jiffies`, stack pointers, return addresses and register reads are parameters.
- The configuration modelled:
  - eight CPUs;
  - the full item table (`log_kevents`, `log_kernel`, `log_platform`, `log_sfr`, `log_pstore`, `log_etm`);
  - `CONFIG_ARM_ARCH_TIMER` and `CONFIG_DEBUG_SPINLOCK`.

Quirks of the source that the model reproduces as written:
- The dumper starts every per-CPU dump from CPU 0's counter (`SnapshotDumper.DumpStartsAtCpu0`).
- `exynos_ss_reg` logs nothing while the register exclusion list is empty. Its range test includes the end address.
- The dm, i2c, spi and acpm recorders do not check `enabled_init`.
- `irqs_disabled` time-stamps slot 0 whatever slot it writes.
- The IRQ exclusion lists start as `{-1}`, so a sysfs append always reports a full list.
- The regulator and ACPM recorders leave stale bytes in fixed-size name fields.
- `exynos_ss_post_reboot` re-marks the rebooting CPU's own panic word through `exynos_ss_save_context`.

## Model

| member | source | states |
|---|---|---|
| CInt.MaskIgnoresWrap | drivers/trace/exynos-ss.c:335-388 | masking a counter after a 32-bit wrap selects the same ring slot as the unbounded counter, for any ring size dividing 2^32 |
| ShmIpc.NumPages | drivers/misc/mcu_ipc/shm_ipc.c:140-149 | the page count is the size rounded up to whole pages: it covers the size and wastes less than one page |
| ShmIpc.RequestRegion | drivers/misc/mcu_ipc/shm_ipc.c:137-166 | the loop builds exactly the request `RegionRequest` describes; a null address yields NULL, otherwise the address `vmap` returns |
| ShmIpc.ConsecutiveFrames | drivers/misc/mcu_ipc/shm_ipc.c:157-160 | page i of a request is the frame of the base plus i, for every page of the request |
| ShmIpc.AlignedRequestCovers | drivers/misc/mcu_ipc/shm_ipc.c:137-166 | for an aligned base, the first page holds the base and the last page holds the last byte of the region |
| ShmIpc.ShmPlatData.BootThenIpc | drivers/misc/mcu_ipc/shm_ipc.c:61-69 | the boot size and the IPC region offset are both `ipc_off`; the boot part ends where the IPC part starts, and the two lengths add up to the whole area |
| ShmIpc.ShmPlatData.BootAndIpcTileArea | drivers/misc/mcu_ipc/shm_ipc.c:169-184 | the boot pages followed by the IPC pages are exactly the pages of the whole shared area |
| ShmIpc.ShmPlatData.SecurityParam3 | drivers/misc/mcu_ipc/shm_ipc.c:91-115 | main size for a normal boot; for a dump boot, the area base (non-secure build) or the IPC base (secure build); 0 for every other mode |
| ShmIpc.ShmPlatData.SecurityParam2 | drivers/misc/mcu_ipc/shm_ipc.c:117-135 | the boot-loader size for normal and dump boots, 0 otherwise |
| ShmIpc.ShmPlatData.GetBootRegion | drivers/misc/mcu_ipc/shm_ipc.c:169-175 | maps `ipc_off` bytes at the base only while the cache is empty; afterwards it returns the cached address unchanged |
| ShmIpc.ShmPlatData.GetIpcRegion | drivers/misc/mcu_ipc/shm_ipc.c:177-184 | maps from `p_addr + ipc_off` for `t_size - ipc_off` bytes (32-bit) only while uncached; later calls return the cache |
| ShmIpc.ShmPlatData.GetVssRegion | drivers/misc/mcu_ipc/shm_ipc.c:186-193 | maps `vss_size` bytes at `p_addr + cp_size` only while uncached; later calls return the cache |
| ShmIpc.ShmPlatData.GetAcpmRegion | drivers/misc/mcu_ipc/shm_ipc.c:195-202 | maps the ACPM area at its own base only while uncached; later calls return the cache |
| ShmIpc.ShmPlatData.ReleaseRegions | drivers/misc/mcu_ipc/shm_ipc.c:209-222 | exactly the non-null cached mappings are unmapped; the caches keep their (now stale) addresses |
| FgCodec.CurrentOf | drivers/power/s2mu004_fuelgauge.c:631-653 | both sign branches compute the negated two's-complement value times 1000/4096, floored; sign bit set gives 0..8000 mA (charging), clear gives -8000..0 |
| FgCodec.TemperatureOf | drivers/power/s2mu004_fuelgauge.c:438-476 | the result is within one degree of the exact 1/256-degree reading, has its sign, and lies in -128..127 |
| FgCodec.RawSocOf | drivers/power/s2mu004_fuelgauge.c:527-537 | the signed register times 10000/16384, truncated toward zero; non-negative exactly for a clear sign bit, within -20000..19999 |
| FgCodec.VbatOf | drivers/power/s2mu004_fuelgauge.c:741-756 | the voltage is the reading times 1000/8192 rounded down, at most 7999 mV |
| FgCodec.ReadCurrent | drivers/power/s2mu004_fuelgauge.c:631-653 | a charging current in 0..8000 mA or a discharging one in -8000..0 mA, the register value times -1000/4096 floored; the -EINVAL branch is dead because the read always reports success |
| FgCodec.ReadTemperature | drivers/power/s2mu004_fuelgauge.c:438-476 | a whole degree in -128..127 within one degree of the register's reading; the -ERANGE branch is dead because the read always reports success |
| FgCodec.ReadVbat | drivers/power/s2mu004_fuelgauge.c:741-756 | the reading in mV rounded down, in 0..7999; the -EINVAL branch is dead because the read always reports success |
| FgCodec.ReadReg | drivers/power/s2mu004_fuelgauge.c:118-145 | with SINGLE_BYTE set each byte is read on its own; a successful byte read is kept, and a pair whose two byte reads both fail reads as 0x0000 |
| FgCodec.ZeroReadIsZero | drivers/power/s2mu004_fuelgauge.c:118-145 | a pair that reads as 0x0000 decodes as 0 mA, 0 degrees, 0 mV and a raw SOC of 0 |
| FgCodec.AvgCurrentRestoresMonitor | drivers/power/s2mu004_fuelgauge.c:704-739 | whatever it showed before, the monitor register shows temperature again after s2mu004_get_avgcurrent |
| FgCodec.RunningAvgBounds | drivers/power/s2mu004_fuelgauge.c:758-779 | the running average never exceeds the largest sample and falls at most one below the smallest |
| FgCodec.AvgVbat | drivers/power/s2mu004_fuelgauge.c:758-779 | the five-sample loop returns the running average of the five readings |
| FgCodec.Settle | drivers/power/s2mu004_fuelgauge.c:513-523 | the settled value is the first read of the first attempt whose two reads agree, or of the last attempt when none agrees, every earlier attempt having disagreed |
| FgCodec.SettledRead | drivers/power/s2mu004_fuelgauge.c:513-523 | the double-read loop returns the value `Settle` characterises |
| FgCodec.SurgeField | drivers/power/s2mu004_fuelgauge.c:175-186 | the shift-add-mask-unshift moves the 12-bit field by the scaled offset divided by 8, modulo 4096 |
| FgCodec.SurgeWrites | drivers/power/s2mu004_fuelgauge.c:170-209 | the workaround issues five writes: the patched pair, the restart, and the two restoring writes |
| FgCodec.ZeroOffsetWritesBackOriginal | drivers/power/s2mu004_fuelgauge.c:175-198 | with a zero offset the patch writes back exactly the two bytes it read |
| FgCodec.SurgePreservesUntouchedBits | drivers/power/s2mu004_fuelgauge.c:188-209 | for any offset the high register's upper nibble is kept, and the final writes restore its low nibble and the low register |
| FgCodec.InitWorkaround | drivers/power/s2mu004_fuelgauge.c:147-209 | with the offset fixed at 0: 0x4f and 0x4e written back as read, the restart, then 0x4f's low nibble and 0x4e restored |
| FgCodec.ResetWorkaround | drivers/power/s2mu004_fuelgauge.c:257-317 | a restart, then 0x53's upper nibble kept with the 12-bit field moved by the voltage offset, a second restart, and 0x53's low nibble and 0x52 restored |
| OcvTable.Search | drivers/power/s2mu004_fuelgauge.c:236-246 | the binary search ends on an exact hit or with `low == high + 1`, both in range and bracketing the key |
| OcvTable.Interpolate | drivers/power/s2mu004_fuelgauge.c:247-250 | the interpolated value lies between the two bracketing table values |
| OcvTable.Lookup | drivers/power/s2mu004_fuelgauge.c:229-250 | the last entry at or below the low end, the first at or above the high end, the matching value on a hit, else a value between the bracketing neighbours |
| OcvTable.LookupAtKnot | drivers/power/s2mu004_fuelgauge.c:236-246 | on a strictly decreasing table, looking up one of its own keys returns exactly the paired value |
| OcvTable.TableLookup | drivers/power/s2mu004_fuelgauge.c:225-250 | the search-and-interpolate loop computes `Lookup` |
| OcvTable.SocFromOcv | drivers/power/s2mu004_fuelgauge.c:211-255 | the SOC is the table lookup of ten times the target OCV |
| OcvTable.OcvFromSoc | drivers/power/s2mu004_fuelgauge.c:656-702 | the OCV is the reverse lookup of the SOC |
| FuelGauge.NextMode | drivers/power/s2mu004_fuelgauge.c:545-582 | every mode transition with its exact condition: into low-SOC voltage mode only at <= 3 %, out only above 3.25 %; into high-SOC voltage mode from UI 98 %, out below 97 %; never high to low directly |
| FuelGauge.ModeWrites | drivers/power/s2mu004_fuelgauge.c:545-582 | one mode-register write per switch that fires, none exactly when the mode is kept, the last selecting the final mode |
| FuelGauge.RawSocStep | drivers/power/s2mu004_fuelgauge.c:478-629 | -EINVAL and no change before init; otherwise the decoded SOC plus diff, the hysteresis mode, the mode writes first (then get_avgcurrent's two monitor selections and the surge writes), and the returned SOC capped at 100 % |
| FuelGauge.RawSocMonitor | drivers/power/s2mu004_fuelgauge.c:584-629 | after any get_rawsoc past the init check, the monitor shows temperature, whatever it showed before |
| FuelGauge.InitRegsLoadsTables | drivers/power/s2mu004_fuelgauge.c:320-394 | init_regs writes each battery-table register 0x92 to 0xff exactly once, with its table byte, and ends with 0x4e and 0x4f's low nibble as read |
| FuelGauge.CheckCapacityMax | drivers/power/s2mu004_fuelgauge.c:824-848 | the result lies in [design - margin - 10, design + margin], and an in-range request is kept |
| FuelGauge.ScaledCapacity | drivers/power/s2mu004_fuelgauge.c:782-793 | below capacity_min reads 0; [capacity_min, capacity_max] maps onto [0, 1000] |
| FuelGauge.WholePercent | drivers/power/s2mu004_fuelgauge.c:995-1003 | the clamp and division give a whole percent in 0..100 that truncates the 0.1 % value |
| FuelGauge.AtomicCapacity | drivers/power/s2mu004_fuelgauge.c:796-822 | the result lies between the previous and the new value; ATOMIC moves at most one step; SKIP_ABNORMAL while discharging never rises |
| FuelGauge.DynamicScale | drivers/power/s2mu004_fuelgauge.c:850-892 | capacity_max ends in the check_capacity_max range, or in the 99 % scaled design range at 100 % |
| FuelGauge.Gauge.constructor | drivers/power/s2mu004_fuelgauge.c:1326-1384 | the state probe leaves: design capacity_max, SOC 0, current mode, initial update pending |
| FuelGauge.Gauge.GetRawSoc | drivers/power/s2mu004_fuelgauge.c:478-629 | the SOC, mode, register writes and return value are those `RawSocStep` gives |
| FuelGauge.Gauge.SocFromRegister | drivers/power/s2mu004_fuelgauge.c:527-610 | from a settled register value: the new SOC, the hysteresis mode, the mode writes, get_avgcurrent's monitor selections, the surge writes, and the capped return |
| FuelGauge.Gauge.UpdateMode | drivers/power/s2mu004_fuelgauge.c:545-582 | the mode becomes `NextMode` and exactly `ModeWrites` are issued |
| FuelGauge.Gauge.RecordSurge | drivers/power/s2mu004_fuelgauge.c:584-610 | get_avgcurrent's monitor selections then the surge check's writes are appended, and nothing else changes |
| FuelGauge.Gauge.GetAvgCurrent | drivers/power/s2mu004_fuelgauge.c:704-739 | the decoded average current, with the monitor switched to average current and then back to temperature |
| FuelGauge.Gauge.GetTemperature | drivers/power/s2mu004_fuelgauge.c:438-476 | the decoded temperature, with the monitor set to temperature first |
| FuelGauge.Gauge.SurgeCheck | drivers/power/s2mu004_fuelgauge.c:589-610 | the workaround toward the corrected voltage fires exactly when discharging, at most 3.3 V, steady, and more than 3 % off |
| FuelGauge.Gauge.GetOcv | drivers/power/s2mu004_fuelgauge.c:656-702 | the OCV the table gives for the last raw SOC |
| FuelGauge.Gauge.GetAtomicCapacity | drivers/power/s2mu004_fuelgauge.c:796-822 | returns the smoothed capacity and records it as capacity_old |
| FuelGauge.Gauge.CalculateDynamicScale | drivers/power/s2mu004_fuelgauge.c:850-892 | reads the raw SOC with all its effects, sets capacity_max by `DynamicScale`, records the capacity as capacity_old |
| FuelGauge.Gauge.RestartGauging | drivers/power/s2mu004_fuelgauge.c:362-371 | appends exactly the two restart writes |
| FuelGauge.Gauge.InitRegs | drivers/power/s2mu004_fuelgauge.c:373-394 | exactly the writes `InitRegsWrites` lists, and get_rawsoc enabled |
| FuelGauge.Gauge.ResetFg | drivers/power/s2mu004_fuelgauge.c:320-360 | batcap, the two battery tables, the register settings and the init workaround, in order |
| FuelGauge.Gauge.LoadTable | drivers/power/s2mu004_fuelgauge.c:331-334 | the loop writes table entry i to register first + i, cut to a byte, in order |
| FuelGauge.Gauge.ReportedCapacity | drivers/power/s2mu004_fuelgauge.c:986-1003 | the capacity before smoothing is a whole percent in 0..100 |
| FuelGauge.Gauge.ToWholePercent | drivers/power/s2mu004_fuelgauge.c:986-1003 | the scaling, clamping and truncation compute `ReportedCapacity` |
| FuelGauge.Gauge.Smooth | drivers/power/s2mu004_fuelgauge.c:1005-1030 | fuel-alert re-arm above the alert SOC; on the initial update capacity_old takes the value and the flag clears; otherwise atomic smoothing or the value as is |
| FuelGauge.Gauge.GetCapacity | drivers/power/s2mu004_fuelgauge.c:983-1033 | `CapacityRead`: the raw SOC as is, or scaled to a whole percent, re-armed and smoothed, with the raw-SOC effects and nothing else changed |
| FuelGauge.Gauge.GetProperty | drivers/power/s2mu004_fuelgauge.c:949-1054 | per property, the return code and the value reported; CAPACITY as `CapacityRead` states; CURRENT_AVG and the temperatures add only their monitor selections; every other property changes nothing |
| FuelGauge.Gauge.SetProperty | drivers/power/s2mu004_fuelgauge.c:1056-1128 | per property, the return code and exactly which fields and register writes change |
| SnapshotRing.Logged | drivers/trace/exynos-ss.c:2284-2301 | a recorder raises its row's counter by exactly one and writes only the slot the new counter selects; other rows, counters and slots are unchanged |
| SnapshotRing.ReplayKeepsLatest | drivers/trace/exynos-ss.c:2284-2301 | after any sequence of events, each of the last `cap` sits in the slot its counter value selects |
| SnapshotRing.OldestFirst | drivers/trace/exynos-ss.c:1464-1469 | reading from the slot after the counter yields the last `cap` events oldest first |
| SnapshotEvents.Strncpy | drivers/trace/exynos-ss.c:2376-2381 | `strncpy` semantics: the copied prefix, NUL padding, and the characters past n untouched |
| SnapshotEvents.Overlay | drivers/trace/exynos-ss.c:2506-2509 | the first `callstack` caller slots take the new return addresses and the rest keep the old ones |
| SnapshotEvents.EventLog.ClearedView | drivers/trace/exynos-ss.c:2034-2108 | a cleared log holds, in every category, counters at -1 and zeroed slots |
| SnapshotEvents.EventLog.Log | drivers/trace/exynos-ss.c:2284-2301 | the gate-open path changes only its own category, by `Logged` |
| SnapshotEvents.EventLog.Dec | drivers/trace/exynos-ss.c:2466-2474 | the rollback decrements one counter of one category and changes nothing else |
| SnapshotEvents.EventLog.SetCounter | drivers/trace/exynos-ss.c:2528 | sets one counter of one category and changes nothing else |
| SnapshotEvents.EventLog.ClearAll | drivers/trace/exynos-ss.c:2034-2108 | every counter is -1 and every slot zeroed |
| SnapshotItems.Find | drivers/trace/exynos-ss.c:717-726 | the first item at or after `from` whose name starts with the key, and None exactly when none does |
| SnapshotItems.TableLookupsLow | drivers/trace/exynos-ss.c:495-522 | the first three table names each find their own item |
| SnapshotItems.TableLookupsHigh | drivers/trace/exynos-ss.c:495-522 | the last three table names each find their own item |
| SnapshotItems.GetEnable | drivers/trace/exynos-ss.c:1057-1078 | any prefix of "base" reads the framework flag; otherwise the first match's run-time or boot flag as an int, or -1 |
| SnapshotItems.GetItemSize | drivers/trace/exynos-ss.c:717-726 | the first match's size, 0 when nothing matches |
| SnapshotItems.GetItemPaddr | drivers/trace/exynos-ss.c:729-738 | the first match's physical address truncated to 32 bits, 0 when nothing matches |
| SnapshotItems.SetThenGet | drivers/trace/exynos-ss.c:1002-1078 | after set_enable, get_enable(name, false) reads the value set and get_enable(name, true) is unchanged |
| SnapshotItems.TryEnable | drivers/trace/exynos-ss.c:1026-1054 | re-enables (1) exactly a disabled match whose 64-bit elapsed time exceeds the duration, 0 exactly when not yet, -1 otherwise, changing only that flag |
| SnapshotItems.DescOfTable | drivers/trace/exynos-ss.c:1885-1922 | the init_desc loop records each item's index at its own position |
| SnapshotItems.MappedCountPositive | drivers/trace/exynos-ss.c:1852-1882 | remap places something exactly when some item qualifies, so always when the event-log index is valid |
| SnapshotItems.OffsetIsInitSize | drivers/trace/exynos-ss.c:1935-1942 | each remap offset is the sum of the boot-enabled sizes before it, plus the header when it was placed first |
| SnapshotItems.LayoutFitsReservation | drivers/trace/exynos-ss.c:1924-1967 | the layout remap builds ends exactly at the size setup reserves |
| SnapshotItems.OffsetMonotone | drivers/trace/exynos-ss.c:1852-1882 | offsets never decrease along the table |
| SnapshotItems.PlacedDisjoint | drivers/trace/exynos-ss.c:1852-1882 | a placed item ends at or before the start of every later item |
| SnapshotItems.TableLayout | drivers/trace/exynos-ss.c:495-522 | for the table, every item is placed at its fixed offset and all of them fit the reservation |
| SnapshotItems.PlacedAt | drivers/trace/exynos-ss.c:1852-1882 | a placed item gets physical base plus offset, the same virtual offset and both cursors at its start; the others are untouched |
| SnapshotItems.Layout | drivers/trace/exynos-ss.c:1841-1883 | remap applied to every item |
| SnapshotItems.TableLaid | drivers/trace/exynos-ss.c:1841-1883 | remap of the table puts every item at its offset, with physical and virtual offsets equal and both cursors at its start |
| SnapshotItems.ChunkInItem | drivers/trace/exynos-ss.c:1081-1093 | the cursor resets to the head exactly when the chunk would run past the end, so a chunk no larger than the item always lands inside it |
| SnapshotItems.Append | drivers/trace/exynos-ss.c:1140-1157 | the chunk is written at the cursor or at the head, and the cursor moves past it and stays inside the item |
| SnapshotItems.AppendStaysInItem | drivers/trace/exynos-ss.c:1140-1157 | an append never changes memory outside its item |
| SnapshotItems.AppendAllNoWrap | drivers/trace/exynos-ss.c:1291-1296 | appends that never wrap move the cursor forward by their total length |
| SnapshotItems.AppendAllConcat | drivers/trace/exynos-ss.c:1291-1296 | appending two series is appending the first, then the second from where the first stopped |
| SnapshotItems.LastBufRoundTrip | drivers/trace/exynos-ss.c:2132-2148 | the cursor the kernel-log hook saves is the cursor fixmap restores, a cursor at the very end coming back at the head |
| SnapshotSfr.HexRoundTrip | drivers/trace/exynos-ss.c:1291 | a number printed with `%X` reads back as itself |
| SnapshotSfr.LineFits | drivers/trace/exynos-ss.c:1291 | an SFR line is 9 to 24 characters, fits its 64-byte buffer, and names its register |
| SnapshotSfr.StopsBelowBase | drivers/trace/exynos-ss.c:1281-1287 | the 32-bit `reg < offset` check rejects exactly the addresses below the block's base |
| SnapshotSfr.BlockLinesAre | drivers/trace/exynos-ss.c:1274-1296 | a block yields one line per entry before the first that stops the walk, each naming that register and its value |
| SnapshotSfr.DumpLines | drivers/trace/exynos-ss.c:1252-1302 | every line of the dump is 9 to 24 bytes |
| SnapshotCore.IrqsRestartClears | drivers/trace/exynos-ss.c:2524-2536 | a restart sets the row's counter to -1 and clears slot 0 (its first callstack callers too); nothing else changes |
| SnapshotCore.IrqsStampRecords | drivers/trace/exynos-ss.c:2537-2552 | a stamp raises the counter, time-stamps slot 0, and writes index, task and name pointer to the slot `index % 32` selects; no other slot changes |
| SnapshotCore.Fixed | drivers/trace/exynos-ss.c:2132-2148 | the kernel log's cursor comes from the saved word when it points into its block, otherwise back to the start; other items unchanged |
| SnapshotCore.FixedItems | drivers/trace/exynos-ss.c:2114-2164 | every item after the event log is fixed, the event log unchanged |
| SnapshotCore.FixmapKeeps | drivers/trace/exynos-ss.c:2114-2164 | a byte no cleared item covers keeps its pre-boot value |
| SnapshotCore.FixmapClears | drivers/trace/exynos-ss.c:2114-2164 | every byte of a cleared item reads 0 |
| SnapshotCore.Flip4Twice | drivers/trace/exynos-ss.c:833-855 | the bit-2 flip of post_reboot is its own inverse, so distinct CPUs name distinct panic words |
| SnapshotCore.SaveContextOnce | drivers/trace/exynos-ss.c:972-999 | a save marks the CPU PANIC and captures it exactly when it was not already PANIC; a second save changes nothing; off means no capture |
| SnapshotCore.ResetStatsAre | drivers/trace/exynos-ss.c:833-855 | a panic word is reset exactly when some possible CPU's flipped number names it |
| SnapshotCore.PostRebootMarksCaller | drivers/trace/exynos-ss.c:833-855 | a normal reboot leaves every other CPU's word RESET and the rebooting CPU's PANIC, captured once |
| SnapshotCore.FirstZero | drivers/trace/exynos-ss.c:3213-3221 | the first 0 entry, or the list length when there is none |
| SnapshotCore.IrqExlistStoreIs | drivers/trace/exynos-ss.c:3203-3228 | a store writes only the first 0 entry, the int value of the input; a list without 0 is full and unchanged, so the initial `{-1}` always reports full |
| SnapshotCore.FirstFree | drivers/trace/exynos-ss.c:3326-3330 | the first entry with address 0, or the list length |
| SnapshotCore.RegStoreSlotAsWritten | drivers/trace/exynos-ss.c:3316-3336 | as written, the store writes at the loop's final index, with no full-list check |
| SnapshotCore.RegStoreOverrunsFullList | drivers/trace/exynos-ss.c:3326-3334 | on a full list, a non-zero store writes index `ARRAY_SIZE`, one past the end |
| SnapshotCore.RegExlistStoreInBounds | drivers/trace/exynos-ss.c:3316-3336 | the corrected store writes only the first free entry, as a 4K range from the address; a full list is unchanged and reported |
| SnapshotCore.KeventsAlwaysOn | drivers/trace/exynos-ss.c:667-698 | the header helpers' `log_kevents` gate reads 1 for the item table |
| SnapshotCore.RestoredInside | drivers/trace/exynos-ss.c:2132-2148 | a restored cursor lies inside its item |
| SnapshotCore.WipedAreScratch | drivers/trace/exynos-ss.c:2114-2164 | apart from a kernel log whose cursor is lost, fixmap clears only `log_platform` and `log_sfr` |
| SnapshotCore.KernelLogSurvives | drivers/trace/exynos-ss.c:2114-2164 | with the word the hook saved, the kernel log is neither cleared nor moved: its cursor comes back where it was |
| SnapshotCore.EnableStoreWriteAsWritten | drivers/trace/exynos-ss.c:3134-3160 | as written, kstrndup allocates up to the first NUL plus one, while the terminator goes to `count - 1` |
| SnapshotCore.EnableStoreOverrun | drivers/trace/exynos-ss.c:3134-3160 | "a", NUL, "bc" puts the terminator at index 3 of a 2-byte allocation |
| SnapshotCore.EnableName | drivers/trace/exynos-ss.c:3134-3160 | the name looked up is a prefix of what kstrndup copied, holds no NUL, and is the input without its last character when the input has no NUL |
| SnapshotCore.Filters.constructor | drivers/trace/exynos-ss.c:528-567 | the static lists: `{-1}` for both IRQ lists, the MCT and UART ranges first in the register list |
| SnapshotCore.Snapshot.constructor | drivers/trace/exynos-ss.c:495-584 | the static state before setup: the item table, cleared descriptor and log, the header words the previous boot left |
| SnapshotCore.Snapshot.FindItem | drivers/trace/exynos-ss.c:717-726 | the lookup loop computes `Find` |
| SnapshotCore.Snapshot.GetEnable | drivers/trace/exynos-ss.c:1057-1078 | the loop computes `SnapshotItems.GetEnable` on the current state |
| SnapshotCore.Snapshot.GetItemSize | drivers/trace/exynos-ss.c:717-726 | the loop computes `SnapshotItems.GetItemSize` |
| SnapshotCore.Snapshot.GetItemPaddr | drivers/trace/exynos-ss.c:729-738 | the loop computes `SnapshotItems.GetItemPaddr` |
| SnapshotCore.Snapshot.GetSparePaddr | drivers/trace/exynos-ss.c:705-715 | 0 without an event log, else its address plus the spare offset plus the argument, in 32 bits |
| SnapshotCore.Snapshot.SetEnable | drivers/trace/exynos-ss.c:1002-1023 | a prefix of "base" sets the framework flag; otherwise the first match's flag and time; nothing else changes |
| SnapshotCore.Snapshot.TryEnable | drivers/trace/exynos-ss.c:1026-1054 | -1 and no change unless the framework and event log are on; otherwise `SnapshotItems.TryEnable` |
| SnapshotCore.Snapshot.GetHardlockup | drivers/trace/exynos-ss.c:741-744 | the recorded hard-lockup value |
| SnapshotCore.Snapshot.SetHardlockup | drivers/trace/exynos-ss.c:747-758 | records the value only while the framework is on |
| SnapshotCore.Snapshot.FindIndices | drivers/trace/exynos-ss.c:1895-1915 | the loop records each name's index as `DescOf` does |
| SnapshotCore.Snapshot.InitDesc | drivers/trace/exynos-ss.c:1885-1922 | indices found by name, the callstack depth set, a header asked for exactly when the event log is not reserved |
| SnapshotCore.Snapshot.PlaceItems | drivers/trace/exynos-ss.c:1852-1882 | the loop builds `Layout` and counts the placed items |
| SnapshotCore.Snapshot.Remap | drivers/trace/exynos-ss.c:1841-1883 | the items laid out from the base; the virtual base returned when something was placed, 0 otherwise |
| SnapshotCore.Snapshot.Reserve | drivers/trace/exynos-ss.c:1947-1967 | the base recorded, the items laid out, the memory holding what was there before |
| SnapshotCore.Snapshot.Setup | drivers/trace/exynos-ss.c:1924-1967 | 0 and the layout exactly when parsing and reservation succeed; -1 with nothing changed but the descriptor otherwise |
| SnapshotCore.Snapshot.Task | drivers/trace/exynos-ss.c:2284-2301 | with all three flags on, the task ring of the CPU logs the event (counter +1, one slot); otherwise no change; other categories unchanged |
| SnapshotCore.Snapshot.Work | drivers/trace/exynos-ss.c:2303-2322 | the work ring logs the event through the full gate; nothing else changes |
| SnapshotCore.Snapshot.Cpuidle | drivers/trace/exynos-ss.c:2324-2343 | the cpuidle ring logs the event through the full gate; nothing else changes |
| SnapshotCore.Snapshot.Suspend | drivers/trace/exynos-ss.c:2345-2363 | the global suspend ring logs the event with its CPU; nothing else changes |
| SnapshotCore.Snapshot.Regulator | drivers/trace/exynos-ss.c:2366-2386 | logs with at most 15 name characters copied, the rest of the field kept from the overwritten record |
| SnapshotCore.Snapshot.Thermal | drivers/trace/exynos-ss.c:2390-2408 | the global thermal ring logs the event through the full gate |
| SnapshotCore.Snapshot.Listed | drivers/trace/exynos-ss.c:2424-2429 | true exactly when the value is in the list (as unsigned when asked) |
| SnapshotCore.Snapshot.Irq | drivers/trace/exynos-ss.c:2411-2442 | an excluded IRQ leaves counter and ring unchanged; otherwise the event is logged through the full gate |
| SnapshotCore.Snapshot.IrqExit | drivers/trace/exynos-ss.c:2445-2476 | logged, with the IRQ stored as an `int`, exactly when not excluded and the 64-bit latency exceeds threshold*1000 (32-bit); otherwise the increment is rolled back for a net zero change |
| SnapshotCore.Snapshot.FillCallers | drivers/trace/exynos-ss.c:2506-2509 | the callstack loop computes `Overlay` |
| SnapshotCore.Snapshot.Spinlock | drivers/trace/exynos-ss.c:2480-2512 | logs the owner fields and the first `callstack` return addresses, the other caller slots kept |
| SnapshotCore.Snapshot.Clk | drivers/trace/exynos-ss.c:2557-2574 | the global clk ring logs the event through the full gate |
| SnapshotCore.Snapshot.Pmu | drivers/trace/exynos-ss.c:2578-2594 | the global pmu ring logs the event through the full gate |
| SnapshotCore.Snapshot.Freq | drivers/trace/exynos-ss.c:2598-2616 | the freq ring logs the event with its domain through the full gate |
| SnapshotCore.Snapshot.Dm | drivers/trace/exynos-ss.c:2620-2639 | the dm ring logs the event without the `enabled_init` check |
| SnapshotCore.Snapshot.Hrtimer | drivers/trace/exynos-ss.c:2643-2660 | the hrtimer ring logs the event through the full gate |
| SnapshotCore.Snapshot.I2c | drivers/trace/exynos-ss.c:2664-2682 | the i2c ring logs the event without the `enabled_init` check |
| SnapshotCore.Snapshot.Spi | drivers/trace/exynos-ss.c:2686-2703 | the spi ring logs the event without the `enabled_init` check |
| SnapshotCore.Snapshot.Acpm | drivers/trace/exynos-ss.c:2707-2727 | logs without the `enabled_init` check, at most 9 text characters copied and the rest kept |
| SnapshotCore.Snapshot.IrqsDisabled | drivers/trace/exynos-ss.c:2516-2553 | through the full gate, a non-zero flags restarts the CPU's row and a zero one stamps it |
| SnapshotCore.Snapshot.IrqsRestart | drivers/trace/exynos-ss.c:2524-2536 | the row ends as `IrqsRestarted` describes |
| SnapshotCore.Snapshot.IrqsStamp | drivers/trace/exynos-ss.c:2537-2552 | the row ends as `IrqsStamped` describes |
| SnapshotCore.Snapshot.RegListed | drivers/trace/exynos-ss.c:2783-2790 | true exactly when an entry before the first zero address covers the address, end included |
| SnapshotCore.Snapshot.Reg | drivers/trace/exynos-ss.c:2766-2805 | logged only when the list's first entry is set and no range covers the address (end included) |
| SnapshotCore.Snapshot.CorePanicStat | drivers/trace/exynos-ss.c:674-680 | the CPU's panic word while `log_kevents` is enabled, 0 otherwise |
| SnapshotCore.Snapshot.SetCorePanicStat | drivers/trace/exynos-ss.c:682-686 | the CPU's panic word written only through the gate, so that reading it back gives the value, or 0 with the gate shut |
| SnapshotCore.Snapshot.ScratchReg | drivers/trace/exynos-ss.c:688-692 | the scratch word written when the event log or a separate header is reserved |
| SnapshotCore.Snapshot.ReportReason | drivers/trace/exynos-ss.c:694-698 | the reason word written only through the gate |
| SnapshotCore.Snapshot.SaveContext | drivers/trace/exynos-ss.c:972-999 | the panic words and captures become `SaveContextOn` of the old ones |
| SnapshotCore.Snapshot.PostReboot | drivers/trace/exynos-ss.c:833-855 | every possible CPU's word reset, then the caller's context saved; the reason NORMAL_REBOOT and the scratch word RESET through their gates |
| SnapshotCore.Snapshot.DumpPanic | drivers/trace/exynos-ss.c:819-830 | a string of 1 to 1023 bytes is copied to the start of the panic area when on; the rest of the area is kept |
| SnapshotCore.Snapshot.AppendChunk | drivers/trace/exynos-ss.c:1081-1093 | one chunk appended to an item by `Append`, only that item's cursor changing |
| SnapshotCore.Snapshot.HookLogbuf | drivers/trace/exynos-ss.c:1140-1157 | with both flags exactly 1, the chunk appended to the kernel log and the saved cursor word updated; otherwise nothing changes |
| SnapshotCore.Snapshot.HookLogger | drivers/trace/exynos-ss.c:1096-1118 | the chunk appended to the first item from `log_platform` on that the name prefixes, under the same flags |
| SnapshotCore.Snapshot.AppendLines | drivers/trace/exynos-ss.c:1274-1296 | one block's lines appended as `AppendAll` does |
| SnapshotCore.Snapshot.AppendBlocks | drivers/trace/exynos-ss.c:1270-1298 | every block's lines appended, block after block |
| SnapshotCore.Snapshot.DumpSfr | drivers/trace/exynos-ss.c:1252-1302 | with the framework, a block list and `log_sfr` on, the lines appended to `log_sfr`; otherwise nothing changes |
| SnapshotCore.Snapshot.PostPanic | drivers/trace/exynos-ss.c:781-816 | with the framework on, the SFR dump then the context save; the result says whether the secure dump runs |
| SnapshotCore.Snapshot.FixmapHeader | drivers/trace/exynos-ss.c:2019-2112 | the base copied to the header and, with the event log, every counter -1 and the header after 768 bytes cleared |
| SnapshotCore.Snapshot.FixmapItem | drivers/trace/exynos-ss.c:2120-2160 | one item fixed and cleared when `Wiped` says so |
| SnapshotCore.Snapshot.Fixmap | drivers/trace/exynos-ss.c:2114-2164 | the header prepared and every item after the event log fixed, memory as `FixmapMem` |
| SnapshotCore.Snapshot.Init | drivers/trace/exynos-ss.c:2210-2236 | when setup placed the memory: fixmap, the SFR blocks recorded, the scratch word SCRATCH, the hooks registered and the framework on; otherwise nothing changes |
| SnapshotCore.Snapshot.EnableStore | drivers/trace/exynos-ss.c:3134-3160 | the named item (or the framework) toggled; an unknown name changes nothing; the whole count consumed |
| SnapshotCore.Snapshot.CallstackStore | drivers/trace/exynos-ss.c:3172-3185 | a depth of 1 to 4 taken, anything else ignored |
| SnapshotCore.Snapshot.IrqlogExlistStore | drivers/trace/exynos-ss.c:3203-3228 | the store of `IrqExlistStored` on the irq list |
| SnapshotCore.Snapshot.IrqexitExlistStore | drivers/trace/exynos-ss.c:3246-3271 | the same store on the irq_exit list |
| SnapshotCore.Snapshot.ThresholdStore | drivers/trace/exynos-ss.c:3282-3296 | a non-zero value becomes the threshold as an unsigned int |
| SnapshotCore.Snapshot.RegExlistStore | drivers/trace/exynos-ss.c:3316-3336 | the corrected store `RegExlistStored`, never writing outside the list |
| SnapshotDumper.Advance | drivers/trace/exynos-ss.c:1448-1469 | false exactly when back at the first slot; the first call reads the slot after the counter; every call moves on one slot, wrapping |
| SnapshotDumper.Iterated | drivers/trace/exynos-ss.c:1464-1469 | after n calls from idle the cursor is n slots past the start |
| SnapshotDumper.DumpCycle | drivers/trace/exynos-ss.c:1771-1774 | from idle, calls 0 to cap-1 succeed reading slots counter+1+k, and call cap reports the end |
| SnapshotDumper.DumpStart | drivers/trace/exynos-ss.c:1464-1469 | the start counter is row 0's, whatever CPU is dumped |
| SnapshotDumper.DumpOldestFirst | drivers/trace/exynos-ss.c:1464-1469 | a dump of a full row from its own counter hands out the last cap events oldest first |
| SnapshotDumper.DumpStartsAtCpu0 | drivers/trace/exynos-ss.c:1464-1469 | with CPU 0 at counter 5, CPU 1's dump starts at slot 6, not at the slot after its own counter |
| SnapshotDumper.Dumper.DumpOne | drivers/trace/exynos-ss.c:1438-1779 | false and nothing changed for a missing or short line, a bad CPU, a finished dump or an unprinted category; otherwise the record at the `Advance` slot |
| SnapshotKeys.KeyStep | drivers/trace/exynos-ss.c:1386-1426 | a panic only on a power press with volume-down and not volume-up held at count 2; releasing volume-down clears the count |
| SnapshotKeys.RunMeaning | drivers/trace/exynos-ss.c:1386-1426 | after any event sequence, each flag says whether that key's last event was a press, and the count is the qualifying power presses since volume-down was released |
| SnapshotKeys.PanicsAtSecondPress | drivers/trace/exynos-ss.c:1386-1426 | an event panics exactly when it is the second qualifying power press |
| SnapshotKeys.HoldAndPressTwice | drivers/trace/exynos-ss.c:1386-1426 | whatever came before, releasing both, holding volume-down and pressing power twice panics |
| SnapshotKeys.CrashKey.CheckCrashKey | drivers/trace/exynos-ss.c:1386-1426 | the static variables and the panic decision are those of `KeyStep` |
| SnapshotPmsg.Printed | drivers/trace/exynos-ss.c:2969-2975 | the snprintf output: at most 67 characters, then a NUL |
| SnapshotPmsg.HeaderChunk | drivers/trace/exynos-ss.c:2969-2977 | the corrected chunk is a prefix of the text, one shorter, and never longer than snprintf wrote |
| SnapshotPmsg.HeaderChunkAsWritten | drivers/trace/exynos-ss.c:2977 | as written, the hook gets one byte fewer than the untruncated length |
| SnapshotPmsg.HeaderChunkPrinted | drivers/trace/exynos-ss.c:2969-2977 | the corrected chunk read from the buffer is exactly what snprintf printed |
| SnapshotPmsg.HeaderChunksAgree | drivers/trace/exynos-ss.c:2969-2977 | up to 68 characters the written and corrected chunks agree |
| SnapshotPmsg.HeaderChunkCarriesNul | drivers/trace/exynos-ss.c:2969-2977 | as written, a 69-character header reaches the hook with a NUL in place of its 68th character |
| SnapshotPmsg.PrefixOf | drivers/trace/exynos-ss.c:2985-2992 | the priority letter, or '?' past the table, then a space |
| SnapshotPmsg.Combine | drivers/trace/exynos-ss.c:2948-3010 | an events-log record is never mirrored, and text is handed on without its terminator; a header is handed on as the corrected `HeaderChunk`, not the `logbuf_len - 1` bytes of line 2977 |
| SnapshotPmsg.Dispatch | drivers/trace/exynos-ss.c:3012-3059 | the chunk's length picks the case: a magic 7-byte header stores its fields and hands on nothing, an 11-byte header sets the log id, a 1-byte chunk the priority, and any other length leaves the fields alone |
| SnapshotPmsg.PmsgHeaderStored | drivers/trace/exynos-ss.c:3021-3031 | a pmsg header with the magic byte stores its length, uid and pid, mirroring nothing |
| SnapshotPmsg.AndroidHeaderStored | drivers/trace/exynos-ss.c:3032-3045 | an Android header stores id, tid and time; ids up to 7 (not events) mirror the header line, higher ids the raw bytes |
| SnapshotPmsg.RecordMirrored | drivers/trace/exynos-ss.c:3012-3059 | a whole record is mirrored as header line, two-character prefix, and text without its NUL |
| SnapshotPmsg.EventsNotMirrored | drivers/trace/exynos-ss.c:2948-3010 | after an events header, a priority or a text chunk is not mirrored and the buffer is kept |
| SnapshotPmsg.BufferAfterPrefixAsWritten | drivers/trace/exynos-ss.c:2922-2934 | as written, the priority byte lands on the low byte of the packed buffer pointer |
| SnapshotPmsg.PrefixMovesBuffer | drivers/trace/exynos-ss.c:3048 | with a page-aligned buffer, a priority p moves the buffer pointer p bytes |
| SnapshotPmsg.Logger.constructor | drivers/trace/exynos-ss.c:2938-2945 | a zeroed logger with the buffer `register_hook_logger` allocated, or null |
| SnapshotPmsg.Logger.CombinePmsg | drivers/trace/exynos-ss.c:2948-3010 | the buffer and the bytes handed to the hook are those `Combine` gives, so a header is handed on as the corrected `HeaderChunk` |
| SnapshotPmsg.Logger.HookPmsg | drivers/trace/exynos-ss.c:3012-3059 | -ENOMEM and no change without a buffer; otherwise 0, with the fields, buffer and output as `Dispatch` gives; both corrections apply: the priority kept in its own field with the buffer pointer unchanged, and a header handed on as the corrected `HeaderChunk` |

## Left out

- Register capture: the inline assembly that saves MMU and core registers, `flush_cache_all`, and the `wfi` and restart tails of `exynos_ss_post_panic`. A capture is recorded only as the CPU's number, and `PostPanic` stops where the CPU would halt.
- Concurrency: atomics are sequential updates, and the races between CPUs writing the same ring are not modelled.
- Clocks (`cpu_clock`, `local_clock`, `jiffies`), stack pointers, return addresses and register reads are parameters.
- `virt_to_phys_high` (the page-table walk) is not part of this model; `Reg` takes the physical address as a parameter.
- Device-tree parsing (`exynos_ss_sfr_dump_init`, `exynos_ss_init_dt_parse`). The SFR blocks are a parameter of `Init`, and the register values are a function parameter of `DumpSfr`.
- Memory reservation and mapping (memblock, `iotable_init`, `kstrtoul`): `Setup` takes the parse result and whether the reservation succeeded.
- `exynos_ss_dump_task_info`, symbol lookup and the text of the dumper's lines: a dumper call yields the record it would print.
- `exynos_ss_clockevent`, `exynos_ss_printk` and `exynos_ss_printkl` are compiled out (`#if 0`) in this source, so they are no-ops and have no member.
- The panic, reboot and notifier handlers only call the modelled operations. Registration of sysfs, notifiers and pstore is left out.
- `ess_info` output and all `pr_*` and `dev_dbg` logging.
- The `vmalloc` in `register_hook_logger` is the constructor's `scratch` argument. The header text the pmsg formatter prints is a parameter. An empty pmsg chunk is excluded, since `count - 1` then wraps.
- The event flags are assumed to be declared in the order of the categories.
- The 32-bit wrap of ring counters is not modelled. Counters are unbounded; `CInt.MaskIgnoresWrap` shows the selected slot is the same either way.
- The fuel gauge's I2C transfer primitives and their retry loops, mutexes, `msleep`, wake locks, the ISR, probe, device-tree parsing and `power_supply` registration are left out. Register bytes, the UI SOC and the charger type that `psy_do_property` returns are inputs (`Readings`). The driver is built with SINGLE_BYTE set, so `s2mu004_read_reg` always returns 0 and a failed byte read leaves that byte at 0x00 (`ReadReg`); the `< 0` branches after it in get_temperature, get_rawsoc, get_current, get_avgcurrent, get_vbat and get_avgvbat are therefore dead and not modelled, and each register pair in `Readings` is a plain `Pair`.
- FuelGauge.Gauge.GetProperty: the `SEC_FUELGAUGE_*` selector values are not in the source, so a `Selector` datatype stands for them.
- FuelGauge.ModeCode: assumes the mode enum is declared 0, 1, 2 in the order CURRENT, LOW_SOC_VOLTAGE, HIGH_SOC_VOLTAGE.
- FgCodec.SurgeField: does not model the `int` overflow of `offset << 16` for offsets of 32768 or more.
- The fuel-alert re-arm writes the IRQ level and IRQ registers; `alertRearms` counts these re-arms instead of recording the writes.
- FuelGauge.ScaledCapacity: requires capacity_max to differ from capacity_min, because the division by their difference is undefined otherwise. `ReportedCapacity`, `ToWholePercent`, `GetCapacity` and `GetProperty` carry the same requirement for the scaling types.
- FuelGauge.DynamicScale: requires a capacity other than -1, because the division by `capacity + 1` is undefined then.
- FuelGauge.Gauge.CalculateDynamicScale: requires a capacity other than -1, for the same division by `capacity + 1`.
- FuelGauge.Gauge.GetProperty: requires capacity_max to differ from capacity_min for a scaled CAPACITY read, for the same division by zero as `ScaledCapacity`.
- FuelGauge.Gauge.SetProperty: requires a value other than -1 for CHARGE_FULL with dynamic scaling, for the same division by `capacity + 1`.
- SnapshotCore.Snapshot.Freq: requires the domain index to lie within `ess_freq_name`, which the source indexes without a check.
- SnapshotCore.Snapshot.HookLogbuf: requires the chunk to be no longer than the kernel log item, because a longer chunk is copied past the item's end.
- SnapshotCore.Snapshot.HookLogger: requires the chunk to be no longer than the item it goes to, because a longer chunk is copied past the item's end.
- shm_ipc's `vmap`, `vunmap`, `phys_to_page`, `kmalloc`, reserved-memory callbacks and probe. `vmap`'s result is a parameter.

## Findings

| source | as written | input that shows it | evidently intended | confidence | as-written member | corrected member |
|---|---|---|---|---|---|---|
| drivers/trace/exynos-ss.c:3316-3336 | `ess_reg_exlist_store` writes at the search loop's final index without checking that it found a free entry | all nine entries with non-zero addresses, then a write of any non-zero address: index 9 of a 9-entry array is written | a full list is left alone, as the IRQ list stores do | not executed | SnapshotCore.RegStoreOverrunsFullList | SnapshotCore.RegExlistStoreInBounds |
| drivers/trace/exynos-ss.c:3134-3160 | `ess_enable_store` writes `name[count - 1] = '\0'` into the `kstrndup` copy, which ends at the first NUL | the four bytes "a", NUL, "b", "c": a 2-byte allocation, written at index 3 | terminate the copy inside its own length | not executed | SnapshotCore.EnableStoreOverrun | SnapshotCore.EnableName |
| drivers/trace/exynos-ss.c:2969-2977 | the header hook is given `logbuf_len - 1` bytes, `logbuf_len` being the untruncated length `snprintf` returns | an uptime of 100000 s or more makes the header 69 characters: the 68th byte handed on is the NUL `snprintf` wrote | hand on at most the characters actually printed | not executed | SnapshotPmsg.HeaderChunkCarriesNul | SnapshotPmsg.HeaderChunkPrinted |
| drivers/trace/exynos-ss.c:2922-2934 | `logger.msg[0] = buffer[0]` stores through a zero-length array that sits on the packed `buffer` pointer | a priority byte of 4 with a page-aligned buffer moves the scratch buffer pointer 4 bytes on | keep the priority in its own field | not executed | SnapshotPmsg.PrefixMovesBuffer | SnapshotPmsg.Logger.HookPmsg |
