/**
 * exynos-snapshot itself: the framework flag and item registry, the boot
 * sequence that reserves and lays out the memory, the event recorders, the
 * byte-stream hooks, the panic sentinel and the sysfs stores.
 *
 * The driver's globals (`ess_base`, `ess_items`, `ess_desc`, the header
 * words, the exclusion lists) are the fields of one `Snapshot` object. The
 * reserved memory of the byte-stream items is the array `mem`, indexed by
 * virtual address minus `vaBase` (S5P_VA_SS_BASE); the event log is the
 * `EventLog` object `log`; the per-CPU panic words and the panic string of
 * the header are arrays of their own. Clocks, stack pointers, return
 * addresses and the other values the recorders sample are parameters.
 */
module SnapshotCore {
  import opened CInt
  import opened Wrappers
  import opened SnapshotRing
  import opened SnapshotEvents
  import opened SnapshotItems
  import opened SnapshotSfr

  /** Signatures written to the header words. */
  const SIGN_RESET: Uint32 := 0
  const SIGN_SCRATCH: Uint32 := 0xD
  const SIGN_PANIC: Uint32 := 0xBABA
  const SIGN_NORMAL_REBOOT: Uint32 := 0xCAFE

  /** The panic string area, from S5P_VA_SS_PANIC_STRING (header offset 0xC00) to the end of the 4K header. */
  const PANIC_STRING_LEN: nat := 1024
  /** ESS_HEADER_SZ + ESS_MMU_REG_SZ + ESS_CORE_REG_SZ: the offset of the spare area. */
  const SPARE_OFFSET: nat := 3 * SZ_4K

  /** The sizes of `ess_irqlog_exlist`, `ess_irqexit_exlist` and `ess_reg_exlist`. */
  const IRQ_EX_NUM: nat := 1
  const REG_EX_NUM: nat := 9

  /** The number of frequency domains `ess_freq_name` names. */
  const FREQ_NAMES: nat := 7

  /** One entry of `ess_reg_exlist`: a physical range `[addr, addr + size]` whose accesses are not logged. */
  datatype RegRange = RegRange(addr: Uint64, size: Uint64)

  /** `ess_base`: where the reservation lies and whether the framework is on. */
  datatype Base = Base(size: nat, vaddr: int, paddr: int, enabled: Uint32)

  /** `ess_desc`: the item indices, the header flag, the callstack depth, the hardlockup mark and the SFR blocks. */
  datatype DescState = DescState(nums: Desc, needHeader: bool, callstack: nat, hardlockup: int, sfrBlocks: seq<SfrBlock>)

  const NO_DESC: DescState := DescState(Desc(0, 0, 0, 0, 0, 0), false, 0, 0, [])

  /**
   * The `irqs_disabled` ring after `exynos_ss_irqs_disabled(flags)` on
   * `cpu`: a non-zero `flags` restarts the row, a zero one stamps it.
   */
  function IrqsOffLogged(s: RingState<Event>, cpu: nat, flags: Uint64, jiffies: int, task: int, commPtr: int,
                         callers: Callers, depth: nat): (s': RingState<Event>)
    requires Shaped(s, NR_CPUS, IRQS_DISABLED_NUM) && cpu < NR_CPUS
    ensures Shaped(s', NR_CPUS, IRQS_DISABLED_NUM)
  {
    if flags != 0 then IrqsRestarted(s, cpu, depth)
    else IrqsStamped(s, cpu, jiffies, task, commPtr, callers, depth)
  }

  /** The restart of an `irqs_disabled` row (see `IrqsRestartClears`). */
  function IrqsRestarted(s: RingState<Event>, cpu: nat, depth: nat): (s': RingState<Event>)
    requires Shaped(s, NR_CPUS, IRQS_DISABLED_NUM) && cpu < NR_CPUS
    ensures Shaped(s', NR_CPUS, IRQS_DISABLED_NUM)
  {
    var s1 := s.(counters := s.counters[cpu := -1]);
    Stored(s1, cpu, 0, IrqsDisabledLog(0, 0, 0, 0, Overlay(CallersOf(s.rows[cpu][0]), NO_CALLERS, depth)))
  }

  /**
   * A restart sets the row's counter back to -1 and clears slot 0, its first
   * `depth` caller slots included; nothing else changes.
   */
  lemma IrqsRestartClears(s: RingState<Event>, cpu: nat, depth: nat)
    requires Shaped(s, NR_CPUS, IRQS_DISABLED_NUM) && cpu < NR_CPUS
    ensures var s' := IrqsRestarted(s, cpu, depth);
      && (forall q :: 0 <= q < NR_CPUS && q != cpu ==> s'.rows[q] == s.rows[q] && s'.counters[q] == s.counters[q])
      && s'.counters[cpu] == -1
      && s'.rows[cpu][0] == IrqsDisabledLog(0, 0, 0, 0, Overlay(CallersOf(s.rows[cpu][0]), NO_CALLERS, depth))
      && forall j :: 0 < j < IRQS_DISABLED_NUM ==> s'.rows[cpu][j] == s.rows[cpu][j]
  {
  }

  /** The stamp of an `irqs_disabled` row (see `IrqsStampRecords`). */
  function IrqsStamped(s: RingState<Event>, cpu: nat, jiffies: int, task: int, commPtr: int,
                       callers: Callers, depth: nat): (s': RingState<Event>)
    requires Shaped(s, NR_CPUS, IRQS_DISABLED_NUM) && cpu < NR_CPUS
    ensures Shaped(s', NR_CPUS, IRQS_DISABLED_NUM)
  {
    var s1 := Bumped(s, cpu, 1);
    var index := U32(s1.counters[cpu]);
    var s2 := Stored(s1, cpu, 0, s1.rows[cpu][0].(time := jiffies));
    var i := index % IRQS_DISABLED_NUM;
    var at := s2.rows[cpu][i];
    Stored(s2, cpu, i, IrqsDisabledLog(at.time, index, task, commPtr, Overlay(CallersOf(at), callers, depth)))
  }

  /**
   * A stamp raises the row's counter; slot 0 gets the time stamp `jiffies`,
   * while the slot the new counter (as an `unsigned int`, modulo the ring
   * size) selects gets the index, the task and its name pointer, and keeps
   * the time stamp it had. No other slot and no other row changes.
   */
  lemma IrqsStampRecords(s: RingState<Event>, cpu: nat, jiffies: int, task: int, commPtr: int, callers: Callers, depth: nat)
    requires Shaped(s, NR_CPUS, IRQS_DISABLED_NUM) && cpu < NR_CPUS
    ensures var s' := IrqsStamped(s, cpu, jiffies, task, commPtr, callers, depth);
      var i := U32(s.counters[cpu] + 1) % IRQS_DISABLED_NUM;
      && (forall q :: 0 <= q < NR_CPUS && q != cpu ==> s'.rows[q] == s.rows[q] && s'.counters[q] == s.counters[q])
      && s'.counters[cpu] == s.counters[cpu] + 1
      && s'.rows[cpu][0].time == jiffies
      && s'.rows[cpu][i].IrqsDisabledLog? && s'.rows[cpu][i].index == U32(s.counters[cpu] + 1)
      && s'.rows[cpu][i].task == task && s'.rows[cpu][i].commPtr == commPtr
      && (i != 0 ==> s'.rows[cpu][i].time == s.rows[cpu][i].time)
      && forall j :: 0 <= j < IRQS_DISABLED_NUM && j != 0 && j != i ==> s'.rows[cpu][j] == s.rows[cpu][j]
  {
  }

  /**
   * The exclusion walk of `exynos_ss_reg`: it stops at the first entry whose
   * address is 0, and an entry excludes the physical addresses from `addr`
   * to `addr + size` inclusive, the end computed in `size_t`.
   */
  function RegExcluded(list: seq<RegRange>, phys: int): bool
  {
    if list == [] || list[0].addr == 0 then false
    else (list[0].addr <= phys <= U64(list[0].addr + list[0].size)) || RegExcluded(list[1..], phys)
  }

  /** The memory setup maps: what the DRAM held before the boot, zero beyond what is given. */
  function Leftover(prior: seq<Byte>, n: nat): (m: seq<Byte>)
    ensures |m| == n && forall k :: 0 <= k < n ==> m[k] == (if k < |prior| then prior[k] else 0)
  {
    seq(n, k requires 0 <= k < n => if k < |prior| then prior[k] else 0)
  }

  /** The bytes `memset(..., 0, n)` writes. */
  function Zeros(n: nat): (z: seq<Byte>)
    ensures |z| == n && forall k :: 0 <= k < n ==> z[k] == 0
  {
    seq(n, _ => 0)
  }

  /** An item whose memory lies inside a reservation of `len` bytes mapped from virtual address `vaBase`. */
  predicate Inside(it: Item, vaBase: int, len: nat)
  {
    0 <= vaBase <= it.vaddr && it.vaddr - vaBase + it.size <= len && it.paddr >= 0 && it.size > 0
  }

  /**
   * Whether `exynos_ss_fixmap` clears an item's memory: a reserved item whose
   * name is a prefix of "log_kernel" is cleared when the saved cursor word
   * does not point into its physical block; any other reserved item is
   * cleared unless it is persistent.
   */
  predicate Wiped(it: Item, last: Uint32)
    requires it.size > 0
  {
    it.enabledInit != 0 &&
    if it.name <= "log_kernel" then RestoredCurr(last, it.paddr, it.vaddr, it.size).None? else !it.persist
  }

  /**
   * An item after `exynos_ss_fixmap`: the kernel log's cursor comes from the
   * saved word when that word points into its block, and goes back to the
   * start otherwise; other items are as they were.
   */
  function Fixed(it: Item, last: Uint32): (r: Item)
    requires it.size > 0
    ensures r == it.(curr := r.curr)
    ensures !(it.enabledInit != 0 && it.name <= "log_kernel") ==> r == it
    ensures it.enabledInit != 0 && it.name <= "log_kernel" && Wiped(it, last) ==> r.curr == it.vaddr
    ensures it.enabledInit != 0 && it.name <= "log_kernel" && !Wiped(it, last) ==>
      Some(r.curr) == RestoredCurr(last, it.paddr, it.vaddr, it.size)
  {
    if it.enabledInit != 0 && it.name <= "log_kernel" then
      match RestoredCurr(last, it.paddr, it.vaddr, it.size)
      case Some(c) => it.(curr := c)
      case None => it.(curr := it.vaddr)
    else it
  }

  /** The table after `exynos_ss_fixmap`: every item after the event log fixed. */
  function FixedItems(items: seq<Item>, last: Uint32): (r: seq<Item>)
    requires forall i :: 0 <= i < |items| ==> items[i].size > 0
    ensures |r| == |items| && (|items| > 0 ==> r[0] == items[0])
    ensures forall i :: 1 <= i < |items| ==> r[i] == Fixed(items[i], last)
  {
    seq(|items|, i requires 0 <= i < |items| => if i == 0 then items[0] else Fixed(items[i], last))
  }

  /** The reserved memory after the loop of `exynos_ss_fixmap` has handled items 1 to n - 1. */
  function FixmapMem(m: seq<Byte>, items: seq<Item>, vaBase: int, last: Uint32, n: nat): (r: seq<Byte>)
    requires n <= |items| && forall i :: 0 <= i < |items| ==> Inside(items[i], vaBase, |m|)
    ensures |r| == |m|
  {
    if n <= 1 then m
    else
      var p := FixmapMem(m, items, vaBase, last, n - 1);
      var it := items[n - 1];
      if Wiped(it, last) then Write(p, it.vaddr - vaBase, Zeros(it.size)) else p
  }

  /** A byte that no cleared item covers keeps the value it had before the boot. */
  lemma {:induction false} FixmapKeeps(m: seq<Byte>, items: seq<Item>, vaBase: int, last: Uint32, n: nat, k: nat)
    requires n <= |items| && forall i :: 0 <= i < |items| ==> Inside(items[i], vaBase, |m|)
    requires k < |m|
    requires forall j :: 1 <= j < n && Inside(items[j], vaBase, |m|) && Wiped(items[j], last) ==>
      !(items[j].vaddr - vaBase <= k < items[j].vaddr - vaBase + items[j].size)
    ensures FixmapMem(m, items, vaBase, last, n)[k] == m[k]
  {
    if n > 1 {
      FixmapKeeps(m, items, vaBase, last, n - 1, k);
    }
  }

  /** Every byte of a cleared item reads 0, when the items lie one after another. */
  lemma {:induction false} FixmapClears(m: seq<Byte>, items: seq<Item>, vaBase: int, last: Uint32, n: nat, j: nat, k: nat)
    requires n <= |items| && forall i :: 0 <= i < |items| ==> Inside(items[i], vaBase, |m|)
    requires forall i, i' :: 0 <= i < i' < |items| ==> items[i].vaddr + items[i].size <= items[i'].vaddr
    requires 1 <= j < n && Inside(items[j], vaBase, |m|) && Wiped(items[j], last) && k < items[j].size
    ensures FixmapMem(m, items, vaBase, last, n)[items[j].vaddr - vaBase + k] == 0
  {
    if j < n - 1 {
      FixmapClears(m, items, vaBase, last, n - 1, j, k);
    }
  }

  /** `mpidr_cpu_num(mpidr) ^ 4`: the CPU number with bit 2 flipped, as `exynos_ss_post_reboot` computes it. */
  function Flip4(n: nat): (r: nat)
    requires n < NR_CPUS
    ensures r < NR_CPUS
  {
    ((n as bv8) ^ 4) as nat
  }

  /** Flipping bit 2 twice gives the CPU number back, so distinct CPUs name distinct panic words. */
  lemma Flip4Twice(n: nat)
    requires n < NR_CPUS
    ensures Flip4(Flip4(n)) == n
    ensures forall m :: 0 <= m < NR_CPUS && m != n ==> Flip4(m) != Flip4(n)
  {
  }

  /**
   * `exynos_ss_save_context` on the per-CPU panic words and the list of
   * CPUs whose registers were captured. With the framework on, a CPU whose
   * word does not read ESS_SIGN_PANIC is captured and its word set to
   * PANIC. The word is read and written through the `log_kevents` gate, so
   * with the gate shut it reads 0 and the write is dropped.
   */
  function SaveContextOn(stat: seq<Uint32>, captured: seq<nat>, on: bool, kevents: bool, cpu: nat): (r: (seq<Uint32>, seq<nat>))
    requires cpu < |stat|
  {
    if !on || (if kevents then stat[cpu] else 0) == SIGN_PANIC then (stat, captured)
    else (if kevents then stat[cpu := SIGN_PANIC] else stat, captured + [cpu])
  }

  /**
   * With the gate open, a save marks the CPU's word PANIC and captures the
   * CPU at most once: a second save on the same CPU changes nothing.
   */
  lemma SaveContextOnce(stat: seq<Uint32>, captured: seq<nat>, on: bool, cpu: nat)
    requires cpu < |stat|
    ensures var r := SaveContextOn(stat, captured, on, true, cpu);
      && (on ==> r.0[cpu] == SIGN_PANIC)
      && (r.1 == captured || r.1 == captured + [cpu])
      && (r.1 == captured + [cpu] <==> on && stat[cpu] != SIGN_PANIC)
      && SaveContextOn(r.0, r.1, on, true, cpu) == r
  {
  }

  /** The loop of `exynos_ss_post_reboot`: the word of CPU `Flip4(nums[i])` reset for every possible CPU i, through the gate. */
  function ResetStats(stat: seq<Uint32>, nums: seq<nat>, kevents: bool): (r: seq<Uint32>)
    requires |stat| == NR_CPUS && forall i :: 0 <= i < |nums| ==> nums[i] < NR_CPUS
    ensures |r| == NR_CPUS
  {
    if nums == [] || !kevents then stat
    else ResetStats(stat, nums[..|nums| - 1], kevents)[Flip4(nums[|nums| - 1]) := SIGN_RESET]
  }

  /** A word is reset exactly when some possible CPU's flipped number names it; the others keep their value. */
  lemma {:induction false} ResetStatsAre(stat: seq<Uint32>, nums: seq<nat>, c: nat)
    requires |stat| == NR_CPUS && forall i :: 0 <= i < |nums| ==> nums[i] < NR_CPUS
    requires c < NR_CPUS
    ensures (exists i :: 0 <= i < |nums| && Flip4(nums[i]) == c) ==> ResetStats(stat, nums, true)[c] == SIGN_RESET
    ensures (forall i :: 0 <= i < |nums| ==> Flip4(nums[i]) != c) ==> ResetStats(stat, nums, true)[c] == stat[c]
  {
    if nums != [] {
      var init := nums[..|nums| - 1];
      ResetStatsAre(stat, init, c);
      if exists i :: 0 <= i < |nums| && Flip4(nums[i]) == c {
        var i :| 0 <= i < |nums| && Flip4(nums[i]) == c;
        if i < |nums| - 1 {
          assert init[i] == nums[i];
        }
      }
    }
  }

  /**
   * A normal reboot on a board whose possible CPUs cover every number leaves
   * every panic word reset except the rebooting CPU's own: the
   * `exynos_ss_save_context` that follows the reset marks that one PANIC
   * again, and captures the CPU.
   */
  lemma PostRebootMarksCaller(stat: seq<Uint32>, captured: seq<nat>, nums: seq<nat>, cpu: nat)
    requires |stat| == NR_CPUS && forall i :: 0 <= i < |nums| ==> nums[i] < NR_CPUS
    requires cpu < NR_CPUS && forall c :: 0 <= c < NR_CPUS ==> Flip4(c) in nums
    ensures var r := SaveContextOn(ResetStats(stat, nums, true), captured, true, true, cpu);
      && r.0[cpu] == SIGN_PANIC && r.1 == captured + [cpu]
      && forall c :: 0 <= c < NR_CPUS && c != cpu ==> r.0[c] == SIGN_RESET
  {
    forall c | 0 <= c < NR_CPUS
      ensures ResetStats(stat, nums, true)[c] == SIGN_RESET
    {
      var i :| 0 <= i < |nums| && nums[i] == Flip4(c);
      Flip4Twice(c);
      ResetStatsAre(stat, nums, c);
    }
  }

  /**
   * The search loop of the IRQ exclusion-list stores: the first entry that
   * is 0, or the length of the list when none is.
   */
  function FirstZero(list: seq<int>): (i: nat)
    ensures i <= |list| && (i < |list| ==> list[i] == 0)
    ensures forall k :: 0 <= k < i ==> list[k] != 0
  {
    if list == [] then 0
    else if list[0] == 0 then 0
    else 1 + FirstZero(list[1..])
  }

  /**
   * `ess_irqlog_exlist_store` and `ess_irqexit_exlist_store` on an `int`
   * list: the parsed `unsigned long` goes, as an `int`, into the first 0
   * entry; a full list or a 0 value leaves the list alone. The flag says
   * whether the list was full.
   */
  function IrqExlistStored(list: seq<int>, irq: Uint64): (r: (seq<int>, bool))
  {
    var i := FirstZero(list);
    if i == |list| then (list, true)
    else if irq == 0 then (list, false)
    else (list[i := I32(irq)], false)
  }

  /**
   * A store changes at most one entry, a 0 one, and the value it writes is
   * the `int` conversion of the input; a list without a 0 entry is full and
   * never changes. The lists start as `{-1}`, so no store ever adds an IRQ.
   */
  lemma IrqExlistStoreIs(list: seq<int>, irq: Uint64)
    ensures var r := IrqExlistStored(list, irq);
      && |r.0| == |list|
      && (r.1 <==> 0 !in list)
      && (0 !in list ==> r.0 == list)
      && (0 in list && irq != 0 ==> r.0[FirstZero(list)] == I32(irq))
      && forall k :: 0 <= k < |list| && k != FirstZero(list) ==> r.0[k] == list[k]
    ensures IrqExlistStored([-1], irq) == ([-1], true)
  {
  }

  /** The search loop of `ess_reg_exlist_store`: the first entry whose address is 0, or the length of the list when none is. */
  function FirstFree(list: seq<RegRange>): (i: nat)
    ensures i <= |list| && (i < |list| ==> list[i].addr == 0)
    ensures forall k :: 0 <= k < i ==> list[k].addr != 0
  {
    if list == [] then 0
    else if list[0].addr == 0 then 0
    else 1 + FirstFree(list[1..])
  }

  /**
   * The index `ess_reg_exlist_store` writes, as written: the loop's final
   * index, with no check that the loop found a free entry.
   */
  function RegStoreSlotAsWritten(list: seq<RegRange>, addr: Uint64): (r: Option<nat>)
    ensures r.Some? ==> r.value == FirstFree(list)
  {
    if addr != 0 then Some(FirstFree(list)) else None
  }

  /**
   * On a full list (every address non-zero) a non-zero store writes entry
   * `ARRAY_SIZE(ess_reg_exlist)`, one past the end of the array.
   */
  lemma RegStoreOverrunsFullList(list: seq<RegRange>, addr: Uint64)
    requires |list| == REG_EX_NUM && addr != 0
    requires forall k :: 0 <= k < |list| ==> list[k].addr != 0
    ensures RegStoreSlotAsWritten(list, addr) == Some(REG_EX_NUM)
  {
    FirstFreeFull(list);
  }

  lemma {:induction false} FirstFreeFull(list: seq<RegRange>)
    requires forall k :: 0 <= k < |list| ==> list[k].addr != 0
    ensures FirstFree(list) == |list|
  {
    if list != [] {
      FirstFreeFull(list[1..]);
    }
  }

  /**
   * `ess_reg_exlist_store` with the full-list check the IRQ stores have: a
   * non-zero address goes with size SZ_4K into the first free entry, and a
   * full list is left alone (the flag says it was full).
   */
  function RegExlistStored(list: seq<RegRange>, addr: Uint64): (r: (seq<RegRange>, bool))
  {
    var i := FirstFree(list);
    if i == |list| then (list, true)
    else if addr == 0 then (list, false)
    else (list[i := RegRange(addr, SZ_4K)], false)
  }

  /**
   * The corrected store never writes outside the list: it changes at most
   * the first free entry, which then excludes the 4K page from `addr`, and
   * a full list stays as it was.
   */
  lemma RegExlistStoreInBounds(list: seq<RegRange>, addr: Uint64)
    ensures var r := RegExlistStored(list, addr);
      && |r.0| == |list|
      && (r.1 <==> FirstFree(list) == |list|)
      && (r.1 || addr == 0 ==> r.0 == list)
      && (!r.1 && addr != 0 ==> r.0[FirstFree(list)] == RegRange(addr, SZ_4K))
      && forall k :: 0 <= k < |list| && k != FirstFree(list) ==> r.0[k] == list[k]
  {
  }

  /**
   * The `log_kevents` gate the header helpers test, `exynos_ss_get_enable("log_kevents", true)`,
   * reads the flag the event log was reserved with, which nothing changes
   * after boot: for the item table it is always open.
   */
  lemma KeventsAlwaysOn(baseEnabled: Uint32, items: seq<Item>)
    requires TableShaped(items)
    ensures SnapshotItems.GetEnable(baseEnabled, items, "log_kevents", true) == 1
  {
    ShapedIsNamed(items);
    TableLookupsLow(items);
    NotPrefixAt("log_kevents", "base", 0);
  }

  /** Items at their offsets from `vaBase`, with both cursors inside the item. */
  predicate ItemsLaid(items: seq<Item>, vaBase: int)
  {
    |items| == NUM_ITEMS &&
    forall i :: 0 <= i < NUM_ITEMS ==>
      items[i].vaddr == vaBase + OFFSETS[i] && Inside(items[i], vaBase, RESERVED) &&
      items[i].head == items[i].vaddr && items[i].vaddr <= items[i].curr <= items[i].vaddr + items[i].size
  }

  /** Moving one item's cursor within the item keeps the table's shape and layout. */
  lemma CursorMoveKeepsLayout(items: seq<Item>, vaBase: int, i: nat, c: int)
    requires TableShaped(items) && ItemsLaid(items, vaBase) && i < NUM_ITEMS
    requires items[i].head <= c <= items[i].head + items[i].size
    ensures TableShaped(items[i := items[i].(curr := c)]) && ItemsLaid(items[i := items[i].(curr := c)], vaBase)
  {
  }

  /** Switching an item on or off keeps the table's shape and layout. */
  lemma EnableKeepsLayout(items: seq<Item>, vaBase: int, i: nat, v: Uint32, t: int)
    requires TableShaped(items) && i < NUM_ITEMS
    ensures TableShaped(items[i := items[i].(enabled := v)])
    ensures TableShaped(items[i := items[i].(enabled := v, time := t)])
    ensures ItemsLaid(items, vaBase) ==> ItemsLaid(items[i := items[i].(enabled := v)], vaBase)
    ensures ItemsLaid(items, vaBase) ==> ItemsLaid(items[i := items[i].(enabled := v, time := t)], vaBase)
  {
  }

  /** Of the table's names, only "log_kernel" itself is a prefix of "log_kernel". */
  lemma KernelOnlyPrefix(items: seq<Item>, i: nat)
    requires TableShaped(items) && i < NUM_ITEMS && items[i].name <= "log_kernel"
    ensures i == 1
  {
    if i >= 2 {
      NotPrefixAt(items[i].name, "log_kernel", 4);
    }
  }

  /** A cursor `exynos_ss_fixmap` restores for an item aligned to its size lies inside the item. */
  lemma RestoredInside(last: Uint32, paddr: int, vaddr: int, size: nat)
    requires size > 0 && vaddr % size == 0
    ensures var r := RestoredCurr(last, paddr, vaddr, size);
      r.Some? ==> vaddr <= r.value < vaddr + size
  {
  }

  /** Apart from a kernel log whose saved cursor is lost, fixmap clears only `log_platform` and `log_sfr`. */
  lemma WipedAreScratch(items: seq<Item>, last: Uint32, j: nat)
    requires TableShaped(items) && 1 <= j < NUM_ITEMS && j != 1 && Wiped(items[j], last)
    ensures j == 2 || j == 3
  {
    if items[j].name <= "log_kernel" {
      KernelOnlyPrefix(items, j);
    }
  }

  /** The kernel log of a laid-out table starts on a multiple of its 2 MiB size. */
  lemma KernelLogAligned(items: seq<Item>, vaBase: int)
    requires TableShaped(items) && ItemsLaid(items, vaBase) && vaBase % SZ_2M == 0
    ensures items[1].size == SZ_2M && items[1].vaddr % items[1].size == 0
  {
    var q := vaBase / SZ_2M;
    assert items[1].vaddr == SZ_2M * (q + 4);
    DivModUnique(items[1].vaddr, SZ_2M, q + 4, 0);
  }

  /**
   * The kernel log survives a reboot: given the LAST_LOGBUF word the hook
   * saved for a laid-out table, fixmap restores the kernel log's cursor (to
   * the head when it stood at the very end) and clears none of the bytes of
   * the kernel log or of the two persistent items.
   */
  lemma KernelLogSurvives(m: seq<Byte>, items: seq<Item>, vaBase: int, k: nat)
    requires TableShaped(items) && ItemsLaid(items, vaBase) && vaBase % SZ_2M == 0 && |m| == RESERVED
    requires items[1].paddr + items[1].size <= U32_MOD
    requires OFFSETS[1] <= k < OFFSETS[2] || OFFSETS[4] <= k < RESERVED
    ensures var it := items[1];
      var last := SavedLastBuf(it.curr, it.paddr, it.size);
      && !Wiped(it, last)
      && Fixed(it, last).curr == (if it.curr == it.vaddr + it.size then it.vaddr else it.curr)
      && FixmapMem(m, items, vaBase, last, NUM_ITEMS)[k] == m[k]
  {
    var it := items[1];
    var last := SavedLastBuf(it.curr, it.paddr, it.size);
    KernelLogAligned(items, vaBase);
    LastBufRoundTrip(it.curr, it.paddr, it.vaddr, it.size);
    forall j | 1 <= j < NUM_ITEMS && Inside(items[j], vaBase, |m|) && Wiped(items[j], last)
      ensures !(items[j].vaddr - vaBase <= k < items[j].vaddr - vaBase + items[j].size)
    {
      WipedAreScratch(items, last, j);
    }
    FixmapKeeps(m, items, vaBase, last, NUM_ITEMS, k);
  }

  /** `strnlen(buf, n)`: the index of the first NUL among the first n characters, or n. */
  function Strnlen(buf: string, n: nat): (r: nat)
    requires n <= |buf|
    ensures r <= n && (r < n ==> buf[r] == 0 as char)
    ensures forall k :: 0 <= k < r ==> buf[k] != 0 as char
  {
    if n == 0 then 0
    else if Strnlen(buf, n - 1) < n - 1 then Strnlen(buf, n - 1)
    else if buf[n - 1] == 0 as char then n - 1
    else n
  }

  /**
   * The allocation and the write of `ess_enable_store` as written: `kstrndup`
   * allocates the characters before the first NUL plus a terminator, and
   * the store then writes a terminator at index `count - 1`.
   */
  function EnableStoreWriteAsWritten(buf: string): (r: (nat, nat))
    requires |buf| >= 1
    ensures r.0 == Strnlen(buf, |buf|) + 1 && r.1 == |buf| - 1
  {
    (Strnlen(buf, |buf|) + 1, |buf| - 1)
  }

  /** Writing "a", NUL, "bc" (four bytes) puts the terminator at index 3 of a 2-byte allocation. */
  lemma EnableStoreOverrun()
    ensures var r := EnableStoreWriteAsWritten(['a', 0 as char, 'b', 'c']); r == (2, 3) && r.1 >= r.0
  {
    var buf := ['a', 0 as char, 'b', 'c'];
    assert Strnlen(buf, 1) == 1;
    assert Strnlen(buf, 2) == 1;
  }

  /**
   * The name `ess_enable_store` evidently means to look up: what `kstrndup`
   * copied, without the trailing character (the newline `echo` appends)
   * when the copy ran to `count`, with the terminator inside the copy.
   */
  function EnableName(buf: string): (name: string)
    requires |buf| >= 1
    ensures |name| < Strnlen(buf, |buf|) + 1 && name <= buf
    ensures forall k :: 0 <= k < |name| ==> name[k] != 0 as char
    ensures (forall k :: 0 <= k < |buf| ==> buf[k] != 0 as char) ==> name == buf[..|buf| - 1]
  {
    var n := Strnlen(buf, |buf|);
    if n == |buf| then buf[..|buf| - 1] else buf[..n]
  }

  /**
   * The words of the 4K header at S5P_VA_SS_BASE that the panic path and
   * the next boot read: the scratch and last-logbuf words, the emergency
   * reason, the copy of `ess_base`, one panic word per CPU, the panic string,
   * and the CPUs whose MMU and core registers were saved.
   */
  class Header {
    var scratch: Uint32
    var lastLogbuf: Uint32
    var reason: Uint32
    var stamp: Base
    var captured: seq<nat>
    const panicStat: array<Uint32>
    const panicString: array<Byte>

    ghost predicate Valid()
      reads this
    {
      panicStat.Length == NR_CPUS && panicString.Length == PANIC_STRING_LEN
    }

    /** The header as the previous boot left it; the panic words and string are cleared before anything reads them. */
    constructor (priorScratch: Uint32, priorLastLogbuf: Uint32)
      ensures Valid() && fresh(panicStat) && fresh(panicString)
      ensures scratch == priorScratch && lastLogbuf == priorLastLogbuf && reason == 0
      ensures stamp == Base(0, 0, 0, 0) && captured == []
    {
      scratch, lastLogbuf, reason := priorScratch, priorLastLogbuf, 0;
      stamp := Base(0, 0, 0, 0);
      captured := [];
      panicStat := new Uint32[NR_CPUS](_ => 0);
      panicString := new Byte[PANIC_STRING_LEN](_ => 0);
    }
  }

  /** The tables the sysfs stores edit: the IRQ exclusion lists, the irq_exit threshold and the register exclusion list. */
  class Filters {
    var irqlogExlist: seq<int>
    var irqexitExlist: seq<int>
    var irqexitThreshold: Uint32
    var regExlist: seq<RegRange>

    ghost predicate Valid()
      reads this
    {
      |irqlogExlist| == IRQ_EX_NUM && |irqexitExlist| == IRQ_EX_NUM && |regExlist| == REG_EX_NUM
    }

    /** The static initialisers: one entry of -1 in each IRQ list, the MCT and UART ranges first in the register list. */
    constructor (threshold: Uint32, mct: RegRange, uart: RegRange)
      ensures Valid()
      ensures irqlogExlist == [-1] && irqexitExlist == [-1] && irqexitThreshold == threshold
      ensures regExlist == [mct, uart] + seq(7, _ => RegRange(0, 0))
    {
      irqlogExlist, irqexitExlist, irqexitThreshold := [-1], [-1], threshold;
      regExlist := [mct, uart] + seq(7, _ => RegRange(0, 0));
    }
  }

  class Snapshot {
    /** S5P_VA_SS_BASE. */
    const vaBase: int
    /** CONFIG_EXYNOS_SNAPSHOT_CALLSTACK. */
    const callstackConfig: nat
    const hdr: Header
    const flt: Filters
    /** `ess_log` and `ess_idx`. */
    const log: EventLog

    var base: Base
    /** `ess_items`. */
    var items: seq<Item>
    var desc: DescState
    /** The reserved memory, from S5P_VA_SS_BASE on. */
    var mem: array<Byte>
    /** Whether init has registered the log hooks. */
    var hooked: bool

    /** Setup has reserved and laid out the memory. */
    ghost predicate Reserved()
      reads this
    {
      base.vaddr != 0
    }

    /** The layout setup leaves: items at their offsets, both cursors inside their item, the memory as large as the reservation. */
    ghost predicate Laid()
      reads this
    {
      desc.nums == TABLE_DESC && !desc.needHeader && mem.Length == base.size == RESERVED && base.vaddr == vaBase &&
      ItemsLaid(items, vaBase)
    }

    ghost predicate Valid()
      reads this, log, hdr, flt
    {
      log.Valid() && Settled()
    }

    /** Everything `Valid` asks of the state outside the event log. */
    ghost predicate Settled()
      reads this, hdr, flt
    {
      hdr.Valid() && flt.Valid() &&
      vaBase > 0 && vaBase % SZ_2M == 0 && hdr.panicString != mem &&
      TableShaped(items) &&
      (desc.nums == Desc(0, 0, 0, 0, 0, 0) || desc.nums == TABLE_DESC) &&
      desc.callstack <= CALLSTACK_MAX_NUM && callstackConfig <= CALLSTACK_MAX_NUM &&
      (hooked ==> Reserved()) && (Reserved() ==> Laid())
    }

    /**
     * The driver's state before `exynos_ss_setup` runs: the static
     * initialisers, with the header words the previous boot left behind.
     */
    constructor (vaBase: int, callstackConfig: nat, threshold: Uint32, mct: RegRange, uart: RegRange,
                 priorScratch: Uint32, priorLastLogbuf: Uint32)
      requires vaBase > 0 && vaBase % SZ_2M == 0 && callstackConfig <= CALLSTACK_MAX_NUM
      ensures Valid() && !Reserved() && log.AllCleared()
      ensures this.vaBase == vaBase && this.callstackConfig == callstackConfig
      ensures base == Base(0, 0, 0, 0) && items == TABLE && desc == NO_DESC && mem.Length == 0 && !hooked
      ensures hdr.scratch == priorScratch && hdr.lastLogbuf == priorLastLogbuf && hdr.reason == 0 && hdr.captured == []
      ensures flt.irqlogExlist == [-1] && flt.irqexitExlist == [-1] && flt.irqexitThreshold == threshold
      ensures flt.regExlist == [mct, uart] + seq(7, _ => RegRange(0, 0))
    {
      this.vaBase := vaBase;
      this.callstackConfig := callstackConfig;
      hdr := new Header(priorScratch, priorLastLogbuf);
      flt := new Filters(threshold, mct, uart);
      log := new EventLog();
      base := Base(0, 0, 0, 0);
      items := TABLE;
      desc := NO_DESC;
      mem := new Byte[0];
      hooked := false;
      new;
      TableIsShaped();
    }

    /** The name lookup loop shared by the getters, the enable API and the logger hook. */
    method FindItem(name: string, from: nat) returns (r: Option<nat>)
      ensures r == Find(items, name, from)
    {
      var i := from;
      while i < |items|
        invariant from <= i
        invariant Find(items, name, from) == Find(items, name, i)
        decreases |items| - i
      {
        if name <= items[i].name {
          return Some(i);
        }
        i := i + 1;
      }
      return None;
    }

    /** `exynos_ss_get_enable`. */
    method GetEnable(name: string, init: bool) returns (r: int)
      ensures r == SnapshotItems.GetEnable(base.enabled, items, name, init)
    {
      if name <= "base" {
        return I32(base.enabled);
      }
      var f := FindItem(name, 0);
      match f
      case None => r := -1;
      case Some(i) => r := I32(if init then items[i].enabledInit else items[i].enabled);
    }

    /** `exynos_ss_get_item_size`. */
    method GetItemSize(name: string) returns (r: nat)
      ensures r == SnapshotItems.GetItemSize(items, name)
    {
      var f := FindItem(name, 0);
      r := if f.Some? then U32(items[f.value].size) else 0;
    }

    /** `exynos_ss_get_item_paddr`. */
    method GetItemPaddr(name: string) returns (r: nat)
      ensures r == SnapshotItems.GetItemPaddr(items, name)
    {
      var f := FindItem(name, 0);
      r := if f.Some? then U32(items[f.value].paddr) else 0;
    }

    /**
     * `exynos_ss_get_spare_paddr`: the physical address of the spare area
     * after the header and register areas of the event log, computed in the
     * 32-bit arithmetic of the item's `unsigned int` address; 0 when the
     * event log has no physical address.
     */
    method GetSparePaddr(offset: Uint32) returns (r: int)
      ensures var p := SnapshotItems.GetItemPaddr(items, "log_kevents");
        r == (if p == 0 then 0 else U32(p + SPARE_OFFSET + offset))
    {
      var p := GetItemPaddr("log_kevents");
      r := if p == 0 then 0 else U32(p + SPARE_OFFSET + offset);
    }

    /** `exynos_ss_set_enable`: the framework flag for any prefix of "base", otherwise the first matching item's flag and time stamp. */
    method SetEnable(name: string, en: int, now: int) returns (r: int)
      requires Valid()
      modifies this`base, this`items
      ensures Valid() && r == 0 && desc == old(desc) && mem == old(mem) && hooked == old(hooked)
      ensures name <= "base" ==> base == old(base).(enabled := U32(en)) && items == old(items)
      ensures !(name <= "base") ==> base == old(base) && items == SetEnabled(old(items), name, en, now)
    {
      if name <= "base" {
        base := base.(enabled := U32(en));
      } else {
        var f := FindItem(name, 0);
        if f.Some? {
          EnableKeepsLayout(items, vaBase, f.value, U32(en), now);
          items := items[f.value := items[f.value].(enabled := U32(en), time := now)];
        }
      }
      return 0;
    }

    /**
     * `exynos_ss_try_enable`: -1 unless the framework and the event log are
     * on; then the item loop of `SnapshotItems.TryEnable`, with `now` the
     * clock and `duration` an `unsigned long long`.
     */
    method TryEnable(name: string, duration: nat, now: int) returns (r: int)
      requires Valid()
      modifies this`items
      ensures Valid() && base == old(base) && desc == old(desc) && mem == old(mem) && hooked == old(hooked)
      ensures var on := old(base.enabled) != 0 && SnapshotItems.GetEnable(old(base.enabled), old(items), "log_kevents", true) != 0;
        (!on ==> r == -1 && items == old(items)) &&
        (on ==> (items, r) == SnapshotItems.TryEnable(old(items), name, duration, now))
    {
      var k := GetEnable("log_kevents", true);
      if base.enabled == 0 || k == 0 {
        return -1;
      }
      var f := FindItem(name, 0);
      r := -1;
      if f.Some? && items[f.value].enabled == 0 {
        var i := f.value;
        if U64(now - items[i].time) > duration {
          EnableKeepsLayout(items, vaBase, i, 1, 0);
          items := items[i := items[i].(enabled := 1)];
          r := 1;
        } else {
          r := 0;
        }
      }
    }

    /** `exynos_ss_get_hardlockup`. */
    function GetHardlockup(): (r: int)
      reads this
      ensures r == desc.hardlockup
    {
      desc.hardlockup
    }

    /** `exynos_ss_set_hardlockup`: ignored while the framework is off. */
    method SetHardlockup(val: int) returns (r: int)
      requires Valid()
      modifies this
      ensures Valid() && r == 0 && base == old(base) && items == old(items) && mem == old(mem) && hooked == old(hooked)
      ensures desc == if old(base.enabled) == 0 then old(desc) else old(desc).(hardlockup := val)
    {
      if base.enabled != 0 {
        desc := desc.(hardlockup := val);
      }
      return 0;
    }

    /** The loop of `exynos_ss_init_desc` that records, for each name, the index of the item it prefixes. */
    method FindIndices() returns (d: Desc)
      ensures d == DescOf(Names(items), |items|)
    {
      d := Desc(0, 0, 0, 0, 0, 0);
      var i := 0;
      while i < |items|
        invariant 0 <= i <= |items| && d == DescOf(Names(items), i)
      {
        d := DescStep(d, items[i].name, i);
        i := i + 1;
      }
    }

    /**
     * `exynos_ss_init_desc`: the descriptor cleared, the callstack depth set
     * from the configuration, the item indices found by name, and a separate
     * header requested when the event log itself is not reserved; for the
     * table this is TABLE_DESC without a separate header.
     */
    method InitDesc()
      requires Valid()
      modifies this
      ensures Valid() && base == old(base) && items == old(items) && mem == old(mem) && hooked == old(hooked)
      ensures desc.nums == DescOf(Names(items), NUM_ITEMS) && desc.needHeader == (items[desc.nums.kevents].enabledInit == 0)
      ensures desc == DescState(TABLE_DESC, false, callstackConfig, 0, [])
    {
      var d := FindIndices();
      ShapedNames(items);
      DescOfTable();
      desc := DescState(d, items[d.kevents].enabledInit == 0, callstackConfig, 0, []);
    }

    /**
     * The loop of `exynos_ss_remap`: every item that is reserved gets the
     * next virtual and physical addresses, both cursors at its start, and
     * the placed items are counted.
     */
    method PlaceItems(pbase: Uint32) returns (its: seq<Item>, count: nat)
      requires desc.nums.kevents < |items|
      ensures its == Layout(items, pbase, vaBase, desc.nums.kevents, desc.needHeader)
      ensures count == MappedCount(items, |items|, desc.nums.kevents)
    {
      its := items;
      var kevents, needHeader := desc.nums.kevents, desc.needHeader;
      var prePaddr, preVaddr := pbase, vaBase;
      count := 0;
      var i := 0;
      while i < |its|
        invariant 0 <= i <= |its| == |items|
        invariant prePaddr == pbase + Offset(items, i, kevents, needHeader)
        invariant preVaddr == vaBase + Offset(items, i, kevents, needHeader)
        invariant count == MappedCount(items, i, kevents)
        invariant forall j :: 0 <= j < i ==> its[j] == PlacedAt(items, j, pbase, vaBase, kevents, needHeader)
        invariant forall j :: i <= j < |its| ==> its[j] == items[j]
      {
        if i == kevents || its[i].enabledInit != 0 {
          var size := if i == kevents && needHeader then HEADER_ALLOC_SZ else its[i].size;
          its := its[i := its[i].(vaddr := preVaddr, paddr := prePaddr, head := preVaddr, curr := preVaddr)];
          preVaddr := preVaddr + size;
          prePaddr := prePaddr + size;
          count := count + 1;
        }
        i := i + 1;
      }
    }

    /**
     * `exynos_ss_remap`: the items laid out from `pbase` (and the virtual
     * base); the result is S5P_VA_SS_BASE when something was placed, 0
     * otherwise.
     */
    method Remap(pbase: Uint32) returns (va: int)
      requires Valid() && !Reserved()
      modifies this
      ensures Valid() && !Reserved() && base == old(base) && desc == old(desc) && mem == old(mem) && hooked == old(hooked)
      ensures va == (if MappedCount(old(items), NUM_ITEMS, desc.nums.kevents) > 0 then vaBase else 0)
      ensures items == Layout(old(items), pbase, vaBase, desc.nums.kevents, desc.needHeader)
    {
      var its, count := PlaceItems(pbase);
      items := its;
      va := if count > 0 then vaBase else 0;
    }

    /**
     * The success branch of `exynos_ss_setup`: the base recorded, the items
     * laid out from it (remap takes the base as an `unsigned int`), the
     * framework still off, and the reserved memory holding whatever the DRAM
     * held (`prior`).
     */
    method Reserve(pbase: nat, size: nat, prior: seq<Byte>)
      requires Valid() && !Reserved() && desc.nums == TABLE_DESC && !desc.needHeader && size == RESERVED
      modifies this
      ensures Valid() && Reserved() && desc == old(desc) && hooked == old(hooked)
      ensures base == Base(RESERVED, vaBase, pbase, 0) && items == Layout(old(items), U32(pbase), vaBase, 0, false)
      ensures fresh(mem) && mem[..] == Leftover(prior, RESERVED)
    {
      TableLaid(items, U32(pbase), vaBase);
      TableLayout(items);
      var va := Remap(U32(pbase));
      base := Base(size, va, pbase, 0);
      mem := new Byte[size](k requires 0 <= k < size => if k < |prior| then prior[k] else 0);
    }

    /**
     * `exynos_ss_setup`, run once while the kernel parses its command line:
     * `parsed` is the base address `kstrtoul` read (None when it failed) and
     * `reserved` whether memblock granted the region of the summed size.
     */
    method Setup(parsed: Option<nat>, reserved: bool, prior: seq<Byte>) returns (r: int)
      requires Valid() && !Reserved()
      modifies this
      ensures Valid() && Reserved() == (parsed.Some? && reserved) && hooked == old(hooked)
      ensures r == (if Reserved() then 0 else -1)
      ensures parsed.None? ==> base == old(base) && items == old(items) && desc == old(desc) && mem == old(mem)
      ensures parsed.Some? ==> desc == DescState(TABLE_DESC, false, callstackConfig, 0, [])
      ensures parsed.Some? && !reserved ==> base == old(base) && items == old(items) && mem == old(mem)
      ensures parsed.Some? && reserved ==>
        base == Base(RESERVED, vaBase, parsed.value, 0) && items == Layout(old(items), U32(parsed.value), vaBase, 0, false) &&
        fresh(mem) && mem[..] == Leftover(prior, RESERVED)
    {
      if parsed.None? {
        return -1;
      }
      InitDesc();
      var size := 0;
      var i := 0;
      while i < |items|
        invariant 0 <= i <= |items| && size == InitSize(items, i)
      {
        if items[i].enabledInit != 0 {
          size := size + items[i].size;
        }
        i := i + 1;
      }
      if desc.needHeader {
        size := size + HEADER_ALLOC_SZ;
      }
      if !reserved {
        return -1;
      }
      TableLayout(items);
      Reserve(parsed.value, size, prior);
      return 0;
    }

    /** The recorders' gate: the framework and the event log on and, when `checkInit`, the event log reserved at boot. */
    function Recording(checkInit: bool): bool
      reads this
    {
      var k := desc.nums.kevents;
      k < |items| && base.enabled != 0 && items[k].enabled != 0 && (!checkInit || items[k].enabledInit != 0)
    }

    /** `exynos_ss_task`: the task switched to on `cpu`, with its name copied in full. */
    method Task(cpu: nat, time: int, sp: int, task: int, comm: string)
      requires Valid() && cpu < NR_CPUS
      modifies log, log.areas[TASK]
      ensures Valid()
      ensures log.View(TASK) == LoggedIf(Recording(true), old(log.View(TASK)), cpu,
        TaskLog(time, sp, task, Strncpy(Blank(TASK_COMM_LEN), comm, TASK_COMM_LEN)))
      ensures forall d: Category :: d != TASK ==> log.View(d) == old(log.View(d))
    {
      if Recording(true) {
        log.Log(TASK, cpu, TaskLog(time, sp, task, Strncpy(Blank(TASK_COMM_LEN), comm, TASK_COMM_LEN)));
      }
    }

    /** `exynos_ss_work`: a work item run on the current CPU. */
    method Work(cpu: nat, time: int, sp: int, worker: int, comm: string, fn: int, en: int)
      requires Valid() && cpu < NR_CPUS
      modifies log, log.areas[WORK]
      ensures Valid()
      ensures log.View(WORK) == LoggedIf(Recording(true), old(log.View(WORK)), cpu,
        WorkLog(time, sp, worker, Strncpy(Blank(TASK_COMM_LEN), comm, TASK_COMM_LEN), fn, en))
      ensures forall d: Category :: d != WORK ==> log.View(d) == old(log.View(d))
    {
      if Recording(true) {
        log.Log(WORK, cpu, WorkLog(time, sp, worker, Strncpy(Blank(TASK_COMM_LEN), comm, TASK_COMM_LEN), fn, en));
      }
    }

    /**
     * `exynos_ss_regulator`: at most 15 characters of the regulator name are
     * copied, without a terminator, so the rest of the slot's name field
     * keeps what the overwritten record held.
     */
    method Regulator(cpu: nat, time: int, fname: string, addr: Uint32, volt: Uint32, en: int)
      requires Valid() && cpu < NR_CPUS
      modifies log, log.areas[REGULATOR]
      ensures Valid()
      ensures var prev := NameOf(Next(old(log.View(REGULATOR)), 0), REGULATOR_NAME_LEN);
        log.View(REGULATOR) == LoggedIf(Recording(true), old(log.View(REGULATOR)), 0,
          RegulatorLog(time, cpu, Strncpy(prev, fname, Min(|fname|, REGULATOR_NAME_LEN - 1)), addr, volt, en))
      ensures forall d: Category :: d != REGULATOR ==> log.View(d) == old(log.View(d))
    {
      if Recording(true) {
        var size := if |fname| >= REGULATOR_NAME_LEN then REGULATOR_NAME_LEN - 1 else |fname|;
        var prev := NameOf(log.Upcoming(REGULATOR, 0), REGULATOR_NAME_LEN);
        log.Log(REGULATOR, 0, RegulatorLog(time, cpu, Strncpy(prev, fname, size), addr, volt, en));
      }
    }

    /** `exynos_ss_cpuidle`: a C-state entry or exit on the current CPU. */
    method Cpuidle(cpu: nat, time: int, sp: int, modes: int, state: Uint32, online: int, diff: int, en: int)
      requires Valid() && cpu < NR_CPUS
      modifies log, log.areas[CPUIDLE]
      ensures Valid()
      ensures log.View(CPUIDLE) == LoggedIf(Recording(true), old(log.View(CPUIDLE)), cpu,
        CpuidleLog(time, sp, modes, state, online, diff, en))
      ensures forall d: Category :: d != CPUIDLE ==> log.View(d) == old(log.View(d))
    {
      if Recording(true) {
        log.Log(CPUIDLE, cpu, CpuidleLog(time, sp, modes, state, online, diff, en));
      }
    }

    /** `exynos_ss_suspend`: a suspend or resume callback, in the single global ring, with the CPU that ran it. */
    method Suspend(cpu: nat, time: int, sp: int, fn: int, dev: int, en: int)
      requires Valid() && cpu < NR_CPUS
      modifies log, log.areas[SUSPEND]
      ensures Valid()
      ensures log.View(SUSPEND) == LoggedIf(Recording(true), old(log.View(SUSPEND)), 0, SuspendLog(time, sp, fn, dev, en, cpu))
      ensures forall d: Category :: d != SUSPEND ==> log.View(d) == old(log.View(d))
    {
      if Recording(true) {
        log.Log(SUSPEND, 0, SuspendLog(time, sp, fn, dev, en, cpu));
      }
    }

    /** `exynos_ss_thermal`: a temperature reading and the cooling state it led to. */
    method Thermal(cpu: nat, time: int, data: int, temp: Uint32, name: int, maxCooling: Uint32)
      requires Valid() && cpu < NR_CPUS
      modifies log, log.areas[THERMAL]
      ensures Valid()
      ensures log.View(THERMAL) == LoggedIf(Recording(true), old(log.View(THERMAL)), 0,
        ThermalLog(time, cpu, data, temp, name, maxCooling))
      ensures forall d: Category :: d != THERMAL ==> log.View(d) == old(log.View(d))
    {
      if Recording(true) {
        log.Log(THERMAL, 0, ThermalLog(time, cpu, data, temp, name, maxCooling));
      }
    }

    /** The loops over the IRQ exclusion lists: whether `x` is listed, comparing as `unsigned int` when `unsigned`. */
    method Listed(list: seq<int>, x: int, unsigned: bool) returns (b: bool)
      ensures b <==> exists i :: 0 <= i < |list| && (if unsigned then U32(list[i]) else list[i]) == x
    {
      var i := 0;
      while i < |list|
        invariant 0 <= i <= |list|
        invariant forall k :: 0 <= k < i ==> (if unsigned then U32(list[k]) else list[k]) != x
      {
        if (if unsigned then U32(list[i]) else list[i]) == x {
          return true;
        }
        i := i + 1;
      }
      return false;
    }

    /** `exynos_ss_irq`: an interrupt handler entry or exit, unless the IRQ is on the exclusion list. */
    method Irq(cpu: nat, time: int, sp: int, irq: int, fn: int, preempt: int, val: Uint32, en: int)
      requires Valid() && cpu < NR_CPUS
      modifies log, log.areas[IRQ]
      ensures Valid()
      ensures log.View(IRQ) == LoggedIf(Recording(true) && irq !in flt.irqlogExlist, old(log.View(IRQ)), cpu,
        IrqLog(time, sp, irq, fn, preempt, val, en))
      ensures forall d: Category :: d != IRQ ==> log.View(d) == old(log.View(d))
    {
      if !Recording(true) {
        return;
      }
      var listed := Listed(flt.irqlogExlist, irq, false);
      if listed {
        return;
      }
      log.Log(IRQ, cpu, IrqLog(time, sp, irq, fn, preempt, val, en));
    }

    /**
     * `exynos_ss_irq_exit`: the latency of an interrupt (the clock `time`
     * minus `start`, in `unsigned long long`) is recorded when it exceeds the
     * threshold times 1000, computed as an `unsigned int`; otherwise the
     * counter raised for it is lowered again and the ring is as before. The
     * IRQ is compared with the exclusion list as an `unsigned int`.
     */
    method IrqExit(cpu: nat, time: Uint64, sp: int, irq: Uint32, start: Uint64)
      requires Valid() && cpu < NR_CPUS
      modifies log, log.areas[IRQ_EXIT]
      ensures Valid()
      ensures var latency := U64(time - start);
        var open := Recording(true) && !(exists i :: 0 <= i < |flt.irqexitExlist| && U32(flt.irqexitExlist[i]) == irq);
        log.View(IRQ_EXIT) == LoggedIf(open && latency > U32(flt.irqexitThreshold * 1000), old(log.View(IRQ_EXIT)), cpu,
          IrqExitLog(start, sp, time, latency, I32(irq)))
      ensures forall d: Category :: d != IRQ_EXIT ==> log.View(d) == old(log.View(d))
    {
      if !Recording(true) {
        return;
      }
      var listed := Listed(flt.irqexitExlist, irq, true);
      if listed {
        return;
      }
      ghost var s0 := log.View(IRQ_EXIT);
      var n := log.Inc(IRQ_EXIT, cpu);
      var latency := U64(time - start);
      if latency > U32(flt.irqexitThreshold * 1000) {
        log.Put(IRQ_EXIT, cpu, Slot(n, Cap(IRQ_EXIT)), IrqExitLog(start, sp, time, latency, I32(irq)));
      } else {
        log.Dec(IRQ_EXIT, cpu);
        assert log.View(IRQ_EXIT).counters == s0.counters;
      }
    }

    /** The loop that fills the first `ess_desc.callstack` caller slots of a record with return addresses. */
    method FillCallers(prev: Callers, now: Callers) returns (r: Callers)
      requires desc.callstack <= CALLSTACK_MAX_NUM
      ensures r == Overlay(prev, now, desc.callstack)
    {
      r := prev;
      var j := 0;
      while j < desc.callstack
        invariant 0 <= j <= desc.callstack
        invariant forall k :: 0 <= k < CALLSTACK_MAX_NUM ==> r[k] == (if k < j then now[k] else prev[k])
      {
        r := r[j := now[j]];
        j := j + 1;
      }
    }

    /**
     * `exynos_ss_spinlock` (with CONFIG_ARM_ARCH_TIMER and
     * CONFIG_DEBUG_SPINLOCK): the lock's owner fields, and the return
     * addresses `callers` in the first `callstack` caller slots; the other
     * caller slots keep the overwritten record's values.
     */
    method Spinlock(cpu: nat, time: int, sp: int, jiffies: Uint64, lock: LockOwner, en: int, callers: Callers)
      requires Valid() && cpu < NR_CPUS
      modifies log, log.areas[SPINLOCK]
      ensures Valid()
      ensures var prev := CallersOf(Next(old(log.View(SPINLOCK)), cpu));
        log.View(SPINLOCK) == LoggedIf(Recording(true), old(log.View(SPINLOCK)), cpu,
          SpinlockLog(time, sp, jiffies, lock, en, Overlay(prev, callers, desc.callstack)))
      ensures forall d: Category :: d != SPINLOCK ==> log.View(d) == old(log.View(d))
    {
      if Recording(true) {
        var cs := FillCallers(CallersOf(log.Upcoming(SPINLOCK, cpu)), callers);
        log.Log(SPINLOCK, cpu, SpinlockLog(time, sp, jiffies, lock, en, cs));
      }
    }

    /** `exynos_ss_clk`: a clock operation, in the single global ring. */
    method Clk(cpu: nat, time: int, clock: int, fname: int, arg: Uint64, mode: int)
      requires Valid() && cpu < NR_CPUS
      modifies log, log.areas[CLK]
      ensures Valid()
      ensures log.View(CLK) == LoggedIf(Recording(true), old(log.View(CLK)), 0, ClkLog(time, clock, fname, mode, arg))
      ensures forall d: Category :: d != CLK ==> log.View(d) == old(log.View(d))
    {
      if Recording(true) {
        log.Log(CLK, 0, ClkLog(time, clock, fname, mode, arg));
      }
    }

    /** `exynos_ss_pmu`: a power-management-unit operation. */
    method Pmu(cpu: nat, time: int, id: int, fname: int, mode: int)
      requires Valid() && cpu < NR_CPUS
      modifies log, log.areas[PMU]
      ensures Valid()
      ensures log.View(PMU) == LoggedIf(Recording(true), old(log.View(PMU)), 0, PmuLog(time, id, fname, mode))
      ensures forall d: Category :: d != PMU ==> log.View(d) == old(log.View(d))
    {
      if Recording(true) {
        log.Log(PMU, 0, PmuLog(time, id, fname, mode));
      }
    }

    /**
     * `exynos_ss_freq`: a frequency change of domain `kind`; the record
     * names the domain by its index into `ess_freq_name`, which the caller
     * must keep in range.
     */
    method Freq(cpu: nat, time: int, kind: nat, oldFreq: Uint64, targetFreq: Uint64, en: int)
      requires Valid() && cpu < NR_CPUS && kind < FREQ_NAMES
      modifies log, log.areas[FREQ]
      ensures Valid()
      ensures log.View(FREQ) == LoggedIf(Recording(true), old(log.View(FREQ)), 0,
        FreqLog(time, cpu, kind, oldFreq, targetFreq, en))
      ensures forall d: Category :: d != FREQ ==> log.View(d) == old(log.View(d))
    {
      if Recording(true) {
        log.Log(FREQ, 0, FreqLog(time, cpu, kind, oldFreq, targetFreq, en));
      }
    }

    /** `exynos_ss_dm`: a DVFS manager decision; logged even when the event log was not reserved at boot. */
    method Dm(cpu: nat, time: int, kind: int, min: Uint64, max: Uint64, waitT: int, t: int)
      requires Valid() && cpu < NR_CPUS
      modifies log, log.areas[DM]
      ensures Valid()
      ensures log.View(DM) == LoggedIf(Recording(false), old(log.View(DM)), 0, DmLog(time, cpu, kind, min, max, waitT, t))
      ensures forall d: Category :: d != DM ==> log.View(d) == old(log.View(d))
    {
      if Recording(false) {
        log.Log(DM, 0, DmLog(time, cpu, kind, min, max, waitT, t));
      }
    }

    /** `exynos_ss_hrtimer`: a high-resolution timer callback on the current CPU. */
    method Hrtimer(cpu: nat, time: int, timer: int, now: int, fn: int, en: int)
      requires Valid() && cpu < NR_CPUS
      modifies log, log.areas[HRTIMER]
      ensures Valid()
      ensures log.View(HRTIMER) == LoggedIf(Recording(true), old(log.View(HRTIMER)), cpu, HrtimerLog(time, now, timer, fn, en))
      ensures forall d: Category :: d != HRTIMER ==> log.View(d) == old(log.View(d))
    {
      if Recording(true) {
        log.Log(HRTIMER, cpu, HrtimerLog(time, now, timer, fn, en));
      }
    }

    /** `exynos_ss_i2c`: an I2C transfer; logged even when the event log was not reserved at boot. */
    method I2c(cpu: nat, time: int, adap: int, msgs: int, num: int, en: int)
      requires Valid() && cpu < NR_CPUS
      modifies log, log.areas[I2C]
      ensures Valid()
      ensures log.View(I2C) == LoggedIf(Recording(false), old(log.View(I2C)), 0, I2cLog(time, cpu, adap, msgs, num, en))
      ensures forall d: Category :: d != I2C ==> log.View(d) == old(log.View(d))
    {
      if Recording(false) {
        log.Log(I2C, 0, I2cLog(time, cpu, adap, msgs, num, en));
      }
    }

    /** `exynos_ss_spi`: an SPI message; logged even when the event log was not reserved at boot. */
    method Spi(cpu: nat, time: int, master: int, curMsg: int, en: int)
      requires Valid() && cpu < NR_CPUS
      modifies log, log.areas[SPI]
      ensures Valid()
      ensures log.View(SPI) == LoggedIf(Recording(false), old(log.View(SPI)), 0, SpiLog(time, cpu, master, curMsg, en))
      ensures forall d: Category :: d != SPI ==> log.View(d) == old(log.View(d))
    {
      if Recording(false) {
        log.Log(SPI, 0, SpiLog(time, cpu, master, curMsg, en));
      }
    }

    /**
     * `exynos_ss_acpm`: a message of the power-management firmware; at most
     * 9 characters are copied, without a terminator, so a shorter message
     * leaves the tail of the overwritten record's text in place.
     */
    method Acpm(cpu: nat, time: int, timestamp: Uint64, text: string, data: Uint32)
      requires Valid() && cpu < NR_CPUS
      modifies log, log.areas[ACPM]
      ensures Valid()
      ensures var prev := TextOf(Next(old(log.View(ACPM)), 0), ACPM_LOG_LEN);
        log.View(ACPM) == LoggedIf(Recording(false), old(log.View(ACPM)), 0,
          AcpmLog(time, timestamp, Strncpy(prev, text, Min(|text|, ACPM_LOG_LEN)), data))
      ensures forall d: Category :: d != ACPM ==> log.View(d) == old(log.View(d))
    {
      if Recording(false) {
        var len := if |text| >= ACPM_LOG_LEN then ACPM_LOG_LEN else |text|;
        var prev := TextOf(log.Upcoming(ACPM, 0), ACPM_LOG_LEN);
        log.Log(ACPM, 0, AcpmLog(time, timestamp, Strncpy(prev, text, len), data));
      }
    }

    /**
     * `exynos_ss_irqs_disabled`: with the gate open, the `irqs_disabled`
     * ring of `cpu` becomes `IrqsOffLogged` of the old one.
     */
    method IrqsDisabled(cpu: nat, flags: Uint64, jiffies: Uint64, task: int, commPtr: int, callers: Callers)
      requires Valid() && cpu < NR_CPUS
      modifies log, log.areas[IRQS_DISABLED]
      ensures Valid()
      ensures log.View(IRQS_DISABLED) == if Recording(true)
        then IrqsOffLogged(old(log.View(IRQS_DISABLED)), cpu, flags, jiffies, task, commPtr, callers, desc.callstack)
        else old(log.View(IRQS_DISABLED))
      ensures forall d: Category :: d != IRQS_DISABLED ==> log.View(d) == old(log.View(d))
    {
      if !Recording(true) {
        return;
      }
      if flags != 0 {
        IrqsRestart(cpu);
      } else {
        IrqsStamp(cpu, jiffies, task, commPtr, callers);
      }
    }

    /** The `flags != 0` branch of `exynos_ss_irqs_disabled`. */
    method IrqsRestart(cpu: nat)
      requires Valid() && cpu < NR_CPUS
      modifies log, log.areas[IRQS_DISABLED]
      ensures Valid()
      ensures log.View(IRQS_DISABLED) == IrqsRestarted(old(log.View(IRQS_DISABLED)), cpu, desc.callstack)
      ensures forall d: Category :: d != IRQS_DISABLED ==> log.View(d) == old(log.View(d))
    {
      log.SetCounter(IRQS_DISABLED, cpu, -1);
      var cs := FillCallers(CallersOf(log.Read(IRQS_DISABLED, cpu, 0)), NO_CALLERS);
      log.Put(IRQS_DISABLED, cpu, 0, IrqsDisabledLog(0, 0, 0, 0, cs));
    }

    /** The `flags == 0` branch of `exynos_ss_irqs_disabled`. */
    method IrqsStamp(cpu: nat, jiffies: Uint64, task: int, commPtr: int, callers: Callers)
      requires Valid() && cpu < NR_CPUS
      modifies log, log.areas[IRQS_DISABLED]
      ensures Valid()
      ensures log.View(IRQS_DISABLED) == IrqsStamped(old(log.View(IRQS_DISABLED)), cpu, jiffies, task, commPtr, callers, desc.callstack)
      ensures forall d: Category :: d != IRQS_DISABLED ==> log.View(d) == old(log.View(d))
    {
      ghost var s0 := log.View(IRQS_DISABLED);
      var n := log.Inc(IRQS_DISABLED, cpu);
      ghost var s1 := log.View(IRQS_DISABLED);
      var index := U32(n);
      assert index == U32(s1.counters[cpu]);
      var e0 := log.Read(IRQS_DISABLED, cpu, 0);
      log.Put(IRQS_DISABLED, cpu, 0, e0.(time := jiffies));
      assert log.View(IRQS_DISABLED) == Stored(s1, cpu, 0, s1.rows[cpu][0].(time := jiffies));
      IrqsRecord(cpu, index % IRQS_DISABLED_NUM, index, task, commPtr, callers);
    }

    /** The record write of the `flags == 0` branch: slot i keeps its time stamp. */
    method IrqsRecord(cpu: nat, i: nat, index: Uint32, task: int, commPtr: int, callers: Callers)
      requires log.Valid() && desc.callstack <= CALLSTACK_MAX_NUM && cpu < NR_CPUS && i < IRQS_DISABLED_NUM
      modifies log.areas[IRQS_DISABLED]
      ensures log.Valid()
      ensures var at := old(log.View(IRQS_DISABLED)).rows[cpu][i];
        log.View(IRQS_DISABLED) == Stored(old(log.View(IRQS_DISABLED)), cpu, i,
          IrqsDisabledLog(at.time, index, task, commPtr, Overlay(CallersOf(at), callers, desc.callstack)))
      ensures forall d: Category :: d != IRQS_DISABLED ==> log.View(d) == old(log.View(d))
    {
      var at := log.Read(IRQS_DISABLED, cpu, i);
      var cs := FillCallers(CallersOf(at), callers);
      log.Put(IRQS_DISABLED, cpu, i, IrqsDisabledLog(at.time, index, task, commPtr, cs));
    }

    /** The loop over the register exclusion list in `exynos_ss_reg`. */
    method RegListed(phys: int) returns (b: bool)
      ensures b == RegExcluded(flt.regExlist, phys)
    {
      var list := flt.regExlist;
      var j := 0;
      while j < |list|
        invariant 0 <= j <= |list|
        invariant RegExcluded(list, phys) == RegExcluded(list[j..], phys)
      {
        assert list[j..][1..] == list[j + 1..];
        if list[j].addr == 0 {
          return false;
        }
        if list[j].addr <= phys <= U64(list[j].addr + list[j].size) {
          return true;
        }
        j := j + 1;
      }
      return false;
    }

    /**
     * `exynos_ss_reg`: a register access, by its physical address `phys`
     * (the translation of the virtual address, 0 when it has none). Nothing
     * is logged when the exclusion list is empty (its first address is 0),
     * when the address has no translation, or when a listed range holds it.
     */
    method Reg(cpu: nat, time: int, read: Uint32, val: Uint64, phys: Uint64, en: int, callers: Callers)
      requires Valid() && cpu < NR_CPUS
      modifies log, log.areas[REG]
      ensures Valid()
      ensures var open := Recording(true) && flt.regExlist[0].addr != 0 && phys != 0 && !RegExcluded(flt.regExlist, phys);
        var prev := CallersOf(Next(old(log.View(REG)), cpu));
        log.View(REG) == LoggedIf(open, old(log.View(REG)), cpu,
          RegLog(time, read, val, phys, en, Overlay(prev, callers, desc.callstack)))
      ensures forall d: Category :: d != REG ==> log.View(d) == old(log.View(d))
    {
      if !Recording(true) || flt.regExlist[0].addr == 0 || phys == 0 {
        return;
      }
      var listed := RegListed(phys);
      if listed {
        return;
      }
      var cs := FillCallers(CallersOf(log.Upcoming(REG, cpu)), callers);
      log.Log(REG, cpu, RegLog(time, read, val, phys, en, cs));
    }

    /** The gate of the header helpers: the event log was reserved at boot. */
    function KeventsOn(): bool
      reads this
    {
      SnapshotItems.GetEnable(base.enabled, items, "log_kevents", true) != 0
    }

    /** `exynos_ss_get_core_panic_stat`: the CPU's panic word, or 0 when the gate is shut. */
    function CorePanicStat(cpu: nat): (r: Uint32)
      requires cpu < hdr.panicStat.Length
      reads this, hdr.panicStat
      ensures KeventsOn() ==> r == hdr.panicStat[cpu]
      ensures !KeventsOn() ==> r == 0
    {
      if KeventsOn() then hdr.panicStat[cpu] else 0
    }

    /** `exynos_ss_set_core_panic_stat`: the CPU's panic word written through the gate. */
    method SetCorePanicStat(val: Uint32, cpu: nat)
      requires Valid() && cpu < NR_CPUS
      modifies hdr.panicStat
      ensures hdr.panicStat[..] == if KeventsOn() then old(hdr.panicStat[..])[cpu := val] else old(hdr.panicStat[..])
      ensures CorePanicStat(cpu) == if KeventsOn() then val else 0
    {
      var k := GetEnable("log_kevents", true);
      if k != 0 {
        hdr.panicStat[cpu] := val;
      }
    }

    /** `exynos_ss_scratch_reg`: the scratch word, written when the event log or a separate header was reserved. */
    method ScratchReg(val: Uint32)
      requires Valid()
      modifies hdr
      ensures Valid()
      ensures hdr.scratch == if KeventsOn() || desc.needHeader then val else old(hdr.scratch)
      ensures hdr.lastLogbuf == old(hdr.lastLogbuf) && hdr.reason == old(hdr.reason)
      ensures hdr.stamp == old(hdr.stamp) && hdr.captured == old(hdr.captured)
    {
      var k := GetEnable("log_kevents", true);
      if k != 0 || desc.needHeader {
        hdr.scratch := val;
      }
    }

    /** `exynos_ss_report_reason`: the emergency reason word, written through the gate. */
    method ReportReason(val: Uint32)
      requires Valid()
      modifies hdr
      ensures Valid()
      ensures hdr.reason == if KeventsOn() then val else old(hdr.reason)
      ensures hdr.scratch == old(hdr.scratch) && hdr.lastLogbuf == old(hdr.lastLogbuf)
      ensures hdr.stamp == old(hdr.stamp) && hdr.captured == old(hdr.captured)
    {
      var k := GetEnable("log_kevents", true);
      if k != 0 {
        hdr.reason := val;
      }
    }

    /**
     * `exynos_ss_save_context` on the current CPU: unless the CPU's panic
     * word already reads PANIC, its registers are captured (the capture is
     * recorded as the CPU number) and its word set to PANIC. Nothing happens
     * while the framework is off.
     */
    method SaveContext(cpu: nat)
      requires Valid() && cpu < NR_CPUS
      modifies hdr, hdr.panicStat
      ensures Valid()
      ensures (hdr.panicStat[..], hdr.captured) ==
        SaveContextOn(old(hdr.panicStat[..]), old(hdr.captured), base.enabled != 0, KeventsOn(), cpu)
      ensures hdr.scratch == old(hdr.scratch) && hdr.lastLogbuf == old(hdr.lastLogbuf)
      ensures hdr.reason == old(hdr.reason) && hdr.stamp == old(hdr.stamp)
    {
      if base.enabled == 0 {
        return;
      }
      if CorePanicStat(cpu) != SIGN_PANIC {
        hdr.captured := hdr.captured + [cpu];
        SetCorePanicStat(SIGN_PANIC, cpu);
      }
    }

    /** The loop of `exynos_ss_post_reboot` over the possible CPUs. */
    method ResetPanicStats(nums: seq<nat>)
      requires Valid() && forall i :: 0 <= i < |nums| ==> nums[i] < NR_CPUS
      modifies hdr.panicStat
      ensures hdr.panicStat[..] == ResetStats(old(hdr.panicStat[..]), nums, KeventsOn())
    {
      var i := 0;
      while i < |nums|
        invariant 0 <= i <= |nums|
        invariant hdr.panicStat[..] == ResetStats(old(hdr.panicStat[..]), nums[..i], KeventsOn())
      {
        assert nums[..i + 1][..i] == nums[..i];
        SetCorePanicStat(SIGN_RESET, Flip4(nums[i]));
        i := i + 1;
      }
      assert nums[..i] == nums;
    }

    /**
     * `exynos_ss_post_reboot` on CPU `cpu`: the panic word of every possible
     * CPU reset (`nums` holds each possible CPU's number from its MPIDR, and
     * the word written is the one of that number with bit 2 flipped), the
     * reason set to NORMAL_REBOOT, the scratch word reset, and then the
     * context of the rebooting CPU saved.
     */
    method PostReboot(cpu: nat, nums: seq<nat>)
      requires Valid() && cpu < NR_CPUS
      requires forall i :: 0 <= i < |nums| ==> nums[i] < NR_CPUS
      modifies hdr, hdr.panicStat
      ensures Valid()
      ensures base.enabled == 0 ==>
        hdr.panicStat[..] == old(hdr.panicStat[..]) && hdr.captured == old(hdr.captured) &&
        hdr.reason == old(hdr.reason) && hdr.scratch == old(hdr.scratch)
      ensures base.enabled != 0 ==>
        (hdr.panicStat[..], hdr.captured) ==
          SaveContextOn(ResetStats(old(hdr.panicStat[..]), nums, KeventsOn()), old(hdr.captured), true, KeventsOn(), cpu) &&
        hdr.reason == (if KeventsOn() then SIGN_NORMAL_REBOOT else old(hdr.reason)) &&
        hdr.scratch == (if KeventsOn() || desc.needHeader then SIGN_RESET else old(hdr.scratch))
      ensures hdr.lastLogbuf == old(hdr.lastLogbuf) && hdr.stamp == old(hdr.stamp)
    {
      if base.enabled == 0 {
        return;
      }
      ResetPanicStats(nums);
      ReportReason(SIGN_NORMAL_REBOOT);
      ScratchReg(SIGN_RESET);
      SaveContext(cpu);
    }

    /**
     * `exynos_ss_dump_panic`: with the framework and the gate on, a present
     * string of 1 to 1023 bytes is copied to the start of the header's panic
     * string area; the rest of the area keeps its bytes.
     */
    method DumpPanic(str: Option<seq<Byte>>, len: nat) returns (r: int)
      requires Valid() && (str.Some? ==> len <= |str.value|)
      modifies hdr.panicString
      ensures r == 0
      ensures var copied := base.enabled != 0 && KeventsOn() && str.Some? && 0 < len < PANIC_STRING_LEN;
        hdr.panicString[..] == if copied then str.value[..len] + old(hdr.panicString[..])[len..] else old(hdr.panicString[..])
    {
      var k := GetEnable("log_kevents", true);
      if base.enabled == 0 || k == 0 {
        return 0;
      }
      if str.Some? && len != 0 && len < PANIC_STRING_LEN {
        forall j | 0 <= j < len {
          hdr.panicString[j] := str.value[j];
        }
        assert hdr.panicString[..] == str.value[..len] + old(hdr.panicString[..])[len..];
      }
      return 0;
    }

    /**
     * One chunk appended to byte-stream item i: `exynos_ss_check_eob` and
     * the reset to the head, the `memcpy` and the cursor update that every
     * writer of a byte-stream item repeats.
     */
    method AppendChunk(i: nat, buf: seq<Byte>)
      requires TableShaped(items) && ItemsLaid(items, vaBase) && mem.Length == RESERVED
      requires i < NUM_ITEMS && |buf| <= items[i].size
      modifies this`items, mem
      ensures TableShaped(items) && ItemsLaid(items, vaBase)
      ensures items == old(items)[i := old(items)[i].(curr := items[i].curr)]
      ensures (mem[..], items[i].curr) == Append(old(mem[..]), vaBase, items[i].head, old(items[i].curr), items[i].size, buf)
    {
      TableLayout(items);
      var c := AppendBytes(items[i].head, items[i].size, items[i].curr, buf);
      CursorMoveKeepsLayout(items, vaBase, i, c);
      items := items[i := items[i].(curr := c)];
    }

    /** The append on an item given by its head, size and cursor; the new cursor is returned. */
    method AppendBytes(head: int, size: nat, curr: int, buf: seq<Byte>) returns (c: int)
      requires CursorIn(mem[..], vaBase, head, curr, size) && |buf| <= size
      modifies mem
      ensures (mem[..], c) == Append(old(mem[..]), vaBase, head, curr, size, buf)
    {
      var at := if curr + |buf| > head + size then head else curr;
      ghost var before := mem[..];
      assert Append(before, vaBase, head, curr, size, buf) == (Write(before, at - vaBase, buf), at + |buf|);
      CopyChunk(at - vaBase, buf);
      c := at + |buf|;
    }

    /** The `memcpy` of a chunk into the reserved memory. */
    method CopyChunk(at: nat, buf: seq<Byte>)
      requires at + |buf| <= mem.Length
      modifies mem
      ensures mem[..] == Write(old(mem[..]), at, buf)
    {
      forall k | 0 <= k < |buf| {
        mem[at + k] := buf[k];
      }
      assert mem[..] == Write(old(mem[..]), at, buf);
    }

    /**
     * `exynos_ss_hook_logbuf`, the hook printk calls with each chunk of the
     * kernel log: with the framework flag and the kernel log's flag both
     * exactly 1, the chunk is appended to the kernel log and the cursor's
     * physical address is saved in the LAST_LOGBUF word.
     */
    method HookLogbuf(buf: seq<Byte>)
      requires Valid() && Reserved() && |buf| <= items[desc.nums.kernel].size
      modifies this`items, mem, hdr
      ensures Valid()
      ensures hdr.scratch == old(hdr.scratch) && hdr.reason == old(hdr.reason)
      ensures hdr.stamp == old(hdr.stamp) && hdr.captured == old(hdr.captured)
      ensures var k := desc.nums.kernel;
        if base.enabled == 1 && old(items[k].enabled) == 1 then
          items == old(items)[k := old(items)[k].(curr := items[k].curr)] &&
          (mem[..], items[k].curr) == Append(old(mem[..]), vaBase, items[k].head, old(items[k].curr), items[k].size, buf) &&
          hdr.lastLogbuf == SavedLastBuf(items[k].curr, items[k].paddr, items[k].size)
        else
          items == old(items) && mem[..] == old(mem[..]) && hdr.lastLogbuf == old(hdr.lastLogbuf)
    {
      var k := desc.nums.kernel;
      if base.enabled == 1 && items[k].enabled == 1 {
        AppendChunk(k, buf);
        hdr.lastLogbuf := SavedLastBuf(items[k].curr, items[k].paddr, items[k].size);
      }
    }

    /**
     * `exynos_ss_hook_logger`, the hook the Android logger calls: the chunk
     * goes to the first item from `log_platform` on whose name starts with
     * `name`, under the same flags as the kernel log; no such item, no write.
     */
    method HookLogger(name: string, buf: seq<Byte>)
      requires Valid() && Reserved()
      requires var f := Find(items, name, desc.nums.platform); f.Some? ==> |buf| <= items[f.value].size
      modifies this`items, mem
      ensures Valid()
      ensures var f := Find(old(items), name, desc.nums.platform);
        if f.Some? && base.enabled == 1 && old(items[f.value].enabled) == 1 then
          var k := f.value;
          items == old(items)[k := old(items)[k].(curr := items[k].curr)] &&
          (mem[..], items[k].curr) == Append(old(mem[..]), vaBase, items[k].head, old(items[k].curr), items[k].size, buf)
        else
          items == old(items) && mem[..] == old(mem[..])
    {
      var f := FindItem(name, desc.nums.platform);
      if f.None? {
        return;
      }
      if base.enabled == 1 && items[f.value].enabled == 1 {
        AppendChunk(f.value, buf);
      }
    }

    /**
     * The inner loop of `exynos_ss_dump_sfr`: one line per register of the
     * block appended to the `log_sfr` item (given by its head, size and
     * cursor), up to `num` entries or the first entry that stops the walk.
     */
    method AppendLines(head: int, size: nat, curr: int, b: SfrBlock, sfr: Uint32 -> Uint32) returns (c: int)
      requires CursorIn(mem[..], vaBase, head, curr, size) && size >= 24
      modifies mem
      ensures (mem[..], c) == AppendAll(old(mem[..]), vaBase, head, curr, size, BlockLines(b, sfr, 0))
    {
      ghost var target := AppendAll(mem[..], vaBase, head, curr, size, BlockLines(b, sfr, 0));
      c := curr;
      var j := 0;
      while j < b.num
        invariant j <= b.num && CursorIn(mem[..], vaBase, head, c, size)
        invariant AppendAll(mem[..], vaBase, head, c, size, BlockLines(b, sfr, j)) == target
      {
        if Stops(b, j) {
          break;
        }
        var line := LineBytes(b.addrs[j], sfr(b.addrs[j]));
        ghost var m0 := mem[..];
        assert BlockLines(b, sfr, j) == [line] + BlockLines(b, sfr, j + 1);
        AppendAllConcat(m0, vaBase, head, c, size, [line], BlockLines(b, sfr, j + 1));
        assert AppendAll(m0, vaBase, head, c, size, [line]) == Append(m0, vaBase, head, c, size, line)
          by { var one: seq<seq<Byte>> := [line]; assert one[..0] == []; }
        c := AppendBytes(head, size, c, line);
        j := j + 1;
      }
    }

    /** The outer loop of `exynos_ss_dump_sfr`: the lines of every block, block after block. */
    method AppendBlocks(head: int, size: nat, curr: int, blocks: seq<SfrBlock>, sfr: Uint32 -> Uint32) returns (c: int)
      requires CursorIn(mem[..], vaBase, head, curr, size) && size >= 24
      modifies mem
      ensures (mem[..], c) == AppendAll(old(mem[..]), vaBase, head, curr, size, DumpLines(blocks, sfr))
    {
      c := curr;
      var k := 0;
      while k < |blocks|
        invariant 0 <= k <= |blocks| && CursorIn(mem[..], vaBase, head, c, size)
        invariant (mem[..], c) == AppendAll(old(mem[..]), vaBase, head, curr, size, DumpLines(blocks[..k], sfr))
      {
        assert blocks[..k + 1][..k] == blocks[..k];
        AppendAllConcat(old(mem[..]), vaBase, head, curr, size, DumpLines(blocks[..k], sfr), BlockLines(blocks[k], sfr, 0));
        c := AppendLines(head, size, c, blocks[k], sfr);
        k := k + 1;
      }
      assert blocks[..k] == blocks;
    }

    /**
     * `exynos_ss_dump_sfr`: with the framework on, at least one block
     * described and the `log_sfr` item enabled, the lines of every block,
     * block after block, appended to the item; otherwise nothing changes.
     * `sfr` gives the value each register holds.
     */
    method DumpSfr(sfr: Uint32 -> Uint32)
      requires Valid() && Reserved()
      modifies this`items, mem
      ensures Valid()
      ensures var s := desc.nums.sfr;
        if base.enabled != 0 && desc.sfrBlocks != [] && old(items[s].enabled) != 0 then
          items == old(items)[s := old(items)[s].(curr := items[s].curr)] &&
          (mem[..], items[s].curr) ==
            AppendAll(old(mem[..]), vaBase, items[s].head, old(items[s].curr), items[s].size, DumpLines(desc.sfrBlocks, sfr))
        else
          items == old(items) && mem[..] == old(mem[..])
    {
      var s := desc.nums.sfr;
      if base.enabled == 0 || desc.sfrBlocks == [] || items[s].enabled == 0 {
        return;
      }
      TableLayout(items);
      var it := items[s];
      var c := AppendBlocks(it.head, it.size, it.curr, desc.sfrBlocks, sfr);
      CursorMoveKeepsLayout(items, vaBase, s, c);
      items := items[s := items[s].(curr := c)];
    }

    /**
     * `exynos_ss_post_panic` up to the point where the CPU stops or the
     * board restarts: with the framework on, the SFR dump and then the
     * context of the panicking CPU saved. The result says whether the
     * secure-region dump is then requested (the scratch word reads
     * SIGN_SCRATCH).
     */
    method PostPanic(cpu: nat, sfr: Uint32 -> Uint32) returns (secureDump: bool)
      requires Valid() && Reserved() && cpu < NR_CPUS
      modifies this`items, mem, hdr, hdr.panicStat
      ensures Valid()
      ensures secureDump == (base.enabled != 0 && hdr.scratch == SIGN_SCRATCH)
      ensures var s := desc.nums.sfr;
        if base.enabled != 0 && desc.sfrBlocks != [] && old(items[s].enabled) != 0 then
          items == old(items)[s := old(items)[s].(curr := items[s].curr)] &&
          (mem[..], items[s].curr) ==
            AppendAll(old(mem[..]), vaBase, items[s].head, old(items[s].curr), items[s].size, DumpLines(desc.sfrBlocks, sfr))
        else
          items == old(items) && mem[..] == old(mem[..])
      ensures (hdr.panicStat[..], hdr.captured) ==
        SaveContextOn(old(hdr.panicStat[..]), old(hdr.captured), base.enabled != 0, KeventsOn(), cpu)
      ensures hdr.scratch == old(hdr.scratch) && hdr.lastLogbuf == old(hdr.lastLogbuf) && hdr.reason == old(hdr.reason)
    {
      if base.enabled == 0 {
        return false;
      }
      DumpSfr(sfr);
      SaveContext(cpu);
      secureDump := hdr.scratch == SIGN_SCRATCH;
    }

    /**
     * `exynos_ss_fixmap_header`: the base descriptor copied to the start of
     * the header and, with the event log reserved, every counter set back to
     * -1 and everything after the first 768 bytes of the event-log item
     * cleared: the reason and panic words, the panic string, the captured
     * registers, the event log and the item's bytes. The scratch and
     * LAST_LOGBUF words, in the first 768 bytes, survive.
     */
    method FixmapHeader()
      requires Valid() && Reserved()
      modifies hdr, hdr.panicStat, hdr.panicString, log, log.areas, mem
      ensures Valid()
      ensures hdr.stamp == base && hdr.scratch == old(hdr.scratch) && hdr.lastLogbuf == old(hdr.lastLogbuf)
      ensures KeventsOn() ==>
        log.AllCleared() && hdr.reason == 0 && hdr.captured == [] &&
        hdr.panicStat[..] == Zeros(NR_CPUS) && hdr.panicString[..] == Zeros(PANIC_STRING_LEN) &&
        mem[..] == Write(old(mem[..]), KEEP_HEADER_SZ, Zeros(items[0].size - KEEP_HEADER_SZ))
      ensures !KeventsOn() ==>
        hdr.reason == old(hdr.reason) && hdr.captured == old(hdr.captured) && hdr.panicStat[..] == old(hdr.panicStat[..]) &&
        hdr.panicString[..] == old(hdr.panicString[..]) && mem[..] == old(mem[..])
    {
      hdr.stamp := base;
      var k := GetEnable("log_kevents", true);
      if k == 0 {
        return;
      }
      log.ClearAll();
      ClearHeader();
      TableLayout(items);
      CopyChunk(KEEP_HEADER_SZ, Zeros(items[0].size - KEEP_HEADER_SZ));
    }

    /** The part of the `memset` of `exynos_ss_fixmap_header` that falls on the header's words and areas. */
    method ClearHeader()
      requires hdr.Valid()
      modifies hdr, hdr.panicStat, hdr.panicString
      ensures hdr.Valid() && hdr.reason == 0 && hdr.captured == []
      ensures hdr.panicStat[..] == Zeros(NR_CPUS) && hdr.panicString[..] == Zeros(PANIC_STRING_LEN)
      ensures hdr.stamp == old(hdr.stamp) && hdr.scratch == old(hdr.scratch) && hdr.lastLogbuf == old(hdr.lastLogbuf)
    {
      hdr.reason := 0;
      hdr.captured := [];
      forall c | 0 <= c < NR_CPUS {
        hdr.panicStat[c] := 0;
      }
      forall j | 0 <= j < PANIC_STRING_LEN {
        hdr.panicString[j] := 0;
      }
    }

    /** One pass of the loop of `exynos_ss_fixmap`: item i's cursor fixed and its bytes cleared when `Wiped` says so. */
    method FixmapItem(i: nat, last: Uint32)
      requires TableShaped(items) && ItemsLaid(items, vaBase) && mem.Length == RESERVED && vaBase % SZ_2M == 0
      requires 1 <= i < NUM_ITEMS
      modifies this`items, mem
      ensures TableShaped(items) && ItemsLaid(items, vaBase)
      ensures items == old(items)[i := Fixed(old(items)[i], last)]
      ensures mem[..] == if Wiped(old(items)[i], last) then Write(old(mem[..]), items[i].vaddr - vaBase, Zeros(items[i].size))
        else old(mem[..])
    {
      TableLayout(items);
      var it := items[i];
      if it.enabledInit == 0 {
        return;
      }
      if it.name <= "log_kernel" {
        KernelOnlyPrefix(items, i);
        assert it.vaddr % it.size == 0;
        RestoredInside(last, it.paddr, it.vaddr, it.size);
        match RestoredCurr(last, it.paddr, it.vaddr, it.size)
        case Some(c) =>
          CursorMoveKeepsLayout(items, vaBase, i, c);
          items := items[i := items[i].(curr := c)];
        case None =>
          CursorMoveKeepsLayout(items, vaBase, i, it.vaddr);
          items := items[i := items[i].(curr := it.vaddr)];
          CopyChunk(it.vaddr - vaBase, Zeros(it.size));
      } else if !it.persist {
        CopyChunk(it.vaddr - vaBase, Zeros(it.size));
      }
    }

    /** The loop of `exynos_ss_fixmap` over the items after the event log, with `last` the LAST_LOGBUF word. */
    method FixmapItems(last: Uint32)
      requires Settled() && Reserved()
      modifies this`items, mem
      ensures Settled()
      ensures items == FixedItems(old(items), last)
      ensures mem[..] == FixmapMem(old(mem[..]), old(items), vaBase, last, NUM_ITEMS)
    {
      var i := 1;
      while i < NUM_ITEMS
        invariant 1 <= i <= NUM_ITEMS && TableShaped(items) && ItemsLaid(items, vaBase)
        invariant forall k :: 1 <= k < i ==> items[k] == Fixed(old(items)[k], last)
        invariant forall k :: 0 <= k < NUM_ITEMS && (k == 0 || i <= k) ==> items[k] == old(items)[k]
        invariant mem[..] == FixmapMem(old(mem[..]), old(items), vaBase, last, i)
      {
        FixmapItem(i, last);
        i := i + 1;
      }
      assert items == FixedItems(old(items), last);
    }

    /**
     * `exynos_ss_fixmap`: the header prepared, then each reserved item after
     * the event log fixed. Every counter reads -1 and the header's words
     * after the first 768 bytes read 0 (the gate is always open for the
     * table, see `KeventsAlwaysOn`); the kernel log's cursor is restored
     * from the LAST_LOGBUF word when it points into the log, and the cleared
     * items are those `Wiped` names.
     */
    method Fixmap()
      requires Valid() && Reserved()
      modifies this`items, mem, hdr, hdr.panicStat, hdr.panicString, log, log.areas
      ensures Valid()
      ensures hdr.stamp == base && hdr.scratch == old(hdr.scratch) && hdr.lastLogbuf == old(hdr.lastLogbuf)
      ensures log.AllCleared() && hdr.reason == 0 && hdr.captured == []
      ensures hdr.panicStat[..] == Zeros(NR_CPUS) && hdr.panicString[..] == Zeros(PANIC_STRING_LEN)
      ensures items == FixedItems(old(items), hdr.lastLogbuf)
      ensures mem[..] == FixmapMem(Write(old(mem[..]), KEEP_HEADER_SZ, Zeros(old(items)[0].size - KEEP_HEADER_SZ)),
        old(items), vaBase, hdr.lastLogbuf, NUM_ITEMS)
    {
      KeventsAlwaysOn(base.enabled, items);
      FixmapHeader();
      FixmapItems(hdr.lastLogbuf);
    }

    /**
     * `exynos_ss_init`, the early initcall: when setup placed the memory
     * (virtual and physical base both non-zero), the memory fixed up, the
     * SFR blocks the device tree describes recorded (`blocks`, in list
     * order), the scratch word set to SIGN_SCRATCH, the framework switched
     * on at time `now` and the hooks registered. Otherwise nothing changes.
     */
    method Init(blocks: seq<SfrBlock>, now: int)
      requires Valid()
      modifies this, mem, hdr, hdr.panicStat, hdr.panicString, log, log.areas
      ensures Valid()
      ensures !(old(base.vaddr) != 0 && old(base.paddr) != 0) ==>
        unchanged(this, hdr, hdr.panicStat, hdr.panicString, log) && mem[..] == old(mem[..]) &&
        forall c: Category :: log.View(c) == old(log.View(c))
      ensures old(base.vaddr) != 0 && old(base.paddr) != 0 ==>
        base == old(base).(enabled := 1) && hooked && desc == old(desc).(sfrBlocks := blocks) &&
        hdr.stamp == old(base) && hdr.scratch == SIGN_SCRATCH && hdr.lastLogbuf == old(hdr.lastLogbuf) &&
        log.AllCleared() && hdr.reason == 0 && hdr.captured == [] &&
        hdr.panicStat[..] == Zeros(NR_CPUS) && hdr.panicString[..] == Zeros(PANIC_STRING_LEN) &&
        items == FixedItems(old(items), hdr.lastLogbuf) &&
        mem[..] == FixmapMem(Write(old(mem[..]), KEEP_HEADER_SZ, Zeros(old(items)[0].size - KEEP_HEADER_SZ)),
          old(items), vaBase, hdr.lastLogbuf, NUM_ITEMS)
    {
      if base.vaddr == 0 || base.paddr == 0 {
        return;
      }
      Fixmap();
      desc := desc.(sfrBlocks := blocks);
      ScratchReg(SIGN_SCRATCH);
      KeventsAlwaysOn(base.enabled, items);
      var _ := SetEnable("base", 1, now);
      hooked := true;
    }

    /**
     * `ess_enable_store`: the name written (see `EnableName`) switches the
     * item it names, or the framework for any prefix of "base", to the
     * opposite of its current flag; an unknown name changes nothing. The
     * whole write is consumed.
     */
    method EnableStore(buf: string, now: int) returns (r: nat)
      requires Valid() && |buf| >= 1
      modifies this
      ensures Valid() && r == |buf| && desc == old(desc) && mem == old(mem) && hooked == old(hooked)
      ensures var name := EnableName(buf);
        var en := SnapshotItems.GetEnable(old(base.enabled), old(items), name, false);
        var flip := if en != 0 then 0 else 1;
        if en == -1 then base == old(base) && items == old(items)
        else if name <= "base" then base == old(base).(enabled := flip) && items == old(items)
        else base == old(base) && items == SetEnabled(old(items), name, flip, now)
    {
      var name := EnableName(buf);
      var en := GetEnable(name, false);
      if en != -1 {
        var _ := SetEnable(name, if en != 0 then 0 else 1, now);
      }
      return |buf|;
    }

    /** `ess_callstack_store`: a depth from 1 to 4 is taken, any other value ignored. */
    method CallstackStore(v: Uint64)
      requires Valid()
      modifies this
      ensures Valid() && base == old(base) && items == old(items) && mem == old(mem) && hooked == old(hooked)
      ensures desc == if 0 < v < 5 then old(desc).(callstack := v) else old(desc)
    {
      if v < 5 && v > 0 {
        desc := desc.(callstack := v);
      }
    }

    /** `ess_irqlog_exlist_store`: see `IrqExlistStored`; the result says whether the list was full. */
    method IrqlogExlistStore(irq: Uint64) returns (full: bool)
      requires Valid()
      modifies flt
      ensures Valid()
      ensures (flt.irqlogExlist, full) == IrqExlistStored(old(flt.irqlogExlist), irq)
      ensures flt.irqexitExlist == old(flt.irqexitExlist) && flt.irqexitThreshold == old(flt.irqexitThreshold)
      ensures flt.regExlist == old(flt.regExlist)
    {
      var i := ZeroIndex(flt.irqlogExlist);
      if i == |flt.irqlogExlist| {
        return true;
      }
      if irq != 0 {
        flt.irqlogExlist := flt.irqlogExlist[i := I32(irq)];
      }
      return false;
    }

    /** `ess_irqexit_exlist_store`: the same store on the irq_exit list. */
    method IrqexitExlistStore(irq: Uint64) returns (full: bool)
      requires Valid()
      modifies flt
      ensures Valid()
      ensures (flt.irqexitExlist, full) == IrqExlistStored(old(flt.irqexitExlist), irq)
      ensures flt.irqlogExlist == old(flt.irqlogExlist) && flt.irqexitThreshold == old(flt.irqexitThreshold)
      ensures flt.regExlist == old(flt.regExlist)
    {
      var i := ZeroIndex(flt.irqexitExlist);
      if i == |flt.irqexitExlist| {
        return true;
      }
      if irq != 0 {
        flt.irqexitExlist := flt.irqexitExlist[i := I32(irq)];
      }
      return false;
    }

    /** `ess_irqexit_threshold_store`: a non-zero value becomes the threshold, as an `unsigned int`. */
    method ThresholdStore(val: Uint64)
      requires Valid()
      modifies flt
      ensures Valid()
      ensures flt.irqexitThreshold == if val != 0 then U32(val) else old(flt.irqexitThreshold)
      ensures flt.irqlogExlist == old(flt.irqlogExlist) && flt.irqexitExlist == old(flt.irqexitExlist)
      ensures flt.regExlist == old(flt.regExlist)
    {
      if val != 0 {
        flt.irqexitThreshold := U32(val);
      }
    }

    /**
     * `ess_reg_exlist_store` with the full-list check (see
     * `RegExlistStored`; the store as written is `RegStoreSlotAsWritten`).
     */
    method RegExlistStore(addr: Uint64) returns (full: bool)
      requires Valid()
      modifies flt
      ensures Valid()
      ensures (flt.regExlist, full) == RegExlistStored(old(flt.regExlist), addr)
      ensures flt.irqlogExlist == old(flt.irqlogExlist) && flt.irqexitExlist == old(flt.irqexitExlist)
      ensures flt.irqexitThreshold == old(flt.irqexitThreshold)
    {
      var i := FreeIndex(flt.regExlist);
      if i == |flt.regExlist| {
        return true;
      }
      if addr != 0 {
        flt.regExlist := flt.regExlist[i := RegRange(addr, SZ_4K)];
      }
      return false;
    }
  }

  /** The search loop of the IRQ exclusion-list stores. */
  method ZeroIndex(list: seq<int>) returns (i: nat)
    ensures i == FirstZero(list)
  {
    i := 0;
    while i < |list|
      invariant i <= |list| && FirstZero(list) == i + FirstZero(list[i..])
    {
      if list[i] == 0 {
        return;
      }
      assert list[i..][1..] == list[i + 1..];
      i := i + 1;
    }
  }

  /** The search loop of `ess_reg_exlist_store`. */
  method FreeIndex(list: seq<RegRange>) returns (i: nat)
    ensures i == FirstFree(list)
  {
    i := 0;
    while i < |list|
      invariant i <= |list| && FirstFree(list) == i + FirstFree(list[i..])
    {
      if list[i].addr == 0 {
        return;
      }
      assert list[i..][1..] == list[i + 1..];
      i := i + 1;
    }
  }
}
