/**
 * The item registry and the boot-time memory layout of exynos-snapshot.
 *
 * `ess_items` lists the reserved areas: the event log with its header
 * (`log_kevents`) and the byte-stream logs (kernel, platform, SFR, pstore,
 * ETM). Items are looked up by name with `strncmp(item, name, strlen(name))`,
 * that is: the first item whose name starts with the given name. At boot,
 * `exynos_ss_setup` adds up the sizes of the items to reserve and
 * `exynos_ss_remap` places them one after another; the byte-stream logs are
 * written through a cursor that goes back to the head when the next chunk
 * would not fit, and the kernel log's cursor survives a reboot through the
 * `LAST_LOGBUF` word of the header.
 *
 * Names are strings without their terminating NUL; addresses are
 * non-negative integers.
 */
module SnapshotItems {
  import opened CInt
  import opened Wrappers

  const SZ_4K: nat := 0x1000
  const SZ_2M: nat := 0x20_0000
  const SZ_4M: nat := 0x40_0000
  const SZ_8M: nat := 0x80_0000
  /** ESS_HEADER_ALLOC_SZ: the area reserved for the header alone when the event log is not. */
  const HEADER_ALLOC_SZ: nat := SZ_2M
  /** ESS_KEEP_HEADER_SZ: the part of the header that survives `exynos_ss_fixmap_header`. */
  const KEEP_HEADER_SZ: nat := 768

  /** `struct exynos_ss_item` with its `struct exynos_ss_base` entry flattened. */
  datatype Item = Item(
    name: string,
    size: nat,
    vaddr: int,
    paddr: int,
    persist: bool,
    enabled: Uint32,
    enabledInit: Uint32,
    head: int,
    curr: int,
    time: int)

  function Unplaced(name: string, size: nat, persist: bool): Item
  {
    Item(name, size, 0, 0, persist, 1, 1, 0, 0, 0)
  }

  /** The table as built without CONFIG_EXYNOS_SNAPSHOT_MINIMIZED_MODE, every optional item configured. */
  const TABLE: seq<Item> := [
    Unplaced("log_kevents", SZ_8M, false),
    Unplaced("log_kernel", SZ_2M, false),
    Unplaced("log_platform", SZ_4M, false),
    Unplaced("log_sfr", SZ_4M, false),
    Unplaced("log_pstore", SZ_2M, true),
    Unplaced("log_etm", SZ_8M, true)]

  const NUM_ITEMS: nat := 6

  function Names(items: seq<Item>): (ns: seq<string>)
    ensures |ns| == |items| && forall i :: 0 <= i < |items| ==> ns[i] == items[i].name
  {
    seq(|items|, i requires 0 <= i < |items| => items[i].name)
  }

  /**
   * The first item at or after `from` whose name starts with `name`: the
   * lookup loop shared by the getters, the enable API and the logger hook.
   */
  function Find(items: seq<Item>, name: string, from: nat): (r: Option<nat>)
    ensures r.Some? ==> from <= r.value < |items| && name <= items[r.value].name
    ensures r.Some? ==> forall j :: from <= j < r.value ==> !(name <= items[j].name)
    ensures r.None? ==> forall j :: from <= j < |items| ==> !(name <= items[j].name)
    decreases |items| - from
  {
    if from >= |items| then None
    else if name <= items[from].name then Some(from)
    else Find(items, name, from + 1)
  }

  /** The lookup depends on the names alone. */
  lemma {:induction false} FindByNames(a: seq<Item>, b: seq<Item>, name: string, from: nat)
    requires Names(a) == Names(b)
    ensures Find(a, name, from) == Find(b, name, from)
    decreases |a| - from
  {
    if from < |a| {
      assert a[from].name == Names(a)[from] == Names(b)[from] == b[from].name;
      FindByNames(a, b, name, from + 1);
    }
  }

  /** A name that differs from another at position k is not a prefix of it. */
  lemma NotPrefixAt(a: string, b: string, k: nat)
    requires k < |a| && k < |b| && a[k] != b[k]
    ensures !(a <= b)
  {
  }

  /** No name of the table starts an earlier name of the table. */
  lemma TableNamesApart()
    ensures !("log_kernel" <= "log_kevents")
    ensures !("log_platform" <= "log_kevents") && !("log_platform" <= "log_kernel")
    ensures !("log_sfr" <= "log_kevents") && !("log_sfr" <= "log_kernel") && !("log_sfr" <= "log_platform")
    ensures !("log_pstore" <= "log_kevents") && !("log_pstore" <= "log_kernel") && !("log_pstore" <= "log_platform")
    ensures !("log_pstore" <= "log_sfr")
    ensures !("log_etm" <= "log_kevents") && !("log_etm" <= "log_kernel") && !("log_etm" <= "log_platform")
    ensures !("log_etm" <= "log_sfr") && !("log_etm" <= "log_pstore")
  {
    NotPrefixAt("log_kernel", "log_kevents", 6);
    NotPrefixAt("log_platform", "log_kevents", 4);
    NotPrefixAt("log_platform", "log_kernel", 4);
    NotPrefixAt("log_sfr", "log_kevents", 4);
    NotPrefixAt("log_sfr", "log_kernel", 4);
    NotPrefixAt("log_sfr", "log_platform", 4);
    NotPrefixAt("log_pstore", "log_kevents", 4);
    NotPrefixAt("log_pstore", "log_kernel", 4);
    NotPrefixAt("log_pstore", "log_platform", 5);
    NotPrefixAt("log_pstore", "log_sfr", 4);
    NotPrefixAt("log_etm", "log_kevents", 4);
    NotPrefixAt("log_etm", "log_kernel", 4);
    NotPrefixAt("log_etm", "log_platform", 4);
    NotPrefixAt("log_etm", "log_sfr", 4);
    NotPrefixAt("log_etm", "log_pstore", 4);
  }

  /** An item matching the name with no match before it is what the lookup finds. */
  lemma {:induction false} FindFirst(items: seq<Item>, name: string, from: nat, k: nat)
    requires from <= k < |items| && name <= items[k].name
    requires forall j :: from <= j < k ==> !(name <= items[j].name)
    ensures Find(items, name, from) == Some(k)
    decreases k - from
  {
    if from < k {
      FindFirst(items, name, from + 1, k);
    }
  }

  /** The names of the table, in its order. */
  predicate TableNamed(items: seq<Item>)
  {
    |items| == NUM_ITEMS &&
    items[0].name == "log_kevents" && items[1].name == "log_kernel" && items[2].name == "log_platform" &&
    items[3].name == "log_sfr" && items[4].name == "log_pstore" && items[5].name == "log_etm"
  }

  lemma TableIsNamed()
    ensures TableNamed(TABLE)
  {
  }

  /** Renaming nothing keeps the table's names. */
  lemma NamedByNames(a: seq<Item>, b: seq<Item>)
    requires TableNamed(a) && Names(b) == Names(a)
    ensures TableNamed(b)
  {
    assert forall i :: 0 <= i < NUM_ITEMS ==> b[i].name == Names(b)[i] == Names(a)[i] == a[i].name;
  }

  /** The first three names of the table find their own item. */
  lemma TableLookupsLow(items: seq<Item>)
    requires TableNamed(items)
    ensures Find(items, "log_kevents", 0) == Some(0)
    ensures Find(items, "log_kernel", 0) == Some(1)
    ensures Find(items, "log_platform", 0) == Some(2)
    ensures Find(items, "log_platform", 2) == Some(2)
  {
    TableNamesApart();
    FindFirst(items, "log_kevents", 0, 0);
    FindFirst(items, "log_kernel", 0, 1);
    FindFirst(items, "log_platform", 0, 2);
    FindFirst(items, "log_platform", 2, 2);
  }

  /** The last three names of the table find their own item. */
  lemma TableLookupsHigh(items: seq<Item>)
    requires TableNamed(items)
    ensures Find(items, "log_sfr", 0) == Some(3)
    ensures Find(items, "log_pstore", 0) == Some(4)
    ensures Find(items, "log_etm", 0) == Some(5)
  {
    TableNamesApart();
    assert Find(items, "log_sfr", 3) == Some(3);
    assert Find(items, "log_sfr", 0) == Find(items, "log_sfr", 1) == Find(items, "log_sfr", 2) == Some(3);
    assert Find(items, "log_pstore", 4) == Some(4);
    assert Find(items, "log_pstore", 0) == Find(items, "log_pstore", 2) == Some(4);
    assert Find(items, "log_etm", 5) == Some(5);
    assert Find(items, "log_etm", 0) == Find(items, "log_etm", 3) == Some(5);
  }

  /**
   * `exynos_ss_get_enable`: the framework flag for any prefix of "base"
   * (the empty name included), otherwise the `enabled_init` or `enabled`
   * flag of the first matching item, or -1 when nothing matches. The flags
   * are `unsigned int` and the result an `int`.
   */
  function GetEnable(baseEnabled: Uint32, items: seq<Item>, name: string, init: bool): (r: int)
    ensures name <= "base" ==> r == I32(baseEnabled)
    ensures !(name <= "base") && Find(items, name, 0).None? ==> r == -1
    ensures !(name <= "base") && Find(items, name, 0).Some? ==>
      var it := items[Find(items, name, 0).value];
      r == I32(if init then it.enabledInit else it.enabled)
  {
    if name <= "base" then I32(baseEnabled)
    else match Find(items, name, 0)
      case None => -1
      case Some(i) => I32(if init then items[i].enabledInit else items[i].enabled)
  }

  /** `exynos_ss_get_item_size`: the size of the first matching item, 0 when none matches. */
  function GetItemSize(items: seq<Item>, name: string): (r: nat)
    ensures Find(items, name, 0).None? ==> r == 0
    ensures Find(items, name, 0).Some? ==> r == U32(items[Find(items, name, 0).value].size)
  {
    match Find(items, name, 0)
    case None => 0
    case Some(i) => U32(items[i].size)
  }

  /** `exynos_ss_get_item_paddr`: the physical address, truncated to the `unsigned int` it returns. */
  function GetItemPaddr(items: seq<Item>, name: string): (r: nat)
    ensures Find(items, name, 0).None? ==> r == 0
    ensures Find(items, name, 0).Some? ==> r == U32(items[Find(items, name, 0).value].paddr)
  {
    match Find(items, name, 0)
    case None => 0
    case Some(i) => U32(items[i].paddr)
  }

  /** The item loop of `exynos_ss_set_enable`: the first match gets the flag and the time stamp. */
  function SetEnabled(items: seq<Item>, name: string, en: int, now: int): (r: seq<Item>)
    ensures Names(r) == Names(items)
  {
    match Find(items, name, 0)
    case None => items
    case Some(i) => items[i := items[i].(enabled := U32(en), time := now)]
  }

  /**
   * What set_enable sets, get_enable reads back: after setting an item's
   * flag, `get_enable(name, false)` reports it, while `get_enable(name, true)`
   * still reports the boot-time flag.
   */
  lemma SetThenGet(baseEnabled: Uint32, items: seq<Item>, name: string, en: int, now: int)
    requires !(name <= "base") && Find(items, name, 0).Some?
    ensures GetEnable(baseEnabled, SetEnabled(items, name, en, now), name, false) == I32(en)
    ensures GetEnable(baseEnabled, SetEnabled(items, name, en, now), name, true) == GetEnable(baseEnabled, items, name, true)
  {
    FindByNames(SetEnabled(items, name, en, now), items, name, 0);
    I32OfU32(en);
  }

  /**
   * The item loop of `exynos_ss_try_enable`, once the framework and the
   * event log are known to be enabled: a disabled matching item is
   * re-enabled (result 1) when more than `duration` has passed since it was
   * disabled, measured in wrapping 64-bit time; otherwise it stays disabled
   * (result 0). An enabled match or no match gives -1.
   */
  function TryEnable(items: seq<Item>, name: string, duration: int, now: int): (r: (seq<Item>, int))
    ensures Names(r.0) == Names(items)
    ensures r.1 == 1 <==> Find(items, name, 0).Some? && items[Find(items, name, 0).value].enabled == 0 && U64(now - items[Find(items, name, 0).value].time) > duration
    ensures r.1 == 1 ==> r.0 == items[Find(items, name, 0).value := items[Find(items, name, 0).value].(enabled := 1)]
    ensures r.1 != 1 ==> r.0 == items
    ensures r.1 == 0 <==> Find(items, name, 0).Some? && items[Find(items, name, 0).value].enabled == 0 && U64(now - items[Find(items, name, 0).value].time) <= duration
  {
    match Find(items, name, 0)
    case None => (items, -1)
    case Some(i) =>
      if items[i].enabled != 0 then (items, -1)
      else if U64(now - items[i].time) > duration then (items[i := items[i].(enabled := 1)], 1)
      else (items, 0)
  }

  /** The indices of `struct exynos_ss_desc`, found by name in `exynos_ss_init_desc`. */
  datatype Desc = Desc(kevents: nat, kernel: nat, platform: nat, sfr: nat, pstore: nat, etm: nat)

  /**
   * One step of the init_desc loop: an item whose whole name starts the
   * target name sets that index (the earlier branches of the else-if chain
   * win).
   */
  function DescStep(d: Desc, name: string, i: nat): Desc
  {
    if name <= "log_kevents" then d.(kevents := i)
    else if name <= "log_kernel" then d.(kernel := i)
    else if name <= "log_platform" then d.(platform := i)
    else if name <= "log_sfr" then d.(sfr := i)
    else if name <= "log_pstore" then d.(pstore := i)
    else if name <= "log_etm" then d.(etm := i)
    else d
  }

  /** The indices after the first n items, starting from the zeroed descriptor. */
  function DescOf(names: seq<string>, n: nat): Desc
    requires n <= |names|
  {
    if n == 0 then Desc(0, 0, 0, 0, 0, 0) else DescStep(DescOf(names, n - 1), names[n - 1], n - 1)
  }

  /** For the table, every index is the position of its own item. */
  lemma DescOfTable()
    ensures DescOf(Names(TABLE), NUM_ITEMS) == Desc(0, 1, 2, 3, 4, 5)
  {
    var ns := Names(TABLE);
    assert ns == ["log_kevents", "log_kernel", "log_platform", "log_sfr", "log_pstore", "log_etm"];
    TableNamesApart();
    assert DescOf(ns, 1) == Desc(0, 0, 0, 0, 0, 0);
    assert DescOf(ns, 2) == Desc(0, 1, 0, 0, 0, 0);
    assert DescOf(ns, 3) == Desc(0, 1, 2, 0, 0, 0);
    assert DescOf(ns, 4) == Desc(0, 1, 2, 3, 0, 0);
    assert DescOf(ns, 5) == Desc(0, 1, 2, 3, 4, 0);
  }

  /** The descriptor init_desc builds for the table. */
  const TABLE_DESC: Desc := Desc(0, 1, 2, 3, 4, 5)

  /** A table with the names, sizes and flags of TABLE (only the addresses, cursors, run-time flags and times differ). */
  predicate TableShaped(items: seq<Item>)
  {
    |items| == NUM_ITEMS &&
    forall i :: 0 <= i < NUM_ITEMS ==>
      items[i].name == TABLE[i].name && items[i].size == TABLE[i].size && items[i].persist == TABLE[i].persist && items[i].enabledInit == 1
  }

  lemma TableIsShaped()
    ensures TableShaped(TABLE)
  {
  }

  lemma ShapedIsNamed(items: seq<Item>)
    requires TableShaped(items)
    ensures TableNamed(items)
  {
    TableIsNamed();
  }

  /** The names of a table-shaped item list are the table's. */
  lemma ShapedNames(items: seq<Item>)
    requires TableShaped(items)
    ensures Names(items) == Names(TABLE)
  {
    assert forall i :: 0 <= i < NUM_ITEMS ==> Names(items)[i] == items[i].name == TABLE[i].name == Names(TABLE)[i];
  }

  /** Whether `exynos_ss_remap` places item i: the event log always, the others when enabled at boot. */
  predicate Mapped(items: seq<Item>, i: nat, kevents: nat)
    requires i < |items|
  {
    i == kevents || items[i].enabledInit != 0
  }

  /** The bytes remap gives item i: only the header when the event log itself is not reserved. */
  function AllocSize(items: seq<Item>, i: nat, kevents: nat, needHeader: bool): nat
    requires i < |items|
  {
    if i == kevents && needHeader then HEADER_ALLOC_SZ else items[i].size
  }

  /** Where remap places item n, relative to the start of the reservation. */
  function Offset(items: seq<Item>, n: nat, kevents: nat, needHeader: bool): nat
    requires n <= |items|
  {
    if n == 0 then 0
    else
      var own := if Mapped(items, n - 1, kevents) then AllocSize(items, n - 1, kevents, needHeader) else 0;
      Offset(items, n - 1, kevents, needHeader) + own
  }

  /** The number of items remap places among the first n. */
  function MappedCount(items: seq<Item>, n: nat, kevents: nat): nat
    requires n <= |items|
  {
    if n == 0 then 0 else MappedCount(items, n - 1, kevents) + (if Mapped(items, n - 1, kevents) then 1 else 0)
  }

  /** Remap places something exactly when some item qualifies, so always when the event-log index is valid. */
  lemma {:induction false} MappedCountPositive(items: seq<Item>, n: nat, kevents: nat)
    requires n <= |items|
    ensures MappedCount(items, n, kevents) > 0 <==> exists i :: 0 <= i < n && Mapped(items, i, kevents)
    ensures kevents < n ==> MappedCount(items, n, kevents) > 0
  {
    if n > 0 {
      MappedCountPositive(items, n - 1, kevents);
      if Mapped(items, n - 1, kevents) {
        assert MappedCount(items, n, kevents) > 0;
      } else {
        assert forall i :: 0 <= i < n && Mapped(items, i, kevents) ==> i < n - 1;
      }
    }
  }

  /** The sizes of the items enabled at boot among the first n: the sum in `exynos_ss_setup`. */
  function InitSize(items: seq<Item>, n: nat): nat
    requires n <= |items|
  {
    if n == 0 then 0 else InitSize(items, n - 1) + (if items[n - 1].enabledInit != 0 then items[n - 1].size else 0)
  }

  /** The reservation `exynos_ss_setup` asks for. */
  function Reserved(items: seq<Item>, needHeader: bool): nat
  {
    InitSize(items, |items|) + (if needHeader then HEADER_ALLOC_SZ else 0)
  }

  lemma {:induction false} OffsetIsInitSize(items: seq<Item>, n: nat, kevents: nat, needHeader: bool)
    requires n <= |items| && kevents < |items| && needHeader == (items[kevents].enabledInit == 0)
    ensures Offset(items, n, kevents, needHeader) ==
      InitSize(items, n) + (if needHeader && kevents < n then HEADER_ALLOC_SZ else 0)
  {
    if n > 0 {
      OffsetIsInitSize(items, n - 1, kevents, needHeader);
    }
  }

  /**
   * The layout remap builds fills exactly the reservation setup made: with
   * `need_header` set as init_desc sets it, the last placed item ends at
   * `base + size`.
   */
  lemma LayoutFitsReservation(items: seq<Item>, kevents: nat, needHeader: bool)
    requires kevents < |items| && needHeader == (items[kevents].enabledInit == 0)
    ensures Offset(items, |items|, kevents, needHeader) == Reserved(items, needHeader)
  {
    OffsetIsInitSize(items, |items|, kevents, needHeader);
  }

  /** Offsets never decrease, and a placed item ends where the next offset begins. */
  lemma {:induction false} OffsetMonotone(items: seq<Item>, i: nat, j: nat, kevents: nat, needHeader: bool)
    requires i <= j <= |items|
    ensures Offset(items, i, kevents, needHeader) <= Offset(items, j, kevents, needHeader)
    decreases j - i
  {
    if i < j {
      OffsetMonotone(items, i, j - 1, kevents, needHeader);
    }
  }

  /**
   * Placed items do not overlap: an item placed before another ends at or
   * before the other's start.
   */
  lemma PlacedDisjoint(items: seq<Item>, i: nat, j: nat, kevents: nat, needHeader: bool)
    requires i < j < |items|
    ensures Offset(items, i, kevents, needHeader) + (if Mapped(items, i, kevents) then AllocSize(items, i, kevents, needHeader) else 0)
      <= Offset(items, j, kevents, needHeader)
  {
    OffsetMonotone(items, i + 1, j, kevents, needHeader);
  }

  /** Where remap places each item of the table, relative to the reservation, and the size of the reservation. */
  const OFFSETS: seq<nat> := [0, SZ_8M, SZ_8M + SZ_2M, SZ_8M + SZ_2M + SZ_4M, SZ_8M + SZ_2M + 2 * SZ_4M, SZ_8M + 2 * SZ_2M + 2 * SZ_4M]
  const RESERVED: nat := 2 * SZ_8M + 2 * SZ_2M + 2 * SZ_4M

  /**
   * For the table, nothing needs a separate header, the items lie at
   * OFFSETS one after another and the last one ends at RESERVED, the size
   * setup reserves.
   */
  lemma TableLayout(items: seq<Item>)
    requires TableShaped(items)
    ensures forall i :: 0 <= i < NUM_ITEMS ==> Offset(items, i, 0, false) == OFFSETS[i] && Mapped(items, i, 0)
    ensures forall i :: 0 <= i < NUM_ITEMS ==> OFFSETS[i] + items[i].size <= RESERVED
    ensures Reserved(items, false) == RESERVED
    ensures MappedCount(items, NUM_ITEMS, 0) > 0
  {
    assert Offset(items, 1, 0, false) == OFFSETS[1];
    assert Offset(items, 2, 0, false) == OFFSETS[2];
    assert Offset(items, 3, 0, false) == OFFSETS[3];
    assert Offset(items, 4, 0, false) == OFFSETS[4];
    assert Offset(items, 5, 0, false) == OFFSETS[5];
    LayoutFitsReservation(items, 0, false);
    MappedCountPositive(items, NUM_ITEMS, 0);
  }

  /** Item i as `exynos_ss_remap(base, ...)` leaves it, with the virtual base `vaBase`. */
  function PlacedAt(items: seq<Item>, i: nat, base: int, vaBase: int, kevents: nat, needHeader: bool): (it: Item)
    requires i < |items|
    ensures it.name == items[i].name && it.size == items[i].size && it.persist == items[i].persist
    ensures it.enabled == items[i].enabled && it.enabledInit == items[i].enabledInit && it.time == items[i].time
    ensures Mapped(items, i, kevents) ==>
      it.paddr == base + Offset(items, i, kevents, needHeader) &&
      it.vaddr - vaBase == it.paddr - base && it.head == it.vaddr && it.curr == it.vaddr
    ensures !Mapped(items, i, kevents) ==> it == items[i]
  {
    if Mapped(items, i, kevents) then
      var off := Offset(items, i, kevents, needHeader);
      items[i].(vaddr := vaBase + off, paddr := base + off, head := vaBase + off, curr := vaBase + off)
    else items[i]
  }

  /** The whole table after remap. */
  function Layout(items: seq<Item>, base: int, vaBase: int, kevents: nat, needHeader: bool): (r: seq<Item>)
    ensures |r| == |items|
    ensures forall i :: 0 <= i < |items| ==> r[i] == PlacedAt(items, i, base, vaBase, kevents, needHeader)
  {
    seq(|items|, i requires 0 <= i < |items| => PlacedAt(items, i, base, vaBase, kevents, needHeader))
  }

  /**
   * Remap of the table at physical base `base` and virtual base `vaBase`:
   * every item is placed at its offset in OFFSETS, with both cursors at its
   * start, and the table keeps its shape.
   */
  lemma TableLaid(items: seq<Item>, base: int, vaBase: int)
    requires TableShaped(items)
    ensures var r := Layout(items, base, vaBase, 0, false);
      TableShaped(r) &&
      forall i :: 0 <= i < NUM_ITEMS ==>
        r[i].vaddr == vaBase + OFFSETS[i] && r[i].paddr == base + OFFSETS[i] &&
        r[i].head == r[i].vaddr && r[i].curr == r[i].vaddr && OFFSETS[i] + r[i].size <= RESERVED
  {
    TableLayout(items);
  }

  /**
   * `exynos_ss_check_eob` with the reset that follows it: where a chunk of
   * n bytes goes, given the item's head, current cursor and size.
   */
  function ChunkStart(head: int, curr: int, size: nat, n: nat): int
  {
    if curr + n > head + size then head else curr
  }

  /**
   * The byte-stream cursor never leaves its item: if it starts inside
   * `[head, head + size]` and the chunk is no larger than the item, the
   * chunk is written inside the item and the cursor ends inside it again.
   * The reset happens exactly when the chunk would run past the end.
   */
  lemma ChunkInItem(head: int, curr: int, size: nat, n: nat)
    requires head <= curr <= head + size && n <= size
    ensures head <= ChunkStart(head, curr, size, n) && ChunkStart(head, curr, size, n) + n <= head + size
    ensures ChunkStart(head, curr, size, n) == curr <==> curr + n <= head + size
  {
  }

  /** The reserved memory with `buf` copied to offset `at`. */
  function Write(m: seq<Byte>, at: nat, buf: seq<Byte>): (r: seq<Byte>)
    requires at + |buf| <= |m|
    ensures |r| == |m|
    ensures forall k :: 0 <= k < |buf| ==> r[at + k] == buf[k]
    ensures forall k :: 0 <= k < |m| && !(at <= k < at + |buf|) ==> r[k] == m[k]
  {
    m[..at] + buf + m[at + |buf|..]
  }

  /** A byte-stream item's cursor inside the reserved memory that starts at virtual address `vaBase`. */
  predicate CursorIn(m: seq<Byte>, vaBase: int, head: int, curr: int, size: nat)
  {
    vaBase <= head <= curr <= head + size && head - vaBase + size <= |m|
  }

  /**
   * The memory and the cursor after one chunk is appended to a byte-stream
   * item (head, cursor, size): the chunk goes to the cursor, or back to the
   * head when it would run past the end, and the cursor moves past it.
   */
  function Append(m: seq<Byte>, vaBase: int, head: int, curr: int, size: nat, buf: seq<Byte>): (r: (seq<Byte>, int))
    requires CursorIn(m, vaBase, head, curr, size) && |buf| <= size
    ensures CursorIn(r.0, vaBase, head, r.1, size)
    ensures r.1 - |buf| == ChunkStart(head, curr, size, |buf|)
    ensures r.0 == Write(m, r.1 - |buf| - vaBase, buf)
  {
    ChunkInItem(head, curr, size, |buf|);
    var at := ChunkStart(head, curr, size, |buf|);
    (Write(m, at - vaBase, buf), at + |buf|)
  }

  /** Appending never touches memory outside the item. */
  lemma AppendStaysInItem(m: seq<Byte>, vaBase: int, head: int, curr: int, size: nat, buf: seq<Byte>, k: nat)
    requires CursorIn(m, vaBase, head, curr, size) && |buf| <= size
    requires k < |m| && !(head - vaBase <= k < head - vaBase + size)
    ensures Append(m, vaBase, head, curr, size, buf).0[k] == m[k]
  {
    ChunkInItem(head, curr, size, |buf|);
  }

  /** The chunks appended one after another. */
  function AppendAll(m: seq<Byte>, vaBase: int, head: int, curr: int, size: nat, bufs: seq<seq<Byte>>): (r: (seq<Byte>, int))
    requires CursorIn(m, vaBase, head, curr, size)
    requires forall k :: 0 <= k < |bufs| ==> |bufs[k]| <= size
    ensures CursorIn(r.0, vaBase, head, r.1, size)
  {
    if bufs == [] then (m, curr)
    else
      var before := AppendAll(m, vaBase, head, curr, size, bufs[..|bufs| - 1]);
      Append(before.0, vaBase, head, before.1, size, bufs[|bufs| - 1])
  }

  /**
   * The cursor only ever moves forward, except when it wraps to the head:
   * after a series of appends that never wrap, the cursor has advanced by the
   * total length and the chunks lie one after another from the old cursor.
   */
  lemma {:induction false} AppendAllNoWrap(m: seq<Byte>, vaBase: int, head: int, curr: int, size: nat, bufs: seq<seq<Byte>>)
    requires CursorIn(m, vaBase, head, curr, size)
    requires forall k :: 0 <= k < |bufs| ==> |bufs[k]| <= size
    requires curr + TotalLength(bufs) <= head + size
    ensures AppendAll(m, vaBase, head, curr, size, bufs).1 == curr + TotalLength(bufs)
  {
    if bufs != [] {
      var init := bufs[..|bufs| - 1];
      assert TotalLength(bufs) == TotalLength(init) + |bufs[|bufs| - 1]|;
      AppendAllNoWrap(m, vaBase, head, curr, size, init);
    }
  }

  /** Appending two series of chunks is appending the first, then the second from where the first left the cursor. */
  lemma {:induction false} AppendAllConcat(m: seq<Byte>, vaBase: int, head: int, curr: int, size: nat, xs: seq<seq<Byte>>, ys: seq<seq<Byte>>)
    requires CursorIn(m, vaBase, head, curr, size)
    requires forall k :: 0 <= k < |xs| ==> |xs[k]| <= size
    requires forall k :: 0 <= k < |ys| ==> |ys[k]| <= size
    ensures var mid := AppendAll(m, vaBase, head, curr, size, xs);
      AppendAll(m, vaBase, head, curr, size, xs + ys) == AppendAll(mid.0, vaBase, head, mid.1, size, ys)
    decreases |ys|
  {
    if ys == [] {
      assert xs + ys == xs;
    } else {
      var zs := xs + ys;
      assert zs[..|zs| - 1] == xs + ys[..|ys| - 1];
      AppendAllConcat(m, vaBase, head, curr, size, xs, ys[..|ys| - 1]);
    }
  }

  function TotalLength(bufs: seq<seq<Byte>>): nat
  {
    if bufs == [] then 0 else TotalLength(bufs[..|bufs| - 1]) + |bufs[|bufs| - 1]|
  }

  /**
   * The word `exynos_ss_hook_logbuf` writes to LAST_LOGBUF:
   * `(curr & (size - 1)) | (paddr & ~(size - 1))`, stored as 32 bits. For a
   * power-of-two size the two halves do not share a bit, so the `|` is a sum.
   */
  function SavedLastBuf(curr: nat, paddr: nat, size: nat): Uint32
    requires size > 0
  {
    U32(Mask(curr, size) + (paddr - Mask(paddr, size)))
  }

  /**
   * The cursor `exynos_ss_fixmap` restores from a LAST_LOGBUF word: when the
   * word's upper bits name the kernel log's physical block, its lower bits
   * are the offset in the virtual block; otherwise the log starts afresh.
   */
  function RestoredCurr(last: Uint32, paddr: int, vaddr: int, size: nat): Option<int>
    requires size > 0
  {
    if last - Mask(last, size) == paddr - Mask(paddr, size) then Some(Mask(last, size) + (vaddr - Mask(vaddr, size)))
    else None
  }

  /** An aligned base plus an offset below the alignment: the mask is the offset and the rest is the base. */
  lemma MaskOfAligned(x: int, size: nat, off: int)
    requires size > 0 && x % size == 0 && 0 <= off < size
    ensures Mask(x + off, size) == off && x + off - Mask(x + off, size) == x
  {
    DivModUnique(x + off, size, x / size, off);
  }

  /**
   * The round trip across a reboot: the cursor the hook saves is the cursor
   * fixmap restores, provided the log's virtual address is aligned to its
   * size and its physical block lies below 4 GiB. A cursor at the very end
   * comes back at the head, where the next chunk would have gone anyway.
   */
  lemma LastBufRoundTrip(curr: nat, paddr: nat, vaddr: nat, size: nat)
    requires size > 0 && vaddr % size == 0 && paddr + size <= U32_MOD
    requires vaddr <= curr <= vaddr + size
    ensures RestoredCurr(SavedLastBuf(curr, paddr, size), paddr, vaddr, size) ==
      Some(if curr == vaddr + size then vaddr else curr)
  {
    var off := if curr == vaddr + size then 0 else curr - vaddr;
    if curr == vaddr + size {
      ModAddMultiple(vaddr, size, 1);
      MaskOfAligned(vaddr + size, size, 0);
    } else {
      MaskOfAligned(vaddr, size, curr - vaddr);
    }
    var p := paddr - Mask(paddr, size);
    ModAddMultiple(0, size, paddr / size);
    assert p == size * (paddr / size);
    DivModUnique(off + p, U32_MOD, 0, off + p);
    MaskOfAligned(p, size, off);
    MaskOfAligned(vaddr, size, 0);
  }
}
