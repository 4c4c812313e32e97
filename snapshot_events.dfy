/**
 * The event log of exynos-snapshot: `struct exynos_ss_log`, one array of
 * events per category, with the counters of `struct exynos_ss_log_idx`.
 *
 * The C structure has one record type per category; here they are the
 * variants of a single `Event` type, and category c's area is an array of
 * `Rows(c)` rows (one per CPU, or a single global row) of `Cap(c)` slots.
 * Pointers the recorders store (task structs, function addresses, strings
 * they do not copy) are kept as integers; character arrays the recorders
 * copy into are sequences of their declared length.
 *
 * Each area is specified by its `RingState` view, so that every recorder is
 * proved against `Logged` and the replay lemmas of SnapshotRing apply to
 * the log in place.
 */
module SnapshotEvents {
  import opened CInt
  import opened SnapshotRing

  const NR_CPUS: nat := 8
  /** ESS_LOG_MAX_NUM, ESS_API_MAX_NUM and ESS_CALLSTACK_MAX_NUM. */
  const LOG_MAX_NUM: nat := 1024
  const API_MAX_NUM: nat := 2048
  const CALLSTACK_MAX_NUM: nat := 4
  const TASK_COMM_LEN: nat := 16
  const REGULATOR_NAME_LEN: nat := 16
  const ACPM_LOG_LEN: nat := 9
  const LOG_STRING_LENGTH: nat := 128
  const IRQS_DISABLED_NUM: nat := 32

  type Callers = s: seq<int> | |s| == CALLSTACK_MAX_NUM witness [0, 0, 0, 0]

  const NO_CALLERS: Callers := [0, 0, 0, 0]

  /** A zeroed character array of length n. */
  function Blank(n: nat): (s: seq<char>)
    ensures |s| == n && forall i :: 0 <= i < n ==> s[i] == '\0'
  {
    seq(n, _ => '\0')
  }

  /**
   * `strncpy(dst, src, n)` on a character array: the first n characters
   * become those of the C string `src`, padded with NULs after its end; the
   * characters from n on keep their old values (so nothing terminates the
   * copy when `src` is at least n long).
   */
  function Strncpy(dst: seq<char>, src: string, n: nat): (r: seq<char>)
    requires n <= |dst|
    ensures |r| == |dst|
    ensures forall i :: 0 <= i < |r| ==> r[i] == (if i >= n then dst[i] else if i < |src| then src[i] else '\0')
  {
    seq(|dst|, i requires 0 <= i < |dst| => if i >= n then dst[i] else if i < |src| then src[i] else '\0')
  }

  /** The caller slots after the loop that fills the first `depth` of them with `now`. */
  function Overlay(prev: Callers, now: Callers, depth: nat): (r: Callers)
    ensures forall j :: 0 <= j < CALLSTACK_MAX_NUM ==> r[j] == (if j < depth then now[j] else prev[j])
  {
    seq(CALLSTACK_MAX_NUM, j requires 0 <= j < CALLSTACK_MAX_NUM => if j < depth then now[j] else prev[j])
  }

  /** The lock fields a spinlock event copies (CONFIG_DEBUG_SPINLOCK). */
  datatype LockOwner = LockOwner(magic: int, ownerCpu: int, lockTask: int, next: int, owner: int)

  /** One record of `struct exynos_ss_log`, tagged with its category's record type. */
  datatype Event =
    | TaskLog(time: int, sp: int, task: int, comm: seq<char>)
    | WorkLog(time: int, sp: int, worker: int, comm: seq<char>, fn: int, en: int)
    | CpuidleLog(time: int, sp: int, modes: int, state: int, numOnlineCpus: int, delta: int, en: int)
    | SuspendLog(time: int, sp: int, fn: int, dev: int, en: int, core: int)
    | IrqLog(time: int, sp: int, irq: int, fn: int, preempt: int, val: int, en: int)
    | IrqExitLog(time: int, sp: int, endTime: int, latency: int, irq: int)
    | SpinlockLog(time: int, sp: int, jiffies: int, lock: LockOwner, en: int, callers: Callers)
    | IrqsDisabledLog(time: int, index: int, task: int, commPtr: int, callers: Callers)
    | ClkLog(time: int, clk: int, fname: int, mode: int, arg: int)
    | PmuLog(time: int, id: int, fname: int, mode: int)
    | FreqLog(time: int, cpu: int, freqName: int, oldFreq: int, targetFreq: int, en: int)
    | DmLog(time: int, cpu: int, dmNum: int, minFreq: int, maxFreq: int, waitDmt: int, doDmt: int)
    | RegLog(time: int, read: int, val: int, reg: int, en: int, callers: Callers)
    | HrtimerLog(time: int, now: int, timer: int, fn: int, en: int)
    | RegulatorLog(time: int, cpu: int, name: seq<char>, reg: int, voltage: int, en: int)
    | ThermalLog(time: int, cpu: int, data: int, temp: int, coolingDevice: int, coolingState: int)
    | AcpmLog(time: int, acpmTime: int, log: seq<char>, data: int)
    | I2cLog(time: int, cpu: int, adap: int, msgs: int, num: int, en: int)
    | SpiLog(time: int, cpu: int, master: int, curMsg: int, en: int)
    | ClockeventLog(time: int, mctCycle: int, deltaNs: int, nextEvent: int, callers: Callers)
    | PrintklLog(time: int, cpu: int, msg: int, val: int, callers: Callers)
    | PrintkLog(time: int, cpu: int, log: seq<char>, callers: Callers)

  /** The caller slots of a record that has them (the others hold none). */
  function CallersOf(e: Event): Callers
  {
    if e.SpinlockLog? || e.IrqsDisabledLog? || e.RegLog? || e.ClockeventLog? || e.PrintklLog? || e.PrintkLog?
    then e.callers else NO_CALLERS
  }

  /** The regulator name of a record, or a blank one of length n for a record of another category. */
  function NameOf(e: Event, n: nat): (s: seq<char>)
    ensures |s| == n
  {
    if e.RegulatorLog? && |e.name| == n then e.name else Blank(n)
  }

  /** The ACPM text of a record, or a blank one of length n for a record of another category. */
  function TextOf(e: Event, n: nat): (s: seq<char>)
    ensures |s| == n
  {
    if e.AcpmLog? && |e.log| == n then e.log else Blank(n)
  }

  /** The categories, numbered in the order of `struct exynos_ss_log`. */
  const NUM_CATEGORIES: nat := 22
  type Category = c: nat | c < NUM_CATEGORIES

  const TASK: Category := 0
  const WORK: Category := 1
  const CPUIDLE: Category := 2
  const SUSPEND: Category := 3
  const IRQ: Category := 4
  const IRQ_EXIT: Category := 5
  const SPINLOCK: Category := 6
  const IRQS_DISABLED: Category := 7
  const CLK: Category := 8
  const PMU: Category := 9
  const FREQ: Category := 10
  const DM: Category := 11
  const REG: Category := 12
  const HRTIMER: Category := 13
  const REGULATOR: Category := 14
  const THERMAL: Category := 15
  const ACPM: Category := 16
  const I2C: Category := 17
  const SPI: Category := 18
  const CLOCKEVENT: Category := 19
  const PRINTKL: Category := 20
  const PRINTK: Category := 21

  /** Rows per category: ESS_NR_CPUS for the per-CPU arrays, 1 for the global ones. */
  const ROWS: seq<nat> := [
    NR_CPUS, NR_CPUS, NR_CPUS, 1, NR_CPUS, NR_CPUS, NR_CPUS, NR_CPUS,
    1, 1, 1, 1, NR_CPUS, NR_CPUS, 1, 1, 1, 1, 1, NR_CPUS, 1, 1]

  /** Slots per row, each a power of two. */
  const CAPS: seq<nat> := [
    LOG_MAX_NUM, LOG_MAX_NUM, LOG_MAX_NUM, LOG_MAX_NUM * 4, LOG_MAX_NUM * 2, LOG_MAX_NUM,
    LOG_MAX_NUM, IRQS_DISABLED_NUM, LOG_MAX_NUM, LOG_MAX_NUM, LOG_MAX_NUM, LOG_MAX_NUM,
    LOG_MAX_NUM, LOG_MAX_NUM, LOG_MAX_NUM, LOG_MAX_NUM, LOG_MAX_NUM, LOG_MAX_NUM,
    LOG_MAX_NUM, LOG_MAX_NUM, API_MAX_NUM, API_MAX_NUM]

  /** The all-zero record of each category, as the memset of `exynos_ss_fixmap_header` leaves it. */
  const ZEROS: seq<Event> := [
    TaskLog(0, 0, 0, Blank(TASK_COMM_LEN)),
    WorkLog(0, 0, 0, Blank(TASK_COMM_LEN), 0, 0),
    CpuidleLog(0, 0, 0, 0, 0, 0, 0),
    SuspendLog(0, 0, 0, 0, 0, 0),
    IrqLog(0, 0, 0, 0, 0, 0, 0),
    IrqExitLog(0, 0, 0, 0, 0),
    SpinlockLog(0, 0, 0, LockOwner(0, 0, 0, 0, 0), 0, NO_CALLERS),
    IrqsDisabledLog(0, 0, 0, 0, NO_CALLERS),
    ClkLog(0, 0, 0, 0, 0),
    PmuLog(0, 0, 0, 0),
    FreqLog(0, 0, 0, 0, 0, 0),
    DmLog(0, 0, 0, 0, 0, 0, 0),
    RegLog(0, 0, 0, 0, 0, NO_CALLERS),
    HrtimerLog(0, 0, 0, 0, 0),
    RegulatorLog(0, 0, Blank(REGULATOR_NAME_LEN), 0, 0, 0),
    ThermalLog(0, 0, 0, 0, 0, 0),
    AcpmLog(0, 0, Blank(ACPM_LOG_LEN), 0),
    I2cLog(0, 0, 0, 0, 0, 0),
    SpiLog(0, 0, 0, 0, 0),
    ClockeventLog(0, 0, 0, 0, NO_CALLERS),
    PrintklLog(0, 0, 0, 0, NO_CALLERS),
    PrintkLog(0, 0, Blank(LOG_STRING_LENGTH), NO_CALLERS)]

  function Rows(c: Category): (n: nat)
    ensures n == 1 || n == NR_CPUS
  {
    ROWS[c]
  }

  function Cap(c: Category): (n: nat)
    ensures n > 0
  {
    CAPS[c]
  }

  function Zero(c: Category): Event
  {
    ZEROS[c]
  }

  /** The contents of a two-dimensional array, row by row. */
  ghost function Contents<T>(a: array2<T>): (rows: seq<seq<T>>)
    reads a
    ensures |rows| == a.Length0
    ensures forall r :: 0 <= r < a.Length0 ==> |rows[r]| == a.Length1
    ensures forall r, j :: 0 <= r < a.Length0 && 0 <= j < a.Length1 ==> rows[r][j] == a[r, j]
  {
    seq(a.Length0, r requires 0 <= r < a.Length0 reads a =>
      seq(a.Length1, j requires 0 <= j < a.Length1 reads a => a[r, j]))
  }

  /** An area of category c's shape holding only the category's zero record. */
  ghost predicate Zeroed(a: array2<Event>, c: Category)
    reads a
  {
    a.Length0 == Rows(c) && a.Length1 == Cap(c) &&
    forall r, j :: 0 <= r < Rows(c) && 0 <= j < Cap(c) ==> a[r, j] == Zero(c)
  }

  class EventLog {
    /** The area of each category. */
    const areas: seq<array2<Event>>
    /** `struct exynos_ss_log_idx`: one counter per row of each category. */
    var idx: seq<seq<int>>

    ghost predicate Valid()
      reads this
    {
      |areas| == NUM_CATEGORIES && |idx| == NUM_CATEGORIES &&
      (forall c: Category :: areas[c].Length0 == Rows(c) && areas[c].Length1 == Cap(c)) &&
      (forall c: Category :: |idx[c]| == Rows(c)) &&
      (forall c: Category, d: Category :: c != d ==> areas[c] != areas[d])
    }

    /** Category c's counters and slots as a ring value. */
    ghost function View(c: Category): (s: RingState<Event>)
      requires Valid()
      reads this, areas[c]
      ensures Shaped(s, Rows(c), Cap(c)) && s.counters == idx[c]
      ensures forall r, j :: 0 <= r < Rows(c) && 0 <= j < Cap(c) ==> s.rows[r][j] == areas[c][r, j]
    {
      RingState(idx[c], Contents(areas[c]))
    }

    /** Every counter at -1 and every slot of every area zeroed. */
    ghost predicate AllCleared()
      requires Valid()
      reads this, areas
    {
      (forall c: Category :: idx[c] == seq(Rows(c), _ => -1)) &&
      (forall c: Category, r, j :: 0 <= r < Rows(c) && 0 <= j < Cap(c) ==> areas[c][r, j] == Zero(c))
    }

    /** A cleared log holds, in every category, the ring value `Cleared`. */
    lemma ClearedView(c: Category)
      requires Valid() && AllCleared()
      ensures View(c) == Cleared(Rows(c), Cap(c), Zero(c))
    {
      forall r | 0 <= r < Rows(c)
        ensures View(c).rows[r] == Cleared(Rows(c), Cap(c), Zero(c)).rows[r]
      {
      }
    }

    constructor ()
      ensures Valid() && AllCleared()
    {
      var made: seq<array2<Event>> := [];
      while |made| < NUM_CATEGORIES
        invariant |made| <= NUM_CATEGORIES
        invariant forall c: Category :: c < |made| ==> Zeroed(made[c], c)
        invariant forall c: Category, d: Category :: c < |made| && d < |made| && c != d ==> made[c] != made[d]
      {
        var k: Category := |made|;
        var a := new Event[Rows(k), Cap(k)]((_, _) => Zero(k));
        assert Zeroed(a, k);
        made := made + [a];
      }
      areas := made;
      idx := seq(NUM_CATEGORIES, c requires 0 <= c < NUM_CATEGORIES => seq(Rows(c), _ => -1));
    }

    /** The record the next event of row r of category c overwrites. */
    function Upcoming(c: Category, r: nat): (e: Event)
      requires Valid() && r < Rows(c)
      reads this, areas[c]
      ensures e == Next(View(c), r)
    {
      areas[c][r, Slot(idx[c][r] + 1, Cap(c))]
    }

    /** Slot j of row r of category c. */
    function Read(c: Category, r: nat, j: nat): (e: Event)
      requires Valid() && r < Rows(c) && j < Cap(c)
      reads this, areas[c]
      ensures e == View(c).rows[r][j]
    {
      areas[c][r, j]
    }

    /** `atomic_inc_return` on row r of category c: the new counter value. */
    method Inc(c: Category, r: nat) returns (n: int)
      requires Valid() && r < Rows(c)
      modifies this
      ensures Valid() && n == old(idx[c][r]) + 1
      ensures View(c) == Bumped(old(View(c)), r, 1)
      ensures forall d: Category :: d != c ==> View(d) == old(View(d))
    {
      idx := idx[c := idx[c][r := idx[c][r] + 1]];
      n := idx[c][r];
    }

    /** `atomic_dec` on row r of category c. */
    method Dec(c: Category, r: nat)
      requires Valid() && r < Rows(c)
      modifies this
      ensures Valid() && View(c) == Bumped(old(View(c)), r, -1)
      ensures forall d: Category :: d != c ==> View(d) == old(View(d))
    {
      idx := idx[c := idx[c][r := idx[c][r] - 1]];
    }

    /** `atomic_set` of row r of category c. */
    method SetCounter(c: Category, r: nat, v: int)
      requires Valid() && r < Rows(c)
      modifies this
      ensures Valid() && View(c) == old(View(c)).(counters := old(idx[c])[r := v])
      ensures forall d: Category :: d != c ==> View(d) == old(View(d))
    {
      idx := idx[c := idx[c][r := v]];
    }

    /** The write of slot j of row r of category c. */
    method Put(c: Category, r: nat, j: nat, e: Event)
      requires Valid() && r < Rows(c) && j < Cap(c)
      modifies areas[c]
      ensures Valid() && View(c) == Stored(old(View(c)), r, j, e)
      ensures forall d: Category :: d != c ==> View(d) == old(View(d))
    {
      ghost var s0 := View(c);
      areas[c][r, j] := e;
      ghost var s1 := Stored(s0, r, j, e);
      forall q | 0 <= q < Rows(c)
        ensures View(c).rows[q] == s1.rows[q]
      {
      }
    }

    /** The gate-open path of a recorder: raise row r's counter of category c and store e in the slot it selects. */
    method Log(c: Category, r: nat, e: Event)
      requires Valid() && r < Rows(c)
      modifies this, areas[c]
      ensures Valid() && View(c) == Logged(old(View(c)), r, e)
      ensures forall d: Category :: d != c ==> View(d) == old(View(d))
    {
      var n := Inc(c, r);
      Put(c, r, Mask(n, Cap(c)), e);
    }

    /** The counter resets and the memset of the log area in `exynos_ss_fixmap_header`. */
    method ClearAll()
      requires Valid()
      modifies this, areas
      ensures Valid() && AllCleared()
    {
      var k := 0;
      while k < NUM_CATEGORIES
        invariant 0 <= k <= NUM_CATEGORIES && Valid()
        invariant forall c: Category, r, j :: c < k && 0 <= r < Rows(c) && 0 <= j < Cap(c) ==> areas[c][r, j] == Zero(c)
      {
        var a := areas[k];
        forall r, j | 0 <= r < Rows(k) && 0 <= j < Cap(k) {
          a[r, j] := Zero(k);
        }
        k := k + 1;
      }
      idx := seq(NUM_CATEGORIES, c requires 0 <= c < NUM_CATEGORIES => seq(Rows(c), _ => -1));
    }
  }
}
