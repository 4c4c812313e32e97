/**
 * The dumper cursor of exynos-snapshot: `exynos_ss_dumper_one` hands out the
 * records of one category of the event log, one per call, for a caller that
 * prints them line by line.
 *
 * The caller zero-initialises a `struct ess_dumper`, chooses the category
 * (`items`) and the CPU (`cur_cpu`), and calls until the function returns
 * false. The first call picks the slot after the category's counter (row
 * 0's counter, also for the other CPUs' rows of a per-CPU category), the
 * oldest record of a full ring; every call reads the slot at the cursor and
 * moves it one slot on, wrapping at the end of the row; the call that finds
 * the cursor back at the first slot returns false. The text of a line (the
 * timestamp split into seconds and microseconds, the symbol names looked up
 * for function addresses) is not modelled: a call yields the record it
 * formats.
 */
module SnapshotDumper {
  import opened CInt
  import opened Wrappers
  import opened SnapshotRing
  import opened SnapshotEvents

  /** The smallest line buffer the dumper accepts (SZ_128). */
  const MIN_LINE: nat := 128

  /** The categories `exynos_ss_dumper_one` knows how to print; any other yields no line. */
  const PRINTED: set<Category> := {TASK, WORK, CPUIDLE, SUSPEND, IRQ, IRQ_EXIT, SPINLOCK, CLK, FREQ, PRINTK, PRINTKL}

  /** The row of category c the dumper reads for CPU cpu: the CPU's own row, or the single row of a global category. */
  function RowOf(c: Category, cpu: nat): (r: nat)
    requires cpu < NR_CPUS
    ensures r < Rows(c)
    ensures Rows(c) == NR_CPUS ==> r == cpu
  {
    if Rows(c) == 1 then 0 else cpu
  }

  /** The position of a dump: whether it has started, the slot it started at and the slot it reads next. */
  datatype Cursor = Cursor(active: bool, initIdx: int, curIdx: int)

  /** A zero-initialised `struct ess_dumper`. */
  const IDLE: Cursor := Cursor(false, 0, 0)

  /** A cursor whose slots are inside a row of cap slots, once the dump has started. */
  predicate InRow(d: Cursor, cap: nat)
  {
    d.active ==> 0 <= d.initIdx < cap && 0 <= d.curIdx < cap
  }

  /** One successful call: the cursor afterwards and the slot read. */
  datatype Visit = Visit(next: Cursor, slot: nat)

  /**
   * One call on a row of cap slots whose counter reads `counter`: None when
   * the dump has come back to its first slot; otherwise the slot read (the
   * cursor, or on the first call the slot after the counter) and the cursor
   * moved one slot on, from the last slot back to slot 0.
   */
  function Advance(d: Cursor, counter: int, cap: nat): (r: Option<Visit>)
    requires cap > 0 && InRow(d, cap)
    ensures r.None? <==> d.active && d.initIdx == d.curIdx
    ensures r.Some? ==> r.value.slot < cap && r.value.next.active && InRow(r.value.next, cap)
    ensures r.Some? ==> r.value.next.curIdx == Slot(r.value.slot + 1, cap)
    ensures r.Some? && !d.active ==> r.value.slot == Slot(counter + 1, cap) && r.value.next.initIdx == r.value.slot
    ensures r.Some? && d.active ==> r.value.slot == d.curIdx && r.value.next.initIdx == d.initIdx
  {
    if d.active && d.initIdx == d.curIdx then None
    else
      var idx := if d.active then d.curIdx else Slot(counter + 1, cap);
      NextSlot(idx, cap);
      Some(Visit(Cursor(true, if d.active then d.initIdx else idx, if idx == cap - 1 then 0 else idx + 1), idx))
  }

  /** The slot after slot idx, wrapping from the last slot to slot 0. */
  lemma NextSlot(idx: nat, cap: nat)
    requires idx < cap
    ensures Slot(idx + 1, cap) == if idx == cap - 1 then 0 else idx + 1
  {
    if idx == cap - 1 { DivModUnique(idx + 1, cap, 1, 0); } else { DivModUnique(idx + 1, cap, 0, idx + 1); }
  }

  /** The cursor after n calls from d. */
  function Iterate(d: Cursor, counter: int, cap: nat, n: nat): (e: Cursor)
    requires cap > 0 && InRow(d, cap)
    ensures InRow(e, cap)
  {
    if n == 0 then d
    else
      var prev := Iterate(d, counter, cap, n - 1);
      var r := Advance(prev, counter, cap);
      if r.None? then prev else r.value.next
  }

  /** Moving a slot on by k is moving the counter on by k. */
  lemma SlotShift(x: int, k: int, cap: nat)
    requires cap > 0
    ensures Slot(Slot(x, cap) + k, cap) == Slot(x + k, cap)
  {
    assert Slot(x, cap) + k == x + k + cap * (-(x / cap));
    ModAddMultiple(x + k, cap, -(x / cap));
  }

  /** A started dump that is not back at its first slot moves its cursor one slot on. */
  lemma AdvanceStep(d: Cursor, counter: int, cap: nat)
    requires cap > 0 && InRow(d, cap) && d.active && d.initIdx != d.curIdx
    ensures Advance(d, counter, cap) == Some(Visit(Cursor(true, d.initIdx, Slot(d.curIdx + 1, cap)), d.curIdx))
  {
  }

  /** After n calls (1 <= n <= cap) from a fresh cursor, the dump started at the slot after the counter and has moved n slots on. */
  lemma {:induction false} Iterated(counter: int, cap: nat, n: nat)
    requires cap > 0 && 1 <= n <= cap
    ensures Iterate(IDLE, counter, cap, n) == Cursor(true, Slot(counter + 1, cap), Slot(counter + 1 + n, cap))
  {
    var s0 := Slot(counter + 1, cap);
    if n == 1 {
      assert Iterate(IDLE, counter, cap, 0) == IDLE;
      SlotShift(counter + 1, 1, cap);
    } else {
      Iterated(counter, cap, n - 1);
      var prev := Iterate(IDLE, counter, cap, n - 1);
      var x := counter + 1 + (n - 1);
      assert prev == Cursor(true, s0, Slot(x, cap));
      assert Slot(x, cap) != s0 by {
        SlotsDiffer(x, n - 1, cap);
        assert x - (n - 1) == counter + 1;
      }
      AdvanceStep(prev, counter, cap);
      SlotShift(x, 1, cap);
      assert x + 1 == counter + 1 + n;
    }
  }

  /**
   * A dump is one full cycle of the row: from a fresh cursor, calls 0 to
   * cap - 1 succeed, call k reading the slot k after the counter's next
   * slot, so every slot is read once, and call cap reports the end.
   */
  lemma DumpCycle(counter: int, cap: nat, k: nat)
    requires cap > 0 && k <= cap
    ensures var a := Advance(Iterate(IDLE, counter, cap, k), counter, cap);
      (k < cap ==> a.Some? && a.value.slot == Slot(counter + 1 + k, cap)) && (k == cap ==> a.None?)
  {
    if k == 0 {
      assert Iterate(IDLE, counter, cap, 0) == IDLE;
    } else {
      Iterated(counter, cap, k);
      var x := counter + 1 + k;
      if k < cap {
        assert Slot(x, cap) != Slot(counter + 1, cap) by {
          SlotsDiffer(x, k, cap);
          assert x - k == counter + 1;
        }
      } else {
        assert x == (counter + 1) + cap * 1;
        ModAddMultiple(counter + 1, cap, 1);
      }
    }
  }

  /**
   * The counter a dump starts from: row 0's, whichever row it reads. For a
   * global category that is the row's own counter; for a per-CPU category
   * it is CPU 0's, also when the dump is of another CPU.
   */
  function DumpStart(counters: seq<int>): (c: int)
    requires |counters| > 0
    ensures c == counters[0]
  {
    counters[0]
  }

  /**
   * A dump of a row whose counter is the one it starts from (a global
   * category, or CPU 0) reads a row that has recorded at least cap events
   * oldest first: call k yields the (cap - k)-th most recent event.
   */
  lemma DumpOldestFirst(counters: seq<int>, row: seq<Event>, c: int, es: seq<Event>, k: nat)
    requires |counters| > 0 && counters[0] == c + |es|
    requires |row| > 0 && |es| >= |row| && k < |row|
    ensures var start := DumpStart(counters);
      var v := Advance(Iterate(IDLE, start, |row|, k), start, |row|);
      v.Some? && Replay(row, c, es)[v.value.slot] == es[|es| - |row| + k]
  {
    DumpCycle(c + |es|, |row|, k);
    OldestFirst(row, c, es, k);
  }

  /**
   * The dump of CPU 1's row of a per-CPU category starts after CPU 0's
   * counter: with CPU 0 at counter 5 and CPU 1 at counter 0 (one event, in
   * slot 0), the first record handed out for CPU 1 is slot 6, not slot 1,
   * the slot after CPU 1's own counter. The dump still visits every slot of
   * the row once (`DumpCycle`), in rotated order.
   */
  lemma DumpStartsAtCpu0()
    ensures var counters := [5, 0, -1, -1, -1, -1, -1, -1];
      Advance(IDLE, DumpStart(counters), LOG_MAX_NUM).value.slot == 6 &&
      Slot(counters[1] + 1, LOG_MAX_NUM) == 1
  {
    DivModUnique(6, LOG_MAX_NUM, 0, 6);
    DivModUnique(1, LOG_MAX_NUM, 0, 1);
  }

  /** `struct ess_dumper`. */
  class Dumper {
    var active: bool
    var initIdx: int
    var curIdx: int
    var curCpu: nat
    var items: Category
    var step: int

    function State(): (d: Cursor)
      reads this
      ensures d.active == active && d.initIdx == initIdx && d.curIdx == curIdx
    {
      Cursor(active, initIdx, curIdx)
    }

    predicate Valid()
      reads this
    {
      InRow(State(), Cap(items))
    }

    /** A zero-initialised dumper for category `items` on CPU `cpu`. */
    constructor (items: Category, cpu: nat)
      ensures Valid() && State() == IDLE && this.items == items && curCpu == cpu && step == 0
    {
      active := false;
      initIdx := 0;
      curIdx := 0;
      curCpu := cpu;
      this.items := items;
      step := 0;
    }

    /**
     * `exynos_ss_dumper_one`: false, and nothing changed, when there is no
     * line buffer, it is shorter than 128 bytes, the CPU is out of range, the
     * dump is complete or the category is not one it prints; otherwise the
     * record at the slot `Advance` selects, with the cursor moved on.
     */
    method DumpOne(log: EventLog, hasLine: bool, size: nat) returns (ret: bool, e: Option<Event>)
      requires Valid() && log.Valid()
      modifies this
      ensures Valid() && curCpu == old(curCpu) && items == old(items)
      ensures !hasLine || size < MIN_LINE || curCpu >= NR_CPUS || (old(active) && old(initIdx) == old(curIdx)) || items !in PRINTED ==>
        !ret && e.None? && State() == old(State()) && step == old(step)
      ensures ret <==> hasLine && size >= MIN_LINE && curCpu < NR_CPUS && !(old(active) && old(initIdx) == old(curIdx)) && items in PRINTED
      ensures ret ==> (curCpu < NR_CPUS &&
        var v := Advance(old(State()), DumpStart(log.idx[items]), Cap(items)).value;
        State() == v.next && e == Some(log.Read(items, RowOf(items, curCpu), v.slot)) &&
        step == (if items == WORK then 6 else old(step)))
    {
      ret, e := false, None;
      if !hasLine || size < MIN_LINE || curCpu >= NR_CPUS {
        return;
      }
      if active && initIdx == curIdx {
        return;
      }
      if items !in PRINTED {
        return;
      }
      var row := RowOf(items, curCpu);
      var v := Advance(State(), DumpStart(log.idx[items]), Cap(items));
      var idx := v.value.slot;
      if !active {
        initIdx := idx;
        active := true;
      }
      e := Some(log.Read(items, row, idx));
      if items == WORK {
        step := 6;
      }
      if idx == Cap(items) - 1 {
        curIdx := 0;
      } else {
        curIdx := idx + 1;
      }
      NextSlot(idx, Cap(items));
      ret := true;
    }
  }
}
