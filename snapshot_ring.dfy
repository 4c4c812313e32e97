/**
 * The fixed-capacity event rings of exynos-snapshot.
 *
 * Every event category of `struct exynos_ss_log` is an array of `rows`
 * rings (one per CPU, or a single global one) of `cap` slots, cap a power of
 * two, with one monotone counter per row in `struct exynos_ss_log_idx`. A
 * recorder raises the counter and writes the slot `counter & (cap - 1)`; the
 * counters start at -1, so the first event lands in slot 0.
 *
 * `RingState` is the value of one category (its counters and the contents of
 * its rows), the view through which the in-place event log is specified. The
 * replay lemmas say what a ring holds after any sequence of events: the most
 * recent `cap` of them, each in the slot its counter value selects, and read
 * oldest first from the slot after the current counter.
 */
module SnapshotRing {
  import opened CInt

  /** The slot a counter value selects: `counter & (cap - 1)`. */
  function Slot(counter: int, cap: nat): (i: nat)
    requires cap > 0
    ensures i < cap
  {
    Mask(counter, cap)
  }

  datatype RingState<T> = RingState(counters: seq<int>, rows: seq<seq<T>>)

  /** `rows` rows of `cap` slots each, one counter per row. */
  predicate Shaped<T>(s: RingState<T>, rows: nat, cap: nat)
  {
    |s.counters| == rows && |s.rows| == rows &&
    forall r :: 0 <= r < rows ==> |s.rows[r]| == cap
  }

  /** The ring right after `exynos_ss_fixmap_header`: every counter -1, every slot zeroed. */
  function Cleared<T>(rows: nat, cap: nat, zero: T): (s: RingState<T>)
    ensures Shaped(s, rows, cap)
  {
    RingState(seq(rows, _ => -1), seq(rows, _ => seq(cap, _ => zero)))
  }

  /** One row after an event `e` is recorded with the row's counter at `counter`. */
  function Push<T>(row: seq<T>, counter: int, e: T): (r: seq<T>)
    requires |row| > 0
    ensures |r| == |row|
  {
    row[Slot(counter + 1, |row|) := e]
  }

  /** `atomic_inc_return` / `atomic_dec` / `atomic_set` on one counter. */
  function Bumped<T>(s: RingState<T>, r: nat, d: int): (s': RingState<T>)
    requires r < |s.counters|
  {
    s.(counters := s.counters[r := s.counters[r] + d])
  }

  /** One slot of one row overwritten. */
  function Stored<T>(s: RingState<T>, r: nat, j: nat, e: T): (s': RingState<T>)
    requires r < |s.rows| && j < |s.rows[r]|
  {
    s.(rows := s.rows[r := s.rows[r][j := e]])
  }

  /** The gate-open path of every recorder: raise row r's counter and store e at the slot it selects. */
  function Logged<T>(s: RingState<T>, r: nat, e: T): (s': RingState<T>)
    requires |s.counters| == |s.rows| && r < |s.rows| && |s.rows[r]| > 0
    ensures |s'.counters| == |s.counters| && |s'.rows| == |s.rows|
    ensures s'.counters[r] == s.counters[r] + 1
    ensures s'.rows[r] == Push(s.rows[r], s.counters[r], e)
    ensures s'.rows[r][Slot(s.counters[r] + 1, |s.rows[r]|)] == e
    ensures forall j :: 0 <= j < |s.rows[r]| && j != Slot(s.counters[r] + 1, |s.rows[r]|) ==> s'.rows[r][j] == s.rows[r][j]
    ensures forall q :: 0 <= q < |s.rows| && q != r ==> s'.rows[q] == s.rows[q] && s'.counters[q] == s.counters[q]
  {
    Stored(Bumped(s, r, 1), r, Slot(s.counters[r] + 1, |s.rows[r]|), e)
  }

  /** The slot the next event of row r will overwrite. */
  function Next<T>(s: RingState<T>, r: nat): T
    requires |s.counters| == |s.rows| && r < |s.rows| && |s.rows[r]| > 0
  {
    s.rows[r][Slot(s.counters[r] + 1, |s.rows[r]|)]
  }

  /** A recorder with its gate `on`: the event logged when open, nothing changed when closed. */
  function LoggedIf<T>(on: bool, s: RingState<T>, r: nat, e: T): (s': RingState<T>)
    requires |s.counters| == |s.rows| && r < |s.rows| && |s.rows[r]| > 0
  {
    if on then Logged(s, r, e) else s
  }

  /** The row after the events `es` are recorded, in order, starting from counter value c. */
  function Replay<T>(row: seq<T>, c: int, es: seq<T>): (r: seq<T>)
    requires |row| > 0
    ensures |r| == |row|
    decreases |es|
  {
    if es == [] then row
    else Push(Replay(row, c, es[..|es| - 1]), c + |es| - 1, es[|es| - 1])
  }

  /** Two counter values fewer than cap apart select different slots. */
  lemma SlotsDiffer(a: int, k: int, cap: nat)
    requires cap > 0 && 0 < k < cap
    ensures Slot(a - k, cap) != Slot(a, cap)
  {
    var q, r := a / cap, a % cap;
    if Slot(a - k, cap) == Slot(a, cap) {
      var q' := (a - k) / cap;
      assert a - k == cap * q' + r;
      assert cap * (q - q') == k;
      if q - q' >= 1 { MulAtLeast(cap, q - q'); } else if q - q' <= -1 { MulAtMost(cap, q - q'); }
      assert false;
    }
  }

  /**
   * After events es are recorded, the k-th most recent of them (k < cap) sits
   * in the slot selected by the counter value it was recorded with: a ring
   * keeps the last `cap` events and overwrites older ones.
   */
  lemma {:induction false} ReplayKeepsLatest<T>(row: seq<T>, c: int, es: seq<T>, k: nat)
    requires |row| > 0 && k < |es| && k < |row|
    ensures Replay(row, c, es)[Slot(c + |es| - k, |row|)] == es[|es| - 1 - k]
  {
    var n := |es|;
    var init := es[..n - 1];
    if k > 0 {
      SlotsDiffer(c + n, k, |row|);
      ReplayKeepsLatest(row, c, init, k - 1);
      assert c + |init| - (k - 1) == c + n - k;
      assert init[|init| - 1 - (k - 1)] == es[n - 1 - k];
    }
  }

  /**
   * Replay counted from the counter: the slot after the final counter value
   * holds the oldest of the last `cap` events, and the following slots hold
   * the later ones in order. This is the order in which the dumper reads a
   * full ring: visit i (0 <= i < cap) of a dump started at counter value
   * c + |es| reads the event es[|es| - cap + i].
   */
  lemma OldestFirst<T>(row: seq<T>, c: int, es: seq<T>, i: nat)
    requires |row| > 0 && |es| >= |row| && i < |row|
    ensures Replay(row, c, es)[Slot(c + |es| + 1 + i, |row|)] == es[|es| - |row| + i]
  {
    var cap := |row|;
    var k := cap - 1 - i;
    ReplayKeepsLatest(row, c, es, k);
    assert c + |es| + 1 + i == (c + |es| - k) + cap * 1;
    ModAddMultiple(c + |es| - k, cap, 1);
  }
}
