/**
 * The OCV/SOC mapping of the S2MU004 fuel gauge.
 *
 * The battery profile gives two 22-entry tables, open-circuit voltages
 * (in 0.1 mV) and the states of charge (in 0.01 %) they correspond to, both
 * decreasing from full to empty. s2mu004_get_soc_from_ocv looks a voltage
 * up in the first and reads the second; s2mu004_get_ocv does the reverse.
 * Both clamp outside the table, binary-search the bracketing pair and
 * interpolate linearly with C's truncating division.
 *
 * The search itself does not rely on the table being sorted: its bracket
 * invariant alone guarantees that the interpolation reads two neighbouring
 * entries, one on each side of the key, with a non-zero difference.
 */
module OcvTable {
  import opened CInt

  const TABLE_SIZE: nat := 22

  type Table = s: seq<int> | |s| == TABLE_SIZE witness seq(TABLE_SIZE, i => 0)

  /** Where the search stops: an exact match, or two neighbours with the key strictly between. */
  datatype Probe = Hit(index: nat) | Between(high: nat, low: nat)

  /**
   * The loop invariant of the search: everything left of `low` is above the
   * key and everything right of `high` below it, and the key lies strictly
   * inside the table's end points.
   */
  predicate Bracketed(keys: Table, x: int, low: int, high: int)
  {
    0 <= low <= TABLE_SIZE && -1 <= high < TABLE_SIZE && low <= high + 1 &&
    keys[TABLE_SIZE - 1] < x < keys[0] &&
    (low == 0 || keys[low - 1] > x) &&
    (high == TABLE_SIZE - 1 || keys[high + 1] < x)
  }

  /** The binary search of the driver, one halving step per call. */
  function Search(keys: Table, x: int, low: int, high: int): (p: Probe)
    requires Bracketed(keys, x, low, high)
    ensures p.Hit? ==> p.index < TABLE_SIZE && keys[p.index] == x
    ensures p.Between? ==> p.low == p.high + 1 && p.low < TABLE_SIZE && keys[p.high] > x > keys[p.low]
    decreases high - low
  {
    if low > high then
      Between(high, low)
    else
      var mid := (low + high) / 2;
      if keys[mid] > x then Search(keys, x, mid + 1, high)
      else if keys[mid] < x then Search(keys, x, low, mid - 1)
      else Hit(mid)
  }

  predicate Within(r: int, a: int, b: int)
  {
    (a <= r <= b) || (b <= r <= a)
  }

  lemma MulMono(x: int, y: int, z: int)
    requires x <= y && z >= 0
    ensures x * z <= y * z
  {
    if x < y && z > 0 {
      MulAtLeast(z, y - x);
      assert y * z - x * z == z * (y - x);
    }
  }

  /** A fraction b/d <= 1 of a non-negative a, rounded down, stays within [0, a]. */
  lemma ScaledDownBounds(a: int, b: int, d: int)
    requires a >= 0 && 0 <= b <= d && d > 0
    ensures 0 <= (a * b) / d <= a
  {
    MulMono(0, a, b);
    MulMono(b, d, a);
    assert a * b <= a * d;
    var q := (a * b) / d;
    if q > a {
      MulMono(a + 1, q, d);
      assert false;
    }
  }

  /**
   * `vh + ((vl - vh) * (x - kh)) / (kl - kh)` with kh > x > kl: the
   * interpolated value lies between the two table values.
   */
  function Interpolate(kh: int, kl: int, vh: int, vl: int, x: int): (r: int)
    requires kh > x > kl
    ensures Within(r, vh, vl)
  {
    var r := vh + CDiv((vl - vh) * (x - kh), kl - kh);
    InterpolateWithin(kh, kl, vh, vl, x);
    r
  }

  lemma InterpolateWithin(kh: int, kl: int, vh: int, vl: int, x: int)
    requires kh > x > kl
    ensures Within(vh + CDiv((vl - vh) * (x - kh), kl - kh), vh, vl)
  {
    var dv, at, ad := vl - vh, kh - x, kh - kl;
    // Both differences x - kh and kl - kh are negative, with |x - kh| < |kl - kh|.
    if dv >= 0 {
      var p := dv * at;
      assert dv * (x - kh) == -p;
      MulMono(0, dv, at);
      ScaledDownBounds(dv, at, ad);
      assert CDiv(-p, -ad) == p / ad;
    } else {
      var p := (-dv) * at;
      assert dv * (x - kh) == p;
      MulMono(0, -dv, at);
      ScaledDownBounds(-dv, at, ad);
      assert CDiv(p, -ad) == -(p / ad);
    }
  }

  /**
   * The value the driver maps key x to: the last entry at or below the
   * table's low end, the first at or above its high end, the matching entry
   * on an exact hit, otherwise an interpolation between the neighbours that
   * bracket x.
   */
  function Lookup(keys: Table, vals: Table, x: int): (r: int)
    ensures x <= keys[TABLE_SIZE - 1] ==> r == vals[TABLE_SIZE - 1]
    ensures keys[TABLE_SIZE - 1] < x && keys[0] <= x ==> r == vals[0]
    ensures keys[TABLE_SIZE - 1] < x < keys[0] ==>
      (exists i :: 0 <= i < TABLE_SIZE && keys[i] == x && r == vals[i]) ||
      (exists h :: 0 <= h < TABLE_SIZE - 1 && keys[h] > x > keys[h + 1] && Within(r, vals[h], vals[h + 1]))
  {
    if x <= keys[TABLE_SIZE - 1] then vals[TABLE_SIZE - 1]
    else if x >= keys[0] then vals[0]
    else
      match Search(keys, x, 0, TABLE_SIZE - 1)
      case Hit(i) => vals[i]
      case Between(h, l) => Interpolate(keys[h], keys[l], vals[h], vals[l], x)
  }

  predicate StrictlyDecreasing(keys: Table)
  {
    forall a, b :: 0 <= a < b < TABLE_SIZE ==> keys[a] > keys[b]
  }

  /**
   * On a strictly decreasing table, looking up one of the table's own keys
   * gives exactly the paired value: the search cannot stop between two
   * neighbours when the key is one of them.
   */
  lemma LookupAtKnot(keys: Table, vals: Table, i: nat)
    requires StrictlyDecreasing(keys) && i < TABLE_SIZE
    ensures Lookup(keys, vals, keys[i]) == vals[i]
  {
    var x := keys[i];
    if 0 < i < TABLE_SIZE - 1 {
      match Search(keys, x, 0, TABLE_SIZE - 1)
      case Hit(j) =>
      case Between(h, l) =>
    }
  }

  /** The lookup loop shared by s2mu004_get_soc_from_ocv and s2mu004_get_ocv. */
  method TableLookup(keys: Table, vals: Table, x: int) returns (r: int)
    ensures r == Lookup(keys, vals, x)
  {
    if x <= keys[TABLE_SIZE - 1] {
      return vals[TABLE_SIZE - 1];
    } else if x >= keys[0] {
      return vals[0];
    }
    var low, high := 0, TABLE_SIZE - 1;
    while low <= high
      invariant Bracketed(keys, x, low, high)
      invariant Search(keys, x, low, high) == Search(keys, x, 0, TABLE_SIZE - 1)
      decreases high - low
    {
      var mid := Asr(low + high, 1);
      assert mid == (low + high) / 2;
      if keys[mid] > x {
        low := mid + 1;
      } else if keys[mid] < x {
        high := mid - 1;
      } else {
        return vals[mid];
      }
    }
    r := vals[high] + CDiv((vals[low] - vals[high]) * (x - keys[high]), keys[low] - keys[high]);
  }

  /** s2mu004_get_soc_from_ocv: the SOC for an OCV given in mV (the table is in 0.1 mV). */
  method SocFromOcv(ocvArr: Table, socArr: Table, targetOcv: int) returns (soc: int)
    ensures soc == Lookup(ocvArr, socArr, targetOcv * 10)
  {
    soc := TableLookup(ocvArr, socArr, targetOcv * 10);
  }

  /** s2mu004_get_ocv: the OCV (in 0.1 mV) for the gauge's current SOC. */
  method OcvFromSoc(socArr: Table, ocvArr: Table, soc: int) returns (ocv: int)
    ensures ocv == Lookup(socArr, ocvArr, soc)
  {
    ocv := TableLookup(socArr, ocvArr, soc);
  }
}
