/**
 * Register decoding of the S2MU004 fuel gauge.
 *
 * The gauge reports current, temperature, raw state of charge and battery
 * voltage as 16-bit words read over I2C as two bytes, low byte first. This
 * module decodes them exactly as the driver does, including the C rounding
 * behaviour, and models the register-repacking "surge" workaround that
 * nudges the gauge's internal voltage field. The bytes read are inputs.
 * The driver is built with SINGLE_BYTE set, so a register pair is read one
 * byte at a time and an I2C error is ignored: a failed byte reads as 0x00
 * and every read of a pair yields a `Pair`.
 */
module FgCodec {
  import opened CInt
  import opened Wrappers

  const EINVAL: int := 22

  /** Number of samples s2mu004_get_avgvbat averages. */
  const AVG_VBAT_SAMPLES: nat := 5

  /** Number of double reads s2mu004_get_rawsoc makes at most while waiting for two equal reads. */
  const RSOC_READ_ATTEMPTS: nat := 50

  /** The two bytes of a register pair, `data[0]` and `data[1]`. */
  datatype Pair = Pair(d0: Byte, d1: Byte)

  /**
   * s2mu004_read_reg with SINGLE_BYTE set: the byte at `reg` and the one at
   * `reg + 1` are read separately (`None` is an I2C error), an error leaves
   * that byte at its initial 0x00, and the function itself reports success.
   */
  function ReadReg(lo: Option<Byte>, hi: Option<Byte>): (p: Pair)
    ensures lo.Some? ==> p.d0 == lo.value
    ensures hi.Some? ==> p.d1 == hi.value
    ensures lo.None? && hi.None? ==> Word(p) == 0
  {
    Pair(if lo.Some? then lo.value else 0, if hi.Some? then hi.value else 0)
  }

  /** `(data[1] << 8) | data[0]`, the `u16 compliment` of the driver. */
  function Word(p: Pair): (w: nat)
    ensures w < 0x10000
  {
    p.d1 * 256 + p.d0
  }

  /** The two's-complement value of a 16-bit word. */
  function Signed16(w: nat): int
    requires w < 0x10000
  {
    if w >= 0x8000 then w - 0x10000 else w
  }

  /**
   * Current in mA, from the instantaneous (s2mu004_get_current) or averaged
   * (s2mu004_get_avgcurrent) register. The sign bit marks charging: then the
   * magnitude `((~w) & 0xFFFF) + 1` is scaled up; otherwise `w & 0x7FFF` is
   * negated and scaled. Both branches compute the negated two's-complement
   * value times 1000/4096, rounded down by the arithmetic shift, so charging
   * reads as a non-negative and discharging as a non-positive current.
   */
  function CurrentOf(w: nat): (ma: int)
    requires w < 0x10000
    ensures ma == Asr(-Signed16(w) * 1000, 12)
    ensures w >= 0x8000 ==> 0 <= ma <= 8000
    ensures w < 0x8000 ==> -8000 <= ma <= 0
  {
    Pow2Values();
    if w >= 0x8000 then Asr(((0xFFFF - w) + 1) * 1000, 12)
    else Asr((w % 0x8000) * -1000, 12)
  }

  /**
   * s2mu004_get_current / s2mu004_get_avgcurrent: a charging current in
   * 0..8000 mA or a discharging one in -8000..0 mA. The driver's -EINVAL
   * branch is never taken, since the read it tests always reports success.
   */
  function ReadCurrent(r: Pair): (ma: int)
    ensures Word(r) >= 0x8000 ==> 0 <= ma <= 8000
    ensures Word(r) < 0x8000 ==> -8000 <= ma <= 0
  {
    CurrentOf(Word(r))
  }

  /**
   * Temperature in degrees Celsius from the monitor register, which holds
   * 1/256 degree in two's complement: `((t * 10) >> 8) / 10`, an arithmetic
   * shift followed by a truncating division. The result is within one degree
   * of the exact reading and has its sign.
   */
  function TemperatureOf(w: nat): (t: int)
    requires w < 0x10000
    ensures 256 * (t - 1) < Signed16(w) < 256 * (t + 1)
    ensures -128 <= t <= 127
    ensures w < 0x8000 ==> t >= 0
    ensures w >= 0x8000 ==> t <= 0
  {
    Pow2Values();
    var temperature := if w >= 0x8000 then -1 * ((0xFFFF - w) + 1) else w % 0x8000;
    CDiv(Asr(temperature * 10, 8), 10)
  }

  /**
   * s2mu004_get_temperature: a whole degree within one degree of the
   * register's reading. The driver's -ERANGE branch is never taken, since
   * the read it tests always reports success.
   */
  function ReadTemperature(r: Pair): (t: int)
    ensures -128 <= t <= 127 && 256 * (t - 1) < Signed16(Word(r)) < 256 * (t + 1)
  {
    TemperatureOf(Word(r))
  }

  /**
   * Raw state of charge in units of 0.01 %, from the RSOC register, which
   * counts 1/16384 of full charge in two's complement. Both branches of the
   * driver compute the signed value times 10000/16384, truncated toward zero.
   */
  function RawSocOf(w: nat): (r: int)
    requires w < 0x10000
    ensures r == CDiv(Signed16(w) * 10000, 16384)
    ensures -20000 <= r <= 19999
    ensures w >= 0x8000 ==> r <= 0
    ensures w < 0x8000 ==> r >= 0
  {
    if w >= 0x8000 then CDiv(((0xFFFF - w) + 1) * (-10000), 16384)
    else CDiv((w % 0x8000) * 10000, 16384)
  }

  /**
   * Battery voltage in mV: `((data[0] + (data[1] << 8)) * 1000) >> 13`, a
   * 1/8.192 mV reading rounded down.
   */
  function VbatOf(w: nat): (mv: nat)
    requires w < 0x10000
    ensures mv * 8192 <= w * 1000 < (mv + 1) * 8192
    ensures mv <= 7999
  {
    Pow2Values();
    (w * 1000) / Pow2(13)
  }

  /**
   * s2mu004_get_vbat: the reading in mV rounded down. The driver's -EINVAL
   * branch is never taken, since the read it tests always reports success.
   */
  function ReadVbat(r: Pair): (mv: int)
    ensures 0 <= mv <= 7999 && mv * 8192 <= Word(r) * 1000 < (mv + 1) * 8192
  {
    VbatOf(Word(r))
  }

  /**
   * A register pair that reads as 0x0000, which is what `ReadReg` yields
   * when both byte reads fail, decodes as no current, 0 degrees, 0 mV and a
   * raw SOC of 0.
   */
  lemma ZeroReadIsZero(p: Pair)
    requires Word(p) == 0
    ensures ReadCurrent(p) == 0 && ReadTemperature(p) == 0 && ReadVbat(p) == 0 && RawSocOf(Word(p)) == 0
  {
    assert Asr(0, 12) == 0;
    var t := ReadTemperature(p);
    assert 256 * (t - 1) < 0 < 256 * (t + 1);
    assert CDiv(0, 16384) == 0;
  }

  /** The voltages of a run of reads. */
  function Samples(rs: seq<Pair>): (vs: seq<int>)
    ensures |vs| == |rs|
    ensures forall i :: 0 <= i < |rs| ==> vs[i] == ReadVbat(rs[i])
  {
    seq(|rs|, i requires 0 <= i < |rs| => VbatOf(Word(rs[i])))
  }

  /**
   * The running average of s2mu004_get_avgvbat: the first sample is taken
   * as is, and every later one is averaged in as `new/2 + old/2`.
   */
  function RunningAvg(vs: seq<int>): int
    requires |vs| > 0
    decreases |vs|
  {
    if |vs| == 1 then vs[0] else vs[|vs| - 1] / 2 + RunningAvg(vs[..|vs| - 1]) / 2
  }

  /**
   * The running average never exceeds the largest sample and falls at most
   * one below the smallest: halving each term separately loses at most one.
   */
  lemma {:induction false} RunningAvgBounds(vs: seq<int>, lo: int, hi: int)
    requires |vs| > 0
    requires forall i :: 0 <= i < |vs| ==> lo <= vs[i] <= hi
    ensures lo - 1 <= RunningAvg(vs) <= hi
  {
    if |vs| > 1 {
      var init := vs[..|vs| - 1];
      RunningAvgBounds(init, lo, hi);
      var n, o := vs[|vs| - 1], RunningAvg(init);
      assert 2 * (n / 2) >= n - 1 && 2 * (n / 2) <= n;
      assert 2 * (o / 2) >= o - 1 && 2 * (o / 2) <= o;
    }
  }

  /**
   * s2mu004_get_avgvbat: five reads of the voltage register folded into a
   * running average. The driver's -EINVAL branch is never taken, since the
   * read it tests always reports success.
   */
  method AvgVbat(rs: seq<Pair>) returns (r: int)
    requires |rs| == AVG_VBAT_SAMPLES
    ensures r == RunningAvg(Samples(rs))
  {
    var oldVbat := 0;
    var cnt := 0;
    while cnt < AVG_VBAT_SAMPLES
      invariant 0 <= cnt <= AVG_VBAT_SAMPLES
      invariant cnt > 0 ==> oldVbat == RunningAvg(Samples(rs[..cnt]))
    {
      var newVbat := VbatOf(Word(rs[cnt]));
      ghost var before := rs[..cnt];
      assert rs[..cnt + 1] == before + [rs[cnt]];
      assert Samples(rs[..cnt + 1])[..cnt] == Samples(before);
      if cnt == 0 {
        oldVbat := newVbat;
      } else {
        oldVbat := newVbat / 2 + oldVbat / 2;
      }
      cnt := cnt + 1;
    }
    assert rs[..cnt] == rs;
    r := oldVbat;
  }

  /** One pass of the RSOC read loop: two reads of the register pair. */
  datatype Attempt = Attempt(first: Pair, second: Pair)

  /** Every attempt before the i-th saw two different values. */
  predicate UnsettledBefore(attempts: seq<Attempt>, i: int)
    requires i <= |attempts|
  {
    forall j :: 0 <= j < i ==> attempts[j].first != attempts[j].second
  }

  /**
   * The value the RSOC read loop of s2mu004_get_rawsoc settles on: the
   * first read of the first attempt whose two reads agree, or of the last
   * attempt if none agrees. The loop's `goto err` on a failed read is never
   * taken, since the read it tests always reports success.
   */
  function Settle(attempts: seq<Attempt>): (r: Pair)
    requires |attempts| > 0
    ensures exists i :: 0 <= i < |attempts| && r == attempts[i].first &&
                        (attempts[i].first == attempts[i].second || i == |attempts| - 1) &&
                        UnsettledBefore(attempts, i)
    decreases |attempts|
  {
    var a := attempts[0];
    if a.first == a.second || |attempts| == 1 then a.first
    else
      var rest := Settle(attempts[1..]);
      assert forall i :: 1 <= i < |attempts| ==> attempts[i] == attempts[1..][i - 1];
      rest
  }

  /** The double-read loop of s2mu004_get_rawsoc (up to 50 attempts). */
  method SettledRead(attempts: seq<Attempt>) returns (r: Pair)
    requires |attempts| == RSOC_READ_ATTEMPTS
    ensures r == Settle(attempts)
  {
    var data := Pair(0, 0);
    var i := 0;
    while i < RSOC_READ_ATTEMPTS
      invariant 0 <= i <= RSOC_READ_ATTEMPTS
      invariant i > 0 ==> data == attempts[i - 1].first
      invariant i > 0 ==> Settle(attempts) == (if i == RSOC_READ_ATTEMPTS then data else Settle(attempts[i..]))
      invariant i == 0 ==> Settle(attempts) == Settle(attempts[i..])
    {
      var a := attempts[i];
      data := a.first;
      if a.first == a.second {
        return data;
      }
      assert attempts[i..][1..] == attempts[i + 1..];
      i := i + 1;
    }
    r := data;
  }

  /** The 12-bit field formed by the low nibble of the high register and the low register. */
  function Field(hi: Byte, lo: Byte): nat
  {
    (hi % 16) * 256 + lo
  }

  /**
   * The field value the surge workaround writes back: the field is shifted
   * left by 3, `(offset << 16) / 10000` is added, the sum is masked to 15
   * bits, shifted back and masked to 12 bits. In effect the field moves by
   * the added amount divided by 8 (rounded down), modulo 4096.
   */
  function SurgeField(hi: Byte, lo: Byte, offset: int): (a: nat)
    ensures a < 4096
    ensures a == (Field(hi, lo) + CDiv(offset * 65536, 10000) / 8) % 4096
  {
    var a0 := Field(hi, lo) * 8;
    var delta := CDiv(offset * 65536, 10000);
    var a1 := Mask(a0 + delta, 0x8000);
    var a2 := a1 / 8;
    var r := Mask(a2, 0x1000);
    SurgeFieldShift(Field(hi, lo), delta);
    r
  }

  lemma SurgeFieldShift(f: int, delta: int)
    ensures ((f * 8 + delta) % 0x8000) / 8 % 0x1000 == (f + delta / 8) % 4096
  {
    var q, s := delta / 8, delta % 8;
    assert f * 8 + delta == 8 * (f + q) + s;
    var m := (f + q) % 4096;
    var k := (f + q) / 4096;
    assert f * 8 + delta == 0x8000 * k + (8 * m + s);
    DivModUnique(f * 8 + delta, 0x8000, k, 8 * m + s);
  }

  /**
   * A register write of the driver: to a register it names by number, or to
   * S2MU004_REG_MONOUT_SEL, whose number is defined in the driver's header,
   * which is not part of this model.
   */
  datatype RegWrite = RegWrite(reg: Byte, val: Byte) | MonoutSel(val: Byte)

  /** No write in `ws` selects what the monitor register shows. */
  predicate NoMonitorWrite(ws: seq<RegWrite>)
  {
    forall i :: 0 <= i < |ws| ==> ws[i].RegWrite?
  }

  /** The monitor selections the driver uses: temperature, the register's default, and average current. */
  const MONOUT_TEMPERATURE: Byte := 0x10
  const MONOUT_AVG_CURRENT: Byte := 0x26

  /** What the monitor register shows after the writes `ws`, starting from the selection `sel`. */
  function MonitorAfter(sel: Byte, ws: seq<RegWrite>): Byte
    decreases |ws|
  {
    if ws == [] then sel
    else MonitorAfter(if ws[0].MonoutSel? then ws[0].val else sel, ws[1..])
  }

  /** Writes to numbered registers leave the monitor selection alone. */
  lemma {:induction false} NoMonitorWriteKeeps(sel: Byte, ws: seq<RegWrite>)
    requires NoMonitorWrite(ws)
    ensures MonitorAfter(sel, ws) == sel
    decreases |ws|
  {
    if ws != [] {
      assert NoMonitorWrite(ws[1..]) by {
        forall i | 0 <= i < |ws[1..]| ensures ws[1..][i].RegWrite? {
          assert ws[1..][i] == ws[i + 1];
        }
      }
      NoMonitorWriteKeeps(sel, ws[1..]);
    }
  }

  /** The selection after two runs of writes is the second run's, starting from the first's. */
  lemma {:induction false} MonitorAfterAppend(sel: Byte, a: seq<RegWrite>, b: seq<RegWrite>)
    ensures MonitorAfter(sel, a + b) == MonitorAfter(MonitorAfter(sel, a), b)
    decreases |a|
  {
    if a != [] {
      assert (a + b)[0] == a[0];
      assert (a + b)[1..] == a[1..] + b;
      MonitorAfterAppend(if a[0].MonoutSel? then a[0].val else sel, a[1..], b);
    } else {
      assert a + b == b;
    }
  }

  /** s2mu004_get_temperature's write: the monitor set to temperature before it is read. */
  function TemperatureWrites(): (ws: seq<RegWrite>)
    ensures forall sel: Byte :: MonitorAfter(sel, ws) == MONOUT_TEMPERATURE
  {
    [MonoutSel(MONOUT_TEMPERATURE)]
  }

  /**
   * s2mu004_get_avgcurrent's writes: the monitor switched to average
   * current for the read, then back to temperature. The `goto err` that
   * would skip the second write is never taken, since the read it tests
   * always reports success.
   */
  function AvgCurrentWrites(): (ws: seq<RegWrite>)
    ensures |ws| == 2 && ws[0] == MonoutSel(MONOUT_AVG_CURRENT)
  {
    [MonoutSel(MONOUT_AVG_CURRENT), MonoutSel(MONOUT_TEMPERATURE)]
  }

  /** Whatever it showed before, the monitor shows temperature again after s2mu004_get_avgcurrent. */
  lemma AvgCurrentRestoresMonitor(sel: Byte)
    ensures MonitorAfter(sel, AvgCurrentWrites()) == MONOUT_TEMPERATURE
  {
    var ws := AvgCurrentWrites();
    assert MonitorAfter(sel, ws) == MonitorAfter(MONOUT_AVG_CURRENT, ws[1..]);
    assert ws[1..][1..] == [];
  }

  const REG_RESTART: Byte := 0x1E
  const RESTART_AND_DUMP_DONE: Byte := 0x0F

  /**
   * The register writes of the surge workaround on the register pair
   * (hiReg, loReg) whose bytes read `hi` and `lo`: the patched field (upper
   * nibble of hiReg kept), a gauge restart, and the restoring writes, where
   * `hiAfter` is hiReg as read back after the restart.
   */
  function SurgeWrites(hiReg: Byte, loReg: Byte, hi: Byte, lo: Byte, offset: int, hiAfter: Byte): (ws: seq<RegWrite>)
    ensures |ws| == 5 && NoMonitorWrite(ws)
  {
    var a := SurgeField(hi, lo, offset);
    [RegWrite(hiReg, (hi / 16) * 16 + a / 256),
     RegWrite(loReg, a % 256),
     RegWrite(REG_RESTART, RESTART_AND_DUMP_DONE),
     RegWrite(hiReg, (hiAfter / 16) * 16 + hi % 16),
     RegWrite(loReg, lo)]
  }

  /**
   * WA_0_issue_at_init: the workaround on registers 0x4f/0x4e with the
   * offset fixed at zero, so that it writes back the bytes it read, restarts
   * the gauge, and restores them.
   */
  function InitWorkaround(v4f: Byte, v4e: Byte, v4fAfter: Byte): (ws: seq<RegWrite>)
    ensures |ws| == 5 && NoMonitorWrite(ws)
    ensures ws[0] == RegWrite(0x4f, v4f) && ws[1] == RegWrite(0x4e, v4e)
    ensures ws[2] == RegWrite(REG_RESTART, RESTART_AND_DUMP_DONE)
    ensures ws[3].reg == 0x4f && ws[3].val % 16 == v4f % 16 && ws[3].val / 16 == v4fAfter / 16
    ensures ws[4] == RegWrite(0x4e, v4e)
  {
    ZeroOffsetWritesBackOriginal(0x4f, 0x4e, v4f, v4e, v4fAfter);
    SurgePreservesUntouchedBits(0x4f, 0x4e, v4f, v4e, 0, v4fAfter);
    SurgeWrites(0x4f, 0x4e, v4f, v4e, 0, v4fAfter)
  }

  /**
   * WA_0_issue_at_init1: a restart, then the workaround on registers
   * 0x53/0x52 with the offset between the target OCV and the gauge's own
   * voltage (`fgVbat`, the s2mu004_get_vbat reading after the restart), both
   * in 0.1 mV.
   */
  function ResetWorkaround(targetOcv: int, fgVbat: int, v53: Byte, v52: Byte, v53After: Byte): (ws: seq<RegWrite>)
    ensures |ws| == 6 && NoMonitorWrite(ws)
    ensures ws[0] == RegWrite(REG_RESTART, RESTART_AND_DUMP_DONE) && ws[3] == ws[0]
    ensures ws[1].reg == 0x53 && ws[1].val / 16 == v53 / 16
    ensures ws[1].val % 16 * 256 + ws[2].val == SurgeField(v53, v52, targetOcv * 10 - fgVbat * 10)
    ensures ws[4].reg == 0x53 && ws[4].val % 16 == v53 % 16 && ws[4].val / 16 == v53After / 16
    ensures ws[5] == RegWrite(0x52, v52)
  {
    SurgePreservesUntouchedBits(0x53, 0x52, v53, v52, targetOcv * 10 - fgVbat * 10, v53After);
    [RegWrite(REG_RESTART, RESTART_AND_DUMP_DONE)] + SurgeWrites(0x53, 0x52, v53, v52, targetOcv * 10 - fgVbat * 10, v53After)
  }

  /**
   * With a zero offset the patch writes back the bytes it read: the field
   * survives the shift-mask-unshift round trip.
   */
  lemma ZeroOffsetWritesBackOriginal(hiReg: Byte, loReg: Byte, hi: Byte, lo: Byte, hiAfter: Byte)
    ensures SurgeWrites(hiReg, loReg, hi, lo, 0, hiAfter)[0] == RegWrite(hiReg, hi)
    ensures SurgeWrites(hiReg, loReg, hi, lo, 0, hiAfter)[1] == RegWrite(loReg, lo)
  {
    var a := SurgeField(hi, lo, 0);
    assert CDiv(0 * 65536, 10000) == 0;
    assert a == Field(hi, lo);
  }

  /**
   * Whatever the offset, the patch keeps the upper nibble of the high
   * register, and the final writes restore its low nibble and the low
   * register as they were read.
   */
  lemma SurgePreservesUntouchedBits(hiReg: Byte, loReg: Byte, hi: Byte, lo: Byte, offset: int, hiAfter: Byte)
    ensures var ws := SurgeWrites(hiReg, loReg, hi, lo, offset, hiAfter);
      ws[0].reg == hiReg && ws[0].val / 16 == hi / 16 &&
      ws[3].reg == hiReg && ws[3].val % 16 == hi % 16 && ws[3].val / 16 == hiAfter / 16 &&
      ws[4] == RegWrite(loReg, lo)
  {
  }
}
