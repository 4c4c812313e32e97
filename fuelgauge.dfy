/**
 * The state the S2MU004 fuel-gauge driver keeps between calls, and the
 * power-supply property handlers that update it.
 *
 * The driver's `struct s2mu004_fuelgauge_data` becomes the class `Gauge`:
 * the platform data read at probe time are constants, and the fields the
 * handlers assign are variables. Everything the hardware or the battery
 * core supplies during one call (register bytes, the UI state of charge,
 * the charger type) arrives in a `Readings` value. The register writes the
 * driver performs are appended to `writes`, in order.
 */
module FuelGauge {
  import opened CInt
  import opened Wrappers
  import opened FgCodec
  import opened OcvTable

  const ENODATA: int := 61

  /** The gauge's measuring mode (the driver's CURRENT_MODE and the two voltage modes). */
  datatype Mode = CurrentMode | LowSocVoltageMode | HighSocVoltageMode

  /** The bits of `capacity_calculation_type` the driver tests. */
  datatype CalcType = CalcType(scale: bool, dynamicScale: bool, atomic: bool, skipAbnormal: bool)

  /** Properties handled by get_property and set_property. */
  datatype Prop =
    | Status | ChargeFull | EnergyNow | VoltageNow | VoltageAvg | CurrentNow | CurrentAvg
    | Capacity | Temp | TempAmbient | EnergyFullDesign | Scope | ChargeType | Online
    | ChargeEmpty | EnergyAvg | OtherProp

  /**
   * The selector a caller passes in `val->intval` where the driver compares
   * it with a named constant of the battery class; the numeric values of
   * those constants are not part of this model.
   */
  datatype Selector = VoltageAverage | VoltageOcv | CapacityRaw | CapacityReset | OtherValue

  /**
   * What the hardware and the battery core supply during one call. Each
   * register pair is what s2mu004_read_reg stores (`ReadReg` of its two
   * byte reads), so an I2C error shows up as zero bytes, not as an error.
   */
  datatype Readings = Readings(
    vbat: Pair,                  // RVBAT
    avgVbat: seq<Pair>,          // the five RVBAT reads of get_avgvbat
    current: Pair,               // RCUR_CC
    avgCurrent: Pair,            // MONOUT with the average-current selection
    temperature: Pair,           // MONOUT with the temperature selection
    rsoc: seq<Attempt>,          // the RSOC double reads of get_rawsoc
    uiSoc: int,                  // the battery core's CAPACITY, in %
    chargerType: int,            // the charger's CHARGE_TYPE
    vbatAfterRestart: Pair,      // RVBAT read by the surge workaround after its restart
    v53: Byte, v52: Byte,        // registers 0x53 and 0x52 before the surge workaround
    v53After: Byte)              // register 0x53 read back after the workaround's restart

  predicate WellFormed(hw: Readings)
  {
    |hw.avgVbat| == AVG_VBAT_SAMPLES && |hw.rsoc| == RSOC_READ_ATTEMPTS
  }

  function AvgVbatOf(rs: seq<Pair>): int
    requires |rs| == AVG_VBAT_SAMPLES
  {
    RunningAvg(Samples(rs))
  }

  const REG_MODE: Byte := 0x4A
  const MODE_VOLTAGE: Byte := 0xFF
  const MODE_CURRENT: Byte := 0x10

  /** The mode switch driven by the raw state of charge (0.01 %): voltage mode at or below 3 %, back above 3.25 %. */
  function SocStep(m: Mode, soc: int): Mode
  {
    if soc <= 300 then (if m == CurrentMode then LowSocVoltageMode else m)
    else if soc > 325 then (if m == LowSocVoltageMode then CurrentMode else m)
    else m
  }

  /** The mode switch driven by the UI state of charge (%): voltage mode from 98 %, back below 97 %. */
  function UiStep(m: Mode, ui: int): Mode
  {
    if ui >= 98 then (if m == CurrentMode then HighSocVoltageMode else m)
    else if ui < 97 then (if m == HighSocVoltageMode then CurrentMode else m)
    else m
  }

  /**
   * The mode after one s2mu004_get_rawsoc: the raw-SOC switch, then the
   * UI-SOC switch. Every transition and its exact condition; between the
   * thresholds (3 % to 3.25 %, 97 % to 98 %) the mode is kept, and the
   * high-SOC voltage mode never goes straight to the low-SOC one.
   */
  function NextMode(m: Mode, soc: int, ui: int): (n: Mode)
    ensures m == CurrentMode ==>
      (n == LowSocVoltageMode <==> soc <= 300) && (n == HighSocVoltageMode <==> soc > 300 && ui >= 98)
    ensures m == LowSocVoltageMode ==>
      (n == CurrentMode <==> soc > 325 && ui < 98) && (n == HighSocVoltageMode <==> soc > 325 && ui >= 98)
    ensures m == HighSocVoltageMode ==> (n == CurrentMode <==> ui < 97) && n != LowSocVoltageMode
  {
    UiStep(SocStep(m, soc), ui)
  }

  /** The write to the mode register that accompanies a mode change. */
  function ModeWrite(from: Mode, to: Mode): seq<RegWrite>
  {
    if from == to then [] else [RegWrite(REG_MODE, if to == CurrentMode then MODE_CURRENT else MODE_VOLTAGE)]
  }

  /**
   * The mode-register writes of one s2mu004_get_rawsoc: one per switch that
   * fires, each selecting the mode switched to, the last selecting the
   * final mode.
   */
  function ModeWrites(m: Mode, soc: int, ui: int): (ws: seq<RegWrite>)
    ensures |ws| <= 2
    ensures ws == [] <==> NextMode(m, soc, ui) == m
    ensures forall i :: 0 <= i < |ws| ==> ws[i].RegWrite? && ws[i].reg == REG_MODE
    ensures ws != [] ==>
      ws[|ws| - 1].val == (if NextMode(m, soc, ui) == CurrentMode then MODE_CURRENT else MODE_VOLTAGE)
  {
    var mid := SocStep(m, soc);
    ModeWrite(m, mid) + ModeWrite(mid, UiStep(mid, ui))
  }

  /** `ocv_pwroff` of get_rawsoc: in current mode the voltage is corrected by 15 % of the average current. */
  function OcvPwroff(m: Mode, avgVbat: int, avgCurrent: int): int
  {
    if m == CurrentMode then avgVbat - CDiv(avgCurrent * 15, 100) else avgVbat
  }

  /**
   * Whether get_rawsoc's surge check fires: discharging, average voltage at
   * most 3.3 V, readings steady (voltage within 20 mV, and in current mode
   * current within 30 mA), and the SOC the OCV table gives for the corrected
   * voltage more than 3 % away from the gauge's.
   */
  predicate SurgeFires(ocvArr: Table, socArr: Table, isCharging: bool, m: Mode, soc: int,
                       avgVbat: int, vbat: int, avgCurrent: int, curr: int)
  {
    !isCharging && avgVbat <= 3300 && Abs(avgVbat - vbat) <= 20 &&
    (m != CurrentMode || Abs(avgCurrent - curr) <= 30) &&
    Abs(Lookup(ocvArr, socArr, OcvPwroff(m, avgVbat, avgCurrent) * 10) - soc) > 300
  }

  /**
   * The writes of get_rawsoc's surge check: the reset workaround toward the
   * corrected voltage when the check fires on the readings, none otherwise.
   */
  function SurgeCheckWrites(ocvArr: Table, socArr: Table, isCharging: bool, m: Mode, soc: int, hw: Readings): (ws: seq<RegWrite>)
    requires WellFormed(hw)
    ensures NoMonitorWrite(ws)
  {
    var avgCurrent, avgVbat := ReadCurrent(hw.avgCurrent), AvgVbatOf(hw.avgVbat);
    var vbat, curr := ReadVbat(hw.vbat), ReadCurrent(hw.current);
    if SurgeFires(ocvArr, socArr, isCharging, m, soc, avgVbat, vbat, avgCurrent, curr)
    then ResetWorkaround(OcvPwroff(m, avgVbat, avgCurrent), ReadVbat(hw.vbatAfterRestart), hw.v53, hw.v52, hw.v53After)
    else []
  }

  /** The effect of one s2mu004_get_rawsoc. */
  datatype RawSocOutcome = RawSocOutcome(ret: int, soc: int, mode: Mode, writes: seq<RegWrite>)

  /**
   * get_rawsoc as a function of the state it reads: -EINVAL and no change
   * before initialisation; otherwise the new SOC (0.01 %,
   * decoded from the settled read plus diff_soc), the mode after the
   * hysteresis, the mode writes, then the monitor selections of
   * s2mu004_get_avgcurrent, then the surge workaround's writes when the check
   * fires, and the SOC capped at 100 %. The workaround does not change the
   * SOC returned.
   */
  function RawSocStep(ocvArr: Table, socArr: Table, diffSoc: int, initialised: bool, isCharging: bool,
                      m: Mode, soc: int, hw: Readings): (o: RawSocOutcome)
    requires WellFormed(hw)
    ensures !initialised ==> o == RawSocOutcome(-EINVAL, soc, m, [])
    ensures initialised ==>
      o.soc == RawSocOf(Word(Settle(hw.rsoc))) + diffSoc &&
      o.ret == Min(o.soc, 10000) && o.ret <= 10000 &&
      o.mode == NextMode(m, o.soc, hw.uiSoc) &&
      ModeWrites(m, o.soc, hw.uiSoc) <= o.writes
  {
    if !initialised then RawSocOutcome(-EINVAL, soc, m, [])
    else
      var soc' := RawSocOf(Word(Settle(hw.rsoc))) + diffSoc;
      var m' := NextMode(m, soc', hw.uiSoc);
      RawSocOutcome(Min(soc', 10000), soc', m',
        ModeWrites(m, soc', hw.uiSoc) + (AvgCurrentWrites() + SurgeCheckWrites(ocvArr, socArr, isCharging, m', soc', hw)))
  }

  /**
   * After a get_rawsoc past the initialisation check, the monitor register
   * shows temperature, its default, whatever it showed before: the mode
   * writes and the surge writes leave it alone, and get_avgcurrent switches
   * it back.
   */
  lemma RawSocMonitor(ocvArr: Table, socArr: Table, diffSoc: int, initialised: bool, isCharging: bool,
                      m: Mode, soc: int, hw: Readings, sel: Byte)
    requires WellFormed(hw) && initialised
    ensures var o := RawSocStep(ocvArr, socArr, diffSoc, initialised, isCharging, m, soc, hw);
      MonitorAfter(sel, o.writes) == MONOUT_TEMPERATURE
  {
    var o := RawSocStep(ocvArr, socArr, diffSoc, initialised, isCharging, m, soc, hw);
    var mw, aw := ModeWrites(m, o.soc, hw.uiSoc), AvgCurrentWrites();
    var sw := SurgeCheckWrites(ocvArr, socArr, isCharging, o.mode, o.soc, hw);
    MonitorAfterAppend(sel, mw, aw + sw);
    NoMonitorWriteKeeps(sel, mw);
    MonitorAfterAppend(sel, aw, sw);
    NoMonitorWriteKeeps(MonitorAfter(sel, aw), sw);
    AvgCurrentRestoresMonitor(sel);
  }

  /**
   * s2mu004_fg_check_capacity_max: a requested capacity_max is kept when it
   * lies in [design - margin - 10, design + margin] and otherwise pulled to
   * design - margin or design + margin.
   */
  function CheckCapacityMax(design: int, margin: nat, cm: int): (r: int)
    ensures design - margin - 10 <= r <= design + margin
    ensures design - margin - 10 <= cm <= design + margin ==> r == cm
  {
    if cm < design - margin - 10 then design - margin
    else if cm > design + margin then design + margin
    else cm
  }

  /**
   * s2mu004_fg_get_scaled_capacity: a capacity (0.1 %) below capacity_min
   * reads as 0, otherwise it is rescaled so that [capacity_min,
   * capacity_max] spans [0, 1000].
   */
  function ScaledCapacity(v: int, cmin: int, cmax: int): (r: int)
    requires cmax != cmin
    ensures cmax > cmin ==> r >= 0
    ensures cmax > cmin && v <= cmax ==> r <= 1000
    ensures cmax > cmin && v >= cmax ==> r >= 1000
    ensures v <= cmin ==> r == 0
  {
    if v < cmin then 0
    else
      var r := CDiv((v - cmin) * 1000, cmax - cmin);
      if cmax > cmin then
        ScaleBounds(v - cmin, cmax - cmin);
        r
      else r
  }

  /** n/d of the full scale 1000, rounded toward zero, for 0 <= n and 0 < d. */
  lemma ScaleBounds(n: int, d: int)
    requires 0 <= n && 0 < d
    ensures var r := CDiv(n * 1000, d);
      0 <= r && (n <= d ==> r <= 1000) && (n >= d ==> r >= 1000)
  {
    var p := n * 1000;
    MulMono(0, n, 1000);
    CDivNonNegative(p, d);
    assert CDiv(n * 1000, d) == p / d;
    if n <= d {
      ScaledDownBounds(1000, n, d);
      assert 1000 * n == p;
    }
    if n >= d {
      ScaleFull(n, d);
    }
  }

  lemma ScaleFull(n: int, d: int)
    requires 0 < d <= n
    ensures (n * 1000) / d >= 1000
  {
    MulMono(d, n, 1000);
    DivModUnique(d * 1000, d, 1000, 0);
    DivMono(d * 1000, n * 1000, d);
  }

  lemma DivMono(x: int, y: int, d: int)
    requires x <= y && d > 0
    ensures x / d <= y / d
  {
    if x / d > y / d {
      MulMono(y / d + 1, x / d, d);
      assert false;
    }
  }

  /** The clamp to [0, 1000] and the division to whole percent of get_property's CAPACITY case. */
  function WholePercent(v: int): (r: int)
    ensures 0 <= r <= 100
    ensures 0 <= v <= 1000 ==> r * 10 <= v < r * 10 + 10
  {
    var c := if v > 1000 then 1000 else if v < 0 then 0 else v;
    c / 10
  }

  /**
   * s2mu004_fg_get_atomic_capacity: with ATOMIC the reported capacity moves
   * at most one step from the previous one toward the new value; with
   * SKIP_ABNORMAL it never rises while not charging. Either way the result
   * lies between the previous value `prev` and the new value.
   */
  function AtomicCapacity(calcType: CalcType, isCharging: bool, prev: int, v: int): (r: int)
    ensures Within(r, prev, v)
    ensures calcType.atomic ==> prev - 1 <= r <= prev + 1
    ensures calcType.skipAbnormal && !isCharging ==> r <= prev
    ensures !calcType.atomic && !(calcType.skipAbnormal && !isCharging) ==> r == v
  {
    var a := if calcType.atomic then (if prev < v then prev + 1 else if prev > v then prev - 1 else v) else v;
    if calcType.skipAbnormal && !isCharging && prev < a then prev else a
  }

  /**
   * The capacity_max s2mu004_fg_calculate_dynamic_scale sets, from the raw
   * SOC (0.1 %) and the capacity (%) reported at full charge: the raw SOC is
   * clamped to [design - margin, design + margin] and scaled by
   * 100 / (capacity + 1) through check_capacity_max, or by 99/100 at 100 %.
   */
  function DynamicScale(design: int, margin: nat, raw: int, capacity: int): (r: int)
    requires capacity != -1
    ensures capacity != 100 ==> design - margin - 10 <= r <= design + margin
    ensures capacity == 100 && design >= margin ==>
      (design - margin) * 99 / 100 <= r <= (design + margin) * 99 / 100
  {
    var base := if raw < design - margin then design - margin
                else if raw > design + margin then design + margin
                else raw;
    if capacity != 100 then CheckCapacityMax(design, margin, CDiv(base * 100, capacity + 1))
    else
      var r := CDiv(base * 99, 100);
      assert design >= margin ==> r == base * 99 / 100;
      r
  }

  /** `v | 0x10`: bit 4 set, the other bits kept. */
  function WithBit4(v: Byte): (r: Byte)
    ensures r / 32 == v / 32 && r % 16 == v % 16 && r / 16 % 2 == 1
  {
    if v / 16 % 2 == 1 then v else v + 16
  }

  /** `(v & 0xF0) | 0x07`: the upper nibble kept, the lower one set to 7. */
  function UpperNibbleAnd7(v: Byte): (r: Byte)
    ensures r / 16 == v / 16 && r % 16 == 7
  {
    v / 16 * 16 + 7
  }

  /**
   * The battery calibration s2mu004_reset_fg loads, as parsed from the
   * device tree: `batcap` and the two battery tables, 32-bit values of which
   * each write keeps the low byte.
   */
  datatype BatteryData = BatteryData(batcap: seq<int>, table3: seq<int>, table4: seq<int>)

  predicate BatteryDataShaped(d: BatteryData)
  {
    |d.batcap| == 4 && |d.table3| == 88 && |d.table4| == 22
  }

  /** The registers s2mu004_init_regs reads back, in the order it reads them. */
  datatype InitReadings = InitReadings(v27: Byte, v45: Byte, v45Again: Byte, v27Again: Byte, v03: Byte,
                                       v4f: Byte, v4e: Byte, v4fAfter: Byte)

  /** A battery table written to consecutive registers from `first`, one `(u8)` entry each. */
  function TableWrites(first: nat, t: seq<int>): (ws: seq<RegWrite>)
    requires first + |t| <= 256
    ensures |ws| == |t| && NoMonitorWrite(ws)
  {
    seq(|t|, i requires 0 <= i < |t| => RegWrite(first + i, t[i] % 256))
  }

  /** The register settings of s2mu004_reset_fg between the tables and the workaround. */
  function ResetSettings(rd: InitReadings): seq<RegWrite>
  {
    [RegWrite(0x21, 0x13), RegWrite(0x14, 0x40),
     RegWrite(0x45, UpperNibbleAnd7(rd.v45Again)), RegWrite(0x44, 0xAE),
     RegWrite(0x27, WithBit4(rd.v27Again)),
     RegWrite(0x4B, 0x0B), RegWrite(REG_MODE, MODE_CURRENT),
     RegWrite(0x03, WithBit4(rd.v03)), RegWrite(0x40, 0x04)]
  }

  /**
   * The writes of s2mu004_init_regs: its own settings of 0x27, 0x45 and
   * 0x44, then s2mu004_reset_fg's: batcap, the two battery tables, the
   * register settings, and WA_0_issue_at_init.
   */
  function InitRegsWrites(d: BatteryData, rd: InitReadings): (ws: seq<RegWrite>)
    requires BatteryDataShaped(d)
  {
    [RegWrite(0x27, WithBit4(rd.v27)), RegWrite(0x45, UpperNibbleAnd7(rd.v45)), RegWrite(0x44, 0xAE),
     RegWrite(0x0E, d.batcap[1] % 256), RegWrite(0x0F, d.batcap[0] % 256),
     RegWrite(0x10, d.batcap[3] % 256), RegWrite(0x11, d.batcap[2] % 256)] +
    TableWrites(0x92, d.table3) + TableWrites(0xea, d.table4) +
    ResetSettings(rd) + InitWorkaround(rd.v4f, rd.v4e, rd.v4fAfter)
  }

  /** The byte the calibration assigns to battery-table register r (0x92 to 0xff). */
  function TableByte(d: BatteryData, r: int): Byte
    requires BatteryDataShaped(d) && 0x92 <= r <= 0xff
  {
    if r < 0xea then d.table3[r - 0x92] % 256 else d.table4[r - 0xea] % 256
  }

  /**
   * s2mu004_init_regs loads the battery tables into registers 0x92 to 0xff:
   * each of them is written exactly once, with its table byte, and the
   * workaround that ends the sequence leaves 0x4e and the low nibble of
   * 0x4f as they were read.
   */
  lemma InitRegsLoadsTables(d: BatteryData, rd: InitReadings)
    requires BatteryDataShaped(d)
    ensures var ws := InitRegsWrites(d, rd);
      |ws| == 131 && NoMonitorWrite(ws) &&
      (forall r :: 0x92 <= r <= 0xff ==> ws[7 + r - 0x92] == RegWrite(r, TableByte(d, r))) &&
      (forall i :: 0 <= i < |ws| && 0x92 <= ws[i].reg <= 0xff ==> i == 7 + ws[i].reg - 0x92) &&
      ws[130] == RegWrite(0x4e, rd.v4e) && ws[129].reg == 0x4f && ws[129].val % 16 == rd.v4f % 16
  {
    var head := [RegWrite(0x27, WithBit4(rd.v27)), RegWrite(0x45, UpperNibbleAnd7(rd.v45)), RegWrite(0x44, 0xAE),
                 RegWrite(0x0E, d.batcap[1] % 256), RegWrite(0x0F, d.batcap[0] % 256),
                 RegWrite(0x10, d.batcap[3] % 256), RegWrite(0x11, d.batcap[2] % 256)];
    var t3, t4 := TableWrites(0x92, d.table3), TableWrites(0xea, d.table4);
    var tail := ResetSettings(rd) + InitWorkaround(rd.v4f, rd.v4e, rd.v4fAfter);
    var ws := InitRegsWrites(d, rd);
    assert ws == head + t3 + t4 + tail;
    assert |tail| == 14;
    forall i | 0 <= i < |ws|
      ensures ws[i].RegWrite?
      ensures 7 <= i < 117 ==> ws[i] == RegWrite(0x92 + (i - 7), TableByte(d, 0x92 + (i - 7)))
      ensures (i < 7 || i >= 117) ==> !(0x92 <= ws[i].reg <= 0xff)
    {
      if i < 7 {
        assert ws[i] == head[i];
      } else if i < 95 {
        assert ws[i] == t3[i - 7];
      } else if i < 117 {
        assert ws[i] == t4[i - 95];
      } else {
        assert ws[i] == tail[i - 117];
      }
    }
    forall r | 0x92 <= r <= 0xff
      ensures ws[7 + r - 0x92] == RegWrite(r, TableByte(d, r))
    {
      var i := 7 + r - 0x92;
      assert 0x92 + (i - 7) == r;
    }
  }

  class Gauge {
    const socArr: Table
    const ocvArr: Table
    /** pdata->capacity_max, the designed capacity_max (0.1 %). */
    const capacityMaxDesign: int
    const capacityMaxMargin: nat
    const capacityMin: int
    const calcType: CalcType
    const fuelAlertSoc: int
    /** diff_soc: no code assigns it, so it keeps the zero of the allocation. */
    const diffSoc: int

    /** The file-static fuelgauge_initial: set once s2mu004_init_regs has run. */
    var initialised: bool
    var mode: Mode
    /** info.soc, the last raw SOC in 0.01 %. */
    var soc: int
    var capacityOld: int
    var capacityMax: int
    var initialUpdateOfSoc: bool
    var isCharging: bool
    var cableType: int
    /** Set by the fuel-alert interrupt, which is not part of this model. */
    var isFuelAlerted: bool
    /** How many times get_property released the fuel-alert wake lock and re-armed the alert. */
    var alertRearms: nat
    var writes: seq<RegWrite>

    /** The state probe leaves: capacity_max at its design value, SOC 0, current mode, initial update pending. */
    constructor(socArr: Table, ocvArr: Table, capacityMaxDesign: int, capacityMaxMargin: nat,
                capacityMin: int, calcType: CalcType, fuelAlertSoc: int, initialised: bool)
      ensures this.socArr == socArr && this.ocvArr == ocvArr
      ensures this.capacityMaxDesign == capacityMaxDesign && this.capacityMaxMargin == capacityMaxMargin
      ensures this.capacityMin == capacityMin && this.calcType == calcType && this.fuelAlertSoc == fuelAlertSoc
      ensures diffSoc == 0 && this.initialised == initialised
      ensures mode == CurrentMode && soc == 0 && capacityOld == 0 && capacityMax == capacityMaxDesign
      ensures initialUpdateOfSoc && !isCharging && cableType == 0 && !isFuelAlerted
      ensures alertRearms == 0 && writes == []
    {
      this.socArr := socArr;
      this.ocvArr := ocvArr;
      this.capacityMaxDesign := capacityMaxDesign;
      this.capacityMaxMargin := capacityMaxMargin;
      this.capacityMin := capacityMin;
      this.calcType := calcType;
      this.fuelAlertSoc := fuelAlertSoc;
      diffSoc := 0;
      this.initialised := initialised;
      mode := CurrentMode;
      soc := 0;
      capacityOld := 0;
      capacityMax := capacityMaxDesign;
      initialUpdateOfSoc := true;
      isCharging := false;
      cableType := 0;
      isFuelAlerted := false;
      alertRearms := 0;
      writes := [];
    }

    /** s2mu004_get_rawsoc. */
    method GetRawSoc(hw: Readings) returns (r: int)
      requires WellFormed(hw)
      modifies this`soc, this`mode, this`writes
      ensures var o := RawSocStep(ocvArr, socArr, diffSoc, initialised, isCharging, old(mode), old(soc), hw);
        r == o.ret && soc == o.soc && mode == o.mode && writes == old(writes) + o.writes
    {
      if !initialised {
        return -EINVAL;
      }
      var data := SettledRead(hw.rsoc);
      r := SocFromRegister(data, hw);
    }

    /** The part of s2mu004_get_rawsoc after the SOC register was read as `data`. */
    method SocFromRegister(data: Pair, hw: Readings) returns (r: int)
      requires WellFormed(hw)
      modifies this`soc, this`mode, this`writes
      ensures soc == RawSocOf(Word(data)) + diffSoc && r == Min(soc, 10000)
      ensures mode == NextMode(old(mode), soc, hw.uiSoc)
      ensures writes == old(writes) +
        (ModeWrites(old(mode), soc, hw.uiSoc) + (AvgCurrentWrites() + SurgeCheckWrites(ocvArr, socArr, isCharging, mode, soc, hw)))
    {
      ghost var m0, w0 := mode, writes;
      soc := RawSocOf(Word(data)) + diffSoc;
      UpdateMode(hw.uiSoc);
      RecordSurge(hw);
      assert writes == w0 + ModeWrites(m0, soc, hw.uiSoc) + (AvgCurrentWrites() + SurgeCheckWrites(ocvArr, socArr, isCharging, mode, soc, hw));
      r := Min(soc, 10000);
    }

    /** The readings the surge check of s2mu004_get_rawsoc takes, and its writes recorded. */
    method RecordSurge(hw: Readings)
      requires WellFormed(hw)
      modifies this`writes
      ensures writes == old(writes) + (AvgCurrentWrites() + SurgeCheckWrites(ocvArr, socArr, isCharging, mode, soc, hw))
    {
      ghost var w0 := writes;
      var avgCurrent := GetAvgCurrent(hw.avgCurrent);
      var avgVbat := AvgVbat(hw.avgVbat);
      assert avgVbat == AvgVbatOf(hw.avgVbat);
      var vbat := ReadVbat(hw.vbat);
      var curr := ReadCurrent(hw.current);
      var surge := SurgeCheck(avgVbat, vbat, avgCurrent, curr, hw);
      writes := writes + surge;
      assert writes == w0 + AvgCurrentWrites() + surge;
    }

    /**
     * s2mu004_get_avgcurrent: the monitor switched to the average current
     * for the read, then back to temperature.
     */
    method GetAvgCurrent(r: Pair) returns (ma: int)
      modifies this`writes
      ensures ma == ReadCurrent(r)
      ensures writes == old(writes) + AvgCurrentWrites()
    {
      writes := writes + [MonoutSel(MONOUT_AVG_CURRENT)];
      ma := CurrentOf(Word(r));
      writes := writes + [MonoutSel(MONOUT_TEMPERATURE)];
    }

    /** s2mu004_get_temperature: the monitor set to temperature, then read. */
    method GetTemperature(r: Pair) returns (t: int)
      modifies this`writes
      ensures t == ReadTemperature(r)
      ensures writes == old(writes) + TemperatureWrites()
    {
      writes := writes + [MonoutSel(MONOUT_TEMPERATURE)];
      t := ReadTemperature(r);
    }

    /** The mode hysteresis of s2mu004_get_rawsoc, applied to the SOC just read. */
    method UpdateMode(uiSoc: int)
      modifies this`mode, this`writes
      ensures mode == NextMode(old(mode), soc, uiSoc)
      ensures writes == old(writes) + ModeWrites(old(mode), soc, uiSoc)
    {
      if soc <= 300 {
        if mode == CurrentMode {
          mode := LowSocVoltageMode;
          writes := writes + [RegWrite(REG_MODE, MODE_VOLTAGE)];
        }
      } else if soc > 325 {
        if mode == LowSocVoltageMode {
          mode := CurrentMode;
          writes := writes + [RegWrite(REG_MODE, MODE_CURRENT)];
        }
      }
      if uiSoc >= 98 {
        if mode == CurrentMode {
          mode := HighSocVoltageMode;
          writes := writes + [RegWrite(REG_MODE, MODE_VOLTAGE)];
        }
      } else if uiSoc < 97 {
        if mode == HighSocVoltageMode {
          mode := CurrentMode;
          writes := writes + [RegWrite(REG_MODE, MODE_CURRENT)];
        }
      }
    }

    /** The surge check at the end of s2mu004_get_rawsoc: the workaround's writes, if it fires. */
    method SurgeCheck(avgVbat: int, vbat: int, avgCurrent: int, curr: int, hw: Readings) returns (ws: seq<RegWrite>)
      requires WellFormed(hw)
      requires avgCurrent == ReadCurrent(hw.avgCurrent) && avgVbat == AvgVbatOf(hw.avgVbat)
      requires vbat == ReadVbat(hw.vbat) && curr == ReadCurrent(hw.current)
      ensures ws == SurgeCheckWrites(ocvArr, socArr, isCharging, mode, soc, hw)
    {
      ghost var fires := SurgeFires(ocvArr, socArr, isCharging, mode, soc, avgVbat, vbat, avgCurrent, curr);
      assert SurgeCheckWrites(ocvArr, socArr, isCharging, mode, soc, hw) ==
        if fires then ResetWorkaround(OcvPwroff(mode, avgVbat, avgCurrent), ReadVbat(hw.vbatAfterRestart), hw.v53, hw.v52, hw.v53After)
        else [];
      ws := [];
      if !isCharging && avgVbat <= 3300 {
        // current mode also asks for a steady current, and corrects the voltage by it
        var steady := Abs(avgVbat - vbat) <= 20 && (mode != CurrentMode || Abs(avgCurrent - curr) <= 30);
        if steady {
          var ocvPwroff := if mode == CurrentMode then avgVbat - CDiv(avgCurrent * 15, 100) else avgVbat;
          assert ocvPwroff == OcvPwroff(mode, avgVbat, avgCurrent);
          var targetSoc := SocFromOcv(ocvArr, socArr, ocvPwroff);
          if Abs(targetSoc - soc) > 300 {
            ws := ResetWorkaround(ocvPwroff, ReadVbat(hw.vbatAfterRestart), hw.v53, hw.v52, hw.v53After);
          }
        }
      }
    }

    /** s2mu004_get_ocv: the OCV (0.1 mV) the table gives for the last raw SOC. */
    method GetOcv() returns (ocv: int)
      ensures ocv == Lookup(socArr, ocvArr, soc)
    {
      ocv := OcvFromSoc(socArr, ocvArr, soc);
    }

    /** s2mu004_fg_get_atomic_capacity: smooths v and records the result as capacity_old. */
    method GetAtomicCapacity(v: int) returns (r: int)
      modifies this`capacityOld
      ensures r == AtomicCapacity(calcType, isCharging, old(capacityOld), v)
      ensures capacityOld == r
    {
      r := v;
      if calcType.atomic {
        if capacityOld < r {
          r := capacityOld + 1;
        } else if capacityOld > r {
          r := capacityOld - 1;
        }
      }
      if calcType.skipAbnormal {
        if !isCharging && capacityOld < r {
          r := capacityOld;
        }
      }
      capacityOld := r;
    }

    /**
     * s2mu004_fg_calculate_dynamic_scale: reads the raw SOC (with all its
     * effects), sets capacity_max from it and records the capacity as
     * capacity_old.
     */
    method CalculateDynamicScale(hw: Readings, capacity: int) returns (r: int)
      requires WellFormed(hw) && capacity != -1
      modifies this`soc, this`mode, this`writes, this`capacityMax, this`capacityOld
      ensures var o := RawSocStep(ocvArr, socArr, diffSoc, initialised, isCharging, old(mode), old(soc), hw);
        soc == o.soc && mode == o.mode && writes == old(writes) + o.writes &&
        capacityMax == DynamicScale(capacityMaxDesign, capacityMaxMargin, CDiv(o.ret, 10), capacity) &&
        capacityOld == capacity && r == capacityMax
    {
      var raw := GetRawSoc(hw);
      raw := CDiv(raw, 10);
      if raw < capacityMaxDesign - capacityMaxMargin {
        capacityMax := capacityMaxDesign - capacityMaxMargin;
      } else {
        capacityMax := if raw > capacityMaxDesign + capacityMaxMargin then capacityMaxDesign + capacityMaxMargin else raw;
      }
      if capacity != 100 {
        capacityMax := CheckCapacityMax(capacityMaxDesign, capacityMaxMargin, CDiv(capacityMax * 100, capacity + 1));
      } else {
        capacityMax := CDiv(capacityMax * 99, 100);
      }
      capacityOld := capacity;
      r := capacityMax;
    }

    /**
     * s2mu004_init_regs: the register setup, with s2mu004_reset_fg's
     * calibration load, after which get_rawsoc no longer fails for want of
     * initialisation.
     */
    method InitRegs(d: BatteryData, rd: InitReadings)
      requires BatteryDataShaped(d)
      modifies this`writes, this`initialised
      ensures initialised
      ensures writes == old(writes) + InitRegsWrites(d, rd)
    {
      writes := writes + [RegWrite(0x27, WithBit4(rd.v27)), RegWrite(0x45, UpperNibbleAnd7(rd.v45)), RegWrite(0x44, 0xAE)];
      ResetFg(d, rd);
      initialised := true;
    }

    /** s2mu004_reset_fg: batcap, the battery tables, the register settings and WA_0_issue_at_init. */
    method ResetFg(d: BatteryData, rd: InitReadings)
      requires BatteryDataShaped(d)
      modifies this`writes
      ensures writes == old(writes) + InitRegsWrites(d, rd)[3..]
    {
      ghost var w0 := writes;
      writes := writes + [RegWrite(0x0E, d.batcap[1] % 256), RegWrite(0x0F, d.batcap[0] % 256),
                          RegWrite(0x10, d.batcap[3] % 256), RegWrite(0x11, d.batcap[2] % 256)];
      ghost var w1 := writes;
      LoadTable(0x92, d.table3);
      ghost var w2 := writes;
      LoadTable(0xea, d.table4);
      ghost var w3 := writes;
      writes := writes + ResetSettings(rd);
      writes := writes + InitWorkaround(rd.v4f, rd.v4e, rd.v4fAfter);
      ghost var ws := InitRegsWrites(d, rd);
      assert ws[3..] == ws[3..7] + TableWrites(0x92, d.table3) + TableWrites(0xea, d.table4) +
        ResetSettings(rd) + InitWorkaround(rd.v4f, rd.v4e, rd.v4fAfter);
      assert w1 == w0 + ws[3..7];
    }

    /** A battery-table loop of s2mu004_reset_fg: entry i written to register `first + i`. */
    method LoadTable(first: nat, table: seq<int>)
      requires first + |table| <= 256
      modifies this`writes
      ensures writes == old(writes) + TableWrites(first, table)
    {
      var i := 0;
      while i < |table|
        invariant 0 <= i <= |table|
        invariant writes == old(writes) + TableWrites(first, table[..i])
      {
        assert TableWrites(first, table[..i + 1]) == TableWrites(first, table[..i]) + [RegWrite(first + i, table[i] % 256)];
        writes := writes + [RegWrite(first + i, table[i] % 256)];
        i := i + 1;
      }
      assert table[..i] == table;
    }

    /** s2mu004_restart_gauging. */
    method RestartGauging()
      modifies this`writes
      ensures writes == old(writes) + [RegWrite(0x21, 0x13), RegWrite(REG_RESTART, RESTART_AND_DUMP_DONE)]
    {
      writes := writes + [RegWrite(0x21, 0x13), RegWrite(REG_RESTART, RESTART_AND_DUMP_DONE)];
    }

    /** The capacity (%) get_property reports before smoothing, from get_rawsoc's return value. */
    function ReportedCapacity(raw: int): (r: int)
      reads this`capacityMax
      requires (calcType.scale || calcType.dynamicScale) ==> capacityMax != capacityMin
      ensures 0 <= r <= 100
    {
      var v := CDiv(raw, 10);
      WholePercent(if calcType.scale || calcType.dynamicScale then ScaledCapacity(v, capacityMin, capacityMax) else v)
    }

    /**
     * What the CAPACITY case of s2mu004_fg_get_property does between the
     * state before it (`old`) and the state after, reporting `val`: the raw
     * SOC's effects; then with the raw selector the raw SOC as is, and
     * otherwise the capacity scaled and clamped to whole percent, the
     * fuel-alert re-arm above the alert SOC, and either the initial update
     * of capacity_old or the atomic smoothing. Nothing else changes.
     */
    twostate predicate CapacityRead(sel: Selector, hw: Readings, val: int)
      requires WellFormed(hw)
      requires sel != CapacityRaw && (calcType.scale || calcType.dynamicScale) ==> capacityMax != capacityMin
      reads this
    {
      var o := RawSocStep(ocvArr, socArr, diffSoc, initialised, isCharging, old(mode), old(soc), hw);
      soc == o.soc && mode == o.mode && writes == old(writes) + o.writes &&
      if sel == CapacityRaw then
        val == o.ret && capacityOld == old(capacityOld) && initialUpdateOfSoc == old(initialUpdateOfSoc) &&
        alertRearms == old(alertRearms)
      else
        var c := ReportedCapacity(o.ret);
        alertRearms == old(alertRearms) + (if c > fuelAlertSoc && isFuelAlerted then 1 else 0) &&
        if old(initialUpdateOfSoc) then
          val == c && capacityOld == c && !initialUpdateOfSoc
        else if calcType.atomic || calcType.skipAbnormal then
          val == AtomicCapacity(calcType, isCharging, old(capacityOld), c) && capacityOld == val &&
          !initialUpdateOfSoc
        else
          val == c && capacityOld == old(capacityOld) && !initialUpdateOfSoc
    }

    /**
     * The CAPACITY case of s2mu004_fg_get_property: the raw SOC as is, or
     * scaled, clamped to whole percent and smoothed, with the initial update
     * and the fuel-alert re-arm.
     */
    method GetCapacity(sel: Selector, hw: Readings) returns (val: int)
      requires WellFormed(hw)
      requires sel != CapacityRaw && (calcType.scale || calcType.dynamicScale) ==> capacityMax != capacityMin
      modifies this`soc, this`mode, this`writes, this`capacityOld, this`initialUpdateOfSoc, this`alertRearms
      ensures CapacityRead(sel, hw, val)
    {
      var raw := GetRawSoc(hw);
      if sel == CapacityRaw {
        return raw;
      }
      var c := ToWholePercent(raw);
      val := Smooth(c);
    }

    /** The scaling, clamping and truncation to whole percent of get_property's CAPACITY case. */
    method ToWholePercent(raw: int) returns (v: int)
      requires (calcType.scale || calcType.dynamicScale) ==> capacityMax != capacityMin
      ensures v == ReportedCapacity(raw)
    {
      v := CDiv(raw, 10);
      if calcType.scale || calcType.dynamicScale {
        v := ScaledCapacity(v, capacityMin, capacityMax);
      }
      if v > 1000 {
        v := 1000;
      }
      if v < 0 {
        v := 0;
      }
      v := v / 10;
    }

    /**
     * The end of get_property's CAPACITY case: the fuel-alert re-arm, then
     * either the initial update of capacity_old or the atomic smoothing.
     */
    method Smooth(c: int) returns (val: int)
      modifies this`capacityOld, this`initialUpdateOfSoc, this`alertRearms
      ensures alertRearms == old(alertRearms) + (if c > fuelAlertSoc && isFuelAlerted then 1 else 0)
      ensures old(initialUpdateOfSoc) ==> val == c && capacityOld == c && !initialUpdateOfSoc
      ensures !old(initialUpdateOfSoc) && (calcType.atomic || calcType.skipAbnormal) ==>
        val == AtomicCapacity(calcType, isCharging, old(capacityOld), c) && capacityOld == val && !initialUpdateOfSoc
      ensures !old(initialUpdateOfSoc) && !(calcType.atomic || calcType.skipAbnormal) ==>
        val == c && capacityOld == old(capacityOld) && !initialUpdateOfSoc
    {
      val := c;
      if val > fuelAlertSoc && isFuelAlerted {
        alertRearms := alertRearms + 1;
      }
      if initialUpdateOfSoc {
        capacityOld := val;
        initialUpdateOfSoc := false;
      } else if calcType.atomic || calcType.skipAbnormal {
        val := GetAtomicCapacity(val);
      }
    }

    /**
     * s2mu004_fg_get_property. `ret` is the return code and `val` what is
     * stored in `val->intval` (`None` where the driver leaves it alone).
     */
    method GetProperty(p: Prop, sel: Selector, hw: Readings) returns (ret: int, val: Option<int>)
      requires WellFormed(hw)
      requires p == Capacity && sel != CapacityRaw && (calcType.scale || calcType.dynamicScale) ==> capacityMax != capacityMin
      modifies this`soc, this`mode, this`writes, this`capacityOld, this`initialUpdateOfSoc, this`alertRearms
      ensures p !in {Capacity, CurrentAvg, Temp, TempAmbient} ==> unchanged(this)
      ensures p in {CurrentAvg, Temp, TempAmbient} ==>
        writes == old(writes) + (if p == CurrentAvg then AvgCurrentWrites() else TemperatureWrites()) &&
        unchanged(this`soc, this`mode, this`capacityOld, this`initialUpdateOfSoc, this`alertRearms)
      ensures p in {Status, ChargeFull, EnergyNow} ==> ret == -ENODATA && val == None
      ensures p in {Online, ChargeEmpty, EnergyAvg, OtherProp} ==> ret == -EINVAL && val == None
      ensures p !in {Status, ChargeFull, EnergyNow, Online, ChargeEmpty, EnergyAvg, OtherProp} ==> ret == 0
      ensures p == VoltageNow ==> val == Some(ReadVbat(hw.vbat))
      ensures p == VoltageAvg ==>
        (val == if sel == VoltageAverage then Some(AvgVbatOf(hw.avgVbat))
                else if sel == VoltageOcv then Some(Lookup(socArr, ocvArr, soc)) else None)
      ensures p == CurrentNow ==> val == Some(ReadCurrent(hw.current))
      ensures p == CurrentAvg ==> val == Some(ReadCurrent(hw.avgCurrent))
      ensures p in {Temp, TempAmbient} ==> val == Some(ReadTemperature(hw.temperature))
      ensures p == EnergyFullDesign ==> val == Some(capacityMax)
      ensures p == Scope ==> val == Some(ModeCode(mode))
      ensures p == ChargeType ==> val == Some(hw.chargerType)
      ensures p == Capacity ==> val.Some? && CapacityRead(sel, hw, val.value)
    {
      ret, val := 0, None;
      match p
      case Status => ret := -ENODATA;
      case ChargeFull => ret := -ENODATA;
      case EnergyNow => ret := -ENODATA;
      case VoltageNow => val := Some(ReadVbat(hw.vbat));
      case VoltageAvg =>
        if sel == VoltageAverage {
          var v := AvgVbat(hw.avgVbat);
          val := Some(v);
        } else if sel == VoltageOcv {
          var v := GetOcv();
          val := Some(v);
        }
      case CurrentNow => val := Some(ReadCurrent(hw.current));
      case CurrentAvg =>
        var v := GetAvgCurrent(hw.avgCurrent);
        val := Some(v);
      case Capacity =>
        var v := GetCapacity(sel, hw);
        val := Some(v);
      case Temp =>
        var v := GetTemperature(hw.temperature);
        val := Some(v);
      case TempAmbient =>
        var v := GetTemperature(hw.temperature);
        val := Some(v);
      case EnergyFullDesign => val := Some(capacityMax);
      case Scope => val := Some(ModeCode(mode));
      case ChargeType => val := Some(hw.chargerType);
      case Online => ret := -EINVAL;
      case ChargeEmpty => ret := -EINVAL;
      case EnergyAvg => ret := -EINVAL;
      case OtherProp => ret := -EINVAL;
    }

    /**
     * s2mu004_fg_set_property with `val->intval` as `v` (or, where the
     * driver compares it with a named constant, as `sel`).
     */
    method SetProperty(p: Prop, v: int, sel: Selector, hw: Readings) returns (ret: int)
      requires WellFormed(hw)
      requires p == ChargeFull && calcType.dynamicScale ==> v != -1
      modifies this`soc, this`mode, this`writes, this`capacityMax, this`capacityOld,
        this`isCharging, this`cableType, this`initialUpdateOfSoc
      ensures ret == (if p in {VoltageNow, VoltageAvg, CurrentNow, CurrentAvg, Scope, OtherProp} then -EINVAL else 0)
      ensures p !in {ChargeFull, Online, Capacity, EnergyFullDesign, ChargeEmpty, EnergyAvg} ==> unchanged(this)
      ensures p == ChargeFull && !calcType.dynamicScale ==> unchanged(this)
      ensures p == ChargeFull && calcType.dynamicScale ==>
        var o := RawSocStep(ocvArr, socArr, diffSoc, initialised, isCharging, old(mode), old(soc), hw);
        soc == o.soc && mode == o.mode && writes == old(writes) + o.writes &&
        capacityMax == DynamicScale(capacityMaxDesign, capacityMaxMargin, CDiv(o.ret, 10), v) &&
        capacityOld == v && unchanged(this`isCharging, this`cableType, this`initialUpdateOfSoc)
      ensures p == Online ==>
        (cableType == v && isCharging == (v != 0) &&
         unchanged(this`soc, this`mode, this`writes, this`capacityMax, this`capacityOld, this`initialUpdateOfSoc))
      ensures p == Capacity && sel != CapacityReset ==> unchanged(this)
      ensures p == Capacity && sel == CapacityReset ==>
        (initialUpdateOfSoc &&
         writes == old(writes) + [RegWrite(0x21, 0x13), RegWrite(REG_RESTART, RESTART_AND_DUMP_DONE)] &&
         unchanged(this`soc, this`mode, this`capacityMax, this`capacityOld, this`isCharging, this`cableType))
      ensures p == EnergyFullDesign ==>
        capacityMax == CheckCapacityMax(capacityMaxDesign, capacityMaxMargin, v) && initialUpdateOfSoc &&
        unchanged(this`soc, this`mode, this`writes, this`capacityOld, this`isCharging, this`cableType)
      ensures p == ChargeEmpty ==>
        (writes == old(writes) + [RegWrite(0x1F, 0x01)] &&
         unchanged(this`soc, this`mode, this`capacityMax, this`capacityOld, this`isCharging, this`cableType, this`initialUpdateOfSoc))
      ensures p == EnergyAvg ==>
        (writes == old(writes) + [RegWrite(0x41, if v != 0 then 0x10 else 0x04)] &&
         unchanged(this`soc, this`mode, this`capacityMax, this`capacityOld, this`isCharging, this`cableType, this`initialUpdateOfSoc))
    {
      ret := 0;
      match p
      case Status =>
      case ChargeFull =>
        if calcType.dynamicScale {
          var _ := CalculateDynamicScale(hw, v);
        }
      case Online =>
        cableType := v;
        isCharging := v != 0;
      case Capacity =>
        if sel == CapacityReset {
          initialUpdateOfSoc := true;
          RestartGauging();
        }
      case Temp =>
      case TempAmbient =>
      case EnergyNow =>
      case EnergyFullDesign =>
        capacityMax := CheckCapacityMax(capacityMaxDesign, capacityMaxMargin, v);
        initialUpdateOfSoc := true;
      case ChargeType =>
      case ChargeEmpty =>
        writes := writes + [RegWrite(0x1F, 0x01)];
      case EnergyAvg =>
        writes := writes + [RegWrite(0x41, if v != 0 then 0x10 else 0x04)];
      case VoltageNow => ret := -EINVAL;
      case VoltageAvg => ret := -EINVAL;
      case CurrentNow => ret := -EINVAL;
      case CurrentAvg => ret := -EINVAL;
      case Scope => ret := -EINVAL;
      case OtherProp => ret := -EINVAL;
    }
  }

  /** The integer the driver stores for a mode (CURRENT_MODE, LOW_SOC_VOLTAGE_MODE, HIGH_SOC_VOLTAGE_MODE). */
  function ModeCode(m: Mode): int
  {
    match m
    case CurrentMode => 0
    case LowSocVoltageMode => 1
    case HighSocVoltageMode => 2
  }
}
