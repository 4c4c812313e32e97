/**
 * The crash key of exynos-snapshot: `exynos_ss_check_crash_key` watches the
 * input events of the volume and power keys and panics the kernel ("forced
 * upload") when, with volume-down held and volume-up not held, the power key
 * is pressed for the second time. Its three static variables are the fields
 * of `CrashKey`.
 *
 * An event is a key code and a value: 0 for a release and any other value
 * (1 for a press, 2 for an auto-repeat) for a press. The key codes are those
 * of the Linux input layer.
 */
module SnapshotKeys {
  const KEY_VOLUMEDOWN: nat := 114
  const KEY_VOLUMEUP: nat := 115
  const KEY_POWER: nat := 116

  datatype KeyEvent = KeyEvent(code: nat, value: int)

  /** The three static variables: volume-up held, volume-down held, power presses counted. */
  datatype KeyState = KeyState(volup: bool, voldown: bool, count: int)

  const START: KeyState := KeyState(false, false, 0)

  /**
   * One event: the state afterwards, and whether it panics. A press of a
   * volume key marks it held and a release clears it; a release of
   * volume-down also drops the count. A press of the power key while
   * volume-down and not volume-up is held raises the count, and the count
   * reaching 2 panics.
   */
  function KeyStep(s: KeyState, e: KeyEvent): (r: (KeyState, bool))
    ensures r.1 ==> e.code == KEY_POWER && e.value != 0 && r.0.voldown && !r.0.volup && r.0.count == 2
    ensures e.code == KEY_VOLUMEDOWN && e.value == 0 ==> !r.0.voldown && r.0.count == 0 && !r.1
    ensures e.code != KEY_POWER && e.code != KEY_VOLUMEDOWN ==> r.0.count == s.count && r.0.voldown == s.voldown
    ensures e.code != KEY_VOLUMEUP ==> r.0.volup == s.volup
    ensures s.volup && e.code != KEY_VOLUMEUP && e.code != KEY_VOLUMEDOWN ==> r.0.count == s.count && !r.1
  {
    if e.value != 0 then
      var volup := s.volup || e.code == KEY_VOLUMEUP;
      var voldown := s.voldown || e.code == KEY_VOLUMEDOWN;
      if !volup && voldown && e.code == KEY_POWER then
        var count := s.count + 1;
        (KeyState(volup, voldown, count), count == 2)
      else
        (KeyState(volup, voldown, s.count), false)
    else if e.code == KEY_VOLUMEUP then
      (s.(volup := false), false)
    else if e.code == KEY_VOLUMEDOWN then
      (s.(voldown := false, count := 0), false)
    else
      (s, false)
  }

  /** The state after a sequence of events from the boot-time state. */
  function Run(es: seq<KeyEvent>): KeyState
  {
    if es == [] then START else KeyStep(Run(es[..|es| - 1]), es[|es| - 1]).0
  }

  /** Whether the last event the key `code` saw was a press (no event: not held). */
  function Held(es: seq<KeyEvent>, code: nat): bool
  {
    if es == [] then false
    else if es[|es| - 1].code == code then es[|es| - 1].value != 0
    else Held(es[..|es| - 1], code)
  }

  /** The events after the last release of volume-down (all of them if there is none). */
  function SinceRelease(es: seq<KeyEvent>): (t: seq<KeyEvent>)
    ensures |t| <= |es| && t == es[|es| - |t|..]
    ensures forall i :: 0 <= i < |t| ==> !(t[i].code == KEY_VOLUMEDOWN && t[i].value == 0)
  {
    if es == [] then []
    else
      var e := es[|es| - 1];
      if e.code == KEY_VOLUMEDOWN && e.value == 0 then []
      else
        var t := SinceRelease(es[..|es| - 1]);
        assert es[..|es| - 1][|es| - 1 - |t|..] + [e] == es[|es| - |t| - 1..];
        t + [e]
  }

  /** Whether the last event of a non-empty history is a power press made while volume-down and not volume-up is held. */
  predicate Counts(es: seq<KeyEvent>)
    requires es != []
  {
    es[|es| - 1].code == KEY_POWER && es[|es| - 1].value != 0 && Held(es, KEY_VOLUMEDOWN) && !Held(es, KEY_VOLUMEUP)
  }

  /** The number of the last n events of es that count. */
  function CountedIn(es: seq<KeyEvent>, n: nat): nat
    requires n <= |es|
  {
    if n == 0 then 0
    else CountedIn(es[..|es| - 1], n - 1) + (if Counts(es) then 1 else 0)
  }

  /** The number of power presses counted since volume-down was last released. */
  function Presses(es: seq<KeyEvent>): nat
  {
    CountedIn(es, |SinceRelease(es)|)
  }

  /**
   * The three variables mean what their names say: after any sequence of
   * events, each volume flag is set exactly when that key's last event was
   * a press, and the count is the number of power presses made with
   * volume-down and not volume-up held since volume-down was last released.
   */
  lemma {:induction false} RunMeaning(es: seq<KeyEvent>)
    ensures Run(es).volup == Held(es, KEY_VOLUMEUP)
    ensures Run(es).voldown == Held(es, KEY_VOLUMEDOWN)
    ensures Run(es).count == Presses(es)
  {
    if es != [] {
      var p := es[..|es| - 1];
      var e := es[|es| - 1];
      RunMeaning(p);
      if !(e.code == KEY_VOLUMEDOWN && e.value == 0) {
        var t := SinceRelease(p);
        assert SinceRelease(es) == t + [e];
        assert es[..|es| - 1] == p;
      }
    }
  }

  /**
   * The panic fires at the event that makes the count 2: the second power
   * press with volume-down held and volume-up not held since volume-down
   * was last released.
   */
  lemma PanicsAtSecondPress(es: seq<KeyEvent>, e: KeyEvent)
    ensures KeyStep(Run(es), e).1 <==> Counts(es + [e]) && Presses(es + [e]) == 2
  {
    RunMeaning(es);
    RunMeaning(es + [e]);
    assert (es + [e])[..|es + [e]| - 1] == es;
  }

  lemma RunSnoc(es: seq<KeyEvent>, e: KeyEvent)
    ensures Run(es + [e]) == KeyStep(Run(es), e).0
  {
    assert (es + [e])[..|es|] == es;
  }

  /**
   * Whatever came before, releasing both volume keys, then holding
   * volume-down and pressing power twice panics at the second press.
   */
  lemma HoldAndPressTwice(es: seq<KeyEvent>)
    ensures var h := es + [KeyEvent(KEY_VOLUMEUP, 0), KeyEvent(KEY_VOLUMEDOWN, 0), KeyEvent(KEY_VOLUMEDOWN, 1), KeyEvent(KEY_POWER, 1)];
      Run(h) == KeyState(false, true, 1) && KeyStep(Run(h), KeyEvent(KEY_POWER, 1)).1
  {
    var h1 := es + [KeyEvent(KEY_VOLUMEUP, 0)];
    var h2 := h1 + [KeyEvent(KEY_VOLUMEDOWN, 0)];
    var h3 := h2 + [KeyEvent(KEY_VOLUMEDOWN, 1)];
    var h := h3 + [KeyEvent(KEY_POWER, 1)];
    RunSnoc(es, KeyEvent(KEY_VOLUMEUP, 0));
    RunSnoc(h1, KeyEvent(KEY_VOLUMEDOWN, 0));
    RunSnoc(h2, KeyEvent(KEY_VOLUMEDOWN, 1));
    RunSnoc(h3, KeyEvent(KEY_POWER, 1));
    assert h == es + [KeyEvent(KEY_VOLUMEUP, 0), KeyEvent(KEY_VOLUMEDOWN, 0), KeyEvent(KEY_VOLUMEDOWN, 1), KeyEvent(KEY_POWER, 1)];
  }

  /** The static state of `exynos_ss_check_crash_key`. */
  class CrashKey {
    var volupPressed: bool
    var voldownPressed: bool
    var loopcount: int

    function State(): (s: KeyState)
      reads this
      ensures s.volup == volupPressed && s.voldown == voldownPressed && s.count == loopcount
    {
      KeyState(volupPressed, voldownPressed, loopcount)
    }

    /** The variables as the kernel image initialises them. */
    constructor ()
      ensures State() == START
    {
      volupPressed, voldownPressed, loopcount := false, false, 0;
    }

    /** `exynos_ss_check_crash_key`: `panic` is whether the event calls `panic("Crash Key")`. */
    method CheckCrashKey(code: nat, value: int) returns (panic: bool)
      modifies this
      ensures (State(), panic) == KeyStep(old(State()), KeyEvent(code, value))
    {
      panic := false;
      if value != 0 {
        if code == KEY_VOLUMEUP {
          volupPressed := true;
        }
        if code == KEY_VOLUMEDOWN {
          voldownPressed := true;
        }
        if !volupPressed && voldownPressed {
          if code == KEY_POWER {
            loopcount := loopcount + 1;
            if loopcount == 2 {
              panic := true;
            }
          }
        }
      } else {
        if code == KEY_VOLUMEUP {
          volupPressed := false;
        }
        if code == KEY_VOLUMEDOWN {
          loopcount := 0;
          voldownPressed := false;
        }
      }
    }
  }
}
