/**
 * The Pomodoro timer (app/components/pomodoro-timer.tsx). The component's
 * state is a `Timer` object whose methods are the event handlers; each one
 * is specified by a step function on `TimerState`, and the properties of the
 * timer are proved about those step functions. `formatTime` and
 * `getInitialTime` are pure functions.
 */
module Pomodoro {
  import opened Text
  import opened Arith

  datatype Mode = Work | ShortBreak | LongBreak

  /** Minutes per mode and the number of work sessions before a long break. */
  datatype Settings = Settings(workTime: int, shortBreakTime: int, longBreakTime: int, longBreakInterval: int)

  datatype SettingKey = WorkTimeKey | ShortBreakTimeKey | LongBreakTimeKey | LongBreakIntervalKey

  const DefaultSettings := Settings(25, 5, 15, 4)

  /** The values each settings select offers. */
  function Options(key: SettingKey): seq<int> {
    match key
    case WorkTimeKey => [15, 20, 25, 30, 45, 60]
    case ShortBreakTimeKey => [3, 5, 10, 15]
    case LongBreakTimeKey => [15, 20, 30, 45]
    case LongBreakIntervalKey => [2, 3, 4, 5, 6]
  }

  function Get(s: Settings, key: SettingKey): int {
    match key
    case WorkTimeKey => s.workTime
    case ShortBreakTimeKey => s.shortBreakTime
    case LongBreakTimeKey => s.longBreakTime
    case LongBreakIntervalKey => s.longBreakInterval
  }

  /** `{ ...prev, [key]: value }`. */
  function With(s: Settings, key: SettingKey, value: int): (r: Settings)
    ensures Get(r, key) == value
    ensures forall k :: k != key ==> Get(r, k) == Get(s, k)
  {
    match key
    case WorkTimeKey => s.(workTime := value)
    case ShortBreakTimeKey => s.(shortBreakTime := value)
    case LongBreakTimeKey => s.(longBreakTime := value)
    case LongBreakIntervalKey => s.(longBreakInterval := value)
  }

  /** Every setting holds one of the values its select offers. */
  predicate ValidSettings(s: Settings) {
    forall key :: Get(s, key) in Options(key)
  }

  /** `getInitialTime`: the full length of a mode, in seconds. */
  function InitialTime(s: Settings, m: Mode): (r: int)
    ensures ValidSettings(s) ==> 180 <= r <= 3600 && r % 60 == 0
  {
    assert ValidSettings(s) ==>
      (Get(s, WorkTimeKey) in Options(WorkTimeKey)
      && Get(s, ShortBreakTimeKey) in Options(ShortBreakTimeKey)
      && Get(s, LongBreakTimeKey) in Options(LongBreakTimeKey));
    match m
    case Work => s.workTime * 60
    case ShortBreak => s.shortBreakTime * 60
    case LongBreak => s.longBreakTime * 60
  }

  /** `formatTime`: minutes and seconds, each padded to two digits, joined by a colon. */
  function FormatTime(seconds: nat): string {
    PadStart(NatToString(seconds / 60), 2, '0') + ":" + PadStart(NatToString(seconds % 60), 2, '0')
  }

  /** A number below 100, zero-padded to two characters, reads back as itself. */
  lemma TwoDigits(n: nat)
    requires n < 100
    ensures |PadStart(NatToString(n), 2, '0')| == 2
    ensures IsDigits(PadStart(NatToString(n), 2, '0'))
    ensures DigitsValue(PadStart(NatToString(n), 2, '0')) == n
  {
    ZeroPadValue(NatToString(n), 2);
    NatToStringRoundTrip(n);
  }

  /** Below 100 minutes the display is "mm:ss", and reading its two digit
      groups back gives the minutes and seconds it was made from. */
  lemma FormatTimeSpec(seconds: nat)
    requires seconds < 6000
    ensures |FormatTime(seconds)| == 5 && FormatTime(seconds)[2] == ':'
    ensures IsDigits(FormatTime(seconds)[..2]) && IsDigits(FormatTime(seconds)[3..])
    ensures DigitsValue(FormatTime(seconds)[..2]) * 60 + DigitsValue(FormatTime(seconds)[3..]) == seconds
  {
    var minutes, secs := seconds / 60, seconds % 60;
    assert minutes < 100 && minutes * 60 + secs == seconds;
    TwoDigits(minutes);
    TwoDigits(secs);
    Join(PadStart(NatToString(minutes), 2, '0'), PadStart(NatToString(secs), 2, '0'));
  }

  lemma Join(m: string, s: string)
    requires |m| == 2 && |s| == 2
    ensures |m + ":" + s| == 5 && (m + ":" + s)[2] == ':'
    ensures (m + ":" + s)[..2] == m && (m + ":" + s)[3..] == s
  {
  }

  /** The state of the component: `timeLeft` in seconds, whether the countdown
      runs, the mode, the completed work sessions and the settings. */
  datatype TimerState = TimerState(timeLeft: int, isRunning: bool, mode: Mode, completedPomodoros: nat, settings: Settings)

  const InitialState := TimerState(25 * 60, false, Work, 0, DefaultSettings)

  /** What every reachable state satisfies. */
  predicate ValidState(st: TimerState) {
    ValidSettings(st.settings) && 0 <= st.timeLeft <= 3600
  }

  /** The mode that follows a work session, given the sessions completed before it. */
  function BreakAfter(completed: nat, interval: int): Mode
    requires interval > 0
  {
    if (completed + 1) % interval == 0 then LongBreak else ShortBreak
  }

  /** `switchMode`: a finished work session counts and leads to a break (a long
      one every `longBreakInterval` sessions); a finished break leads to work.
      The new mode starts full and paused. */
  function SwitchStep(st: TimerState): (r: TimerState)
    requires ValidState(st)
    ensures ValidState(r) && !r.isRunning && r.settings == st.settings
    ensures r.timeLeft == InitialTime(r.settings, r.mode)
    ensures st.mode == Work ==> r.completedPomodoros == st.completedPomodoros + 1 && r.mode != Work
    ensures st.mode != Work ==> r.completedPomodoros == st.completedPomodoros && r.mode == Work
    ensures st.mode == Work ==> (r.mode == LongBreak <==> r.completedPomodoros % st.settings.longBreakInterval == 0)
  {
    assert Get(st.settings, LongBreakIntervalKey) in Options(LongBreakIntervalKey);
    if st.mode == Work then
      var next := BreakAfter(st.completedPomodoros, st.settings.longBreakInterval);
      st.(completedPomodoros := st.completedPomodoros + 1, mode := next,
          timeLeft := InitialTime(st.settings, next), isRunning := false)
    else
      st.(mode := Work, timeLeft := InitialTime(st.settings, Work), isRunning := false)
  }

  /** One second of the interval: a running timer counts down, and the last
      second switches the mode; a paused or empty timer does not change. */
  function TickStep(st: TimerState): (r: TimerState)
    requires ValidState(st)
    ensures ValidState(r)
    ensures !st.isRunning || st.timeLeft == 0 ==> r == st
    ensures st.isRunning && st.timeLeft > 1 ==> r == st.(timeLeft := st.timeLeft - 1)
    ensures st.isRunning && st.timeLeft == 1 ==> r == SwitchStep(st)
  {
    if st.isRunning && st.timeLeft > 0 then
      if st.timeLeft <= 1 then SwitchStep(st) else st.(timeLeft := st.timeLeft - 1)
    else st
  }

  /** `toggleTimer`. */
  function ToggleStep(st: TimerState): (r: TimerState)
    ensures r.isRunning == !st.isRunning && r.(isRunning := st.isRunning) == st
  {
    st.(isRunning := !st.isRunning)
  }

  /** `resetTimer`: paused, with the full length of the current mode. */
  function ResetStep(st: TimerState): (r: TimerState)
    requires ValidState(st)
    ensures ValidState(r) && !r.isRunning && r.timeLeft == InitialTime(r.settings, r.mode)
    ensures r.mode == st.mode && r.completedPomodoros == st.completedPomodoros && r.settings == st.settings
  {
    st.(isRunning := false, timeLeft := InitialTime(st.settings, st.mode))
  }

  /** `changeMode`: paused, in the chosen mode, with its full length. */
  function ChangeModeStep(st: TimerState, m: Mode): (r: TimerState)
    requires ValidState(st)
    ensures ValidState(r) && !r.isRunning && r.mode == m && r.timeLeft == InitialTime(r.settings, m)
    ensures r.completedPomodoros == st.completedPomodoros && r.settings == st.settings
  {
    st.(isRunning := false, mode := m, timeLeft := InitialTime(st.settings, m))
  }

  /** The settings after choosing `value` for `key`: still ones the selects offer. */
  function Chosen(st: TimerState, key: SettingKey, value: int): (s: Settings)
    requires ValidState(st) && value in Options(key)
    ensures ValidSettings(s) && s == With(st.settings, key, value)
  {
    var s := With(st.settings, key, value);
    assert ValidSettings(s) by {
      forall k ensures Get(s, k) in Options(k) {
        assert k != key ==> Get(st.settings, k) in Options(k);
      }
    }
    s
  }

  /** `updateSettings` as written: the chosen setting takes the new value, and
      a paused timer is refilled by `getInitialTime(mode)`, whose closure still
      reads the settings from before the update. */
  function UpdateSettingsStep(st: TimerState, key: SettingKey, value: int): (r: TimerState)
    requires ValidState(st) && value in Options(key)
    ensures ValidState(r) && r.settings == With(st.settings, key, value)
    ensures r.mode == st.mode && r.isRunning == st.isRunning && r.completedPomodoros == st.completedPomodoros
    ensures !st.isRunning ==> r.timeLeft == InitialTime(st.settings, st.mode)
    ensures st.isRunning ==> r.timeLeft == st.timeLeft
  {
    var r := st.(settings := Chosen(st, key, value));
    if !st.isRunning then r.(timeLeft := InitialTime(st.settings, st.mode)) else r
  }

  /** `updateSettings` as evidently intended: a paused timer shows the full
      length of its mode under the settings just chosen. */
  function UpdateSettingsIntended(st: TimerState, key: SettingKey, value: int): (r: TimerState)
    requires ValidState(st) && value in Options(key)
    ensures ValidState(r) && r.settings == With(st.settings, key, value)
    ensures r.mode == st.mode && r.isRunning == st.isRunning && r.completedPomodoros == st.completedPomodoros
    ensures !st.isRunning ==> r.timeLeft == InitialTime(r.settings, r.mode) && Progress(r) == 0.0
    ensures st.isRunning ==> r.timeLeft == st.timeLeft
  {
    var r := st.(settings := Chosen(st, key, value));
    if !st.isRunning then r.(timeLeft := InitialTime(r.settings, st.mode)) else r
  }

  /** The two agree exactly when the timer runs or the change leaves the
      current mode's length as it was. */
  lemma UpdateSettingsDiffers(st: TimerState, key: SettingKey, value: int)
    requires ValidState(st) && value in Options(key)
    ensures UpdateSettingsStep(st, key, value) == UpdateSettingsIntended(st, key, value) <==>
      st.isRunning || InitialTime(st.settings, st.mode) == InitialTime(With(st.settings, key, value), st.mode)
  {
  }

  /** From the first render, choosing 30 minutes of work leaves the paused
      timer at 25:00, a sixth of the way along the progress bar, although the
      select shows 30. */
  lemma UpdateSettingsStaleExample()
    ensures var r := UpdateSettingsStep(InitialState, WorkTimeKey, 30);
      && r.settings.workTime == 30
      && r.timeLeft == 1500
      && InitialTime(r.settings, r.mode) == 1800
      && Progress(r) != 0.0
  {
    assert 30 == Options(WorkTimeKey)[3];
    assert ValidSettings(DefaultSettings) by {
      forall k ensures Get(DefaultSettings, k) in Options(k) {
        match k
        case WorkTimeKey => assert Options(k)[2] == 25;
        case ShortBreakTimeKey => assert Options(k)[1] == 5;
        case LongBreakTimeKey => assert Options(k)[0] == 15;
        case LongBreakIntervalKey => assert Options(k)[2] == 4;
      }
    }
  }

  /** Work sessions still to go before the next long break, as the statistics card shows. */
  function NextLongBreakIn(completed: nat, interval: int): (r: int)
    requires interval > 0
    ensures 1 <= r <= interval
  {
    interval - completed % interval
  }

  /** The card's count is right: the work session that ends now is followed by
      a long break exactly when the card says one session remains. */
  lemma NextLongBreakAgrees(completed: nat, interval: int)
    requires interval > 0
    ensures BreakAfter(completed, interval) == LongBreak <==> NextLongBreakIn(completed, interval) == 1
  {
    var q := completed / interval;
    var m := completed % interval;
    if m + 1 == interval {
      ModOfSum(completed + 1, interval, q + 1, 0);
    } else {
      ModOfSum(completed + 1, interval, q, m + 1);
    }
  }

  /** `k` seconds of the interval. */
  function Ticks(st: TimerState, k: nat): (r: TimerState)
    requires ValidState(st)
    ensures ValidState(r)
    decreases k
  {
    if k == 0 then st else Ticks(TickStep(st), k - 1)
  }

  /** A running timer with `n` seconds left keeps running for `n - 1` seconds,
      then shows one second left, and the next second switches the mode. */
  lemma {:induction false} RunsToCompletion(st: TimerState, k: nat)
    requires ValidState(st) && st.isRunning && k < st.timeLeft
    ensures Ticks(st, k) == st.(timeLeft := st.timeLeft - k)
    ensures k == st.timeLeft - 1 ==> TickStep(Ticks(st, k)) == SwitchStep(Ticks(st, k))
    decreases k
  {
    if k > 0 {
      var st' := TickStep(st);
      assert st' == st.(timeLeft := st.timeLeft - 1);
      RunsToCompletion(st', k - 1);
    }
  }

  /** A work session followed by its break brings the timer back to a full,
      paused work session, one pomodoro further on. */
  lemma WorkBreakCycle(st: TimerState)
    requires ValidState(st) && st.mode == Work
    ensures SwitchStep(SwitchStep(st)).mode == Work
    ensures SwitchStep(SwitchStep(st)).timeLeft == InitialTime(st.settings, Work)
    ensures SwitchStep(SwitchStep(st)).completedPomodoros == st.completedPomodoros + 1
  {
  }

  /** `completedPomodoros * settings.workTime`: minutes of focused work. */
  function FocusMinutes(st: TimerState): (r: int)
    requires ValidState(st)
    ensures 15 * st.completedPomodoros <= r <= 60 * st.completedPomodoros
    ensures st.completedPomodoros == 0 ==> r == 0
  {
    assert Get(st.settings, WorkTimeKey) in Options(WorkTimeKey);
    st.completedPomodoros * st.settings.workTime
  }

  /** The progress bar: the percentage of the mode's length already elapsed. */
  function Progress(st: TimerState): (r: real)
    requires ValidState(st)
    ensures 0 <= st.timeLeft <= InitialTime(st.settings, st.mode) ==> 0.0 <= r <= 100.0
    ensures st.timeLeft == InitialTime(st.settings, st.mode) ==> r == 0.0
  {
    var total := InitialTime(st.settings, st.mode);
    if 0 <= st.timeLeft <= total then
      FractionBounds(total - st.timeLeft, total);
      ((total - st.timeLeft) as real / total as real) * 100.0
    else
      ((total - st.timeLeft) as real / total as real) * 100.0
  }

  lemma FractionBounds(part: int, whole: int)
    requires 0 <= part <= whole && 0 < whole
    ensures 0.0 <= part as real / whole as real <= 1.0
  {
    var q := part as real / whole as real;
    assert q * whole as real == part as real;
  }

  /** The component's state with the event handlers as methods. */
  class Timer {
    var timeLeft: int
    var isRunning: bool
    var mode: Mode
    var completedPomodoros: nat
    var settings: Settings

    function State(): TimerState
      reads this
    {
      TimerState(timeLeft, isRunning, mode, completedPomodoros, settings)
    }

    predicate Valid()
      reads this
    {
      ValidState(State())
    }

    /** The initial render: 25 minutes of work, paused, nothing completed. */
    constructor ()
      ensures State() == InitialState && Valid()
    {
      timeLeft := 25 * 60;
      isRunning := false;
      mode := Work;
      completedPomodoros := 0;
      settings := DefaultSettings;
      assert ValidSettings(DefaultSettings) by {
        forall k ensures Get(DefaultSettings, k) in Options(k) {
          match k
          case WorkTimeKey => assert Options(k)[2] == 25;
          case ShortBreakTimeKey => assert Options(k)[1] == 5;
          case LongBreakTimeKey => assert Options(k)[0] == 15;
          case LongBreakIntervalKey => assert Options(k)[2] == 4;
        }
      }
    }

    method SwitchMode()
      requires Valid()
      modifies this
      ensures Valid() && State() == SwitchStep(old(State()))
    {
      assert Get(settings, LongBreakIntervalKey) in Options(LongBreakIntervalKey);
      if mode == Work {
        var next := BreakAfter(completedPomodoros, settings.longBreakInterval);
        completedPomodoros := completedPomodoros + 1;
        mode := next;
        timeLeft := InitialTime(settings, next);
      } else {
        mode := Work;
        timeLeft := InitialTime(settings, Work);
      }
      isRunning := false;
    }

    /** The interval callback, once per second while the timer runs. */
    method Tick()
      requires Valid()
      modifies this
      ensures Valid() && State() == TickStep(old(State()))
    {
      if isRunning && timeLeft > 0 {
        if timeLeft <= 1 {
          SwitchMode();
        } else {
          timeLeft := timeLeft - 1;
        }
      }
    }

    method Toggle()
      requires Valid()
      modifies this
      ensures Valid() && State() == ToggleStep(old(State()))
    {
      isRunning := !isRunning;
    }

    method Reset()
      requires Valid()
      modifies this
      ensures Valid() && State() == ResetStep(old(State()))
    {
      isRunning := false;
      timeLeft := InitialTime(settings, mode);
    }

    method ChangeMode(m: Mode)
      requires Valid()
      modifies this
      ensures Valid() && State() == ChangeModeStep(old(State()), m)
    {
      isRunning := false;
      mode := m;
      timeLeft := InitialTime(settings, m);
    }

    method UpdateSettings(key: SettingKey, value: int)
      requires Valid() && value in Options(key)
      modifies this
      ensures Valid() && State() == UpdateSettingsStep(old(State()), key, value)
    {
      var before := State();
      settings := Chosen(before, key, value);
      if !isRunning {
        timeLeft := InitialTime(before.settings, mode);
      }
    }
  }
}
