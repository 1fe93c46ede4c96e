/**
  The screen and power-key protocol of charge_only_mode/main.c on top of the timer list: its callbacks, its
  key and battery handlers, and what every run of its event loop keeps.
 */
module ChargeModes {
  import opened AlarmQueues
  import opened AlarmRuns

  const ANIMATION_ALARM: Fn := 0
  const BRIGHTNESS_ALARM1: Fn := 1
  const BRIGHTNESS_ALARM2: Fn := 2
  const POWER_KEY_ALARM: Fn := 3

  const ANIMATION_TIMEOUT: CInt := 1000 / 2
  const POWERUP_VOLTAGE := 3470000

  datatype Device = Device(voltage: int, ac: bool, usb: bool)

  /**
    What a callback or handler finds: the clock at its first and second reading, the device, and whether a
    reboot succeeds.
   */
  datatype Env = Env(clock: TimeVal, later: TimeVal, device: Device, rebootOk: bool)

  /** The globals of main.c, the timer list, the screen, and counts of the reboot calls made. */
  datatype Mode = Mode(q: seq<Alarm>, quit: bool, shutdown: bool, powerup: bool,
                       blanked: bool, brightness: real, powerOffs: nat, restarts: nat)

  function SetAlarm(s: Mode, f: Fn, clock: TimeVal, ms: CInt): Mode {
    s.(q := Do(s.q, Set(f, clock, ms)))
  }

  function CancelAlarm(s: Mode, f: Fn): Mode {
    s.(q := Do(s.q, Cancel(f)))
  }

  // ----- callbacks and handlers -----

  /**
    screen_brightness_animation_alarm2: the screen goes dark; after a shutdown the device is powered off, if
    that works.
   */
  function Darken(s: Mode): Mode {
    var t := CancelAlarm(s.(brightness := 0.0), ANIMATION_ALARM);
    (if t.shutdown then t.(powerOffs := t.powerOffs + 1) else t).(blanked := true)
  }

  /** screen_brightness_animation_alarm1 */
  function Dim(s: Mode, clock: TimeVal): Mode {
    SetAlarm(s.(brightness := 0.4), BRIGHTNESS_ALARM2, clock, 10000)
  }

  /** screen_brightness_animation_start */
  function Start(s: Mode, clock: TimeVal, later: TimeVal): Mode {
    SetAlarm(SetAlarm(s.(blanked := false, brightness := 0.8), BRIGHTNESS_ALARM1, clock, 5000),
             ANIMATION_ALARM, later, ANIMATION_TIMEOUT)
  }

  /** power_key_alarm */
  function PowerKey(s: Mode, rebootOk: bool): Mode {
    var t := CancelAlarm(CancelAlarm(CancelAlarm(s, BRIGHTNESS_ALARM2), BRIGHTNESS_ALARM1), ANIMATION_ALARM);
    t.(restarts := t.restarts + 1, quit := t.quit || rebootOk)
  }

  predicate Unplugged(d: Device) {
    !d.ac && !d.usb
  }

  function PowerEvent(s: Mode, d: Device): Mode {
    var t := s.(powerup := s.powerup || d.voltage >= POWERUP_VOLTAGE);
    if !t.shutdown && Unplugged(d) then
      Darken(CancelAlarm(CancelAlarm(t.(shutdown := true), BRIGHTNESS_ALARM2), BRIGHTNESS_ALARM1))
    else t
  }

  function Animate(s: Mode, clock: TimeVal, d: Device): Mode {
    PowerEvent(SetAlarm(s, ANIMATION_ALARM, clock, ANIMATION_TIMEOUT), d)
  }

  /** update_screen_on_wakeup_key: the power key puts a bright screen out and wakes a dim or dark one. */
  function WakeupKey(s: Mode, clock: TimeVal, later: TimeVal): Mode {
    var t := CancelAlarm(CancelAlarm(s, BRIGHTNESS_ALARM2), ANIMATION_ALARM);
    var u := CancelAlarm(t, BRIGHTNESS_ALARM1);
    if Pending(t.q, BRIGHTNESS_ALARM1) > 0 then Darken(u) else Start(u, clock, later)
  }

  function WakeupKey2(s: Mode, clock: TimeVal, later: TimeVal): Mode {
    Start(CancelAlarm(CancelAlarm(CancelAlarm(s, BRIGHTNESS_ALARM2), BRIGHTNESS_ALARM1), ANIMATION_ALARM), clock, later)
  }

  function Callback(s: Mode, f: Fn, e: Env): Mode {
    if f == ANIMATION_ALARM then Animate(s, e.clock, e.device)
    else if f == BRIGHTNESS_ALARM1 then Dim(s, e.clock)
    else if f == BRIGHTNESS_ALARM2 then Darken(s)
    else if f == POWER_KEY_ALARM then PowerKey(s, e.rebootOk)
    else s
  }

  /** The list operations a callback performs. */
  function CallbackOps(s: Mode, f: Fn, e: Env): seq<Op> {
    if f == ANIMATION_ALARM then
      [Set(ANIMATION_ALARM, e.clock, ANIMATION_TIMEOUT)] +
      if !s.shutdown && Unplugged(e.device) then
        [Cancel(BRIGHTNESS_ALARM2), Cancel(BRIGHTNESS_ALARM1), Cancel(ANIMATION_ALARM)]
      else []
    else if f == BRIGHTNESS_ALARM1 then [Set(BRIGHTNESS_ALARM2, e.clock, 10000)]
    else if f == BRIGHTNESS_ALARM2 then [Cancel(ANIMATION_ALARM)]
    else if f == POWER_KEY_ALARM then [Cancel(BRIGHTNESS_ALARM2), Cancel(BRIGHTNESS_ALARM1), Cancel(ANIMATION_ALARM)]
    else []
  }

  lemma DoneOnce(q: seq<Alarm>, ops: seq<Op>)
    ensures |ops| == 1 ==> DoAll(q, ops) == Do(q, ops[0])
    ensures |ops| > 1 ==> DoAll(q, ops) == DoAll(Do(q, ops[0]), ops[1..])
    ensures DoAll(q, []) == q
  {
    hide Do;
    if |ops| > 0 {
      assert ops == [ops[0]] + ops[1..] && [ops[0]][..0] == [];
      DoAllAppend(q, [ops[0]], ops[1..]);
    }
  }

  lemma DoneThrice(q: seq<Alarm>, a: Op, b: Op, c: Op)
    ensures DoAll(q, [a, b, c]) == Do(Do(Do(q, a), b), c)
  {
    hide Do;
    DoneOnce(q, [a, b, c]);
    assert [a, b, c][1..] == [b, c] && [b, c][1..] == [c];
    DoneOnce(Do(q, a), [b, c]);
    DoneOnce(Do(Do(q, a), b), [c]);
  }

  lemma CallbackIsOps(s: Mode, f: Fn, e: Env)
    ensures Callback(s, f, e).q == DoAll(s.q, CallbackOps(s, f, e))
  {
    hide Do;
    var ops := CallbackOps(s, f, e);
    if f == ANIMATION_ALARM {
      var a := Set(ANIMATION_ALARM, e.clock, ANIMATION_TIMEOUT);
      DoneOnce(s.q, [a]);
      if |ops| == 4 {
        DoAllAppend(s.q, [a], ops[1..]);
        DoneThrice(Do(s.q, a), ops[1], ops[2], ops[3]);
        assert ops == [a] + ops[1..];
      }
    } else if f == POWER_KEY_ALARM {
      DoneThrice(s.q, ops[0], ops[1], ops[2]);
    } else {
      DoneOnce(s.q, ops);
    }
  }

  predicate EnvAhead(e: Env, now: TimeVal) {
    !Later(now, e.clock) && !Later(now, e.later)
  }

  /** The first alarm is taken off the list and its callback runs. */
  function Fire(s: Mode, e: Env): Mode {
    if s.q == [] then s else Callback(s.(q := s.q[1..]), s.q[0].f, e)
  }

  lemma FireShrinks(s: Mode, e: Env, now: TimeVal)
    requires Sorted(s.q) && DueCount(s.q, now) > 0 && EnvAhead(e, now)
    ensures Sorted(Fire(s, e).q) && DueCount(Fire(s, e).q, now) < DueCount(s.q, now)
  {
    hide Callback, DueCount, Sorted, DoAll;
    var t := s.(q := s.q[1..]);
    CallbackIsOps(t, s.q[0].f, e);
    CallbackShrinks(s.q, now, CallbackOps(t, s.q[0].f, e));
  }

  /** alarm_process as main.c runs it: envs(k) is what the k-th callback finds. */
  ghost function Processed(s: Mode, now: TimeVal, envs: nat -> Env, k: nat): Mode
    requires Sorted(s.q) && forall j :: EnvAhead(envs(j), now)
    decreases DueCount(s.q, now)
  {
    if DueCount(s.q, now) == 0 then s
    else
      FireShrinks(s, envs(k), now);
      Processed(Fire(s, envs(k)), now, envs, k + 1)
  }

  lemma {:induction false} ProcessedLeavesNoneDue(s: Mode, now: TimeVal, envs: nat -> Env, k: nat)
    requires Sorted(s.q) && forall j :: EnvAhead(envs(j), now)
    ensures NoneDue(Processed(s, now, envs, k).q, now)
    decreases DueCount(s.q, now)
  {
    hide Fire, EnvAhead;
    if DueCount(s.q, now) > 0 {
      FireShrinks(s, envs(k), now);
      ProcessedLeavesNoneDue(Fire(s, envs(k)), now, envs, k + 1);
    } else {
      DueAreAllDue(s.q, now);
      NothingDue(s.q, now);
    }
  }

  // ----- events -----

  datatype Event =
    | PowerKeyDown(e: Env)
    | PowerKeyUp(e: Env)
    | OtherKeyDown(e: Env)
    | Battery(e: Env)
    | Quit
    | Other
    | Wake(now: TimeVal, envs: nat -> Env)  // the delay is below 1: alarm_process

  /** Since when the power key has been down. */
  datatype Key = Up | Down(since: TimeVal)

  /** A run keeps, beside the program's own state, the power key and the time of the last event. */
  datatype World = World(mode: Mode, key: Key, clock: TimeVal)

  function TimeOf(ev: Event, clock: TimeVal): TimeVal {
    match ev
    case PowerKeyDown(e) => e.clock
    case PowerKeyUp(e) => e.clock
    case OtherKeyDown(e) => e.clock
    case Battery(e) => e.clock
    case Quit => clock
    case Other => clock
    case Wake(now, envs) => now
  }

  /** The clock does not run backwards. */
  ghost predicate InTime(clock: TimeVal, ev: Event) {
    && !Later(clock, TimeOf(ev, clock))
    && (ev.Wake? ==> forall j :: EnvAhead(ev.envs(j), ev.now))
  }

  ghost function Handled(s: Mode, ev: Event): Mode
    requires Sorted(s.q) && (ev.Wake? ==> forall j :: EnvAhead(ev.envs(j), ev.now))
  {
    match ev
    case PowerKeyDown(e) => if s.powerup then SetAlarm(s, POWER_KEY_ALARM, e.clock, 1000) else s
    case PowerKeyUp(e) => WakeupKey(CancelAlarm(s, POWER_KEY_ALARM), e.clock, e.later)
    case OtherKeyDown(e) => WakeupKey2(s, e.clock, e.later)
    case Battery(e) => PowerEvent(s, e.device)
    case Quit => s.(quit := true)
    case Other => s
    case Wake(now, envs) => Processed(s, now, envs, 0)
  }

  function KeyAfter(k: Key, ev: Event): Key {
    match ev
    case PowerKeyDown(e) => if k.Up? then Down(e.clock) else k
    case PowerKeyUp(_) => Up
    case _ => k
  }

  /** One turn of the main loop; once quit is set there are no more. */
  ghost function Next(w: World, ev: Event): World
    requires Sorted(w.mode.q) && InTime(w.clock, ev)
  {
    if w.mode.quit then w
    else World(Handled(w.mode, ev), KeyAfter(w.key, ev), TimeOf(ev, w.clock))
  }

  function Boot(): Mode {
    Mode([], false, false, false, false, 0.0, 0, 0)
  }

  /** main before its loop */
  function Begun(e: Env): World {
    World(Start(PowerEvent(Boot(), e.device), e.clock, e.later), Up, e.later)
  }

  // ----- the screen invariant -----

  /**
    At most one of the two brightness alarms is pending, the animation alarm is pending exactly when one of
    them is, never twice, and the display is then lit, at the brightness of its stage.
   */
  ghost predicate ScreenInv(s: Mode) {
    var n1, n2 := Pending(s.q, BRIGHTNESS_ALARM1), Pending(s.q, BRIGHTNESS_ALARM2);
    && Sorted(s.q)
    && n1 + n2 <= 1 && Pending(s.q, ANIMATION_ALARM) == n1 + n2
    && (n1 + n2 == 1 ==> !s.blanked)
    && (n1 == 1 ==> s.brightness == 0.8) && (n2 == 1 ==> s.brightness == 0.4) && (s.blanked ==> s.brightness == 0.0)
  }

  lemma SetCounts(q: seq<Alarm>, f: Fn, clock: TimeVal, ms: CInt, g: Fn)
    requires Sorted(q)
    ensures Sorted(Do(q, Set(f, clock, ms)))
    ensures Pending(Do(q, Set(f, clock, ms)), g) == Pending(q, g) + (if f == g then 1 else 0)
  {
    InsertedSorted(q, Alarm(Deadline(clock, ms), f));
    InsertedPending(q, Alarm(Deadline(clock, ms), f), g);
  }

  lemma CancelCounts(q: seq<Alarm>, f: Fn, g: Fn)
    requires Sorted(q)
    ensures Sorted(Do(q, Cancel(f)))
    ensures Pending(Do(q, Cancel(f)), g) == if f == g then 0 else Pending(q, g)
  {
    WithoutSorted(q, {f});
    WithoutPending(q, {f}, g);
  }

  /** The counts of the three screen alarms. */
  datatype Counts = Counts(animation: nat, first: nat, second: nat)

  ghost function CountsOf(q: seq<Alarm>): Counts {
    Counts(Pending(q, ANIMATION_ALARM), Pending(q, BRIGHTNESS_ALARM1), Pending(q, BRIGHTNESS_ALARM2))
  }

  ghost function CountsAfter(c: Counts, op: Op): Counts {
    match op
    case Set(f, _, _) =>
      if f == ANIMATION_ALARM then c.(animation := c.animation + 1)
      else if f == BRIGHTNESS_ALARM1 then c.(first := c.first + 1)
      else if f == BRIGHTNESS_ALARM2 then c.(second := c.second + 1)
      else c
    case Cancel(f) =>
      if f == ANIMATION_ALARM then c.(animation := 0)
      else if f == BRIGHTNESS_ALARM1 then c.(first := 0)
      else if f == BRIGHTNESS_ALARM2 then c.(second := 0)
      else c
  }

  lemma OpCounts(q: seq<Alarm>, op: Op)
    requires Sorted(q)
    ensures Sorted(Do(q, op)) && CountsOf(Do(q, op)) == CountsAfter(CountsOf(q), op)
  {
    hide Sorted, Pending, Do;
    match op {
      case Set(f, clock, ms) =>
        SetCounts(q, f, clock, ms, ANIMATION_ALARM);
        SetCounts(q, f, clock, ms, BRIGHTNESS_ALARM1);
        SetCounts(q, f, clock, ms, BRIGHTNESS_ALARM2);
      case Cancel(f) =>
        CancelCounts(q, f, ANIMATION_ALARM);
        CancelCounts(q, f, BRIGHTNESS_ALARM1);
        CancelCounts(q, f, BRIGHTNESS_ALARM2);
    }
  }

  lemma DarkenCounts(s: Mode)
    requires Sorted(s.q)
    ensures Sorted(Darken(s).q) && CountsOf(Darken(s).q) == CountsOf(s.q).(animation := 0)
  {
    hide CountsOf, Do, Sorted;
    OpCounts(s.q, Cancel(ANIMATION_ALARM));
  }

  lemma StartKeeps(s: Mode, clock: TimeVal, later: TimeVal)
    requires Sorted(s.q) && CountsOf(s.q) == Counts(0, 0, 0)
    ensures ScreenInv(Start(s, clock, later))
  {
    hide Do, Pending, Sorted;
    var op := Set(BRIGHTNESS_ALARM1, clock, 5000);
    OpCounts(s.q, op);
    OpCounts(Do(s.q, op), Set(ANIMATION_ALARM, later, ANIMATION_TIMEOUT));
  }

  lemma PowerEventKeeps(s: Mode, d: Device)
    requires ScreenInv(s)
    ensures ScreenInv(PowerEvent(s, d))
  {
    hide Do, Pending, Sorted;
    var t := s.(powerup := s.powerup || d.voltage >= POWERUP_VOLTAGE, shutdown := true);
    OpCounts(t.q, Cancel(BRIGHTNESS_ALARM2));
    var u := CancelAlarm(t, BRIGHTNESS_ALARM2);
    OpCounts(u.q, Cancel(BRIGHTNESS_ALARM1));
    DarkenCounts(CancelAlarm(u, BRIGHTNESS_ALARM1));
  }

  lemma WakeupKeyKeeps(s: Mode, clock: TimeVal, later: TimeVal)
    requires ScreenInv(s)
    ensures ScreenInv(WakeupKey(s, clock, later)) && ScreenInv(WakeupKey2(s, clock, later))
  {
    hide Do, Pending, Sorted;
    var a, b, c := Cancel(BRIGHTNESS_ALARM2), Cancel(ANIMATION_ALARM), Cancel(BRIGHTNESS_ALARM1);
    OpCounts(s.q, a);
    OpCounts(Do(s.q, a), b);
    OpCounts(Do(Do(s.q, a), b), c);
    OpCounts(Do(s.q, a), c);
    OpCounts(Do(Do(s.q, a), c), b);
    hide Start, Darken;
    var u, v := s.(q := Do(Do(Do(s.q, a), b), c)), s.(q := Do(Do(Do(s.q, a), c), b));
    StartKeeps(u, clock, later);
    StartKeeps(v, clock, later);
    DarkKeeps(u);
  }

  lemma DarkKeeps(s: Mode)
    requires Sorted(s.q) && CountsOf(s.q).first == 0 && CountsOf(s.q).second == 0
    ensures ScreenInv(Darken(s))
  {
    hide Do, Pending, Sorted;
    DarkenCounts(s);
  }

  /** The counts without the first alarm. */
  lemma PopCounts(q: seq<Alarm>)
    requires Sorted(q) && q != []
    ensures Sorted(q[1..])
    ensures forall f :: Pending(q, f) == Pending(q[1..], f) + (if q[0].f == f then 1 else 0)
  {
  }

  lemma FireKeeps(s: Mode, e: Env)
    requires ScreenInv(s) && s.q != []
    ensures ScreenInv(Fire(s, e))
  {
    PopCounts(s.q);
    var t, f := s.(q := s.q[1..]), s.q[0].f;
    hide Do, Pending, Sorted;
    if f == ANIMATION_ALARM {
      OpCounts(t.q, Set(ANIMATION_ALARM, e.clock, ANIMATION_TIMEOUT));
      hide PowerEvent;
      PowerEventKeeps(SetAlarm(t, ANIMATION_ALARM, e.clock, ANIMATION_TIMEOUT), e.device);
    } else if f == BRIGHTNESS_ALARM1 {
      OpCounts(t.q, Set(BRIGHTNESS_ALARM2, e.clock, 10000));
    } else if f == BRIGHTNESS_ALARM2 {
      DarkenCounts(t);
    } else if f == POWER_KEY_ALARM {
      OpCounts(t.q, Cancel(BRIGHTNESS_ALARM2));
      OpCounts(Do(t.q, Cancel(BRIGHTNESS_ALARM2)), Cancel(BRIGHTNESS_ALARM1));
      OpCounts(Do(Do(t.q, Cancel(BRIGHTNESS_ALARM2)), Cancel(BRIGHTNESS_ALARM1)), Cancel(ANIMATION_ALARM));
    }
  }

  lemma {:induction false} ProcessedKeeps(s: Mode, now: TimeVal, envs: nat -> Env, k: nat)
    requires ScreenInv(s) && forall j :: EnvAhead(envs(j), now)
    ensures ScreenInv(Processed(s, now, envs, k)) && DueCount(Processed(s, now, envs, k).q, now) == 0
    decreases DueCount(s.q, now)
  {
    hide Fire, Pending, EnvAhead;
    if DueCount(s.q, now) > 0 {
      FireKeeps(s, envs(k));
      FireShrinks(s, envs(k), now);
      ProcessedKeeps(Fire(s, envs(k)), now, envs, k + 1);
    }
  }
}
