/** What every run of the event loop of charge_only_mode/main.c keeps, and how it uses the timer list. */
module ChargeRuns {
  import opened AlarmQueues
  import opened AlarmRuns
  import opened ChargeModes

  // ----- the callbacks of main.c are callbacks of alarm_process -----

  function FireOps(s: Mode, e: Env): seq<Op> {
    if s.q == [] then [] else CallbackOps(s.(q := s.q[1..]), s.q[0].f, e)
  }

  /** What the callbacks do to the list, in the order they run. */
  ghost function Scripts(s: Mode, now: TimeVal, envs: nat -> Env, k: nat): seq<seq<Op>>
    requires Sorted(s.q) && forall j :: EnvAhead(envs(j), now)
    decreases DueCount(s.q, now)
  {
    if DueCount(s.q, now) == 0 then []
    else
      FireShrinks(s, envs(k), now);
      [FireOps(s, envs(k))] + Scripts(Fire(s, envs(k)), now, envs, k + 1)
  }

  /** The alarms whose callbacks run. */
  ghost function Calls(s: Mode, now: TimeVal, envs: nat -> Env, k: nat): seq<Alarm>
    requires Sorted(s.q) && forall j :: EnvAhead(envs(j), now)
    decreases DueCount(s.q, now)
  {
    if DueCount(s.q, now) == 0 then []
    else
      FireShrinks(s, envs(k), now);
      [s.q[0]] + Calls(Fire(s, envs(k)), now, envs, k + 1)
  }

  lemma {:induction false} ScriptsForward(s: Mode, now: TimeVal, envs: nat -> Env, k: nat)
    requires Sorted(s.q) && forall j :: EnvAhead(envs(j), now)
    ensures Forward(Padded(Scripts(s, now, envs, k)), now)
    decreases DueCount(s.q, now)
  {
    hide Fire, Sorted;
    if DueCount(s.q, now) > 0 {
      FireShrinks(s, envs(k), now);
      ScriptsForward(Fire(s, envs(k)), now, envs, k + 1);
      var ops := FireOps(s, envs(k));
      assert EnvAhead(envs(k), now);
      hide Ahead, Deadline;
      forall j | 0 <= j < |ops|
        ensures Ahead(ops[j], now)
      {
        AheadIfNear(ops[j], now);
      }
      PaddedForward(ops, Scripts(Fire(s, envs(k)), now, envs, k + 1), now);
    }
  }

  lemma {:induction false} ProcessedFrom(s: Mode, now: TimeVal, envs: nat -> Env, k: nat, done: seq<seq<Op>>)
    requires Sorted(s.q) && (forall j :: EnvAhead(envs(j), now)) && |done| == k
    requires Forward(Padded(done + Scripts(s, now, envs, k)), now)
    ensures LeftFrom(s.q, now, Padded(done + Scripts(s, now, envs, k)), k) == Processed(s, now, envs, k).q
    ensures FiredFrom(s.q, now, Padded(done + Scripts(s, now, envs, k)), k) == Calls(s, now, envs, k)
    decreases DueCount(s.q, now)
  {
    hide Callback, CallbackOps, Sorted, Forward, DoAll, EnvAhead;
    ProcessUnfolds(s.q, now, Padded(done + Scripts(s, now, envs, k)), k);
    if DueCount(s.q, now) > 0 {
      var ops, t := FireOps(s, envs(k)), Fire(s, envs(k));
      FireShrinks(s, envs(k), now);
      CallbackIsOps(s.(q := s.q[1..]), s.q[0].f, envs(k));
      assert done + Scripts(s, now, envs, k) == (done + [ops]) + Scripts(t, now, envs, k + 1);
      ProcessedFrom(t, now, envs, k + 1, done + [ops]);
    }
  }

  /** In main.c, too, exactly the due alarms fire that no earlier callback cancelled, once each and in order. */
  lemma MainFiresExactly(s: Mode, now: TimeVal, envs: nat -> Env)
    requires Sorted(s.q) && forall j :: EnvAhead(envs(j), now)
    ensures Calls(s, now, envs, 0) == Fired(Due(s.q, now), Padded(Scripts(s, now, envs, 0)))
  {
    hide Callback, CallbackOps, Sorted, DoAll, EnvAhead, Fired, Due;
    ScriptsForward(s, now, envs, 0);
    assert [] + Scripts(s, now, envs, 0) == Scripts(s, now, envs, 0);
    ProcessedFrom(s, now, envs, 0, []);
    ProcessFiresExactly(s.q, now, Padded(Scripts(s, now, envs, 0)));
  }

  // ----- long presses -----

  ghost predicate PressedFor(s: Mode, key: Key, a: Alarm) {
    a.f == POWER_KEY_ALARM ==> key.Down? && s.powerup && Micros(a.at) >= Micros(key.since) + 1000000
  }

  /** A pending power-key alarm means the key is still down, and the alarm is a second after it went down or later. */
  ghost predicate PowerKeyInv(w: World) {
    && (w.key.Down? ==> !Later(w.key.since, w.clock))
    && forall i :: 0 <= i < |w.mode.q| ==> PressedFor(w.mode, w.key, w.mode.q[i])
  }

  /** Every alarm of q is one of p's, or not a power-key alarm. */
  ghost predicate NoNewPress(p: seq<Alarm>, q: seq<Alarm>) {
    forall a :: a in q ==> a in p || a.f != POWER_KEY_ALARM
  }

  lemma OpAddsNoPress(q: seq<Alarm>, op: Op)
    requires op.Set? ==> op.f != POWER_KEY_ALARM
    ensures NoNewPress(q, Do(q, op))
  {
    if op.Cancel? {
      WithoutMembers(q, {op.f});
    }
  }

  lemma {:induction false} OpsAddNoPress(q: seq<Alarm>, ops: seq<Op>)
    requires forall j :: 0 <= j < |ops| ==> (ops[j].Set? ==> ops[j].f != POWER_KEY_ALARM)
    ensures NoNewPress(q, DoAll(q, ops))
  {
    hide Do;
    if ops != [] {
      OpsAddNoPress(q, ops[..|ops| - 1]);
      OpAddsNoPress(DoAll(q, ops[..|ops| - 1]), ops[|ops| - 1]);
    }
  }

  lemma PowerKeyStays(s: Mode, t: Mode, key: Key)
    requires forall i :: 0 <= i < |s.q| ==> PressedFor(s, key, s.q[i])
    requires NoNewPress(s.q, t.q) && (s.powerup ==> t.powerup)
    ensures forall i :: 0 <= i < |t.q| ==> PressedFor(t, key, t.q[i])
  {
    forall i | 0 <= i < |t.q|
      ensures PressedFor(t, key, t.q[i])
    {
      assert t.q[i] in t.q;
      if t.q[i].f == POWER_KEY_ALARM {
        var k :| 0 <= k < |s.q| && s.q[k] == t.q[i];
        assert PressedFor(s, key, s.q[k]);
      }
    }
  }

  lemma FireAddsNoPress(s: Mode, e: Env)
    requires s.q != []
    ensures NoNewPress(s.q, Fire(s, e).q) && (s.powerup ==> Fire(s, e).powerup)
    ensures Fire(s, e).restarts == s.restarts + if s.q[0].f == POWER_KEY_ALARM then 1 else 0
  {
    hide Callback, CallbackOps, DoAll;
    var t := s.(q := s.q[1..]);
    assert forall a :: a in t.q ==> a in s.q;
    CallbackIsOps(t, s.q[0].f, e);
    CallbackSetsNoPress(t, s.q[0].f, e);
    OpsAddNoPress(t.q, CallbackOps(t, s.q[0].f, e));
    CallbackRestarts(t, s.q[0].f, e);
  }

  lemma CallbackSetsNoPress(s: Mode, f: Fn, e: Env)
    ensures var ops := CallbackOps(s, f, e);
      forall j :: 0 <= j < |ops| ==> (ops[j].Set? ==> ops[j].f != POWER_KEY_ALARM)
  {
  }

  lemma CallbackRestarts(s: Mode, f: Fn, e: Env)
    ensures s.powerup ==> Callback(s, f, e).powerup
    ensures Callback(s, f, e).restarts == s.restarts + if f == POWER_KEY_ALARM then 1 else 0
  {
    hide Do;
  }

  /**
    alarm_process restarts the device only if the key has been down for a second and the voltage was once high
    enough.
   */
  lemma {:induction false} RestartNeedsLongPress(s: Mode, key: Key, now: TimeVal, envs: nat -> Env, k: nat)
    requires Sorted(s.q) && (forall j :: EnvAhead(envs(j), now))
    requires forall i :: 0 <= i < |s.q| ==> PressedFor(s, key, s.q[i])
    ensures var t := Processed(s, now, envs, k);
      && (forall i :: 0 <= i < |t.q| ==> PressedFor(t, key, t.q[i]))
      && t.restarts >= s.restarts
      && (t.restarts > s.restarts ==> key.Down? && Micros(now) >= Micros(key.since) + 1000000 && t.powerup)
      && (s.powerup ==> t.powerup)
    decreases DueCount(s.q, now)
  {
    hide Fire, Sorted, EnvAhead;
    if DueCount(s.q, now) > 0 {
      FireShrinks(s, envs(k), now);
      FireAddsNoPress(s, envs(k));
      PowerKeyStays(s, Fire(s, envs(k)), key);
      RestartNeedsLongPress(Fire(s, envs(k)), key, now, envs, k + 1);
      assert PressedFor(s, key, s.q[0]);
    }
  }

  /** Without a pending power-key alarm nothing restarts the device. */
  lemma {:induction false} NoPressNoRestart(s: Mode, now: TimeVal, envs: nat -> Env, k: nat)
    requires Sorted(s.q) && (forall j :: EnvAhead(envs(j), now))
    requires forall a :: a in s.q ==> a.f != POWER_KEY_ALARM
    ensures Processed(s, now, envs, k).restarts == s.restarts
    decreases DueCount(s.q, now)
  {
    hide Fire, Sorted, EnvAhead;
    if DueCount(s.q, now) > 0 {
      FireShrinks(s, envs(k), now);
      FireAddsNoPress(s, envs(k));
      NoPressNoRestart(Fire(s, envs(k)), now, envs, k + 1);
    }
  }

  lemma PowerKeyUpClears(s: Mode, clock: TimeVal, later: TimeVal)
    ensures var t := WakeupKey(CancelAlarm(s, POWER_KEY_ALARM), clock, later);
      forall a :: a in t.q ==> a.f != POWER_KEY_ALARM
  {
    var q0 := Do(s.q, Cancel(POWER_KEY_ALARM));
    WithoutMembers(s.q, {POWER_KEY_ALARM});
    assert forall a :: a in q0 ==> a.f != POWER_KEY_ALARM;
    hide Do;
    var q1 := Do(q0, Cancel(BRIGHTNESS_ALARM2));
    OpAddsNoPress(q0, Cancel(BRIGHTNESS_ALARM2));
    var q2 := Do(q1, Cancel(ANIMATION_ALARM));
    OpAddsNoPress(q1, Cancel(ANIMATION_ALARM));
    var q3 := Do(q2, Cancel(BRIGHTNESS_ALARM1));
    OpAddsNoPress(q2, Cancel(BRIGHTNESS_ALARM1));
    OpAddsNoPress(q3, Cancel(ANIMATION_ALARM));
    var q4 := Do(q3, Set(BRIGHTNESS_ALARM1, clock, 5000));
    OpAddsNoPress(q3, Set(BRIGHTNESS_ALARM1, clock, 5000));
    OpAddsNoPress(q4, Set(ANIMATION_ALARM, later, ANIMATION_TIMEOUT));
  }

  lemma WakeupKey2AddsNoPress(s: Mode, clock: TimeVal, later: TimeVal)
    ensures NoNewPress(s.q, WakeupKey2(s, clock, later).q)
  {
    hide Do;
    var q1 := Do(s.q, Cancel(BRIGHTNESS_ALARM2));
    OpAddsNoPress(s.q, Cancel(BRIGHTNESS_ALARM2));
    var q2 := Do(q1, Cancel(BRIGHTNESS_ALARM1));
    OpAddsNoPress(q1, Cancel(BRIGHTNESS_ALARM1));
    var q3 := Do(q2, Cancel(ANIMATION_ALARM));
    OpAddsNoPress(q2, Cancel(ANIMATION_ALARM));
    var q4 := Do(q3, Set(BRIGHTNESS_ALARM1, clock, 5000));
    OpAddsNoPress(q3, Set(BRIGHTNESS_ALARM1, clock, 5000));
    OpAddsNoPress(q4, Set(ANIMATION_ALARM, later, ANIMATION_TIMEOUT));
  }

  lemma PowerEventAddsNoPress(s: Mode, d: Device)
    ensures NoNewPress(s.q, PowerEvent(s, d).q) && (s.powerup ==> PowerEvent(s, d).powerup)
  {
    hide Do;
    var q1 := Do(s.q, Cancel(BRIGHTNESS_ALARM2));
    OpAddsNoPress(s.q, Cancel(BRIGHTNESS_ALARM2));
    OpAddsNoPress(q1, Cancel(BRIGHTNESS_ALARM1));
    OpAddsNoPress(Do(q1, Cancel(BRIGHTNESS_ALARM1)), Cancel(ANIMATION_ALARM));
  }

  lemma PressIsLong(s: Mode, key: Key, clock: TimeVal)
    requires s.powerup && (forall i :: 0 <= i < |s.q| ==> PressedFor(s, key, s.q[i]))
    requires key.Down? ==> !Later(key.since, clock)
    ensures var t, now := SetAlarm(s, POWER_KEY_ALARM, clock, 1000), if key.Up? then Down(clock) else key;
      && (forall i :: 0 <= i < |t.q| ==> PressedFor(t, now, t.q[i])) && !Later(now.since, clock)
  {
    var a := Alarm(Deadline(clock, 1000), POWER_KEY_ALARM);
    DeadlineIsAfter(clock, 1000);
    var t, now := SetAlarm(s, POWER_KEY_ALARM, clock, 1000), if key.Up? then Down(clock) else key;
    LaterIsMicros(now.since, clock);
    forall i | 0 <= i < |t.q|
      ensures PressedFor(t, now, t.q[i])
    {
      var p := Place(s.q, a.at);
      if i < p {
        assert PressedFor(s, key, s.q[i]);
      } else if i > p {
        assert PressedFor(s, key, s.q[i - 1]);
      }
    }
  }

  // ----- runs -----

  ghost predicate WorldInv(w: World) {
    ScreenInv(w.mode) && PowerKeyInv(w)
  }

  lemma ScreenKept(s: Mode, ev: Event)
    requires ScreenInv(s) && (ev.Wake? ==> forall j :: EnvAhead(ev.envs(j), ev.now))
    ensures ScreenInv(Handled(s, ev))
  {
    hide Sorted, Pending, Do, Start, WakeupKey, WakeupKey2, PowerEvent;
    match ev {
      case PowerKeyDown(e) =>
        OpCounts(s.q, Set(POWER_KEY_ALARM, e.clock, 1000));
      case PowerKeyUp(e) =>
        OpCounts(s.q, Cancel(POWER_KEY_ALARM));
        WakeupKeyKeeps(CancelAlarm(s, POWER_KEY_ALARM), e.clock, e.later);
      case OtherKeyDown(e) => WakeupKeyKeeps(s, e.clock, e.later);
      case Battery(e) => PowerEventKeeps(s, e.device);
      case Quit =>
      case Other =>
      case Wake(now, envs) => ProcessedKeeps(s, now, envs, 0);
    }
  }

  lemma PowerKeyKept(w: World, ev: Event)
    requires Sorted(w.mode.q) && PowerKeyInv(w) && InTime(w.clock, ev) && !w.mode.quit
    ensures PowerKeyInv(Next(w, ev))
  {
    hide Sorted, Do, Start, WakeupKey, WakeupKey2, PowerEvent, PressedFor, NoNewPress, EnvAhead;
    var s, t := w.mode, Next(w, ev).mode;
    if w.key.Down? {
      LaterIsMicros(w.key.since, w.clock);
      LaterIsMicros(w.clock, TimeOf(ev, w.clock));
      LaterIsMicros(w.key.since, TimeOf(ev, w.clock));
    }
    match ev {
      case PowerKeyDown(e) =>
        if s.powerup {
          PressIsLong(s, w.key, e.clock);
        } else {
          NoPressAtAll(s, w.key, KeyAfter(w.key, ev));
        }
      case PowerKeyUp(e) =>
        PowerKeyUpClears(s, e.clock, e.later);
        NonePressed(t, Up);
      case OtherKeyDown(e) =>
        WakeupKey2AddsNoPress(s, e.clock, e.later);
        PowerupKept(s, e.clock, e.later);
        PowerKeyStays(s, t, w.key);
      case Battery(e) =>
        PowerEventAddsNoPress(s, e.device);
        PowerKeyStays(s, t, w.key);
      case Quit => QuitPresses(s, w.key);
      case Other =>
      case Wake(now, envs) => RestartNeedsLongPress(s, w.key, now, envs, 0);
    }
  }

  lemma QuitPresses(s: Mode, key: Key)
    requires forall i :: 0 <= i < |s.q| ==> PressedFor(s, key, s.q[i])
    ensures var t := s.(quit := true); forall i :: 0 <= i < |t.q| ==> PressedFor(t, key, t.q[i])
  {
  }

  lemma PowerupKept(s: Mode, clock: TimeVal, later: TimeVal)
    ensures WakeupKey2(s, clock, later).powerup == s.powerup
  {
    hide Do;
  }

  lemma NoPressAtAll(s: Mode, key: Key, now: Key)
    requires !s.powerup && forall i :: 0 <= i < |s.q| ==> PressedFor(s, key, s.q[i])
    ensures forall i :: 0 <= i < |s.q| ==> PressedFor(s, now, s.q[i])
  {
    forall i | 0 <= i < |s.q|
      ensures PressedFor(s, now, s.q[i])
    {
      assert PressedFor(s, key, s.q[i]);
    }
  }

  lemma NonePressed(s: Mode, key: Key)
    requires forall a :: a in s.q ==> a.f != POWER_KEY_ALARM
    ensures forall i :: 0 <= i < |s.q| ==> PressedFor(s, key, s.q[i])
  {
  }

  lemma NextKeeps(w: World, ev: Event)
    requires WorldInv(w) && InTime(w.clock, ev)
    ensures WorldInv(Next(w, ev))
  {
    hide PowerKeyInv, Handled, EnvAhead;
    if !w.mode.quit {
      PowerKeyKept(w, ev);
      hide ScreenInv;
      ScreenKept(w.mode, ev);
    }
  }

  lemma BegunHolds(e: Env)
    ensures WorldInv(Begun(e))
  {
    var s := PowerEvent(Boot(), e.device);
    assert ScreenInv(Boot());
    PowerEventAddsNoPress(Boot(), e.device);
    PowerEventKeeps(Boot(), e.device);
    NothingPendingAtBoot(e.device);
    hide Do, PowerEvent, Pending, Sorted;
    StartKeeps(s, e.clock, e.later);
    var q1 := Do(s.q, Set(BRIGHTNESS_ALARM1, e.clock, 5000));
    OpAddsNoPress(s.q, Set(BRIGHTNESS_ALARM1, e.clock, 5000));
    OpAddsNoPress(q1, Set(ANIMATION_ALARM, e.later, ANIMATION_TIMEOUT));
    NonePressed(Begun(e).mode, Up);
  }

  lemma NothingPendingAtBoot(d: Device)
    ensures PowerEvent(Boot(), d).q == []
  {
  }

  /** The state after the events of a run. */
  ghost predicate Reaches(w: World, evs: seq<Event>, r: World) {
    if evs == [] then r == w
    else exists m ::
      && Reaches(w, evs[..|evs| - 1], m) && Sorted(m.mode.q) && InTime(m.clock, evs[|evs| - 1])
      && r == Next(m, evs[|evs| - 1])
  }

  /** In every state of every run that main can have, the screen and power-key invariants hold. */
  lemma {:induction false} RunKeeps(e: Env, evs: seq<Event>, r: World)
    requires Reaches(Begun(e), evs, r)
    ensures WorldInv(r)
  {
    if evs == [] {
      BegunHolds(e);
    } else {
      var last := evs[|evs| - 1];
      var m :| Reaches(Begun(e), evs[..|evs| - 1], m) && Sorted(m.mode.q) && InTime(m.clock, last)
        && r == Next(m, last);
      RunKeeps(e, evs[..|evs| - 1], m);
      NextKeeps(m, last);
    }
  }

  // ----- what a restart needs -----

  /** Some callback of alarm_process reads a voltage that is high enough. */
  ghost predicate CallbackReadsHigh(s: Mode, now: TimeVal, envs: nat -> Env, k: nat)
    requires Sorted(s.q) && forall j :: EnvAhead(envs(j), now)
    decreases DueCount(s.q, now)
  {
    if DueCount(s.q, now) == 0 then false
    else
      FireShrinks(s, envs(k), now);
      || (s.q[0].f == ANIMATION_ALARM && envs(k).device.voltage >= POWERUP_VOLTAGE)
      || CallbackReadsHigh(Fire(s, envs(k)), now, envs, k + 1)
  }

  /** The program reads a voltage that is high enough while it handles the event. */
  ghost predicate ReadsHigh(s: Mode, ev: Event)
    requires Sorted(s.q) && (ev.Wake? ==> forall j :: EnvAhead(ev.envs(j), ev.now))
  {
    match ev
    case Battery(e) => e.device.voltage >= POWERUP_VOLTAGE
    case Wake(now, envs) => CallbackReadsHigh(s, now, envs, 0)
    case _ => false
  }

  /** The i-th event of the run brings such a reading. */
  ghost predicate HighAt(w: World, evs: seq<Event>, i: nat)
    requires i < |evs|
  {
    exists m ::
      && Reaches(w, evs[..i], m) && Sorted(m.mode.q) && InTime(m.clock, evs[i])
      && !m.mode.quit && ReadsHigh(m.mode, evs[i])
  }

  ghost predicate HighIn(w: World, evs: seq<Event>) {
    exists i :: 0 <= i < |evs| && HighAt(w, evs, i)
  }

  /** A voltage that is high enough was read, by main before its loop or for one of the events. */
  ghost predicate HighSince(e: Env, evs: seq<Event>) {
    e.device.voltage >= POWERUP_VOLTAGE || HighIn(Begun(e), evs)
  }

  lemma FirePowerup(s: Mode, e: Env)
    requires s.q != []
    ensures Fire(s, e).powerup <==>
      s.powerup || (s.q[0].f == ANIMATION_ALARM && e.device.voltage >= POWERUP_VOLTAGE)
  {
    hide Do;
  }

  lemma {:induction false} ProcessedPowerup(s: Mode, now: TimeVal, envs: nat -> Env, k: nat)
    requires Sorted(s.q) && forall j :: EnvAhead(envs(j), now)
    ensures Processed(s, now, envs, k).powerup <==> s.powerup || CallbackReadsHigh(s, now, envs, k)
    decreases DueCount(s.q, now)
  {
    hide Fire, Sorted, EnvAhead;
    if DueCount(s.q, now) > 0 {
      FireShrinks(s, envs(k), now);
      FirePowerup(s, envs(k));
      ProcessedPowerup(Fire(s, envs(k)), now, envs, k + 1);
    }
  }

  lemma HandledPowerup(s: Mode, ev: Event)
    requires Sorted(s.q) && (ev.Wake? ==> forall j :: EnvAhead(ev.envs(j), ev.now))
    ensures Handled(s, ev).powerup <==> s.powerup || ReadsHigh(s, ev)
  {
    hide Do, Sorted, EnvAhead, Pending;
    if ev.Wake? {
      ProcessedPowerup(s, ev.now, ev.envs, 0);
    }
  }

  /** A run ends in one state. */
  lemma {:induction false} ReachesOne(w: World, evs: seq<Event>, r: World, t: World)
    requires Reaches(w, evs, r) && Reaches(w, evs, t)
    ensures r == t
  {
    if evs != [] {
      var most, last := evs[..|evs| - 1], evs[|evs| - 1];
      var m :| Reaches(w, most, m) && Sorted(m.mode.q) && InTime(m.clock, last) && r == Next(m, last);
      var n :| Reaches(w, most, n) && Sorted(n.mode.q) && InTime(n.clock, last) && t == Next(n, last);
      ReachesOne(w, most, m, n);
    }
  }

  lemma HighAtBefore(w: World, evs: seq<Event>, i: nat)
    requires i < |evs| - 1
    ensures HighAt(w, evs, i) <==> HighAt(w, evs[..|evs| - 1], i)
  {
    assert evs[..|evs| - 1][..i] == evs[..i];
  }

  lemma HighAtLast(w: World, evs: seq<Event>, m: World)
    requires evs != [] && Reaches(w, evs[..|evs| - 1], m) && Sorted(m.mode.q) && InTime(m.clock, evs[|evs| - 1])
    ensures HighAt(w, evs, |evs| - 1) <==> !m.mode.quit && ReadsHigh(m.mode, evs[|evs| - 1])
  {
    var i := |evs| - 1;
    hide Sorted, EnvAhead, ReadsHigh, Reaches;
    if HighAt(w, evs, i) {
      var n :| Reaches(w, evs[..i], n) && Sorted(n.mode.q) && InTime(n.clock, evs[i])
        && !n.mode.quit && ReadsHigh(n.mode, evs[i]);
      ReachesOne(w, evs[..i], m, n);
    }
  }

  /** Over every run: powerup is set if and only if a voltage of at least POWERUP_VOLTAGE has been read. */
  lemma {:induction false} PowerupMeansReading(e: Env, evs: seq<Event>, r: World)
    requires Reaches(Begun(e), evs, r)
    ensures r.mode.powerup <==> HighSince(e, evs)
  {
    hide Handled, Sorted, HighAt, HighIn, ReadsHigh;
    if evs == [] {
      NoReadingYet(e);
    } else {
      var most, last := evs[..|evs| - 1], evs[|evs| - 1];
      var m :| Reaches(Begun(e), most, m) && Sorted(m.mode.q) && InTime(m.clock, last) && r == Next(m, last);
      PowerupMeansReading(e, most, m);
      HandledPowerup(m.mode, last);
      HighAtLast(Begun(e), evs, m);
      HighGrows(Begun(e), evs);
    }
  }

  lemma NoReadingYet(e: Env)
    ensures Begun(e).mode.powerup <==> e.device.voltage >= POWERUP_VOLTAGE
    ensures HighSince(e, []) <==> e.device.voltage >= POWERUP_VOLTAGE
  {
    hide Do;
  }

  lemma HighGrows(w: World, evs: seq<Event>)
    requires evs != []
    ensures HighIn(w, evs) <==> HighIn(w, evs[..|evs| - 1]) || HighAt(w, evs, |evs| - 1)
  {
    hide HighAt;
    var most := evs[..|evs| - 1];
    forall i | 0 <= i < |most|
      ensures HighAt(w, evs, i) <==> HighAt(w, most, i)
    {
      HighAtBefore(w, evs, i);
    }
  }

  lemma RestartNeedsPowerup(w: World, ev: Event)
    requires WorldInv(w) && InTime(w.clock, ev) && Next(w, ev).mode.restarts != w.mode.restarts
    ensures ev.Wake? && w.key.Down? && Micros(ev.now) >= Micros(w.key.since) + 1000000 && w.mode.powerup
  {
    hide Sorted, Do, Pending, EnvAhead, PressedFor;
    if ev.Wake? && !w.mode.quit {
      RestartNeedsLongPress(w.mode, w.key, ev.now, ev.envs, 0);
      if !w.mode.powerup {
        NoneToPress(w.mode, w.key);
        NoPressNoRestart(w.mode, ev.now, ev.envs, 0);
      }
    }
  }

  /**
    A reboot for the power key happens only in alarm_process, with the key down for a second or more, and only
    after an earlier event of the run has brought a reading of at least POWERUP_VOLTAGE.
   */
  lemma RestartsAreLongPresses(e: Env, evs: seq<Event>, w: World, ev: Event)
    requires Reaches(Begun(e), evs, w) && Sorted(w.mode.q) && InTime(w.clock, ev)
    requires Next(w, ev).mode.restarts != w.mode.restarts
    ensures ev.Wake? && w.key.Down? && Micros(ev.now) >= Micros(w.key.since) + 1000000
    ensures HighSince(e, evs)
  {
    hide Sorted, InTime, EnvAhead, HighSince, Reaches, WorldInv, Begun, Next;
    RunKeeps(e, evs, w);
    PowerupMeansReading(e, evs, w);
    RestartNeedsPowerup(w, ev);
  }

  lemma NoneToPress(s: Mode, key: Key)
    requires !s.powerup && forall i :: 0 <= i < |s.q| ==> PressedFor(s, key, s.q[i])
    ensures forall a :: a in s.q ==> a.f != POWER_KEY_ALARM
  {
    forall a | a in s.q
      ensures a.f != POWER_KEY_ALARM
    {
      var k :| 0 <= k < |s.q| && s.q[k] == a;
      assert PressedFor(s, key, s.q[k]);
    }
  }

  // ----- unplugging -----

  /**
    The first reading without a charger powers the device off at once and leaves the screen dark, with no screen
    alarm.
   */
  lemma UnpluggedPowersOff(s: Mode, d: Device)
    requires ScreenInv(s) && !s.shutdown && !d.ac && !d.usb
    ensures var t := PowerEvent(s, d);
      t.shutdown && t.powerOffs == s.powerOffs + 1 && t.blanked && CountsOf(t.q) == Counts(0, 0, 0)
  {
    hide Do, Pending, Sorted;
    PowerEventKeeps(s, d);
  }
}
