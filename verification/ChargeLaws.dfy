/**
  What the callbacks and handlers of charge_only_mode/main.c do to the screen, the counters and the timer list,
  field by field: alarms are the ones of milliseconds after the clock reading, and times and voltages are spelled out.
 */
module ChargeLaws {
  import opened AlarmQueues
  import opened AlarmRuns
  import opened ChargeModes
  import opened ChargeRuns

  // ----- the list operations, as bags of alarms -----

  lemma InsertedContents(q: seq<Alarm>, a: Alarm)
    ensures multiset(Inserted(q, a)) == multiset(q) + multiset{a}
  {
    var p := Place(q, a.at);
    hide Place;
    assert q == q[..p] + q[p..];
  }

  /** Setting an alarm adds one alarm, due ms milliseconds after the clock reading. */
  lemma SetContents(q: seq<Alarm>, f: Fn, clock: TimeVal, ms: CInt)
    requires Sorted(q) && 0 <= ms <= 10000
    ensures Sorted(Do(q, Set(f, clock, ms)))
    ensures multiset(Do(q, Set(f, clock, ms))) == multiset(q) + multiset{Alarm(After(clock, ms), f)}
  {
    DeadlineIsAfter(clock, ms);
    InsertedSorted(q, Alarm(After(clock, ms), f));
    InsertedContents(q, Alarm(After(clock, ms), f));
  }

  /** The alarms of q that are not for a function of fs. */
  ghost predicate Left(q: seq<Alarm>, fs: set<Fn>, r: seq<Alarm>) {
    forall a :: multiset(r)[a] == if a.f in fs then 0 else multiset(q)[a]
  }

  lemma {:induction false} WithoutContents(q: seq<Alarm>, fs: set<Fn>)
    ensures Left(q, fs, Without(q, fs))
  {
    if q != [] {
      WithoutContents(q[1..], fs);
      assert q == [q[0]] + q[1..];
      if q[0].f !in fs {
        assert multiset(Without(q, fs)) == multiset{q[0]} + multiset(Without(q[1..], fs));
      }
    }
  }

  /** Cancelling takes away the alarms of one function and no others. */
  lemma CancelContents(q: seq<Alarm>, f: Fn)
    requires Sorted(q)
    ensures Sorted(Do(q, Cancel(f))) && Left(q, {f}, Do(q, Cancel(f)))
  {
    WithoutSorted(q, {f});
    WithoutContents(q, {f});
  }

  lemma LeftTwice(q: seq<Alarm>, fs: set<Fn>, r: seq<Alarm>, gs: set<Fn>, t: seq<Alarm>)
    requires Left(q, fs, r) && Left(r, gs, t)
    ensures Left(q, fs + gs, t)
  {
  }

  // ----- callbacks -----

  /** Nothing but the screen, the list and the count of power-offs differs. */
  predicate SameSwitches(s: Mode, t: Mode) {
    t.quit == s.quit && t.shutdown == s.shutdown && t.powerup == s.powerup && t.restarts == s.restarts
  }

  /** The screen goes dark, the animation stops, and a device that is shut down is powered off; no other is. */
  lemma DarkenDoes(s: Mode)
    requires Sorted(s.q)
    ensures var t := Darken(s);
      && t.blanked && t.brightness == 0.0 && SameSwitches(s, t)
      && t.powerOffs == s.powerOffs + (if s.shutdown then 1 else 0)
      && Sorted(t.q) && Left(s.q, {ANIMATION_ALARM}, t.q)
  {
    CancelContents(s.q, ANIMATION_ALARM);
    hide Do, Sorted, Left;
  }

  /** After 5 s at 0.8 come 10 s at 0.4. */
  lemma DimDoes(s: Mode, clock: TimeVal)
    requires Sorted(s.q)
    ensures var t := Dim(s, clock);
      && t.brightness == 0.4 && t.blanked == s.blanked && SameSwitches(s, t) && t.powerOffs == s.powerOffs
      && Sorted(t.q) && multiset(t.q) == multiset(s.q) + multiset{Alarm(After(clock, 10000), BRIGHTNESS_ALARM2)}
  {
    SetContents(s.q, BRIGHTNESS_ALARM2, clock, 10000);
    hide Do, Sorted;
  }

  lemma StartList(q: seq<Alarm>, clock: TimeVal, later: TimeVal)
    requires Sorted(q)
    ensures var t := Do(Do(q, Set(BRIGHTNESS_ALARM1, clock, 5000)), Set(ANIMATION_ALARM, later, 500));
      && Sorted(t)
      && multiset(t) == multiset(q) + multiset{Alarm(After(clock, 5000), BRIGHTNESS_ALARM1)}
          + multiset{Alarm(After(later, 500), ANIMATION_ALARM)}
  {
    hide Do, Sorted, After, Deadline;
    SetContents(q, BRIGHTNESS_ALARM1, clock, 5000);
    SetContents(Do(q, Set(BRIGHTNESS_ALARM1, clock, 5000)), ANIMATION_ALARM, later, 500);
  }

  /** The display cycle begins: lit at 0.8, dimmed in 5 s, animated in half a second. */
  lemma StartDoes(s: Mode, clock: TimeVal, later: TimeVal)
    requires Sorted(s.q)
    ensures var t := Start(s, clock, later);
      && !t.blanked && t.brightness == 0.8 && SameSwitches(s, t) && t.powerOffs == s.powerOffs
      && Sorted(t.q)
      && multiset(t.q) == multiset(s.q) + multiset{Alarm(After(clock, 5000), BRIGHTNESS_ALARM1)}
          + multiset{Alarm(After(later, 500), ANIMATION_ALARM)}
  {
    hide Do, Sorted, After, Deadline;
    StartList(s.q, clock, later);
  }

  const SCREEN_ALARMS: set<Fn> := {ANIMATION_ALARM, BRIGHTNESS_ALARM1, BRIGHTNESS_ALARM2}

  lemma CancelThree(q: seq<Alarm>, f: Fn, g: Fn, h: Fn)
    requires Sorted(q) && {f, g, h} == SCREEN_ALARMS
    ensures var r := Do(Do(Do(q, Cancel(f)), Cancel(g)), Cancel(h)); Sorted(r) && Left(q, SCREEN_ALARMS, r)
  {
    var q1 := Do(q, Cancel(f));
    var q2 := Do(q1, Cancel(g));
    CancelContents(q, f);
    CancelContents(q1, g);
    CancelContents(q2, h);
    hide Do, Sorted;
    LeftTwice(q, {f}, q1, {g}, q2);
    LeftTwice(q, {f} + {g}, q2, {h}, Do(q2, Cancel(h)));
    assert {f} + {g} + {h} == SCREEN_ALARMS;
  }

  /** The device restarts; if that works the program quits. The screen's timers are gone, the display stays as it is. */
  lemma PowerKeyDoes(s: Mode, rebootOk: bool)
    requires Sorted(s.q)
    ensures var t := PowerKey(s, rebootOk);
      && t.restarts == s.restarts + 1 && (t.quit <==> s.quit || rebootOk)
      && t.blanked == s.blanked && t.brightness == s.brightness && t.powerOffs == s.powerOffs
      && t.shutdown == s.shutdown && t.powerup == s.powerup
      && Sorted(t.q) && Left(s.q, SCREEN_ALARMS, t.q)
  {
    CancelThree(s.q, BRIGHTNESS_ALARM2, BRIGHTNESS_ALARM1, ANIMATION_ALARM);
    hide Do, Sorted, Left;
  }

  /**
    A reading: a voltage of 3.47 V is remembered, and the first reading with neither charger powers the device off
    at once, with the screen dark and no screen timer. Any other reading changes nothing.
   */
  lemma PowerEventDoes(s: Mode, d: Device)
    requires Sorted(s.q)
    ensures var t := PowerEvent(s, d);
      && (t.powerup <==> s.powerup || d.voltage >= 3470000) && t.quit == s.quit && t.restarts == s.restarts
      && Sorted(t.q)
      && if !s.shutdown && !d.ac && !d.usb then
           && t.shutdown && t.powerOffs == s.powerOffs + 1 && t.blanked && t.brightness == 0.0
           && Left(s.q, SCREEN_ALARMS, t.q)
         else
           && t.shutdown == s.shutdown && t.powerOffs == s.powerOffs && t.blanked == s.blanked
           && t.brightness == s.brightness && t.q == s.q
  {
    CancelThree(s.q, BRIGHTNESS_ALARM2, BRIGHTNESS_ALARM1, ANIMATION_ALARM);
    hide Do, Sorted, Left;
  }

  /** The animation goes on in half a second, and the device is read. */
  lemma AnimateDoes(s: Mode, clock: TimeVal, d: Device)
    requires Sorted(s.q)
    ensures var t := Animate(s, clock, d);
      && (t.powerup <==> s.powerup || d.voltage >= 3470000) && t.quit == s.quit && t.restarts == s.restarts
      && Sorted(t.q)
      && if !s.shutdown && !d.ac && !d.usb then
           && t.shutdown && t.powerOffs == s.powerOffs + 1 && t.blanked && t.brightness == 0.0
           && Left(s.q, SCREEN_ALARMS, t.q)
         else
           && t.shutdown == s.shutdown && t.powerOffs == s.powerOffs && t.blanked == s.blanked
           && t.brightness == s.brightness
           && multiset(t.q) == multiset(s.q) + multiset{Alarm(After(clock, 500), ANIMATION_ALARM)}
  {
    hide Do, Sorted, After, Deadline, Left, PowerEvent;
    SetContents(s.q, ANIMATION_ALARM, clock, 500);
    var u := SetAlarm(s, ANIMATION_ALARM, clock, 500);
    PowerEventDoes(u, d);
    SetThenLeft(s.q, Alarm(After(clock, 500), ANIMATION_ALARM), u.q, PowerEvent(u, d).q);
  }

  lemma SetThenLeft(q: seq<Alarm>, a: Alarm, r: seq<Alarm>, t: seq<Alarm>)
    requires multiset(r) == multiset(q) + multiset{a} && a.f in SCREEN_ALARMS
    ensures Left(r, SCREEN_ALARMS, t) ==> Left(q, SCREEN_ALARMS, t)
  {
  }

  // ----- the wake-up handlers -----

  /** The list of a display cycle that has just begun: its two timers, and none of the earlier ones. */
  ghost predicate Restarted(q: seq<Alarm>, clock: TimeVal, later: TimeVal, t: seq<Alarm>) {
    forall a :: multiset(t)[a] ==
      if a == Alarm(After(clock, 5000), BRIGHTNESS_ALARM1) || a == Alarm(After(later, 500), ANIMATION_ALARM) then 1
      else if a.f in SCREEN_ALARMS then 0
      else multiset(q)[a]
  }

  lemma StartedAnew(q: seq<Alarm>, clock: TimeVal, later: TimeVal, r: seq<Alarm>, t: seq<Alarm>)
    requires Left(q, SCREEN_ALARMS, r)
    requires multiset(t) == multiset(r) + multiset{Alarm(After(clock, 5000), BRIGHTNESS_ALARM1)}
      + multiset{Alarm(After(later, 500), ANIMATION_ALARM)}
    ensures Restarted(q, clock, later, t)
  {
    hide After;
  }

  /**
    The power key puts out a screen that is at its brightest, and starts the display cycle anew otherwise, whether
    the screen was dimmed or dark.
   */
  lemma WakeupKeyDoes(s: Mode, clock: TimeVal, later: TimeVal)
    requires Sorted(s.q)
    ensures var t := WakeupKey(s, clock, later);
      && SameSwitches(s, t) && Sorted(t.q)
      && if exists a :: a in s.q && a.f == BRIGHTNESS_ALARM1 then
           && t.blanked && t.brightness == 0.0 && t.powerOffs == s.powerOffs + (if s.shutdown then 1 else 0)
           && Left(s.q, SCREEN_ALARMS, t.q)
         else
           && !t.blanked && t.brightness == 0.8 && t.powerOffs == s.powerOffs
           && Restarted(s.q, clock, later, t.q)
  {
    hide Do, Sorted, After, Deadline, Left, Darken, Start, Pending, Restarted;
    var q1 := Do(s.q, Cancel(BRIGHTNESS_ALARM2));
    var q2 := Do(q1, Cancel(ANIMATION_ALARM));
    CancelThree(s.q, BRIGHTNESS_ALARM2, ANIMATION_ALARM, BRIGHTNESS_ALARM1);
    CancelContents(s.q, BRIGHTNESS_ALARM2);
    CancelContents(q1, ANIMATION_ALARM);
    PendingMember(q2, BRIGHTNESS_ALARM1);
    StillPending(s.q, q1, q2);
    var u := s.(q := Do(q2, Cancel(BRIGHTNESS_ALARM1)));
    DarkenDoes(u);
    StartDoes(u, clock, later);
    LeftTwice(s.q, SCREEN_ALARMS, u.q, {ANIMATION_ALARM}, Darken(u).q);
    assert SCREEN_ALARMS + {ANIMATION_ALARM} == SCREEN_ALARMS;
    StartedAnew(s.q, clock, later, u.q, Start(u, clock, later).q);
  }

  lemma {:induction false} PendingMember(q: seq<Alarm>, f: Fn)
    ensures Pending(q, f) > 0 <==> exists a :: a in q && a.f == f
  {
    if q != [] {
      PendingMember(q[1..], f);
      assert q == [q[0]] + q[1..];
    }
  }

  lemma StillPending(q: seq<Alarm>, q1: seq<Alarm>, q2: seq<Alarm>)
    requires Left(q, {BRIGHTNESS_ALARM2}, q1) && Left(q1, {ANIMATION_ALARM}, q2)
    ensures forall a: Alarm :: a.f == BRIGHTNESS_ALARM1 ==> (a in q2 <==> a in q)
  {
    forall a: Alarm | a.f == BRIGHTNESS_ALARM1
      ensures a in q2 <==> a in q
    {
      assert a in multiset(q2) <==> a in multiset(q);
    }
  }

  /** The other keys start the display cycle anew in any case. */
  lemma WakeupKey2Does(s: Mode, clock: TimeVal, later: TimeVal)
    requires Sorted(s.q)
    ensures var t := WakeupKey2(s, clock, later);
      && SameSwitches(s, t) && Sorted(t.q) && !t.blanked && t.brightness == 0.8 && t.powerOffs == s.powerOffs
      && Restarted(s.q, clock, later, t.q)
  {
    hide Do, Sorted, After, Deadline, Left, Start, Restarted;
    CancelThree(s.q, BRIGHTNESS_ALARM2, BRIGHTNESS_ALARM1, ANIMATION_ALARM);
    var u := s.(q := Do(Do(Do(s.q, Cancel(BRIGHTNESS_ALARM2)), Cancel(BRIGHTNESS_ALARM1)), Cancel(ANIMATION_ALARM)));
    StartDoes(u, clock, later);
    StartedAnew(s.q, clock, later, u.q, Start(u, clock, later).q);
  }

  // ----- events -----

  /** The power key going down sets its timer of a second once a good voltage has been seen, and does nothing before. */
  lemma PowerKeyDownDoes(s: Mode, e: Env)
    requires Sorted(s.q)
    ensures var t := Handled(s, PowerKeyDown(e));
      && t.(q := s.q) == s && Sorted(t.q)
      && multiset(t.q) == multiset(s.q)
          + if s.powerup then multiset{Alarm(After(e.clock, 1000), POWER_KEY_ALARM)} else multiset{}
  {
    SetContents(s.q, POWER_KEY_ALARM, e.clock, 1000);
    hide Do, Sorted;
  }

  /** The power key going up cancels that timer and wakes the screen or puts it out. */
  lemma PowerKeyUpDoes(s: Mode, e: Env)
    requires Sorted(s.q)
    ensures var t := Handled(s, PowerKeyUp(e));
      && SameSwitches(s, t) && Sorted(t.q)
      && (forall a :: a in t.q ==> a.f != POWER_KEY_ALARM)
      && if exists a :: a in s.q && a.f == BRIGHTNESS_ALARM1 then
           && t.blanked && t.brightness == 0.0 && t.powerOffs == s.powerOffs + (if s.shutdown then 1 else 0)
           && forall a :: a in t.q ==> a.f !in SCREEN_ALARMS
         else
           && !t.blanked && t.brightness == 0.8 && t.powerOffs == s.powerOffs
           && Alarm(After(e.clock, 5000), BRIGHTNESS_ALARM1) in t.q
           && Alarm(After(e.later, 500), ANIMATION_ALARM) in t.q
  {
    hide Do, Sorted, After, Deadline, WakeupKey, Left, Restarted;
    var u := CancelAlarm(s, POWER_KEY_ALARM);
    CancelContents(s.q, POWER_KEY_ALARM);
    LeftMembers(s.q, {POWER_KEY_ALARM}, u.q);
    WakeupKeyDoes(u, e.clock, e.later);
    var t := WakeupKey(u, e.clock, e.later);
    if exists a :: a in u.q && a.f == BRIGHTNESS_ALARM1 {
      LeftMembers(u.q, SCREEN_ALARMS, t.q);
    } else {
      RestartedMembers(u.q, e.clock, e.later, t.q);
    }
  }

  lemma LeftMembers(q: seq<Alarm>, fs: set<Fn>, r: seq<Alarm>)
    requires Left(q, fs, r)
    ensures forall a :: a in r <==> a in q && a.f !in fs
  {
    forall a
      ensures a in r <==> a in q && a.f !in fs
    {
      assert a in r <==> multiset(r)[a] > 0;
      assert a in q <==> multiset(q)[a] > 0;
    }
  }

  lemma RestartedMembers(q: seq<Alarm>, clock: TimeVal, later: TimeVal, t: seq<Alarm>)
    requires Restarted(q, clock, later, t)
    ensures Alarm(After(clock, 5000), BRIGHTNESS_ALARM1) in t && Alarm(After(later, 500), ANIMATION_ALARM) in t
    ensures forall a :: a in t && a.f !in SCREEN_ALARMS ==> a in q
  {
    hide After;
    forall a | a in t && a.f !in SCREEN_ALARMS
      ensures a in q
    {
      assert multiset(t)[a] > 0;
      assert a in multiset(q);
    }
    assert multiset(t)[Alarm(After(clock, 5000), BRIGHTNESS_ALARM1)] == 1;
    assert multiset(t)[Alarm(After(later, 500), ANIMATION_ALARM)] == 1;
  }

  /** Which callback each alarm runs. */
  lemma CallbacksAre(s: Mode, e: Env)
    ensures Callback(s, ANIMATION_ALARM, e) == Animate(s, e.clock, e.device)
    ensures Callback(s, BRIGHTNESS_ALARM1, e) == Dim(s, e.clock)
    ensures Callback(s, BRIGHTNESS_ALARM2, e) == Darken(s)
    ensures Callback(s, POWER_KEY_ALARM, e) == PowerKey(s, e.rebootOk)
  {
    hide Animate, Dim, Darken, PowerKey;
  }

  /** Which handler each of the other events runs. */
  lemma HandlersAre(s: Mode, e: Env)
    requires Sorted(s.q)
    ensures Handled(s, OtherKeyDown(e)) == WakeupKey2(s, e.clock, e.later)
    ensures Handled(s, Battery(e)) == PowerEvent(s, e.device)
    ensures Handled(s, Other) == s && Handled(s, Quit).(quit := s.quit) == s && Handled(s, Quit).quit
  {
    hide WakeupKey2, PowerEvent, Sorted;
  }

  /** When the loop begins, the device has been read once and the display cycle has begun. */
  lemma BegunDoes(e: Env)
    ensures var s := Begun(e).mode;
      && !s.blanked && s.brightness == 0.8 && !s.quit && s.restarts == 0
      && (s.powerup <==> e.device.voltage >= 3470000) && (s.shutdown <==> !e.device.ac && !e.device.usb)
      && s.powerOffs == (if s.shutdown then 1 else 0)
      && multiset(s.q) ==
        multiset{Alarm(After(e.clock, 5000), BRIGHTNESS_ALARM1)} + multiset{Alarm(After(e.later, 500), ANIMATION_ALARM)}
  {
    hide Do, After, Deadline, Sorted, Left, Start, PowerEvent;
    var b := PowerEvent(Boot(), e.device);
    SortedEmpty();
    PowerEventDoes(Boot(), e.device);
    NothingPendingAtBoot(e.device);
    StartDoes(b, e.clock, e.later);
  }

  lemma SortedEmpty()
    ensures Sorted([])
  {
  }

  // ----- a long press restarts the device -----

  /** Whatever sets alarms and cancels only other functions keeps this one. */
  lemma OpKeepsPress(q: seq<Alarm>, op: Op, a: Alarm)
    requires a in q && (op.Cancel? ==> op.f != a.f)
    ensures a in Do(q, op)
  {
    match op {
      case Set(f, clock, ms) =>
        hide Deadline;
        var b := Alarm(Deadline(clock, ms), f);
        InsertedContents(q, b);
        assert a in multiset(Inserted(q, b));
      case Cancel(f) => WithoutMembers(q, {f});
    }
  }

  lemma {:induction false} OpsKeepPress(q: seq<Alarm>, ops: seq<Op>, a: Alarm)
    requires a in q && forall j :: 0 <= j < |ops| ==> (ops[j].Cancel? ==> ops[j].f != a.f)
    ensures a in DoAll(q, ops)
  {
    hide Do;
    if ops != [] {
      OpsKeepPress(q, ops[..|ops| - 1], a);
      OpKeepsPress(DoAll(q, ops[..|ops| - 1]), ops[|ops| - 1], a);
    }
  }

  lemma CallbackCancelsNoPress(s: Mode, f: Fn, e: Env)
    ensures var ops := CallbackOps(s, f, e);
      forall j :: 0 <= j < |ops| ==> (ops[j].Cancel? ==> ops[j].f != POWER_KEY_ALARM)
  {
  }

  lemma FireKeepsPress(s: Mode, e: Env, a: Alarm)
    requires a in s.q && a.f == POWER_KEY_ALARM
    ensures Fire(s, e).restarts >= s.restarts
    ensures a in Fire(s, e).q || Fire(s, e).restarts > s.restarts
  {
    hide Callback, CallbackOps, DoAll;
    FireAddsNoPress(s, e);
    if s.q[0] != a {
      var t := s.(q := s.q[1..]);
      assert s.q == [s.q[0]] + s.q[1..];
      CallbackIsOps(t, s.q[0].f, e);
      CallbackCancelsNoPress(t, s.q[0].f, e);
      OpsKeepPress(t.q, CallbackOps(t, s.q[0].f, e), a);
    }
  }

  lemma {:induction false} RestartsGrow(s: Mode, now: TimeVal, envs: nat -> Env, k: nat)
    requires Sorted(s.q) && forall j :: EnvAhead(envs(j), now)
    ensures Processed(s, now, envs, k).restarts >= s.restarts
    decreases DueCount(s.q, now)
  {
    hide Fire, Sorted, EnvAhead;
    if DueCount(s.q, now) > 0 {
      FireShrinks(s, envs(k), now);
      FireAddsNoPress(s, envs(k));
      RestartsGrow(Fire(s, envs(k)), now, envs, k + 1);
    }
  }

  /** alarm_process runs the pending alarm of the power key, or leaves it on the list. */
  lemma {:induction false} ProcessedPress(s: Mode, now: TimeVal, envs: nat -> Env, k: nat, a: Alarm)
    requires Sorted(s.q) && (forall j :: EnvAhead(envs(j), now)) && a in s.q && a.f == POWER_KEY_ALARM
    ensures var t := Processed(s, now, envs, k); t.restarts > s.restarts || (a in t.q && t.restarts == s.restarts)
    decreases DueCount(s.q, now)
  {
    hide Fire, Sorted, EnvAhead;
    if DueCount(s.q, now) > 0 {
      FireShrinks(s, envs(k), now);
      FireKeepsPress(s, envs(k), a);
      RestartsGrow(Fire(s, envs(k)), now, envs, k + 1);
      if a in Fire(s, envs(k)).q {
        ProcessedPress(Fire(s, envs(k)), now, envs, k + 1, a);
      }
    }
  }

  /** A due alarm of the power key restarts the device when alarms are processed. */
  lemma DuePressRestarts(s: Mode, now: TimeVal, envs: nat -> Env, a: Alarm)
    requires Sorted(s.q) && (forall j :: EnvAhead(envs(j), now)) && a in s.q && a.f == POWER_KEY_ALARM
    requires !Later(a.at, now)
    ensures Processed(s, now, envs, 0).restarts > s.restarts
  {
    hide Sorted, EnvAhead, Processed;
    ProcessedPress(s, now, envs, 0, a);
    ProcessedLeavesNoneDue(s, now, envs, 0);
  }

  /** No event but the power key going up takes the alarm away, unless it has run. */
  lemma PressStays(s: Mode, ev: Event, a: Alarm)
    requires Sorted(s.q) && (ev.Wake? ==> forall j :: EnvAhead(ev.envs(j), ev.now)) && !ev.PowerKeyUp?
    requires a in s.q && a.f == POWER_KEY_ALARM
    ensures var t := Handled(s, ev); t.restarts > s.restarts || (a in t.q && t.restarts == s.restarts)
  {
    hide Do, Sorted, EnvAhead, After, Deadline, WakeupKey2, PowerEvent, Left, Restarted;
    match ev {
      case PowerKeyDown(e) => OpKeepsPress(s.q, Set(POWER_KEY_ALARM, e.clock, 1000), a);
      case OtherKeyDown(e) =>
        WakeupKey2Does(s, e.clock, e.later);
        RestartedKeeps(s.q, e.clock, e.later, WakeupKey2(s, e.clock, e.later).q, a);
      case Battery(e) =>
        PowerEventDoes(s, e.device);
        if Left(s.q, SCREEN_ALARMS, PowerEvent(s, e.device).q) {
          LeftMembers(s.q, SCREEN_ALARMS, PowerEvent(s, e.device).q);
        }
      case Quit =>
      case Other =>
      case Wake(now, envs) => ProcessedPress(s, now, envs, 0, a);
    }
  }

  lemma RestartedKeeps(q: seq<Alarm>, clock: TimeVal, later: TimeVal, t: seq<Alarm>, a: Alarm)
    requires Restarted(q, clock, later, t) && a in q && a.f !in SCREEN_ALARMS
    ensures a in t
  {
    hide After;
    assert multiset(t)[a] == multiset(q)[a] > 0;
  }

  lemma RestartsNeverFall(s: Mode, ev: Event)
    requires Sorted(s.q) && (ev.Wake? ==> forall j :: EnvAhead(ev.envs(j), ev.now))
    ensures Handled(s, ev).restarts >= s.restarts
  {
    hide Do, Sorted, EnvAhead, Pending;
    if ev.Wake? {
      RestartsGrow(s, ev.now, ev.envs, 0);
    }
  }

  /** While the power key is held, its alarm is pending or the device has restarted. */
  lemma {:induction false} HeldPress(w: World, evs: seq<Event>, r: World, a: Alarm)
    requires Reaches(w, evs, r) && a in w.mode.q && a.f == POWER_KEY_ALARM
    requires forall i :: 0 <= i < |evs| ==> !evs[i].PowerKeyUp?
    ensures r.mode.restarts > w.mode.restarts || (a in r.mode.q && r.mode.restarts == w.mode.restarts)
  {
    hide Handled, Sorted;
    if evs != [] {
      var most, last := evs[..|evs| - 1], evs[|evs| - 1];
      var m :| Reaches(w, most, m) && Sorted(m.mode.q) && InTime(m.clock, last) && r == Next(m, last);
      HeldPress(w, most, m, a);
      if !m.mode.quit {
        RestartsNeverFall(m.mode, last);
        if a in m.mode.q {
          PressStays(m.mode, last, a);
        }
      }
    }
  }

  ghost predicate EnvsAhead(envs: nat -> Env, now: TimeVal) {
    forall j :: EnvAhead(envs(j), now)
  }

  /**
    The power key pressed after a good voltage and not released for a second restarts the device: at the latest when
    alarms are next processed, unless the program has quit by then.
   */
  lemma LongPressRestarts(w: World, e: Env, evs: seq<Event>, m: World, now: TimeVal, envs: nat -> Env)
    requires Sorted(w.mode.q) && !w.mode.quit && w.mode.powerup && InTime(w.clock, PowerKeyDown(e))
    requires Reaches(Next(w, PowerKeyDown(e)), evs, m) && forall i :: 0 <= i < |evs| ==> !evs[i].PowerKeyUp?
    requires Sorted(m.mode.q) && !m.mode.quit && InTime(m.clock, Wake(now, envs))
    requires Micros(now) >= Micros(e.clock) + 1000000
    ensures Next(m, Wake(now, envs)).mode.restarts > w.mode.restarts
  {
    hide Handled, Sorted, Reaches, Processed;
    PowerKeyDownDoes(w.mode, e);
    var a := Alarm(After(e.clock, 1000), POWER_KEY_ALARM);
    var d := Next(w, PowerKeyDown(e));
    assert d.mode == Handled(w.mode, PowerKeyDown(e)) && a in multiset(d.mode.q);
    HeldPress(d, evs, m, a);
    RestartsNeverFall(m.mode, Wake(now, envs));
    if a in m.mode.q {
      LaterIsMicros(a.at, now);
      assert EnvsAhead(envs, now);
      DuePressRestarts(m.mode, now, envs, a);
      WakeIsProcessed(m.mode, now, envs);
    }
  }

  lemma WakeIsProcessed(s: Mode, now: TimeVal, envs: nat -> Env)
    requires Sorted(s.q) && EnvsAhead(envs, now)
    ensures Handled(s, Wake(now, envs)) == Processed(s, now, envs, 0)
  {
  }
}
