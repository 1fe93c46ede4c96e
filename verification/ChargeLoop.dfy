/** The program of charge_only_mode/main.c: its globals, callbacks, handlers and event loop, run on the timer list. */
module ChargeLoops {
  import opened AlarmQueues
  import opened AlarmRuns
  import opened AlarmLists
  import opened ChargeModes
  import opened ChargeRuns

  /**
    What a turn of the loop meets: the clock when it asks for the delay, alarm_process if it is called, and the
    next event.
   */
  datatype Moment = Moment(asked: TimeVal, now: TimeVal, envs: nat -> Env, ev: Event)

  /** The clock does not run backwards from turn to turn, nor while alarms are processed. */
  ghost predicate Timely(clock: TimeVal, ms: seq<Moment>)
    decreases |ms|
  {
    ms != [] ==>
      && !Later(clock, ms[0].asked) && !Later(ms[0].asked, ms[0].now)
      && !Later(ms[0].asked, TimeOf(ms[0].ev, ms[0].asked))
      && InTime(clock, Wake(ms[0].now, ms[0].envs)) && InTime(clock, ms[0].ev) && !ms[0].ev.Wake?
      && Timely(ms[0].now, ms[1..]) && Timely(TimeOf(ms[0].ev, clock), ms[1..])
  }

  /** What a turn may rely on, whichever of its two events it has. */
  lemma TimelyNext(clock: TimeVal, ms: seq<Moment>)
    requires ms != [] && Timely(clock, ms)
    ensures !Later(ms[0].asked, ms[0].now) && (forall j :: EnvAhead(ms[0].envs(j), ms[0].now)) && !ms[0].ev.Wake?
    ensures InTime(clock, Wake(ms[0].now, ms[0].envs)) && InTime(clock, ms[0].ev)
    ensures Timely(ms[0].now, ms[1..]) && Timely(TimeOf(ms[0].ev, clock), ms[1..])
  {
  }

  lemma ReachesStart(w: World)
    ensures Reaches(w, [], w)
  {
  }

  /** The turn's event, when the loop is in state m: alarms are processed if the head makes the delay small. */
  ghost predicate Meets(m: World, x: Moment, ev: Event) {
    ev == if m.mode.q != [] && Wakes(m.mode.q[0].at, x.asked) then Wake(x.now, x.envs) else x.ev
  }

  ghost predicate MeetsAfter(w: World, before: seq<Event>, x: Moment, ev: Event) {
    exists m :: Reaches(w, before, m) && Meets(m, x, ev)
  }

  /** Each event is the one of its turn. */
  ghost predicate Follows(w: World, ms: seq<Moment>, evs: seq<Event>) {
    |evs| <= |ms| && forall i :: 0 <= i < |evs| ==> MeetsAfter(w, evs[..i], ms[i], evs[i])
  }

  lemma FollowsStart(w: World, ms: seq<Moment>)
    ensures Follows(w, ms, [])
  {
  }

  lemma FollowsNext(w: World, ms: seq<Moment>, evs: seq<Event>, m: World, ev: Event)
    requires Follows(w, ms, evs) && |evs| < |ms| && Reaches(w, evs, m) && Meets(m, ms[|evs|], ev)
    ensures Follows(w, ms, evs + [ev])
  {
    assert MeetsAfter(w, evs, ms[|evs|], ev);
    hide MeetsAfter;
    var all := evs + [ev];
    forall i | 0 <= i < |all|
      ensures MeetsAfter(w, all[..i], ms[i], all[i])
    {
      if i == |evs| {
        assert all[..i] == evs;
      } else {
        assert all[..i] == evs[..i];
      }
    }
  }

  lemma ReachesNext(w: World, evs: seq<Event>, m: World, ev: Event)
    requires Reaches(w, evs, m) && Sorted(m.mode.q) && InTime(m.clock, ev)
    ensures Reaches(w, evs + [ev], Next(m, ev))
  {
    assert (evs + [ev])[..|evs|] == evs;
  }

  class ChargeOnly {
    const alarms: AlarmList
    var quit: bool
    var shutdown: bool
    var powerup: bool
    /** The display and the backlight, as last set. */
    var blanked: bool
    var brightness: real
    /** Calls made to power the device off and to restart it. */
    ghost var powerOffs: nat
    ghost var restarts: nat

    ghost function View(): Mode
      reads this, alarms`nodes
    {
      Mode(alarms.Contents(), quit, shutdown, powerup, blanked, brightness, powerOffs, restarts)
    }

    ghost predicate Valid()
      reads this, alarms, alarms.Repr()
    {
      alarms.Valid() && this !in alarms.Repr()
    }

    constructor ()
      ensures Valid() && View() == Boot() && fresh(alarms) && fresh(alarms.Repr())
    {
      alarms := new AlarmList();
      quit, shutdown, powerup, blanked, brightness := false, false, false, false, 0.0;
      powerOffs, restarts := 0, 0;
    }

    method Set(f: Fn, clock: TimeVal, ms: CInt)
      requires Valid()
      modifies alarms, alarms.Repr()
      ensures Valid() && fresh(alarms.Repr() - old(alarms.Repr()))
      ensures View() == SetAlarm(old(View()), f, clock, ms)
    {
      var _ := alarms.SetRelative(f, clock, ms, true);
    }

    method Cancel(f: Fn) returns (n: nat)
      requires Valid()
      modifies alarms, alarms.Repr()
      ensures Valid() && alarms.Repr() <= old(alarms.Repr())
      ensures View() == CancelAlarm(old(View()), f) && n == Pending(old(View()).q, f)
    {
      n := alarms.CancelAll(f);
    }

    method BrightnessAlarm2()
      requires Valid()
      modifies this, alarms, alarms.Repr()
      ensures Valid() && alarms.Repr() <= old(alarms.Repr()) && View() == Darken(old(View()))
    {
      hide Do;
      brightness := 0.0;
      var _ := Cancel(ANIMATION_ALARM);
      if shutdown {
        // reboot(RB_POWER_OFF), which returns if it fails
        powerOffs := powerOffs + 1;
      }
      blanked := true;
    }

    method BrightnessAlarm1(clock: TimeVal)
      requires Valid()
      modifies this, alarms, alarms.Repr()
      ensures Valid() && fresh(alarms.Repr() - old(alarms.Repr())) && View() == Dim(old(View()), clock)
    {
      hide Do;
      brightness := 0.4;
      Set(BRIGHTNESS_ALARM2, clock, 10000);
    }

    method BrightnessAnimationStart(clock: TimeVal, later: TimeVal)
      requires Valid()
      modifies this, alarms, alarms.Repr()
      ensures Valid() && fresh(alarms.Repr() - old(alarms.Repr())) && View() == Start(old(View()), clock, later)
    {
      hide Do;
      blanked := false;
      brightness := 0.8;
      Set(BRIGHTNESS_ALARM1, clock, 5000);
      Set(ANIMATION_ALARM, later, ANIMATION_TIMEOUT);
    }

    method PowerKeyAlarm(rebootOk: bool)
      requires Valid()
      modifies this, alarms, alarms.Repr()
      ensures Valid() && alarms.Repr() <= old(alarms.Repr()) && View() == PowerKey(old(View()), rebootOk)
    {
      hide Do;
      var _ := Cancel(BRIGHTNESS_ALARM2);
      var _ := Cancel(BRIGHTNESS_ALARM1);
      var _ := Cancel(ANIMATION_ALARM);
      restarts := restarts + 1;
      if rebootOk {
        quit := true;
      }
    }

    /** power_event */
    method HandlePower(d: Device)
      requires Valid()
      modifies this, alarms, alarms.Repr()
      ensures Valid() && alarms.Repr() <= old(alarms.Repr()) && View() == PowerEvent(old(View()), d)
    {
      hide Do, Darken;
      if d.voltage >= POWERUP_VOLTAGE {
        powerup := true;
      }
      if !shutdown && !d.ac && !d.usb {
        shutdown := true;
        var _ := Cancel(BRIGHTNESS_ALARM2);
        var _ := Cancel(BRIGHTNESS_ALARM1);
        BrightnessAlarm2();
      }
    }

    method AnimationAlarm(clock: TimeVal, d: Device)
      requires Valid()
      modifies this, alarms, alarms.Repr()
      ensures Valid() && fresh(alarms.Repr() - old(alarms.Repr())) && View() == Animate(old(View()), clock, d)
    {
      hide Do, PowerEvent;
      Set(ANIMATION_ALARM, clock, ANIMATION_TIMEOUT);
      HandlePower(d);
    }

    /** update_screen_on_wakeup_key */
    method Wakeup(clock: TimeVal, later: TimeVal)
      requires Valid()
      modifies this, alarms, alarms.Repr()
      ensures Valid() && fresh(alarms.Repr() - old(alarms.Repr())) && View() == WakeupKey(old(View()), clock, later)
    {
      hide Do, Darken, Start, Pending;
      var _ := Cancel(BRIGHTNESS_ALARM2);
      var _ := Cancel(ANIMATION_ALARM);
      var n := Cancel(BRIGHTNESS_ALARM1);
      if n != 0 {
        BrightnessAlarm2();
      } else {
        BrightnessAnimationStart(clock, later);
      }
    }

    /** update_screen_on_wakeup_key2 */
    method Wakeup2(clock: TimeVal, later: TimeVal)
      requires Valid()
      modifies this, alarms, alarms.Repr()
      ensures Valid() && fresh(alarms.Repr() - old(alarms.Repr())) && View() == WakeupKey2(old(View()), clock, later)
    {
      hide Do, Start;
      var _ := Cancel(BRIGHTNESS_ALARM2);
      var _ := Cancel(BRIGHTNESS_ALARM1);
      var _ := Cancel(ANIMATION_ALARM);
      BrightnessAnimationStart(clock, later);
    }

    /** The call through the function pointer in alarm_process. */
    method Call(f: Fn, e: Env)
      requires Valid()
      modifies this, alarms, alarms.Repr()
      ensures Valid() && fresh(alarms.Repr() - old(alarms.Repr())) && View() == Callback(old(View()), f, e)
    {
      hide Do, Darken, Dim, Animate, PowerKey;
      if f == ANIMATION_ALARM {
        AnimationAlarm(e.clock, e.device);
      } else if f == BRIGHTNESS_ALARM1 {
        BrightnessAlarm1(e.clock);
      } else if f == BRIGHTNESS_ALARM2 {
        BrightnessAlarm2();
      } else if f == POWER_KEY_ALARM {
        PowerKeyAlarm(e.rebootOk);
      }
    }

    /** alarm_process, with the callbacks of main.c */
    method ProcessAlarms(now: TimeVal, envs: nat -> Env)
      requires Valid() && forall j :: EnvAhead(envs(j), now)
      modifies this, alarms, alarms.Repr()
      ensures Valid() && fresh(alarms.Repr() - old(alarms.Repr()))
      ensures Sorted(old(View()).q) && View() == Processed(old(View()), now, envs, 0)
    {
      hide Callback, EnvAhead, DueCount, Sorted;
      var k := 0;
      while true
        invariant Valid() && fresh(alarms.Repr() - old(alarms.Repr())) && k >= 0
        invariant Processed(View(), now, envs, k) == Processed(old(View()), now, envs, 0)
        decreases DueCount(View().q, now)
      {
        ghost var s := View();
        var a := alarms.PopDue(now);
        if a == null {
          break;
        }
        assert View() == s.(q := s.q[1..]);
        FireShrinks(s, envs(k), now);
        Call(a.f, envs(k));
        k := k + 1;
      }
    }

    /** The switch in main on what ev_get returned */
    method Handle(ev: Event)
      requires Valid() && (ev.Wake? ==> forall j :: EnvAhead(ev.envs(j), ev.now))
      modifies this, alarms, alarms.Repr()
      ensures Valid() && fresh(alarms.Repr() - old(alarms.Repr()))
      ensures Sorted(old(View()).q) && View() == Handled(old(View()), ev)
    {
      hide Do, EnvAhead, Sorted, WakeupKey, WakeupKey2, PowerEvent, Processed;
      match ev {
        case PowerKeyDown(e) =>
          if powerup {
            Set(POWER_KEY_ALARM, e.clock, 1000);
          }
        case PowerKeyUp(e) =>
          var _ := Cancel(POWER_KEY_ALARM);
          Wakeup(e.clock, e.later);
        case OtherKeyDown(e) => Wakeup2(e.clock, e.later);
        case Battery(e) => HandlePower(e.device);
        case Quit => quit := true;
        case Other =>
        case Wake(now, envs) => ProcessAlarms(now, envs);
      }
    }

    /**
      One turn of the loop of main: alarms are processed exactly when the head makes the delay small, and an
      event is waited for otherwise. After processing, no alarm that was due when the loop asked is left.
     */
    method Turn(m: Moment) returns (ghost ev: Event)
      requires Valid() && (forall j :: EnvAhead(m.envs(j), m.now)) && !m.ev.Wake? && !Later(m.asked, m.now)
      modifies this, alarms, alarms.Repr()
      ensures Valid() && fresh(alarms.Repr() - old(alarms.Repr()))
      ensures ev == if old(View()).q != [] && Wakes(old(View()).q[0].at, m.asked) then Wake(m.now, m.envs) else m.ev
      ensures Sorted(old(View()).q) && View() == Handled(old(View()), ev)
      ensures ev.Wake? ==> NoneDue(View().q, m.asked)
    {
      hide EnvAhead, Sorted, Wakes;
      var delay := alarms.TimeUntilNext(m.asked);
      if delay < 1 {
        ev := Wake(m.now, m.envs);
        assert Sorted(View().q);
        ProcessedLeavesNoneDue(View(), m.now, m.envs, 0);
        NoneDueBefore(Processed(View(), m.now, m.envs, 0).q, m.asked, m.now);
        Handle(Wake(m.now, m.envs));
      } else {
        ev := m.ev;
        Handle(m.ev);
      }
    }

    /**
      main: `moments` are what the turns of its loop meet, of which those after quit are never reached. The run
      made is one of those ChargeRuns speaks of, so its invariants hold whenever the loop turns.
     */
    method Run(e: Env, moments: seq<Moment>) returns (ghost evs: seq<Event>, ghost w: World)
      requires Valid() && View() == Boot() && Timely(e.later, moments)
      modifies this, alarms, alarms.Repr()
      ensures Valid() && |evs| <= |moments| && (|evs| < |moments| ==> quit)
      ensures Reaches(Begun(e), evs, w) && w.mode == View() && WorldInv(w)
      ensures Follows(Begun(e), moments, evs)
    {
      hide EnvAhead, Sorted, Handled, PowerEvent, Start, WorldInv, Wakes, NoneDue, Reaches, Timely, Follows;
      ReachesStart(Begun(e));
      FollowsStart(Begun(e), moments);
      HandlePower(e.device);
      BrightnessAnimationStart(e.clock, e.later);
      evs, w := [], Begun(e);
      var i := 0;
      while i < |moments| && !quit
        invariant Valid() && fresh(alarms.Repr() - old(alarms.Repr())) && |evs| == i <= |moments|
        invariant Reaches(Begun(e), evs, w) && w.mode == View() && Timely(w.clock, moments[i..])
        invariant Follows(Begun(e), moments, evs)
        decreases |moments| - i
      {
        assert moments[i..][0] == moments[i] && moments[i..][1..] == moments[i + 1..];
        TimelyNext(w.clock, moments[i..]);
        ghost var m := w;
        ghost var ev := Turn(moments[i]);
        w := Next(m, ev);
        ReachesNext(Begun(e), evs, m, ev);
        FollowsNext(Begun(e), moments, evs, m, ev);
        evs := evs + [ev];
        i := i + 1;
      }
      RunKeeps(e, evs, w);
    }
  }
}
