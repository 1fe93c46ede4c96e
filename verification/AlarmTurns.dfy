/**
  When the loop of alarm_process ends, whatever its callbacks do. A turn takes the first alarm off the list and
  runs its callback; deadlines that wrapped may be due at once, and then their alarms fire again.
 */
module AlarmTurns {
  import opened AlarmQueues
  import opened AlarmRuns

  /** The list after n turns; it stays as it is once nothing is due. */
  function Turns(q: seq<Alarm>, now: TimeVal, script: Script, n: nat): seq<Alarm> {
    if n == 0 then q
    else
      var p := Turns(q, now, script, n - 1);
      if DueCount(p, now) == 0 then p else DoAll(p[1..], script(n - 1))
  }

  /** The alarms whose callbacks run in the first n turns. */
  function FiredIn(q: seq<Alarm>, now: TimeVal, script: Script, n: nat): (fired: seq<Alarm>)
    ensures |fired| <= n
  {
    if n == 0 then []
    else
      var p := Turns(q, now, script, n - 1);
      FiredIn(q, now, script, n - 1) + (if DueCount(p, now) == 0 then [] else [p[0]])
  }

  ghost predicate Ends(q: seq<Alarm>, now: TimeVal, script: Script) {
    exists n: nat :: DueCount(Turns(q, now, script, n), now) == 0
  }

  ghost predicate DueBefore(q: seq<Alarm>, now: TimeVal, script: Script, n: nat) {
    forall k: nat :: k < n ==> DueCount(Turns(q, now, script, k), now) > 0
  }

  lemma TurnsNext(q: seq<Alarm>, now: TimeVal, script: Script, n: nat)
    requires DueBefore(q, now, script, n) && DueCount(Turns(q, now, script, n), now) > 0
    ensures var p := Turns(q, now, script, n);
      && Turns(q, now, script, n + 1) == DoAll(p[1..], script(n))
      && FiredIn(q, now, script, n + 1) == FiredIn(q, now, script, n) + [p[0]]
      && DueBefore(q, now, script, n + 1)
  {
    hide DueCount, DoAll;
  }

  lemma TurnsStart(q: seq<Alarm>, now: TimeVal, script: Script)
    ensures Turns(q, now, script, 0) == q && FiredIn(q, now, script, 0) == [] && DueBefore(q, now, script, 0)
  {
  }

  // ----- alarms that are due when they are set -----

  function DueSetsIn(ops: seq<Op>, now: TimeVal): nat {
    if ops == [] then 0 else DueSetsIn(ops[..|ops| - 1], now) + if Ahead(ops[|ops| - 1], now) then 0 else 1
  }

  /** How many such alarms the first n callbacks set. */
  function DueSets(script: Script, now: TimeVal, n: nat): nat {
    if n == 0 then 0 else DueSets(script, now, n - 1) + DueSetsIn(script(n - 1), now)
  }

  predicate OnlySets(ops: seq<Op>) {
    forall j :: 0 <= j < |ops| ==> ops[j].Set?
  }

  ghost predicate NoCancels(script: Script) {
    forall k: nat :: OnlySets(script(k))
  }

  lemma DueInserted(q: seq<Alarm>, a: Alarm, now: TimeVal)
    requires Sorted(q) && !Later(a.at, now)
    ensures DueCount(Inserted(q, a), now) == DueCount(q, now) + 1
  {
    var p, d := Place(q, a.at), DueCount(q, now);
    InsertedSorted(q, a);
    assert p <= d;
    PlaceIs(Inserted(q, a), now, d + 1);
  }

  lemma OpDueCount(q: seq<Alarm>, op: Op, now: TimeVal)
    requires Sorted(q)
    ensures Sorted(Do(q, op))
    ensures DueCount(Do(q, op), now) <= DueCount(q, now) + if Ahead(op, now) then 0 else 1
    ensures op.Set? ==> DueCount(Do(q, op), now) == DueCount(q, now) + if Ahead(op, now) then 0 else 1
  {
    hide Sorted, Deadline, Inserted, Without;
    match op {
      case Set(f, clock, ms) =>
        var a := Alarm(Deadline(clock, ms), f);
        InsertedSorted(q, a);
        if Ahead(op, now) {
          SetSplits(q, a, now);
          assert |Due(Inserted(q, a), now)| == |Due(q, now)|;
        } else {
          DueInserted(q, a, now);
        }
      case Cancel(f) =>
        WithoutSorted(q, {f});
        CancelSplits(q, f, now);
        assert |Due(Without(q, {f}), now)| <= |Due(q, now)|;
    }
  }

  lemma {:induction false} OpsDueCount(q: seq<Alarm>, ops: seq<Op>, now: TimeVal)
    requires Sorted(q)
    ensures Sorted(DoAll(q, ops))
    ensures DueCount(DoAll(q, ops), now) <= DueCount(q, now) + DueSetsIn(ops, now)
    ensures OnlySets(ops) ==> DueCount(DoAll(q, ops), now) == DueCount(q, now) + DueSetsIn(ops, now)
  {
    hide Sorted, Ahead, DueCount, Do;
    if ops != [] {
      var most, op := ops[..|ops| - 1], ops[|ops| - 1];
      OpsDueCount(q, most, now);
      OpDueCount(DoAll(q, most), op, now);
    }
  }

  lemma PoppedDueCount(q: seq<Alarm>, now: TimeVal)
    requires Sorted(q) && DueCount(q, now) > 0
    ensures Sorted(q[1..]) && DueCount(q[1..], now) == DueCount(q, now) - 1
  {
    PlaceIs(q[1..], now, DueCount(q, now) - 1);
  }

  lemma {:induction false} TurnsSorted(q: seq<Alarm>, now: TimeVal, script: Script, n: nat)
    requires Sorted(q)
    ensures Sorted(Turns(q, now, script, n))
  {
    hide Sorted, DueCount, DoAll;
    if n > 0 {
      TurnsSorted(q, now, script, n - 1);
      var p := Turns(q, now, script, n - 1);
      if DueCount(p, now) > 0 {
        PoppedDueCount(p, now);
        OpsDueCount(p[1..], script(n - 1), now);
      }
    }
  }

  /** Each turn takes one due alarm away, and its callback adds those that it sets due. */
  lemma {:induction false} TurnsDueCount(q: seq<Alarm>, now: TimeVal, script: Script, n: nat)
    requires Sorted(q) && DueBefore(q, now, script, n)
    ensures DueCount(Turns(q, now, script, n), now) + n <= DueCount(q, now) + DueSets(script, now, n)
    ensures NoCancels(script) ==>
      DueCount(Turns(q, now, script, n), now) + n == DueCount(q, now) + DueSets(script, now, n)
  {
    hide Sorted, DueCount, DoAll, OnlySets, DueSetsIn;
    if n > 0 {
      TurnsDueCount(q, now, script, n - 1);
      TurnsSorted(q, now, script, n - 1);
      var p := Turns(q, now, script, n - 1);
      PoppedDueCount(p, now);
      OpsDueCount(p[1..], script(n - 1), now);
    }
  }

  /** The first turn after which nothing is due. */
  lemma {:induction false} FirstEnd(q: seq<Alarm>, now: TimeVal, script: Script, n: nat) returns (m: nat)
    requires DueCount(Turns(q, now, script, n), now) == 0
    ensures m <= n && DueCount(Turns(q, now, script, m), now) == 0 && DueBefore(q, now, script, m)
  {
    hide DueCount, DoAll, Turns;
    m := 0;
    while DueCount(Turns(q, now, script, m), now) > 0
      invariant m <= n && DueBefore(q, now, script, m)
      decreases n - m
    {
      m := m + 1;
    }
  }

  // ----- when the loop ends -----

  lemma EndOf(q: seq<Alarm>, now: TimeVal, script: Script) returns (end: nat)
    requires Ends(q, now, script)
    ensures DueCount(Turns(q, now, script, end), now) == 0
  {
    end :| DueCount(Turns(q, now, script, end), now) == 0;
  }

  lemma EndsIf(q: seq<Alarm>, now: TimeVal, script: Script, n: nat)
    requires Sorted(q) && DueCount(q, now) + DueSets(script, now, n) <= n
    ensures Ends(q, now, script)
  {
    hide Sorted, DueCount, Turns, DueSets;
    if DueBefore(q, now, script, n) {
      TurnsDueCount(q, now, script, n);
    }
  }

  /**
    With callbacks that only set alarms, alarm_process ends if and only if after some number of callbacks there were
    no more due alarms, those at the start and those set due since, than callbacks.
   */
  lemma EndsExactly(q: seq<Alarm>, now: TimeVal, script: Script)
    requires Sorted(q) && NoCancels(script)
    ensures Ends(q, now, script) <==> exists n: nat :: DueCount(q, now) + DueSets(script, now, n) <= n
  {
    hide Sorted, DueCount, Turns, DueSets, NoCancels, DueBefore;
    if Ends(q, now, script) {
      var n: nat :| DueCount(Turns(q, now, script, n), now) == 0;
      var m := FirstEnd(q, now, script, n);
      TurnsDueCount(q, now, script, m);
    }
    if n: nat :| DueCount(q, now) + DueSets(script, now, n) <= n {
      EndsIf(q, now, script, n);
    }
  }

  /** From the k-th callback on, every deadline stored lies ahead. */
  ghost predicate AheadFrom(script: Script, now: TimeVal, k: nat) {
    forall n: nat, j :: k <= n && 0 <= j < |script(n)| ==> Ahead(script(n)[j], now)
  }

  lemma {:induction false} NoDueSets(ops: seq<Op>, now: TimeVal)
    requires forall j :: 0 <= j < |ops| ==> Ahead(ops[j], now)
    ensures DueSetsIn(ops, now) == 0
  {
    if ops != [] {
      NoDueSets(ops[..|ops| - 1], now);
    }
  }

  lemma {:induction false} DueSetsStop(script: Script, now: TimeVal, k: nat, n: nat)
    requires AheadFrom(script, now, k) && k <= n
    ensures DueSets(script, now, n) == DueSets(script, now, k)
  {
    if k < n {
      DueSetsStop(script, now, k, n - 1);
      NoDueSets(script(n - 1), now);
    }
  }

  /** Whatever the callbacks do, alarm_process ends when only finitely many of them store a deadline not ahead. */
  lemma EndsIfAheadFrom(q: seq<Alarm>, now: TimeVal, script: Script, k: nat)
    requires Sorted(q) && AheadFrom(script, now, k)
    ensures Ends(q, now, script)
  {
    hide Sorted, DueCount, DueSets, AheadFrom;
    var n := k + DueCount(q, now) + DueSets(script, now, k);
    DueSetsStop(script, now, k, n);
    EndsIf(q, now, script, n);
  }

  /** From the k-th callback on, the clock shows a later second than the one alarm_process sampled. */
  ghost predicate SecondOverFrom(script: Script, now: TimeVal, k: nat) {
    forall n: nat, j :: k <= n && 0 <= j < |script(n)| && script(n)[j].Set? ==> script(n)[j].clock.sec > now.sec
  }

  /**
    alarm_process ends when the second in which it sampled the clock is over, for all callbacks and any int ms: a
    wrap takes nothing from the seconds.
   */
  lemma EndsWhenSecondIsOver(q: seq<Alarm>, now: TimeVal, script: Script, k: nat)
    requires Sorted(q) && SecondOverFrom(script, now, k)
    ensures Ends(q, now, script)
  {
    hide Sorted, DueCount;
    forall n: nat, j | k <= n && 0 <= j < |script(n)|
      ensures Ahead(script(n)[j], now)
    {
      if script(n)[j].Set? {
        LaterSecondIsAhead(script(n)[j].clock, script(n)[j].ms, now);
      }
    }
    EndsIfAheadFrom(q, now, script, k);
  }

  // ----- an alarm that sets itself again -----

  function Rearming(f: Fn, clocks: nat -> TimeVal, ms: CInt): Script {
    (k: nat) => [Set(f, clocks(k), ms)]
  }

  lemma {:induction false} RearmingDueSets(f: Fn, clocks: nat -> TimeVal, ms: CInt, now: TimeVal, n: nat)
    ensures DueSets(Rearming(f, clocks, ms), now, n) < n <==>
      exists k: nat :: k < n && Later(Deadline(clocks(k), ms), now)
    ensures DueSets(Rearming(f, clocks, ms), now, n) <= n
  {
    hide Deadline, Later;
    if n > 0 {
      RearmingDueSets(f, clocks, ms, now, n - 1);
      assert Rearming(f, clocks, ms)(n - 1) == [Set(f, clocks(n - 1), ms)];
      OneDueSet(Set(f, clocks(n - 1), ms), now);
    }
  }

  lemma OneDueSet(op: Op, now: TimeVal)
    ensures DueSetsIn([op], now) == if Ahead(op, now) then 0 else 1
  {
    assert [op][..0] == [];
  }

  /** A due alarm that sets itself again keeps alarm_process running until a deadline stored for it is ahead. */
  lemma RearmedEndsExactly(a: Alarm, clocks: nat -> TimeVal, ms: CInt, now: TimeVal)
    requires !Later(a.at, now)
    ensures Ends([a], now, Rearming(a.f, clocks, ms)) <==> exists k: nat :: Later(Deadline(clocks(k), ms), now)
  {
    var script := Rearming(a.f, clocks, ms);
    assert DueCount([a], now) == 1;
    hide Deadline, Later, DueCount, Turns;
    EndsExactly([a], now, script);
    if n: nat :| 1 + DueSets(script, now, n) <= n {
      RearmingDueSets(a.f, clocks, ms, now, n);
    }
    if k: nat :| Later(Deadline(clocks(k), ms), now) {
      RearmingDueSets(a.f, clocks, ms, now, k + 1);
    }
  }

  /** It fires once for itself and once more for every deadline before that one. */
  lemma {:induction false} RearmedTurns(a: Alarm, clocks: nat -> TimeVal, ms: CInt, now: TimeVal, n: nat)
    requires !Later(a.at, now) && forall k: nat :: k + 1 < n ==> !Later(Deadline(clocks(k), ms), now)
    ensures |FiredIn([a], now, Rearming(a.f, clocks, ms), n)| == n
    ensures Turns([a], now, Rearming(a.f, clocks, ms), n) ==
      [if n == 0 then a else Alarm(Deadline(clocks(n - 1), ms), a.f)]
  {
    hide Deadline, Later, Do;
    if n > 0 {
      RearmedTurns(a, clocks, ms, now, n - 1);
      var op := Set(a.f, clocks(n - 1), ms);
      assert Rearming(a.f, clocks, ms)(n - 1) == [op] && [op][..0] == [];
      var p := Turns([a], now, Rearming(a.f, clocks, ms), n - 1);
      OneAlarm(p[0], op, now);
      assert p[1..] == [] && DoAll([], [op]) == Do(DoAll([], [op][..0]), op);
    }
  }

  lemma OneAlarm(a: Alarm, op: Op, now: TimeVal)
    requires op.Set?
    ensures [a][1..] == [] && Do([], op) == [Alarm(Deadline(op.clock, op.ms), op.f)]
    ensures DueCount([a], now) == if Later(a.at, now) then 0 else 1
  {
    hide Deadline;
  }

  /** So "once each" fails: an alarm for 2147484 ms later fires any number of times until the second is over. */
  lemma WrappedFiresAgain(m: nat)
    ensures var now, a := Time(100, 0), Alarm(Time(100, 0), 0);
      var script := Rearming(0, (k: nat) => if k < m then Time(100, 0) else Time(101, 0), 2147484);
      |FiredIn([a], now, script, m + 1)| == m + 1 && DueCount(Turns([a], now, script, m + 1), now) == 0
  {
    var now, a := Time(100, 0), Alarm(Time(100, 0), 0);
    var clocks: nat -> TimeVal := (k: nat) => if k < m then Time(100, 0) else Time(101, 0);
    FarDeadlineIsPast();
    RearmedTurns(a, clocks, 2147484, now, m + 1);
    OneAlarm(Alarm(Deadline(clocks(m), 2147484), 0), Set(0, now, 0), now);
  }

  // ----- when every deadline stored lies ahead -----

  lemma ForwardEnds(q: seq<Alarm>, now: TimeVal, script: Script)
    requires Sorted(q) && Forward(script, now)
    ensures Ends(q, now, script)
  {
    hide Sorted;
    EndsIfAheadFrom(q, now, script, 0);
  }

  /** Then the turns fire what FiredFrom says and leave what LeftFrom says. */
  lemma {:induction false} ForwardTurns(q: seq<Alarm>, now: TimeVal, script: Script, n: nat)
    requires Sorted(q) && Forward(script, now) && DueBefore(q, now, script, n)
    ensures Sorted(Turns(q, now, script, n))
    ensures FiredFrom(q, now, script, 0) ==
      FiredIn(q, now, script, n) + FiredFrom(Turns(q, now, script, n), now, script, n)
    ensures LeftFrom(q, now, script, 0) == LeftFrom(Turns(q, now, script, n), now, script, n)
  {
    hide Sorted, DueCount, DoAll, FiredFrom, LeftFrom, Forward;
    TurnsSorted(q, now, script, n);
    if n > 0 {
      ForwardTurns(q, now, script, n - 1);
      ProcessUnfolds(Turns(q, now, script, n - 1), now, script, n - 1);
    }
  }

  /** At the end: exactly the due alarms that no earlier callback cancelled have fired, once each and in order. */
  lemma ForwardEnd(q: seq<Alarm>, now: TimeVal, script: Script, n: nat)
    requires Sorted(q) && Forward(script, now) && DueBefore(q, now, script, n)
    requires DueCount(Turns(q, now, script, n), now) == 0
    ensures FiredIn(q, now, script, n) == Fired(Due(q, now), script)
    ensures Turns(q, now, script, n) == DoAll(NotDue(q, now), Executed(script, |Fired(Due(q, now), script)|))
  {
    hide Sorted, DueCount, DoAll, FiredFrom, LeftFrom, Forward, Fired, Executed;
    ForwardTurns(q, now, script, n);
    ProcessUnfolds(Turns(q, now, script, n), now, script, n);
    ProcessFiresExactly(q, now, script);
  }

  /** What alarm_process leaves and what it has fired, when it ends. */
  lemma TurnsEnd(q: seq<Alarm>, now: TimeVal, script: Script, n: nat)
    requires Sorted(q) && DueBefore(q, now, script, n) && DueCount(Turns(q, now, script, n), now) == 0
    ensures |FiredIn(q, now, script, n)| <= n && NoneDue(Turns(q, now, script, n), now)
    ensures Forward(script, now) ==>
      && FiredIn(q, now, script, n) == Fired(Due(q, now), script)
      && Turns(q, now, script, n) == DoAll(NotDue(q, now), Executed(script, |FiredIn(q, now, script, n)|))
  {
    hide Sorted, DueCount, DoAll, Turns, DueBefore, Forward, Fired, Executed, FiredIn;
    TurnsSorted(q, now, script, n);
    DueAreAllDue(Turns(q, now, script, n), now);
    NothingDue(Turns(q, now, script, n), now);
    if Forward(script, now) {
      ForwardEnd(q, now, script, n);
    }
  }
}
