/**
  What alarm_process of charge_only_mode/alarm.c does when the callbacks it runs set and cancel alarms
  themselves. A script holds, for each callback in the order they run, the list operations it performs.
 */
module AlarmRuns {
  import opened AlarmQueues

  /** alarm_set_relative(f, ms) at time clock, or alarm_cancel(f). */
  datatype Op = Set(f: Fn, clock: TimeVal, ms: CInt) | Cancel(f: Fn)

  function Do(q: seq<Alarm>, op: Op): seq<Alarm> {
    match op
    case Set(f, clock, ms) => Inserted(q, Alarm(Deadline(clock, ms), f))
    case Cancel(f) => Without(q, {f})
  }

  function DoAll(q: seq<Alarm>, ops: seq<Op>): seq<Alarm> {
    if ops == [] then q else Do(DoAll(q, ops[..|ops| - 1]), ops[|ops| - 1])
  }

  function Cancels(ops: seq<Op>): set<Fn> {
    if ops == [] then {}
    else Cancels(ops[..|ops| - 1]) + (if ops[|ops| - 1].Cancel? then {ops[|ops| - 1].f} else {})
  }

  /** What the k-th callback does. */
  type Script = nat -> seq<Op>

  /** The script that begins with the given callbacks; those that would come later do nothing. */
  function Padded(ops: seq<seq<Op>>): Script {
    (k: nat) => if k < |ops| then ops[k] else []
  }

  /** An alarm that the operation sets is not yet due. */
  predicate Ahead(op: Op, now: TimeVal) {
    op.Set? ==> Later(Deadline(op.clock, op.ms), now)
  }

  /** When the clock does not run backwards past `now`, a positive time that does not wrap is enough. */
  lemma AheadIfNear(op: Op, now: TimeVal)
    requires op.Set? ==> !Later(now, op.clock) && op.ms > 0 && op.clock.usec + op.ms * 1000 < 0x8000_0000
    ensures Ahead(op, now)
  {
    if op.Set? {
      DeadlineIsAfter(op.clock, op.ms);
      LaterIsMicros(now, op.clock);
      LaterIsMicros(After(op.clock, op.ms), now);
    }
  }

  ghost predicate Forward(script: Script, now: TimeVal) {
    forall k: nat, j :: 0 <= j < |script(k)| ==> Ahead(script(k)[j], now)
  }

  lemma PaddedForward(ops: seq<Op>, rest: seq<seq<Op>>, now: TimeVal)
    requires Forward(Padded(rest), now) && forall j :: 0 <= j < |ops| ==> Ahead(ops[j], now)
    ensures Forward(Padded([ops] + rest), now)
  {
    hide Ahead;
    var script := Padded([ops] + rest);
    forall k: nat, j | 0 <= j < |script(k)|
      ensures Ahead(script(k)[j], now)
    {
      if k > 0 {
        assert script(k) == Padded(rest)(k - 1);
      }
    }
  }

  // ----- due alarms -----

  /** How many alarms at the front of the queue are due. */
  function DueCount(q: seq<Alarm>, now: TimeVal): (n: nat)
    ensures n <= |q| && (n < |q| ==> Later(q[n].at, now))
    ensures forall k :: 0 <= k < n ==> !Later(q[k].at, now)
  {
    Place(q, now)
  }

  function Due(q: seq<Alarm>, now: TimeVal): seq<Alarm> {
    q[..DueCount(q, now)]
  }

  function NotDue(q: seq<Alarm>, now: TimeVal): seq<Alarm> {
    q[DueCount(q, now)..]
  }

  ghost predicate AllDue(q: seq<Alarm>, now: TimeVal) {
    forall i :: 0 <= i < |q| ==> !Later(q[i].at, now)
  }

  ghost predicate NoneDue(q: seq<Alarm>, now: TimeVal) {
    forall i :: 0 <= i < |q| ==> Later(q[i].at, now)
  }

  /** What is not due is not due at an earlier time. */
  lemma NoneDueBefore(q: seq<Alarm>, asked: TimeVal, now: TimeVal)
    requires !Later(asked, now) && NoneDue(q, now)
    ensures NoneDue(q, asked)
  {
  }

  /** In a sorted queue the due alarms are exactly those at the front. */
  lemma DueAreAllDue(q: seq<Alarm>, now: TimeVal)
    requires Sorted(q)
    ensures q == Due(q, now) + NotDue(q, now)
    ensures AllDue(Due(q, now), now) && NoneDue(NotDue(q, now), now)
  {
    hide DueCount;
    var n, r := DueCount(q, now), NotDue(q, now);
    forall i | 0 <= i < |r|
      ensures Later(r[i].at, now)
    {
      assert r[i] == q[n + i] && (i == 0 || !Later(q[n].at, q[n + i].at));
    }
  }

  /** A queue that splits into due and later alarms splits there. */
  lemma SplitIs(d: seq<Alarm>, r: seq<Alarm>, now: TimeVal)
    requires AllDue(d, now)
    requires r == [] || Later(r[0].at, now)
    ensures Due(d + r, now) == d && NotDue(d + r, now) == r
  {
    PlaceIs(d + r, now, |d|);
  }

  lemma SetSplits(q: seq<Alarm>, a: Alarm, now: TimeVal)
    requires Sorted(q) && Later(a.at, now)
    ensures Due(Inserted(q, a), now) == Due(q, now)
    ensures NotDue(Inserted(q, a), now) == Inserted(NotDue(q, now), a)
  {
    var d, r := Due(q, now), NotDue(q, now);
    DueAreAllDue(q, now);
    InsertedBehind(d, r, a);
    FirstAfterInsert(r, a, now);
    SplitIs(d, Inserted(r, a), now);
  }

  lemma FirstAfterInsert(r: seq<Alarm>, a: Alarm, now: TimeVal)
    requires Later(a.at, now) && (r == [] || Later(r[0].at, now))
    ensures Inserted(r, a) != [] && Later(Inserted(r, a)[0].at, now)
  {
  }

  lemma CancelSplits(q: seq<Alarm>, f: Fn, now: TimeVal)
    requires Sorted(q)
    ensures Due(Without(q, {f}), now) == Without(Due(q, now), {f})
    ensures NotDue(Without(q, {f}), now) == Without(NotDue(q, now), {f})
  {
    DueAreAllDue(q, now);
    var d, r := Due(q, now), NotDue(q, now);
    hide Due, NotDue, Sorted;
    WithoutAppend(d, r, {f});
    AllDueWithout(d, f, now);
    NoneDueWithout(r, f, now);
    assert q == d + r && Without(q, {f}) == Without(d, {f}) + Without(r, {f});
    SplitIs(Without(d, {f}), Without(r, {f}), now);
  }

  lemma {:induction false} AllDueWithout(d: seq<Alarm>, f: Fn, now: TimeVal)
    requires AllDue(d, now)
    ensures AllDue(Without(d, {f}), now)
  {
    if d != [] {
      AllDueWithout(d[1..], f, now);
    }
  }

  lemma {:induction false} NoneDueWithout(r: seq<Alarm>, f: Fn, now: TimeVal)
    requires NoneDue(r, now)
    ensures NoneDue(Without(r, {f}), now)
  {
    if r != [] {
      NoneDueWithout(r[1..], f, now);
    }
  }

  /** A callback takes away due alarms only by cancelling, adds none, and treats the rest as if nothing were due. */
  lemma {:induction false} CallbackSplits(q: seq<Alarm>, ops: seq<Op>, now: TimeVal)
    requires Sorted(q) && forall j :: 0 <= j < |ops| ==> Ahead(ops[j], now)
    ensures Sorted(DoAll(q, ops))
    ensures Due(DoAll(q, ops), now) == Without(Due(q, now), Cancels(ops))
    ensures NotDue(DoAll(q, ops), now) == DoAll(NotDue(q, now), ops)
  {
    if ops == [] {
      WithoutNone(Due(q, now));
    } else {
      var most, op := ops[..|ops| - 1], ops[|ops| - 1];
      hide Sorted, Due, NotDue, Without, Do;
      CallbackSplits(q, most, now);
      OpSplits(DoAll(q, most), op, now);
      WithoutUnion(Due(q, now), Cancels(most), if op.Cancel? then {op.f} else {});
    }
  }

  lemma OpSplits(q: seq<Alarm>, op: Op, now: TimeVal)
    requires Sorted(q) && Ahead(op, now)
    ensures Sorted(Do(q, op)) && NotDue(Do(q, op), now) == Do(NotDue(q, now), op)
    ensures Due(Do(q, op), now) == Without(Due(q, now), if op.Cancel? then {op.f} else {})
  {
    hide Sorted, Due, NotDue, Without, Inserted, Deadline;
    match op {
      case Set(f, clock, ms) =>
        var a := Alarm(Deadline(clock, ms), f);
        InsertedSorted(q, a);
        SetSplits(q, a, now);
        WithoutNone(Due(q, now));
      case Cancel(f) =>
        WithoutSorted(q, {f});
        CancelSplits(q, f, now);
    }
  }

  // ----- alarm_process -----

  lemma CallbackShrinks(q: seq<Alarm>, now: TimeVal, ops: seq<Op>)
    requires Sorted(q) && DueCount(q, now) > 0 && forall j :: 0 <= j < |ops| ==> Ahead(ops[j], now)
    ensures Sorted(DoAll(q[1..], ops)) && DueCount(DoAll(q[1..], ops), now) < DueCount(q, now)
    ensures Due(q[1..], now) == Due(q, now)[1..] && NotDue(q[1..], now) == NotDue(q, now)
  {
    var n := DueCount(q, now);
    PlaceIs(q[1..], now, n - 1);
    assert q[1..][..n - 1] == q[..n][1..] && q[1..][n - 1..] == q[n..];
    CallbackSplits(q[1..], ops, now);
  }

  /** The callbacks that alarm_process runs, from the k-th on, when the list is q. */
  ghost function FiredFrom(q: seq<Alarm>, now: TimeVal, script: Script, k: nat): seq<Alarm>
    requires Sorted(q) && Forward(script, now)
    decreases DueCount(q, now)
  {
    if DueCount(q, now) == 0 then []
    else
      CallbackShrinks(q, now, script(k));
      [q[0]] + FiredFrom(DoAll(q[1..], script(k)), now, script, k + 1)
  }

  /** The list it leaves behind. */
  ghost function LeftFrom(q: seq<Alarm>, now: TimeVal, script: Script, k: nat): seq<Alarm>
    requires Sorted(q) && Forward(script, now)
    decreases DueCount(q, now)
  {
    if DueCount(q, now) == 0 then q
    else
      CallbackShrinks(q, now, script(k));
      LeftFrom(DoAll(q[1..], script(k)), now, script, k + 1)
  }

  lemma ProcessUnfolds(q: seq<Alarm>, now: TimeVal, script: Script, k: nat)
    requires Sorted(q) && Forward(script, now)
    ensures DueCount(q, now) == 0 ==> FiredFrom(q, now, script, k) == [] && LeftFrom(q, now, script, k) == q
    ensures DueCount(q, now) > 0 ==>
      var r := DoAll(q[1..], script(k));
      && Sorted(r) && DueCount(r, now) < DueCount(q, now)
      && FiredFrom(q, now, script, k) == [q[0]] + FiredFrom(r, now, script, k + 1)
      && LeftFrom(q, now, script, k) == LeftFrom(r, now, script, k + 1)
  {
    if DueCount(q, now) > 0 {
      CallbackShrinks(q, now, script(k));
    }
  }

  // ----- which alarms fire -----

  /** The functions cancelled by the first n callbacks. */
  function CancelledBy(script: Script, n: nat): set<Fn> {
    if n == 0 then {} else CancelledBy(script, n - 1) + Cancels(script(n - 1))
  }

  function Executed(script: Script, n: nat): seq<Op> {
    if n == 0 then [] else Executed(script, n - 1) + script(n - 1)
  }

  /** Of the due alarms, in order: each fires unless a callback that ran before it cancelled its function. */
  function Fired(due: seq<Alarm>, script: Script): seq<Alarm> {
    if due == [] then []
    else
      var before := Fired(due[..|due| - 1], script);
      if due[|due| - 1].f in CancelledBy(script, |before|) then before else before + [due[|due| - 1]]
  }

  /** Skipped alarms are those already cancelled. */
  lemma {:induction false} FiredSkips(due: seq<Alarm>, script: Script, i: nat, j: nat)
    requires i <= j <= |due|
    requires forall k :: i <= k < j ==> due[k].f in CancelledBy(script, |Fired(due[..i], script)|)
    ensures Fired(due[..j], script) == Fired(due[..i], script)
  {
    if i < j {
      FiredSkips(due, script, i, j - 1);
      assert due[..j][..j - 1] == due[..j - 1];
    }
  }

  lemma {:induction false} NextLeft(d: seq<Alarm>, i: nat, fs: set<Fn>) returns (j: nat)
    requires i <= |d|
    ensures i <= j <= |d| && forall k :: i <= k < j ==> d[k].f in fs
    ensures j == |d| ==> Without(d[i..], fs) == []
    ensures j < |d| ==> d[j].f !in fs && Without(d[i..], fs) == [d[j]] + Without(d[j + 1..], fs)
    decreases |d| - i
  {
    j := i;
    if i < |d| {
      assert d[i..][1..] == d[i + 1..];
      if d[i].f in fs {
        j := NextLeft(d, i + 1, fs);
      }
    }
  }

  lemma {:induction false} DoAllAppend(q: seq<Alarm>, ops: seq<Op>, more: seq<Op>)
    ensures DoAll(q, ops + more) == DoAll(DoAll(q, ops), more)
  {
    if more == [] {
      assert ops + more == ops;
    } else {
      assert (ops + more)[..|ops + more| - 1] == ops + more[..|more| - 1];
      DoAllAppend(q, ops, more[..|more| - 1]);
    }
  }

  /** The state of alarm_process after k callbacks that dealt with the first i of the alarms due at the start. */
  lemma {:induction false} ProcessFrom(due: seq<Alarm>, rest: seq<Alarm>, i: nat, q: seq<Alarm>, now: TimeVal,
                                       script: Script, k: nat)
    requires i <= |due| && Sorted(q) && Forward(script, now) && k == |Fired(due[..i], script)|
    requires Due(q, now) == Without(due[i..], CancelledBy(script, k))
    requires NotDue(q, now) == DoAll(rest, Executed(script, k))
    ensures Fired(due[..i], script) + FiredFrom(q, now, script, k) == Fired(due, script)
    ensures LeftFrom(q, now, script, k) == DoAll(rest, Executed(script, |Fired(due, script)|))
    decreases DueCount(q, now)
  {
    hide Without, DoAll, CancelledBy, Executed, NotDue, Sorted, Forward, Fired;
    var j := NextLeft(due, i, CancelledBy(script, k));
    FiredSkips(due, script, i, j);
    if DueCount(q, now) == 0 {
      NothingDue(q, now);
      assert due[..j] == due;
    } else {
      assert q[0] == Due(q, now)[0];
      FiredNext(due, script, j);
      ProcessStep(due, rest, j, q, now, script, k);
      ProcessFrom(due, rest, j + 1, DoAll(q[1..], script(k)), now, script, k + 1);
    }
  }

  lemma NothingDue(q: seq<Alarm>, now: TimeVal)
    requires DueCount(q, now) == 0
    ensures Due(q, now) == [] && NotDue(q, now) == q
  {
  }

  lemma FiredNext(due: seq<Alarm>, script: Script, j: nat)
    requires j < |due| && due[j].f !in CancelledBy(script, |Fired(due[..j], script)|)
    ensures Fired(due[..j + 1], script) == Fired(due[..j], script) + [due[j]]
  {
    assert due[..j + 1][..j] == due[..j];
  }

  /** One callback, run for the j-th alarm due at the start. */
  lemma ProcessStep(due: seq<Alarm>, rest: seq<Alarm>, j: nat, q: seq<Alarm>, now: TimeVal, script: Script,
                    k: nat)
    requires j < |due| && Sorted(q) && Forward(script, now) && DueCount(q, now) > 0
    requires Due(q, now) == [due[j]] + Without(due[j + 1..], CancelledBy(script, k))
    requires NotDue(q, now) == DoAll(rest, Executed(script, k))
    ensures var r := DoAll(q[1..], script(k));
      && Sorted(r) && DueCount(r, now) < DueCount(q, now)
      && Due(r, now) == Without(due[j + 1..], CancelledBy(script, k + 1))
      && NotDue(r, now) == DoAll(rest, Executed(script, k + 1))
  {
    var ops := script(k);
    assert forall j :: 0 <= j < |ops| ==> Ahead(ops[j], now);
    hide Without, DoAll, NotDue, Due, Sorted, Forward, Ahead;
    CallbackShrinks(q, now, ops);
    CallbackSplits(q[1..], ops, now);
    WithoutUnion(due[j + 1..], CancelledBy(script, k), Cancels(ops));
    DoAllAppend(rest, Executed(script, k), ops);
  }

  /**
    alarm_process runs exactly the due alarms that no earlier callback cancelled, once each and in order, and
    leaves what the callbacks would have made of the alarms that were not due.
   */
  lemma ProcessFiresExactly(q: seq<Alarm>, now: TimeVal, script: Script)
    requires Sorted(q) && Forward(script, now)
    ensures var due, rest := Due(q, now), NotDue(q, now);
      && FiredFrom(q, now, script, 0) == Fired(due, script)
      && LeftFrom(q, now, script, 0) == DoAll(rest, Executed(script, |Fired(due, script)|))
  {
    var due := Due(q, now);
    WithoutNone(due);
    assert due[0..] == due && due[..0] == [];
    ProcessFrom(due, NotDue(q, now), 0, q, now, script, 0);
  }

  /** Where the i-th due alarm is among the fired ones, if it fires. */
  lemma {:induction false} FiredPlaces(due: seq<Alarm>, script: Script, i: nat)
    requires i < |due|
    ensures var n := |Fired(due[..i], script)|;
      && n <= |Fired(due, script)| && Fired(due, script)[..n] == Fired(due[..i], script)
      && (due[i].f !in CancelledBy(script, n) ==> n < |Fired(due, script)| && Fired(due, script)[n] == due[i])
  {
    hide CancelledBy;
    var last := |due| - 1;
    if i < last {
      FiredPlaces(due[..last], script, i);
      assert due[..last][..i] == due[..i];
      assert Fired(due[..last], script) <= Fired(due, script);
    }
  }

  /** When no callback cancels, every due alarm fires. */
  lemma {:induction false} AllDueFire(due: seq<Alarm>, script: Script)
    requires forall n: nat :: CancelledBy(script, n) == {}
    ensures Fired(due, script) == due
  {
    if due != [] {
      AllDueFire(due[..|due| - 1], script);
    }
  }

  /** Nothing due is left, whatever the callbacks did. */
  lemma {:induction false} NothingDueIsLeft(q: seq<Alarm>, now: TimeVal, script: Script, k: nat)
    requires Sorted(q) && Forward(script, now)
    ensures Sorted(LeftFrom(q, now, script, k)) && NoneDue(LeftFrom(q, now, script, k), now)
    decreases DueCount(q, now)
  {
    hide Sorted, Forward, LeftFrom, DueCount, NoneDue;
    ProcessUnfolds(q, now, script, k);
    if DueCount(q, now) > 0 {
      NothingDueIsLeft(DoAll(q[1..], script(k)), now, script, k + 1);
    } else {
      DueAreAllDue(q, now);
      NothingDue(q, now);
    }
  }
}
