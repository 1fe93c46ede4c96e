/**
  The meaning of the timer list of charge_only_mode/alarm.c: a queue of alarms in deadline order, ties in the
  order they were set. Deadlines are struct timeval values.
 */
module AlarmQueues {

  datatype Time = Time(sec: int, usec: int)

  /** What the clock says. */
  type TimeVal = t: Time | 0 <= t.usec < 1000000 witness Time(0, 0)

  /** What alarm_set_relative may store: a wrapped sum can leave tv_usec negative. */
  type Stored = t: Time | -0x8000_0000 <= t.usec < 1000000 witness Time(0, 0)

  /** int, on this 32-bit target */
  type CInt = x: int | -0x8000_0000 <= x < 0x8000_0000

  /** A callback is known by the address of its function. */
  type Fn = nat

  datatype Alarm = Alarm(at: Stored, f: Fn)

  function Micros(t: Time): int {
    t.sec * 1000000 + t.usec
  }

  /** The comparison written out at every use in alarm.c: seconds first, then microseconds. */
  predicate Later(a: Time, b: Time) {
    a.sec > b.sec || (a.sec == b.sec && a.usec > b.usec)
  }

  lemma LaterIsMicros(a: TimeVal, b: TimeVal)
    ensures Later(a, b) <==> Micros(a) > Micros(b)
  {
  }

  /** A stored deadline that has come is not ahead in microseconds either. */
  lemma DueInMicros(at: Stored, now: TimeVal)
    requires !Later(at, now)
    ensures Micros(at) <= Micros(now)
  {
  }

  function Int32(x: int): (y: CInt)
    ensures (x - y) % 0x1_0000_0000 == 0
  {
    (x + 0x8000_0000) % 0x1_0000_0000 - 0x8000_0000
  }

  /** What alarm_set_relative stores: the product and the sum are those of 32-bit integers, and may wrap. */
  function Deadline(now: TimeVal, ms: CInt): Stored {
    var usec := Int32(now.usec + Int32(ms * 1000));
    if usec >= 1000000 then Time(now.sec + usec / 1000000, usec % 1000000) else Time(now.sec, usec)
  }

  lemma Int32Fits(x: int, y: CInt)
    requires exists k :: x == y + k * 0x1_0000_0000
    ensures Int32(x) == y
  {
  }

  lemma WrappedTwice(a: int, b: int)
    ensures Int32(a + Int32(b)) == Int32(a + b)
  {
    var k := (b - Int32(b)) / 0x1_0000_0000;
    var j := (a + Int32(b) - Int32(a + Int32(b))) / 0x1_0000_0000;
    assert a + b == Int32(a + Int32(b)) + (j + k) * 0x1_0000_0000;
    Int32Fits(a + b, Int32(a + Int32(b)));
  }

  /** The deadline ms milliseconds after now. */
  function After(now: TimeVal, ms: nat): (t: TimeVal)
    ensures Micros(t) == Micros(now) + ms * 1000
  {
    var usec := now.usec + ms * 1000;
    if usec >= 1000000 then Time(now.sec + usec / 1000000, usec % 1000000) else Time(now.sec, usec)
  }

  /** The stored deadline is the one asked for if and only if the sum of microseconds fits an int. */
  lemma DeadlineIsAfter(now: TimeVal, ms: CInt)
    requires ms >= 0
    ensures Deadline(now, ms) == After(now, ms) <==> now.usec + ms * 1000 < 0x8000_0000
  {
    WrappedTwice(now.usec, ms * 1000);
    var x := now.usec + ms * 1000;
    if x < 0x8000_0000 {
      assert x == x + 0 * 0x1_0000_0000;
      Int32Fits(x, x);
    } else {
      DeadlineNear(now, ms);
      assert Micros(After(now, ms)) == Micros(now) + ms * 1000;
    }
  }

  /** A stored deadline is never further ahead than an int of microseconds. */
  lemma DeadlineNear(now: TimeVal, ms: CInt)
    ensures Micros(Deadline(now, ms)) - now.sec * 1000000 == Int32(now.usec + ms * 1000) < 0x8000_0000
  {
    WrappedTwice(now.usec, ms * 1000);
  }

  /** Asked for 2147484 ms, the code stores a time 2147 seconds ago: due at once, but only until the second is over. */
  lemma FarDeadlineIsPast()
    ensures var now := Time(100, 0);
      Deadline(now, 2147484) == Time(100, -2147483296) && !Later(Deadline(now, 2147484), now)
    ensures Later(Deadline(Time(101, 0), 2147484), Time(100, 0))
  {
  }

  /** The wrap leaves the seconds alone, so what is set in a later second than `now` is never due at `now`. */
  lemma LaterSecondIsAhead(clock: TimeVal, ms: CInt, now: TimeVal)
    requires clock.sec > now.sec
    ensures Later(Deadline(clock, ms), now)
  {
  }

  /** C division truncates toward zero. */
  function Quot(a: int, b: nat): int
    requires b > 0
  {
    if a >= 0 then a / b else -(-a / b)
  }

  /** The value of alarm_get_time_until_next for a pending alarm, before it is stored in an int. */
  function Delta(at: Stored, now: TimeVal): int {
    (at.sec - now.sec) * 1000 + Quot(Int32(at.usec - now.usec), 1000)
  }

  lemma QuotNear(a: int)
    ensures -1000 < Quot(a, 1000) * 1000 - a < 1000
    ensures (Quot(a, 1000) > 0 ==> a > 0) && (a > 0 ==> Quot(a, 1000) >= 0) && (a <= 0 ==> Quot(a, 1000) <= 0)
    ensures -1000000 < a < 1000000 ==> -1000 < Quot(a, 1000) < 1000
  {
  }

  /** Stored in an int, the delay of an alarm for time `at` makes the loop of main process alarms at once. */
  predicate Wakes(at: Stored, now: TimeVal) {
    (-Delta(at, now)) % 0x1_0000_0000 <= 0x8000_0000
  }

  lemma WordRemainder(x: int, k: int, r: int)
    requires x == k * 0x1_0000_0000 + r && 0 <= r < 0x1_0000_0000
    ensures x % 0x1_0000_0000 == r
  {
  }

  lemma Int32BelowOne(x: int)
    ensures Int32(x) < 1 <==> (-x) % 0x1_0000_0000 <= 0x8000_0000
  {
    var k, r := (x + 0x8000_0000) / 0x1_0000_0000, (x + 0x8000_0000) % 0x1_0000_0000;
    assert Int32(x) == r - 0x8000_0000;
    if r <= 0x8000_0000 {
      WordRemainder(-x, -k, 0x8000_0000 - r);
    } else {
      WordRemainder(-x, -k - 1, 0x1_8000_0000 - r);
    }
  }

  /**
    The loop processes alarms at once when the delay is below 1, that is, exactly when the head is late by a
    number of milliseconds that is at most 2^31 modulo 2^32. Every head that is due and less than 2^31 ms late is
    of that kind; of those still ahead by less than 2^31 ms, only the ones less than a millisecond ahead are.
   */
  lemma DueHeadWakesTheLoop(at: Stored, now: TimeVal)
    ensures Int32(Delta(at, now)) < 1 <==> Wakes(at, now)
    ensures at.usec - now.usec >= -0x8000_0000 ==>
      && -1000 < Delta(at, now) * 1000 - (Micros(at) - Micros(now)) < 1000
      && (!Later(at, now) && Delta(at, now) >= -0x8000_0000 ==> Wakes(at, now))
      && (Wakes(at, now) && -0x8000_0000 <= Delta(at, now) < 0x8000_0000 ==> Micros(at) - Micros(now) < 1000)
  {
    Int32BelowOne(Delta(at, now));
    hide Int32;
    var d := at.usec - now.usec;
    QuotNear(d);
    if d >= -0x8000_0000 {
      assert d == d + 0 * 0x1_0000_0000;
      Int32Fits(d, d);
    }
  }

  /** The wrap is real, both ways: an alarm 2147483649 ms late makes the loop wait as if it lay far ahead ... */
  lemma VeryLateHeadIsMissed()
    ensures var at, now := Time(0, 0), Time(2147483, 649000);
      !Later(at, now) && !Wakes(at, now) && Int32(Delta(at, now)) == 0x7fff_ffff
  {
    assert Delta(Time(0, 0), Time(2147483, 649000)) == -2147483649;
  }

  /** ... one 4294967296 ms late is noticed again ... */
  lemma EvenLaterHeadIsNoticed()
    ensures var at, now := Time(0, 0), Time(4294967, 296000);
      !Later(at, now) && Wakes(at, now) && Int32(Delta(at, now)) == 0
  {
    assert Delta(Time(0, 0), Time(4294967, 296000)) == -4294967296;
  }

  /** ... and one 4294967296 ms ahead makes the loop spin until it is less than 2147483648 ms ahead. */
  lemma FarHeadSpins(at: Stored, now: TimeVal)
    requires 0 <= Delta(at, now) <= 0x1_0000_0000
    ensures Wakes(at, now) <==> Delta(at, now) == 0 || Delta(at, now) >= 0x8000_0000
  {
    hide Delta;
    var d := Delta(at, now);
    if d > 0 {
      WordRemainder(-d, -1, 0x1_0000_0000 - d);
    }
  }

  lemma FarHeadExists()
    ensures Delta(Time(4294967, 296000), Time(0, 0)) == 0x1_0000_0000
  {
  }

  // ----- the list operations on queues -----

  ghost predicate Sorted(q: seq<Alarm>) {
    forall i, j :: 0 <= i < j < |q| ==> !Later(q[i].at, q[j].at)
  }

  lemma SortedTail(q: seq<Alarm>)
    requires Sorted(q)
    ensures q != [] ==> Sorted(q[1..])
  {
  }

  /** Where alarm_set_relative links an alarm for time t: before the first that is strictly later. */
  function Place(q: seq<Alarm>, t: Time): (i: nat)
    ensures i <= |q| && (i < |q| ==> Later(q[i].at, t))
    ensures forall k :: 0 <= k < i ==> !Later(q[k].at, t)
  {
    if q == [] || Later(q[0].at, t) then 0 else 1 + Place(q[1..], t)
  }

  function Inserted(q: seq<Alarm>, a: Alarm): seq<Alarm> {
    q[..Place(q, a.at)] + [a] + q[Place(q, a.at)..]
  }

  /** The alarms whose function is not in fs, in order. */
  function Without(q: seq<Alarm>, fs: set<Fn>): (r: seq<Alarm>)
    ensures |r| <= |q|
  {
    if q == [] then []
    else if q[0].f in fs then Without(q[1..], fs)
    else [q[0]] + Without(q[1..], fs)
  }

  function Pending(q: seq<Alarm>, f: Fn): nat {
    if q == [] then 0 else (if q[0].f == f then 1 else 0) + Pending(q[1..], f)
  }

  lemma PlaceIs(q: seq<Alarm>, t: Time, i: nat)
    requires i <= |q| && (i < |q| ==> Later(q[i].at, t))
    requires forall k :: 0 <= k < i ==> !Later(q[k].at, t)
    ensures Place(q, t) == i
  {
  }

  /** Setting keeps the order, and the new alarm comes after all with the same deadline. */
  lemma InsertedSorted(q: seq<Alarm>, a: Alarm)
    requires Sorted(q)
    ensures Sorted(Inserted(q, a))
    ensures forall k :: Place(q, a.at) <= k < |q| ==> Later(q[k].at, a.at)
  {
    LaterBehind(q, a);
    hide Place;
    SplicedSorted(q, a, Place(q, a.at));
  }

  lemma LaterBehind(q: seq<Alarm>, a: Alarm)
    requires Sorted(q)
    ensures forall k :: Place(q, a.at) <= k < |q| ==> Later(q[k].at, a.at)
  {
    var p := Place(q, a.at);
    hide Place;
    forall k | p <= k < |q|
      ensures Later(q[k].at, a.at)
    {
      assert k == p || !Later(q[p].at, q[k].at);
    }
  }

  lemma SplicedSorted(q: seq<Alarm>, a: Alarm, p: nat)
    requires Sorted(q) && p <= |q|
    requires (forall k :: 0 <= k < p ==> !Later(q[k].at, a.at)) && forall k :: p <= k < |q| ==> Later(q[k].at, a.at)
    ensures Sorted(q[..p] + [a] + q[p..])
  {
    var r := q[..p] + [a] + q[p..];
    forall i, j | 0 <= i < j < |r|
      ensures !Later(r[i].at, r[j].at)
    {
      assert r[i] == if i < p then q[i] else if i == p then a else q[i - 1];
      assert r[j] == if j < p then q[j] else if j == p then a else q[j - 1];
    }
  }

  /** Inserting behind alarms that are not later. */
  lemma InsertedBehind(d: seq<Alarm>, r: seq<Alarm>, a: Alarm)
    requires forall k :: 0 <= k < |d| ==> !Later(d[k].at, a.at)
    ensures Inserted(d + r, a) == d + Inserted(r, a)
  {
    hide Later;
    var p := Place(r, a.at);
    PlaceIs(d + r, a.at, |d| + p);
    hide Place;
    SpliceBehind(d, r, p, [a]);
  }

  lemma SpliceBehind(d: seq<Alarm>, r: seq<Alarm>, p: nat, x: seq<Alarm>)
    requires p <= |r|
    ensures (d + r)[..|d| + p] + x + (d + r)[|d| + p..] == d + (r[..p] + x + r[p..])
  {
    assert (d + r)[..|d| + p] == d + r[..p] && (d + r)[|d| + p..] == r[p..];
  }

  lemma {:induction false} WithoutMembers(q: seq<Alarm>, fs: set<Fn>)
    ensures forall a :: a in Without(q, fs) <==> a in q && a.f !in fs
  {
    if q != [] {
      WithoutMembers(q[1..], fs);
      assert forall a :: a in q <==> a == q[0] || a in q[1..];
    }
  }

  lemma {:induction false} WithoutAppend(q: seq<Alarm>, r: seq<Alarm>, fs: set<Fn>)
    ensures Without(q + r, fs) == Without(q, fs) + Without(r, fs)
  {
    if q == [] {
      assert q + r == r;
    } else {
      assert (q + r)[1..] == q[1..] + r;
      WithoutAppend(q[1..], r, fs);
    }
  }

  lemma WithoutLast(q: seq<Alarm>, a: Alarm, fs: set<Fn>)
    ensures Without(q + [a], fs) == if a.f in fs then Without(q, fs) else Without(q, fs) + [a]
  {
    WithoutAppend(q, [a], fs);
  }

  lemma {:induction false} WithoutSorted(q: seq<Alarm>, fs: set<Fn>)
    requires Sorted(q)
    ensures Sorted(Without(q, fs))
  {
    if q != [] {
      WithoutSorted(q[1..], fs);
      WithoutMembers(q[1..], fs);
      var r := Without(q[1..], fs);
      forall j | 0 <= j < |r|
        ensures !Later(q[0].at, r[j].at)
      {
        assert r[j] in q[1..];
        var k :| 0 <= k < |q[1..]| && q[1..][k] == r[j];
        assert q[k + 1] == r[j];
      }
    }
  }

  lemma {:induction false} WithoutUnion(q: seq<Alarm>, fs: set<Fn>, gs: set<Fn>)
    ensures Without(Without(q, fs), gs) == Without(q, fs + gs)
  {
    if q != [] {
      WithoutUnion(q[1..], fs, gs);
      var r := Without(q[1..], fs);
      if q[0].f !in fs {
        assert ([q[0]] + r)[1..] == r;
      }
    }
  }

  lemma {:induction false} WithoutNone(q: seq<Alarm>)
    ensures Without(q, {}) == q
  {
    if q != [] {
      WithoutNone(q[1..]);
    }
  }

  // ----- counting pending alarms -----

  lemma {:induction false} PendingAppend(q: seq<Alarm>, r: seq<Alarm>, f: Fn)
    ensures Pending(q + r, f) == Pending(q, f) + Pending(r, f)
  {
    if q == [] {
      assert q + r == r;
    } else {
      assert (q + r)[1..] == q[1..] + r;
      PendingAppend(q[1..], r, f);
    }
  }

  lemma InsertedPending(q: seq<Alarm>, a: Alarm, f: Fn)
    ensures Pending(Inserted(q, a), f) == Pending(q, f) + (if a.f == f then 1 else 0)
  {
    var p := Place(q, a.at);
    PendingAppend(q[..p], q[p..], f);
    assert q[..p] + q[p..] == q;
    PendingAppend(q[..p], [a], f);
    PendingAppend(q[..p] + [a], q[p..], f);
    assert [a][1..] == [];
  }

  lemma {:induction false} WithoutPending(q: seq<Alarm>, fs: set<Fn>, f: Fn)
    ensures Pending(Without(q, fs), f) == if f in fs then 0 else Pending(q, f)
  {
    if q != [] {
      WithoutPending(q[1..], fs, f);
      var r := Without(q[1..], fs);
      if q[0].f !in fs {
        assert ([q[0]] + r)[1..] == r;
      }
    }
  }

  lemma {:induction false} CancelCount(q: seq<Alarm>, f: Fn)
    ensures |q| - |Without(q, {f})| == Pending(q, f)
  {
    if q != [] {
      CancelCount(q[1..], f);
    }
  }
}
