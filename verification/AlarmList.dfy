/** The singly linked timer list of charge_only_mode/alarm.c, relinked in place. */
module AlarmLists {
  import opened AlarmQueues
  import opened AlarmRuns
  import opened AlarmTurns

  class AlarmNode {
    var next: AlarmNode?
    const at: Stored
    const f: Fn

    constructor (at: Stored, f: Fn)
      ensures this.at == at && this.f == f && next == null
    {
      this.at, this.f, next := at, f, null;
    }
  }

  ghost function AlarmsOf(ns: seq<AlarmNode>): seq<Alarm> {
    seq(|ns|, i requires 0 <= i < |ns| => Alarm(ns[i].at, ns[i].f))
  }

  ghost function NodeAt(ns: seq<AlarmNode>, i: nat): AlarmNode? {
    if i < |ns| then ns[i] else null
  }

  ghost predicate Distinct(ns: seq<AlarmNode>) {
    forall i, j :: 0 <= i < j < |ns| ==> ns[i] != ns[j]
  }

  lemma DistinctInsert(ns: seq<AlarmNode>, a: AlarmNode, k: nat)
    requires Distinct(ns) && a !in ns && k <= |ns|
    ensures Distinct(ns[..k] + [a] + ns[k..])
    ensures k > 0 ==> forall i :: 0 <= i < |ns| && i != k - 1 ==> ns[i] != ns[k - 1]
  {
    var r := ns[..k] + [a] + ns[k..];
    assert forall i :: 0 <= i < |r| ==> r[i] == if i < k then ns[i] else if i == k then a else ns[i - 1];
  }

  lemma DistinctRemove(ns: seq<AlarmNode>, k: nat)
    requires Distinct(ns) && k < |ns|
    ensures Distinct(ns[..k] + ns[k + 1..])
    ensures k > 0 ==> forall i :: 0 <= i < |ns| && i != k - 1 ==> ns[i] != ns[k - 1]
  {
    var r := ns[..k] + ns[k + 1..];
    assert forall i :: 0 <= i < |r| ==> r[i] == ns[if i < k then i else i + 1];
  }

  lemma AlarmsInserted(ns: seq<AlarmNode>, a: AlarmNode, i: nat)
    requires i <= |ns|
    ensures AlarmsOf(ns[..i] + [a] + ns[i..]) == AlarmsOf(ns)[..i] + [Alarm(a.at, a.f)] + AlarmsOf(ns)[i..]
  {
  }

  /** alarm_cancel has looked at the first i nodes of `was` and kept k of them. */
  ghost predicate Scanned(ns: seq<AlarmNode>, was: seq<AlarmNode>, k: nat, i: nat, f: Fn) {
    && k <= |ns| && i <= |was| && ns[k..] == was[i..]
    && AlarmsOf(ns[..k]) == Without(AlarmsOf(was)[..i], {f})
  }

  lemma ScanStarts(was: seq<AlarmNode>, f: Fn)
    ensures Scanned(was, was, 0, 0, f)
  {
  }

  lemma ScanMoves(ns: seq<AlarmNode>, was: seq<AlarmNode>, k: nat, i: nat, f: Fn)
    requires Scanned(ns, was, k, i, f) && k < |ns|
    ensures if ns[k].f == f then Scanned(ns[..k] + ns[k + 1..], was, k, i + 1, f) else Scanned(ns, was, k + 1, i + 1, f)
  {
    var alarms := AlarmsOf(was);
    assert ns[k..][0] == was[i] && ns[k + 1..] == ns[k..][1..] == was[i..][1..] == was[i + 1..];
    assert alarms[..i + 1] == alarms[..i] + [alarms[i]];
    WithoutLast(alarms[..i], alarms[i], {f});
    if ns[k].f == f {
      var rest := ns[..k] + ns[k + 1..];
      assert rest[..k] == ns[..k] && rest[k..] == ns[k + 1..];
    } else {
      assert AlarmsOf(ns[..k + 1]) == AlarmsOf(ns[..k]) + [alarms[i]];
    }
  }

  lemma ScanEnds(ns: seq<AlarmNode>, was: seq<AlarmNode>, k: nat, i: nat, f: Fn)
    requires Scanned(ns, was, k, i, f) && k == |ns| && i == |was| && Sorted(AlarmsOf(was))
    ensures AlarmsOf(ns) == Without(AlarmsOf(was), {f}) && Sorted(AlarmsOf(ns))
    ensures |was| - |ns| == Pending(AlarmsOf(was), f)
  {
    var alarms := AlarmsOf(was);
    assert alarms[..i] == alarms && ns[..k] == ns;
    WithoutSorted(alarms, {f});
    CancelCount(alarms, f);
  }

  class AlarmList {
    var head: AlarmNode?
    /** The nodes on the list, in order. */
    ghost var nodes: seq<AlarmNode>

    ghost function Contents(): seq<Alarm>
      reads this`nodes
    {
      AlarmsOf(nodes)
    }

    ghost function Repr(): set<object>
      reads this`nodes
    {
      set n | n in nodes
    }

    /** The list runs through the nodes, each once. */
    ghost predicate Linked()
      reads this, Repr()
    {
      && head == NodeAt(nodes, 0)
      && (forall i {:trigger nodes[i].next} :: 0 <= i < |nodes| ==> nodes[i].next == NodeAt(nodes, i + 1))
      && Distinct(nodes)
    }

    ghost predicate Valid()
      reads this, Repr()
    {
      Linked() && Sorted(Contents())
    }

    constructor ()
      ensures Valid() && Contents() == [] && nodes == []
    {
      head := null;
      nodes := [];
    }

    /** Link node a behind p, or at the front. */
    method Link(a: AlarmNode, p: AlarmNode?, ghost k: nat)
      requires Linked() && k <= |nodes| && a !in nodes && p == (if k == 0 then null else nodes[k - 1])
      modifies this, Repr(), a
      ensures Linked() && nodes == old(nodes)[..k] + [a] + old(nodes)[k..]
    {
      DistinctInsert(nodes, a, k);
      hide Distinct;
      if p == null {
        a.next := head;
        head := a;
      } else {
        a.next := p.next;
        p.next := a;
      }
      nodes := nodes[..k] + [a] + nodes[k..];
    }

    /** The node and its deadline, as alarm_set_relative computes it. */
    method Stamped(f: Fn, clock: TimeVal, ms: CInt) returns (a: AlarmNode)
      ensures fresh(a) && a.at == Deadline(clock, ms) && a.f == f
    {
      hide Int32;
      var sec, usec := clock.sec, Int32(clock.usec + Int32(ms * 1000));
      if usec >= 1000000 {
        sec := sec + usec / 1000000;
        usec := usec % 1000000;
      }
      a := new AlarmNode(Time(sec, usec), f);
    }

    /** The walk of alarm_set_relative: p is the last node that is not strictly later than t, or null. */
    method FindPlace(t: Stored) returns (p: AlarmNode?, ghost i: nat)
      requires Linked()
      ensures i == Place(Contents(), t) && i <= |nodes| && p == (if i == 0 then null else nodes[i - 1])
    {
      var c := head;
      p, i := null, 0;
      while c != null
        invariant 0 <= i <= |nodes|
        invariant c == NodeAt(nodes, i) && p == (if i == 0 then null else nodes[i - 1])
        invariant forall k :: 0 <= k < i ==> !Later(nodes[k].at, t)
        decreases |nodes| - i
      {
        if c.at.sec > t.sec {
          break;
        }
        if c.at.sec == t.sec && c.at.usec > t.usec {
          break;
        }
        p := c;
        c := c.next;
        i := i + 1;
      }
      PlaceIs(Contents(), t, i);
    }

    /** alarm_set_relative: link a new node behind every alarm that is not strictly later. */
    method SetRelative(f: Fn, clock: TimeVal, ms: CInt, mallocOk: bool) returns (r: int)
      requires Valid()
      modifies this, Repr()
      ensures Valid() && fresh(Repr() - old(Repr()))
      ensures r == if mallocOk then 0 else -1
      ensures Contents() == if mallocOk then Do(old(Contents()), Set(f, clock, ms)) else old(Contents())
    {
      if !mallocOk {
        return -1;
      }
      hide Sorted, Deadline, Inserted;
      var a := Stamped(f, clock, ms);
      LinkInPlace(a);
      return 0;
    }

    /** The linking half of alarm_set_relative. */
    method LinkInPlace(a: AlarmNode)
      requires Valid() && a !in nodes
      modifies this, Repr(), a
      ensures Valid() && Repr() == old(Repr()) + {a}
      ensures Contents() == Inserted(old(Contents()), Alarm(a.at, a.f))
    {
      hide Sorted;
      var p, i := FindPlace(a.at);
      InsertedSorted(Contents(), Alarm(a.at, a.f));
      AlarmsInserted(nodes, a, i);
      hide AlarmsOf;
      Link(a, p, i);
    }

    /** Unlink node c, which follows p or is the first. */
    method Unlink(p: AlarmNode?, c: AlarmNode, ghost k: nat)
      requires Linked() && k < |nodes| && nodes[k] == c && p == (if k == 0 then null else nodes[k - 1])
      modifies this, Repr()
      ensures Linked() && nodes == old(nodes)[..k] + old(nodes)[k + 1..] && c.next == old(c.next)
    {
      DistinctRemove(nodes, k);
      hide Distinct;
      if p != null {
        p.next := c.next;
      } else {
        head := c.next;
      }
      nodes := nodes[..k] + nodes[k + 1..];
    }

    /** alarm_cancel: unlink every node whose function is f, and say how many there were. */
    method CancelAll(f: Fn) returns (cancelled: nat)
      requires Valid()
      modifies this, Repr()
      ensures Valid() && Repr() <= old(Repr())
      ensures Contents() == Without(old(Contents()), {f})
      ensures cancelled == Pending(old(Contents()), f)
    {
      hide Sorted, Without, Pending, AlarmsOf, Scanned;
      cancelled := 0;
      var p: AlarmNode?, c := null, head;
      ghost var was, i, k := nodes, 0, 0;
      ScanStarts(was, f);
      while c != null
        invariant k <= i <= |was| && |nodes| - k == |was| - i && cancelled == i - k
        invariant Linked() && Repr() <= old(Repr()) && Scanned(nodes, was, k, i, f)
        invariant c == NodeAt(nodes, k) && p == (if k == 0 then null else nodes[k - 1])
        decreases |was| - i
      {
        ScanMoves(nodes, was, k, i, f);
        if c.f == f {
          Unlink(p, c, k);
          c := c.next;
          cancelled := cancelled + 1;
        } else {
          p := c;
          c := c.next;
          k := k + 1;
        }
        i := i + 1;
      }
      ScanEnds(nodes, was, k, i, f);
    }

    /** The head of the loop in alarm_process: unlink the first alarm if it is due. */
    method PopDue(now: TimeVal) returns (a: AlarmNode?)
      requires Valid()
      modifies this
      ensures Valid() && Repr() <= old(Repr())
      ensures a == null <==> DueCount(old(Contents()), now) == 0
      ensures a == null ==> Contents() == old(Contents())
      ensures a != null ==> old(Contents()) == [Alarm(a.at, a.f)] + Contents()
    {
      hide Sorted;
      SortedTail(Contents());
      a := head;
      if a == null {
        return;
      }
      if now.sec < a.at.sec {
        return null;
      }
      if now.sec == a.at.sec && now.usec < a.at.usec {
        return null;
      }
      head := a.next;
      nodes := nodes[1..];
      assert Contents() == old(Contents())[1..];
    }

    /** What one callback does to the list. */
    method Perform(ops: seq<Op>)
      requires Valid()
      modifies this, Repr()
      ensures Valid() && fresh(Repr() - old(Repr()))
      ensures Contents() == DoAll(old(Contents()), ops)
    {
      var i := 0;
      while i < |ops|
        invariant 0 <= i <= |ops| && Valid() && fresh(Repr() - old(Repr()))
        invariant Contents() == DoAll(old(Contents()), ops[..i])
      {
        match ops[i] {
          case Set(f, clock, ms) => var _ := SetRelative(f, clock, ms, true);
          case Cancel(f) => var _ := CancelAll(f);
        }
        assert ops[..i + 1][..i] == ops[..i];
        i := i + 1;
      }
      assert ops[..i] == ops;
    }

    /**
      alarm_process at time `now`, with callbacks that do what the script says, in every case in which it ends:
      AlarmTurns says when. If the deadlines that the callbacks store lie strictly after `now`, exactly the due
      alarms fire that no earlier callback cancelled, once each and in order.
     */
    method Process(now: TimeVal, script: Script) returns (ghost fired: seq<Alarm>)
      requires Valid() && Ends(Contents(), now, script)
      modifies this, Repr()
      ensures Valid() && fresh(Repr() - old(Repr()))
      ensures fired == FiredIn(old(Contents()), now, script, |fired|)
      ensures DueBefore(old(Contents()), now, script, |fired|)
      ensures Contents() == Turns(old(Contents()), now, script, |fired|) && NoneDue(Contents(), now)
      ensures Forward(script, now) ==>
        && fired == Fired(Due(old(Contents()), now), script)
        && Contents() == DoAll(NotDue(old(Contents()), now), Executed(script, |fired|))
    {
      hide Sorted, Forward, DueCount, DoAll, Fired, Executed, Turns, FiredIn, DueBefore, NotDue, Due, NoneDue;
      ghost var was := Contents();
      ghost var end := EndOf(was, now, script);
      fired := Loop(now, script, end);
      TurnsEnd(was, now, script, |fired|);
    }

    /** The loop itself; after `end` turns at the latest nothing is due. */
    method Loop(now: TimeVal, script: Script, ghost end: nat) returns (ghost fired: seq<Alarm>)
      requires Valid() && DueCount(Turns(Contents(), now, script, end), now) == 0
      modifies this, Repr()
      ensures Valid() && fresh(Repr() - old(Repr())) && DueCount(Contents(), now) == 0
      ensures fired == FiredIn(old(Contents()), now, script, |fired|)
      ensures DueBefore(old(Contents()), now, script, |fired|)
      ensures Contents() == Turns(old(Contents()), now, script, |fired|)
    {
      hide Sorted, DueCount, DoAll, Turns, FiredIn, DueBefore;
      ghost var was := Contents();
      TurnsStart(was, now, script);
      fired := [];
      var more, k := true, 0;
      while more
        invariant Valid() && fresh(Repr() - old(Repr())) && k == |fired| <= end
        invariant fired == FiredIn(was, now, script, k) && DueBefore(was, now, script, k)
        invariant Contents() == Turns(was, now, script, k)
        invariant !more ==> DueCount(Contents(), now) == 0
        decreases end - k, more
      {
        ghost var q := Contents();
        more := Turn(now, script(k));
        if more {
          TurnsNext(was, now, script, k);
          fired := fired + [q[0]];
          k := k + 1;
        }
      }
    }

    /** One turn of the loop: the first alarm, if it is due, goes and its callback runs. */
    method Turn(now: TimeVal, ops: seq<Op>) returns (more: bool)
      requires Valid()
      modifies this, Repr()
      ensures Valid() && fresh(Repr() - old(Repr()))
      ensures more <==> DueCount(old(Contents()), now) > 0
      ensures Contents() == if more then DoAll(old(Contents())[1..], ops) else old(Contents())
    {
      hide Sorted, DueCount, DoAll;
      ghost var q := Contents();
      var a := PopDue(now);
      if a == null {
        return false;
      }
      assert q[1..] == Contents();
      Perform(ops);
      return true;
    }

    /** alarm_get_time_until_next */
    method TimeUntilNext(now: TimeVal) returns (delay: int)
      requires Valid()
      ensures Contents() == [] ==> delay == 0x7fffffff
      ensures Contents() != [] ==> delay == Int32(Delta(Contents()[0].at, now))
      ensures delay < 1 <==> Contents() != [] && Wakes(Contents()[0].at, now)
    {
      if head == null {
        return 0x7fffffff;
      }
      DueHeadWakesTheLoop(head.at, now);
      return Int32((head.at.sec - now.sec) * 1000 + Quot(Int32(head.at.usec - now.usec), 1000));
    }
  }
}
