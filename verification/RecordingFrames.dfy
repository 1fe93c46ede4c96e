/**
  The recording queue of libcamera/cameraHal.cpp: frames copied for the client wait in sentFrames until the
  client releases them, and three thresholds keep the queue from growing when the client is slow.
 */
module RecordingFrames {
  import opened Options

  const PREVIEW_THROTTLE_THRESHOLD := 6
  const SOFT_DROP_THRESHOLD := 12
  const HARD_DROP_THRESHOLD := 15

  /** A camera_memory_t: its own address and that of its data. */
  datatype Frame = Frame(mem: nat, data: nat)

  datatype Ledger = Ledger(
    pushed: multiset<Frame>,  // frames ever queued
    released: multiset<Frame>,
    arrived: multiset<nat>,   // hardware buffers that came in
    returned: multiset<nat>)  // and those given back

  datatype State = State(
    sent: seq<Frame>,
    throttle: bool,
    previousDropped: bool,
    dropped: nat,  // since recording started
    ledger: Ledger)

  function CountIn(l: Ledger, buffer: nat): Ledger {
    l.(arrived := l.arrived + multiset{buffer})
  }

  function CountBack(l: Ledger, buffer: nat): Ledger {
    l.(returned := l.returned + multiset{buffer})
  }

  function CountPush(l: Ledger, f: Frame): Ledger {
    l.(pushed := l.pushed + multiset{f})
  }

  function CountReleased(l: Ledger, fs: multiset<Frame>): Ledger {
    l.(released := l.released + fs)
  }

  datatype Event =
    | Arrives(buffer: nat, copy: Option<Frame>)  // copy: None if no client listens or has memory
    | Release(data: nat)                         // camera_release_recording_frame
    | Flush                                      // releaseCameraFrames
    | StartRecording
    | StopRecording

  predicate Drops(s: State) {
    (!s.previousDropped && |s.sent| > SOFT_DROP_THRESHOLD) || |s.sent| > HARD_DROP_THRESHOLD
  }

  /** The incoming buffer is counted, and the preview throttled or not. */
  function Counted(s: State, buffer: nat): State {
    s.(throttle := |s.sent| > PREVIEW_THROTTLE_THRESHOLD, ledger := CountIn(s.ledger, buffer))
  }

  function DroppedOne(s: State, buffer: nat): State {
    s.(previousDropped := true, dropped := s.dropped + 1, ledger := CountBack(s.ledger, buffer))
  }

  function SentOne(s: State, buffer: nat, copy: Frame): State {
    s.(sent := s.sent + [copy], previousDropped := false, ledger := CountBack(CountPush(s.ledger, copy), buffer))
  }

  function Arrived(s: State, buffer: nat, copy: Option<Frame>): State {
    if Drops(s) then DroppedOne(Counted(s, buffer), buffer)
    else if copy.Some? then SentOne(Counted(s, buffer), buffer, copy.value)
    else Counted(s, buffer)
  }

  /** The first frame with this data, or the length of the queue. */
  function IndexOf(q: seq<Frame>, data: nat): (i: nat)
    ensures i <= |q| && (i < |q| ==> q[i].data == data)
    ensures forall k :: 0 <= k < i ==> q[k].data != data
  {
    if q == [] || q[0].data == data then 0 else 1 + IndexOf(q[1..], data)
  }

  /** NULL matches no frame. */
  function Released(s: State, data: nat): State {
    var i := IndexOf(s.sent, data);
    if data != 0 && i < |s.sent| then
      s.(sent := s.sent[..i] + s.sent[i + 1..], ledger := CountReleased(s.ledger, multiset{s.sent[i]}))
    else s
  }

  function Flushed(s: State): State {
    s.(sent := [], ledger := CountReleased(s.ledger, multiset(s.sent)))
  }

  function Started(s: State): State {
    s.(dropped := 0, previousDropped := false, throttle := false)
  }

  function Next(s: State, e: Event): State {
    match e
    case Arrives(buffer, copy) => Arrived(s, buffer, copy)
    case Release(data) => Released(s, data)
    case Flush => Flushed(s)
    case StartRecording => Started(s)
    case StopRecording => s.(throttle := false)
  }

  /** The state after the events of a run. */
  function Run(s: State, es: seq<Event>): State {
    if es == [] then s else Next(Run(s, es[..|es| - 1]), es[|es| - 1])
  }

  // ----- what each event does, field by field -----

  /**
    A frame is dropped when more than 15 wait, or more than 12 unless the one before was dropped; the preview is
    throttled when more than 6 wait. A dropped or copied frame's buffer goes back at once.
   */
  lemma ArrivalDoes(s: State, buffer: nat, copy: Option<Frame>)
    ensures var t, n := Next(s, Arrives(buffer, copy)), |s.sent|;
      && (t.throttle <==> n > 6)
      && t.ledger.arrived == s.ledger.arrived + multiset{buffer} && t.ledger.released == s.ledger.released
      && if n > 15 || (n > 12 && !s.previousDropped) then
           && t.sent == s.sent && t.previousDropped && t.dropped == s.dropped + 1
           && t.ledger.pushed == s.ledger.pushed && t.ledger.returned == s.ledger.returned + multiset{buffer}
         else if copy.Some? then
           && t.sent == s.sent + [copy.value] && !t.previousDropped && t.dropped == s.dropped
           && t.ledger.pushed == s.ledger.pushed + multiset{copy.value}
           && t.ledger.returned == s.ledger.returned + multiset{buffer}
         else
           && t.sent == s.sent && t.previousDropped == s.previousDropped && t.dropped == s.dropped
           && t.ledger.pushed == s.ledger.pushed && t.ledger.returned == s.ledger.returned
  {
  }

  /** The first waiting frame with the data is released; NULL and unknown data release none. */
  lemma ReleaseDoes(s: State, data: nat, i: nat)
    requires i <= |s.sent| && forall k :: 0 <= k < i ==> s.sent[k].data != data
    ensures var t := Next(s, Release(data));
      && (data == 0 || i == |s.sent| ==> t == s)
      && (data != 0 && i < |s.sent| && s.sent[i].data == data ==>
            && t.sent == s.sent[..i] + s.sent[i + 1..] && t.ledger.released == s.ledger.released + multiset{s.sent[i]}
            && t.throttle == s.throttle && t.previousDropped == s.previousDropped && t.dropped == s.dropped
            && t.ledger.pushed == s.ledger.pushed && t.ledger.returned == s.ledger.returned)
  {
  }

  /** A flush releases what waits; starting and stopping a recording reset the flags. */
  lemma OthersDo(s: State)
    ensures var t := Next(s, Flush);
      t.sent == [] && t.ledger.released == s.ledger.released + multiset(s.sent)
      && t.throttle == s.throttle && t.previousDropped == s.previousDropped && t.dropped == s.dropped
      && t.ledger.pushed == s.ledger.pushed && t.ledger.returned == s.ledger.returned
    ensures var t := Next(s, StartRecording);
      t.sent == s.sent && t.ledger == s.ledger && t.dropped == 0 && !t.previousDropped && !t.throttle
    ensures var t := Next(s, StopRecording); t.(throttle := s.throttle) == s && !t.throttle
  {
  }

  // ----- every run -----

  lemma NextQueue(s: State, e: Event)
    ensures |Next(s, e).sent| <= |s.sent| || |Next(s, e).sent| <= HARD_DROP_THRESHOLD + 1
  {
  }

  lemma NextDrops(s: State, e: Event)
    ensures e.Arrives? && Drops(s) ==> Next(s, e).previousDropped && Next(s, e).dropped == s.dropped + 1
    ensures e.Arrives? && !Drops(s) ==>
      Next(s, e).dropped == s.dropped && (Next(s, e).previousDropped ==> s.previousDropped)
    ensures !e.Arrives? && !e.StartRecording? ==>
      Next(s, e).previousDropped == s.previousDropped && Next(s, e).dropped == s.dropped
  {
  }

  ghost predicate Taken(s: State, e: Event) {
    e.Arrives? ==> Drops(s) || e.copy.Some?
  }

  lemma NextReturns(s: State, e: Event)
    ensures Next(s, e).ledger.arrived == if e.Arrives? then s.ledger.arrived + multiset{e.buffer} else s.ledger.arrived
    ensures Next(s, e).ledger.returned == if e.Arrives? && Taken(s, e) then s.ledger.returned + multiset{e.buffer}
      else s.ledger.returned
  {
  }

  /** The queue never grows past HARD_DROP_THRESHOLD + 1, unless it was longer to begin with. */
  lemma {:induction false} QueueBounded(s: State, es: seq<Event>)
    ensures |Run(s, es).sent| <= if |s.sent| > HARD_DROP_THRESHOLD + 1 then |s.sent| else HARD_DROP_THRESHOLD + 1
  {
    hide Next;
    if es != [] {
      QueueBounded(s, es[..|es| - 1]);
      NextQueue(Run(s, es[..|es| - 1]), es[|es| - 1]);
    }
  }

  lemma {:induction false} DropRemembered(s: State, es: seq<Event>, i: nat, j: nat)
    requires i < j <= |es| && es[i].Arrives? && Drops(Run(s, es[..i]))
    requires forall k :: i < k < j ==> !es[k].Arrives? && !es[k].StartRecording?
    ensures Run(s, es[..j]).previousDropped
  {
    hide Next, Drops;
    assert es[..j][..j - 1] == es[..j - 1];
    NextDrops(Run(s, es[..j - 1]), es[j - 1]);
    if j > i + 1 {
      DropRemembered(s, es, i, j - 1);
    }
  }

  /** Two incoming frames in a row are both dropped only if more than HARD_DROP_THRESHOLD frames wait at the second. */
  lemma ConsecutiveDropsMeanHardThreshold(s: State, es: seq<Event>, i: nat, j: nat)
    requires i < j < |es| && es[i].Arrives? && es[j].Arrives?
    requires forall k :: i < k < j ==> !es[k].Arrives? && !es[k].StartRecording?
    requires Drops(Run(s, es[..i]))
    ensures Drops(Run(s, es[..j])) <==> |Run(s, es[..j]).sent| > HARD_DROP_THRESHOLD
  {
    DropRemembered(s, es, i, j);
  }

  function Arrivals(es: seq<Event>): nat {
    if es == [] then 0 else Arrivals(es[..|es| - 1]) + if es[|es| - 1].Arrives? then 1 else 0
  }

  /** While the hard threshold is not passed, at most every second frame of a recording is dropped. */
  lemma {:induction false} AtMostHalfDropped(s: State, es: seq<Event>)
    requires forall k :: 0 <= k < |es| ==> !es[k].StartRecording?
    requires forall k :: 0 <= k < |es| && es[k].Arrives? ==> |Run(Started(s), es[..k]).sent| <= HARD_DROP_THRESHOLD
    ensures var r := Run(Started(s), es);
      2 * r.dropped <= Arrivals(es) + if r.previousDropped then 1 else 0
  {
    if es != [] {
      var most := es[..|es| - 1];
      hide Next;
      assert forall k :: 0 <= k < |most| ==> most[..k] == es[..k];
      AtMostHalfDropped(s, most);
      NextDrops(Run(Started(s), most), es[|most|]);
    }
  }

  // ----- what happens to every frame -----

  lemma TakeOne(q: seq<Frame>, i: nat)
    requires i < |q|
    ensures multiset(q) == multiset(q[..i] + q[i + 1..]) + multiset{q[i]}
  {
    assert q == q[..i] + [q[i]] + q[i + 1..];
  }

  /** The frames queued are those still waiting and those released. */
  ghost predicate Conserved(s: State) {
    s.ledger.pushed == multiset(s.sent) + s.ledger.released
  }

  lemma ArrivalConserves(s: State, buffer: nat, copy: Option<Frame>)
    requires Conserved(s)
    ensures Conserved(Arrived(s, buffer, copy))
  {
    if copy.Some? {
      assert multiset(s.sent + [copy.value]) == multiset(s.sent) + multiset{copy.value};
    }
  }

  lemma ReleaseConserves(s: State, data: nat)
    requires Conserved(s)
    ensures Conserved(Released(s, data))
  {
    hide IndexOf;
    ReleasedParts(s, data);
    hide Released;
    var i := IndexOf(s.sent, data);
    if data != 0 && i < |s.sent| {
      TakeOne(s.sent, i);
      MoveOne(s.ledger.pushed, multiset(s.sent), multiset(s.sent[..i] + s.sent[i + 1..]),
        s.ledger.released, multiset{s.sent[i]});
    }
  }

  lemma ReleasedParts(s: State, data: nat)
    ensures var i, t := IndexOf(s.sent, data), Released(s, data);
      if data != 0 && i < |s.sent| then
        && t.sent == s.sent[..i] + s.sent[i + 1..] && t.ledger.pushed == s.ledger.pushed
        && t.ledger.released == s.ledger.released + multiset{s.sent[i]}
      else t == s
  {
  }

  lemma MoveOne(pushed: multiset<Frame>, waiting: multiset<Frame>, left: multiset<Frame>, released: multiset<Frame>,
                one: multiset<Frame>)
    requires pushed == waiting + released && waiting == left + one
    ensures pushed == left + (released + one)
  {
  }

  lemma NextConserves(s: State, e: Event)
    requires Conserved(s)
    ensures Conserved(Next(s, e))
  {
    hide Arrived, Released;
    match e {
      case Arrives(buffer, copy) => ArrivalConserves(s, buffer, copy);
      case Release(data) => ReleaseConserves(s, data);
      case _ =>
    }
  }

  lemma {:induction false} RunConserves(s: State, es: seq<Event>)
    requires Conserved(s)
    ensures Conserved(Run(s, es))
  {
    if es != [] {
      RunConserves(s, es[..|es| - 1]);
      NextConserves(Run(s, es[..|es| - 1]), es[|es| - 1]);
    }
  }

  /** A frame that was queued once is released at most once, and has been released exactly when it no longer waits. */
  lemma ReleasedExactlyOnce(s: State, es: seq<Event>, f: Frame)
    requires Conserved(s) && Run(s, es).ledger.pushed[f] == 1
    ensures Run(s, es).ledger.released[f] <= 1
    ensures Run(s, es).ledger.released[f] == 1 <==> f !in Run(s, es).sent
  {
    RunConserves(s, es);
    var r := Run(s, es);
    assert r.ledger.pushed[f] == multiset(r.sent)[f] + r.ledger.released[f];
    assert f in r.sent <==> f in multiset(r.sent);
  }

  /** After a flush everything ever queued has been released. */
  lemma FlushReleasesAll(s: State, es: seq<Event>)
    requires Conserved(s)
    ensures var r := Run(s, es + [Flush]); r.sent == [] && r.ledger.released == r.ledger.pushed
  {
    RunConserves(s, es + [Flush]);
    assert (es + [Flush])[..|es|] == es;
  }

  /** The client releases a frame by its data; if no two waiting frames share their data, it is that frame. */
  lemma ReleaseFinds(s: State, i: nat)
    requires i < |s.sent| && s.sent[i].data != 0
    requires forall k :: 0 <= k < |s.sent| && k != i ==> s.sent[k].data != s.sent[i].data
    ensures Released(s, s.sent[i].data).ledger.released == s.ledger.released + multiset{s.sent[i]}
    ensures Released(s, s.sent[i].data).sent == s.sent[..i] + s.sent[i + 1..]
  {
    assert IndexOf(s.sent, s.sent[i].data) == i;
  }

  lemma {:induction false} ReturnedFromArrived(s: State, es: seq<Event>)
    requires s.ledger.arrived == s.ledger.returned
    ensures Run(s, es).ledger.returned <= Run(s, es).ledger.arrived
    ensures Run(s, es).ledger.returned == Run(s, es).ledger.arrived <==>
      forall k :: 0 <= k < |es| ==> Taken(Run(s, es[..k]), es[k])
  {
    hide Next, Taken;
    if es != [] {
      var n := |es| - 1;
      var most, r := es[..n], Run(s, es[..n]);
      ReturnedFromArrived(s, most);
      TakenBefore(s, es);
      NextReturns(r, es[n]);
      if es[n].Arrives? {
        OneMore(r.ledger.returned, r.ledger.arrived, es[n].buffer);
      } else {
        NotTaken(r, es[n]);
      }
    }
  }

  /** A frame that is neither dropped nor copied: the camera does not get its buffer back. */
  lemma BufferIsKept()
    ensures var none := Ledger(multiset{}, multiset{}, multiset{}, multiset{});
      var l := Next(State([], false, false, 0, none), Arrives(7, None)).ledger;
      l.arrived == multiset{7} && l.returned == multiset{}
  {
  }

  lemma NotTaken(s: State, e: Event)
    ensures !e.Arrives? ==> Taken(s, e)
  {
  }

  lemma TakenBefore(s: State, es: seq<Event>)
    requires es != []
    ensures var n := |es| - 1;
      (forall k :: 0 <= k < |es| ==> Taken(Run(s, es[..k]), es[k])) <==>
        Taken(Run(s, es[..n]), es[n]) && forall k :: 0 <= k < n ==> Taken(Run(s, es[..n][..k]), es[..n][k])
  {
    hide Taken, Run;
    var n := |es| - 1;
    assert forall k :: 0 <= k < n ==> es[..n][..k] == es[..k];
    if forall k :: 0 <= k < n ==> Taken(Run(s, es[..n][..k]), es[..n][k]) {
      forall k | 0 <= k < n
        ensures Taken(Run(s, es[..k]), es[k])
      {
        assert Taken(Run(s, es[..n][..k]), es[..n][k]);
      }
    }
  }

  lemma OneMore(a: multiset<nat>, b: multiset<nat>, x: nat)
    requires a <= b
    ensures a + multiset{x} <= b + multiset{x} && a <= b + multiset{x}
    ensures a + multiset{x} == b + multiset{x} <==> a == b
    ensures a != b + multiset{x}
  {
    SameWithOneMore(a, b, x);
    assert a[x] <= b[x] < (b + multiset{x})[x];
  }

  lemma SameWithOneMore(a: multiset<nat>, b: multiset<nat>, x: nat)
    ensures a + multiset{x} == b + multiset{x} <==> a == b
  {
    if a + multiset{x} == b + multiset{x} {
      assert a == (a + multiset{x}) - multiset{x};
      assert b == (b + multiset{x}) - multiset{x};
    }
  }

  // ----- the device -----

  class CameraDevice {
    var sentFrames: seq<Frame>
    var throttlePreview: bool
    var previousVideoFrameDropped: bool
    var numVideoFramesDropped: nat
    ghost var ledger: Ledger

    ghost function View(): State
      reads this
    {
      State(sentFrames, throttlePreview, previousVideoFrameDropped, numVideoFramesDropped, ledger)
    }

    constructor ()
      ensures View() == State([], false, false, 0, Ledger(multiset{}, multiset{}, multiset{}, multiset{}))
    {
      sentFrames, throttlePreview, previousVideoFrameDropped, numVideoFramesDropped := [], false, false, 0;
      ledger := Ledger(multiset{}, multiset{}, multiset{}, multiset{});
    }

    /** dataTimestampCallback; `memory` is what the client can provide. */
    method DataTimestamp(buffer: nat, listening: bool, memory: Option<Frame>)
      modifies this
      ensures View() == Arrived(old(View()), buffer, if listening then memory else None)
    {
      hide CountIn, CountBack, CountPush;
      ledger := CountIn(ledger, buffer);
      var framesSent := |sentFrames|;
      if framesSent > PREVIEW_THROTTLE_THRESHOLD {
        throttlePreview := true;
        if (!previousVideoFrameDropped && framesSent > SOFT_DROP_THRESHOLD) || framesSent > HARD_DROP_THRESHOLD {
          previousVideoFrameDropped := true;
          numVideoFramesDropped := numVideoFramesDropped + 1;
          ledger := CountBack(ledger, buffer);
          return;
        }
      } else {
        throttlePreview := false;
      }
      if listening && memory.Some? {
        sentFrames := sentFrames + [memory.value];
        ledger := CountBack(CountPush(ledger, memory.value), buffer);
        if previousVideoFrameDropped {
          previousVideoFrameDropped := false;
        }
      }
    }

    /** camera_release_recording_frame */
    method ReleaseRecordingFrame(data: nat)
      modifies this
      ensures View() == Next(old(View()), Release(data))
    {
      if data != 0 {
        var it := 0;
        while it < |sentFrames|
          modifies {}
          invariant it <= |sentFrames| && forall k :: 0 <= k < it ==> sentFrames[k].data != data
        {
          if sentFrames[it].data == data {
            break;
          }
          it := it + 1;
        }
        if it < |sentFrames| {
          ledger := CountReleased(ledger, multiset{sentFrames[it]});
          sentFrames := sentFrames[..it] + sentFrames[it + 1..];
        }
      }
    }

    /** releaseCameraFrames, run when video messages are disabled and when the camera is released */
    method ReleaseCameraFrames()
      modifies this
      ensures View() == Next(old(View()), Flush)
    {
      var it := 0;
      while it < |sentFrames|
        modifies this`ledger
        invariant it <= |sentFrames| && ledger == CountReleased(old(ledger), multiset(sentFrames[..it]))
      {
        assert sentFrames[..it + 1] == sentFrames[..it] + [sentFrames[it]];
        ledger := CountReleased(ledger, multiset{sentFrames[it]});
        it := it + 1;
      }
      assert sentFrames[..it] == sentFrames;
      sentFrames := [];
    }

    method StartRecording()
      modifies this
      ensures View() == Next(old(View()), Event.StartRecording)
    {
      numVideoFramesDropped := 0;
      previousVideoFrameDropped := false;
      throttlePreview := false;
    }

    method StopRecording()
      modifies this
      ensures View() == Next(old(View()), Event.StopRecording)
    {
      throttlePreview := false;
    }
  }
}
