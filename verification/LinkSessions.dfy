/**
  The native side that drives the listener callbacks: one `LinkSession` per socket, whose
  handlers run one at a time on its strand.  The registry takes on trust that a session's
  first frame comes at most once and before its close; here is exactly when that holds, and
  exactly when a channel goes down without the close that is promised for it.
 */
module LinkSessions {
  import opened Words
  import opened Registry

  /**
    The first-frame timer.  Once it has expired its handler is queued on the strand, and
    cancelling it comes too late.
   */
  datatype Timer = Armed | Expired | Off

  /** The fields of `LinkSession` and of its channel that decide which calls are made. */
  datatype Link = Link(stack: Option<Handle>, isShutdown: bool, channelDown: bool, timer: Timer)

  /** A call into the listener; `answer` is the session it accepted, if it accepted one. */
  datatype Call =
    | OnFirstFrame(src: Uint16, answer: Option<Handle>)
    | OnConnectionClose

  /** A call into the master session bound to the link. */
  datatype StackCall = LowerLayerUp | Deliver(src: Uint16) | LowerLayerDown | BeginShutdown

  /** A received frame, and what the listener answers should it be asked about it. */
  datatype Frame = Frame(src: Uint16, answer: Option<Handle>)

  const FRESH := Link(None, false, false, Armed)

  /** The link after a handler, and the calls the handler made. */
  datatype Outcome = Outcome(link: Link, calls: seq<Call>, heard: seq<StackCall>) {
    function Then(next: Outcome): Outcome {
      Outcome(next.link, calls + next.calls, heard + next.heard)
    }
  }

  function Cancelled(l: Link): Link {
    if l.timer == Armed then l.(timer := Off) else l
  }

  function Shutdown(l: Link): Outcome {
    if l.isShutdown then Outcome(l, [], [])
    else
      Outcome(
        Cancelled(l).(isShutdown := true, channelDown := true),
        [OnConnectionClose],
        if l.stack.Some? then [LowerLayerDown, BeginShutdown] else [])
  }

  function OnFrame(l: Link, f: Frame): Outcome {
    if l.stack.Some? then Outcome(l, [], [Deliver(f.src)])
    else if f.answer.Some? then
      Outcome(Cancelled(l).(stack := f.answer), [OnFirstFrame(f.src, f.answer)], [LowerLayerUp, Deliver(f.src)])
    else Outcome(Cancelled(l), [OnFirstFrame(f.src, None)], []).Then(Shutdown(Cancelled(l)))
  }

  /** One completed read can hold several frames; the parser pushes them all, come what may. */
  function OnFrames(l: Link, frames: seq<Frame>): Outcome
    decreases |frames|
  {
    if frames == [] then Outcome(l, [], [])
    else
      var first := OnFrame(l, frames[0]);
      first.Then(OnFrames(first.link, frames[1..]))
  }

  /** The channel passes a completion on only while it is not shutting down. */
  function OnRead(l: Link, frames: seq<Frame>): Outcome {
    if l.channelDown then Outcome(l, [], []) else OnFrames(l, frames)
  }

  function OnError(l: Link): Outcome {
    if l.channelDown then Outcome(l, [], []) else Shutdown(l)
  }

  /** Time passes: a timer still armed goes off. */
  function OnExpiry(l: Link): Outcome {
    Outcome(if l.timer == Armed then l.(timer := Expired) else l, [], [])
  }

  /** The queued timer handler, if there is one: it closes the channel and makes no call at all. */
  function OnTimeout(l: Link): Outcome {
    Outcome(if l.timer == Expired then l.(channelDown := true, timer := Off) else l, [], [])
  }

  /** The same handlers on the object whose fields they update. */
  class LinkSession {
    var stack: Option<Handle>
    var isShutdown: bool
    var channelDown: bool
    var timer: Timer
    ghost var calls: seq<Call>
    ghost var heard: seq<StackCall>

    ghost function View(): Link
      reads this
    {
      Link(stack, isShutdown, channelDown, timer)
    }

    /** All that became of the link so far. */
    ghost function Total(): Outcome
      reads this
    {
      Outcome(View(), calls, heard)
    }

    constructor ()
      ensures View() == FRESH && calls == [] && heard == []
    {
      stack, isShutdown, channelDown, timer, calls, heard := None, false, false, Armed, [], [];
    }

    method CancelTimer()
      modifies this`timer
      ensures View() == Cancelled(old(View()))
    {
      if timer == Armed {
        timer := Off;
      }
    }

    method ShutdownImpl()
      modifies this
      ensures Total() == old(Total()).Then(Shutdown(old(View())))
    {
      if isShutdown {
        return;
      }
      isShutdown := true;
      calls := calls + [OnConnectionClose];
      if stack.Some? {
        heard := heard + [LowerLayerDown];
        heard := heard + [BeginShutdown];
      }
      CancelTimer();
      channelDown := true;
    }

    method PushFrame(f: Frame)
      modifies this
      ensures Total() == old(Total()).Then(OnFrame(old(View()), f))
    {
      if stack.Some? {
        heard := heard + [Deliver(f.src)];
      } else {
        CancelTimer();
        calls := calls + [OnFirstFrame(f.src, f.answer)];
        stack := f.answer;
        if stack.Some? {
          heard := heard + [LowerLayerUp];
          heard := heard + [Deliver(f.src)];
        } else {
          ShutdownImpl();
        }
      }
    }

    /** A completed read, failed or with the frames it brought; a failed write ends like a failed read. */
    method OnReadComplete(failed: bool, frames: seq<Frame>)
      modifies this
      ensures Total() == old(Total()).Then(if failed then OnError(old(View())) else OnRead(old(View()), frames))
      ensures failed && !old(channelDown) && !old(isShutdown) ==>
        channelDown && isShutdown && calls == old(calls) + [OnConnectionClose]
      ensures old(channelDown) ==> Total() == old(Total())
    {
      if channelDown {
        return;
      }
      if failed {
        ShutdownImpl();
        return;
      }
      var n := 0;
      while n < |frames|
        invariant n <= |frames|
        invariant Total().Then(OnFrames(View(), frames[n..])) == old(Total()).Then(OnFrames(old(View()), frames))
      {
        OneFrameMore(Total(), frames[n..]);
        assert frames[n..][1..] == frames[n + 1..];
        PushFrame(frames[n]);
        n := n + 1;
      }
      assert Total().Then(OnFrames(View(), [])) == Total();
    }

    /** The timer's handler, if it is queued: the channel goes down, and nobody is called. */
    method OnFirstFrameTimeout()
      modifies this
      ensures Total() == old(Total()).Then(OnTimeout(old(View())))
      ensures calls == old(calls) && heard == old(heard) && isShutdown == old(isShutdown)
      ensures old(timer) == Expired ==> channelDown
    {
      if timer == Expired {
        channelDown := true;
        timer := Off;
      }
    }
  }

  lemma ThenAgain(a: Outcome, b: Outcome, c: Outcome)
    ensures a.Then(b.Then(c)) == a.Then(b).Then(c)
  {
    assert a.calls + (b.calls + c.calls) == a.calls + b.calls + c.calls;
    assert a.heard + (b.heard + c.heard) == a.heard + b.heard + c.heard;
  }

  lemma OneFrameMore(done: Outcome, frames: seq<Frame>)
    requires frames != []
    ensures var next := OnFrame(done.link, frames[0]);
            done.Then(OnFrames(done.link, frames)) == done.Then(next).Then(OnFrames(next.link, frames[1..]))
  {
    var next := OnFrame(done.link, frames[0]);
    ThenAgain(done, next, OnFrames(next.link, frames[1..]));
  }

  // ------------------------------- one session -------------------------------

  datatype Handler =
    | Read(frames: seq<Frame>)
    | Error                      // a failed read or write
    | Stop                       // a posted BeginShutdown, or the manager shutting down
    | Expire                     // the first-frame timer goes off
    | Timeout                    // its handler gets its turn

  function React(l: Link, e: Handler): Outcome {
    match e
    case Read(frames) => OnRead(l, frames)
    case Error => OnError(l)
    case Stop => Shutdown(l)
    case Expire => OnExpiry(l)
    case Timeout => OnTimeout(l)
  }

  function Lifetime(events: seq<Handler>): Outcome {
    if events == [] then Outcome(FRESH, [], [])
    else
      var before := Lifetime(events[..|events| - 1]);
      before.Then(React(before.link, events[|events| - 1]))
  }

  predicate AllAccepted(frames: seq<Frame>) {
    forall i :: 0 <= i < |frames| ==> frames[i].answer.Some?
  }

  predicate Accepting(e: Handler) {
    e.Read? ==> AllAccepted(e.frames)
  }

  function Delivered(frames: seq<Frame>): seq<StackCall> {
    if frames == [] then [] else [Deliver(frames[0].src)] + Delivered(frames[1..])
  }

  lemma {:induction false} StackedFrames(l: Link, frames: seq<Frame>)
    requires l.stack.Some?
    ensures OnFrames(l, frames) == Outcome(l, [], Delivered(frames))
  {
    if frames != [] {
      StackedFrames(l, frames[1..]);
    }
  }

  lemma AcceptedFrames(l: Link, frames: seq<Frame>)
    requires l.stack.None? && frames != [] && frames[0].answer.Some?
    ensures OnFrames(l, frames)
         == Outcome(
              Cancelled(l).(stack := frames[0].answer),
              [OnFirstFrame(frames[0].src, frames[0].answer)],
              [LowerLayerUp] + Delivered(frames))
  {
    StackedFrames(OnFrame(l, frames[0]).link, frames[1..]);
    assert [LowerLayerUp, Deliver(frames[0].src)] + Delivered(frames[1..])
        == [LowerLayerUp] + ([Deliver(frames[0].src)] + Delivered(frames[1..]));
  }

  /** However a read ends, a link that had shut down stays shut down. */
  lemma {:induction false} FramesStayDown(l: Link, frames: seq<Frame>)
    requires l.isShutdown && l.channelDown
    ensures OnFrames(l, frames).link.isShutdown && OnFrames(l, frames).link.channelDown
    ensures OnConnectionClose !in OnFrames(l, frames).calls
    decreases |frames|
  {
    if frames != [] {
      FramesStayDown(OnFrame(l, frames[0]).link, frames[1..]);
    }
  }

  /** Whatever one read of an open link brings, it leaves the link open or closes it and says so. */
  lemma FramesCloseAloud(l: Link, frames: seq<Frame>)
    requires !l.isShutdown && !l.channelDown && (l.stack.Some? ==> l.timer != Armed)
    ensures var o := OnFrames(l, frames);
            && o.link.channelDown == o.link.isShutdown
            && (o.link.isShutdown <==> OnConnectionClose in o.calls)
            && (o.link.timer == Armed ==> l.timer == Armed)
            && (o.link.timer == Expired <==> l.timer == Expired)
            && (frames != [] ==> o.link.timer != Armed)
            && (frames == [] ==> o == Outcome(l, [], []))
  {
    if l.stack.Some? {
      StackedFrames(l, frames);
    } else if frames != [] && frames[0].answer.Some? {
      AcceptedFrames(l, frames);
    } else if frames != [] {
      FramesStayDown(OnFrame(l, frames[0]).link, frames[1..]);
      FramesKeepTimer(OnFrame(l, frames[0]).link, frames[1..]);
    }
  }

  lemma {:induction false} FramesKeepTimer(l: Link, frames: seq<Frame>)
    requires l.timer != Armed
    ensures OnFrames(l, frames).link.timer == l.timer
    decreases |frames|
  {
    if frames != [] {
      FramesKeepTimer(OnFrame(l, frames[0]).link, frames[1..]);
    }
  }

  // --------------------- the close that is not announced ---------------------

  /** A link that has shut down has its channel down, and the timer runs only while nothing has touched the link. */
  ghost predicate Sound(o: Outcome) {
    && (o.link.isShutdown <==> OnConnectionClose in o.calls)
    && (o.link.isShutdown ==> o.link.channelDown)
    && (o.link.stack.Some? || o.link.channelDown ==> o.link.timer != Armed)
  }

  lemma SoundKept(o: Outcome, e: Handler)
    requires Sound(o)
    ensures Sound(o.Then(React(o.link, e)))
    ensures o.link.isShutdown ==> React(o.link, e).link.isShutdown
    ensures o.link.channelDown && !o.link.isShutdown && e != Stop ==> !React(o.link, e).link.isShutdown
  {
    if e.Read? && !o.link.channelDown {
      FramesCloseAloud(o.link, e.frames);
    }
  }

  lemma {:induction false} AlwaysSound(events: seq<Handler>)
    ensures Sound(Lifetime(events))
  {
    if events != [] {
      AlwaysSound(events[..|events| - 1]);
      SoundKept(Lifetime(events[..|events| - 1]), events[|events| - 1]);
    }
  }

  /** The handler leaves no timer armed. */
  predicate Settles(e: Handler) {
    match e
    case Read(frames) => frames != []
    case Timeout => false
    case _ => true
  }

  /** The timer goes off at `j`: nothing has cancelled it before. */
  ghost predicate ExpiresAt(events: seq<Handler>, j: int) {
    0 <= j < |events| && events[j] == Expire && forall i :: 0 <= i < j ==> !Settles(events[i])
  }

  /** The timer went off, and its handler has not run. */
  ghost predicate HandlerQueued(events: seq<Handler>) {
    exists j :: ExpiresAt(events, j) && forall k :: j < k < |events| ==> events[k] != Timeout
  }

  lemma TimerStep(o: Outcome, e: Handler)
    requires Sound(o)
    ensures
      var timer := o.Then(React(o.link, e)).link.timer;
      && (timer == Armed <==> o.link.timer == Armed && !Settles(e))
      && (timer == Expired <==> (o.link.timer == Expired && e != Timeout) || (o.link.timer == Armed && e == Expire))
  {
    if e.Read? && !o.link.channelDown {
      FramesCloseAloud(o.link, e.frames);
    }
  }

  lemma QueuedWitness(events: seq<Handler>)
    requires events != []
    ensures
      var init, e := events[..|events| - 1], events[|events| - 1];
      HandlerQueued(events)
      <==> (HandlerQueued(init) && e != Timeout) || (e == Expire && forall i :: 0 <= i < |init| ==> !Settles(init[i]))
  {
    var n := |events| - 1;
    var init := events[..n];
    assert forall i :: 0 <= i < n ==> init[i] == events[i];
    assert forall j :: 0 <= j < n ==> ExpiresAt(init, j) == ExpiresAt(events, j);
    assert ExpiresAt(events, n) <==> events[n] == Expire && forall i :: 0 <= i < n ==> !Settles(init[i]);
    if HandlerQueued(init) && events[n] != Timeout {
      var j :| ExpiresAt(init, j) && forall k :: j < k < n ==> init[k] != Timeout;
      assert ExpiresAt(events, j);
    }
  }

  /** The timer of a link, told from its history. */
  lemma {:induction false} TimerHistory(events: seq<Handler>)
    ensures Lifetime(events).link.timer == Armed <==> forall i :: 0 <= i < |events| ==> !Settles(events[i])
    ensures Lifetime(events).link.timer == Expired <==> HandlerQueued(events)
  {
    if events != [] {
      var init := events[..|events| - 1];
      TimerHistory(init);
      AlwaysSound(init);
      TimerStep(Lifetime(init), events[|events| - 1]);
      QueuedWitness(events);
      assert forall i :: 0 <= i < |init| ==> init[i] == events[i];
    }
  }

  /** At `k` the handler of an expired timer takes down the channel of a link that has not closed. */
  ghost predicate SilentAt(events: seq<Handler>, k: int) {
    && 0 <= k < |events| && events[k] == Timeout
    && Lifetime(events[..k]).link.timer == Expired
    && OnConnectionClose !in Lifetime(events[..k]).calls
  }

  /** Nothing after `k` makes the link shut down. */
  predicate NoStopAfter(events: seq<Handler>, k: int) {
    forall j :: k < j < |events| && 0 <= j ==> events[j] != Stop
  }

  /** The timer handler took the channel down, and nothing stopped the session since. */
  ghost predicate Unannounced(events: seq<Handler>) {
    exists k :: SilentAt(events, k) && NoStopAfter(events, k)
  }

  lemma SilentStep(o: Outcome, e: Handler)
    requires Sound(o)
    ensures
      var after := o.Then(React(o.link, e));
      after.link.channelDown && OnConnectionClose !in after.calls
      <==> || (o.link.channelDown && !o.link.isShutdown && e != Stop)
           || (e == Timeout && o.link.timer == Expired && !o.link.isShutdown)
  {
    SoundKept(o, e);
    if e.Read? && !o.link.channelDown {
      FramesCloseAloud(o.link, e.frames);
    }
  }

  /**
    "Called when a socket closes": over every life, a channel is down without the listener
    having been told exactly when the timer handler took it down and nobody outside stopped
    the session since.  Errors and reads that complete later are swallowed.
   */
  lemma {:induction false} UnannouncedIff(events: seq<Handler>)
    ensures Lifetime(events).link.channelDown && OnConnectionClose !in Lifetime(events).calls
       <==> Unannounced(events)
  {
    if events != [] {
      UnannouncedIff(events[..|events| - 1]);
      AlwaysSound(events[..|events| - 1]);
      SilentStep(Lifetime(events[..|events| - 1]), events[|events| - 1]);
      SilentWitness(events);
    }
  }

  lemma SilentWitness(events: seq<Handler>)
    requires events != []
    ensures
      var init, e := events[..|events| - 1], events[|events| - 1];
      var l := Lifetime(init).link;
      Unannounced(events)
      <==> (Unannounced(init) && e != Stop) || (e == Timeout && l.timer == Expired && !l.isShutdown)
  {
    var n := |events| - 1;
    var init, e := events[..n], events[n];
    SilentLast(events);
    forall k | 0 <= k < n
      ensures SilentAt(init, k) == SilentAt(events, k)
      ensures NoStopAfter(events, k) <==> NoStopAfter(init, k) && e != Stop
    {
      assert init[..k] == events[..k];
      assert forall j :: 0 <= j < n ==> init[j] == events[j];
    }
    if Unannounced(init) && e != Stop {
      var k :| SilentAt(init, k) && NoStopAfter(init, k);
      assert SilentAt(events, k) && NoStopAfter(events, k);
    }
  }

  lemma SilentLast(events: seq<Handler>)
    requires events != []
    ensures NoStopAfter(events, |events| - 1)
    ensures var l := Lifetime(events[..|events| - 1]).link;
            SilentAt(events, |events| - 1) <==> events[|events| - 1] == Timeout && l.timer == Expired && !l.isShutdown
  {
    AlwaysSound(events[..|events| - 1]);
  }

  /** The plainest such life: the timer goes off, the socket closes, and no call is ever made. */
  lemma TimeoutIsSilent()
    ensures Lifetime([Expire, Timeout]).link.channelDown && Lifetime([Expire, Timeout]).calls == []
  {
    assert [Expire, Timeout][..1] == [Expire] && [Expire][..0] == [];
    assert Lifetime([Expire]) == Outcome(FRESH.(timer := Expired), [], []);
  }

  // ------------------------- the order of the calls -------------------------

  /** Nothing, a first frame, a close, or a first frame and then a close. */
  predicate Orderly(calls: seq<Call>) {
    |calls| < 2 || (|calls| == 2 && calls[0].OnFirstFrame? && calls[1].OnConnectionClose?)
  }

  /** The link is still to be asked about its first frame. */
  predicate Waiting(l: Link) {
    l.stack.None? && !l.channelDown && !l.isShutdown
  }

  /** The fields of the link tell which calls it has made. */
  predicate Consistent(o: Outcome) {
    && Orderly(o.calls)
    && (Waiting(o.link) ==> o.calls == [])
    && (o.link.stack.Some? ==> o.calls != [] && o.calls[0].OnFirstFrame? && o.calls[0].answer == o.link.stack)
    && (o.link.isShutdown <==> o.calls != [] && o.calls[|o.calls| - 1].OnConnectionClose?)
    && (o.link.isShutdown ==> o.link.channelDown)
  }

  /**
    Exactly when a read that finds the link waiting is orderly: its first frame is accepted,
    or it holds no second frame.  A declined frame closes the session, and a further frame of
    the same read is still reported as a first frame, after the close.
   */
  lemma ReadOrderlyIff(l: Link, frames: seq<Frame>)
    requires Waiting(l)
    ensures Orderly(OnRead(l, frames).calls) <==> |frames| <= 1 || frames[0].answer.Some?
    ensures Orderly(OnRead(l, frames).calls) ==> Consistent(OnRead(l, frames))
    ensures !Orderly(OnRead(l, frames).calls) ==>
              var calls := OnRead(l, frames).calls;
              |calls| >= 3 && calls[1] == OnConnectionClose && calls[2] == OnFirstFrame(frames[1].src, frames[1].answer)
  {
    if frames != [] {
      var o := OnFrame(l, frames[0]);
      if frames[0].answer.Some? {
        AcceptedFrames(l, frames);
      } else if |frames| > 1 {
        var rest := frames[1..];
        var next := OnFrame(o.link, rest[0]);
        assert next.calls == [OnFirstFrame(frames[1].src, frames[1].answer)];
        assert OnFrames(o.link, rest).calls == next.calls + OnFrames(next.link, rest[1..]).calls;
        assert OnRead(l, frames).calls == o.calls + OnFrames(o.link, rest).calls;
        assert o.calls == [OnFirstFrame(frames[0].src, None), OnConnectionClose];
      } else {
        assert OnRead(l, frames) == o.Then(OnFrames(o.link, []));
      }
    }
  }

  /** Handler `j` leaves a waiting link waiting: it brings no frame, no error, no stop and no timeout. */
  ghost predicate Idle(events: seq<Handler>, j: int)
    requires 0 <= j < |events|
  {
    match events[j]
    case Read(frames) => frames == []
    case Expire => true
    case Timeout => Expire !in events[..j]
    case _ => false
  }

  /** A link waits exactly as long as every handler was idle. */
  lemma {:induction false} WaitingIff(events: seq<Handler>)
    ensures Waiting(Lifetime(events).link) <==> forall j :: 0 <= j < |events| ==> Idle(events, j)
    ensures Waiting(Lifetime(events).link) ==>
              Lifetime(events).link.timer == if Expire in events then Expired else Armed
  {
    if events != [] {
      var n := |events| - 1;
      var init, e := events[..n], events[n];
      WaitingIff(init);
      assert events == init + [e];
      forall j | 0 <= j < n ensures Idle(init, j) == Idle(events, j) {
        assert init[..j] == events[..j];
      }
      var o := Lifetime(init);
      assert Idle(events, n) <==> e == Read([]) || e == Expire || (e == Timeout && Expire !in init);
      if Waiting(o.link) {
        WaitingStep(o.link, e);
      } else if e.Read? && o.link.stack.Some? {
        StackedFrames(o.link, e.frames);
      } else {
        AlwaysSound(init);
      }
    }
  }

  lemma WaitingStep(l: Link, e: Handler)
    requires Waiting(l) && l.timer != Off
    ensures Waiting(React(l, e).link) <==> e == Read([]) || e == Expire || (e == Timeout && l.timer == Armed)
    ensures Waiting(React(l, e).link) ==> React(l, e).link.timer == if e == Expire then Expired else l.timer
  {
    if e.Read? && e.frames != [] {
      if e.frames[0].answer.Some? {
        AcceptedFrames(l, e.frames);
      } else {
        FramesStayDown(OnFrame(l, e.frames[0]).link, e.frames[1..]);
      }
    }
  }

  /** Read `k` is the first to bring a frame, brings more than one, and its first is declined. */
  ghost predicate BadAt(events: seq<Handler>, k: int) {
    && 0 <= k < |events| && events[k].Read?
    && |events[k].frames| > 1 && events[k].frames[0].answer.None?
    && forall j :: 0 <= j < k ==> Idle(events, j)
  }

  lemma CallsStep(o: Outcome, e: Handler)
    requires Consistent(o)
    ensures
      var bad := e.Read? && |e.frames| > 1 && e.frames[0].answer.None? && Waiting(o.link);
      var after := o.Then(React(o.link, e));
      if bad then |after.calls| >= 3 else Consistent(after)
  {
    if e.Read? && !o.link.channelDown {
      if o.link.stack.Some? {
        StackedFrames(o.link, e.frames);
      } else {
        ReadOrderlyIff(o.link, e.frames);
      }
    }
  }

  /** The life has a bad read. */
  ghost predicate Bad(events: seq<Handler>) {
    exists k :: BadAt(events, k)
  }

  lemma BadWitness(events: seq<Handler>)
    requires events != []
    ensures
      var init, e := events[..|events| - 1], events[|events| - 1];
      var last := e.Read? && |e.frames| > 1 && e.frames[0].answer.None? && Waiting(Lifetime(init).link);
      Bad(events) <==> Bad(init) || last
  {
    var n := |events| - 1;
    var init := events[..n];
    WaitingIff(init);
    forall j | 0 <= j < n ensures Idle(init, j) == Idle(events, j) {
      assert init[..j] == events[..j];
    }
    assert forall k :: 0 <= k < n ==> BadAt(init, k) == BadAt(events, k);
    var e := events[n];
    assert BadAt(events, n)
      <==> e.Read? && |e.frames| > 1 && e.frames[0].answer.None? && Waiting(Lifetime(init).link);
    if Bad(init) {
      var k :| BadAt(init, k);
      assert BadAt(events, k);
    }
  }

  lemma {:induction false} CallsOfLife(events: seq<Handler>)
    ensures Bad(events) ==> |Lifetime(events).calls| >= 3
    ensures !Bad(events) ==> Consistent(Lifetime(events))
  {
    if events != [] {
      var init := events[..|events| - 1];
      CallsOfLife(init);
      BadWitness(events);
      if !Bad(init) {
        CallsStep(Lifetime(init), events[|events| - 1]);
      }
    }
  }

  /**
    Over every life of a session: at most one first frame and then at most one close, exactly
    when the first read that brings frames brings one only, or has its first one accepted.
   */
  lemma LifeOrderlyIff(events: seq<Handler>)
    ensures Orderly(Lifetime(events).calls) <==> !Bad(events)
  {
    CallsOfLife(events);
  }

  /** So a listener that always accepts sees one first frame at most, then one close at most. */
  lemma AcceptingIsOrderly(events: seq<Handler>)
    requires forall i :: 0 <= i < |events| ==> Accepting(events[i])
    ensures Consistent(Lifetime(events))
  {
    CallsOfLife(events);
  }

  // ------------------------- when the channel goes down -------------------------

  /** Read `k` is the first to bring a frame, and its first is declined. */
  ghost predicate DeclinedAt(events: seq<Handler>, k: int) {
    && 0 <= k < |events| && events[k].Read?
    && events[k].frames != [] && events[k].frames[0].answer.None?
    && forall j :: 0 <= j < k ==> Idle(events, j)
  }

  /** At `k` the handler of a timer that went off is there to run. */
  ghost predicate TimesOutAt(events: seq<Handler>, k: int) {
    0 <= k < |events| && events[k] == Timeout && HandlerQueued(events[..k])
  }

  ghost predicate Declines(events: seq<Handler>) {
    exists k :: DeclinedAt(events, k)
  }

  ghost predicate TimesOut(events: seq<Handler>) {
    exists k :: TimesOutAt(events, k)
  }

  lemma DownStep(o: Outcome, e: Handler)
    requires Sound(o)
    ensures
      var declined := Waiting(o.link) && e.Read? && e.frames != [] && e.frames[0].answer.None?;
      React(o.link, e).link.channelDown
      <==> o.link.channelDown || e == Error || e == Stop || (e == Timeout && o.link.timer == Expired) || declined
  {
    if e.Read? && !o.link.channelDown && e.frames != [] {
      if o.link.stack.Some? {
        StackedFrames(o.link, e.frames);
      } else if e.frames[0].answer.Some? {
        AcceptedFrames(o.link, e.frames);
      } else {
        FramesStayDown(OnFrame(o.link, e.frames[0]).link, e.frames[1..]);
      }
    }
  }

  lemma DeclineWitness(events: seq<Handler>)
    requires events != []
    ensures
      var init, e := events[..|events| - 1], events[|events| - 1];
      Declines(events)
      <==> Declines(init)
           || (Waiting(Lifetime(init).link) && e.Read? && e.frames != [] && e.frames[0].answer.None?)
  {
    var n := |events| - 1;
    var init, e := events[..n], events[n];
    WaitingIff(init);
    forall j | 0 <= j < n ensures Idle(init, j) == Idle(events, j) {
      assert init[..j] == events[..j];
    }
    assert forall k :: 0 <= k < n ==> DeclinedAt(init, k) == DeclinedAt(events, k);
    assert DeclinedAt(events, n)
      <==> Waiting(Lifetime(init).link) && e.Read? && e.frames != [] && e.frames[0].answer.None?;
    if Declines(init) {
      var k :| DeclinedAt(init, k);
      assert DeclinedAt(events, k);
    }
  }

  lemma TimeoutWitness(events: seq<Handler>)
    requires events != []
    ensures
      var init, e := events[..|events| - 1], events[|events| - 1];
      TimesOut(events) <==> TimesOut(init) || (e == Timeout && Lifetime(init).link.timer == Expired)
  {
    var n := |events| - 1;
    var init := events[..n];
    TimerHistory(init);
    forall j | 0 <= j < n ensures TimesOutAt(init, j) == TimesOutAt(events, j) {
      assert init[..j] == events[..j];
    }
    assert TimesOutAt(events, n) <==> events[n] == Timeout && HandlerQueued(init);
    if TimesOut(init) {
      var k :| TimesOutAt(init, k);
      assert TimesOutAt(events, k);
    }
  }

  /**
    Over every life, told from the events alone: the channel is down exactly when a read or
    write failed, the session was stopped, the timer ran out, or the first frame was declined.
   */
  lemma {:induction false} DownIff(events: seq<Handler>)
    ensures Lifetime(events).link.channelDown
       <==> Error in events || Stop in events || TimesOut(events) || Declines(events)
  {
    if events != [] {
      var init, e := events[..|events| - 1], events[|events| - 1];
      assert events == init + [e];
      DownIff(init);
      AlwaysSound(init);
      DownStep(Lifetime(init), e);
      DeclineWitness(events);
      TimeoutWitness(events);
    }
  }

  // ------------------------- what the master hears -------------------------

  /** The frames of every read that the channel passed on. */
  function Received(events: seq<Handler>): seq<Frame> {
    if events == [] then []
    else
      var init, e := events[..|events| - 1], events[|events| - 1];
      Received(init) + if e.Read? && !Lifetime(init).link.channelDown then e.frames else []
  }

  lemma {:induction false} DeliveredConcat(a: seq<Frame>, b: seq<Frame>)
    ensures Delivered(a + b) == Delivered(a) + Delivered(b)
  {
    if a == [] {
      assert a + b == b;
    } else {
      DeliveredConcat(a[1..], b);
      assert (a + b)[1..] == a[1..] + b;
    }
  }

  /** What a master hears that is bound by the first of `frames`: up, the frames, and down at the end. */
  function Heard(frames: seq<Frame>, closed: bool): seq<StackCall> {
    if frames == [] then []
    else [LowerLayerUp] + Delivered(frames) + if closed then [LowerLayerDown, BeginShutdown] else []
  }

  /**
    With a listener that always accepts, a master is bound by the first frame received; it
    hears that it is up, then every frame in order, and once the link shuts down that it is
    down and may go.
   */
  lemma {:induction false} MasterHears(events: seq<Handler>)
    requires forall i :: 0 <= i < |events| ==> Accepting(events[i])
    ensures var o := Lifetime(events);
            && (o.link.stack.Some? <==> Received(events) != [])
            && o.heard == Heard(Received(events), o.link.isShutdown)
  {
    if events != [] {
      var init, e := events[..|events| - 1], events[|events| - 1];
      MasterHears(init);
      AlwaysSound(init);
      HearsStep(Lifetime(init), Received(init), e);
    }
  }

  lemma HearMore(received: seq<Frame>, frames: seq<Frame>)
    ensures received != [] ==> Heard(received + frames, false) == Heard(received, false) + Delivered(frames)
    ensures received == [] ==> Heard(received + frames, false) == Heard(frames, false)
  {
    DeliveredConcat(received, frames);
    assert received == [] ==> received + frames == frames;
  }

  lemma HearClose(received: seq<Frame>)
    requires received != []
    ensures Heard(received, false) + [LowerLayerDown, BeginShutdown] == Heard(received, true)
  {
  }

  lemma HearsStep(o: Outcome, received: seq<Frame>, e: Handler)
    requires Sound(o) && Accepting(e)
    requires o.link.stack.Some? <==> received != []
    requires o.heard == Heard(received, o.link.isShutdown)
    ensures
      var after := o.Then(React(o.link, e));
      var all := received + if e.Read? && !o.link.channelDown then e.frames else [];
      (after.link.stack.Some? <==> all != []) && after.heard == Heard(all, after.link.isShutdown)
  {
    if e.Read? && !o.link.channelDown {
      HearMore(received, e.frames);
      if o.link.stack.Some? {
        StackedFrames(o.link, e.frames);
      } else if e.frames != [] {
        AcceptedFrames(o.link, e.frames);
        assert Heard(e.frames, false) == [LowerLayerUp] + Delivered(e.frames);
      }
    } else {
      assert received + [] == received;
      if received != [] {
        HearClose(received);
      }
    }
  }

  /** The calls of a life without a bad read: the first frame received, and the close. */
  function CallsFor(frames: seq<Frame>, closed: bool): seq<Call> {
    (if frames == [] then [] else [OnFirstFrame(frames[0].src, frames[0].answer)])
    + (if closed then [OnConnectionClose] else [])
  }

  lemma DeclinedAlone(l: Link, frames: seq<Frame>)
    requires Waiting(l) && |frames| == 1 && frames[0].answer.None?
    ensures var o := OnFrames(l, frames);
            o.calls == [OnFirstFrame(frames[0].src, None), OnConnectionClose] && o.link.isShutdown
  {
    var first := OnFrame(l, frames[0]);
    assert frames[1..] == [] && OnFrames(first.link, []) == Outcome(first.link, [], []);
  }

  lemma CallsForStep(o: Outcome, received: seq<Frame>, e: Handler)
    requires Sound(o) && Consistent(o) && o.calls == CallsFor(received, o.link.isShutdown)
    requires Waiting(o.link) && e.Read? && |e.frames| > 1 ==> e.frames[0].answer.Some?
    ensures
      var after := o.Then(React(o.link, e));
      var all := received + if e.Read? && !o.link.channelDown then e.frames else [];
      after.calls == CallsFor(all, after.link.isShutdown)
  {
    if e.Read? && !o.link.channelDown {
      if o.link.stack.Some? {
        StackedFrames(o.link, e.frames);
        assert received != [] && (received + e.frames)[0] == received[0];
      } else if e.frames != [] {
        assert received == [] && received + e.frames == e.frames;
        if e.frames[0].answer.Some? {
          AcceptedFrames(o.link, e.frames);
        } else {
          DeclinedAlone(o.link, e.frames);
        }
      } else {
        assert received + [] == received;
      }
    } else {
      assert received + [] == received;
    }
  }

  /**
    Over every life without a bad read, the listener is asked about the very first frame
    received and no other, and told of the close once the link has shut down.
   */
  lemma {:induction false} ListenerHears(events: seq<Handler>)
    requires !Bad(events)
    ensures Lifetime(events).calls == CallsFor(Received(events), Lifetime(events).link.isShutdown)
  {
    if events != [] {
      var init := events[..|events| - 1];
      BadWitness(events);
      ListenerHears(init);
      AlwaysSound(init);
      CallsOfLife(init);
      CallsForStep(Lifetime(init), Received(init), events[|events| - 1]);
    }
  }

  /** A master hears that it is up when it is bound, and that it is down only when the link shuts down. */
  predicate Told(o: Outcome) {
    && (o.link.stack.Some? <==> LowerLayerUp in o.heard)
    && (!o.link.isShutdown ==> LowerLayerDown !in o.heard)
  }

  /** A master was told that it is up, and will not be told that it is down. */
  predicate Orphaned(o: Outcome) {
    o.link.isShutdown && LowerLayerUp in o.heard && LowerLayerDown !in o.heard
  }

  predicate SomeAccepted(frames: seq<Frame>) {
    exists j :: 0 <= j < |frames| && frames[j].answer.Some?
  }

  lemma {:induction false} DeliveredOnly(frames: seq<Frame>)
    ensures LowerLayerUp !in Delivered(frames) && LowerLayerDown !in Delivered(frames)
  {
    if frames != [] {
      DeliveredOnly(frames[1..]);
    }
  }

  /** Frames read behind the close: one that is accepted brings a master up, and nothing takes it down. */
  lemma {:induction false} ClosedFrames(l: Link, frames: seq<Frame>)
    requires l.isShutdown && l.channelDown && l.stack.None?
    ensures var o := OnFrames(l, frames);
            && (o.link.stack.Some? <==> SomeAccepted(frames)) && (LowerLayerUp in o.heard <==> SomeAccepted(frames))
            && LowerLayerDown !in o.heard
    decreases |frames|
  {
    if frames != [] {
      var rest := frames[1..];
      if frames[0].answer.Some? {
        StackedFrames(OnFrame(l, frames[0]).link, rest);
        DeliveredOnly(rest);
      } else {
        ClosedFrames(OnFrame(l, frames[0]).link, rest);
        assert forall j :: 0 < j < |frames| ==> frames[j] == rest[j - 1];
        assert forall j :: 0 <= j < |rest| ==> rest[j] == frames[j + 1];
      }
    }
  }

  /** A bad read with a later frame that the listener accepts. */
  predicate Orphaning(e: Handler) {
    e.Read? && |e.frames| > 1 && e.frames[0].answer.None? && SomeAccepted(e.frames[1..])
  }

  lemma OrphanStep(o: Outcome, e: Handler)
    requires Sound(o) && Told(o)
    ensures
      var after := o.Then(React(o.link, e));
      Told(after) && (Orphaned(after) <==> Orphaned(o) || (Waiting(o.link) && Orphaning(e)))
  {
    if e.Read? && !o.link.channelDown {
      DeliveredOnly(e.frames);
      if o.link.stack.Some? {
        StackedFrames(o.link, e.frames);
      } else if e.frames != [] && e.frames[0].answer.Some? {
        AcceptedFrames(o.link, e.frames);
      } else if e.frames != [] {
        DeclinedFrames(o.link, e.frames);
      }
    }
  }

  /** A waiting link that declines a first frame closes, whatever the rest of the read brings. */
  lemma DeclinedFrames(l: Link, frames: seq<Frame>)
    requires Waiting(l) && frames != [] && frames[0].answer.None?
    ensures var o := OnFrames(l, frames);
            && o.link.isShutdown && LowerLayerDown !in o.heard
            && (o.link.stack.Some? <==> SomeAccepted(frames[1..]))
            && (LowerLayerUp in o.heard <==> SomeAccepted(frames[1..]))
  {
    var first := OnFrame(l, frames[0]);
    ClosedFrames(first.link, frames[1..]);
    FramesStayDown(first.link, frames[1..]);
    assert first.heard == [];
  }

  /** Read `k` is the first to bring frames, its first is declined, and a later one accepted. */
  ghost predicate OrphanedAt(events: seq<Handler>, k: int) {
    BadAt(events, k) && exists j :: 0 < j < |events[k].frames| && events[k].frames[j].answer.Some?
  }

  ghost predicate OrphanedOnce(events: seq<Handler>) {
    exists k :: OrphanedAt(events, k)
  }

  lemma OrphanWitness(events: seq<Handler>)
    requires events != []
    ensures
      var init, e := events[..|events| - 1], events[|events| - 1];
      OrphanedOnce(events) <==> OrphanedOnce(init) || (Waiting(Lifetime(init).link) && Orphaning(e))
  {
    var n := |events| - 1;
    var init, e := events[..n], events[n];
    WaitingIff(init);
    forall j | 0 <= j < n ensures Idle(init, j) == Idle(events, j) {
      assert init[..j] == events[..j];
    }
    assert forall k :: 0 <= k < n ==> BadAt(init, k) == BadAt(events, k);
    forall k | 0 <= k < n ensures OrphanedAt(init, k) == OrphanedAt(events, k) {
      assert init[k] == events[k];
    }
    LaterAccepted(e);
    assert OrphanedAt(events, n) <==> Waiting(Lifetime(init).link) && Orphaning(e);
    if OrphanedOnce(init) {
      var k :| OrphanedAt(init, k);
      assert OrphanedAt(events, k);
    }
  }

  lemma LaterAccepted(e: Handler)
    ensures e.Read? && |e.frames| > 0 ==>
              (SomeAccepted(e.frames[1..]) <==> exists j :: 0 < j < |e.frames| && e.frames[j].answer.Some?)
  {
    if e.Read? && |e.frames| > 0 {
      var rest := e.frames[1..];
      assert forall j :: 0 < j < |e.frames| ==> e.frames[j] == rest[j - 1];
      assert forall j :: 0 <= j < |rest| ==> rest[j] == e.frames[j + 1];
    }
  }

  lemma {:induction false} OrphanedOfLife(events: seq<Handler>)
    ensures Told(Lifetime(events))
    ensures Orphaned(Lifetime(events)) <==> OrphanedOnce(events)
  {
    if events != [] {
      var init := events[..|events| - 1];
      OrphanedOfLife(init);
      AlwaysSound(init);
      OrphanStep(Lifetime(init), events[|events| - 1]);
      OrphanWitness(events);
    }
  }

  /**
    Over every life of a session: a master was told that it is up, its link has shut down, and
    it is not told, exactly when the first read that brought frames had its first one declined
    and a later one accepted.
   */
  lemma OrphanedIff(events: seq<Handler>)
    ensures var o := Lifetime(events);
            o.link.isShutdown && LowerLayerUp in o.heard && LowerLayerDown !in o.heard <==>
            exists k :: BadAt(events, k) && exists j :: 0 < j < |events[k].frames| && events[k].frames[j].answer.Some?
  {
    OrphanedOfLife(events);
    if OrphanedOnce(events) {
      var k :| OrphanedAt(events, k);
      assert BadAt(events, k);
    }
    forall k | BadAt(events, k) && exists j :: 0 < j < |events[k].frames| && events[k].frames[j].answer.Some?
      ensures OrphanedAt(events, k) {}
  }

  lemma {:induction false} NeverTakenDown(events: seq<Handler>, more: seq<Handler>)
    requires Lifetime(events).link.isShutdown && Lifetime(events).link.stack.Some?
    requires LowerLayerDown !in Lifetime(events).heard
    ensures Lifetime(events + more).link == Lifetime(events).link.(timer := Lifetime(events + more).link.timer)
    ensures LowerLayerDown !in Lifetime(events + more).heard
  {
    if more == [] {
      assert events + more == events;
    } else {
      var init := more[..|more| - 1];
      assert (events + more)[..|events + more| - 1] == events + init;
      NeverTakenDown(events, init);
      AlwaysSound(events + init);
      ClosedStep(Lifetime(events + init), more[|more| - 1]);
    }
  }

  lemma ClosedStep(o: Outcome, e: Handler)
    requires o.link.isShutdown && o.link.channelDown
    ensures var after := o.Then(React(o.link, e));
            after.link == o.link.(timer := after.link.timer) && after.heard == o.heard
  {
  }

  /**
    A master accepted after its link closed, by a further frame of the read whose first frame
    was declined, is told that it is up and never, whatever follows, that it is down.
   */
  lemma OrphanedMaster(session: Handle, more: seq<Handler>)
    ensures
      var events := [Read([Frame(1, None), Frame(1, Some(session))])];
      var o := Lifetime(events + more);
      && o.link.isShutdown && o.link.stack == Some(session)
      && LowerLayerUp in Lifetime(events).heard && LowerLayerDown !in o.heard
  {
    var frames := [Frame(1, None), Frame(1, Some(session))];
    var events := [Read(frames)];
    assert events[..0] == [] && frames[1..][1..] == [];
    var first := OnFrame(FRESH, frames[0]);
    var second := OnFrame(first.link, frames[1]);
    assert OnFrames(second.link, []) == Outcome(second.link, [], []);
    assert OnFrames(first.link, frames[1..]) == second.Then(OnFrames(second.link, []));
    assert OnFrames(FRESH, frames).heard == first.heard + second.heard;
    assert OnFrames(FRESH, frames).link == second.link;
    assert second.heard[0] == LowerLayerUp;
    NeverTakenDown(events, more);
  }
}
