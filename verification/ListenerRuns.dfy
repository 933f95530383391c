/**
  A whole listener: the accept loop that numbers the sessions, a `LinkSession` for each,
  and the GPRS registry as the listener they all report to.  Each handler runs on its
  session's strand, the handlers of different sessions in any order.  A registry call is one
  event here; `DrivenThreads` has the same contract with every call interleaved.
 */
module ListenerRuns {
  import opened Words
  import opened Registry
  import opened LinkSessions

  datatype World = World(
    nextId: nat,                // TCPServer::session_id
    issued: nat,                // sessions created so far
    links: map<Uint64, Link>,
    history: seq<Event>)        // the registry's events, in lock order

  datatype Move =
    | Connect
    | OnStrand(id: Uint64, task: Task)

  /** A handler; a read carries the source addresses of the frames it completes. */
  datatype Task = ReadFrames(sources: seq<Uint16>) | Fail | StopSession | TimerExpires | TimeOut

  const UNUSED := World(0, 0, map[], [])

  /** The registry accepts every first frame, with the next new session. */
  function Handled(task: Task, issued: nat): (h: Handler)
    ensures task.ReadFrames? ==>
              && h.Read? && |h.frames| == |task.sources|
              && forall i :: 0 <= i < |h.frames| ==> h.frames[i] == Frame(task.sources[i], Some(issued))
  {
    match task
    case ReadFrames(sources) =>
      Read(seq(|sources|, i requires 0 <= i < |sources| => Frame(sources[i], Some(issued))))
    case Fail => Error
    case StopSession => Stop
    case TimerExpires => Expire
    case TimeOut => Timeout
  }

  function ToEvents(id: Uint64, calls: seq<Call>): seq<Event> {
    if calls == [] then []
    else
      (match calls[0]
       case OnFirstFrame(src, Some(session)) => [FirstFrame(id, src, session)]
       case OnFirstFrame(_, None) => []
       case OnConnectionClose => [Close(id)])
      + ToEvents(id, calls[1..])
  }

  predicate Can(w: World, m: Move) {
    match m
    case Connect => w.nextId < 0x1_0000_0000_0000_0000
    case OnStrand(id, _) => id in w.links
  }

  function Do(w: World, m: Move): World
    requires Can(w, m)
  {
    match m
    case Connect => w.(nextId := w.nextId + 1, links := w.links[w.nextId := FRESH])
    case OnStrand(id, task) =>
      var o := React(w.links[id], Handled(task, w.issued));
      World(
        w.nextId,
        if o.link.stack != w.links[id].stack then w.issued + 1 else w.issued,
        w.links[id := o.link],
        w.history + ToEvents(id, o.calls))
  }

  function After(schedule: seq<Move>): Option<World> {
    if schedule == [] then Some(UNUSED)
    else
      match After(schedule[..|schedule| - 1])
      case None => None
      case Some(w) =>
        var m := schedule[|schedule| - 1];
        if Can(w, m) then Some(Do(w, m)) else None
  }

  // ------------------------------- invariant -------------------------------

  /** What a handler can do to a link, and the one registry event it can cause. */
  ghost predicate Transition(l: Link, k: Link, id: Uint64, issued: nat, events: seq<Event>) {
    || (events == [] && k.stack == l.stack && k.isShutdown == l.isShutdown)
    || (events == [Close(id)] && !l.isShutdown && k.isShutdown && k.stack == l.stack)
    || (&& |events| == 1 && events[0].FirstFrame? && events[0].id == id && events[0].session == issued
        && l.stack == None && k.stack == Some(issued) && !l.isShutdown && !k.isShutdown)
  }

  lemma TaskTransition(l: Link, task: Task, id: Uint64, issued: nat)
    requires l.isShutdown ==> l.channelDown
    ensures var o := React(l, Handled(task, issued));
            && Transition(l, o.link, id, issued, ToEvents(id, o.calls))
            && (o.link.isShutdown ==> o.link.channelDown)
  {
    var h := Handled(task, issued);
    if h.Read? && h.frames != [] {
      if l.stack.Some? { StackedFrames(l, h.frames); } else { AcceptedFrames(l, h.frames); }
    }
    var calls := React(l, h).calls;
    assert |calls| <= 1;
    if |calls| == 1 {
      assert calls[1..] == [];
      assert ToEvents(id, calls[1..]) == [];
    }
  }

  ghost predicate FrameOf(w: World, i: int)
    requires Accepts(w.history, i)
  {
    var e := w.history[i];
    e.id in w.links && w.links[e.id].stack == Some(e.session) && e.session < w.issued
  }

  ghost predicate CloseOf(w: World, i: int)
    requires 0 <= i < |w.history| && w.history[i].Close?
  {
    w.history[i].id in w.links && w.links[w.history[i].id].isShutdown
  }

  ghost predicate LinkRecorded(w: World, id: Uint64)
    requires id in w.links
  {
    && id < w.nextId
    && (w.links[id].isShutdown ==> w.links[id].channelDown)
    && (w.links[id].isShutdown ==> Close(id) in w.history)
    && (w.links[id].stack.Some? ==>
          exists i :: Accepts(w.history, i) && w.history[i].id == id && w.history[i].session == w.links[id].stack.value)
  }

  /** A session closes once, and never reports a first frame afterwards. */
  ghost predicate ClosedForGood(h: seq<Event>) {
    forall i, j :: 0 <= i < j < |h| && h[i].Close? ==>
      (h[j].Close? ==> h[j].id != h[i].id) && (h[j].FirstFrame? ==> h[j].id != h[i].id)
  }

  ghost predicate Inv(w: World) {
    && (forall i :: Accepts(w.history, i) ==> FrameOf(w, i))
    && (forall i :: 0 <= i < |w.history| && w.history[i].Close? ==> CloseOf(w, i))
    && (forall id :: id in w.links ==> LinkRecorded(w, id))
    && ClosedForGood(w.history) && UniqueIds(w.history) && FreshSessions(w.history)
  }

  lemma FramesKept(w: World, m: Move)
    requires Inv(w) && Can(w, m)
    ensures var v := Do(w, m);
            && (forall i :: Accepts(v.history, i) ==> FrameOf(v, i))
            && (forall i :: 0 <= i < |v.history| && v.history[i].Close? ==> CloseOf(v, i))
  {
    var v := Do(w, m);
    if m.OnStrand? { TaskTransition(w.links[m.id], m.task, m.id, w.issued); assert LinkRecorded(w, m.id); }
    forall i | Accepts(v.history, i) ensures FrameOf(v, i) {
      if i < |w.history| {
        assert Accepts(w.history, i) && FrameOf(w, i);
        if m == Connect { assert LinkRecorded(w, w.history[i].id); }
      }
    }
    forall i | 0 <= i < |v.history| && v.history[i].Close? ensures CloseOf(v, i) {
      if i < |w.history| {
        assert CloseOf(w, i);
        if m == Connect { assert LinkRecorded(w, w.history[i].id); }
      }
    }
  }

  lemma LinksKept(w: World, m: Move, id: Uint64)
    requires Inv(w) && Can(w, m) && id in Do(w, m).links
    ensures LinkRecorded(Do(w, m), id)
  {
    var v := Do(w, m);
    if m.OnStrand? { TaskTransition(w.links[m.id], m.task, m.id, w.issued); }
    if id in w.links {
      assert LinkRecorded(w, id);
      if w.links[id].stack.Some? {
        var i :| Accepts(w.history, i) && w.history[i].id == id && w.history[i].session == w.links[id].stack.value;
        assert Accepts(v.history, i);
      } else if v.links[id].stack.Some? {
        assert Accepts(v.history, |w.history|);
      }
    }
  }

  lemma AppendEvent(g: seq<Event>, e: Event)
    requires ClosedForGood(g) && UniqueIds(g) && FreshSessions(g)
    requires e.FirstFrame? ==> forall i :: Accepts(g, i) ==> g[i].id != e.id && g[i].session != e.session
    requires !e.Lookup? ==> forall i :: 0 <= i < |g| && g[i].Close? ==> g[i].id != e.id
    ensures ClosedForGood(g + [e]) && UniqueIds(g + [e]) && FreshSessions(g + [e])
  {
    var h := g + [e];
    assert forall i :: Accepts(h, i) && i < |g| ==> Accepts(g, i) && h[i] == g[i];
  }

  lemma HistoryKept(w: World, m: Move)
    requires Inv(w) && Can(w, m)
    ensures var h := Do(w, m).history; ClosedForGood(h) && UniqueIds(h) && FreshSessions(h)
  {
    var g, h := w.history, Do(w, m).history;
    if m.OnStrand? {
      var l := w.links[m.id];
      var events := ToEvents(m.id, React(l, Handled(m.task, w.issued)).calls);
      assert LinkRecorded(w, m.id);
      TaskTransition(l, m.task, m.id, w.issued);
      if events == [] {
        assert h == g;
      } else {
        forall i | Accepts(g, i) ensures l.stack.None? ==> g[i].id != m.id && g[i].session != w.issued {
          assert FrameOf(w, i);
        }
        forall i | 0 <= i < |g| && g[i].Close? ensures !l.isShutdown ==> g[i].id != m.id {
          assert CloseOf(w, i);
        }
        assert h == g + [events[0]];
        AppendEvent(g, events[0]);
      }
    }
  }

  lemma {:induction false} InvAlways(schedule: seq<Move>)
    requires After(schedule).Some?
    ensures Inv(After(schedule).value)
  {
    if schedule != [] {
      var before, m := schedule[..|schedule| - 1], schedule[|schedule| - 1];
      InvAlways(before);
      var w := After(before).value;
      FramesKept(w, m);
      HistoryKept(w, m);
      forall id | id in Do(w, m).links ensures LinkRecorded(Do(w, m), id) { LinksKept(w, m, id); }
    }
  }

  /** What one handler of session `id` adds to the registry's events, told from the link it finds. */
  ghost predicate Adds(l: Link, id: Uint64, task: Task, issued: nat, events: seq<Event>) {
    match task
    case ReadFrames(sources) =>
      events == if l.stack.None? && !l.channelDown && sources != [] then [FirstFrame(id, sources[0], issued)] else []
    case Fail => events == if l.channelDown then [] else [Close(id)]
    case StopSession => events == if l.isShutdown then [] else [Close(id)]
    case TimerExpires => events == []
    case TimeOut => events == []
  }

  lemma TaskAdds(l: Link, task: Task, id: Uint64, issued: nat)
    requires l.isShutdown ==> l.channelDown
    ensures Adds(l, id, task, issued, ToEvents(id, React(l, Handled(task, issued)).calls))
  {
    var h := Handled(task, issued);
    if h.Read? && h.frames != [] {
      if l.stack.Some? { StackedFrames(l, h.frames); } else { AcceptedFrames(l, h.frames); }
    }
    var calls := React(l, h).calls;
    assert |calls| <= 1;
    if |calls| == 1 {
      assert calls[1..] == [] && ToEvents(id, calls[1..]) == [];
    }
  }

  /**
    What every handler does in every run: a first frame is reported for the first source of
    the first read, a failure of a live channel and a stop close, and a timeout is silent.
   */
  lemma HandlerAdds(schedule: seq<Move>, id: Uint64, task: Task)
    requires After(schedule).Some? && id in After(schedule).value.links
    ensures
      var w := After(schedule).value;
      var v := Do(w, OnStrand(id, task));
      exists events :: v.history == w.history + events && Adds(w.links[id], id, task, w.issued, events)
  {
    InvAlways(schedule);
    var w := After(schedule).value;
    assert LinkRecorded(w, id);
    TaskAdds(w.links[id], task, id, w.issued);
  }

  /** After the failure of a live channel the session's close is on record, and it is not listed. */
  lemma FailureCloses(schedule: seq<Move>, id: Uint64)
    requires After(schedule).Some? && id in After(schedule).value.links
    requires !After(schedule).value.links[id].channelDown
    ensures
      var v := Do(After(schedule).value, OnStrand(id, Fail));
      Close(id) in v.history && v.links[id].isShutdown && forall x :: x in Run(v.history).sessions ==> x.id != id
  {
    InvAlways(schedule);
    var w := After(schedule).value;
    assert LinkRecorded(w, id);
    TaskAdds(w.links[id], Fail, id, w.issued);
    var next := schedule + [OnStrand(id, Fail)];
    OneMove(schedule, w, OnStrand(id, Fail), Do(w, OnStrand(id, Fail)));
    InvAlways(next);
    var v := After(next).value;
    forall x | x in Run(v.history).sessions ensures x.id != id {
      var i := Origin(v.history, x);
      ListedIffLive(next, i);
    }
  }

  // ------------------------------- theorems -------------------------------

  /**
    What the listener interface promises its callbacks, for every run: the ids of the first
    frames are unique, the accepted sessions are new, and a close is final.
   */
  lemma ContractHolds(schedule: seq<Move>)
    requires After(schedule).Some?
    ensures var h := After(schedule).value.history;
            UniqueIds(h) && FreshSessions(h) && ClosedForGood(h)
  {
    InvAlways(schedule);
  }

  /**
    End to end: the registry lists a session exactly when a link holds it that has not shut
    down and the registry has not evicted it.
   */
  lemma ListedIffLive(schedule: seq<Move>, i: int)
    requires After(schedule).Some? && Accepts(After(schedule).value.history, i)
    ensures var w := After(schedule).value;
            var e := w.history[i];
            && e.id in w.links && w.links[e.id].stack == Some(e.session)
            && (Entry(e) in Run(w.history).sessions <==> !w.links[e.id].isShutdown && !Evicted(w.history, i))
  {
    InvAlways(schedule);
    var w := After(schedule).value;
    var h := w.history;
    Conservation(h, i);
    ExactlyOneFate(h, i);
    assert FrameOf(w, i) && LinkRecorded(w, h[i].id);
    if w.links[h[i].id].isShutdown {
      var j :| 0 <= j < |h| && h[j] == Close(h[i].id);
      assert Ends(h[j], h[i]) && i < j;
      assert !Surviving(h, i);
    }
  }

  /** At `k` the handler of an expired timer takes down the channel of a link that has a session. */
  ghost predicate LateAt(schedule: seq<Move>, k: int, id: Uint64) {
    && 0 <= k < |schedule| && schedule[k] == OnStrand(id, TimeOut)
    && After(schedule[..k]).Some? && id in After(schedule[..k]).value.links
    && var l := After(schedule[..k]).value.links[id];
       l.timer == Expired && l.stack.Some? && !l.channelDown
  }

  /** The timer expired before the first frame, and its handler ran after it. */
  ghost predicate LateTimeout(schedule: seq<Move>, id: Uint64) {
    exists k :: LateAt(schedule, k, id)
  }

  lemma LatePrefix(schedule: seq<Move>, k: int, id: Uint64)
    requires 0 <= k < |schedule| - 1
    ensures LateAt(schedule[..|schedule| - 1], k, id) == LateAt(schedule, k, id)
  {
    assert schedule[..|schedule| - 1][..k] == schedule[..k];
  }

  lemma LateStep(schedule: seq<Move>, id: Uint64)
    requires schedule != []
    ensures LateTimeout(schedule, id)
       <==> LateTimeout(schedule[..|schedule| - 1], id) || LateAt(schedule, |schedule| - 1, id)
  {
    var before := schedule[..|schedule| - 1];
    if LateTimeout(before, id) {
      var k :| LateAt(before, k, id);
      LatePrefix(schedule, k, id);
    }
    if LateTimeout(schedule, id) {
      var k :| LateAt(schedule, k, id);
      if k < |schedule| - 1 {
        LatePrefix(schedule, k, id);
      }
    }
  }

  /** The channel of a link with a session goes down by a late timeout, or by the link's own shutdown. */
  lemma BoundStep(l: Link, task: Task, issued: nat)
    requires l.isShutdown ==> l.channelDown
    ensures
      var k := React(l, Handled(task, issued)).link;
      && (l.isShutdown ==> k.isShutdown)
      && (l.stack.Some? ==> k.stack == l.stack)
      && (l.stack.None? && k.stack.Some? ==> task.ReadFrames? && !k.channelDown)
      && (l.stack.Some? && !k.isShutdown ==>
            k.channelDown == (l.channelDown || (task == TimeOut && l.timer == Expired)))
  {
    var h := Handled(task, issued);
    if h.Read? && h.frames != [] {
      if l.stack.Some? { StackedFrames(l, h.frames); } else { AcceptedFrames(l, h.frames); }
    }
  }

  lemma {:induction false} DownIffLate(schedule: seq<Move>, id: Uint64)
    requires After(schedule).Some?
    ensures var links := After(schedule).value.links;
            && (id !in links || links[id].stack.None? ==> !LateTimeout(schedule, id))
            && (id in links && links[id].stack.Some? && !links[id].isShutdown ==>
                  (links[id].channelDown <==> LateTimeout(schedule, id)))
  {
    if schedule != [] {
      var n := |schedule| - 1;
      var before, m := schedule[..n], schedule[n];
      DownIffLate(before, id);
      LateStep(schedule, id);
      InvAlways(before);
      var w := After(before).value;
      assert id in w.links ==> LinkRecorded(w, id);
      if m.OnStrand? && m.id == id {
        BoundStep(w.links[id], m.task, w.issued);
      }
    }
  }

  /**
    A lookup returns only the session of a link that holds it and has not shut down.  The
    channel of that link is up, unless the first-frame timer had expired before the first
    frame and its handler ran after it; then, and only then, the lookup returns a session
    whose socket is closed.
   */
  lemma LookupIsOpen(schedule: seq<Move>, address: Uint16)
    requires After(schedule).Some?
    ensures var w := After(schedule).value;
            Find(Run(w.history), address).Some? ==>
              exists i :: Connected(w.history, address, i) && Answers(schedule, i, Find(Run(w.history), address))
  {
    InvAlways(schedule);
    var w := After(schedule).value;
    LookupIsLatestOpen(w.history, address);
    if Find(Run(w.history), address).Some? {
      var i :| Connected(w.history, address, i);
      ListedIffLive(schedule, i);
      assert Surviving(w.history, i);
      Conservation(w.history, i);
      DownIffLate(schedule, w.history[i].id);
    }
  }

  ghost predicate Answers(schedule: seq<Move>, i: int, session: Option<Handle>)
    requires After(schedule).Some? && Accepts(After(schedule).value.history, i)
  {
    var w := After(schedule).value;
    var id := w.history[i].id;
    && id in w.links && w.links[id].stack == session && !w.links[id].isShutdown
    && (w.links[id].channelDown <==> LateTimeout(schedule, id))
  }

  /** For every listed session: its channel is down exactly when a late timeout took it down. */
  lemma ListedChannelDownIff(schedule: seq<Move>, i: int)
    requires After(schedule).Some? && Accepts(After(schedule).value.history, i)
    requires var h := After(schedule).value.history; Entry(h[i]) in Run(h).sessions
    ensures Answers(schedule, i, Some(After(schedule).value.history[i].session))
  {
    ListedIffLive(schedule, i);
    DownIffLate(schedule, After(schedule).value.history[i].id);
  }

  /** The race step by step: connected, expired, bound by the first frame, and closed. */
  const CONNECTED: World := World(1, 0, map[0 := FRESH], [])
  const LATE: World := World(1, 0, map[0 := Link(None, false, false, Expired)], [])
  const BOUND: World := World(1, 1, map[0 := Link(Some(0), false, false, Expired)], [FirstFrame(0, 1, 0)])
  const CLOSED: World := World(1, 1, map[0 := Link(Some(0), false, true, Off)], [FirstFrame(0, 1, 0)])

  /**
    The registry goes on listing a session whose socket is closed: the timer expires, then
    the first frame is read, then the timer's handler gets its turn.
   */
  lemma ClosedButListed()
    ensures After([Connect] + [OnStrand(0, TimerExpires)] + [OnStrand(0, ReadFrames([1]))] + [OnStrand(0, TimeOut)])
         == Some(CLOSED)
    ensures 0 in CLOSED.links && CLOSED.links[0].channelDown
    ensures Find(Run(CLOSED.history), 1) == Some(0) == CLOSED.links[0].stack
  {
    assert After([]) == Some(UNUSED);
    var schedule: seq<Move> := [];
    OneMove(schedule, UNUSED, Connect, CONNECTED);
    assert [] + [Connect] == [Connect];
    ThenExpires([Connect]);
    ThenReads([Connect] + [OnStrand(0, TimerExpires)]);
    ThenTimesOut([Connect] + [OnStrand(0, TimerExpires)] + [OnStrand(0, ReadFrames([1]))]);
    OneSession();
  }

  lemma ThenExpires(schedule: seq<Move>)
    requires After(schedule) == Some(CONNECTED)
    ensures After(schedule + [OnStrand(0, TimerExpires)]) == Some(LATE)
  {
    assert ToEvents(0, []) == [];
    OneMove(schedule, CONNECTED, OnStrand(0, TimerExpires), LATE);
  }

  lemma ThenReads(schedule: seq<Move>)
    requires After(schedule) == Some(LATE)
    ensures After(schedule + [OnStrand(0, ReadFrames([1]))]) == Some(BOUND)
  {
    FirstRead(LATE.links[0]);
    OneMove(schedule, LATE, OnStrand(0, ReadFrames([1])), BOUND);
  }

  lemma TimeOutDoes(w: World, id: Uint64)
    requires id in w.links && w.links[id].timer == Expired
    ensures Do(w, OnStrand(id, TimeOut))
         == w.(links := w.links[id := w.links[id].(channelDown := true, timer := Off)])
  {
    assert ToEvents(id, []) == [] && w.history + [] == w.history;
  }

  lemma ThenTimesOut(schedule: seq<Move>)
    requires After(schedule) == Some(BOUND)
    ensures After(schedule + [OnStrand(0, TimeOut)]) == Some(CLOSED)
  {
    TimeOutDoes(BOUND, 0);
    OneMove(schedule, BOUND, OnStrand(0, TimeOut), CLOSED);
  }

  lemma OneSession()
    ensures Find(Run([FirstFrame(0, 1, 0)]), 1) == Some(0)
  {
    var first := [FirstFrame(0, 1, 0)];
    assert first[..0] == [] && Run(first) == Step(Run([]), first[0]);
    assert Run(first).sessions == [SessionInfo(0, 1, 0)];
  }

  lemma OneMove(schedule: seq<Move>, w: World, m: Move, v: World)
    requires After(schedule) == Some(w) && Can(w, m) && Do(w, m) == v
    ensures After(schedule + [m]) == Some(v)
  {
    assert (schedule + [m])[..|schedule|] == schedule;
  }

  lemma FirstRead(l: Link)
    requires Waiting(l)
    ensures
      var o := React(l, Handled(ReadFrames([1]), 0));
      o.link == Cancelled(l).(stack := Some(0)) && ToEvents(0, o.calls) == [FirstFrame(0, 1, 0)]
  {
    var frames := Handled(ReadFrames([1]), 0).frames;
    assert frames == [Frame(1, Some(0))];
    AcceptedFrames(l, frames);
    var calls := [OnFirstFrame(1, Some(0))];
    assert calls[1..] == [] && ToEvents(0, calls[1..]) == [];
  }
}
