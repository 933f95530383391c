/**
  What every operation of a master comes to, told from the events: when it waits, when it
  runs, and which result its caller gets; and that scans are never dropped.
 */
module MasterAnswers {
  import opened Words
  import opened TaskCallbacks
  import opened TaskScheduler
  import opened MasterRuns

  // ------------------------------ where an operation is ------------------------------

  /** A check that finds the scheduler free, and task `pick` in the queue. */
  predicate Picks(w: World, pick: nat) {
    !w.backend.isShutdown && w.backend.current == None && pick < |w.backend.tasks|
  }

  ghost predicate QueuedFor(w: World, id: nat, master: nat) {
    exists t :: t in w.backend.tasks && IsOp(t, id) && t.runner == master
  }

  ghost predicate QueuedLate(w: World, id: nat, now: Int64) {
    exists t :: t in w.backend.tasks && IsOp(t, id) && t.startExpiration <= now
  }

  predicate RunBy(w: World, id: nat, master: nat) {
    master in w.active && IsOp(w.active[master], id)
  }

  predicate Starts(w: World, e: Event, id: nat) {
    e.Check? && Picks(w, e.pick) && IsOp(w.backend.tasks[e.pick], id)
  }

  predicate Enqueues(w: World, e: Event, id: nat) {
    e.Submit? && IsOp(e.task, id) && e.task.runner in w.online && !w.backend.isShutdown
  }

  ghost predicate Dequeues(w: World, e: Event, id: nat) {
    match e
    case Close(q) => QueuedFor(w, id, q)
    case StartTimeouts(now) => QueuedLate(w, id, now)
    case Check(_) => Starts(w, e, id)
    case Shutdown => true
    case _ => false
  }

  predicate Ends(w: World, e: Event, id: nat) {
    match e
    case Finish(q, _) => RunBy(w, id, q)
    case Close(q) => RunBy(w, id, q)
    case _ => false
  }

  lemma SweptBy(w: World, id: nat)
    requires InStep(w)
    ensures forall q :: HasOp(Filter(w.backend.tasks, Of(q)), id) <==> QueuedFor(w, id, q)
    ensures forall now: Int64 :: HasOp(Filter(w.backend.tasks, Late(now)), id) <==> QueuedLate(w, id, now)
  {
    var ts := w.backend.tasks;
    forall q ensures HasOp(Filter(ts, Of(q)), id) <==> QueuedFor(w, id, q) {
      FilterKeeps(ts, Of(q));
    }
    forall now: Int64 ensures HasOp(Filter(ts, Late(now)), id) <==> QueuedLate(w, id, now) {
      FilterKeeps(ts, Late(now));
    }
  }

  lemma CloseMoves(w: World, q: nat, seen: set<nat>, id: nat)
    requires Inv(w, seen)
    ensures var v := Act(w, Close(q));
            && (Queued(v, id) <==> Queued(w, id) && !QueuedFor(w, id, q))
            && (Running(v, id) <==> Running(w, id) && !RunBy(w, id, q))
  {
    assert Consistent(w, seen, id);
    SweptBy(w, id);
    if q in w.online {
      if w.backend.isShutdown {
        var v := Act(w, Close(q));
        assert forall r :: r in v.active <==> r in w.active && r != q;
        assert forall r :: r in v.active ==> v.active[r] == w.active[r];
      } else {
        CloseTells(w, q, id, seen);
        OneHolder(w, seen, id, q);
      }
    }
  }

  /** A queued operation is not the one a master runs. */
  lemma OneHolder(w: World, seen: set<nat>, id: nat, q: nat)
    requires InStep(w) && Consistent(w, seen, id)
    ensures RunBy(w, id, q) ==> Running(w, id) && !Queued(w, id)
    ensures QueuedFor(w, id, q) ==> Queued(w, id) && !Running(w, id)
  {
  }

  lemma FinishMoves(w: World, q: nat, result: TaskCompletion, seen: set<nat>, id: nat)
    requires Inv(w, seen)
    ensures var v := Act(w, Finish(q, result));
            && (Queued(v, id) <==> Queued(w, id)) && (Running(v, id) <==> Running(w, id) && !RunBy(w, id, q))
  {
    if q in w.active {
      DistinctNext(w.backend.tasks, w.active[q]);
      assert Act(w, Finish(q, result)).active == map[];
    }
  }

  lemma CheckMoves(w: World, pick: nat, seen: set<nat>, id: nat)
    requires Inv(w, seen)
    ensures var v := Act(w, Check(pick));
            && (Queued(v, id) <==> Queued(w, id) && !Starts(w, Check(pick), id))
            && (Running(v, id) <==> Running(w, id) || Starts(w, Check(pick), id))
  {
    if Picks(w, pick) {
      var t := w.backend.tasks[pick];
      WithoutOne(w.backend.tasks, pick);
      assert Act(w, Check(pick)).active == map[t.runner := t];
    }
  }

  lemma OpenMoves(w: World, r: nat, scans: seq<nat>, id: nat)
    requires InStep(w)
    ensures var v := Act(w, Open(r, scans));
            (Queued(v, id) <==> Queued(w, id)) && (Running(v, id) <==> Running(w, id)) && Trace(v, id) == Trace(w, id)
  {
    if w.backend.isShutdown {
      AddAllShut(w.backend, Scans(r, scans));
    } else {
      AddAllScans(w.backend, r, scans);
    }
  }

  lemma ActMoves(w: World, e: Event, seen: set<nat>, id: nat)
    requires Inv(w, seen) && Named(e) !! seen
    ensures Queued(Act(w, e), id) <==> Enqueues(w, e, id) || (Queued(w, id) && !Dequeues(w, e, id))
    ensures Running(Act(w, e), id) <==> Starts(w, e, id) || (Running(w, id) && !Ends(w, e, id))
  {
    match e
    case Open(r, scans) => OpenMoves(w, r, scans, id);
    case Close(q) => CloseMoves(w, q, seen, id);
    case Submit(t) => DistinctNext(w.backend.tasks, t);
    case Check(pick) => CheckMoves(w, pick, seen, id);
    case Finish(q, result) => FinishMoves(w, q, result, seen, id);
    case StartTimeouts(now) =>
      SweptBy(w, id);
      if !w.backend.isShutdown {
        TimeoutTells(w, now, id);
      }
    case Shutdown =>
  }

  /**
    Where an operation is after an event: it waits if it was just submitted to an open
    master, or waited and was not started, closed, late or shut down; it runs if the check
    picked it, or it ran and was neither finished nor closed.
   */
  lemma StepMoves(w: World, e: Event, seen: set<nat>, id: nat)
    requires Inv(w, seen) && Named(e) !! seen
    ensures Queued(Step(w, e), id) <==> Enqueues(w, e, id) || (Queued(w, id) && !Dequeues(w, e, id))
    ensures Running(Step(w, e), id) <==> Starts(w, e, id) || (Running(w, id) && !Ends(w, e, id))
  {
    ActMoves(w, e, seen, id);
    ActStep(w, e, seen);
    StepTells(w, e, id);
  }

  // ------------------------------ which result comes ------------------------------

  ghost predicate ResultIn(calls: seq<Call>, res: TaskCompletion) {
    exists k :: 0 <= k < |calls| && calls[k] == OnComplete(res)
  }

  lemma ResultNext(calls: seq<Call>, call: Call, res: TaskCompletion)
    ensures ResultIn(calls + [call], res) <==> ResultIn(calls, res) || call == OnComplete(res)
  {
    var after := calls + [call];
    assert after[|calls|] == call && forall k :: 0 <= k < |calls| ==> after[k] == calls[k];
  }

  /** What event `e` answers the operation with, if it answers it. */
  ghost predicate Answers(w: World, e: Event, id: nat, res: TaskCompletion) {
    match e
    case Finish(q, result) => RunBy(w, id, q) && res == result
    case Close(q) =>
      !w.backend.isShutdown && (QueuedFor(w, id, q) || RunBy(w, id, q)) && res == FailureNoComms
    case StartTimeouts(now) => !w.backend.isShutdown && QueuedLate(w, id, now) && res == FailureStartTimeout
    case Submit(t) => IsOp(t, id) && t.runner !in w.online && res == FailureNoComms
    case _ => false
  }

  lemma CloseAnswersWith(w: World, q: nat, seen: set<nat>, id: nat, res: TaskCompletion)
    requires Inv(w, seen)
    ensures ResultIn(Trace(Act(w, Close(q)), id), res)
       <==> ResultIn(Trace(w, id), res) || Answers(w, Close(q), id, res)
  {
    assert Consistent(w, seen, id);
    SweptBy(w, id);
    ResultNext(Trace(w, id), OnComplete(FailureNoComms), res);
    if q in w.online && !w.backend.isShutdown {
      CloseTells(w, q, id, seen);
    }
  }

  lemma ActAnswers(w: World, e: Event, seen: set<nat>, id: nat, res: TaskCompletion)
    requires Inv(w, seen) && Named(e) !! seen
    ensures ResultIn(Trace(Act(w, e), id), res) <==> ResultIn(Trace(w, id), res) || Answers(w, e, id, res)
  {
    match e
    case Open(r, scans) => OpenMoves(w, r, scans, id);
    case Close(q) => CloseAnswersWith(w, q, seen, id, res);
    case Submit(t) => ResultNext(Trace(w, id), OnComplete(FailureNoComms), res);
    case Check(pick) => ResultNext(Trace(w, id), OnStart, res);
    case Finish(q, result) => ResultNext(Trace(w, id), OnComplete(result), res);
    case StartTimeouts(now) =>
      SweptBy(w, id);
      ResultNext(Trace(w, id), OnComplete(FailureStartTimeout), res);
      if !w.backend.isShutdown {
        TimeoutTells(w, now, id);
      }
    case Shutdown =>
  }

  lemma StepAnswers(w: World, e: Event, seen: set<nat>, id: nat, res: TaskCompletion)
    requires Inv(w, seen) && Named(e) !! seen
    ensures ResultIn(Trace(Step(w, e), id), res) <==> ResultIn(Trace(w, id), res) || Answers(w, e, id, res)
  {
    ActAnswers(w, e, seen, id, res);
    ActStep(w, e, seen);
    StepTells(w, e, id);
    ResultNext(Trace(Act(w, e), id), OnDestroyed, res);
  }

  ghost predicate AnsweredAt(events: seq<Event>, k: int, id: nat, res: TaskCompletion) {
    0 <= k < |events| && Answers(Run(events[..k]), events[k], id, res)
  }

  ghost predicate Answered(events: seq<Event>, id: nat, res: TaskCompletion) {
    exists k :: AnsweredAt(events, k, id, res)
  }

  lemma AnswerPrefix(events: seq<Event>, k: int, id: nat, res: TaskCompletion)
    requires 0 <= k < |events| - 1
    ensures AnsweredAt(events[..|events| - 1], k, id, res) == AnsweredAt(events, k, id, res)
  {
    assert events[..|events| - 1][..k] == events[..k];
  }

  lemma AnswerWitness(events: seq<Event>, id: nat, res: TaskCompletion)
    requires events != []
    ensures Answered(events, id, res)
       <==> Answered(events[..|events| - 1], id, res) || AnsweredAt(events, |events| - 1, id, res)
  {
    var init := events[..|events| - 1];
    if Answered(init, id, res) {
      var k :| AnsweredAt(init, k, id, res);
      AnswerPrefix(events, k, id, res);
    }
    if Answered(events, id, res) {
      var k :| AnsweredAt(events, k, id, res);
      if k < |events| - 1 {
        AnswerPrefix(events, k, id, res);
      }
    }
  }

  lemma {:induction false} ResultsOfRun(events: seq<Event>, id: nat, res: TaskCompletion)
    requires UniqueOps(events)
    ensures ResultIn(Trace(Run(events), id), res) <==> Answered(events, id, res)
  {
    if events != [] {
      var init, e := events[..|events| - 1], events[|events| - 1];
      ResultsOfRun(init, id, res);
      RunKeeps(init);
      RunLast(events);
      StepAnswers(Run(init), e, Seen(init), id, res);
      AnswerWitness(events, id, res);
    }
  }

  lemma RunLast(events: seq<Event>)
    requires events != []
    ensures Run(events) == Step(Run(events[..|events| - 1]), events[|events| - 1])
  {
  }

  /** The one result in a trace is what the completion task takes. */
  lemma TakesTheResult(calls: seq<Call>, res: TaskCompletion)
    requires Brief(calls) || Over(calls)
    ensures TaskAfter(None, calls) == Some(res) <==> ResultIn(calls, res)
  {
    FirstWins(calls, res);
    if ResultIn(calls, res) {
      var k :| 0 <= k < |calls| && calls[k] == OnComplete(res);
      assert forall j :: 0 <= j < |calls| && j != k ==> !calls[j].OnComplete? by {
        if Over(calls) {
          var body := calls[..|calls| - 1];
          assert forall j :: 0 <= j < |body| ==> calls[j] == body[j];
        }
      }
      assert FirstResult(calls, k, res);
    }
  }

  /**
    Over every run, told from the events: a caller gets result `res` exactly when its
    operation finished with it, or its master closed first, or its time to start ran out, or
    its master was not open when it was submitted.
   */
  lemma AnsweredIff(events: seq<Event>, id: nat, res: TaskCompletion)
    requires UniqueOps(events)
    ensures TaskAfter(None, Trace(Run(events), id)) == Some(res) <==> Answered(events, id, res)
  {
    RunKeeps(events);
    assert Consistent(Run(events), Seen(events), id);
    TakesTheResult(Trace(Run(events), id), res);
    ResultsOfRun(events, id, res);
  }

  // ------------------------------ masters and scans ------------------------------

  /** The last opening or closing of the master is an opening. */
  predicate OpenAfter(events: seq<Event>, master: nat) {
    if events == [] then false
    else
      match events[|events| - 1]
      case Open(r, _) => r == master || OpenAfter(events[..|events| - 1], master)
      case Close(r) => r != master && OpenAfter(events[..|events| - 1], master)
      case _ => OpenAfter(events[..|events| - 1], master)
  }

  lemma StepOnline(w: World, e: Event)
    ensures Step(w, e).online
         == match e
            case Open(r, _) => w.online + {r}
            case Close(r) => w.online - {r}
            case _ => w.online
  {
  }

  lemma ShutNext(events: seq<Event>)
    requires events != []
    ensures ShutIn(events) <==> ShutIn(events[..|events| - 1]) || events[|events| - 1].Shutdown?
  {
    assert forall k :: 0 <= k < |events| - 1 ==> events[..|events| - 1][k] == events[k];
  }

  /** A master is online as its own events say, and the scheduler is shut down once it was. */
  lemma {:induction false} OnlineIff(events: seq<Event>, master: nat)
    ensures master in Run(events).online <==> OpenAfter(events, master)
    ensures Run(events).backend.isShutdown <==> ShutIn(events)
  {
    if events != [] {
      var init, e := events[..|events| - 1], events[|events| - 1];
      OnlineIff(init, master);
      ShutNext(events);
      StepOnline(Run(init), e);
      ShutByShutdown(Run(init), e);
    }
  }

  /** How often a scan is in the scheduler, queued or current. */
  function Copies(b: Backend, t: Task): nat {
    multiset(b.tasks)[t] + if b.current == Some(t) then 1 else 0
  }

  /** What an event makes of the copies of a scan. */
  function NextCopies(w: World, e: Event, t: Task, copies: nat): nat
    requires t.Recurring?
  {
    match e
    case Open(r, scans) =>
      if r == t.runner && r !in w.online && !w.backend.isShutdown then multiset(scans)[t.scan] else copies
    case Close(r) => if r == t.runner then 0 else copies
    case Submit(s) => if s == t && t.runner in w.online && !w.backend.isShutdown then copies + 1 else copies
    case Shutdown => 0
    case _ => copies
  }

  lemma {:induction false} FilterCopies(ts: seq<Task>, p: Task -> bool, t: Task)
    ensures multiset(Filter(ts, p))[t] == if p(t) then multiset(ts)[t] else 0
  {
    if ts != [] {
      FilterCopies(ts[..|ts| - 1], p, t);
      assert ts == ts[..|ts| - 1] + [ts[|ts| - 1]];
    }
  }

  lemma {:induction false} ScanCopies(r: nat, scans: seq<nat>, t: Task)
    requires t.Recurring?
    ensures multiset(Scans(r, scans))[t] == if t.runner == r then multiset(scans)[t.scan] else 0
  {
    if scans != [] {
      var init, last := scans[..|scans| - 1], scans[|scans| - 1];
      ScanCopies(r, init, t);
      assert scans == init + [last] && Scans(r, scans) == Scans(r, init) + [Recurring(last, r)];
    }
  }

  lemma WithoutCopies(ts: seq<Task>, i: nat)
    requires i < |ts|
    ensures multiset(ts) == multiset(Without(ts, i)) + multiset{ts[i]}
  {
    assert ts == ts[..i] + [ts[i]] + ts[i + 1..];
  }

  lemma CloseCopies(w: World, r: nat, t: Task)
    requires InStep(w) && t.Recurring?
    ensures Copies(Act(w, Close(r)).backend, t) == if r == t.runner then 0 else Copies(w.backend, t)
  {
    FilterCopies(w.backend.tasks, Not(Of(r)), t);
    if r !in w.online {
      assert t.runner == r ==> t !in w.backend.tasks;
    }
  }

  lemma OpenCopies(w: World, r: nat, scans: seq<nat>, t: Task)
    requires InStep(w) && t.Recurring?
    ensures Copies(Act(w, Open(r, scans)).backend, t) == NextCopies(w, Open(r, scans), t, Copies(w.backend, t))
  {
    var b := w.backend;
    if b.isShutdown {
      AddAllShut(b, Scans(r, scans));
    } else {
      AddAllScans(b, r, scans);
      ScanCopies(r, scans, t);
      assert r !in w.online && t.runner == r ==> t !in b.tasks && b.current != Some(t);
    }
  }

  lemma CheckCopies(w: World, pick: nat, t: Task)
    requires InStep(w)
    ensures Copies(Act(w, Check(pick)).backend, t) == Copies(w.backend, t)
  {
    if Picks(w, pick) {
      WithoutCopies(w.backend.tasks, pick);
    }
  }

  lemma FinishCopies(w: World, q: nat, result: TaskCompletion, t: Task)
    requires InStep(w) && t.Recurring?
    ensures Copies(Act(w, Finish(q, result)).backend, t) == Copies(w.backend, t)
  {
    var b := w.backend;
    if q in w.active && !b.isShutdown {
      assert b.current == Some(w.active[q]);
      assert multiset(b.tasks + [w.active[q]]) == multiset(b.tasks) + multiset{w.active[q]};
    }
  }

  lemma ActCopies(w: World, e: Event, t: Task)
    requires InStep(w) && t.Recurring?
    ensures Copies(Act(w, e).backend, t) == NextCopies(w, e, t, Copies(w.backend, t))
  {
    match e
    case Open(r, scans) => OpenCopies(w, r, scans, t);
    case Close(r) => CloseCopies(w, r, t);
    case Submit(s) => assert multiset(w.backend.tasks + [s]) == multiset(w.backend.tasks) + multiset{s};
    case Check(pick) => CheckCopies(w, pick, t);
    case Finish(q, result) => FinishCopies(w, q, result, t);
    case StartTimeouts(now) => FilterCopies(w.backend.tasks, Not(Late(now)), t);
    case Shutdown =>
  }

  lemma StepCopies(w: World, e: Event, t: Task)
    requires InStep(w) && t.Recurring?
    ensures Copies(Step(w, e).backend, t) == NextCopies(w, e, t, Copies(w.backend, t))
  {
    ActCopies(w, e, t);
    assert Step(w, e).backend.tasks == Act(w, e).backend.tasks;
    assert Step(w, e).backend.current == Act(w, e).backend.current;
  }

  function ScanHistory(events: seq<Event>, t: Task): nat
    requires t.Recurring?
  {
    if events == [] then 0
    else
      var init := events[..|events| - 1];
      NextCopies(Run(init), events[|events| - 1], t, ScanHistory(init, t))
  }

  /**
    A scan is never dropped and never doubled: it is queued or current as often as it was
    added since its master opened, until the master closes or the scheduler is shut down.
   */
  lemma {:induction false} ScansStay(events: seq<Event>, t: Task)
    requires UniqueOps(events) && t.Recurring?
    ensures Copies(Run(events).backend, t) == ScanHistory(events, t)
  {
    if events != [] {
      var init := events[..|events| - 1];
      ScansStay(init, t);
      RunKeeps(init);
      RunLast(events);
      StepCopies(Run(init), events[|events| - 1], t);
    }
  }
}
