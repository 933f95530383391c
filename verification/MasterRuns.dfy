/**
  Whole runs of the masters that share one scheduler: what becomes of every operation, and
  which order of teardown keeps a caller waiting for ever.
 */
module MasterRuns {
  import opened Words
  import opened TaskCallbacks
  import opened TaskScheduler

  /** `active` is the task each master is running. */
  datatype World = World(backend: Backend, online: set<nat>, active: map<nat, Task>)

  /** `Check(pick)` is a check that finds task `pick` to be the best one and due. */
  datatype Event =
    | Open(runner: nat, scans: seq<nat>)
    | Close(runner: nat)
    | Submit(task: Task)
    | Check(pick: nat)
    | Finish(runner: nat, result: TaskCompletion)
    | StartTimeouts(now: Int64)
    | Shutdown

  const START := World(Backend(false, [], None, map[]), {}, map[])

  function Scans(runner: nat, scans: seq<nat>): seq<Task> {
    seq(|scans|, i requires 0 <= i < |scans| => Recurring(scans[i], runner))
  }

  /** What the scheduler and the masters do at an event. */
  function Act(w: World, e: Event): World {
    var b := w.backend;
    match e
    case Open(r, scans) =>
      if r in w.online then w else w.(online := w.online + {r}, backend := AddAll(b, Scans(r, scans)))
    case Close(r) =>
      if r !in w.online then w else World(Offline(b, r), w.online - {r}, w.active - {r})
    case Submit(t) =>
      if t.runner in w.online then w.(backend := Add(b, t))
      else w.(backend := b.(calls := Tell(b.calls, t, OnComplete(FailureNoComms))))
    case Check(pick) =>
      if b.isShutdown || b.current.Some? || pick >= |b.tasks| then w
      else
        var t := b.tasks[pick];
        var picked := Picked(b, pick);
        if t.runner in w.active then w.(backend := picked)
        else
          w.(backend := picked.(calls := Tell(b.calls, t, OnStart)), active := w.active[t.runner := t])
    case Finish(r, result) =>
      if r !in w.active then w
      else
        var told := b.(calls := Tell(b.calls, w.active[r], OnComplete(result)));
        w.(backend := CompleteCurrent(told, r), active := w.active - {r})
    case StartTimeouts(now) => w.(backend := Timeouts(b, now))
    case Shutdown => w.(backend := ShutDown(b))
  }

  /** The operations to which the queue, the scheduler or a master holds a reference. */
  function Held(w: World): set<nat> {
    (set t | t in w.backend.tasks && t.AdHoc? :: t.id)
    + (if w.backend.current.Some? && w.backend.current.value.AdHoc? then {w.backend.current.value.id} else {})
    + (set r | r in w.active && w.active[r].AdHoc? :: w.active[r].id)
  }

  /** The operation a submission makes, to which the caller holds the first reference. */
  function Named(e: Event): set<nat> {
    if e.Submit? && e.task.AdHoc? then {e.task.id} else {}
  }

  /** The destructor of each of these operations tells its callback. */
  function Destroy(w: World, ids: set<nat>): World {
    var calls := w.backend.calls;
    w.(backend := w.backend.(calls :=
      map id | id in calls.Keys + ids :: if id in ids then CallsOf(calls, id) + [OnDestroyed] else calls[id]))
  }

  /** An event, and then the end of every operation whose last reference it dropped. */
  function Step(w: World, e: Event): World {
    var v := Act(w, e);
    Destroy(v, Held(w) + Named(e) - Held(v))
  }

  function Run(events: seq<Event>): World {
    if events == [] then START else Step(Run(events[..|events| - 1]), events[|events| - 1])
  }

  // ------------------------------ what an operation sees ------------------------------

  function Trace(w: World, id: nat): seq<Call> {
    CallsOf(w.backend.calls, id)
  }

  ghost predicate Queued(w: World, id: nat) {
    HasOp(w.backend.tasks, id)
  }

  ghost predicate Running(w: World, id: nat) {
    exists r :: r in w.active && IsOp(w.active[r], id)
  }

  /** Before the destruction: at most a start, and at most one result, which comes last. */
  predicate Brief(calls: seq<Call>) {
    && |calls| <= 2
    && (|calls| == 1 ==> !calls[0].OnDestroyed?)
    && (|calls| == 2 ==> calls[0].OnStart? && calls[1].OnComplete?)
  }

  /** The destruction comes last, and once. */
  predicate Over(calls: seq<Call>) {
    calls != [] && calls[|calls| - 1].OnDestroyed? && Brief(calls[..|calls| - 1])
  }

  /** A result has come. */
  ghost predicate Completed(calls: seq<Call>) {
    exists k :: 0 <= k < |calls| && calls[k].OnComplete?
  }

  // ------------------------------ the invariant ------------------------------

  /** The scheduler's current task is the task of the one busy master. */
  ghost predicate InStep(w: World) {
    var b := w.backend;
    && (b.isShutdown ==> b.tasks == [] && b.current == None)
    && (!b.isShutdown ==>
          w.active == if b.current.Some? then map[b.current.value.runner := b.current.value] else map[])
    && (forall r :: r in w.active ==> r in w.online && w.active[r].runner == r)
    && (forall r, s :: r in w.active && s in w.active ==> r == s)
    && (forall t :: t in b.tasks ==> t.runner in w.online)
    && Distinct(b.tasks)
  }

  /** What the callback of an operation has heard fits where the operation is. */
  ghost predicate Consistent(w: World, seen: set<nat>, id: nat) {
    && (Queued(w, id) ==> Trace(w, id) == [] && !Running(w, id))
    && (Running(w, id) ==> Trace(w, id) == [OnStart])
    && (if id in seen then Queued(w, id) || Running(w, id) || Over(Trace(w, id))
        else !Queued(w, id) && !Running(w, id) && Trace(w, id) == [])
  }

  ghost predicate Inv(w: World, seen: set<nat>) {
    InStep(w) && forall id: nat :: Consistent(w, seen, id)
  }

  /** The same after an event, before the destructors: an operation let go is still to be destroyed. */
  ghost predicate Acted(w: World, e: Event, id: nat) {
    var v := Act(w, e);
    && (Queued(v, id) ==> Trace(v, id) == [] && !Running(v, id))
    && (Running(v, id) ==> Trace(v, id) == [OnStart])
    && (if Queued(w, id) || Running(w, id) || id in Named(e) then Brief(Trace(v, id))
        else !Queued(v, id) && !Running(v, id) && Trace(v, id) == Trace(w, id))
  }

  ghost predicate ActKeeps(w: World, e: Event) {
    InStep(Act(w, e)) && forall id: nat :: Acted(w, e, id)
  }

  // ------------------------------ lists of tasks ------------------------------

  /** A sweep splits the operations into those that stay and those that go and are told. */
  lemma Swept(ts: seq<Task>, p: Task -> bool, id: nat)
    requires Distinct(ts)
    ensures HasOp(ts, id) <==> HasOp(Filter(ts, p), id) || HasOp(Filter(ts, Not(p)), id)
    ensures !(HasOp(Filter(ts, p), id) && HasOp(Filter(ts, Not(p)), id))
  {
    FilterKeeps(ts, p);
    FilterKeeps(ts, Not(p));
    assert forall s, t :: s in ts && t in ts && IsOp(s, id) && IsOp(t, id) ==> s == t;
  }

  lemma WithoutOne(ts: seq<Task>, i: nat)
    requires Distinct(ts) && i < |ts|
    ensures Distinct(Without(ts, i))
    ensures forall id :: HasOp(Without(ts, i), id) <==> HasOp(ts, id) && !IsOp(ts[i], id)
  {
    var rest := Without(ts, i);
    assert forall k :: 0 <= k < |rest| ==> rest[k] == if k < i then ts[k] else ts[k + 1];
    forall id ensures HasOp(rest, id) <==> HasOp(ts, id) && !IsOp(ts[i], id) {
      if HasOp(ts, id) && !IsOp(ts[i], id) {
        var k :| 0 <= k < |ts| && IsOp(ts[k], id);
        assert rest[if k < i then k else k - 1] == ts[k];
      }
    }
  }

  // ------------------------------ steps ------------------------------

  lemma NoActKeeps(w: World, e: Event, seen: set<nat>)
    requires Inv(w, seen) && Act(w, e) == w && Named(e) == {}
    ensures ActKeeps(w, e)
  {
    forall id: nat ensures Acted(w, e, id) {
      assert Consistent(w, seen, id);
    }
  }

  lemma SubmitKeeps(w: World, t: Task, seen: set<nat>)
    requires Inv(w, seen) && (t.AdHoc? ==> t.id !in seen)
    ensures ActKeeps(w, Submit(t))
  {
    var after := Act(w, Submit(t));
    DistinctNext(w.backend.tasks, t);
    assert t.AdHoc? ==> Consistent(w, seen, t.id);
    forall id: nat ensures Acted(w, Submit(t), id) {
      assert Consistent(w, seen, id);
    }
  }

  lemma CheckKeeps(w: World, pick: nat, seen: set<nat>)
    requires Inv(w, seen)
    ensures ActKeeps(w, Check(pick))
  {
    var b, after := w.backend, Act(w, Check(pick));
    if !b.isShutdown && b.current == None && pick < |b.tasks| {
      var t := b.tasks[pick];
      WithoutOne(b.tasks, pick);
      assert after.active == map[t.runner := t];
      forall id: nat ensures Acted(w, Check(pick), id) {
        assert Consistent(w, seen, id);
        assert IsOp(t, id) ==> Queued(w, id);
      }
    } else {
      NoActKeeps(w, Check(pick), seen);
    }
  }

  lemma FinishKeeps(w: World, r: nat, result: TaskCompletion, seen: set<nat>)
    requires Inv(w, seen)
    ensures ActKeeps(w, Finish(r, result))
  {
    var after := Act(w, Finish(r, result));
    if r in w.active {
      var t := w.active[r];
      DistinctNext(w.backend.tasks, t);
      assert after.active == map[];
      forall id: nat ensures Acted(w, Finish(r, result), id) {
        assert Consistent(w, seen, id);
        assert IsOp(t, id) ==> Running(w, id);
      }
    } else {
      NoActKeeps(w, Finish(r, result), seen);
    }
  }

  /** The operations a close ends: those of the master that goes. */
  ghost predicate ClosedBy(w: World, r: nat, id: nat) {
    HasOp(Filter(w.backend.tasks, Of(r)), id) || (r in w.active && IsOp(w.active[r], id))
  }

  lemma CloseTells(w: World, r: nat, id: nat, seen: set<nat>)
    requires InStep(w) && Consistent(w, seen, id) && r in w.online && !w.backend.isShutdown
    ensures var after := Act(w, Close(r));
            && (Queued(after, id) <==> Queued(w, id) && !ClosedBy(w, r, id))
            && (Running(after, id) <==> Running(w, id) && !ClosedBy(w, r, id))
            && Trace(after, id)
            == if ClosedBy(w, r, id) then Trace(w, id) + [OnComplete(FailureNoComms)] else Trace(w, id)
  {
    var b := w.backend;
    FilterKeeps(b.tasks, Of(r));
    Swept(b.tasks, Of(r), id);
    if r in w.active {
      assert b.current == Some(w.active[r]) && w.active - {r} == map[];
      assert IsOp(w.active[r], id) ==> Running(w, id);
      ToldOnce(
        Tell(b.calls, w.active[r], OnComplete(FailureNoComms)), Filter(b.tasks, Of(r)),
        OnComplete(FailureNoComms), id);
    } else {
      assert w.active - {r} == w.active;
      ToldOnce(b.calls, Filter(b.tasks, Of(r)), OnComplete(FailureNoComms), id);
    }
  }

  lemma CloseInStep(w: World, r: nat)
    requires InStep(w) && r in w.online
    ensures InStep(Act(w, Close(r)))
  {
    var b, after := w.backend, Act(w, Close(r));
    FilterKeeps(b.tasks, Not(Of(r)));
    if b.isShutdown {
      assert after.backend == b;
    } else if r in w.active {
      assert b.current == Some(w.active[r]) && after.active == map[];
    } else {
      assert after.active == w.active;
    }
  }

  lemma CloseKeeps(w: World, r: nat, seen: set<nat>)
    requires Inv(w, seen)
    ensures ActKeeps(w, Close(r))
  {
    if r in w.online {
      CloseInStep(w, r);
      forall id: nat ensures Acted(w, Close(r), id) {
        assert Consistent(w, seen, id);
        if w.backend.isShutdown {
          CloseWhenShut(w, r, id);
        } else {
          CloseTells(w, r, id, seen);
          FilterKeeps(w.backend.tasks, Of(r));
        }
      }
    } else {
      NoActKeeps(w, Close(r), seen);
    }
  }

  /** A close behind a shutdown tells nobody; the master lets go of what it was running. */
  lemma CloseWhenShut(w: World, r: nat, id: nat)
    requires InStep(w) && w.backend.isShutdown && r in w.online
    ensures var after := Act(w, Close(r));
            && Trace(after, id) == Trace(w, id) && !Queued(after, id)
            && (Running(after, id) ==> Running(w, id)) && (w.online == {r} ==> !Running(after, id))
  {
    var after := Act(w, Close(r));
    assert forall q :: q in after.active ==> q in w.active && after.active[q] == w.active[q];
  }

  lemma TimeoutTells(w: World, now: Int64, id: nat)
    requires InStep(w) && !w.backend.isShutdown
    ensures
      var after := Act(w, StartTimeouts(now));
      var late := HasOp(Filter(w.backend.tasks, Late(now)), id);
      && (Queued(after, id) <==> Queued(w, id) && !late) && (late ==> Queued(w, id))
      && (Running(after, id) <==> Running(w, id))
      && Trace(after, id) == if late then Trace(w, id) + [OnComplete(FailureStartTimeout)] else Trace(w, id)
  {
    var b := w.backend;
    FilterKeeps(b.tasks, Late(now));
    Swept(b.tasks, Late(now), id);
    ToldOnce(b.calls, Filter(b.tasks, Late(now)), OnComplete(FailureStartTimeout), id);
  }

  lemma TimeoutsKeep(w: World, now: Int64, seen: set<nat>)
    requires Inv(w, seen)
    ensures ActKeeps(w, StartTimeouts(now))
  {
    if w.backend.isShutdown {
      NoActKeeps(w, StartTimeouts(now), seen);
    } else {
      FilterKeeps(w.backend.tasks, Not(Late(now)));
      forall id: nat ensures Acted(w, StartTimeouts(now), id) {
        assert Consistent(w, seen, id);
        TimeoutTells(w, now, id);
      }
    }
  }

  lemma {:induction false} AddAllScans(b: Backend, r: nat, scans: seq<nat>)
    requires !b.isShutdown && Distinct(b.tasks)
    ensures var after := AddAll(b, Scans(r, scans));
            && after == b.(tasks := b.tasks + Scans(r, scans))
            && Distinct(after.tasks)
            && forall id :: HasOp(after.tasks, id) <==> HasOp(b.tasks, id)
    decreases |scans|
  {
    if scans == [] {
      assert b.tasks + Scans(r, scans) == b.tasks;
    } else {
      var t := Recurring(scans[0], r);
      DistinctNext(b.tasks, t);
      AddAllScans(Add(b, t), r, scans[1..]);
      assert Scans(r, scans) == [t] + Scans(r, scans[1..]);
      assert b.tasks + Scans(r, scans) == b.tasks + [t] + Scans(r, scans[1..]);
    }
  }

  lemma {:induction false} AddAllShut(b: Backend, ts: seq<Task>)
    requires b.isShutdown
    ensures AddAll(b, ts) == b
    decreases |ts|
  {
    if ts != [] {
      AddAllShut(b, ts[1..]);
    }
  }

  lemma OpenKeeps(w: World, r: nat, scans: seq<nat>, seen: set<nat>)
    requires Inv(w, seen)
    ensures ActKeeps(w, Open(r, scans))
  {
    var after := Act(w, Open(r, scans));
    if w.backend.isShutdown {
      AddAllShut(w.backend, Scans(r, scans));
    } else {
      AddAllScans(w.backend, r, scans);
    }
    forall id: nat ensures Acted(w, Open(r, scans), id) {
      assert Consistent(w, seen, id);
    }
  }

  /** The operations held are the queued and the running ones. */
  lemma HeldIff(w: World, id: nat)
    requires InStep(w)
    ensures id in Held(w) <==> Queued(w, id) || Running(w, id)
  {
    if w.backend.current.Some? {
      assert w.backend.current.value.runner in w.active;
    }
    if HasOp(w.backend.tasks, id) {
      var t :| t in w.backend.tasks && IsOp(t, id);
      assert t.AdHoc? && t.id == id;
    }
  }

  lemma ActStep(w: World, e: Event, seen: set<nat>)
    requires Inv(w, seen) && Named(e) !! seen
    ensures ActKeeps(w, e)
  {
    match e
    case Open(r, scans) => OpenKeeps(w, r, scans, seen);
    case Close(r) => CloseKeeps(w, r, seen);
    case Submit(t) => SubmitKeeps(w, t, seen);
    case Check(pick) => CheckKeeps(w, pick, seen);
    case Finish(r, result) => FinishKeeps(w, r, result, seen);
    case StartTimeouts(now) => TimeoutsKeep(w, now, seen);
    case Shutdown =>
      forall id: nat ensures Acted(w, e, id) {
        assert Consistent(w, seen, id);
      }
  }

  /** What the destructors add to a trace. */
  lemma StepTells(w: World, e: Event, id: nat)
    requires InStep(w) && InStep(Act(w, e))
    ensures
      var v, after := Act(w, e), Step(w, e);
      var gone := (Queued(w, id) || Running(w, id) || id in Named(e)) && !Queued(v, id) && !Running(v, id);
      && InStep(after) && (Queued(after, id) <==> Queued(v, id)) && (Running(after, id) <==> Running(v, id))
      && Trace(after, id) == if gone then Trace(v, id) + [OnDestroyed] else Trace(v, id)
  {
    HeldIff(w, id);
    HeldIff(Act(w, e), id);
  }

  lemma StepKeeps(w: World, e: Event, seen: set<nat>)
    requires Inv(w, seen) && Named(e) !! seen
    ensures Inv(Step(w, e), seen + Named(e))
  {
    ActStep(w, e, seen);
    forall id: nat ensures Consistent(Step(w, e), seen + Named(e), id) {
      assert Consistent(w, seen, id) && Acted(w, e, id);
      StepConsistent(w, e, seen, id);
    }
  }

  lemma StepConsistent(w: World, e: Event, seen: set<nat>, id: nat)
    requires InStep(w) && InStep(Act(w, e)) && Consistent(w, seen, id) && Acted(w, e, id)
    ensures Consistent(Step(w, e), seen + Named(e), id)
  {
    StepTells(w, e, id);
    var trace := Trace(Act(w, e), id) + [OnDestroyed];
    assert trace[..|trace| - 1] == Trace(Act(w, e), id);
  }

  /** After its destruction an operation hears nothing more. */
  lemma OverIsFinal(w: World, e: Event, seen: set<nat>, id: nat)
    requires Inv(w, seen) && Named(e) !! seen && id in seen && Over(Trace(w, id))
    ensures Trace(Step(w, e), id) == Trace(w, id) && !Queued(Step(w, e), id) && !Running(Step(w, e), id)
  {
    assert Consistent(w, seen, id);
    ActStep(w, e, seen);
    assert Acted(w, e, id);
    StepTells(w, e, id);
  }

  // ------------------------------ lost operations ------------------------------

  /** No result has come, and none is on its way. */
  ghost predicate Lost(w: World, seen: set<nat>, id: nat) {
    id in seen && !Queued(w, id) && !Running(w, id) && !Completed(Trace(w, id))
  }

  /** The three ways to lose an operation. */
  ghost predicate Loses(w: World, e: Event, id: nat) {
    match e
    case Shutdown => Queued(w, id)
    case Submit(t) => IsOp(t, id) && w.backend.isShutdown && t.runner in w.online
    case Close(r) => w.backend.isShutdown && r in w.online && r in w.active && IsOp(w.active[r], id)
    case _ => false
  }

  lemma CompletedNext(calls: seq<Call>, call: Call)
    ensures Completed(calls + [call]) <==> Completed(calls) || call.OnComplete?
  {
    var after := calls + [call];
    assert after[|calls|] == call && forall k :: 0 <= k < |calls| ==> after[k] == calls[k];
  }

  lemma CloseLoses(w: World, r: nat, seen: set<nat>, id: nat)
    requires Inv(w, seen)
    ensures Lost(Act(w, Close(r)), seen, id) <==> Lost(w, seen, id) || Loses(w, Close(r), id)
    ensures Lost(w, seen, id) ==> Trace(Act(w, Close(r)), id) == Trace(w, id)
  {
    assert Consistent(w, seen, id);
    if r in w.online && !w.backend.isShutdown {
      CloseTells(w, r, id, seen);
      Swept(w.backend.tasks, Of(r), id);
      CompletedNext(Trace(w, id), OnComplete(FailureNoComms));
    } else if r in w.active {
      assert w.active - {r} == map[];
      assert IsOp(w.active[r], id) <==> Running(w, id);
    } else if r in w.online {
      assert w.active - {r} == w.active;
    }
  }

  lemma SubmitLoses(w: World, t: Task, seen: set<nat>, id: nat)
    requires Inv(w, seen) && Named(Submit(t)) !! seen
    ensures var after := Act(w, Submit(t));
            && (Lost(after, seen + Named(Submit(t)), id) <==> Lost(w, seen, id) || Loses(w, Submit(t), id))
            && (Lost(w, seen, id) ==> Trace(after, id) == Trace(w, id))
  {
    assert Consistent(w, seen, id);
    DistinctNext(w.backend.tasks, t);
    CompletedNext(Trace(w, id), OnComplete(FailureNoComms));
  }

  lemma CheckLosesNone(w: World, pick: nat, seen: set<nat>, id: nat)
    requires Inv(w, seen)
    ensures Lost(Act(w, Check(pick)), seen, id) <==> Lost(w, seen, id)
    ensures Lost(w, seen, id) ==> Trace(Act(w, Check(pick)), id) == Trace(w, id)
  {
    var b, after := w.backend, Act(w, Check(pick));
    assert Consistent(w, seen, id);
    if !b.isShutdown && b.current == None && pick < |b.tasks| {
      var t := b.tasks[pick];
      WithoutOne(b.tasks, pick);
      assert after.active == map[t.runner := t];
      assert IsOp(t, id) ==> Queued(w, id) && IsOp(after.active[t.runner], id);
    }
  }

  lemma FinishLosesNone(w: World, r: nat, result: TaskCompletion, seen: set<nat>, id: nat)
    requires Inv(w, seen)
    ensures Lost(Act(w, Finish(r, result)), seen, id) <==> Lost(w, seen, id)
    ensures Lost(w, seen, id) ==> Trace(Act(w, Finish(r, result)), id) == Trace(w, id)
  {
    assert Consistent(w, seen, id);
    CompletedNext(Trace(w, id), OnComplete(result));
    if r in w.active {
      DistinctNext(w.backend.tasks, w.active[r]);
      assert IsOp(w.active[r], id) ==> Running(w, id);
    }
  }

  lemma TimeoutsLoseNone(w: World, now: Int64, seen: set<nat>, id: nat)
    requires Inv(w, seen)
    ensures Lost(Act(w, StartTimeouts(now)), seen, id) <==> Lost(w, seen, id)
    ensures Lost(w, seen, id) ==> Trace(Act(w, StartTimeouts(now)), id) == Trace(w, id)
  {
    assert Consistent(w, seen, id);
    if !w.backend.isShutdown {
      TimeoutTells(w, now, id);
      CompletedNext(Trace(w, id), OnComplete(FailureStartTimeout));
    }
  }

  lemma OpenLosesNone(w: World, r: nat, scans: seq<nat>, seen: set<nat>, id: nat)
    requires Inv(w, seen)
    ensures Lost(Act(w, Open(r, scans)), seen, id) <==> Lost(w, seen, id)
    ensures Trace(Act(w, Open(r, scans)), id) == Trace(w, id)
  {
    if w.backend.isShutdown {
      AddAllShut(w.backend, Scans(r, scans));
    } else {
      AddAllScans(w.backend, r, scans);
    }
  }

  lemma ActLoses(w: World, e: Event, seen: set<nat>, id: nat)
    requires Inv(w, seen) && Named(e) !! seen
    ensures Lost(Act(w, e), seen + Named(e), id) <==> Lost(w, seen, id) || Loses(w, e, id)
    ensures Lost(w, seen, id) ==> Trace(Act(w, e), id) == Trace(w, id)
  {
    assert seen + {} == seen;
    match e
    case Open(r, scans) => OpenLosesNone(w, r, scans, seen, id);
    case Close(r) => CloseLoses(w, r, seen, id);
    case Submit(t) => SubmitLoses(w, t, seen, id);
    case Check(pick) => CheckLosesNone(w, pick, seen, id);
    case Finish(r, result) => FinishLosesNone(w, r, result, seen, id);
    case StartTimeouts(now) => TimeoutsLoseNone(w, now, seen, id);
    case Shutdown => assert Consistent(w, seen, id);
  }

  lemma StepLosesIff(w: World, e: Event, seen: set<nat>, id: nat)
    requires Inv(w, seen) && Named(e) !! seen
    ensures Lost(Step(w, e), seen + Named(e), id) <==> Lost(w, seen, id) || Loses(w, e, id)
    ensures Lost(w, seen, id) ==> Trace(Step(w, e), id) == Trace(w, id)
  {
    ActLoses(w, e, seen, id);
    ActStep(w, e, seen);
    StepTells(w, e, id);
    CompletedNext(Trace(Act(w, e), id), OnDestroyed);
  }

  // ------------------------------ runs ------------------------------

  function Seen(events: seq<Event>): set<nat> {
    if events == [] then {} else Seen(events[..|events| - 1]) + Named(events[|events| - 1])
  }

  /** Each operation is a task of its own, submitted once. */
  predicate UniqueOps(events: seq<Event>) {
    events == []
    || (UniqueOps(events[..|events| - 1]) && Named(events[|events| - 1]) !! Seen(events[..|events| - 1]))
  }

  lemma {:induction false} RunKeeps(events: seq<Event>)
    requires UniqueOps(events)
    ensures Inv(Run(events), Seen(events))
  {
    if events == [] {
      assert forall id: nat :: Consistent(START, {}, id);
    } else {
      RunKeeps(events[..|events| - 1]);
      StepKeeps(Run(events[..|events| - 1]), events[|events| - 1], Seen(events[..|events| - 1]));
    }
  }

  /**
    After any run every operation submitted is in exactly one place: queued and untold,
    running and told so, answered once and destroyed, or lost.
   */
  lemma ExactlyOneFate(events: seq<Event>, id: nat)
    requires UniqueOps(events) && id in Seen(events)
    ensures
      var w := Run(events);
      var queued, running := Queued(w, id), Running(w, id);
      var answered, lost := Completed(Trace(w, id)), Lost(w, Seen(events), id);
      && (queued ==> Trace(w, id) == []) && (running ==> Trace(w, id) == [OnStart])
      && (answered || lost ==> Over(Trace(w, id)))
      && (queued || running || answered || lost)
      && !(queued && running) && !(answered && (queued || running)) && !(lost && (queued || running || answered))
  {
    RunKeeps(events);
    assert Consistent(Run(events), Seen(events), id);
  }

  /**
    The destruction comes last and once, exactly when nothing holds the operation any more;
    and an operation is lost exactly when it is destroyed without a result.
   */
  lemma DestroyedIff(events: seq<Event>, id: nat)
    requires UniqueOps(events) && id in Seen(events)
    ensures
      var w := Run(events);
      var trace := Trace(w, id);
      && (OnDestroyed in trace <==> !Queued(w, id) && !Running(w, id))
      && (forall k :: 0 <= k < |trace| && trace[k].OnDestroyed? ==> k == |trace| - 1)
      && (Lost(w, Seen(events), id) <==> OnDestroyed in trace && !Completed(trace))
  {
    RunKeeps(events);
    assert Consistent(Run(events), Seen(events), id);
    OverEnds(Trace(Run(events), id));
  }

  lemma OverEnds(trace: seq<Call>)
    ensures Over(trace) ==> OnDestroyed in trace
    ensures Over(trace) ==> forall k :: 0 <= k < |trace| && trace[k].OnDestroyed? ==> k == |trace| - 1
  {
    if Over(trace) {
      assert trace[|trace| - 1] == OnDestroyed;
      assert forall k :: 0 <= k < |trace| - 1 ==> trace[..|trace| - 1][k] == trace[k];
    }
  }

  /** The task a caller awaits has a result exactly when its operation is neither waiting nor lost. */
  lemma AwaitEndsIff(events: seq<Event>, id: nat)
    requires UniqueOps(events) && id in Seen(events)
    ensures
      var w := Run(events);
      TaskAfter(None, Trace(w, id)).Some? <==> !Queued(w, id) && !Running(w, id) && !Lost(w, Seen(events), id)
  {
    RunKeeps(events);
    assert Consistent(Run(events), Seen(events), id);
    FirstWins(Trace(Run(events), id), Success);
  }

  /** Step `k` of the run loses the operation. */
  ghost predicate LostAt(events: seq<Event>, k: int, id: nat)
    requires 0 <= k < |events|
  {
    Loses(Run(events[..k]), events[k], id)
  }

  lemma LostLast(events: seq<Event>, id: nat)
    requires UniqueOps(events) && events != []
    ensures Lost(Run(events), Seen(events), id)
       <==> || Lost(Run(events[..|events| - 1]), Seen(events[..|events| - 1]), id)
            || LostAt(events, |events| - 1, id)
  {
    var init := events[..|events| - 1];
    RunKeeps(init);
    StepLosesIff(Run(init), events[|events| - 1], Seen(init), id);
  }

  /** Some step of the run loses the operation. */
  ghost predicate LostOnce(events: seq<Event>, id: nat) {
    exists k :: 0 <= k < |events| && LostAt(events, k, id)
  }

  lemma LostWitness(events: seq<Event>, id: nat)
    requires events != []
    ensures LostOnce(events, id) <==> LostOnce(events[..|events| - 1], id) || LostAt(events, |events| - 1, id)
  {
    var n := |events| - 1;
    forall k | 0 <= k < n ensures LostAt(events[..n], k, id) == LostAt(events, k, id) {
      assert events[..n][..k] == events[..k];
    }
    if LostOnce(events[..n], id) {
      var k :| 0 <= k < n && LostAt(events[..n], k, id);
      assert LostAt(events, k, id);
    }
  }

  /** An operation is lost after a run exactly when some step of the run lost it. */
  lemma {:induction false} LostIff(events: seq<Event>, id: nat)
    requires UniqueOps(events)
    ensures Lost(Run(events), Seen(events), id) <==> LostOnce(events, id)
  {
    if events != [] {
      LostIff(events[..|events| - 1], id);
      LostLast(events, id);
      LostWitness(events, id);
    }
  }

  /** Once lost, never answered. */
  lemma {:induction false} LostForever(events: seq<Event>, more: seq<Event>, id: nat)
    requires UniqueOps(events + more) && Lost(Run(events), Seen(events), id) && UniqueOps(events)
    ensures Lost(Run(events + more), Seen(events + more), id)
    ensures Trace(Run(events + more), id) == Trace(Run(events), id)
  {
    if more == [] {
      assert events + more == events;
    } else {
      var all, init := events + more, events + more[..|more| - 1];
      assert all[..|all| - 1] == init;
      LostForever(events, more[..|more| - 1], id);
      RunKeeps(init);
      StepLosesIff(Run(init), all[|all| - 1], Seen(init), id);
    }
  }

  // ------------------------------ teardown ------------------------------

  /** The scheduler is shut down only when all masters are closed, and none opens again. */
  ghost predicate Orderly(events: seq<Event>) {
    && (forall k :: 0 <= k < |events| && events[k].Shutdown? ==> Run(events[..k]).online == {})
    && (forall j, k :: 0 <= j < k < |events| && events[j].Shutdown? ==> !events[k].Open?)
  }

  predicate ShutIn(events: seq<Event>) {
    exists k :: 0 <= k < |events| && events[k].Shutdown?
  }

  lemma OrderlyInit(events: seq<Event>)
    requires Orderly(events) && events != []
    ensures
      var init, e := events[..|events| - 1], events[|events| - 1];
      && Orderly(init)
      && (e.Shutdown? ==> Run(init).online == {})
      && (e.Open? ==> !ShutIn(init))
      && (ShutIn(events) <==> ShutIn(init) || e.Shutdown?)
  {
    var n := |events| - 1;
    var init := events[..n];
    assert forall k :: 0 <= k < n ==> init[k] == events[k];
    forall k | 0 <= k < n ensures init[..k] == events[..k] {}
  }

  lemma {:induction false} ClosedAfterShutdown(events: seq<Event>)
    requires Orderly(events)
    ensures Run(events).backend.isShutdown ==> Run(events).online == {} && ShutIn(events)
  {
    if events != [] {
      OrderlyInit(events);
      ClosedAfterShutdown(events[..|events| - 1]);
      ShutByShutdown(Run(events[..|events| - 1]), events[|events| - 1]);
    }
  }

  lemma ShutByShutdown(w: World, e: Event)
    ensures Step(w, e).backend.isShutdown == (w.backend.isShutdown || e.Shutdown?)
    ensures e.Open? || Step(w, e).online <= w.online
  {
    if e.Open? && !(e.runner in w.online) {
      AddAllKeepsFlag(w.backend, Scans(e.runner, e.scans));
    }
  }

  lemma {:induction false} AddAllKeepsFlag(b: Backend, ts: seq<Task>)
    ensures AddAll(b, ts).isShutdown == b.isShutdown
    decreases |ts|
  {
    if ts != [] {
      AddAllKeepsFlag(Add(b, ts[0]), ts[1..]);
    }
  }

  /** A channel closes its masters first: nothing is lost, and in the end all is answered. */
  lemma OrderlyLosesNone(events: seq<Event>, id: nat)
    requires UniqueOps(events) && Orderly(events)
    ensures !Lost(Run(events), Seen(events), id)
    ensures Run(events).backend.isShutdown && id in Seen(events) ==> Completed(Trace(Run(events), id))
  {
    forall k | 0 <= k < |events| ensures !LostAt(events, k, id) {
      OrderlyPrefix(events, k);
      ClosedAfterShutdown(events[..k]);
      RunKeeps(events[..k]);
    }
    LostIff(events, id);
    RunKeeps(events);
    ClosedAfterShutdown(events);
  }

  lemma {:induction false} OrderlyPrefix(events: seq<Event>, k: nat)
    requires k <= |events| && UniqueOps(events) && Orderly(events)
    ensures UniqueOps(events[..k]) && Orderly(events[..k])
    decreases |events|
  {
    var n := |events| - 1;
    if k <= n {
      var init := events[..n];
      assert forall j :: 0 <= j < n ==> init[..j] == events[..j] && init[j] == events[j];
      OrderlyPrefix(init, k);
      assert init[..k] == events[..k];
    } else {
      assert events[..k] == events;
    }
  }

  /**
    A session that is evicted shuts its scheduler down before its master closes, and every
    operation it has then is lost; in the other order each would have had its answer.
   */
  lemma EvictionLosesAll(w: World, r: nat, seen: set<nat>, id: nat)
    requires Inv(w, seen) && !w.backend.isShutdown && w.online == {r}
    requires Queued(w, id) || Running(w, id)
    ensures
      var evicted := Step(Step(w, Shutdown), Close(r));
      Lost(evicted, seen, id) && Trace(evicted, id) == Trace(w, id) + [OnDestroyed]
    ensures
      var closed := Step(Step(w, Close(r)), Shutdown);
      Trace(closed, id) == Trace(w, id) + [OnComplete(FailureNoComms), OnDestroyed]
  {
    ShutdownThenClose(w, r, seen, id);
    CloseThenShutdown(w, r, seen, id);
  }

  lemma ShutdownThenClose(w: World, r: nat, seen: set<nat>, id: nat)
    requires Inv(w, seen) && !w.backend.isShutdown && w.online == {r} && (Queued(w, id) || Running(w, id))
    ensures
      var evicted := Step(Step(w, Shutdown), Close(r));
      Lost(evicted, seen, id) && Trace(evicted, id) == Trace(w, id) + [OnDestroyed]
  {
    var v := Step(w, Shutdown);
    assert seen + {} == seen && Consistent(w, seen, id);
    StepKeeps(w, Shutdown, seen);
    StepLosesIff(w, Shutdown, seen, id);
    ActStep(w, Shutdown, seen);
    StepTells(w, Shutdown, id);
    StepLosesIff(v, Close(r), seen, id);
    ActStep(v, Close(r), seen);
    assert Acted(v, Close(r), id);
    StepTells(v, Close(r), id);
    CloseWhenShut(v, r, id);
  }

  lemma CloseThenShutdown(w: World, r: nat, seen: set<nat>, id: nat)
    requires Inv(w, seen) && !w.backend.isShutdown && w.online == {r} && (Queued(w, id) || Running(w, id))
    ensures
      var closed := Step(Step(w, Close(r)), Shutdown);
      Trace(closed, id) == Trace(w, id) + [OnComplete(FailureNoComms), OnDestroyed]
  {
    assert seen + {} == seen && Consistent(w, seen, id);
    FilterKeeps(w.backend.tasks, Of(r));
    CloseAnswers(w, r, seen, id);
    StepKeeps(w, Close(r), seen);
    OverIsFinal(Step(w, Close(r)), Shutdown, seen, id);
  }

  lemma AnsweredThenOver(before: seq<Call>, result: TaskCompletion)
    requires before == [] || before == [OnStart]
    ensures Over(before + [OnComplete(result)] + [OnDestroyed])
    ensures before + [OnComplete(result)] + [OnDestroyed] == before + [OnComplete(result), OnDestroyed]
  {
    var all := before + [OnComplete(result)] + [OnDestroyed];
    assert all[..|all| - 1] == before + [OnComplete(result)];
  }

  /** A close answers and ends every operation of its master. */
  lemma CloseAnswers(w: World, r: nat, seen: set<nat>, id: nat)
    requires InStep(w) && Consistent(w, seen, id) && (Queued(w, id) || Running(w, id))
    requires !w.backend.isShutdown && r in w.online && ClosedBy(w, r, id)
    ensures var trace := Trace(Step(w, Close(r)), id);
            Over(trace) && trace == Trace(w, id) + [OnComplete(FailureNoComms), OnDestroyed]
  {
    AnsweredThenOver(Trace(w, id), FailureNoComms);
    CloseTells(w, r, id, seen);
    CloseInStep(w, r);
    StepTells(w, Close(r), id);
  }

  /** The shortest eviction: an operation is submitted, and the session is replaced before it starts. */
  lemma EvictedBeforeStart()
    ensures
      var events := [Open(0, [])] + [Submit(AdHoc(1, 0, 5000))] + [Shutdown] + [Close(0)];
      UniqueOps(events) && Lost(Run(events), Seen(events), 1) && Trace(Run(events), 1) == [OnDestroyed]
  {
    var op := AdHoc(1, 0, 5000);
    var begun := [] + [Open(0, [])];
    OneMore([], Open(0, []));
    OneMore(begun, Submit(op));
    QueuedFirst(op);
    EvictedAfter(begun + [Submit(op)], op);
    assert begun == [Open(0, [])];
  }

  lemma EvictedAfter(events: seq<Event>, op: Task)
    requires UniqueOps(events) && op.AdHoc?
    requires var w := Run(events); !w.backend.isShutdown && w.online == {0} && Queued(w, op.id)
    ensures
      var all := events + [Shutdown] + [Close(0)];
      UniqueOps(all) && Lost(Run(all), Seen(all), op.id) && Trace(Run(all), op.id) == [OnDestroyed]
  {
    ShutdownCloseRuns(events);
    RunKeeps(events);
    EvictedUntold(Run(events), Seen(events), op.id);
  }

  lemma ShutdownCloseRuns(events: seq<Event>)
    requires UniqueOps(events)
    ensures
      var all := events + [Shutdown] + [Close(0)];
      UniqueOps(all) && Run(all) == Step(Step(Run(events), Shutdown), Close(0)) && Seen(all) == Seen(events)
  {
    OneMore(events, Shutdown);
    OneMore(events + [Shutdown], Close(0));
    assert Seen(events) + {} + {} == Seen(events);
  }

  lemma EvictedUntold(w: World, seen: set<nat>, id: nat)
    requires Inv(w, seen) && !w.backend.isShutdown && w.online == {0} && Queued(w, id)
    ensures var evicted := Step(Step(w, Shutdown), Close(0));
            Lost(evicted, seen, id) && Trace(evicted, id) == [OnDestroyed]
  {
    assert Consistent(w, seen, id);
    EvictionLosesAll(w, 0, seen, id);
  }

  lemma QueuedFirst(op: Task)
    requires op.AdHoc? && op.runner == 0
    ensures
      var w := Step(Step(START, Open(0, [])), Submit(op));
      !w.backend.isShutdown && w.online == {0} && Queued(w, op.id) && Trace(w, op.id) == []
  {
    var online := Step(START, Open(0, []));
    assert Scans(0, []) == [];
    assert !online.backend.isShutdown && online.online == {0} && online.backend.tasks == [];
    assert Trace(online, op.id) == [];
    var v := Act(online, Submit(op));
    assert op in v.backend.tasks && IsOp(op, op.id) && op.id in Held(v);
  }

  lemma OneMore(events: seq<Event>, e: Event)
    ensures Run(events + [e]) == Step(Run(events), e)
    ensures Seen(events + [e]) == Seen(events) + Named(e)
    ensures UniqueOps(events + [e]) <==> UniqueOps(events) && Named(e) !! Seen(events)
  {
    assert (events + [e])[..|events|] == events;
  }
}
