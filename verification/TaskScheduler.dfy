/**
  The native task scheduler behind the master's operations: the queue shared by the masters
  of a channel, and what each operation's callback hears until its task is let go.
 */
module TaskScheduler {
  import opened Words
  import opened TaskCallbacks
  import opened TaskChoice

  /** One operation runs once, and has a time by which it must start; a scan is queued again after each run. */
  datatype Task =
    | AdHoc(id: nat, runner: nat, startExpiration: Int64)
    | Recurring(scan: nat, runner: nat)

  /**
    The calls each operation's callback has had.  The scheduler itself reports starts and
    results; the call of the destructor comes when the last reference to a task goes, which
    may be a master's.
   */
  type Calls = map<nat, seq<Call>>

  function CallsOf(calls: Calls, id: nat): seq<Call> {
    if id in calls then calls[id] else []
  }

  /** The callback of a task is told; those of scans are not followed. */
  function Tell(calls: Calls, t: Task, call: Call): Calls {
    if t.AdHoc? then calls[t.id := CallsOf(calls, t.id) + [call]] else calls
  }

  function TellAll(calls: Calls, ts: seq<Task>, call: Call): Calls {
    if ts == [] then calls else Tell(TellAll(calls, ts[..|ts| - 1], call), ts[|ts| - 1], call)
  }

  function Filter(ts: seq<Task>, keep: Task -> bool): seq<Task> {
    if ts == [] then []
    else
      var rest, last := Filter(ts[..|ts| - 1], keep), ts[|ts| - 1];
      if keep(last) then rest + [last] else rest
  }

  lemma FilterNext(ts: seq<Task>, i: nat, keep: Task -> bool)
    requires i < |ts|
    ensures Filter(ts[..i + 1], keep)
         == if keep(ts[i]) then Filter(ts[..i], keep) + [ts[i]] else Filter(ts[..i], keep)
  {
    assert ts[..i + 1][..i] == ts[..i];
  }

  lemma TellNext(calls: Calls, ts: seq<Task>, t: Task, call: Call)
    ensures TellAll(calls, ts + [t], call) == Tell(TellAll(calls, ts, call), t, call)
  {
    assert (ts + [t])[..|ts|] == ts;
  }

  function Not(p: Task -> bool): Task -> bool {
    (t: Task) => !p(t)
  }

  function Of(runner: nat): Task -> bool {
    (t: Task) => t.runner == runner
  }

  /** The operations whose time to start is over. */
  function Late(now: Int64): Task -> bool {
    (t: Task) => t.AdHoc? && t.startExpiration <= now
  }

  // ------------------------------ lists of operations ------------------------------

  predicate IsOp(t: Task, id: nat) {
    t.AdHoc? && t.id == id
  }

  ghost predicate HasOp(ts: seq<Task>, id: nat) {
    exists t :: t in ts && IsOp(t, id)
  }

  /** No operation is queued twice. */
  ghost predicate Distinct(ts: seq<Task>) {
    forall i, j :: 0 <= i < j < |ts| && ts[i].AdHoc? && ts[j].AdHoc? ==> ts[i].id != ts[j].id
  }

  lemma DistinctNext(ts: seq<Task>, t: Task)
    ensures Distinct(ts + [t]) <==> Distinct(ts) && (t.AdHoc? ==> !HasOp(ts, t.id))
    ensures forall id :: HasOp(ts + [t], id) <==> HasOp(ts, id) || IsOp(t, id)
  {
    var all := ts + [t];
    assert forall i :: 0 <= i < |ts| ==> all[i] == ts[i];
    if Distinct(all) && t.AdHoc? {
      assert forall i :: 0 <= i < |ts| && all[i].AdHoc? ==> all[i].id != all[|ts|].id;
    }
    if Distinct(ts) && (t.AdHoc? ==> !HasOp(ts, t.id)) {
      assert forall i :: 0 <= i < |ts| && all[i].AdHoc? && t.AdHoc? ==> !IsOp(all[i], t.id);
    }
    forall id ensures HasOp(all, id) <==> HasOp(ts, id) || IsOp(t, id) {
      assert IsOp(t, id) ==> t in all && IsOp(t, id);
    }
  }

  lemma {:induction false} FilterKeeps(ts: seq<Task>, p: Task -> bool)
    requires Distinct(ts)
    ensures Distinct(Filter(ts, p))
    ensures forall t :: t in Filter(ts, p) <==> t in ts && p(t)
  {
    if ts != [] {
      var init, last := ts[..|ts| - 1], ts[|ts| - 1];
      assert ts == init + [last];
      FilterKeeps(init, p);
      DistinctNext(init, last);
      DistinctNext(Filter(init, p), last);
    }
  }

  lemma {:induction false} ToldOnce(calls: Calls, ts: seq<Task>, call: Call, id: nat)
    requires Distinct(ts)
    ensures CallsOf(TellAll(calls, ts, call), id)
         == if HasOp(ts, id) then CallsOf(calls, id) + [call] else CallsOf(calls, id)
  {
    if ts != [] {
      var init, last := ts[..|ts| - 1], ts[|ts| - 1];
      assert ts == init + [last];
      DistinctNext(init, last);
      ToldOnce(calls, init, call, id);
    }
  }

  // ------------------------------ the scheduler ------------------------------

  datatype Backend = Backend(isShutdown: bool, tasks: seq<Task>, current: Option<Task>, calls: Calls)

  function Add(b: Backend, t: Task): Backend {
    if b.isShutdown then b else b.(tasks := b.tasks + [t])
  }

  function AddAll(b: Backend, ts: seq<Task>): Backend
    decreases ts
  {
    if ts == [] then b else AddAll(Add(b, ts[0]), ts[1..])
  }

  predicate OwnedBy(t: Option<Task>, runner: nat) {
    t.Some? && t.value.runner == runner
  }

  /** The tasks of the runner go; its operations are told that there is no communication. */
  function Offline(b: Backend, runner: nat): Backend {
    if b.isShutdown then b
    else
      var gone := OwnedBy(b.current, runner);
      var calls := if gone then Tell(b.calls, b.current.value, OnComplete(FailureNoComms)) else b.calls;
      b.(current := if gone then None else b.current,
         tasks := Filter(b.tasks, Not(Of(runner))),
         calls := TellAll(calls, Filter(b.tasks, Of(runner)), OnComplete(FailureNoComms)))
  }

  /** Queued operations whose time to start is over fail; scans have none. */
  function Timeouts(b: Backend, now: Int64): Backend {
    if b.isShutdown then b
    else
      b.(tasks := Filter(b.tasks, Not(Late(now))),
         calls := TellAll(b.calls, Filter(b.tasks, Late(now)), OnComplete(FailureStartTimeout)))
  }

  function CompleteCurrent(b: Backend, runner: nat): Backend {
    if !OwnedBy(b.current, runner) then b
    else
      var again := if b.current.value.Recurring? then Add(b, b.current.value) else b;
      again.(current := None)
  }

  function ShutDown(b: Backend): Backend {
    b.(isShutdown := true, tasks := [], current := None)
  }

  function Without(ts: seq<Task>, i: nat): seq<Task>
    requires i < |ts|
  {
    ts[..i] + ts[i + 1..]
  }

  /** Task `pick` of the queue becomes the current one. */
  function Picked(b: Backend, pick: nat): Backend
    requires pick < |b.tasks|
  {
    b.(current := Some(b.tasks[pick]), tasks := Without(b.tasks, pick))
  }

  lemma TimeoutsAre(b: Backend, now: Int64)
    requires !b.isShutdown && Distinct(b.tasks)
    ensures
      var after := Timeouts(b, now);
      && (forall t :: t in after.tasks <==> t in b.tasks && !(t.AdHoc? && t.startExpiration <= now))
      && (forall id :: CallsOf(after.calls, id) ==
            if exists t :: t in b.tasks && IsOp(t, id) && t.startExpiration <= now
            then CallsOf(b.calls, id) + [OnComplete(FailureStartTimeout)] else CallsOf(b.calls, id))
  {
    FilterKeeps(b.tasks, Late(now));
    FilterKeeps(b.tasks, Not(Late(now)));
    var late := Filter(b.tasks, Late(now));
    forall id
      ensures HasOp(late, id) <==> exists t :: t in b.tasks && IsOp(t, id) && t.startExpiration <= now
      ensures CallsOf(Timeouts(b, now).calls, id) ==
        if HasOp(late, id) then CallsOf(b.calls, id) + [OnComplete(FailureStartTimeout)] else CallsOf(b.calls, id)
    {
      ToldOnce(b.calls, late, OnComplete(FailureStartTimeout), id);
    }
  }

  class MasterSchedulerBackend {
    var isShutdown: bool
    var tasks: seq<Task>
    var current: Option<Task>
    /** The starts and results that the callbacks of the operations have been told. */
    var calls: Calls

    ghost function View(): Backend
      reads this
    {
      Backend(isShutdown, tasks, current, calls)
    }

    constructor ()
      ensures View() == Backend(false, [], None, map[])
    {
      isShutdown, tasks, current, calls := false, [], None, map[];
    }

    method Shutdown()
      modifies this
      ensures View() == ShutDown(old(View()))
      ensures isShutdown && tasks == [] && current == None && calls == old(calls)
    {
      isShutdown := true;
      tasks := [];
      current := None;
    }

    method AddTask(task: Task)
      modifies this
      ensures View() == Add(old(View()), task)
      ensures tasks == (if isShutdown then old(tasks) else old(tasks) + [task])
      ensures current == old(current) && calls == old(calls) && isShutdown == old(isShutdown)
    {
      if isShutdown {
        return;
      }
      tasks := tasks + [task];
    }

    method SetRunnerOffline(runner: nat)
      modifies this
      ensures View() == Offline(old(View()), runner)
      ensures old(isShutdown) ==> View() == old(View())
      ensures !old(isShutdown) && Distinct(old(tasks)) ==>
        && (forall t :: t in tasks <==> t in old(tasks) && t.runner != runner)
        && current == (if old(current).Some? && old(current).value.runner == runner then None else old(current))
    {
      if Distinct(tasks) {
        FilterKeeps(tasks, Not(Of(runner)));
      }
      if isShutdown {
        return;
      }
      if OwnedBy(current, runner) {
        calls := Tell(calls, current.value, OnComplete(FailureNoComms));
        current := None;
      }
      RemoveIf(Of(runner), OnComplete(FailureNoComms));
    }

    method TimeoutTasks(now: Int64)
      modifies this
      ensures View() == Timeouts(old(View()), now)
      ensures old(isShutdown) ==> View() == old(View())
      // the late operations leave, each told once that it failed to start, and nothing else changes
      ensures !old(isShutdown) && Distinct(old(tasks)) ==>
        && (forall t :: t in tasks <==> t in old(tasks) && !(t.AdHoc? && t.startExpiration <= now))
        && (forall id :: CallsOf(calls, id) ==
              if exists t :: t in old(tasks) && IsOp(t, id) && t.startExpiration <= now
              then CallsOf(old(calls), id) + [OnComplete(FailureStartTimeout)] else CallsOf(old(calls), id))
        && current == old(current) && isShutdown == old(isShutdown)
    {
      if !isShutdown && Distinct(tasks) {
        TimeoutsAre(View(), now);
      }
      if isShutdown {
        return;
      }
      RemoveIf(Late(now), OnComplete(FailureStartTimeout));
    }

    /** When to look for late operations: the earliest start expiration queued, or never. */
    method RestartTimeoutTimer() returns (at: Option<Int64>)
      ensures at.None? <==> isShutdown || forall t :: t in tasks && t.AdHoc? ==> t.startExpiration == MAX_TIMESTAMP
      ensures at.Some? ==>
        && at.value < MAX_TIMESTAMP
        && (forall t :: t in tasks && t.AdHoc? ==> at.value <= t.startExpiration)
        && exists t :: t in tasks && t.AdHoc? && t.startExpiration == at.value
    {
      if isShutdown {
        return None;
      }
      var min := MAX_TIMESTAMP;
      for i := 0 to |tasks|
        invariant forall t :: t in tasks[..i] && t.AdHoc? ==> min <= t.startExpiration
        invariant min == MAX_TIMESTAMP || exists t :: t in tasks && t.AdHoc? && t.startExpiration == min
      {
        if tasks[i].AdHoc? && tasks[i].startExpiration < min {
          min := tasks[i].startExpiration;
        }
      }
      assert tasks[..|tasks|] == tasks;
      at := if min == MAX_TIMESTAMP then None else Some(min);
    }

    /** The erase-remove loop: each task that goes is told as it is visited. */
    method RemoveIf(gone: Task -> bool, call: Call)
      modifies this
      ensures tasks == Filter(old(tasks), Not(gone))
      ensures calls == TellAll(old(calls), Filter(old(tasks), gone), call)
      ensures current == old(current) && isShutdown == old(isShutdown)
    {
      var left: seq<Task> := [];
      for i := 0 to |tasks|
        invariant tasks == old(tasks) && current == old(current) && isShutdown == old(isShutdown)
        invariant left == Filter(tasks[..i], Not(gone))
        invariant calls == TellAll(old(calls), Filter(tasks[..i], gone), call)
      {
        FilterNext(tasks, i, gone);
        FilterNext(tasks, i, Not(gone));
        if gone(tasks[i]) {
          TellNext(old(calls), Filter(tasks[..i], gone), tasks[i], call);
          calls := Tell(calls, tasks[i], call);
        } else {
          left := left + [tasks[i]];
        }
      }
      assert tasks[..|tasks|] == tasks;
      tasks := left;
    }

    method CompleteCurrentFor(runner: nat) returns (completed: bool)
      modifies this
      ensures View() == CompleteCurrent(old(View()), runner)
      ensures completed <==> old(current).Some? && old(current).value.runner == runner
      ensures completed ==>
        && current == None && calls == old(calls)
        && tasks == if isShutdown || old(current).value.AdHoc? then old(tasks) else old(tasks) + [old(current).value]
    {
      if current == None || current.value.runner != runner {
        return false;
      }
      if current.value.Recurring? {
        AddTask(current.value);
      }
      current := None;
      completed := true;
    }

    /**
      Picks the best task of the queue, and makes it current if it is due now; otherwise
      `wake` is when to look again.  `facts` is what the tasks say of themselves.
     */
    method CheckForTaskRun(now: Int64, blocks: set<Block>, facts: Task -> Candidate)
      returns (run: Option<Task>, wake: Option<Int64>, ghost pick: nat)
      modifies this
      ensures old(isShutdown) || old(current).Some? || old(tasks) == [] ==>
        View() == old(View()) && run == None && wake == None
      ensures !(old(isShutdown) || old(current).Some? || old(tasks) == []) ==>
        && Chosen(now, blocks, Candidates(old(tasks), facts), pick)
        && var best := old(tasks)[pick];
           if IsExpired(facts(best), now) then
             && View() == Picked(old(View()), pick) && run == Some(best) && wake == None
             && current == Some(best) && tasks == old(tasks)[..pick] + old(tasks)[pick + 1..]
             && calls == old(calls) && !isShutdown
           else View() == old(View()) && run == None && wake == Some(facts(best).expiration)
    {
      run, wake, pick := None, None, 0;
      if isShutdown || current.Some? || tasks == [] {
        return;
      }
      var best := FindBest(now, blocks, Candidates(tasks, facts));
      pick := best;
      if IsExpired(facts(tasks[best]), now) {
        run := Some(tasks[best]);
        current := run;
        tasks := tasks[..best] + tasks[best + 1..];
      } else {
        wake := Some(facts(tasks[best]).expiration);
      }
    }
  }

  function Candidates(ts: seq<Task>, facts: Task -> Candidate): (cs: seq<Candidate>)
    ensures |cs| == |ts|
    ensures forall i :: 0 <= i < |ts| ==> cs[i] == facts(ts[i])
  {
    seq(|ts|, i requires 0 <= i < |ts| => facts(ts[i]))
  }

  /** Having failed the late operations, the scheduler looks again only later. */
  method TimeoutAndRestart(scheduler: MasterSchedulerBackend, now: Int64) returns (at: Option<Int64>)
    requires Distinct(scheduler.tasks)
    modifies scheduler
    ensures at.Some? ==> at.value > now
    ensures !scheduler.isShutdown ==> forall t :: t in scheduler.tasks && t.AdHoc? ==> t.startExpiration > now
  {
    scheduler.TimeoutTasks(now);
    at := scheduler.RestartTimeoutTimer();
  }
}
