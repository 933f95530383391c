/**
  The callbacks of one master operation: the native task calls an adapter, the adapter a
  completion proxy, and the proxy the callback of the user, if there is one.
 */
module TaskCallbacks {
  import opened Words

  datatype TaskCompletion =
    | Success | FailureBadResponse | FailureResponseTimeout | FailureStartTimeout
    | FailureMessageFormatError | FailureNoComms

  datatype Call = OnStart | OnComplete(result: TaskCompletion) | OnDestroyed

  // ------------------------------ what a native task reports ------------------------------

  datatype ResponseResult = ErrorBadResponse | OkFinal | OkRepeat | OkContinue

  /** What can happen to a native task while it lives. */
  datatype TaskEvent =
    | Started
    | Response(result: ResponseResult)
    | ResponseTimeout
    | LowerLayerClose
    | StartTimeout
    | MessageFormatError

  /** The call the task makes for one event, if any. */
  function Reported(e: TaskEvent): seq<Call> {
    match e
    case Started => [OnStart]
    case Response(ErrorBadResponse) => [OnComplete(FailureBadResponse)]
    case Response(OkFinal) => [OnComplete(Success)]
    case Response(_) => []
    case ResponseTimeout => [OnComplete(FailureResponseTimeout)]
    case LowerLayerClose => [OnComplete(FailureNoComms)]
    case StartTimeout => [OnComplete(FailureStartTimeout)]
    case MessageFormatError => [OnComplete(FailureMessageFormatError)]
  }

  function AllReported(events: seq<TaskEvent>): seq<Call> {
    if events == [] then [] else AllReported(events[..|events| - 1]) + Reported(events[|events| - 1])
  }

  lemma ReportedNext(events: seq<TaskEvent>, i: nat)
    requires i < |events|
    ensures AllReported(events[..i + 1]) == AllReported(events[..i]) + Reported(events[i])
    ensures OnDestroyed !in Reported(events[i])
  {
    assert events[..i + 1][..i] == events[..i];
  }

  // ------------------------------ the three callbacks ------------------------------

  /** The callback of the user, who sees the calls it gets. */
  class UserCallback {
    var calls: seq<Call>

    constructor ()
      ensures calls == []
    {
      calls := [];
    }

    method Receive(call: Call)
      modifies this
      ensures calls == old(calls) + [call]
    {
      calls := calls + [call];
    }
  }

  /** A completion source after one call: only the first result is taken. */
  function Tried(task: Option<TaskCompletion>, call: Call): Option<TaskCompletion> {
    if call.OnComplete? && task == None then Some(call.result) else task
  }

  class TaskCompletionProxy {
    const proxy: UserCallback?
    /** The result of the completion task, once it has one. */
    var task: Option<TaskCompletion>

    constructor (proxy: UserCallback?)
      ensures this.proxy == proxy && task == None
    {
      this.proxy, task := proxy, None;
    }

    method TrySetResult(result: TaskCompletion)
      modifies this
      ensures task == Tried(old(task), OnComplete(result))
    {
      if task == None {
        task := Some(result);
      }
    }

    method Receive(call: Call)
      modifies this, proxy
      ensures task == Tried(old(task), call)
      ensures proxy != null ==> proxy.calls == old(proxy.calls) + [call]
    {
      match call {
        case OnStart =>
          if proxy != null {
            proxy.Receive(OnStart);
          }
        case OnComplete(result) =>
          TrySetResult(result);
          if proxy != null {
            proxy.Receive(OnComplete(result));
          }
        case OnDestroyed =>
          if proxy != null {
            proxy.Receive(OnDestroyed);
          }
      }
    }
  }

  /** The adapter owns itself; once it has deleted itself nothing may call it. */
  class TaskCallbackAdapter {
    const root: TaskCompletionProxy
    var deleted: bool

    constructor (proxy: TaskCompletionProxy)
      ensures root == proxy && !deleted
    {
      root, deleted := proxy, false;
    }

    method Receive(call: Call)
      requires !deleted
      modifies this, root, root.proxy
      ensures deleted == call.OnDestroyed?
      ensures root.task == Tried(old(root.task), call)
      ensures root.proxy != null ==> root.proxy.calls == old(root.proxy.calls) + [call]
    {
      root.Receive(call);
      if call.OnDestroyed? {
        deleted := true;
      }
    }
  }

  // ------------------------------ the native task ------------------------------

  class MasterTask {
    const pCallback: TaskCallbackAdapter
    /** The calls made so far, and what the user had heard before them. */
    ghost var told: seq<Call>
    ghost const heard: seq<Call>

    constructor (pCallback: TaskCallbackAdapter)
      requires !pCallback.deleted && pCallback.root.task == None
      ensures this.pCallback == pCallback && Consistent() && told == []
      ensures pCallback.root.proxy != null ==> heard == pCallback.root.proxy.calls
    {
      this.pCallback := pCallback;
      told, heard := [], if pCallback.root.proxy != null then pCallback.root.proxy.calls else [];
    }

    ghost predicate Consistent()
      reads this, pCallback, pCallback.root, pCallback.root.proxy
    {
      && pCallback.deleted == (OnDestroyed in told)
      && pCallback.root.task == TaskAfter(None, told)
      && (pCallback.root.proxy != null ==> pCallback.root.proxy.calls == heard + told)
    }

    method Tell(call: Call)
      requires Consistent() && OnDestroyed !in told
      modifies this, pCallback, pCallback.root, pCallback.root.proxy
      ensures Consistent() && told == old(told) + [call]
    {
      pCallback.Receive(call);
      assert heard + told + [call] == heard + (told + [call]);
      told := told + [call];
    }

    method CompleteTask(result: TaskCompletion)
      requires Consistent() && OnDestroyed !in told
      modifies this, pCallback, pCallback.root, pCallback.root.proxy
      ensures Consistent() && told == old(told) + [OnComplete(result)]
    {
      Tell(OnComplete(result));
    }

    method OnStarted()
      requires Consistent() && OnDestroyed !in told
      modifies this, pCallback, pCallback.root, pCallback.root.proxy
      ensures Consistent() && told == old(told) + [OnStart]
    {
      Tell(OnStart);
    }

    /** A good final response succeeds and a bad one fails; the others end nothing. */
    method OnResponse(result: ResponseResult)
      requires Consistent() && OnDestroyed !in told
      modifies this, pCallback, pCallback.root, pCallback.root.proxy
      ensures Consistent()
      ensures result == OkFinal ==> told == old(told) + [OnComplete(Success)]
      ensures result == ErrorBadResponse ==> told == old(told) + [OnComplete(FailureBadResponse)]
      ensures result == OkRepeat || result == OkContinue ==> told == old(told)
    {
      match result {
        case ErrorBadResponse => CompleteTask(FailureBadResponse);
        case OkFinal => CompleteTask(Success);
        case OkRepeat =>
        case OkContinue =>
      }
    }

    method OnResponseTimeout()
      requires Consistent() && OnDestroyed !in told
      modifies this, pCallback, pCallback.root, pCallback.root.proxy
      ensures Consistent() && told == old(told) + [OnComplete(FailureResponseTimeout)]
    {
      CompleteTask(FailureResponseTimeout);
    }

    method OnLowerLayerClose()
      requires Consistent() && OnDestroyed !in told
      modifies this, pCallback, pCallback.root, pCallback.root.proxy
      ensures Consistent() && told == old(told) + [OnComplete(FailureNoComms)]
    {
      CompleteTask(FailureNoComms);
    }

    method OnStartTimeout()
      requires Consistent() && OnDestroyed !in told
      modifies this, pCallback, pCallback.root, pCallback.root.proxy
      ensures Consistent() && told == old(told) + [OnComplete(FailureStartTimeout)]
    {
      CompleteTask(FailureStartTimeout);
    }

    method OnMessageFormatError()
      requires Consistent() && OnDestroyed !in told
      modifies this, pCallback, pCallback.root, pCallback.root.proxy
      ensures Consistent() && told == old(told) + [OnComplete(FailureMessageFormatError)]
    {
      CompleteTask(FailureMessageFormatError);
    }

    method Handle(e: TaskEvent)
      requires Consistent() && OnDestroyed !in told
      modifies this, pCallback, pCallback.root, pCallback.root.proxy
      ensures Consistent() && told == old(told) + Reported(e)
    {
      match e {
        case Started => OnStarted();
        case Response(result) =>
          OnResponse(result);
          assert old(told) + [] == old(told);
        case ResponseTimeout => OnResponseTimeout();
        case LowerLayerClose => OnLowerLayerClose();
        case StartTimeout => OnStartTimeout();
        case MessageFormatError => OnMessageFormatError();
      }
    }

    /** All that happens to this operation, then its destructor. */
    method LiveAndDie(events: seq<TaskEvent>)
      requires Consistent() && told == []
      modifies this, pCallback, pCallback.root, pCallback.root.proxy
      ensures Consistent() && told == AllReported(events) + [OnDestroyed]
    {
      for i := 0 to |events|
        invariant Consistent() && told == AllReported(events[..i]) && OnDestroyed !in told
      {
        ReportedNext(events, i);
        Handle(events[i]);
      }
      assert events[..|events|] == events;
      Tell(OnDestroyed);
    }
  }

  /**
    One operation from the creation of its callbacks to the destructor of its native task: the
    completion task keeps the first result, the user hears every call in order, and the
    adapter deletes itself at the last.
   */
  method Lifetime(user: UserCallback?, events: seq<TaskEvent>) returns (proxy: TaskCompletionProxy)
    modifies user
    ensures proxy.task == TaskAfter(None, AllReported(events))
    ensures user != null ==> user.calls == old(user.calls) + (AllReported(events) + [OnDestroyed])
  {
    proxy := new TaskCompletionProxy(user);
    var adapter := new TaskCallbackAdapter(proxy);
    var task := new MasterTask(adapter);
    task.LiveAndDie(events);
    assert task.told[..|task.told| - 1] == AllReported(events);
  }

  // ------------------------------ what the caller awaits ------------------------------

  /** A completion source after a sequence of calls. */
  function TaskAfter(task: Option<TaskCompletion>, calls: seq<Call>): Option<TaskCompletion> {
    if calls == [] then task else Tried(TaskAfter(task, calls[..|calls| - 1]), calls[|calls| - 1])
  }

  lemma {:induction false} NeverChanges(result: TaskCompletion, calls: seq<Call>)
    ensures TaskAfter(Some(result), calls) == Some(result)
  {
    if calls != [] {
      NeverChanges(result, calls[..|calls| - 1]);
    }
  }

  ghost predicate FirstResult(calls: seq<Call>, k: int, result: TaskCompletion) {
    && 0 <= k < |calls| && calls[k] == OnComplete(result)
    && forall j :: 0 <= j < k ==> !calls[j].OnComplete?
  }

  /** The completion task holds a result exactly when it is the first one reported. */
  lemma {:induction false} FirstWins(calls: seq<Call>, result: TaskCompletion)
    ensures TaskAfter(None, calls) == Some(result) <==> exists k :: FirstResult(calls, k, result)
    ensures TaskAfter(None, calls) == None <==> forall k :: 0 <= k < |calls| ==> !calls[k].OnComplete?
  {
    if calls != [] {
      var n := |calls| - 1;
      var init := calls[..n];
      FirstWins(init, result);
      assert forall k :: 0 <= k < n ==> init[k] == calls[k];
      assert forall k :: 0 <= k < n ==> FirstResult(init, k, result) == FirstResult(calls, k, result);
      assert FirstResult(calls, n, result) <==> calls[n] == OnComplete(result) && TaskAfter(None, init) == None;
    }
  }
}
