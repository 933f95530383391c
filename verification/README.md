# Verification model of the opendnp3 bindings and of the GPRS master example

A Dafny model of the parts of this repository that hold state or logic of their own: the
session registry of the GPRS master, the native sessions and schedulers that drive it, JNI
reference ownership, the .NET command sets and change sets, outstation configuration and point
lookup, header and time conversion, task callbacks, and the console splitter. Objects that are
updated in place are classes; their methods are proved against functions on values, and the
results about whole runs are lemmas about those functions. `dafny verify dfyconfig.toml`
verifies the project.

## How the parts fit

- `Registry` gives the three registry operations on values and says, from the event history
  alone, which sessions must be listed. `ListenCallbacks` is the object, `RegistryThreads` is any
  number of threads interleaving inside the critical section, `LinkSessions` and `ListenerRuns`
  are the native stack that makes the calls, from which the assumptions of `Registry` follow, and
  `DrivenThreads` puts the two together: sessions that make the calls, interleaved at every step.
- `TaskCallbacks` is the callback chain of one master operation, `TaskScheduler` the native queue
  of tasks, `TaskChoice` the choice among them, `MasterRuns` every run of the masters that share a
  queue, and `MasterAnswers` what those runs come to, told from their events.
- `LocalRefs` is the ownership protocol and `Iteration` the loops that run on it.
- `CommandSets` and `ChangeSets` are the two deferred replays, `Timestamps` the time conversion
  used by the second.
- `ConfigWriters` fills the native point configuration, and `PointIndex` is what the outstation
  does with the indices it is given.
- `Headers` goes from the .NET header factories to the bytes of a request and back.
- `Tokenizer` splits console lines. `Words` holds the fixed-width integers.

## Where the code does not do what it says

- The index scan of a database template is announced as throwing if any list is bad
  (`dotnet/CLRInterface/src/config/DatabaseTemplate.cs:98`), but its `&&` never scans a list
  behind one with gaps. `ConfigWriters.OutOfOrderSlipsThrough` is such a template, and
  `PointIndex.AcceptedServesIff` says exactly when an accepted template leaves a point out of reach.
- The Java binding drops the deadband of analog output statuses, although its configuration
  class has one, and the .NET binding drops the event class of octet strings, although its records
  carry one: `ConfigWriters.BindingsAgreeIff` and `ConfigWriters.ClassAppliedIff`.
- A session that is evicted shuts its scheduler down before its master hears that the link is
  down (`cpp/libs/src/asiodnp3/MasterSessionStack.cpp:100-118`), so every operation it has is
  dropped without a result; a channel, and a session whose socket closes, do it in the other
  order and lose none: `MasterRuns.EvictionLosesAll` and `MasterRuns.OrderlyLosesNone`.
- A listener is promised a call when a socket closes
  (`cpp/libs/include/asiodnp3/IListenCallbacks.h:70-76`), but the first-frame timeout closes the
  channel and makes none. `LinkSessions.UnannouncedIff` says exactly when a channel is down
  unannounced, `LinkSessions.TimeoutIsSilent` is the plainest case. A timer that expired before the
  first frame can still run after it, and then the registry goes on listing a session whose socket
  is closed: `ListenerRuns.ListedChannelDownIff`, `ListenerRuns.ClosedButListed`.
- A listener that declines a first frame can be told of another one in the same read, after the
  close of that session: `LinkSessions.LifeOrderlyIff`. A master it accepts then is told that it
  is up and never that it is down: `LinkSessions.OrphanedIff` says exactly when,
  `LinkSessions.OrphanedMaster` is an input.
- Blocking is meant to hold lower priority tasks back (`cpp/libs/src/opendnp3/master/TaskContext.h:32-38`),
  but the choice of the next task only ranks blocked tasks behind unblocked ones that are enabled.
  `TaskChoice.BlockedRunsIff` says exactly when a blocked task runs; `TaskChoice.BlockedTaskRuns` is
  one that runs although the task that blocks it is queued, disabled by its own failure.
- The two ways to fill a native command set treat an empty header differently:
  `CommandSets.BindingsAgreeIff`.

## Model

| member | source | states |
|---|---|---|
| Registry.SessionsAreSurvivors | cpp/examples/master-gprs/ExampleListenCallbacks.cpp:144-196 | After any history with unique session ids, the vector is exactly the sessions whose listing no later event ended, in acceptance order, with distinct addresses and distinct ids. |
| Registry.LookupIsLatestOpen | cpp/examples/master-gprs/ExampleListenCallbacks.cpp:118-124 | Lookup by address returns the session of the latest first frame from that address whose connection has not closed since, and null exactly when there is none. |
| Registry.ExactlyOneFate | cpp/examples/master-gprs/ExampleListenCallbacks.cpp:151-162 | Each accepted session is exactly one of surviving, evicted, closed. |
| Registry.Conservation | cpp/examples/master-gprs/ExampleListenCallbacks.cpp:151-180 | A session is listed iff it survives, and has been shut down once if it was evicted and never otherwise. |
| Registry.LookupNeverShutDown | cpp/examples/master-gprs/ExampleListenCallbacks.cpp:118-124 | No lookup, after any run, returns a session the registry has shut down. |
| Registry.LateCloseIsHarmless | cpp/examples/master-gprs/ExampleListenCallbacks.cpp:185-196 | The close of a session that is no longer listed, arriving at any later point, changes nothing. |
| Registry.ReusedIdClosesReplacement | cpp/examples/master-gprs/ExampleListenCallbacks.cpp:185-196 | Without unique ids the previous law fails: a concrete history in which a late close removes the replacement. |
| Registry.StepRefinesMap | cpp/examples/master-gprs/ExampleListenCallbacks.cpp:144-196 | One operation on the vector is one operation on a plain address map, for a close exactly when the id is listed at most once. |
| Registry.RunRefinesMap | cpp/examples/master-gprs/ExampleListenCallbacks.cpp:118-196 | Over every run with unique ids the vector represents the address map of the history, and lookups agree with it. |
| ListenCallbacks.ExampleListenCallbacks.GetOutstationSession | cpp/examples/master-gprs/ExampleListenCallbacks.cpp:118-124 | The loop returns what the history prescribes: the latest open session of the address, never one already shut down. |
| ListenCallbacks.ExampleListenCallbacks.OnFirstFrame | cpp/examples/master-gprs/ExampleListenCallbacks.cpp:144-183 | Fields and shutdown calls afterwards are those of the history with this first frame added; one new session is accepted. |
| ListenCallbacks.ExampleListenCallbacks.OnConnectionClose | cpp/examples/master-gprs/ExampleListenCallbacks.cpp:185-196 | Fields afterwards are those of the history with this close added; a late close leaves every entry in place. |
| ListenCallbacks.ExampleListenCallbacks.FindAddress | cpp/examples/master-gprs/ExampleListenCallbacks.cpp:151-152 | The search stops at the first entry of the address, or at the end if there is none. |
| RegistryThreads.InvAlways | cpp/examples/master-gprs/ExampleListenCallbacks.cpp:118-196 | Every schedule of every number of threads keeps: one holder of the mutex, whose progress inside the critical section accounts for the shared state. |
| RegistryThreads.Linearizable | cpp/examples/master-gprs/ExampleListenCallbacks.cpp:118-196 | Whenever the mutex is free the shared state is that of a serial run of the completed calls in lock order; every lookup was answered as in that run; every return is of a call of its own thread that took effect, once, after it was invoked; and calls that do not overlap keep their order. |
| RegistryThreads.ReturnedLookup | cpp/examples/master-gprs/ExampleListenCallbacks.cpp:118-124 | The value a caller gets back is the answer, for the address it asked for, at the one point of the lock order that its own call took between its invocation and its return. |
| DrivenThreads.ContractUnderThreads | dotnet/CLRInterface/src/IListenCallbacks.cs:52-64 | For any number of sessions calling from their strands and any other threads, at every interleaving: in lock order session ids are unique, sessions new, and closes final. |
| DrivenThreads.InLockOrder | cpp/libs/src/asiodnp3/LinkSession.cpp:59-147 | Two completed calls of one session are its first frame and then its close, in the lock order as on its strand. |
| DrivenThreads.ConservedWhenDriven | cpp/examples/master-gprs/ExampleListenCallbacks.cpp:144-196 | So under any such interleaving each accepted session has exactly one fate, with the shutdowns to match. |
| DrivenThreads.LookupWhenDriven | cpp/examples/master-gprs/ExampleListenCallbacks.cpp:118-124 | And a lookup that has returned gave the latest open session of its address at its own point, or null, and never one shut down. |
| RegistryThreads.ConservedUnderThreads | cpp/examples/master-gprs/ExampleListenCallbacks.cpp:144-196 | Under any interleaving, whenever the mutex is free each accepted session has exactly one fate and the shutdowns to match. |
| RegistryThreads.HolderProgresses | cpp/examples/master-gprs/ExampleListenCallbacks.cpp:118-196 | The thread inside can always move, each of its moves brings it nearer to release, and no other thread's move sets it back. |
| LinkSessions.LinkSession.ShutdownImpl | cpp/libs/src/asiodnp3/LinkSession.cpp:59-81 | Closes once: the first time only, the listener hears of it, a bound master that it is down and may go, the timer is cancelled and the channel goes down. |
| LinkSessions.LinkSession.PushFrame | cpp/libs/src/asiodnp3/LinkSession.cpp:120-147 | A bound master gets the frame; otherwise the timer is cancelled and the listener asked, and the master it accepts comes up and gets the frame, or the connection closes. |
| LinkSessions.LinkSession.OnReadComplete | cpp/libs/src/asiodnp3/LinkSession.cpp:88-113 | A failed read closes a session that is not yet closed and says so; the frames of a good one are pushed in order, even past a close; nothing happens once the channel is down. |
| LinkSessions.LinkSession.OnFirstFrameTimeout | cpp/libs/src/asiodnp3/LinkSession.cpp:174-177 | The queued handler takes the channel down and calls nobody. |
| LinkSessions.DownIff | cpp/libs/src/asiodnp3/LinkSession.cpp:59-182 | Over every life, from the events alone: the channel is down exactly when a read or write failed, the session was stopped, the timer ran out, or the first frame was declined. |
| LinkSessions.ListenerHears | cpp/libs/src/asiodnp3/LinkSession.cpp:59-147 | Over every life without a bad read, the listener is asked about the first frame received and no other, and told of the close once the link has shut down. |
| LinkSessions.AcceptingIsOrderly | cpp/libs/src/asiodnp3/LinkSession.cpp:120-182 | A listener that accepts every first frame sees, over any life of a session, at most one first frame and then at most one close. |
| LinkSessions.LifeOrderlyIff | cpp/libs/src/asiodnp3/LinkSession.cpp:59-147 | Over every life the calls are in that order exactly when the first read that brings frames brings only one or has its first accepted. |
| LinkSessions.WaitingIff | cpp/libs/src/asiodnp3/LinkSession.cpp:120-182 | A link is still to be asked about its first frame exactly while no frame, error, stop or timeout has come. |
| LinkSessions.UnannouncedIff | cpp/libs/include/asiodnp3/IListenCallbacks.h:70-76 | Over every life the channel is down and the close was not announced exactly when the handler of an expired timer took it down and nothing stopped the session since. |
| LinkSessions.TimerHistory | cpp/libs/src/asiopal/Executor.cpp:58-70 | The timer is armed, or its handler queued, exactly as the order of expiry, cancellation and handler says; cancelling an expired timer is too late. |
| LinkSessions.TimeoutIsSilent | cpp/libs/src/asiodnp3/LinkSession.cpp:170-182 | A life in which the socket is closed and no call is ever made. |
| LinkSessions.MasterHears | cpp/libs/src/asiodnp3/LinkSession.cpp:59-147 | With an accepting listener, over every life, a master is bound by the first frame received and hears up, every frame received in order, and down and shutdown at the end. |
| LinkSessions.OrphanedIff | cpp/libs/src/asiodnp3/LinkSession.cpp:59-147 | Over every life, a master was told that it is up, its link has shut down and it is not told, exactly when the first read that brought frames had its first declined and a later one accepted. |
| LinkSessions.OrphanedMaster | cpp/libs/src/asiodnp3/LinkSession.cpp:59-147 | One such read, after which the master is never told, whatever follows. |
| LinkSessions.ReadOrderlyIff | cpp/libs/src/opendnp3/link/LinkLayerParser.cpp:50-62 | A read that finds the link waiting makes orderly calls exactly when its first frame is accepted or no second one came with it; else a first frame is reported after the close. |
| ListenerRuns.ContractHolds | cpp/libs/src/asiopal/TCPServer.cpp:132-140 | Every run of a listener gives its callbacks unique ids, new sessions, and final closes: the assumptions of the registry hold. |
| ListenerRuns.HandlerAdds | cpp/libs/src/asiodnp3/LinkSession.cpp:59-182 | In every run, what each handler of a session reports: the first source of the first read, a close for a failure of a live channel or a stop, nothing for a timeout. |
| ListenerRuns.FailureCloses | cpp/libs/src/asiodnp3/LinkSession.cpp:88-113 | After the failure of a live channel the close is on record and the session is not listed. |
| ListenerRuns.ListedIffLive | cpp/libs/src/asiodnp3/LinkSession.cpp:59-168 | The registry lists a session exactly when its link holds it, has not shut down, and the registry has not evicted it. |
| ListenerRuns.LookupIsOpen | cpp/examples/master-gprs/ExampleListenCallbacks.cpp:118-124 | A lookup returns only a session whose link is bound to it and has not shut down; its channel is down exactly after a late timeout. |
| ListenerRuns.ListedChannelDownIff | cpp/libs/src/asiodnp3/LinkSession.cpp:170-182 | In every run, the channel of a listed session is down exactly when the handler of its expired timer ran after its first frame. |
| ListenerRuns.ClosedButListed | cpp/libs/src/asiodnp3/LinkSession.cpp:120-182 | A run of four steps after which a lookup returns a session whose socket is closed. |
| TaskCallbacks.FirstWins | dotnet/CLRInterface/src/TaskCompletionProxy.cs:54-62 | The awaited result is r exactly when r is the first result reported, and is absent exactly when none was. |
| TaskCallbacks.NeverChanges | dotnet/CLRInterface/src/TaskCompletionProxy.cs:54-62 | Once there is a result, no further calls change it. |
| TaskCallbacks.TaskCompletionProxy.Receive | dotnet/CLRInterface/src/TaskCompletionProxy.cs:46-70 | The wrapped callback, if there is one, hears every call; only a first result reaches the completion source. |
| TaskCallbacks.TaskCallbackAdapter.Receive | dotnet/CLRAdapter/src/TaskCallbackAdapter.h:50-64 | Each call goes through unchanged, and the adapter is gone exactly after the destroying one. |
| TaskCallbacks.MasterTask.OnResponse | cpp/libs/src/opendnp3/master/IMasterTask.cpp:61-81 | A good final response reports success and a bad one its failure; a response that repeats or continues reports nothing. |
| TaskCallbacks.MasterTask.Handle | cpp/libs/src/opendnp3/master/IMasterTask.cpp:61-165 | What the native task reports for each thing that happens to it, in addition to all it reported before. |
| TaskCallbacks.MasterTask.LiveAndDie | dotnet/CLRAdapter/src/TaskCallbackAdapter.h:60-64 | Over any events no call reaches a freed adapter, and the destructor's call frees it, last and once. |
| TaskCallbacks.Lifetime | cpp/libs/src/opendnp3/master/IMasterTask.cpp:42-50 | Over every life of an operation, ended by its destructor: the first result is kept, the user hears the whole sequence in order and the destruction last. |
| TaskScheduler.MasterSchedulerBackend.SetRunnerOffline | cpp/libs/src/opendnp3/master/MasterSchedulerBackend.cpp:53-81 | Exactly the master's tasks leave the queue, the others keep their order, the current one goes if it is the master's, and each operation that leaves is told there is no communication, unless the scheduler is shut down. |
| TaskScheduler.MasterSchedulerBackend.TimeoutTasks | cpp/libs/src/opendnp3/master/MasterSchedulerBackend.cpp:203-224 | Exactly the operations whose start expiration is not after now leave the queue, each told once that it failed to start; no other task and no other trace changes. |
| TaskScheduler.TimeoutAndRestart | cpp/libs/src/opendnp3/master/MasterSchedulerBackend.cpp:178-224 | After that every queued operation has time left, and the timer is set for a later time. |
| TaskScheduler.MasterSchedulerBackend.RestartTimeoutTimer | cpp/libs/src/opendnp3/master/MasterSchedulerBackend.cpp:178-201 | The timer is set to the earliest start expiration of a queued operation, and cancelled exactly when there is none. |
| TaskScheduler.MasterSchedulerBackend.CheckForTaskRun | cpp/libs/src/opendnp3/master/MasterSchedulerBackend.cpp:129-176 | With nothing current, the best queued task becomes current if it has expired, and otherwise sets the time to look again; the rest of the queue keeps its order. |
| TaskScheduler.MasterSchedulerBackend.CompleteCurrentFor | cpp/libs/src/opendnp3/master/MasterSchedulerBackend.cpp:83-103 | Frees the scheduler only for the owner of the current task, and puts a recurring one behind the others. |
| TaskScheduler.MasterSchedulerBackend.Shutdown | cpp/libs/src/opendnp3/master/MasterSchedulerBackend.cpp:34-42 | Everything queued or current is let go, and no result is reported for it; the destructors' calls are in `MasterRuns`. |
| TaskChoice.FindBest | cpp/libs/src/opendnp3/master/MasterSchedulerBackend.cpp:143-158 | One pass finds a task that no other beats, and among equals the first. |
| TaskChoice.BestIsTransitive | cpp/libs/src/opendnp3/master/MasterSchedulerBackend.cpp:226-251 | The comparison by enabled, blocked, time and priority is a total preorder. |
| TaskChoice.BestIsByRank | cpp/libs/src/opendnp3/master/MasterSchedulerBackend.cpp:226-316 | The comparison is the lexicographic order of: enabled, unblocked, time it can run, priority. |
| TaskChoice.WakesForEarliest | cpp/libs/src/opendnp3/master/MasterSchedulerBackend.cpp:160-175 | When the best task is not due, no enabled task of the same standing is due earlier. |
| TaskChoice.EndOfRun | cpp/libs/src/opendnp3/master/IMasterTask.cpp:83-118 | For each result, when the task is due again or that it is disabled, and exactly when it blocks others afterwards. |
| TaskChoice.BlocksOneByOne | cpp/libs/src/opendnp3/master/TaskContext.cpp:38-48 | A task is blocked exactly by those other tasks of its master that have a better priority, each by itself. |
| TaskChoice.DueTaskRuns | cpp/libs/src/opendnp3/master/MasterSchedulerBackend.cpp:160-168 | If any task is enabled, unblocked and expired, such a one runs, and none of them has a better priority. |
| TaskChoice.BlockedChosenIff | cpp/libs/src/opendnp3/master/MasterSchedulerBackend.cpp:226-251 | A blocked task is chosen exactly when all enabled tasks are blocked, or all tasks if none is enabled. |
| TaskChoice.BlockedRunsIff | cpp/libs/src/opendnp3/master/MasterSchedulerBackend.cpp:143-168 | A blocked task runs exactly when some enabled task has expired and every enabled task is blocked. |
| TaskChoice.BlockedTaskRuns | cpp/libs/src/opendnp3/master/IMasterTask.cpp:83-118 | A task whose bad response disables it and makes it block a poll, which then runs. |
| MasterRuns.StepKeeps | cpp/libs/src/opendnp3/master/MasterContext.cpp:65-99 | Every event keeps: the current task is the one busy master's task, no operation is in two places, and what each operation heard, its destruction included, fits where it is. |
| MasterRuns.ExactlyOneFate | cpp/libs/src/opendnp3/master/MasterSchedulerBackend.cpp:34-224 | After any run each operation is exactly one of queued and untold, running and told so, answered once and destroyed, lost and destroyed. |
| MasterRuns.DestroyedIff | cpp/libs/src/opendnp3/master/IMasterTask.cpp:42-50 | In every run the destruction is heard last and once, exactly when nothing holds the operation; and an operation is lost exactly when it is destroyed without a result. |
| MasterRuns.OverIsFinal | cpp/libs/src/opendnp3/master/IMasterTask.cpp:42-50 | No event after its destruction is heard by an operation. |
| MasterRuns.AwaitEndsIff | dotnet/CLRAdapter/src/MasterOperationsAdapter.cpp:39-45 | The result a caller awaits is there exactly when the operation is neither waiting nor lost. |
| MasterAnswers.AnsweredIff | cpp/libs/src/opendnp3/master/MasterContext.cpp:428-553 | Over every run, from the events: a caller gets a result exactly when its operation finished with it, or its master closed first, or its time to start ran out, or its master was not open. |
| MasterAnswers.StepMoves | cpp/libs/src/opendnp3/master/MasterSchedulerBackend.cpp:34-224 | Where each operation is after an event: waiting since its submission until started, closed, late or shut down; running since it was picked until finished or closed. |
| MasterAnswers.OnlineIff | cpp/libs/src/opendnp3/master/MasterContext.cpp:65-99 | A master is online exactly when its last opening or closing was an opening, and the scheduler is shut down once it was. |
| MasterAnswers.ScansStay | cpp/libs/src/opendnp3/master/MasterSchedulerBackend.cpp:83-103 | Over every run a scan is in the scheduler as often as it was added since its master opened, neither dropped nor doubled, until a close or shutdown. |
| MasterRuns.StepLosesIff | cpp/libs/src/opendnp3/master/MasterContext.cpp:428-439 | A step loses an operation exactly in three cases: a shutdown with it queued, a submission while online after a shutdown, a close after a shutdown while it runs. |
| MasterRuns.LostIff | cpp/libs/src/opendnp3/master/MasterSchedulerBackend.cpp:34-51 | An operation is lost after a run exactly when one of the run's steps lost it in one of these ways. |
| MasterRuns.LostForever | cpp/libs/src/opendnp3/master/MasterSchedulerBackend.cpp:34-51 | Nothing that happens later answers a lost operation, and it hears nothing more. |
| MasterRuns.OrderlyLosesNone | cpp/libs/src/asiodnp3/DNP3Channel.cpp:67-91 | If all masters are offline before the scheduler shuts down and stay so, nothing is lost and in the end every operation has its one result. |
| MasterRuns.EvictionLosesAll | cpp/libs/src/asiodnp3/MasterSessionStack.cpp:100-118 | Shutting down first destroys every queued or running operation of the session without a result; closing first would have answered each and then destroyed it. |
| MasterRuns.EvictedBeforeStart | cpp/libs/src/asiodnp3/MasterSessionStack.cpp:100-118 | A run of four events after which an operation has heard its destruction and nothing else. |
| LocalRefs.StepKeepsBalance | java/cpp/adapters/LocalRef.h:28-57 | Construct, move and destroy keep every reference exactly one of unadopted, owned by one, deleted once. |
| LocalRefs.AlwaysBalanced | java/cpp/adapters/LocalRef.h:28-57 | So does every sequence of these steps from any table. |
| LocalRefs.OneOwnerEach | java/cpp/adapters/LocalRef.h:38-51 | After any sequence a live adopted reference has exactly one owner, and no reference is deleted twice or deleted and live. |
| LocalRefs.AllReturned | java/cpp/adapters/LocalRef.h:40-46 | When all owners are gone the table is what it was, and every reference made in between was deleted exactly once. |
| LocalRefs.SecondOwnerDeletesTwice | java/cpp/adapters/LocalRef.h:38-46 | Two owners of one reference would delete it twice, which is why adopting an owned one is not a legal step. |
| LocalRefs.LocalRef.Move | java/cpp/adapters/LocalRef.h:48-51 | The new owner has what the old one had, the old one null, and the ledger makes the matching step. |
| LocalRefs.LocalRef.Destroy | java/cpp/adapters/LocalRef.h:40-46 | Drops the entry still owned and nothing else; a live one is always what is deleted. |
| Iteration.PassingRestores | java/cpp/adapters/JNI.cpp:93-97 | Passing a temporary by value and destroying both leaves holdings as before it was made, with the element seen by the callee. |
| Iteration.IterateWithIndex | java/cpp/adapters/JNI.cpp:88-98 | For every length: each element once, in order, with its index; table and owners end as they began, with never more than iterator, element and the callback's own references added. |
| CommandSets.CommandSetBuilder.Add | dotnet/CLRAdapter/src/CommandSetBuilder.cpp:34-77 | One new native header that holds exactly these commands in order, with one-byte indices iff all fit; earlier headers untouched. |
| CommandSets.AddedIs | dotnet/CLRInterface/src/CommandSet.cs:59-113 | A header adds its own commands as one batch; a set adds what its elements add by themselves, in array order. |
| CommandSets.Build | dotnet/CLRInterface/src/CommandSet.cs:84-113 | For every acyclic nesting the replay ends, and adds just that: one batch for a header, the elements' batches in order for a set. |
| CommandSets.Convert | dotnet/CLRAdapter/src/MasterConversions.cpp:147-156 | Into a fresh native set goes one header per leaf, in leaf order; a single header gives one native header with its kind, its commands, and one-byte indices iff all fit. |
| CommandSets.HeightIrrelevant | dotnet/CLRInterface/src/CommandSet.cs:93-113 | What a composite means does not depend on the bound on its nesting nor on other objects. |
| CommandSets.Regrouping | dotnet/CLRInterface/src/CommandSet.cs:102-113 | Nesting any run of neighbours in a set of their own changes nothing; an empty set is a unit. |
| CommandSets.ReplaceKeepsLeaves | dotnet/CLRInterface/src/CommandSet.cs:107-113 | At any depth a part may be exchanged for another with the same leaves. |
| CommandSets.FlatForm | dotnet/CLRInterface/src/CommandSet.cs:102-113 | Every sequence of leaves is built by a flat set of them. |
| CommandSets.NonEmptyIsFilter | cpp/libs/include/opendnp3/master/CommandSet.h:86-97 | The overload that takes a vector leaves out the empty batches and only they, and keeps the order. |
| CommandSets.BindingsAgreeIff | cpp/libs/include/opendnp3/master/CommandSet.h:86-97 | The overload that takes a vector and the header-by-header builder fill a set alike exactly when no header is empty. |
| Timestamps.ForwardCases | dotnet/CLRInterface/src/Timestamp.cs:43-54 | Every 64-bit time: exact in the DateTime range, saturated above it, refused below it, overflow outside the TimeSpan range. |
| Timestamps.RoundTrip | dotnet/CLRInterface/src/Timestamp.cs:43-65 | Milliseconds to date and back is the identity exactly on the range a DateTime can hold. |
| Timestamps.MonotoneAndSaturating | dotnet/CLRInterface/src/Timestamp.cs:43-54 | On all 48-bit times: never an overflow, monotone, strictly so until it saturates, and saturated exactly past the last DateTime. |
| Timestamps.DateRoundTrip | dotnet/CLRInterface/src/Timestamp.cs:61-65 | A UTC date there and back moves toward the epoch by less than a millisecond, and not at all exactly on whole milliseconds. |
| Timestamps.LatestNotAfter | dotnet/CLRInterface/src/Timestamp.cs:61-65 | From the epoch to the last DateTime, the two maps form a Galois connection: the time of a date is the latest one whose date is not after it. |
| Timestamps.DurationRoundTrip | dotnet/CLRAdapter/src/Conversions.cpp:323-331 | A native duration survives becoming a TimeSpan and back exactly when it fits one. |
| Timestamps.TimespanTruncates | dotnet/CLRAdapter/src/Conversions.cpp:323-326 | A span loses its part below a millisecond, toward zero. |
| Timestamps.CalendarLimits | dotnet/CLRInterface/src/Timestamp.cs:31-36 | The epoch is the start of 1970 and the limit the last tick of the year 9999, counted in days of the calendar. |
| ChangeSets.CopyOctets | dotnet/CLRAdapter/src/Conversions.cpp:253-265 | Keeps the first 255 bytes in order; an empty string becomes one zero byte. |
| ChangeSets.LosslessIff | dotnet/CLRAdapter/src/Conversions.cpp:223-285 | Conversion to native and back loses nothing exactly for whole milliseconds and for 1 to 255 octets. |
| ChangeSets.MeasKept | dotnet/CLRAdapter/src/Conversions.cpp:223-285 | Conversion keeps type, value, quality, index and mode, and the time to less than a millisecond. |
| ChangeSets.ClippedIs | cpp/libs/src/opendnp3/app/OctetData.cpp:33-44 | Of a long string the first 255 bytes stay, an empty one becomes a zero byte, any other is kept. |
| ChangeSets.KeyIff | dotnet/CLRInterface/src/ChangeSet.cs:72-115 | Two updates are about one point exactly when type and index agree. |
| ChangeSets.ReplayConcat | dotnet/CLRInterface/src/ChangeSet.cs:46-52 | Replaying a concatenation is replaying its parts, on any database. |
| ChangeSets.RecordReplays | dotnet/CLRInterface/src/ChangeSet.cs:72-115 | Applying a log to a change set appends it. |
| ChangeSets.ApplyComposes | dotnet/CLRInterface/src/ChangeSet.cs:42-115 | Applying A to B and then B to any database is applying B and then A to it; counts add up. |
| ChangeSets.LastUpdateWins | dotnet/CLRInterface/src/ChangeSet.cs:46-52 | In a store of most recent values a point ends with its last recorded update. |
| ChangeSets.OtherPointsKept | dotnet/CLRInterface/src/ChangeSet.cs:46-52 | A point without an update keeps what it had. |
| ChangeSets.ReceiveReplays | dotnet/CLRAdapter/src/ChangeSetAdapter.cpp:44-92 | Replayed into a log, the adapter, or a store, a change set appends, appends converted, or overwrites. |
| ChangeSets.ChangeSet.Apply | dotnet/CLRInterface/src/ChangeSet.cs:46-52 | The target ends as after replaying every update in order, and the set keeps them. |
| ChangeSets.ApplyThrough | dotnet/CLRInterface/src/ChangeSet.cs:42-115 | The composition law on the objects themselves: the first set is unconsumed, the second has grown by it. |
| ChangeSets.Load | dotnet/CLRAdapter/src/OutstationAdapter.cpp:46-52 | The outstation gets one batch, the recorded updates converted in order with index and mode; none for an empty set. |
| ChangeSets.BatchEqualsDirect | cpp/libs/src/asiodnp3/OutstationStack.cpp:114-125 | Running the batch is running each converted update directly, whatever the outstation does with one. |
| ConfigWriters.ConvertIndexConfig | dotnet/CLRAdapter/src/Conversions.h:200-207 | Sets the index of each slot that has a record and nothing else. |
| ConfigWriters.ConvertStaticConfig | dotnet/CLRAdapter/src/Conversions.h:209-218 | The second layer keeps the first one's writes and leaves later fields and later slots as they were. |
| ConfigWriters.ConvertEventConfig | dotnet/CLRAdapter/src/Conversions.h:220-230 | The third layer likewise, with class codes it does not know taken as class 0. |
| ConfigWriters.ConvertDeadbandConfig | dotnet/CLRAdapter/src/Conversions.h:232-241 | All layers together leave each slot the conversion of its own record. |
| ConfigWriters.DatabaseConfig.constructor | cpp/libs/include/asiodnp3/DatabaseConfig.h:34-77 | Nine separate arrays of the given sizes, numbered from zero. |
| ConfigWriters.ApplyConfig | dotnet/CLRAdapter/src/Conversions.cpp:460-471 | Each of the nine arrays is overwritten from its own list, to its own depth, and no call disturbs another's array. |
| ConfigWriters.ConvertConfig | dotnet/CLRAdapter/src/Conversions.cpp:434-458 | The arrays are record by record the conversion of the template, and the index mode or exception is the one its lists call for, unless a list is longer than 65535; then, and only then, an array assertion fails. |
| ConfigWriters.SlotsForAllIff | dotnet/CLRAdapter/src/Conversions.cpp:436-446 | An increasing list gets a slot for every record unless it is the full list of 65536, whose 16-bit size is zero. |
| ConfigWriters.TemplateServesIff | dotnet/CLRAdapter/src/Conversions.cpp:434-458 | From an accepted template to the database: all updates find their points exactly when no list out of order comes behind one with gaps. |
| ConfigWriters.ConvertPoints | java/cpp/adapters/ConfigReader.cpp:151-176 | The indexed iteration writes one whole record per slot, in order, and leaves the rest. |
| ConfigWriters.BindingsAgreeIff | java/cpp/adapters/ConfigReader.cpp:178-253 | Both bindings leave the same array exactly when all class codes are valid and no analog output status has a deadband; event classes agree always. |
| ConfigWriters.ClassAppliedIff | dotnet/CLRInterface/src/config/PointRecords.cs:175-181 | The class of a .NET record reaches its point exactly when the point is not an octet string or the class is the default. |
| ConfigWriters.FieldsAppliedIff | dotnet/CLRAdapter/src/Conversions.cpp:460-471 | Field by field, what of a .NET record reaches its point: always the index, each other field exactly when its type has it or it is the default. |
| ConfigWriters.EventClassCodes | cpp/libs/src/opendnp3/outstation/Database.cpp:113-132 | In numbers, which class codes report events of which class. |
| ConfigWriters.ScannedInOrder | dotnet/CLRInterface/src/config/DatabaseTemplate.cs:86-96 | The lists in the order in which the template scans them. |
| PointIndex.IsContiguous | dotnet/CLRInterface/src/config/DatabaseTemplate.cs:146-170 | Answers only for increasing lists, true iff the list is 0, 1, 2, ...; otherwise throws, naming the first index out of order and its position in 16 bits. |
| PointIndex.GetIndexMode | dotnet/CLRInterface/src/config/DatabaseTemplate.cs:84-102 | The first list that is not 0, 1, 2, ... decides alone between discontiguous and an exception. |
| PointIndex.FindClosestRawIndex | cpp/libs/src/opendnp3/outstation/IndexSearch.h:104-156 | The loop, on 16-bit bounds that never wrap, is the recursive search. |
| PointIndex.ClosestIsNear | cpp/libs/src/opendnp3/outstation/IndexSearch.h:104-156 | Over increasing indices a point is found iff it exists, and a miss stops right beside its place. |
| PointIndex.FindableIffIncreasing | cpp/libs/src/opendnp3/outstation/IndexSearch.h:104-156 | The search takes every point's index to that point exactly when the indices increase. |
| PointIndex.ServesIff | cpp/libs/src/opendnp3/outstation/Database.cpp:134-159 | Every update reaches its point and no other index reaches any, exactly for 0, 1, 2, ... in contiguous and for increasing indices in discontiguous mode. |
| PointIndex.AcceptedServesIff | dotnet/CLRInterface/src/config/DatabaseTemplate.cs:84-102 | An accepted template serves all its points exactly when every list behind the deciding one increases. |
| ConfigWriters.OutOfOrderSlipsThrough | dotnet/CLRInterface/src/config/DatabaseTemplate.cs:98-99 | A template that is accepted although its second list is out of order, with a point no update reaches. |
| PointIndex.RawRangeIsExact | cpp/libs/src/opendnp3/outstation/IndexSearch.h:65-102 | Over increasing indices the raw range holds exactly the points whose indices lie in the range asked for, and is invalid if there are none. |
| PointIndex.GenericSelect | cpp/libs/src/opendnp3/outstation/DatabaseBuffers.h:168-212 | Selects the part of the range that exists; an error iff part was missing or already selected. |
| PointIndex.SelectVirtualRange | cpp/libs/src/opendnp3/outstation/DatabaseBuffers.h:133-155 | Selects the raw range and nothing else; an error iff clipped or already selected, or invalid in discontiguous mode. |
| PointIndex.SelectsExactly | cpp/libs/src/opendnp3/outstation/DatabaseBuffers.h:133-155 | In both modes a request is about exactly the points whose indices it names. |
| PointIndex.ClippedIff | cpp/libs/src/opendnp3/outstation/DatabaseBuffers.h:139-145 | In both modes, comparing sizes reports an error exactly when some index of the request has no point. |
| Headers.ConvertToVectorOfHeaders | dotnet/CLRAdapter/src/MasterConversions.cpp:32-44 | The loop collects the conversions of the list, in order. |
| Headers.ConversionIsFilter | dotnet/CLRAdapter/src/MasterConversions.cpp:32-135 | For any list the result is the convertible headers converted one by one in their order. |
| Headers.FactoriesRoundTrip | dotnet/CLRInterface/src/Header.cs:53-102 | A list made with the factories converts to exactly what was asked for. |
| Headers.FaithfulIff | dotnet/CLRAdapter/src/MasterConversions.cpp:46-135 | Conversion keeps all of a header exactly when one of the factories can have made it. |
| Headers.WriteHeaders | cpp/libs/src/opendnp3/app/HeaderWriter.h:109-139 | A list is written exactly when all of it fits the buffer, and then byte for byte. |
| Headers.WireLayout | cpp/libs/src/opendnp3/app/HeaderWriter.h:109-139 | The bytes of every kind of header in numbers: group, variation, qualifier code of IEEE Std 1815-2012, and 16-bit numbers low byte first. |
| Headers.RequestBytes | dotnet/CLRAdapter/src/MasterConversions.cpp:46-135 | The bytes, in numbers, that a .NET header made by a factory puts on the wire. |
| Headers.ReadsCounts | cpp/libs/src/opendnp3/app/parsing/NumParser.cpp:39-56 | What a station reads from the literal bytes of the count and all-objects headers. |
| Headers.ReadsRange8 | cpp/libs/src/opendnp3/app/parsing/NumParser.cpp:58-76 | The same for one-byte ranges. |
| Headers.ReadsRange16 | cpp/libs/src/opendnp3/app/parsing/NumParser.cpp:58-76 | The same for two-byte ranges. |
| Headers.RefusesBytes | cpp/libs/src/opendnp3/app/parsing/APDUParser.cpp:83-154 | Why bytes that are too short, unknown, or of no qualifier are refused, in the order of the checks. |
| Headers.Parse | cpp/libs/src/opendnp3/app/parsing/APDUParser.cpp:47-81 | Two passes: either every header is handled, in order, or the first failure of the pass with the white list is the error and no header is handled. |
| Headers.SecondPassAgrees | cpp/libs/src/opendnp3/app/parsing/APDUParser.cpp:52-56 | A pass without the white list reads what the pass with it accepted. |
| Headers.HeaderRoundTrip | cpp/libs/src/opendnp3/app/parsing/APDUParser.cpp:83-154 | A written header comes back with what follows it untouched, or fails with the station's one objection to it. |
| Headers.RequestRoundTrip | cpp/libs/src/opendnp3/app/parsing/APDUParser.cpp:63-81 | A written request comes back whole exactly when no header is objected to, else fails with the first objection. |
| Headers.ParsedIsEncoded | cpp/libs/src/opendnp3/app/parsing/APDUParser.cpp:63-154 | Any bytes that are accepted are the encoding of the headers read from them, none of them objectionable. |
| Headers.WireIsUnambiguous | cpp/libs/src/opendnp3/app/HeaderWriter.cpp:55-66 | Different lists of headers never have the same bytes. |
| Headers.EndToEnd | dotnet/CLRInterface/src/Header.cs:53-102 | What was asked of the factories is what the far station reads, exactly when it objects to none of it. |
| Tokenizer.StringStream.GetLine | cpp/examples/master-gprs/main.cpp:116 | Extracts up to the next space, drops the space, and fails only when nothing is left. |
| Tokenizer.Tokenize | cpp/examples/master-gprs/main.cpp:110-122 | The loop returns the tokens of the line. |
| Tokenizer.NoSpaces | cpp/examples/master-gprs/main.cpp:116-119 | No token contains a space. |
| Tokenizer.SplitThenJoin | cpp/examples/master-gprs/main.cpp:110-122 | Joined with single spaces the tokens give back the line, without its final space if it ends in one. |
| Tokenizer.SplitThenTerminate | cpp/examples/master-gprs/main.cpp:110-122 | With a space after each token they give back the line with a final space. |
| Tokenizer.TerminateThenSplit | cpp/examples/master-gprs/main.cpp:110-122 | Any tokens without spaces, empty ones too, survive being terminated and split. |
| Tokenizer.JoinThenSplitIff | cpp/examples/master-gprs/main.cpp:110-122 | Joined instead, they survive exactly when the last one is not empty. |
| Tokenizer.SameTokensIff | cpp/examples/master-gprs/main.cpp:110-122 | Two lines have the same tokens exactly when they differ in a final space at most. |

## Assumptions

- `AcceptSession` returns a new session that is not null, `BeginShutdown` does not call back
  synchronously, and a session id has at most one first frame, before its close.
  `ListenerRuns.ContractHolds` derives them from the native stack, where the shutdown is a posted
  handler (`cpp/libs/src/asiodnp3/MasterSessionStack.cpp:117`) and every first frame is accepted.
- The handlers of one session run one at a time on its strand; a shutdown from inside a running
  read is not covered. A single listener numbers the sessions, and fewer than 2^64 of them.
- `TimeSpan.FromMilliseconds` rounds half away from zero and checks its range before
  converting, as the .NET Framework does; the step through `double` is exact.

## Left out

- Registry.Conservation: counts shutdowns asked for, not their effect on the socket, which `LinkSessions` has.
- ListenerRuns.ContractHolds: two listeners that share one callback object would each number from zero; only one is modelled.
- LinkSessions.LinkSession.OnReadComplete: frames are already parsed and checked; link framing is not modelled, and a frame is its source address.
- LinkSessions.LinkSession.PushFrame: the order between a call to the listener and one to the master is not recorded, only the order among each.
- TaskCallbacks.Lifetime: a native task created without a callback reports to nobody and is not modelled.
- TaskScheduler.MasterSchedulerBackend.SetRunnerOffline: the callbacks of recurring scans are not followed.
- MasterRuns.StepKeeps: holds for every choice of the next task, `TaskChoice` has the one made; retry delays and fairness over time are not modelled.
- TaskScheduler.MasterSchedulerBackend.CheckForTaskRun: a task's expiration and priority and the current blocks are given; retry delays are not computed.
- TaskScheduler.MasterSchedulerBackend.Shutdown: the calls of destructors are not among the calls of the scheduler, since a master may hold the last reference; `MasterRuns.Step` makes them.
- MasterRuns.DestroyedIff: in which order the operations let go by one event are destroyed is not modelled.
- MasterRuns.EvictionLosesAll: stated for a session's own scheduler, which serves that session only.
- Iteration.IterateWithIndex: the index is unbounded where the source has a 32-bit `int`.
- CommandSets.CommandSetBuilder.Add: one member for five overloads; that a header holds commands of its own type only is not enforced.
- ChangeSets.ChangeSet.Apply: the recorded closures are kept as data, and applying a set to itself is excluded.
- ChangeSets.LosslessIff: the state bits that two-state measurements keep in their quality byte are folded alike on both sides and not modelled.
- ConfigWriters.ConvertConfig: link and outstation parameters are copied field by field and not modelled; deadbands are reals.
- ConfigWriters.ConvertConfig: without assertions a list longer than 65535 writes past its array, which is undefined and not modelled.
- ConfigWriters.TemplateServesIff: only templates whose lists fit have a database to speak of.
- PointIndex.GenericSelect: which value and variation a selection captures, and the merged range of all selections, are not modelled.
- PointIndex.SelectVirtualRange: which value and variation a selection captures is not modelled.
- Headers.Parse: the qualifiers that carry indexed objects are not modelled and count as failures.
- Headers.ParsedIsEncoded: says nothing of requests with those qualifiers.
- CommandSets.Build: cyclic arrays, which would not terminate, are excluded by the nesting height.
- Dates that are not UTC, and anything that depends on a time zone.
- `parse_uint16` and the other console commands, session names and measurement printing of the example.
- Quality flags, class masks and enumeration casts, which are settled by reading one line each.
- Channels, TLS, serial ports, logging, and the generated JNI wrappers.
