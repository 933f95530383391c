/**
  Any number of threads calling into the registry, interleaved at every step inside the
  `lock_guard` sections: each comparison of `find_if`, `BeginShutdown`, `erase`,
  `AcceptSession` and `emplace_back` is a move of its own.
 */
module RegistryThreads {
  import opened Words
  import opened Registry

  type Tid = nat

  datatype Op =
    | GetSession(address: Uint16)
    | OnFirstFrame(id: Uint64, src: Uint16)
    | OnClose(id: Uint64)

  /** Where a thread is; `call` is the position of its invocation in the trace. */
  datatype Pc =
    | Idle
    | Waiting(op: Op, call: nat)                     // at the lock_guard
    | Searching(op: Op, call: nat, i: nat)           // find_if is about to look at entry i
    | Matched(op: Op, call: nat, i: nat)             // find_if stopped at entry i
    | Notified(op: Op, call: nat, i: nat)            // BeginShutdown called, entry i not yet erased
    | Cleared(op: Op, call: nat)                     // no entry has the address any more
    | Accepted(op: Op, call: nat, session: Handle)   // about to emplace_back
    | Finished(op: Op, call: nat, event: Event)      // effect complete, mutex still held
    | Unlocked(op: Op, call: nat, point: nat)        // mutex released, not yet returned

  /** What an observer outside sees; `point` is the position of the call in the lock order. */
  datatype Observation =
    | Call(t: Tid, op: Op)
    | Return(t: Tid, call: nat, point: nat)

  datatype Completed = Completed(call: nat, event: Event)

  datatype World = World(
    lock: Option<Tid>,
    shared: State,
    issued: nat,
    threads: map<Tid, Pc>,
    completed: seq<Completed>,
    trace: seq<Observation>)

  datatype Action =
    | Invoke(op: Op) | Acquire | Look | Notify | EraseEntry | Accept | Append | Finish | Release | Respond

  datatype Move = Move(t: Tid, action: Action)

  const INIT := World(None, State([], []), 0, map[], [], [])

  function PcOf(w: World, t: Tid): Pc {
    if t in w.threads then w.threads[t] else Idle
  }

  predicate Hits(op: Op, x: SessionInfo) {
    match op
    case GetSession(address) => x.address == address
    case OnFirstFrame(_, src) => x.address == src
    case OnClose(id) => x.id == id
  }

  predicate Can(w: World, m: Move) {
    match (m.action, PcOf(w, m.t))
    case (Invoke(_), Idle) => true
    case (Acquire, Waiting(_, _)) => w.lock == None
    case (Look, Searching(_, _, i)) => i <= |w.shared.sessions|
    case (Notify, Matched(op, _, i)) => op.OnFirstFrame? && i < |w.shared.sessions|
    case (EraseEntry, Matched(op, _, i)) => op.OnClose? && i < |w.shared.sessions|
    case (EraseEntry, Notified(op, _, i)) => op.OnFirstFrame? && i < |w.shared.sessions|
    case (Accept, Cleared(op, _)) => op.OnFirstFrame?
    case (Append, Accepted(op, _, _)) => op.OnFirstFrame?
    case (Finish, Matched(op, _, i)) => op.GetSession? && i < |w.shared.sessions|
    case (Release, Finished(_, _, _)) => true
    case (Respond, Unlocked(_, _, _)) => true
    case _ => false
  }

  function At(w: World, t: Tid, pc: Pc): World {
    w.(threads := w.threads[t := pc])
  }

  function Do(w: World, m: Move): World
    requires Can(w, m)
  {
    var t, s := m.t, w.shared.sessions;
    match (m.action, PcOf(w, t))
    case (Invoke(op), Idle) =>
      At(w.(trace := w.trace + [Call(t, op)]), t, Waiting(op, |w.trace|))
    case (Acquire, Waiting(op, call)) =>
      At(w.(lock := Some(t)), t, Searching(op, call, 0))
    case (Look, Searching(op, call, i)) =>
      At(w, t, Looked(PcOf(w, t), s))
    case (Notify, Matched(op, call, i)) =>
      At(w.(shared := w.shared.(shutdowns := w.shared.shutdowns + [s[i].session])), t, Notified(op, call, i))
    case (EraseEntry, Matched(op, call, i)) =>
      At(w.(shared := w.shared.(sessions := Erase(s, i))), t, Finished(op, call, Close(op.id)))
    case (EraseEntry, Notified(op, call, i)) =>
      At(w.(shared := w.shared.(sessions := Erase(s, i))), t, Cleared(op, call))
    case (Accept, Cleared(op, call)) =>
      At(w.(issued := w.issued + 1), t, Accepted(op, call, w.issued))
    case (Append, Accepted(op, call, session)) =>
      At(w.(shared := w.shared.(sessions := s + [SessionInfo(op.id, op.src, session)])), t,
         Finished(op, call, FirstFrame(op.id, op.src, session)))
    case (Finish, Matched(op, call, i)) =>
      At(w, t, Finished(op, call, Lookup(op.address, Some(s[i].session))))
    case (Release, Finished(op, call, event)) =>
      At(w.(lock := None, completed := w.completed + [Completed(call, event)]), t, Unlocked(op, call, |w.completed|))
    case (Respond, Unlocked(op, call, point)) =>
      At(w.(trace := w.trace + [Return(t, call, point)]), t, Idle)
  }

  /** `find_if` reached `end()`. */
  function NotFound(op: Op, call: nat): Pc {
    match op
    case GetSession(address) => Finished(op, call, Lookup(address, None))
    case OnFirstFrame(_, _) => Cleared(op, call)
    case OnClose(id) => Finished(op, call, Close(id))
  }

  /** The world after a schedule, or nothing when some move of it was not possible. */
  function After(schedule: seq<Move>): Option<World> {
    if schedule == [] then Some(INIT)
    else
      match After(schedule[..|schedule| - 1])
      case None => None
      case Some(w) =>
        var m := schedule[|schedule| - 1];
        if Can(w, m) then Some(Do(w, m)) else None
  }

  /** The completed operations, in the order in which they held the lock. */
  function Serial(completed: seq<Completed>): (h: seq<Event>)
    ensures |h| == |completed|
    ensures forall i :: 0 <= i < |h| ==> h[i] == completed[i].event
  {
    seq(|completed|, i requires 0 <= i < |completed| => completed[i].event)
  }

  // ------------------------------- invariant -------------------------------

  predicate Performs(op: Op, e: Event) {
    match op
    case GetSession(address) => e.Lookup? && e.address == address
    case OnFirstFrame(id, src) => e.FirstFrame? && e.id == id && e.address == src
    case OnClose(id) => e == Close(id)
  }

  predicate Critical(pc: Pc) {
    !(pc.Idle? || pc.Waiting? || pc.Unlocked?)
  }

  ghost predicate NoHit(op: Op, s: seq<SessionInfo>, upTo: nat)
    requires upTo <= |s|
  {
    forall j :: 0 <= j < upTo ==> !Hits(op, s[j])
  }

  /** The state between a first frame's erase and its append. */
  function Vacated(base: State, src: Uint16): State {
    var i := IndexOfAddress(base.sessions, src);
    State(
      Erase(base.sessions, i),
      if i < |base.sessions| then base.shutdowns + [base.sessions[i].session] else base.shutdowns)
  }

  /** How far the holder of the mutex has moved the shared state on from `base`. */
  ghost predicate Midway(pc: Pc, base: State, shared: State, issued: nat)
    requires Critical(pc)
  {
    match pc
    case Searching(op, _, i) => shared == base && i <= |base.sessions| && NoHit(op, base.sessions, i)
    case Matched(op, _, i) =>
      shared == base && i < |base.sessions| && NoHit(op, base.sessions, i) && Hits(op, base.sessions[i])
    case Notified(op, _, i) =>
      && op.OnFirstFrame? && i == IndexOfAddress(base.sessions, op.src) && i < |base.sessions|
      && shared == base.(shutdowns := base.shutdowns + [base.sessions[i].session])
    case Cleared(op, _) => op.OnFirstFrame? && shared == Vacated(base, op.src)
    case Accepted(op, _, session) => op.OnFirstFrame? && shared == Vacated(base, op.src) && session < issued
    case Finished(op, _, event) =>
      && shared == Step(base, event) && Performs(op, event)
      && (event.Lookup? ==> event.result == Find(base, event.address))
      && (event.FirstFrame? ==> event.session < issued)
  }

  ghost predicate MutexInv(w: World) {
    && (forall t: Tid :: Critical(PcOf(w, t)) ==> w.lock == Some(t))
    && (match w.lock
        case None => w.shared == Run(Serial(w.completed))
        case Some(t) => Critical(PcOf(w, t)) && Midway(PcOf(w, t), Run(Serial(w.completed)), w.shared, w.issued))
  }

  /** Every completed lookup returned what the serial run up to it would have. */
  ghost predicate AnswersInv(w: World) {
    forall k :: 0 <= k < |w.completed| && w.completed[k].event.Lookup? ==>
      w.completed[k].event.result == Find(Run(Serial(w.completed[..k])), w.completed[k].event.address)
  }

  ghost predicate CompletedCall(w: World, k: nat)
    requires k < |w.completed|
  {
    var c := w.completed[k].call;
    c < |w.trace| && w.trace[c].Call? && Performs(w.trace[c].op, w.completed[k].event)
  }

  ghost predicate CallInv(w: World) {
    && (forall k: nat :: k < |w.completed| ==> CompletedCall(w, k))
    && (forall j, k :: 0 <= j < k < |w.completed| ==> w.completed[j].call != w.completed[k].call)
    && (forall t: Tid :: PendingInv(w, t))
  }

  /** A thread inside a call remembers that call, which completes once, between acquire and return. */
  ghost predicate PendingInv(w: World, t: Tid) {
    var pc := PcOf(w, t);
    pc.Idle? || (
      && pc.call < |w.trace| && w.trace[pc.call] == Call(t, pc.op)
      && (pc.Unlocked? ==> pc.point < |w.completed| && w.completed[pc.point].call == pc.call)
      && (!pc.Unlocked? ==> forall k :: 0 <= k < |w.completed| ==> w.completed[k].call != pc.call))
  }

  /** The return at `r` is of a call invoked before it, by the same thread, that took effect at its point. */
  ghost predicate ReturnsOwnCall(w: World, r: int)
    requires 0 <= r < |w.trace| && w.trace[r].Return?
  {
    var o := w.trace[r];
    && o.point < |w.completed| && w.completed[o.point].call == o.call < r
    && w.trace[o.call].Call? && w.trace[o.call].t == o.t
  }

  ghost predicate ReturnInv(w: World) {
    && (forall r :: 0 <= r < |w.trace| && w.trace[r].Return? ==> ReturnsOwnCall(w, r))
    && (forall r, k :: Precedes(w, r, k) ==> w.trace[r].point < k)
  }

  /** The call that returned at `r` was over before the `k`-th completed one was invoked. */
  ghost predicate Precedes(w: World, r: int, k: int) {
    0 <= r < |w.trace| && w.trace[r].Return? && 0 <= k < |w.completed| && r < w.completed[k].call
  }

  ghost predicate FreshInv(w: World) {
    && FreshSessions(Serial(w.completed))
    && (forall k ::
          0 <= k < |w.completed| && w.completed[k].event.FirstFrame? ==> w.completed[k].event.session < w.issued)
    && (forall t: Tid :: HeldSessionIsNew(w, PcOf(w, t)))
  }

  ghost predicate HeldSessionIsNew(w: World, pc: Pc) {
    && (pc.Accepted? ==> NotYet(w, pc.session))
    && (pc.Finished? && pc.event.FirstFrame? ==> NotYet(w, pc.event.session))
  }

  ghost predicate NotYet(w: World, session: Handle) {
    session < w.issued
    && forall k ::
         0 <= k < |w.completed| && w.completed[k].event.FirstFrame? ==> w.completed[k].event.session != session
  }

  ghost predicate Inv(w: World) {
    MutexInv(w) && AnswersInv(w) && CallInv(w) && ReturnInv(w) && FreshInv(w)
  }

  // --------------------------- every move keeps it ---------------------------

  lemma SerialAppend(completed: seq<Completed>, c: Completed)
    ensures Serial(completed + [c]) == Serial(completed) + [c.event]
    ensures Run(Serial(completed + [c])) == Step(Run(Serial(completed)), c.event)
  {
    assert Serial(completed + [c]) == Serial(completed) + [c.event];
    assert (Serial(completed) + [c.event])[..|completed|] == Serial(completed);
  }

  lemma OthersStay(w: World, m: Move, t: Tid)
    requires Can(w, m) && t != m.t
    ensures PcOf(Do(w, m), t) == PcOf(w, t)
  {
  }

  /** The holder's own step carries the shared state on as the serial step prescribes. */
  lemma MidwayKept(w: World, m: Move)
    requires MutexInv(w) && Can(w, m) && Critical(PcOf(w, m.t)) && m.action != Release
    ensures var v := Do(w, m);
            Critical(PcOf(v, m.t)) && Midway(PcOf(v, m.t), Run(Serial(v.completed)), v.shared, v.issued)
  {
    var base := Run(Serial(w.completed));
    match PcOf(w, m.t)
    case Searching(op, call, i) => LookKept(w, m);
    case Matched(op, call, i) => FirstHit(op, base.sessions, i);
    case _ =>
  }

  lemma LookKept(w: World, m: Move)
    requires MutexInv(w) && Can(w, m) && PcOf(w, m.t).Searching?
    ensures var v := Do(w, m);
            Critical(PcOf(v, m.t)) && Midway(PcOf(v, m.t), Run(Serial(v.completed)), v.shared, v.issued)
  {
    var pc, base := PcOf(w, m.t), Run(Serial(w.completed));
    LookAt(pc, base, w.issued);
    assert Do(w, m).shared == w.shared && Do(w, m).completed == w.completed;
    assert PcOf(Do(w, m), m.t) == Looked(pc, base.sessions);
  }

  /** Where one look of `find_if` leads. */
  function Looked(pc: Pc, s: seq<SessionInfo>): Pc
    requires pc.Searching? && pc.i <= |s|
  {
    if pc.i == |s| then NotFound(pc.op, pc.call)
    else if Hits(pc.op, s[pc.i]) then Matched(pc.op, pc.call, pc.i)
    else Searching(pc.op, pc.call, pc.i + 1)
  }

  lemma LookAt(pc: Pc, base: State, issued: nat)
    requires pc.Searching? && pc.i <= |base.sessions| && NoHit(pc.op, base.sessions, pc.i)
    ensures var next := Looked(pc, base.sessions); Critical(next) && Midway(next, base, base, issued)
  {
    if pc.i == |base.sessions| {
      NotFoundMeansAbsent(pc.op, base);
    }
  }

  lemma FirstHit(op: Op, s: seq<SessionInfo>, i: nat)
    requires i < |s| && NoHit(op, s, i) && Hits(op, s[i])
    ensures !op.OnClose? ==> i == IndexOfAddress(s, s[i].address)
    ensures op.OnClose? ==> i == IndexOfId(s, op.id)
  {
  }

  lemma NotFoundMeansAbsent(op: Op, base: State)
    ensures NoHit(op, base.sessions, |base.sessions|) ==>
              match op
              case GetSession(address) => Find(base, address) == None
              case OnFirstFrame(_, src) => Vacated(base, src) == base
              case OnClose(id) => Step(base, Close(id)) == base
  {
    if NoHit(op, base.sessions, |base.sessions|) {
      match op
      case GetSession(address) => assert IndexOfAddress(base.sessions, address) == |base.sessions|;
      case OnFirstFrame(_, src) => assert IndexOfAddress(base.sessions, src) == |base.sessions|;
      case OnClose(id) => assert IndexOfId(base.sessions, id) == |base.sessions|;
    }
  }

  lemma MutexKept(w: World, m: Move)
    requires MutexInv(w) && Can(w, m)
    ensures MutexInv(Do(w, m))
  {
    var v := Do(w, m);
    forall t: Tid | t != m.t ensures PcOf(v, t) == PcOf(w, t) { OthersStay(w, m, t); }
    if Critical(PcOf(w, m.t)) {
      if m.action == Release {
        SerialAppend(w.completed, Completed(PcOf(w, m.t).call, PcOf(w, m.t).event));
      } else {
        MidwayKept(w, m);
      }
    }
  }

  lemma AnswersKept(w: World, m: Move)
    requires MutexInv(w) && AnswersInv(w) && Can(w, m)
    ensures AnswersInv(Do(w, m))
  {
    var v := Do(w, m);
    forall k | 0 <= k < |v.completed| && v.completed[k].event.Lookup?
      ensures v.completed[k].event.result == Find(Run(Serial(v.completed[..k])), v.completed[k].event.address)
    {
      assert v.completed[..k] == w.completed[..k];
      if k == |w.completed| {
        assert w.completed[..k] == w.completed;
      }
    }
  }

  lemma CallsKept(w: World, m: Move)
    requires MutexInv(w) && CallInv(w) && Can(w, m)
    ensures CallInv(Do(w, m))
  {
    var v := Do(w, m);
    assert PendingInv(w, m.t);
    forall k: nat | k < |v.completed| ensures CompletedCall(v, k) {
      if k < |w.completed| { assert CompletedCall(w, k); }
    }
    forall t: Tid ensures PendingInv(v, t) {
      PendingKept(w, m, t);
    }
  }

  lemma PendingKept(w: World, m: Move, t: Tid)
    requires MutexInv(w) && CallInv(w) && Can(w, m)
    ensures PendingInv(Do(w, m), t)
  {
    var v := Do(w, m);
    assert PendingInv(w, t) && PendingInv(w, m.t);
    assert forall c :: 0 <= c < |w.trace| ==> v.trace[c] == w.trace[c];
    assert forall k :: 0 <= k < |w.completed| ==> v.completed[k] == w.completed[k];
    if t != m.t {
      OthersStay(w, m, t);
    } else if m.action.Invoke? {
      forall k: nat | k < |w.completed| ensures w.completed[k].call != |w.trace| {
        assert CompletedCall(w, k);
      }
    } else if m.action.Release? {
      assert v.completed[|w.completed|].call == PcOf(w, t).call;
    } else {
      assert v.completed == w.completed;
      assert PcOf(v, t).Idle? || PcOf(v, t).call == PcOf(w, t).call;
    }
  }

  lemma ReturnsKept(w: World, m: Move)
    requires MutexInv(w) && CallInv(w) && ReturnInv(w) && Can(w, m)
    ensures ReturnInv(Do(w, m))
  {
    var v := Do(w, m);
    assert PendingInv(w, m.t);
    forall k: nat | k < |w.completed| ensures w.completed[k].call < |w.trace| {
      assert CompletedCall(w, k);
    }
    forall r, k | Precedes(v, r, k) ensures v.trace[r].point < k {
      if r < |w.trace| && k < |w.completed| {
        assert Precedes(w, r, k);
      }
    }
  }

  lemma FreshKept(w: World, m: Move)
    requires MutexInv(w) && FreshInv(w) && Can(w, m)
    ensures FreshInv(Do(w, m))
  {
    var v := Do(w, m);
    assert HeldSessionIsNew(w, PcOf(w, m.t));
    forall t: Tid ensures HeldSessionIsNew(v, PcOf(v, t)) {
      HeldKept(w, m, t);
    }
    var g, h := Serial(w.completed), Serial(v.completed);
    assert forall i :: Accepts(h, i) && i < |g| ==> Accepts(g, i) && g[i] == h[i];
  }

  lemma HeldKept(w: World, m: Move, t: Tid)
    requires MutexInv(w) && FreshInv(w) && Can(w, m)
    ensures HeldSessionIsNew(Do(w, m), PcOf(Do(w, m), t))
  {
    assert HeldSessionIsNew(w, PcOf(w, t));
    if t != m.t {
      OthersStay(w, m, t);
      assert Critical(PcOf(w, t)) ==> m.action != Release;
    }
  }

  lemma {:induction false} InvAlways(schedule: seq<Move>)
    requires After(schedule).Some?
    ensures Inv(After(schedule).value)
  {
    if schedule != [] {
      var before, m := schedule[..|schedule| - 1], schedule[|schedule| - 1];
      InvAlways(before);
      var w := After(before).value;
      MutexKept(w, m);
      AnswersKept(w, m);
      CallsKept(w, m);
      ReturnsKept(w, m);
      FreshKept(w, m);
    }
  }

  // ------------------------------- theorems -------------------------------

  /**
    Linearizability.  After every schedule of every set of threads: with the mutex free,
    the shared state is that of the serial run of the completed calls in lock order; every
    lookup was answered as in that run; every call takes effect at most once, and before it
    returns; and a call that returned before another was invoked precedes it in that order.
   */
  lemma Linearizable(schedule: seq<Move>)
    requires After(schedule).Some?
    ensures var w := After(schedule).value;
            && (w.lock == None ==> w.shared == Run(Serial(w.completed)))
            && AnswersInv(w)
            && (forall k: nat :: k < |w.completed| ==> CompletedCall(w, k))
            && (forall j, k :: 0 <= j < k < |w.completed| ==> w.completed[j].call != w.completed[k].call)
            && (forall r :: 0 <= r < |w.trace| && w.trace[r].Return? ==> ReturnsOwnCall(w, r))
            && (forall r, k :: Precedes(w, r, k) ==> w.trace[r].point < k)
  {
    InvAlways(schedule);
  }

  /** `result` is what the lookup says after history `h`: the latest session still open, or null. */
  ghost predicate IsAnswer(h: seq<Event>, address: Uint16, result: Option<Handle>) {
    && result == Find(Run(h), address)
    && (UniqueIds(h) ==>
          && (forall i :: Connected(h, address, i) ==> result == Some(h[i].session))
          && (result.Some? ==> exists i :: Connected(h, address, i))
          && (result.Some? && FreshSessions(h) ==> result.value !in Run(h).shutdowns))
  }

  lemma FindIsAnswer(h: seq<Event>, address: Uint16)
    ensures IsAnswer(h, address, Find(Run(h), address))
  {
    if UniqueIds(h) {
      LookupIsLatestOpen(h, address);
      if FreshSessions(h) {
        LookupNeverShutDown(h, address);
      }
    }
  }

  /**
    The value a lookup returned to its caller is that of the serial run at the one place in
    the lock order that its own call took, after it was invoked and before it returned: the
    session of the latest first frame from the address whose connection had not closed, never
    one that had been shut down.
   */
  lemma ReturnedLookup(schedule: seq<Move>, r: nat)
    requires After(schedule).Some? && r < |After(schedule).value.trace|
    requires var o := After(schedule).value.trace[r];
             o.Return? && o.point < |After(schedule).value.completed|
             && After(schedule).value.completed[o.point].event.Lookup?
    ensures var w := After(schedule).value;
            var k := w.trace[r].point;
            var e := w.completed[k].event;
            && ReturnsOwnCall(w, r)
            && w.trace[w.trace[r].call].op == GetSession(e.address)
            && FreshSessions(Serial(w.completed[..k]))
            && IsAnswer(Serial(w.completed[..k]), e.address, e.result)
  {
    InvAlways(schedule);
    ReturnedAt(After(schedule).value, r);
  }

  lemma ReturnedAt(w: World, r: nat)
    requires Inv(w) && r < |w.trace| && w.trace[r].Return? && ReturnsOwnCall(w, r)
    requires w.completed[w.trace[r].point].event.Lookup?
    ensures var k := w.trace[r].point;
            var e := w.completed[k].event;
            && w.trace[w.trace[r].call].op == GetSession(e.address)
            && FreshSessions(Serial(w.completed[..k]))
            && IsAnswer(Serial(w.completed[..k]), e.address, e.result)
  {
    var k := w.trace[r].point;
    assert CompletedCall(w, k);
    assert Serial(w.completed[..k]) == Serial(w.completed)[..k];
    PrefixUnique(Serial(w.completed), k);
    FindIsAnswer(Serial(w.completed[..k]), w.completed[k].event.address);
  }

  /** Conservation under any interleaving: whenever the mutex is free, every session has exactly one fate. */
  lemma ConservedUnderThreads(schedule: seq<Move>, i: int)
    requires After(schedule).Some? && After(schedule).value.lock == None
    requires UniqueIds(Serial(After(schedule).value.completed))
    requires Accepts(Serial(After(schedule).value.completed), i)
    ensures var w := After(schedule).value;
            var h := Serial(w.completed);
            && w.shared.sessions == Survivors(h, |h|)
            && (Entry(h[i]) in w.shared.sessions <==> Surviving(h, i))
            && multiset(w.shared.shutdowns)[h[i].session] == (if Evicted(h, i) then 1 else 0)
  {
    InvAlways(schedule);
    SessionsAreSurvivors(Serial(After(schedule).value.completed));
    Conservation(Serial(After(schedule).value.completed), i);
  }

  /** How many moves the holder still has to make before it gives the mutex back. */
  function Remaining(w: World, t: Tid): nat {
    match PcOf(w, t)
    case Searching(_, _, i) => 7 + if i <= |w.shared.sessions| then |w.shared.sessions| - i else 0
    case Matched(_, _, _) => 6
    case Notified(_, _, _) => 5
    case Cleared(_, _) => 4
    case Accepted(_, _, _) => 3
    case Finished(_, _, _) => 2
    case _ => 0
  }

  function NextAction(pc: Pc): Action {
    match pc
    case Searching(_, _, _) => Look
    case Matched(op, _, _) => if op.GetSession? then Finish else if op.OnFirstFrame? then Notify else EraseEntry
    case Notified(_, _, _) => EraseEntry
    case Cleared(_, _) => Accept
    case Accepted(_, _, _) => Append
    case _ => Release
  }

  /**
    The holder of the mutex is never stuck, and no move of any thread delays it: its own
    moves bring the release closer and the others leave it where it was.
   */
  lemma HolderProgresses(schedule: seq<Move>, t: Tid)
    requires After(schedule).Some? && After(schedule).value.lock == Some(t)
    ensures var w := After(schedule).value;
            && Can(w, Move(t, NextAction(PcOf(w, t))))
            && (forall m :: Can(w, m) && m.t == t ==> Remaining(Do(w, m), t) < Remaining(w, t))
            && (forall m :: Can(w, m) && m.t != t ==>
                  Remaining(Do(w, m), t) == Remaining(w, t) && Do(w, m).lock == Some(t))
  {
    InvAlways(schedule);
    var w := After(schedule).value;
    forall m | Can(w, m) && m.t == t ensures Remaining(Do(w, m), t) < Remaining(w, t) {
      OwnMoveIsCloser(w, m);
    }
    forall m | Can(w, m) && m.t != t
      ensures Remaining(Do(w, m), t) == Remaining(w, t) && Do(w, m).lock == Some(t) {
      OtherMoveWaits(w, t, m);
    }
  }

  lemma OwnMoveIsCloser(w: World, m: Move)
    requires MutexInv(w) && Can(w, m) && w.lock == Some(m.t)
    ensures Remaining(Do(w, m), m.t) < Remaining(w, m.t)
  {
    var before, after := PcOf(w, m.t), PcOf(Do(w, m), m.t);
    if before.Searching? {
      assert Do(w, m).shared == w.shared;
      assert after.Searching? ==> after.i == before.i + 1 <= |w.shared.sessions|;
    }
  }

  lemma OtherMoveWaits(w: World, t: Tid, m: Move)
    requires MutexInv(w) && Can(w, m) && w.lock == Some(t) && m.t != t
    ensures Remaining(Do(w, m), t) == Remaining(w, t) && Do(w, m).lock == Some(t)
  {
    assert !Critical(PcOf(w, m.t));
    OthersStay(w, m, t);
  }
}
