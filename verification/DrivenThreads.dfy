/**
  The interleaved registry, driven by link sessions: each session makes its calls from its
  own strand, one after the other, while threads that look sessions up come and go.  What
  the registry needs of its callers then holds in the lock order of every interleaving, so
  a registry call may be taken as one event.
 */
module DrivenThreads {
  import opened Words
  import opened Registry
  import opened RegistryThreads
  import Links = LinkSessions
  import Runs = ListenerRuns

  /** What session `id` invokes for the calls of its link. */
  function OpsOf(id: Uint64, calls: seq<Links.Call>): (ops: seq<Op>)
    ensures |ops| == |calls|
    ensures forall i :: 0 <= i < |calls| ==>
      ops[i] == match calls[i] case OnFirstFrame(src, _) => OnFirstFrame(id, src) case OnConnectionClose => OnClose(id)
  {
    seq(|calls|, i requires 0 <= i < |calls| =>
      match calls[i] case OnFirstFrame(src, _) => OnFirstFrame(id, src) case OnConnectionClose => OnClose(id))
  }

  predicate InvokedBy(o: Observation, id: Uint64) {
    o.Call? && !o.op.GetSession? && o.op.id == id
  }

  /** The calls invoked for session `id`, in order. */
  function Invoked(trace: seq<Observation>, id: Uint64): seq<Op> {
    if trace == [] then []
    else
      var rest, last := Invoked(trace[..|trace| - 1], id), trace[|trace| - 1];
      if InvokedBy(last, id) then rest + [last.op] else rest
  }

  /** The calls for `id` are so far those of a link session whose first frame is accepted. */
  ghost predicate FromLink(trace: seq<Observation>, id: Uint64, life: seq<Links.Handler>) {
    && (forall i :: 0 <= i < |life| ==> Links.Accepting(life[i]))
    && Invoked(trace, id) <= OpsOf(id, Links.Lifetime(life).calls)
  }

  ghost predicate ReturnedBetween(trace: seq<Observation>, c: int, d: int) {
    exists r :: c < r < d && 0 <= r < |trace| && trace[r].Return? && trace[r].call == c
  }

  /** A strand makes its next call only after the one before has returned. */
  ghost predicate OneAtATime(trace: seq<Observation>, id: Uint64) {
    forall c, d :: 0 <= c < d < |trace| && InvokedBy(trace[c], id) && InvokedBy(trace[d], id) ==>
      ReturnedBetween(trace, c, d)
  }

  ghost predicate Driven(trace: seq<Observation>) {
    forall id: Uint64 :: OneAtATime(trace, id) && exists life :: FromLink(trace, id, life)
  }

  /** A call is invoked at the place that the calls before it leave. */
  lemma {:induction false} InvokedAt(trace: seq<Observation>, id: Uint64, c: int)
    requires 0 <= c < |trace| && InvokedBy(trace[c], id)
    ensures |Invoked(trace[..c], id)| < |Invoked(trace, id)|
    ensures Invoked(trace, id)[|Invoked(trace[..c], id)|] == trace[c].op
  {
    var before := trace[..|trace| - 1];
    if c < |trace| - 1 {
      assert before[..c] == trace[..c];
      InvokedAt(before, id, c);
    }
  }

  /** A session calls twice at most: first for its first frame, then for its close. */
  lemma TwoCalls(trace: seq<Observation>, id: Uint64, c: int, d: int)
    requires Driven(trace) && 0 <= c < d < |trace| && InvokedBy(trace[c], id) && InvokedBy(trace[d], id)
    ensures trace[c].op.OnFirstFrame? && trace[d].op.OnClose?
  {
    assert OneAtATime(trace, id);
    var life :| FromLink(trace, id, life);
    Links.AcceptingIsOrderly(life);
    InvokedAt(trace, id, d);
    assert trace[..d][..c] == trace[..c];
    InvokedAt(trace[..d], id, c);
    InvokedAt(trace, id, c);
  }

  lemma CallOf(w: World, k: int)
    requires Inv(w) && 0 <= k < |w.completed| && !w.completed[k].event.Lookup?
    ensures var c := w.completed[k].call;
            c < |w.trace| && InvokedBy(w.trace[c], w.completed[k].event.id)
            && (w.completed[k].event.FirstFrame? <==> w.trace[c].op.OnFirstFrame?)
  {
    assert CompletedCall(w, k);
  }

  /** Two completed calls of one session are its first frame and then its close, in the lock order too. */
  lemma InLockOrder(w: World, j: int, k: int)
    requires Inv(w) && Driven(w.trace) && 0 <= j < k < |w.completed|
    requires !w.completed[j].event.Lookup? && !w.completed[k].event.Lookup?
    requires w.completed[j].event.id == w.completed[k].event.id
    ensures w.completed[j].event.FirstFrame? && w.completed[k].event.Close?
  {
    CallOf(w, j);
    CallOf(w, k);
    var id, c, d := w.completed[j].event.id, w.completed[j].call, w.completed[k].call;
    if c < d {
      TwoCalls(w.trace, id, c, d);
    } else {
      assert OneAtATime(w.trace, id) && ReturnedBetween(w.trace, d, c);
      var r :| d < r < c && w.trace[r].Return? && w.trace[r].call == d;
      assert ReturnsOwnCall(w, r) && w.trace[r].point == k;
      assert Precedes(w, r, j);
      assert false;
    }
  }

  /** What a listener promises its callbacks holds in the lock order of every interleaving. */
  lemma ContractUnderThreads(schedule: seq<Move>)
    requires After(schedule).Some? && Driven(After(schedule).value.trace)
    ensures var h := Serial(After(schedule).value.completed);
            UniqueIds(h) && FreshSessions(h) && Runs.ClosedForGood(h)
  {
    InvAlways(schedule);
    var w := After(schedule).value;
    var h := Serial(w.completed);
    forall i, j | Accepts(h, i) && Accepts(h, j) && h[i].id == h[j].id ensures i == j {
      if i < j { InLockOrder(w, i, j); } else if j < i { InLockOrder(w, j, i); }
    }
    forall i, j | 0 <= i < j < |h| && h[i].Close? && !h[j].Lookup? ensures h[j].id != h[i].id {
      if h[j].id == h[i].id { InLockOrder(w, i, j); }
    }
  }

  /**
    Any number of sessions and of other threads, interleaved at every step: whenever the
    mutex is free each accepted session has exactly one fate, with the shutdowns to match.
   */
  lemma ConservedWhenDriven(schedule: seq<Move>, i: int)
    requires After(schedule).Some? && After(schedule).value.lock == None
    requires Driven(After(schedule).value.trace)
    requires Accepts(Serial(After(schedule).value.completed), i)
    ensures var w := After(schedule).value;
            var h := Serial(w.completed);
            && w.shared.sessions == Survivors(h, |h|)
            && (Entry(h[i]) in w.shared.sessions <==> Surviving(h, i))
            && multiset(w.shared.shutdowns)[h[i].session] == (if Evicted(h, i) then 1 else 0)
  {
    ContractUnderThreads(schedule);
    ConservedUnderThreads(schedule, i);
  }

  /**
    And a lookup that has returned gave the latest session of its address that was still
    open at its place in the lock order, or null when there was none.
   */
  lemma LookupWhenDriven(schedule: seq<Move>, r: nat)
    requires After(schedule).Some? && Driven(After(schedule).value.trace)
    requires r < |After(schedule).value.trace|
    requires var o := After(schedule).value.trace[r];
             o.Return? && o.point < |After(schedule).value.completed|
             && After(schedule).value.completed[o.point].event.Lookup?
    ensures var w := After(schedule).value;
            var k := w.trace[r].point;
            var e, h := w.completed[k].event, Serial(w.completed[..k]);
            && ReturnsOwnCall(w, r)
            && (forall i :: Connected(h, e.address, i) ==> e.result == Some(h[i].session))
            && (e.result.Some? ==> exists i :: Connected(h, e.address, i))
            && (e.result.Some? ==> e.result.value !in Run(h).shutdowns)
  {
    ReturnedLookup(schedule, r);
    ContractUnderThreads(schedule);
    var w := After(schedule).value;
    var k := w.trace[r].point;
    assert Serial(w.completed[..k]) == Serial(w.completed)[..k];
    PrefixUnique(Serial(w.completed), k);
  }
}
