/** The listener callbacks of the GPRS master as the object that owns the session vector. */
module ListenCallbacks {
  import opened Words
  import opened Registry

  /** What the callbacks see of the native stack: it issues sessions and is asked to shut them down. */
  class NativeStack {
    var issued: nat
    var shutdowns: seq<Handle>

    constructor ()
      ensures issued == 0 && shutdowns == []
    {
      issued, shutdowns := 0, [];
    }

    /** `ISessionAcceptor::AcceptSession`: a session never issued before. */
    method AcceptSession() returns (session: Handle)
      modifies this`issued
      ensures session == old(issued) && issued == old(issued) + 1
    {
      session, issued := issued, issued + 1;
    }

    /** `IMasterSession::BeginShutdown`: only posts the request; it never calls back here. */
    method BeginShutdown(session: Handle)
      modifies this`shutdowns
      ensures shutdowns == old(shutdowns) + [session]
    {
      shutdowns := shutdowns + [session];
    }
  }

  class ExampleListenCallbacks {
    const stack: NativeStack
    var sessions: seq<SessionInfo>
    ghost var history: seq<Event>

    /** The fields are what the event history says they are, and every issued session is accounted for. */
    ghost predicate Valid()
      reads this, stack
    {
      && State(sessions, stack.shutdowns) == Run(history)
      && FreshSessions(history)
      && forall i :: Accepts(history, i) ==> history[i].session < stack.issued
    }

    constructor (stack: NativeStack)
      requires stack.issued == 0 && stack.shutdowns == []
      ensures Valid() && history == [] && this.stack == stack
    {
      this.stack := stack;
      sessions := [];
      history := [];
    }

    method GetOutstationSession(address: Uint16) returns (session: Option<Handle>)
      requires Valid()
      modifies this`history
      ensures Valid() && history == old(history) + [Lookup(address, session)]
      // the session of the latest first frame from the address, if that connection is still open
      ensures UniqueIds(old(history)) ==>
                && (forall i :: Connected(old(history), address, i) ==> session == Some(old(history)[i].session))
                && (session.Some? ==> exists i :: Connected(old(history), address, i))
                && (session.Some? ==> session.value !in stack.shutdowns)
    {
      var iter := FindAddress(address);
      session := if iter == |sessions| then None else Some(sessions[iter].session);
      if UniqueIds(history) {
        LookupIsLatestOpen(history, address);
        LookupNeverShutDown(history, address);
      }
      Record(Lookup(address, session));
    }

    method OnFirstFrame(sessionid: Uint64, src: Uint16)
      requires Valid()
      modifies this`sessions, this`history, stack
      ensures Valid()
      ensures history == old(history) + [FirstFrame(sessionid, src, old(stack.issued))]
      ensures stack.issued == old(stack.issued) + 1
    {
      var iter := FindAddress(src);
      if iter != |sessions| {
        stack.BeginShutdown(sessions[iter].session);
        sessions := sessions[..iter] + sessions[iter + 1..];
      }
      var session := stack.AcceptSession();
      sessions := sessions + [SessionInfo(sessionid, src, session)];
      Record(FirstFrame(sessionid, src, session));
    }

    method OnConnectionClose(sessionid: Uint64)
      requires Valid()
      modifies this`sessions, this`history
      ensures Valid() && history == old(history) + [Close(sessionid)]
      // the late close of a session that was already evicted or closed leaves every entry in place
      ensures UniqueIds(old(history)) ==>
                forall i :: Accepts(old(history), i) && !Surviving(old(history), i) && old(history)[i].id == sessionid
                  ==> sessions == old(sessions)
    {
      var iter := 0;
      while iter < |sessions| && sessions[iter].id != sessionid
        invariant iter <= |sessions|
        invariant forall j :: 0 <= j < iter ==> sessions[j].id != sessionid
      {
        iter := iter + 1;
      }
      assert iter == IndexOfId(sessions, sessionid);
      forall i | UniqueIds(history) && Accepts(history, i) && !Surviving(history, i) && history[i].id == sessionid
        ensures iter == |sessions|
      {
        LateCloseIsHarmless(history, i);
        assert (history + [Close(sessionid)])[..|history|] == history;
      }
      if iter != |sessions| {
        sessions := sessions[..iter] + sessions[iter + 1..];
      }
      Record(Close(sessionid));
    }

    /** `std::find_if` over the vector, as the loop it is. */
    method FindAddress(address: Uint16) returns (iter: nat)
      ensures iter == IndexOfAddress(sessions, address)
    {
      iter := 0;
      while iter < |sessions| && sessions[iter].address != address
        invariant iter <= |sessions|
        invariant forall j :: 0 <= j < iter ==> sessions[j].address != address
      {
        iter := iter + 1;
      }
    }

    ghost method Record(e: Event)
      requires State(sessions, stack.shutdowns) == Step(Run(history), e)
      requires FreshSessions(history)
      requires forall i :: Accepts(history, i) ==> history[i].session < stack.issued
      requires e.FirstFrame? ==> e.session < stack.issued
      requires e.FirstFrame? ==> forall i :: Accepts(history, i) ==> history[i].session != e.session
      modifies this`history
      ensures Valid() && history == old(history) + [e]
    {
      var h := history + [e];
      assert h[..|history|] == history;
      assert forall i :: Accepts(h, i) && i < |history| ==> Accepts(history, i) && h[i] == history[i];
      history := h;
    }
  }
}
