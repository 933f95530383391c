/**
  The GPRS master keeps its sessions in one vector that is searched two ways: a first
  frame evicts by DNP3 address, a close removes by session id, and each erases only the
  first match.  This module gives the operations on values, and the meaning of a run of
  them stated on the event history alone.
 */
module Registry {
  import opened Words

  /** A `shared_ptr<IMasterSession>`; only its identity matters to the registry. */
  type Handle = nat

  datatype SessionInfo = SessionInfo(id: Uint64, address: Uint16, session: Handle)

  /** The vector of sessions, and the log of the `BeginShutdown` calls made so far. */
  datatype State = State(sessions: seq<SessionInfo>, shutdowns: seq<Handle>)

  datatype Event =
    | FirstFrame(id: Uint64, address: Uint16, session: Handle)
    | Close(id: Uint64)
    | Lookup(address: Uint16, result: Option<Handle>)

  // ------------------------------ operations ------------------------------

  /** `std::find_if` by address: the first match, or the length when there is none. */
  function IndexOfAddress(s: seq<SessionInfo>, address: Uint16): (i: nat)
    ensures i <= |s|
    ensures i < |s| ==> s[i].address == address
    ensures forall j :: 0 <= j < i ==> s[j].address != address
  {
    if s == [] || s[0].address == address then 0 else 1 + IndexOfAddress(s[1..], address)
  }

  /** `std::find_if` by session id. */
  function IndexOfId(s: seq<SessionInfo>, id: Uint64): (i: nat)
    ensures i <= |s|
    ensures i < |s| ==> s[i].id == id
    ensures forall j :: 0 <= j < i ==> s[j].id != id
  {
    if s == [] || s[0].id == id then 0 else 1 + IndexOfId(s[1..], id)
  }

  function Erase(s: seq<SessionInfo>, i: nat): seq<SessionInfo> {
    if i < |s| then s[..i] + s[i + 1..] else s
  }

  function Find(r: State, address: Uint16): Option<Handle> {
    var i := IndexOfAddress(r.sessions, address);
    if i < |r.sessions| then Some(r.sessions[i].session) else None
  }

  function Step(r: State, e: Event): State {
    match e
    case FirstFrame(id, address, session) =>
      var i := IndexOfAddress(r.sessions, address);
      State(
        Erase(r.sessions, i) + [SessionInfo(id, address, session)],
        if i < |r.sessions| then r.shutdowns + [r.sessions[i].session] else r.shutdowns)
    case Close(id) =>
      r.(sessions := Erase(r.sessions, IndexOfId(r.sessions, id)))
    case Lookup(_, _) => r
  }

  function Run(h: seq<Event>): State {
    if h == [] then State([], []) else Step(Run(h[..|h| - 1]), h[|h| - 1])
  }

  // ------------------------ the history, on its own ------------------------

  /** Event `e` ends the listing of the session accepted by first frame `f`. */
  predicate Ends(e: Event, f: Event)
    requires f.FirstFrame?
  {
    || (e.Close? && e.id == f.id)
    || (e.FirstFrame? && e.address == f.address)
  }

  ghost predicate Accepts(h: seq<Event>, i: int) {
    0 <= i < |h| && h[i].FirstFrame?
  }

  ghost predicate Untouched(h: seq<Event>, i: int, upTo: int)
    requires Accepts(h, i) && upTo <= |h|
  {
    forall k :: i < k < upTo ==> !Ends(h[k], h[i])
  }

  /** Nothing after event `i` ended the session it accepted. */
  ghost predicate Surviving(h: seq<Event>, i: int)
    requires Accepts(h, i)
  {
    Untouched(h, i, |h|)
  }

  /** Event `j` is a newer first frame from the same address, and the first event to end session `i`. */
  ghost predicate EvictedAt(h: seq<Event>, i: int, j: int)
    requires Accepts(h, i)
  {
    i < j < |h| && h[j].FirstFrame? && h[j].address == h[i].address && Untouched(h, i, j)
  }

  /** Event `j` is the close of session `i`, and the first event to end it. */
  ghost predicate ClosedAt(h: seq<Event>, i: int, j: int)
    requires Accepts(h, i)
  {
    i < j < |h| && h[j].Close? && h[j].id == h[i].id && Untouched(h, i, j)
  }

  ghost predicate Evicted(h: seq<Event>, i: int)
    requires Accepts(h, i)
  {
    exists j :: EvictedAt(h, i, j)
  }

  ghost predicate Closed(h: seq<Event>, i: int)
    requires Accepts(h, i)
  {
    exists j :: ClosedAt(h, i, j)
  }

  /** Session ids "uniquely identify the session": no two first frames carry the same one. */
  ghost predicate UniqueIds(h: seq<Event>) {
    forall i, j :: Accepts(h, i) && Accepts(h, j) && h[i].id == h[j].id ==> i == j
  }

  /** `AcceptSession` hands out a new session every time. */
  ghost predicate FreshSessions(h: seq<Event>) {
    forall i, j :: Accepts(h, i) && Accepts(h, j) && h[i].session == h[j].session ==> i == j
  }

  function Entry(e: Event): SessionInfo
    requires e.FirstFrame?
  {
    SessionInfo(e.id, e.address, e.session)
  }

  /** The surviving sessions among the first `n` events, in the order they were accepted. */
  ghost function Survivors(h: seq<Event>, n: nat): seq<SessionInfo>
    requires n <= |h|
  {
    if n == 0 then []
    else if h[n - 1].FirstFrame? && Surviving(h, n - 1) then Survivors(h, n - 1) + [Entry(h[n - 1])]
    else Survivors(h, n - 1)
  }

  ghost predicate DistinctAddresses(s: seq<SessionInfo>) {
    forall i, j :: 0 <= i < j < |s| ==> s[i].address != s[j].address
  }

  ghost predicate DistinctIds(s: seq<SessionInfo>) {
    forall i, j :: 0 <= i < j < |s| ==> s[i].id != s[j].id
  }

  // --------------------- the vector is the survivors ---------------------

  predicate Ended(e: Event, x: SessionInfo) {
    Ends(e, FirstFrame(x.id, x.address, x.session))
  }

  /** Every entry that event `e` ends, taken out. */
  function Without(s: seq<SessionInfo>, e: Event): seq<SessionInfo> {
    if s == [] then []
    else if Ended(e, s[|s| - 1]) then Without(s[..|s| - 1], e)
    else Without(s[..|s| - 1], e) + [s[|s| - 1]]
  }

  lemma {:induction false} WithoutNone(s: seq<SessionInfo>, e: Event)
    requires forall k :: 0 <= k < |s| ==> !Ended(e, s[k])
    ensures Without(s, e) == s
  {
    if s != [] {
      WithoutNone(s[..|s| - 1], e);
      assert s == s[..|s| - 1] + [s[|s| - 1]];
    }
  }

  lemma EraseBeforeLast(s: seq<SessionInfo>, i: nat)
    requires i < |s| - 1
    ensures Erase(s, i) == Erase(s[..|s| - 1], i) + [s[|s| - 1]]
  {
    var init, last := s[..|s| - 1], [s[|s| - 1]];
    assert s[..i] == init[..i] && s[i + 1..] == init[i + 1..] + last;
    assert init[..i] + (init[i + 1..] + last) == init[..i] + init[i + 1..] + last;
  }

  /** Taking out all matches is erasing the only one. */
  lemma {:induction false} WithoutOne(s: seq<SessionInfo>, e: Event, i: nat)
    requires i < |s| && Ended(e, s[i])
    requires forall k :: 0 <= k < |s| && k != i ==> !Ended(e, s[k])
    ensures Without(s, e) == Erase(s, i)
  {
    var init := s[..|s| - 1];
    if i == |s| - 1 {
      WithoutNone(init, e);
      assert Erase(s, i) == init;
    } else {
      WithoutOne(init, e, i);
      EraseBeforeLast(s, i);
    }
  }

  lemma {:induction false} SurvivorsAfter(h: seq<Event>, e: Event, n: nat)
    requires n <= |h|
    ensures Survivors(h + [e], n) == Without(Survivors(h, n), e)
  {
    if n > 0 {
      SurvivorsAfter(h, e, n - 1);
      var g := h + [e];
      var f := h[n - 1];
      assert g[n - 1] == f;
      if f.FirstFrame? {
        assert Surviving(g, n - 1) <==> Surviving(h, n - 1) && !Ends(e, f) by {
          assert g[|h|] == e;
          assert forall k :: n - 1 < k < |h| ==> g[k] == h[k];
          if Surviving(g, n - 1) {
            forall k | n - 1 < k < |h| ensures !Ends(h[k], f) {
              assert !Ends(g[k], g[n - 1]);
            }
          }
        }
        if Surviving(h, n - 1) {
          var s := Survivors(h, n - 1);
          var t := s + [Entry(f)];
          assert Survivors(h, n) == t;
          assert t[..|t| - 1] == s && t[|t| - 1] == Entry(f);
          assert Ended(e, Entry(f)) == Ends(e, f);
        }
      }
    }
  }

  /** The session accepted by event `i` survives, as entry `x`. */
  ghost predicate SurvivesAs(h: seq<Event>, i: int, x: SessionInfo) {
    Accepts(h, i) && Surviving(h, i) && Entry(h[i]) == x
  }

  /** An entry is among the survivors exactly when some accepted session survives as it. */
  lemma {:induction false} SurvivorsMember(h: seq<Event>, n: nat, x: SessionInfo)
    requires n <= |h|
    ensures x in Survivors(h, n) <==> exists i :: i < n && SurvivesAs(h, i, x)
  {
    if n > 0 {
      SurvivorsMember(h, n - 1, x);
      if x in Survivors(h, n) && x !in Survivors(h, n - 1) {
        assert SurvivesAs(h, n - 1, x);
      }
    }
  }

  lemma Origin(h: seq<Event>, x: SessionInfo) returns (i: int)
    requires UniqueIds(h) && x in Run(h).sessions
    ensures SurvivesAs(h, i, x)
  {
    SessionsAreSurvivors(h);
    SurvivorsMember(h, |h|, x);
    i :| i < |h| && SurvivesAs(h, i, x);
  }

  lemma EraseElements(s: seq<SessionInfo>, i: nat)
    requires i <= |s|
    ensures |Erase(s, i)| == if i < |s| then |s| - 1 else |s|
    ensures forall k :: 0 <= k < |Erase(s, i)| ==> Erase(s, i)[k] == s[if k < i then k else k + 1]
  {
    if i < |s| {
      var front, back := s[..i], s[i + 1..];
      forall k | 0 <= k < |s| - 1 ensures (front + back)[k] == s[if k < i then k else k + 1] {
        assert k >= i ==> (front + back)[k] == back[k - i];
      }
    }
  }

  lemma EraseDistinct(s: seq<SessionInfo>, i: nat)
    requires i <= |s|
    ensures DistinctAddresses(s) ==> DistinctAddresses(Erase(s, i))
    ensures DistinctIds(s) ==> DistinctIds(Erase(s, i))
  {
    EraseElements(s, i);
  }

  lemma StepDistinct(r: State, e: Event)
    requires DistinctAddresses(r.sessions)
    ensures DistinctAddresses(Step(r, e).sessions)
  {
    match e
    case FirstFrame(_, address, _) =>
      var i := IndexOfAddress(r.sessions, address);
      EraseDistinct(r.sessions, i);
      EraseElements(r.sessions, i);
    case Close(id) => EraseDistinct(r.sessions, IndexOfId(r.sessions, id));
    case Lookup(_, _) =>
  }

  /** With distinct keys, erasing the first match takes out everything the event ends. */
  lemma StepTakesOut(r: State, e: Event)
    requires DistinctAddresses(r.sessions) && DistinctIds(r.sessions)
    ensures Step(r, e).sessions
         == Without(r.sessions, e) + if e.FirstFrame? then [Entry(e)] else []
  {
    var s := r.sessions;
    var i := match e
      case FirstFrame(_, address, _) => IndexOfAddress(s, address)
      case Close(id) => IndexOfId(s, id)
      case Lookup(_, _) => |s|;
    if i < |s| {
      WithoutOne(s, e, i);
    } else {
      WithoutNone(s, e);
    }
  }

  /**
    The vector after any run is exactly the surviving sessions, in the order they were
    accepted, with pairwise distinct addresses and ids.
   */
  lemma {:induction false} SessionsAreSurvivors(h: seq<Event>)
    requires UniqueIds(h)
    ensures Run(h).sessions == Survivors(h, |h|)
    ensures DistinctAddresses(Run(h).sessions) && DistinctIds(Run(h).sessions)
  {
    if h != [] {
      var g, e := h[..|h| - 1], h[|h| - 1];
      assert h == g + [e];
      assert h[..|g|] == g;
      PrefixUnique(h, |g|);
      SessionsAreSurvivors(g);
      NewIdUnlisted(h);
      StepDistinct(Run(g), e);
      StepDistinctIds(Run(g), e);
      StepTakesOut(Run(g), e);
      LastSurvivor(g, e);
    }
  }

  lemma LastSurvivor(g: seq<Event>, e: Event)
    ensures Survivors(g + [e], |g| + 1)
         == Without(Survivors(g, |g|), e) + if e.FirstFrame? then [Entry(e)] else []
  {
    var h := g + [e];
    SurvivorsAfter(g, e, |g|);
    if e.FirstFrame? {
      assert Accepts(h, |g|) && Surviving(h, |g|);
    }
  }

  lemma PrefixUnique(h: seq<Event>, n: nat)
    requires n <= |h|
    ensures UniqueIds(h) ==> UniqueIds(h[..n])
    ensures FreshSessions(h) ==> FreshSessions(h[..n])
  {
    assert forall i :: Accepts(h[..n], i) ==> Accepts(h, i) && h[..n][i] == h[i];
  }

  lemma NewIdUnlisted(h: seq<Event>)
    requires h != [] && UniqueIds(h)
    ensures var e := h[|h| - 1];
            e.FirstFrame? ==> forall x :: x in Survivors(h[..|h| - 1], |h| - 1) ==> x.id != e.id
  {
    var g, e := h[..|h| - 1], h[|h| - 1];
    if e.FirstFrame? {
      forall x | x in Survivors(g, |g|) ensures x.id != e.id {
        SurvivorsMember(g, |g|, x);
        var i :| i < |g| && SurvivesAs(g, i, x);
        assert Accepts(h, i) && Accepts(h, |g|);
      }
    }
  }

  lemma StepDistinctIds(r: State, e: Event)
    requires DistinctIds(r.sessions)
    requires e.FirstFrame? ==> forall x :: x in r.sessions ==> x.id != e.id
    ensures DistinctIds(Step(r, e).sessions)
  {
    match e
    case FirstFrame(_, address, _) =>
      var i := IndexOfAddress(r.sessions, address);
      EraseDistinct(r.sessions, i);
      EraseElements(r.sessions, i);
      assert forall k :: 0 <= k < |Erase(r.sessions, i)| ==> Erase(r.sessions, i)[k] in r.sessions;
    case Close(id) => EraseDistinct(r.sessions, IndexOfId(r.sessions, id));
    case Lookup(_, _) =>
  }

  // ------------------------------ consequences ------------------------------

  /** `i` is the latest first frame from `address`, and its connection has not closed since. */
  ghost predicate Connected(h: seq<Event>, address: Uint16, i: int) {
    && Accepts(h, i) && h[i].address == address
    && (forall j :: i < j < |h| && h[j].FirstFrame? ==> h[j].address != address)
    && (forall j :: i < j < |h| && h[j].Close? ==> h[j].id != h[i].id)
  }

  /** A lookup returns the session of the latest, still open connection, and null when there is none. */
  lemma LookupIsLatestOpen(h: seq<Event>, address: Uint16)
    requires UniqueIds(h)
    ensures forall i :: Connected(h, address, i) ==> Find(Run(h), address) == Some(h[i].session)
    ensures Find(Run(h), address).Some? ==> exists i :: Connected(h, address, i)
  {
    SessionsAreSurvivors(h);
    var s := Run(h).sessions;
    forall i | Connected(h, address, i) ensures Find(Run(h), address) == Some(h[i].session) {
      assert SurvivesAs(h, i, Entry(h[i]));
      SurvivorsMember(h, |h|, Entry(h[i]));
      var k :| 0 <= k < |s| && s[k] == Entry(h[i]);
      assert k == IndexOfAddress(s, address);
    }
    if Find(Run(h), address).Some? {
      var x := s[IndexOfAddress(s, address)];
      var i := Origin(h, x);
      assert Connected(h, address, i);
    }
  }

  /** Every accepted session is in exactly one of the three groups. */
  lemma {:induction false} ExactlyOneFate(h: seq<Event>, i: int)
    requires Accepts(h, i)
    ensures Surviving(h, i) || Evicted(h, i) || Closed(h, i)
    ensures !(Surviving(h, i) && Evicted(h, i))
    ensures !(Surviving(h, i) && Closed(h, i))
    ensures !(Evicted(h, i) && Closed(h, i))
  {
    if !Surviving(h, i) {
      var k := FirstEnding(h, i, i + 1);
      assert EvictedAt(h, i, k) || ClosedAt(h, i, k);
    }
  }

  lemma FirstEnding(h: seq<Event>, i: int, from: int) returns (k: int)
    requires Accepts(h, i) && !Surviving(h, i)
    requires i < from <= |h| && Untouched(h, i, from)
    ensures i < k < |h| && Ends(h[k], h[i]) && Untouched(h, i, k)
    decreases |h| - from
  {
    if from < |h| && Ends(h[from], h[i]) {
      k := from;
    } else {
      k := FirstEnding(h, i, from + 1);
    }
  }

  /**
    Conservation: a surviving session is listed and was never shut down, an evicted one is
    unlisted and was shut down exactly once, and a closed one is unlisted and was never
    shut down by the registry.
   */
  lemma Conservation(h: seq<Event>, i: int)
    requires UniqueIds(h) && FreshSessions(h) && Accepts(h, i)
    ensures Entry(h[i]) in Run(h).sessions <==> Surviving(h, i)
    ensures multiset(Run(h).shutdowns)[h[i].session] == if Evicted(h, i) then 1 else 0
  {
    SessionsAreSurvivors(h);
    SurvivorsMember(h, |h|, Entry(h[i]));
    if Surviving(h, i) {
      assert SurvivesAs(h, i, Entry(h[i]));
    } else {
      assert forall k :: Accepts(h, k) && Entry(h[k]) == Entry(h[i]) ==> k == i;
    }
    ShutdownCount(h, i);
  }

  lemma {:induction false} ShutdownCount(h: seq<Event>, i: int)
    requires UniqueIds(h) && FreshSessions(h) && Accepts(h, i)
    ensures multiset(Run(h).shutdowns)[h[i].session] == if Evicted(h, i) then 1 else 0
  {
    var g, e := h[..|h| - 1], h[|h| - 1];
    assert h == g + [e];
    PrefixUnique(h, |g|);
    if i == |g| {
      assert !Evicted(h, i);
      if h[i].session in Run(h).shutdowns {
        ShutdownsWereAccepted(h, h[i].session);
      }
    } else {
      assert Accepts(g, i) && g[i] == h[i];
      ShutdownCount(g, i);
      ShutdownStep(g, e, i);
    }
  }

  lemma ShutdownStep(g: seq<Event>, e: Event, i: int)
    requires UniqueIds(g) && FreshSessions(g) && Accepts(g, i) && Accepts(g + [e], i)
    ensures multiset(Step(Run(g), e).shutdowns)[g[i].session] - multiset(Run(g).shutdowns)[g[i].session]
         == (if Evicted(g + [e], i) then 1 else 0) - if Evicted(g, i) then 1 else 0
  {
    var s := Run(g).sessions;
    var k := if e.FirstFrame? then IndexOfAddress(s, e.address) else |s|;
    EvictionStep(g, e, i);
    ExactlyOneFate(g, i);
    EvictedHandle(g, i, k);
  }

  /** The entry about to be erased carries session `i` exactly when session `i` survives at its address. */
  lemma EvictedHandle(g: seq<Event>, i: int, k: nat)
    requires UniqueIds(g) && FreshSessions(g) && Accepts(g, i)
    ensures k < |Run(g).sessions| ==>
              (Run(g).sessions[k].session == g[i].session
               <==> Surviving(g, i) && Run(g).sessions[k].address == g[i].address)
    ensures Surviving(g, i) ==> IndexOfAddress(Run(g).sessions, g[i].address) < |Run(g).sessions|
  {
    SessionsAreSurvivors(g);
    var s := Run(g).sessions;
    if Surviving(g, i) {
      assert SurvivesAs(g, i, Entry(g[i]));
      SurvivorsMember(g, |g|, Entry(g[i]));
    }
    if k < |s| {
      var m := Origin(g, s[k]);
    }
  }

  /** The last event evicts a session exactly when that session still survived and the address matches. */
  lemma EvictionStep(g: seq<Event>, e: Event, i: int)
    requires Accepts(g, i)
    ensures Accepts(g + [e], i)
    ensures Evicted(g + [e], i)
       <==> Evicted(g, i) || (Surviving(g, i) && e.FirstFrame? && e.address == g[i].address)
  {
    var h := g + [e];
    assert forall k :: 0 <= k < |g| ==> h[k] == g[k];
    assert forall j :: j <= |g| ==> Untouched(h, i, j) == Untouched(g, i, j);
    if Evicted(g, i) {
      var j :| EvictedAt(g, i, j);
      assert EvictedAt(h, i, j);
    }
    if Surviving(g, i) && e.FirstFrame? && e.address == g[i].address {
      assert EvictedAt(h, i, |g|);
    }
    if Evicted(h, i) {
      var j :| EvictedAt(h, i, j);
      assert j < |g| ==> EvictedAt(g, i, j);
    }
  }

  /** Only a session accepted before the last event has ever been shut down. */
  lemma {:induction false} ShutdownsWereAccepted(h: seq<Event>, session: Handle)
    requires UniqueIds(h) && session in Run(h).shutdowns
    ensures exists m :: m < |h| - 1 && Accepts(h, m) && h[m].session == session
  {
    var g, e := h[..|h| - 1], h[|h| - 1];
    assert h == g + [e];
    PrefixUnique(h, |g|);
    if session in Run(g).shutdowns {
      ShutdownsWereAccepted(g, session);
      var m :| m < |g| - 1 && Accepts(g, m) && g[m].session == session;
      assert Accepts(h, m);
    } else {
      var m := Origin(g, Run(g).sessions[IndexOfAddress(Run(g).sessions, e.address)]);
      assert Accepts(h, m);
    }
  }

  /** No lookup ever returns a session the registry has shut down. */
  lemma LookupNeverShutDown(h: seq<Event>, address: Uint16)
    requires UniqueIds(h) && FreshSessions(h)
    ensures Find(Run(h), address).Some? ==> Find(Run(h), address).value !in Run(h).shutdowns
  {
    LookupIsLatestOpen(h, address);
    if Find(Run(h), address).Some? {
      var i :| Connected(h, address, i);
      assert Surviving(h, i);
      Conservation(h, i);
      ExactlyOneFate(h, i);
    }
  }

  /** The close of an evicted or already closed session changes nothing, whenever it arrives. */
  lemma LateCloseIsHarmless(h: seq<Event>, i: int)
    requires UniqueIds(h) && Accepts(h, i) && !Surviving(h, i)
    ensures Run(h + [Close(h[i].id)]) == Run(h)
  {
    var e := Close(h[i].id);
    assert (h + [e])[..|h|] == h;
    forall x | x in Run(h).sessions ensures x.id != h[i].id {
      var m := Origin(h, x);
    }
  }

  /** The unique ids are needed: a reused id lets a late close take out the replacement. */
  lemma ReusedIdClosesReplacement()
    ensures var h := [FirstFrame(7, 1, 100), FirstFrame(7, 1, 101)];
            !UniqueIds(h) && EvictedAt(h, 0, 1)
            && Find(Run(h), 1) == Some(101) && Find(Run(h + [Close(7)]), 1) == None
  {
    var a, b, c := FirstFrame(7, 1, 100), FirstFrame(7, 1, 101), Close(7);
    var h := [a, b];
    assert Accepts(h, 0) && Accepts(h, 1);
    assert [a][..0] == [] && h[..1] == [a] && (h + [c])[..2] == h;
    assert Run([a]) == State([SessionInfo(7, 1, 100)], []);
    assert Run(h).sessions == [SessionInfo(7, 1, 101)];
    assert Run(h + [c]).sessions == [];
  }

  // -------------------- refinement of an address map --------------------

  /** The simple registry: at most one open connection per address. */
  type AddressMap = map<Uint16, SessionInfo>

  function MapStep(m: AddressMap, e: Event): AddressMap {
    match e
    case FirstFrame(_, address, _) => m[address := Entry(e)]
    case Close(id) => map a | a in m && m[a].id != id :: m[a]
    case Lookup(_, _) => m
  }

  /** The vector and the map hold the same entries, each under its own address. */
  ghost predicate Represents(s: seq<SessionInfo>, m: AddressMap) {
    && (forall x :: x in s ==> x.address in m && m[x.address] == x)
    && (forall a :: a in m ==> m[a] in s && m[a].address == a)
  }

  ghost predicate AtMostOne(s: seq<SessionInfo>, id: Uint64) {
    forall i, j :: 0 <= i < j < |s| ==> !(s[i].id == id && s[j].id == id)
  }

  lemma EraseMember(s: seq<SessionInfo>, i: nat, x: SessionInfo)
    requires DistinctAddresses(s) && i < |s|
    ensures x in Erase(s, i) <==> x in s && x.address != s[i].address
  {
    var t := Erase(s, i);
    assert forall k :: 0 <= k < |t| ==> t[k] == s[if k < i then k else k + 1];
    if x in s && x.address != s[i].address {
      var k :| 0 <= k < |s| && s[k] == x;
      assert t[if k < i then k else k - 1] == x;
    }
  }

  /**
    One step of the vector is one step of the map, and for a close exactly when the closed
    id is listed at most once.
   */
  lemma StepRefinesMap(r: State, m: AddressMap, e: Event)
    requires DistinctAddresses(r.sessions) && Represents(r.sessions, m)
    ensures Represents(Step(r, e).sessions, MapStep(m, e))
       <==> (e.Close? ==> AtMostOne(r.sessions, e.id))
  {
    match e
    case FirstFrame(_, _, _) => FirstFrameRefinesMap(r, m, e);
    case Close(id) => CloseRefinesMap(r, m, id);
    case Lookup(_, _) =>
  }

  lemma FirstFrameRefinesMap(r: State, m: AddressMap, e: Event)
    requires DistinctAddresses(r.sessions) && Represents(r.sessions, m) && e.FirstFrame?
    ensures Represents(Step(r, e).sessions, MapStep(m, e))
  {
    var s, t, n := r.sessions, Step(r, e).sessions, MapStep(m, e);
    var i := IndexOfAddress(s, e.address);
    var kept := Erase(s, i);
    assert t == kept + [Entry(e)] && t[|kept|] == Entry(e);
    forall x | x in t ensures x.address in n && n[x.address] == x {
      if x in kept && i < |s| { EraseMember(s, i, x); }
    }
    forall a | a in n ensures n[a] in t && n[a].address == a {
      if a != e.address {
        if i < |s| { EraseMember(s, i, n[a]); }
        assert n[a] in kept;
      }
    }
  }

  lemma CloseRefinesMap(r: State, m: AddressMap, id: Uint64)
    requires DistinctAddresses(r.sessions) && Represents(r.sessions, m)
    ensures Represents(Step(r, Close(id)).sessions, MapStep(m, Close(id))) <==> AtMostOne(r.sessions, id)
  {
    if IndexOfId(r.sessions, id) < |r.sessions| {
      if AtMostOne(r.sessions, id) {
        CloseOfOne(r, m, id);
      } else {
        CloseOfMany(r, m, id);
      }
    }
  }

  lemma CloseOfOne(r: State, m: AddressMap, id: Uint64)
    requires DistinctAddresses(r.sessions) && Represents(r.sessions, m)
    requires AtMostOne(r.sessions, id) && IndexOfId(r.sessions, id) < |r.sessions|
    ensures Represents(Step(r, Close(id)).sessions, MapStep(m, Close(id)))
  {
    var s, i, n := r.sessions, IndexOfId(r.sessions, id), MapStep(m, Close(id));
    var t := Erase(s, i);
    assert forall x :: x in s && x.id == id ==> x == s[i];
    forall x | x in t ensures x.address in n && n[x.address] == x {
      EraseMember(s, i, x);
    }
    forall a | a in n ensures n[a] in t && n[a].address == a {
      EraseMember(s, i, m[a]);
    }
  }

  lemma CloseOfMany(r: State, m: AddressMap, id: Uint64)
    requires DistinctAddresses(r.sessions) && Represents(r.sessions, m) && !AtMostOne(r.sessions, id)
    ensures !Represents(Step(r, Close(id)).sessions, MapStep(m, Close(id)))
  {
    var s, i, n := r.sessions, IndexOfId(r.sessions, id), MapStep(m, Close(id));
    var p, q :| 0 <= p < q < |s| && s[p].id == id && s[q].id == id;
    EraseMember(s, i, s[q]);
    assert s[q] in Erase(s, i) && s[q].address !in n;
  }

  function RunMap(h: seq<Event>): AddressMap {
    if h == [] then map[] else MapStep(RunMap(h[..|h| - 1]), h[|h| - 1])
  }

  /** Over every run the vector refines the plain address map, and its lookup is the map's. */
  lemma {:induction false} RunRefinesMap(h: seq<Event>, address: Uint16)
    requires UniqueIds(h)
    ensures Represents(Run(h).sessions, RunMap(h))
    ensures Find(Run(h), address)
         == if address in RunMap(h) then Some(RunMap(h)[address].session) else None
  {
    SessionsAreSurvivors(h);
    if h != [] {
      var g := h[..|h| - 1];
      PrefixUnique(h, |g|);
      RunRefinesMap(g, address);
      SessionsAreSurvivors(g);
      StepRefinesMap(Run(g), RunMap(g), h[|g|]);
    }
  }
}
