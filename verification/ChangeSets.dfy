/**
  A change set records updates and replays them into a database.  It is itself a database,
  so change sets can be applied to one another; loading one into an outstation replays it
  into an adapter, which converts each update and hands over a single native batch.
 */
module ChangeSets {
  import opened Words
  import opened Timestamps

  datatype PointKind = Binary | DoubleBit | Analog | Counter | FrozenCounter | OutputStatus | AnalogStatus

  datatype EventMode = Detect | Force | Suppress | EventOnly

  /** One recorded action: the overload of `Update` it calls, with what it captured. */
  datatype Update =
    | Point(kind: PointKind, reading: real, quality: Byte, time: DateTime, index: Uint16, mode: EventMode)
    | Octets(bytes: seq<Byte>, index: Uint16, mode: EventMode)
    | Interval(start: Uint64, interval: Uint32, units: Byte, index: Uint16)

  datatype NativeUpdate =
    | NPoint(kind: PointKind, reading: real, quality: Byte, milliseconds: Int64, index: Uint16, mode: EventMode)
    | NOctets(bytes: seq<Byte>, index: Uint16, mode: EventMode)
    | NInterval(start: Uint64, interval: Uint32, units: Byte, index: Uint16)

  // ------------------------------ conversion ------------------------------

  const MAX_OCTETS := 255

  /** What the adapter's byte loop and the native constructor keep: at most 255 bytes, and never none. */
  function ClipOctets(bytes: seq<Byte>): seq<Byte> {
    if bytes == [] then [0] else if |bytes| > MAX_OCTETS then bytes[..MAX_OCTETS] else bytes
  }

  function ConvertMeas(u: Update): NativeUpdate {
    match u
    case Point(kind, reading, quality, time, index, mode) =>
      NPoint(kind, reading, quality, ToMilliseconds(time), index, mode)
    case Octets(bytes, index, mode) => NOctets(ClipOctets(bytes), index, mode)
    case Interval(start, interval, units, index) => NInterval(start, interval, units, index)
  }

  function ConvertAll(log: seq<Update>): (batch: seq<NativeUpdate>)
    ensures |batch| == |log|
    ensures forall i :: 0 <= i < |log| ==> batch[i] == ConvertMeas(log[i])
  {
    seq(|log|, i requires 0 <= i < |log| => ConvertMeas(log[i]))
  }

  /** The byte loop, over its fixed buffer and an 8-bit counter. */
  method CopyOctets(bytes: array<Byte>) returns (octets: seq<Byte>)
    ensures octets == ClipOctets(bytes[..])
  {
    var buffer := new Byte[255](_ => 0);
    var length: Byte := if bytes.Length > 255 then 255 else bytes.Length;
    var i: Byte := 0;
    while i < length
      invariant i <= length
      invariant buffer[..i] == bytes[..i]
    {
      buffer[i] := bytes[i];
      i := i + 1;
    }
    octets := if length == 0 then [0] else buffer[..length];
  }

  /** The conversion back from native measurements. */
  function Restore(n: NativeUpdate): Option<Update> {
    match n
    case NPoint(kind, reading, quality, ms, index, mode) =>
      if ToDateTime(ms).Ok? then Some(Point(kind, reading, quality, ToDateTime(ms).value, index, mode)) else None
    case NOctets(bytes, index, mode) => Some(Octets(bytes, index, mode))
    case NInterval(start, interval, units, index) => Some(Interval(start, interval, units, index))
  }

  /** Converting loses nothing exactly for whole milliseconds and for 1 to 255 octets. */
  lemma LosslessIff(u: Update)
    ensures Restore(ConvertMeas(u)) == Some(u)
       <==> match u
            case Point(_, _, _, time, _, _) => time % TICKS_PER_MILLISECOND == 0
            case Octets(bytes, _, _) => 1 <= |bytes| <= MAX_OCTETS
            case Interval(_, _, _, _) => true
  {
    if u.Point? {
      DateRoundTrip(u.time);
    }
  }

  /** Of a long string the first 255 bytes stay, of an empty one comes a zero byte, any other is kept. */
  lemma ClippedIs(bytes: seq<Byte>)
    ensures bytes == [] ==> ClipOctets(bytes) == [0]
    ensures 1 <= |bytes| <= 255 ==> ClipOctets(bytes) == bytes
    ensures |bytes| > 255 ==> |ClipOctets(bytes)| == 255 && ClipOctets(bytes) < bytes
  {
  }

  /** Conversion keeps type, value, quality, index and mode, and the time to the millisecond. */
  lemma MeasKept(u: Update)
    ensures u.Point? ==>
              var n := ConvertMeas(u);
              && n.NPoint? && n.kind == u.kind && n.reading == u.reading && n.quality == u.quality
              && n.index == u.index && n.mode == u.mode
              && -10_000 < u.time - (EPOCH_TICKS + n.milliseconds * 10_000) < 10_000
    ensures u.Octets? ==>
              var n := ConvertMeas(u);
              n.NOctets? && n.index == u.index && n.mode == u.mode && n.bytes == ClipOctets(u.bytes)
    ensures u.Interval? ==>
              var n := ConvertMeas(u);
              && n.NInterval? && n.start == u.start && n.interval == u.interval
              && n.units == u.units && n.index == u.index
  {
    if u.Point? {
      TimespanTruncates(u.time - EPOCH_TICKS);
    }
  }

  // ------------------------------- databases -------------------------------

  /** The point an update is about. */
  function Key(u: Update): (int, Uint16) {
    match u
    case Point(kind, _, _, _, index, _) => (KindNumber(kind), index)
    case Octets(_, index, _) => (7, index)
    case Interval(_, _, _, index) => (8, index)
  }

  function KindNumber(k: PointKind): int {
    match k
    case Binary => 0 case DoubleBit => 1 case Analog => 2 case Counter => 3
    case FrozenCounter => 4 case OutputStatus => 5 case AnalogStatus => 6
  }

  /** Two updates are about one point exactly when they are of one type and one index. */
  lemma KeyIff(u: Update, v: Update)
    ensures Key(u) == Key(v)
       <==> match u
            case Point(kind, _, _, _, index, _) => v.Point? && v.kind == kind && v.index == index
            case Octets(_, index, _) => v.Octets? && v.index == index
            case Interval(_, _, _, index) => v.Interval? && v.index == index
  {
  }

  /** Replaying a log into any database at all: `step` is what its `Update` does to its state. */
  function Replay<S>(step: (S, Update) -> S, s: S, log: seq<Update>): S {
    if log == [] then s else step(Replay(step, s, log[..|log| - 1]), log[|log| - 1])
  }

  /** The three databases here: a log, the adapter's batch, and a store of the most recent values. */
  function Record(log: seq<Update>, u: Update): seq<Update> {
    log + [u]
  }

  function Enqueue(batch: seq<NativeUpdate>, u: Update): seq<NativeUpdate> {
    batch + [ConvertMeas(u)]
  }

  function Store(points: map<(int, Uint16), Update>, u: Update): map<(int, Uint16), Update> {
    points[Key(u) := u]
  }

  lemma {:induction false} ReplayConcat<S>(step: (S, Update) -> S, s: S, a: seq<Update>, b: seq<Update>)
    ensures Replay(step, s, a + b) == Replay(step, Replay(step, s, a), b)
  {
    if b == [] {
      assert a + b == a;
    } else {
      ReplayConcat(step, s, a, b[..|b| - 1]);
      assert (a + b)[..|a + b| - 1] == a + b[..|b| - 1];
    }
  }

  lemma {:induction false} RecordReplays(log: seq<Update>, a: seq<Update>)
    ensures Replay(Record, log, a) == log + a
  {
    if a != [] {
      RecordReplays(log, a[..|a| - 1]);
      assert log + a == log + a[..|a| - 1] + [a[|a| - 1]];
    }
  }

  lemma {:induction false} EnqueueReplays(batch: seq<NativeUpdate>, a: seq<Update>)
    ensures Replay(Enqueue, batch, a) == batch + ConvertAll(a)
  {
    if a != [] {
      EnqueueReplays(batch, a[..|a| - 1]);
      assert ConvertAll(a) == ConvertAll(a[..|a| - 1]) + [ConvertMeas(a[|a| - 1])];
    }
  }

  /**
    Logs compose: applying log `a` to log `b`, and the result to any database, is applying
    `b` and then `a` to it; and the number of updates adds up.
   */
  lemma ApplyComposes<S>(step: (S, Update) -> S, s: S, a: seq<Update>, b: seq<Update>)
    ensures Replay(step, s, Replay(Record, b, a)) == Replay(step, Replay(step, s, b), a)
    ensures |Replay(Record, b, a)| == |b| + |a|
  {
    RecordReplays(b, a);
    ReplayConcat(step, s, b, a);
  }

  ghost predicate NotUpdated(log: seq<Update>, from: int, key: (int, Uint16)) {
    forall j :: 0 <= j < |log| && from <= j ==> Key(log[j]) != key
  }

  /** A point that is never updated keeps what the store had for it. */
  lemma {:induction false} OtherPointsKept(points: map<(int, Uint16), Update>, log: seq<Update>, key: (int, Uint16))
    requires NotUpdated(log, 0, key)
    ensures key in Replay(Store, points, log) <==> key in points
    ensures key in points ==> Replay(Store, points, log)[key] == points[key]
  {
    if log != [] {
      OtherPointsKept(points, log[..|log| - 1], key);
      assert Key(log[|log| - 1]) != key;
    }
  }

  /** The last update of a point is the one a store keeps. */
  lemma {:induction false} LastUpdateWins(points: map<(int, Uint16), Update>, log: seq<Update>, i: nat)
    requires i < |log| && NotUpdated(log, i + 1, Key(log[i]))
    ensures Key(log[i]) in Replay(Store, points, log) && Replay(Store, points, log)[Key(log[i])] == log[i]
  {
    var init := log[..|log| - 1];
    if i < |init| {
      assert Key(log[|init|]) != Key(log[i]);
      assert forall j :: 0 <= j < |init| ==> init[j] == log[j];
      LastUpdateWins(points, init, i);
    }
  }

  // -------------------------------- objects --------------------------------

  /** `asiodnp3::UpdateBuilder`: nothing until the first update; building moves the updates out. */
  class UpdateBuilder {
    var updates: Option<seq<NativeUpdate>>

    constructor ()
      ensures updates == None
    {
      updates := None;
    }

    ghost function Batch(): seq<NativeUpdate>
      reads this
    {
      if updates.Some? then updates.value else []
    }

    method Update(u: NativeUpdate)
      modifies this
      ensures updates == Some(old(Batch()) + [u])
    {
      if updates.None? {
        updates := Some([]);
      }
      updates := Some(updates.value + [u]);
    }

    method Build() returns (built: Option<seq<NativeUpdate>>)
      modifies this
      ensures built == old(updates) && updates == None
    {
      built := updates;
      updates := None;
    }
  }

  /** The native outstation: it runs a non-empty batch as one task. */
  class Outstation {
    var tasks: seq<seq<NativeUpdate>>

    method Apply(updates: Option<seq<NativeUpdate>>)
      modifies this
      ensures tasks == if updates.None? || updates.value == [] then old(tasks) else old(tasks) + [updates.value]
    {
      if updates.None? || updates.value == [] {
        return;
      }
      tasks := tasks + [updates.value];
    }
  }

  class PointStore {
    var points: map<(int, Uint16), Update>
  }

  class ChangeSetAdapter {
    const builder: UpdateBuilder

    constructor ()
      ensures fresh(builder) && builder.updates == None
    {
      builder := new UpdateBuilder();
    }

    method Update(u: Update)
      modifies builder
      ensures builder.updates == Some(Enqueue(old(builder.Batch()), u))
    {
      builder.Update(ConvertMeas(u));
    }

    method Apply(proxy: Outstation)
      modifies builder, proxy
      ensures proxy.tasks
           == if old(builder.Batch()) == [] then old(proxy.tasks) else old(proxy.tasks) + [old(builder.Batch())]
    {
      var updates := builder.Build();
      proxy.Apply(updates);
    }
  }

  /** `IDatabase`: the classes that can be updated. */
  datatype Database = Log(log: ChangeSet) | Adapter(adapter: ChangeSetAdapter) | Points(store: PointStore)

  /** The object an update writes to. */
  function Target(db: Database): object {
    match db
    case Log(log) => log
    case Adapter(adapter) => adapter.builder
    case Points(store) => store
  }

  /** What a database holds. */
  datatype Contents =
    | Recorded(log: seq<Update>)
    | Batched(batch: seq<NativeUpdate>)
    | Stored(points: map<(int, Uint16), Update>)

  function Receive(c: Contents, u: Update): Contents {
    match c
    case Recorded(log) => Recorded(Record(log, u))
    case Batched(batch) => Batched(Enqueue(batch, u))
    case Stored(points) => Stored(Store(points, u))
  }

  ghost function ContentsOf(db: Database): Contents
    reads Target(db)
  {
    match db
    case Log(log) => Recorded(log.updates)
    case Adapter(adapter) => Batched(adapter.builder.Batch())
    case Points(store) => Stored(store.points)
  }

  method UpdateDatabase(db: Database, u: Update)
    modifies Target(db)
    ensures ContentsOf(db) == Receive(old(ContentsOf(db)), u)
  {
    match db
    case Log(log) => log.Update(u);
    case Adapter(adapter) => adapter.Update(u);
    case Points(store) => store.points := store.points[Key(u) := u];
  }

  class ChangeSet {
    var updates: seq<Update>

    constructor ()
      ensures updates == []
    {
      updates := [];
    }

    method Update(u: Update)
      modifies this
      ensures updates == old(updates) + [u]
    {
      updates := updates + [u];
    }

    method Clear()
      modifies this
      ensures updates == []
    {
      updates := [];
    }

    method Count() returns (n: nat)
      ensures n == |updates|
    {
      n := |updates|;
    }

    /** Replays every update, in order, and keeps them all; a set cannot be applied to itself. */
    method Apply(db: Database)
      requires Target(db) != this
      modifies Target(db)
      ensures ContentsOf(db) == Replay(Receive, old(ContentsOf(db)), updates)
    {
      var n := 0;
      while n < |updates|
        invariant n <= |updates|
        invariant ContentsOf(db) == Replay(Receive, old(ContentsOf(db)), updates[..n])
      {
        UpdateDatabase(db, updates[n]);
        n := n + 1;
        assert updates[..n][..n - 1] == updates[..n - 1];
      }
      assert updates[..n] == updates;
    }
  }

  /** Receiving is what each of the three databases does by itself. */
  lemma {:induction false} ReceiveReplays(c: Contents, log: seq<Update>)
    ensures Replay(Receive, c, log)
         == match c
            case Recorded(l) => Recorded(l + log)
            case Batched(batch) => Batched(batch + ConvertAll(log))
            case Stored(points) => Stored(Replay(Store, points, log))
  {
    if log != [] {
      var init, last := log[..|log| - 1], log[|log| - 1];
      ReceiveReplays(c, init);
      assert log == init + [last];
      assert ConvertAll(log) == ConvertAll(init) + [ConvertMeas(last)];
      if c.Recorded? {
        assert c.log + log == c.log + init + [last];
      }
    }
  }

  /** Applying one set to another and that to a database, as the calls a program would make. */
  method ApplyThrough(a: ChangeSet, b: ChangeSet, db: Database)
    requires a != b && Target(db) != a && Target(db) != b
    modifies b, Target(db)
    ensures a.updates == old(a.updates) && b.updates == old(b.updates) + a.updates
    ensures ContentsOf(db) == Replay(Receive, Replay(Receive, old(ContentsOf(db)), old(b.updates)), a.updates)
  {
    ReceiveReplays(Recorded(b.updates), a.updates);
    ReplayConcat(Receive, ContentsOf(db), b.updates, a.updates);
    a.Apply(Log(b));
    b.Apply(db);
  }

  /**
    `OutstationAdapter::Load`: the outstation runs one task, which is the recorded updates
    converted one by one, in order; an empty change set runs none.
   */
  method Load(outstation: Outstation, changes: ChangeSet)
    modifies outstation
    ensures changes.updates == old(changes.updates)
    ensures outstation.tasks == if changes.updates == [] then old(outstation.tasks)
                                else old(outstation.tasks) + [ConvertAll(changes.updates)]
  {
    var adapter := new ChangeSetAdapter();
    changes.Apply(Adapter(adapter));
    ReceiveReplays(Batched([]), changes.updates);
    assert adapter.builder.Batch() == ConvertAll(changes.updates);
    adapter.Apply(outstation);
  }

  /**
    Running the batch in one go is running the converted updates directly, whatever the
    outstation does with each.
   */
  lemma {:induction false} BatchEqualsDirect<S>(run: (S, NativeUpdate) -> S, s: S, log: seq<Update>)
    ensures RunTask(run, s, ConvertAll(log)) == Replay((t: S, u: Update) => run(t, ConvertMeas(u)), s, log)
  {
    if log != [] {
      var init := log[..|log| - 1];
      BatchEqualsDirect(run, s, init);
      assert ConvertAll(log)[..|log| - 1] == ConvertAll(init);
    }
  }

  function RunTask<S>(run: (S, NativeUpdate) -> S, s: S, task: seq<NativeUpdate>): S {
    if task == [] then s else run(RunTask(run, s, task[..|task| - 1]), task[|task| - 1])
  }
}
