/** Which queued task the master scheduler runs next. */
module TaskChoice {
  import opened Words
  import opened TaskCallbacks

  /**
    What the choice looks at: whose task it is, when it expires, in milliseconds, its
    priority, less being better, and whether it may block tasks of worse priority.
   */
  datatype Candidate =
    Candidate(master: nat, id: nat, expiration: Int64, priority: int, blocksLowerPriority: bool)

  const MIN_TIMESTAMP: Int64 := -0x8000_0000_0000_0000
  const MAX_TIMESTAMP: Int64 := 0x7FFF_FFFF_FFFF_FFFF

  /** A disabled task expires at the end of time. */
  predicate Enabled(c: Candidate) {
    c.expiration != MAX_TIMESTAMP
  }

  predicate IsExpired(c: Candidate, now: Int64) {
    now >= c.expiration
  }

  // ------------------------------ blocking ------------------------------

  /** A task that its master's `TaskContext` lists as blocking. */
  datatype Block = Block(master: nat, id: nat, priority: int)

  function BlockOf(c: Candidate): Block {
    Block(c.master, c.id, c.priority)
  }

  /** A task is blocked by another of the same master, of better priority. */
  predicate IsBlocked(c: Candidate, blocks: set<Block>) {
    exists b :: b in blocks && b.master == c.master && b.priority < c.priority && b.id != c.id
  }

  /** Blocks act one by one: on other tasks of the same master, and on worse priorities only. */
  lemma BlocksOneByOne(c: Candidate, a: set<Block>, b: set<Block>, one: Block)
    ensures !IsBlocked(c, {})
    ensures IsBlocked(c, a + b) <==> IsBlocked(c, a) || IsBlocked(c, b)
    ensures IsBlocked(c, {one}) <==> c.master == one.master && c.id != one.id && c.priority > one.priority
  {
    assert one in {one};
  }

  /** A task and the blocks, once a run of the task has ended. */
  datatype Ended = Ended(task: Candidate, blocks: set<Block>)

  /**
    `IMasterTask::CompleteTask`: `retry` and `next` are the expirations that the task's
    behaviour sets for a retry and for its next period.
   */
  function CompleteTask(c: Candidate, blocks: set<Block>, result: TaskCompletion, retry: Int64, next: Int64): Ended {
    var more := if c.blocksLowerPriority then blocks + {BlockOf(c)} else blocks;
    match result
    case FailureNoComms => Ended(c.(expiration := MIN_TIMESTAMP), blocks)
    case FailureResponseTimeout => Ended(c.(expiration := retry), more)
    case Success => Ended(c.(expiration := next), blocks - {BlockOf(c)})
    case _ => Ended(c.(expiration := MAX_TIMESTAMP), more)
  }

  /**
    What the end of a run does to its task and to the others: lost communication makes it due
    at once, a timeout retries, a success takes its block away, and any other failure disables
    it; every failure but the first of these blocks the tasks of worse priority, if it may.
   */
  lemma EndOfRun(c: Candidate, blocks: set<Block>, result: TaskCompletion, retry: Int64, next: Int64)
    requires retry != MAX_TIMESTAMP
    ensures
      var after := CompleteTask(c, blocks, result, retry, next);
      var mine := Block(c.master, c.id, c.priority);
      && after.task == c.(expiration := after.task.expiration)
      && (result == FailureNoComms ==> forall now: Int64 :: IsExpired(after.task, now))
      && (result == FailureResponseTimeout ==> after.task.expiration == retry)
      && (result == Success ==> after.task.expiration == next && mine !in after.blocks)
      && (result in {FailureBadResponse, FailureStartTimeout, FailureMessageFormatError} ==> !Enabled(after.task))
      && (mine in after.blocks
          <==> || (mine in blocks && result != Success)
               || (c.blocksLowerPriority && result != Success && result != FailureNoComms))
      && forall b :: b != mine ==> (b in after.blocks <==> b in blocks)
  {
  }

  // ------------------------------ comparing ------------------------------

  datatype Comparison = Left | Right | Same

  function CompareEnabledStatus(left: Candidate, right: Candidate): Comparison {
    if left.expiration == MAX_TIMESTAMP then if right.expiration == MAX_TIMESTAMP then Same else Right
    else if right.expiration == MAX_TIMESTAMP then Left
    else Same
  }

  function CompareBlockedStatus(blocks: set<Block>, left: Candidate, right: Candidate): Comparison {
    if IsBlocked(left, blocks) then if IsBlocked(right, blocks) then Same else Right
    else if IsBlocked(right, blocks) then Left
    else Same
  }

  function CompareTime(now: Int64, left: Candidate, right: Candidate): Comparison {
    var leftTime := if IsExpired(left, now) then now else left.expiration;
    var rightTime := if IsExpired(right, now) then now else right.expiration;
    if leftTime < rightTime then Left else if rightTime < leftTime then Right else Same
  }

  function ComparePriority(left: Candidate, right: Candidate): Comparison {
    if left.priority < right.priority then Left
    else if right.priority < left.priority then Right
    else Same
  }

  function GetBestTaskToRun(now: Int64, blocks: set<Block>, left: Candidate, right: Candidate): Comparison {
    var enabled := CompareEnabledStatus(left, right);
    if enabled != Same then enabled
    else
      var blocked := CompareBlockedStatus(blocks, left, right);
      if blocked != Same then blocked
      else
        var earliest := CompareTime(now, left, right);
        if earliest == Same then ComparePriority(left, right) else earliest
  }

  /** What decides between two tasks, first things first. */
  datatype Rank = Rank(disabled: int, blocked: int, time: int, priority: int) {
    predicate Before(other: Rank) {
      || disabled < other.disabled
      || (disabled == other.disabled && blocked < other.blocked)
      || (disabled == other.disabled && blocked == other.blocked && time < other.time)
      || (disabled == other.disabled && blocked == other.blocked && time == other.time && priority < other.priority)
    }
  }

  /** Enabled before disabled, unblocked before blocked, then by the time it can run, then by priority. */
  function RankOf(now: Int64, blocks: set<Block>, c: Candidate): Rank {
    Rank(
      if c.expiration == MAX_TIMESTAMP then 1 else 0,
      if IsBlocked(c, blocks) then 1 else 0,
      if c.expiration < now then now else c.expiration,
      c.priority)
  }

  /** The four comparisons one after the other are the lexicographic order of the ranks. */
  lemma BestIsByRank(now: Int64, blocks: set<Block>, a: Candidate, b: Candidate)
    ensures GetBestTaskToRun(now, blocks, a, b) == Left
       <==> RankOf(now, blocks, a).Before(RankOf(now, blocks, b))
    ensures GetBestTaskToRun(now, blocks, a, b) == Right
       <==> RankOf(now, blocks, b).Before(RankOf(now, blocks, a))
  {
  }

  /** No other candidate is better, and every earlier one is worse. */
  predicate Chosen(now: Int64, blocks: set<Block>, cs: seq<Candidate>, best: int) {
    && 0 <= best < |cs|
    && (forall j :: 0 <= j < |cs| ==> GetBestTaskToRun(now, blocks, cs[j], cs[best]) != Left)
    && (forall j :: 0 <= j < best ==> GetBestTaskToRun(now, blocks, cs[j], cs[best]) == Right)
  }

  /** The comparison is a total preorder, which is what lets one pass find the best. */
  lemma BestIsTransitive(now: Int64, blocks: set<Block>, a: Candidate, b: Candidate, c: Candidate)
    ensures GetBestTaskToRun(now, blocks, a, b) == Left <==> GetBestTaskToRun(now, blocks, b, a) == Right
    ensures GetBestTaskToRun(now, blocks, a, b) != Left && GetBestTaskToRun(now, blocks, b, c) != Left ==>
              GetBestTaskToRun(now, blocks, a, c) != Left
    ensures GetBestTaskToRun(now, blocks, a, b) != Left && GetBestTaskToRun(now, blocks, b, c) == Right ==>
              GetBestTaskToRun(now, blocks, a, c) == Right
  {
  }

  /** The scheduler's single pass over its queue. */
  method FindBest(now: Int64, blocks: set<Block>, cs: seq<Candidate>) returns (best: nat)
    requires cs != []
    ensures Chosen(now, blocks, cs, best)
  {
    best := 0;
    for current := 1 to |cs|
      invariant Chosen(now, blocks, cs[..current], best)
    {
      forall j | 0 <= j < current ensures GetBestTaskToRun(now, blocks, cs[current], cs[best]) == Left ==>
        GetBestTaskToRun(now, blocks, cs[j], cs[current]) == Right {
        assert GetBestTaskToRun(now, blocks, cs[..current][j], cs[best]) != Left;
        BestIsTransitive(now, blocks, cs[j], cs[best], cs[current]);
        BestIsTransitive(now, blocks, cs[current], cs[best], cs[j]);
      }
      BestIsTransitive(now, blocks, cs[current], cs[best], cs[best]);
      assert forall j :: 0 <= j < current ==> cs[..current + 1][j] == cs[..current][j];
      if GetBestTaskToRun(now, blocks, cs[best], cs[current]) == Right {
        BestIsTransitive(now, blocks, cs[current], cs[best], cs[best]);
        best := current;
      }
    }
    assert cs[..|cs|] == cs;
  }

  /** Able to run at once. */
  predicate Due(now: Int64, blocks: set<Block>, c: Candidate) {
    Enabled(c) && !IsBlocked(c, blocks) && IsExpired(c, now)
  }

  /** If any task is due, the one that runs is due, and no due task has a better priority. */
  lemma DueTaskRuns(now: Int64, blocks: set<Block>, cs: seq<Candidate>, best: int, j: int)
    requires Chosen(now, blocks, cs, best) && 0 <= j < |cs| && Due(now, blocks, cs[j])
    ensures Due(now, blocks, cs[best]) && cs[best].priority <= cs[j].priority
  {
    assert GetBestTaskToRun(now, blocks, cs[j], cs[best]) != Left;
  }

  /** When nothing can run yet, the time to look again is the earliest of the tasks that count. */
  lemma WakesForEarliest(now: Int64, blocks: set<Block>, cs: seq<Candidate>, best: int, j: int)
    requires Chosen(now, blocks, cs, best) && !IsExpired(cs[best], now)
    requires 0 <= j < |cs| && Enabled(cs[j]) && IsBlocked(cs[j], blocks) == IsBlocked(cs[best], blocks)
    ensures cs[best].expiration <= cs[j].expiration
  {
    BestIsByRank(now, blocks, cs[j], cs[best]);
  }

  /**
    A block only ranks its task behind the others: a blocked task is chosen exactly when all
    enabled tasks are blocked, or, if none is enabled, all tasks.
   */
  lemma BlockedChosenIff(now: Int64, blocks: set<Block>, cs: seq<Candidate>, best: int)
    requires Chosen(now, blocks, cs, best)
    ensures IsBlocked(cs[best], blocks)
       <==> forall j :: 0 <= j < |cs| && (Enabled(cs[j]) || forall k :: 0 <= k < |cs| ==> !Enabled(cs[k]))
              ==> IsBlocked(cs[j], blocks)
  {
    forall j | 0 <= j < |cs| && IsBlocked(cs[best], blocks) && !IsBlocked(cs[j], blocks)
      ensures !Enabled(cs[j]) && Enabled(cs[best])
    {
      assert GetBestTaskToRun(now, blocks, cs[j], cs[best]) != Left;
    }
    forall j | 0 <= j < |cs| && Enabled(cs[j]) ensures Enabled(cs[best]) {
      assert GetBestTaskToRun(now, blocks, cs[j], cs[best]) != Left;
    }
  }

  /**
    A check makes a blocked task run exactly when some enabled task has expired and every
    enabled task is blocked; what blocks it may be disabled, and then never runs itself.
   */
  lemma BlockedRunsIff(now: Int64, blocks: set<Block>, cs: seq<Candidate>, best: int)
    requires Chosen(now, blocks, cs, best) && now < MAX_TIMESTAMP
    ensures IsBlocked(cs[best], blocks) && IsExpired(cs[best], now)
       <==> && (exists j :: 0 <= j < |cs| && Enabled(cs[j]) && IsExpired(cs[j], now))
            && (forall j :: 0 <= j < |cs| && Enabled(cs[j]) ==> IsBlocked(cs[j], blocks))
  {
    BlockedChosenIff(now, blocks, cs, best);
    forall j | 0 <= j < |cs| && Enabled(cs[j])
      ensures Enabled(cs[best])
      ensures IsBlocked(cs[best], blocks) && IsBlocked(cs[j], blocks) && IsExpired(cs[j], now) ==>
                IsExpired(cs[best], now)
    {
      assert GetBestTaskToRun(now, blocks, cs[j], cs[best]) != Left;
    }
  }

  /**
    The clearing of a restart gets a bad response, which disables it and makes it block all
    tasks of worse priority; the next check runs a poll of the same master that it blocks.
   */
  lemma BlockedTaskRuns(retry: Int64, next: Int64)
    ensures
      var clear, poll := Candidate(0, 0, MIN_TIMESTAMP, 120, true), Candidate(0, 1, 0, 190, false);
      var after := CompleteTask(clear, {}, FailureBadResponse, retry, next);
      && !Enabled(after.task) && BlockOf(clear) in after.blocks && IsBlocked(poll, after.blocks)
      && Chosen(0, after.blocks, [after.task, poll], 1) && IsExpired(poll, 0)
  {
    var clear, poll := Candidate(0, 0, MIN_TIMESTAMP, 120, true), Candidate(0, 1, 0, 190, false);
    var after := CompleteTask(clear, {}, FailureBadResponse, retry, next);
    assert BlockOf(clear) in after.blocks;
  }
}
