/**
  The read side of the block service: queue numbering, the active-block queue,
  the next block, a block with its tasks, and the block statistics.
 */
module BlockQueries {
  import opened Wrappers
  import opened Models
  import opened Seqs
  import opened Sorting
  import opened Aggregates

  /** The length of the recurring queue: requeued blocks are numbered 1 to 15. */
  const QueueLength := 15

  function BlockNumbers(bs: seq<Block>): (r: seq<int>)
    ensures |r| == |bs|
    ensures forall i :: 0 <= i < |bs| ==> r[i] == bs[i].blockNumber
  {
    seq(|bs|, i requires 0 <= i < |bs| => bs[i].blockNumber)
  }

  /**
    The number `create_block` and `clone_block` hand out: the largest number plus
    one, or 1 on an empty table. It never wraps.
   */
  function NextBlockNumber(bs: seq<Block>): (n: int)
    ensures forall i :: 0 <= i < |bs| ==> bs[i].blockNumber < n
    ensures |bs| == 0 ==> n == 1
    ensures |bs| > 0 ==> exists i :: 0 <= i < |bs| && n == bs[i].blockNumber + 1
  {
    match Max(BlockNumbers(bs))
    case None => 1
    case Some(m) => m + 1
  }

  /**
    The number `move_block_to_end` gives a block: `(max % 15) + 1`, or 1 on an
    empty table. Python's `%` floors, which for the positive divisor 15 agrees
    with Dafny's `%`.
   */
  function EndOfQueueNumber(bs: seq<Block>): (n: int)
    ensures 1 <= n <= QueueLength
    ensures |bs| == 0 ==> n == 1
    ensures (n - NextBlockNumber(bs)) % QueueLength == 0
    ensures 1 <= NextBlockNumber(bs) <= QueueLength ==> n == NextBlockNumber(bs)
  {
    match Max(BlockNumbers(bs))
    case None => 1
    case Some(m) =>
      WrapIsCongruent(m);
      m % QueueLength + 1
  }

  lemma WrapIsCongruent(m: int)
    ensures (m % QueueLength + 1 - (m + 1)) % QueueLength == 0
  {
    assert m % QueueLength - m == -QueueLength * (m / QueueLength);
  }

  /** `ORDER BY block_number`. */
  function ByNumber(a: Block, b: Block): bool {
    a.blockNumber <= b.blockNumber
  }

  lemma ByNumberIsTotalOrder()
    ensures Total(ByNumber) && Transitive(ByNumber)
  {
  }

  /**
    The optional day filter: `if day_number:` skips it for a missing day and for
    day 0; a block whose day is NULL never equals a given day.
   */
  predicate DayMatches(b: Block, day: Option<int>) {
    day.None? || day.value == 0 || b.dayNumber == Some(day.value)
  }

  /** The blocks passing the day filter, in table order. */
  function OnDay(bs: seq<Block>, day: Option<int>): (r: seq<Block>)
    ensures forall b :: b in r <==> b in bs && DayMatches(b, day)
    ensures |r| <= |bs|
  {
    if |bs| == 0 then []
    else
      var init, last := bs[..|bs| - 1], bs[|bs| - 1];
      assert bs == init + [last];
      OnDay(init, day) + (if DayMatches(last, day) then [last] else [])
  }

  /**
    The `ORDER BY` of `get_all_blocks`: by block number when `orderBy` is
    "block_number", otherwise by creation time, which is the order rows were
    added to the table.
   */
  function BlocksInOrder(bs: seq<Block>, day: Option<int>, orderBy: string): (r: seq<Block>)
    ensures multiset(r) == multiset(OnDay(bs, day))
    ensures forall b :: b in r <==> b in bs && DayMatches(b, day)
    ensures orderBy == "block_number" ==> forall i, j :: 0 <= i < j < |r| ==> r[i].blockNumber <= r[j].blockNumber
    ensures orderBy != "block_number" ==> r == OnDay(bs, day)
  {
    if orderBy == "block_number" then
      ByNumberIsTotalOrder();
      var r := Sort(OnDay(bs, day), ByNumber);
      SortedPairwise(r, ByNumber);
      assert forall b :: b in r <==> b in multiset(OnDay(bs, day));
      r
    else OnDay(bs, day)
  }

  /** `get_all_blocks`: one page of the blocks passing the day filter, in the requested order. */
  function AllBlocks(bs: seq<Block>, skip: nat, limit: nat, day: Option<int>, orderBy: string): (r: seq<Block>)
    ensures |r| <= limit
    ensures forall b :: b in r ==> b in bs && DayMatches(b, day)
    ensures orderBy == "block_number" ==> forall i, j :: 0 <= i < j < |r| ==> r[i].blockNumber <= r[j].blockNumber
    ensures orderBy != "block_number" ==>
      forall k :: 0 <= k < |r| ==> skip + k < |OnDay(bs, day)| && r[k] == OnDay(bs, day)[skip + k]
    ensures skip == 0 && |OnDay(bs, day)| <= limit ==> multiset(r) == multiset(OnDay(bs, day))
    ensures r == Page(BlocksInOrder(bs, day, orderBy), skip, limit)
  {
    var ordered := BlocksInOrder(bs, day, orderBy);
    var r := Page(ordered, skip, limit);
    forall b | b in r ensures b in ordered {
      var k :| 0 <= k < |r| && r[k] == b;
    }
    assert skip == 0 && |ordered| <= limit ==> r == ordered;
    r
  }

  /** The blocks joined to at least one incomplete task, passing the day filter, in table order. */
  function ActiveCandidates(bs: seq<Block>, ts: seq<Task>, day: Option<int>): (r: seq<Block>)
    ensures forall b :: b in r <==> b in bs && HasIncompleteTask(ts, b.id) && DayMatches(b, day)
    ensures UniqueKeys(bs, BlockKey) ==> UniqueKeys(r, BlockKey)
  {
    if |bs| == 0 then []
    else
      var init, last := bs[..|bs| - 1], bs[|bs| - 1];
      assert bs == init + [last];
      var rest := ActiveCandidates(init, ts, day);
      if HasIncompleteTask(ts, last.id) && DayMatches(last, day) then
        assert UniqueKeys(bs, BlockKey) ==> UniqueKeys(rest + [last], BlockKey) by {
          if UniqueKeys(bs, BlockKey) {
            assert UniqueKeys(init, BlockKey);
            forall b | b in rest ensures b.id != last.id {
              var k :| 0 <= k < |init| && init[k] == b;
              assert bs[k] == b;
            }
            SnocUnique(rest, BlockKey, last);
          }
        }
        rest + [last]
      else rest
  }

  /**
    `get_active_blocks`: exactly the blocks with an incomplete task that pass the
    day filter, each once, ascending by block number.
   */
  function ActiveBlocks(bs: seq<Block>, ts: seq<Task>, day: Option<int>): (r: seq<Block>)
    ensures forall b :: b in r <==> b in bs && HasIncompleteTask(ts, b.id) && DayMatches(b, day)
    ensures forall i, j :: 0 <= i < j < |r| ==> r[i].blockNumber <= r[j].blockNumber
    ensures UniqueKeys(bs, BlockKey) ==> UniqueKeys(r, BlockKey)
  {
    var candidates := ActiveCandidates(bs, ts, day);
    ByNumberIsTotalOrder();
    var r := Sort(candidates, ByNumber);
    assert forall b :: b in r <==> b in multiset(candidates);
    SortedPairwise(r, ByNumber);
    assert UniqueKeys(bs, BlockKey) ==> UniqueKeys(r, BlockKey) by {
      if UniqueKeys(bs, BlockKey) {
        PermutationKeepsUniqueKeys(candidates, r, BlockKey);
      }
    }
    r
  }

  /** A block with the exact fraction of its tasks that are complete. */
  datatype Progress = Progress(block: Block, totalTasks: nat, completedTasks: nat, completion: Ratio)

  /**
    `get_next_block`: the block with the smallest number among those with an
    incomplete task, with its task counts; none when no block has one.
   */
  function NextBlock(bs: seq<Block>, ts: seq<Task>): (r: Option<Progress>)
    ensures r.None? <==> forall i :: 0 <= i < |bs| ==> !HasIncompleteTask(ts, bs[i].id)
    ensures r.Some? ==> r.value.block in bs && HasIncompleteTask(ts, r.value.block.id)
    ensures r.Some? ==> forall i :: 0 <= i < |bs| && HasIncompleteTask(ts, bs[i].id) ==>
      r.value.block.blockNumber <= bs[i].blockNumber
    ensures r.Some? ==> r.value.totalTasks == |InBlock(ts, r.value.block.id)|
    ensures r.Some? ==> r.value.completedTasks == CountCompleted(InBlock(ts, r.value.block.id))
    ensures r.Some? ==> r.value.completedTasks < r.value.totalTasks
    ensures r.Some? ==> r.value.completion.denominator > 0
    ensures r.Some? ==>
      r.value.completion.numerator * r.value.totalTasks == 100 * r.value.completedTasks * r.value.completion.denominator
    ensures r.Some? ==> 0 <= r.value.completion.numerator < 100 * r.value.completion.denominator
  {
    var active := ActiveBlocks(bs, ts, None);
    if |active| == 0 then
      assert forall i :: 0 <= i < |bs| ==> bs[i] in bs;
      None
    else
      var b := active[0];
      assert forall i :: 0 <= i < |bs| && HasIncompleteTask(ts, bs[i].id) ==> b.blockNumber <= bs[i].blockNumber by {
        forall i | 0 <= i < |bs| && HasIncompleteTask(ts, bs[i].id) ensures b.blockNumber <= bs[i].blockNumber {
          assert bs[i] in active;
          var j :| 0 <= j < |active| && active[j] == bs[i];
        }
      }
      IncompleteMeansNotAllDone(ts, b.id);
      Some(ProgressOf(ts, b))
  }

  /** A block with its task counts and the exact fraction of them that is complete. */
  function ProgressOf(ts: seq<Task>, b: Block): (p: Progress)
    ensures p.block == b
    ensures p.totalTasks == |InBlock(ts, b.id)|
    ensures p.completedTasks == CountCompleted(InBlock(ts, b.id))
    ensures p.completion.denominator > 0
    ensures p.totalTasks == 0 ==> p.completion.numerator == 0
    ensures p.completion.numerator * p.totalTasks == 100 * p.completedTasks * p.completion.denominator
    ensures p.completedTasks < p.totalTasks ==> 0 <= p.completion.numerator < 100 * p.completion.denominator
  {
    var tasks := InBlock(ts, b.id);
    var done := CountCompleted(tasks);
    var completion := Percentage(done, |tasks|);
    assert done < |tasks| ==> completion.numerator < 100 * completion.denominator by {
      if done < |tasks| {
        assert completion == Ratio(100 * done, |tasks|);
      }
    }
    Progress(b, |tasks|, done, completion)
  }

  /** `ORDER BY position`. */
  function ByPosition(a: Task, b: Task): bool {
    a.position <= b.position
  }

  lemma ByPositionIsTotalOrder()
    ensures Total(ByPosition) && Transitive(ByPosition)
  {
  }

  /** A block's tasks ordered by position. */
  function TasksByPosition(ts: seq<Task>, b: Id): (r: seq<Task>)
    ensures multiset(r) == multiset(InBlock(ts, b))
    ensures forall i, j :: 0 <= i < j < |r| ==> r[i].position <= r[j].position
  {
    ByPositionIsTotalOrder();
    var r := Sort(InBlock(ts, b), ByPosition);
    SortedPairwise(r, ByPosition);
    r
  }

  datatype BlockWithTasks = BlockWithTasks(block: Block, tasks: seq<Task>, taskCount: nat, completedTasks: nat)

  /**
    `get_block_with_tasks`: none for an unknown block; otherwise the block, its
    tasks by position, and how many of them there are and are complete.
   */
  function GetBlockWithTasks(bs: seq<Block>, ts: seq<Task>, id: Id): (r: Option<BlockWithTasks>)
    ensures r.None? <==> forall i :: 0 <= i < |bs| ==> bs[i].id != id
    ensures r.Some? ==> r.value.block in bs && r.value.block.id == id
    ensures r.Some? ==> forall t :: t in r.value.tasks <==> t in ts && t.blockId == id
    ensures r.Some? ==> multiset(r.value.tasks) == multiset(InBlock(ts, id))
    ensures r.Some? ==> forall i, j :: 0 <= i < j < |r.value.tasks| ==> r.value.tasks[i].position <= r.value.tasks[j].position
    ensures r.Some? ==> r.value.taskCount == |r.value.tasks| == |InBlock(ts, id)|
    ensures r.Some? ==> r.value.completedTasks == CountCompleted(r.value.tasks) == CountCompleted(InBlock(ts, id))
    ensures r.Some? ==> r.value.completedTasks <= r.value.taskCount
    ensures r.Some? ==> (r.value.completedTasks == r.value.taskCount <==> forall t :: t in r.value.tasks ==> t.completed)
  {
    match Find(bs, BlockKey, id)
    case None => None
    case Some(i) =>
      var tasks := TasksByPosition(ts, id);
      InBlockMembers(ts, id);
      AllCompletedIff(tasks);
      CountCompletedPermutation(tasks, InBlock(ts, id));
      assert forall t :: t in tasks <==> t in multiset(InBlock(ts, id));
      Some(BlockWithTasks(bs[i], tasks, |tasks|, CountCompleted(tasks)))
  }

  /** Blocks with at least one incomplete task (the `active_blocks` count). */
  function CountActiveBlocks(bs: seq<Block>, ts: seq<Task>): (n: nat)
    ensures n <= |bs|
  {
    if |bs| == 0 then 0
    else CountActiveBlocks(bs[..|bs| - 1], ts) + (if HasIncompleteTask(ts, bs[|bs| - 1].id) then 1 else 0)
  }

  /** Blocks with at least one task, of any status. */
  function CountBlocksWithTasks(bs: seq<Block>, ts: seq<Task>): (n: nat)
    ensures n <= |bs|
  {
    if |bs| == 0 then 0
    else CountBlocksWithTasks(bs[..|bs| - 1], ts) + (if HasTask(ts, bs[|bs| - 1].id) then 1 else 0)
  }

  /** Blocks that have tasks, all of them complete. */
  function CountFinishedBlocks(bs: seq<Block>, ts: seq<Task>): nat {
    if |bs| == 0 then 0
    else
      var b := bs[|bs| - 1];
      CountFinishedBlocks(bs[..|bs| - 1], ts) + (if HasTask(ts, b.id) && !HasIncompleteTask(ts, b.id) then 1 else 0)
  }

  /** Blocks without any task. */
  function CountIdleBlocks(bs: seq<Block>, ts: seq<Task>): nat {
    if |bs| == 0 then 0
    else CountIdleBlocks(bs[..|bs| - 1], ts) + (if HasTask(ts, bs[|bs| - 1].id) then 0 else 1)
  }

  /** Every block is exactly one of active, finished and idle. */
  lemma {:induction false} BlocksPartition(bs: seq<Block>, ts: seq<Task>)
    ensures CountBlocksWithTasks(bs, ts) == CountActiveBlocks(bs, ts) + CountFinishedBlocks(bs, ts)
    ensures |bs| == CountBlocksWithTasks(bs, ts) + CountIdleBlocks(bs, ts)
  {
    if |bs| > 0 {
      BlocksPartition(bs[..|bs| - 1], ts);
    }
  }

  datatype BlockStatistics = BlockStatistics(totalBlocks: nat, completedBlocks: int, activeBlocks: nat, blocksWithNoTasks: int)

  /**
    `get_block_statistics`: completed blocks are those with tasks minus the active
    ones, blocks with no tasks are all minus those with tasks.
   */
  function GetBlockStatistics(bs: seq<Block>, ts: seq<Task>): (r: BlockStatistics)
    ensures r.totalBlocks == |bs|
    ensures r.activeBlocks == CountActiveBlocks(bs, ts)
    ensures r.completedBlocks == CountFinishedBlocks(bs, ts)
    ensures r.blocksWithNoTasks == CountIdleBlocks(bs, ts)
    ensures r.totalBlocks == r.completedBlocks + r.activeBlocks + r.blocksWithNoTasks
  {
    var total := |bs|;
    var active := CountActiveBlocks(bs, ts);
    var withTasks := CountBlocksWithTasks(bs, ts);
    BlocksPartition(bs, ts);
    BlockStatistics(total, withTasks - active, active, total - withTasks)
  }

  /** The `active_blocks` statistic counts exactly the blocks the unfiltered queue lists. */
  lemma {:induction false} ActiveCountMatchesQueue(bs: seq<Block>, ts: seq<Task>)
    ensures CountActiveBlocks(bs, ts) == |ActiveCandidates(bs, ts, None)|
  {
    if |bs| > 0 {
      ActiveCountMatchesQueue(bs[..|bs| - 1], ts);
    }
  }
}
