/**
  The read side of the task service and the decisions `create_task` takes before
  it inserts: which category a new task gets and which position.
 */
module TaskQueries {
  import opened Wrappers
  import opened Models
  import opened Seqs
  import opened Sorting
  import opened Database
  import opened Aggregates
  import opened BlockQueries

  /**
    The category `create_task` gives a task in `block`: a requested category must
    exist and, when the block has a category, be that one; without a request the
    block's category is inherited, and a block without one refuses the task.
   */
  function ResolveCategory(block: Block, requested: Option<Id>, categories: seq<Category>): (r: Option<Id>)
    ensures requested.None? ==> r == block.categoryId
    ensures requested.Some? ==>
      (r.Some? <==> Find(categories, CategoryKey, requested.value).Some?
                    && (block.categoryId.None? || block.categoryId == requested))
    ensures requested.Some? && r.Some? ==> r == requested
    ensures r.Some? && block.categoryId.Some? ==> r == block.categoryId
  {
    if requested.Some? then
      if Find(categories, CategoryKey, requested.value).None? then None
      else if block.categoryId.Some? && block.categoryId != requested then None
      else requested
    else block.categoryId
  }

  function Positions(ts: seq<Task>): (r: seq<int>)
    ensures |r| == |ts|
    ensures forall i :: 0 <= i < |ts| ==> r[i] == ts[i].position
  {
    seq(|ts|, i requires 0 <= i < |ts| => ts[i].position)
  }

  /**
    The position `create_task` gives a task: a requested 0 means "append", one
    past the block's largest position, or 0 in an empty block; any other request
    is kept.
   */
  function NextPosition(ts: seq<Task>, b: Id, requested: int): (p: int)
    ensures requested != 0 ==> p == requested
    ensures requested == 0 && !HasTask(ts, b) ==> p == 0
    ensures requested == 0 ==> forall t :: t in ts && t.blockId == b ==> t.position < p
    ensures requested == 0 && HasTask(ts, b) ==> exists t :: t in ts && t.blockId == b && p == t.position + 1
  {
    if requested != 0 then requested
    else
      var inBlock := InBlock(ts, b);
      InBlockMembers(ts, b);
      IncompleteMeansNotAllDone(ts, b);
      match Max(Positions(inBlock))
      case None => 0
      case Some(m) =>
        assert forall t :: t in inBlock ==> t.position <= m;
        var k :| 0 <= k < |inBlock| && Positions(inBlock)[k] == m;
        assert inBlock[k] in inBlock;
        m + 1
  }

  /** The optional filters of `get_all_tasks`; a missing block or category filter is skipped. */
  predicate Matches(t: Task, completed: Option<bool>, blockId: Option<Id>, categoryId: Option<Id>) {
    && (completed.None? || t.completed == completed.value)
    && (blockId.None? || t.blockId == blockId.value)
    && (categoryId.None? || t.categoryId == categoryId.value)
  }

  function Filtered(ts: seq<Task>, completed: Option<bool>, blockId: Option<Id>, categoryId: Option<Id>): seq<Task> {
    if |ts| == 0 then []
    else
      Filtered(ts[..|ts| - 1], completed, blockId, categoryId)
      + (if Matches(ts[|ts| - 1], completed, blockId, categoryId) then [ts[|ts| - 1]] else [])
  }

  lemma {:induction false} FilteredMembers(ts: seq<Task>, completed: Option<bool>, blockId: Option<Id>, categoryId: Option<Id>)
    ensures forall t :: t in Filtered(ts, completed, blockId, categoryId) <==> t in ts && Matches(t, completed, blockId, categoryId)
  {
    if |ts| > 0 {
      assert ts == ts[..|ts| - 1] + [ts[|ts| - 1]];
      FilteredMembers(ts[..|ts| - 1], completed, blockId, categoryId);
    }
  }

  /** `ORDER BY block_id, position`. */
  function ByBlockThenPosition(a: Task, b: Task): bool {
    a.blockId < b.blockId || (a.blockId == b.blockId && a.position <= b.position)
  }

  lemma ByBlockThenPositionIsTotalOrder()
    ensures Total(ByBlockThenPosition) && Transitive(ByBlockThenPosition)
  {
  }

  /**
    `get_all_tasks`: one page of the tasks passing the filters, ordered by block
    and then position; when everything fits on the first page, every matching task
    is there exactly once.
   */
  function AllTasks(
    ts: seq<Task>, skip: nat, limit: nat,
    completed: Option<bool>, blockId: Option<Id>, categoryId: Option<Id>): (r: seq<Task>)
    ensures |r| <= limit
    ensures forall t :: t in r ==> t in ts && Matches(t, completed, blockId, categoryId)
    ensures forall i, j :: 0 <= i < j < |r| ==> ByBlockThenPosition(r[i], r[j])
    ensures skip == 0 && |Filtered(ts, completed, blockId, categoryId)| <= limit ==>
      multiset(r) == multiset(Filtered(ts, completed, blockId, categoryId))
    ensures r == Page(Sort(Filtered(ts, completed, blockId, categoryId), ByBlockThenPosition), skip, limit)
  {
    var matching := Filtered(ts, completed, blockId, categoryId);
    ByBlockThenPositionIsTotalOrder();
    var sorted := Sort(matching, ByBlockThenPosition);
    SortedPairwise(sorted, ByBlockThenPosition);
    FilteredMembers(ts, completed, blockId, categoryId);
    var r := Page(sorted, skip, limit);
    assert forall t :: t in r ==> t in multiset(matching) by {
      forall t | t in r ensures t in multiset(matching) {
        var k :| 0 <= k < |r| && r[k] == t;
        assert sorted[skip + k] in multiset(sorted);
      }
    }
    assert skip == 0 && |matching| <= limit ==> r == sorted;
    r
  }

  /** `get_tasks_by_block`: the block's tasks, by position or in table order. */
  function TasksByBlock(ts: seq<Task>, b: Id, orderByPosition: bool): (r: seq<Task>)
    ensures multiset(r) == multiset(InBlock(ts, b))
    ensures orderByPosition ==> forall i, j :: 0 <= i < j < |r| ==> r[i].position <= r[j].position
  {
    if orderByPosition then TasksByPosition(ts, b) else InBlock(ts, b)
  }

  /**
    `get_tasks_by_category`: the category's tasks in creation order, which is the
    order rows were added to the table.
   */
  function TasksByCategory(ts: seq<Task>, c: Id): (r: seq<Task>)
    ensures forall t :: t in r <==> t in ts && t.categoryId == c
    ensures multiset(r) == multiset(InCategory(ts, c))
  {
    InCategoryMembers(ts, c);
    InCategory(ts, c)
  }

  datatype BlockProgress = BlockProgress(
    blockId: Id,
    totalTasks: nat,
    completedTasks: nat,
    completion: Ratio,
    totalEstimatedMinutes: int,
    totalActualMinutes: int,
    remainingEstimatedMinutes: int,
    isComplete: bool)

  /** The rows drawn from a table of stored tasks are stored tasks. */
  lemma InBlockStored(ts: seq<Task>, b: Id)
    requires AllStored(ts)
    ensures AllStored(InBlock(ts, b))
  {
    InBlockMembers(ts, b);
    var r := InBlock(ts, b);
    forall i | 0 <= i < |r| ensures Stored(r[i]) {
      assert r[i] in ts;
    }
  }

  /**
    `get_block_progress`: none for an unknown block; otherwise the counts, the
    exact completion fraction (0 without tasks), the minute sums, and whether the
    block is complete: at least one task and all of them done.
   */
  function GetBlockProgress(bs: seq<Block>, ts: seq<Task>, id: Id): (r: Option<BlockProgress>)
    ensures r.None? <==> Find(bs, BlockKey, id).None?
    ensures r.Some? ==> r.value.blockId == id
    ensures r.Some? ==> r.value.totalTasks == |InBlock(ts, id)|
    ensures r.Some? ==> r.value.completedTasks == CountCompleted(InBlock(ts, id)) <= r.value.totalTasks
    ensures r.Some? ==> r.value.completion.denominator > 0
    ensures r.Some? && r.value.totalTasks == 0 ==> r.value.completion.numerator == 0
    ensures r.Some? && r.value.totalTasks > 0 ==>
      r.value.completion.numerator * r.value.totalTasks == 100 * r.value.completedTasks * r.value.completion.denominator
    ensures r.Some? ==>
      (r.value.isComplete <==> HasTask(ts, id) && !HasIncompleteTask(ts, id))
    ensures r.Some? ==> r.value.totalEstimatedMinutes == SumEstimated(InBlock(ts, id))
    ensures r.Some? ==> r.value.remainingEstimatedMinutes == SumEstimatedIncomplete(InBlock(ts, id))
    ensures r.Some? ==> r.value.totalActualMinutes == SumActualCompleted(InBlock(ts, id))
    ensures r.Some? ==>
      r.value.remainingEstimatedMinutes + SumEstimatedCompleted(InBlock(ts, id)) == r.value.totalEstimatedMinutes
    ensures r.Some? && r.value.isComplete ==> r.value.remainingEstimatedMinutes == 0
    ensures r.Some? && AllStored(ts) ==>
      && 0 <= r.value.remainingEstimatedMinutes <= r.value.totalEstimatedMinutes
      && r.value.totalActualMinutes >= 0
  {
    match Find(bs, BlockKey, id)
    case None => None
    case Some(_) =>
      var tasks := InBlock(ts, id);
      var total, done := |tasks|, CountCompleted(tasks);
      IncompleteMeansNotAllDone(ts, id);
      EstimateSplits(tasks);
      AllCompletedIff(tasks);
      assert done == total ==> SumEstimatedIncomplete(tasks) == 0 by {
        if done == total {
          NothingRemainsWhenDone(tasks);
        }
      }
      assert AllStored(ts) ==> AllStored(tasks) by {
        if AllStored(ts) {
          InBlockStored(ts, id);
        }
      }
      Some(BlockProgress(
        id, total, done, Percentage(done, total),
        SumEstimated(tasks), SumActualCompleted(tasks), SumEstimatedIncomplete(tasks),
        done == total && total > 0))
  }
}
