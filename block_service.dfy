/**
  The write side of the block service: creating, updating, deleting, renumbering
  and cloning blocks, and the recurring-block cycle that completes a block's
  tasks, resets them and sends the block to the back of the queue.
 */
module BlockService {
  import opened Wrappers
  import opened Models
  import opened Seqs
  import opened Database
  import opened Aggregates
  import opened BlockQueries

  /** `BlockCreate`: a missing `blockNumber` asks for the next free number. */
  datatype BlockCreate = BlockCreate(
    title: string,
    description: Option<string>,
    blockNumber: Option<int>,
    dayNumber: Option<int>,
    categoryId: Option<Id>)

  /** `create_block`. */
  method CreateBlock(db: Db, bc: BlockCreate) returns (r: Option<Block>)
    requires db.Valid()
    modifies db
    ensures db.Valid()
    ensures r.None? <==> bc.categoryId.Some? && Find(old(db.categories), CategoryKey, bc.categoryId.value).None?
    ensures r.None? ==> unchanged(db)
    ensures r.Some? ==> Find(old(db.blocks), BlockKey, r.value.id).None?
    ensures r.Some? ==> r.value == Block(
      r.value.id, bc.title, bc.description,
      if bc.blockNumber.Some? then bc.blockNumber.value else NextBlockNumber(old(db.blocks)),
      bc.dayNumber, bc.categoryId)
    ensures r.Some? ==> db.blocks == old(db.blocks) + [r.value]
    ensures db.categories == old(db.categories) && db.tasks == old(db.tasks)
  {
    if bc.categoryId.Some? {
      var category := Find(db.categories, CategoryKey, bc.categoryId.value);
      if category.None? {
        return None;
      }
    }
    var number: int;
    if bc.blockNumber.None? {
      var maxNumber := Max(BlockNumbers(db.blocks));
      if maxNumber.Some? {
        number := maxNumber.value + 1;
      } else {
        number := 1;
      }
    } else {
      number := bc.blockNumber.value;
    }
    var b := Block(db.nextId, bc.title, bc.description, number, bc.dayNumber, bc.categoryId);
    InsertBlock(db.categories, db.blocks, db.tasks, db.nextId, b);
    db.blocks := db.blocks + [b];
    db.nextId := db.nextId + 1;
    return Some(b);
  }

  /** `BlockUpdate`: `Some` marks a supplied field. */
  datatype BlockUpdate = BlockUpdate(
    title: Option<string>,
    description: Option<string>,
    blockNumber: Option<int>,
    dayNumber: Option<int>)

  /** One `setattr` of a block update. */
  datatype BlockPatch =
    | SetTitle(title: string)
    | SetDescription(description: string)
    | SetBlockNumber(blockNumber: int)
    | SetDayNumber(dayNumber: int)

  function BlockPatchFor<T>(field: Option<T>, make: T -> BlockPatch): seq<BlockPatch> {
    if field.Some? then [make(field.value)] else []
  }

  /** `model_dump(exclude_unset=True)`: the supplied fields, in declaration order. */
  function BlockUpdateData(u: BlockUpdate): seq<BlockPatch> {
    BlockPatchFor(u.title, x => SetTitle(x))
    + BlockPatchFor(u.description, x => SetDescription(x))
    + BlockPatchFor(u.blockNumber, x => SetBlockNumber(x))
    + BlockPatchFor(u.dayNumber, x => SetDayNumber(x))
  }

  function ApplyBlockPatch(b: Block, p: BlockPatch): Block {
    match p
    case SetTitle(v) => b.(title := v)
    case SetDescription(v) => b.(description := Some(v))
    case SetBlockNumber(v) => b.(blockNumber := v)
    case SetDayNumber(v) => b.(dayNumber := Some(v))
  }

  /** The `setattr` loop, one patch after another. */
  function ApplyBlockPatches(b: Block, ps: seq<BlockPatch>): Block {
    if |ps| == 0 then b else ApplyBlockPatch(ApplyBlockPatches(b, ps[..|ps| - 1]), ps[|ps| - 1])
  }

  /** What a partial update means: each supplied field replaced, every other field kept. */
  function MergeBlock(b: Block, u: BlockUpdate): Block {
    Block(
      b.id,
      u.title.GetOr(b.title),
      if u.description.Some? then u.description else b.description,
      u.blockNumber.GetOr(b.blockNumber),
      if u.dayNumber.Some? then u.dayNumber else b.dayNumber,
      b.categoryId)
  }

  lemma {:induction false} ApplyBlockPatchesAppend(b: Block, ps: seq<BlockPatch>, qs: seq<BlockPatch>)
    ensures ApplyBlockPatches(b, ps + qs) == ApplyBlockPatches(ApplyBlockPatches(b, ps), qs)
    decreases |qs|
  {
    if |qs| == 0 {
      assert ps + qs == ps;
    } else {
      assert (ps + qs)[..|ps + qs| - 1] == ps + qs[..|qs| - 1];
      ApplyBlockPatchesAppend(b, ps, qs[..|qs| - 1]);
    }
  }

  lemma ApplyOneBlockPatch(b: Block, p: BlockPatch)
    ensures ApplyBlockPatches(b, [p]) == ApplyBlockPatch(b, p)
  {
    assert [p][..0] == [];
  }

  /** Applying the supplied fields in order is the field-wise merge. */
  lemma {:induction false} UpdateBlockMerges(b: Block, u: BlockUpdate)
    ensures ApplyBlockPatches(b, BlockUpdateData(u)) == MergeBlock(b, u)
  {
    var p1 := BlockPatchFor(u.title, x => SetTitle(x));
    var p2 := BlockPatchFor(u.description, x => SetDescription(x));
    var p3 := BlockPatchFor(u.blockNumber, x => SetBlockNumber(x));
    var p4 := BlockPatchFor(u.dayNumber, x => SetDayNumber(x));
    assert BlockUpdateData(u) == ((p1 + p2) + p3) + p4;
    ApplyBlockPatchesAppend(b, (p1 + p2) + p3, p4);
    ApplyBlockPatchesAppend(b, p1 + p2, p3);
    ApplyBlockPatchesAppend(b, p1, p2);
    var b1 := ApplyBlockPatches(b, p1);
    var b2 := ApplyBlockPatches(b1, p2);
    var b3 := ApplyBlockPatches(b2, p3);
    if u.title.Some? { ApplyOneBlockPatch(b, SetTitle(u.title.value)); }
    if u.description.Some? { ApplyOneBlockPatch(b1, SetDescription(u.description.value)); }
    if u.blockNumber.Some? { ApplyOneBlockPatch(b2, SetBlockNumber(u.blockNumber.value)); }
    if u.dayNumber.Some? { ApplyOneBlockPatch(b3, SetDayNumber(u.dayNumber.value)); }
  }

  /** `update_block`. */
  method UpdateBlock(db: Db, id: Id, u: BlockUpdate) returns (r: Option<Block>)
    requires db.Valid()
    modifies db
    ensures db.Valid()
    ensures r.None? <==> Find(old(db.blocks), BlockKey, id).None?
    ensures r.None? ==> unchanged(db)
    ensures r.Some? ==>
      var i := Find(old(db.blocks), BlockKey, id).value;
      r.value == MergeBlock(old(db.blocks)[i], u) && db.blocks == old(db.blocks)[i := r.value]
    ensures db.categories == old(db.categories) && db.tasks == old(db.tasks) && db.nextId == old(db.nextId)
  {
    var found := Find(db.blocks, BlockKey, id);
    if found.None? {
      return None;
    }
    var i := found.value;
    var b := db.blocks[i];
    var patches := BlockUpdateData(u);
    for k := 0 to |patches|
      invariant b == ApplyBlockPatches(db.blocks[i], patches[..k])
    {
      assert patches[..k + 1][..k] == patches[..k];
      b := ApplyBlockPatch(b, patches[k]);
    }
    assert patches[..|patches|] == patches;
    UpdateBlockMerges(db.blocks[i], u);
    RewriteBlocks(db.categories, db.blocks, db.blocks[i := b], db.tasks, db.nextId);
    db.blocks := db.blocks[i := b];
    return Some(b);
  }

  /** `delete_block`: the block goes, and the cascade takes exactly its tasks with it. */
  method DeleteBlock(db: Db, id: Id) returns (deleted: bool)
    requires db.Valid()
    modifies db
    ensures db.Valid()
    ensures deleted <==> Find(old(db.blocks), BlockKey, id).Some?
    ensures !deleted ==> unchanged(db)
    ensures deleted ==>
      var i := Find(old(db.blocks), BlockKey, id).value;
      db.blocks == old(db.blocks)[..i] + old(db.blocks)[i + 1..]
    ensures deleted ==> Find(db.blocks, BlockKey, id).None?
    ensures deleted ==> db.tasks == ExceptBlock(old(db.tasks), id)
    ensures db.categories == old(db.categories) && db.nextId == old(db.nextId)
  {
    var found := Find(db.blocks, BlockKey, id);
    if found.None? {
      return false;
    }
    var i := found.value;
    var blocks := db.blocks[..i] + db.blocks[i + 1..];
    RemoveKeepsKeys(db.blocks, BlockKey, db.nextId, i);
    forall k | 0 <= k < |blocks| ensures blocks[k].id != id {
      FindIsOnly(db.blocks, BlockKey, id, i);
      if k < i {
        assert blocks[k] == db.blocks[k];
      } else {
        assert blocks[k] == db.blocks[k + 1];
      }
    }
    var tasks := ExceptBlock(db.tasks, id);
    SubsetOfStored(db.tasks, tasks, db.nextId);
    db.blocks, db.tasks := blocks, tasks;
    return true;
  }

  /**
    The cascade leaves no orphan: when every task belonged to an existing block
    before `delete_block`, every remaining task still does.
   */
  lemma DeleteBlockLeavesNoOrphans(blocks: seq<Block>, tasks: seq<Task>, i: nat)
    requires i < |blocks| && Owned(blocks, tasks)
    ensures Owned(blocks[..i] + blocks[i + 1..], ExceptBlock(tasks, blocks[i].id))
  {
    var blocks', tasks' := blocks[..i] + blocks[i + 1..], ExceptBlock(tasks, blocks[i].id);
    forall k | 0 <= k < |tasks'| ensures HasBlock(blocks', tasks'[k].blockId) {
      var t := tasks'[k];
      assert t in tasks && t.blockId != blocks[i].id;
      var m :| 0 <= m < |tasks| && tasks[m] == t;
      var j :| 0 <= j < |blocks| && blocks[j].id == t.blockId;
      if j < i {
        assert blocks'[j] == blocks[j];
      } else {
        assert blocks'[j - 1] == blocks[j];
      }
    }
  }

  /** The reset `reset_block_tasks` applies to a completed task. */
  function Reset(t: Task): Task {
    t.(completed := false, completedAt := None, actualMinutes := None)
  }

  function ResetStep(t: Task, b: Id): Task {
    if t.blockId == b && t.completed then Reset(t) else t
  }

  /** `reset_block_tasks` on every row: completed tasks of block `b` are reset, the rest kept. */
  function ResetInBlock(ts: seq<Task>, b: Id): seq<Task> {
    seq(|ts|, i requires 0 <= i < |ts| => ResetStep(ts[i], b))
  }

  /**
    After a reset no task of the block is complete, each completed one lost its
    completion time and actual minutes and kept everything else, the incomplete
    ones are as they were, and no other block's task moved.
   */
  lemma ResetInBlockEffect(ts: seq<Task>, b: Id)
    requires AllStored(ts)
    ensures AllStored(ResetInBlock(ts, b))
    ensures |ResetInBlock(ts, b)| == |ts|
    ensures forall i :: 0 <= i < |ts| && ts[i].blockId == b ==>
      !ResetInBlock(ts, b)[i].completed && ResetInBlock(ts, b)[i].completedAt.None?
    ensures forall i :: 0 <= i < |ts| && ts[i].blockId == b && ts[i].completed ==>
      ResetInBlock(ts, b)[i] == ts[i].(completed := false, completedAt := None, actualMinutes := None)
    ensures forall i :: 0 <= i < |ts| && !(ts[i].blockId == b && ts[i].completed) ==> ResetInBlock(ts, b)[i] == ts[i]
    ensures CountCompleted(InBlock(ResetInBlock(ts, b), b)) == 0
  {
    var r := ResetInBlock(ts, b);
    InBlockMembers(r, b);
    forall t | t in InBlock(r, b) ensures !t.completed {
      var k :| 0 <= k < |r| && r[k] == t;
    }
    var inb := InBlock(r, b);
    if |inb| > 0 {
      assert inb[0] in inb;
    }
    ZeroCount(inb);
  }

  lemma ZeroCount(ts: seq<Task>)
    requires forall t :: t in ts ==> !t.completed
    ensures CountCompleted(ts) == 0
  {
    if |ts| > 0 {
      assert ts == ts[..|ts| - 1] + [ts[|ts| - 1]];
      CountsSnoc(ts[..|ts| - 1], ts[|ts| - 1]);
      ZeroCount(ts[..|ts| - 1]);
    }
  }

  /** The loop of `reset_block_tasks` over the rows: reset each completed task of block `b`, counting them. */
  method ResetLoop(tasks0: seq<Task>, b: Id) returns (tasks: seq<Task>, count: nat)
    ensures tasks == ResetInBlock(tasks0, b)
    ensures count == CountCompleted(InBlock(tasks0, b))
  {
    tasks := tasks0;
    count := 0;
    var i := 0;
    while i < |tasks|
      invariant 0 <= i <= |tasks| == |tasks0|
      invariant forall k :: 0 <= k < i ==> tasks[k] == ResetStep(tasks0[k], b)
      invariant forall k :: i <= k < |tasks| ==> tasks[k] == tasks0[k]
      invariant count == CompletedIn(tasks0[..i], b)
    {
      assert tasks0[..i + 1][..i] == tasks0[..i];
      var t := tasks[i];
      if t.blockId == b && t.completed {
        tasks := tasks[i := Reset(t)];
        count := count + 1;
      }
      i := i + 1;
    }
    assert tasks0[..i] == tasks0;
    CountsOverTable(tasks0, b);
  }

  /**
    `reset_block_tasks`: none for an unknown block; otherwise every completed task
    of the block is reset, and the count returned is the number reset.
   */
  method ResetBlockTasks(db: Db, id: Id) returns (r: Option<nat>)
    requires db.Valid()
    modifies db
    ensures db.Valid()
    ensures r.None? <==> Find(old(db.blocks), BlockKey, id).None?
    ensures r.None? ==> unchanged(db)
    ensures r.Some? ==> db.tasks == ResetInBlock(old(db.tasks), id)
    ensures r.Some? ==> r.value == CountCompleted(InBlock(old(db.tasks), id))
    ensures db.categories == old(db.categories) && db.blocks == old(db.blocks) && db.nextId == old(db.nextId)
  {
    var block := Find(db.blocks, BlockKey, id);
    if block.None? {
      return None;
    }
    ghost var tasks0 := db.tasks;
    var tasks, count := ResetLoop(db.tasks, id);
    ResetInBlockEffect(tasks0, id);
    RewriteTasks(db.categories, db.blocks, tasks0, tasks, db.nextId);
    db.tasks := tasks;
    return Some(count);
  }

  /** `move_block_to_end`: the block takes the cyclic end-of-queue number, in 1..15. */
  method MoveBlockToEnd(db: Db, id: Id) returns (r: Option<Block>)
    requires db.Valid()
    modifies db
    ensures db.Valid()
    ensures r.None? <==> Find(old(db.blocks), BlockKey, id).None?
    ensures r.None? ==> unchanged(db)
    ensures r.Some? ==>
      var i := Find(old(db.blocks), BlockKey, id).value;
      && r.value == old(db.blocks)[i].(blockNumber := EndOfQueueNumber(old(db.blocks)))
      && db.blocks == old(db.blocks)[i := r.value]
    ensures r.Some? ==> 1 <= r.value.blockNumber <= QueueLength
    ensures db.categories == old(db.categories) && db.tasks == old(db.tasks) && db.nextId == old(db.nextId)
  {
    var found := Find(db.blocks, BlockKey, id);
    if found.None? {
      return None;
    }
    var i := found.value;
    var maxNumber := Max(BlockNumbers(db.blocks));
    var number: int;
    if maxNumber.Some? {
      number := maxNumber.value % QueueLength + 1;
    } else {
      number := 1;
    }
    var b := db.blocks[i].(blockNumber := number);
    RewriteBlocks(db.categories, db.blocks, db.blocks[i := b], db.tasks, db.nextId);
    db.blocks := db.blocks[i := b];
    return Some(b);
  }

  /** Step 1 of the cycle on one task: an open task is completed now, its actual time defaulting to the estimate. */
  function Finish(t: Task, now: Time): Task {
    t.(completed := true,
       completedAt := Some(now),
       actualMinutes := if t.actualMinutes.None? then Some(t.estimatedMinutes) else t.actualMinutes)
  }

  function FinishStep(t: Task, b: Id, now: Time): Task {
    if t.blockId == b && !t.completed then Finish(t, now) else t
  }

  /** Step 1 of the cycle on every row: the open tasks of block `b` are finished. */
  function FinishOpen(ts: seq<Task>, b: Id, now: Time): seq<Task> {
    seq(|ts|, i requires 0 <= i < |ts| => FinishStep(ts[i], b, now))
  }

  lemma FinishOpenKeepsStore(ts: seq<Task>, b: Id, now: Time)
    requires AllStored(ts)
    ensures AllStored(FinishOpen(ts, b, now))
  {
  }

  /** After step 1 every task of the block is complete, so step 2 resets all of them. */
  lemma {:induction false} FinishOpenCompletesBlock(ts: seq<Task>, b: Id, now: Time)
    ensures CountCompleted(InBlock(FinishOpen(ts, b, now), b)) == |InBlock(ts, b)|
    ensures |InBlock(FinishOpen(ts, b, now), b)| == |InBlock(ts, b)|
  {
    if |ts| > 0 {
      var init, last := ts[..|ts| - 1], ts[|ts| - 1];
      var f := FinishOpen(ts, b, now);
      assert ts == init + [last];
      assert f == FinishOpen(init, b, now) + [f[|ts| - 1]];
      FinishOpenCompletesBlock(init, b, now);
      var fi, fl := FinishOpen(init, b, now), f[|ts| - 1];
      InBlockSnoc(init, last, b);
      InBlockSnoc(fi, fl, b);
      if last.blockId == b {
        assert InBlock(ts, b) == InBlock(init, b) + [last];
        assert InBlock(f, b) == InBlock(fi, b) + [fl];
        CountsSnoc(InBlock(fi, b), fl);
      } else {
        assert InBlock(ts, b) == InBlock(init, b);
        assert InBlock(f, b) == InBlock(fi, b);
      }
    }
  }

  /**
    The whole cycle on one block: every task of the block ends incomplete, with
    neither completion time nor actual time, all its other fields kept; tasks of
    other blocks are untouched.
   */
  lemma CycleEffect(ts: seq<Task>, b: Id, now: Time)
    ensures |ResetInBlock(FinishOpen(ts, b, now), b)| == |ts|
    ensures forall i :: 0 <= i < |ts| && ts[i].blockId == b ==>
      ResetInBlock(FinishOpen(ts, b, now), b)[i] == Reset(ts[i])
    ensures forall i :: 0 <= i < |ts| && ts[i].blockId != b ==>
      ResetInBlock(FinishOpen(ts, b, now), b)[i] == ts[i]
  {
  }

  /**
    Step 1 of `complete_and_reset_block` over the rows: finish each open task of
    block `b`, counting them.
   */
  method FinishLoop(tasks0: seq<Task>, b: Id, now: Time) returns (tasks: seq<Task>, incomplete: nat)
    ensures tasks == FinishOpen(tasks0, b, now)
    ensures incomplete == CountIncomplete(InBlock(tasks0, b))
  {
    tasks := tasks0;
    incomplete := 0;
    var i := 0;
    while i < |tasks|
      invariant 0 <= i <= |tasks| == |tasks0|
      invariant forall k :: 0 <= k < i ==> tasks[k] == FinishStep(tasks0[k], b, now)
      invariant forall k :: i <= k < |tasks| ==> tasks[k] == tasks0[k]
      invariant incomplete == OpenIn(tasks0[..i], b)
    {
      assert tasks0[..i + 1][..i] == tasks0[..i];
      var t := tasks[i];
      if t.blockId == b && !t.completed {
        tasks := tasks[i := Finish(t, now)];
        incomplete := incomplete + 1;
      }
      i := i + 1;
    }
    assert tasks0[..i] == tasks0;
    CountsOverTable(tasks0, b);
  }

  /** The report of `complete_and_reset_block`. */
  datatype CycleReport = CycleReport(
    blockId: Id,
    blockTitle: string,
    tasksCompleted: nat,
    tasksReset: nat,
    newBlockNumber: int,
    movedToEnd: bool)

  /**
    `complete_and_reset_block`: complete the block's open tasks, reset all of its
    tasks, and requeue the block when asked.
   */
  method CompleteAndResetBlock(db: Db, id: Id, moveToEnd: bool, now: Time) returns (r: Option<CycleReport>)
    requires db.Valid()
    modifies db
    ensures db.Valid()
    ensures r.None? <==> Find(old(db.blocks), BlockKey, id).None?
    ensures r.None? ==> unchanged(db)
    ensures r.Some? ==> db.tasks == ResetInBlock(FinishOpen(old(db.tasks), id, now), id)
    ensures r.Some? ==> |db.tasks| == |old(db.tasks)|
    ensures r.Some? ==> forall i :: 0 <= i < |db.tasks| && old(db.tasks)[i].blockId == id ==>
      db.tasks[i] == Reset(old(db.tasks)[i])
    ensures r.Some? ==> forall i :: 0 <= i < |db.tasks| && old(db.tasks)[i].blockId != id ==>
      db.tasks[i] == old(db.tasks)[i]
    ensures r.Some? ==> r.value.tasksCompleted == CountIncomplete(InBlock(old(db.tasks), id))
    ensures r.Some? ==> r.value.tasksReset == |InBlock(old(db.tasks), id)|
    ensures r.Some? ==>
      var i := Find(old(db.blocks), BlockKey, id).value;
      && r.value.blockId == id
      && r.value.blockTitle == old(db.blocks)[i].title
      && r.value.movedToEnd == moveToEnd
      && (moveToEnd ==> db.blocks == old(db.blocks)[i := old(db.blocks)[i].(blockNumber := EndOfQueueNumber(old(db.blocks)))])
      && (!moveToEnd ==> db.blocks == old(db.blocks))
      && r.value.newBlockNumber == db.blocks[i].blockNumber
    ensures db.categories == old(db.categories) && db.nextId == old(db.nextId)
  {
    var found := Find(db.blocks, BlockKey, id);
    if found.None? {
      return None;
    }
    var block := db.blocks[found.value];
    ghost var tasks0 := db.tasks;
    var tasks, incomplete := FinishLoop(db.tasks, id, now);
    FinishOpenKeepsStore(tasks0, id, now);
    RewriteTasks(db.categories, db.blocks, tasks0, tasks, db.nextId);
    db.tasks := tasks;

    var resetCount := ResetBlockTasks(db, id);
    FinishOpenCompletesBlock(tasks0, id, now);
    CycleEffect(tasks0, id, now);

    if moveToEnd {
      var moved := MoveBlockToEnd(db, id);
      block := moved.value;
    }
    return Some(CycleReport(id, block.title, incomplete, resetCount.value, block.blockNumber, moveToEnd));
  }

  /** The copy `clone_block` makes of a task: same fields, new id and block, starting fresh. */
  function CopyOf(t: Task, id: Id, blockId: Id): Task {
    NewTask(id, blockId, t.categoryId, t.title, t.description, t.estimatedMinutes, t.position)
  }

  /**
    The copies of `src`, in order, numbered from `firstId`: each keeps its source's
    title, description, category, estimate and position, belongs to `blockId`,
    and is incomplete, with no completion time and no actual time.
   */
  function Copies(src: seq<Task>, firstId: Id, blockId: Id): (c: seq<Task>)
    ensures |c| == |src|
    ensures forall k :: 0 <= k < |src| ==>
      && c[k].id == firstId + k && c[k].blockId == blockId
      && c[k].categoryId == src[k].categoryId && c[k].title == src[k].title
      && c[k].description == src[k].description
      && c[k].estimatedMinutes == src[k].estimatedMinutes && c[k].position == src[k].position
      && !c[k].completed && c[k].completedAt.None? && c[k].actualMinutes.None?
  {
    if |src| == 0 then []
    else
      var init := src[..|src| - 1];
      assert forall k :: 0 <= k < |init| ==> init[k] == src[k];
      Copies(init, firstId, blockId) + [CopyOf(src[|src| - 1], firstId + |src| - 1, blockId)]
  }

  /** The task-copy loop of `clone_block`: add a fresh copy of each source task to block `blockId`. */
  method InsertCopies(db: Db, sources: seq<Task>, blockId: Id)
    requires db.Valid()
    requires forall k :: 0 <= k < |sources| ==> Stored(sources[k])
    modifies db
    ensures db.Valid()
    ensures db.tasks == old(db.tasks) + Copies(sources, old(db.nextId), blockId)
    ensures db.nextId == old(db.nextId) + |sources|
    ensures db.blocks == old(db.blocks) && db.categories == old(db.categories)
  {
    var k := 0;
    while k < |sources|
      invariant 0 <= k <= |sources|
      invariant db.tasks == old(db.tasks) + Copies(sources[..k], old(db.nextId), blockId)
      invariant db.nextId == old(db.nextId) + k
      invariant db.blocks == old(db.blocks) && db.categories == old(db.categories)
      invariant db.Valid()
    {
      var t := CopyOf(sources[k], db.nextId, blockId);
      InsertTask(db.categories, db.blocks, db.tasks, db.nextId, t);
      assert sources[..k + 1][..k] == sources[..k];
      db.tasks := db.tasks + [t];
      db.nextId := db.nextId + 1;
      k := k + 1;
    }
    assert sources[..k] == sources;
  }

  lemma BlockTasksStored(ts: seq<Task>, b: Id)
    requires AllStored(ts)
    ensures forall k :: 0 <= k < |TasksByPosition(ts, b)| ==> Stored(TasksByPosition(ts, b)[k])
  {
    var sources := TasksByPosition(ts, b);
    InBlockMembers(ts, b);
    forall k | 0 <= k < |sources| ensures Stored(sources[k]) {
      assert sources[k] in multiset(InBlock(ts, b));
    }
  }

  /** The block row `clone_block` adds: the copy's title, the next number, the source's other fields. */
  method InsertBlockCopy(db: Db, source: Block) returns (copy: Block)
    requires db.Valid()
    modifies db
    ensures db.Valid()
    ensures copy == Block(
      old(db.nextId), source.title + " (Copy)", source.description,
      NextBlockNumber(old(db.blocks)), source.dayNumber, source.categoryId)
    ensures db.blocks == old(db.blocks) + [copy] && db.nextId == old(db.nextId) + 1
    ensures Find(old(db.blocks), BlockKey, copy.id).None?
    ensures db.tasks == old(db.tasks) && db.categories == old(db.categories)
  {
    var maxNumber := Max(BlockNumbers(db.blocks));
    var number: int;
    if maxNumber.Some? {
      number := maxNumber.value + 1;
    } else {
      number := 1;
    }
    copy := Block(db.nextId, source.title + " (Copy)", source.description, number, source.dayNumber, source.categoryId);
    InsertBlock(db.categories, db.blocks, db.tasks, db.nextId, copy);
    db.blocks := db.blocks + [copy];
    db.nextId := db.nextId + 1;
  }

  /** The task half of `clone_block`: fresh copies of block `sourceId`'s tasks, by position, in block `copyId`. */
  method CopyBlockTasks(db: Db, sourceId: Id, copyId: Id)
    requires db.Valid()
    modifies db
    ensures db.Valid()
    ensures db.tasks == old(db.tasks) + Copies(TasksByPosition(old(db.tasks), sourceId), old(db.nextId), copyId)
    ensures db.blocks == old(db.blocks) && db.categories == old(db.categories)
  {
    var sources := TasksByPosition(db.tasks, sourceId);
    BlockTasksStored(db.tasks, sourceId);
    InsertCopies(db, sources, copyId);
  }

  /**
    `clone_block`: a new block titled "<title> (Copy)" with the next block number,
    the source's description, day and category; with `copyTasks`, one fresh copy
    of each source task, in position order. The source is left as it was.
   */
  method CloneBlock(db: Db, id: Id, copyTasks: bool) returns (r: Option<Block>)
    requires db.Valid()
    modifies db
    ensures db.Valid()
    ensures r.None? <==> Find(old(db.blocks), BlockKey, id).None?
    ensures r.None? ==> unchanged(db)
    ensures r.Some? ==>
      var source := old(db.blocks)[Find(old(db.blocks), BlockKey, id).value];
      && r.value == Block(
        r.value.id, source.title + " (Copy)", source.description,
        NextBlockNumber(old(db.blocks)), source.dayNumber, source.categoryId)
      && db.blocks == old(db.blocks) + [r.value]
    ensures r.Some? && copyTasks ==>
      db.tasks == old(db.tasks) + Copies(TasksByPosition(old(db.tasks), id), r.value.id + 1, r.value.id)
    ensures r.Some? && !copyTasks ==> db.tasks == old(db.tasks)
    ensures r.Some? ==> Find(old(db.blocks), BlockKey, r.value.id).None?
    ensures db.categories == old(db.categories)
  {
    var found := Find(db.blocks, BlockKey, id);
    if found.None? {
      return None;
    }
    var copy := InsertBlockCopy(db, db.blocks[found.value]);
    if copyTasks {
      CopyBlockTasks(db, id, copy.id);
    }
    return Some(copy);
  }

  /** One entry of `reorder_blocks`' list; `None` stands for a missing key. */
  datatype BlockOrder = BlockOrder(blockId: Option<Id>, blockNumber: Option<int>)

  /** The loop body of `reorder_blocks`: incomplete entries and unknown ids are skipped. */
  function Renumber(bs: seq<Block>, o: BlockOrder): seq<Block> {
    if o.blockId.None? || o.blockNumber.None? then bs
    else
      match Find(bs, BlockKey, o.blockId.value)
      case None => bs
      case Some(i) => bs[i := bs[i].(blockNumber := o.blockNumber.value)]
  }

  function RenumberAll(bs: seq<Block>, orders: seq<BlockOrder>): seq<Block> {
    if |orders| == 0 then bs
    else Renumber(RenumberAll(bs, orders[..|orders| - 1]), orders[|orders| - 1])
  }

  /** The number the last complete entry for block `id` asks for, if any. */
  function LastNumberFor(orders: seq<BlockOrder>, id: Id): Option<int> {
    if |orders| == 0 then None
    else
      var o := orders[|orders| - 1];
      if o.blockId == Some(id) && o.blockNumber.Some? then o.blockNumber
      else LastNumberFor(orders[..|orders| - 1], id)
  }

  /**
    Reordering renumbers each block to the number of the last complete entry
    naming it, keeps every other block, and moves no row.
   */
  lemma {:induction false} RenumberAllEffect(bs: seq<Block>, orders: seq<BlockOrder>)
    requires UniqueKeys(bs, BlockKey)
    ensures |RenumberAll(bs, orders)| == |bs|
    ensures forall i :: 0 <= i < |bs| ==>
      RenumberAll(bs, orders)[i] == bs[i].(blockNumber := LastNumberFor(orders, bs[i].id).GetOr(bs[i].blockNumber))
  {
    if |orders| > 0 {
      var init, o := orders[..|orders| - 1], orders[|orders| - 1];
      RenumberAllEffect(bs, init);
      var prev := RenumberAll(bs, init);
      SameKeys(bs, prev, BlockKey);
      if o.blockId.Some? && o.blockNumber.Some? {
        match Find(prev, BlockKey, o.blockId.value)
        case None =>
        case Some(j) =>
      }
    }
  }

  /** `reorder_blocks`: renumber the listed blocks; it always reports success. */
  method ReorderBlocks(db: Db, orders: seq<BlockOrder>) returns (ok: bool)
    requires db.Valid()
    modifies db
    ensures db.Valid()
    ensures ok
    ensures db.blocks == RenumberAll(old(db.blocks), orders)
    ensures |db.blocks| == |old(db.blocks)|
    ensures forall i :: 0 <= i < |db.blocks| ==>
      db.blocks[i] == old(db.blocks)[i].(blockNumber := LastNumberFor(orders, old(db.blocks)[i].id).GetOr(old(db.blocks)[i].blockNumber))
    ensures db.categories == old(db.categories) && db.tasks == old(db.tasks) && db.nextId == old(db.nextId)
  {
    ghost var blocks0 := db.blocks;
    for k := 0 to |orders|
      invariant db.blocks == RenumberAll(blocks0, orders[..k])
      invariant db.categories == old(db.categories) && db.tasks == old(db.tasks) && db.nextId == old(db.nextId)
    {
      assert orders[..k + 1][..k] == orders[..k];
      var item := orders[k];
      if item.blockId.None? || item.blockNumber.None? {
        continue;
      }
      var found := Find(db.blocks, BlockKey, item.blockId.value);
      if found.Some? {
        var i := found.value;
        db.blocks := db.blocks[i := db.blocks[i].(blockNumber := item.blockNumber.value)];
      }
    }
    assert orders[..|orders|] == orders;
    RenumberAllEffect(blocks0, orders);
    RewriteBlocks(db.categories, blocks0, db.blocks, db.tasks, db.nextId);
    return true;
  }
}
