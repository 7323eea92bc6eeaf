/**
  The write side of the task service: creating, updating and deleting tasks, the
  completion transitions, and the bulk and reorder loops.
 */
module TaskService {
  import opened Wrappers
  import opened Models
  import opened Seqs
  import opened Database
  import opened Aggregates
  import opened TaskSchema
  import opened TaskQueries

  /**
    `create_task`: none when the block is missing or the category decision
    refuses; otherwise a new incomplete task with the resolved category and
    position is added.
   */
  method CreateTask(db: Db, tc: TaskCreate) returns (r: Option<Task>)
    requires db.Valid() && ValidTaskCreate(tc)
    modifies db
    ensures db.Valid()
    ensures Find(old(db.blocks), BlockKey, tc.blockId).None? ==> r.None?
    ensures r.None? ==> unchanged(db)
    ensures Find(old(db.blocks), BlockKey, tc.blockId).Some? ==>
      var block := old(db.blocks)[Find(old(db.blocks), BlockKey, tc.blockId).value];
      var category := ResolveCategory(block, tc.categoryId, old(db.categories));
      && (r.None? <==> category.None?)
      && (r.Some? ==> r.value == NewTask(
            r.value.id, tc.blockId, category.value, tc.title, tc.description, tc.estimatedMinutes,
            NextPosition(old(db.tasks), tc.blockId, tc.position)))
    ensures r.Some? ==> Find(old(db.tasks), TaskKey, r.value.id).None?
    ensures r.Some? ==> db.tasks == old(db.tasks) + [r.value]
    ensures db.categories == old(db.categories) && db.blocks == old(db.blocks)
  {
    var found := Find(db.blocks, BlockKey, tc.blockId);
    if found.None? {
      return None;
    }
    var block := db.blocks[found.value];
    var categoryId: Id;
    if tc.categoryId.Some? {
      categoryId := tc.categoryId.value;
      var category := Find(db.categories, CategoryKey, categoryId);
      if category.None? {
        return None;
      }
      if block.categoryId.Some? && block.categoryId.value != categoryId {
        return None;
      }
    } else {
      if block.categoryId.None? {
        return None;
      }
      categoryId := block.categoryId.value;
    }
    var position: int;
    if tc.position == 0 {
      var maxPosition := Max(Positions(InBlock(db.tasks, tc.blockId)));
      position := if maxPosition.Some? then maxPosition.value + 1 else 0;
    } else {
      position := tc.position;
    }
    var t := NewTask(db.nextId, tc.blockId, categoryId, tc.title, tc.description, tc.estimatedMinutes, position);
    InsertTask(db.categories, db.blocks, db.tasks, db.nextId, t);
    db.tasks := db.tasks + [t];
    db.nextId := db.nextId + 1;
    return Some(t);
  }

  /** A task created in an existing block keeps every task owned by an existing block. */
  lemma CreateTaskKeepsOwned(blocks: seq<Block>, tasks: seq<Task>, t: Task)
    requires Owned(blocks, tasks) && Find(blocks, BlockKey, t.blockId).Some?
    ensures Owned(blocks, tasks + [t])
  {
  }

  function ApplyTaskPatch(t: Task, p: TaskPatch): Task {
    match p
    case SetBlockId(v) => t.(blockId := v)
    case SetCategoryId(v) => t.(categoryId := v)
    case SetTitle(v) => t.(title := v)
    case SetDescription(v) => t.(description := Some(v))
    case SetEstimatedMinutes(v) => t.(estimatedMinutes := v)
    case SetActualMinutes(v) => t.(actualMinutes := Some(v))
    case SetCompleted(v) => t.(completed := v)
    case SetPosition(v) => t.(position := v)
  }

  /** The `setattr` loop, one patch after another. */
  function ApplyTaskPatches(t: Task, ps: seq<TaskPatch>): Task {
    if |ps| == 0 then t else ApplyTaskPatch(ApplyTaskPatches(t, ps[..|ps| - 1]), ps[|ps| - 1])
  }

  /** What a partial update means: each supplied field replaced, every other field kept. */
  function MergeTask(t: Task, u: TaskUpdate): Task {
    Task(
      t.id,
      u.blockId.GetOr(t.blockId),
      u.categoryId.GetOr(t.categoryId),
      u.title.GetOr(t.title),
      if u.description.Some? then u.description else t.description,
      u.estimatedMinutes.GetOr(t.estimatedMinutes),
      if u.actualMinutes.Some? then u.actualMinutes else t.actualMinutes,
      u.completed.GetOr(t.completed),
      u.position.GetOr(t.position),
      t.completedAt)
  }

  lemma {:induction false} ApplyTaskPatchesAppend(t: Task, ps: seq<TaskPatch>, qs: seq<TaskPatch>)
    ensures ApplyTaskPatches(t, ps + qs) == ApplyTaskPatches(ApplyTaskPatches(t, ps), qs)
    decreases |qs|
  {
    if |qs| == 0 {
      assert ps + qs == ps;
    } else {
      assert (ps + qs)[..|ps + qs| - 1] == ps + qs[..|qs| - 1];
      ApplyTaskPatchesAppend(t, ps, qs[..|qs| - 1]);
    }
  }

  /** Appending at most one patch applies it after the others. */
  lemma ApplyMaybePatch(t: Task, ps: seq<TaskPatch>, p: seq<TaskPatch>)
    requires |p| <= 1
    ensures ApplyTaskPatches(t, ps + p) ==
      if |p| == 0 then ApplyTaskPatches(t, ps) else ApplyTaskPatch(ApplyTaskPatches(t, ps), p[0])
  {
    if |p| == 0 {
      assert ps + p == ps;
    } else {
      assert (ps + p)[..|ps + p| - 1] == ps;
    }
  }

  lemma IdPatchesMerge(t: Task, u: TaskUpdate)
    ensures ApplyTaskPatches(t, IdPatches(u)) ==
      t.(blockId := u.blockId.GetOr(t.blockId), categoryId := u.categoryId.GetOr(t.categoryId))
  {
    var p1 := (if u.blockId.Some? then [SetBlockId(u.blockId.value)] else []);
    var p2 := (if u.categoryId.Some? then [SetCategoryId(u.categoryId.value)] else []);
    assert ApplyTaskPatches(t, p1) == t.(blockId := u.blockId.GetOr(t.blockId)) by {
      ApplyMaybePatch(t, [], p1);
      assert [] + p1 == p1;
    }
    ApplyMaybePatch(t, p1, p2);
  }

  lemma TextPatchesMerge(t: Task, u: TaskUpdate)
    ensures ApplyTaskPatches(t, TextPatches(u)) ==
      t.(title := u.title.GetOr(t.title), description := if u.description.Some? then u.description else t.description)
  {
    var p3 := (if u.title.Some? then [SetTitle(u.title.value)] else []);
    var p4 := (if u.description.Some? then [SetDescription(u.description.value)] else []);
    assert ApplyTaskPatches(t, p3) == t.(title := u.title.GetOr(t.title)) by {
      ApplyMaybePatch(t, [], p3);
      assert [] + p3 == p3;
    }
    ApplyMaybePatch(t, p3, p4);
  }

  lemma MinutesPatchesMerge(t: Task, u: TaskUpdate)
    ensures ApplyTaskPatches(t, MinutesPatches(u)) ==
      t.(estimatedMinutes := u.estimatedMinutes.GetOr(t.estimatedMinutes),
         actualMinutes := if u.actualMinutes.Some? then u.actualMinutes else t.actualMinutes)
  {
    var p5 := (if u.estimatedMinutes.Some? then [SetEstimatedMinutes(u.estimatedMinutes.value)] else []);
    var p6 := (if u.actualMinutes.Some? then [SetActualMinutes(u.actualMinutes.value)] else []);
    assert ApplyTaskPatches(t, p5) == t.(estimatedMinutes := u.estimatedMinutes.GetOr(t.estimatedMinutes)) by {
      ApplyMaybePatch(t, [], p5);
      assert [] + p5 == p5;
    }
    ApplyMaybePatch(t, p5, p6);
  }

  lemma StatusPatchesMerge(t: Task, u: TaskUpdate)
    ensures ApplyTaskPatches(t, StatusPatches(u)) ==
      t.(completed := u.completed.GetOr(t.completed), position := u.position.GetOr(t.position))
  {
    var p7 := (if u.completed.Some? then [SetCompleted(u.completed.value)] else []);
    var p8 := (if u.position.Some? then [SetPosition(u.position.value)] else []);
    assert ApplyTaskPatches(t, p7) == t.(completed := u.completed.GetOr(t.completed)) by {
      ApplyMaybePatch(t, [], p7);
      assert [] + p7 == p7;
    }
    ApplyMaybePatch(t, p7, p8);
  }

  /** Applying the supplied fields in order is the field-wise merge. */
  lemma {:induction false} UpdateTaskMerges(t: Task, u: TaskUpdate)
    ensures ApplyTaskPatches(t, UpdateData(u)) == MergeTask(t, u)
  {
    var a, b, c, d := IdPatches(u), TextPatches(u), MinutesPatches(u), StatusPatches(u);
    ApplyTaskPatchesAppend(t, a + b + c, d);
    ApplyTaskPatchesAppend(t, a + b, c);
    ApplyTaskPatchesAppend(t, a, b);
    var t1 := ApplyTaskPatches(t, a);
    var t2 := ApplyTaskPatches(t1, b);
    var t3 := ApplyTaskPatches(t2, c);
    IdPatchesMerge(t, u);
    TextPatchesMerge(t1, u);
    MinutesPatchesMerge(t2, u);
    StatusPatchesMerge(t3, u);
  }

  /**
    The completion time after an update: stamped on a change from incomplete to
    complete, cleared on a change from complete to incomplete, otherwise kept.
   */
  function CompletedAtAfter(t: Task, u: TaskUpdate, now: Time): Option<Time> {
    if u.completed == Some(true) && !t.completed then Some(now)
    else if u.completed == Some(false) && t.completed then None
    else t.completedAt
  }

  /** The row `update_task` leaves. */
  function UpdatedTask(t: Task, u: TaskUpdate, now: Time): Task {
    MergeTask(t.(completedAt := CompletedAtAfter(t, u, now)), u)
  }

  /**
    An accepted update keeps a stored task stored, stamps the completion time
    only on a false-to-true change and clears it only on a true-to-false change.
   */
  lemma UpdateTransitions(t: Task, u: TaskUpdate, now: Time)
    requires Stored(t) && ValidTaskUpdate(u)
    ensures Stored(UpdatedTask(t, u, now))
    ensures UpdatedTask(t, u, now).id == t.id
    ensures UpdatedTask(t, u, now).completedAt != t.completedAt ==>
      (UpdatedTask(t, u, now).completedAt == Some(now) && !t.completed && u.completed == Some(true))
      || (UpdatedTask(t, u, now).completedAt.None? && t.completed && u.completed == Some(false))
    ensures u.completed.None? ==> UpdatedTask(t, u, now).completed == t.completed
  {
  }

  /** The `setattr` loop over the supplied fields. */
  method SetAttributes(t0: Task, patches: seq<TaskPatch>) returns (t: Task)
    ensures t == ApplyTaskPatches(t0, patches)
  {
    t := t0;
    for k := 0 to |patches|
      invariant t == ApplyTaskPatches(t0, patches[..k])
    {
      assert patches[..k + 1][..k] == patches[..k];
      t := ApplyTaskPatch(t, patches[k]);
    }
    assert patches[..|patches|] == patches;
  }

  /** The row half of `update_task`: the completion bookkeeping, then the `setattr` loop. */
  method UpdateRow(t0: Task, u: TaskUpdate, now: Time) returns (t: Task)
    ensures t == UpdatedTask(t0, u, now)
  {
    t := t0;
    if u.completed.Some? {
      if u.completed.value && !t.completed {
        t := t.(completedAt := Some(now));
      } else if !u.completed.value && t.completed {
        t := t.(completedAt := None);
      }
    }
    assert t == t0.(completedAt := CompletedAtAfter(t0, u, now));
    t := SetAttributes(t, UpdateData(u));
    UpdateTaskMerges(t0.(completedAt := CompletedAtAfter(t0, u, now)), u);
  }

  /** `update_task`: none for an unknown id; otherwise the supplied fields and the completion bookkeeping. */
  method UpdateTask(db: Db, id: Id, u: TaskUpdate, now: Time) returns (r: Option<Task>)
    requires db.Valid() && ValidTaskUpdate(u)
    modifies db
    ensures db.Valid()
    ensures r.None? <==> Find(old(db.tasks), TaskKey, id).None?
    ensures r.None? ==> unchanged(db)
    ensures r.Some? ==>
      var i := Find(old(db.tasks), TaskKey, id).value;
      r.value == UpdatedTask(old(db.tasks)[i], u, now) && db.tasks == old(db.tasks)[i := r.value]
    ensures db.categories == old(db.categories) && db.blocks == old(db.blocks) && db.nextId == old(db.nextId)
  {
    var found := Find(db.tasks, TaskKey, id);
    if found.None? {
      return None;
    }
    var i := found.value;
    var t := UpdateRow(db.tasks[i], u, now);
    UpdateTransitions(db.tasks[i], u, now);
    RewriteTasks(db.categories, db.blocks, db.tasks, db.tasks[i := t], db.nextId);
    db.tasks := db.tasks[i := t];
    return Some(t);
  }

  /** `delete_task`: false for an unknown id; otherwise exactly that row goes. */
  method DeleteTask(db: Db, id: Id) returns (deleted: bool)
    requires db.Valid()
    modifies db
    ensures db.Valid()
    ensures deleted <==> Find(old(db.tasks), TaskKey, id).Some?
    ensures !deleted ==> unchanged(db)
    ensures deleted ==>
      var i := Find(old(db.tasks), TaskKey, id).value;
      db.tasks == old(db.tasks)[..i] + old(db.tasks)[i + 1..]
    ensures deleted ==> Find(db.tasks, TaskKey, id).None?
    ensures db.categories == old(db.categories) && db.blocks == old(db.blocks) && db.nextId == old(db.nextId)
  {
    var found := Find(db.tasks, TaskKey, id);
    if found.None? {
      return false;
    }
    var i := found.value;
    var tasks := db.tasks[..i] + db.tasks[i + 1..];
    RemoveKeepsKeys(db.tasks, TaskKey, db.nextId, i);
    forall k | 0 <= k < |tasks| ensures tasks[k].id != id && Stored(tasks[k]) {
      FindIsOnly(db.tasks, TaskKey, id, i);
      if k < i {
        assert tasks[k] == db.tasks[k];
      } else {
        assert tasks[k] == db.tasks[k + 1];
      }
    }
    db.tasks := tasks;
    return true;
  }

  /** `complete_task` on a row: complete now, with the actual time overwritten only when one is given. */
  function MarkComplete(t: Task, actualMinutes: Option<int>, now: Time): Task {
    t.(completed := true,
       completedAt := Some(now),
       actualMinutes := if actualMinutes.Some? then actualMinutes else t.actualMinutes)
  }

  /** `uncomplete_task` on a row: incomplete, no completion time, actual time kept. */
  function MarkIncomplete(t: Task): Task {
    t.(completed := false, completedAt := None)
  }

  /** Completing or uncompleting twice is completing or uncompleting once. */
  lemma MarksIdempotent(t: Task, now: Time)
    ensures MarkComplete(MarkComplete(t, None, now), None, now) == MarkComplete(t, None, now)
    ensures MarkIncomplete(MarkIncomplete(t)) == MarkIncomplete(t)
    ensures MarkIncomplete(MarkComplete(t, None, now)) == MarkIncomplete(t)
  {
  }

  /** Raised by the database when a row breaks a CHECK constraint at commit. */
  datatype StoreError = CheckConstraintFailed

  /**
    `complete_task`. The actual time reaches the row unvalidated; one outside
    0..10080 breaks the table's CHECK constraint, and the commit fails without
    changing anything.
   */
  method CompleteTask(db: Db, id: Id, actualMinutes: Option<int>, now: Time) returns (r: Result<Option<Task>, StoreError>)
    requires db.Valid()
    modifies db
    ensures db.Valid()
    ensures r.Success? && r.value.None? <==> Find(old(db.tasks), TaskKey, id).None?
    ensures r.Failure? <==>
      Find(old(db.tasks), TaskKey, id).Some? && actualMinutes.Some?
      && !(0 <= actualMinutes.value <= MaxActualMinutes)
    ensures !(r.Success? && r.value.Some?) ==> unchanged(db)
    ensures r.Success? && r.value.Some? ==>
      var i := Find(old(db.tasks), TaskKey, id).value;
      r.value.value == MarkComplete(old(db.tasks)[i], actualMinutes, now)
      && db.tasks == old(db.tasks)[i := r.value.value]
    ensures db.categories == old(db.categories) && db.blocks == old(db.blocks) && db.nextId == old(db.nextId)
  {
    var found := Find(db.tasks, TaskKey, id);
    if found.None? {
      return Success(None);
    }
    var i := found.value;
    var t := db.tasks[i];
    t := t.(completed := true, completedAt := Some(now));
    if actualMinutes.Some? {
      t := t.(actualMinutes := actualMinutes);
    }
    if !SatisfiesChecks(t) {
      return Failure(CheckConstraintFailed);
    }
    RewriteTasks(db.categories, db.blocks, db.tasks, db.tasks[i := t], db.nextId);
    db.tasks := db.tasks[i := t];
    return Success(Some(t));
  }

  /** `uncomplete_task`: none for an unknown id; otherwise the task is incomplete again. */
  method UncompleteTask(db: Db, id: Id) returns (r: Option<Task>)
    requires db.Valid()
    modifies db
    ensures db.Valid()
    ensures r.None? <==> Find(old(db.tasks), TaskKey, id).None?
    ensures r.None? ==> unchanged(db)
    ensures r.Some? ==>
      var i := Find(old(db.tasks), TaskKey, id).value;
      r.value == MarkIncomplete(old(db.tasks)[i]) && db.tasks == old(db.tasks)[i := r.value]
    ensures db.categories == old(db.categories) && db.blocks == old(db.blocks) && db.nextId == old(db.nextId)
  {
    var found := Find(db.tasks, TaskKey, id);
    if found.None? {
      return None;
    }
    var i := found.value;
    var t := db.tasks[i].(completed := false, completedAt := None);
    RewriteTasks(db.categories, db.blocks, db.tasks, db.tasks[i := t], db.nextId);
    db.tasks := db.tasks[i := t];
    return Some(t);
  }

  /** What the bulk operations do to each listed row. */
  datatype Mark = MarkDone(now: Time) | MarkOpen

  function ApplyMark(t: Task, m: Mark): Task {
    match m
    case MarkDone(now) => MarkComplete(t, None, now)
    case MarkOpen => MarkIncomplete(t)
  }

  /** One iteration of the bulk loops: the row with id `id`, if there is one, is marked. */
  function MarkOne(ts: seq<Task>, id: Id, m: Mark): seq<Task> {
    match Find(ts, TaskKey, id)
    case None => ts
    case Some(i) => ts[i := ApplyMark(ts[i], m)]
  }

  function MarkEach(ts: seq<Task>, ids: seq<Id>, m: Mark): seq<Task> {
    if |ids| == 0 then ts else MarkOne(MarkEach(ts, ids[..|ids| - 1], m), ids[|ids| - 1], m)
  }

  /**
    How many listed ids name a row: the count the bulk operations report,
    with a repeated id counted each time.
   */
  function CountKnown(ts: seq<Task>, ids: seq<Id>): (n: nat)
    ensures n <= |ids|
  {
    if |ids| == 0 then 0
    else CountKnown(ts, ids[..|ids| - 1]) + if Find(ts, TaskKey, ids[|ids| - 1]).Some? then 1 else 0
  }

  /** The count is the whole list exactly when every id is known, and zero exactly when none is. */
  lemma {:induction false} CountKnownExtremes(ts: seq<Task>, ids: seq<Id>)
    ensures CountKnown(ts, ids) == |ids| <==> forall k :: 0 <= k < |ids| ==> Find(ts, TaskKey, ids[k]).Some?
    ensures CountKnown(ts, ids) == 0 <==> forall k :: 0 <= k < |ids| ==> Find(ts, TaskKey, ids[k]).None?
  {
    if |ids| > 0 {
      var init := ids[..|ids| - 1];
      CountKnownExtremes(ts, init);
      assert forall k :: 0 <= k < |init| ==> init[k] == ids[k];
    }
  }

  /** Marking rows rewrites them in place: the same ids in the same order. */
  lemma {:induction false} MarkEachKeys(ts: seq<Task>, ids: seq<Id>, m: Mark)
    ensures |MarkEach(ts, ids, m)| == |ts|
    ensures forall i :: 0 <= i < |ts| ==> MarkEach(ts, ids, m)[i].id == ts[i].id
  {
    if |ids| > 0 {
      MarkEachKeys(ts, ids[..|ids| - 1], m);
    }
  }

  /**
    The bulk loops mark exactly the listed rows, each once however often it is
    listed, and leave every other row as it was.
   */
  lemma {:induction false} MarkEachEffect(ts: seq<Task>, ids: seq<Id>, m: Mark)
    requires UniqueKeys(ts, TaskKey)
    ensures |MarkEach(ts, ids, m)| == |ts|
    ensures forall i :: 0 <= i < |ts| ==>
      MarkEach(ts, ids, m)[i] == if ts[i].id in ids then ApplyMark(ts[i], m) else ts[i]
  {
    if |ids| > 0 {
      var init, id := ids[..|ids| - 1], ids[|ids| - 1];
      MarkEachEffect(ts, init, m);
      var prev := MarkEach(ts, init, m);
      MarkEachKeys(ts, init, m);
      SameKeys(ts, prev, TaskKey);
      assert ids == init + [id];
      forall i | 0 <= i < |ts|
        ensures MarkEach(ts, ids, m)[i] == if ts[i].id in ids then ApplyMark(ts[i], m) else ts[i]
      {
        match Find(prev, TaskKey, id)
        case None =>
        case Some(j) =>
          if i == j {
            MarksIdempotent(ts[i], if m.MarkDone? then m.now else 0);
          }
      }
    }
  }

  /** Marking keeps every row stored. */
  lemma MarkKeepsStored(t: Task, m: Mark)
    requires Stored(t)
    ensures Stored(ApplyMark(t, m)) && ApplyMark(t, m).id == t.id
  {
  }

  /** `bulk_complete_tasks`: completes each listed task, counting those that exist. */
  method BulkCompleteTasks(db: Db, ids: seq<Id>, now: Time) returns (count: nat)
    requires db.Valid()
    modifies db
    ensures db.Valid()
    ensures count == CountKnown(old(db.tasks), ids)
    ensures db.tasks == MarkEach(old(db.tasks), ids, MarkDone(now))
    ensures db.categories == old(db.categories) && db.blocks == old(db.blocks) && db.nextId == old(db.nextId)
  {
    ghost var tasks0 := db.tasks;
    count := 0;
    for k := 0 to |ids|
      invariant db.Valid()
      invariant db.tasks == MarkEach(tasks0, ids[..k], MarkDone(now))
      invariant count == CountKnown(tasks0, ids[..k])
      invariant db.categories == old(db.categories) && db.blocks == old(db.blocks) && db.nextId == old(db.nextId)
    {
      assert ids[..k + 1][..k] == ids[..k];
      assert CountKnown(tasks0, ids[..k + 1]) == CountKnown(tasks0, ids[..k]) + if Find(tasks0, TaskKey, ids[k]).Some? then 1 else 0;
      MarkEachKeys(tasks0, ids[..k], MarkDone(now));
      FindSameKeys(tasks0, db.tasks, TaskKey, ids[k]);
      ghost var before := db.tasks;
      var r := CompleteTask(db, ids[k], None, now);
      assert db.tasks == MarkOne(before, ids[k], MarkDone(now));
      assert (r.Success? && r.value.Some?) <==> Find(tasks0, TaskKey, ids[k]).Some?;
      if r.Success? && r.value.Some? {
        count := count + 1;
      }
    }
    assert ids[..|ids|] == ids;
  }

  /** `bulk_uncomplete_tasks`: uncompletes each listed task, counting those that exist. */
  method BulkUncompleteTasks(db: Db, ids: seq<Id>) returns (count: nat)
    requires db.Valid()
    modifies db
    ensures db.Valid()
    ensures count == CountKnown(old(db.tasks), ids)
    ensures db.tasks == MarkEach(old(db.tasks), ids, MarkOpen)
    ensures db.categories == old(db.categories) && db.blocks == old(db.blocks) && db.nextId == old(db.nextId)
  {
    ghost var tasks0 := db.tasks;
    count := 0;
    for k := 0 to |ids|
      invariant db.Valid()
      invariant db.tasks == MarkEach(tasks0, ids[..k], MarkOpen)
      invariant count == CountKnown(tasks0, ids[..k])
      invariant db.categories == old(db.categories) && db.blocks == old(db.blocks) && db.nextId == old(db.nextId)
    {
      assert ids[..k + 1][..k] == ids[..k];
      assert CountKnown(tasks0, ids[..k + 1]) == CountKnown(tasks0, ids[..k]) + if Find(tasks0, TaskKey, ids[k]).Some? then 1 else 0;
      MarkEachKeys(tasks0, ids[..k], MarkOpen);
      FindSameKeys(tasks0, db.tasks, TaskKey, ids[k]);
      ghost var before := db.tasks;
      var r := UncompleteTask(db, ids[k]);
      assert db.tasks == MarkOne(before, ids[k], MarkOpen);
      assert (r.Some?) <==> Find(tasks0, TaskKey, ids[k]).Some?;
      if r.Some? {
        count := count + 1;
      }
    }
    assert ids[..|ids|] == ids;
  }

  /** One entry of `reorder_tasks`' list; `None` stands for a missing key. */
  datatype TaskOrder = TaskOrder(taskId: Option<Id>, position: Option<int>)

  /** The loop body of `reorder_tasks`: incomplete entries and unknown ids are skipped. */
  function Reposition(ts: seq<Task>, o: TaskOrder): seq<Task> {
    if o.taskId.None? || o.position.None? then ts
    else
      match Find(ts, TaskKey, o.taskId.value)
      case None => ts
      case Some(i) => ts[i := ts[i].(position := o.position.value)]
  }

  function RepositionAll(ts: seq<Task>, orders: seq<TaskOrder>): seq<Task> {
    if |orders| == 0 then ts
    else Reposition(RepositionAll(ts, orders[..|orders| - 1]), orders[|orders| - 1])
  }

  /** The position the last complete entry for task `id` asks for, if any. */
  function LastPositionFor(orders: seq<TaskOrder>, id: Id): Option<int> {
    if |orders| == 0 then None
    else
      var o := orders[|orders| - 1];
      if o.taskId == Some(id) && o.position.Some? then o.position
      else LastPositionFor(orders[..|orders| - 1], id)
  }

  /**
    Reordering gives each task the position of the last complete entry naming
    it, keeps every other task, and changes no other field.
   */
  lemma {:induction false} RepositionAllEffect(ts: seq<Task>, orders: seq<TaskOrder>)
    requires UniqueKeys(ts, TaskKey)
    ensures |RepositionAll(ts, orders)| == |ts|
    ensures forall i :: 0 <= i < |ts| ==>
      RepositionAll(ts, orders)[i] == ts[i].(position := LastPositionFor(orders, ts[i].id).GetOr(ts[i].position))
  {
    if |orders| > 0 {
      var init, o := orders[..|orders| - 1], orders[|orders| - 1];
      RepositionAllEffect(ts, init);
      var prev := RepositionAll(ts, init);
      SameKeys(ts, prev, TaskKey);
      if o.taskId.Some? && o.position.Some? {
        match Find(prev, TaskKey, o.taskId.value)
        case None =>
        case Some(j) =>
      }
    }
  }

  /** `reorder_tasks`: repositions the listed tasks; no row breaks a constraint, so it reports success. */
  method ReorderTasks(db: Db, orders: seq<TaskOrder>) returns (ok: bool)
    requires db.Valid()
    modifies db
    ensures db.Valid()
    ensures ok
    ensures db.tasks == RepositionAll(old(db.tasks), orders)
    ensures |db.tasks| == |old(db.tasks)|
    ensures forall i :: 0 <= i < |db.tasks| ==>
      db.tasks[i] == old(db.tasks)[i].(position := LastPositionFor(orders, old(db.tasks)[i].id).GetOr(old(db.tasks)[i].position))
    ensures db.categories == old(db.categories) && db.blocks == old(db.blocks) && db.nextId == old(db.nextId)
  {
    ghost var tasks0 := db.tasks;
    var tasks := db.tasks;
    for k := 0 to |orders|
      invariant tasks == RepositionAll(tasks0, orders[..k])
    {
      assert orders[..k + 1][..k] == orders[..k];
      var item := orders[k];
      if item.taskId.None? || item.position.None? {
        continue;
      }
      var found := Find(tasks, TaskKey, item.taskId.value);
      if found.Some? {
        var i := found.value;
        tasks := tasks[i := tasks[i].(position := item.position.value)];
      }
    }
    assert orders[..|orders|] == orders;
    RepositionAllEffect(tasks0, orders);
    RewriteTasks(db.categories, db.blocks, tasks0, tasks, db.nextId);
    db.tasks := tasks;
    return true;
  }
}
