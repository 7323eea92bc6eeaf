/**
  The store the services share: the three tables as sequences of rows in insertion
  order, and the counter that stands in for the generation of fresh identifiers.
 */
module Database {
  import opened Wrappers
  import opened Models
  import opened Seqs
  import TaskSchema

  /**
    What every stored task satisfies: the CHECK constraints, the bounds every
    writer validated on the way in, and `completed_at` set exactly while
    `completed` holds.
   */
  predicate Stored(t: Task) {
    && SatisfiesChecks(t)
    && t.estimatedMinutes <= TaskSchema.MaxMinutes
    && TaskSchema.TitleOk(t.title)
    && TaskSchema.DescriptionOk(t.description)
    && (t.completed <==> t.completedAt.Some?)
  }

  predicate AllStored(ts: seq<Task>) {
    forall i :: 0 <= i < |ts| ==> Stored(ts[i])
  }

  /** Primary keys unique and below the counter; every task row well formed. */
  predicate Consistent(categories: seq<Category>, blocks: seq<Block>, tasks: seq<Task>, nextId: Id) {
    && UniqueKeys(categories, CategoryKey) && KeysBelow(categories, CategoryKey, nextId)
    && UniqueKeys(blocks, BlockKey) && KeysBelow(blocks, BlockKey, nextId)
    && UniqueKeys(tasks, TaskKey) && KeysBelow(tasks, TaskKey, nextId)
    && AllStored(tasks)
  }

  /** Every task belongs to a block that exists (the non-null, cascading `block_id`). */
  predicate Owned(blocks: seq<Block>, tasks: seq<Task>) {
    forall i :: 0 <= i < |tasks| ==> HasBlock(blocks, tasks[i].blockId)
  }

  predicate HasBlock(blocks: seq<Block>, id: Id) {
    exists j :: 0 <= j < |blocks| && blocks[j].id == id
  }

  class Db {
    var categories: seq<Category>
    var blocks: seq<Block>
    var tasks: seq<Task>
    var nextId: Id

    ghost predicate Valid()
      reads this
    {
      Consistent(categories, blocks, tasks, nextId)
    }

    constructor ()
      ensures Valid() && Owned(blocks, tasks)
      ensures categories == [] && blocks == [] && tasks == []
    {
      categories, blocks, tasks, nextId := [], [], [], 0;
    }
  }

  /**
    A row built from accepted input is a stored row: the column defaults leave
    it incomplete, without completion time and without actual time.
   */
  lemma NewTaskIsStored(
    id: Id, blockId: Id, categoryId: Id, title: string, description: Option<string>,
    estimatedMinutes: int, position: int)
    requires TaskSchema.TitleOk(title) && TaskSchema.DescriptionOk(description)
    requires 1 <= estimatedMinutes <= TaskSchema.MaxMinutes
    ensures Stored(NewTask(id, blockId, categoryId, title, description, estimatedMinutes, position))
    ensures var t := NewTask(id, blockId, categoryId, title, description, estimatedMinutes, position);
      !t.completed && t.completedAt.None? && t.actualMinutes.None? && t.id == id && t.position == position
  {
  }

  /** Rows drawn from a consistent table keep its key bound and well-formedness. */
  lemma SubsetOfStored(ts: seq<Task>, r: seq<Task>, bound: Id)
    requires forall t :: t in r ==> t in ts
    requires AllStored(ts) && KeysBelow(ts, TaskKey, bound)
    ensures AllStored(r) && KeysBelow(r, TaskKey, bound)
  {
    forall i | 0 <= i < |r| ensures Stored(r[i]) && r[i].id < bound {
      assert r[i] in ts;
    }
  }

  lemma InsertCategory(categories: seq<Category>, blocks: seq<Block>, tasks: seq<Task>, n: Id, c: Category)
    requires Consistent(categories, blocks, tasks, n) && c.id == n
    ensures Consistent(categories + [c], blocks, tasks, n + 1)
  {
    AppendFresh(categories, CategoryKey, n, c);
    RaiseBound(blocks, BlockKey, n, n + 1);
    RaiseBound(tasks, TaskKey, n, n + 1);
  }

  lemma InsertBlock(categories: seq<Category>, blocks: seq<Block>, tasks: seq<Task>, n: Id, b: Block)
    requires Consistent(categories, blocks, tasks, n) && b.id == n
    ensures Consistent(categories, blocks + [b], tasks, n + 1)
  {
    RaiseBound(categories, CategoryKey, n, n + 1);
    AppendFresh(blocks, BlockKey, n, b);
    RaiseBound(tasks, TaskKey, n, n + 1);
  }

  lemma InsertTask(categories: seq<Category>, blocks: seq<Block>, tasks: seq<Task>, n: Id, t: Task)
    requires Consistent(categories, blocks, tasks, n) && t.id == n && Stored(t)
    ensures Consistent(categories, blocks, tasks + [t], n + 1)
  {
    RaiseBound(categories, CategoryKey, n, n + 1);
    RaiseBound(blocks, BlockKey, n, n + 1);
    AppendFresh(tasks, TaskKey, n, t);
  }

  /** Rewriting task rows in place, keeping each row's id, keeps the store consistent. */
  lemma RewriteTasks(categories: seq<Category>, blocks: seq<Block>, tasks: seq<Task>, tasks': seq<Task>, n: Id)
    requires Consistent(categories, blocks, tasks, n)
    requires |tasks'| == |tasks| && forall i :: 0 <= i < |tasks| ==> tasks'[i].id == tasks[i].id
    requires AllStored(tasks')
    ensures Consistent(categories, blocks, tasks', n)
  {
    SameKeys(tasks, tasks', TaskKey);
  }

  lemma RewriteBlocks(categories: seq<Category>, blocks: seq<Block>, blocks': seq<Block>, tasks: seq<Task>, n: Id)
    requires Consistent(categories, blocks, tasks, n)
    requires |blocks'| == |blocks| && forall i :: 0 <= i < |blocks| ==> blocks'[i].id == blocks[i].id
    ensures Consistent(categories, blocks', tasks, n)
  {
    SameKeys(blocks, blocks', BlockKey);
  }

  lemma RewriteCategories(categories: seq<Category>, categories': seq<Category>, blocks: seq<Block>, tasks: seq<Task>, n: Id)
    requires Consistent(categories, blocks, tasks, n)
    requires |categories'| == |categories| && forall i :: 0 <= i < |categories| ==> categories'[i].id == categories[i].id
    ensures Consistent(categories', blocks, tasks, n)
  {
    SameKeys(categories, categories', CategoryKey);
  }
}
