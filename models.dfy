/**
  The rows of the three tables: categories, blocks and tasks. Identifiers are
  opaque numbers handed out by the store; wall-clock values are an opaque `Time`
  supplied by the caller.
 */
module Models {
  import opened Wrappers

  type Id = nat
  type Time = int

  /** `reasonable_actual_minutes`: one week, in minutes. */
  const MaxActualMinutes := 10080

  datatype Category = Category(id: Id, name: string, color: Option<string>, updatedAt: Time)

  /** A block; `categoryId` is a weak reference that tasks inherit. */
  datatype Block = Block(
    id: Id,
    title: string,
    description: Option<string>,
    blockNumber: int,
    dayNumber: Option<int>,
    categoryId: Option<Id>)

  datatype Task = Task(
    id: Id,
    blockId: Id,
    categoryId: Id,
    title: string,
    description: Option<string>,
    estimatedMinutes: int,
    actualMinutes: Option<int>,
    completed: bool,
    position: int,
    completedAt: Option<Time>)

  function CategoryKey(c: Category): Id { c.id }
  function BlockKey(b: Block): Id { b.id }
  function TaskKey(t: Task): Id { t.id }

  /**
    The table's CHECK constraints: a positive estimate, and an actual time that is
    NULL or within [0, 10080] (SQL lets a NULL pass a CHECK).
   */
  predicate SatisfiesChecks(t: Task) {
    && t.estimatedMinutes > 0
    && (t.actualMinutes.Some? ==> 0 <= t.actualMinutes.value <= MaxActualMinutes)
  }

  /** A freshly inserted row: the column defaults leave it incomplete, untimed and unmeasured. */
  function NewTask(
    id: Id, blockId: Id, categoryId: Id, title: string, description: Option<string>,
    estimatedMinutes: int, position: int): (t: Task)
  {
    Task(id, blockId, categoryId, title, description, estimatedMinutes, None, false, position, None)
  }
}
