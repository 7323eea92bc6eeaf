# Night-shift service layer, modelled in Dafny

This project models the service layer of the night-shift planner. The planner keeps a
queue of time **blocks**, ordered by a block number. Moving a block to the end of the
queue numbers it within 1 to 15. Creating and cloning a block give it the highest number
plus one, and reordering sets any number. Each block holds **tasks**, and each task
belongs to a **category** (a project). The services create, update, complete, reset,
clone, reorder and delete these rows, and compute progress and statistics over them.

The store is the class `Database.Db`. It holds the three tables as sequences
(`categories`, `blocks`, `tasks`) and an id counter `nextId`, which stands in for the
UUIDs the program draws. Its invariant `Valid()` has three parts:

- Ids are unique and below `nextId`.
- Every task row satisfies the table's CHECK constraints.
- Every task row satisfies the bounds of the task schema: an estimate of 1..10080
  minutes, a title of 1..200 characters, a description of at most 250 characters, and
  `completed` exactly when `completed_at` is set.

Service functions that write to the store are methods on a `Db` with `modifies db`. Each
one states its whole new state, and the statements are in terms of specification
functions. Read-only queries are functions over the tables. Lemmas prove the properties
the services promise:

- Setattr loops equal a field-wise merge.
- Resetting a block reopens all of its tasks and nothing else.
- Completing and resetting a block leaves every task of the block open.
- Renumbering gives every listed block the last number requested for it.
- The block statistics partition the blocks.
- Bulk marking counts the ids found.

Modules (one file each):

- `Wrappers`: Option and Result.
- `Seqs`: lookup by key, unique keys, max, paging.
- `Sorting`: an insertion sort and total orders.
- `Models`: rows and the task CHECK constraints.
- `Database`: the store and its invariant.
- `TaskSchema`: request validation.
- `Aggregates`: per-block and per-category counts and sums.
- `BlockQueries`, `BlockService`, `TaskQueries`, `TaskService` and `CategoryService`:
  the services.

Clocks are a parameter `now`. The id source is the counter. No I/O is modelled.

## Model

| member | source | states |
|---|---|---|
| Seqs.Find | app/services/task_service.py:68-79 | lookup by key gives the first row with that key; None exactly when no row has it |
| Seqs.Max | app/services/block_service.py:130-132 | the SQL MAX of a column: None exactly for an empty table, otherwise a member that bounds every value |
| Seqs.Page | app/services/category_service.py:38 | OFFSET/LIMIT: at most `limit` rows, the `skip`-th row onwards, in order |
| Seqs.UniqueKeysNoRepeats | app/models/task.py:18 | a table keyed by a primary key holds every row at most once |
| Sorting.Sort | app/services/category_service.py:38 | ORDER BY gives a permutation of the rows that is sorted under a total order |
| Sorting.SortedPairwise | app/services/block_service.py:432 | an ordered result is ordered between every pair of rows, not only neighbours |
| Sorting.LexLeTotalAt | app/services/category_service.py:38 | any two names are comparable under the name order (code-point order, a proper prefix first) |
| Sorting.LexLeTransitiveAt | app/services/category_service.py:38 | the name order is transitive |
| Database.Db.constructor | app/database.py:1-28 | a fresh database has empty tables and satisfies the store invariant |
| Database.NewTaskIsStored | app/services/task_service.py:157-169 | a task built from a validated request satisfies every CHECK constraint and starts open, with no completion time and no actual minutes |
| TaskSchema.ValidateEstimatedMinutes | app/schemas/task.py:40-51 | an estimate passes exactly when it is 1..10080; non-positive values give the "must be positive" error |
| TaskSchema.ValidateEstimatedMinutesUpdate | app/schemas/task.py:107-118 | an absent estimate passes; a given one passes exactly when it is 1..10080 |
| TaskSchema.ValidateActualMinutes | app/schemas/task.py:120-133 | absent passes; a given actual time passes exactly when it is 0..10080 |
| TaskSchema.ValidateTaskCreate | app/schemas/task.py:20-74 | a create request is accepted exactly when it is valid and is returned unchanged; a rejection names each failing field (title length, estimate too large, negative position) |
| TaskSchema.ValidateTaskUpdate | app/schemas/task.py:77-133 | an update request is accepted exactly when every given field is valid; a rejection carries at least one error |
| Aggregates.InBlockMembers | app/services/task_service.py:82-97 | filtering by block keeps exactly the tasks of that block |
| Aggregates.InCategoryMembers | app/services/task_service.py:100-111 | filtering by category keeps exactly the tasks of that category |
| Aggregates.AllCompletedIff | app/services/block_service.py:490-491 | the completed count equals the task count exactly when every task is completed |
| Aggregates.IncompleteMeansNotAllDone | app/services/block_service.py:480-485 | a block has an open task exactly when fewer of its tasks are completed than it holds; it has tasks exactly when its filter is non-empty |
| Aggregates.CountsOverTable | app/services/task_service.py:336-340 | counting completed and open tasks of a block over the whole table equals counting over the block's tasks |
| Aggregates.CountCompletedPermutation | app/services/block_service.py:101-107 | counting completed tasks does not depend on the order of the rows, so counting the position-ordered list equals counting the table's rows |
| Aggregates.CountIncomplete | app/services/block_service.py:291 | open and completed counts add up to the number of tasks |
| Aggregates.SumEstimatedIncomplete | app/services/task_service.py:356-359 | remaining estimate is between 0 and the total estimate when estimates are non-negative |
| Aggregates.EstimateSplits | app/services/task_service.py:346-359 | the estimate over open tasks plus the estimate over completed tasks is the estimate over all tasks |
| Aggregates.NothingRemainsWhenDone | app/services/task_service.py:356-368 | when every task is done no estimate remains and the finished estimate is the whole estimate |
| Aggregates.SumActualCompleted | app/services/task_service.py:350-354 | the sum of actual minutes of completed tasks is non-negative when every actual time is |
| Aggregates.Percentage | app/services/block_service.py:466 | the completion percentage is 0 for no tasks, otherwise exactly 100·part/whole, and at most 100 when part ≤ whole |
| Aggregates.ExceptBlock | app/models/task.py:19 | deleting a block's tasks keeps exactly the tasks of other blocks and keeps keys unique |
| BlockQueries.NextBlockNumber | app/services/block_service.py:128-136 | a new block's number is one more than the highest number, or 1 for an empty queue, and exceeds every number in use |
| BlockQueries.EndOfQueueNumber | app/services/block_service.py:249-257 | the end-of-queue number is in 1..15, is 1 for an empty queue, and is congruent modulo 15 to the highest number plus one |
| BlockQueries.OnDay | app/services/block_service.py:60-61 | the day filter keeps exactly the blocks on the given day, or all blocks for a missing day or day 0 |
| BlockQueries.BlocksInOrder | app/services/block_service.py:63-67 | a permutation of the day's blocks, ascending by block number for "block_number" and in creation (table) order otherwise |
| BlockQueries.AllBlocks | app/services/block_service.py:38-69 | exactly the requested OFFSET/LIMIT page of the ordered day's blocks: at most `limit` blocks passing the day filter, in the requested order, and all of them on the first page when they fit |
| BlockQueries.ActiveCandidates | app/services/block_service.py:426-432 | the joined query keeps exactly the blocks with an open task that pass the day filter (no filter for a missing day or day 0), without duplicates |
| BlockQueries.ActiveBlocks | app/services/block_service.py:415-432 | the active blocks are exactly those with an open task passing the day filter, ordered by block number, without duplicates |
| BlockQueries.NextBlock | app/services/block_service.py:435-467 | None exactly when no block has an open task; otherwise a block with an open task and the lowest number among them, with its total and completed counts (completed < total) and the completion percentage 100·completed/total, which lies in [0, 100) |
| BlockQueries.TasksByPosition | app/services/block_service.py:364 | a block's tasks, as a permutation of its rows, ordered by position |
| BlockQueries.GetBlockWithTasks | app/services/block_service.py:86-108 | None exactly for an unknown id; otherwise the block and its tasks as a permutation of the block's rows in position order, the task count equal to their number, and the completed count equal to the number of completed tasks, which equals the task count exactly when all are done |
| BlockQueries.BlocksPartition | app/services/block_service.py:477-491 | blocks with tasks split into active and completed blocks, and all blocks split into those with and those without tasks |
| BlockQueries.GetBlockStatistics | app/services/block_service.py:470-498 | total = completed + active + empty, each count as defined over the tables |
| BlockQueries.ActiveCountMatchesQueue | app/services/block_service.py:480-482 | the active-block statistic counts the same blocks that the active-blocks query lists |
| BlockService.CreateBlock | app/services/block_service.py:111-148 | an unknown category gives None and no change; otherwise a fresh block numbered max+1 (1 when empty) is appended and nothing else changes |
| BlockService.UpdateBlockMerges | app/services/block_service.py:164-170 | applying the set fields one setattr at a time equals the field-wise merge of the update |
| BlockService.UpdateBlock | app/services/block_service.py:151-174 | None exactly for an unknown id; otherwise that row becomes the merge and nothing else changes |
| BlockService.DeleteBlock | app/services/block_service.py:177-194 | false exactly for an unknown id; otherwise the block and, by cascade, exactly its tasks are removed |
| BlockService.DeleteBlockLeavesNoOrphans | app/models/task.py:19 | after the cascade every remaining task still belongs to an existing block |
| BlockService.ResetInBlockEffect | app/services/block_service.py:216-225 | each completed task of the block becomes open with its completion time and actual minutes cleared and every other field kept; every other row is unchanged; no completed task is left in the block |
| BlockService.ResetLoop | app/services/block_service.py:219-225 | the loop computes the reset table and counts the completed tasks it reopened |
| BlockService.ResetBlockTasks | app/services/block_service.py:197-228 | None exactly for an unknown block; otherwise the tasks become the reset table and the count of reopened tasks is returned |
| BlockService.MoveBlockToEnd | app/services/block_service.py:231-261 | None exactly for an unknown block; otherwise only its number changes, to the end-of-queue number in 1..15 |
| BlockService.FinishOpenCompletesBlock | app/services/block_service.py:295-300 | after completing the open tasks every task of the block is completed, and the block keeps its size |
| BlockService.CycleEffect | app/services/block_service.py:264-318 | completing then resetting a block leaves each of its tasks open with no completion data, and leaves other rows untouched |
| BlockService.FinishLoop | app/services/block_service.py:295-300 | the loop completes the open tasks, using the estimate where no actual time is set, and counts them |
| BlockService.CompleteAndResetBlock | app/services/block_service.py:264-318 | None exactly for an unknown block; otherwise the block's tasks are completed then reset, the report counts the tasks completed and reset, and the block moves to the end when asked |
| BlockService.Copies | app/services/block_service.py:363-375 | copying tasks yields one open copy per source task, with fresh ids, in the new block, same title, category, estimate and position |
| BlockService.InsertBlockCopy | app/services/block_service.py:344-360 | the copy is a fresh block titled "<title> (Copy)" with number max+1 and the source's other fields |
| BlockService.CloneBlock | app/services/block_service.py:321-379 | None exactly for an unknown block; otherwise the copy is appended, followed by copies of its tasks in position order when asked, and nothing else changes |
| BlockService.RenumberAllEffect | app/services/block_service.py:396-406 | each block takes the last number requested for it, or keeps its own; entries naming unknown blocks or missing a field are skipped |
| BlockService.ReorderBlocks | app/services/block_service.py:382-412 | reordering succeeds and the blocks become the renumbered table; tasks and categories are unchanged |
| TaskQueries.ResolveCategory | app/services/task_service.py:134-149 | a task's category is the requested one when it exists and matches the block's category; otherwise the block's; None when it fails |
| TaskQueries.NextPosition | app/services/task_service.py:152-156 | position 0 means append: one past the highest position in the block, or 0 for an empty block; any other position is kept |
| TaskQueries.FilteredMembers | app/services/task_service.py:55-62 | the filters keep exactly the tasks matching completed, block and category (empty ids do not filter) |
| TaskQueries.AllTasks | app/services/task_service.py:32-65 | exactly the requested OFFSET/LIMIT page of the matching tasks ordered by block id then position: at most `limit` matching tasks in that order, and all of them on the first page when they fit |
| TaskQueries.TasksByBlock | app/services/task_service.py:82-97 | exactly the block's tasks, ordered by position when asked |
| TaskQueries.TasksByCategory | app/services/task_service.py:100-111 | exactly the tasks of the category, each as often as in the table |
| TaskQueries.GetBlockProgress | app/services/task_service.py:310-369 | None exactly for an unknown block; otherwise the task counts, the completion percentage, the estimate summed over all the block's tasks, the remaining estimate summed over its open tasks only, and actual minutes summed over its completed tasks that have a value; remaining plus the finished tasks' estimate is the total, nothing remains once the block is complete, and for stored tasks the sums are in range |
| TaskService.CreateTask | app/services/task_service.py:114-169 | None for an unknown block or an unresolved category, with no change; otherwise one fresh open task with the resolved category and position is appended |
| TaskService.CreateTaskKeepsOwned | app/services/task_service.py:130-132 | a created task belongs to an existing block |
| TaskService.UpdateTaskMerges | app/services/task_service.py:189-201 | applying the set fields one setattr at a time in declaration order equals the field-wise merge |
| TaskService.UpdateTransitions | app/services/task_service.py:192-198 | an update keeps the row stored and its id; completed_at changes only on open→done (to now) or done→open (to none); completed is kept unless given |
| TaskService.UpdateRow | app/services/task_service.py:189-201 | the row becomes the merged update with the completion-time rule applied |
| TaskService.UpdateTask | app/services/task_service.py:172-205 | None exactly for an unknown id; otherwise only that row changes, to the updated row |
| TaskService.DeleteTask | app/services/task_service.py:208-225 | false exactly for an unknown id; otherwise exactly that row is removed |
| TaskService.MarksIdempotent | app/services/task_service.py:228-274 | completing twice is completing once, reopening twice is reopening once, and reopening undoes completing |
| TaskService.CompleteTask | app/services/task_service.py:228-251 | not found gives no task; an actual time outside 0..10080 trips the CHECK constraint and changes nothing; otherwise the row is completed at now with the given actual time |
| TaskService.UncompleteTask | app/services/task_service.py:254-274 | None exactly for an unknown id; otherwise the row is reopened and its completion time cleared |
| TaskService.CountKnownExtremes | app/services/task_service.py:373-406 | the bulk count equals the number of ids exactly when all are known, and is 0 exactly when none is |
| TaskService.MarkEachEffect | app/services/task_service.py:373-406 | bulk marking changes exactly the rows whose id is listed, each to its marked form |
| TaskService.BulkCompleteTasks | app/services/task_service.py:373-388 | every listed task is completed and the count of listed ids that were found is returned |
| TaskService.BulkUncompleteTasks | app/services/task_service.py:391-406 | every listed task is reopened and the count of listed ids that were found is returned |
| TaskService.RepositionAllEffect | app/services/task_service.py:292-302 | each task takes the last position requested for it, or keeps its own |
| TaskService.ReorderTasks | app/services/task_service.py:277-307 | reordering succeeds and the tasks become the repositioned table |
| CategoryService.CategoriesByName | app/services/category_service.py:38 | the categories ordered by name, as a permutation of the table |
| CategoryService.AllCategories | app/services/category_service.py:26-38 | exactly the requested OFFSET/LIMIT page of the categories ordered by name: at most `limit` categories of the table in name order, and all of them when skip is 0 and they fit |
| CategoryService.CreateCategory | app/services/category_service.py:55-73 | a fresh category with the given name and colour is appended and nothing else changes |
| CategoryService.UpdateCategoryMerges | app/services/category_service.py:93-97 | applying the set fields by setattr, then the timestamp, equals the merge |
| CategoryService.MergeCategoryIdempotent | app/services/category_service.py:76-100 | applying the same update twice equals applying it once |
| CategoryService.UpdateCategory | app/services/category_service.py:76-100 | None exactly for an unknown id; otherwise only that row changes, to the merge |
| CategoryService.DeleteCategory | app/services/category_service.py:103-126 | not found gives false; a category still referenced by a task is refused and nothing changes; otherwise exactly that row is removed |
| CategoryService.CascadeDeletesReferencingTasks | app/models/category.py:20 | the delete as written succeeds for a referenced category and removes the tasks that referenced it |
| CategoryService.SumEstimatedBounds | app/services/category_service.py:162-164 | for stored tasks the total estimate lies between the task count and 10080 per task |
| CategoryService.GetCategoryStats | app/services/category_service.py:129-180 | None exactly for an unknown category; otherwise its name, task counts, completion rate, the estimate summed over all its tasks and actual minutes summed over its completed tasks that have a value; for stored tasks the estimate lies in [n, 10080·n] and the actual sum is non-negative |
| CategoryService.CountsOf | app/services/category_service.py:196-211 | one entry per category, each with that category's total and completed counts |
| CategoryService.AsWrittenMissesCategories | app/services/category_service.py:193 | with more than 100 categories the listing as written omits some category |
| CategoryService.CategoriesWithTaskCounts | app/services/category_service.py:183-213 | one entry per category, ordered by name; every category's counts appear and every entry comes from a category |
| CategoryService.GetCategoriesWithTaskCounts | app/services/category_service.py:183-213 | the loop builds exactly the corrected listing |

## Left out

- The HTTP routes, the ORM session, commits and refreshes are not modelled. A service
  call is one atomic change of `Db`.
- Transactions and rollback are not modelled. `reorder_blocks` and `reorder_tasks` can
  only take their error path through a database exception, and no modelled operation
  raises one, so both always return true.
- Identifiers are natural numbers from a counter, not UUID strings. Ordering tasks "by
  block id" therefore compares numbers, where the program compares strings.
- `created_at` is not modelled. Rows are appended in creation order, so table order
  stands in for ordering by creation time. This applies to `get_tasks_by_category` and to
  `get_all_blocks` when it is not ordered by block number.
- SQL's ORDER BY leaves the order of ties open. The contracts of `TaskQueries.AllTasks`,
  `CategoryService.AllCategories`, `BlockQueries.AllBlocks`, `BlockService.CopyBlockTasks`,
  `BlockService.CloneBlock` and `CategoryService.GetCategoriesWithTaskCounts` equal a
  result built with `Sorting.Sort`, an insertion sort that keeps ties in table order.
  That is one of the orders SQL allows, so these contracts are narrower than what the
  program promises. `BlockQueries.NextBlock` is the exception:
  its contract does not say which of several blocks with the lowest number it returns.
- Blocks carry an optional category (`Models.Block.categoryId`), which the services rely
  on: `create_block`, `clone_block` and `create_task` read or set
  `category_id` on a block. The Block table in app/models/block.py has no such column, so
  as written the Block constructor would refuse the keyword in `create_block` and
  `clone_block`, and `create_task` would fail reading it. The model follows the services'
  intent and gives blocks that column.
- Percentages are kept as exact fractions (`Ratio`), not floats. The rounding of the
  minute and percentage figures is not modelled.
- Update requests cannot set a field to an explicit null. A field is either absent or
  given.
- There is no schema for creating or updating blocks and categories, so their titles,
  names and colours are not validated.
- `get_block`, `get_task` and `get_category` are modelled as plain lookups with
  `Seqs.Find` and get no rows of their own.
- Quotes and the quote service are not part of this model.
- Foreign keys are not an invariant of the store. `update_task` may set any `block_id` or
  `category_id`, because SQLite does not enforce foreign keys here. The block-ownership
  property is proved for create and delete only.
- Bulk completion stamps every task with one `now` for the whole batch. The program reads
  the clock once per task.
- BlockService.CreateBlock: gives each new block the highest number plus one, without
  wrapping into 1..15. This follows the code; the documentation describes a cyclic
  queue. Only moving a block to the end wraps.
- BlockQueries.NextBlock: the next block is the first block in the queue, by block
  number, that has at least one open task. This is the design and what the code does.
  Which block is returned when several share the lowest number is not promised.

## Findings

| source | as written | input that shows it | evidently intended | confidence | as-written member | corrected member |
|---|---|---|---|---|---|---|
| app/services/category_service.py:103-126 with app/models/category.py:20 | the Category relationship cascades "all, delete-orphan", so deleting a category deletes its tasks and returns True | a category referenced by one task: the delete succeeds and the task disappears | the RESTRICT foreign key (app/models/task.py:20) and the docstring: deleting a referenced category fails and removes nothing | not executed | CategoryService.CascadeDeletesReferencingTasks | CategoryService.DeleteCategory |
| app/services/category_service.py:193 | the listing calls `get_all_categories(db)` with its default limit of 100 | 101 categories: one of them never appears in the listing | every category appears with its task counts | not executed | CategoryService.AsWrittenMissesCategories | CategoryService.CategoriesWithTaskCounts |
