/**
  The per-block and per-category filters and the COUNT/SUM aggregates that the
  block, task and category services compute over the tasks table.
 */
module Aggregates {
  import opened Wrappers
  import opened Models
  import opened Seqs

  /** `filter(Task.block_id == b)`, keeping table order. */
  function InBlock(ts: seq<Task>, b: Id): (r: seq<Task>)
    ensures |r| <= |ts|
  {
    if |ts| == 0 then []
    else
      var init, last := ts[..|ts| - 1], ts[|ts| - 1];
      assert ts == init + [last];
      InBlock(init, b) + (if last.blockId == b then [last] else [])
  }

  /** The filter keeps exactly the block's tasks. */
  lemma {:induction false} InBlockMembers(ts: seq<Task>, b: Id)
    ensures forall t :: t in InBlock(ts, b) <==> t in ts && t.blockId == b
  {
    if |ts| > 0 {
      var init, last := ts[..|ts| - 1], ts[|ts| - 1];
      assert ts == init + [last];
      InBlockMembers(init, b);
    }
  }

  lemma InBlockSnoc(ts: seq<Task>, t: Task, b: Id)
    ensures InBlock(ts + [t], b) == InBlock(ts, b) + (if t.blockId == b then [t] else [])
  {
    assert (ts + [t])[..|ts|] == ts;
  }

  /** `filter(Task.category_id == c)`, keeping table order. */
  function InCategory(ts: seq<Task>, c: Id): (r: seq<Task>)
    ensures |r| <= |ts|
  {
    if |ts| == 0 then []
    else
      var init, last := ts[..|ts| - 1], ts[|ts| - 1];
      assert ts == init + [last];
      InCategory(init, c) + (if last.categoryId == c then [last] else [])
  }

  /** The filter keeps exactly the category's tasks. */
  lemma {:induction false} InCategoryMembers(ts: seq<Task>, c: Id)
    ensures forall t :: t in InCategory(ts, c) <==> t in ts && t.categoryId == c
  {
    if |ts| > 0 {
      var init, last := ts[..|ts| - 1], ts[|ts| - 1];
      assert ts == init + [last];
      InCategoryMembers(init, c);
    }
  }

  /** The tasks that survive deleting block `b`: the cascade removes exactly its tasks. */
  function ExceptBlock(ts: seq<Task>, b: Id): (r: seq<Task>)
    ensures forall t :: t in r <==> t in ts && t.blockId != b
    ensures UniqueKeys(ts, TaskKey) ==> UniqueKeys(r, TaskKey)
  {
    if |ts| == 0 then []
    else
      var init, last := ts[..|ts| - 1], ts[|ts| - 1];
      assert ts == init + [last];
      var rest := ExceptBlock(init, b);
      if last.blockId != b then
        assert UniqueKeys(ts, TaskKey) ==> forall t :: t in rest ==> t.id != last.id by {
          if UniqueKeys(ts, TaskKey) {
            forall t | t in rest ensures t.id != last.id {
              var k :| 0 <= k < |init| && init[k] == t;
              assert ts[k] == t;
            }
          }
        }
        rest + [last]
      else rest
  }

  predicate HasTask(ts: seq<Task>, b: Id) {
    exists k :: 0 <= k < |ts| && ts[k].blockId == b
  }

  predicate HasIncompleteTask(ts: seq<Task>, b: Id) {
    exists k :: 0 <= k < |ts| && ts[k].blockId == b && !ts[k].completed
  }

  /** `COUNT` of the completed tasks. */
  function CountCompleted(ts: seq<Task>): (n: nat)
    ensures n <= |ts|
  {
    if |ts| == 0 then 0
    else CountCompleted(ts[..|ts| - 1]) + (if ts[|ts| - 1].completed then 1 else 0)
  }

  /** Every task is counted exactly when every task is complete. */
  lemma {:induction false} AllCompletedIff(ts: seq<Task>)
    ensures CountCompleted(ts) == |ts| <==> forall i :: 0 <= i < |ts| ==> ts[i].completed
  {
    if |ts| > 0 {
      var init := ts[..|ts| - 1];
      AllCompletedIff(init);
      assert forall i :: 0 <= i < |init| ==> init[i] == ts[i];
    }
  }

  /** `COUNT` of the incomplete tasks. */
  function CountIncomplete(ts: seq<Task>): (n: nat)
    ensures n + CountCompleted(ts) == |ts|
  {
    if |ts| == 0 then 0
    else CountIncomplete(ts[..|ts| - 1]) + (if ts[|ts| - 1].completed then 0 else 1)
  }

  /** Removing one row takes exactly that row out of the completed count. */
  lemma {:induction false} CountCompletedRemove(s: seq<Task>, j: nat)
    requires j < |s|
    ensures CountCompleted(s) == CountCompleted(s[..j] + s[j + 1..]) + (if s[j].completed then 1 else 0)
    decreases |s|
  {
    var n := |s|;
    var rest := s[..j] + s[j + 1..];
    if j == n - 1 {
      assert rest == s[..n - 1];
    } else {
      var init := s[..n - 1];
      CountCompletedRemove(init, j);
      assert init[..j] + init[j + 1..] == rest[..n - 2];
      assert rest[n - 2] == s[n - 1];
    }
  }

  /** The completed count depends only on which rows there are, not on their order. */
  lemma {:induction false} CountCompletedPermutation(a: seq<Task>, b: seq<Task>)
    requires multiset(a) == multiset(b)
    ensures CountCompleted(a) == CountCompleted(b)
    decreases |a|
  {
    if |a| == 0 {
      assert |multiset(b)| == 0;
    } else {
      var n := |a|;
      var x := a[n - 1];
      assert a == a[..n - 1] + [x];
      assert x in multiset(b);
      var j :| 0 <= j < |b| && b[j] == x;
      var rest := b[..j] + b[j + 1..];
      assert multiset(rest) == multiset(b) - multiset{x} by {
        assert b == b[..j] + [x] + b[j + 1..];
        assert multiset(b) == multiset(b[..j]) + multiset{x} + multiset(b[j + 1..]);
      }
      assert multiset(a[..n - 1]) == multiset(a) - multiset{x} by {
        assert multiset(a) == multiset(a[..n - 1]) + multiset{x};
      }
      CountCompletedPermutation(a[..n - 1], rest);
      CountCompletedRemove(b, j);
    }
  }

  lemma CountsSnoc(ts: seq<Task>, t: Task)
    ensures CountCompleted(ts + [t]) == CountCompleted(ts) + (if t.completed then 1 else 0)
    ensures CountIncomplete(ts + [t]) == CountIncomplete(ts) + (if t.completed then 0 else 1)
  {
    assert (ts + [t])[..|ts|] == ts;
  }

  /** A block has an incomplete task exactly when not all of its tasks are complete. */
  lemma {:induction false} IncompleteMeansNotAllDone(ts: seq<Task>, b: Id)
    ensures HasIncompleteTask(ts, b) <==> CountCompleted(InBlock(ts, b)) < |InBlock(ts, b)|
    ensures HasTask(ts, b) <==> |InBlock(ts, b)| > 0
  {
    var r := InBlock(ts, b);
    InBlockMembers(ts, b);
    AllCompletedIff(r);
    if HasIncompleteTask(ts, b) {
      var k :| 0 <= k < |ts| && ts[k].blockId == b && !ts[k].completed;
      assert ts[k] in r;
      var j :| 0 <= j < |r| && r[j] == ts[k];
    }
    if HasTask(ts, b) {
      var k :| 0 <= k < |ts| && ts[k].blockId == b;
      assert ts[k] in r;
    }
  }

  /** The completed tasks of block `b`, counted row by row over the whole table. */
  function CompletedIn(ts: seq<Task>, b: Id): nat {
    if |ts| == 0 then 0
    else CompletedIn(ts[..|ts| - 1], b) + (if ts[|ts| - 1].blockId == b && ts[|ts| - 1].completed then 1 else 0)
  }

  /** The incomplete tasks of block `b`, counted row by row over the whole table. */
  function OpenIn(ts: seq<Task>, b: Id): nat {
    if |ts| == 0 then 0
    else OpenIn(ts[..|ts| - 1], b) + (if ts[|ts| - 1].blockId == b && !ts[|ts| - 1].completed then 1 else 0)
  }

  /** Counting over the table agrees with counting over the block's filtered tasks. */
  lemma {:induction false} CountsOverTable(ts: seq<Task>, b: Id)
    ensures CompletedIn(ts, b) == CountCompleted(InBlock(ts, b))
    ensures OpenIn(ts, b) == CountIncomplete(InBlock(ts, b))
  {
    if |ts| > 0 {
      var init, last := ts[..|ts| - 1], ts[|ts| - 1];
      assert ts == init + [last];
      CountsOverTable(init, b);
      InBlockSnoc(init, last, b);
      if last.blockId == b {
        assert InBlock(ts, b) == InBlock(init, b) + [last];
        CountsSnoc(InBlock(init, b), last);
      } else {
        assert InBlock(ts, b) == InBlock(init, b);
      }
    }
  }

  /** `SUM(estimated_minutes)`. */
  function SumEstimated(ts: seq<Task>): int {
    if |ts| == 0 then 0 else SumEstimated(ts[..|ts| - 1]) + ts[|ts| - 1].estimatedMinutes
  }

  /** `SUM(estimated_minutes)` over the incomplete tasks. */
  function SumEstimatedIncomplete(ts: seq<Task>): (r: int)
    ensures (forall i :: 0 <= i < |ts| ==> ts[i].estimatedMinutes >= 0) ==> 0 <= r <= SumEstimated(ts)
  {
    if |ts| == 0 then 0
    else
      var init := ts[..|ts| - 1];
      assert forall i :: 0 <= i < |init| ==> init[i] == ts[i];
      SumEstimatedIncomplete(init)
      + (if ts[|ts| - 1].completed then 0 else ts[|ts| - 1].estimatedMinutes)
  }

  /** `SUM(actual_minutes)` over the completed tasks whose actual time is set (SQL SUM skips NULL). */
  function SumActualCompleted(ts: seq<Task>): (r: int)
    ensures (forall i :: 0 <= i < |ts| && ts[i].actualMinutes.Some? ==> ts[i].actualMinutes.value >= 0) ==> r >= 0
  {
    if |ts| == 0 then 0
    else
      var init, last := ts[..|ts| - 1], ts[|ts| - 1];
      assert forall i :: 0 <= i < |init| ==> init[i] == ts[i];
      SumActualCompleted(init)
      + (if last.completed && last.actualMinutes.Some? then last.actualMinutes.value else 0)
  }

  /** `SUM(estimated_minutes)` over the completed tasks. */
  function SumEstimatedCompleted(ts: seq<Task>): int {
    if |ts| == 0 then 0
    else
      var last := ts[|ts| - 1];
      SumEstimatedCompleted(ts[..|ts| - 1]) + (if last.completed then last.estimatedMinutes else 0)
  }

  /** The remaining estimate and the estimate of the finished tasks make up the total estimate. */
  lemma {:induction false} EstimateSplits(ts: seq<Task>)
    ensures SumEstimatedIncomplete(ts) + SumEstimatedCompleted(ts) == SumEstimated(ts)
  {
    if |ts| > 0 {
      EstimateSplits(ts[..|ts| - 1]);
    }
  }

  /** Once every task is done nothing of the estimate remains. */
  lemma {:induction false} NothingRemainsWhenDone(ts: seq<Task>)
    requires forall i :: 0 <= i < |ts| ==> ts[i].completed
    ensures SumEstimatedIncomplete(ts) == 0
    ensures SumEstimatedCompleted(ts) == SumEstimated(ts)
  {
    if |ts| > 0 {
      var init := ts[..|ts| - 1];
      assert forall i :: 0 <= i < |init| ==> init[i] == ts[i];
      NothingRemainsWhenDone(init);
    }
  }

  /** A percentage kept as the exact fraction `numerator / denominator` instead of a rounded float. */
  datatype Ratio = Ratio(numerator: int, denominator: int)

  /** `part / whole * 100`, and 0 (not a division error) when `whole` is 0. */
  function Percentage(part: nat, whole: nat): (r: Ratio)
    ensures r.denominator > 0
    ensures whole == 0 ==> r.numerator == 0
    ensures part <= whole ==> 0 <= r.numerator <= 100 * r.denominator
    ensures whole > 0 ==> r.numerator * whole == 100 * part * r.denominator
  {
    if whole > 0 then Ratio(100 * part, whole) else Ratio(0, 1)
  }
}
