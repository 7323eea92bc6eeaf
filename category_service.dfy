/**
  The category service: listing in name order, creation, partial update,
  deletion and the per-category task statistics.
 */
module CategoryService {
  import opened Wrappers
  import opened Models
  import opened Seqs
  import opened Sorting
  import opened Database
  import opened Aggregates
  import TaskSchema

  /** The page size `get_all_categories` uses when the caller gives none. */
  const DefaultLimit := 100

  function ByName(a: Category, b: Category): bool {
    LexLe(a.name, b.name)
  }

  lemma ByNameIsTotalOrder()
    ensures Total(ByName) && Transitive(ByName)
  {
    LexLeIsTotalOrder();
  }

  /** Every category, ordered by name. */
  function CategoriesByName(cs: seq<Category>): (r: seq<Category>)
    ensures multiset(r) == multiset(cs)
    ensures forall i, j :: 0 <= i < j < |r| ==> LexLe(r[i].name, r[j].name)
  {
    ByNameIsTotalOrder();
    var r := Sort(cs, ByName);
    SortedPairwise(r, ByName);
    r
  }

  /**
    `get_all_categories`: at most `limit` categories, all from the table, in
    name order; the whole table when it fits in the first page.
   */
  function AllCategories(cs: seq<Category>, skip: nat, limit: nat): (r: seq<Category>)
    ensures |r| <= limit
    ensures forall c :: c in r ==> c in cs
    ensures forall i, j :: 0 <= i < j < |r| ==> LexLe(r[i].name, r[j].name)
    ensures skip == 0 && |cs| <= limit ==> multiset(r) == multiset(cs)
    ensures r == Page(CategoriesByName(cs), skip, limit)
  {
    var sorted := CategoriesByName(cs);
    var r := Page(sorted, skip, limit);
    assert forall c :: c in r ==> c in multiset(sorted);
    assert skip == 0 && |cs| <= limit ==> r == sorted;
    r
  }

  /** `create_category`: a fresh row with the given name and colour. */
  method CreateCategory(db: Db, name: string, color: Option<string>, now: Time) returns (c: Category)
    requires db.Valid()
    modifies db
    ensures db.Valid()
    ensures c.name == name && c.color == color && c.updatedAt == now
    ensures Find(old(db.categories), CategoryKey, c.id).None?
    ensures db.categories == old(db.categories) + [c]
    ensures db.blocks == old(db.blocks) && db.tasks == old(db.tasks)
  {
    c := Category(db.nextId, name, color, now);
    InsertCategory(db.categories, db.blocks, db.tasks, db.nextId, c);
    db.categories := db.categories + [c];
    db.nextId := db.nextId + 1;
  }

  /** The fields a `CategoryUpdate` may carry; `None` means not supplied. */
  datatype CategoryUpdate = CategoryUpdate(name: Option<string>, color: Option<string>)

  datatype CategoryPatch = SetName(name: string) | SetColor(color: string)

  function ApplyCategoryPatch(c: Category, p: CategoryPatch): Category {
    match p
    case SetName(v) => c.(name := v)
    case SetColor(v) => c.(color := Some(v))
  }

  function ApplyCategoryPatches(c: Category, ps: seq<CategoryPatch>): Category {
    if |ps| == 0 then c else ApplyCategoryPatch(ApplyCategoryPatches(c, ps[..|ps| - 1]), ps[|ps| - 1])
  }

  /** `model_dump(exclude_unset=True)`: the supplied fields, in declaration order. */
  function CategoryUpdateData(u: CategoryUpdate): seq<CategoryPatch> {
    (if u.name.Some? then [SetName(u.name.value)] else [])
    + (if u.color.Some? then [SetColor(u.color.value)] else [])
  }

  /** What a partial update means: the supplied fields replaced, the time stamped, the rest kept. */
  function MergeCategory(c: Category, u: CategoryUpdate, now: Time): Category {
    Category(c.id, u.name.GetOr(c.name), if u.color.Some? then u.color else c.color, now)
  }

  /** Applying the supplied fields in order, then stamping, is the field-wise merge. */
  lemma {:induction false} UpdateCategoryMerges(c: Category, u: CategoryUpdate, now: Time)
    ensures ApplyCategoryPatches(c, CategoryUpdateData(u)).(updatedAt := now) == MergeCategory(c, u, now)
  {
    var ps := CategoryUpdateData(u);
    if u.name.Some? && u.color.Some? {
      assert ps == [SetName(u.name.value), SetColor(u.color.value)];
      assert ps[..1] == [SetName(u.name.value)];
      assert ps[..1][..0] == [];
      assert ApplyCategoryPatches(c, ps[..1]) == c.(name := u.name.value);
    } else if u.name.Some? {
      assert ps == [SetName(u.name.value)];
      assert ps[..0] == [];
    } else if u.color.Some? {
      assert ps == [SetColor(u.color.value)];
      assert ps[..0] == [];
    } else {
      assert ps == [];
    }
  }

  /** The same update applied twice leaves what one application left. */
  lemma MergeCategoryIdempotent(c: Category, u: CategoryUpdate, now: Time)
    ensures MergeCategory(MergeCategory(c, u, now), u, now) == MergeCategory(c, u, now)
  {
  }

  /** The `setattr` loop over the supplied fields. */
  method SetCategoryAttributes(c0: Category, patches: seq<CategoryPatch>) returns (c: Category)
    ensures c == ApplyCategoryPatches(c0, patches)
  {
    c := c0;
    for k := 0 to |patches|
      invariant c == ApplyCategoryPatches(c0, patches[..k])
    {
      assert patches[..k + 1][..k] == patches[..k];
      c := ApplyCategoryPatch(c, patches[k]);
    }
    assert patches[..|patches|] == patches;
  }

  /** `update_category`: none for an unknown id; otherwise the supplied fields and a new `updated_at`. */
  method UpdateCategory(db: Db, id: Id, u: CategoryUpdate, now: Time) returns (r: Option<Category>)
    requires db.Valid()
    modifies db
    ensures db.Valid()
    ensures r.None? <==> Find(old(db.categories), CategoryKey, id).None?
    ensures r.None? ==> unchanged(db)
    ensures r.Some? ==>
      var i := Find(old(db.categories), CategoryKey, id).value;
      r.value == MergeCategory(old(db.categories)[i], u, now) && db.categories == old(db.categories)[i := r.value]
    ensures db.blocks == old(db.blocks) && db.tasks == old(db.tasks) && db.nextId == old(db.nextId)
  {
    var found := Find(db.categories, CategoryKey, id);
    if found.None? {
      return None;
    }
    var i := found.value;
    var c := SetCategoryAttributes(db.categories[i], CategoryUpdateData(u));
    c := c.(updatedAt := now);
    UpdateCategoryMerges(db.categories[i], u, now);
    RewriteCategories(db.categories, db.categories[i := c], db.blocks, db.tasks, db.nextId);
    db.categories := db.categories[i := c];
    return Some(c);
  }

  /** Raised when a delete would leave tasks pointing at a missing category. */
  datatype IntegrityError = ReferencedByTasks

  predicate Referenced(ts: seq<Task>, id: Id) {
    exists i :: 0 <= i < |ts| && ts[i].categoryId == id
  }

  /**
    `delete_category` as its documentation describes it: false for an unknown
    id, an integrity error while tasks reference the category (nothing changes),
    otherwise exactly that row goes.
   */
  method DeleteCategory(db: Db, id: Id) returns (r: Result<bool, IntegrityError>)
    requires db.Valid()
    modifies db
    ensures db.Valid()
    ensures r == Success(false) <==> Find(old(db.categories), CategoryKey, id).None?
    ensures r.Failure? <==> Find(old(db.categories), CategoryKey, id).Some? && Referenced(old(db.tasks), id)
    ensures r != Success(true) ==> unchanged(db)
    ensures r == Success(true) ==>
      var i := Find(old(db.categories), CategoryKey, id).value;
      db.categories == old(db.categories)[..i] + old(db.categories)[i + 1..]
    ensures r == Success(true) ==> Find(db.categories, CategoryKey, id).None?
    ensures db.blocks == old(db.blocks) && db.tasks == old(db.tasks) && db.nextId == old(db.nextId)
  {
    var found := Find(db.categories, CategoryKey, id);
    if found.None? {
      return Success(false);
    }
    var referenced := Find(db.tasks, (t: Task) => t.categoryId, id);
    if referenced.Some? {
      return Failure(ReferencedByTasks);
    }
    var i := found.value;
    var categories := db.categories[..i] + db.categories[i + 1..];
    RemoveKeepsKeys(db.categories, CategoryKey, db.nextId, i);
    forall k | 0 <= k < |categories| ensures categories[k].id != id {
      FindIsOnly(db.categories, CategoryKey, id, i);
      if k < i {
        assert categories[k] == db.categories[k];
      } else {
        assert categories[k] == db.categories[k + 1];
      }
    }
    db.categories := categories;
    return Success(true);
  }

  /** The two tables a category delete touches. */
  datatype Tables = Tables(categories: seq<Category>, tasks: seq<Task>)

  function WithoutCategory(ts: seq<Task>, id: Id): (r: seq<Task>)
    ensures forall t :: t in r <==> t in ts && t.categoryId != id
  {
    if |ts| == 0 then []
    else
      var rest := WithoutCategory(ts[..|ts| - 1], id);
      var last := ts[|ts| - 1];
      assert ts == ts[..|ts| - 1] + [last];
      if last.categoryId == id then rest else rest + [last]
  }

  /**
    `delete_category` as written: the relationship's `delete-orphan` cascade
    deletes the category's tasks in the session before the category row, so the
    RESTRICT foreign key never sees a referencing task and the call reports success.
   */
  function DeleteCategoryAsWritten(cs: seq<Category>, ts: seq<Task>, id: Id): (bool, Tables) {
    match Find(cs, CategoryKey, id)
    case None => (false, Tables(cs, ts))
    case Some(i) => (true, Tables(cs[..i] + cs[i + 1..], WithoutCategory(ts, id)))
  }

  /**
    The discrepancy: for an existing category that a task references, the code
    as written reports success and the task is gone, where the documented
    behaviour is an integrity error that leaves the task in place.
   */
  lemma CascadeDeletesReferencingTasks(cs: seq<Category>, ts: seq<Task>, id: Id, t: Task)
    requires Find(cs, CategoryKey, id).Some?
    requires t in ts && t.categoryId == id
    ensures DeleteCategoryAsWritten(cs, ts, id).0
    ensures t !in DeleteCategoryAsWritten(cs, ts, id).1.tasks
    ensures Referenced(ts, id)
  {
    var i :| 0 <= i < |ts| && ts[i] == t;
  }

  datatype CategoryStats = CategoryStats(
    categoryId: Id,
    categoryName: string,
    totalTasks: nat,
    completedTasks: nat,
    completionRate: Ratio,
    totalEstimatedMinutes: int,
    totalActualMinutes: int)

  /** The rows drawn from a table of stored tasks are stored tasks. */
  lemma InCategoryStored(ts: seq<Task>, c: Id)
    requires AllStored(ts)
    ensures AllStored(InCategory(ts, c))
  {
    InCategoryMembers(ts, c);
    var r := InCategory(ts, c);
    forall i | 0 <= i < |r| ensures Stored(r[i]) {
      assert r[i] in ts;
    }
  }

  /** Every stored estimate lies in 1..10080, so their sum lies between n and 10080 n. */
  lemma {:induction false} SumEstimatedBounds(ts: seq<Task>)
    requires AllStored(ts)
    ensures |ts| <= SumEstimated(ts) <= TaskSchema.MaxMinutes * |ts|
  {
    if |ts| > 0 {
      SumEstimatedBounds(ts[..|ts| - 1]);
    }
  }

  /**
    `get_category_stats`: none for an unknown category; otherwise the counts,
    the exact completion rate (0 without tasks), and the minute sums, which over
    stored tasks are bounded by the per-task limits.
   */
  function GetCategoryStats(cs: seq<Category>, ts: seq<Task>, id: Id): (r: Option<CategoryStats>)
    ensures r.None? <==> Find(cs, CategoryKey, id).None?
    ensures r.Some? ==> r.value.categoryId == id && r.value.categoryName == cs[Find(cs, CategoryKey, id).value].name
    ensures r.Some? ==> r.value.totalTasks == |InCategory(ts, id)|
    ensures r.Some? ==> r.value.completedTasks == CountCompleted(InCategory(ts, id)) <= r.value.totalTasks
    ensures r.Some? ==> r.value.completionRate.denominator > 0
    ensures r.Some? && r.value.totalTasks == 0 ==> r.value.completionRate.numerator == 0
    ensures r.Some? && r.value.totalTasks > 0 ==>
      r.value.completionRate.numerator * r.value.totalTasks == 100 * r.value.completedTasks * r.value.completionRate.denominator
    ensures r.Some? ==> r.value.totalEstimatedMinutes == SumEstimated(InCategory(ts, id))
    ensures r.Some? ==> r.value.totalActualMinutes == SumActualCompleted(InCategory(ts, id))
    ensures r.Some? && AllStored(ts) ==>
      && r.value.totalTasks <= r.value.totalEstimatedMinutes <= TaskSchema.MaxMinutes * r.value.totalTasks
      && r.value.totalActualMinutes >= 0
  {
    match Find(cs, CategoryKey, id)
    case None => None
    case Some(i) =>
      var tasks := InCategory(ts, id);
      var total, done := |tasks|, CountCompleted(tasks);
      assert AllStored(ts) ==> AllStored(tasks) && |tasks| <= SumEstimated(tasks) <= TaskSchema.MaxMinutes * |tasks| by {
        if AllStored(ts) {
          InCategoryStored(ts, id);
          SumEstimatedBounds(tasks);
        }
      }
      Some(CategoryStats(
        id, cs[i].name, total, done, Percentage(done, total),
        SumEstimated(tasks), SumActualCompleted(tasks)))
  }

  /** One entry of `get_categories_with_task_counts`. */
  datatype CategoryCounts = CategoryCounts(
    id: Id, name: string, color: Option<string>, totalTasks: nat, completedTasks: nat, updatedAt: Time)

  function CountsFor(c: Category, ts: seq<Task>): CategoryCounts {
    var tasks := InCategory(ts, c.id);
    CategoryCounts(c.id, c.name, c.color, |tasks|, CountCompleted(tasks), c.updatedAt)
  }

  /** The loop body of `get_categories_with_task_counts`, once per listed category. */
  function CountsOf(cs: seq<Category>, ts: seq<Task>): (r: seq<CategoryCounts>)
    ensures |r| == |cs|
    ensures forall k :: 0 <= k < |r| ==> r[k] == CountsFor(cs[k], ts)
  {
    seq(|cs|, k requires 0 <= k < |cs| => CountsFor(cs[k], ts))
  }

  /**
    `get_categories_with_task_counts` as written: it lists the categories of
    `get_all_categories` called with its default page, so only the first
    `DefaultLimit` names are counted.
   */
  function CategoriesWithTaskCountsAsWritten(cs: seq<Category>, ts: seq<Task>): (r: seq<CategoryCounts>)
    ensures |r| <= DefaultLimit
  {
    CountsOf(AllCategories(cs, 0, DefaultLimit), ts)
  }

  /**
    The discrepancy: with more than `DefaultLimit` categories, some category of
    the table has no entry, though the operation promises all of them.
   */
  lemma {:induction false} AsWrittenMissesCategories(cs: seq<Category>, ts: seq<Task>)
    requires UniqueKeys(cs, CategoryKey) && |cs| > DefaultLimit
    ensures exists c :: c in cs && forall e :: e in CategoriesWithTaskCountsAsWritten(cs, ts) ==> e.id != c.id
  {
    var sorted := CategoriesByName(cs);
    PermutationKeepsUniqueKeys(cs, sorted, CategoryKey);
    var missing := sorted[DefaultLimit];
    assert missing in multiset(cs);
    var r := CategoriesWithTaskCountsAsWritten(cs, ts);
    var page := AllCategories(cs, 0, DefaultLimit);
    forall e | e in r ensures e.id != missing.id {
      var k :| 0 <= k < |r| && r[k] == e;
      assert page[k] == sorted[k];
    }
  }

  /**
    What `get_categories_with_task_counts` promises: one entry per category of
    the table, in name order, carrying that category's total and completed
    task counts.
   */
  function CategoriesWithTaskCounts(cs: seq<Category>, ts: seq<Task>): (r: seq<CategoryCounts>)
    ensures |r| == |cs|
    ensures forall i, j :: 0 <= i < j < |r| ==> LexLe(r[i].name, r[j].name)
    ensures forall k :: 0 <= k < |r| ==>
      && r[k].totalTasks == |InCategory(ts, r[k].id)|
      && r[k].completedTasks == CountCompleted(InCategory(ts, r[k].id))
      && r[k].completedTasks <= r[k].totalTasks
    ensures forall c :: c in cs ==> CountsFor(c, ts) in r
    ensures forall e :: e in r ==> exists c :: c in cs && e == CountsFor(c, ts)
  {
    var sorted := CategoriesByName(cs);
    CountsOfPermutation(cs, sorted, ts);
    CountsOf(sorted, ts)
  }

  /** Listing a permutation of the categories lists an entry for each of them, and nothing else. */
  lemma CountsOfPermutation(cs: seq<Category>, sorted: seq<Category>, ts: seq<Task>)
    requires multiset(sorted) == multiset(cs)
    ensures forall c :: c in cs ==> CountsFor(c, ts) in CountsOf(sorted, ts)
    ensures forall e :: e in CountsOf(sorted, ts) ==> exists c :: c in cs && e == CountsFor(c, ts)
  {
    var r := CountsOf(sorted, ts);
    forall c | c in cs ensures CountsFor(c, ts) in r {
      assert c in multiset(sorted);
      var k :| 0 <= k < |sorted| && sorted[k] == c;
      assert r[k] == CountsFor(c, ts);
    }
    forall e | e in r ensures exists c :: c in cs && e == CountsFor(c, ts) {
      var k :| 0 <= k < |r| && r[k] == e;
      assert sorted[k] in multiset(cs);
    }
  }

  /** The append loop of `get_categories_with_task_counts`. */
  method AppendCounts(categories: seq<Category>, ts: seq<Task>) returns (r: seq<CategoryCounts>)
    ensures r == CountsOf(categories, ts)
  {
    r := [];
    for k := 0 to |categories|
      invariant |r| == k
      invariant forall j :: 0 <= j < k ==> r[j] == CountsFor(categories[j], ts)
    {
      r := r + [CountsFor(categories[k], ts)];
    }
  }

  /** `get_categories_with_task_counts`, over every category. */
  method GetCategoriesWithTaskCounts(cs: seq<Category>, ts: seq<Task>) returns (r: seq<CategoryCounts>)
    ensures r == CategoriesWithTaskCounts(cs, ts)
  {
    var categories := CategoriesByName(cs);
    r := AppendCounts(categories, ts);
  }
}
