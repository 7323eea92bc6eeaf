/**
  Request validation for tasks: the field bounds and the two field validators.
  A `TaskUpdate` holds `Some` for every field the client supplied.
 */
module TaskSchema {
  import opened Wrappers
  import opened Models

  /** Upper bound of both minute fields: one week. */
  const MaxMinutes := 10080
  const MaxTitleLength := 200
  const MaxDescriptionLength := 250

  datatype FieldError =
    | TitleLength
    | DescriptionTooLong
    | EstimatedNotPositive
    | EstimatedTooLarge
    | ActualNegative
    | ActualTooLarge
    | NegativePosition

  predicate TitleOk(title: string) {
    1 <= |title| <= MaxTitleLength
  }

  predicate DescriptionOk(description: Option<string>) {
    description.Some? ==> |description.value| <= MaxDescriptionLength
  }

  /** `TaskBase.validate_estimated_minutes`. */
  function ValidateEstimatedMinutes(v: int): (r: Result<int, FieldError>)
    ensures r.Success? <==> 1 <= v <= MaxMinutes
    ensures r.Success? ==> r.value == v
    ensures v <= 0 ==> r == Failure(EstimatedNotPositive)
  {
    if v <= 0 then Failure(EstimatedNotPositive)
    else if v > MaxMinutes then Failure(EstimatedTooLarge)
    else Success(v)
  }

  /** `TaskUpdate.validate_estimated_minutes`: absent passes, otherwise as on creation. */
  function ValidateEstimatedMinutesUpdate(v: Option<int>): (r: Result<Option<int>, FieldError>)
    ensures r.Success? <==> v.None? || ValidateEstimatedMinutes(v.value).Success?
    ensures r.Success? ==> r.value == v
  {
    match v
    case None => Success(None)
    case Some(m) =>
      match ValidateEstimatedMinutes(m)
      case Success(_) => Success(v)
      case Failure(e) => Failure(e)
  }

  /** `TaskUpdate.validate_actual_minutes`. */
  function ValidateActualMinutes(v: Option<int>): (r: Result<Option<int>, FieldError>)
    ensures r.Success? <==> v.None? || 0 <= v.value <= MaxMinutes
    ensures r.Success? ==> r.value == v
  {
    match v
    case None => Success(None)
    case Some(m) =>
      if m < 0 then Failure(ActualNegative)
      else if m > MaxMinutes then Failure(ActualTooLarge)
      else Success(v)
  }

  /** `TaskCreate`; `categoryId` is optional, as the service treats it. */
  datatype TaskCreate = TaskCreate(
    blockId: Id,
    categoryId: Option<Id>,
    title: string,
    description: Option<string>,
    estimatedMinutes: int,
    position: int)

  /** The bounds a `TaskCreate` meets once accepted. */
  predicate ValidTaskCreate(tc: TaskCreate) {
    && TitleOk(tc.title)
    && DescriptionOk(tc.description)
    && 1 <= tc.estimatedMinutes <= MaxMinutes
    && tc.position >= 0
  }

  function Check(ok: bool, e: FieldError): seq<FieldError> {
    if ok then [] else [e]
  }

  function ResultErrors<T>(r: Result<T, FieldError>): seq<FieldError> {
    if r.Success? then [] else [r.error]
  }

  /**
    Parsing a `TaskCreate`: every field's `Field(...)` bound, then the estimate's
    validator; all failing fields are reported, in declaration order.
   */
  function ValidateTaskCreate(tc: TaskCreate): (r: Result<TaskCreate, seq<FieldError>>)
    ensures r.Success? <==> ValidTaskCreate(tc)
    ensures r.Success? ==> r.value == tc
    ensures r.Failure? ==> |r.error| > 0
    ensures r.Failure? ==> (TitleLength in r.error <==> !TitleOk(tc.title))
    ensures r.Failure? ==> (EstimatedTooLarge in r.error <==> tc.estimatedMinutes > MaxMinutes)
    ensures r.Failure? ==> (NegativePosition in r.error <==> tc.position < 0)
  {
    var errors :=
      Check(TitleOk(tc.title), TitleLength)
      + Check(DescriptionOk(tc.description), DescriptionTooLong)
      + ResultErrors(ValidateEstimatedMinutes(tc.estimatedMinutes))
      + Check(tc.position >= 0, NegativePosition);
    if errors == [] then Success(tc) else Failure(errors)
  }

  /** `TaskUpdate`: `Some` marks a supplied field. */
  datatype TaskUpdate = TaskUpdate(
    blockId: Option<Id>,
    categoryId: Option<Id>,
    title: Option<string>,
    description: Option<string>,
    estimatedMinutes: Option<int>,
    actualMinutes: Option<int>,
    completed: Option<bool>,
    position: Option<int>)

  /** The bounds a `TaskUpdate` meets once accepted; absent fields pass. */
  predicate ValidTaskUpdate(u: TaskUpdate) {
    && (u.title.Some? ==> TitleOk(u.title.value))
    && DescriptionOk(u.description)
    && (u.estimatedMinutes.Some? ==> 1 <= u.estimatedMinutes.value <= MaxMinutes)
    && (u.actualMinutes.Some? ==> 0 <= u.actualMinutes.value <= MaxMinutes)
    && (u.position.Some? ==> u.position.value >= 0)
  }

  function ValidateTaskUpdate(u: TaskUpdate): (r: Result<TaskUpdate, seq<FieldError>>)
    ensures r.Success? <==> ValidTaskUpdate(u)
    ensures r.Success? ==> r.value == u
    ensures r.Failure? ==> |r.error| > 0
  {
    var errors :=
      Check(u.title.None? || TitleOk(u.title.value), TitleLength)
      + Check(DescriptionOk(u.description), DescriptionTooLong)
      + ResultErrors(ValidateEstimatedMinutesUpdate(u.estimatedMinutes))
      + ResultErrors(ValidateActualMinutes(u.actualMinutes))
      + Check(u.position.None? || u.position.value >= 0, NegativePosition);
    if errors == [] then Success(u) else Failure(errors)
  }

  /** One `setattr` of an update: a field name with its new value. */
  datatype TaskPatch =
    | SetBlockId(blockId: Id)
    | SetCategoryId(categoryId: Id)
    | SetTitle(title: string)
    | SetDescription(description: string)
    | SetEstimatedMinutes(estimatedMinutes: int)
    | SetActualMinutes(actualMinutes: int)
    | SetCompleted(completed: bool)
    | SetPosition(position: int)

  /** The patches for the two ids, as far as the update supplies them. */
  function IdPatches(u: TaskUpdate): seq<TaskPatch> {
    (if u.blockId.Some? then [SetBlockId(u.blockId.value)] else [])
    + (if u.categoryId.Some? then [SetCategoryId(u.categoryId.value)] else [])
  }

  /** The patches for the title and the description, as far as supplied. */
  function TextPatches(u: TaskUpdate): seq<TaskPatch> {
    (if u.title.Some? then [SetTitle(u.title.value)] else [])
    + (if u.description.Some? then [SetDescription(u.description.value)] else [])
  }

  /** The patches for the two minute counts, as far as supplied. */
  function MinutesPatches(u: TaskUpdate): seq<TaskPatch> {
    (if u.estimatedMinutes.Some? then [SetEstimatedMinutes(u.estimatedMinutes.value)] else [])
    + (if u.actualMinutes.Some? then [SetActualMinutes(u.actualMinutes.value)] else [])
  }

  /** The patches for the completion flag and the position, as far as supplied. */
  function StatusPatches(u: TaskUpdate): seq<TaskPatch> {
    (if u.completed.Some? then [SetCompleted(u.completed.value)] else [])
    + (if u.position.Some? then [SetPosition(u.position.value)] else [])
  }

  /** `model_dump(exclude_unset=True)`: the supplied fields, in declaration order. */
  function UpdateData(u: TaskUpdate): seq<TaskPatch> {
    IdPatches(u) + TextPatches(u) + MinutesPatches(u) + StatusPatches(u)
  }
}
