/**
 * The task table of one planner: lookups scoped to a user, creation, partial
 * updates, deletion, and the breakdown of one task into subtasks with the
 * completion service.
 */
module TaskService {
  import opened Wrappers
  import opened Seqs
  import opened Store
  import YandexGpt
  import Text

  /**
   * The fields a caller supplies for a new task. Omitted fields take the column
   * defaults: not completed, created now, no priority.
   */
  datatype TaskDto = TaskDto(name: string, isCompleted: Option<bool>, createdAt: Option<Timestamp>, priority: Option<Priority>)

  /** The fields an update may carry; an omitted field is left as it is. */
  datatype TaskPatch = TaskPatch(name: Option<string>, isCompleted: Option<bool>, createdAt: Option<Timestamp>, priority: Option<Priority>)

  predicate IsTaskOf(t: Task, taskId: Id, userId: Id) {
    t.id == taskId && t.userId == userId
  }

  predicate HasId(t: Task, taskId: Id) {
    t.id == taskId
  }

  predicate OwnedBy(t: Task, userId: Id) {
    t.userId == userId
  }

  /** `getById`: the task with this id, but only when it belongs to this user. */
  function GetById(db: Database, taskId: Id, userId: Id): (r: Option<Task>)
    reads db
    ensures r.Some? <==> exists i :: 0 <= i < |db.tasks| && IsTaskOf(db.tasks[i], taskId, userId)
    ensures r.Some? ==> r.value in db.tasks && r.value.id == taskId && r.value.userId == userId
  {
    match FindIndex(db.tasks, t => IsTaskOf(t, taskId, userId))
    case None => None
    case Some(i) => Some(db.tasks[i])
  }

  /** `getAll`: exactly the user's tasks, in table order. */
  function GetAll(db: Database, userId: Id): (r: seq<Task>)
    reads db
    ensures forall t :: t in r <==> t in db.tasks && t.userId == userId
    ensures |r| <= |db.tasks|
  {
    Filter(db.tasks, t => OwnedBy(t, userId))
  }

  /** The row `create` writes for a dto. */
  function NewTask(id: Id, userId: Id, dto: TaskDto, now: Timestamp): Task {
    Task(id, userId, dto.name, dto.isCompleted.GetOr(false), dto.createdAt.GetOr(now), dto.priority)
  }

  /** `create`: a new row owned by the user, or `NotFound` when the user to connect does not exist. */
  method Create(db: Database, userId: Id, dto: TaskDto, now: Timestamp) returns (r: Result<Task, StoreError>)
    requires db.Valid()
    modifies db`tasks, db`nextId
    ensures db.Valid()
    ensures !old(db.HasUser(userId)) ==> r == Err(NotFound) && unchanged(db)
    ensures old(db.HasUser(userId)) ==>
      && r == Ok(NewTask(old(db.nextId), userId, dto, now))
      && db.tasks == old(db.tasks) + [r.value]
      && db.nextId == old(db.nextId) + 1
  {
    if !db.HasUser(userId) {
      return Err(NotFound);
    }
    var t := NewTask(db.nextId, userId, dto, now);
    AppendTaskKeepsInvariant(db.users, db.tasks, db.blocks, db.sessions, db.rounds, db.nextId, t);
    db.tasks := db.tasks + [t];
    db.nextId := db.nextId + 1;
    r := Ok(t);
  }

  /** A task with the supplied fields of `patch` written over it. */
  function Patched(t: Task, patch: TaskPatch): (r: Task)
    ensures r.id == t.id && r.userId == t.userId
  {
    Task(t.id, t.userId, patch.name.GetOr(t.name), patch.isCompleted.GetOr(t.isCompleted),
         patch.createdAt.GetOr(t.createdAt), if patch.priority.Some? then patch.priority else t.priority)
  }

  /** The supplied fields of the patch are written and the omitted ones keep their values. */
  lemma PatchedFields(t: Task, patch: TaskPatch)
    ensures patch.name.Some? ==> Patched(t, patch).name == patch.name.value
    ensures patch.name.None? ==> Patched(t, patch).name == t.name
    ensures patch.isCompleted.Some? ==> Patched(t, patch).isCompleted == patch.isCompleted.value
    ensures patch.isCompleted.None? ==> Patched(t, patch).isCompleted == t.isCompleted
    ensures patch.createdAt.Some? ==> Patched(t, patch).createdAt == patch.createdAt.value
    ensures patch.createdAt.None? ==> Patched(t, patch).createdAt == t.createdAt
    ensures patch.priority.Some? ==> Patched(t, patch).priority == patch.priority
    ensures patch.priority.None? ==> Patched(t, patch).priority == t.priority
  {
  }

  /** An empty patch changes nothing, and a patch applied twice is the patch applied once. */
  lemma PatchedIdempotent(t: Task, patch: TaskPatch)
    ensures Patched(t, TaskPatch(None, None, None, None)) == t
    ensures Patched(Patched(t, patch), patch) == Patched(t, patch)
  {
  }

  /**
   * `update`: only the row matching both the id and the user changes; with no
   * such row the store refuses with `NotFound` and nothing changes.
   */
  method Update(db: Database, taskId: Id, userId: Id, patch: TaskPatch) returns (r: Result<Task, StoreError>)
    requires db.Valid()
    modifies db`tasks
    ensures db.Valid()
    ensures var i := FindIndex(old(db.tasks), t => IsTaskOf(t, taskId, userId));
      if i.None? then r == Err(NotFound) && db.tasks == old(db.tasks)
      else
        && r == Ok(Patched(old(db.tasks)[i.value], patch))
        && db.tasks == old(db.tasks)[i.value := r.value]
    ensures r.Err? <==> old(GetById(db, taskId, userId)).None?
  {
    var i := FindIndex(db.tasks, t => IsTaskOf(t, taskId, userId));
    if i.None? {
      return Err(NotFound);
    }
    var t := Patched(db.tasks[i.value], patch);
    ReplaceKeysBelow(db.tasks, i.value, t, TaskKey, db.nextId);
    db.tasks := db.tasks[i.value := t];
    r := Ok(t);
  }

  /** `delete`: removes the row with this id, whoever owns it, and returns it. */
  method Delete(db: Database, taskId: Id) returns (r: Result<Task, StoreError>)
    requires db.Valid()
    modifies db`tasks
    ensures db.Valid()
    ensures var i := FindIndex(old(db.tasks), t => HasId(t, taskId));
      if i.None? then r == Err(NotFound) && db.tasks == old(db.tasks)
      else
        && r == Ok(old(db.tasks)[i.value])
        && db.tasks == old(db.tasks)[..i.value] + old(db.tasks)[i.value + 1..]
    ensures !db.HasTask(taskId)
  {
    var i := FindIndex(db.tasks, t => HasId(t, taskId));
    if i.None? {
      return Err(NotFound);
    }
    var k := i.value;
    var rows := db.tasks;
    RemoveKeysBelow(rows, k, TaskKey, db.nextId);
    r := Ok(rows[k]);
    db.tasks := rows[..k] + rows[k + 1..];
    forall j | 0 <= j < |db.tasks| ensures db.tasks[j].id != taskId {
      var j' := if j < k then j else j + 1;
      assert db.tasks[j] == rows[j'] && j' != k;
    }
  }

  // ---------------------------------------------------------------------------
  // Breaking a task down

  /** What `breakdownTask` returns: the task with no subtasks, or the task and the number of rows written. */
  datatype Breakdown = NoSubtasks(originalTask: Task) | Created(originalTask: Task, count: nat)

  datatype BreakdownError = TaskNotFound | GenerationError(error: YandexGpt.ServiceError) | StoreRefused(cause: StoreError)

  /** The rows the batch insert writes: one per name, owned by the parent's user and dated as the parent. */
  function Children(parent: Task, names: seq<string>, firstId: Id): (r: seq<Task>)
    ensures |r| == |names|
  {
    seq(|names|, k requires 0 <= k < |names| => Task(firstId + k, parent.userId, names[k], false, parent.createdAt, None))
  }

  /** Every child carries its name in order, inherits the parent's owner and date, and has a fresh identifier. */
  lemma ChildrenInherit(parent: Task, names: seq<string>, firstId: Id)
    ensures forall k :: 0 <= k < |names| ==>
      var c := Children(parent, names, firstId)[k];
      c.name == names[k] && c.userId == parent.userId && c.createdAt == parent.createdAt && !c.isCompleted
    ensures KeysBelow(Children(parent, names, firstId), TaskKey, firstId + |names|)
    ensures forall k :: 0 <= k < |names| ==> firstId <= Children(parent, names, firstId)[k].id
  {
    ConsecutiveKeysBelow(Children(parent, names, firstId), TaskKey, firstId);
  }

  /** The batch insert of the transaction: all the children are written together. */
  method InsertChildren(db: Database, parent: Task, names: seq<string>)
    requires db.Valid() && parent in db.tasks
    modifies db`tasks, db`nextId
    ensures db.Valid()
    ensures db.tasks == old(db.tasks) + Children(parent, names, old(db.nextId))
    ensures db.nextId == old(db.nextId) + |names|
  {
    var rows := Children(parent, names, db.nextId);
    ChildrenInherit(parent, names, db.nextId);
    var i :| 0 <= i < |db.tasks| && db.tasks[i] == parent;
    assert db.HasUser(parent.userId);
    AppendTasksKeepInvariant(db.users, db.tasks, db.blocks, db.sessions, db.rounds, db.nextId, rows);
    db.tasks := db.tasks + rows;
    db.nextId := db.nextId + |names|;
  }

  /**
   * A value handed to the batch for the `name` column: a string, or a whole
   * generated `(name, priority)` pair.
   */
  datatype NameValue = StringValue(s: string) | PairValue(name: string, priority: Priority)

  /** The store's check of the `name` column: a batch is accepted only when every value is a string. */
  function ValidateNames(values: seq<NameValue>): (r: Result<seq<string>, StoreError>)
    ensures r.Ok? <==> forall k :: 0 <= k < |values| ==> values[k].StringValue?
    ensures r.Err? ==> r.error == InvalidValue
    ensures r.Ok? ==> |r.value| == |values| && forall k :: 0 <= k < |values| ==> r.value[k] == values[k].s
  {
    if values == [] then Ok([])
    else match (values[0], ValidateNames(values[1..]))
      case (StringValue(x), Ok(rest)) => Ok([x] + rest)
      case _ => Err(InvalidValue)
  }

  /** `tx.task.createMany`: either every value is valid and all the children are written, or nothing is. */
  method CreateMany(db: Database, parent: Task, values: seq<NameValue>) returns (r: Result<nat, StoreError>)
    requires db.Valid() && parent in db.tasks
    modifies db`tasks, db`nextId
    ensures db.Valid()
    ensures ValidateNames(values).Err? ==> r == Err(ValidateNames(values).error) && unchanged(db)
    ensures ValidateNames(values).Ok? ==>
      && r == Ok(|values|)
      && db.tasks == old(db.tasks) + Children(parent, ValidateNames(values).value, old(db.nextId))
      && db.nextId == old(db.nextId) + |values|
  {
    var names := ValidateNames(values);
    if names.Err? {
      return Err(names.error);
    }
    InsertChildren(db, parent, names.value);
    r := Ok(|values|);
  }

  /** The values the source hands the batch: each generated pair, as it is, for the `name` column. */
  function PairValues(xs: seq<YandexGpt.Subtask>): (r: seq<NameValue>)
    ensures |r| == |xs|
  {
    seq(|xs|, i requires 0 <= i < |xs| => PairValue(xs[i].name, xs[i].priority))
  }

  /** The values for a list of names. */
  function TextValues(names: seq<string>): (r: seq<NameValue>)
    ensures |r| == |names|
  {
    seq(|names|, i requires 0 <= i < |names| => StringValue(names[i]))
  }

  /** A batch that holds any generated pair is refused. */
  lemma PairValuesRefused(xs: seq<YandexGpt.Subtask>)
    requires xs != []
    ensures ValidateNames(PairValues(xs)) == Err(InvalidValue)
  {
    assert !PairValues(xs)[0].StringValue?;
  }

  /** A batch of names is accepted with exactly those names. */
  lemma TextValuesAccepted(names: seq<string>)
    ensures ValidateNames(TextValues(names)) == Ok(names)
  {
    var r := ValidateNames(TextValues(names));
    assert r.Ok?;
    assert r.value == names;
  }

  /**
   * `breakdownTask` as the source writes it: the batch gets each generated pair
   * for the `name` column, so any non-empty answer is refused by the store and
   * no row is written.
   */
  method BreakdownTaskAsWritten(db: Database, taskId: Id, userId: Id, config: YandexGpt.Config, outcome: YandexGpt.CallOutcome)
    returns (r: Result<Breakdown, BreakdownError>, sent: Option<YandexGpt.Request>)
    requires db.Valid()
    modifies db`tasks, db`nextId
    ensures db.Valid()
    ensures old(GetById(db, taskId, userId)).None? ==>
      r == Err(TaskNotFound) && sent == None && unchanged(db)
    ensures old(GetById(db, taskId, userId)).Some? ==>
      var task := old(GetById(db, taskId, userId)).value;
      var answer := YandexGpt.Answer(config, task.name, outcome);
      && sent == YandexGpt.Sent(config, task.name)
      && (answer.Err? ==> r == Err(GenerationError(answer.error)) && unchanged(db))
      && (answer.Ok? && answer.value == [] ==> r == Ok(NoSubtasks(task)) && unchanged(db))
      && (answer.Ok? && answer.value != [] ==> r == Err(StoreRefused(InvalidValue)) && unchanged(db))
  {
    var found := GetById(db, taskId, userId);
    if found.None? {
      return Err(TaskNotFound), None;
    }
    var task := found.value;
    var generated;
    generated, sent := YandexGpt.GenerateSubtasks(config, task.name, outcome);
    if generated.Err? {
      return Err(GenerationError(generated.error)), sent;
    }
    if generated.value == [] {
      return Ok(NoSubtasks(task)), sent;
    }
    var written := CreateMany(db, task, PairValues(generated.value));
    r := match written
      case Err(e) => Err(StoreRefused(e))
      case Ok(n) => Ok(Created(task, n));
    PairValuesRefused(generated.value);
  }

  // The reply `Buy milk | high`, step by step.

  lemma BuyMilkClean()
    ensures YandexGpt.CleanLine("Buy milk | high") == "Buy milk | high"
  {
    var line := "Buy milk | high";
    assert !YandexGpt.IsMarker(line[0]) && !Text.IsSpace(line[0]) && !Text.IsSpace(line[|line| - 1]);
    Text.StripLeadingStops(line, YandexGpt.IsMarker);
    Text.StripLeadingStops(line, Text.IsSpace);
    Text.StripTrailingStops(line, Text.IsSpace);
  }

  lemma BuyMilkName()
    ensures Text.Trim("Buy milk ") == "Buy milk"
  {
    var name := "Buy milk ";
    Text.StripLeadingStops(name, Text.IsSpace);
    assert Text.IsSpace(name[|name| - 1]) && name[..|name| - 1] == "Buy milk";
    Text.StripTrailingStep(name, Text.IsSpace);
    Text.StripTrailingStops("Buy milk", Text.IsSpace);
  }

  lemma BuyMilkField()
    ensures Text.Trim(" high") == "high"
  {
    var field := " high";
    assert Text.IsSpace(field[0]) && field[1..] == "high";
    Text.StripLeadingStep(field, Text.IsSpace);
    Text.StripLeadingStops("high", Text.IsSpace);
    Text.StripTrailingStops("high", Text.IsSpace);
  }

  lemma HighPriority()
    ensures YandexGpt.PriorityOf("high") == High
  {
    assert Text.Lower("high") == "high";
    assert Text.Contains("high", "high");
  }

  /** The reply `Buy milk | high` gives one subtask, named `Buy milk`, of high priority. */
  lemma BuyMilkReply()
    ensures YandexGpt.Subtasks("Buy milk | high") == [YandexGpt.Subtask("Buy milk", High)]
  {
    var name, field := "Buy milk ", " high";
    assert name + "|" + field == "Buy milk | high";
    assert '|' !in name && '|' !in field && '\n' !in name && '\n' !in field;
    BuyMilkClean();
    BuyMilkName();
    BuyMilkField();
    HighPriority();
    YandexGpt.SubtasksOneLine(name, field);
  }

  /** The one subtask of `Buy milk | high` is refused by the source's batch and written by the corrected one. */
  lemma BuyMilkBatch()
    ensures ValidateNames(PairValues([YandexGpt.Subtask("Buy milk", High)])) == Err(InvalidValue)
    ensures ValidateNames(TextValues(YandexGpt.Names([YandexGpt.Subtask("Buy milk", High)]))) == Ok(["Buy milk"])
  {
    var xs := [YandexGpt.Subtask("Buy milk", High)];
    PairValuesRefused(xs);
    assert YandexGpt.Names(xs) == ["Buy milk"];
    TextValuesAccepted(["Buy milk"]);
  }

  /**
   * `breakdownTask` as intended: looks the task up for the user, asks the completion service
   * to split its name, and writes one child row per subtask name in a single
   * batch. A missing task is refused before any request; an empty answer writes
   * nothing.
   */
  method BreakdownTask(db: Database, taskId: Id, userId: Id, config: YandexGpt.Config, outcome: YandexGpt.CallOutcome)
    returns (r: Result<Breakdown, BreakdownError>, sent: Option<YandexGpt.Request>)
    requires db.Valid()
    modifies db`tasks, db`nextId
    ensures db.Valid()
    ensures old(GetById(db, taskId, userId)).None? ==>
      r == Err(TaskNotFound) && sent == None && unchanged(db)
    ensures old(GetById(db, taskId, userId)).Some? ==>
      var task := old(GetById(db, taskId, userId)).value;
      var answer := YandexGpt.Answer(config, task.name, outcome);
      && sent == YandexGpt.Sent(config, task.name)
      && (answer.Err? ==> r == Err(GenerationError(answer.error)) && unchanged(db))
      && (answer.Ok? && answer.value == [] ==> r == Ok(NoSubtasks(task)) && unchanged(db))
      && (answer.Ok? && answer.value != [] ==>
            && r == Ok(Created(task, |answer.value|))
            && db.tasks == old(db.tasks) + Children(task, YandexGpt.Names(answer.value), old(db.nextId))
            && db.nextId == old(db.nextId) + |answer.value|)
  {
    var found := GetById(db, taskId, userId);
    if found.None? {
      return Err(TaskNotFound), None;
    }
    var task := found.value;
    var generated;
    generated, sent := YandexGpt.GenerateSubtasks(config, task.name, outcome);
    if generated.Err? {
      return Err(GenerationError(generated.error)), sent;
    }
    if generated.value == [] {
      return Ok(NoSubtasks(task)), sent;
    }
    // The generator hands back (name, priority) pairs although it is declared to
    // return names; this is the intended batch, one name per pair. The priority
    // a pair carries is not written.
    var names := YandexGpt.Names(generated.value);
    TextValuesAccepted(names);
    var written := CreateMany(db, task, TextValues(names));
    r := Ok(Created(task, |names|));
  }
}
