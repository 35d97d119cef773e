// The task record of the smart task manager, its two enumerations, and its
// dictionary form (task_manager.py, classes Priority, EnergyLevel and Task).
//
// Datetimes are whole minutes since a midnight epoch; a datetime's hour of
// day is (t / 60) % 24.

module TaskModel {

  datatype Option<T> = None | Some(value: T)

  /// A value or the message of the exception the source raises instead.
  datatype Result<T> = Ok(value: T) | Err(message: string)

  /// Priority levels, with the enumeration's integer values 1..4.
  datatype Priority = Low | Medium | High | Urgent {
    function Value(): (v: int)
      ensures 1 <= v <= 4
    {
      match this
      case Low => 1
      case Medium => 2
      case High => 3
      case Urgent => 4
    }

    /// The enumeration member's name, as `Priority.name` gives it.
    function Name(): string {
      match this
      case Low => "LOW"
      case Medium => "MEDIUM"
      case High => "HIGH"
      case Urgent => "URGENT"
    }
  }

  /// Energy levels, with the enumeration's integer values 1..3.
  datatype EnergyLevel = Low | Medium | High {
    function Value(): (v: int)
      ensures 1 <= v <= 3
    {
      match this
      case Low => 1
      case Medium => 2
      case High => 3
    }

    function Name(): string {
      match this
      case Low => "LOW"
      case Medium => "MEDIUM"
      case High => "HIGH"
    }
  }

  /// `Priority[name]`: the member with that exact name, or None (a KeyError).
  function PriorityNamed(name: string): (r: Option<Priority>)
    ensures r.Some? ==> r.value.Name() == name
    ensures forall p: Priority :: p.Name() == name ==> r == Some(p)
  {
    if name == "LOW" then Some(Priority.Low)
    else if name == "MEDIUM" then Some(Priority.Medium)
    else if name == "HIGH" then Some(Priority.High)
    else if name == "URGENT" then Some(Priority.Urgent)
    else None
  }

  /// `EnergyLevel[name]`: the member with that exact name, or None (a KeyError).
  function EnergyNamed(name: string): (r: Option<EnergyLevel>)
    ensures r.Some? ==> r.value.Name() == name
    ensures forall e: EnergyLevel :: e.Name() == name ==> r == Some(e)
  {
    if name == "LOW" then Some(EnergyLevel.Low)
    else if name == "MEDIUM" then Some(EnergyLevel.Medium)
    else if name == "HIGH" then Some(EnergyLevel.High)
    else None
  }

  datatype Task = Task(
    taskId: string,
    title: string,
    description: string,
    durationMinutes: int,
    priority: Priority,
    deadline: Option<int>,
    requiredEnergy: EnergyLevel,
    tags: seq<string>,
    completed: bool,
    scheduledTime: Option<int>,
    createdAt: int)

  /// `Task.__init__`. The generated id (`task_<timestamp>`) and the creation
  /// time (`datetime.now()`) are inputs. An absent or empty id is replaced by
  /// the generated one, as `task_id or self._generate_id()` does.
  function NewTask(title: string, description: string, durationMinutes: int,
                   priority: Priority, deadline: Option<int>,
                   requiredEnergy: EnergyLevel, tags: Option<seq<string>>,
                   taskId: Option<string>, generatedId: string, now: int): (t: Task)
    ensures !t.completed && t.scheduledTime.None? && t.createdAt == now
    ensures t.title == title && t.durationMinutes == durationMinutes && t.priority == priority
    ensures t.deadline == deadline && t.requiredEnergy == requiredEnergy && t.description == description
    ensures t.tags == if tags.Some? then tags.value else []
    ensures taskId.Some? && taskId.value != "" ==> t.taskId == taskId.value
    ensures taskId.None? || taskId.value == "" ==> t.taskId == generatedId
  {
    Task(
      taskId := if taskId.Some? && taskId.value != "" then taskId.value else generatedId,
      title := title,
      description := description,
      durationMinutes := durationMinutes,
      priority := priority,
      deadline := deadline,
      requiredEnergy := requiredEnergy,
      tags := if tags.Some? then tags.value else [],
      completed := false,
      scheduledTime := None,
      createdAt := now)
  }

  /// One key of a JSON object: absent, present and null, or present with a
  /// value.
  datatype Field<T> = Absent | Null | Present(value: T)

  /// `data.get(key, default)`: the default for an absent key, None for null.
  function Get<T>(f: Field<T>, default: T): (r: Option<T>)
    ensures f.Absent? ==> r == Some(default)
    ensures f.Null? <==> r.None?
    ensures f.Present? ==> r == Some(f.value)
  {
    match f
    case Absent => Some(default)
    case Null => None
    case Present(v) => Some(v)
  }

  /// The value of a key whose absence and null both count as "not given"
  /// (`if data.get(key)`, `value or default`).
  function Given<T>(f: Field<T>): (r: Option<T>)
    ensures r.Some? <==> f.Present?
    ensures f.Present? ==> r.value == f.value
  {
    if f.Present? then Some(f.value) else None
  }

  function GetOr<T>(o: Option<T>, default: T): T {
    if o.Some? then o.value else default
  }

  /// The dictionary `to_dict` writes and `from_dict` reads. Datetimes stay
  /// minutes (their ISO text form is not modelled).
  datatype TaskDict = TaskDict(
    taskId: Field<string>,
    title: Field<string>,
    description: Field<string>,
    durationMinutes: Field<int>,
    priority: Field<string>,
    deadline: Field<int>,
    requiredEnergy: Field<string>,
    tags: Field<seq<string>>,
    completed: Field<bool>,
    scheduledTime: Field<int>,
    createdAt: Field<int>)

  /// A missing datetime is written as null.
  function OptionalField(o: Option<int>): (f: Field<int>)
    ensures o.None? <==> f.Null?
    ensures o.Some? ==> f == Present(o.value)
  {
    if o.Some? then Present(o.value) else Null
  }

  /// `Task.to_dict`: every key is written; a missing deadline or scheduled
  /// time is null.
  function ToDict(t: Task): (d: TaskDict)
    ensures d.title == Present(t.title) && d.taskId == Present(t.taskId)
    ensures d.priority == Present(t.priority.Name()) && d.requiredEnergy == Present(t.requiredEnergy.Name())
    ensures d.deadline.Null? <==> t.deadline.None?
    ensures d.scheduledTime.Null? <==> t.scheduledTime.None?
    ensures !d.taskId.Absent? && !d.description.Absent? && !d.durationMinutes.Absent? && !d.tags.Absent?
            && !d.completed.Absent? && !d.createdAt.Absent?
  {
    TaskDict(
      taskId := Present(t.taskId),
      title := Present(t.title),
      description := Present(t.description),
      durationMinutes := Present(t.durationMinutes),
      priority := Present(t.priority.Name()),
      deadline := OptionalField(t.deadline),
      requiredEnergy := Present(t.requiredEnergy.Name()),
      tags := Present(t.tags),
      completed := Present(t.completed),
      scheduledTime := OptionalField(t.scheduledTime),
      createdAt := Present(t.createdAt))
  }

  /// The keys whose null value `from_dict` would store as None in a field the
  /// task record types without None.
  predicate NullInRequiredField(d: TaskDict) {
    d.title.Null? || d.description.Null? || d.durationMinutes.Null? || d.completed.Null?
  }

  /// The priority `Priority[data.get('priority', 'MEDIUM')]` looks up; None
  /// when the lookup raises KeyError (an unknown name, or null).
  function DictPriority(d: TaskDict): (r: Option<Priority>)
    ensures d.priority.Null? ==> r.None?
    ensures d.priority.Absent? ==> r == Some(Priority.Medium)
    ensures d.priority.Present? ==> r == PriorityNamed(d.priority.value)
  {
    var name := Get(d.priority, "MEDIUM");
    if name.None? then None else PriorityNamed(name.value)
  }

  /// The energy `EnergyLevel[data.get('required_energy', 'MEDIUM')]` looks up.
  function DictEnergy(d: TaskDict): (r: Option<EnergyLevel>)
    ensures d.requiredEnergy.Null? ==> r.None?
    ensures d.requiredEnergy.Absent? ==> r == Some(EnergyLevel.Medium)
    ensures d.requiredEnergy.Present? ==> r == EnergyNamed(d.requiredEnergy.value)
  {
    var name := Get(d.requiredEnergy, "MEDIUM");
    if name.None? then None else EnergyNamed(name.value)
  }

  /// `Task.from_dict`: an absent title, or a priority or energy that is null
  /// or not a member name, raises KeyError. Absent keys take their defaults;
  /// null and absent are the same for the id, the tags and the datetimes.
  function FromDict(d: TaskDict, generatedId: string, now: int): (r: Result<Task>)
    ensures d.title.Absent? || DictPriority(d).None? || DictEnergy(d).None? ==> r.Err?
    ensures r.Ok? <==> d.title.Present? && !NullInRequiredField(d) && DictPriority(d).Some? && DictEnergy(d).Some?
    ensures r.Ok? ==> && r.value.title == d.title.value
                      && r.value.description == GetOr(Given(d.description), "")
                      && r.value.durationMinutes == GetOr(Given(d.durationMinutes), 30)
                      && r.value.completed == GetOr(Given(d.completed), false)
    ensures r.Ok? ==> r.value.priority == DictPriority(d).value && r.value.requiredEnergy == DictEnergy(d).value
    ensures r.Ok? ==> r.value.deadline == Given(d.deadline) && r.value.scheduledTime == Given(d.scheduledTime)
    ensures r.Ok? ==> r.value.tags == GetOr(Given(d.tags), [])
    ensures r.Ok? ==> r.value.createdAt == GetOr(Given(d.createdAt), now)
    ensures r.Ok? ==> r.value.taskId == if d.taskId.Present? && d.taskId.value != "" then d.taskId.value else generatedId
  {
    if d.title.Absent? then Err("KeyError: 'title'")
    else if DictPriority(d).None? then Err("KeyError: priority")
    else if DictEnergy(d).None? then Err("KeyError: required_energy")
    else if NullInRequiredField(d) then Err("null value for a required field")
    else
      var t := NewTask(d.title.value, GetOr(Given(d.description), ""), GetOr(Given(d.durationMinutes), 30),
                       DictPriority(d).value, Given(d.deadline), DictEnergy(d).value, Given(d.tags),
                       Given(d.taskId), generatedId, now);
      Ok(t.(completed := GetOr(Given(d.completed), false),
            scheduledTime := if Given(d.scheduledTime).Some? then Given(d.scheduledTime) else t.scheduledTime,
            createdAt := GetOr(Given(d.createdAt), t.createdAt)))
  }

  /// Serialising and deserialising gives the task back, except that an empty
  /// id is replaced by a freshly generated one.
  lemma DictRoundTrip(t: Task, generatedId: string, now: int)
    ensures t.taskId != "" ==> FromDict(ToDict(t), generatedId, now) == Ok(t)
    ensures t.taskId == "" ==> FromDict(ToDict(t), generatedId, now) == Ok(t.(taskId := generatedId))
  {
    assert PriorityNamed(t.priority.Name()) == Some(t.priority);
    assert EnergyNamed(t.requiredEnergy.Name()) == Some(t.requiredEnergy);
  }

  /// `[t for t in tasks if not t.completed]`
  function Pending(tasks: seq<Task>): (r: seq<Task>)
    ensures forall t :: t in r <==> t in tasks && !t.completed
    ensures |r| <= |tasks|
  {
    if tasks == [] then []
    else (if !tasks[0].completed then [tasks[0]] else []) + Pending(tasks[1..])
  }

  /// `[t for t in tasks if t.completed]`
  function Completed(tasks: seq<Task>): (r: seq<Task>)
    ensures forall t :: t in r <==> t in tasks && t.completed
    ensures |r| <= |tasks|
  {
    if tasks == [] then []
    else (if tasks[0].completed then [tasks[0]] else []) + Completed(tasks[1..])
  }

  /// Every task is either completed or pending.
  lemma {:induction false} CompletedPendingPartition(tasks: seq<Task>)
    ensures |Completed(tasks)| + |Pending(tasks)| == |tasks|
  {
    if tasks != [] {
      CompletedPendingPartition(tasks[1..]);
    }
  }
}
