// The in-memory task list of the smart task manager (task_manager.py, class
// SmartTaskManager): adding, completing, deleting, looking up and listing
// tasks by id. Saving to and loading from the JSON file is not modelled.

module TaskManager {
  import opened TaskModel
  import opened Recommendation
  import opened EnergyProfiles
  import opened Scheduler

  /// The first position at or after `lo` whose task has the id.
  function FindFrom(tasks: seq<Task>, taskId: string, lo: nat): (r: Option<nat>)
    requires lo <= |tasks|
    ensures r.Some? ==> lo <= r.value < |tasks| && tasks[r.value].taskId == taskId
    ensures r.Some? ==> forall k :: lo <= k < r.value ==> tasks[k].taskId != taskId
    ensures r.None? ==> forall k :: lo <= k < |tasks| ==> tasks[k].taskId != taskId
    decreases |tasks| - lo
  {
    if lo == |tasks| then None
    else if tasks[lo].taskId == taskId then Some(lo)
    else FindFrom(tasks, taskId, lo + 1)
  }

  /// The position the id-based operations act on: the first task with the id.
  function FindIndex(tasks: seq<Task>, taskId: string): (r: Option<nat>)
    ensures r.Some? ==> r.value < |tasks| && tasks[r.value].taskId == taskId
    ensures r.Some? ==> forall k :: 0 <= k < r.value ==> tasks[k].taskId != taskId
    ensures r.None? <==> forall k :: 0 <= k < |tasks| ==> tasks[k].taskId != taskId
  {
    FindFrom(tasks, taskId, 0)
  }

  /// The task `add_task` stores: a MEDIUM energy requirement is replaced by the
  /// engine's recommendation, anything else is kept.
  function WithRecommendedEnergy(task: Task): (t: Task)
    ensures task.requiredEnergy == EnergyLevel.Medium ==> t.requiredEnergy == RecommendEnergyLevel(task)
    ensures task.requiredEnergy != EnergyLevel.Medium ==> t.requiredEnergy == task.requiredEnergy
    ensures t.(requiredEnergy := task.requiredEnergy) == task
  {
    if task.requiredEnergy == EnergyLevel.Medium then task.(requiredEnergy := RecommendEnergyLevel(task))
    else task
  }

  /// The list with position i removed, the others kept in order.
  function RemoveAt(tasks: seq<Task>, i: nat): (r: seq<Task>)
    requires i < |tasks|
    ensures |r| == |tasks| - 1
    ensures forall k :: 0 <= k < i ==> r[k] == tasks[k]
    ensures forall k :: i <= k < |r| ==> r[k] == tasks[k + 1]
  {
    tasks[..i] + tasks[i + 1..]
  }

  /// Removing one position loses exactly that task.
  lemma RemoveAtLosesOne(tasks: seq<Task>, i: nat)
    requires i < |tasks|
    ensures multiset(RemoveAt(tasks, i)) + multiset{tasks[i]} == multiset(tasks)
  {
    assert tasks == tasks[..i] + [tasks[i]] + tasks[i + 1..];
  }

  /// Completing a pending task leaves one pending task fewer.
  lemma {:induction false} CompletingShrinksPending(tasks: seq<Task>, i: nat)
    requires i < |tasks| && !tasks[i].completed
    ensures |Pending(tasks[i := tasks[i].(completed := true)])| == |Pending(tasks)| - 1
  {
    var after := tasks[i := tasks[i].(completed := true)];
    if i > 0 {
      CompletingShrinksPending(tasks[1..], i - 1);
      assert after[1..] == tasks[1..][i - 1 := tasks[i].(completed := true)];
    } else {
      assert after[1..] == tasks[1..];
    }
  }

  /// The placements `schedule_day` makes: the scheduler run between the two
  /// working hours of the day of `date`.
  function DaySchedule(profile: HourlyEnergy, tasks: seq<Task>, date: int, workStartHour: int, workEndHour: int)
    : (p: seq<Placement>)
    ensures ValidPlacements(tasks, p)
  {
    Schedule(profile, tasks, AtHour(date, workStartHour), AtHour(date, workEndHour))
  }

  class SmartTaskManager {
    var tasks: seq<Task>
    const aiEngine: RecommendationEngine
    /// The profile the scheduler reads.
    const energyProfile: HourlyEnergy

    /// `SmartTaskManager()` with nothing loaded from disk.
    constructor ()
      ensures tasks == [] && fresh(aiEngine) && aiEngine.taskHistory == []
      ensures energyProfile == DefaultHourlyEnergy
    {
      tasks := [];
      energyProfile := DefaultHourlyEnergy;
      aiEngine := new RecommendationEngine();
    }

    /// `add_task`: store the task, with the recommended energy when it asked
    /// for MEDIUM, at the end of the list.
    method AddTask(task: Task) returns (added: Task)
      modifies this
      ensures added == WithRecommendedEnergy(task)
      ensures tasks == old(tasks) + [added]
    {
      added := task;
      if task.requiredEnergy == EnergyLevel.Medium {
        added := task.(requiredEnergy := RecommendEnergyLevel(task));
      }
      tasks := tasks + [added];
    }

    /// `complete_task`: mark the first task with the id completed and record
    /// it in the engine's history; an unknown id changes nothing.
    method CompleteTask(taskId: string, actualDuration: Option<int>) returns (found: bool)
      modifies this, aiEngine
      ensures found <==> FindIndex(old(tasks), taskId).Some?
      ensures found ==>
                var i := FindIndex(old(tasks), taskId).value;
                && tasks == old(tasks)[i := old(tasks)[i].(completed := true)]
                && aiEngine.taskHistory
                   == old(aiEngine.taskHistory) + [HistoryEntryOf(old(tasks)[i].(completed := true), actualDuration)]
      ensures !found ==> tasks == old(tasks) && aiEngine.taskHistory == old(aiEngine.taskHistory)
      ensures aiEngine.modelTrained == old(aiEngine.modelTrained)
    {
      var i := 0;
      while i < |tasks|
        invariant i <= |tasks| && tasks == old(tasks)
        invariant aiEngine.taskHistory == old(aiEngine.taskHistory)
        invariant aiEngine.modelTrained == old(aiEngine.modelTrained)
        invariant forall k :: 0 <= k < i ==> tasks[k].taskId != taskId
        decreases |tasks| - i
      {
        if tasks[i].taskId == taskId {
          var done := tasks[i].(completed := true);
          tasks := tasks[i := done];
          aiEngine.LearnFromTask(done, actualDuration);
          return true;
        }
        i := i + 1;
      }
      return false;
    }

    /// `delete_task`: remove the first task with the id, keeping the others in
    /// order; an unknown id changes nothing.
    method DeleteTask(taskId: string) returns (found: bool)
      modifies this
      ensures found <==> FindIndex(old(tasks), taskId).Some?
      ensures found ==> tasks == RemoveAt(old(tasks), FindIndex(old(tasks), taskId).value)
      ensures !found ==> tasks == old(tasks)
    {
      var i := 0;
      while i < |tasks|
        invariant i <= |tasks| && tasks == old(tasks)
        invariant forall k :: 0 <= k < i ==> tasks[k].taskId != taskId
        decreases |tasks| - i
      {
        if tasks[i].taskId == taskId {
          tasks := tasks[..i] + tasks[i + 1..];
          return true;
        }
        i := i + 1;
      }
      return false;
    }

    /// `get_task`: the first task with the id, or None.
    method GetTask(taskId: string) returns (r: Option<Task>)
      ensures r.Some? <==> exists k :: 0 <= k < |tasks| && tasks[k].taskId == taskId
      ensures r.Some? ==> r.value.taskId == taskId && r == Some(tasks[FindIndex(tasks, taskId).value])
    {
      var i := 0;
      while i < |tasks|
        invariant i <= |tasks|
        invariant forall k :: 0 <= k < i ==> tasks[k].taskId != taskId
        decreases |tasks| - i
      {
        if tasks[i].taskId == taskId {
          return Some(tasks[i]);
        }
        i := i + 1;
      }
      return None;
    }

    /// `list_tasks`: every task, or only the pending ones.
    method ListTasks(includeCompleted: bool) returns (r: seq<Task>)
      ensures includeCompleted ==> r == tasks
      ensures !includeCompleted ==> forall t :: t in r <==> t in tasks && !t.completed
      ensures !includeCompleted ==> r == Pending(tasks)
    {
      if includeCompleted {
        return tasks;
      }
      return Pending(tasks);
    }

    /// `schedule_day`: schedule the task list between the two working hours of
    /// the day of `date`, writing the chosen times
    /// into the stored tasks. An hour outside 0..23, which `datetime.replace`
    /// rejects, is an error that changes nothing.
    method ScheduleDay(date: int, workStartHour: int, workEndHour: int) returns (r: Result<seq<Task>>)
      modifies this
      ensures r.Err? <==> !ValidWorkHours(workStartHour, workEndHour)
      ensures r.Err? ==> tasks == old(tasks)
      ensures r.Ok? ==> r.value == PlacedTasks(old(tasks), DaySchedule(energyProfile, old(tasks), date, workStartHour, workEndHour))
      ensures r.Ok? ==> tasks == ApplyPlacements(old(tasks), DaySchedule(energyProfile, old(tasks), date, workStartHour, workEndHour))
    {
      if !ValidWorkHours(workStartHour, workEndHour) {
        return Err("hour must be in 0..23");
      }
      var scheduled, updated := SchedulingPass(energyProfile, tasks, AtHour(date, workStartHour),
                                               AtHour(date, workEndHour));
      tasks := updated;
      return Ok(scheduled);
    }

    /// `get_insights`: the engine's insights over the stored tasks.
    function GetInsights(): (r: Insights)
      reads this
      ensures r.totalTasks == |tasks| && r.pendingTasks == |Pending(tasks)|
      ensures r == GetProductivityInsights(tasks)
    {
      GetProductivityInsights(tasks)
    }
  }
}
