// The recommendation engine of the smart task manager
// (task_manager.py, class AIRecommendationEngine): an append-only history of
// completed tasks, a duration recommender averaging over that history, a
// priority-driven energy recommender and counting insights over a task list.

module Recommendation {
  import opened TaskModel

  /// One `task_history` record; the enumerations are stored as their values
  /// and the tags as their count.
  datatype HistoryEntry = HistoryEntry(
    priority: int,
    duration: int,
    energy: int,
    tags: int,
    actualDuration: int)

  /// The record `learn_from_task` appends. `completion_time_minutes or
  /// task.duration_minutes` falls back to the planned duration when the
  /// measured time is absent or zero.
  function HistoryEntryOf(task: Task, completionTime: Option<int>): (e: HistoryEntry)
    ensures e.priority == task.priority.Value() && e.duration == task.durationMinutes
    ensures e.energy == task.requiredEnergy.Value() && e.tags == |task.tags|
    ensures completionTime.Some? && completionTime.value != 0 ==> e.actualDuration == completionTime.value
    ensures completionTime.None? || completionTime.value == 0 ==> e.actualDuration == task.durationMinutes
  {
    HistoryEntry(
      priority := task.priority.Value(),
      duration := task.durationMinutes,
      energy := task.requiredEnergy.Value(),
      tags := |task.tags|,
      actualDuration := if completionTime.Some? && completionTime.value != 0 then completionTime.value
                        else task.durationMinutes)
  }

  /// The engine's state: the history grows by one record per completed task
  /// it is shown, and never shrinks.
  class RecommendationEngine {
    var taskHistory: seq<HistoryEntry>
    var modelTrained: bool

    constructor ()
      ensures taskHistory == [] && !modelTrained
    {
      taskHistory := [];
      modelTrained := false;
    }

    /// `learn_from_task`: a completed task adds exactly one record, any other
    /// task leaves the history as it was.
    method LearnFromTask(task: Task, completionTime: Option<int>)
      modifies this
      ensures task.completed ==> taskHistory == old(taskHistory) + [HistoryEntryOf(task, completionTime)]
      ensures !task.completed ==> taskHistory == old(taskHistory)
      ensures modelTrained == old(modelTrained)
    {
      if task.completed {
        taskHistory := taskHistory + [HistoryEntryOf(task, completionTime)];
      }
    }
  }

  function Abs(x: int): int {
    if x < 0 then -x else x
  }

  /// The records whose priority is within one level of `priority`, in history
  /// order.
  function Similar(history: seq<HistoryEntry>, priority: int): (r: seq<HistoryEntry>)
    ensures forall e :: e in r <==> e in history && Abs(e.priority - priority) <= 1
    ensures |r| <= |history|
  {
    if history == [] then []
    else (if Abs(history[0].priority - priority) <= 1 then [history[0]] else []) + Similar(history[1..], priority)
  }

  function SumActual(s: seq<HistoryEntry>): int {
    if s == [] then 0 else s[0].actualDuration + SumActual(s[1..])
  }

  function MinActual(s: seq<HistoryEntry>): (m: int)
    requires s != []
    ensures forall k :: 0 <= k < |s| ==> m <= s[k].actualDuration
    ensures exists k :: 0 <= k < |s| && m == s[k].actualDuration
  {
    if |s| == 1 then s[0].actualDuration
    else
      var rest := MinActual(s[1..]);
      assert forall k :: 1 <= k < |s| ==> s[1..][k - 1] == s[k];
      if s[0].actualDuration <= rest then s[0].actualDuration else rest
  }

  function MaxActual(s: seq<HistoryEntry>): (m: int)
    requires s != []
    ensures forall k :: 0 <= k < |s| ==> s[k].actualDuration <= m
    ensures exists k :: 0 <= k < |s| && m == s[k].actualDuration
  {
    if |s| == 1 then s[0].actualDuration
    else
      var rest := MaxActual(s[1..]);
      assert forall k :: 1 <= k < |s| ==> s[1..][k - 1] == s[k];
      if s[0].actualDuration >= rest then s[0].actualDuration else rest
  }

  /// `int(x)` of the exact quotient a / n: truncation toward zero.
  function TruncDiv(a: int, n: int): (q: int)
    requires n > 0
    ensures a >= 0 ==> q * n <= a < (q + 1) * n
    ensures a < 0 ==> (q - 1) * n < a <= q * n
  {
    if a >= 0 then a / n else -((-a) / n)
  }

  /// The sum of n values lies between n times their minimum and n times their
  /// maximum.
  lemma {:induction false} SumBetween(s: seq<HistoryEntry>, lo: int, hi: int)
    requires forall k :: 0 <= k < |s| ==> lo <= s[k].actualDuration <= hi
    ensures |s| * lo <= SumActual(s) <= |s| * hi
  {
    if s != [] {
      SumBetween(s[1..], lo, hi);
    }
  }

  lemma MulMonotone(x: int, y: int, n: int)
    requires n > 0 && x <= y
    ensures x * n <= y * n
  {
    assert y * n - x * n == (y - x) * n;
  }

  /// Truncating a / n keeps it between lo and hi when a lies between n * lo
  /// and n * hi.
  lemma TruncDivBetween(a: int, n: int, lo: int, hi: int)
    requires n > 0 && n * lo <= a <= n * hi
    ensures lo <= TruncDiv(a, n) <= hi
  {
    var q := TruncDiv(a, n);
    if q < lo {
      MulMonotone(q + 1, lo, n);
    }
    if q > hi {
      MulMonotone(hi, q - 1, n);
    }
  }

  /// A truncated mean lies between the smallest and the largest value.
  lemma TruncatedMeanBetween(s: seq<HistoryEntry>)
    requires s != []
    ensures MinActual(s) <= TruncDiv(SumActual(s), |s|) <= MaxActual(s)
  {
    SumBetween(s, MinActual(s), MaxActual(s));
    TruncDivBetween(SumActual(s), |s|, MinActual(s), MaxActual(s));
  }

  /// `recommend_duration`: the task's own duration while the history holds
  /// fewer than three records or none of similar priority, otherwise the
  /// truncated mean of the similar records' actual durations, which lies
  /// between their smallest and largest.
  function RecommendDuration(history: seq<HistoryEntry>, task: Task): (d: int)
    ensures |history| < 3 || Similar(history, task.priority.Value()) == [] ==> d == task.durationMinutes
    ensures |history| >= 3 && Similar(history, task.priority.Value()) != [] ==>
              var similar := Similar(history, task.priority.Value());
              d == TruncDiv(SumActual(similar), |similar|) && MinActual(similar) <= d <= MaxActual(similar)
  {
    if |history| < 3 then task.durationMinutes
    else
      var similar := Similar(history, task.priority.Value());
      if similar == [] then task.durationMinutes
      else
        TruncatedMeanBetween(similar);
        TruncDiv(SumActual(similar), |similar|)
  }

  /// A whole number d with d * n <= sum < (d + 1) * n is the exact mean
  /// sum / n rounded down.
  lemma QuotientBracketsMean(sum: int, n: nat, d: int)
    requires n > 0 && d * n <= sum < (d + 1) * n
    ensures d as real <= Mean(sum, n) < d as real + 1.0
  {
    var m := Mean(sum, n);
    var nr := n as real;
    assert m * nr == sum as real;
    assert (d as real) * nr == (d * n) as real;
    assert (d as real + 1.0) * nr == ((d + 1) * n) as real;
    CancelPositiveFactor(m, d as real + 1.0, nr);
  }

  /// A strict inequality between multiples of a positive factor holds
  /// between the multiplied numbers.
  lemma CancelPositiveFactor(x: real, y: real, c: real)
    requires c > 0.0 && x * c < y * c
    ensures x < y
  {
    assert x * c - y * c == (x - y) * c;
  }

  /// With non-negative durations, the recommendation is `int(np.mean(...))`:
  /// the exact mean of the similar records rounded down.
  lemma RecommendDurationTruncatesMean(history: seq<HistoryEntry>, task: Task)
    requires |history| >= 3 && Similar(history, task.priority.Value()) != []
    requires SumActual(Similar(history, task.priority.Value())) >= 0
    ensures RecommendDuration(history, task) as real
            <= Mean(SumActual(Similar(history, task.priority.Value())), |Similar(history, task.priority.Value())|)
            < RecommendDuration(history, task) as real + 1.0
  {
    var similar := Similar(history, task.priority.Value());
    QuotientBracketsMean(SumActual(similar), |similar|, RecommendDuration(history, task));
  }

  /// When every similar record took the same time, that time is recommended.
  lemma RecommendUniformHistory(history: seq<HistoryEntry>, task: Task, minutes: int)
    requires |history| >= 3 && Similar(history, task.priority.Value()) != []
    requires forall e :: e in Similar(history, task.priority.Value()) ==> e.actualDuration == minutes
    ensures RecommendDuration(history, task) == minutes
  {
    var similar := Similar(history, task.priority.Value());
    assert similar[0] in similar;
  }

  /// `recommend_energy_level`.
  function RecommendEnergyLevel(task: Task): (e: EnergyLevel)
    ensures task.priority == Priority.Urgent ==> e == EnergyLevel.High
    ensures task.priority == Priority.High ==> (e == EnergyLevel.High <==> task.durationMinutes > 60)
    ensures task.priority == Priority.High ==> e != EnergyLevel.Low
    ensures task.priority == Priority.Medium ==> e == EnergyLevel.Medium
    ensures task.priority == Priority.Low ==> e == EnergyLevel.Low
  {
    match task.priority
    case Urgent => EnergyLevel.High
    case High => if task.durationMinutes > 60 then EnergyLevel.High else EnergyLevel.Medium
    case Medium => EnergyLevel.Medium
    case Low => EnergyLevel.Low
  }

  /// A more urgent task never gets a lower energy recommendation than a less
  /// urgent one of the same length.
  lemma RecommendedEnergyFollowsPriority(a: Task, b: Task)
    requires a.durationMinutes == b.durationMinutes && a.priority.Value() <= b.priority.Value()
    ensures RecommendEnergyLevel(a).Value() <= RecommendEnergyLevel(b).Value()
  {
  }

  const HighPriorityMessage: string :=
    "You have multiple high-priority tasks pending. Consider focusing on these first."
  const LowCompletionMessage: string :=
    "Your completion rate is below 50%. Consider breaking down large tasks into smaller ones."

  /// The dictionary `get_productivity_insights` returns.
  datatype Insights = Insights(
    totalTasks: nat,
    completedTasks: nat,
    pendingTasks: nat,
    completionRate: real,
    avgTaskDuration: real,
    highPriorityPending: nat,
    recommendations: seq<string>)

  /// Pending tasks of priority HIGH or URGENT.
  function HighPriority(tasks: seq<Task>): (r: seq<Task>)
    ensures forall t :: t in r <==> t in tasks && t.priority.Value() >= Priority.High.Value()
    ensures |r| <= |tasks|
  {
    if tasks == [] then []
    else (if tasks[0].priority.Value() >= Priority.High.Value() then [tasks[0]] else [])
         + HighPriority(tasks[1..])
  }

  function SumDurations(tasks: seq<Task>): int {
    if tasks == [] then 0 else tasks[0].durationMinutes + SumDurations(tasks[1..])
  }

  /// `part / whole if whole else 0`: a fraction in [0, 1] that gives `part`
  /// back when multiplied by `whole`.
  function Rate(part: nat, whole: nat): (r: real)
    requires part <= whole
    ensures whole == 0 ==> r == 0.0
    ensures whole > 0 ==> r * (whole as real) == part as real
    ensures 0.0 <= r <= 1.0
  {
    if whole > 0 then part as real / whole as real else 0.0
  }

  /// `np.mean` of n values summing to `sum`, taken as 0 for no values.
  function Mean(sum: int, n: nat): (m: real)
    ensures n == 0 ==> m == 0.0
    ensures n > 0 ==> m * (n as real) == sum as real
  {
    if n > 0 then sum as real / n as real else 0.0
  }

  /// `get_productivity_insights`. The completion rate and the mean duration
  /// are exact rationals; an empty list gives 0 for both.
  function GetProductivityInsights(tasks: seq<Task>): (r: Insights)
    ensures r.totalTasks == |tasks| == r.completedTasks + r.pendingTasks
    ensures r.completedTasks == |Completed(tasks)| && r.pendingTasks == |Pending(tasks)|
    ensures r.completionRate == Rate(r.completedTasks, r.totalTasks)
    ensures r.avgTaskDuration == Mean(SumDurations(tasks), |tasks|)
    ensures r.highPriorityPending == |HighPriority(Pending(tasks))| <= r.pendingTasks
    ensures HighPriorityMessage in r.recommendations <==> r.highPriorityPending > 3
    ensures LowCompletionMessage in r.recommendations <==> r.completionRate < 0.5 && r.totalTasks > 5
    ensures forall m :: m in r.recommendations ==> m == HighPriorityMessage || m == LowCompletionMessage
    ensures |r.recommendations| <= 2
    ensures |r.recommendations| == 2 ==> r.recommendations == [HighPriorityMessage, LowCompletionMessage]
  {
    CompletedPendingPartition(tasks);
    var total := |tasks|;
    var completed := |Completed(tasks)|;
    var rate := Rate(completed, total);
    var highPending := |HighPriority(Pending(tasks))|;
    var first := if highPending > 3 then [HighPriorityMessage] else [];
    var second := if rate < 0.5 && total > 5 then [LowCompletionMessage] else [];
    Insights(
      totalTasks := total,
      completedTasks := completed,
      pendingTasks := |Pending(tasks)|,
      completionRate := rate,
      avgTaskDuration := Mean(SumDurations(tasks), total),
      highPriorityPending := highPending,
      recommendations := first + second)
  }
}
