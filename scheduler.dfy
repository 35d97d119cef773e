// The greedy day scheduler of the task manager (task_manager.py, class
// DynamicScheduler): the closed-form slot score, the scan for the first
// best-scoring half-hour slot, the stable priority/deadline order, and the
// single pass that places pending tasks one after another.
//
// Task objects are values here. A task's identity is its position in the
// input list: `schedule_tasks` returns the placed tasks and the input list as
// it stands after their `scheduled_time` fields were written.

module Scheduler {
  import opened TaskModel
  import opened EnergyProfiles

  // ---------------------------------------------------------------------------
  // calculate_task_score
  // ---------------------------------------------------------------------------

  /// +3 when the slot's energy reaches the requirement, minus the shortfall otherwise.
  function EnergyMatchScore(slotEnergy: EnergyLevel, required: EnergyLevel): (r: int)
    ensures -2 <= r <= 3
    ensures r == 3 <==> slotEnergy.Value() >= required.Value()
    ensures r < 0 <==> slotEnergy.Value() < required.Value()
  {
    if slotEnergy.Value() >= required.Value() then 3
    else -(required.Value() - slotEnergy.Value())
  }

  /// −100 once the deadline has passed, +5 under 24 hours before it, +3 under
  /// 48 hours, 0 otherwise or without a deadline.
  function DeadlineUrgencyScore(deadline: Option<int>, slot: int): (r: int)
    ensures deadline.None? ==> r == 0
    ensures r == -100 <==> deadline.Some? && deadline.value < slot
    ensures r != -100 ==> 0 <= r <= 5
  {
    match deadline
    case None => 0
    case Some(d) =>
      var minutesLeft := d - slot;
      if minutesLeft < 0 then -100
      else if minutesLeft < 24 * 60 then 5
      else if minutesLeft < 48 * 60 then 3
      else 0
  }

  /// `calculate_task_score`: twice the priority value plus the energy-match
  /// and deadline-urgency terms.
  function TaskScore(profile: HourlyEnergy, task: Task, slot: int): (r: int)
    ensures 2 * task.priority.Value() - 102 <= r <= 2 * task.priority.Value() + 8
  {
    2 * task.priority.Value()
    + EnergyMatchScore(EnergyAtTime(profile, slot), task.requiredEnergy)
    + DeadlineUrgencyScore(task.deadline, slot)
  }

  /// The closer the deadline (without passing it), the larger the urgency bonus.
  lemma UrgencyGrowsAsDeadlineNears(d: int, earlier: int, later: int)
    requires earlier <= later <= d
    ensures DeadlineUrgencyScore(Some(d), earlier) <= DeadlineUrgencyScore(Some(d), later)
  {
  }

  /// A slot after the deadline always scores below a slot at or before it.
  lemma PastDeadlineSlotScoresLower(profile: HourlyEnergy, task: Task, onTime: int, late: int)
    requires task.deadline.Some? && onTime <= task.deadline.value < late
    ensures TaskScore(profile, task, late) < TaskScore(profile, task, onTime)
  {
  }

  /// The score reads neither the completion flag nor the scheduled time.
  lemma ScoreIgnoresSchedule(profile: HourlyEnergy, task: Task, when: Option<int>, slot: int)
    ensures TaskScore(profile, task.(scheduledTime := when), slot) == TaskScore(profile, task, slot)
  {
  }

  // ---------------------------------------------------------------------------
  // The slot search inside schedule_tasks
  // ---------------------------------------------------------------------------

  /// The times the search tries: from, from+30, ... strictly before searchEnd.
  predicate IsCandidate(from: int, searchEnd: int, c: int) {
    OnHalfHourGrid(from, c) && c < searchEnd
  }

  /// The score of each candidate time for one task.
  function SlotScore(profile: HourlyEnergy, task: Task): int -> int {
    slot => TaskScore(profile, task, slot)
  }

  /// The search's answer under `score`: None when there is no candidate,
  /// otherwise the earliest candidate whose score no other candidate exceeds.
  ghost predicate IsFirstBest(score: int -> int, from: int, searchEnd: int, best: Option<int>) {
    match best
    case None => from >= searchEnd
    case Some(s) =>
      && IsCandidate(from, searchEnd, s)
      && (forall c :: IsCandidate(from, searchEnd, c) ==> score(c) <= score(s))
      && (forall c :: IsCandidate(from, searchEnd, c) && c < s ==> score(c) < score(s))
  }

  lemma FirstBestIsCandidate(score: int -> int, from: int, searchEnd: int, best: Option<int>)
    requires IsFirstBest(score, from, searchEnd, best) && best.Some?
    ensures IsCandidate(from, searchEnd, best.value)
  {
  }

  /// The scan from `t` on, carrying the best slot so far; a later slot
  /// replaces it only with a strictly higher score.
  function ScanBest(score: int -> int, t: int, searchEnd: int, best: Option<int>): Option<int>
    decreases searchEnd - t
  {
    if t >= searchEnd then best
    else
      var keep := best.Some? && score(t) <= score(best.value);
      ScanBest(score, t + SlotStepMinutes, searchEnd, if keep then best else Some(t))
  }

  /// The slot the search picks for `task` among from, from+30, ... < searchEnd.
  function BestSlot(profile: HourlyEnergy, task: Task, from: int, searchEnd: int): Option<int> {
    ScanBest(SlotScore(profile, task), from, searchEnd, None)
  }

  /// `search_end`: the window's end, or the latest start that still finishes
  /// before the deadline when that is earlier.
  function SearchEnd(task: Task, endTime: int): (r: int)
    ensures r <= endTime
    ensures task.deadline.Some? ==> r <= task.deadline.value - task.durationMinutes
    ensures r == endTime || (task.deadline.Some? && r == task.deadline.value - task.durationMinutes)
  {
    match task.deadline
    case None => endTime
    case Some(d) => if d - task.durationMinutes < endTime then d - task.durationMinutes else endTime
  }

  /// A candidate below t + 30 is t itself or a candidate below t.
  lemma CandidateStep(from: int, t: int, c: int)
    requires OnHalfHourGrid(from, t) && IsCandidate(from, t + SlotStepMinutes, c)
    ensures c == t || IsCandidate(from, t, c)
  {
    if c > t { GridGap(from, t, c); }
  }

  /// One step of the scan keeps "best is the first best below t".
  lemma ScanStepKeepsFirstBest(score: int -> int, from: int, t: int, best: Option<int>)
    requires OnHalfHourGrid(from, t)
    requires IsFirstBest(score, from, t, best)
    ensures var keep := best.Some? && score(t) <= score(best.value);
            IsFirstBest(score, from, t + SlotStepMinutes, if keep then best else Some(t))
  {
    forall c | IsCandidate(from, t + SlotStepMinutes, c) ensures c == t || IsCandidate(from, t, c) {
      CandidateStep(from, t, c);
    }
    if best.None? {
      assert from == t;
    }
  }

  lemma {:induction false} ScanBestIsFirstBest(score: int -> int, from: int, t: int, searchEnd: int, best: Option<int>)
    requires OnHalfHourGrid(from, t)
    requires t == from || t - SlotStepMinutes < searchEnd
    requires IsFirstBest(score, from, t, best)
    ensures IsFirstBest(score, from, searchEnd, ScanBest(score, t, searchEnd, best))
    decreases searchEnd - t
  {
    if t >= searchEnd {
      if best.Some? {
        forall c | IsCandidate(from, t, c) ensures c < searchEnd {
          if t != from { GridGap(from, c, t); }
        }
      }
    } else {
      ScanStepKeepsFirstBest(score, from, t, best);
      var keep := best.Some? && score(t) <= score(best.value);
      ScanBestIsFirstBest(score, from, t + SlotStepMinutes, searchEnd, if keep then best else Some(t));
    }
  }

  /// The scan finds the earliest slot of maximal score, or nothing when the
  /// window is empty.
  lemma BestSlotIsFirstBest(profile: HourlyEnergy, task: Task, from: int, searchEnd: int)
    ensures IsFirstBest(SlotScore(profile, task), from, searchEnd, BestSlot(profile, task, from, searchEnd))
  {
    ScanBestIsFirstBest(SlotScore(profile, task), from, from, searchEnd, None);
  }

  /// The inner `while test_time < search_end` loop of `schedule_tasks`.
  method FindBestSlot(profile: HourlyEnergy, task: Task, from: int, searchEnd: int)
    returns (best: Option<int>)
    ensures best == BestSlot(profile, task, from, searchEnd)
  {
    best := None;
    var bestScore := 0;
    var testTime := from;
    while testTime < searchEnd
      invariant best.Some? ==> bestScore == TaskScore(profile, task, best.value)
      invariant ScanBest(SlotScore(profile, task), testTime, searchEnd, best) == BestSlot(profile, task, from, searchEnd)
      decreases searchEnd - testTime
    {
      var score := TaskScore(profile, task, testTime);
      if best.None? || score > bestScore {
        best := Some(testTime);
        bestScore := score;
      }
      testTime := testTime + SlotStepMinutes;
    }
  }

  // ---------------------------------------------------------------------------
  // The order in which schedule_tasks visits pending tasks
  // ---------------------------------------------------------------------------

  /// Deadlines ascending, no deadline last (`datetime.max`).
  predicate DeadlineKeyLe(a: Option<int>, b: Option<int>) {
    match a
    case None => b.None?
    case Some(x) => b.None? || x <= b.value
  }

  /// The sort key (−priority, deadline) of `a` is at most that of `b`.
  predicate KeyLe(a: Task, b: Task) {
    || a.priority.Value() > b.priority.Value()
    || (a.priority.Value() == b.priority.Value() && DeadlineKeyLe(a.deadline, b.deadline))
  }

  predicate ValidIndices(tasks: seq<Task>, ids: seq<nat>) {
    forall k :: 0 <= k < |ids| ==> ids[k] < |tasks|
  }

  /// Task i comes before task j in a stable sort by key: a smaller key, or an
  /// equal key and an earlier position in the input.
  predicate Precedes(tasks: seq<Task>, i: nat, j: nat)
    requires i < |tasks| && j < |tasks|
  {
    KeyLe(tasks[i], tasks[j]) && (!KeyLe(tasks[j], tasks[i]) || i < j)
  }

  predicate SortedIndices(tasks: seq<Task>, ids: seq<nat>)
    requires ValidIndices(tasks, ids)
  {
    forall a, b :: 0 <= a < b < |ids| ==> Precedes(tasks, ids[a], ids[b])
  }

  /// Positions lo.. of the tasks that are not completed, ascending.
  function PendingFrom(tasks: seq<Task>, lo: nat): (r: seq<nat>)
    ensures forall k :: 0 <= k < |r| ==> lo <= r[k] < |tasks| && !tasks[r[k]].completed
    ensures forall a, b :: 0 <= a < b < |r| ==> r[a] < r[b]
    ensures forall i :: lo <= i < |tasks| && !tasks[i].completed ==> i in r
    ensures lo <= |tasks| ==> |r| <= |tasks| - lo
    decreases |tasks| - lo
  {
    if lo >= |tasks| then []
    else (if !tasks[lo].completed then [lo] else []) + PendingFrom(tasks, lo + 1)
  }

  /// The positions behind `pending_tasks = [t for t in tasks if not t.completed]`.
  function PendingIndices(tasks: seq<Task>): seq<nat> {
    PendingFrom(tasks, 0)
  }

  /// The tasks at the given positions.
  function Select(tasks: seq<Task>, ids: seq<nat>): (r: seq<Task>)
    requires ValidIndices(tasks, ids)
    ensures |r| == |ids| && forall k :: 0 <= k < |ids| ==> r[k] == tasks[ids[k]]
  {
    if ids == [] then [] else [tasks[ids[0]]] + Select(tasks, ids[1..])
  }

  lemma {:induction false} PendingFromSelectsPending(tasks: seq<Task>, lo: nat)
    requires lo <= |tasks|
    ensures Select(tasks, PendingFrom(tasks, lo)) == Pending(tasks[lo..])
    decreases |tasks| - lo
  {
    if lo < |tasks| {
      PendingFromSelectsPending(tasks, lo + 1);
      var suffix := tasks[lo..];
      assert suffix[0] == tasks[lo];
      assert suffix[1..] == tasks[lo + 1..];
      var rest := PendingFrom(tasks, lo + 1);
      if !tasks[lo].completed {
        assert PendingFrom(tasks, lo) == [lo] + rest;
        assert ([lo] + rest)[1..] == rest;
      } else {
        assert PendingFrom(tasks, lo) == rest;
      }
    }
  }

  /// The pending positions pick out exactly the list `Pending` builds.
  lemma PendingIndicesSelectPending(tasks: seq<Task>)
    ensures Select(tasks, PendingIndices(tasks)) == Pending(tasks)
  {
    PendingFromSelectsPending(tasks, 0);
    assert tasks[0..] == tasks;
  }

  /// Insert x before the first element whose key is not smaller than x's.
  function InsertIndex(tasks: seq<Task>, x: nat, s: seq<nat>): (r: seq<nat>)
    requires x < |tasks| && ValidIndices(tasks, s)
    ensures |r| == |s| + 1 && ValidIndices(tasks, r)
  {
    if s == [] then [x]
    else if KeyLe(tasks[x], tasks[s[0]]) then [x] + s
    else [s[0]] + InsertIndex(tasks, x, s[1..])
  }

  /// `pending_tasks.sort(key=...)`: Python's sort is stable, so this is an
  /// insertion sort that keeps equal keys in input order.
  function SortIndices(tasks: seq<Task>, ids: seq<nat>): (r: seq<nat>)
    requires ValidIndices(tasks, ids)
    ensures |r| == |ids| && ValidIndices(tasks, r)
  {
    if ids == [] then []
    else InsertIndex(tasks, ids[0], SortIndices(tasks, ids[1..]))
  }

  lemma {:induction false} InsertIndexPermutes(tasks: seq<Task>, x: nat, s: seq<nat>)
    requires x < |tasks| && ValidIndices(tasks, s)
    ensures multiset(InsertIndex(tasks, x, s)) == multiset(s) + multiset{x}
  {
    if s != [] && !KeyLe(tasks[x], tasks[s[0]]) {
      InsertIndexPermutes(tasks, x, s[1..]);
      assert s == [s[0]] + s[1..];
    }
  }

  /// The sort rearranges the positions and loses or adds none.
  lemma {:induction false} SortIndicesPermutes(tasks: seq<Task>, ids: seq<nat>)
    requires ValidIndices(tasks, ids)
    ensures multiset(SortIndices(tasks, ids)) == multiset(ids)
  {
    if ids != [] {
      SortIndicesPermutes(tasks, ids[1..]);
      InsertIndexPermutes(tasks, ids[0], SortIndices(tasks, ids[1..]));
      assert ids == [ids[0]] + ids[1..];
    }
  }

  lemma KeyLeTotalPreorder(a: Task, b: Task, c: Task)
    ensures KeyLe(a, a)
    ensures KeyLe(a, b) || KeyLe(b, a)
    ensures KeyLe(a, b) && KeyLe(b, c) ==> KeyLe(a, c)
  {
  }

  lemma {:induction false} InsertIndexSorted(tasks: seq<Task>, x: nat, s: seq<nat>)
    requires x < |tasks| && ValidIndices(tasks, s) && SortedIndices(tasks, s)
    requires forall k :: 0 <= k < |s| ==> x < s[k]
    ensures SortedIndices(tasks, InsertIndex(tasks, x, s))
  {
    if s == [] {
    } else if KeyLe(tasks[x], tasks[s[0]]) {
      InsertFrontSorted(tasks, x, s);
    } else {
      InsertIndexSorted(tasks, x, s[1..]);
      InsertIndexFrom(tasks, x, s[1..]);
      InsertBehindSorted(tasks, x, s);
    }
  }

  /// Putting x in front keeps the order when its key is not above the head's.
  lemma InsertFrontSorted(tasks: seq<Task>, x: nat, s: seq<nat>)
    requires x < |tasks| && ValidIndices(tasks, s) && SortedIndices(tasks, s) && s != []
    requires forall k :: 0 <= k < |s| ==> x < s[k]
    requires KeyLe(tasks[x], tasks[s[0]])
    ensures SortedIndices(tasks, [x] + s)
  {
    var r := [x] + s;
    forall a, b | 0 <= a < b < |r| ensures Precedes(tasks, r[a], r[b]) {
      if a == 0 {
        KeyLeTotalPreorder(tasks[x], tasks[s[0]], tasks[s[b - 1]]);
      }
    }
  }

  /// Keeping the head in front keeps the order when x's key is above the
  /// head's and the tail with x inserted is sorted.
  lemma InsertBehindSorted(tasks: seq<Task>, x: nat, s: seq<nat>)
    requires x < |tasks| && ValidIndices(tasks, s) && SortedIndices(tasks, s) && s != []
    requires !KeyLe(tasks[x], tasks[s[0]])
    requires SortedIndices(tasks, InsertIndex(tasks, x, s[1..]))
    requires forall y :: y in InsertIndex(tasks, x, s[1..]) ==> y == x || y in s[1..]
    ensures SortedIndices(tasks, [s[0]] + InsertIndex(tasks, x, s[1..]))
  {
    var ins := InsertIndex(tasks, x, s[1..]);
    forall k | 0 <= k < |ins| ensures Precedes(tasks, s[0], ins[k]) {
      assert ins[k] in ins;
      HeadPrecedes(tasks, x, s, ins[k]);
    }
    ConsSorted(tasks, s[0], ins);
  }

  /// A sorted list stays sorted with a head that precedes all its elements.
  lemma ConsSorted(tasks: seq<Task>, h: nat, s: seq<nat>)
    requires h < |tasks| && ValidIndices(tasks, s) && SortedIndices(tasks, s)
    requires forall k :: 0 <= k < |s| ==> Precedes(tasks, h, s[k])
    ensures SortedIndices(tasks, [h] + s)
  {
    var r := [h] + s;
    forall a, b | 0 <= a < b < |r| ensures Precedes(tasks, r[a], r[b]) {
      assert r[b] == s[b - 1];
      if a > 0 {
        assert r[a] == s[a - 1];
      }
    }
  }

  /// The head of a sorted list precedes its other elements and any x whose
  /// key is above the head's.
  lemma HeadPrecedes(tasks: seq<Task>, x: nat, s: seq<nat>, y: nat)
    requires x < |tasks| && ValidIndices(tasks, s) && SortedIndices(tasks, s) && s != []
    requires !KeyLe(tasks[x], tasks[s[0]])
    requires y == x || y in s[1..]
    ensures y < |tasks| && Precedes(tasks, s[0], y)
  {
    if y == x {
      KeyLeTotalPreorder(tasks[x], tasks[s[0]], tasks[x]);
    } else {
      var m :| 0 <= m < |s[1..]| && s[1..][m] == y;
      assert s[m + 1] == y;
    }
  }

  /// Inserting adds x and nothing else.
  lemma {:induction false} InsertIndexFrom(tasks: seq<Task>, x: nat, s: seq<nat>)
    requires x < |tasks| && ValidIndices(tasks, s)
    ensures forall y :: y in InsertIndex(tasks, x, s) ==> y == x || y in s
  {
    if s != [] && !KeyLe(tasks[x], tasks[s[0]]) {
      InsertIndexFrom(tasks, x, s[1..]);
      assert forall y :: y in s[1..] ==> y in s;
    }
  }

  /// The visiting order is sorted by (key, input position), which is what a
  /// stable sort by key of an input-ordered list yields.
  lemma {:induction false} SortIndicesSorted(tasks: seq<Task>, ids: seq<nat>)
    requires ValidIndices(tasks, ids)
    requires forall a, b :: 0 <= a < b < |ids| ==> ids[a] < ids[b]
    ensures SortedIndices(tasks, SortIndices(tasks, ids))
  {
    if ids != [] {
      var rest := SortIndices(tasks, ids[1..]);
      SortIndicesSorted(tasks, ids[1..]);
      SortIndicesPermutes(tasks, ids[1..]);
      forall k | 0 <= k < |rest| ensures ids[0] < rest[k] {
        assert rest[k] in multiset(ids[1..]);
        var m :| 0 <= m < |ids[1..]| && ids[1..][m] == rest[k];
        assert ids[m + 1] == rest[k];
      }
      InsertIndexSorted(tasks, ids[0], rest);
    }
  }

  /// The order `schedule_tasks` visits: pending positions, stably sorted.
  function VisitOrder(tasks: seq<Task>): (r: seq<nat>)
    ensures ValidIndices(tasks, r)
  {
    SortIndices(tasks, PendingIndices(tasks))
  }

  /// The visiting order is exactly the pending tasks, each once, sorted by
  /// (priority descending, deadline ascending with none last, input position).
  lemma VisitOrderFacts(tasks: seq<Task>)
    ensures SortedIndices(tasks, VisitOrder(tasks))
    ensures forall k :: 0 <= k < |VisitOrder(tasks)| ==> !tasks[VisitOrder(tasks)[k]].completed
    ensures forall i :: 0 <= i < |tasks| && !tasks[i].completed ==> i in VisitOrder(tasks)
    ensures |VisitOrder(tasks)| <= |tasks|
  {
    var pending := PendingIndices(tasks);
    var order := VisitOrder(tasks);
    SortIndicesSorted(tasks, pending);
    SortIndicesPermutes(tasks, pending);
    forall k | 0 <= k < |order| ensures !tasks[order[k]].completed {
      assert order[k] in multiset(pending);
    }
    forall i | 0 <= i < |tasks| && !tasks[i].completed ensures i in order {
      assert i in multiset(pending);
    }
  }

  // ---------------------------------------------------------------------------
  // The single greedy pass
  // ---------------------------------------------------------------------------

  /// Task `index` of the input is given start `slot`.
  datatype Placement = Placement(index: nat, slot: int)

  predicate ValidPlacements(tasks: seq<Task>, p: seq<Placement>) {
    forall k :: 0 <= k < |p| ==> p[k].index < |tasks|
  }

  /// The pass over `order` with the moving `current_time`: a task with a
  /// candidate slot is placed at the first best one and `current_time` moves to
  /// its end; a task without one is skipped.
  function Greedy(profile: HourlyEnergy, tasks: seq<Task>, order: seq<nat>, currentTime: int, endTime: int)
    : (p: seq<Placement>)
    requires ValidIndices(tasks, order)
    ensures |p| <= |order|
    ensures forall k :: 0 <= k < |p| ==> p[k].index in order
    ensures ValidPlacements(tasks, p)
    decreases |order|
  {
    if order == [] then []
    else
      var task := tasks[order[0]];
      match BestSlot(profile, task, currentTime, SearchEnd(task, endTime))
      case None => Greedy(profile, tasks, order[1..], currentTime, endTime)
      case Some(slot) =>
        [Placement(order[0], slot)] + Greedy(profile, tasks, order[1..], NextTime(task, slot, currentTime), endTime)
  }

  /// `current_time` after placing `task` at `slot`: the task's end when the
  /// slot is not before the current time.
  function NextTime(task: Task, slot: int, currentTime: int): int {
    if slot >= currentTime then slot + task.durationMinutes else currentTime
  }

  /// The placements `schedule_tasks(tasks, startTime, endTime)` makes.
  function Schedule(profile: HourlyEnergy, tasks: seq<Task>, startTime: int, endTime: int): (p: seq<Placement>)
    ensures ValidPlacements(tasks, p)
  {
    Greedy(profile, tasks, VisitOrder(tasks), startTime, endTime)
  }

  /// The returned list: each placed task with its scheduled time written.
  function PlacedTasks(tasks: seq<Task>, p: seq<Placement>): (s: seq<Task>)
    requires ValidPlacements(tasks, p)
    ensures |s| == |p|
    ensures forall k :: 0 <= k < |p| ==> s[k] == tasks[p[k].index].(scheduledTime := Some(p[k].slot))
  {
    if p == [] then [] else [tasks[p[0].index].(scheduledTime := Some(p[0].slot))] + PlacedTasks(tasks, p[1..])
  }

  /// The input list after the placements' writes, in the order they happen.
  function ApplyPlacements(tasks: seq<Task>, p: seq<Placement>): (s: seq<Task>)
    requires ValidPlacements(tasks, p)
    ensures |s| == |tasks|
    decreases |p|
  {
    if p == [] then tasks
    else
      var last := p[|p| - 1];
      ApplyPlacements(tasks, p[..|p| - 1])[last.index := tasks[last.index].(scheduledTime := Some(last.slot))]
  }

  /// With each task placed at most once, a placed task's element is its
  /// returned copy and every other element is untouched.
  lemma {:induction false} ApplyPlacementsFacts(tasks: seq<Task>, p: seq<Placement>)
    requires ValidPlacements(tasks, p)
    requires forall a, b :: 0 <= a < b < |p| ==> p[a].index != p[b].index
    ensures WritesOnlyPlaced(tasks, p, PlacedTasks(tasks, p), ApplyPlacements(tasks, p))
    decreases |p|
  {
    if p != [] {
      var init := p[..|p| - 1];
      var last := p[|p| - 1];
      ApplyPlacementsFacts(tasks, init);
      var before := ApplyPlacements(tasks, init);
      var after := ApplyPlacements(tasks, p);
      var placed := PlacedTasks(tasks, p);
      var placedInit := PlacedTasks(tasks, init);
      assert after == before[last.index := tasks[last.index].(scheduledTime := Some(last.slot))];
      forall k | 0 <= k < |p|
        ensures after[p[k].index] == placed[k]
      {
        if k < |init| {
          assert init[k] == p[k];
          assert before[p[k].index] == placedInit[k];
        }
      }
      forall j | 0 <= j < |tasks| && Untouched(p, j)
        ensures after[j] == tasks[j]
      {
        assert p[|p| - 1].index != j;
        forall k | 0 <= k < |init| ensures init[k].index != j {
          assert init[k] == p[k];
        }
        assert Untouched(init, j);
      }
    }
  }

  /// The input list after the pass: each placed position holds the returned
  /// copy of its task, every other position the input task.
  predicate WritesOnlyPlaced(tasks: seq<Task>, p: seq<Placement>, scheduled: seq<Task>, updated: seq<Task>) {
    && ValidPlacements(tasks, p) && |scheduled| == |p| && |updated| == |tasks|
    && (forall k :: 0 <= k < |p| ==> updated[p[k].index] == scheduled[k])
    && (forall j :: 0 <= j < |tasks| && Untouched(p, j) ==> updated[j] == tasks[j])
  }

  /// No placement writes position j.
  predicate Untouched(p: seq<Placement>, j: nat) {
    forall k :: 0 <= k < |p| ==> p[k].index != j
  }

  function StartOf(t: Task): int {
    if t.scheduledTime.Some? then t.scheduledTime.value else 0
  }

  function EndOf(t: Task): int {
    StartOf(t) + t.durationMinutes
  }

  /// Every returned task starts at the first best slot of a scan that begins
  /// where the task returned before it ends, the first one at `from`.
  ghost predicate GreedyChoices(profile: HourlyEnergy, s: seq<Task>, from: int, endTime: int)
    decreases |s|
  {
    s == [] ||
    (&& s[0].scheduledTime.Some?
     && IsFirstBest(SlotScore(profile, s[0]), from, SearchEnd(s[0], endTime), s[0].scheduledTime)
     && GreedyChoices(profile, s[1..], EndOf(s[0]), endTime))
  }

  lemma FirstBestIgnoresSchedule(profile: HourlyEnergy, task: Task, when: Option<int>,
                                 from: int, searchEnd: int, best: Option<int>)
    requires IsFirstBest(SlotScore(profile, task), from, searchEnd, best)
    ensures IsFirstBest(SlotScore(profile, task.(scheduledTime := when)), from, searchEnd, best)
  {
    forall c ensures SlotScore(profile, task.(scheduledTime := when))(c) == SlotScore(profile, task)(c) {
      ScoreIgnoresSchedule(profile, task, when, c);
    }
  }

  /// A task placed at its first best slot, in front of greedy choices made
  /// from its end on, gives greedy choices from the scan's start.
  lemma PrependGreedyChoice(profile: HourlyEnergy, placed: Task, rest: seq<Task>, from: int, endTime: int)
    requires placed.scheduledTime.Some?
    requires IsFirstBest(SlotScore(profile, placed), from, SearchEnd(placed, endTime), placed.scheduledTime)
    requires GreedyChoices(profile, rest, EndOf(placed), endTime)
    ensures GreedyChoices(profile, [placed] + rest, from, endTime)
  {
    assert ([placed] + rest)[1..] == rest;
  }

  lemma {:induction false} GreedyMakesGreedyChoices(profile: HourlyEnergy, tasks: seq<Task>, order: seq<nat>,
                                                    currentTime: int, endTime: int)
    requires ValidIndices(tasks, order)
    ensures ValidPlacements(tasks, Greedy(profile, tasks, order, currentTime, endTime))
    ensures GreedyChoices(profile, PlacedTasks(tasks, Greedy(profile, tasks, order, currentTime, endTime)),
                          currentTime, endTime)
    decreases |order|
  {
    if order != [] {
      var task := tasks[order[0]];
      var searchEnd := SearchEnd(task, endTime);
      var rest := order[1..];
      BestSlotIsFirstBest(profile, task, currentTime, searchEnd);
      var best := BestSlot(profile, task, currentTime, searchEnd);
      if best.None? {
        GreedyMakesGreedyChoices(profile, tasks, rest, currentTime, endTime);
        assert Greedy(profile, tasks, order, currentTime, endTime) == Greedy(profile, tasks, rest, currentTime, endTime);
      } else {
        var slot := best.value;
        var next := NextTime(task, slot, currentTime);
        assert next == slot + task.durationMinutes;
        GreedyMakesGreedyChoices(profile, tasks, rest, next, endTime);
        var placed := task.(scheduledTime := Some(slot));
        FirstBestIgnoresSchedule(profile, task, Some(slot), currentTime, searchEnd, Some(slot));
        assert SearchEnd(placed, endTime) == searchEnd && placed.scheduledTime == Some(slot);
        assert EndOf(placed) == next;
        var restP := Greedy(profile, tasks, rest, next, endTime);
        var p := [Placement(order[0], slot)] + restP;
        assert Greedy(profile, tasks, order, currentTime, endTime) == p;
        var restS := PlacedTasks(tasks, restP);
        assert PlacedTasks(tasks, p) == [placed] + restS;
        PrependGreedyChoice(profile, placed, restS, currentTime, endTime);
      }
    }
  }

  /// The placements follow the visiting order's (key, position) ordering.
  predicate PlacementsOrdered(tasks: seq<Task>, p: seq<Placement>)
    requires ValidPlacements(tasks, p)
  {
    forall a, b :: 0 <= a < b < |p| ==> Precedes(tasks, p[a].index, p[b].index)
  }

  /// Placing a task that precedes every later candidate in front of an
  /// ordered list of placements keeps the list ordered.
  lemma PrependKeepsOrder(tasks: seq<Task>, x: nat, slot: int, rest: seq<nat>, restP: seq<Placement>)
    requires x < |tasks| && ValidIndices(tasks, rest)
    requires forall k :: 0 <= k < |rest| ==> Precedes(tasks, x, rest[k])
    requires forall k :: 0 <= k < |restP| ==> restP[k].index in rest
    requires ValidPlacements(tasks, restP) && PlacementsOrdered(tasks, restP)
    ensures ValidPlacements(tasks, [Placement(x, slot)] + restP)
    ensures PlacementsOrdered(tasks, [Placement(x, slot)] + restP)
  {
    var p := [Placement(x, slot)] + restP;
    forall a, b | 0 <= a < b < |p| ensures Precedes(tasks, p[a].index, p[b].index) {
      assert p[b] == restP[b - 1];
      var m :| 0 <= m < |rest| && rest[m] == p[b].index;
      if a > 0 {
        assert p[a] == restP[a - 1];
      }
    }
  }

  lemma {:induction false} GreedyKeepsOrder(profile: HourlyEnergy, tasks: seq<Task>, order: seq<nat>,
                                            currentTime: int, endTime: int)
    requires ValidIndices(tasks, order) && SortedIndices(tasks, order)
    ensures PlacementsOrdered(tasks, Greedy(profile, tasks, order, currentTime, endTime))
    decreases |order|
  {
    if order != [] {
      var task := tasks[order[0]];
      var rest := order[1..];
      assert SortedIndices(tasks, rest);
      forall k | 0 <= k < |rest| ensures Precedes(tasks, order[0], rest[k]) {
        assert rest[k] == order[k + 1];
      }
      var best := BestSlot(profile, task, currentTime, SearchEnd(task, endTime));
      if best.None? {
        GreedyKeepsOrder(profile, tasks, rest, currentTime, endTime);
        assert Greedy(profile, tasks, order, currentTime, endTime) == Greedy(profile, tasks, rest, currentTime, endTime);
      } else {
        var slot := best.value;
        var next := NextTime(task, slot, currentTime);
        GreedyKeepsOrder(profile, tasks, rest, next, endTime);
        var restP := Greedy(profile, tasks, rest, next, endTime);
        PrependKeepsOrder(tasks, order[0], slot, rest, restP);
        assert Greedy(profile, tasks, order, currentTime, endTime) == [Placement(order[0], slot)] + restP;
      }
    }
  }

  /// The placed task list fits the window: starts lie before its end, each
  /// task finishes before its deadline, the first start is on the half-hour
  /// grid from the window start and every later one on the grid from the end
  /// of the task placed before it, hence at or after that end.
  predicate FitsWindow(s: seq<Task>, startTime: int, endTime: int) {
    && (forall k :: 0 <= k < |s| ==> StartOf(s[k]) < endTime)
    && (forall k :: 0 <= k < |s| && s[k].deadline.Some? ==> EndOf(s[k]) < s[k].deadline.value)
    && (|s| > 0 ==> OnHalfHourGrid(startTime, StartOf(s[0])))
    && (forall k :: 0 <= k < |s| - 1 ==> OnHalfHourGrid(EndOf(s[k]), StartOf(s[k + 1])))
  }

  /// A task placed at a candidate of the scan from `from`, in front of tasks
  /// that fit the window from its end on, fits the window from `from`.
  lemma PrependFitsWindow(placed: Task, rest: seq<Task>, from: int, endTime: int)
    requires placed.scheduledTime.Some? && IsCandidate(from, SearchEnd(placed, endTime), StartOf(placed))
    requires FitsWindow(rest, EndOf(placed), endTime)
    ensures FitsWindow([placed] + rest, from, endTime)
  {
    var s := [placed] + rest;
    forall k | 1 <= k < |s| ensures s[k] == rest[k - 1] { }
  }

  /// The greedy choices keep every task inside the window, before its
  /// deadline and on the grid.
  lemma {:induction false} GreedyChoicesTiming(profile: HourlyEnergy, s: seq<Task>, startTime: int, endTime: int)
    requires GreedyChoices(profile, s, startTime, endTime)
    ensures FitsWindow(s, startTime, endTime)
    decreases |s|
  {
    if s != [] {
      GreedyChoicesTiming(profile, s[1..], EndOf(s[0]), endTime);
      FirstBestIsCandidate(SlotScore(profile, s[0]), startTime, SearchEnd(s[0], endTime), s[0].scheduledTime);
      PrependFitsWindow(s[0], s[1..], startTime, endTime);
      assert [s[0]] + s[1..] == s;
    }
  }

  /// Back-to-back order with non-negative durations makes every pair of
  /// placed tasks disjoint, all inside the window.
  lemma {:induction false} PlacedTasksDisjoint(s: seq<Task>, startTime: int)
    requires forall k :: 0 <= k < |s| ==> s[k].durationMinutes >= 0
    requires |s| > 0 ==> startTime <= StartOf(s[0])
    requires forall k :: 0 <= k < |s| - 1 ==> EndOf(s[k]) <= StartOf(s[k + 1])
    ensures forall a, b :: 0 <= a < b < |s| ==> EndOf(s[a]) <= StartOf(s[b])
    ensures forall k :: 0 <= k < |s| ==> startTime <= StartOf(s[k])
  {
    if |s| > 1 {
      var init := s[..|s| - 1];
      PlacedTasksDisjoint(init, startTime);
      forall a, b | 0 <= a < b < |s| ensures EndOf(s[a]) <= StartOf(s[b]) {
        if b == |s| - 1 && a < b - 1 {
          assert EndOf(init[a]) <= StartOf(init[b - 1]);
        }
      }
    }
  }

  /// The test scenario: when the first task in visiting order has a
  /// non-empty search window, it is placed, and placed first.
  lemma FirstVisitedIsPlaced(profile: HourlyEnergy, tasks: seq<Task>, startTime: int, endTime: int)
    requires |VisitOrder(tasks)| > 0
    requires startTime < SearchEnd(tasks[VisitOrder(tasks)[0]], endTime)
    ensures |Schedule(profile, tasks, startTime, endTime)| > 0
    ensures Schedule(profile, tasks, startTime, endTime)[0].index == VisitOrder(tasks)[0]
  {
    var order := VisitOrder(tasks);
    var task := tasks[order[0]];
    BestSlotIsFirstBest(profile, task, startTime, SearchEnd(task, endTime));
  }

  /// The returned tasks are pending input tasks, in sort-key order, each at
  /// most once.
  lemma ScheduleReturnsPendingInOrder(profile: HourlyEnergy, tasks: seq<Task>, startTime: int, endTime: int)
    ensures |Schedule(profile, tasks, startTime, endTime)| <= |tasks|
    ensures forall k :: 0 <= k < |Schedule(profile, tasks, startTime, endTime)| ==>
              !tasks[Schedule(profile, tasks, startTime, endTime)[k].index].completed
    ensures PlacementsOrdered(tasks, Schedule(profile, tasks, startTime, endTime))
  {
    var order := VisitOrder(tasks);
    var p := Schedule(profile, tasks, startTime, endTime);
    VisitOrderFacts(tasks);
    GreedyKeepsOrder(profile, tasks, order, startTime, endTime);
    forall k | 0 <= k < |p| ensures !tasks[p[k].index].completed {
      var m :| 0 <= m < |order| && order[m] == p[k].index;
    }
  }

  /// Ordered placements yield returned tasks in sort-key order.
  lemma OrderedPlacementsKeyOrder(tasks: seq<Task>, p: seq<Placement>)
    requires ValidPlacements(tasks, p) && PlacementsOrdered(tasks, p)
    ensures forall a, b :: 0 <= a < b < |p| ==> KeyLe(PlacedTasks(tasks, p)[a], PlacedTasks(tasks, p)[b])
    ensures forall a, b :: 0 <= a < b < |p| ==> p[a].index != p[b].index
  {
    var s := PlacedTasks(tasks, p);
    forall a, b | 0 <= a < b < |p| ensures KeyLe(s[a], s[b]) && p[a].index != p[b].index {
      assert Precedes(tasks, p[a].index, p[b].index);
    }
  }

  /// The state of `schedule_tasks` before position i of the visiting order:
  /// the placements made so far, followed by those the rest of the pass will
  /// make, are the placements of the whole pass; the returned list and the
  /// input list reflect exactly the placements made so far.
  ghost predicate PassState(profile: HourlyEnergy, tasks: seq<Task>, order: seq<nat>, startTime: int, endTime: int,
                            i: nat, currentTime: int, placements: seq<Placement>,
                            scheduled: seq<Task>, updated: seq<Task>)
    requires ValidIndices(tasks, order)
  {
    && i <= |order|
    && ValidPlacements(tasks, placements)
    && placements + Greedy(profile, tasks, order[i..], currentTime, endTime)
       == Greedy(profile, tasks, order, startTime, endTime)
    && scheduled == PlacedTasks(tasks, placements)
    && updated == ApplyPlacements(tasks, placements)
  }

  lemma PlacedTasksAppend(tasks: seq<Task>, p: seq<Placement>, x: Placement)
    requires ValidPlacements(tasks, p) && x.index < |tasks|
    ensures ValidPlacements(tasks, p + [x])
    ensures PlacedTasks(tasks, p + [x]) == PlacedTasks(tasks, p) + [tasks[x.index].(scheduledTime := Some(x.slot))]
    ensures ApplyPlacements(tasks, p + [x])
            == ApplyPlacements(tasks, p)[x.index := tasks[x.index].(scheduledTime := Some(x.slot))]
  {
    var q := p + [x];
    assert forall k :: 0 <= k < |p| ==> q[k] == p[k];
    assert q[..|q| - 1] == p;
  }

  /// The pass from position i: skip the task when it has no slot, otherwise
  /// place it and continue from `NextTime`.
  lemma GreedyFrom(profile: HourlyEnergy, tasks: seq<Task>, order: seq<nat>, i: nat, currentTime: int, endTime: int)
    requires ValidIndices(tasks, order) && i < |order|
    ensures BestSlot(profile, tasks[order[i]], currentTime, SearchEnd(tasks[order[i]], endTime)).None? ==>
              Greedy(profile, tasks, order[i..], currentTime, endTime)
              == Greedy(profile, tasks, order[i + 1..], currentTime, endTime)
    ensures forall slot ::
              BestSlot(profile, tasks[order[i]], currentTime, SearchEnd(tasks[order[i]], endTime)) == Some(slot) ==>
              Greedy(profile, tasks, order[i..], currentTime, endTime)
              == [Placement(order[i], slot)]
                 + Greedy(profile, tasks, order[i + 1..], NextTime(tasks[order[i]], slot, currentTime), endTime)
  {
    assert order[i..][0] == order[i];
    assert order[i..][1..] == order[i + 1..];
  }

  /// A task without a slot is skipped: nothing is placed or written.
  lemma PassSkip(profile: HourlyEnergy, tasks: seq<Task>, order: seq<nat>, startTime: int, endTime: int,
                 i: nat, currentTime: int, placements: seq<Placement>, scheduled: seq<Task>, updated: seq<Task>)
    requires ValidIndices(tasks, order) && i < |order|
    requires PassState(profile, tasks, order, startTime, endTime, i, currentTime, placements, scheduled, updated)
    requires BestSlot(profile, tasks[order[i]], currentTime, SearchEnd(tasks[order[i]], endTime)).None?
    ensures PassState(profile, tasks, order, startTime, endTime, i + 1, currentTime, placements, scheduled, updated)
  {
    GreedyFrom(profile, tasks, order, i, currentTime, endTime);
  }

  /// A task with a slot is placed there: it is appended to the result, its
  /// element of the input list gets the slot, and the time moves on.
  lemma PassPlace(profile: HourlyEnergy, tasks: seq<Task>, order: seq<nat>, startTime: int, endTime: int,
                  i: nat, currentTime: int, placements: seq<Placement>, scheduled: seq<Task>, updated: seq<Task>,
                  slot: int)
    requires ValidIndices(tasks, order) && i < |order|
    requires PassState(profile, tasks, order, startTime, endTime, i, currentTime, placements, scheduled, updated)
    requires BestSlot(profile, tasks[order[i]], currentTime, SearchEnd(tasks[order[i]], endTime)) == Some(slot)
    ensures PassState(profile, tasks, order, startTime, endTime, i + 1,
                      NextTime(tasks[order[i]], slot, currentTime),
                      placements + [Placement(order[i], slot)],
                      scheduled + [tasks[order[i]].(scheduledTime := Some(slot))],
                      updated[order[i] := tasks[order[i]].(scheduledTime := Some(slot))])
  {
    GreedyFrom(profile, tasks, order, i, currentTime, endTime);
    var x := Placement(order[i], slot);
    var later := Greedy(profile, tasks, order[i + 1..], NextTime(tasks[order[i]], slot, currentTime), endTime);
    assert (placements + [x]) + later == placements + ([x] + later);
    PlacedTasksAppend(tasks, placements, x);
  }

  /// Before the first position nothing is placed and nothing is written.
  lemma PassStart(profile: HourlyEnergy, tasks: seq<Task>, startTime: int, endTime: int)
    ensures PassState(profile, tasks, VisitOrder(tasks), startTime, endTime, 0, startTime, [], [], tasks)
  {
    var order := VisitOrder(tasks);
    assert order[0..] == order;
    assert [] + Greedy(profile, tasks, order, startTime, endTime) == Greedy(profile, tasks, order, startTime, endTime);
  }

  /// At the end of the visiting order the pass has made all its placements.
  lemma PassDone(profile: HourlyEnergy, tasks: seq<Task>, startTime: int, endTime: int,
                 currentTime: int, placements: seq<Placement>, scheduled: seq<Task>, updated: seq<Task>)
    requires PassState(profile, tasks, VisitOrder(tasks), startTime, endTime, |VisitOrder(tasks)|, currentTime,
                       placements, scheduled, updated)
    ensures scheduled == PlacedTasks(tasks, Schedule(profile, tasks, startTime, endTime))
    ensures updated == ApplyPlacements(tasks, Schedule(profile, tasks, startTime, endTime))
  {
    var order := VisitOrder(tasks);
    assert order[|order|..] == [];
    assert placements + [] == placements;
  }

  /// The returned tasks are not completed, each has a start, and they come in
  /// sort-key order.
  predicate PendingInKeyOrder(s: seq<Task>) {
    && (forall k :: 0 <= k < |s| ==> !s[k].completed && s[k].scheduledTime.Some?)
    && (forall a, b :: 0 <= a < b < |s| ==> KeyLe(s[a], s[b]))
  }

  /// Everything `ScheduleTasks` promises, stated on the placements of the pass.
  lemma ScheduleFacts(profile: HourlyEnergy, tasks: seq<Task>, startTime: int, endTime: int,
                      p: seq<Placement>, scheduled: seq<Task>, updated: seq<Task>)
    requires p == Schedule(profile, tasks, startTime, endTime)
    requires scheduled == PlacedTasks(tasks, p) && updated == ApplyPlacements(tasks, p)
    ensures |scheduled| <= |tasks|
    ensures PendingInKeyOrder(scheduled)
    ensures GreedyChoices(profile, scheduled, startTime, endTime)
    ensures FitsWindow(scheduled, startTime, endTime)
    ensures WritesOnlyPlaced(tasks, p, scheduled, updated)
  {
    ScheduleReturnsPendingInOrder(profile, tasks, startTime, endTime);
    OrderedPlacementsKeyOrder(tasks, p);
    GreedyMakesGreedyChoices(profile, tasks, VisitOrder(tasks), startTime, endTime);
    GreedyChoicesTiming(profile, scheduled, startTime, endTime);
    ApplyPlacementsFacts(tasks, p);
  }

  predicate NonNegativeDurations(tasks: seq<Task>) {
    forall k :: 0 <= k < |tasks| ==> tasks[k].durationMinutes >= 0
  }

  /// No two tasks of the list overlap, their starts ascend, and none starts
  /// before `startTime`.
  predicate NonOverlapping(s: seq<Task>, startTime: int) {
    && (forall a, b :: 0 <= a < b < |s| ==> EndOf(s[a]) <= StartOf(s[b]))
    && (forall a, b :: 0 <= a < b < |s| ==> StartOf(s[a]) <= StartOf(s[b]))
    && (forall k :: 0 <= k < |s| ==> startTime <= StartOf(s[k]))
  }

  /// A list that fits the window, without negative durations, does not
  /// overlap.
  lemma FittingTasksDisjoint(s: seq<Task>, startTime: int, endTime: int)
    requires NonNegativeDurations(s) && FitsWindow(s, startTime, endTime)
    ensures NonOverlapping(s, startTime)
  {
    PlacedTasksDisjoint(s, startTime);
  }

  lemma PlacedDurations(tasks: seq<Task>, p: seq<Placement>)
    requires ValidPlacements(tasks, p) && NonNegativeDurations(tasks)
    ensures NonNegativeDurations(PlacedTasks(tasks, p))
  {
  }

  /// When no task has a negative duration, the tasks the scheduler places
  /// never overlap and start in ascending order from the window's start.
  lemma ScheduledTasksDisjoint(profile: HourlyEnergy, tasks: seq<Task>, startTime: int, endTime: int)
    requires NonNegativeDurations(tasks)
    ensures NonOverlapping(PlacedTasks(tasks, Schedule(profile, tasks, startTime, endTime)), startTime)
  {
    var s := PlacedTasks(tasks, Schedule(profile, tasks, startTime, endTime));
    GreedyMakesGreedyChoices(profile, tasks, VisitOrder(tasks), startTime, endTime);
    GreedyChoicesTiming(profile, s, startTime, endTime);
    PlacedDurations(tasks, Schedule(profile, tasks, startTime, endTime));
    FittingTasksDisjoint(s, startTime, endTime);
  }

  /// `DynamicScheduler.schedule_tasks`: returns the placed tasks and the input
  /// list with their scheduled times written.
  method ScheduleTasks(profile: HourlyEnergy, tasks: seq<Task>, startTime: int, endTime: int)
    returns (scheduled: seq<Task>, updated: seq<Task>)
    ensures scheduled == PlacedTasks(tasks, Schedule(profile, tasks, startTime, endTime))
    ensures updated == ApplyPlacements(tasks, Schedule(profile, tasks, startTime, endTime))
    ensures |scheduled| <= |tasks|
    ensures PendingInKeyOrder(scheduled)
    ensures GreedyChoices(profile, scheduled, startTime, endTime)
    ensures FitsWindow(scheduled, startTime, endTime)
    ensures WritesOnlyPlaced(tasks, Schedule(profile, tasks, startTime, endTime), scheduled, updated)
    ensures NonNegativeDurations(tasks) ==> NonOverlapping(scheduled, startTime)
  {
    scheduled, updated := SchedulingPass(profile, tasks, startTime, endTime);
    ScheduleFacts(profile, tasks, startTime, endTime, Schedule(profile, tasks, startTime, endTime),
                  scheduled, updated);
    if NonNegativeDurations(tasks) {
      ScheduledTasksDisjoint(profile, tasks, startTime, endTime);
    }
  }

  /// One iteration of the loop of `schedule_tasks`: search a slot for the
  /// task at position i of the visiting order; when there is one, write it into
  /// the task, append the task to the result and move `current_time` to the
  /// task's end if the slot is not before it.
  method PlaceNext(profile: HourlyEnergy, tasks: seq<Task>, order: seq<nat>, startTime: int, endTime: int,
                   i: nat, currentTime: int, ghost placements: seq<Placement>,
                   scheduled: seq<Task>, updated: seq<Task>)
    returns (nextTime: int, ghost nextPlacements: seq<Placement>, nextScheduled: seq<Task>, nextUpdated: seq<Task>)
    requires ValidIndices(tasks, order) && i < |order|
    requires PassState(profile, tasks, order, startTime, endTime, i, currentTime, placements, scheduled, updated)
    ensures PassState(profile, tasks, order, startTime, endTime, i + 1, nextTime, nextPlacements,
                      nextScheduled, nextUpdated)
  {
    var index := order[i];
    var task := tasks[index];
    var best := FindBestSlot(profile, task, currentTime, SearchEnd(task, endTime));
    nextTime, nextPlacements, nextScheduled, nextUpdated := currentTime, placements, scheduled, updated;
    if best.None? {
      PassSkip(profile, tasks, order, startTime, endTime, i, currentTime, placements, scheduled, updated);
    } else {
      var slot := best.value;
      PassPlace(profile, tasks, order, startTime, endTime, i, currentTime, placements, scheduled, updated, slot);
      var placed := task.(scheduledTime := Some(slot));
      nextUpdated := updated[index := placed];
      nextScheduled := scheduled + [placed];
      nextPlacements := placements + [Placement(index, slot)];
      ghost var next := NextTime(task, slot, currentTime);
      if slot >= currentTime {
        nextTime := slot + task.durationMinutes;
      }
      assert nextTime == next;
    }
  }

  /// The loop of `schedule_tasks`, proved to make the placements `Schedule`
  /// describes.
  method SchedulingPass(profile: HourlyEnergy, tasks: seq<Task>, startTime: int, endTime: int)
    returns (scheduled: seq<Task>, updated: seq<Task>)
    ensures scheduled == PlacedTasks(tasks, Schedule(profile, tasks, startTime, endTime))
    ensures updated == ApplyPlacements(tasks, Schedule(profile, tasks, startTime, endTime))
  {
    var order := VisitOrder(tasks);
    scheduled := [];
    updated := tasks;
    var currentTime := startTime;
    ghost var placements: seq<Placement> := [];
    var i := 0;
    PassStart(profile, tasks, startTime, endTime);
    while i < |order|
      invariant PassState(profile, tasks, order, startTime, endTime, i, currentTime, placements, scheduled, updated)
      decreases |order| - i
    {
      currentTime, placements, scheduled, updated :=
        PlaceNext(profile, tasks, order, startTime, endTime, i, currentTime, placements, scheduled, updated);
      i := i + 1;
    }
    PassDone(profile, tasks, startTime, endTime, currentTime, placements, scheduled, updated);
  }
}
