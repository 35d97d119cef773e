# Smart task manager — a verified model of its scheduling core

This project models the decision-making core of the smart task manager in Dafny:

- the task record and its dictionary form;
- the hourly energy profile and its half-hour slot scan;
- the greedy day scheduler, with its scoring function and its slot search;
- the recommendation engine (a history of completed tasks, a duration and an energy recommender, and productivity insights);
- the in-memory task list of the manager (add, complete, delete, get, list, schedule a day, insights);
- the pure energy-pattern and scoring functions of `algorithms.py` (optimal and deep-work hours, peak energy, productivity, health and energy-alignment scores, clock-time duration);
- the two calculations inside the calendar adapter: turning a scheduled task into an event, and finding free slots around the day's busy events;
- the command line's case-insensitive priority and energy parsers.

Times are whole minutes counted from an epoch midnight. The hour of day is `(t / 60) % 24`. Tasks are values (`TaskModel.Task`). In-place updates of a task become a new element of the list. In the scheduler, a task is identified by its position in the input list. Energies and scores in `algorithms.py` are exact `real`s.

Modules (one file each):

- `TaskModel` — `task_model.dfy`: priorities, energy levels, `Task`, `to_dict`/`from_dict`, pending and completed filters.
- `EnergyProfiles` — `energy_profile.dfy`: the hourly table, `get_energy_at_time` and `find_best_time_slots`.
- `Scheduler` — `scheduler.dfy`:
  - the score `calculate_task_score`;
  - the slot search;
  - the stable sort of pending tasks;
  - the greedy pass of `schedule_tasks`, both as a specification function (`Schedule`) and as the loop (`SchedulingPass`), which is proved to compute it.
- `Recommendation` — `recommendation.dfy`: the `AIRecommendationEngine` class and its pure recommenders.
- `TaskManager` — `task_manager.dfy`: the `SmartTaskManager` class over a `seq<Task>` field.
- `Algorithms` — `algorithms.dfy`.
- `CalendarSync` — `calendar_sync.py` pieces.
- `Cli` — `cli.py` parsers.

The scheduler's proof:

- **Sort order.** The visiting order is the stable sort of the pending tasks by (priority descending, deadline ascending, no deadline last). It is proved to be a permutation of the pending positions and sorted by (key, position).
- **Slot choice.** Each placed task starts at the earliest half-hour candidate of maximal score: `IsFirstBest`, proved of the scan that keeps a slot unless a later one scores strictly higher.
- **Timing.** Every start lies before the window's end. Each task with a deadline finishes before that deadline. Each start is on the half-hour grid from the end of the previously placed task. When no task has a negative duration, the returned tasks therefore have non-decreasing starts and are pairwise non-overlapping (`NonOverlapping`); a negative duration, which the code does not reject, can make the next search start before the previous task's start.
- **Side effects.** The pass writes a start time only into the tasks it places.

What the code does, and therefore what the model does:

- **Scheduler features.** The code has no merging of fixed external blocks, no automatic breaks and no per-category calibration. It has no "unscheduled with reason" result: a task without a slot is simply not returned.
- **Visiting order.** The code sorts by priority and deadline; it does not sort by a combined score.
- **Energy lookup.** `get_energy_at_time` gives MEDIUM for an hour missing from the table; it does not fall back to the nearest hour's value.
- **Rounding.** The productivity and health scores round to one decimal, and this is left out as described below.

## Model

| member | source | states |
|---|---|---|
| TaskModel.Priority.Value | task_manager.py:15-20 | the enumeration values LOW..URGENT lie in 1..4 (`Priority.Name` is the member name the dictionary form uses) |
| TaskModel.EnergyLevel.Value | task_manager.py:23-27 | the enumeration values LOW..HIGH lie in 1..3 (`EnergyLevel.Name` is the member name) |
| TaskModel.PriorityNamed | task_manager.py:83 | `Priority[name]`: the member whose name is given, and none (a KeyError) for any other string |
| TaskModel.EnergyNamed | task_manager.py:85 | `EnergyLevel[name]`: the member whose name is given, and none for any other string |
| TaskModel.NewTask | task_manager.py:33-54 | a new task is pending and unscheduled, keeps the given title, description, duration, priority, deadline and energy, takes the given tags or `[]` when none are given (`tags or []`), is created "now", and takes the given id unless it is absent or empty, when the generated one is used |
| TaskModel.Get | task_manager.py:81-82 | `data.get(key, default)`: the default for an absent key, None exactly for a null value, the value otherwise |
| TaskModel.Given | task_manager.py:84-93 | a key counts as given exactly when it holds a non-null value (`if data.get(key)`, `tags or []`), and then that value is taken; `GetOr` supplies the default otherwise |
| TaskModel.DictPriority | task_manager.py:83 | `Priority[data.get('priority', 'MEDIUM')]`: MEDIUM when absent, the named member when it is a name, and a KeyError for null or any other string |
| TaskModel.DictEnergy | task_manager.py:85 | `EnergyLevel[data.get('required_energy', 'MEDIUM')]`: MEDIUM when absent, the named member, and a KeyError for null or any other string |
| TaskModel.OptionalField | task_manager.py:68-72 | a missing deadline or scheduled time is written as null, a present one as its value |
| TaskModel.ToDict | task_manager.py:60-74 | every key is written; the dictionary carries the task's id and title, its priority and energy by name, and null exactly for a missing deadline or scheduled time |
| TaskModel.FromDict | task_manager.py:76-94 | distinguishes an absent key, a null value and a value: fails exactly when the title key is absent, the priority or energy is null or not a member name (MEDIUM when absent), or a field typed without None is null; otherwise takes over the title, the description ('' when absent), the duration (30 when absent), the deadline, tags, scheduled and creation times only when non-null, the id when non-null and non-empty, and `completed` (False when absent) |
| TaskModel.DictRoundTrip | task_manager.py:60-94 | `from_dict(to_dict(t))` gives back `t`, except that an empty id is replaced by a generated one |
| TaskModel.Pending | task_manager.py:354 | exactly the tasks that are not completed |
| TaskModel.Completed | task_manager.py:280 | exactly the completed tasks |
| TaskModel.CompletedPendingPartition | task_manager.py:280-286 | completed and pending counts add up to the number of tasks |
| EnergyProfiles.Hour | task_manager.py:122 | the hour of a time lies in 0..23 |
| EnergyProfiles.AtHourIsThatHour | task_manager.py:366-367 | `date.replace(hour=h, minute=0, …)` (`AtHour`) for an hour in 0..23 stays on the day of `date`, is on the full hour, and is at hour h; `ValidWorkHours` is the range `replace` accepts |
| EnergyProfiles.EnergyAtTime | task_manager.py:120-123 | the table entry for the time's hour, MEDIUM when the hour is missing |
| EnergyProfiles.DefaultEnergyOutsideTable | task_manager.py:102-123 | with the default table (`DefaultHourlyEnergy`, the 15 entries for hours 6..20) every hour outside 6..20 is MEDIUM and 6..20 read the table |
| EnergyProfiles.FindBestTimeSlots | task_manager.py:125-141 | returns, ascending, exactly the times start + 30k before the end whose energy is at least the required level; the duration is unused |
| Scheduler.EnergyMatchScore | task_manager.py:161-166 | +3 exactly when the slot's energy reaches the requirement, negative (at least -2) exactly when it falls short |
| Scheduler.DeadlineUrgencyScore | task_manager.py:168-176 | 0 without a deadline; -100 exactly when the deadline is before the slot; otherwise between 0 and 5 |
| Scheduler.TaskScore | task_manager.py:150-178 | the score lies within 2·priority - 102 and 2·priority + 8 |
| Scheduler.UrgencyGrowsAsDeadlineNears | task_manager.py:168-176 | before the deadline, a later slot never gets a lower urgency term |
| Scheduler.PastDeadlineSlotScoresLower | task_manager.py:168-178 | a slot after the deadline scores strictly less than any slot at or before it |
| Scheduler.ScoreIgnoresSchedule | task_manager.py:150-178 | the score does not depend on the task's current scheduled time |
| Scheduler.SearchEnd | task_manager.py:206-210 | `search_end` is the window's end or deadline - duration, whichever is earlier |
| Scheduler.ScanBestIsFirstBest | task_manager.py:212-219 | the scan keeping the first strictly better score (`ScanBest`, over the task's score at each slot, `SlotScore`) ends with the earliest candidate of maximal score, or none when there is no candidate |
| Scheduler.BestSlotIsFirstBest | task_manager.py:203-219 | the chosen slot (`BestSlot`) is the earliest maximal-score candidate among from, from + 30, ... before the search end |
| Scheduler.FindBestSlot | task_manager.py:212-219 | the search loop returns the slot the scan specifies |
| Scheduler.PendingFrom | task_manager.py:188 | ascending positions of exactly the non-completed tasks |
| Scheduler.PendingIndicesSelectPending | task_manager.py:188 | the selected positions give exactly the filtered pending list |
| Scheduler.InsertIndex | task_manager.py:191-196 | insertion into a list of positions keeps them valid and adds one |
| Scheduler.SortIndices | task_manager.py:191-196 | sorting keeps length and validity of positions |
| Scheduler.InsertIndexPermutes | task_manager.py:191-196 | insertion adds exactly the inserted position |
| Scheduler.SortIndicesPermutes | task_manager.py:191-196 | the sort is a permutation |
| Scheduler.KeyLeTotalPreorder | task_manager.py:192-195 | the sort key order (priority descending, deadline ascending, none last) is a total preorder |
| Scheduler.InsertIndexSorted | task_manager.py:191-196 | inserting a position smaller than all others into a stably sorted list keeps it stably sorted |
| Scheduler.SortIndicesSorted | task_manager.py:191-196 | sorting ascending positions gives a list ordered by key, ties by position (a stable sort) |
| Scheduler.VisitOrder | task_manager.py:188-196 | the visiting order consists of valid positions (its content and order are stated by `VisitOrderFacts`) |
| Scheduler.VisitOrderFacts | task_manager.py:188-196 | the visiting order is stably sorted, holds only pending tasks and holds every pending task |
| Scheduler.Greedy | task_manager.py:198-228 | the greedy pass places at most one task per visited position, only visited positions (which slot each gets is stated by `GreedyMakesGreedyChoices`, `GreedyKeepsOrder` and `GreedyChoicesTiming`) |
| Scheduler.Schedule | task_manager.py:180-228 | the placements name valid positions (what they are is stated by `ScheduleFacts` and `ScheduledTasksDisjoint`) |
| Scheduler.PlacedTasks | task_manager.py:221-223 | the returned list is the placed tasks, each with its slot written |
| Scheduler.ApplyPlacements | task_manager.py:222 | writing the slots keeps the list's length |
| Scheduler.ApplyPlacementsFacts | task_manager.py:221-223 | with distinct positions, each placed position holds its returned task and every other position is unchanged |
| Scheduler.FirstBestIgnoresSchedule | task_manager.py:222 | writing a task's scheduled time does not change which slot is best for it |
| Scheduler.GreedyMakesGreedyChoices | task_manager.py:199-226 | every returned task starts at the first best slot of a scan that begins where the previous task ended (the first at the window start) |
| Scheduler.GreedyKeepsOrder | task_manager.py:201-223 | placements follow the stable sort order |
| Scheduler.GreedyChoicesTiming | task_manager.py:206-226 | greedy choices start before the window's end, finish before their deadline and lie on the half-hour grid from the previous task's end (`NextTime`: the slot plus the duration) |
| Scheduler.PlacedTasksDisjoint | task_manager.py:224-226 | tasks each starting at or after the previous one's end are pairwise non-overlapping and start no earlier than the window |
| Scheduler.FittingTasksDisjoint | task_manager.py:224-226 | tasks of non-negative duration that fit the window one after another have non-decreasing starts and pairwise disjoint intervals |
| Scheduler.PlacedDurations | task_manager.py:221-223 | writing slots keeps every duration non-negative |
| Scheduler.ScheduledTasksDisjoint | task_manager.py:199-226 | when no task has a negative duration, the scheduled tasks start in non-decreasing order, no earlier than the window start, and no two overlap |
| Scheduler.FirstVisitedIsPlaced | task_manager.py:201-223 | the first task in visiting order is placed whenever its search range is not empty |
| Scheduler.ScheduleReturnsPendingInOrder | task_manager.py:188-223 | at most as many placements as tasks, only pending tasks, in sort order |
| Scheduler.OrderedPlacementsKeyOrder | task_manager.py:191-223 | placements in sort order have nondecreasing keys and distinct positions |
| Scheduler.ScheduleFacts | task_manager.py:180-228 | the scheduled tasks are pending, in key order, greedy, inside the window and before deadlines, and only they are written |
| Scheduler.ScheduleTasks | task_manager.py:180-228 | `schedule_tasks` returns the placed tasks and the updated list, with every property of `ScheduleFacts`, and, when no duration is negative, starts non-decreasing and no two returned tasks overlapping |
| Scheduler.PlaceNext | task_manager.py:201-226 | one loop iteration advances the pass state by one visited task |
| Scheduler.SchedulingPass | task_manager.py:198-228 | the loop computes exactly the placements of the greedy specification |
| Recommendation.HistoryEntryOf | task_manager.py:241-247 | the record keeps priority, duration, energy and tag count; the actual duration is the given one, or the planned duration when it is absent or 0 |
| Recommendation.RecommendationEngine.constructor | task_manager.py:234-236 | a new engine has an empty history and is not trained |
| Recommendation.RecommendationEngine.LearnFromTask | task_manager.py:238-247 | a completed task appends exactly its record; any other task changes nothing |
| Recommendation.Similar | task_manager.py:255-258 | exactly the records whose priority is within one of the task's |
| Recommendation.TruncDiv | task_manager.py:262 | `int(x)` of a quotient truncates toward zero |
| Recommendation.TruncatedMeanBetween | task_manager.py:261-262 | the truncated mean lies between the smallest and largest value |
| Recommendation.RecommendDuration | task_manager.py:249-264 | the task's own duration with fewer than 3 records or no similar one, otherwise `int(mean)` of the similar records' actual durations (their sum divided by their count, truncated toward zero), which lies between their smallest and largest actual duration |
| Recommendation.QuotientBracketsMean | task_manager.py:261-262 | a quotient d with d·n ≤ sum < (d+1)·n brackets the exact mean: d ≤ mean < d + 1 |
| Recommendation.RecommendDurationTruncatesMean | task_manager.py:261-262 | for a non-negative total, the recommendation is the exact mean of the similar records rounded down: recommendation ≤ mean < recommendation + 1 |
| Recommendation.RecommendUniformHistory | task_manager.py:255-262 | if all similar records took the same time, that time is recommended |
| Recommendation.RecommendEnergyLevel | task_manager.py:266-276 | URGENT gives HIGH; HIGH gives HIGH exactly when longer than 60 minutes, else MEDIUM; MEDIUM gives MEDIUM; LOW gives LOW |
| Recommendation.RecommendedEnergyFollowsPriority | task_manager.py:266-276 | for equal durations, higher priority never gets lower energy |
| Recommendation.HighPriority | task_manager.py:289 | exactly the tasks of priority HIGH or URGENT |
| Recommendation.Rate | task_manager.py:287 | 0 for an empty list, else the fraction that gives the part back, within 0..1 |
| Recommendation.Mean | task_manager.py:288 | 0 for no values, else the value whose n-fold is the sum |
| Recommendation.GetProductivityInsights | task_manager.py:278-300 | total = completed + pending; the rate and mean as above; the high-priority pending count; each message present exactly under its condition, no other message, the high-priority message first when both are present |
| TaskManager.FindFrom | task_manager.py:326-327 | the first position from `lo` on with the id, or none when no task from there has it |
| TaskManager.FindIndex | task_manager.py:326-327 | the first position with the id; none exactly when no task has it |
| TaskManager.WithRecommendedEnergy | task_manager.py:317-318 | a MEDIUM requirement is replaced by the recommendation, anything else is kept, and no other field changes |
| TaskManager.RemoveAt | task_manager.py:338 | the list without the one position, the others in order |
| TaskManager.RemoveAtLosesOne | task_manager.py:336-338 | removal loses exactly one copy of the removed task |
| TaskManager.CompletingShrinksPending | task_manager.py:326-328 | completing a pending task leaves exactly one pending task fewer |
| TaskManager.DaySchedule | task_manager.py:366-369 | the placements between the two hours of the day of `date` (each `date.replace(hour=…)`) name valid positions (the rest as for `Scheduler.Schedule`) |
| TaskManager.SmartTaskManager.constructor | task_manager.py:306-311 | a new manager has no tasks, a fresh engine with empty history and the default energy table |
| TaskManager.SmartTaskManager.AddTask | task_manager.py:314-322 | appends the task, with the recommended energy when it asked for MEDIUM |
| TaskManager.SmartTaskManager.CompleteTask | task_manager.py:324-332 | true exactly when the id exists; then the first such task is completed and its record appended to the history; otherwise nothing changes; the engine's trained flag is never changed |
| TaskManager.SmartTaskManager.DeleteTask | task_manager.py:334-341 | true exactly when the id exists; then the first such task is removed and the rest kept in order; otherwise nothing changes |
| TaskManager.SmartTaskManager.GetTask | task_manager.py:343-348 | the first task with the id, none exactly when no task has it |
| TaskManager.SmartTaskManager.ListTasks | task_manager.py:350-354 | all tasks, or exactly the pending ones |
| TaskManager.SmartTaskManager.ScheduleDay | task_manager.py:356-371 | an hour outside 0..23 is an error that changes nothing; otherwise returns the day's scheduled tasks and writes their slots into the list |
| TaskManager.SmartTaskManager.GetInsights | task_manager.py:373-375 | the insights over the stored tasks |
| Algorithms.HoursFrom | algorithms.py:60-63 | at most one hour per remaining pattern entry (which hours is stated by `HoursFromMembers`) |
| Algorithms.HoursAtLeast | algorithms.py:57-65 | at most one hour per pattern entry (which hours is stated by `HoursFromMembers`) |
| Algorithms.HoursFromMembers | algorithms.py:60-63 | an hour is returned exactly when some entry with that hour reaches the threshold |
| Algorithms.HoursFromAntitone | algorithms.py:60-63 | raising the threshold only removes hours |
| Algorithms.CollectOptimalHours | algorithms.py:60-65 | the loop collects the hours whose energy reaches the requirement, in pattern order |
| Algorithms.FindOptimalTimeWindows | algorithms.py:43-65 | the filter over the given pattern, or the default (`DefaultEnergyPattern`, the 18 entries for hours 6..23) when none is given (`PatternOrDefault`) |
| Algorithms.DefaultHoursAtLeast85 | algorithms.py:21-40 | on the default pattern a requirement of 85 gives hours 9, 10, 11 |
| Algorithms.FindDeepWorkWindows | algorithms.py:174-189 | the same filter with threshold 70 |
| Algorithms.DeepWorkWindowsContainHarderWindows | algorithms.py:186-189 | every hour fit for a requirement of 70 or more is a deep-work hour |
| Algorithms.DefaultEveningDeepWork | algorithms.py:32-40 | on the default pattern the afternoon deep-work hours are 16, 17, 18 |
| Algorithms.DefaultMiddayDeepWork | algorithms.py:186-189 | on the default pattern the deep-work hours from hour 11 on are 11, 12, 16, 17, 18 |
| Algorithms.DefaultDeepWorkWindows | algorithms.py:186-189 | on the default pattern the deep-work hours are 8, 9, 10, 11, 12, 16, 17, 18 |
| Algorithms.PeakIndex | algorithms.py:83 | `max` with a key: the first entry of maximal energy |
| Algorithms.CalculatePeakEnergy | algorithms.py:68-84 | an error exactly for an empty pattern; otherwise the first entry of the pattern (the given one, or the default when none is given) with maximal energy: no entry has more energy, and every earlier entry has strictly less |
| Algorithms.PeakTieGoesToFirst | algorithms.py:83 | of two entries with equal energy, `max` returns the earlier one |
| Algorithms.DefaultPeak | algorithms.py:80-84 | on the default pattern the peak is hour 10 with energy 90 |
| Algorithms.CalculateProductivityScore | algorithms.py:87-110 | 0 for no tasks; never above 100; not negative for sensible inputs |
| Algorithms.ProductivityScoreMonotone | algorithms.py:103-110 | completing more of the same number of tasks never lowers the score |
| Algorithms.ProductivityScoreExample | algorithms.py:103-110 | 8 of 10 tasks with alignment 0.8 score 96 |
| Algorithms.SleepScore | algorithms.py:129-135 | the sleep component lies in 0..40 |
| Algorithms.SleepScoreFullIffOptimal | algorithms.py:129-135 | full sleep score exactly for 7 to 9 hours |
| Algorithms.TruncReal | algorithms.py:138 | `int(x)` truncates toward zero |
| Algorithms.BreakScore | algorithms.py:137-139 | the break component is at most 30, and not negative for a non-negative count |
| Algorithms.BalanceScore | algorithms.py:141-145 | the balance component lies in 0..30 and is 30 up to 8 hours of work |
| Algorithms.BalanceScoreAntitone | algorithms.py:141-145 | more work hours never raise the balance component |
| Algorithms.CalculateHealthScore | algorithms.py:113-147 | the sum of the three components, at most 100, not negative for a non-negative break count |
| Algorithms.HealthScoreExample | algorithms.py:129-147 | 8 hours of sleep, 3 breaks and 9 hours of work score 82 |
| Algorithms.CalculateDuration | algorithms.py:150-171 | a value in 0..1439 that brings the start time to the end time, wrapping past midnight |
| Algorithms.DurationUnique | algorithms.py:163-171 | that value is the only one; equal times give 0 |
| Algorithms.EnergyFrom | algorithms.py:211 | the energy of the first entry for the hour, none exactly when the hour is missing |
| Algorithms.Alignment | algorithms.py:215-225 | 1 at equal energies, at most 1 with a surplus, in [0, 1) with a deficit, in [0, 1] for energies in 0..100 |
| Algorithms.AlignmentFallsWithGap | algorithms.py:217-225 | the alignment never grows as the surplus or the deficit grows |
| Algorithms.CalculateEnergyAlignment | algorithms.py:192-225 | 0 for an hour missing from the pattern, else the alignment at that hour's energy |
| Algorithms.DefaultAlignmentExamples | algorithms.py:208-225 | on the default pattern, hour 10 and a requirement of 90 align perfectly; hour 3 scores 0 |
| CalendarSync.TaskToEvent | calendar_sync.py:78-111 | an error exactly for an unscheduled task; otherwise the event starts at the scheduled time, lasts the duration, carries the title, the id, UTC, a 30-minute popup, and a description that starts with the task's description (`EventDescription` appends the priority and energy names) |
| CalendarSync.EventCoversScheduledTask | calendar_sync.py:83-95 | the event covers exactly the minutes the task is scheduled for |
| CalendarSync.BusyIntervals | calendar_sync.py:252-259 | at most one busy interval per event (which intervals is stated by `BusyIntervalsFromTimedEvents`) |
| CalendarSync.BusyIntervalsFromTimedEvents | calendar_sync.py:252-259 | the busy intervals are exactly those of the events with a timed start |
| CalendarSync.AllDayEventsNeverBusy | calendar_sync.py:257-259 | all-day events add no busy interval |
| CalendarSync.SlotIsFree | calendar_sync.py:269-273 | true exactly when no busy interval overlaps the candidate (half-open test) |
| CalendarSync.CollectBusyIntervals | calendar_sync.py:252-259 | the loop collects the busy intervals |
| CalendarSync.FindFreeTimeSlots | calendar_sync.py:245-280 | an hour outside 0..23, which `date.replace` rejects, is an error; otherwise returns, ascending, exactly the half-hour grid times from the start hour of the day of `date` that end by the end hour and overlap no busy interval |
| CalendarSync.FreeSlotsBetween | calendar_sync.py:248-280 | the scan over a fixed window returns, ascending, exactly the half-hour grid times that end by the window's end and overlap no busy interval |
| CalendarSync.NoSlotLongerThanDay | calendar_sync.py:265 | a duration longer than the working day has no free slot |
| CalendarSync.TouchingIsFree | calendar_sync.py:271 | a slot touching a busy interval at an end point does not overlap it |
| Cli.LowerChar | cli.py:29 | ASCII upper-case letters become lower case, other characters stay |
| Cli.Lower | cli.py:29 | lower-casing keeps the length (each character is stated by `LowerEachChar`) |
| Cli.LowerEachChar | cli.py:29 | lower-casing acts character by character |
| Cli.LowerIdempotent | cli.py:29 | lower-casing twice is lower-casing once |
| Cli.ParsePriority | cli.py:21-29 | low, high, urgent in any case give their priority; anything else gives MEDIUM |
| Cli.ParseEnergy | cli.py:32-39 | low, high in any case give their level; anything else, including urgent, gives MEDIUM |
| Cli.ParsersIgnoreCase | cli.py:21-39 | the parsers give the same answer for a string and its lower-case form |
| Cli.ParsePriorityName | cli.py:23-29 | every priority's name parses back to that priority |
| Cli.ParseEnergyName | cli.py:34-39 | every energy level's name parses back to that level |

## Left out

- Saving to and loading from the JSON file (`save_tasks`, `load_tasks`, and their calls in add, complete, delete and schedule_day): file I/O. A new manager therefore starts empty, and a history loaded from disk is not modelled.
- Generating ids and reading the clock (`_generate_id`, `datetime.now()`, `date=None` in `schedule_day`): the generated id, "now" and the day are parameters.
- Parsing and formatting datetimes (ISO strings, `dateutil`, `strptime`): times are minutes. `CalculateDuration` takes the two clock times as minutes after midnight.
- Time zones, and the error Python raises when comparing naive and aware datetimes: all times are one integer scale.
- Google OAuth, the token file and every call to the calendar service, including the `authenticate` short-circuit of `find_free_time_slots`: network code. The day's events are an input.
- The command-line interface beyond the two parsers, and `example.py`: user interface and demonstration code.
- The `EnergyProfile` and `DynamicScheduler` objects: their only state is the hourly table, which is passed as a map.
- Aliasing of task objects: Python writes `scheduled_time`, `completed` and `required_energy` into objects shared by the caller and the list. The model returns the updated list, or replaces the list element.
- `list_tasks(True)` returns the manager's own list object. The model returns its value.
- Scheduler.VisitOrder: Python's in-place `list.sort` is modelled as a stable insertion sort over positions, with the same order.
- Scheduler.SchedulingPass: the guard `best_slot >= current_time` (task_manager.py:225) always holds, because the scan starts at `current_time`. It is kept as written.
- Scheduler.FindBestSlot: states only that it computes `BestSlot`; that the result is the first best candidate is proved in `BestSlotIsFirstBest`.
- Scheduler.TaskScore: the hours until the deadline are compared as minutes against 24 and 48 hours (1440 and 2880 minutes); seconds are not modelled.
- Recommendation.RecommendDuration: `np.mean` over floats is an exact rational mean truncated by `int`; floating-point rounding is not modelled.
- Recommendation.GetProductivityInsights: the completion rate and the mean duration are exact rationals, not floats.
- History records are a datatype with named fields rather than dictionaries.
- Algorithms.CalculateProductivityScore: `round(…, 1)` is not modelled; the score is the exact capped sum.
- Algorithms.CalculateHealthScore: `round(…, 1)` is not modelled; the final `min(100, …)` is applied, and the exact sum is proved to be at most 100 anyway.
- Energies in `algorithms.py` are exact reals, not floats.
- Cli.Lower: only ASCII letters are lower-cased; Unicode case mapping is not modelled.
- TaskModel.FromDict: the deadline, scheduled and creation times are taken as already parsed values; malformed date strings are not modelled.
- TaskModel.FromDict: a null title, description, duration or `completed` is rejected as an error, whereas Python stores None in that attribute and fails only later, where it is used; the task record has no None for those fields.
- TaskModel.FromDict: a value of the wrong JSON type (a string duration, say) is not modelled; every key holds a value of its field's type, or null.
