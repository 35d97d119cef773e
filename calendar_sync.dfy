// The two calculations inside the Google Calendar adapter
// (calendar_sync.py, class GoogleCalendarSync): turning a scheduled task into
// an event, and scanning a working day for free half-hour-aligned slots
// around the busy events. Authentication and every call to the calendar
// service are not modelled; the day's events are an input.

module CalendarSync {
  import opened TaskModel
  import opened EnergyProfiles

  /// The event body `task_to_event` builds; times are minutes since the
  /// epoch midnight, in UTC.
  datatype CalendarEvent = CalendarEvent(
    summary: string,
    description: string,
    startMinute: int,
    endMinute: int,
    timeZone: string,
    useDefaultReminders: bool,
    popupReminderMinutes: int,
    privateTaskId: string)

  /// The event description: the task's description, then its priority and
  /// energy names.
  function EventDescription(task: Task): string {
    task.description + "\n\nPriority: " + task.priority.Name() + "\nEnergy: " + task.requiredEnergy.Name()
  }

  /// `task_to_event`: an unscheduled task is rejected; otherwise the event
  /// spans the task's scheduled time and duration and carries its id.
  function TaskToEvent(task: Task): (r: Result<CalendarEvent>)
    ensures r.Err? <==> task.scheduledTime.None?
    ensures r.Err? ==> r.message == "Task must have a scheduled time to sync"
    ensures r.Ok? ==> r.value.startMinute == task.scheduledTime.value
    ensures r.Ok? ==> r.value.endMinute - r.value.startMinute == task.durationMinutes
    ensures r.Ok? ==> r.value.summary == task.title && r.value.privateTaskId == task.taskId
    ensures r.Ok? ==> |task.description| <= |r.value.description|
                      && r.value.description[..|task.description|] == task.description
    ensures r.Ok? ==> r.value.timeZone == "UTC" && !r.value.useDefaultReminders && r.value.popupReminderMinutes == 30
  {
    if task.scheduledTime.None? then Err("Task must have a scheduled time to sync")
    else
      var start := task.scheduledTime.value;
      Ok(CalendarEvent(
        summary := task.title,
        description := EventDescription(task),
        startMinute := start,
        endMinute := start + task.durationMinutes,
        timeZone := "UTC",
        useDefaultReminders := false,
        popupReminderMinutes := 30,
        privateTaskId := task.taskId))
  }

  /// A task synced as an event and read back keeps its place in the day: the
  /// event covers exactly the minutes the task was scheduled for.
  lemma EventCoversScheduledTask(task: Task, t: int)
    requires task.scheduledTime.Some?
    ensures TaskToEvent(task).Ok?
    ensures TaskToEvent(task).value.startMinute <= t < TaskToEvent(task).value.endMinute
            <==> task.scheduledTime.value <= t < task.scheduledTime.value + task.durationMinutes
  {
  }

  /// The start or end of a fetched event: a `dateTime` (its text holds a
  /// 'T') or an all-day `date`, which parses to that day's midnight.
  datatype EventTime = DateTime(minute: int) | AllDay(day: int)

  datatype FetchedEvent = FetchedEvent(start: EventTime, end: EventTime)

  /// The minute an event time parses to.
  function Minute(t: EventTime): int {
    match t
    case DateTime(m) => m
    case AllDay(d) => d * 1440
  }

  datatype Interval = Interval(start: int, end: int)

  /// The busy intervals: one per event whose start is a `dateTime`, in event
  /// order; all-day events are skipped.
  function BusyIntervals(events: seq<FetchedEvent>): (busy: seq<Interval>)
    ensures |busy| <= |events|
  {
    if events == [] then []
    else
      (if events[0].start.DateTime? then [Interval(Minute(events[0].start), Minute(events[0].end))] else [])
      + BusyIntervals(events[1..])
  }

  /// Every busy interval comes from a timed event, and every timed event
  /// gives one.
  lemma {:induction false} BusyIntervalsFromTimedEvents(events: seq<FetchedEvent>, b: Interval)
    ensures b in BusyIntervals(events)
            <==> exists e :: e in events && e.start.DateTime? && b == Interval(Minute(e.start), Minute(e.end))
  {
    if events != [] {
      BusyIntervalsFromTimedEvents(events[1..], b);
      assert forall e :: e in events <==> e == events[0] || e in events[1..];
    }
  }

  /// All-day events add no busy interval.
  lemma {:induction false} AllDayEventsNeverBusy(events: seq<FetchedEvent>)
    requires forall k :: 0 <= k < |events| ==> events[k].start.AllDay?
    ensures BusyIntervals(events) == []
  {
    if events != [] {
      AllDayEventsNeverBusy(events[1..]);
    }
  }

  /// The candidate [t, t + duration) overlaps the busy interval: the test is
  /// half-open, so touching at an end point is not an overlap.
  predicate Overlaps(t: int, duration: int, b: Interval) {
    t < b.end && t + duration > b.start
  }

  predicate IsFreeAt(busy: seq<Interval>, t: int, duration: int) {
    forall k :: 0 <= k < |busy| ==> !Overlaps(t, duration, busy[k])
  }

  /// A slot `find_free_time_slots` reports: on the half-hour grid from the
  /// start of the working day, ending by the end of it, clear of every busy
  /// interval.
  predicate FreeSlot(startOfDay: int, endOfDay: int, duration: int, busy: seq<Interval>, t: int) {
    OnHalfHourGrid(startOfDay, t) && t + duration <= endOfDay && IsFreeAt(busy, t, duration)
  }

  /// The inner loop: no busy interval overlaps the candidate.
  method SlotIsFree(busy: seq<Interval>, t: int, duration: int) returns (isFree: bool)
    ensures isFree <==> IsFreeAt(busy, t, duration)
  {
    isFree := true;
    for k := 0 to |busy|
      invariant isFree <==> IsFreeAt(busy[..k], t, duration)
    {
      if t < busy[k].end && t + duration > busy[k].start {
        assert busy[..k + 1][k] == busy[k];
        return false;
      }
      assert busy[..k + 1] == busy[..k] + [busy[k]];
    }
    assert busy[..|busy|] == busy;
  }

  /// The loop collecting the busy intervals.
  method CollectBusyIntervals(events: seq<FetchedEvent>) returns (busy: seq<Interval>)
    ensures busy == BusyIntervals(events)
  {
    busy := [];
    for i := 0 to |events|
      invariant busy + BusyIntervals(events[i..]) == BusyIntervals(events)
    {
      assert events[i..][1..] == events[i + 1..];
      if events[i].start.DateTime? {
        busy := busy + [Interval(Minute(events[i].start), Minute(events[i].end))];
      }
    }
    assert events[|events|..] == [];
  }

  /// `find_free_time_slots`: the working day runs from `work_start_hour` to
  /// `work_end_hour` o'clock on the day of `date`. An hour outside 0..23,
  /// which `datetime.replace` rejects, is an error; otherwise every reported
  /// time is a free slot of that window, they ascend, and none is missed.
  method FindFreeTimeSlots(date: int, durationMinutes: int, workStartHour: int, workEndHour: int,
                           events: seq<FetchedEvent>)
    returns (r: Result<seq<int>>)
    ensures r.Err? <==> !ValidWorkHours(workStartHour, workEndHour)
    ensures r.Ok? ==> forall k :: 0 <= k < |r.value| ==>
              FreeSlot(AtHour(date, workStartHour), AtHour(date, workEndHour), durationMinutes,
                       BusyIntervals(events), r.value[k])
    ensures r.Ok? ==> forall k, m :: 0 <= k < m < |r.value| ==> r.value[k] < r.value[m]
    ensures r.Ok? ==> forall t ::
              FreeSlot(AtHour(date, workStartHour), AtHour(date, workEndHour), durationMinutes,
                       BusyIntervals(events), t)
              ==> t in r.value
  {
    if !ValidWorkHours(workStartHour, workEndHour) {
      return Err("hour must be in 0..23");
    }
    var freeSlots := FreeSlotsBetween(AtHour(date, workStartHour), AtHour(date, workEndHour),
                                      durationMinutes, events);
    return Ok(freeSlots);
  }

  /// The scan of `find_free_time_slots` once the window is fixed and the
  /// day's events fetched: every reported time is a free slot, they ascend,
  /// and none is missed.
  method FreeSlotsBetween(startOfDay: int, endOfDay: int, durationMinutes: int, events: seq<FetchedEvent>)
    returns (freeSlots: seq<int>)
    ensures forall k :: 0 <= k < |freeSlots| ==>
              FreeSlot(startOfDay, endOfDay, durationMinutes, BusyIntervals(events), freeSlots[k])
    ensures forall k, m :: 0 <= k < m < |freeSlots| ==> freeSlots[k] < freeSlots[m]
    ensures forall t :: FreeSlot(startOfDay, endOfDay, durationMinutes, BusyIntervals(events), t) ==> t in freeSlots
  {
    var busy := CollectBusyIntervals(events);
    freeSlots := [];
    var current := startOfDay;
    while current + durationMinutes <= endOfDay
      invariant OnHalfHourGrid(startOfDay, current)
      invariant forall k :: 0 <= k < |freeSlots| ==>
                  FreeSlot(startOfDay, endOfDay, durationMinutes, busy, freeSlots[k]) && freeSlots[k] < current
      invariant forall k, m :: 0 <= k < m < |freeSlots| ==> freeSlots[k] < freeSlots[m]
      invariant forall t :: FreeSlot(startOfDay, endOfDay, durationMinutes, busy, t) && t < current ==> t in freeSlots
      decreases endOfDay - durationMinutes - current
    {
      ghost var before := freeSlots;
      var isFree := SlotIsFree(busy, current, durationMinutes);
      if isFree {
        freeSlots := freeSlots + [current];
      }
      forall t | FreeSlot(startOfDay, endOfDay, durationMinutes, busy, t) && t < current + SlotStepMinutes
        ensures t in freeSlots
      {
        if t > current {
          GridGap(startOfDay, current, t);
        } else if t < current {
          assert t in before;
        }
      }
      current := current + SlotStepMinutes;
    }
    forall t | FreeSlot(startOfDay, endOfDay, durationMinutes, busy, t) ensures t in freeSlots {
      if t >= current {
        assert false;
      }
    }
  }

  /// A task longer than the working day fits nowhere.
  lemma NoSlotLongerThanDay(startOfDay: int, endOfDay: int, durationMinutes: int, busy: seq<Interval>, t: int)
    requires durationMinutes > endOfDay - startOfDay
    ensures !FreeSlot(startOfDay, endOfDay, durationMinutes, busy, t)
  {
  }

  /// A slot that ends exactly when a busy interval starts, or starts exactly
  /// when it ends, is still free of it.
  lemma TouchingIsFree(t: int, duration: int, b: Interval)
    requires t + duration == b.start || t == b.end
    requires b.start <= b.end && duration >= 0
    ensures !Overlaps(t, duration, b)
  {
  }
}
