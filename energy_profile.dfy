// The user's hourly energy table and the half-hour scan over it
// (task_manager.py, class EnergyProfile).

module EnergyProfiles {
  import opened TaskModel

  /// Candidate times are probed every 30 minutes.
  const SlotStepMinutes: int := 30

  /// The hour→energy table; hours missing from it count as MEDIUM.
  type HourlyEnergy = map<int, EnergyLevel>

  /// The table every `EnergyProfile()` starts with.
  const DefaultHourlyEnergy: HourlyEnergy := map[
    6 := EnergyLevel.Low, 7 := EnergyLevel.Medium, 8 := EnergyLevel.High,
    9 := EnergyLevel.High, 10 := EnergyLevel.High, 11 := EnergyLevel.Medium,
    12 := EnergyLevel.Medium, 13 := EnergyLevel.Low, 14 := EnergyLevel.Low,
    15 := EnergyLevel.Medium, 16 := EnergyLevel.High, 17 := EnergyLevel.Medium,
    18 := EnergyLevel.Medium, 19 := EnergyLevel.Low, 20 := EnergyLevel.Low]

  /// `datetime.hour` of a time given in minutes since a midnight epoch.
  function Hour(t: int): (h: int)
    ensures 0 <= h < 24
  {
    (t / 60) % 24
  }

  const MinutesPerDay: int := 1440

  /// Hours `datetime.replace(hour=...)` accepts.
  predicate ValidWorkHours(workStartHour: int, workEndHour: int) {
    0 <= workStartHour < 24 && 0 <= workEndHour < 24
  }

  /// `date.replace(hour=h, minute=0, second=0, microsecond=0)`: h o'clock on
  /// the day of `date`.
  function AtHour(date: int, hour: int): int {
    date - date % MinutesPerDay + 60 * hour
  }

  /// For an hour in 0..23 the replaced time is on the same day, on the full
  /// hour, and at that hour.
  lemma AtHourIsThatHour(date: int, hour: int)
    requires 0 <= hour < 24
    ensures AtHour(date, hour) / MinutesPerDay == date / MinutesPerDay
    ensures AtHour(date, hour) % 60 == 0 && Hour(AtHour(date, hour)) == hour
  {
    var q := date / 1440;
    var t := AtHour(date, hour);
    assert t == 1440 * q + 60 * hour;
    assert t / 1440 == q;
    assert t / 60 == 24 * q + hour;
  }

  /// `get_energy_at_time`: the table entry for the hour, MEDIUM when absent.
  function EnergyAtTime(profile: HourlyEnergy, t: int): (e: EnergyLevel)
    ensures Hour(t) in profile ==> e == profile[Hour(t)]
    ensures Hour(t) !in profile ==> e == EnergyLevel.Medium
  {
    if Hour(t) in profile then profile[Hour(t)] else EnergyLevel.Medium
  }

  /// With the default table, every hour outside 6..20 is MEDIUM and 6..20
  /// read the table.
  lemma DefaultEnergyOutsideTable(t: int)
    ensures Hour(t) < 6 || Hour(t) > 20 ==> EnergyAtTime(DefaultHourlyEnergy, t) == EnergyLevel.Medium
    ensures 6 <= Hour(t) <= 20 ==> EnergyAtTime(DefaultHourlyEnergy, t) == DefaultHourlyEnergy[Hour(t)]
  {
  }

  /// `t` is one of origin, origin+30, origin+60, ...
  predicate OnHalfHourGrid(origin: int, t: int) {
    origin <= t && (t - origin) % SlotStepMinutes == 0
  }

  /// Two distinct points of one grid are at least one step apart.
  lemma GridGap(origin: int, a: int, b: int)
    requires OnHalfHourGrid(origin, a) && OnHalfHourGrid(origin, b) && a < b
    ensures a + SlotStepMinutes <= b
  {
    var i := (a - origin) / SlotStepMinutes;
    var j := (b - origin) / SlotStepMinutes;
    assert a - origin == SlotStepMinutes * i;
    assert b - origin == SlotStepMinutes * j;
  }

  /// A time `find_best_time_slots` reports: on the grid from `origin`, before
  /// `limit`, with at least the required energy.
  predicate GoodSlot(profile: HourlyEnergy, origin: int, limit: int, requiredEnergy: EnergyLevel, t: int) {
    OnHalfHourGrid(origin, t) && t < limit && EnergyAtTime(profile, t).Value() >= requiredEnergy.Value()
  }

  /// `find_best_time_slots`: the times startTime + 30k before endTime whose
  /// energy is at least the required level, in ascending order. The duration
  /// argument is accepted and ignored, as in the source.
  method FindBestTimeSlots(profile: HourlyEnergy, startTime: int, endTime: int,
                           requiredEnergy: EnergyLevel, durationMinutes: int)
    returns (slots: seq<int>)
    ensures forall k :: 0 <= k < |slots| ==> GoodSlot(profile, startTime, endTime, requiredEnergy, slots[k])
    ensures forall k, m :: 0 <= k < m < |slots| ==> slots[k] < slots[m]
    ensures forall t :: GoodSlot(profile, startTime, endTime, requiredEnergy, t) ==> t in slots
  {
    slots := [];
    var current := startTime;
    while current < endTime
      invariant OnHalfHourGrid(startTime, current)
      invariant forall k :: 0 <= k < |slots| ==>
                  GoodSlot(profile, startTime, endTime, requiredEnergy, slots[k]) && slots[k] < current
      invariant forall k, m :: 0 <= k < m < |slots| ==> slots[k] < slots[m]
      invariant forall t :: GoodSlot(profile, startTime, current, requiredEnergy, t) ==> t in slots
      decreases endTime - current
    {
      ghost var before := slots;
      if EnergyAtTime(profile, current).Value() >= requiredEnergy.Value() {
        slots := slots + [current];
      }
      forall t | GoodSlot(profile, startTime, current + SlotStepMinutes, requiredEnergy, t)
        ensures t in slots
      {
        if t > current {
          GridGap(startTime, current, t);
        } else if t < current {
          assert GoodSlot(profile, startTime, current, requiredEnergy, t);
          assert t in before;
        }
      }
      current := current + SlotStepMinutes;
    }
    forall t | GoodSlot(profile, startTime, endTime, requiredEnergy, t) ensures t in slots {
      assert GoodSlot(profile, startTime, current, requiredEnergy, t);
    }
  }
}
