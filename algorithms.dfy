// Energy-pattern and scoring calculations (algorithms.py). Energies, scores
// and hours of sleep or work are exact reals; `round(..., 1)` is not
// modelled (see README).

module Algorithms {
  import opened TaskModel
  import opened EnergyProfiles

  /// One point of an energy curve: an hour and an energy level (0-100).
  datatype EnergyPattern = EnergyPattern(hour: int, energy: real)

  /// The circadian curve every function falls back to.
  const DefaultEnergyPattern: seq<EnergyPattern> := [
    EnergyPattern(6, 30.0), EnergyPattern(7, 50.0), EnergyPattern(8, 70.0),
    EnergyPattern(9, 85.0), EnergyPattern(10, 90.0), EnergyPattern(11, 85.0),
    EnergyPattern(12, 75.0), EnergyPattern(13, 60.0), EnergyPattern(14, 50.0),
    EnergyPattern(15, 55.0), EnergyPattern(16, 70.0), EnergyPattern(17, 75.0),
    EnergyPattern(18, 70.0), EnergyPattern(19, 60.0), EnergyPattern(20, 50.0),
    EnergyPattern(21, 40.0), EnergyPattern(22, 30.0), EnergyPattern(23, 20.0)]

  /// `energy_pattern = DEFAULT_ENERGY_PATTERN` when none is passed.
  function PatternOrDefault(pattern: Option<seq<EnergyPattern>>): seq<EnergyPattern> {
    if pattern.Some? then pattern.value else DefaultEnergyPattern
  }

  /// The hours, from position i on, whose energy reaches `threshold`, in
  /// pattern order.
  function HoursFrom(pattern: seq<EnergyPattern>, threshold: real, i: nat): (hours: seq<int>)
    requires i <= |pattern|
    ensures |hours| <= |pattern| - i
    decreases |pattern| - i
  {
    if i == |pattern| then []
    else (if pattern[i].energy >= threshold then [pattern[i].hour] else []) + HoursFrom(pattern, threshold, i + 1)
  }

  /// The hours whose energy reaches `threshold`, in pattern order.
  function HoursAtLeast(pattern: seq<EnergyPattern>, threshold: real): (hours: seq<int>)
    ensures |hours| <= |pattern|
  {
    HoursFrom(pattern, threshold, 0)
  }

  /// Entry k is for hour h and reaches the threshold.
  predicate Reaches(pattern: seq<EnergyPattern>, threshold: real, k: int, h: int)
    requires 0 <= k < |pattern|
  {
    pattern[k].hour == h && pattern[k].energy >= threshold
  }

  /// An hour is reported exactly when some entry for it reaches the threshold.
  lemma {:induction false} HoursFromMembers(pattern: seq<EnergyPattern>, threshold: real, i: nat, h: int)
    requires i <= |pattern|
    ensures h in HoursFrom(pattern, threshold, i) <==> exists k :: i <= k < |pattern| && Reaches(pattern, threshold, k, h)
    decreases |pattern| - i
  {
    if i < |pattern| {
      HoursFromMembers(pattern, threshold, i + 1, h);
      var rest := HoursFrom(pattern, threshold, i + 1);
      var head := if pattern[i].energy >= threshold then [pattern[i].hour] else [];
      assert HoursFrom(pattern, threshold, i) == head + rest;
      if Reaches(pattern, threshold, i, h) {
        assert h in head;
      } else {
        assert h !in head;
        assert (exists k :: i <= k < |pattern| && Reaches(pattern, threshold, k, h))
           ==> (exists k :: i + 1 <= k < |pattern| && Reaches(pattern, threshold, k, h));
      }
    }
  }

  /// Raising the threshold never adds an hour.
  lemma {:induction false} HoursFromAntitone(pattern: seq<EnergyPattern>, lo: real, hi: real, i: nat)
    requires lo <= hi && i <= |pattern|
    ensures forall h :: h in HoursFrom(pattern, hi, i) ==> h in HoursFrom(pattern, lo, i)
    ensures |HoursFrom(pattern, hi, i)| <= |HoursFrom(pattern, lo, i)|
    decreases |pattern| - i
  {
    if i < |pattern| {
      HoursFromAntitone(pattern, lo, hi, i + 1);
    }
  }

  /// The loop of `find_optimal_time_windows`: append each hour whose energy
  /// reaches the requirement.
  method CollectOptimalHours(energyRequired: real, pattern: seq<EnergyPattern>) returns (optimalHours: seq<int>)
    ensures optimalHours == HoursAtLeast(pattern, energyRequired)
  {
    optimalHours := [];
    for i := 0 to |pattern|
      invariant optimalHours + HoursFrom(pattern, energyRequired, i) == HoursAtLeast(pattern, energyRequired)
    {
      var head := if pattern[i].energy >= energyRequired then [pattern[i].hour] else [];
      assert HoursFrom(pattern, energyRequired, i) == head + HoursFrom(pattern, energyRequired, i + 1);
      optimalHours := optimalHours + head;
    }
  }

  /// `find_optimal_time_windows`, on the default curve when none is given.
  method FindOptimalTimeWindows(energyRequired: real, energyPattern: Option<seq<EnergyPattern>>)
    returns (optimalHours: seq<int>)
    ensures optimalHours == HoursAtLeast(PatternOrDefault(energyPattern), energyRequired)
  {
    optimalHours := CollectOptimalHours(energyRequired, PatternOrDefault(energyPattern));
  }

  /// The default curve reaches 85 at 9, 10 and 11 only.
  lemma DefaultHoursAtLeast85()
    ensures HoursAtLeast(DefaultEnergyPattern, 85.0) == [9, 10, 11]
  {
    var p := DefaultEnergyPattern;
    assert HoursFrom(p, 85.0, 18) == [];
    assert HoursFrom(p, 85.0, 17) == [];
    assert HoursFrom(p, 85.0, 16) == [];
    assert HoursFrom(p, 85.0, 15) == [];
    assert HoursFrom(p, 85.0, 14) == [];
    assert HoursFrom(p, 85.0, 13) == [];
    assert HoursFrom(p, 85.0, 12) == [];
    assert HoursFrom(p, 85.0, 11) == [];
    assert HoursFrom(p, 85.0, 10) == [];
    assert HoursFrom(p, 85.0, 9) == [];
    assert HoursFrom(p, 85.0, 8) == [];
    assert HoursFrom(p, 85.0, 7) == [];
    assert HoursFrom(p, 85.0, 6) == [];
    assert HoursFrom(p, 85.0, 5) == [11];
    assert HoursFrom(p, 85.0, 4) == [10, 11];
    assert HoursFrom(p, 85.0, 3) == [9, 10, 11];
    assert HoursFrom(p, 85.0, 2) == [9, 10, 11];
    assert HoursFrom(p, 85.0, 1) == [9, 10, 11];
    assert HoursFrom(p, 85.0, 0) == [9, 10, 11];
  }

  /// `find_deep_work_windows`: hours with energy at least 70.
  function FindDeepWorkWindows(energyPattern: Option<seq<EnergyPattern>>): (hours: seq<int>)
    ensures hours == HoursAtLeast(PatternOrDefault(energyPattern), 70.0)
  {
    HoursAtLeast(PatternOrDefault(energyPattern), 70.0)
  }

  /// Every hour good enough for a task needing 70 or more is a deep-work hour.
  lemma DeepWorkWindowsContainHarderWindows(energyPattern: Option<seq<EnergyPattern>>, required: real)
    requires required >= 70.0
    ensures forall h :: h in HoursAtLeast(PatternOrDefault(energyPattern), required) ==> h in FindDeepWorkWindows(energyPattern)
  {
    HoursFromAntitone(PatternOrDefault(energyPattern), 70.0, required, 0);
  }

  /// From 15 o'clock on, the default curve is at 70 or more at 16, 17 and 18.
  lemma DefaultEveningDeepWork()
    ensures HoursFrom(DefaultEnergyPattern, 70.0, 9) == [16, 17, 18]
  {
    var p := DefaultEnergyPattern;
    assert HoursFrom(p, 70.0, 18) == [];
    assert HoursFrom(p, 70.0, 17) == [];
    assert HoursFrom(p, 70.0, 16) == [];
    assert HoursFrom(p, 70.0, 15) == [];
    assert HoursFrom(p, 70.0, 14) == [];
    assert HoursFrom(p, 70.0, 13) == [];
    assert HoursFrom(p, 70.0, 12) == [18];
    assert HoursFrom(p, 70.0, 11) == [17, 18];
    assert HoursFrom(p, 70.0, 10) == [16, 17, 18];
    assert HoursFrom(p, 70.0, 9) == [16, 17, 18];
  }

  /// On the default pattern, from position 5 (hour 11) on the deep-work
  /// hours are 11, 12, 16, 17, 18.
  lemma DefaultMiddayDeepWork()
    ensures HoursFrom(DefaultEnergyPattern, 70.0, 5) == [11, 12, 16, 17, 18]
  {
    var p := DefaultEnergyPattern;
    DefaultEveningDeepWork();
    assert HoursFrom(p, 70.0, 9) == [16, 17, 18];
    assert HoursFrom(p, 70.0, 8) == [16, 17, 18];
    assert HoursFrom(p, 70.0, 7) == [16, 17, 18];
    assert HoursFrom(p, 70.0, 6) == [12, 16, 17, 18];
    assert HoursFrom(p, 70.0, 5) == [11, 12, 16, 17, 18];
  }

  /// On the default curve the deep-work hours are 8-12 and 16-18.
  lemma DefaultDeepWorkWindows()
    ensures FindDeepWorkWindows(None) == [8, 9, 10, 11, 12, 16, 17, 18]
  {
    var p := DefaultEnergyPattern;
    DefaultMiddayDeepWork();
    assert HoursFrom(p, 70.0, 5) == [11, 12, 16, 17, 18];
    assert HoursFrom(p, 70.0, 4) == [10, 11, 12, 16, 17, 18];
    assert HoursFrom(p, 70.0, 3) == [9, 10, 11, 12, 16, 17, 18];
    assert HoursFrom(p, 70.0, 2) == [8, 9, 10, 11, 12, 16, 17, 18];
    assert HoursFrom(p, 70.0, 1) == [8, 9, 10, 11, 12, 16, 17, 18];
    assert HoursFrom(p, 70.0, 0) == [8, 9, 10, 11, 12, 16, 17, 18];
  }

  /// The position `max(..., key=energy)` picks: the first entry of maximal
  /// energy.
  function PeakIndex(pattern: seq<EnergyPattern>): (k: nat)
    requires pattern != []
    ensures k < |pattern|
    ensures forall j :: 0 <= j < |pattern| ==> pattern[j].energy <= pattern[k].energy
    ensures forall j :: 0 <= j < k ==> pattern[j].energy < pattern[k].energy
  {
    if |pattern| == 1 then 0
    else
      var prefix := pattern[..|pattern| - 1];
      var k := PeakIndex(prefix);
      assert forall j :: 0 <= j < |prefix| ==> prefix[j] == pattern[j];
      if pattern[|pattern| - 1].energy > pattern[k].energy then |pattern| - 1 else k
  }

  datatype Peak = Peak(hour: int, energy: real)

  /// `calculate_peak_energy`: the hour and energy of the first maximal entry;
  /// an empty pattern makes `max` raise.
  function CalculatePeakEnergy(energyPattern: Option<seq<EnergyPattern>>): (r: Result<Peak>)
    ensures r.Err? <==> PatternOrDefault(energyPattern) == []
    ensures r.Ok? ==> exists k :: 0 <= k < |PatternOrDefault(energyPattern)|
                               && PatternOrDefault(energyPattern)[k] == EnergyPattern(r.value.hour, r.value.energy)
                               && forall j :: 0 <= j < k ==> PatternOrDefault(energyPattern)[j].energy < r.value.energy
    ensures r.Ok? ==> forall p :: p in PatternOrDefault(energyPattern) ==> p.energy <= r.value.energy
  {
    var pattern := PatternOrDefault(energyPattern);
    if pattern == [] then Err("max() arg is an empty sequence")
    else
      var k := PeakIndex(pattern);
      Ok(Peak(pattern[k].hour, pattern[k].energy))
  }

  /// On the default curve the peak is 90 at 10 o'clock.
  lemma DefaultPeak()
    ensures CalculatePeakEnergy(None) == Ok(Peak(10, 90.0))
  {
    var p := DefaultEnergyPattern;
    var k := PeakIndex(p);
    assert p[4].energy == 90.0;
    assert k == 4;
  }

  /// Of two entries with the same highest energy, the earlier one is the peak.
  lemma PeakTieGoesToFirst()
    ensures CalculatePeakEnergy(Some([EnergyPattern(9, 85.0), EnergyPattern(11, 85.0)])) == Ok(Peak(9, 85.0))
  {
    var r := CalculatePeakEnergy(Some([EnergyPattern(9, 85.0), EnergyPattern(11, 85.0)]));
    assert r.Ok?;
  }

  function MinReal(a: real, b: real): real {
    if a <= b then a else b
  }

  function MaxReal(a: real, b: real): real {
    if a >= b then a else b
  }

  /// `calculate_productivity_score`: the completion percentage plus up to 20
  /// points for energy alignment, capped at 100; no tasks score 0.
  function CalculateProductivityScore(completedTasks: int, totalTasks: int, energyAlignment: real): (r: real)
    ensures totalTasks == 0 ==> r == 0.0
    ensures r <= 100.0
    ensures 0 <= completedTasks && 0 < totalTasks && 0.0 <= energyAlignment ==> r >= 0.0
  {
    if totalTasks == 0 then 0.0
    else
      var completionRate := completedTasks as real / totalTasks as real;
      assert 0 <= completedTasks && 0 < totalTasks ==> completionRate >= 0.0;
      MinReal(100.0, completionRate * 100.0 + energyAlignment * 20.0)
  }

  /// Finishing more of the same number of tasks never lowers the score.
  lemma ProductivityScoreMonotone(c1: int, c2: int, totalTasks: int, energyAlignment: real)
    requires c1 <= c2 && totalTasks > 0
    ensures CalculateProductivityScore(c1, totalTasks, energyAlignment)
            <= CalculateProductivityScore(c2, totalTasks, energyAlignment)
  {
    var n := totalTasks as real;
    assert c1 as real / n <= c2 as real / n by {
      assert c2 as real / n - c1 as real / n == (c2 - c1) as real / n;
    }
  }

  /// 8 of 10 tasks with alignment 0.8 score 96.
  lemma ProductivityScoreExample()
    ensures CalculateProductivityScore(8, 10, 0.8) == 96.0
  {
    assert 8 as real / 10 as real == 0.8;
  }

  /// The sleep component: 40 for 7-9 hours, 30 for 6-10, otherwise 40 less 5
  /// per hour away from 8, never below 0.
  function SleepScore(sleepHours: real): (r: real)
    ensures 0.0 <= r <= 40.0
  {
    if 7.0 <= sleepHours <= 9.0 then 40.0
    else if 6.0 <= sleepHours <= 10.0 then 30.0
    else MaxReal(0.0, 40.0 - AbsReal(sleepHours - 8.0) * 5.0)
  }

  function AbsReal(x: real): real {
    if x < 0.0 then -x else x
  }

  /// The full sleep score is reached exactly on 7-9 hours.
  lemma SleepScoreFullIffOptimal(sleepHours: real)
    ensures SleepScore(sleepHours) == 40.0 <==> 7.0 <= sleepHours <= 9.0
  {
  }

  /// `int(x)` for a float: truncation toward zero.
  function TruncReal(x: real): (n: int)
    ensures x >= 0.0 ==> n as real <= x < n as real + 1.0
    ensures x < 0.0 ==> n as real - 1.0 < x <= n as real
  {
    if x >= 0.0 then x.Floor else -((-x).Floor)
  }

  /// The break component: breaks taken against one per 90 minutes of work,
  /// at most 30.
  function BreakScore(breakCount: int, workHours: real): (r: real)
    ensures r <= 30.0
    ensures breakCount >= 0 ==> r >= 0.0
  {
    var optimalBreaks := TruncReal(workHours / 1.5);
    var divisor := if optimalBreaks >= 1 then optimalBreaks else 1;
    MinReal(30.0, (breakCount as real / divisor as real) * 30.0)
  }

  /// The work-life component: 30 up to 8 hours of work, then 3 less per
  /// extra hour, never below 0.
  function BalanceScore(workHours: real): (r: real)
    ensures 0.0 <= r <= 30.0
    ensures workHours <= 8.0 ==> r == 30.0
  {
    if workHours <= 8.0 then 30.0 else MaxReal(0.0, 30.0 - (workHours - 8.0) * 3.0)
  }

  /// Working longer never improves the balance component.
  lemma BalanceScoreAntitone(w1: real, w2: real)
    requires w1 <= w2
    ensures BalanceScore(w2) <= BalanceScore(w1)
  {
  }

  /// `calculate_health_score`: sleep, breaks and balance added, capped at 100.
  function CalculateHealthScore(sleepHours: real, breakCount: int, workHours: real): (r: real)
    ensures r == SleepScore(sleepHours) + BreakScore(breakCount, workHours) + BalanceScore(workHours)
    ensures r <= 100.0
    ensures breakCount >= 0 ==> r >= 0.0
  {
    MinReal(100.0, SleepScore(sleepHours) + BreakScore(breakCount, workHours) + BalanceScore(workHours))
  }

  /// 8 hours of sleep, 3 breaks and 9 hours of work score 82.
  lemma HealthScoreExample()
    ensures CalculateHealthScore(8.0, 3, 9.0) == 82.0
  {
    assert TruncReal(9.0 / 1.5) == 6;
    assert BreakScore(3, 9.0) == 15.0;
  }

  /// `calculate_duration` on two clock times given as minutes after midnight:
  /// the minutes from start forward to end, wrapping past midnight.
  function CalculateDuration(startMinute: int, endMinute: int): (d: int)
    requires 0 <= startMinute < MinutesPerDay && 0 <= endMinute < MinutesPerDay
    ensures 0 <= d < MinutesPerDay
    ensures (startMinute + d) % MinutesPerDay == endMinute
  {
    if endMinute < startMinute then endMinute + MinutesPerDay - startMinute
    else endMinute - startMinute
  }

  /// The duration is the only wait in 0..1439 that brings start to end; equal
  /// times give 0.
  lemma DurationUnique(startMinute: int, endMinute: int, d: int)
    requires 0 <= startMinute < MinutesPerDay && 0 <= endMinute < MinutesPerDay
    requires 0 <= d < MinutesPerDay && (startMinute + d) % MinutesPerDay == endMinute
    ensures CalculateDuration(startMinute, endMinute) == d
  {
    var e := CalculateDuration(startMinute, endMinute);
    if startMinute + d < MinutesPerDay {
      assert endMinute == startMinute + d;
    } else {
      assert endMinute == startMinute + d - MinutesPerDay;
    }
  }

  /// The energy of the first entry for the hour at or after position i, if
  /// any (`next(...)` over the pattern).
  function EnergyFrom(pattern: seq<EnergyPattern>, hour: int, i: nat): (r: Option<real>)
    requires i <= |pattern|
    ensures r.None? <==> forall k :: i <= k < |pattern| ==> pattern[k].hour != hour
    ensures r.Some? ==> exists k :: i <= k < |pattern| && pattern[k] == EnergyPattern(hour, r.value)
                          && forall j :: i <= j < k ==> pattern[j].hour != hour
    decreases |pattern| - i
  {
    if i == |pattern| then None
    else if pattern[i].hour == hour then Some(pattern[i].energy)
    else EnergyFrom(pattern, hour, i + 1)
  }

  /// How well an available energy suits a required one: 1 less a point per
  /// 100 of surplus, or 1 less a point per 50 of deficit, never below 0.
  function Alignment(available: real, required: real): (r: real)
    ensures available >= required ==> r <= 1.0
    ensures available < required ==> 0.0 <= r < 1.0
    ensures available == required ==> r == 1.0
    ensures 0.0 <= available <= 100.0 && 0.0 <= required <= 100.0 ==> 0.0 <= r <= 1.0
  {
    if available >= required then MinReal(1.0, 1.0 - (available - required) / 100.0)
    else MaxReal(0.0, 1.0 - (required - available) / 50.0)
  }

  /// The alignment never grows as surplus or deficit grows.
  lemma AlignmentFallsWithGap(a1: real, r1: real, a2: real, r2: real)
    ensures 0.0 <= a1 - r1 <= a2 - r2 ==> Alignment(a2, r2) <= Alignment(a1, r1)
    ensures 0.0 < r1 - a1 <= r2 - a2 ==> Alignment(a2, r2) <= Alignment(a1, r1)
  {
  }

  /// `calculate_energy_alignment`: the alignment at the hour's energy, 0 for
  /// an hour missing from the pattern.
  function CalculateEnergyAlignment(scheduledHour: int, taskEnergyRequired: real,
                                    energyPattern: Option<seq<EnergyPattern>>): (r: real)
    ensures EnergyFrom(PatternOrDefault(energyPattern), scheduledHour, 0).None? ==> r == 0.0
    ensures EnergyFrom(PatternOrDefault(energyPattern), scheduledHour, 0).Some? ==>
              r == Alignment(EnergyFrom(PatternOrDefault(energyPattern), scheduledHour, 0).value, taskEnergyRequired)
  {
    var hourData := EnergyFrom(PatternOrDefault(energyPattern), scheduledHour, 0);
    if hourData.None? then 0.0 else Alignment(hourData.value, taskEnergyRequired)
  }

  /// On the default curve 10 o'clock (energy 90) aligns perfectly with a task
  /// needing 90, and an hour outside 6..23 scores 0.
  lemma DefaultAlignmentExamples()
    ensures CalculateEnergyAlignment(10, 90.0, None) == 1.0
    ensures CalculateEnergyAlignment(3, 50.0, None) == 0.0
  {
    var p := DefaultEnergyPattern;
    assert EnergyFrom(p, 3, 18) == None;
    assert EnergyFrom(p, 3, 17) == None;
    assert EnergyFrom(p, 3, 16) == None;
    assert EnergyFrom(p, 3, 15) == None;
    assert EnergyFrom(p, 3, 14) == None;
    assert EnergyFrom(p, 3, 13) == None;
    assert EnergyFrom(p, 3, 12) == None;
    assert EnergyFrom(p, 3, 11) == None;
    assert EnergyFrom(p, 3, 10) == None;
    assert EnergyFrom(p, 3, 9) == None;
    assert EnergyFrom(p, 3, 8) == None;
    assert EnergyFrom(p, 3, 7) == None;
    assert EnergyFrom(p, 3, 6) == None;
    assert EnergyFrom(p, 3, 5) == None;
    assert EnergyFrom(p, 3, 4) == None;
    assert EnergyFrom(p, 3, 3) == None;
    assert EnergyFrom(p, 3, 2) == None;
    assert EnergyFrom(p, 3, 1) == None;
    assert EnergyFrom(p, 3, 0) == None;
    assert EnergyFrom(p, 10, 4) == Some(90.0);
    assert EnergyFrom(p, 10, 3) == Some(90.0);
    assert EnergyFrom(p, 10, 2) == Some(90.0);
    assert EnergyFrom(p, 10, 1) == Some(90.0);
    assert EnergyFrom(p, 10, 0) == Some(90.0);
  }
}
