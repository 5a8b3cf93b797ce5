/** The stats module's mutable state and the operations that update it in place. Each
    method is proved to leave the object in the state the matching function of module
    TrackerSpec computes from the old one. */
module Tracker {
  import opened Wrappers
  import opened Text
  import opened Calendar
  import opened Snapshot
  import opened TrackerSpec

  /** `initializePeriodData`: the four tables of zero buckets. The seven dates of the
      current week are computed by the caller from the clock (`toISOString` of each day
      from Sunday to Saturday); `daysInMonth` is the length of the current month. */
  method InitializePeriodData(weekDates: seq<string>, daysInMonth: int) returns (t: PeriodTables)
    ensures t == InitialTables(weekDates, daysInMonth)
  {
    var daily := ZeroCounts(24);
    var weekly := ZeroDates(weekDates);
    var monthly := ZeroWeeks(daysInMonth);
    var yearly := ZeroCounts(12);
    t := PeriodTables(daily, weekly, monthly, yearly);
  }

  /** The hour and month loops of `initializePeriodData`: keys 0 .. n-1. */
  method ZeroCounts(n: nat) returns (table: map<int, Bucket>)
    ensures table == ZeroTable(IntRange(n))
  {
    table := map[];
    for k := 0 to n
      invariant table == ZeroTable(IntRange(k))
    {
      table := table[k := ZeroBucket];
    }
  }

  /** The loop over the days of the week: one zero bucket per date string. */
  method ZeroDates(dates: seq<string>) returns (table: map<string, Bucket>)
    ensures table == ZeroTable(set i | 0 <= i < |dates| :: dates[i])
  {
    table := map[];
    for i := 0 to |dates|
      invariant table == ZeroTable(set j | 0 <= j < i :: dates[j])
    {
      table := table[dates[i] := ZeroBucket];
    }
  }

  /** The loop over the month in 7-day steps from its first day: "week1", "week2", ...
      while the date stays in the month. */
  method ZeroWeeks(daysInMonth: int) returns (table: map<string, Bucket>)
    ensures table == ZeroTable(MonthWeekKeys(daysInMonth))
  {
    table := map[];
    var currentWeek := 1;
    var currentDate := 1;
    while currentDate <= daysInMonth
      invariant currentWeek >= 1 && currentDate == 7 * (currentWeek - 1) + 1
      invariant currentDate <= daysInMonth + 7 || currentWeek == 1
      invariant table == ZeroTable(set k | 1 <= k < currentWeek :: WeekName(k))
      decreases daysInMonth - currentDate
    {
      table := table[WeekName(currentWeek) := ZeroBucket];
      currentDate := currentDate + 7;
      currentWeek := currentWeek + 1;
    }
    assert currentWeek - 1 == if daysInMonth < 1 then 0 else (daysInMonth + 6) / 7;
    assert (set k | 1 <= k < currentWeek :: WeekName(k)) == MonthWeekKeys(daysInMonth);
  }

  /** One `if (!table[key]) table[key] = { dracs: 0, ... }; table[key].dracs += ...` block
      of `updatePeriodData`: the bucket at `key`, created empty when missing, grows by `d`. */
  method AddToBucket<K>(table: map<K, Bucket>, key: K, d: ActivityDiffs) returns (r: map<K, Bucket>)
    ensures r == Bump(table, key, d)
  {
    r := table;
    if key !in r {
      r := r[key := ZeroBucket];
    }
    var b := r[key];
    r := r[key := Bucket(b.dracs + d.dracs, b.kills + d.kills, b.subBossKills + d.subBossKills, b.items + d.items)];
  }

  /** `module.statsData` (its `realPlayTime` record kept as one field), `module.lastUpdate`,
      `module.lastPayload` and `module.seriesVisibility`. */
  class StatsTracker {
    var totalSessions: int
    var totalPlayTime: int
    var averageSession: real
    var hourly: array<int>
    var dailyData: map<int, Bucket>
    var weeklyData: map<string, Bucket>
    var monthlyData: map<string, Bucket>
    var yearlyData: map<int, Bucket>

    var realPlayTime: RealPlayTime

    var lastUpdate: Option<int>
    var lastPayload: Option<Payload>
    var seriesVisibility: map<string, bool>

    /** `hourly` is `Array(24)`. */
    predicate Valid()
      reads this
    {
      hourly.Length == 24
    }

    function Stats(): StatsData
      reads this, hourly
    {
      StatsData(totalSessions, totalPlayTime, averageSession, hourly[..],
                dailyData, weeklyData, monthlyData, yearlyData, realPlayTime)
    }

    /** The object's state as a value. */
    function State(): TrackerState
      reads this, hourly
    {
      TrackerState(Stats(), lastUpdate, lastPayload, seriesVisibility)
    }

    /** The first-initialisation branch of `loadFromStorage`. */
    constructor (c: Clock, weekDates: seq<string>, daysInMonth: int)
      requires ValidClock(c)
      ensures Valid() && fresh(hourly)
      ensures State() == InitialState(c, weekDates, daysInMonth)
    {
      var tables := InitializePeriodData(weekDates, daysInMonth);
      totalSessions, totalPlayTime, averageSession := 0, 0, 0.0;
      hourly := new int[24](_ => 0);
      dailyData, weeklyData := tables.daily, tables.weekly;
      monthlyData, yearlyData := tables.monthly, tables.yearly;
      realPlayTime := DefaultRealPlayTime;
      lastUpdate, lastPayload := None, None;
      seriesVisibility := DefaultSeriesVisibility;
      new;
      assert hourly[..] == seq(24, _ => 0);
      assert State() == DefaultState(weekDates, daysInMonth);
      CheckAndResetPeriods(c);
    }

    /** `checkAndResetPeriods()` with the clock reading `c`. */
    method CheckAndResetPeriods(c: Clock)
      requires Valid() && ValidClock(c)
      modifies this
      ensures Valid() && hourly == old(hourly)
      ensures State() == WithRealPlayTime(old(State()), ResetPeriods(old(realPlayTime), c))
    {
      var todayKey, currentWeek, currentMonth := LocalDateKey(c), WeekNumber(c), c.month;
      ResetPeriodsFrom(todayKey, currentWeek, currentMonth);
    }

    /** The body of `checkAndResetPeriods` for the current date key, week and month. */
    method ResetPeriodsFrom(todayKey: string, currentWeek: int, currentMonth: int)
      requires Valid()
      modifies this
      ensures Valid() && hourly == old(hourly)
      ensures State() == WithRealPlayTime(old(State()), ResetPeriodsTo(old(realPlayTime), todayKey, currentWeek, currentMonth))
    {
      ghost var rt0 := realPlayTime;
      if !TruthyString(realPlayTime.lastReset.day) {
        realPlayTime := realPlayTime.(lastReset := realPlayTime.lastReset.(day := Some(todayKey)));
      }
      if !TruthyNumber(realPlayTime.lastReset.week) {
        realPlayTime := realPlayTime.(lastReset := realPlayTime.lastReset.(week := Some(currentWeek)));
      }
      if !TruthyNumber(realPlayTime.lastReset.month) {
        realPlayTime := realPlayTime.(lastReset := realPlayTime.lastReset.(month := Some(currentMonth)));
      }
      ghost var rt1 := realPlayTime;
      assert rt1 == rt0.(lastReset := FillMissingMarkers(rt0.lastReset, todayKey, currentWeek, currentMonth));

      if realPlayTime.lastReset.day != Some(todayKey) {
        realPlayTime := realPlayTime.(today := 0, lastReset := realPlayTime.lastReset.(day := Some(todayKey)));
      }
      if realPlayTime.lastReset.week != Some(currentWeek) {
        realPlayTime := realPlayTime.(week := 0, lastReset := realPlayTime.lastReset.(week := Some(currentWeek)));
      }
      if realPlayTime.lastReset.month != Some(currentMonth) {
        realPlayTime := realPlayTime.(month := 0, lastReset := realPlayTime.lastReset.(month := Some(currentMonth)));
      }
    }

    /** `calculateAndRecordTimeDifference(newData)` for a payload whose TimePlayedSec is
        `current`, at `now` (epoch milliseconds). */
    method RecordTimeDifference(current: int, now: int) returns (timeDiff: int)
      requires Valid()
      modifies this
      ensures Valid() && hourly == old(hourly)
      ensures var step := RecordTime(old(realPlayTime), current, now);
              timeDiff == step.diff && State() == WithRealPlayTime(old(State()), step.rt)
    {
      var last := realPlayTime.lastTimePlayed;
      if last == 0 && current > 0 {
        realPlayTime := realPlayTime.(lastTimePlayed := current);
        return 0;
      }

      timeDiff := current - last;
      if timeDiff <= 0 {
        return 0;
      }
      if timeDiff < MinTimeDiff {
        return 0;
      }

      var history := realPlayTime.timeDiffs + [TimeDiffEntry(now, timeDiff, current)];
      if |history| > MaxHistory {
        history := history[|history| - MaxHistory..];
      }
      realPlayTime := realPlayTime.(timeDiffs := history, lastTimePlayed := current);
    }

    /** `updateInGameStatus(timeDiff)` at `now`. */
    method UpdateInGameStatus(timeDiff: int, now: int)
      requires Valid()
      modifies this
      ensures Valid() && hourly == old(hourly)
      ensures State() == WithRealPlayTime(old(State()), Presence(old(realPlayTime), timeDiff, now))
    {
      if timeDiff > 0 {
        realPlayTime := realPlayTime.(lastPlaytimeChangeAt := Some(At(now)), isInGame := true);
        return;
      }
      if realPlayTime.lastPlaytimeChangeAt.None? {
        realPlayTime := realPlayTime.(isInGame := false);
        return;
      }
      match realPlayTime.lastPlaytimeChangeAt.value
      case Unreadable =>
        realPlayTime := realPlayTime.(isInGame := false);
      case At(last) =>
        realPlayTime := realPlayTime.(isInGame := now - last < InGameWindowMs);
    }

    /** `updatePeriodTimes(timeDiff)`. */
    method UpdatePeriodTimes(timeDiff: int, c: Clock)
      requires Valid() && ValidClock(c)
      modifies this
      ensures Valid() && hourly == old(hourly)
      ensures State() == WithRealPlayTime(old(State()), AddPlayTime(old(realPlayTime), timeDiff, c))
    {
      if timeDiff <= 0 {
        return;
      }
      CheckAndResetPeriods(c);
      realPlayTime := realPlayTime.(
        today := realPlayTime.today + timeDiff,
        week := realPlayTime.week + timeDiff,
        month := realPlayTime.month + timeDiff);
    }

    /** `updatePeriodData(newData, oldData)` at clock reading `c`. */
    method UpdatePeriodData(newData: Payload, oldData: Payload, c: Clock)
      requires Valid() && ValidClock(c)
      modifies this
      ensures Valid() && hourly == old(hourly)
      ensures State() == old(State()).(statsData := RecordActivity(old(Stats()), newData, oldData, c))
    {
      var activityDiffs := Diffs(Sanitize(newData), Sanitize(oldData));
      if !HasActivity(activityDiffs) {
        return;
      }
      AddToPeriodBuckets(activityDiffs, c.hour, UtcDateKey(c), WeekKey(c), c.month);
    }

    /** The four bucket updates of `updatePeriodData`. */
    method AddToPeriodBuckets(d: ActivityDiffs, currentHour: int, todayKey: string, weekKey: string, currentMonth: int)
      requires Valid()
      modifies this
      ensures Valid() && hourly == old(hourly)
      ensures Stats() == AddToBuckets(old(Stats()), d, currentHour, todayKey, weekKey, currentMonth)
      ensures lastUpdate == old(lastUpdate) && lastPayload == old(lastPayload)
      ensures seriesVisibility == old(seriesVisibility)
    {
      ghost var sd := Stats();
      var daily := AddToBucket(dailyData, currentHour, d);
      var weekly := AddToBucket(weeklyData, todayKey, d);
      var monthly := AddToBucket(monthlyData, weekKey, d);
      var yearly := AddToBucket(yearlyData, currentMonth, d);
      dailyData, weeklyData, monthlyData, yearlyData := daily, weekly, monthly, yearly;
      assert Stats() == sd.(dailyData := daily, weeklyData := weekly, monthlyData := monthly, yearlyData := yearly);
    }

    /** The session bookkeeping of `trackActivity` once play time has advanced by
        `timeDiff`: period totals, session count, total and average, and the hour. */
    method CountPlaySession(timeDiff: int, c: Clock)
      requires Valid() && ValidClock(c)
      modifies this, hourly
      ensures Valid() && hourly == old(hourly)
      ensures Stats() == CountSession(old(Stats()), timeDiff, c)
      ensures lastUpdate == old(lastUpdate) && lastPayload == old(lastPayload)
      ensures seriesVisibility == old(seriesVisibility)
    {
      ghost var sd := Stats();
      UpdatePeriodTimes(timeDiff, c);
      var sessions := totalSessions + 1;
      var total := totalPlayTime + timeDiff;
      var average := Average(total, sessions, averageSession);
      totalSessions, totalPlayTime, averageSession := sessions, total, average;
      CountHour(c.hour);
    }

    /** `statsData.hourly[hour]++`. */
    method CountHour(hour: int)
      requires Valid() && 0 <= hour < 24
      modifies hourly
      ensures hourly[..] == Incremented(old(hourly[..]), hour)
    {
      hourly[hour] := hourly[hour] + 1;
    }

    /** `trackActivity(newData)` with the clock reading `c`. */
    method TrackActivity(newData: Payload, c: Clock)
      requires Valid() && ValidClock(c)
      modifies this, hourly
      ensures Valid() && hourly == old(hourly)
      ensures State() == Track(old(State()), newData, c)
    {
      if newData.stats.None? {
        return;
      }
      var oldData := lastPayload;

      if newData.stats.value.timePlayedSec.None? {
        lastPayload := Some(newData);
        return;
      }

      var timeDiff := RecordTimeDifference(newData.stats.value.timePlayedSec.value, c.epochMs);
      UpdateInGameStatus(timeDiff, c.epochMs);

      if oldData.None? {
        lastPayload := Some(newData);
        if lastUpdate.None? {
          lastUpdate := Some(c.epochMs);
        }
        return;
      }

      var activityDiffs := Diffs(newData, oldData.value);
      if HasActivity(activityDiffs) || timeDiff > 0 {
        lastUpdate := Some(c.epochMs);
        UpdatePeriodData(newData, oldData.value, c);
        if timeDiff > 0 {
          CountPlaySession(timeDiff, c);
        }
      }
      lastPayload := Some(newData);
    }

    /** `handleManualUpdate(newData)`: the same as `trackActivity`. */
    method HandleManualUpdate(newData: Payload, c: Clock)
      requires Valid() && ValidClock(c)
      modifies this, hourly
      ensures Valid() && hourly == old(hourly)
      ensures State() == Track(old(State()), newData, c)
    {
      TrackActivity(newData, c);
    }

    /** `handleManualRefresh(newData)`. */
    method HandleManualRefresh(newData: Option<Payload>, c: Clock)
      requires Valid()
      modifies this
      ensures Valid() && hourly == old(hourly)
      ensures State() == ManualRefresh(old(State()), newData, c)
    {
      lastUpdate := Some(c.epochMs);
      lastPayload := newData;
    }

    /** `resetPeriodTimes()`, where `confirmed` is the user's answer to the prompt. */
    method ResetPeriodTimes(confirmed: bool, c: Clock)
      requires Valid() && ValidClock(c)
      modifies this
      ensures Valid() && hourly == old(hourly)
      ensures State() == WithRealPlayTime(old(State()), ManualReset(old(realPlayTime), confirmed, c))
    {
      if confirmed {
        realPlayTime := realPlayTime.(today := 0, week := 0, month := 0);
        realPlayTime := realPlayTime.(lastReset := ResetMarkers(Some(LocalDateKey(c)), Some(WeekNumber(c)), Some(c.month)));
      }
    }

    /** `toggleSeriesVisibility(key)`. */
    method ToggleSeriesVisibility(key: string)
      requires Valid()
      modifies this
      ensures Valid() && hourly == old(hourly)
      ensures State() == old(State()).(seriesVisibility := ToggleSeries(old(seriesVisibility), key))
    {
      if key !in seriesVisibility {
        return;
      }
      seriesVisibility := seriesVisibility[key := !seriesVisibility[key]];
    }
  }
}
