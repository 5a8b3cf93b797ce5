/** The state the stats module keeps (`module.statsData`, `lastUpdate`, `lastPayload`,
    `seriesVisibility`) as a value, and each of its operations as a function from the old
    state to the new one. The class in module Tracker performs the same steps in place and
    is proved to agree with these functions; the lemmas here state what the steps promise. */
module TrackerSpec {
  import opened Wrappers
  import opened Text
  import opened Calendar
  import opened Snapshot

  /** One entry of `dailyData`, `weeklyData`, `monthlyData` or `yearlyData`. */
  datatype Bucket = Bucket(dracs: int, kills: int, subBossKills: int, items: int)

  const ZeroBucket := Bucket(0, 0, 0, 0)

  /** `realPlayTime.lastReset`: the day, week and month the period totals belong to. */
  datatype ResetMarkers = ResetMarkers(day: Option<string>, week: Option<int>, month: Option<int>)

  /** `lastPlaytimeChangeAt`: an ISO time stamp, which reads back as a number of
      milliseconds unless it is malformed (`isNaN(getTime())`). */
  datatype Stamp = At(ms: int) | Unreadable

  /** One entry of `realPlayTime.timeDiffs`; the time stamp is kept as epoch milliseconds. */
  datatype TimeDiffEntry = TimeDiffEntry(timestamp: int, timeDiff: int, totalTimePlayed: int)

  datatype RealPlayTime = RealPlayTime(
    today: int,
    week: int,
    month: int,
    timeDiffs: seq<TimeDiffEntry>,
    lastTimePlayed: int,
    lastReset: ResetMarkers,
    lastPlaytimeChangeAt: Option<Stamp>,
    isInGame: bool)

  datatype StatsData = StatsData(
    totalSessions: int,
    totalPlayTime: int,
    averageSession: real,
    hourly: seq<int>,
    dailyData: map<int, Bucket>,      // keyed by local hour
    weeklyData: map<string, Bucket>,  // keyed by UTC date "YYYY-MM-DD"
    monthlyData: map<string, Bucket>, // keyed by "week1" .. "week6"
    yearlyData: map<int, Bucket>,     // keyed by local month, 0 = January
    realPlayTime: RealPlayTime)

  /** The whole module state; `lastUpdate` is kept as epoch milliseconds. */
  datatype TrackerState = TrackerState(
    statsData: StatsData,
    lastUpdate: Option<int>,
    lastPayload: Option<Payload>,
    seriesVisibility: map<string, bool>)

  /** Smallest accepted play-time delta, in seconds. */
  const MinTimeDiff: int := 5
  /** Capacity of the `timeDiffs` history. */
  const MaxHistory: int := 1000
  /** Play time frozen this long (20 minutes) means the game is closed. */
  const InGameWindowMs: int := 20 * 60 * 1000

  /** JavaScript truthiness of an optional string and of an optional number. */
  predicate TruthyString(v: Option<string>) {
    v.Some? && v.value != ""
  }

  predicate TruthyNumber(v: Option<int>) {
    v.Some? && v.value != 0
  }

  // ---------------------------------------------------------------------------------------
  // Defaults

  /** `getDefaultRealPlayTime`. */
  const DefaultRealPlayTime := RealPlayTime(0, 0, 0, [], 0, ResetMarkers(None, None, None), None, false)

  /** `getDefaultSeriesVisibility`: the four chart series, all shown. */
  const DefaultSeriesVisibility: map<string, bool> :=
    map["dracs" := true, "kills" := true, "subBossKills" := true, "items" := true]

  // ---------------------------------------------------------------------------------------
  // initializePeriodData and the first initialisation

  /** The integers 0 .. n - 1. */
  function IntRange(n: nat): (r: set<int>)
    ensures forall i :: i in r <==> 0 <= i < n
  {
    if n == 0 then {} else IntRange(n - 1) + {n - 1}
  }

  /** A table of all-zero buckets under the given keys. */
  function ZeroTable<K>(keys: set<K>): (m: map<K, Bucket>)
    ensures m.Keys == keys
    ensures forall k :: k in m ==> m[k] == ZeroBucket
  {
    map k | k in keys :: ZeroBucket
  }

  /** The month's weeks, counted in 7-day blocks from its first day (`setDate(+7)` while
      the month is unchanged): week1 .. week(ceil(days / 7)). */
  function MonthWeekKeys(daysInMonth: int): set<string> {
    set k | 1 <= k <= (daysInMonth + 6) / 7 :: WeekName(k)
  }

  /** The tables `initializePeriodData` builds: the 24 hours, the seven UTC dates of the
      current Sunday-started week (computed by the caller from the clock), the month's
      weeks and the 12 months, every bucket zero. */
  datatype PeriodTables = PeriodTables(
    daily: map<int, Bucket>,
    weekly: map<string, Bucket>,
    monthly: map<string, Bucket>,
    yearly: map<int, Bucket>)

  function InitialTables(weekDates: seq<string>, daysInMonth: int): PeriodTables {
    PeriodTables(
      ZeroTable(IntRange(24)),
      ZeroTable(set i | 0 <= i < |weekDates| :: weekDates[i]),
      ZeroTable(MonthWeekKeys(daysInMonth)),
      ZeroTable(IntRange(12)))
  }

  /** The first-initialisation branch of `loadFromStorage`: default statistics, fresh
      period tables, default series visibility, no last update, then the period check. */
  function InitialState(c: Clock, weekDates: seq<string>, daysInMonth: int): TrackerState
    requires ValidClock(c)
  {
    WithRealPlayTime(DefaultState(weekDates, daysInMonth), ResetPeriods(DefaultRealPlayTime, c))
  }

  /** The state of the first initialisation before its period check. */
  function DefaultState(weekDates: seq<string>, daysInMonth: int): TrackerState {
    var t := InitialTables(weekDates, daysInMonth);
    TrackerState(
      StatsData(0, 0, 0.0, seq(24, _ => 0), t.daily, t.weekly, t.monthly, t.yearly, DefaultRealPlayTime),
      None, None, DefaultSeriesVisibility)
  }

  /** The week-of-month number can reach 6 (a 31-day month starting on a Saturday), but
      the 7-day blocks of a 31-day month stop at week5: the first activity in week 6
      creates its bucket on demand. */
  lemma MonthTableMissesWeekSix()
    ensures WeekOfMonthOf(31, 1) == 6
    ensures WeekName(6) !in MonthWeekKeys(31)
  {
    forall k | 1 <= k <= 5 ensures WeekName(k) != WeekName(6) {
      NatToStringInjective(k, 6);
      assert WeekName(k)[4..] == IntToString(k) && WeekName(6)[4..] == IntToString(6);
    }
  }

  // ---------------------------------------------------------------------------------------
  // calculateAndRecordTimeDifference

  /** `timeDiffs.slice(-1000)` once the history holds more than 1000 entries. */
  function KeepRecent(h: seq<TimeDiffEntry>): (r: seq<TimeDiffEntry>)
    ensures |r| == if |h| > MaxHistory then MaxHistory else |h|
    ensures r == h[|h| - |r|..]
  {
    if |h| > MaxHistory then h[|h| - MaxHistory..] else h
  }

  /** The new play-time record and the accepted delta (0 when rejected). */
  datatype TimeStep = TimeStep(rt: RealPlayTime, diff: int)

  /** `calculateAndRecordTimeDifference` for a reading of `current` seconds at `now`.
      A first positive reading (last = 0) is stored and gives 0; a delta that is not
      positive, or is under 5 seconds, gives 0 and changes nothing; any other delta,
      however large, is accepted, logged and returned. */
  function RecordTime(rt: RealPlayTime, current: int, now: int): (s: TimeStep)
    ensures s.diff > 0 <==> rt.lastTimePlayed != 0 && current - rt.lastTimePlayed >= MinTimeDiff
    ensures s.diff >= 0 && (s.diff > 0 ==> s.diff == current - rt.lastTimePlayed)
    ensures s.rt.lastTimePlayed >= rt.lastTimePlayed
    ensures s.diff > 0 ==> s.rt.lastTimePlayed == current
    ensures s.diff > 0 ==> s.rt.timeDiffs == KeepRecent(rt.timeDiffs + [TimeDiffEntry(now, s.diff, current)])
    ensures s.diff == 0 ==> s.rt.timeDiffs == rt.timeDiffs
    ensures s.diff == 0 && s.rt.lastTimePlayed != rt.lastTimePlayed ==> rt.lastTimePlayed == 0 && s.rt.lastTimePlayed == current
    ensures s.rt == rt.(lastTimePlayed := s.rt.lastTimePlayed, timeDiffs := s.rt.timeDiffs)
    ensures rt.lastTimePlayed == 0 && current > 0 ==> s == TimeStep(rt.(lastTimePlayed := current), 0)
    ensures !(rt.lastTimePlayed == 0 && current > 0) && s.diff == 0 ==> s.rt == rt
  {
    var last := rt.lastTimePlayed;
    if last == 0 && current > 0 then
      TimeStep(rt.(lastTimePlayed := current), 0)
    else
      var diff := current - last;
      if diff <= 0 then TimeStep(rt, 0)
      else if diff < MinTimeDiff then TimeStep(rt, 0)
      else
        var entry := TimeDiffEntry(now, diff, current);
        TimeStep(rt.(timeDiffs := KeepRecent(rt.timeDiffs + [entry]), lastTimePlayed := current), diff)
  }

  // ---------------------------------------------------------------------------------------
  // updateInGameStatus

  /** The last play-time change is readable and less than 20 minutes before `now`. */
  predicate RecentChange(changedAt: Option<Stamp>, now: int) {
    changedAt.Some? && changedAt.value.At? && now - changedAt.value.ms < InGameWindowMs
  }

  /** `updateInGameStatus(timeDiff)` at `now`. */
  function Presence(rt: RealPlayTime, diff: int, now: int): (r: RealPlayTime)
    ensures diff > 0 ==> r.isInGame && r.lastPlaytimeChangeAt == Some(At(now))
    ensures diff <= 0 ==> r.lastPlaytimeChangeAt == rt.lastPlaytimeChangeAt
    ensures diff <= 0 ==> (r.isInGame <==> RecentChange(rt.lastPlaytimeChangeAt, now))
    ensures r == rt.(isInGame := r.isInGame, lastPlaytimeChangeAt := r.lastPlaytimeChangeAt)
  {
    if diff > 0 then rt.(lastPlaytimeChangeAt := Some(At(now)), isInGame := true)
    else match rt.lastPlaytimeChangeAt
      case None => rt.(isInGame := false)
      case Some(Unreadable) => rt.(isInGame := false)
      case Some(At(last)) => rt.(isInGame := now - last < InGameWindowMs)
  }

  /** After a tick that moved play time, the flag stays up for just under 20 minutes of
      quiet ticks and drops once 20 minutes have passed. */
  lemma PresenceDebounce(rt: RealPlayTime, diff: int, t: int, quiet: int)
    requires diff > 0 && quiet <= 0
    ensures Presence(Presence(rt, diff, t), quiet, t + InGameWindowMs - 1).isInGame
    ensures !Presence(Presence(rt, diff, t), quiet, t + InGameWindowMs).isInGame
  {
  }

  // ---------------------------------------------------------------------------------------
  // checkAndResetPeriods

  /** The three "initialise if missing" steps: a falsy marker takes the current value. */
  function FillMissingMarkers(m: ResetMarkers, today: string, week: int, month: int): (r: ResetMarkers)
    ensures TruthyString(m.day) ==> r.day == m.day
    ensures !TruthyString(m.day) ==> r.day == Some(today)
    ensures TruthyNumber(m.week) ==> r.week == m.week
    ensures !TruthyNumber(m.week) ==> r.week == Some(week)
    ensures TruthyNumber(m.month) ==> r.month == m.month
    ensures !TruthyNumber(m.month) ==> r.month == Some(month)
  {
    var day := if !TruthyString(m.day) then Some(today) else m.day;
    var wk := if !TruthyNumber(m.week) then Some(week) else m.week;
    var mo := if !TruthyNumber(m.month) then Some(month) else m.month;
    ResetMarkers(day, wk, mo)
  }

  /** The steps of `checkAndResetPeriods` for the current local date key `today`, week
      number `week` and month `month`: fill the falsy markers, then zero each total whose
      marker differs and move the marker. */
  function ResetPeriodsTo(rt: RealPlayTime, today: string, week: int, month: int): RealPlayTime {
    var r0 := rt.(lastReset := FillMissingMarkers(rt.lastReset, today, week, month));
    ResetMonth(ResetWeek(ResetDay(r0, today), week), month)
  }

  /** Zero the day total and move the marker when the day marker is not `today`. */
  function ResetDay(rt: RealPlayTime, today: string): RealPlayTime {
    if rt.lastReset.day != Some(today) then rt.(today := 0, lastReset := rt.lastReset.(day := Some(today))) else rt
  }

  function ResetWeek(rt: RealPlayTime, week: int): RealPlayTime {
    if rt.lastReset.week != Some(week) then rt.(week := 0, lastReset := rt.lastReset.(week := Some(week))) else rt
  }

  function ResetMonth(rt: RealPlayTime, month: int): RealPlayTime {
    if rt.lastReset.month != Some(month) then rt.(month := 0, lastReset := rt.lastReset.(month := Some(month))) else rt
  }

  /** `checkAndResetPeriods` with the clock reading `c`: each period total is zeroed when
      its marker was set (truthy) and differs from the current day, week or month, and
      every marker ends up equal to the current value. A January marker (0) is falsy, so
      it is overwritten before the comparison and never causes a month reset. */
  function ResetPeriods(rt: RealPlayTime, c: Clock): (r: RealPlayTime)
    requires ValidClock(c)
    ensures r.lastReset == ResetMarkers(Some(LocalDateKey(c)), Some(WeekNumber(c)), Some(c.month))
    ensures r.today == if TruthyString(rt.lastReset.day) && rt.lastReset.day.value != LocalDateKey(c) then 0 else rt.today
    ensures r.week == if TruthyNumber(rt.lastReset.week) && rt.lastReset.week.value != WeekNumber(c) then 0 else rt.week
    ensures r.month == if TruthyNumber(rt.lastReset.month) && rt.lastReset.month.value != c.month then 0 else rt.month
    ensures r == rt.(today := r.today, week := r.week, month := r.month, lastReset := r.lastReset)
  {
    ResetPeriodsTo(rt, LocalDateKey(c), WeekNumber(c), c.month)
  }

  /** The check looks only at the three totals and the markers. */
  lemma ResetPeriodsReadsTotals(rt: RealPlayTime, rt': RealPlayTime, c: Clock)
    requires ValidClock(c)
    requires rt.today == rt'.today && rt.week == rt'.week && rt.month == rt'.month
    requires rt.lastReset == rt'.lastReset
    ensures var r, r' := ResetPeriods(rt, c), ResetPeriods(rt', c);
            r.today == r'.today && r.week == r'.week && r.month == r'.month && r.lastReset == r'.lastReset
  {
  }

  /** A second check with the same clock changes nothing. */
  lemma ResetPeriodsIdempotent(rt: RealPlayTime, c: Clock)
    requires ValidClock(c)
    ensures ResetPeriods(ResetPeriods(rt, c), c) == ResetPeriods(rt, c)
  {
    var r := ResetPeriods(rt, c);
    WeekNumberRange(c);
    assert LocalDateKey(c) != "";
    assert ResetPeriods(r, c).lastReset == r.lastReset;
  }

  /** The day total is zeroed exactly when the marked date and the clock's local date
      differ, as calendar dates. */
  lemma DayResetOnNewDate(rt: RealPlayTime, marked: Clock, c: Clock)
    requires ValidClock(marked) && ValidClock(c)
    requires rt.lastReset.day == Some(LocalDateKey(marked))
    requires rt.today != 0
    ensures ResetPeriods(rt, c).today == 0
            <==> !(marked.year == c.year && marked.month == c.month && marked.day == c.day)
  {
    LocalDateKeyInjective(marked, c);
  }

  /** The January quirk: a month marker of 0 never triggers the month reset, so the
      January total carries over into February. */
  lemma JanuaryNeverResetsMonth(rt: RealPlayTime, c: Clock)
    requires ValidClock(c)
    requires rt.lastReset.month == Some(0)
    ensures ResetPeriods(rt, c).month == rt.month
  {
  }

  /** In any other month, a marker of another month does reset the month total. */
  lemma OtherMonthResetsMonth(rt: RealPlayTime, c: Clock)
    requires ValidClock(c)
    requires rt.lastReset.month.Some? && rt.lastReset.month.value != 0
    requires rt.lastReset.month.value != c.month
    ensures ResetPeriods(rt, c).month == 0
  {
  }

  // ---------------------------------------------------------------------------------------
  // updatePeriodTimes

  /** `updatePeriodTimes(timeDiff)`: nothing for a delta that is not positive; otherwise
      the period check, then the delta added to the day, week and month totals. */
  function AddPlayTime(rt: RealPlayTime, diff: int, c: Clock): (r: RealPlayTime)
    requires ValidClock(c)
    ensures diff <= 0 ==> r == rt
    ensures diff > 0 ==> var z := ResetPeriods(rt, c);
              r == z.(today := z.today + diff, week := z.week + diff, month := z.month + diff)
  {
    if diff <= 0 then rt
    else
      var z := ResetPeriods(rt, c);
      z.(today := z.today + diff, week := z.week + diff, month := z.month + diff)
  }

  // ---------------------------------------------------------------------------------------
  // updatePeriodData

  function AddDiffs(b: Bucket, d: ActivityDiffs): Bucket {
    Bucket(b.dracs + d.dracs, b.kills + d.kills, b.subBossKills + d.subBossKills, b.items + d.items)
  }

  /** One `if (!table[key]) table[key] = zeros; table[key].x += x` block: the bucket at
      `key` grows by the deltas (a missing one starts at zero) and no other bucket changes. */
  function Bump<K>(m: map<K, Bucket>, key: K, d: ActivityDiffs): map<K, Bucket> {
    m[key := AddDiffs(if key in m then m[key] else ZeroBucket, d)]
  }

  /** A `monthlyData` key: "week" followed by a week number. */
  function WeekName(k: int): string {
    "week" + IntToString(k)
  }

  /** The `monthlyData` key `updatePeriodData` uses: the week-of-month number. */
  function WeekKey(c: Clock): string {
    WeekName(WeekOfMonth(c))
  }

  /** The four bucket updates of `updatePeriodData` for the hour, UTC date key,
      week-of-month key and month of the current instant. */
  function AddToBuckets(sd: StatsData, d: ActivityDiffs, hour: int, dateKey: string, weekKey: string, month: int): StatsData {
    sd.(dailyData := Bump(sd.dailyData, hour, d),
        weeklyData := Bump(sd.weeklyData, dateKey, d),
        monthlyData := Bump(sd.monthlyData, weekKey, d),
        yearlyData := Bump(sd.yearlyData, month, d))
  }

  /** `updatePeriodData(newData, oldData)` at clock reading `c`. */
  function RecordActivity(sd: StatsData, newData: Payload, oldData: Payload, c: Clock): (r: StatsData)
    requires ValidClock(c)
    ensures r.totalSessions == sd.totalSessions && r.totalPlayTime == sd.totalPlayTime
    ensures r.averageSession == sd.averageSession && r.hourly == sd.hourly
    ensures r.realPlayTime == sd.realPlayTime
  {
    ApplyDiffs(sd, Diffs(Sanitize(newData), Sanitize(oldData)), c.hour, UtcDateKey(c), WeekKey(c), c.month)
  }

  /** The body of `updatePeriodData` once the deltas are known: nothing unless one is positive. */
  function ApplyDiffs(sd: StatsData, d: ActivityDiffs, hour: int, dateKey: string, weekKey: string, month: int): StatsData {
    if !HasActivity(d) then sd else AddToBuckets(sd, d, hour, dateKey, weekKey, month)
  }

  /** When some delta is positive, exactly four buckets grow, by the same deltas: the
      hour's, the UTC date's, the week-of-month's (week 1 to 6) and the month's. With no
      positive delta nothing changes, and nothing but the four tables ever does. */
  lemma RecordActivityBuckets(sd: StatsData, newData: Payload, oldData: Payload, c: Clock)
    requires ValidClock(c)
    ensures var d, r := Diffs(newData, oldData), RecordActivity(sd, newData, oldData, c);
            && (!HasActivity(d) ==> r == sd)
            && (HasActivity(d) ==>
                && r == sd.(dailyData := r.dailyData, weeklyData := r.weeklyData,
                            monthlyData := r.monthlyData, yearlyData := r.yearlyData)
                && r.dailyData == Bump(sd.dailyData, c.hour, d)
                && r.weeklyData == Bump(sd.weeklyData, UtcDateKey(c), d)
                && r.monthlyData == Bump(sd.monthlyData, WeekKey(c), d)
                && r.yearlyData == Bump(sd.yearlyData, c.month, d))
    ensures exists k :: 1 <= k <= 6 && WeekKey(c) == WeekName(k)
  {
    DiffsIgnoreSanitize(newData, oldData);
    WeekOfMonthRange(c);
    assert WeekKey(c) == WeekName(WeekOfMonth(c));
  }

  // ---------------------------------------------------------------------------------------
  // trackActivity

  /** `hourly[hour] = (hourly[hour] || 0) + 1`: one more session started in that hour. */
  function Incremented(h: seq<int>, hour: int): (r: seq<int>)
    requires 0 <= hour < |h|
    ensures |r| == |h| && r[hour] == h[hour] + 1
    ensures forall i :: 0 <= i < |h| && i != hour ==> r[i] == h[i]
  {
    h[hour := h[hour] + 1]
  }

  /** The `timeDiff > 0` block of `trackActivity`: play time, session and hour counters. */
  function CountSession(sd: StatsData, diff: int, c: Clock): (r: StatsData)
    requires |sd.hourly| == 24 && ValidClock(c)
    ensures |r.hourly| == 24
    ensures r.totalSessions == sd.totalSessions + 1 && r.totalPlayTime == sd.totalPlayTime + diff
    ensures r.hourly == Incremented(sd.hourly, c.hour)
    ensures r.realPlayTime == AddPlayTime(sd.realPlayTime, diff, c)
    ensures r.dailyData == sd.dailyData && r.weeklyData == sd.weeklyData
    ensures r.monthlyData == sd.monthlyData && r.yearlyData == sd.yearlyData
    ensures r.totalSessions > 0 ==> r.averageSession == r.totalPlayTime as real / r.totalSessions as real
    ensures r.totalSessions <= 0 ==> r.averageSession == sd.averageSession
  {
    var sessions := sd.totalSessions + 1;
    var total := sd.totalPlayTime + diff;
    sd.(realPlayTime := AddPlayTime(sd.realPlayTime, diff, c),
        totalSessions := sessions,
        totalPlayTime := total,
        averageSession := Average(total, sessions, sd.averageSession),
        hourly := Incremented(sd.hourly, c.hour))
  }

  /** `totalPlayTime / totalSessions` when there is a session, else the previous average. */
  function Average(total: int, sessions: int, previous: real): real {
    if sessions > 0 then total as real / sessions as real else previous
  }

  function WithRealPlayTime(s: TrackerState, rt: RealPlayTime): TrackerState {
    s.(statsData := s.statsData.(realPlayTime := rt))
  }

  /** `trackActivity(newData)` with the clock reading `c`. */
  function Track(s: TrackerState, p: Payload, c: Clock): (r: TrackerState)
    requires |s.statsData.hourly| == 24 && ValidClock(c)
    ensures |r.statsData.hourly| == 24
  {
    if p.stats.None? then s
    else if p.stats.value.timePlayedSec.None? then s.(lastPayload := Some(p))
    else
      var step := RecordTime(s.statsData.realPlayTime, p.stats.value.timePlayedSec.value, c.epochMs);
      var s1 := WithRealPlayTime(s, Presence(step.rt, step.diff, c.epochMs));
      match s.lastPayload
      case None =>
        s1.(lastPayload := Some(p), lastUpdate := if s.lastUpdate.Some? then s.lastUpdate else Some(c.epochMs))
      case Some(oldData) =>
        if HasActivity(Diffs(p, oldData)) || step.diff > 0 then Advance(s1, p, oldData, step.diff, c)
        else s1.(lastPayload := Some(p))
  }

  /** The branch of `trackActivity` taken when some counter or the play time advanced:
      the buckets, then the session totals when play time advanced, then `lastUpdate`. */
  function Advance(s1: TrackerState, p: Payload, oldData: Payload, diff: int, c: Clock): (r: TrackerState)
    requires |s1.statsData.hourly| == 24 && ValidClock(c)
    ensures |r.statsData.hourly| == 24
  {
    var sd := RecordActivity(s1.statsData, p, oldData, c);
    var sd' := if diff > 0 then CountSession(sd, diff, c) else sd;
    s1.(statsData := sd', lastUpdate := Some(c.epochMs), lastPayload := Some(p))
  }

  /** Everything except the play-time record and the last payload. */
  predicate SameCounters(a: StatsData, b: StatsData) {
    && a.totalSessions == b.totalSessions && a.totalPlayTime == b.totalPlayTime
    && a.averageSession == b.averageSession && a.hourly == b.hourly
    && a.dailyData == b.dailyData && a.weeklyData == b.weeklyData
    && a.monthlyData == b.monthlyData && a.yearlyData == b.yearlyData
  }

  /** The guards: a payload without Stats changes nothing; one without TimePlayedSec only
      replaces the last payload; every other payload becomes the last payload. */
  lemma TrackGuards(s: TrackerState, p: Payload, c: Clock)
    requires |s.statsData.hourly| == 24 && ValidClock(c)
    ensures p.stats.None? ==> Track(s, p, c) == s
    ensures p.stats.Some? && p.stats.value.timePlayedSec.None? ==> Track(s, p, c) == s.(lastPayload := Some(p))
    ensures p.stats.Some? ==> Track(s, p, c).lastPayload == Some(p)
  {
  }

  /** The first payload is only a baseline: counters, buckets and period totals stay as
      they were, `lastUpdate` is set only if unset. Its time delta is still logged in
      `timeDiffs` and advances `lastTimePlayed`, but is not added to any total. */
  lemma FirstPayloadIsBaseline(s: TrackerState, p: Payload, c: Clock)
    requires |s.statsData.hourly| == 24 && ValidClock(c)
    requires s.lastPayload.None? && p.stats.Some? && p.stats.value.timePlayedSec.Some?
    ensures var r, step := Track(s, p, c),
                           RecordTime(s.statsData.realPlayTime, p.stats.value.timePlayedSec.value, c.epochMs);
            && SameCounters(r.statsData, s.statsData)
            && r.statsData.realPlayTime.today == s.statsData.realPlayTime.today
            && r.statsData.realPlayTime.week == s.statsData.realPlayTime.week
            && r.statsData.realPlayTime.month == s.statsData.realPlayTime.month
            && r.statsData.realPlayTime.lastReset == s.statsData.realPlayTime.lastReset
            && r.statsData.realPlayTime.timeDiffs == step.rt.timeDiffs
            && r.statsData.realPlayTime.lastTimePlayed == step.rt.lastTimePlayed
            && r.lastUpdate == (if s.lastUpdate.Some? then s.lastUpdate else Some(c.epochMs))
            && r.lastPayload == Some(p)
  {
  }

  /** With a previous payload and an accepted delta: one more session, the delta added to
      the play time, one more session started in the current hour, and `lastUpdate` now. */
  lemma TrackCountsSession(s: TrackerState, p: Payload, c: Clock)
    requires |s.statsData.hourly| == 24 && ValidClock(c)
    requires s.lastPayload.Some? && p.stats.Some? && p.stats.value.timePlayedSec.Some?
    requires RecordTime(s.statsData.realPlayTime, p.stats.value.timePlayedSec.value, c.epochMs).diff > 0
    ensures var r, diff := Track(s, p, c), p.stats.value.timePlayedSec.value - s.statsData.realPlayTime.lastTimePlayed;
            && r.statsData.totalSessions == s.statsData.totalSessions + 1
            && r.statsData.totalPlayTime == s.statsData.totalPlayTime + diff
            && r.statsData.hourly == Incremented(s.statsData.hourly, c.hour)
            && r.lastUpdate == Some(c.epochMs)
  {
    var step := RecordTime(s.statsData.realPlayTime, p.stats.value.timePlayedSec.value, c.epochMs);
    var s1 := WithRealPlayTime(s, Presence(step.rt, step.diff, c.epochMs));
    TrackCountsShape(s, p, c);
    AdvanceCounts(s1, p, s.lastPayload.value, step.diff, c);
  }

  /** With a previous payload and an accepted delta, the four bucket tables are updated
      from the activity deltas as well: the hour's, date's, week's and month's buckets
      grow when some delta is positive, and no table changes otherwise. */
  lemma TrackCountsBuckets(s: TrackerState, p: Payload, c: Clock)
    requires |s.statsData.hourly| == 24 && ValidClock(c)
    requires s.lastPayload.Some? && p.stats.Some? && p.stats.value.timePlayedSec.Some?
    requires RecordTime(s.statsData.realPlayTime, p.stats.value.timePlayedSec.value, c.epochMs).diff > 0
    ensures var r, sd, d := Track(s, p, c).statsData, s.statsData, Diffs(p, s.lastPayload.value);
            && (HasActivity(d) ==>
                && r.dailyData == Bump(sd.dailyData, c.hour, d)
                && r.weeklyData == Bump(sd.weeklyData, UtcDateKey(c), d)
                && r.monthlyData == Bump(sd.monthlyData, WeekKey(c), d)
                && r.yearlyData == Bump(sd.yearlyData, c.month, d))
            && (!HasActivity(d) ==>
                && r.dailyData == sd.dailyData && r.weeklyData == sd.weeklyData
                && r.monthlyData == sd.monthlyData && r.yearlyData == sd.yearlyData)
  {
    var step := RecordTime(s.statsData.realPlayTime, p.stats.value.timePlayedSec.value, c.epochMs);
    var s1 := WithRealPlayTime(s, Presence(step.rt, step.diff, c.epochMs));
    TrackCountsShape(s, p, c);
    AdvanceCounts(s1, p, s.lastPayload.value, step.diff, c);
    RecordActivityBuckets(s1.statsData, p, s.lastPayload.value, c);
  }

  /** With a previous payload and an accepted delta, the delta is added to the day, week
      and month totals, after the period check has zeroed any total whose period ended. */
  lemma TrackAddsPlayTime(s: TrackerState, p: Payload, c: Clock)
    requires |s.statsData.hourly| == 24 && ValidClock(c)
    requires s.lastPayload.Some? && p.stats.Some? && p.stats.value.timePlayedSec.Some?
    requires RecordTime(s.statsData.realPlayTime, p.stats.value.timePlayedSec.value, c.epochMs).diff > 0
    ensures var r, diff := Track(s, p, c), p.stats.value.timePlayedSec.value - s.statsData.realPlayTime.lastTimePlayed;
            var z := ResetPeriods(s.statsData.realPlayTime, c);
            && r.statsData.realPlayTime.today == z.today + diff
            && r.statsData.realPlayTime.week == z.week + diff
            && r.statsData.realPlayTime.month == z.month + diff
  {
    var rt := s.statsData.realPlayTime;
    var step := RecordTime(rt, p.stats.value.timePlayedSec.value, c.epochMs);
    var rt1 := Presence(step.rt, step.diff, c.epochMs);
    var s1 := WithRealPlayTime(s, rt1);
    TrackCountsShape(s, p, c);
    AdvanceCounts(s1, p, s.lastPayload.value, step.diff, c);
    ResetPeriodsReadsTotals(rt, rt1, c);
  }

  /** The activity branch with play time advanced by `diff`: one more session, `diff` more
      play time, one more session in the current hour, `diff` added to the period totals
      after the period check, and `lastUpdate` now. */
  lemma AdvanceCounts(s1: TrackerState, p: Payload, oldData: Payload, diff: int, c: Clock)
    requires |s1.statsData.hourly| == 24 && ValidClock(c) && diff > 0
    ensures var r, sd0 := Advance(s1, p, oldData, diff, c), s1.statsData;
            && r.statsData.totalSessions == sd0.totalSessions + 1
            && r.statsData.totalPlayTime == sd0.totalPlayTime + diff
            && r.statsData.hourly == Incremented(sd0.hourly, c.hour)
            && r.statsData.realPlayTime == AddPlayTime(sd0.realPlayTime, diff, c)
            && r.lastUpdate == Some(c.epochMs)
            && var b := RecordActivity(sd0, p, oldData, c);
               && r.statsData.dailyData == b.dailyData && r.statsData.weeklyData == b.weeklyData
               && r.statsData.monthlyData == b.monthlyData && r.statsData.yearlyData == b.yearlyData
  {
  }

  /** The branch of `trackActivity` that counts a session. */
  lemma TrackCountsShape(s: TrackerState, p: Payload, c: Clock)
    requires |s.statsData.hourly| == 24 && ValidClock(c)
    requires s.lastPayload.Some? && p.stats.Some? && p.stats.value.timePlayedSec.Some?
    requires RecordTime(s.statsData.realPlayTime, p.stats.value.timePlayedSec.value, c.epochMs).diff > 0
    ensures var step := RecordTime(s.statsData.realPlayTime, p.stats.value.timePlayedSec.value, c.epochMs);
            var s1 := WithRealPlayTime(s, Presence(step.rt, step.diff, c.epochMs));
            var r := Track(s, p, c);
            r == Advance(s1, p, s.lastPayload.value, step.diff, c) && r.lastUpdate == Some(c.epochMs)
  {
  }

  /** The branch of `trackActivity` where a counter grew but no play time was accepted:
      the four buckets grow by the deltas and `lastUpdate` is now, while the session
      count, total play time, average and hourly table stay as they were. */
  lemma TrackActivityOnly(s: TrackerState, p: Payload, c: Clock)
    requires |s.statsData.hourly| == 24 && ValidClock(c)
    requires s.lastPayload.Some? && p.stats.Some? && p.stats.value.timePlayedSec.Some?
    requires HasActivity(Diffs(p, s.lastPayload.value))
    requires RecordTime(s.statsData.realPlayTime, p.stats.value.timePlayedSec.value, c.epochMs).diff == 0
    ensures var step := RecordTime(s.statsData.realPlayTime, p.stats.value.timePlayedSec.value, c.epochMs);
            var rt1 := Presence(step.rt, 0, c.epochMs);
            var r, sd, d := Track(s, p, c), s.statsData, Diffs(p, s.lastPayload.value);
            && r.lastUpdate == Some(c.epochMs) && r.lastPayload == Some(p)
            && r.statsData == RecordActivity(sd.(realPlayTime := rt1), p, s.lastPayload.value, c)
            && r.statsData.realPlayTime == rt1
            && r.statsData.totalSessions == sd.totalSessions
            && r.statsData.totalPlayTime == sd.totalPlayTime
            && r.statsData.averageSession == sd.averageSession
            && r.statsData.hourly == sd.hourly
            && r.statsData.dailyData == Bump(sd.dailyData, c.hour, d)
            && r.statsData.weeklyData == Bump(sd.weeklyData, UtcDateKey(c), d)
            && r.statsData.monthlyData == Bump(sd.monthlyData, WeekKey(c), d)
            && r.statsData.yearlyData == Bump(sd.yearlyData, c.month, d)
  {
    var step := RecordTime(s.statsData.realPlayTime, p.stats.value.timePlayedSec.value, c.epochMs);
    var s1 := WithRealPlayTime(s, Presence(step.rt, 0, c.epochMs));
    RecordActivityBuckets(s1.statsData, p, s.lastPayload.value, c);
  }

  /** Two successive activity ticks that fall in the same hour, UTC date, week of the month
      and month leave the buckets as one tick from the first payload to the last would:
      the deltas add up when the counters only grow. */
  lemma RecordActivityAccumulates(sd: StatsData, p0: Payload, p1: Payload, p2: Payload, c: Clock, c': Clock)
    requires ValidClock(c) && ValidClock(c')
    requires c'.hour == c.hour && UtcDateKey(c') == UtcDateKey(c)
    requires WeekKey(c') == WeekKey(c) && c'.month == c.month
    requires CountersGrew(p0, p1) && CountersGrew(p1, p2)
    ensures RecordActivity(RecordActivity(sd, p1, p0, c), p2, p1, c') == RecordActivity(sd, p2, p0, c)
  {
    DiffsIgnoreSanitize(p1, p0);
    DiffsIgnoreSanitize(p2, p1);
    DiffsIgnoreSanitize(p2, p0);
    DiffsTelescope(p0, p1, p2);
    ApplyDiffsTwice(sd, Diffs(p1, p0), Diffs(p2, p1), Diffs(p2, p0), c.hour, UtcDateKey(c), WeekKey(c), c.month);
  }

  /** Applying non-negative deltas `d1` then `d2` on the same keys applies their sum. */
  lemma ApplyDiffsTwice(sd: StatsData, d1: ActivityDiffs, d2: ActivityDiffs, d: ActivityDiffs,
                        hour: int, dateKey: string, weekKey: string, month: int)
    requires NonNegativeDiffs(d1) && NonNegativeDiffs(d2)
    requires d.kills == d1.kills + d2.kills && d.subBossKills == d1.subBossKills + d2.subBossKills
    requires d.items == d1.items + d2.items && d.dracs == d1.dracs + d2.dracs && d.xp == d1.xp + d2.xp
    ensures ApplyDiffs(ApplyDiffs(sd, d1, hour, dateKey, weekKey, month), d2, hour, dateKey, weekKey, month)
            == ApplyDiffs(sd, d, hour, dateKey, weekKey, month)
  {
    if !HasActivity(d1) {
      assert d == d2;
    } else if !HasActivity(d2) {
      assert d == d1;
    } else {
      AddToBucketsTwice(sd, d1, d2, d, hour, dateKey, weekKey, month);
    }
  }

  /** Two rounds of the four bucket updates on the same keys are one round by the summed deltas. */
  lemma AddToBucketsTwice(sd: StatsData, d1: ActivityDiffs, d2: ActivityDiffs, d: ActivityDiffs,
                          hour: int, dateKey: string, weekKey: string, month: int)
    requires d.dracs == d1.dracs + d2.dracs && d.kills == d1.kills + d2.kills
    requires d.subBossKills == d1.subBossKills + d2.subBossKills && d.items == d1.items + d2.items
    ensures AddToBuckets(AddToBuckets(sd, d1, hour, dateKey, weekKey, month), d2, hour, dateKey, weekKey, month)
            == AddToBuckets(sd, d, hour, dateKey, weekKey, month)
  {
    BumpTwice(sd.dailyData, hour, d1, d2, d);
    BumpTwice(sd.weeklyData, dateKey, d1, d2, d);
    BumpTwice(sd.monthlyData, weekKey, d1, d2, d);
    BumpTwice(sd.yearlyData, month, d1, d2, d);
  }

  /** Bumping a key twice is bumping it once by the summed deltas. */
  lemma BumpTwice<K>(m: map<K, Bucket>, key: K, d1: ActivityDiffs, d2: ActivityDiffs, d: ActivityDiffs)
    requires d.dracs == d1.dracs + d2.dracs && d.kills == d1.kills + d2.kills
    requires d.subBossKills == d1.subBossKills + d2.subBossKills && d.items == d1.items + d2.items
    ensures Bump(Bump(m, key, d1), key, d2) == Bump(m, key, d)
  {
  }

  /** Without a positive activity delta and without accepted play time, `lastUpdate`,
      the counters and the buckets are left alone. */
  lemma TrackQuiet(s: TrackerState, p: Payload, c: Clock)
    requires |s.statsData.hourly| == 24 && ValidClock(c)
    requires s.lastPayload.Some? && p.stats.Some? && p.stats.value.timePlayedSec.Some?
    requires !HasActivity(Diffs(p, s.lastPayload.value))
    requires RecordTime(s.statsData.realPlayTime, p.stats.value.timePlayedSec.value, c.epochMs).diff == 0
    ensures var r := Track(s, p, c);
            var step := RecordTime(s.statsData.realPlayTime, p.stats.value.timePlayedSec.value, c.epochMs);
            && r.lastUpdate == s.lastUpdate
            && r.lastPayload == Some(p)
            && r.statsData.realPlayTime == Presence(step.rt, 0, c.epochMs)
            && r.statsData.realPlayTime.lastReset == s.statsData.realPlayTime.lastReset
            && r.statsData.realPlayTime.timeDiffs == s.statsData.realPlayTime.timeDiffs
            && SameCounters(r.statsData, s.statsData)
            && r.statsData.realPlayTime.today == s.statsData.realPlayTime.today
            && r.statsData.realPlayTime.week == s.statsData.realPlayTime.week
            && r.statsData.realPlayTime.month == s.statsData.realPlayTime.month
  {
  }

  /** `trackActivity` never touches the chart's series visibility: only the statistics,
      the last update and the last payload can change. */
  lemma TrackKeepsVisibility(s: TrackerState, p: Payload, c: Clock)
    requires |s.statsData.hourly| == 24 && ValidClock(c)
    ensures var r := Track(s, p, c);
            r == s.(statsData := r.statsData, lastUpdate := r.lastUpdate, lastPayload := r.lastPayload)
  {
  }

  /** Once a reading has been taken, the same reading again is not accepted and leaves
      any record with the same last reading as it is. */
  lemma RecordTimeSettled(rt: RealPlayTime, rt': RealPlayTime, current: int, now: int)
    requires rt'.lastTimePlayed == RecordTime(rt, current, now).rt.lastTimePlayed
    ensures RecordTime(rt', current, now) == TimeStep(rt', 0)
  {
  }

  /** A second in-game check at the same instant without new play time changes nothing. */
  lemma PresenceSettled(rt: RealPlayTime, rt': RealPlayTime, diff: int, now: int)
    requires rt'.lastPlaytimeChangeAt == Presence(rt, diff, now).lastPlaytimeChangeAt
    requires rt'.isInGame == Presence(rt, diff, now).isInGame
    ensures Presence(rt', 0, now) == rt'
  {
  }

  /** What a timed payload leaves behind: it is the last payload, and the play-time record
      carries the reading and the in-game status of this tick. */
  lemma TrackTimedFields(s: TrackerState, p: Payload, c: Clock)
    requires |s.statsData.hourly| == 24 && ValidClock(c)
    requires p.stats.Some? && p.stats.value.timePlayedSec.Some?
    ensures var t := Track(s, p, c);
            var step := RecordTime(s.statsData.realPlayTime, p.stats.value.timePlayedSec.value, c.epochMs);
            var rt1 := Presence(step.rt, step.diff, c.epochMs);
            && t.lastPayload == Some(p)
            && t.statsData.realPlayTime.lastTimePlayed == step.rt.lastTimePlayed
            && t.statsData.realPlayTime.lastPlaytimeChangeAt == rt1.lastPlaytimeChangeAt
            && t.statsData.realPlayTime.isInGame == rt1.isInGame
  {
    var step := RecordTime(s.statsData.realPlayTime, p.stats.value.timePlayedSec.value, c.epochMs);
    var rt1 := Presence(step.rt, step.diff, c.epochMs);
    var s1 := WithRealPlayTime(s, rt1);
    if s.lastPayload.Some? {
      var oldData := s.lastPayload.value;
      if HasActivity(Diffs(p, oldData)) || step.diff > 0 {
        var sd := RecordActivity(s1.statsData, p, oldData, c);
        assert sd.realPlayTime == rt1;
        if step.diff > 0 {
          assert CountSession(sd, step.diff, c).realPlayTime == AddPlayTime(rt1, step.diff, c);
        }
      }
    }
  }

  /** Delivering the same payload twice at the same instant has the effect of delivering
      it once. */
  lemma TrackIdempotent(s: TrackerState, p: Payload, c: Clock)
    requires |s.statsData.hourly| == 24 && ValidClock(c)
    ensures Track(Track(s, p, c), p, c) == Track(s, p, c)
  {
    if p.stats.Some? && p.stats.value.timePlayedSec.Some? {
      var t := Track(s, p, c);
      var cur := p.stats.value.timePlayedSec.value;
      var step := RecordTime(s.statsData.realPlayTime, cur, c.epochMs);
      var rt2 := t.statsData.realPlayTime;
      TrackTimedFields(s, p, c);
      RecordTimeSettled(s.statsData.realPlayTime, rt2, cur, c.epochMs);
      PresenceSettled(step.rt, rt2, step.diff, c.epochMs);
      NoActivityAgainstItself(p);
      assert WithRealPlayTime(t, rt2) == t;
      assert Track(t, p, c) == t.(lastPayload := Some(p));
    }
  }

  // ---------------------------------------------------------------------------------------
  // The invariant every operation keeps

  predicate NonNegativeBucket(b: Bucket) {
    b.dracs >= 0 && b.kills >= 0 && b.subBossKills >= 0 && b.items >= 0
  }

  predicate NonNegativeTable<K>(m: map<K, Bucket>) {
    forall k :: k in m ==> NonNegativeBucket(m[k])
  }

  /** What the module's own operations keep true: 24 hourly counters, no negative counter
      or bucket, no negative period total, and a history of at most 1000 accepted deltas,
      each of at least 5 seconds. */
  predicate Consistent(s: TrackerState) {
    var sd, rt := s.statsData, s.statsData.realPlayTime;
    && |sd.hourly| == 24
    && (forall h :: 0 <= h < 24 ==> sd.hourly[h] >= 0)
    && sd.totalSessions >= 0 && sd.totalPlayTime >= 0
    && NonNegativeTable(sd.dailyData) && NonNegativeTable(sd.weeklyData)
    && NonNegativeTable(sd.monthlyData) && NonNegativeTable(sd.yearlyData)
    && rt.today >= 0 && rt.week >= 0 && rt.month >= 0 && rt.lastTimePlayed >= 0
    && |rt.timeDiffs| <= MaxHistory
    && (forall i :: 0 <= i < |rt.timeDiffs| ==> rt.timeDiffs[i].timeDiff >= MinTimeDiff)
  }

  lemma BumpKeepsNonNegative<K>(m: map<K, Bucket>, key: K, d: ActivityDiffs)
    requires NonNegativeTable(m) && NonNegativeDiffs(d)
    ensures NonNegativeTable(Bump(m, key, d))
  {
    var r := Bump(m, key, d);
    forall k | k in r ensures NonNegativeBucket(r[k]) {
      if k != key {
        assert k in m;
      }
    }
  }

  /** The history keeps at most 1000 entries, the newest last, each at least 5 seconds. */
  lemma RecordTimeKeepsHistory(rt: RealPlayTime, current: int, now: int)
    requires |rt.timeDiffs| <= MaxHistory
    requires forall i :: 0 <= i < |rt.timeDiffs| ==> rt.timeDiffs[i].timeDiff >= MinTimeDiff
    ensures var s := RecordTime(rt, current, now);
            && |s.rt.timeDiffs| <= MaxHistory
            && (forall i :: 0 <= i < |s.rt.timeDiffs| ==> s.rt.timeDiffs[i].timeDiff >= MinTimeDiff)
            && (s.diff > 0 ==> s.rt.timeDiffs[|s.rt.timeDiffs| - 1] == TimeDiffEntry(now, s.diff, current))
  {
    var s := RecordTime(rt, current, now);
    if s.diff > 0 {
      var h := rt.timeDiffs + [TimeDiffEntry(now, s.diff, current)];
      var r := s.rt.timeDiffs;
      assert r == h[|h| - |r|..];
      forall i | 0 <= i < |r| ensures r[i].timeDiff >= MinTimeDiff {
        assert r[i] == h[|h| - |r| + i];
      }
    }
  }

  lemma RecordActivityKeepsConsistent(s: TrackerState, newData: Payload, oldData: Payload, c: Clock)
    requires Consistent(s) && ValidClock(c)
    ensures Consistent(s.(statsData := RecordActivity(s.statsData, newData, oldData, c)))
  {
    var d := Diffs(Sanitize(newData), Sanitize(oldData));
    if HasActivity(d) {
      BumpKeepsNonNegative(s.statsData.dailyData, c.hour, d);
      BumpKeepsNonNegative(s.statsData.weeklyData, UtcDateKey(c), d);
      BumpKeepsNonNegative(s.statsData.monthlyData, WeekKey(c), d);
      BumpKeepsNonNegative(s.statsData.yearlyData, c.month, d);
    }
  }

  lemma CountSessionKeepsConsistent(s: TrackerState, diff: int, c: Clock)
    requires Consistent(s) && ValidClock(c) && diff > 0
    ensures Consistent(s.(statsData := CountSession(s.statsData, diff, c)))
  {
    var r := s.(statsData := CountSession(s.statsData, diff, c));
    forall h | 0 <= h < 24 ensures r.statsData.hourly[h] >= 0 {
    }
  }

  lemma RecordTimeKeepsConsistent(s: TrackerState, current: int, now: int)
    requires Consistent(s)
    ensures var step := RecordTime(s.statsData.realPlayTime, current, now);
            Consistent(WithRealPlayTime(s, Presence(step.rt, step.diff, now)))
  {
    RecordTimeKeepsHistory(s.statsData.realPlayTime, current, now);
  }

  /** The activity branch keeps the invariant. */
  lemma AdvanceKeepsConsistent(s1: TrackerState, p: Payload, oldData: Payload, diff: int, c: Clock)
    requires Consistent(s1) && ValidClock(c)
    ensures Consistent(Advance(s1, p, oldData, diff, c))
  {
    RecordActivityKeepsConsistent(s1, p, oldData, c);
    var s2 := s1.(statsData := RecordActivity(s1.statsData, p, oldData, c));
    if diff > 0 {
      CountSessionKeepsConsistent(s2, diff, c);
    }
  }

  /** `trackActivity` keeps the invariant. */
  lemma TrackKeepsConsistent(s: TrackerState, p: Payload, c: Clock)
    requires Consistent(s) && ValidClock(c)
    ensures Consistent(Track(s, p, c))
  {
    if p.stats.Some? && p.stats.value.timePlayedSec.Some? {
      var cur := p.stats.value.timePlayedSec.value;
      var step := RecordTime(s.statsData.realPlayTime, cur, c.epochMs);
      RecordTimeKeepsConsistent(s, cur, c.epochMs);
      var s1 := WithRealPlayTime(s, Presence(step.rt, step.diff, c.epochMs));
      if s.lastPayload.Some? && (HasActivity(Diffs(p, s.lastPayload.value)) || step.diff > 0) {
        AdvanceKeepsConsistent(s1, p, s.lastPayload.value, step.diff, c);
      }
    }
  }

  // ---------------------------------------------------------------------------------------
  // Manual operations

  /** `handleManualRefresh(newData)`: only `lastUpdate` and `lastPayload` change. */
  function ManualRefresh(s: TrackerState, newData: Option<Payload>, c: Clock): (r: TrackerState)
    ensures r.statsData == s.statsData && r.seriesVisibility == s.seriesVisibility
    ensures r.lastUpdate == Some(c.epochMs) && r.lastPayload == newData
  {
    s.(lastUpdate := Some(c.epochMs), lastPayload := newData)
  }

  /** A manual refresh makes the refreshed payload the baseline, so tracking that payload
      afterwards adds nothing to the buckets, whatever its counters. */
  lemma RefreshAbsorbsActivity(s: TrackerState, p: Payload, c: Clock, c': Clock)
    requires |s.statsData.hourly| == 24 && ValidClock(c) && ValidClock(c')
    ensures var r := Track(ManualRefresh(s, Some(p), c), p, c').statsData;
            && r.dailyData == s.statsData.dailyData && r.weeklyData == s.statsData.weeklyData
            && r.monthlyData == s.statsData.monthlyData && r.yearlyData == s.statsData.yearlyData
  {
    if p.stats.Some? && p.stats.value.timePlayedSec.Some? {
      var t := ManualRefresh(s, Some(p), c);
      var step := RecordTime(t.statsData.realPlayTime, p.stats.value.timePlayedSec.value, c'.epochMs);
      var rt1 := Presence(step.rt, step.diff, c'.epochMs);
      RecordActivityAgainstItself(t.statsData.(realPlayTime := rt1), p, c');
    }
  }

  /** A payload compared with itself adds nothing to the buckets. */
  lemma RecordActivityAgainstItself(sd: StatsData, p: Payload, c: Clock)
    requires ValidClock(c)
    ensures RecordActivity(sd, p, p, c) == sd
  {
    NoActivityAgainstItself(Sanitize(p));
  }

  /** `resetPeriodTimes` once the user has confirmed: totals zeroed, markers set to the
      current day, week and month. Without confirmation nothing changes. */
  function ManualReset(rt: RealPlayTime, confirmed: bool, c: Clock): (r: RealPlayTime)
    requires ValidClock(c)
    ensures !confirmed ==> r == rt
    ensures confirmed ==> r.today == 0 && r.week == 0 && r.month == 0
    ensures confirmed ==> r.lastReset == ResetMarkers(Some(LocalDateKey(c)), Some(WeekNumber(c)), Some(c.month))
    ensures r == rt.(today := r.today, week := r.week, month := r.month, lastReset := r.lastReset)
  {
    if !confirmed then rt
    else rt.(today := 0, week := 0, month := 0,
             lastReset := ResetMarkers(Some(LocalDateKey(c)), Some(WeekNumber(c)), Some(c.month)))
  }

  /** A manual reset leaves the markers in the state the periodic check produces, so a
      check at the same instant does nothing more. */
  lemma CheckAfterManualReset(rt: RealPlayTime, c: Clock)
    requires ValidClock(c)
    ensures ResetPeriods(ManualReset(rt, true, c), c) == ManualReset(rt, true, c)
  {
    WeekNumberRange(c);
    assert LocalDateKey(c) != "";
  }

  /** `toggleSeriesVisibility(key)`. */
  function ToggleSeries(v: map<string, bool>, key: string): (r: map<string, bool>)
    ensures key !in v ==> r == v
    ensures r.Keys == v.Keys
    ensures key in v ==> r[key] == !v[key]
    ensures forall k :: k in v && k != key ==> r[k] == v[k]
  {
    if key !in v then v else v[key := !v[key]]
  }

  /** The first initialisation satisfies the invariant. */
  lemma InitialStateConsistent(c: Clock, weekDates: seq<string>, daysInMonth: int)
    requires ValidClock(c)
    ensures Consistent(InitialState(c, weekDates, daysInMonth))
  {
  }

  /** Toggling the same series twice restores the visibility map. */
  lemma ToggleTwice(v: map<string, bool>, key: string)
    ensures ToggleSeries(ToggleSeries(v, key), key) == v
  {
  }
}
