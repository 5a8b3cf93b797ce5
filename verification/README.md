# Soulframe stats: a Dafny model

This project models three parts of the Soulframe companion site.

- **The activity and play-time tracker** of `public/soulframe-stats-module.js`. Each game
  snapshot passed to `trackActivity` is compared with the previous one:
  - the growth of the cumulative play time is accepted when it is at least 5 seconds, and
    appended to a history of at most 1000 entries;
  - an "in game" flag is kept with a 20-minute debounce;
  - the today/week/month play-time totals are zeroed when their day, week or month marker
    changes;
  - the clamped growth of the kill, sub-boss, pickup and income counters is added to four
    bucket tables (by local hour, UTC date, week of month and month);
  - the session counters grow.

  The manual refresh, the manual period reset, the series-visibility toggle, the period
  table initialisation, `formatTime` and the load-time merge of a saved play-time record
  with its defaults are modelled too.
- **The account listing** of `api/accounts.js`: the record defaults and the choice of JSON or
  CSV. The CSV quotes each field the RFC 4180 way (section 2, rules 5 to 7), but line breaks
  inside a field become one space and rows are separated by a bare line feed.
- **The account registration** of `api/register-account.js`: validation, the store key, the
  merge of the stored record with the request, and the `stored` flag of the answer.

Modules, one per file:

- `Wrappers` (Option), `Text` (decimal strings, `padStart`, ASCII lower-casing),
  `Calendar` (the injected clock and the date and week keys) and `TimeFormat`
  (`formatTime`).
- `Snapshot`: game payloads, `sanitizeStats` and the activity deltas.
- `TrackerSpec`: the module state as a value, each operation as a function from the old
  state to the new one, and the lemmas about them.
- `Tracker`: the class `StatsTracker`, whose fields are the module's state and whose methods
  change them in place. Each method is proved to leave `State()` equal to the matching
  `TrackerSpec` function of the old state. `initializePeriodData` is a method with its
  loops.
- `Persistence`: the load-time spread merge, on JSON values.
- `Accounts` and `Register`: the two HTTP handlers as functions from the request and what
  the store returns to the response and the writes.

The clock is an input, a `Clock` record holding the values the JavaScript `Date` accessors
return. Time stamps are kept as epoch milliseconds instead of ISO strings. The store is an
input too: the index read, the records that could be read and parsed, and which writes
succeed.

## Model

| member | source | states |
|---|---|---|
| Tracker.StatsTracker.constructor | public/soulframe-stats-module.js:427-440 | The new tracker holds the first-load state: zero counters, 24 zero hourly counts, the fresh period tables, the default play-time record with its markers set by the period check, no last update or payload, all four series visible |
| TrackerSpec.InitialStateConsistent | public/soulframe-stats-module.js:36-97 | The first-load state satisfies the invariant `Consistent`: 24 hourly counts, no negative counter, bucket or period total, a history of at most 1000 entries of at least 5 s each |
| Tracker.InitializePeriodData | public/soulframe-stats-module.js:348-387 | Returns the four tables of `InitialTables`: hours 0-23, the week's seven dates, week1..week(ceil(days/7)) and months 0-11, every bucket zero |
| Tracker.ZeroCounts | public/soulframe-stats-module.js:352-355 | The loop builds a table whose keys are exactly 0..n-1, every bucket zero |
| Tracker.ZeroDates | public/soulframe-stats-module.js:358-366 | The loop builds a table whose keys are exactly the given dates, every bucket zero |
| Tracker.ZeroWeeks | public/soulframe-stats-module.js:369-378 | The 7-day stepping loop builds exactly the keys week1..week(ceil(days/7)), every bucket zero |
| TrackerSpec.MonthTableMissesWeekSix | public/soulframe-stats-module.js:369-378 | A 31-day month whose 31st is a Monday has week-of-month 6, but the initial month table has no "week6" bucket |
| Calendar.LocalDateKeyInjective | public/soulframe-stats-module.js:102-107 | Two local date keys are equal exactly when the year, month and day are |
| Calendar.LocalDateKey | public/soulframe-stats-module.js:102-107 | The local "Y-MM-DD" key; `LocalDateKeyInjective` states it names exactly one local date |
| Calendar.UtcDateKey | public/soulframe-stats-module.js:726 | The date part of the ISO time stamp; `UtcDateKeyInjective` states it names exactly one UTC date |
| Calendar.UtcDateKeyInjective | public/soulframe-stats-module.js:726 | Two UTC date keys are equal exactly when the UTC year, month and day are |
| Text.PadZerosInjective | public/soulframe-stats-module.js:726 | Zero-padding decimal text to any width keeps distinct numbers distinct |
| Text.NatToStringRoundTrip | public/soulframe-stats-module.js:102-107 | The decimal text of a number reads back as that number |
| Text.NatToStringInjective | public/soulframe-stats-module.js:102-107 | Two numbers have the same decimal text exactly when they are equal |
| Text.PadStart | public/soulframe-stats-module.js:104-105 | `padStart`: a string at least as long as the width is unchanged; otherwise the result has the width, ends with the string and is filled on the left |
| Text.Pad2Digits | public/soulframe-stats-module.js:104-105 | `padStart(2, '0')` of a number below 100 is its tens digit then its units digit |
| Text.Pad2Injective | public/soulframe-stats-module.js:104-105 | Two numbers below 100 pad to the same two characters exactly when they are equal |
| Calendar.CeilDiv | public/soulframe-stats-module.js:115 | `Math.ceil(a / b)` for a positive divisor: the least q with a <= b*q |
| Calendar.WeekNumberRange | public/soulframe-stats-module.js:112-116 | `getWeekNumber` lies in 1..54 |
| Calendar.WeekNumber | public/soulframe-stats-module.js:112-116 | `getWeekNumber` from the days since 1 January and its weekday; `WeekNumberRange` bounds it |
| Calendar.WeekOfMonthRange | public/soulframe-stats-module.js:727 | The week-of-month number lies in 1..6 |
| Calendar.WeekOfMonth | public/soulframe-stats-module.js:727 | ceil((date + 6 - weekday) / 7); `WeekOfMonthRange`, `WeekOfMonthNextDay` and `WeekOfMonthSix` state its range and steps |
| Calendar.WeekOfMonthNextDay | public/soulframe-stats-module.js:727 | The week-of-month number of the next day is one more after a Saturday and the same otherwise |
| Calendar.WeekOfMonthSix | public/soulframe-stats-module.js:727 | A 31st that falls on a Monday is in week 6 |
| TimeFormat.JsRem | public/soulframe-stats-module.js:124 | JavaScript `%`: the Euclidean remainder for a non-negative dividend, a value in (-b, 0] for a negative one, and in every case the remainder of division rounded toward zero (a = b * trunc(a / b) + r) |
| TimeFormat.FormatTimeShows | public/soulframe-stats-module.js:121-128 | For s >= 0, `formatTime(s)` shows the whole hours and the minutes left over |
| TimeFormat.FormatTime | public/soulframe-stats-module.js:121-128 | `formatTime`; `FormatTimeShows`, `ShownHasHours`, `FormatTimeMinutePrecision` and `FormatTimeNegative` state its output |
| TimeFormat.ShownHasHours | public/soulframe-stats-module.js:125-127 | The text has an hours part exactly when the hours are positive |
| TimeFormat.ShownInjective | public/soulframe-stats-module.js:121-128 | Different hour and minute pairs are shown differently |
| TimeFormat.FormatTimeMinutePrecision | public/soulframe-stats-module.js:121-128 | For non-negative inputs, two durations format alike exactly when they have the same whole minutes |
| TimeFormat.FormatTimeNegative | public/soulframe-stats-module.js:121-128 | A negative duration shows only minutes, computed with the truncating remainder, between -60 and 0 |
| TrackerSpec.FillMissingMarkers | public/soulframe-stats-module.js:157-166 | Each falsy marker (null, "" or 0) is set to the current day, week or month; each truthy one is kept |
| TrackerSpec.ResetPeriods | public/soulframe-stats-module.js:151-188 | The markers become the current day, week and month. A total is zeroed exactly when its marker was truthy and different; nothing else changes |
| TrackerSpec.ResetPeriodsIdempotent | public/soulframe-stats-module.js:151-188 | A second check with the same clock changes nothing |
| TrackerSpec.ResetPeriodsReadsTotals | public/soulframe-stats-module.js:151-188 | The check reads only the three totals and the markers |
| TrackerSpec.DayResetOnNewDate | public/soulframe-stats-module.js:168-173 | A non-zero today total, marked with some date, is zeroed exactly when the clock's local date is a different day |
| TrackerSpec.JanuaryNeverResetsMonth | public/soulframe-stats-module.js:164-186 | A month marker of 0 (January) counts as missing: it is overwritten first, so the month total is never zeroed |
| TrackerSpec.OtherMonthResetsMonth | public/soulframe-stats-module.js:182-186 | A marker of any other month that differs from the current month zeroes the month total |
| Tracker.StatsTracker.CheckAndResetPeriods | public/soulframe-stats-module.js:151-188 | The tracker's new state is the old one with the play-time record passed through `ResetPeriods` |
| Tracker.StatsTracker.ResetPeriodsFrom | public/soulframe-stats-module.js:157-187 | The marker fills and the three resets, in place, give the record `ResetPeriodsTo` computes |
| TrackerSpec.KeepRecent | public/soulframe-stats-module.js:242-245 | `slice(-1000)` above 1000 entries: the most recent min(n, 1000) entries, in order |
| TrackerSpec.RecordTime | public/soulframe-stats-module.js:194-251 | The delta is positive exactly when a previous sample exists and the growth is >= 5 s, and then it is that growth, with no upper cap. The last sample never decreases. An accepted delta appends one entry and sets the last sample. A first positive sample is stored as the last sample, with delta 0 and nothing else changed. Any other rejected sample leaves the record exactly as it was |
| TrackerSpec.RecordTimeKeepsHistory | public/soulframe-stats-module.js:234-245 | The history keeps at most 1000 entries, each of at least 5 s, and an accepted delta is the newest |
| TrackerSpec.RecordTimeSettled | public/soulframe-stats-module.js:214-220 | The same sample seen again yields no delta and changes nothing |
| Tracker.StatsTracker.RecordTimeDifference | public/soulframe-stats-module.js:194-251 | Returns the delta of `RecordTime` and leaves the record it computes |
| TrackerSpec.Presence | public/soulframe-stats-module.js:256-286 | A positive delta sets "in game" and stamps now. Otherwise the stamp is kept, and "in game" holds exactly when a readable stamp is less than 20 minutes old |
| TrackerSpec.PresenceDebounce | public/soulframe-stats-module.js:278-285 | After play time grows at t, the flag stays on at t + 20 min - 1 ms and is off at t + 20 min |
| TrackerSpec.PresenceSettled | public/soulframe-stats-module.js:256-286 | Re-evaluating presence at the same instant with no delta changes nothing |
| Tracker.StatsTracker.UpdateInGameStatus | public/soulframe-stats-module.js:256-286 | The new state is the old one with the record given by `Presence` |
| TrackerSpec.AddPlayTime | public/soulframe-stats-module.js:291-308 | A non-positive delta changes nothing. Otherwise the periods are checked, then the delta is added to today, week and month |
| Tracker.StatsTracker.UpdatePeriodTimes | public/soulframe-stats-module.js:291-308 | The new state is the old one with the record given by `AddPlayTime` |
| Snapshot.Sanitize | public/soulframe-stats-module.js:486-501 | Always yields a Stats record, with the same counters and play time defaulted to 0 |
| Snapshot.DiffsIgnoreSanitize | public/soulframe-stats-module.js:714-716 | Sanitising both payloads first leaves every delta unchanged |
| Snapshot.LastSegment | public/soulframe-stats-module.js:530 | `split('/').pop()`: the longest slash-free suffix |
| Snapshot.LastSegmentAfterSlash | public/soulframe-stats-module.js:530 | Whatever follows the last '/' is the segment |
| Snapshot.SubBosses | public/soulframe-stats-module.js:529-531 | Keeps exactly the enemies whose last type segment is one of the ten sub-boss names, each as many times as it occurs in the input, and drops every other one |
| Snapshot.TotalKillsAppend | public/soulframe-stats-module.js:510-511 | The kill sum over two lists is the sum of their sums |
| Snapshot.KillsSplit | public/soulframe-stats-module.js:506-540 | All kills are the sub-boss kills plus the other kills |
| Snapshot.TotalKillsNonNegative | public/soulframe-stats-module.js:510-511 | With no negative kill count, the sum is non-negative |
| Snapshot.SubBossKillsAtMostKills | public/soulframe-stats-module.js:506-540 | With no negative kill count, sub-boss kills never exceed all kills |
| Snapshot.Growth | public/soulframe-stats-module.js:515 | `Math.max(0, new - old)`: non-negative, at least the difference, and either 0 or the difference |
| Snapshot.Diffs | public/soulframe-stats-module.js:546-557 | Each delta is the growth, floored at 0, of its own counter: all kills, sub-boss kills, pickups (items), income (dracs) and XP; none is ever negative |
| Snapshot.KillsDifference | public/soulframe-stats-module.js:506-515 | `calculateKillsDifference`; `Diffs` states it as the floored growth of all kills |
| Snapshot.SubBossKillsDifference | public/soulframe-stats-module.js:520-541 | `calculateSubBossKillsDifference`; `Diffs` states it as the floored growth of sub-boss kills |
| Snapshot.HasActivity | public/soulframe-stats-module.js:656 | Some delta is positive; `NoActivityAgainstItself` and `RecordActivityBuckets` state its use |
| Snapshot.NoActivityAgainstItself | public/soulframe-stats-module.js:546-557 | A payload compared with itself yields all-zero deltas and no activity |
| Snapshot.DiffsTelescope | public/soulframe-stats-module.js:546-557 | While every counter only grows, the deltas over two steps add up to the delta over both |
| Snapshot.NimrodSegment | public/soulframe-stats-module.js:530 | The last segment of "Foo/NimrodSubBossAvatar" is the bare type name |
| Snapshot.NimrodIsSubBoss | public/soulframe-stats-module.js:522-531 | An enemy whose type path ends in a listed name is a sub-boss |
| Snapshot.IsSubBoss | public/soulframe-stats-module.js:521-531 | The sub-boss test on the last type segment; `SubBosses`, `NimrodIsSubBoss` and `GoonIsRegular` state it |
| Snapshot.GoonSegment | public/soulframe-stats-module.js:530 | The last segment of "Foo/RegularGoon" is "RegularGoon" |
| Snapshot.GoonIsRegular | public/soulframe-stats-module.js:522-531 | An enemy whose type path ends in an unlisted name is not a sub-boss |
| Snapshot.ExampleSubBosses | public/soulframe-stats-module.js:529-531 | The filter keeps the sub-boss of a mixed list and drops the other enemy |
| Snapshot.SubBossExample | public/soulframe-stats-module.js:546-557 | Against an empty snapshot, 3 sub-boss kills and 10 other kills give deltas of 3 and 13 |
| TrackerSpec.RecordActivity | public/soulframe-stats-module.js:709-770 | The bucket update leaves the counters, hourly counts and play-time record untouched |
| TrackerSpec.RecordActivityBuckets | public/soulframe-stats-module.js:709-770 | Without a positive delta nothing changes. Otherwise exactly the hour, UTC date, "week"+k and month buckets grow by the four deltas, and k is in 1..6 |
| TrackerSpec.RecordActivityAgainstItself | public/soulframe-stats-module.js:714-723 | Comparing a payload with itself leaves the statistics unchanged |
| TrackerSpec.BumpKeepsNonNegative | public/soulframe-stats-module.js:729-768 | Adding non-negative deltas keeps every bucket of a table non-negative |
| Tracker.AddToBucket | public/soulframe-stats-module.js:729-735 | A missing bucket starts at zero; the four deltas are added to it |
| Tracker.StatsTracker.AddToPeriodBuckets | public/soulframe-stats-module.js:729-768 | The four tables, updated in place, are those of `AddToBuckets`; nothing else changes |
| Tracker.StatsTracker.UpdatePeriodData | public/soulframe-stats-module.js:709-770 | The new state is the old one with the statistics given by `RecordActivity` |
| TrackerSpec.Incremented | public/soulframe-stats-module.js:689-690 | One more session in that hour; every other hour is unchanged |
| TrackerSpec.CountSession | public/soulframe-stats-module.js:676-691 | One more session, the play time grown by the delta, one more count in the clock's hour, the delta added to the period totals after the check, the average recomputed as total play time over sessions; buckets untouched |
| Tracker.StatsTracker.CountPlaySession | public/soulframe-stats-module.js:676-691 | The statistics become `CountSession` of the old ones; last update, payload and visibility are kept |
| Tracker.StatsTracker.CountHour | public/soulframe-stats-module.js:689-690 | The array holds `Incremented` of its old contents |
| TrackerSpec.Track | public/soulframe-stats-module.js:604-703 | The hourly table keeps its 24 entries; each branch of the step is stated by one of the lemmas below (guards, first payload, session counted, its buckets, play time added, activity only, quiet, the frame) |
| TrackerSpec.TrackGuards | public/soulframe-stats-module.js:604-633 | A payload without Stats changes nothing. One without TimePlayedSec sets only the last payload. Every payload with Stats becomes the last payload |
| TrackerSpec.FirstPayloadIsBaseline | public/soulframe-stats-module.js:636-652 | With no previous payload, counters, buckets, period totals and markers are untouched. The time sample is still recorded; the last update is set only when unset |
| TrackerSpec.TrackCountsSession | public/soulframe-stats-module.js:667-691 | An accepted delta adds one session, adds the delta to the total play time, adds one to the clock's hour, and sets the last update |
| TrackerSpec.TrackCountsBuckets | public/soulframe-stats-module.js:667-673 | When play time advanced, the four bucket tables are still updated from the activity deltas: the hour's, date's, week's and month's buckets grow when a delta is positive, and no table changes otherwise |
| TrackerSpec.TrackAddsPlayTime | public/soulframe-stats-module.js:676-678 | An accepted delta is added to today, week and month after the period check |
| TrackerSpec.AdvanceCounts | public/soulframe-stats-module.js:667-691 | The activity branch with a positive delta counts the session, the hour and the period totals, and its bucket tables are those of the activity update |
| TrackerSpec.TrackActivityOnly | public/soulframe-stats-module.js:655-699 | A counter grew but no play time was accepted: the hour, date, week-of-month and month buckets grow by the deltas and the last update is now. The session count, total play time, average, hourly table and play-time totals stay as the time check left them |
| TrackerSpec.RecordActivityAccumulates | public/soulframe-stats-module.js:709-770 | Two activity ticks in the same hour, date, week and month leave the buckets as a single tick across both would, when the counters only grow |
| TrackerSpec.ApplyDiffsTwice | public/soulframe-stats-module.js:715-767 | Applying two non-negative deltas in turn to the same buckets applies their sum |
| TrackerSpec.AddToBucketsTwice | public/soulframe-stats-module.js:733-767 | Two rounds of the four bucket updates on the same keys are one round by the summed deltas |
| TrackerSpec.BumpTwice | public/soulframe-stats-module.js:733-739 | Growing a bucket twice is growing it once by the summed deltas; other buckets are untouched |
| TrackerSpec.Bump | public/soulframe-stats-module.js:733-739 | One bucket grows by the deltas, a missing one from zero; `BumpTwice` and `BumpKeepsNonNegative` state it |
| TrackerSpec.AddToBuckets | public/soulframe-stats-module.js:733-767 | The four bucket updates; `AddToBucketsTwice` and `RecordActivityBuckets` state them |
| TrackerSpec.ApplyDiffs | public/soulframe-stats-module.js:715-767 | The bucket update once the deltas are known; `ApplyDiffsTwice` states it |
| TrackerSpec.Advance | public/soulframe-stats-module.js:667-693 | The activity branch; `AdvanceCounts`, `TrackActivityOnly` and `AdvanceKeepsConsistent` state it |
| TrackerSpec.Average | public/soulframe-stats-module.js:683-686 | The average session; `CountSession` states it as total over sessions |
| TrackerSpec.TrackQuiet | public/soulframe-stats-module.js:667-699 | No positive activity delta and no accepted time: last update, counters, buckets and period totals unchanged; the play-time record is the time check's with the presence rule applied, so its reset markers and time-difference history are kept, and the payload becomes the last one |
| TrackerSpec.TrackKeepsVisibility | public/soulframe-stats-module.js:604-703 | A tracking step changes only the statistics, the last update and the last payload; the series visibility is kept |
| TrackerSpec.TrackTimedFields | public/soulframe-stats-module.js:636-699 | On every in-game path the time sample and presence are updated and the payload becomes the last payload |
| TrackerSpec.TrackIdempotent | public/soulframe-stats-module.js:604-703 | Tracking the same payload again at the same instant changes nothing |
| TrackerSpec.RecordTimeKeepsConsistent | public/soulframe-stats-module.js:194-286 | The time and presence updates keep the invariant |
| TrackerSpec.RecordActivityKeepsConsistent | public/soulframe-stats-module.js:709-770 | The bucket update keeps the invariant |
| TrackerSpec.CountSessionKeepsConsistent | public/soulframe-stats-module.js:676-691 | Counting a session keeps the invariant |
| TrackerSpec.AdvanceKeepsConsistent | public/soulframe-stats-module.js:667-691 | The activity branch keeps the invariant |
| TrackerSpec.TrackKeepsConsistent | public/soulframe-stats-module.js:604-703 | `trackActivity` keeps the invariant |
| Tracker.StatsTracker.TrackActivity | public/soulframe-stats-module.js:604-703 | The tracker's new state is `Track` of the old state, payload and clock |
| Tracker.StatsTracker.HandleManualUpdate | public/soulframe-stats-module.js:799-802 | Same effect as `trackActivity` |
| TrackerSpec.ManualRefresh | public/soulframe-stats-module.js:780-793 | Only the last update (now) and the last payload change |
| TrackerSpec.RefreshAbsorbsActivity | public/soulframe-stats-module.js:780-793 | After a manual refresh with a payload, tracking that payload adds nothing to any bucket |
| Tracker.StatsTracker.HandleManualRefresh | public/soulframe-stats-module.js:780-793 | The new state is `ManualRefresh` of the old one |
| TrackerSpec.ManualReset | public/soulframe-stats-module.js:1343-1364 | Unconfirmed: nothing changes. Confirmed: the three totals are zero and the markers are the current day, week and month; nothing else changes |
| TrackerSpec.CheckAfterManualReset | public/soulframe-stats-module.js:1343-1364 | A period check right after a confirmed reset changes nothing |
| Tracker.StatsTracker.ResetPeriodTimes | public/soulframe-stats-module.js:1343-1364 | The new state is the old one with the record given by `ManualReset` |
| TrackerSpec.ToggleSeries | public/soulframe-stats-module.js:1278-1299 | An unknown key changes nothing; a known key flips only its own entry and keeps the key set |
| TrackerSpec.ToggleTwice | public/soulframe-stats-module.js:1278-1299 | Toggling the same key twice restores the visibility map |
| Tracker.StatsTracker.ToggleSeriesVisibility | public/soulframe-stats-module.js:1278-1299 | The new state is the old one with `ToggleSeries` applied to the visibility map |
| Persistence.Falsy | public/soulframe-stats-module.js:415 | JavaScript falsiness of a parsed value: null, false, 0 or "" |
| Persistence.IndexEntries | public/soulframe-stats-module.js:419-422 | Spreading an array contributes exactly the properties "0", "1", ... holding its elements |
| Persistence.Spread | public/soulframe-stats-module.js:419-422 | `{...defaults, ...saved}`: the union of keys, the saved value wins, otherwise the default |
| Persistence.DefaultsAgree | public/soulframe-stats-module.js:57-84 | The default record as saved JSON describes the default play-time record and no other |
| Persistence.LoadRealPlayTime | public/soulframe-stats-module.js:415-423 | A missing or falsy record becomes the defaults; any record ends with every default key; a saved object's own properties are kept |
| Persistence.LoadIdempotent | public/soulframe-stats-module.js:415-423 | Loading a loaded record again changes nothing |
| Persistence.LoadKeepsCompleteRecord | public/soulframe-stats-module.js:419-422 | An object that already has every default property comes back unchanged |
| Persistence.LoadFillsMissing | public/soulframe-stats-module.js:419-422 | A saved object keeps all its properties and gains exactly the default values of the missing ones |
| Persistence.LoadIsShallow | public/soulframe-stats-module.js:419-422 | The merge is shallow: a saved `lastReset` with only a day marker gains no week or month marker |
| Accounts.AccountKey | api/accounts.js:63 | The key is "account:" followed by the lower-cased name, and nothing else |
| Accounts.OrNull | api/accounts.js:72-74 | A present non-empty value is kept as it is; an absent or empty one becomes null |
| Accounts.DefaultAccount | api/accounts.js:70-76 | No record: the index name, three nulls, 0 visits. Otherwise the stored name or the index name, each date or null, and the visit count or 0 |
| Accounts.CollectAccounts | api/accounts.js:57-78 | One listed account per index name, in order, each the defaulted record read under that name's key |
| Accounts.ReadRecord | api/accounts.js:59-66 | The record under the lower-cased account key; `CollectAccounts`, `RegisterThenList` and `CaseVariantsShareRecord` state its use |
| Accounts.ListedNamesNonEmpty | api/accounts.js:71 | With non-empty index names, no listed account has an empty name |
| Accounts.FormatSelection | api/accounts.js:80-82 | The answer is CSV exactly when the query format lower-cases to "csv"; with no format or an empty one it is JSON |
| Accounts.Format | api/accounts.js:80 | The lower-cased format, "json" by default; `FormatSelection` states the choice |
| Accounts.DoubleQuotes | api/accounts.js:96 | Doubling quotes never shortens a field |
| Accounts.DoubleQuotesLength | api/accounts.js:96 | Doubling adds exactly one character per quote, and a field without quotes is unchanged |
| Accounts.ReplaceNewlines | api/accounts.js:97 | After the replacement no line feed is left |
| Accounts.ReplaceNewlinesAppend | api/accounts.js:97 | The replacement works piece by piece across a boundary that is not a carriage return |
| Accounts.ReplaceLineBreak | api/accounts.js:97 | Each line feed, and each carriage return with its line feed, becomes exactly one space, the text around it replaced on its own |
| Accounts.LoneCarriageReturnKept | api/accounts.js:97 | A carriage return not followed by a line feed is kept |
| Accounts.ReplacementsCommute | api/accounts.js:95-97 | Doubling quotes and replacing line breaks give the same result in either order |
| Accounts.ReplaceNewlinesIdentity | api/accounts.js:97 | A field with no line feed is left as it is |
| Accounts.ReadQuotedDoubled | api/accounts.js:95-96 | Reading a quoted field back, undoubling its quotes, recovers the text and the rest of the line |
| Accounts.ReadField | api/accounts.js:94-98 | An escaped field reads back as the value with its line breaks replaced |
| Accounts.Field | api/accounts.js:94-98 | One quoted CSV field; `ReadField` states that it reads back |
| Accounts.ReplaceAll | api/accounts.js:97 | The replacement applied to each value of a row |
| Accounts.ParseFieldThen | api/accounts.js:94-99 | Parsing an escaped field followed by a comma or the end of the line yields its value, then the rest |
| Accounts.ParseJoinedFields | api/accounts.js:99 | A comma-joined row of escaped fields parses back into its values, line breaks replaced |
| Accounts.RowRoundTrip | api/accounts.js:86-100 | Each row parses back into its five values, in the order name, created, first seen, last seen, visits, with line breaks replaced |
| Accounts.RowRoundTripExact | api/accounts.js:86-100 | A row whose values have no line feed parses back into exactly those values |
| Accounts.JoinFieldsNoNewline | api/accounts.js:94-99 | A row contains no line feed |
| Accounts.SplitJoinedLines | api/accounts.js:101 | Lines without line feeds, joined by "\n", split back into the same lines |
| Accounts.CsvRoundTrip | api/accounts.js:83-103 | The document splits into the header line and then one row per account, in order, with no trailing newline; each row parses back into its account's values |
| Accounts.CsvDocument | api/accounts.js:83-103 | The CSV document; `CsvRoundTrip` states its lines and rows |
| Accounts.ListAccounts | api/accounts.js:42-113 | 405 exactly for a non-GET method; 500 exactly when reading the index fails; an empty JSON list for a missing or empty index; CSV only when the format is "csv" |
| Accounts.ListingFollowsIndex | api/accounts.js:57-113 | With a non-empty index, the answer is the collected accounts, as CSV or as a JSON list according to the format |
| Accounts.EmptyIndexIgnoresFormat | api/accounts.js:49-54 | A missing or empty index gives an empty JSON list even when CSV is requested |
| Text.AsciiLower | api/register-account.js:72 | `toLowerCase` of ASCII text: same length, each character lowered |
| Text.AsciiLowerIdempotent | api/register-account.js:72 | Lower-casing twice is lower-casing once |
| Register.Merge | api/register-account.js:87-101 | The new record carries the request's name, last seen now, and one more visit than before (creation and first-seen dates: the two lemmas below) |
| Register.MergeKeepsHistory | api/register-account.js:87-101 | A stored visit count grows by one. A stored creation date is kept; a missing or empty one becomes the request's, else "". A stored first-seen date is kept; a missing or empty one becomes now |
| Register.MergeFirstVisit | api/register-account.js:87-101 | With no stored record: 1 visit, first and last seen now, the requested creation date or "" |
| Register.PreviousVisits | api/register-account.js:87-89 | A stored non-zero visit count, else 0; `MergeKeepsHistory` and `MergeFirstVisit` state it |
| Register.Handle | api/register-account.js:42-122 | 405 for a non-POST method, 400 for an unparseable body or a missing or empty name, otherwise 200. `stored` holds exactly when the store is unconfigured or both writes succeed; a write takes effect only after validation with a working SET. When SET succeeds and SADD fails, the one write is the merged record under the account key |
| Register.StoredButNotIndexed | api/register-account.js:103-112 | When SET succeeds and SADD fails, the response says not stored, the merged record is stored under "account:" and the lower-cased name, and the index is left unchanged |
| Register.RegistrationWrites | api/register-account.js:71-106 | A successful registration stores the merged record under "account:" and the lower-cased name, and adds the name as given to "accounts:index" |
| Register.RegisterThenList | api/register-account.js:87-106 | Listing after a registration shows the merged record for every index entry with that name |
| Register.CaseVariantsShareRecord | api/register-account.js:72-73 | "Foo" and "foo" share one record: both are indexed, both list the later name, and the visits grow by two |

## Left out

- Browser and host I/O is not modelled: `localStorage`, `saveToStorage`, `console`, `confirm`/`alert`, the UI callbacks (`updateStatsUI`, `notifyReactUpdate`) and the HTML/SVG rendering. The confirmation of `resetPeriodTimes` is a boolean input.
- The key-value store is not modelled beyond its results (`kvCommand`, `fetch`, `res.*`). Its results are inputs. A record read that fails or does not parse is the same as a missing record. SET and SADD succeed or fail as inputs, and the registration's unexpected-error path is a failing SET.
- The clock is an input. `new Date()`, `Date.now()`, `getHours` and the other accessors are fields of a `Clock` record. `getWeekNumber` is computed from the milliseconds since the local 1 January, with integer ceiling division. That is exact for the source's formula, but DST offsets in that subtraction are taken as given. The seven UTC dates of the current week (`initializePeriodData`) and the number of days in the month are inputs. ISO time stamps are epoch milliseconds. Years above 9999 in UTC keys are not modelled.
- One `trackActivity` call reads the clock once. The source reads `Date.now()` or `new Date()` separately in `recordTimeDifference`, `updateInGameStatus`, `updatePeriodData` and for `lastUpdate`; the model takes all of these to be the same instant. A call whose reads straddle an hour, midnight, week or month boundary is therefore not modelled.
- Floating point is not modelled. `averageSession` is a real, total / sessions (`CountSession` states it). `formatCompactNumber` and `getActivityRatio` are left out. The time deltas are whole seconds.
- `calculateTodayPlaytime`, `calculateWeekPlaytime` and `calculateMonthPlaytime` are not modelled: they are a period check (`ResetPeriods`) followed by a read.
- `loadFromStorage` is modelled only for its first-load branch (the constructor) and the merge of the saved play-time record (`Persistence`). The other saved fields, the error fallback, and the load inside `trackActivity` when `statsData` is missing are left out.
- `Persistence` works on parsed JSON values and the tracker on typed records, so the play-time defaults are written once in each form.
- Payload counters are integers, and a missing counter reads as 0. Only `TimePlayedSec` keeps its absence. A non-numeric counter, a non-array enemy list and a `kills` of another type are not modelled.
- In the account handlers, a stored field is a string or absent, and the visit count an integer or absent. `accountName` is a string. Other JSON types are not modelled.
- Lower-casing is ASCII-only; other Unicode case mappings are not modelled.
- `toggleSeriesVisibility`: a missing visibility map and keys inherited from `Object.prototype` are not modelled.
- The order of the names `smembers` returns is an input sequence.
- The root `soulframe-stats-module.js` stub and `api/soulframe-profile.js` are not part of this model.
- TrackerSpec.Track: its own contract states only that the hourly table keeps 24 entries. What a step does is stated, branch by branch, by TrackGuards, FirstPayloadIsBaseline, TrackCountsSession, TrackCountsBuckets, TrackAddsPlayTime, TrackActivityOnly, TrackQuiet, TrackKeepsVisibility, TrackTimedFields and TrackIdempotent.

## Behaviour reproduced as written

- A January month marker (0) is falsy, so it is replaced before the comparison, and the month total is not zeroed on the first February update (`JanuaryNeverResetsMonth`).
- The first snapshot is only a baseline: its time sample is recorded, but no activity or play time is counted (`FirstPayloadIsBaseline`).
- The week-of-month number can be 6, while the initial month table stops at week 5 (`MonthTableMissesWeekSix`). The bucket is created on first use.
- `getWeekNumber` is not ISO 8601 week numbering (`WeekNumberRange` allows 54).
- The registration answers `stored: true` when the store is not configured, although nothing is stored (`Register.Handle`).
- An empty index gives a JSON list even when CSV is requested (`EmptyIndexIgnoresFormat`).
- Names differing only in case share one record but are indexed separately (`CaseVariantsShareRecord`).
