# Backup statistics, migration checkpoints and the Telegram URL, in Dafny

This project models four parts of a backup manager (a web front end over
restic) as pure Dafny functions, and proves properties about them.

- **Backup statistics service.** `getBackupStatistics` fetches the backup runs
  that started in the last `days` days (30 by default), newest first. It groups
  them by schedule in a Map kept in insertion order. For each schedule it counts
  runs per status (success, error, warning), sums durations and bytes, rounds
  the averages with `Math.round`, and picks the newest run as `lastBackup`.
  `getBackupHistory` returns the newest runs first. It can be filtered to one
  schedule and is capped by a limit (50 by default).
- **Statistics page.** Four details of the React page: the
  `formatDuration` helper with its Dutch units (`u`, `m`, `s`), the Dutch
  status-badge labels, the "total backups" card (a sum over the schedules),
  and the "recent backups" list (the first ten history entries).
- **Migration checkpoints.** These are kept as rows of a key/value metadata
  table, under keys `migration:<version>`. Recording one is an upsert.
  Start-up validation does one of two things:
  - On a fresh install (no users), it bootstraps a checkpoint for every
    required version that has none; existing rows keep their times.
  - Otherwise it stops the process at the first required version that has no
    checkpoint.
- **Telegram notification URL.** It is built from the bot token and the chat
  id, in the shoutrrr format `telegram://<token>@telegram?channels=<chat>`.

Modules:

| file | module | contents |
|---|---|---|
| wrappers.dfy | `Wrappers` | `Option` |
| decimal.dfy | `Decimal` | decimal rendering of a `nat` (what a template literal prints for an integer below 10^21) and reading it back |
| history_log.dfy | `HistoryLog` | the `backup_history` row, the time window, the newest-first order |
| statistics.dfy | `Statistics` | `getBackupStatistics` and `getBackupHistory`, with reference definitions and proofs |
| statistics_page.dfy | `StatisticsPage` | `formatDuration`, the status labels, the total card and the recent list |
| checkpoint.dfy | `Checkpoint` | the metadata store and the checkpoint functions |
| telegram.dfy | `Telegram` | `buildTelegramShoutrrrUrl` and a parser for its output |

### How the model is built

- **The database.** The `backup_history` table is a sequence of rows (`log`).
  A query is the filter of its `where` clause followed by a stable sort, newest
  first. The clock reading `Date.now()` is a parameter (`now`).
- **The grouping loop.** It is written as the left fold it is (`Group`, one
  `Step` per row). The JavaScript `Map`, which keeps insertion order, is a
  sequence of accumulators.
- **Reference definition.** Each entry is also defined directly from the rows
  of its schedule (`Summarize(OfSchedule(rows, k))`). The invariant `Faithful`
  says the fold agrees with that definition after every step.
- **The metadata table** is a `map` from key to entry.
  `validateRequiredMigrations` ends in one of two ways: `Ok(store)`, or
  `Fatal(version)` for `process.exit(1)`.

Two details of the code that the model keeps:
- `getBackupHistory` tests `scheduleId` for truthiness, so a schedule id of 0
  means "all schedules", just like an absent one.
- A run whose status is outside the three known values falls through the
  `if / else if` chain: it is counted in `totalBackups`, its duration and bytes
  are summed and it is pushed into `backups`, but it is in none of the three
  status counts.

## Model

| member | source | states |
|---|---|---|
| HistoryLog.WindowStart | app/server/modules/statistics/statistics.service.ts:6 | the earliest kept `startedAt`, `now` minus `days` whole days in milliseconds; `WiderWindowStartsEarlier` proves more days never move it later |
| HistoryLog.InWindow | app/server/modules/statistics/statistics.service.ts:6-9 | the runs the window keeps are exactly the log's runs (with multiplicity) whose start is at or after `since` |
| HistoryLog.NarrowerWindowKeepsFewer | app/server/modules/statistics/statistics.service.ts:6-9 | a later cut-off keeps a sub-multiset of the runs an earlier cut-off keeps |
| HistoryLog.SortDesc | app/server/modules/statistics/statistics.service.ts:18 | `orderBy desc(startedAt)` returns the same runs, newest first |
| Statistics.RoundedMean | app/server/modules/statistics/statistics.service.ts:70-71 | `Math.round(total / count)` guarded by `totalBackups > 0`; `RoundedMeanIsRounded` proves it is the integer within half a unit of the mean, halves rounded up, and 0 with no runs |
| Statistics.RoundedMeanIsRounded | app/server/modules/statistics/statistics.service.ts:70-71 | the average is the integer within half a unit of total/count, with halves rounded up as `Math.round` does; it is 0 when there are no runs |
| Statistics.WindowRows | app/server/modules/statistics/statistics.service.ts:6-19 | the statistics query returns the in-window runs of the log, newest first |
| Statistics.GetBackupStatistics | app/server/modules/statistics/statistics.service.ts:5-76 | the query, the grouping loop and the finishing loop; `StatisticsOfLog` proves that each entry is the finished summary of its schedule's in-window runs, that every schedule with such a run has an entry and that none has two; `TotalBackupsCountsWindow` and `NarrowerWindowReportsLess` state its totals |
| Statistics.StatisticsOfLog | app/server/modules/statistics/statistics.service.ts:5-76 | each returned entry is the finished summary of its schedule's in-window runs; every schedule with a run at or after the window start has an entry; no schedule has two |
| Statistics.View | app/server/modules/statistics/statistics.service.ts:56-65 | the fields of a run pushed into `backups`; `EntryOfRows` proves an entry's `backups` is the views of its schedule's runs, newest first |
| Statistics.Fresh | app/server/modules/statistics/statistics.service.ts:26-41 | the empty accumulator for a schedule met for the first time; `SummarizeSingle` proves that counting one run into it gives the direct summary of that run |
| Statistics.Add | app/server/modules/statistics/statistics.service.ts:43-65 | one run counted into its accumulator; `SummarizeSnoc` proves that it extends the direct summary of a schedule's runs by one more run |
| Statistics.SummarizeSnoc | app/server/modules/statistics/statistics.service.ts:43-65 | counting one more run of a schedule into its summary gives the summary of the longer list of runs |
| Statistics.SummarizeSingle | app/server/modules/statistics/statistics.service.ts:26-65 | counting a first run into a new accumulator gives the summary of that single run |
| Statistics.Step | app/server/modules/statistics/statistics.service.ts:25-65 | one iteration of the loop: update the schedule's accumulator, or append a new one; `GroupFaithful` proves that it keeps the invariant `Faithful` |
| Statistics.Group | app/server/modules/statistics/statistics.service.ts:22-66 | the whole loop; `GroupFaithful` proves that its result is one direct summary per schedule, with no duplicates and in first-seen order |
| Statistics.Finalize | app/server/modules/statistics/statistics.service.ts:68-75 | averages and last run of one accumulator; `SummaryProperties` and `EntryOfRows` prove the averages are rounded means and `lastBackup` is the newest run |
| Statistics.FinalizeAll | app/server/modules/statistics/statistics.service.ts:68-75 | the second loop finishes every accumulator, in place and in order |
| Statistics.Find | app/server/modules/statistics/statistics.service.ts:26 | the lookup finds the accumulator of the schedule, or none exists |
| Statistics.GroupFaithful | app/server/modules/statistics/statistics.service.ts:22-66 | after the grouping loop, each accumulator equals the direct summary of its schedule's runs; every fetched schedule has one, no schedule has two, and they are in first-seen order |
| Statistics.BucketsPartition | app/server/modules/statistics/statistics.service.ts:48-54 | each run falls into exactly one of success, error, warning or "other" |
| Statistics.OfScheduleDescending | app/server/modules/statistics/statistics.service.ts:56-65 | a schedule's `backups` list keeps the newest-first order of the query |
| Statistics.RollupsDescribeRows | app/server/modules/statistics/statistics.service.ts:22-75 | the returned array has exactly one entry per schedule seen, in first-seen order, each entry being the finished summary of that schedule's runs |
| Statistics.EntryOfRows | app/server/modules/statistics/statistics.service.ts:24-73 | for each entry: the name is taken from the schedule's first (newest) run; the counts, sums and per-status tallies are those of the schedule's runs; the tallies add up to the total exactly when every status is known; both averages are rounded means; `backups` is newest first; `lastBackup` is its head and the newest run |
| Statistics.WindowRowsOfSchedule | app/server/modules/statistics/statistics.service.ts:8-27 | the runs an entry is built from are the log's runs of that schedule that started inside the window |
| Statistics.MoreRowsReportMore | app/server/modules/statistics/statistics.service.ts:22-66 | adding runs never drops a schedule from the result, never lowers its total and never drops a run from its `backups` |
| Statistics.MoreRowsKeepBackups | app/server/modules/statistics/statistics.service.ts:22-66 | with more runs, a schedule's entry lists every run its entry for fewer runs lists |
| Statistics.NarrowerWindowReportsLess | app/server/modules/statistics/statistics.service.ts:5-75 | with fewer days, every reported schedule is also reported with more days, with at least as many backups and every run of its `backups` list |
| Statistics.GetBackupHistory | app/server/modules/statistics/statistics.service.ts:78-117 | filter, newest first, then the limit; `HistoryIsMostRecentMatching` states what it returns |
| Statistics.FiltersBy | app/server/modules/statistics/statistics.service.ts:79 | a filter applies only for a present, non-zero id; otherwise `Matching` keeps the whole log |
| Statistics.Matching | app/server/modules/statistics/statistics.service.ts:79 | the `where` clause keeps only runs of the requested schedule; an absent or zero id keeps the whole log |
| Statistics.MatchingCounts | app/server/modules/statistics/statistics.service.ts:79-82 | the filter keeps exactly the selected runs, with multiplicity |
| Statistics.Limit | app/server/modules/statistics/statistics.service.ts:92 | `LIMIT n` keeps a prefix of length min(n, length); a negative limit keeps everything |
| Statistics.LimitKeepsMostRecent | app/server/modules/statistics/statistics.service.ts:91-92 | cutting a newest-first list drops only runs that started no later than every run it keeps |
| Statistics.HistoryIsMostRecentMatching | app/server/modules/statistics/statistics.service.ts:78-116 | the history is newest first, holds min(limit, matches) runs of the requested schedule (every match when the limit is negative) drawn from the log, and no omitted match started later than a shown one |
| StatisticsPage.FormatDuration | app/client/modules/statistics/routes/statistics.tsx:61-73 | the displayed duration; `FormatDurationReadsBack` proves it reads back as the truncated units of `ms`, and `FormatDurationCases` gives its three forms |
| StatisticsPage.Split | app/client/modules/statistics/routes/statistics.tsx:61-66 | the chosen reading (hours, minutes or seconds) is the largest non-zero unit, and its parts are the floor-divided units of `ms` |
| StatisticsPage.Render | app/client/modules/statistics/routes/statistics.tsx:67-72 | the three Dutch formats `<h>u <m>m`, `<m>m <s>s` and `<s>s`; `ReadRender` proves each reads back into the reading it was built from |
| StatisticsPage.ReadRender | app/client/modules/statistics/routes/statistics.tsx:66-72 | each of the three Dutch formats can be parsed back into the numbers it was built from |
| StatisticsPage.FormatDurationReadsBack | app/client/modules/statistics/routes/statistics.tsx:61-73 | the text `formatDuration` produces reads back as whole hours and remaining minutes, whole minutes and remaining seconds, or whole seconds, each taken from `ms` |
| StatisticsPage.FormatDurationCases | app/client/modules/statistics/routes/statistics.tsx:61-73 | below a minute the text is the seconds alone; below an hour it is minutes and seconds; otherwise it is hours and minutes |
| StatisticsPage.StatusLabel | app/client/modules/statistics/routes/statistics.tsx:75-86 | the three known statuses get the labels "Succes", "Waarschuwing" and "Fout"; any other status is shown as it is |
| StatisticsPage.KnownLabelsDiffer | app/client/modules/statistics/routes/statistics.tsx:75-86 | the three known statuses get three different labels |
| StatisticsPage.TotalBackupsCard | app/client/modules/statistics/routes/statistics.tsx:124 | the sum of `totalBackups` over the schedules; `TotalBackupsCountsWindow` proves it equals the number of runs in the window |
| StatisticsPage.TotalBackupsCountsWindow | app/client/modules/statistics/routes/statistics.tsx:124 | the card's sum over the schedules equals the number of runs in the window |
| StatisticsPage.RecentBackups | app/client/modules/statistics/routes/statistics.tsx:241 | `slice(0, 10)` keeps the first min(10, length) entries, in order |
| StatisticsPage.RecentListIsServerOrder | app/client/modules/statistics/routes/statistics.tsx:241 | the page asks for 10 runs (line 32), so the slice shows exactly the server's newest-first history |
| Checkpoint.Key | app/server/modules/lifecycle/checkpoint.ts:6-9 | the key is the prefix `migration:` followed by the version, so the version can be read back from it |
| Checkpoint.KeyInjective | app/server/modules/lifecycle/checkpoint.ts:9 | two versions share a key only if they are equal |
| Checkpoint.Has | app/server/modules/lifecycle/checkpoint.ts:31-37 | whether the version's key has a row; `HasAfterRecord` and `ListedIffRecorded` relate it to recording and listing |
| Checkpoint.Record | app/server/modules/lifecycle/checkpoint.ts:8-29 | the upsert leaves a row for the version with the new completion and update times; `createdAt` stays as it was for an existing row and is set to `now` for a new one; other rows do not change |
| Checkpoint.HasAfterRecord | app/server/modules/lifecycle/checkpoint.ts:8-37 | after recording `v`, a version has a checkpoint if it is `v` or had one before |
| Checkpoint.RecordTwice | app/server/modules/lifecycle/checkpoint.ts:12-26 | recording a version again creates no new row; it keeps the first creation time and takes the second call's completion and update times |
| Checkpoint.GetMigrationCheckpoints | app/server/modules/lifecycle/checkpoint.ts:79-88 | a (version, completedAt) pair is listed exactly when that version's row exists with that completion time |
| Checkpoint.ListedIffRecorded | app/server/modules/lifecycle/checkpoint.ts:79-88 | a version is listed exactly when it has a checkpoint, and never twice, provided every key matching `migration:` in some ASCII case starts with the lowercase prefix (see "Left out") |
| Checkpoint.ListedAfterRecord | app/server/modules/lifecycle/checkpoint.ts:8-88 | a recorded checkpoint is listed with its version and completion time |
| Checkpoint.OtherKeysNotListed | app/server/modules/lifecycle/checkpoint.ts:81 | metadata rows under keys that do not start with `migration:` in any ASCII case never show up as checkpoints; the model tests the lowercase prefix only (see "Left out") |
| Checkpoint.Bootstrap | app/server/modules/lifecycle/checkpoint.ts:43-53 | the fresh-install loop leaves every required version checkpointed; it adds only those keys, keeps existing rows unchanged, and gives new rows `createdAt == updatedAt == now` |
| Checkpoint.FirstMissing | app/server/modules/lifecycle/checkpoint.ts:56-76 | the loop's stopping point is the first required version without a checkpoint; it has none exactly when every version has one |
| Checkpoint.Validate | app/server/modules/lifecycle/checkpoint.ts:39-77 | A fresh install always returns, with every required version checkpointed and no earlier row rewritten. An existing install never writes. It exits exactly when some required version has no checkpoint, naming the first such version in list order. |
| Checkpoint.OnlyFreshnessMatters | app/server/modules/lifecycle/checkpoint.ts:40-43 | the user count matters only through the single `count === 0` test |
| Checkpoint.FreshInstallBootstraps | app/server/modules/lifecycle/checkpoint.ts:43-53 | on an empty fresh install with versions v1 and v2, both get checkpoints and no other row is created |
| Checkpoint.SkippedMigrationIsFatal | app/server/modules/lifecycle/checkpoint.ts:56-76 | an existing install that has v1 but not v2 exits naming v2 |
| Telegram.BuildTelegramShoutrrrUrl | app/server/modules/notifications/builders/telegram.ts:3-5 | the URL is `telegram://`, then the token, then `@telegram?channels=`, then the chat id, with nothing added or escaped |
| Telegram.ParseBuild | app/server/modules/notifications/builders/telegram.ts:4 | when the token has no `@`, the token and the chat id can be read back from the URL |
| Telegram.TokenWithAtIsAmbiguous | app/server/modules/notifications/builders/telegram.ts:4 | because nothing is escaped, a token ending in `@telegram?channels=` plus more text and a chat id containing the same marker give one URL for two different configurations |

## Left out

- Database access, the ORM and the `schedule` join are modelled as filters and a sort over an in-memory log. Each run's schedule name is carried on the row. Every run is assumed to have a schedule: a missing one would throw at `stat.schedule.name`.
- The clock (`Date.now()`) is a parameter of the model. Logger output is left out: it has no effect on results.
- JSON encoding of checkpoint values is treated as opaque: the model stores `completedAt` directly.
- `recordMigrationCheckpoint` reads the clock on every call. `Checkpoint.Bootstrap` and `Checkpoint.Validate` use one `now` and one `completedAt` for the whole bootstrap.
- `process.exit(1)` becomes the `Fatal` outcome, and the error messages it logs are left out.
- Concurrency and async ordering are left out: two validations running at once, or the database changing between queries.
- `Statistics.GetBackupHistory` ignores the projection at statistics.service.ts:95-116. It is the identity on the fields `Row` carries.
- Ties in `startedAt` are ordered by a stable sort. SQL leaves their order unspecified.
- Negative `LIMIT` follows SQLite: no limit.
- Integers are unbounded. JavaScript numbers are floats, so sums beyond 2^53 and float error in `Math.round(total / count)` are not modelled. A template literal prints numbers from 10^21 up in exponent form (`1e+21`); `Decimal.Show` always prints every digit.
- `StatisticsPage.FormatDuration` is defined on non-negative whole milliseconds only. Negative or fractional inputs (NaN, rounded averages of negative durations) are not modelled.
- `Checkpoint.GetMigrationCheckpoints` returns a set, so the order of the listed rows is not modelled. The SQL `LIKE` match is case-insensitive for ASCII. The model uses a case-sensitive prefix test, so keys like `MIGRATION:x` are not modelled.
- Checkpoint.ListedIffRecorded: holds of the model's case-sensitive listing. The code's `LIKE` also lists a row under `MIGRATION:x`, with version `MIGRATION:x` since `replace` finds no lowercase prefix to strip, while `hasMigrationCheckpoint("MIGRATION:x")` is false. The code's listing can therefore name a version that has no checkpoint.
- Checkpoint.OtherKeysNotListed: holds of the model's case-sensitive listing only. In the code a key such as `MIGRATION:x` lacks the lowercase prefix yet is listed by `LIKE`.
- The HTTP controllers and their parsing of query parameters (`parseInt`, NaN ids) are not part of this model.
- The rest of the statistics page is left out: layout, charts, the success-rate percentage (floating point), the average-of-averages card, and loading and empty states.
- The other notification builders are not part of this model, and neither are the restore and path-selector components.
