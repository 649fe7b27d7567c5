/**
 * The statistics service: per-schedule rollups over a time window of the
 * backup history, and a filtered, most-recent-first history view.
 *
 * The database read is the pure transform `WindowRows` (filter, then the
 * descending sort of the query); the grouping pass is `Group`, a left-to-right
 * fold whose accumulator is an insertion-ordered list standing for the
 * JavaScript `Map`. `Summarize` is an independent, non-incremental reference
 * definition of one schedule's rollup, and `Faithful` ties the two together.
 */
module Statistics {
  import opened Wrappers
  import opened HistoryLog

  /** The fields of a run kept in a schedule's `backups` list. */
  datatype BackupView = BackupView(
    id: int,
    startedAt: int,
    completedAt: int,
    duration: int,
    totalBytes: int,
    totalFiles: int,
    status: string,
    error: Option<string>)

  /** One schedule's rollup, shaped as the service returns it. */
  datatype ScheduleStats = ScheduleStats(
    scheduleId: int,
    scheduleName: string,
    totalBackups: nat,
    successfulBackups: nat,
    failedBackups: nat,
    warningBackups: nat,
    totalDuration: int,
    averageDuration: int,
    totalBytes: int,
    averageBytes: int,
    lastBackup: Option<BackupView>,
    backups: seq<BackupView>)

  const DefaultDays: int := 30
  const DefaultLimit: int := 50

  function View(r: Row): BackupView {
    BackupView(r.id, r.startedAt, r.completedAt, r.duration, r.totalBytes, r.totalFiles, r.status, r.error)
  }

  predicate ViewsDescending(vs: seq<BackupView>) {
    forall i, j :: 0 <= i < j < |vs| ==> vs[j].startedAt <= vs[i].startedAt
  }

  /** `Math.round(total / count)` when there is something to divide by, otherwise 0. */
  function RoundedMean(total: int, count: nat): int {
    if 0 < count then (2 * total + count) / (2 * count) else 0
  }

  /**
   * `avg` is `total / count` rounded to the nearest integer, halves up:
   * `avg * count` is within `count / 2` of `total`. With nothing to divide, 0.
   */
  predicate IsRoundedMean(avg: int, total: int, count: nat) {
    if count == 0 then avg == 0
    else 2 * count * avg - count <= 2 * total < 2 * count * avg + count
  }

  /**
   * JavaScript's `Math.round` takes halves up (towards +infinity), and
   * `RoundedMean` is the one integer within half a unit of the exact mean.
   */
  lemma RoundedMeanIsRounded(total: int, count: nat)
    ensures IsRoundedMean(RoundedMean(total, count), total, count)
  {
    if 0 < count {
      var d := 2 * count;
      var q := (2 * total + count) / d;
      assert 2 * total + count == d * q + (2 * total + count) % d;
    }
  }

  // ---------------------------------------------------------------------------
  // The query and the grouping pass, as `getBackupStatistics` performs them.

  /** The rows the statistics query fetches: in the window, most recent first. */
  function WindowRows(log: seq<Row>, now: int, days: int): (rows: seq<Row>)
    ensures Descending(rows)
    ensures multiset(rows) == multiset(InWindow(log, WindowStart(now, days)))
  {
    SortDesc(InWindow(log, WindowStart(now, days)))
  }

  /** The accumulator created the first time a schedule is met. */
  function Fresh(r: Row): ScheduleStats {
    ScheduleStats(r.scheduleId, r.scheduleName, 0, 0, 0, 0, 0, 0, 0, 0, None, [])
  }

  /** Counts one run into its schedule's accumulator; a status outside the three buckets is in none of the status counts. */
  function Add(s: ScheduleStats, r: Row): ScheduleStats {
    var counted := s.(totalBackups := s.totalBackups + 1,
                      totalDuration := s.totalDuration + r.duration,
                      totalBytes := s.totalBytes + r.totalBytes);
    var tallied :=
      if r.status == StatusSuccess then counted.(successfulBackups := counted.successfulBackups + 1)
      else if r.status == StatusError then counted.(failedBackups := counted.failedBackups + 1)
      else if r.status == StatusWarning then counted.(warningBackups := counted.warningBackups + 1)
      else counted;
    tallied.(backups := tallied.backups + [View(r)])
  }

  /** Position of the accumulator for schedule `k`, if there is one. */
  function Find(groups: seq<ScheduleStats>, k: int): (r: Option<nat>)
    ensures r.Some? ==> r.value < |groups| && groups[r.value].scheduleId == k
    ensures r.None? <==> forall i :: 0 <= i < |groups| ==> groups[i].scheduleId != k
  {
    if |groups| == 0 then None
    else if groups[|groups| - 1].scheduleId == k then Some(|groups| - 1)
    else Find(groups[..|groups| - 1], k)
  }

  /** One iteration of the grouping loop. */
  function Step(groups: seq<ScheduleStats>, r: Row): seq<ScheduleStats> {
    match Find(groups, r.scheduleId)
    case Some(j) => groups[j := Add(groups[j], r)]
    case None => groups + [Add(Fresh(r), r)]
  }

  /** The grouping loop over `rows`, left to right. */
  function Group(rows: seq<Row>): seq<ScheduleStats> {
    if |rows| == 0 then [] else Step(Group(rows[..|rows| - 1]), rows[|rows| - 1])
  }

  /** The second loop: averages and the most recent run. */
  function Finalize(s: ScheduleStats): ScheduleStats {
    s.(averageDuration := RoundedMean(s.totalDuration, s.totalBackups),
       averageBytes := RoundedMean(s.totalBytes, s.totalBackups),
       lastBackup := if |s.backups| > 0 then Some(s.backups[0]) else None)
  }

  function FinalizeAll(groups: seq<ScheduleStats>): (out: seq<ScheduleStats>)
    ensures |out| == |groups|
    ensures forall i :: 0 <= i < |out| ==> out[i] == Finalize(groups[i])
  {
    if |groups| == 0 then [] else FinalizeAll(groups[..|groups| - 1]) + [Finalize(groups[|groups| - 1])]
  }

  /** `getBackupStatistics(days = 30)` with the clock reading `now` passed in. */
  function GetBackupStatistics(log: seq<Row>, now: int, days: Option<int>): seq<ScheduleStats> {
    FinalizeAll(Group(WindowRows(log, now, days.ValueOr(DefaultDays))))
  }

  // ---------------------------------------------------------------------------
  // Reference definitions, stated over the whole window at once.

  /** The rows of schedule `k`, in the order of `rows`. */
  function OfSchedule(rows: seq<Row>, k: int): (f: seq<Row>)
    ensures forall i :: 0 <= i < |f| ==> f[i].scheduleId == k
  {
    if |rows| == 0 then []
    else OfSchedule(rows[..|rows| - 1], k) + (if rows[|rows| - 1].scheduleId == k then [rows[|rows| - 1]] else [])
  }

  /** The rows of schedule `k` are exactly, with multiplicity, the rows of `rows` that name `k`. */
  lemma {:induction false} OfScheduleCounts(rows: seq<Row>, k: int)
    ensures forall x :: multiset(OfSchedule(rows, k))[x] == if x.scheduleId == k then multiset(rows)[x] else 0
  {
    if |rows| > 0 {
      assert rows == rows[..|rows| - 1] + [rows[|rows| - 1]];
      OfScheduleCounts(rows[..|rows| - 1], k);
    }
  }

  /** Index of the first row of schedule `k`, or `|rows|` when there is none. */
  function FirstIndex(rows: seq<Row>, k: int): (p: nat)
    ensures p <= |rows|
    ensures p < |rows| ==> rows[p].scheduleId == k
  {
    if |rows| == 0 then 0
    else
      var p := FirstIndex(rows[..|rows| - 1], k);
      if p < |rows| - 1 then p
      else if rows[|rows| - 1].scheduleId == k then |rows| - 1
      else |rows|
  }

  /** No row before `FirstIndex(rows, k)` belongs to schedule `k`. */
  lemma {:induction false} FirstIndexIsFirst(rows: seq<Row>, k: int)
    ensures forall i :: 0 <= i < FirstIndex(rows, k) ==> rows[i].scheduleId != k
  {
    if |rows| > 0 {
      FirstIndexIsFirst(rows[..|rows| - 1], k);
    }
  }

  function CountStatus(rs: seq<Row>, status: string): (n: nat)
    ensures n <= |rs|
  {
    if |rs| == 0 then 0
    else CountStatus(rs[..|rs| - 1], status) + (if rs[|rs| - 1].status == status then 1 else 0)
  }

  /** Number of rows whose status is none of the three known ones. */
  function CountUnknown(rs: seq<Row>): (n: nat)
    ensures n == 0 <==> forall i :: 0 <= i < |rs| ==> KnownStatus(rs[i].status)
  {
    if |rs| == 0 then 0
    else CountUnknown(rs[..|rs| - 1]) + (if KnownStatus(rs[|rs| - 1].status) then 0 else 1)
  }

  function SumDuration(rs: seq<Row>): int {
    if |rs| == 0 then 0 else SumDuration(rs[..|rs| - 1]) + rs[|rs| - 1].duration
  }

  function SumBytes(rs: seq<Row>): int {
    if |rs| == 0 then 0 else SumBytes(rs[..|rs| - 1]) + rs[|rs| - 1].totalBytes
  }

  function Views(rs: seq<Row>): (vs: seq<BackupView>)
    ensures |vs| == |rs|
    ensures forall i :: 0 <= i < |rs| ==> vs[i] == View(rs[i])
  {
    if |rs| == 0 then [] else Views(rs[..|rs| - 1]) + [View(rs[|rs| - 1])]
  }

  /**
   * The accumulator a schedule should have after the grouping loop, given all
   * of its rows `rs` at once: named after its first row, counted and summed
   * directly, averages and last run not yet filled in.
   */
  function Summarize(rs: seq<Row>): ScheduleStats
    requires 0 < |rs|
  {
    ScheduleStats(
      rs[0].scheduleId, rs[0].scheduleName, |rs|,
      CountStatus(rs, StatusSuccess), CountStatus(rs, StatusError), CountStatus(rs, StatusWarning),
      SumDuration(rs), 0, SumBytes(rs), 0, None, Views(rs))
  }

  ghost predicate Describes(rows: seq<Row>, g: ScheduleStats) {
    var f := OfSchedule(rows, g.scheduleId);
    0 < |f| && g == Summarize(f)
  }

  /** Every accumulator is the summary of its schedule's rows. */
  ghost predicate AllDescribed(rows: seq<Row>, groups: seq<ScheduleStats>) {
    forall i :: 0 <= i < |groups| ==> Describes(rows, groups[i])
  }

  /** Every schedule met in `rows` has an accumulator. */
  ghost predicate Covers(rows: seq<Row>, groups: seq<ScheduleStats>) {
    forall i :: 0 <= i < |rows| ==> Find(groups, rows[i].scheduleId).Some?
  }

  /** No schedule has two accumulators. */
  predicate DistinctSchedules(groups: seq<ScheduleStats>) {
    forall i, j :: 0 <= i < j < |groups| ==> groups[i].scheduleId != groups[j].scheduleId
  }

  /** Accumulators are listed in the order their schedules first appear in `rows`. */
  ghost predicate FirstSeenOrder(rows: seq<Row>, groups: seq<ScheduleStats>) {
    forall i, j :: 0 <= i < j < |groups| ==>
      FirstIndex(rows, groups[i].scheduleId) < FirstIndex(rows, groups[j].scheduleId)
  }

  /** `groups` is the right result of grouping `rows`. */
  ghost predicate Faithful(rows: seq<Row>, groups: seq<ScheduleStats>) {
    && AllDescribed(rows, groups)
    && Covers(rows, groups)
    && DistinctSchedules(groups)
    && FirstSeenOrder(rows, groups)
  }

  // ---------------------------------------------------------------------------
  // The grouping loop computes the reference definition.

  lemma {:induction false} OfScheduleStartsAtFirstIndex(rows: seq<Row>, k: int)
    ensures 0 < |OfSchedule(rows, k)| <==> FirstIndex(rows, k) < |rows|
    ensures 0 < |OfSchedule(rows, k)| ==> OfSchedule(rows, k)[0] == rows[FirstIndex(rows, k)]
  {
    if |rows| > 0 {
      OfScheduleStartsAtFirstIndex(rows[..|rows| - 1], k);
    }
  }

  lemma SummarizeSnoc(f: seq<Row>, r: Row)
    requires 0 < |f|
    requires r.scheduleId == f[0].scheduleId
    ensures Summarize(f + [r]) == Add(Summarize(f), r)
  {
    var f' := f + [r];
    assert f'[..|f'| - 1] == f;
  }

  lemma SummarizeSingle(r: Row)
    ensures Summarize([r]) == Add(Fresh(r), r)
  {
    assert [r][..0] == [];
    assert CountStatus([r], StatusSuccess) == if r.status == StatusSuccess then 1 else 0;
    assert CountStatus([r], StatusError) == if r.status == StatusError then 1 else 0;
    assert CountStatus([r], StatusWarning) == if r.status == StatusWarning then 1 else 0;
    assert SumDuration([r]) == r.duration;
    assert SumBytes([r]) == r.totalBytes;
    assert Views([r]) == [View(r)];
  }

  /** Appending a row extends the rows of its own schedule and no other. */
  lemma SnocOfSchedule(rows: seq<Row>, r: Row, x: int)
    ensures OfSchedule(rows + [r], x) == OfSchedule(rows, x) + (if x == r.scheduleId then [r] else [])
  {
    var rows' := rows + [r];
    assert rows'[..|rows'| - 1] == rows;
  }

  /** Appending a row moves no schedule's first occurrence, and gives a new schedule its first one. */
  lemma SnocFirstIndex(rows: seq<Row>, r: Row, x: int)
    ensures FirstIndex(rows, x) < |rows| ==> FirstIndex(rows + [r], x) == FirstIndex(rows, x)
    ensures FirstIndex(rows, x) == |rows| && x == r.scheduleId ==> FirstIndex(rows + [r], x) == |rows|
  {
    var rows' := rows + [r];
    assert rows'[..|rows'| - 1] == rows;
  }

  /** Every summarised schedule occurs in `rows`. */
  lemma AllOccur(rows: seq<Row>, groups: seq<ScheduleStats>)
    requires AllDescribed(rows, groups)
    ensures forall i :: 0 <= i < |groups| ==> FirstIndex(rows, groups[i].scheduleId) < |rows|
  {
    forall i | 0 <= i < |groups|
      ensures FirstIndex(rows, groups[i].scheduleId) < |rows|
    {
      DescribedOccurs(rows, groups[i]);
    }
  }

  /** Appending a row keeps the first occurrence of every schedule that already occurs. */
  lemma FirstIndicesKept(rows: seq<Row>, groups: seq<ScheduleStats>, r: Row)
    requires forall i :: 0 <= i < |groups| ==> FirstIndex(rows, groups[i].scheduleId) < |rows|
    ensures forall i :: 0 <= i < |groups| ==>
              FirstIndex(rows + [r], groups[i].scheduleId) == FirstIndex(rows, groups[i].scheduleId)
  {
    forall i | 0 <= i < |groups|
      ensures FirstIndex(rows + [r], groups[i].scheduleId) == FirstIndex(rows, groups[i].scheduleId)
    {
      SnocFirstIndex(rows, r, groups[i].scheduleId);
    }
  }

  /** A summary that exists names a schedule that occurs in `rows`. */
  lemma DescribedOccurs(rows: seq<Row>, g: ScheduleStats)
    requires Describes(rows, g)
    ensures FirstIndex(rows, g.scheduleId) < |rows|
  {
    OfScheduleStartsAtFirstIndex(rows, g.scheduleId);
  }

  /** A row of another schedule leaves a summary as it is. */
  lemma DescribedUnaffected(rows: seq<Row>, g: ScheduleStats, r: Row)
    requires Describes(rows, g)
    requires g.scheduleId != r.scheduleId
    ensures Describes(rows + [r], g)
  {
    SnocOfSchedule(rows, r, g.scheduleId);
    assert OfSchedule(rows + [r], g.scheduleId) == OfSchedule(rows, g.scheduleId);
  }

  lemma DescribedExtended(rows: seq<Row>, g: ScheduleStats, r: Row)
    requires Describes(rows, g)
    requires g.scheduleId == r.scheduleId
    ensures Describes(rows + [r], Add(g, r))
  {
    SnocOfSchedule(rows, r, g.scheduleId);
    SummarizeSnoc(OfSchedule(rows, g.scheduleId), r);
  }

  lemma ExistingDescribed(rows: seq<Row>, groups: seq<ScheduleStats>, r: Row, j: nat)
    requires AllDescribed(rows, groups)
    requires DistinctSchedules(groups)
    requires Find(groups, r.scheduleId) == Some(j)
    ensures AllDescribed(rows + [r], groups[j := Add(groups[j], r)])
  {
    var g' := groups[j := Add(groups[j], r)];
    forall i | 0 <= i < |g'|
      ensures Describes(rows + [r], g'[i])
    {
      assert Describes(rows, groups[i]);
      if i == j {
        DescribedExtended(rows, groups[j], r);
      } else {
        assert groups[i].scheduleId != groups[j].scheduleId;
        DescribedUnaffected(rows, groups[i], r);
      }
    }
  }

  lemma ExistingCovers(rows: seq<Row>, groups: seq<ScheduleStats>, r: Row, j: nat)
    requires Covers(rows, groups)
    requires Find(groups, r.scheduleId) == Some(j)
    ensures Covers(rows + [r], groups[j := Add(groups[j], r)])
  {
    var rows' := rows + [r];
    var g' := groups[j := Add(groups[j], r)];
    forall i | 0 <= i < |rows'|
      ensures Find(g', rows'[i].scheduleId).Some?
    {
      if i < |rows| {
        var j' := Find(groups, rows[i].scheduleId).value;
        assert g'[j'].scheduleId == rows'[i].scheduleId;
      } else {
        assert g'[j].scheduleId == rows'[i].scheduleId;
      }
    }
  }

  /** `b` lists the schedules of `a`, position by position. */
  predicate SameSchedules(a: seq<ScheduleStats>, b: seq<ScheduleStats>) {
    |a| == |b| && forall i :: 0 <= i < |a| ==> a[i].scheduleId == b[i].scheduleId
  }

  /** Replacing an accumulator by one of the same schedule keeps the list of schedules. */
  lemma UpdateKeepsSchedules(groups: seq<ScheduleStats>, j: nat, x: ScheduleStats)
    requires j < |groups|
    requires x.scheduleId == groups[j].scheduleId
    ensures SameSchedules(groups, groups[j := x])
    ensures DistinctSchedules(groups) ==> DistinctSchedules(groups[j := x])
  {
  }

  /** Appending a row keeps the order of accumulators whose schedules already occur. */
  lemma ExistingOrdered(rows: seq<Row>, groups: seq<ScheduleStats>, r: Row, g': seq<ScheduleStats>)
    requires forall i :: 0 <= i < |groups| ==> FirstIndex(rows, groups[i].scheduleId) < |rows|
    requires FirstSeenOrder(rows, groups)
    requires SameSchedules(groups, g')
    ensures FirstSeenOrder(rows + [r], g')
  {
    FirstIndicesKept(rows, groups, r);
    forall i, i' | 0 <= i < i' < |g'|
      ensures FirstIndex(rows + [r], g'[i].scheduleId) < FirstIndex(rows + [r], g'[i'].scheduleId)
    {
      assert FirstIndex(rows, groups[i].scheduleId) < FirstIndex(rows, groups[i'].scheduleId);
    }
  }

  lemma NewDescribed(rows: seq<Row>, groups: seq<ScheduleStats>, r: Row)
    requires AllDescribed(rows, groups)
    requires Find(groups, r.scheduleId) == None
    requires FirstIndex(rows, r.scheduleId) == |rows|
    ensures AllDescribed(rows + [r], groups + [Add(Fresh(r), r)])
  {
    var g' := groups + [Add(Fresh(r), r)];
    forall i | 0 <= i < |g'|
      ensures Describes(rows + [r], g'[i])
    {
      if i < |groups| {
        assert g'[i] == groups[i];
        assert Describes(rows, groups[i]);
        DescribedUnaffected(rows, groups[i], r);
      } else {
        OfScheduleStartsAtFirstIndex(rows, r.scheduleId);
        SnocOfSchedule(rows, r, r.scheduleId);
        SummarizeSingle(r);
      }
    }
  }

  lemma NewCovers(rows: seq<Row>, groups: seq<ScheduleStats>, r: Row)
    requires Covers(rows, groups)
    ensures Covers(rows + [r], groups + [Add(Fresh(r), r)])
  {
    var rows' := rows + [r];
    var g' := groups + [Add(Fresh(r), r)];
    forall i | 0 <= i < |rows'|
      ensures Find(g', rows'[i].scheduleId).Some?
    {
      if i < |rows| {
        var j' := Find(groups, rows[i].scheduleId).value;
        assert g'[j'].scheduleId == rows'[i].scheduleId;
      } else {
        assert g'[|groups|].scheduleId == rows'[i].scheduleId;
      }
    }
  }

  lemma NewOrdered(rows: seq<Row>, groups: seq<ScheduleStats>, r: Row, h: ScheduleStats)
    requires forall i :: 0 <= i < |groups| ==> FirstIndex(rows, groups[i].scheduleId) < |rows|
    requires FirstSeenOrder(rows, groups)
    requires FirstIndex(rows, r.scheduleId) == |rows|
    requires h.scheduleId == r.scheduleId
    ensures FirstSeenOrder(rows + [r], groups + [h])
  {
    var g' := groups + [h];
    SnocFirstIndex(rows, r, r.scheduleId);
    FirstIndicesKept(rows, groups, r);
    forall i, i' | 0 <= i < i' < |g'|
      ensures FirstIndex(rows + [r], g'[i].scheduleId) < FirstIndex(rows + [r], g'[i'].scheduleId)
    {
      assert g'[i] == groups[i];
      if i' < |groups| {
        assert g'[i'] == groups[i'];
        assert FirstIndex(rows, groups[i].scheduleId) < FirstIndex(rows, groups[i'].scheduleId);
      }
    }
  }

  /** A schedule that has occurred has an accumulator, so one without an accumulator has not occurred yet. */
  lemma SeenIsCovered(rows: seq<Row>, groups: seq<ScheduleStats>, k: int)
    requires Covers(rows, groups)
    ensures FirstIndex(rows, k) < |rows| ==> Find(groups, k).Some?
  {
    var p := FirstIndex(rows, k);
    if p < |rows| {
      assert rows[p].scheduleId == k;
    }
  }

  /** An accumulator for a schedule not yet listed keeps the schedules distinct. */
  lemma NewDistinct(groups: seq<ScheduleStats>, h: ScheduleStats)
    requires DistinctSchedules(groups)
    requires forall i :: 0 <= i < |groups| ==> groups[i].scheduleId != h.scheduleId
    ensures DistinctSchedules(groups + [h])
  {
  }

  /** The grouping loop never gives a schedule two accumulators. */
  lemma {:induction false} GroupDistinct(rows: seq<Row>)
    ensures DistinctSchedules(Group(rows))
  {
    if |rows| > 0 {
      var init := rows[..|rows| - 1];
      var last := rows[|rows| - 1];
      GroupDistinct(init);
      var g := Group(init);
      assert Group(rows) == Step(g, last);
      match Find(g, last.scheduleId)
      case Some(j) =>
        UpdateKeepsSchedules(g, j, Add(g[j], last));
      case None =>
        NewDistinct(g, Add(Fresh(last), last));
    }
  }

  /** The grouping loop gives every schedule it meets an accumulator. */
  lemma {:induction false} GroupCovers(rows: seq<Row>)
    ensures Covers(rows, Group(rows))
  {
    if |rows| > 0 {
      var init := rows[..|rows| - 1];
      var last := rows[|rows| - 1];
      assert init + [last] == rows;
      GroupCovers(init);
      var g := Group(init);
      assert Group(rows) == Step(g, last);
      match Find(g, last.scheduleId)
      case Some(j) =>
        ExistingCovers(init, g, last, j);
      case None =>
        NewCovers(init, g, last);
    }
  }

  /** Every accumulator of the grouping loop is the summary of its schedule's rows. */
  lemma {:induction false} GroupDescribed(rows: seq<Row>)
    ensures AllDescribed(rows, Group(rows))
  {
    if |rows| > 0 {
      var init := rows[..|rows| - 1];
      var last := rows[|rows| - 1];
      assert init + [last] == rows;
      GroupDescribed(init);
      var g := Group(init);
      assert Group(rows) == Step(g, last);
      match Find(g, last.scheduleId)
      case Some(j) =>
        GroupDistinct(init);
        ExistingDescribed(init, g, last, j);
      case None =>
        assert FirstIndex(init, last.scheduleId) == |init| by {
          GroupCovers(init);
          SeenIsCovered(init, g, last.scheduleId);
        }
        NewDescribed(init, g, last);
    }
  }

  /** Every schedule the grouping loop lists occurs in its rows. */
  lemma GroupOccurs(rows: seq<Row>)
    ensures forall i :: 0 <= i < |Group(rows)| ==> FirstIndex(rows, Group(rows)[i].scheduleId) < |rows|
  {
    GroupDescribed(rows);
    AllOccur(rows, Group(rows));
  }

  /** A row of a schedule that already has an accumulator keeps the first-seen order. */
  lemma StepOrderedExisting(rows: seq<Row>, groups: seq<ScheduleStats>, r: Row, j: nat)
    requires forall i :: 0 <= i < |groups| ==> FirstIndex(rows, groups[i].scheduleId) < |rows|
    requires FirstSeenOrder(rows, groups)
    requires Find(groups, r.scheduleId) == Some(j)
    ensures FirstSeenOrder(rows + [r], Step(groups, r))
  {
    var g' := groups[j := Add(groups[j], r)];
    assert Step(groups, r) == g';
    UpdateKeepsSchedules(groups, j, Add(groups[j], r));
    ExistingOrdered(rows, groups, r, g');
  }

  /** The first row of a new schedule puts its accumulator last, which keeps the first-seen order. */
  lemma StepOrderedNew(rows: seq<Row>, groups: seq<ScheduleStats>, r: Row)
    requires forall i :: 0 <= i < |groups| ==> FirstIndex(rows, groups[i].scheduleId) < |rows|
    requires FirstSeenOrder(rows, groups)
    requires Covers(rows, groups)
    requires Find(groups, r.scheduleId) == None
    ensures FirstSeenOrder(rows + [r], Step(groups, r))
  {
    assert Step(groups, r) == groups + [Add(Fresh(r), r)];
    SeenIsCovered(rows, groups, r.scheduleId);
    NewOrdered(rows, groups, r, Add(Fresh(r), r));
  }

  /** The grouping loop lists accumulators in the order their schedules first occur. */
  lemma {:induction false} GroupOrdered(rows: seq<Row>)
    ensures FirstSeenOrder(rows, Group(rows))
  {
    if |rows| > 0 {
      var init := rows[..|rows| - 1];
      var last := rows[|rows| - 1];
      assert init + [last] == rows;
      GroupOrdered(init);
      GroupOccurs(init);
      var g := Group(init);
      match Find(g, last.scheduleId)
      case Some(j) =>
        StepOrderedExisting(init, g, last, j);
      case None =>
        GroupCovers(init);
        StepOrderedNew(init, g, last);
    }
  }

  /** The grouping loop computes the reference definition. */
  lemma GroupFaithful(rows: seq<Row>)
    ensures Faithful(rows, Group(rows))
  {
    GroupDescribed(rows);
    GroupCovers(rows);
    GroupDistinct(rows);
    GroupOrdered(rows);
  }

  // ---------------------------------------------------------------------------
  // Properties of the service's result.

  lemma {:induction false} BucketsPartition(rs: seq<Row>)
    ensures CountStatus(rs, StatusSuccess) + CountStatus(rs, StatusError) + CountStatus(rs, StatusWarning)
            + CountUnknown(rs) == |rs|
  {
    if |rs| > 0 {
      BucketsPartition(rs[..|rs| - 1]);
    }
  }

  /** The rows of one schedule are rows of the list they were taken from. */
  lemma {:induction false} OfScheduleWithin(rows: seq<Row>, k: int)
    ensures forall x :: x in OfSchedule(rows, k) ==> x in rows
  {
    if |rows| > 0 {
      var init := rows[..|rows| - 1];
      OfScheduleWithin(init, k);
      assert forall x :: x in init ==> x in rows;
    }
  }

  /** Keeping the rows of one schedule keeps the order of a most-recent-first list. */
  lemma {:induction false} OfScheduleDescending(rows: seq<Row>, k: int)
    requires Descending(rows)
    ensures Descending(OfSchedule(rows, k))
  {
    if |rows| > 0 {
      var n := |rows|;
      var init := rows[..n - 1];
      var last := rows[n - 1];
      assert Descending(init);
      OfScheduleDescending(init, k);
      OfScheduleWithin(init, k);
      var f0 := OfSchedule(init, k);
      forall i | 0 <= i < |f0|
        ensures last.startedAt <= f0[i].startedAt
      {
        assert f0[i] in init;
        var idx :| 0 <= idx < |init| && init[idx] == f0[i];
        assert rows[idx] == f0[i];
      }
    }
  }

  /** Filling in averages and last runs leaves every entry's schedule where it was. */
  lemma FinalizeAllKeepsSchedules(g: seq<ScheduleStats>)
    ensures forall i :: 0 <= i < |g| ==> FinalizeAll(g)[i].scheduleId == g[i].scheduleId
  {
  }

  lemma RollupsCover(rows: seq<Row>)
    ensures forall i :: 0 <= i < |rows| ==> Find(FinalizeAll(Group(rows)), rows[i].scheduleId).Some?
  {
    var g := Group(rows);
    var out := FinalizeAll(g);
    GroupCovers(rows);
    FinalizeAllKeepsSchedules(g);
    forall i | 0 <= i < |rows|
      ensures Find(out, rows[i].scheduleId).Some?
    {
      var j := Find(g, rows[i].scheduleId).value;
      assert out[j].scheduleId == rows[i].scheduleId;
    }
  }

  lemma RollupsOrdered(rows: seq<Row>)
    ensures DistinctSchedules(FinalizeAll(Group(rows)))
    ensures FirstSeenOrder(rows, FinalizeAll(Group(rows)))
  {
    var g := Group(rows);
    GroupFaithful(rows);
    assert DistinctSchedules(g) && FirstSeenOrder(rows, g);
    FinalizeAllKeepsSchedules(g);
  }

  lemma RollupsSummarize(rows: seq<Row>)
    ensures var out := FinalizeAll(Group(rows));
            forall i :: 0 <= i < |out| ==>
              var f := OfSchedule(rows, out[i].scheduleId);
              0 < |f| && out[i] == Finalize(Summarize(f))
  {
    var out := FinalizeAll(Group(rows));
    forall i | 0 <= i < |out|
      ensures var f := OfSchedule(rows, out[i].scheduleId); 0 < |f| && out[i] == Finalize(Summarize(f))
    {
      EntryIsSummary(rows, out[i]);
    }
  }

  /** What the two loops produce from the fetched rows `rows`. */
  lemma RollupsDescribeRows(rows: seq<Row>)
    ensures var out := FinalizeAll(Group(rows));
            && (forall i :: 0 <= i < |out| ==>
                  var f := OfSchedule(rows, out[i].scheduleId);
                  0 < |f| && out[i] == Finalize(Summarize(f)))
            && (forall i :: 0 <= i < |rows| ==> Find(out, rows[i].scheduleId).Some?)
            && DistinctSchedules(out)
            && FirstSeenOrder(rows, out)
  {
    RollupsSummarize(rows);
    RollupsCover(rows);
    RollupsOrdered(rows);
  }

  /** The finished rollup of one schedule's rows `f`, listed most recent first. */
  lemma SummaryProperties(f: seq<Row>)
    requires 0 < |f|
    requires Descending(f)
    ensures var e := Finalize(Summarize(f));
            && e.successfulBackups + e.failedBackups + e.warningBackups <= e.totalBackups
            && (e.successfulBackups + e.failedBackups + e.warningBackups == e.totalBackups
                <==> forall j :: 0 <= j < |e.backups| ==> KnownStatus(e.backups[j].status))
            && IsRoundedMean(e.averageDuration, e.totalDuration, e.totalBackups)
            && IsRoundedMean(e.averageBytes, e.totalBytes, e.totalBackups)
            && ViewsDescending(e.backups)
            && e.lastBackup == Some(e.backups[0])
            && forall j :: 0 <= j < |e.backups| ==> e.backups[j].startedAt <= e.lastBackup.value.startedAt
  {
    var e := Finalize(Summarize(f));
    BucketsPartition(f);
    RoundedMeanIsRounded(SumDuration(f), |f|);
    RoundedMeanIsRounded(SumBytes(f), |f|);
    assert forall j :: 0 <= j < |f| ==> e.backups[j] == View(f[j]);
  }

  lemma EntryIsSummary(rows: seq<Row>, e: ScheduleStats)
    requires e in FinalizeAll(Group(rows))
    ensures 0 < |OfSchedule(rows, e.scheduleId)|
    ensures e == Finalize(Summarize(OfSchedule(rows, e.scheduleId)))
  {
    var g := Group(rows);
    var out := FinalizeAll(g);
    GroupFaithful(rows);
    var i :| 0 <= i < |out| && out[i] == e;
    assert Describes(rows, g[i]);
  }

  /** The counts and sums of one entry, in terms of its schedule's rows `f`. */
  lemma EntryCounts(rows: seq<Row>, e: ScheduleStats)
    requires e in FinalizeAll(Group(rows))
    ensures var f := OfSchedule(rows, e.scheduleId);
            && 0 < |f|
            && FirstIndex(rows, e.scheduleId) < |rows|
            && e.scheduleName == rows[FirstIndex(rows, e.scheduleId)].scheduleName
            && e.totalBackups == |e.backups| == |f|
            && e.backups == Views(f)
            && e.totalDuration == SumDuration(f)
            && e.totalBytes == SumBytes(f)
            && e.successfulBackups == CountStatus(f, StatusSuccess)
            && e.failedBackups == CountStatus(f, StatusError)
            && e.warningBackups == CountStatus(f, StatusWarning)
  {
    var f := OfSchedule(rows, e.scheduleId);
    EntryIsSummary(rows, e);
    OfScheduleStartsAtFirstIndex(rows, e.scheduleId);
    assert e.scheduleName == f[0].scheduleName;
  }

  /** One entry of the rollups of most-recent-first rows `rows`. */
  lemma EntryOfRows(rows: seq<Row>, e: ScheduleStats)
    requires Descending(rows)
    requires e in FinalizeAll(Group(rows))
    ensures var f := OfSchedule(rows, e.scheduleId);
            && 0 < |f|
            && FirstIndex(rows, e.scheduleId) < |rows|
            && e.scheduleName == rows[FirstIndex(rows, e.scheduleId)].scheduleName
            && e.totalBackups == |e.backups| == |f|
            && e.backups == Views(f)
            && e.totalDuration == SumDuration(f)
            && e.totalBytes == SumBytes(f)
            && e.successfulBackups == CountStatus(f, StatusSuccess)
            && e.failedBackups == CountStatus(f, StatusError)
            && e.warningBackups == CountStatus(f, StatusWarning)
    ensures e.successfulBackups + e.failedBackups + e.warningBackups <= e.totalBackups
    ensures e.successfulBackups + e.failedBackups + e.warningBackups == e.totalBackups
            <==> forall j :: 0 <= j < |e.backups| ==> KnownStatus(e.backups[j].status)
    ensures IsRoundedMean(e.averageDuration, e.totalDuration, e.totalBackups)
    ensures IsRoundedMean(e.averageBytes, e.totalBytes, e.totalBackups)
    ensures ViewsDescending(e.backups)
    ensures e.lastBackup == Some(e.backups[0])
    ensures forall j :: 0 <= j < |e.backups| ==> e.backups[j].startedAt <= e.lastBackup.value.startedAt
  {
    var f := OfSchedule(rows, e.scheduleId);
    EntryCounts(rows, e);
    EntryIsSummary(rows, e);
    OfScheduleDescending(rows, e.scheduleId);
    SummaryProperties(f);
  }

  /**
   * `getBackupStatistics` from the log's point of view: each entry is the
   * finished summary of its schedule's fetched rows, every schedule with a run
   * inside the window has an entry, and no schedule has two.
   */
  lemma StatisticsOfLog(log: seq<Row>, now: int, days: Option<int>)
    ensures var rows := WindowRows(log, now, days.ValueOr(DefaultDays));
            var out := GetBackupStatistics(log, now, days);
            && (forall i :: 0 <= i < |out| ==>
                  var f := OfSchedule(rows, out[i].scheduleId);
                  0 < |f| && out[i] == Finalize(Summarize(f)))
            && (forall x :: x in log && WindowStart(now, days.ValueOr(DefaultDays)) <= x.startedAt ==>
                  Find(out, x.scheduleId).Some?)
            && DistinctSchedules(out)
  {
    var d := days.ValueOr(DefaultDays);
    var rows := WindowRows(log, now, d);
    var out := GetBackupStatistics(log, now, days);
    RollupsDescribeRows(rows);
    forall x | x in log && WindowStart(now, d) <= x.startedAt
      ensures Find(out, x.scheduleId).Some?
    {
      assert multiset(log)[x] > 0;
      assert x in multiset(rows);
      assert x in rows;
      var i :| 0 <= i < |rows| && rows[i] == x;
    }
  }

  /**
   * The rows a schedule's entry is built from are exactly, with multiplicity,
   * the log's rows of that schedule that started inside the window.
   */
  lemma WindowRowsOfSchedule(log: seq<Row>, now: int, days: int, k: int)
    ensures forall x :: multiset(OfSchedule(WindowRows(log, now, days), k))[x] ==
              if x.scheduleId == k && WindowStart(now, days) <= x.startedAt then multiset(log)[x] else 0
  {
    OfScheduleCounts(WindowRows(log, now, days), k);
  }

  /** More rows (as a multiset) give each schedule at least as many rows. */
  lemma OfScheduleGrows(rows: seq<Row>, rows': seq<Row>, k: int)
    requires multiset(rows) <= multiset(rows')
    ensures multiset(OfSchedule(rows, k)) <= multiset(OfSchedule(rows', k))
    ensures |OfSchedule(rows, k)| <= |OfSchedule(rows', k)|
  {
    var f := OfSchedule(rows, k);
    var f' := OfSchedule(rows', k);
    OfScheduleCounts(rows, k);
    OfScheduleCounts(rows', k);
    forall x
      ensures multiset(f)[x] <= multiset(f')[x]
    {
      assert multiset(rows)[x] <= multiset(rows')[x];
    }
    assert multiset(f') == multiset(f) + (multiset(f') - multiset(f));
  }

  /** A schedule that occurs in `rows` has an entry in the rollups of `rows`. */
  lemma RollupOf(rows: seq<Row>, x: Row) returns (e: ScheduleStats)
    requires x in rows
    ensures e in FinalizeAll(Group(rows)) && e.scheduleId == x.scheduleId
    ensures e.totalBackups == |OfSchedule(rows, x.scheduleId)|
  {
    var idx :| 0 <= idx < |rows| && rows[idx] == x;
    RollupsCover(rows);
    var out := FinalizeAll(Group(rows));
    var j := Find(out, rows[idx].scheduleId).value;
    e := out[j];
    EntryIsSummary(rows, e);
    assert e == Finalize(Summarize(OfSchedule(rows, e.scheduleId)));
  }

  /** With more rows, a schedule's entry lists every run its entry for fewer rows lists. */
  lemma MoreRowsKeepBackups(rows: seq<Row>, rows': seq<Row>, e: ScheduleStats, e': ScheduleStats)
    requires multiset(rows) <= multiset(rows')
    requires e in FinalizeAll(Group(rows))
    requires e' in FinalizeAll(Group(rows'))
    requires e'.scheduleId == e.scheduleId
    ensures forall b :: b in e.backups ==> b in e'.backups
  {
    var k := e.scheduleId;
    var f, f' := OfSchedule(rows, k), OfSchedule(rows', k);
    EntryIsSummary(rows, e);
    EntryIsSummary(rows', e');
    OfScheduleGrows(rows, rows', k);
    assert e.backups == Views(f);
    assert e'.backups == Views(f');
    forall b | b in e.backups
      ensures b in e'.backups
    {
      var i :| 0 <= i < |e.backups| && e.backups[i] == b;
      var x := f[i];
      assert x in multiset(f);
      assert x in multiset(f');
      var j :| 0 <= j < |f'| && f'[j] == x;
      assert e'.backups[j] == View(x) == b;
    }
  }

  /** More rows (as a multiset) never lose a schedule, lower its count or drop one of its runs. */
  lemma MoreRowsReportMore(rows: seq<Row>, rows': seq<Row>, e: ScheduleStats)
    requires multiset(rows) <= multiset(rows')
    requires e in FinalizeAll(Group(rows))
    ensures exists e' :: e' in FinalizeAll(Group(rows')) && e'.scheduleId == e.scheduleId
                         && e.totalBackups <= e'.totalBackups
                         && forall b :: b in e.backups ==> b in e'.backups
  {
    var k := e.scheduleId;
    var f := OfSchedule(rows, k);
    EntryIsSummary(rows, e);
    OfScheduleGrows(rows, rows', k);
    assert e.totalBackups == |f|;
    var x := f[0];
    OfScheduleWithin(rows, k);
    assert x in rows;
    assert x in multiset(rows);
    assert x in multiset(rows');
    assert x in rows';
    var e' := RollupOf(rows', x);
    assert e'.scheduleId == k;
    MoreRowsKeepBackups(rows, rows', e, e');
  }

  /** Fewer days fetch a sub-multiset of the rows more days fetch. */
  lemma NarrowerWindowFetchesFewer(log: seq<Row>, now: int, days: int, days': int)
    requires days <= days'
    ensures multiset(WindowRows(log, now, days)) <= multiset(WindowRows(log, now, days'))
  {
    var since, since' := WindowStart(now, days), WindowStart(now, days');
    WiderWindowStartsEarlier(now, days, days');
    assert multiset(WindowRows(log, now, days)) == multiset(InWindow(log, since));
    assert multiset(WindowRows(log, now, days')) == multiset(InWindow(log, since'));
    NarrowerWindowKeepsFewer(log, since', since);
  }

  /**
   * A narrower window (fewer days, same clock) aggregates a sub-multiset of
   * the rows a wider one aggregates, so every schedule it reports is also
   * reported by the wider window, with at least as many backups and every
   * run the narrower entry lists.
   */
  lemma NarrowerWindowReportsLess(log: seq<Row>, now: int, days: int, days': int, e: ScheduleStats)
    requires days <= days'
    requires e in GetBackupStatistics(log, now, Some(days))
    ensures exists e' :: e' in GetBackupStatistics(log, now, Some(days')) && e'.scheduleId == e.scheduleId
                         && e.totalBackups <= e'.totalBackups
                         && forall b :: b in e.backups ==> b in e'.backups
  {
    NarrowerWindowFetchesFewer(log, now, days, days');
    MoreRowsReportMore(WindowRows(log, now, days), WindowRows(log, now, days'), e);
  }

  // ---------------------------------------------------------------------------
  // getBackupHistory

  /** The `scheduleId ? eq(...) : undefined` test: an absent id and the id 0 both mean "every schedule". */
  predicate FiltersBy(scheduleId: Option<int>) {
    scheduleId.Some? && scheduleId.value != 0
  }

  predicate Selects(scheduleId: Option<int>, x: Row) {
    FiltersBy(scheduleId) ==> x.scheduleId == scheduleId.value
  }

  /** The rows the history query's `where` clause admits, in log order. */
  function Matching(log: seq<Row>, scheduleId: Option<int>): (m: seq<Row>)
    ensures forall i :: 0 <= i < |m| ==> Selects(scheduleId, m[i])
    ensures !FiltersBy(scheduleId) ==> m == log
  {
    if |log| == 0 then []
    else
      var last := log[|log| - 1];
      assert log == log[..|log| - 1] + [last];
      Matching(log[..|log| - 1], scheduleId) + (if Selects(scheduleId, last) then [last] else [])
  }

  /** The history query keeps, with multiplicity, exactly the log rows the filter selects. */
  lemma {:induction false} MatchingCounts(log: seq<Row>, scheduleId: Option<int>)
    ensures forall x :: multiset(Matching(log, scheduleId))[x] == if Selects(scheduleId, x) then multiset(log)[x] else 0
  {
    if |log| > 0 {
      assert log == log[..|log| - 1] + [log[|log| - 1]];
      MatchingCounts(log[..|log| - 1], scheduleId);
    }
  }

  /** SQL `LIMIT`: a negative limit puts no bound on the result. */
  function Limit(rows: seq<Row>, limit: int): (r: seq<Row>)
    ensures 0 <= limit ==> |r| == if limit < |rows| then limit else |rows|
    ensures limit < 0 ==> r == rows
    ensures r <= rows
  {
    if limit < 0 || |rows| <= limit then rows else rows[..limit]
  }

  /** `getBackupHistory(scheduleId?, limit = 50)`: filter, most recent first, then the limit. */
  function GetBackupHistory(log: seq<Row>, scheduleId: Option<int>, limit: Option<int>): seq<Row> {
    Limit(SortDesc(Matching(log, scheduleId)), limit.ValueOr(DefaultLimit))
  }

  /** In a most-recent-first list, nothing after position `k` started later than anything before it. */
  lemma TailIsOlder(s: seq<Row>, k: nat)
    requires Descending(s)
    requires k <= |s|
    ensures forall i, y :: 0 <= i < k && y in multiset(s[k..]) ==> y.startedAt <= s[i].startedAt
  {
    forall i, y | 0 <= i < k && y in multiset(s[k..])
      ensures y.startedAt <= s[i].startedAt
    {
      var idx :| 0 <= idx < |s[k..]| && s[k..][idx] == y;
      assert s[k + idx] == y;
    }
  }

  /** What a prefix leaves out is, as a multiset, the rest of the list. */
  lemma PrefixRemainder(s: seq<Row>, k: nat)
    requires k <= |s|
    ensures multiset(s[..k]) <= multiset(s)
    ensures multiset(s) - multiset(s[..k]) == multiset(s[k..])
  {
    assert s == s[..k] + s[k..];
    assert multiset(s) == multiset(s[..k]) + multiset(s[k..]);
  }

  /** Cutting a most-recent-first list keeps its most recent rows. */
  lemma LimitKeepsMostRecent(s: seq<Row>, limit: int)
    requires Descending(s)
    ensures var r := Limit(s, limit);
            && Descending(r)
            && multiset(r) <= multiset(s)
            && (forall i, y: Row :: 0 <= i < |r| && y in multiset(s) - multiset(r) ==> y.startedAt <= r[i].startedAt)
  {
    var r := Limit(s, limit);
    var k := |r|;
    assert r == s[..k];
    PrefixRemainder(s, k);
    TailIsOlder(s, k);
  }

  /** Sorting rows that all pass the filter gives rows that all pass it. */
  lemma SortKeepsSelection(m: seq<Row>, scheduleId: Option<int>)
    requires forall i :: 0 <= i < |m| ==> Selects(scheduleId, m[i])
    ensures forall i :: 0 <= i < |SortDesc(m)| ==> Selects(scheduleId, SortDesc(m)[i])
  {
    var s := SortDesc(m);
    forall i | 0 <= i < |s|
      ensures Selects(scheduleId, s[i])
    {
      assert s[i] in multiset(m);
      var idx :| 0 <= idx < |m| && m[idx] == s[i];
    }
  }

  /** Cutting the sorted matches `s` of `m`: what the history view promises, for any such `s`. */
  lemma LimitOfSorted(m: seq<Row>, s: seq<Row>, l: int, scheduleId: Option<int>)
    requires Descending(s)
    requires multiset(s) == multiset(m)
    requires forall i :: 0 <= i < |s| ==> Selects(scheduleId, s[i])
    ensures var r := Limit(s, l);
            var mm := multiset(m);
            && Descending(r)
            && (0 <= l ==> |r| == if l < |mm| then l else |mm|)
            && (l < 0 ==> |r| == |mm|)
            && (forall i :: 0 <= i < |r| ==> Selects(scheduleId, r[i]))
            && multiset(r) <= mm
            && (forall i, y :: 0 <= i < |r| && y in mm - multiset(r) ==> y.startedAt <= r[i].startedAt)
  {
    var r := Limit(s, l);
    assert |multiset(m)| == |s| by {
      assert |multiset(s)| == |s|;
    }
    LimitKeepsMostRecent(s, l);
    assert r <= s;
  }

  /**
   * The history view is most recent first, no longer than the limit (all
   * matching rows when the limit is negative), only holds rows of the
   * requested schedule (any schedule for an absent or zero id), takes its
   * rows from the log, and keeps the most recent ones: nothing it leaves out
   * started later than anything it shows.
   */
  lemma HistoryIsMostRecentMatching(log: seq<Row>, scheduleId: Option<int>, limit: Option<int>)
    ensures var r := GetBackupHistory(log, scheduleId, limit);
            var m := multiset(Matching(log, scheduleId));
            var l := limit.ValueOr(DefaultLimit);
            && Descending(r)
            && (0 <= l ==> |r| == if l < |m| then l else |m|)
            && (l < 0 ==> |r| == |m|)
            && (forall i :: 0 <= i < |r| ==> Selects(scheduleId, r[i]))
            && multiset(r) <= m
            && (forall i, y :: 0 <= i < |r| && y in m - multiset(r) ==> y.startedAt <= r[i].startedAt)
  {
    var m := Matching(log, scheduleId);
    SortKeepsSelection(m, scheduleId);
    LimitOfSorted(m, SortDesc(m), limit.ValueOr(DefaultLimit), scheduleId);
  }
}
