/**
 * The pure parts of the statistics page: duration formatting, status badge
 * labels, the "total backups" card and the recent-history list.
 */
module StatisticsPage {
  import opened Wrappers
  import opened Decimal
  import opened HistoryLog
  import opened Statistics

  // ---------------------------------------------------------------------------
  // formatDuration

  /** The two numbers a formatted duration shows, and which units they carry. */
  datatype Reading = Hours(hours: nat, minutes: nat) | Minutes(minutes: nat, seconds: nat) | Seconds(seconds: nat)

  /**
   * `d` is the truncated reading of `ms` milliseconds in the unit the page
   * picks: hours and minutes from one hour on, minutes and seconds from one
   * minute on, seconds below that. Lower units are always below 60.
   */
  ghost predicate Accurate(ms: nat, d: Reading) {
    match d
    case Hours(h, m) =>
      3600000 <= ms && m < 60 && h * 3600000 + m * 60000 <= ms < h * 3600000 + (m + 1) * 60000
    case Minutes(m, s) =>
      60000 <= ms < 3600000 && s < 60 && m * 60000 + s * 1000 <= ms < m * 60000 + (s + 1) * 1000
    case Seconds(s) =>
      ms < 60000 && s * 1000 <= ms < (s + 1) * 1000
  }

  /** The units `formatDuration` computes with floor divisions. */
  function Split(ms: nat): (d: Reading)
    ensures Accurate(ms, d)
  {
    var seconds := ms / 1000;
    var minutes := seconds / 60;
    var hours := minutes / 60;
    if hours > 0 then Hours(hours, minutes % 60)
    else if minutes > 0 then Minutes(minutes, seconds % 60)
    else Seconds(seconds)
  }

  /** Two numbers with their unit letters, as in "2u 5m": `x`, `u1`, a space, `y`, `u2`. */
  function TwoUnits(x: nat, u1: char, y: nat, u2: char): string {
    Show(x) + ([u1, ' '] + (Show(y) + [u2]))
  }

  /** The Dutch display: "2u 5m", "3m 7s", "42s". */
  function Render(d: Reading): string {
    match d
    case Hours(h, m) => TwoUnits(h, 'u', m, 'm')
    case Minutes(m, s) => TwoUnits(m, 'm', s, 's')
    case Seconds(s) => Show(s) + "s"
  }

  function FormatDuration(ms: nat): string {
    Render(Split(ms))
  }

  /** Reads a displayed duration back into its numbers and units. */
  function Read(text: string): Option<Reading> {
    match ReadNumber(text)
    case None => None
    case Some(Scan(x, rest)) =>
      if |rest| == 1 && rest[0] == 's' then Some(Seconds(x))
      else if |rest| < 2 || rest[1] != ' ' then None
      else
        match ReadNumber(rest[2..])
        case None => None
        case Some(Scan(y, unit)) =>
          if |unit| != 1 then None
          else if rest[0] == 'u' && unit[0] == 'm' then Some(Hours(x, y))
          else if rest[0] == 'm' && unit[0] == 's' then Some(Minutes(x, y))
          else None
  }

  /** A two-part display `x` + `u1` + " " + `y` + `u2` reads back as its two numbers. */
  lemma ReadTwoParts(x: nat, u1: char, y: nat, u2: char)
    requires u1 == 'u' || u1 == 'm'
    requires u2 == 'm' || u2 == 's'
    ensures Read(TwoUnits(x, u1, y, u2))
            == if u1 == 'u' && u2 == 'm' then Some(Hours(x, y))
               else if u1 == 'm' && u2 == 's' then Some(Minutes(x, y))
               else None
  {
    var tail := Show(y) + [u2];
    var rest := [u1, ' '] + tail;
    assert rest[2..] == tail;
    ReadShow(x, rest);
    ReadShow(y, [u2]);
  }

  /** Every display is unambiguous: reading it gives back what was rendered. */
  lemma ReadRender(d: Reading)
    ensures Read(Render(d)) == Some(d)
  {
    match d
    case Hours(h, m) =>
      ReadTwoParts(h, 'u', m, 'm');
    case Minutes(m, s) =>
      ReadTwoParts(m, 'm', s, 's');
    case Seconds(s) =>
      ReadShow(s, "s");
  }

  /** What the page shows for `ms` reads back as the truncated duration in the right units. */
  lemma FormatDurationReadsBack(ms: nat)
    ensures var d := Read(FormatDuration(ms)); d.Some? && Accurate(ms, d.value)
  {
    ReadRender(Split(ms));
  }

  /** The three display forms, in terms of `ms` alone. */
  lemma FormatDurationCases(ms: nat)
    ensures ms < 60000 ==> FormatDuration(ms) == Show(ms / 1000) + "s"
    ensures 60000 <= ms < 3600000 ==>
              FormatDuration(ms) == Show(ms / 60000) + "m " + Show(ms / 1000 % 60) + "s"
    ensures 3600000 <= ms ==>
              FormatDuration(ms) == Show(ms / 3600000) + "u " + Show(ms / 60000 % 60) + "m"
  {
    var seconds := ms / 1000;
    var minutes := seconds / 60;
    assert minutes == ms / 60000;
    assert minutes / 60 == ms / 3600000;
  }

  // ---------------------------------------------------------------------------
  // getStatusBadge

  /** The badge text for a run's status: the three known outcomes in Dutch, anything else verbatim. */
  function StatusLabel(status: string): (badge: string)
    ensures KnownStatus(status) <==> badge != status
    ensures badge == status || badge in {"Succes", "Waarschuwing", "Fout"}
    ensures status == StatusSuccess ==> badge == "Succes"
    ensures status == StatusWarning ==> badge == "Waarschuwing"
    ensures status == StatusError ==> badge == "Fout"
  {
    if status == StatusSuccess then "Succes"
    else if status == StatusWarning then "Waarschuwing"
    else if status == StatusError then "Fout"
    else status
  }

  /** The three known outcomes get three different badges. */
  lemma KnownLabelsDiffer(a: string, b: string)
    requires KnownStatus(a) && KnownStatus(b)
    ensures StatusLabel(a) == StatusLabel(b) <==> a == b
  {
  }

  // ---------------------------------------------------------------------------
  // The "total backups" card and the recent-history list

  /** `statsData.reduce((sum, stat) => sum + stat.totalBackups, 0)`. */
  function TotalBackupsCard(stats: seq<ScheduleStats>): nat {
    if |stats| == 0 then 0 else TotalBackupsCard(stats[..|stats| - 1]) + stats[|stats| - 1].totalBackups
  }

  const RecentCount: nat := 10

  /** `historyData.slice(0, 10)`. */
  function RecentBackups(history: seq<Row>): (shown: seq<Row>)
    ensures |shown| == if |history| < RecentCount then |history| else RecentCount
    ensures shown <= history
  {
    if |history| <= RecentCount then history else history[..RecentCount]
  }

  lemma {:induction false} CardAfterUpdate(g: seq<ScheduleStats>, j: nat, x: ScheduleStats)
    requires j < |g|
    ensures TotalBackupsCard(g[j := x]) + g[j].totalBackups == TotalBackupsCard(g) + x.totalBackups
    decreases |g|
  {
    var n := |g|;
    var g' := g[j := x];
    assert g'[..n - 1] == if j < n - 1 then g[..n - 1][j := x] else g[..n - 1];
    if j < n - 1 {
      CardAfterUpdate(g[..n - 1], j, x);
    }
  }

  lemma {:induction false} CardOfGroup(rows: seq<Row>)
    ensures TotalBackupsCard(Group(rows)) == |rows|
  {
    if |rows| > 0 {
      var init := rows[..|rows| - 1];
      var last := rows[|rows| - 1];
      CardOfGroup(init);
      var g := Group(init);
      match Find(g, last.scheduleId)
      case Some(j) =>
        CardAfterUpdate(g, j, Add(g[j], last));
      case None =>
        var g' := g + [Add(Fresh(last), last)];
        assert g'[..|g'| - 1] == g;
    }
  }

  lemma {:induction false} CardOfFinalized(g: seq<ScheduleStats>)
    ensures TotalBackupsCard(FinalizeAll(g)) == TotalBackupsCard(g)
  {
    if |g| > 0 {
      var out := FinalizeAll(g);
      assert out[..|out| - 1] == FinalizeAll(g[..|g| - 1]);
      CardOfFinalized(g[..|g| - 1]);
    }
  }

  /** The "total backups" card counts every log row inside the window exactly once. */
  lemma TotalBackupsCountsWindow(log: seq<Row>, now: int, days: Option<int>)
    ensures TotalBackupsCard(GetBackupStatistics(log, now, days))
            == |InWindow(log, WindowStart(now, days.ValueOr(DefaultDays)))|
  {
    var rows := WindowRows(log, now, days.ValueOr(DefaultDays));
    CardOfGroup(rows);
    CardOfFinalized(Group(rows));
    assert |multiset(rows)| == |rows|;
  }

  /**
   * The page asks the server for ten history rows, so the slice to ten never
   * cuts anything: the list shows the ten most recent runs over all schedules.
   */
  lemma RecentListIsServerOrder(log: seq<Row>)
    ensures RecentBackups(GetBackupHistory(log, None, Some(RecentCount as int)))
            == GetBackupHistory(log, None, Some(RecentCount as int))
  {
  }
}
