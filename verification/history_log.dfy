/**
 * The backup history log: one immutable row per completed backup run, and the
 * two reads the statistics service makes of it (a time-window filter and the
 * `ORDER BY startedAt DESC` of the query), written as pure sequence transforms.
 */
module HistoryLog {
  import opened Wrappers

  /**
   * One history row as the query returns it, with the owning schedule's name
   * already joined in. Times are milliseconds since the epoch.
   */
  datatype Row = Row(
    id: int,
    scheduleId: int,
    scheduleName: string,
    snapshotId: string,
    startedAt: int,
    completedAt: int,
    duration: int,
    totalBytes: int,
    totalFiles: int,
    filesNew: int,
    filesChanged: int,
    filesUnmodified: int,
    dirsNew: int,
    dirsChanged: int,
    dirsUnmodified: int,
    dataBlobs: int,
    treeBlobs: int,
    dataAdded: int,
    status: string,
    error: Option<string>)

  const StatusSuccess: string := "success"
  const StatusWarning: string := "warning"
  const StatusError: string := "error"

  /** The three outcomes the response schema allows; the log may hold others. */
  predicate KnownStatus(status: string) {
    status == StatusSuccess || status == StatusWarning || status == StatusError
  }

  /** Milliseconds in a day, written as `getBackupStatistics` multiplies it out. */
  const DayMillis: int := 24 * 60 * 60 * 1000

  /** Earliest `startedAt` that a window of `days` days ending at `now` keeps. */
  function WindowStart(now: int, days: int): int {
    now - days * DayMillis
  }

  /** More days reach further back: the window's start never moves later. */
  lemma WiderWindowStartsEarlier(now: int, days: int, days': int)
    requires days <= days'
    ensures WindowStart(now, days') <= WindowStart(now, days)
  {
  }

  /** Most recent first: no row starts later than a row before it. */
  predicate Descending(rows: seq<Row>) {
    forall i, j :: 0 <= i < j < |rows| ==> rows[j].startedAt <= rows[i].startedAt
  }

  /** The rows that started at or after `since` (the `gte` of the query), in log order. */
  function InWindow(log: seq<Row>, since: int): (w: seq<Row>)
    ensures forall x :: multiset(w)[x] == if since <= x.startedAt then multiset(log)[x] else 0
    ensures forall i :: 0 <= i < |w| ==> since <= w[i].startedAt
  {
    if |log| == 0 then []
    else
      var last := log[|log| - 1];
      assert log == log[..|log| - 1] + [last];
      InWindow(log[..|log| - 1], since) + (if since <= last.startedAt then [last] else [])
  }

  /** A later window start keeps a sub-multiset of the rows an earlier start keeps. */
  lemma {:induction false} NarrowerWindowKeepsFewer(log: seq<Row>, since: int, since': int)
    requires since <= since'
    ensures multiset(InWindow(log, since')) <= multiset(InWindow(log, since))
  {
    var a := multiset(InWindow(log, since'));
    var b := multiset(InWindow(log, since));
    forall x
      ensures a[x] <= b[x]
    {
    }
  }

  /**
   * Puts `x` in front of the first row that started no later than it, so rows
   * with equal `startedAt` keep their log order.
   */
  function Insert(x: Row, s: seq<Row>): (r: seq<Row>)
    requires Descending(s)
    ensures Descending(r)
    ensures multiset(r) == multiset(s) + multiset{x}
    ensures |r| == |s| + 1
    ensures r[0] == x || (0 < |s| && r[0] == s[0])
    decreases |s|
  {
    if |s| == 0 || s[0].startedAt <= x.startedAt then
      [x] + s
    else
      var tail := Insert(x, s[1..]);
      assert s == [s[0]] + s[1..];
      DescendingCons(s[0], tail);
      [s[0]] + tail
  }

  /** A row no earlier than the head of a most-recent-first list can go in front of it. */
  lemma DescendingCons(h: Row, t: seq<Row>)
    requires Descending(t)
    requires 0 < |t| ==> t[0].startedAt <= h.startedAt
    ensures Descending([h] + t)
  {
    var r := [h] + t;
    forall i, j | 0 <= i < j < |r|
      ensures r[j].startedAt <= r[i].startedAt
    {
      if i == 0 {
        assert r[j] == t[j - 1];
      } else {
        assert r[i] == t[i - 1] && r[j] == t[j - 1];
      }
    }
  }

  /** The query's `ORDER BY startedAt DESC`: a stable descending sort by start time. */
  function SortDesc(s: seq<Row>): (r: seq<Row>)
    ensures Descending(r)
    ensures multiset(r) == multiset(s)
    ensures |r| == |s|
  {
    if |s| == 0 then []
    else
      assert s == [s[0]] + s[1..];
      Insert(s[0], SortDesc(s[1..]))
  }
}
