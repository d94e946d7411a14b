/**
 The three time columns printed for a rebuilt event tree (clients/traceinfo.c,
 print_event and the loop of trace_reporter_trace_end).
 */
module TraceTimes {
  import opened TraceInfo

  datatype Row = Row(total: int, withChildren: int, self: int, message: string)

  /** Time of the last tree of a sibling list: what childprev points at. */
  function EndTime(forest: Forest, prev: int): int {
    if forest == [] then prev else Last(forest).event.time
  }

  function TreeRows(t: Tree, prev: int, first: int): seq<Row>
    decreases t, 1
  {
    ForestRows(t.children, prev, first) + [TreeRow(t, prev, first)]
  }

  function TreeRow(t: Tree, prev: int, first: int): Row {
    Row(t.event.time - first, t.event.time - prev, t.event.time - EndTime(t.children, prev), t.event.message)
  }

  function ForestRows(forest: Forest, prev: int, first: int): seq<Row>
    decreases forest, 0
  {
    if forest == [] then []
    else ForestRows(Front(forest), prev, first) + TreeRows(Last(forest), EndTime(Front(forest), prev), first)
  }

  /** Number of events of each subtree, in printed order. */
  function Sizes(forest: Forest): seq<nat> {
    if forest == [] then []
    else Sizes(Front(forest)) + (Sizes(Last(forest).children) + [|PostOrder(Last(forest).children)| + 1])
  }

  function SumSelf(rows: seq<Row>): int {
    if rows == [] then 0 else SumSelf(Front(rows)) + Last(rows).self
  }

  /** The time logged just before entry i. */
  function TimeBefore(log: seq<Event>, i: nat, prev: int): int
    requires i <= |log|
  {
    if i == 0 then prev else log[i - 1].time
  }

  /** Rows report a log: one row per event in log order, each self time measured
      from the event logged just before, and each time with children measured from
      the event logged just before the subtree. */
  predicate Reports(rows: seq<Row>, log: seq<Event>, sizes: seq<nat>, prev: int, first: int) {
    && |rows| == |log| == |sizes|
    && forall i | 0 <= i < |rows| :: RowReports(rows[i], log, i, sizes[i], prev, first)
  }

  predicate RowReports(row: Row, log: seq<Event>, i: nat, size: nat, prev: int, first: int)
    requires i < |log|
  {
    && row.message == log[i].message
    && row.total == log[i].time - first
    && row.self == log[i].time - TimeBefore(log, i, prev)
    && 1 <= size <= i + 1
    && row.withChildren == log[i].time - TimeBefore(log, i + 1 - size, prev)
  }

  lemma {:induction false} EndTimeIsLogged(forest: Forest, prev: int)
    ensures EndTime(forest, prev) == TimeBefore(PostOrder(forest), |PostOrder(forest)|, prev)
  {
  }

  lemma RowReportsInPrefix(row: Row, log: seq<Event>, more: seq<Event>, i: nat, size: nat, prev: int, first: int)
    requires i < |log| && RowReports(row, log, i, size, prev, first)
    ensures RowReports(row, log + more, i, size, prev, first)
  {
  }

  lemma RowReportsInSuffix(row: Row, log: seq<Event>, before: seq<Event>, i: nat, size: nat, prev: int, first: int)
    requires i < |log| && RowReports(row, log, i, size, TimeBefore(before, |before|, prev), first)
    ensures RowReports(row, before + log, |before| + i, size, prev, first)
  {
    assert forall j | 0 <= j < |log| :: (before + log)[|before| + j] == log[j];
  }

  lemma ReportsAppend(r1: seq<Row>, l1: seq<Event>, s1: seq<nat>, r2: seq<Row>, l2: seq<Event>, s2: seq<nat>,
                      prev: int, first: int)
    requires Reports(r1, l1, s1, prev, first)
    requires Reports(r2, l2, s2, TimeBefore(l1, |l1|, prev), first)
    ensures Reports(r1 + r2, l1 + l2, s1 + s2, prev, first)
  {
    forall i | 0 <= i < |r1 + r2|
      ensures RowReports((r1 + r2)[i], l1 + l2, i, (s1 + s2)[i], prev, first)
    {
      if i < |r1| {
        RowReportsInPrefix(r1[i], l1, l2, i, s1[i], prev, first);
      } else {
        RowReportsInSuffix(r2[i - |r1|], l2, l1, i - |r1|, s2[i - |r1|], prev, first);
      }
    }
  }

  /** Main result: the printed rows are the log in arrival order, with the times
      of the nearest earlier entries. */
  lemma {:induction false} RowsReportLog(forest: Forest, prev: int, first: int)
    ensures Reports(ForestRows(forest, prev, first), PostOrder(forest), Sizes(forest), prev, first)
    decreases forest
  {
    if forest != [] {
      var front, t := Front(forest), Last(forest);
      var prev1 := EndTime(front, prev);
      EndTimeIsLogged(front, prev);
      RowsReportLog(front, prev, first);
      TreeRowsReport(t, prev1, first);
      ReportsAppend(ForestRows(front, prev, first), PostOrder(front), Sizes(front),
        TreeRows(t, prev1, first), PostOrder(t.children) + [t.event], Sizes(t.children) + [|PostOrder(t.children)| + 1],
        prev, first);
    }
  }

  lemma {:induction false} TreeRowsReport(t: Tree, prev: int, first: int)
    ensures Reports(TreeRows(t, prev, first), PostOrder(t.children) + [t.event],
                    Sizes(t.children) + [|PostOrder(t.children)| + 1], prev, first)
    decreases t
  {
    var log, sizes := PostOrder(t.children), Sizes(t.children);
    var row, size := TreeRow(t, prev, first), |log| + 1;
    RowsReportLog(t.children, prev, first);
    EndTimeIsLogged(t.children, prev);
    forall i | 0 <= i < |log| + 1
      ensures RowReports((ForestRows(t.children, prev, first) + [row])[i],
                log + [t.event], i, (sizes + [size])[i], prev, first)
    {
      if i < |log| {
        RowReportsInPrefix(ForestRows(t.children, prev, first)[i], log, [t.event], i, sizes[i], prev, first);
      }
    }
  }

  /** Self times telescope over any stretch of rows. */
  lemma {:induction false} SelfTimesTelescope(rows: seq<Row>, log: seq<Event>, sizes: seq<nat>,
                                prev: int, first: int, i: nat, j: nat)
    requires Reports(rows, log, sizes, prev, first)
    requires i <= j <= |rows|
    ensures SumSelf(rows[i..j]) == TimeBefore(log, j, prev) - TimeBefore(log, i, prev)
  {
    if i < j {
      SelfTimesTelescope(rows, log, sizes, prev, first, i, j - 1);
      assert Front(rows[i..j]) == rows[i..j - 1] && Last(rows[i..j]) == rows[j - 1];
      assert RowReports(rows[j - 1], log, j - 1, sizes[j - 1], prev, first);
    }
  }

  /** Conservation: a time with children is the sum of the self times of the rows
      of that subtree, and a total is the sum of the self times up to that row. */
  lemma TimesAreConserved(forest: Forest, first: int, i: nat)
    requires i < |PostOrder(forest)|
    ensures
      var rows, sizes := ForestRows(forest, first, first), Sizes(forest);
      && |rows| == |sizes| == |PostOrder(forest)| && 1 <= sizes[i] <= i + 1
      && rows[i].withChildren == SumSelf(rows[i + 1 - sizes[i]..i + 1])
      && rows[i].total == SumSelf(rows[..i + 1])
  {
    var rows, log, sizes := ForestRows(forest, first, first), PostOrder(forest), Sizes(forest);
    RowsReportLog(forest, first, first);
    SelfTimesTelescope(rows, log, sizes, first, first, i + 1 - sizes[i], i + 1);
    SelfTimesTelescope(rows, log, sizes, first, first, 0, i + 1);
    assert rows[0..i + 1] == rows[..i + 1];
  }
}
