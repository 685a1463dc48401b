/**
 * The parts of the dashboard's view (harnas-monitor/src/ui.rs) that decide what is
 * shown, as opposed to how it is drawn: the view state, the task table's selection and
 * scroll offset, the "waiting on" column, the details pane's task, `truncate` and
 * `summarize_map`.
 */
module Ui {

  import opened Prelude
  import opened Text
  import opened SortedCounts
  import opened Tasks

  datatype Modal = Help

  /** A snapshot of the view state's three fields. */
  datatype View = View(selectedIdx: nat, detailsScroll: U16, modal: Option<Modal>)

  /** `ViewState`: the selected row, the details pane's scroll position and the open modal. */
  class ViewState {
    var selectedIdx: nat
    var detailsScroll: U16
    var modal: Option<Modal>

    /** The state the dashboard starts in: first row, no scroll, no modal. */
    constructor ()
      ensures selectedIdx == 0 && detailsScroll == 0 && modal == None
    {
      selectedIdx := 0;
      detailsScroll := 0;
      modal := None;
    }

    function Snapshot(): View
      reads this
    {
      View(selectedIdx, detailsScroll, modal)
    }
  }

  // ---------------------------------------------------------------------------
  // The task table: selection and scroll offset

  /** `usize::saturating_sub`. */
  function SaturatingSub(a: nat, b: nat): (r: nat)
    ensures r + b >= a && r <= a
    ensures b <= a ==> r + b == a
    ensures a < b ==> r == 0
  {
    if a >= b then a - b else 0
  }

  /** `min(selected, len - 1)` on a non-empty list: always a valid index, and the selection itself when that is one. */
  function ClampSelection(selected: nat, len: nat): (r: nat)
    requires len > 0
    ensures r < len
    ensures selected < len ==> r == selected
    ensures selected >= len ==> r == len - 1
  {
    if selected < len - 1 then selected else len - 1
  }

  /** The rows a table of the given height shows: the height less two border rows and the header row, never below zero. */
  function ViewportRows(height: nat): (r: nat)
    ensures height >= 3 ==> r + 3 == height
    ensures height < 3 ==> r == 0
  {
    SaturatingSub(SaturatingSub(height, 2), 1)
  }

  /**
   * `compute_table_offset`: the first row shown. No scrolling when everything fits;
   * otherwise the selected row is kept in view, at the middle of the viewport when
   * the list has enough rows above and below it, and the viewport never runs past the
   * last row.
   */
  function ComputeTableOffset(selected: nat, rows: nat, viewportRows: nat): (offset: nat)
    ensures viewportRows == 0 || rows <= viewportRows ==> offset == 0
    ensures rows > viewportRows ==> offset + viewportRows <= rows
    ensures viewportRows > 0 && selected < rows ==> offset <= selected < offset + viewportRows
    ensures viewportRows > 0 && viewportRows / 2 <= selected && selected + (viewportRows - viewportRows / 2) <= rows ==>
      selected - offset == viewportRows / 2
  {
    if viewportRows == 0 || rows <= viewportRows then 0
    else
      var mid := viewportRows / 2;
      var desired := SaturatingSub(selected, mid);
      var maxOffset := rows - viewportRows;
      if desired < maxOffset then desired else maxOffset
  }

  /** The table widget's state: the highlighted row, if any, and the first row shown. */
  datatype TableView = TableView(selected: Option<nat>, offset: nat)

  /**
   * The table state `draw_task_table` builds: nothing is highlighted in an empty table;
   * otherwise the clamped selection is highlighted and stays within the rows shown.
   */
  function TableSelection(selectedIdx: nat, rowCount: nat, height: nat): (tv: TableView)
    ensures tv.selected.Some? <==> rowCount > 0
    ensures rowCount == 0 ==> tv.offset == 0
    ensures tv.selected.Some? ==> tv.selected.value < rowCount
    ensures tv.selected.Some? && selectedIdx < rowCount ==> tv.selected.value == selectedIdx
    ensures tv.selected.Some? && ViewportRows(height) > 0 ==>
      tv.offset <= tv.selected.value < tv.offset + ViewportRows(height)
  {
    if rowCount == 0 then TableView(None, 0)
    else
      var sel := ClampSelection(selectedIdx, rowCount);
      TableView(Some(sel), ComputeTableOffset(sel, rowCount, ViewportRows(height)))
  }

  // ---------------------------------------------------------------------------
  // The task table's columns

  /** The "waiting on" filter: a dependency waits when it has a recorded status that is not "done". */
  predicate Waits(dep: string, statusById: map<string, string>) {
    dep in statusById && statusById[dep] != "done"
  }

  /** The number of a task's dependencies that wait. */
  function WaitingOn(deps: seq<string>, statusById: map<string, string>): (n: nat)
    ensures n <= |deps|
    decreases |deps|
  {
    if deps == [] then 0
    else WaitingOn(deps[..|deps| - 1], statusById) + (if Waits(deps[|deps| - 1], statusById) then 1 else 0)
  }

  /** The positions of the dependencies that wait. */
  function WaitingPositions(deps: seq<string>, statusById: map<string, string>): set<nat> {
    set k: nat | k < |deps| && Waits(deps[k], statusById)
  }

  /** The count is the number of positions whose dependency waits. */
  lemma {:induction false} WaitingOnCounts(deps: seq<string>, statusById: map<string, string>)
    ensures WaitingOn(deps, statusById) == |WaitingPositions(deps, statusById)|
    decreases |deps|
  {
    if deps != [] {
      var n := |deps| - 1;
      var prefix := deps[..n];
      WaitingOnCounts(prefix, statusById);
      var before := WaitingPositions(prefix, statusById);
      var after := WaitingPositions(deps, statusById);
      assert n !in before;
      if Waits(deps[n], statusById) {
        assert after == before + {n};
      } else {
        assert after == before;
      }
    }
  }

  /** Nothing waits exactly when no dependency has a recorded status other than "done". */
  lemma {:induction false} WaitingOnZero(deps: seq<string>, statusById: map<string, string>)
    ensures WaitingOn(deps, statusById) == 0 <==> forall k :: 0 <= k < |deps| ==> !Waits(deps[k], statusById)
    decreases |deps|
  {
    if deps != [] {
      var prefix := deps[..|deps| - 1];
      WaitingOnZero(prefix, statusById);
      assert forall k :: 0 <= k < |prefix| ==> prefix[k] == deps[k];
    }
  }

  /** Over the table's own `status_by_id`, a dependency that names no task never waits. */
  lemma MissingDepNeverWaits(ts: seq<Task>, dep: string)
    requires forall i :: 0 <= i < |ts| ==> ts[i].id != dep
    ensures !Waits(dep, StatusMap(ts))
  {
    StatusMapKeys(ts);
  }

  /**
   * The table and the statistics agree: a task is counted as blocked exactly when it is
   * not done and its "waiting on" count is positive.
   */
  lemma BlockedIffWaiting(ts: seq<Task>, t: Task)
    ensures Blocked(t, Ids(ts), StatusMap(ts)) <==> StatusOf(t) != "done" && WaitingOn(t.dependsOn, StatusMap(ts)) > 0
  {
    StatusMapKeys(ts);
    WaitingOnZero(t.dependsOn, StatusMap(ts));
    var sb := StatusMap(ts);
    assert forall k :: 0 <= k < |t.dependsOn| ==> (DepBlocks(t.dependsOn[k], Ids(ts), sb) <==> Waits(t.dependsOn[k], sb));
  }

  /** The "Wait" cell: "-" for a task without dependencies, otherwise the waiting count in decimal. */
  function WaitingCell(deps: seq<string>, statusById: map<string, string>): (cell: string)
    ensures cell == "-" <==> deps == []
    ensures deps != [] ==> AllDigits(cell) && ParseDecimal(cell) == WaitingOn(deps, statusById)
  {
    if deps == [] then "-"
    else
      var w := WaitingOn(deps, statusById);
      ParseNatToString(w);
      if w == 0 then "0" else NatToString(w)
  }

  /** With dependencies, the cell is exactly the decimal rendering of the count: no sign, no leading zero. */
  lemma WaitingCellIsDecimal(deps: seq<string>, statusById: map<string, string>)
    requires deps != []
    ensures WaitingCell(deps, statusById) == NatToString(WaitingOn(deps, statusById))
    ensures |WaitingCell(deps, statusById)| > 1 ==> WaitingCell(deps, statusById)[0] != '0'
  {
    if WaitingOn(deps, statusById) == 0 {
      assert NatToString(0) == "0";
    }
  }

  /** The table's priority and component cells: lower-cased, or "unknown" when absent; not trimmed. */
  function TableLabel(o: Option<string>): (cell: string)
    ensures o.None? ==> cell == "unknown"
    ensures o.Some? ==> |cell| == |o.value| && forall i :: 0 <= i < |cell| ==> !IsUpper(cell[i])
  {
    match o
    case Some(p) => ToLower(p)
    case None => "unknown"
  }

  /** A present label is shown character for character, each ASCII capital lower-cased and every other character kept. */
  lemma TableLabelLowercases(o: Option<string>)
    requires o.Some?
    ensures |TableLabel(o)| == |o.value|
    ensures forall i :: 0 <= i < |o.value| ==> TableLabel(o)[i] == LowerChar(o.value[i])
    ensures forall i :: 0 <= i < |o.value| ==> (IsUpper(o.value[i]) ==> TableLabel(o)[i] as int == o.value[i] as int + 32)
  {
  }

  /**
   * The table shows the key the statistics count a label under exactly when the label is
   * absent, or non-blank and without surrounding whitespace: an empty label shows as
   * empty, and surrounding whitespace survives the lower-casing but not the trim.
   */
  lemma TableLabelMatchesStats(o: Option<string>)
    ensures TableLabel(o) == LabelOrUnknown(o) <==> o.None? || (o.value != [] && Trimmed(o.value))
  {
    if o.Some? {
      var p := o.value;
      if p != [] && Trimmed(p) {
        TrimOfTrimmed(p);
      } else if p == [] {
        assert TableLabel(o) == [];
      } else {
        var l := TableLabel(o);
        assert IsWhitespace(l[0]) || IsWhitespace(l[|l| - 1]);
        assert !Trimmed(l);
      }
    }
  }

  /** The cells of one table row that come from the task itself (the title cell is left out). */
  datatype Row = Row(id: string, status: string, waiting: string, priority: string, component: string)

  /** The cells of the row of task `t`, given the status of every task by id. */
  function RowOf(t: Task, statusById: map<string, string>): Row {
    Row(t.id, StatusOf(t), WaitingCell(t.dependsOn, statusById), TableLabel(t.priority), TableLabel(t.component))
  }

  /** `f` applied to each element, built from the front: what a loop pushing `f(x)` for each `x` produces. */
  function MapSeq<A, B>(f: A -> B, xs: seq<A>): seq<B>
    decreases |xs|
  {
    if xs == [] then [] else MapSeq(f, xs[..|xs| - 1]) + [f(xs[|xs| - 1])]
  }

  lemma {:induction false} MapSeqAt<A, B>(f: A -> B, xs: seq<A>)
    ensures |MapSeq(f, xs)| == |xs|
    ensures forall i :: 0 <= i < |xs| ==> MapSeq(f, xs)[i] == f(xs[i])
    decreases |xs|
  {
    if xs != [] {
      var prefix := xs[..|xs| - 1];
      MapSeqAt(f, prefix);
      forall i | 0 <= i < |xs| - 1 ensures xs[i] == prefix[i] { }
    }
  }

  /**
   * The row loop of `draw_task_table`: `status_by_id` is filled first, then one row per
   * task, in task order, each with its cells computed against the status of all tasks.
   */
  method TableRows(tasks: seq<Task>) returns (rows: seq<Row>)
    ensures |rows| == |tasks|
    ensures forall i :: 0 <= i < |tasks| ==> rows[i] == RowOf(tasks[i], StatusMap(tasks))
  {
    var statusById := BuildStatusById(tasks);
    var rowOf := t => RowOf(t, statusById);
    rows := [];
    var i := 0;
    assert tasks[..i] == [];
    while i < |tasks|
      invariant 0 <= i <= |tasks|
      invariant rows == MapSeq(rowOf, tasks[..i])
    {
      rows := rows + [rowOf(tasks[i])];
      assert rows == MapSeq(rowOf, tasks[..i + 1]) by {
        assert tasks[..i + 1][..i] == tasks[..i];
      }
      i := i + 1;
    }
    assert |rows| == |tasks| && forall k :: 0 <= k < |tasks| ==> rows[k] == rowOf(tasks[k]) by {
      assert tasks[..i] == tasks;
      MapSeqAt(rowOf, tasks);
    }
  }

  // ---------------------------------------------------------------------------
  // The details pane

  /** What the details pane shows: a placeholder before the first load or for an empty list, otherwise one task. */
  datatype Details = NoData | NoTasks | TaskDetails(index: nat, task: Task)

  function DetailsPane(selectedIdx: nat, loaded: Option<LoadedTasks>): (d: Details)
    ensures d.NoData? <==> loaded.None?
    ensures d.NoTasks? <==> loaded.Some? && loaded.value.tasks.tasks == []
    ensures d.TaskDetails? ==>
      var ts := loaded.value.tasks.tasks;
      && d.index < |ts| && d.task == ts[d.index]
      && (selectedIdx < |ts| ==> d.index == selectedIdx)
      && (selectedIdx >= |ts| ==> d.index == |ts| - 1)
  {
    match loaded
    case None => NoData
    case Some(l) =>
      var ts := l.tasks.tasks;
      if ts == [] then NoTasks
      else
        var idx := ClampSelection(selectedIdx, |ts|);
        TaskDetails(idx, ts[idx])
  }

  /** The details pane always shows the task the table highlights. */
  lemma DetailsFollowTable(selectedIdx: nat, l: LoadedTasks, height: nat)
    requires l.tasks.tasks != []
    ensures DetailsPane(selectedIdx, Some(l)).TaskDetails?
    ensures TableSelection(selectedIdx, |l.tasks.tasks|, height).selected == Some(DetailsPane(selectedIdx, Some(l)).index)
  {
  }

  // ---------------------------------------------------------------------------
  // truncate and summarize_map

  const ELLIPSIS: char := '…'

  /**
   * `truncate`: a string of at most `max` characters is kept; a longer one is cut to
   * its first `max - 1` characters followed by an ellipsis, so that it is `max`
   * characters long; a budget of zero gives the empty string.
   */
  method Truncate(s: string, max: nat) returns (out: string)
    ensures |out| <= max
    ensures |out| == if |s| <= max then |s| else max
    ensures |s| <= max ==> out == s
    ensures 0 < max < |s| ==> out == s[..max - 1] + [ELLIPSIS]
  {
    if max == 0 {
      return "";
    }
    if |s| <= max {
      return s;
    }
    out := "";
    var i := 0;
    while i < |s|
      invariant 0 <= i < max
      invariant out == s[..i]
    {
      if i + 1 >= max {
        break;
      }
      out := out + [s[i]];
      i := i + 1;
    }
    out := out + [ELLIPSIS];
  }

  /** One part of a map summary: `format!("{k}:{v}")`. */
  function EntryText(e: Entry): string {
    e.key + ":" + NatToString(e.count)
  }

  /** The parts of a whole map, in its ascending key order. */
  function EntryTexts(m: Counts): (parts: seq<string>)
    ensures |parts| == |m|
    ensures forall i :: 0 <= i < |m| ==> parts[i] == EntryText(m[i])
    ensures forall i :: 0 <= i < |m| ==> ParseEntry(parts[i]) == Some(m[i])
  {
    assert forall i :: 0 <= i < |m| ==> ParseEntry(EntryText(m[i])) == Some(m[i]) by {
      forall i | 0 <= i < |m| {
        EntryTextRoundTrip(m[i]);
      }
    }
    seq(|m|, i requires 0 <= i < |m| => EntryText(m[i]))
  }

  /** Reads a summary part back: the key before the last ':', the count after it. */
  function ParseEntry(part: string): Option<Entry> {
    match LastIndexOf(part, ':')
    case None => None
    case Some(p) =>
      var digits := part[p + 1..];
      if digits != [] && AllDigits(digits) then Some(Entry(part[..p], ParseDecimal(digits))) else None
  }

  /** A summary part loses nothing: the entry can be read back from it, whatever its key holds. */
  lemma EntryTextRoundTrip(e: Entry)
    ensures ParseEntry(EntryText(e)) == Some(e)
  {
    var digits := NatToString(e.count);
    var part := EntryText(e);
    var p := |e.key|;
    assert part[p] == ':';
    assert part[p + 1..] == digits;
    forall i | p < i < |part| ensures part[i] != ':' {
      assert part[i] == digits[i - p - 1];
    }
    assert part[..p] == e.key;
    ParseNatToString(e.count);
  }

  /** The overflow marker `+N` is no entry's part: it has no ':' in it. */
  lemma OverflowMarkerIsNoEntry(extra: nat)
    ensures ParseEntry("+" + NatToString(extra)) == None
  {
    var marker := "+" + NatToString(extra);
    var digits := NatToString(extra);
    forall i | 0 <= i < |marker| ensures marker[i] != ':' {
      if i > 0 {
        assert marker[i] == digits[i - 1];
      }
    }
  }

  /** The parts of a summary of a sorted map come in strictly ascending key order. */
  lemma SummaryAscending(m: Counts, i: nat, j: nat)
    requires Sorted(m) && i < j < |m|
    ensures ParseEntry(EntryTexts(m)[i]).Some? && ParseEntry(EntryTexts(m)[j]).Some?
    ensures Less(ParseEntry(EntryTexts(m)[i]).value.key, ParseEntry(EntryTexts(m)[j]).value.key)
  {
    EntryTextRoundTrip(m[i]);
    EntryTextRoundTrip(m[j]);
  }

  /**
   * `summarize_map`: every entry as `k:v`, joined by two spaces; when there are more
   * than `maxItems` entries, only the first `maxItems` followed by `+N` for the `N`
   * left out.
   */
  method SummarizeMap(m: Counts, maxItems: nat) returns (s: string)
    ensures |m| <= maxItems ==> s == Join(EntryTexts(m), "  ")
    ensures |m| > maxItems ==> s == Join(EntryTexts(m)[..maxItems] + ["+" + NatToString(|m| - maxItems)], "  ")
  {
    var parts := EntryTexts(m);
    if |parts| > maxItems {
      var extra := |parts| - maxItems;
      parts := parts[..maxItems];
      parts := parts + ["+" + NatToString(extra)];
    }
    s := Join(parts, "  ");
  }
}
