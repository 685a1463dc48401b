/**
 * The dashboard's event loop state (harnas-monitor/src/main.rs): the key handler over
 * the view state and the reload flag, and the bookkeeping after a reload, with the
 * selection kept in range of the loaded task list.
 */
module App {

  import opened Prelude
  import opened Tasks
  import opened Ui

  /** The keys `handle_key` tells apart; every other key is `Other`. */
  datatype KeyCode = Char(c: char) | Up | Down | PageUp | PageDown | Home | End | Other

  /** How far one PageUp or PageDown scrolls the details pane. */
  const PAGE_SCROLL: nat := 4

  /** The number of loaded tasks, 0 before the first successful load. */
  function TaskCount(loaded: Option<LoadedTasks>): (n: nat)
    ensures loaded.None? ==> n == 0
    ensures loaded.Some? ==> n == |loaded.value.tasks.tasks|
  {
    match loaded
    case None => 0
    case Some(l) => |l.tasks.tasks|
  }

  /** `u16::saturating_add`. */
  function SaturatingAddU16(a: U16, b: nat): (r: U16)
    ensures a + b <= U16_MAX ==> r == a + b
    ensures a + b > U16_MAX ==> r == U16_MAX
  {
    if a + b <= U16_MAX then a + b else U16_MAX
  }

  /**
   * The view after one key press, with `n` tasks loaded. No key moves the selection
   * down past both its old row and the last row; only '?' touches the overlay; only
   * the navigation and paging keys touch the scroll.
   */
  function NextView(code: KeyCode, v: View, n: nat): (r: View)
    ensures r.selectedIdx <= v.selectedIdx || r.selectedIdx < n
    ensures r.modal != v.modal ==> code == Char('?')
    ensures r.detailsScroll != v.detailsScroll ==> code in {Up, Down, PageUp, PageDown, Home, End}
    ensures code == Char('?') ==> r.selectedIdx == v.selectedIdx && r.detailsScroll == v.detailsScroll
  {
    match code
    case Char(c) =>
      if c == '?' then v.(modal := if v.modal == Some(Help) then None else Some(Help))
      else v
    case Up => v.(detailsScroll := 0, selectedIdx := SaturatingSub(v.selectedIdx, 1))
    case Down =>
      var w := v.(detailsScroll := 0);
      if n > 0 then w.(selectedIdx := if v.selectedIdx + 1 < n - 1 then v.selectedIdx + 1 else n - 1) else w
    case PageUp => v.(detailsScroll := SaturatingSub(v.detailsScroll, PAGE_SCROLL))
    case PageDown => v.(detailsScroll := SaturatingAddU16(v.detailsScroll, PAGE_SCROLL))
    case Home => v.(detailsScroll := 0, selectedIdx := 0)
    case End =>
      var w := v.(detailsScroll := 0);
      if n > 0 then w.(selectedIdx := n - 1) else w
    case Other => v
  }

  /**
   * `handle_key`: updates the view state in place and reports whether to quit; the
   * reload request is passed in and out as a flag.
   */
  method HandleKey(code: KeyCode, view: ViewState, loaded: Option<LoadedTasks>, reloadRequested: bool)
    returns (quit: bool, reloadAfter: bool)
    modifies view
    ensures view.Snapshot() == NextView(code, old(view.Snapshot()), TaskCount(loaded))
    ensures quit <==> code == Char('q')
    ensures reloadAfter <==> reloadRequested || code == Char('r')
  {
    reloadAfter := reloadRequested;
    match code {
      case Char(c) =>
        if c == 'q' {
          return true, reloadAfter;
        } else if c == '?' {
          view.modal := if view.modal == Some(Help) then None else Some(Help);
        } else if c == 'r' {
          reloadAfter := true;
        }
      case Up =>
        view.detailsScroll := 0;
        view.selectedIdx := SaturatingSub(view.selectedIdx, 1);
      case Down =>
        view.detailsScroll := 0;
        var max := TaskCount(loaded);
        if max > 0 {
          view.selectedIdx := if view.selectedIdx + 1 < max - 1 then view.selectedIdx + 1 else max - 1;
        }
      case PageUp =>
        view.detailsScroll := SaturatingSub(view.detailsScroll, PAGE_SCROLL);
      case PageDown =>
        view.detailsScroll := SaturatingAddU16(view.detailsScroll, PAGE_SCROLL);
      case Home =>
        view.detailsScroll := 0;
        view.selectedIdx := 0;
      case End =>
        view.detailsScroll := 0;
        var max := TaskCount(loaded);
        if max > 0 {
          view.selectedIdx := max - 1;
        }
      case Other =>
    }
    quit := false;
  }

  // ---------------------------------------------------------------------------
  // What the key handler promises

  /** The selection invariant: a selection that is the first row or a valid row stays so, whatever the key. */
  predicate SelectionInRange(v: View, n: nat) {
    v.selectedIdx == 0 || v.selectedIdx < n
  }

  lemma KeyKeepsSelectionInRange(code: KeyCode, v: View, n: nat)
    requires SelectionInRange(v, n)
    ensures SelectionInRange(NextView(code, v, n), n)
    ensures v.selectedIdx < n ==> NextView(code, v, n).selectedIdx < n
  {
  }

  /** '?' opens the help when it is closed and closes it when it is open; pressed twice, it changes nothing. */
  lemma HelpToggles(v: View, n: nat)
    ensures NextView(Char('?'), v, n).modal.Some? <==> v.modal.None?
    ensures NextView(Char('?'), v, n).(modal := v.modal) == v
    ensures NextView(Char('?'), NextView(Char('?'), v, n), n) == v
  {
    if v.modal.Some? {
      assert v.modal.value.Help?;
      assert v.modal == Some(Help);
    }
  }

  /** Moving the selection always brings the details pane back to its top. */
  lemma NavigationResetsScroll(code: KeyCode, v: View, n: nat)
    requires code == Up || code == Down || code == Home || code == End
    ensures NextView(code, v, n).detailsScroll == 0
    ensures NextView(code, v, n).modal == v.modal
  {
  }

  /** Down then Up returns to the row it started from, unless Down was already at the last row. */
  lemma DownThenUp(v: View, n: nat)
    requires v.selectedIdx + 1 < n
    ensures NextView(Up, NextView(Down, v, n), n).selectedIdx == v.selectedIdx
  {
  }

  /** Up then Down returns to the row it started from, unless Up was already at the first row. */
  lemma UpThenDown(v: View, n: nat)
    requires 0 < v.selectedIdx < n
    ensures NextView(Down, NextView(Up, v, n), n).selectedIdx == v.selectedIdx
  {
  }

  /**
   * Up moves one row towards the top and stops at row 0; Down moves one row towards the
   * bottom and stops at the last row; Home goes to row 0 and End to the last row; with no
   * tasks, Down and End keep the selection.
   */
  lemma SelectionEnds(v: View, n: nat)
    ensures NextView(Up, v, n).selectedIdx == if v.selectedIdx > 0 then v.selectedIdx - 1 else 0
    ensures n > 0 ==> NextView(Down, v, n).selectedIdx == if v.selectedIdx + 1 < n then v.selectedIdx + 1 else n - 1
    ensures NextView(Home, v, n).selectedIdx == 0
    ensures v.selectedIdx == 0 ==> NextView(Up, v, n).selectedIdx == 0
    ensures n > 0 ==> NextView(End, v, n).selectedIdx == n - 1
    ensures n > 0 && v.selectedIdx == n - 1 ==> NextView(Down, v, n).selectedIdx == n - 1
    ensures n == 0 ==> NextView(Down, v, n).selectedIdx == v.selectedIdx && NextView(End, v, n).selectedIdx == v.selectedIdx
  {
  }

  /** Paging only scrolls the details pane, by four rows, stopping at 0 and at the largest u16. */
  lemma PagingOnlyScrolls(v: View, n: nat)
    ensures NextView(PageUp, v, n).(detailsScroll := v.detailsScroll) == v
    ensures NextView(PageDown, v, n).(detailsScroll := v.detailsScroll) == v
    ensures NextView(PageUp, v, n).detailsScroll == if v.detailsScroll >= 4 then v.detailsScroll - 4 else 0
    ensures NextView(PageDown, v, n).detailsScroll == if v.detailsScroll + 4 <= 0xFFFF then v.detailsScroll + 4 else 0xFFFF
    ensures v.detailsScroll + 4 <= 0xFFFF ==> NextView(PageUp, NextView(PageDown, v, n), n).detailsScroll == v.detailsScroll
  {
  }

  /** 'q', 'r' and every key the handler does not list leave the view as it was. */
  lemma OtherKeysChangeNothing(code: KeyCode, v: View, n: nat)
    requires code == Other || (code.Char? && code.c != '?')
    ensures NextView(code, v, n) == v
  {
  }

  // ---------------------------------------------------------------------------
  // The state of the event loop

  /** `min(selected_idx, len - 1)` after a load, or 0 for an empty list. */
  function ReloadSelection(selected: nat, n: nat): (r: nat)
    ensures r == 0 || r < n
    ensures selected < n ==> r == selected
    ensures n > 0 && selected >= n ==> r == n - 1
  {
    if n > 0 then ClampSelection(selected, n) else 0
  }

  /** One message from the file watcher: a change to the watched file, or a watcher error. */
  datatype WatchEvent = Changed | WatchError(message: string)

  /** Whether any of the events reports a change. */
  predicate AnyChange(events: seq<WatchEvent>) {
    exists i :: 0 <= i < |events| && events[i].Changed?
  }

  /** The error text the last watcher error among the events leaves behind, if there is one. */
  function LastWatchError(events: seq<WatchEvent>): (r: Option<string>)
    ensures r.None? <==> forall i :: 0 <= i < |events| ==> events[i].Changed?
    ensures r.Some? ==> exists i :: 0 <= i < |events| && events[i].WatchError? && r.value == "watcher error: " + events[i].message
    decreases |events|
  {
    if events == [] then None
    else
      var e := events[|events| - 1];
      if e.WatchError? then Some("watcher error: " + e.message)
      else
        var r := LastWatchError(events[..|events| - 1]);
        assert forall i :: 0 <= i < |events| - 1 ==> events[..|events| - 1][i] == events[i];
        r
  }

  /** The watcher error that survives a batch is the one of the batch's last error event. */
  lemma {:induction false} LastWatchErrorIsLast(events: seq<WatchEvent>, i: nat)
    requires i < |events| && events[i].WatchError?
    requires forall j :: i < j < |events| ==> events[j].Changed?
    ensures LastWatchError(events) == Some("watcher error: " + events[i].message)
    decreases |events|
  {
    if i < |events| - 1 {
      var p := events[..|events| - 1];
      assert p[i] == events[i];
      LastWatchErrorIsLast(p, i);
    }
  }

  /** The state `run` keeps across iterations of its loop. */
  class Monitor {
    const view: ViewState
    var loaded: Option<LoadedTasks>
    var lastError: Option<string>
    var lastContentHash: Option<bv64>
    var reloadRequested: bool

    /** The selection is the first row or a row of the loaded list. */
    ghost predicate Valid()
      reads this, view
    {
      SelectionInRange(view.Snapshot(), TaskCount(loaded))
    }

    /** Nothing loaded, no error, and a first reload requested at once. */
    constructor ()
      ensures Valid() && fresh(view)
      ensures view.Snapshot() == View(0, 0, None)
      ensures loaded == None && lastError == None && lastContentHash == None
      ensures reloadRequested
    {
      view := new ViewState();
      loaded := None;
      lastError := None;
      lastContentHash := None;
      reloadRequested := true;
    }

    /**
     * A due reload with the outcome of `load_tasks`: the request is cleared; a success
     * replaces the snapshot, clears the error, records the hash, chimes when the hash
     * differs from a previous one, and brings the selection back into range; a failure
     * records the error and keeps the previous snapshot.
     */
    method FinishReload(outcome: Result<LoadedTasks>) returns (chime: bool)
      requires Valid()
      modifies this, view
      ensures Valid()
      ensures !reloadRequested
      ensures chime <==> outcome.Ok? && old(lastContentHash).Some? && old(lastContentHash).value != outcome.value.contentHash
      ensures outcome.Ok? ==>
        && loaded == Some(outcome.value)
        && lastError == None
        && lastContentHash == Some(outcome.value.contentHash)
        && view.Snapshot() == old(view.Snapshot()).(selectedIdx := ReloadSelection(old(view.selectedIdx), |outcome.value.tasks.tasks|))
      ensures outcome.Err? ==>
        && loaded == old(loaded)
        && lastError == Some(outcome.error)
        && lastContentHash == old(lastContentHash)
        && view.Snapshot() == old(view.Snapshot())
    {
      reloadRequested := false;
      chime := false;
      match outcome {
        case Ok(next) =>
          if lastContentHash.Some? && lastContentHash.value != next.contentHash {
            chime := true;
          }
          lastContentHash := Some(next.contentHash);
          loaded := Some(next);
          lastError := None;
          view.selectedIdx := ReloadSelection(view.selectedIdx, |next.tasks.tasks|);
        case Err(e) =>
          lastError := Some(e);
      }
    }

    /**
     * `drain_watcher`: takes every pending watcher message in order; a change requests
     * a reload, and an error replaces the error line.
     */
    method DrainWatcher(events: seq<WatchEvent>)
      modifies this`reloadRequested, this`lastError
      ensures old(Valid()) ==> Valid()
      ensures reloadRequested <==> old(reloadRequested) || AnyChange(events)
      ensures lastError == match LastWatchError(events) case Some(e) => Some(e) case None => old(lastError)
    {
      var i := 0;
      while i < |events|
        invariant 0 <= i <= |events|
        invariant reloadRequested <==> old(reloadRequested) || AnyChange(events[..i])
        invariant lastError == match LastWatchError(events[..i]) case Some(e) => Some(e) case None => old(lastError)
      {
        assert events[..i + 1][..i] == events[..i];
        match events[i] {
          case Changed =>
            reloadRequested := true;
          case WatchError(m) =>
            lastError := Some("watcher error: " + m);
        }
        assert AnyChange(events[..i + 1]) <==> AnyChange(events[..i]) || events[i].Changed? by {
          assert forall k :: 0 <= k < i ==> events[..i + 1][k] == events[..i][k];
        }
        i := i + 1;
      }
      assert events[..i] == events;
    }

    /** The periodic refresh: with no reload pending, a refresh that has come due requests one. */
    method AutoRefresh(due: bool)
      modifies this`reloadRequested
      ensures old(Valid()) ==> Valid()
      ensures reloadRequested <==> old(reloadRequested) || due
    {
      if !reloadRequested && due {
        reloadRequested := true;
      }
    }

    /** One key press: the handler runs on the view and the reload flag; the result says whether to quit. */
    method Key(code: KeyCode) returns (quit: bool)
      requires Valid()
      modifies view, this`reloadRequested
      ensures Valid()
      ensures quit <==> code == Char('q')
      ensures view.Snapshot() == NextView(code, old(view.Snapshot()), TaskCount(loaded))
      ensures reloadRequested <==> old(reloadRequested) || code == Char('r')
    {
      var reloadAfter;
      quit, reloadAfter := HandleKey(code, view, loaded, reloadRequested);
      reloadRequested := reloadAfter;
      KeyKeepsSelectionInRange(code, old(view.Snapshot()), TaskCount(loaded));
    }
  }
}
