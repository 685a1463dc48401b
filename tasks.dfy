/**
 * The task list of a TASKS.toml file and the statistics the dashboard shows about it
 * (harnas-monitor/src/tasks.rs): status normalisation, the one-pass `compute_stats`,
 * the FNV-1a content hash and the assembly of a loaded snapshot.
 */
module Tasks {

  import opened Prelude
  import opened Text
  import opened SortedCounts

  datatype Meta = Meta(
    specFile: Option<string>,
    specVersion: Option<string>,
    outputFile: Option<string>,
    generatedUtc: Option<string>)

  datatype Task = Task(
    id: string,
    title: string,
    component: Option<string>,
    priority: Option<string>,
    status: Option<string>,
    specRefs: seq<string>,
    dependsOn: seq<string>,
    summary: Option<string>,
    deliverables: seq<string>,
    estimateDays: Option<real>,
    dod: seq<string>,
    notes: Option<string>)

  datatype TaskFile = TaskFile(meta: Option<Meta>, tasks: seq<Task>)

  datatype Stats = Stats(
    total: nat,
    done: nat,
    blockedByDeps: nat,
    missingDeps: nat,
    byStatus: Counts,
    byPriority: Counts,
    byComponent: Counts)

  /** A loaded snapshot; the path and the two timestamps are not modelled. */
  datatype LoadedTasks = LoadedTasks(contentHash: bv64, tasks: TaskFile, stats: Stats)

  // ---------------------------------------------------------------------------
  // Status normalisation

  /** What normalisation does to one character of the trimmed status. */
  function NormalizeChar(c: char): (d: char)
    ensures !IsUpper(d) && d != '-'
    ensures IsWhitespace(d) == IsWhitespace(c)
    ensures !IsUpper(c) && c != '-' ==> d == c
  {
    var l := LowerChar(c);
    if l == '-' then '_' else l
  }

  lemma NormalizeChars(t: string, r: string)
    requires Trimmed(t)
    requires r == ReplaceChar(ToLower(t), '-', '_')
    ensures Trimmed(r)
    ensures forall i :: 0 <= i < |r| ==> !IsUpper(r[i]) && r[i] != '-'
  {
    var l := ToLower(t);
    forall i | 0 <= i < |r| ensures r[i] == NormalizeChar(t[i]) {
      assert l[i] == LowerChar(t[i]);
    }
    if r != [] {
      assert r[0] == NormalizeChar(t[0]);
      assert r[|r| - 1] == NormalizeChar(t[|t| - 1]);
    }
  }

  /** `normalize_status`: trim, lower-case, and spell `-` as `_`. */
  function NormalizeStatus(raw: string): (r: string)
    ensures Trimmed(r)
    ensures forall i :: 0 <= i < |r| ==> !IsUpper(r[i]) && r[i] != '-'
  {
    var t := Trim(raw);
    var r := ReplaceChar(ToLower(t), '-', '_');
    NormalizeChars(t, r);
    r
  }

  /** Normalising a normalised status changes nothing. */
  lemma NormalizeStatusIdempotent(raw: string)
    ensures NormalizeStatus(NormalizeStatus(raw)) == NormalizeStatus(raw)
  {
    var r := NormalizeStatus(raw);
    TrimOfTrimmed(r);
    assert ToLower(r) == r;
    assert ReplaceChar(r, '-', '_') == r;
  }

  /** The status a task is counted and compared under: normalised, or "unknown" when absent. */
  function StatusOf(t: Task): string {
    match t.status
    case Some(s) => NormalizeStatus(s)
    case None => "unknown"
  }

  /**
   * A task's status is always in canonical form, "unknown" included: trimmed, without
   * upper-case letters or '-', and left alone by normalising it again.
   */
  lemma StatusOfCanonical(t: Task)
    ensures t.status.None? ==> StatusOf(t) == "unknown"
    ensures t.status.Some? ==> StatusOf(t) == NormalizeStatus(t.status.value)
    ensures Trimmed(StatusOf(t))
    ensures forall i :: 0 <= i < |StatusOf(t)| ==> !IsUpper(StatusOf(t)[i]) && StatusOf(t)[i] != '-'
    ensures NormalizeStatus(StatusOf(t)) == StatusOf(t)
  {
    match t.status
    case Some(s) =>
      NormalizeStatusIdempotent(s);
    case None =>
      var u := "unknown";
      assert Trimmed(u);
      TrimOfTrimmed(u);
      assert ToLower(u) == u;
      assert ReplaceChar(u, '-', '_') == u;
  }

  /** The histogram key of a priority or a component: trimmed and lower-cased, "unknown" when absent or blank. */
  function LabelOrUnknown(o: Option<string>): (r: string)
    ensures r != [] && Trimmed(r)
    ensures forall i :: 0 <= i < |r| ==> !IsUpper(r[i])
  {
    match o
    case Some(p) =>
      var tp := Trim(p);
      if tp == [] then "unknown" else ToLower(tp)
    case None => "unknown"
  }

  /** The three histograms of the statistics. */
  datatype Facet = ByStatus | ByPriority | ByComponent

  function KeyOf(f: Facet, t: Task): string {
    match f
    case ByStatus => StatusOf(t)
    case ByPriority => LabelOrUnknown(t.priority)
    case ByComponent => LabelOrUnknown(t.component)
  }

  // ---------------------------------------------------------------------------
  // Reference definitions of the statistics, one task at a time from the front

  /** The histogram of one facet over a task list. */
  function Tally(f: Facet, ts: seq<Task>): Counts
    decreases |ts|
  {
    if ts == [] then [] else Bump(Tally(f, ts[..|ts| - 1]), KeyOf(f, ts[|ts| - 1]))
  }

  /** How many tasks have key `k` in facet `f`. */
  function CountKey(f: Facet, ts: seq<Task>, k: string): nat
    decreases |ts|
  {
    if ts == [] then 0
    else CountKey(f, ts[..|ts| - 1], k) + (if KeyOf(f, ts[|ts| - 1]) == k then 1 else 0)
  }

  /** `all_ids`: the ids of the tasks. */
  function Ids(ts: seq<Task>): set<string> {
    set i | 0 <= i < |ts| :: ts[i].id
  }

  /** `status_by_id`: each id mapped to the status of the last task with that id. */
  function StatusMap(ts: seq<Task>): map<string, string>
    decreases |ts|
  {
    if ts == [] then map[]
    else StatusMap(ts[..|ts| - 1])[ts[|ts| - 1].id := StatusOf(ts[|ts| - 1])]
  }

  /** A dependency blocks when it names a known task whose recorded status is not "done". */
  predicate DepBlocks(d: string, ids: set<string>, statusById: map<string, string>) {
    d in ids && d in statusById && statusById[d] != "done"
  }

  predicate Blocked(t: Task, ids: set<string>, statusById: map<string, string>) {
    && StatusOf(t) != "done"
    && exists k :: 0 <= k < |t.dependsOn| && DepBlocks(t.dependsOn[k], ids, statusById)
  }

  function BlockedCount(ts: seq<Task>, ids: set<string>, statusById: map<string, string>): nat
    decreases |ts|
  {
    if ts == [] then 0
    else BlockedCount(ts[..|ts| - 1], ids, statusById) + (if Blocked(ts[|ts| - 1], ids, statusById) then 1 else 0)
  }

  function Elements(xs: seq<string>): set<string> {
    set x | x in xs
  }

  /** Every dependency id named by some task. */
  function Deps(ts: seq<Task>): set<string>
    decreases |ts|
  {
    if ts == [] then {} else Deps(ts[..|ts| - 1]) + Elements(ts[|ts| - 1].dependsOn)
  }

  /** The statistics `compute_stats` produces for a task file. */
  function StatsOf(file: TaskFile): (s: Stats)
    ensures s.total == |file.tasks|
  {
    var ts := file.tasks;
    var ids := Ids(ts);
    Stats(
      |ts|,
      CountKey(ByStatus, ts, "done"),
      BlockedCount(ts, ids, StatusMap(ts)),
      |Deps(ts) - ids|,
      Tally(ByStatus, ts),
      Tally(ByPriority, ts),
      Tally(ByComponent, ts))
  }

  // How the reference definitions grow by one task.

  lemma TallyStep(f: Facet, ts: seq<Task>, i: nat)
    requires i < |ts|
    ensures Tally(f, ts[..i + 1]) == Bump(Tally(f, ts[..i]), KeyOf(f, ts[i]))
  {
    assert ts[..i + 1][..i] == ts[..i];
  }

  lemma DoneStep(ts: seq<Task>, i: nat)
    requires i < |ts|
    ensures CountKey(ByStatus, ts[..i + 1], "done") == CountKey(ByStatus, ts[..i], "done") + (if StatusOf(ts[i]) == "done" then 1 else 0)
  {
    assert ts[..i + 1][..i] == ts[..i];
  }

  lemma BlockedStep(ts: seq<Task>, i: nat, ids: set<string>, statusById: map<string, string>)
    requires i < |ts|
    ensures BlockedCount(ts[..i + 1], ids, statusById) == BlockedCount(ts[..i], ids, statusById) + (if Blocked(ts[i], ids, statusById) then 1 else 0)
  {
    assert ts[..i + 1][..i] == ts[..i];
  }

  lemma DepsStep(ts: seq<Task>, i: nat)
    requires i < |ts|
    ensures Deps(ts[..i + 1]) == Deps(ts[..i]) + Elements(ts[i].dependsOn)
  {
    assert ts[..i + 1][..i] == ts[..i];
  }

  lemma StatusMapStep(ts: seq<Task>, i: nat)
    requires i < |ts|
    ensures StatusMap(ts[..i + 1]) == StatusMap(ts[..i])[ts[i].id := StatusOf(ts[i])]
  {
    assert ts[..i + 1][..i] == ts[..i];
  }

  /** The statistics after counting the tasks of `ts`, before `missing_deps` is filled in. */
  function Counted(ts: seq<Task>, total: nat, ids: set<string>, statusById: map<string, string>): Stats {
    Stats(
      total,
      CountKey(ByStatus, ts, "done"),
      BlockedCount(ts, ids, statusById),
      0,
      Tally(ByStatus, ts),
      Tally(ByPriority, ts),
      Tally(ByComponent, ts))
  }

  /** Counting one more task updates the histograms and the two counters as one loop iteration does. */
  lemma CountedStep(ts: seq<Task>, i: nat, total: nat, ids: set<string>, statusById: map<string, string>)
    requires i < |ts|
    ensures var before, after, t := Counted(ts[..i], total, ids, statusById), Counted(ts[..i + 1], total, ids, statusById), ts[i];
      && after.total == before.total
      && after.done == before.done + (if StatusOf(t) == "done" then 1 else 0)
      && after.blockedByDeps == before.blockedByDeps + (if Blocked(t, ids, statusById) then 1 else 0)
      && after.missingDeps == before.missingDeps
      && after.byStatus == Bump(before.byStatus, StatusOf(t))
      && after.byPriority == Bump(before.byPriority, LabelOrUnknown(t.priority))
      && after.byComponent == Bump(before.byComponent, LabelOrUnknown(t.component))
  {
    TallyStep(ByStatus, ts, i);
    TallyStep(ByPriority, ts, i);
    TallyStep(ByComponent, ts, i);
    DoneStep(ts, i);
    BlockedStep(ts, i, ids, statusById);
  }

  // ---------------------------------------------------------------------------
  // compute_stats, as the source runs it

  /** The loop that fills `status_by_id`; later tasks overwrite earlier ones with the same id. */
  method BuildStatusById(ts: seq<Task>) returns (statusById: map<string, string>)
    ensures statusById == StatusMap(ts)
  {
    statusById := map[];
    var i := 0;
    while i < |ts|
      invariant 0 <= i <= |ts|
      invariant statusById == StatusMap(ts[..i])
    {
      StatusMapStep(ts, i);
      statusById := statusById[ts[i].id := StatusOf(ts[i])];
      i := i + 1;
    }
    assert ts[..i] == ts;
  }

  /**
   * The inner loop over one task's dependencies: a dependency that is no task's id is
   * recorded as missing and skipped; one whose recorded status is not "done" blocks.
   */
  method ScanDeps(deps: seq<string>, allIds: set<string>, statusById: map<string, string>, missingBefore: set<string>)
    returns (blocked: bool, missing: set<string>)
    ensures blocked <==> exists k :: 0 <= k < |deps| && DepBlocks(deps[k], allIds, statusById)
    ensures missing == missingBefore + (Elements(deps) - allIds)
  {
    blocked := false;
    missing := missingBefore;
    var j := 0;
    while j < |deps|
      invariant 0 <= j <= |deps|
      invariant blocked <==> exists k :: 0 <= k < j && DepBlocks(deps[k], allIds, statusById)
      invariant missing == missingBefore + (Elements(deps[..j]) - allIds)
    {
      var dep := deps[j];
      assert deps[..j + 1] == deps[..j] + [dep];
      if dep !in allIds {
        missing := missing + {dep};
      } else if dep in statusById {
        if statusById[dep] != "done" {
          blocked := true;
        }
      }
      j := j + 1;
    }
    assert deps[..j] == deps;
  }

  /**
   * One iteration of the counting loop: task `i` goes into the three histograms, into
   * `done` when its status is "done", and into `blocked_by_deps` when it is blocked; its
   * unknown dependency ids go into `missing`.
   */
  method CountTask(ts: seq<Task>, i: nat, allIds: set<string>, statusById: map<string, string>, stats: Stats, missing: set<string>)
    returns (next: Stats, nextMissing: set<string>)
    requires i < |ts|
    requires stats == Counted(ts[..i], |ts|, allIds, statusById)
    requires missing == Deps(ts[..i]) - allIds
    ensures next == Counted(ts[..i + 1], |ts|, allIds, statusById)
    ensures nextMissing == Deps(ts[..i + 1]) - allIds
  {
    var t := ts[i];
    var status := StatusOf(t);
    next := stats.(byStatus := Bump(stats.byStatus, status));
    if status == "done" {
      next := next.(done := next.done + 1);
    }
    next := next.(byPriority := Bump(next.byPriority, LabelOrUnknown(t.priority)));
    next := next.(byComponent := Bump(next.byComponent, LabelOrUnknown(t.component)));

    var isBlocked;
    isBlocked, nextMissing := ScanDeps(t.dependsOn, allIds, statusById, missing);
    if isBlocked && status != "done" {
      next := next.(blockedByDeps := next.blockedByDeps + 1);
    }
    CountedStep(ts, i, |ts|, allIds, statusById);
    DepsStep(ts, i);
  }

  /** One pass over the tasks: totals, histograms, blocked tasks and missing dependency ids. */
  method ComputeStats(file: TaskFile) returns (stats: Stats)
    ensures stats == StatsOf(file)
  {
    var ts := file.tasks;
    stats := Stats(|ts|, 0, 0, 0, [], [], []);
    var statusById := BuildStatusById(ts);
    var allIds := Ids(ts);
    var missing: set<string> := {};

    var i := 0;
    assert ts[..i] == [];
    assert stats == Counted(ts[..i], |ts|, allIds, statusById);
    assert missing == Deps(ts[..i]) - allIds;
    while i < |ts|
      invariant 0 <= i <= |ts|
      invariant stats == Counted(ts[..i], |ts|, allIds, statusById)
      invariant missing == Deps(ts[..i]) - allIds
    {
      stats, missing := CountTask(ts, i, allIds, statusById, stats, missing);
      i := i + 1;
    }
    assert ts[..i] == ts;
    stats := stats.(missingDeps := |missing|);
  }

  // ---------------------------------------------------------------------------
  // What the statistics mean

  /** Each histogram is sorted, sums to the number of tasks, and holds for each key the number of tasks with that key. */
  lemma {:induction false} TallySpec(f: Facet, ts: seq<Task>)
    ensures Sorted(Tally(f, ts))
    ensures Sum(Tally(f, ts)) == |ts|
    ensures forall k :: Get(Tally(f, ts), k) == CountKey(f, ts, k)
    decreases |ts|
  {
    if ts != [] {
      var prefix := ts[..|ts| - 1];
      TallySpec(f, prefix);
      BumpSpec(Tally(f, prefix), KeyOf(f, ts[|ts| - 1]));
    }
  }

  /** The three histograms each add up to `total`. */
  lemma StatsSumsToTotal(file: TaskFile)
    ensures Sum(StatsOf(file).byStatus) == StatsOf(file).total
    ensures Sum(StatsOf(file).byPriority) == StatsOf(file).total
    ensures Sum(StatsOf(file).byComponent) == StatsOf(file).total
  {
    TallySpec(ByStatus, file.tasks);
    TallySpec(ByPriority, file.tasks);
    TallySpec(ByComponent, file.tasks);
  }

  lemma {:induction false} CountKeyBounded(f: Facet, ts: seq<Task>, k: string)
    ensures CountKey(f, ts, k) <= |ts|
    decreases |ts|
  {
    if ts != [] {
      CountKeyBounded(f, ts[..|ts| - 1], k);
    }
  }

  lemma {:induction false} CountKeyPresent(f: Facet, ts: seq<Task>, i: nat)
    requires i < |ts|
    ensures CountKey(f, ts, KeyOf(f, ts[i])) >= 1
    decreases |ts|
  {
    if i < |ts| - 1 {
      var prefix := ts[..|ts| - 1];
      assert prefix[i] == ts[i];
      CountKeyPresent(f, prefix, i);
    }
  }

  /** `done` is the count stored under "done", and never exceeds `total`. */
  lemma StatsDone(file: TaskFile)
    ensures StatsOf(file).done == Get(StatsOf(file).byStatus, "done")
    ensures StatsOf(file).done <= StatsOf(file).total
  {
    var ts := file.tasks;
    assert Get(Tally(ByStatus, ts), "done") == CountKey(ByStatus, ts, "done") by {
      TallySpec(ByStatus, ts);
    }
    CountKeyBounded(ByStatus, ts, "done");
  }

  /**
   * Every task is counted under its key in each histogram: an absent status under
   * "unknown"; an absent or blank priority or component under "unknown", otherwise
   * under its trimmed lower-case form.
   */
  lemma StatsKeys(file: TaskFile, i: nat)
    requires i < |file.tasks|
    ensures var t := file.tasks[i];
      && (t.status.None? ==> Get(StatsOf(file).byStatus, "unknown") >= 1)
      && (t.status.Some? ==> Get(StatsOf(file).byStatus, NormalizeStatus(t.status.value)) >= 1)
      && (t.priority.None? || Trim(t.priority.value) == [] ==> Get(StatsOf(file).byPriority, "unknown") >= 1)
      && (t.priority.Some? && Trim(t.priority.value) != [] ==>
            Get(StatsOf(file).byPriority, ToLower(Trim(t.priority.value))) >= 1)
      && (t.component.None? || Trim(t.component.value) == [] ==> Get(StatsOf(file).byComponent, "unknown") >= 1)
      && (t.component.Some? && Trim(t.component.value) != [] ==>
            Get(StatsOf(file).byComponent, ToLower(Trim(t.component.value))) >= 1)
  {
    KeyCounted(ByStatus, file.tasks, i);
    KeyCounted(ByPriority, file.tasks, i);
    KeyCounted(ByComponent, file.tasks, i);
  }

  /** A task's key has a positive count in its facet's histogram. */
  lemma KeyCounted(f: Facet, ts: seq<Task>, i: nat)
    requires i < |ts|
    ensures Get(Tally(f, ts), KeyOf(f, ts[i])) >= 1
  {
    TallySpec(f, ts);
    CountKeyPresent(f, ts, i);
  }

  /** Only unfinished tasks are blocked, so `blocked_by_deps <= total - done`. */
  lemma {:induction false} BlockedNotDone(ts: seq<Task>, ids: set<string>, statusById: map<string, string>)
    ensures BlockedCount(ts, ids, statusById) + CountKey(ByStatus, ts, "done") <= |ts|
    decreases |ts|
  {
    if ts != [] {
      BlockedNotDone(ts[..|ts| - 1], ids, statusById);
    }
  }

  lemma StatsBlockedBound(file: TaskFile)
    ensures StatsOf(file).blockedByDeps <= StatsOf(file).total - StatsOf(file).done
  {
    BlockedNotDone(file.tasks, Ids(file.tasks), StatusMap(file.tasks));
  }

  /** `j` is the last position of a task with id `d`. */
  ghost predicate IsLastWithId(ts: seq<Task>, j: int, d: string) {
    0 <= j < |ts| && ts[j].id == d && forall j' :: j < j' < |ts| ==> ts[j'].id != d
  }

  /** The ids of a task list are those of all but its last task, and the last one's. */
  lemma IdsStep(ts: seq<Task>)
    requires ts != []
    ensures Ids(ts) == Ids(ts[..|ts| - 1]) + {ts[|ts| - 1].id}
  {
    var prefix := ts[..|ts| - 1];
    forall x | x in Ids(ts) ensures x in Ids(prefix) + {ts[|ts| - 1].id} {
      var i :| 0 <= i < |ts| && ts[i].id == x;
      if i < |ts| - 1 {
        assert prefix[i].id == x;
      }
    }
    forall x | x in Ids(prefix) ensures x in Ids(ts) {
      var i :| 0 <= i < |prefix| && prefix[i].id == x;
      assert ts[i].id == x;
    }
  }

  /** `status_by_id` holds exactly the ids of the tasks. */
  lemma {:induction false} StatusMapKeys(ts: seq<Task>)
    ensures StatusMap(ts).Keys == Ids(ts)
    decreases |ts|
  {
    if ts != [] {
      StatusMapKeys(ts[..|ts| - 1]);
      IdsStep(ts);
    }
  }

  /** The status recorded for an id is that of the last task bearing it. */
  lemma {:induction false} StatusMapLast(ts: seq<Task>, d: string, j: int)
    requires IsLastWithId(ts, j, d)
    ensures d in StatusMap(ts) && StatusMap(ts)[d] == StatusOf(ts[j])
    decreases |ts|
  {
    var n := |ts| - 1;
    if j < n {
      var prefix := ts[..n];
      assert IsLastWithId(prefix, j, d);
      StatusMapLast(prefix, d, j);
    }
  }

  /** Every id has a last task bearing it. */
  lemma {:induction false} LastWithIdExists(ts: seq<Task>, d: string)
    requires d in Ids(ts)
    ensures exists j :: IsLastWithId(ts, j, d)
    decreases |ts|
  {
    var n := |ts| - 1;
    if ts[n].id == d {
      assert IsLastWithId(ts, n, d);
    } else {
      var prefix := ts[..n];
      IdsStep(ts);
      LastWithIdExists(prefix, d);
      var j :| IsLastWithId(prefix, j, d);
      assert IsLastWithId(ts, j, d);
    }
  }

  /**
   * A task counts toward `blocked_by_deps` exactly when it is not done and one of its
   * dependencies names a task whose last recorded status is not "done"; a dependency
   * that names no task never blocks.
   */
  lemma BlockedMeaning(ts: seq<Task>, t: Task)
    ensures Blocked(t, Ids(ts), StatusMap(ts)) <==>
      && StatusOf(t) != "done"
      && exists k, j :: 0 <= k < |t.dependsOn| && IsLastWithId(ts, j, t.dependsOn[k]) && StatusOf(ts[j]) != "done"
  {
    var ids, sb := Ids(ts), StatusMap(ts);
    if Blocked(t, ids, sb) {
      var k :| 0 <= k < |t.dependsOn| && DepBlocks(t.dependsOn[k], ids, sb);
      LastWithIdExists(ts, t.dependsOn[k]);
      var j :| IsLastWithId(ts, j, t.dependsOn[k]);
      StatusMapLast(ts, t.dependsOn[k], j);
    }
    if StatusOf(t) != "done" && exists k, j :: 0 <= k < |t.dependsOn| && IsLastWithId(ts, j, t.dependsOn[k]) && StatusOf(ts[j]) != "done" {
      var k, j :| 0 <= k < |t.dependsOn| && IsLastWithId(ts, j, t.dependsOn[k]) && StatusOf(ts[j]) != "done";
      StatusMapLast(ts, t.dependsOn[k], j);
      assert DepBlocks(t.dependsOn[k], ids, sb);
    }
  }


  lemma {:induction false} DepsMeaning(ts: seq<Task>, d: string)
    ensures d in Deps(ts) <==> exists i :: 0 <= i < |ts| && d in ts[i].dependsOn
    decreases |ts|
  {
    if ts != [] {
      var prefix := ts[..|ts| - 1];
      DepsMeaning(prefix, d);
      if exists i :: 0 <= i < |ts| && d in ts[i].dependsOn {
        var i :| 0 <= i < |ts| && d in ts[i].dependsOn;
        if i < |ts| - 1 { assert prefix[i] == ts[i]; }
      }
      if d in Deps(prefix) {
        var i :| 0 <= i < |prefix| && d in prefix[i].dependsOn;
        assert ts[i] == prefix[i];
      }
    }
  }

  /** `missing_deps` counts the distinct dependency ids, over all tasks, that are no task's id. */
  lemma StatsMissingDeps(file: TaskFile, d: string)
    ensures StatsOf(file).missingDeps == |Deps(file.tasks) - Ids(file.tasks)|
    ensures d in Deps(file.tasks) - Ids(file.tasks) <==>
      && (exists i :: 0 <= i < |file.tasks| && d in file.tasks[i].dependsOn)
      && forall i :: 0 <= i < |file.tasks| ==> file.tasks[i].id != d
  {
    DepsMeaning(file.tasks, d);
    if d in Ids(file.tasks) {
      var t :| t in file.tasks && t.id == d;
    }
  }

  // ---------------------------------------------------------------------------
  // FNV-1a, 64-bit (draft-eastlake-fnv, section 2)

  const FNV_OFFSET_BASIS: bv64 := 0xcbf2_9ce4_8422_2325
  const FNV_PRIME: bv64 := 0x100_0000_01b3

  /**
   * One byte of FNV-1a: xor the byte in, then multiply by the prime. Multiplication of
   * `bv64` values is taken modulo 2^64, which is `u64::wrapping_mul`.
   */
  function FnvStep(hash: bv64, b: bv8): bv64 {
    (hash ^ (b as bv64)) * FNV_PRIME
  }

  /** The FNV-1a hash of a byte string, byte by byte from the offset basis. */
  function Fnv1a(bytes: seq<bv8>): bv64
    decreases |bytes|
  {
    if bytes == [] then FNV_OFFSET_BASIS else FnvStep(Fnv1a(bytes[..|bytes| - 1]), bytes[|bytes| - 1])
  }

  /** Appending a byte to the input is one more xor-multiply step on its hash. */
  lemma Fnv1aAppend(s: seq<bv8>, b: bv8)
    ensures Fnv1a(s + [b]) == FnvStep(Fnv1a(s), b)
  {
    assert (s + [b])[..|s|] == s;
  }

  /** Test vectors of the FNV-1a 64-bit function: the empty string, "a" and "foobar". */
  lemma Fnv1aVectors()
    ensures Fnv1a([]) == 0xcbf2_9ce4_8422_2325
    ensures Fnv1a([0x61]) == 0xaf63_dc4c_8601_ec8c
    ensures Fnv1a([0x66, 0x6f, 0x6f, 0x62, 0x61, 0x72]) == 0x8594_4171_f739_67e8
  {
    var s: seq<bv8> := [0x66, 0x6f, 0x6f, 0x62, 0x61, 0x72];
    Fnv1aAppend([], 0x66);
    assert [] + [0x66 as bv8] == s[..1];
    Fnv1aAppend(s[..1], 0x6f);
    assert s[..1] + [0x6f as bv8] == s[..2];
    Fnv1aAppend(s[..2], 0x6f);
    assert s[..2] + [0x6f as bv8] == s[..3];
    Fnv1aAppend(s[..3], 0x62);
    assert s[..3] + [0x62 as bv8] == s[..4];
    Fnv1aAppend(s[..4], 0x61);
    assert s[..4] + [0x61 as bv8] == s[..5];
    Fnv1aAppend(s[..5], 0x72);
    assert s[..5] + [0x72 as bv8] == s;
  }

  /** `fnv1a_64`: the loop over the bytes, one xor-multiply step each. */
  method Fnv1a64(bytes: seq<bv8>) returns (hash: bv64)
    ensures hash == Fnv1a(bytes)
  {
    hash := FNV_OFFSET_BASIS;
    var i := 0;
    while i < |bytes|
      invariant 0 <= i <= |bytes|
      invariant hash == Fnv1a(bytes[..i])
    {
      assert bytes[..i + 1] == bytes[..i] + [bytes[i]];
      Fnv1aAppend(bytes[..i], bytes[i]);
      hash := FnvStep(hash, bytes[i]);
      i := i + 1;
    }
    assert bytes[..i] == bytes;
  }

  // ---------------------------------------------------------------------------
  // load_tasks, with the file read and the TOML parser as inputs

  /**
   * Builds a snapshot from the bytes read and the outcome of parsing them: the hash
   * is taken over the raw bytes, the statistics over the parsed tasks.
   */
  method LoadTasks(contents: seq<bv8>, parsed: Result<TaskFile>) returns (r: Result<LoadedTasks>)
    ensures r.Ok? <==> parsed.Ok?
    ensures parsed.Err? ==> r.error == "parsing TOML: " + parsed.error
    ensures parsed.Ok? ==> r.value == LoadedTasks(Fnv1a(contents), parsed.value, StatsOf(parsed.value))
  {
    var contentHash := Fnv1a64(contents);
    if parsed.Err? {
      return Err("parsing TOML: " + parsed.error);
    }
    var stats := ComputeStats(parsed.value);
    r := Ok(LoadedTasks(contentHash, parsed.value, stats));
  }
}
