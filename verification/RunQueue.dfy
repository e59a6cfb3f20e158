/**
 The durable scan-run queue with one worker (backend/app/job_queue.py, the enqueue,
 cancel and account endpoints of backend/app/main.py, the run transitions of
 backend/app/worker.py, and the restore step of backend/app/desktop_backup.py).
 */
module RunQueue {
  import opened Wrappers

  datatype Status =
    | Queued | Running | CancelRequested
    | Succeeded | Partial | Failed | Cancelled | Interrupted | InterruptedSleep

  datatype Kind = Projects | Cars

  datatype Reason = ProjectDeleted | ApplicationShutdown | SystemSleep | AccountInactive | MergedIntoManualRun

  /** One row of `scan_runs`; `payload` keys that a rule reads are fields of their own. */
  datatype ScanRun = ScanRun(
    owner: int,
    kind: Kind,
    status: Status,
    projects: seq<int>,
    cars: seq<int>,
    automatic: bool,
    currentProject: Option<int>,
    reason: Option<Reason>,
    createdAt: int,
    finishedAt: Option<int>,
    attempts: nat)

  predicate Terminal(s: Status) {
    s != Queued && s != Running && s != CancelRequested
  }

  predicate Active(run: ScanRun) {
    !Terminal(run.status)
  }

  /** The worker holds the run, or has been asked to let go of it. */
  predicate Held(run: ScanRun) {
    run.status == Running || run.status == CancelRequested
  }

  function Rank(s: Status): nat {
    match s
    case Queued => 3
    case Running => 2
    case CancelRequested => 1
    case _ => 0
  }

  function ProjectSet(run: ScanRun): set<int> {
    set p | p in run.projects
  }

  function CarSet(run: ScanRun): set<int> {
    set c | c in run.cars
  }

  function Without(ids: seq<int>, gone: set<int>): (rest: seq<int>)
    ensures forall p :: p in rest <==> p in ids && p !in gone
  {
    if ids == [] then []
    else (if ids[0] in gone then [] else [ids[0]]) + Without(ids[1..], gone)
  }

  // --- one row at a time ----------------------------------------------------------

  function Finish(run: ScanRun, status: Status, now: int): ScanRun {
    run.(status := status, finishedAt := Some(now))
  }

  /** Cancelling on request: queued work ends at once, running work is asked to stop. */
  function CancelRow(run: ScanRun, now: int): ScanRun {
    if run.status == Queued then Finish(run, Cancelled, now).(currentProject := None)
    else if run.status == Running then run.(status := CancelRequested)
    else run
  }

  function ShutdownRow(run: ScanRun, now: int): ScanRun {
    if run.status == Queued then Finish(run, Cancelled, now).(reason := Some(ApplicationShutdown))
    else if run.status == Running then run.(status := CancelRequested, reason := Some(ApplicationShutdown))
    else run
  }

  function SleepRow(run: ScanRun): ScanRun {
    if run.status == Running then run.(status := CancelRequested, reason := Some(SystemSleep)) else run
  }

  function RecoverRow(run: ScanRun, now: int): ScanRun {
    if Held(run) then Finish(run, Interrupted, now).(currentProject := None) else run
  }

  /** Restoring a backup also ends what was still queued. */
  function RestoreRow(run: ScanRun, now: int): ScanRun {
    if Active(run) then Finish(run, Interrupted, now).(currentProject := None) else run
  }

  function DeactivateRow(run: ScanRun, owner: int, now: int): ScanRun {
    if run.owner != owner || !Active(run) then run
    else if run.status == Queued then Finish(run, Cancelled, now)
    else run.(status := CancelRequested)
  }

  /** Deleting a project takes it out of active work and ends work that loses its subject. */
  function DetachRow(run: ScanRun, owner: int, project: int, now: int): ScanRun {
    if run.owner != owner || run.kind != Projects || !Active(run) || project !in run.projects then run
    else
      var rest := run.(projects := Without(run.projects, {project}));
      if rest.projects != [] && run.currentProject != Some(project) then rest
      else if run.status == Queued then
        Finish(rest, Cancelled, now).(reason := Some(ProjectDeleted), currentProject := None)
      else rest.(status := CancelRequested, reason := Some(ProjectDeleted))
  }

  /** A manual request takes its projects over from queued automatic runs. */
  function YieldRow(run: ScanRun, owner: int, requested: set<int>, now: int): ScanRun {
    if run.owner != owner || !Active(run) then run
    else
      var overlap := requested * ProjectSet(run);
      if run.kind != Projects || !run.automatic || run.status != Queued || overlap == {} then run
      else
        var rest := Without(run.projects, overlap);
        if rest != [] then run.(projects := rest)
        else Finish(run, Cancelled, now).(reason := Some(MergedIntoManualRun))
  }

  /** How a worker that stops on request leaves its run. */
  function StopRow(run: ScanRun, now: int): ScanRun {
    Finish(run, if run.reason == Some(SystemSleep) then InterruptedSleep else Cancelled, now).(currentProject := None)
  }

  /** A worker that reaches the end of an uncancelled run. */
  function CompleteRow(run: ScanRun, failures: bool, successes: bool, now: int): ScanRun {
    if run.status != Running then run
    else Finish(run, if !failures then Succeeded else if successes then Partial else Failed, now)
  }

  /** An unexpected error ends the run, cancelled or not. */
  function CrashRow(run: ScanRun, now: int): ScanRun {
    if Held(run) then Finish(run, Failed, now) else run
  }

  /** The end of `process_job` for the run the worker holds. */
  function LeaveRow(run: ScanRun, failures: bool, successes: bool, crashed: bool, now: int): ScanRun {
    if crashed then CrashRow(run, now)
    else if run.status == CancelRequested then StopRow(run, now)
    else CompleteRow(run, failures, successes, now)
  }

  /** The worker finds that the owner's account is no longer active. */
  function OrphanRow(run: ScanRun, starting: bool, now: int): ScanRun {
    if run.status != Running then run
    else if starting then Finish(run, Cancelled, now).(reason := Some(AccountInactive))
    else run.(status := CancelRequested)
  }

  // --- the table ------------------------------------------------------------------

  type Table = seq<ScanRun>

  function Each(t: Table, f: ScanRun -> ScanRun): (u: Table)
    ensures |u| == |t| && forall i | 0 <= i < |t| :: u[i] == f(t[i])
  {
    seq(|t|, i requires 0 <= i < |t| => f(t[i]))
  }

  predicate Claimable(run: ScanRun, activeOwners: set<int>) {
    run.status == Queued && run.owner in activeOwners
  }

  /** The order in which queued runs are taken; row numbers break ties of the clock. */
  predicate Earlier(t: Table, i: nat, j: nat)
    requires i < |t| && j < |t|
  {
    t[i].createdAt < t[j].createdAt || (t[i].createdAt == t[j].createdAt && i < j)
  }

  /** The row the claim statement selects, if any. */
  function OldestClaimable(t: Table, activeOwners: set<int>): (found: Option<nat>)
    ensures found.Some? ==> found.value < |t| && Claimable(t[found.value], activeOwners)
    ensures found.Some? ==> forall j | 0 <= j < |t| && j != found.value && Claimable(t[j], activeOwners) ::
                              Earlier(t, found.value, j)
    ensures found.None? ==> forall j | 0 <= j < |t| :: !Claimable(t[j], activeOwners)
  {
    if t == [] then None
    else
      var last := |t| - 1;
      var before := OldestClaimable(t[..last], activeOwners);
      if !Claimable(t[last], activeOwners) then before
      else if before.Some? && t[before.value].createdAt <= t[last].createdAt then before
      else Some(last)
  }

  predicate SomethingHeld(t: Table) {
    exists i | 0 <= i < |t| :: Held(t[i])
  }

  function ClaimRow(run: ScanRun): ScanRun {
    run.(status := Running, attempts := run.attempts + 1, finishedAt := None)
  }

  function Claimed(t: Table, activeOwners: set<int>, maintenance: bool): Option<nat> {
    if maintenance || SomethingHeld(t) then None else OldestClaimable(t, activeOwners)
  }

  function AfterClaim(t: Table, activeOwners: set<int>, maintenance: bool): Table {
    var id := Claimed(t, activeOwners, maintenance);
    if id.Some? then t[id.value := ClaimRow(t[id.value])] else t
  }

  // --- enqueueing -----------------------------------------------------------------

  datatype Request = Request(owner: int, kind: Kind, projects: seq<int>, cars: seq<int>, manual: bool)

  datatype Answer = Accepted(id: nat) | MaintenanceActive | NotEntitled | ProjectAlreadyActive | CarAlreadyActive

  function Requested(r: Request): set<int> {
    set p | p in r.projects
  }

  function RequestedCars(r: Request): set<int> {
    set c | c in r.cars
  }

  function NewRun(r: Request, automatic: bool, now: int): ScanRun {
    ScanRun(r.owner, r.kind, Queued, r.projects, r.cars, automatic, None, None, now, None, 0)
  }

  /** The table after queued automatic runs have made way for a manual request. */
  function Yielded(t: Table, r: Request, now: int): Table {
    if r.kind == Projects && r.manual then Each(t, run => YieldRow(run, r.owner, Requested(r), now)) else t
  }

  function Refusal(run: ScanRun, r: Request): Option<Answer> {
    if run.owner != r.owner || !Active(run) then None
    else if Requested(r) * ProjectSet(run) != {} then Some(ProjectAlreadyActive)
    else if RequestedCars(r) * CarSet(run) != {} then Some(CarAlreadyActive)
    else None
  }

  /** The first active run, in row order, that refuses the request. */
  function FirstRefusal(t: Table, r: Request): (refusal: Option<Answer>)
    ensures refusal.None? <==> forall i | 0 <= i < |t| :: Refusal(t[i], r).None?
    ensures refusal.Some? ==> refusal.value.ProjectAlreadyActive? || refusal.value.CarAlreadyActive?
  {
    if t == [] then None
    else if Refusal(t[0], r).Some? then Refusal(t[0], r)
    else FirstRefusal(t[1..], r)
  }

  function EnqueueAnswer(t: Table, r: Request, maintenance: bool, entitled: bool, now: int): Answer {
    if maintenance then MaintenanceActive
    else if !entitled then NotEntitled
    else
      var refusal := FirstRefusal(Yielded(t, r, now), r);
      if refusal.Some? then refusal.value else Accepted(|t|)
  }

  function AfterEnqueue(t: Table, r: Request, maintenance: bool, entitled: bool, now: int): Table {
    if EnqueueAnswer(t, r, maintenance, entitled, now).Accepted? then Yielded(t, r, now) + [NewRun(r, false, now)] else t
  }

  // --- scheduled runs -------------------------------------------------------------

  datatype Setting = Setting(user: int, enabled: bool, paused: bool, nextRunAt: Option<int>, interval: int, projects: seq<int>)

  predicate OwnerBusy(t: Table, owner: int) {
    exists i | 0 <= i < |t| :: t[i].owner == owner && Active(t[i])
  }

  /** A setting whose time has come. */
  predicate Due(s: Setting, activeOwners: set<int>, now: int) {
    s.enabled && s.user in activeOwners && !s.paused && s.nextRunAt.Some? && s.nextRunAt.value <= now
  }

  function SettingAfter(s: Setting, activeOwners: set<int>, entitled: bool, now: int): Setting {
    if !s.enabled || s.user !in activeOwners || s.paused then s
    else if s.nextRunAt.None? then s.(nextRunAt := Some(now + s.interval))
    else if s.nextRunAt.value > now then s
    else if entitled && s.projects == [] then s.(enabled := false, nextRunAt := None)
    else s.(nextRunAt := Some(now + s.interval))
  }

  function TableAfterSetting(t: Table, s: Setting, activeOwners: set<int>, entitled: bool, now: int): Table {
    if Due(s, activeOwners, now) && entitled && s.projects != [] && !OwnerBusy(t, s.user)
    then t + [NewRun(Request(s.user, Projects, s.projects, [], false), true, now)]
    else t
  }

  function TableAfterSettings(t: Table, settings: seq<Setting>, activeOwners: set<int>, entitled: bool, now: int): Table {
    if settings == [] then t
    else
      var last := |settings| - 1;
      TableAfterSetting(TableAfterSettings(t, settings[..last], activeOwners, entitled, now),
                        settings[last], activeOwners, entitled, now)
  }

  // --- the queue object -----------------------------------------------------------

  class Queue {
    var runs: Table
    var activeOwners: set<int>
    var settings: seq<Setting>

    constructor (owners: set<int>, schedule: seq<Setting>)
      ensures runs == [] && activeOwners == owners && settings == schedule
    {
      runs, activeOwners, settings := [], owners, schedule;
    }

    method ClaimNextJob(maintenance: bool) returns (claimed: Option<nat>)
      modifies this`runs
      ensures claimed == Claimed(old(runs), activeOwners, maintenance)
      ensures runs == AfterClaim(old(runs), activeOwners, maintenance)
    {
      if maintenance {
        return None;
      }
      for i := 0 to |runs|
        invariant forall j | 0 <= j < i :: !Held(runs[j])
      {
        if Held(runs[i]) {
          return None;
        }
      }
      claimed := None;
      for i := 0 to |runs|
        invariant claimed == OldestClaimable(runs[..i], activeOwners)
      {
        assert runs[..i + 1][..i] == runs[..i];
        if Claimable(runs[i], activeOwners)
           && (claimed.None? || runs[claimed.value].createdAt > runs[i].createdAt) {
          claimed := Some(i);
        }
      }
      assert runs[..|runs|] == runs;
      if claimed.Some? {
        runs := runs[claimed.value := ClaimRow(runs[claimed.value])];
      }
    }

    method Enqueue(r: Request, maintenance: bool, entitled: bool, now: int) returns (answer: Answer)
      modifies this`runs
      ensures answer == EnqueueAnswer(old(runs), r, maintenance, entitled, now)
      ensures runs == AfterEnqueue(old(runs), r, maintenance, entitled, now)
    {
      if maintenance {
        return MaintenanceActive;
      }
      if !entitled {
        return NotEntitled;
      }
      var table := runs;
      if r.kind == Projects && r.manual {
        for i := 0 to |runs|
          invariant runs == old(runs) && |table| == |runs|
          invariant forall j | 0 <= j < |runs| ::
            table[j] == if j < i then YieldRow(runs[j], r.owner, Requested(r), now) else runs[j]
        {
          var row := YieldOne(table[i], r, now);
          table := table[i := row];
        }
      }
      assert table == Yielded(runs, r, now);
      for i := 0 to |table|
        invariant FirstRefusal(table, r) == FirstRefusal(table[i..], r)
      {
        assert table[i..][0] == table[i] && table[i..][1..] == table[i + 1..];
        if table[i].owner == r.owner && Active(table[i]) {
          if Requested(r) * ProjectSet(table[i]) != {} {
            return ProjectAlreadyActive;
          }
          if RequestedCars(r) * CarSet(table[i]) != {} {
            return CarAlreadyActive;
          }
        }
      }
      answer := Accepted(|runs|);
      runs := table + [NewRun(r, false, now)];
    }

    method EnqueueScheduled(maintenance: bool, entitled: bool, now: int)
      modifies this`runs, this`settings
      ensures runs == if maintenance then old(runs)
                      else TableAfterSettings(old(runs), old(settings), activeOwners, entitled, now)
      ensures |settings| == |old(settings)|
      ensures forall i | 0 <= i < |settings| ::
        settings[i] == if maintenance then old(settings)[i]
                       else SettingAfter(old(settings)[i], activeOwners, entitled, now)
    {
      if maintenance {
        return;
      }
      ghost var before, table := settings, runs;
      for i := 0 to |settings|
        invariant |settings| == |before|
        invariant forall j | 0 <= j < |before| ::
          settings[j] == if j < i then SettingAfter(before[j], activeOwners, entitled, now) else before[j]
        invariant runs == TableAfterSettings(table, before[..i], activeOwners, entitled, now)
      {
        assert before[..i + 1][..i] == before[..i];
        var setting := settings[i];
        if !setting.enabled || setting.user !in activeOwners || setting.paused {
          continue;
        }
        if setting.nextRunAt.None? {
          settings := settings[i := setting.(nextRunAt := Some(now + setting.interval))];
          continue;
        }
        if setting.nextRunAt.value > now {
          continue;
        }
        if !entitled {
          settings := settings[i := setting.(nextRunAt := Some(now + setting.interval))];
          continue;
        }
        if setting.projects == [] {
          settings := settings[i := setting.(enabled := false, nextRunAt := None)];
          continue;
        }
        if !OwnerBusy(runs, setting.user) {
          runs := runs + [NewRun(Request(setting.user, Projects, setting.projects, [], false), true, now)];
        }
        settings := settings[i := setting.(nextRunAt := Some(now + setting.interval))];
      }
      assert before[..|before|] == before;
    }

    /** The cancel endpoint; a finished run answers with a conflict. */
    method CancelScan(id: nat, owner: int, now: int) returns (found: bool, conflict: bool)
      modifies this`runs
      ensures found == (id < |old(runs)| && old(runs)[id].owner == owner)
      ensures conflict == (found && Terminal(old(runs)[id].status) && old(runs)[id].status != Cancelled)
      ensures runs == if found then old(runs)[id := CancelRow(old(runs)[id], now)] else old(runs)
    {
      if id >= |runs| || runs[id].owner != owner {
        return false, false;
      }
      var run := runs[id];
      if run.status == Cancelled || run.status == CancelRequested {
        return true, false;
      }
      if run.status != Queued && run.status != Running {
        return true, true;
      }
      if run.status == Queued {
        run := run.(status := Cancelled, finishedAt := Some(now), currentProject := None);
      } else {
        run := run.(status := CancelRequested);
      }
      runs := runs[id := run];
      return true, false;
    }

    method DetachProject(owner: int, project: int, now: int) returns (affected: seq<nat>)
      modifies this`runs
      ensures runs == Each(old(runs), run => DetachRow(run, owner, project, now))
      ensures forall i: nat :: i in affected <==>
        i < |old(runs)| && old(runs)[i].owner == owner && old(runs)[i].kind == Projects
        && Active(old(runs)[i]) && project in old(runs)[i].projects
    {
      affected := [];
      ghost var before := runs;
      for i := 0 to |runs|
        invariant |runs| == |before|
        invariant forall j | 0 <= j < |before| ::
          runs[j] == if j < i then DetachRow(before[j], owner, project, now) else before[j]
        invariant forall j: nat :: j in affected <==>
          j < i && before[j].owner == owner && before[j].kind == Projects
          && Active(before[j]) && project in before[j].projects
      {
        if runs[i].owner != owner || runs[i].kind != Projects || !Active(runs[i]) || project !in runs[i].projects {
          continue;
        }
        affected := affected + [i];
        var run := DetachOne(runs[i], owner, project, now);
        runs := runs[i := run];
      }
    }

    method RecoverInterruptedJobs(now: int) returns (recovered: seq<nat>)
      modifies this`runs
      ensures runs == Each(old(runs), run => RecoverRow(run, now))
      ensures forall i: nat :: i in recovered <==> i < |old(runs)| && Held(old(runs)[i])
    {
      recovered := [];
      ghost var before := runs;
      for i := 0 to |runs|
        invariant |runs| == |before|
        invariant forall j | 0 <= j < |before| :: runs[j] == if j < i then RecoverRow(before[j], now) else before[j]
        invariant forall j: nat :: j in recovered <==> j < i && Held(before[j])
      {
        if Held(runs[i]) {
          runs := runs[i := runs[i].(currentProject := None, status := Interrupted, finishedAt := Some(now))];
          recovered := recovered + [i];
        }
      }
    }

    /** Restoring a backup: recovery first, then what was still queued. */
    method InterruptUnfinishedJobs(now: int)
      modifies this`runs
      ensures runs == Each(old(runs), run => RestoreRow(run, now))
    {
      ghost var before := runs;
      var recovered := RecoverInterruptedJobs(now);
      ghost var middle := runs;
      for i := 0 to |runs|
        invariant |runs| == |before|
        invariant forall j | 0 <= j < |before| :: runs[j] == if j < i then RestoreRow(before[j], now) else middle[j]
      {
        if runs[i].status == Queued {
          runs := runs[i := runs[i].(currentProject := None, status := Interrupted, finishedAt := Some(now))];
        }
      }
    }

    method RequestShutdownCancellation(now: int) returns (cancelled: seq<nat>, requested: seq<nat>)
      modifies this`runs
      ensures runs == Each(old(runs), run => ShutdownRow(run, now))
      ensures forall i: nat :: i in cancelled <==> i < |old(runs)| && old(runs)[i].status == Queued
      ensures forall i: nat :: i in requested <==> i < |old(runs)| && old(runs)[i].status == Running
    {
      cancelled, requested := [], [];
      ghost var before := runs;
      for i := 0 to |runs|
        invariant |runs| == |before|
        invariant forall j | 0 <= j < |before| :: runs[j] == if j < i then ShutdownRow(before[j], now) else before[j]
        invariant forall j: nat :: j in cancelled <==> j < i && before[j].status == Queued
        invariant forall j: nat :: j in requested <==> j < i && before[j].status == Running
      {
        if runs[i].status == Queued {
          runs := runs[i := runs[i].(reason := Some(ApplicationShutdown), status := Cancelled, finishedAt := Some(now))];
          cancelled := cancelled + [i];
        } else if runs[i].status == Running {
          runs := runs[i := runs[i].(reason := Some(ApplicationShutdown), status := CancelRequested)];
          requested := requested + [i];
        }
      }
    }

    method RequestSleepInterruption() returns (requested: seq<nat>, catchUpOwners: set<int>)
      modifies this`runs
      ensures runs == Each(old(runs), run => SleepRow(run))
      ensures forall i: nat :: i in requested <==> i < |old(runs)| && old(runs)[i].status == Running
      ensures catchUpOwners == set run | run in old(runs) && run.status == Running && run.automatic :: run.owner
    {
      requested, catchUpOwners := [], {};
      ghost var before := runs;
      for i := 0 to |runs|
        invariant |runs| == |before|
        invariant forall j | 0 <= j < |before| :: runs[j] == if j < i then SleepRow(before[j]) else before[j]
        invariant forall j: nat :: j in requested <==> j < i && before[j].status == Running
        invariant catchUpOwners == set run | run in before[..i] && run.status == Running && run.automatic :: run.owner
      {
        assert before[..i + 1] == before[..i] + [before[i]];
        if runs[i].status == Running {
          requested := requested + [i];
          if runs[i].automatic {
            catchUpOwners := catchUpOwners + {runs[i].owner};
          }
          runs := runs[i := runs[i].(status := CancelRequested, reason := Some(SystemSleep))];
        }
      }
      assert before[..|before|] == before;
    }

    /** The run-cancelling part of changing an account to any status but ACTIVE. */
    method DeactivateOwner(owner: int, now: int)
      modifies this`runs, this`activeOwners
      ensures activeOwners == old(activeOwners) - {owner}
      ensures runs == Each(old(runs), run => DeactivateRow(run, owner, now))
    {
      activeOwners := activeOwners - {owner};
      ghost var before := runs;
      for i := 0 to |runs|
        invariant |runs| == |before| && activeOwners == old(activeOwners) - {owner}
        invariant forall j | 0 <= j < |before| :: runs[j] == if j < i then DeactivateRow(before[j], owner, now) else before[j]
      {
        if runs[i].owner == owner && Active(runs[i]) {
          if runs[i].status == Queued {
            runs := runs[i := runs[i].(status := Cancelled, finishedAt := Some(now))];
          } else {
            runs := runs[i := runs[i].(status := CancelRequested)];
          }
        }
      }
    }
  }

  /** How the worker leaves the run it holds; other rows are not its business. */
  method LeaveRun(runs: Table, id: nat, failures: bool, successes: bool, crashed: bool, now: int) returns (after: Table)
    ensures after == if id < |runs| then runs[id := LeaveRow(runs[id], failures, successes, crashed, now)] else runs
  {
    after := runs;
    if id >= |runs| || !Held(runs[id]) {
      return;
    }
    var run := runs[id];
    var status := Failed;
    if !crashed && run.status == CancelRequested {
      status := if run.reason == Some(SystemSleep) then InterruptedSleep else Cancelled;
      run := run.(currentProject := None);
    } else if !crashed {
      status := if !failures then Succeeded else if successes then Partial else Failed;
    }
    after := runs[id := run.(status := status, finishedAt := Some(now))];
  }

  /** One turn of the loop in `detach_project_from_active_jobs`, for a run that has the project. */
  method DetachOne(before: ScanRun, owner: int, project: int, now: int) returns (run: ScanRun)
    requires before.owner == owner && before.kind == Projects && Active(before) && project in before.projects
    ensures run == DetachRow(before, owner, project, now)
  {
    var remaining := Without(before.projects, {project});
    run := before.(projects := remaining);
    if remaining == [] || run.currentProject == Some(project) {
      run := run.(reason := Some(ProjectDeleted));
      if run.status == Queued {
        run := run.(status := Cancelled, finishedAt := Some(now), currentProject := None);
      } else {
        run := run.(status := CancelRequested);
      }
    }
  }

  /** One turn of the merge loop in `enqueue`. */
  method YieldOne(run: ScanRun, r: Request, now: int) returns (row: ScanRun)
    ensures row == YieldRow(run, r.owner, Requested(r), now)
  {
    row := run;
    if run.owner != r.owner || !Active(run) {
      return;
    }
    var overlap := Requested(r) * ProjectSet(run);
    if run.kind != Projects || !run.automatic || run.status != Queued || overlap == {} {
      return;
    }
    var remaining := Without(run.projects, overlap);
    if remaining != [] {
      row := run.(projects := remaining);
    } else {
      row := run.(status := Cancelled, finishedAt := Some(now), reason := Some(MergedIntoManualRun));
    }
  }
}
