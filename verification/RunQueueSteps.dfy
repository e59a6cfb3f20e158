/**
 What each step of the scan-run queue does to a row, which steps can end a row and how, and
 what a request or a schedule adds (backend/app/job_queue.py, backend/app/main.py,
 backend/app/worker.py).
 */
module RunQueueSteps {
  import opened RunQueue
  import opened RunQueueRuns
  import opened Wrappers

  // --- what a step asks of a row --------------------------------------------------

  /** The step is addressed to this row. */
  predicate Names(s: Step, i: nat, run: ScanRun) {
    match s
    case Cancel(id, owner, _) => id == i && run.owner == owner
    case Detach(owner, project, _) => run.owner == owner && run.kind == Projects && project in run.projects
    case Deactivate(owner, _) => run.owner == owner
    case Enter(id, _) => id == i
    case Leave(id, _, _, _, _) => id == i
    case Orphan(id, _, _) => id == i
    case Recover(_) => true
    case Restore(_) => true
    case Shutdown(_) => true
    case Sleep => true
    case _ => false
  }

  /** Without this project the row has nothing left to do, or it is what the row is working on. */
  predicate LosesSubject(run: ScanRun, project: int) {
    (forall p | p in run.projects :: p == project) || run.currentProject == Some(project)
  }

  /** A manual request that takes over all that a queued automatic run was to do. */
  predicate Swallowed(t: Table, s: Step, run: ScanRun) {
    && s.Enqueue? && s.request.kind == Projects && s.request.manual
    && EnqueueAnswer(t, s.request, s.maintenance, s.entitled, s.now).Accepted?
    && run.owner == s.request.owner && run.kind == Projects && run.automatic && run.status == Queued
    && run.projects != [] && forall p | p in run.projects :: p in s.request.projects
  }

  /** The step ends an active row with this status. */
  predicate Ends(t: Table, s: Step, i: nat, run: ScanRun, status: Status) {
    match status
    case Succeeded => s.Leave? && s.id == i && run.status == Running && !s.crashed && !s.failures
    case Partial => s.Leave? && s.id == i && run.status == Running && !s.crashed && s.failures && s.successes
    case Failed =>
      && s.Leave? && s.id == i && run.status in {Running, CancelRequested}
      && (s.crashed || (run.status == Running && s.failures && !s.successes))
    case InterruptedSleep =>
      s.Leave? && s.id == i && run.status == CancelRequested && !s.crashed && run.reason == Some(SystemSleep)
    case Interrupted =>
      s.Restore? || (s.Recover? && run.status in {Running, CancelRequested})
    case Cancelled =>
      || (s.Leave? && s.id == i && run.status == CancelRequested && !s.crashed && run.reason != Some(SystemSleep))
      || (s.Orphan? && s.id == i && run.status == Running && s.starting)
      || (run.status == Queued && Names(s, i, run)
          && (s.Cancel? || s.Shutdown? || s.Deactivate? || (s.Detach? && LosesSubject(run, s.project))))
      || Swallowed(t, s, run)
    case _ => false
  }

  /** The step asks a running row to stop. */
  predicate Stops(s: Step, i: nat, run: ScanRun) {
    && run.status == Running && Names(s, i, run)
    && (s.Cancel? || s.Shutdown? || s.Sleep? || s.Deactivate? || (s.Detach? && LosesSubject(run, s.project))
        || (s.Orphan? && !s.starting))
  }

  /** The step claims this row: it is the oldest that may be taken, and nothing is in the way. */
  predicate Claims(q: State, s: Step, i: nat)
    requires i < |q.runs|
  {
    && s.Claim? && !s.maintenance
    && (forall j | 0 <= j < |q.runs| :: q.runs[j].status !in {Running, CancelRequested})
    && q.runs[i].status == Queued && q.runs[i].owner in q.owners
    && forall j | 0 <= j < |q.runs| && j != i && q.runs[j].status == Queued && q.runs[j].owner in q.owners ::
         q.runs[i].createdAt < q.runs[j].createdAt || (q.runs[i].createdAt == q.runs[j].createdAt && i < j)
  }

  lemma WithoutNothingLeft(run: ScanRun, gone: set<int>)
    ensures Without(run.projects, gone) == [] <==> forall p | p in run.projects :: p in gone
  {
    if Without(run.projects, gone) == [] {
      forall p | p in run.projects ensures p in gone {
        assert p !in Without(run.projects, gone);
      }
    } else {
      var p := Without(run.projects, gone)[0];
      assert p in Without(run.projects, gone);
    }
  }

  // --- the status of a row after a step -------------------------------------------

  /** One row after a step that neither claims nor adds. */
  lemma PlainStepStatus(t: Table, s: Step, i: nat, run: ScanRun)
    requires !s.Claim? && !s.Enqueue? && !s.Schedule? && Active(run)
    ensures var after := RowAfter(s, i, run).status;
            && (Terminal(after) ==> Ends(t, s, i, run, after))
            && (forall status | Ends(t, s, i, run, status) :: after == status)
            && (!Terminal(after) ==> after == if Stops(s, i, run) then CancelRequested else run.status)
  {
    if s.Detach? {
      WithoutNothingLeft(run, {s.project});
    }
  }

  lemma ClaimedStatus(q: State, s: Step, i: nat)
    requires s.Claim? && i < |q.runs|
    ensures Next(q, s).runs[i].status == if Claims(q, s, i) then Running else q.runs[i].status
    ensures Claims(q, s, i) ==> Next(q, s).runs[i] == q.runs[i].(status := Running, attempts := q.runs[i].attempts + 1, finishedAt := None)
    ensures !Claims(q, s, i) ==> Next(q, s).runs[i] == q.runs[i]
  {
    var id := Claimed(q.runs, q.owners, s.maintenance);
    if id.Some? {
      forall j | 0 <= j < |q.runs| ensures q.runs[j].status !in {Running, CancelRequested} {
        assert !Held(q.runs[j]);
      }
      assert Claimable(q.runs[i], q.owners) && i != id.value ==> Earlier(q.runs, id.value, i);
      if i == id.value {
        forall j | 0 <= j < |q.runs| && j != i && q.runs[j].status == Queued && q.runs[j].owner in q.owners
          ensures q.runs[i].createdAt < q.runs[j].createdAt || (q.runs[i].createdAt == q.runs[j].createdAt && i < j)
        {
          assert Claimable(q.runs[j], q.owners);
        }
      }
    } else if Claims(q, s, i) {
      assert Claimable(q.runs[i], q.owners);
      assert forall j | 0 <= j < |q.runs| :: !Held(q.runs[j]);
      assert false;
    }
  }

  lemma YieldStatus(t: Table, s: Step, run: ScanRun)
    requires s.Enqueue? && Active(run)
    requires EnqueueAnswer(t, s.request, s.maintenance, s.entitled, s.now).Accepted? && s.request.kind == Projects && s.request.manual
    ensures var after := YieldRow(run, s.request.owner, Requested(s.request), s.now);
            && after.status == (if Swallowed(t, s, run) then Cancelled else run.status)
            && after.owner == run.owner && after.kind == run.kind && after.cars == run.cars && after.automatic == run.automatic
            && after.createdAt == run.createdAt && after.attempts == run.attempts && after.currentProject == run.currentProject
  {
    hide EnqueueAnswer;
    var overlap := Requested(s.request) * ProjectSet(run);
    WithoutNothingLeft(run, overlap);
    if overlap == {} && run.projects != [] {
      assert run.projects[0] in run.projects;
      assert run.projects[0] !in overlap;
    }
    assert run.projects == [] ==> overlap == {};
  }

  // --- the other fields -----------------------------------------------------------

  /** The time that a step writes. */
  function At(s: Step): int {
    match s
    case Claim(_) => 0
    case Sleep => 0
    case Activate(_) => 0
    case Enter(_, _) => 0
    case _ => s.now
  }

  /** Why the step ends the row or asks it to stop, if it says so. */
  function Why(s: Step, i: nat, run: ScanRun): Option<Reason> {
    match s
    case Shutdown(_) => if run.status in {Queued, Running} then Some(ApplicationShutdown) else None
    case Sleep => if run.status == Running then Some(SystemSleep) else None
    case Detach(_, project, _) => if Names(s, i, run) && LosesSubject(run, project) then Some(ProjectDeleted) else None
    case Orphan(_, starting, _) => if Names(s, i, run) && starting && run.status == Running then Some(AccountInactive) else None
    case _ => None
  }

  /**
   What a step that neither claims nor adds does to an active row besides its status. An
   ended row gets the time; the reason changes only to say why; a deleted project leaves
   the row's projects; the current project is forgotten when the row is cancelled,
   recovered, restored, deleted while queued or stopped on request, and else only moved on.
   */
  lemma PlainStepFields(t: Table, s: Step, i: nat, run: ScanRun)
    requires !s.Claim? && !s.Enqueue? && !s.Schedule? && Active(run)
    ensures var after := RowAfter(s, i, run);
            && after.owner == run.owner && after.kind == run.kind && after.cars == run.cars && after.automatic == run.automatic
            && after.createdAt == run.createdAt && after.attempts == run.attempts
            && after.finishedAt == (if Terminal(after.status) then Some(At(s)) else run.finishedAt)
            && after.reason == (if Why(s, i, run).Some? then Why(s, i, run) else run.reason)
            && (forall p :: p in after.projects <==> p in run.projects && !(s.Detach? && Names(s, i, run) && p == s.project))
            && (!(s.Detach? && Names(s, i, run)) ==> after.projects == run.projects)
            && after.currentProject ==
                 if s.Enter? && s.id == i && run.status in {Running, CancelRequested} then Some(s.project)
                 else if Terminal(after.status)
                         && (s.Cancel? || s.Recover? || s.Restore? || s.Detach? || (s.Leave? && !s.crashed && run.status == CancelRequested))
                 then None else run.currentProject
  {
    if s.Detach? {
      WithoutNothingLeft(run, {s.project});
    }
  }

  // --- every step -----------------------------------------------------------------

  /** Only a change of its account moves an owner. */
  lemma OwnersAfterStep(q: State, s: Step, owner: int)
    ensures owner in Next(q, s).owners
      <==> (s.Activate? && s.owner == owner) || (owner in q.owners && !(s.Deactivate? && s.owner == owner))
  {
    hide RowAfter, AfterClaim, AfterEnqueue, TableAfterSettings;
  }

  lemma OtherStep(q: State, s: Step, i: nat)
    requires i < |q.runs| && !s.Claim? && !s.Enqueue? && !s.Schedule?
    ensures |Next(q, s).runs| == |q.runs| && Next(q, s).runs[i] == RowAfter(s, i, q.runs[i])
  {
  }

  lemma EnqueuedRow(q: State, s: Step, i: nat)
    requires i < |q.runs| && s.Enqueue?
    ensures i < |Next(q, s).runs|
    ensures Next(q, s).runs[i]
            == if EnqueueAnswer(q.runs, s.request, s.maintenance, s.entitled, s.now).Accepted?
                  && s.request.kind == Projects && s.request.manual
               then YieldRow(q.runs[i], s.request.owner, Requested(s.request), s.now) else q.runs[i]
  {
    hide EnqueueAnswer, YieldRow;
  }

  lemma {:induction false} ScheduledRow(t: Table, settings: seq<Setting>, owners: set<int>, entitled: bool, now: int)
    ensures t <= TableAfterSettings(t, settings, owners, entitled, now)
  {
    hide Due, OwnerBusy;
    if settings != [] {
      ScheduledRow(t, settings[..|settings| - 1], owners, entitled, now);
    }
  }

  lemma YieldEnds(t: Table, s: Step, i: nat, run: ScanRun)
    requires s.Enqueue?
    ensures forall status :: Ends(t, s, i, run, status) <==> status == Cancelled && Swallowed(t, s, run)
  {
    hide Swallowed;
  }

  /**
   Which step gives an active row which status. Each of the six ways to end has its one
   cause; a row is asked to stop, or claimed, exactly where it is; and else it stays what
   it was.
   */
  lemma StatusAfterStep(q: State, s: Step, i: nat)
    requires i < |q.runs| && Active(q.runs[i])
    ensures i < |Next(q, s).runs|
    ensures var run, after := q.runs[i], Next(q, s).runs[i].status;
            && (Terminal(after) ==> Ends(q.runs, s, i, run, after))
            && (forall status | Ends(q.runs, s, i, run, status) :: after == status)
            && (!Terminal(after) ==> after == if Stops(s, i, run) then CancelRequested else if Claims(q, s, i) then Running else run.status)
  {
    hide Ends, Stops, Claims, Next, Active, EnqueueAnswer, Swallowed;
    var run := q.runs[i];
    if s.Claim? {
      ClaimedStatus(q, s, i);
      NoEnds(q.runs, s, i, run);
      ClaimKeepsLength(q, s);
    } else if s.Enqueue? {
      EnqueuedRow(q, s, i);
      YieldEnds(q.runs, s, i, run);
      NoClaims(q, s, i);
      if EnqueueAnswer(q.runs, s.request, s.maintenance, s.entitled, s.now).Accepted? && s.request.kind == Projects && s.request.manual {
        YieldStatus(q.runs, s, run);
      } else {
        NotSwallowed(q.runs, s, run);
      }
    } else if s.Schedule? {
      NextSchedules(q, s);
      ScheduledRow(q.runs, s.settings, q.owners, s.entitled, s.now);
      NoEnds(q.runs, s, i, run);
      NoClaims(q, s, i);
    } else {
      OtherStep(q, s, i);
      PlainStepStatus(q.runs, s, i, run);
      NoClaims(q, s, i);
    }
    ActiveIsNotTerminal(run);
  }

  lemma ActiveIsNotTerminal(run: ScanRun)
    ensures Active(run) <==> !Terminal(run.status)
  {
  }

  lemma NotSwallowed(t: Table, s: Step, run: ScanRun)
    requires s.Enqueue?
    requires !(EnqueueAnswer(t, s.request, s.maintenance, s.entitled, s.now).Accepted?
               && s.request.kind == Projects && s.request.manual)
    ensures !Swallowed(t, s, run)
  {
    hide EnqueueAnswer;
  }

  lemma NextSchedules(q: State, s: Step)
    requires s.Schedule?
    ensures Next(q, s).runs == TableAfterSettings(q.runs, s.settings, q.owners, s.entitled, s.now)
  {
    hide TableAfterSettings;
  }

  lemma ClaimKeepsLength(q: State, s: Step)
    requires s.Claim?
    ensures |Next(q, s).runs| == |q.runs|
  {
  }

  lemma NoEnds(t: Table, s: Step, i: nat, run: ScanRun)
    requires s.Claim? || s.Schedule?
    ensures forall status :: !Ends(t, s, i, run, status)
    ensures !Stops(s, i, run)
  {
  }

  lemma NoClaims(q: State, s: Step, i: nat)
    requires i < |q.runs| && !s.Claim?
    ensures !Claims(q, s, i)
    ensures s.Enqueue? || s.Schedule? ==> !Stops(s, i, q.runs[i])
  {
  }

  // --- what a request adds --------------------------------------------------------

  /** A row that nothing has happened to yet. */
  predicate Untouched(run: ScanRun) {
    run.status == Queued && run.reason.None? && run.finishedAt.None? && run.currentProject.None? && run.attempts == 0
  }

  /** The row asks for projects or cars of its owner that the active row is already busy with, and does not make way. */
  predicate Blocks(run: ScanRun, r: Request) {
    var givesWay := r.kind == Projects && r.manual && run.kind == Projects && run.automatic && run.status == Queued;
    var swallowed := givesWay && run.projects != [] && forall p | p in run.projects :: p in r.projects;
    && run.owner == r.owner && run.status in {Queued, Running, CancelRequested}
    && ((!givesWay && exists p :: p in run.projects && p in r.projects)
        || (!swallowed && exists c :: c in run.cars && c in r.cars))
  }

  lemma Common(a: seq<int>, b: seq<int>)
    ensures (set p | p in a) * (set p | p in b) != {} <==> exists p :: p in a && p in b
  {
    var x, y := set p | p in a, set p | p in b;
    if exists p :: p in a && p in b {
      var p :| p in a && p in b;
      assert p in x * y;
    }
  }

  lemma CommonProjects(run: ScanRun, r: Request)
    ensures Requested(r) * ProjectSet(run) != {} <==> exists p :: p in r.projects && p in run.projects
    ensures RequestedCars(r) * CarSet(run) != {} <==> exists c :: c in r.cars && c in run.cars
  {
    Common(r.projects, run.projects);
    Common(r.cars, run.cars);
  }

  lemma YieldedBlocks(run: ScanRun, r: Request, now: int)
    requires r.kind == Projects && r.manual
    ensures Refusal(YieldRow(run, r.owner, Requested(r), now), r).Some? <==> Blocks(run, r)
  {
    var after := YieldRow(run, r.owner, Requested(r), now);
    var overlap := Requested(r) * ProjectSet(run);
    CommonProjects(run, r);
    CommonProjects(after, r);
    WithoutNothingLeft(run, overlap);
    if run.projects != [] && overlap == {} {
      assert run.projects[0] in run.projects;
      assert run.projects[0] !in overlap;
    }
    assert run.projects == [] ==> overlap == {};
    if after.projects == Without(run.projects, overlap) {
      assert forall p :: p in after.projects ==> p !in r.projects;
    }
  }

  lemma PlainBlocks(run: ScanRun, r: Request)
    requires !(r.kind == Projects && r.manual)
    ensures Refusal(run, r).Some? <==> Blocks(run, r)
  {
    CommonProjects(run, r);
  }

  /**
   A request is turned down for maintenance, for a missing entitlement, or because some
   active row of its owner blocks it, and else accepted under the next row number.
   */
  lemma RequestIsAcceptedExactly(t: Table, r: Request, maintenance: bool, entitled: bool, now: int)
    ensures var answer := EnqueueAnswer(t, r, maintenance, entitled, now);
            && (answer == MaintenanceActive <==> maintenance)
            && (answer == NotEntitled <==> !maintenance && !entitled)
            && (answer.Accepted? <==> !maintenance && entitled && forall i | 0 <= i < |t| :: !Blocks(t[i], r))
            && (answer.Accepted? ==> answer.id == |t|)
            && (!answer.Accepted? ==> AfterEnqueue(t, r, maintenance, entitled, now) == t)
  {
    hide Blocks, Refusal, YieldRow, NewRun;
    var u := Yielded(t, r, now);
    forall i | 0 <= i < |t| ensures Refusal(u[i], r).Some? <==> Blocks(t[i], r) {
      if r.kind == Projects && r.manual {
        YieldedBlocks(t[i], r, now);
      } else {
        PlainBlocks(t[i], r);
      }
    }
  }

  /**
   An accepted request adds one row behind the others that asks for what was requested,
   by hand, and is otherwise untouched. Of the others it changes only the queued automatic
   runs of its owner that share a project with a manual request: they lose those projects.
   */
  lemma AcceptedRequestIsQueued(t: Table, r: Request, maintenance: bool, entitled: bool, now: int)
    requires EnqueueAnswer(t, r, maintenance, entitled, now).Accepted?
    ensures var u := AfterEnqueue(t, r, maintenance, entitled, now);
            && |u| == |t| + 1
            && (var run := u[|t|];
                && Untouched(run) && run.owner == r.owner && run.kind == r.kind && run.projects == r.projects
                && run.cars == r.cars && !run.automatic && run.createdAt == now)
            && forall i | 0 <= i < |t| ::
                 && (u[i] != t[i] <==> r.kind == Projects && r.manual && t[i].kind == Projects && t[i].automatic
                                       && t[i].owner == r.owner && t[i].status == Queued
                                       && exists p :: p in t[i].projects && p in r.projects)
                 && (u[i] != t[i] && (exists p :: p in t[i].projects && p !in r.projects) ==>
                       u[i] == t[i].(projects := u[i].projects)
                       && forall p :: p in u[i].projects <==> p in t[i].projects && p !in r.projects)
                 && (u[i] != t[i] && (forall p | p in t[i].projects :: p in r.projects) ==>
                       u[i] == t[i].(status := Cancelled, finishedAt := Some(now), reason := Some(MergedIntoManualRun)))
  {
    hide EnqueueAnswer;
    var u := AfterEnqueue(t, r, maintenance, entitled, now);
    if r.kind == Projects && r.manual {
      forall i | 0 <= i < |t| ensures u[i] == YieldRow(t[i], r.owner, Requested(r), now) {
      }
      hide AfterEnqueue;
      forall i | 0 <= i < |t|
        ensures u[i] != t[i] <==> t[i].kind == Projects && t[i].automatic
                                  && t[i].owner == r.owner && t[i].status == Queued
                                  && exists p :: p in t[i].projects && p in r.projects
        ensures u[i] != t[i] && (exists p :: p in t[i].projects && p !in r.projects) ==>
                  u[i] == t[i].(projects := u[i].projects)
                  && forall p :: p in u[i].projects <==> p in t[i].projects && p !in r.projects
        ensures u[i] != t[i] && (forall p | p in t[i].projects :: p in r.projects) ==>
                  u[i] == t[i].(status := Cancelled, finishedAt := Some(now), reason := Some(MergedIntoManualRun))
      {
        YieldedRowIs(t[i], r, now);
      }
    }
  }

  lemma YieldedRowIs(run: ScanRun, r: Request, now: int)
    ensures var after := YieldRow(run, r.owner, Requested(r), now);
            && (after != run <==> run.kind == Projects && run.automatic && run.owner == r.owner && run.status == Queued
                                  && exists p :: p in run.projects && p in r.projects)
            && (after != run && (exists p :: p in run.projects && p !in r.projects) ==>
                  after == run.(projects := after.projects)
                  && forall p :: p in after.projects <==> p in run.projects && p !in r.projects)
            && (after != run && (forall p | p in run.projects :: p in r.projects) ==>
                  after == run.(status := Cancelled, finishedAt := Some(now), reason := Some(MergedIntoManualRun)))
  {
    var overlap := Requested(r) * ProjectSet(run);
    CommonProjects(run, r);
    WithoutNothingLeft(run, overlap);
    if exists p :: p in run.projects && p in r.projects {
      var p :| p in run.projects && p in r.projects;
      assert p in overlap && p !in Without(run.projects, overlap);
    }
  }

  // --- what the scheduler adds ----------------------------------------------------

  /** The setting asks for a run now. */
  predicate Ready(s: Setting, owners: set<int>, entitled: bool, now: int) {
    && s.enabled && !s.paused && s.user in owners && s.nextRunAt.Some? && s.nextRunAt.value <= now
    && entitled && s.projects != []
  }

  /** The owner has a row that is not finished. */
  predicate Busy(t: Table, owner: int) {
    exists i | 0 <= i < |t| :: t[i].owner == owner && t[i].status in {Queued, Running, CancelRequested}
  }

  lemma BusyIs(t: Table, owner: int)
    ensures OwnerBusy(t, owner) <==> Busy(t, owner)
  {
    if OwnerBusy(t, owner) {
      var i :| 0 <= i < |t| && t[i].owner == owner && Active(t[i]);
      assert t[i].status in {Queued, Running, CancelRequested};
    }
    if Busy(t, owner) {
      var i :| 0 <= i < |t| && t[i].owner == owner && t[i].status in {Queued, Running, CancelRequested};
      assert Active(t[i]);
    }
  }

  /** The automatic run of a setting. */
  predicate RunOf(run: ScanRun, s: Setting, now: int) {
    && Untouched(run) && run.owner == s.user && run.kind == Projects && run.projects == s.projects
    && run.cars == [] && run.automatic && run.createdAt == now
  }

  /** One of the settings asks for this run. */
  predicate AskedFor(run: ScanRun, settings: seq<Setting>, owners: set<int>, entitled: bool, now: int) {
    exists k :: 0 <= k < |settings| && Ready(settings[k], owners, entitled, now) && RunOf(run, settings[k], now)
  }

  lemma StillAskedFor(run: ScanRun, settings: seq<Setting>, owners: set<int>, entitled: bool, now: int)
    requires settings != []
    ensures AskedFor(run, settings[..|settings| - 1], owners, entitled, now) ==> AskedFor(run, settings, owners, entitled, now)
    ensures Ready(settings[|settings| - 1], owners, entitled, now) && RunOf(run, settings[|settings| - 1], now) ==>
              AskedFor(run, settings, owners, entitled, now)
  {
    hide Ready, RunOf;
    var front := settings[..|settings| - 1];
    if AskedFor(run, front, owners, entitled, now) {
      var k :| 0 <= k < |front| && Ready(front[k], owners, entitled, now) && RunOf(run, front[k], now);
      assert settings[k] == front[k];
    }
  }

  lemma AskedForIsUntouched(run: ScanRun, settings: seq<Setting>, owners: set<int>, entitled: bool, now: int)
    requires AskedFor(run, settings, owners, entitled, now)
    ensures Untouched(run)
  {
    hide Ready, Untouched;
  }

  lemma OneSetting(t: Table, s: Setting, owners: set<int>, entitled: bool, now: int)
    ensures var u := TableAfterSetting(t, s, owners, entitled, now);
            if Ready(s, owners, entitled, now) && !Busy(t, s.user) then |u| == |t| + 1 && u[..|t|] == t && RunOf(u[|t|], s, now)
            else u == t
  {
    BusyIs(t, s.user);
    hide OwnerBusy, Busy;
  }

  lemma BusyStays(t: Table, u: Table, owner: int)
    requires t <= u && Busy(t, owner)
    ensures Busy(u, owner)
  {
    var i :| 0 <= i < |t| && t[i].owner == owner && t[i].status in {Queued, Running, CancelRequested};
    assert u[i] == t[i];
  }

  /**
   One pass of the scheduler adds rows behind the others: each is the automatic run of a
   setting that asks for one, its owner had nothing to do, and no owner gets two. After
   the pass every owner of such a setting has something to do.
   */
  lemma {:induction false} ScheduledExactly(t: Table, settings: seq<Setting>, owners: set<int>, entitled: bool, now: int)
    ensures var u := TableAfterSettings(t, settings, owners, entitled, now);
            && t <= u
            && (forall i | |t| <= i < |u| :: !Busy(t, u[i].owner) && AskedFor(u[i], settings, owners, entitled, now))
            && (forall i, j | |t| <= i < j < |u| :: u[i].owner != u[j].owner)
            && (forall k | 0 <= k < |settings| && Ready(settings[k], owners, entitled, now) :: Busy(u, settings[k].user))
  {
    if settings != [] {
      var last := |settings| - 1;
      var front := settings[..last];
      var v := TableAfterSettings(t, front, owners, entitled, now);
      var u := TableAfterSettings(t, settings, owners, entitled, now);
      ScheduledExactly(t, front, owners, entitled, now);
      OneSetting(v, settings[last], owners, entitled, now);
      hide TableAfterSetting, TableAfterSettings, Ready, Busy, AskedFor;
      assert v <= u;
      forall i | |t| <= i < |u|
        ensures !Busy(t, u[i].owner) && AskedFor(u[i], settings, owners, entitled, now)
        ensures forall j | |t| <= j < i :: u[j].owner != u[i].owner
      {
        StillAskedFor(u[i], settings, owners, entitled, now);
        if i == |v| {
          if Busy(t, u[i].owner) {
            BusyStays(t, v, u[i].owner);
          }
          forall j | |t| <= j < i ensures u[j].owner != u[i].owner {
            AskedForIsUntouched(v[j], front, owners, entitled, now);
            RowMakesBusy(v, j);
          }
        }
      }
      forall k | 0 <= k < |settings| && Ready(settings[k], owners, entitled, now) ensures Busy(u, settings[k].user) {
        if k < last {
          assert settings[k] == front[k];
          BusyStays(v, u, settings[k].user);
        } else if Busy(v, settings[k].user) {
          BusyStays(v, u, settings[k].user);
        } else {
          RowMakesBusy(u, |v|);
        }
      }
    }
  }

  lemma RowMakesBusy(t: Table, i: nat)
    requires i < |t| && t[i].status == Queued
    ensures Busy(t, t[i].owner)
  {
  }

  /**
   A setting moves only when its time has come or was never set: then one interval ahead,
   or, if it has nothing to scan, it is switched off.
   */
  lemma SettingMovesExactly(s: Setting, owners: set<int>, entitled: bool, now: int)
    ensures SettingAfter(s, owners, entitled, now)
            == if !(s.enabled && !s.paused && s.user in owners) || (s.nextRunAt.Some? && now < s.nextRunAt.value) then s
               else if s.nextRunAt.Some? && entitled && s.projects == [] then s.(enabled := false, nextRunAt := None)
               else s.(nextRunAt := Some(now + s.interval))
  {
  }

  // --- any run --------------------------------------------------------------------

  /** The rows as they are before step `k` of a run. */
  function Before(owners: set<int>, steps: seq<Step>, k: nat): State
    requires k <= |steps|
  {
    Run(State([], owners), steps[..k])
  }

  lemma AddedRowsAreUntouched(q: State, s: Step, i: nat)
    requires |q.runs| <= i < |Next(q, s).runs|
    ensures Untouched(Next(q, s).runs[i])
  {
    match s {
      case Enqueue(r, maintenance, entitled, now) =>
        AcceptedRequestIsQueued(q.runs, r, maintenance, entitled, now);
        hide EnqueueAnswer;
      case Schedule(settings, entitled, now) =>
        ScheduledExactly(q.runs, settings, q.owners, entitled, now);
        NextSchedules(q, s);
        hide TableAfterSettings, Ready, Busy, AskedFor, Untouched;
        AskedForIsUntouched(Next(q, s).runs[i], settings, q.owners, entitled, now);
      case _ =>
        hide RowAfter;
    }
  }

  lemma RowsStay(q: State, s: Step, i: nat)
    requires Inv(q.runs) && i < |q.runs|
    ensures i < |Next(q, s).runs|
    ensures Terminal(q.runs[i].status) ==> Next(q, s).runs[i] == q.runs[i]
  {
    StepKeepsInv(q, s);
    hide Next, Inv;
    assert Ages(q.runs[i], Next(q, s).runs[i]);
  }

  /** Step `k` of the run ended row `i`, and left it as it is now. */
  predicate EndedBy(owners: set<int>, steps: seq<Step>, k: nat, i: nat, run: ScanRun) {
    && k < |steps| && i < |Before(owners, steps, k).runs| && Active(Before(owners, steps, k).runs[i])
    && Ends(Before(owners, steps, k).runs, steps[k], i, Before(owners, steps, k).runs[i], run.status)
    && i < |Before(owners, steps, k + 1).runs| && Before(owners, steps, k + 1).runs[i] == run
  }

  lemma EndedEarlier(owners: set<int>, steps: seq<Step>, k: nat, i: nat, run: ScanRun)
    requires steps != [] && EndedBy(owners, steps[..|steps| - 1], k, i, run)
    ensures EndedBy(owners, steps, k, i, run)
  {
    var prefix := steps[..|steps| - 1];
    assert prefix[..k] == steps[..k] && prefix[..k + 1] == steps[..k + 1];
    hide Ends, Run;
  }

  /**
   Over every run of the queue from an empty one, whatever ended a row did it once and for
   all: a row that succeeded was left by its worker without failure or crash, one that was
   interrupted was found held after a restart or restored, one that was cancelled was
   cancelled, shut down, detached, deactivated, orphaned, taken over or stopped.
   */
  lemma {:induction false} EveryEndHasItsCause(owners: set<int>, steps: seq<Step>, i: nat)
    requires i < |Run(State([], owners), steps).runs| && Terminal(Run(State([], owners), steps).runs[i].status)
    ensures exists k: nat :: EndedBy(owners, steps, k, i, Run(State([], owners), steps).runs[i])
  {
    var last := |steps| - 1;
    var q := Run(State([], owners), steps[..last]);
    var run := Run(State([], owners), steps).runs[i];
    QueueIsSafe(State([], owners), steps[..last]);
    hide Run, Next, Ends, EndedBy, Stops, Claims, Inv, Untouched;
    NextOfRun(owners, steps);
    if i >= |q.runs| {
      AddedRowsAreUntouched(q, steps[last], i);
      UntouchedIsQueued(run);
      assert false;
    } else if Terminal(q.runs[i].status) {
      RowsStay(q, steps[last], i);
      EveryEndHasItsCause(owners, steps[..last], i);
      var k: nat :| EndedBy(owners, steps[..last], k, i, run);
      EndedEarlier(owners, steps, k, i, run);
    } else {
      StatusAfterStep(q, steps[last], i);
      EndedLast(owners, steps, i, run);
    }
  }

  lemma UntouchedIsQueued(run: ScanRun)
    requires Untouched(run)
    ensures !Terminal(run.status)
  {
  }

  lemma NextOfRun(owners: set<int>, steps: seq<Step>)
    requires steps != []
    ensures Run(State([], owners), steps) == Next(Run(State([], owners), steps[..|steps| - 1]), steps[|steps| - 1])
  {
    hide Next;
  }

  lemma EndedLast(owners: set<int>, steps: seq<Step>, i: nat, run: ScanRun)
    requires steps != []
    requires var last := |steps| - 1;
             var q := Run(State([], owners), steps[..last]);
             && i < |q.runs| && !Terminal(q.runs[i].status) && Ends(q.runs, steps[last], i, q.runs[i], run.status)
             && i < |Run(State([], owners), steps).runs| && Run(State([], owners), steps).runs[i] == run
    ensures EndedBy(owners, steps, |steps| - 1, i, run)
  {
    hide Run, Ends;
    assert steps[..|steps| - 1 + 1] == steps;
  }

  /** The reason of a row after a step. */
  lemma ReasonAfterStep(q: State, s: Step, i: nat)
    requires i < |q.runs| && Active(q.runs[i])
    ensures i < |Next(q, s).runs|
    ensures var run, after := q.runs[i], Next(q, s).runs[i];
            && after.reason == (if Swallowed(q.runs, s, run) then Some(MergedIntoManualRun)
                                else if Why(s, i, run).Some? then Why(s, i, run) else run.reason)
  {
    hide Next, Swallowed, Active, EnqueueAnswer;
    var run := q.runs[i];
    if s.Claim? {
      ClaimedStatus(q, s, i);
      ClaimKeepsLength(q, s);
      OnlyRequestsSwallow(q.runs, s, run);
      hide Claims;
    } else if s.Enqueue? {
      EnqueuedRow(q, s, i);
      if EnqueueAnswer(q.runs, s.request, s.maintenance, s.entitled, s.now).Accepted? && s.request.kind == Projects && s.request.manual {
        YieldReason(q.runs, s, run);
      } else {
        NotSwallowed(q.runs, s, run);
      }
      hide YieldRow;
    } else if s.Schedule? {
      NextSchedules(q, s);
      ScheduledRow(q.runs, s.settings, q.owners, s.entitled, s.now);
      OnlyRequestsSwallow(q.runs, s, run);
      hide TableAfterSettings;
    } else {
      OtherStep(q, s, i);
      OnlyRequestsSwallow(q.runs, s, run);
      PlainStepFields(q.runs, s, i, run);
      hide RowAfter;
    }
  }

  lemma OnlyRequestsSwallow(t: Table, s: Step, run: ScanRun)
    requires !s.Enqueue?
    ensures !Swallowed(t, s, run)
  {
  }

  lemma YieldReason(t: Table, s: Step, run: ScanRun)
    requires s.Enqueue? && Active(run)
    requires EnqueueAnswer(t, s.request, s.maintenance, s.entitled, s.now).Accepted? && s.request.kind == Projects && s.request.manual
    ensures YieldRow(run, s.request.owner, Requested(s.request), s.now).reason
            == if Swallowed(t, s, run) then Some(MergedIntoManualRun) else run.reason
  {
    YieldStatus(t, s, run);
    hide EnqueueAnswer, Swallowed;
  }

  /** Step `k` of the run was a resume from sleep that found row `i` running. */
  predicate AsleepAt(owners: set<int>, steps: seq<Step>, k: nat, i: nat) {
    k < |steps| && steps[k].Sleep? && i < |Before(owners, steps, k).runs| && Before(owners, steps, k).runs[i].status == Running
  }

  lemma AsleepEarlier(owners: set<int>, steps: seq<Step>, k: nat, i: nat)
    requires steps != [] && AsleepAt(owners, steps[..|steps| - 1], k, i)
    ensures AsleepAt(owners, steps, k, i)
  {
    assert steps[..|steps| - 1][..k] == steps[..k];
    hide Run;
  }

  lemma WhySleep(s: Step, i: nat, run: ScanRun)
    requires Why(s, i, run) == Some(SystemSleep)
    ensures s.Sleep? && run.status == Running
  {
  }

  /** A row is marked as stopped by sleep only if a resume from sleep found it running. */
  lemma {:induction false} SleepReasonHasItsCause(owners: set<int>, steps: seq<Step>, i: nat)
    requires i < |Run(State([], owners), steps).runs| && Run(State([], owners), steps).runs[i].reason == Some(SystemSleep)
    ensures exists k: nat :: AsleepAt(owners, steps, k, i)
  {
    var last := |steps| - 1;
    var q := Run(State([], owners), steps[..last]);
    QueueIsSafe(State([], owners), steps[..last]);
    hide Run, Next, AsleepAt, Inv, Why, Swallowed;
    NextOfRun(owners, steps);
    if i >= |q.runs| {
      AddedRowsAreUntouched(q, steps[last], i);
      assert false;
    } else {
      if Terminal(q.runs[i].status) {
        RowsStay(q, steps[last], i);
      } else {
        ReasonAfterStep(q, steps[last], i);
      }
      if q.runs[i].reason == Some(SystemSleep) {
        SleepReasonHasItsCause(owners, steps[..last], i);
        var k: nat :| AsleepAt(owners, steps[..last], k, i);
        AsleepEarlier(owners, steps, k, i);
      } else {
        WhySleep(steps[last], i, q.runs[i]);
        AsleepLast(owners, steps, i);
      }
    }
  }

  lemma AsleepLast(owners: set<int>, steps: seq<Step>, i: nat)
    requires steps != [] && steps[|steps| - 1].Sleep?
    requires var q := Run(State([], owners), steps[..|steps| - 1]); i < |q.runs| && q.runs[i].status == Running
    ensures AsleepAt(owners, steps, |steps| - 1, i)
  {
    hide Run;
  }

  /** A row ends as interrupted by sleep only if a resume from sleep found it running, and then its worker left it. */
  lemma SleepEndsWhatSlept(owners: set<int>, steps: seq<Step>, i: nat)
    requires i < |Run(State([], owners), steps).runs| && Run(State([], owners), steps).runs[i].status == InterruptedSleep
    ensures exists j: nat, k: nat :: j < k && AsleepAt(owners, steps, j, i) && k < |steps| && steps[k].Leave? && steps[k].id == i
  {
    EveryEndHasItsCause(owners, steps, i);
    var k: nat :| EndedBy(owners, steps, k, i, Run(State([], owners), steps).runs[i]);
    SleepReasonHasItsCause(owners, steps[..k], i);
    var j: nat :| AsleepAt(owners, steps[..k], j, i);
    AsleepBefore(owners, steps, k, j, i);
    hide AsleepAt, Run;
  }

  lemma AsleepBefore(owners: set<int>, steps: seq<Step>, n: nat, k: nat, i: nat)
    requires n <= |steps| && AsleepAt(owners, steps[..n], k, i)
    ensures k < n && AsleepAt(owners, steps, k, i)
  {
    assert steps[..n][..k] == steps[..k];
    hide Run;
  }
}
