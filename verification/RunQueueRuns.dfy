/**
 What the scan-run queue keeps over every sequence of steps that users, the scheduler,
 the worker, the operating system and restarts can take.
 */
module RunQueueRuns {
  import opened RunQueue
  import opened Wrappers

  // --- runs of the queue ----------------------------------------------------------

  datatype State = State(runs: Table, owners: set<int>)

  datatype Step =
    | Claim(maintenance: bool)
    | Enqueue(request: Request, maintenance: bool, entitled: bool, now: int)
    | Schedule(settings: seq<Setting>, entitled: bool, now: int)
    | Cancel(id: nat, owner: int, now: int)
    | Detach(owner: int, project: int, now: int)
    | Recover(now: int)
    | Restore(now: int)
    | Shutdown(now: int)
    | Sleep
    | Deactivate(owner: int, now: int)
    | Activate(owner: int)
    | Enter(id: nat, project: int)
    | Leave(id: nat, failures: bool, successes: bool, crashed: bool, now: int)
    | Orphan(id: nat, starting: bool, now: int)

  /** What a step that neither claims nor adds does to the row numbered `i`. */
  function RowAfter(s: Step, i: nat, run: ScanRun): ScanRun {
    match s
    case Cancel(id, owner, now) => if i == id && run.owner == owner then CancelRow(run, now) else run
    case Detach(owner, project, now) => DetachRow(run, owner, project, now)
    case Recover(now) => RecoverRow(run, now)
    case Restore(now) => RestoreRow(run, now)
    case Shutdown(now) => ShutdownRow(run, now)
    case Sleep => SleepRow(run)
    case Deactivate(owner, now) => DeactivateRow(run, owner, now)
    case Enter(id, project) => if i == id && Held(run) then run.(currentProject := Some(project)) else run
    case Leave(id, failures, successes, crashed, now) =>
      if i == id then LeaveRow(run, failures, successes, crashed, now) else run
    case Orphan(id, starting, now) => if i == id then OrphanRow(run, starting, now) else run
    case _ => run
  }

  function Next(q: State, s: Step): State {
    match s
    case Claim(maintenance) => q.(runs := AfterClaim(q.runs, q.owners, maintenance))
    case Enqueue(r, maintenance, entitled, now) => q.(runs := AfterEnqueue(q.runs, r, maintenance, entitled, now))
    case Schedule(settings, entitled, now) =>
      q.(runs := TableAfterSettings(q.runs, settings, q.owners, entitled, now))
    case _ =>
      State(
        seq(|q.runs|, i requires 0 <= i < |q.runs| => RowAfter(s, i, q.runs[i])),
        match s
        case Deactivate(owner, _) => q.owners - {owner}
        case Activate(owner) => q.owners + {owner}
        case _ => q.owners)
  }

  function Run(q: State, steps: seq<Step>): State {
    if steps == [] then q else Next(Run(q, steps[..|steps| - 1]), steps[|steps| - 1])
  }

  // --- one row --------------------------------------------------------------------

  /** `finished_at` is set exactly on finished runs, and a run is claimed at most once. */
  predicate GoodRow(run: ScanRun) {
    && (run.finishedAt.Some? <==> Terminal(run.status))
    && (run.status == Queued ==> run.attempts == 0)
    && (Held(run) ==> run.attempts == 1)
    && run.attempts <= 1
  }

  /**
   What time can do to a row: it never changes hands or gains projects, a change of
   status lowers its rank, and a finished row is never touched again.
   */
  ghost predicate Ages(a: ScanRun, b: ScanRun) {
    && b.owner == a.owner && b.kind == a.kind && b.createdAt == a.createdAt && b.cars == a.cars
    && ProjectSet(b) <= ProjectSet(a)
    && (b.status != a.status ==> Rank(b.status) < Rank(a.status))
    && (Terminal(a.status) ==> b == a)
    && a.attempts <= b.attempts
    && (a.attempts == b.attempts || (a.status == Queued && !(b.status == Queued)))
  }

  lemma AgesTransitive(a: ScanRun, b: ScanRun, c: ScanRun)
    requires Ages(a, b) && Ages(b, c)
    ensures Ages(a, c)
  {
  }

  lemma RowStepAges(s: Step, i: nat, run: ScanRun)
    requires GoodRow(run)
    ensures var after := RowAfter(s, i, run);
            && Ages(run, after) && GoodRow(after)
            && after.attempts == run.attempts && (Held(after) ==> Held(run))
  {
    assert s.Detach? ==> ProjectSet(RowAfter(s, i, run)) <= ProjectSet(run);
  }

  lemma YieldAges(run: ScanRun, owner: int, requested: set<int>, now: int)
    requires GoodRow(run)
    ensures var after := YieldRow(run, owner, requested, now);
            && Ages(run, after) && GoodRow(after) && (Held(after) <==> Held(run))
  {
    assert ProjectSet(YieldRow(run, owner, requested, now)) <= ProjectSet(run);
  }

  // --- the invariant --------------------------------------------------------------

  ghost predicate OneHeld(t: Table) {
    forall i, j | 0 <= i < j < |t| :: !(Held(t[i]) && Held(t[j]))
  }

  predicate Compatible(a: ScanRun, b: ScanRun) {
    a.owner == b.owner && Active(a) && Active(b) ==> ProjectSet(a) !! ProjectSet(b) && CarSet(a) !! CarSet(b)
  }

  ghost predicate Disjoint(t: Table) {
    forall i, j | 0 <= i < j < |t| :: Compatible(t[i], t[j])
  }

  ghost predicate Inv(t: Table) {
    (forall i | 0 <= i < |t| :: GoodRow(t[i])) && OneHeld(t) && Disjoint(t)
  }

  /** `u` is `t`, each row possibly older, with rows added behind. */
  ghost predicate TableAges(t: Table, u: Table) {
    |t| <= |u| && forall i | 0 <= i < |t| :: Ages(t[i], u[i])
  }

  lemma AgedPairCompatible(a: ScanRun, b: ScanRun, a': ScanRun, b': ScanRun)
    requires Compatible(a, b) && Ages(a, a') && Ages(b, b')
    ensures Compatible(a', b')
  {
  }

  /** Rows that only age, and are held only if they were, keep the invariant. */
  lemma AgingKeepsInv(t: Table, u: Table)
    requires Inv(t) && |u| == |t| && TableAges(t, u)
    requires forall i | 0 <= i < |t| :: GoodRow(u[i]) && (Held(u[i]) ==> Held(t[i]))
    ensures Inv(u)
  {
    forall i, j | 0 <= i < j < |u| ensures Compatible(u[i], u[j]) {
      AgedPairCompatible(t[i], t[j], u[i], u[j]);
    }
  }

  lemma ClaimKeepsInv(t: Table, owners: set<int>, maintenance: bool)
    requires Inv(t)
    ensures Inv(AfterClaim(t, owners, maintenance)) && TableAges(t, AfterClaim(t, owners, maintenance))
  {
    var u := AfterClaim(t, owners, maintenance);
    var id := Claimed(t, owners, maintenance);
    if id.Some? {
      assert forall i | 0 <= i < |t| :: !Held(t[i]);
      assert forall i | 0 <= i < |t| && i != id.value :: u[i] == t[i];
      forall i | 0 <= i < |t| ensures Ages(t[i], u[i]) {
      }
      forall i, j | 0 <= i < j < |u| ensures Compatible(u[i], u[j]) {
        AgedPairCompatible(t[i], t[j], u[i], u[j]);
      }
    }
  }

  /** Adding a queued row that conflicts with no active row keeps the invariant. */
  lemma AppendKeepsInv(t: Table, run: ScanRun)
    requires Inv(t) && GoodRow(run) && run.status == Queued
    requires forall i | 0 <= i < |t| :: Compatible(t[i], run)
    ensures Inv(t + [run]) && TableAges(t, t + [run])
  {
    var u := t + [run];
    forall i, j | 0 <= i < j < |u| ensures Compatible(u[i], u[j]) {
    }
  }

  lemma YieldedKeepsInv(t: Table, r: Request, now: int)
    requires Inv(t)
    ensures |Yielded(t, r, now)| == |t|
    ensures Inv(Yielded(t, r, now)) && TableAges(t, Yielded(t, r, now))
  {
    var u := Yielded(t, r, now);
    if r.kind == Projects && r.manual {
      forall i | 0 <= i < |t| ensures Ages(t[i], u[i]) && GoodRow(u[i]) && (Held(u[i]) ==> Held(t[i])) {
        YieldAges(t[i], r.owner, Requested(r), now);
      }
      AgingKeepsInv(t, u);
    }
  }

  lemma NoOverlap(a: set<int>, b: set<int>)
    ensures a * b == {} <==> a !! b
  {
    if a * b == {} {
      assert forall x | x in a && x in b :: x in a * b;
    }
  }

  lemma EnqueueKeepsInv(t: Table, r: Request, maintenance: bool, entitled: bool, now: int)
    requires Inv(t)
    ensures Inv(AfterEnqueue(t, r, maintenance, entitled, now))
    ensures TableAges(t, AfterEnqueue(t, r, maintenance, entitled, now))
  {
    if EnqueueAnswer(t, r, maintenance, entitled, now).Accepted? {
      var u := Yielded(t, r, now);
      YieldedKeepsInv(t, r, now);
      var run := NewRun(r, false, now);
      forall i | 0 <= i < |u| ensures Compatible(u[i], run) {
        assert Refusal(u[i], r).None?;
        NoOverlap(Requested(r), ProjectSet(u[i]));
        NoOverlap(RequestedCars(r), CarSet(u[i]));
        assert ProjectSet(run) == Requested(r) && CarSet(run) == RequestedCars(r);
      }
      AppendKeepsInv(u, run);
    }
  }

  lemma SettingKeepsInv(t: Table, s: Setting, owners: set<int>, entitled: bool, now: int)
    requires Inv(t)
    ensures Inv(TableAfterSetting(t, s, owners, entitled, now))
    ensures TableAges(t, TableAfterSetting(t, s, owners, entitled, now))
  {
    var u := TableAfterSetting(t, s, owners, entitled, now);
    if u != t {
      AppendKeepsInv(t, NewRun(Request(s.user, Projects, s.projects, [], false), true, now));
    }
  }

  lemma TableAgesTransitive(t: Table, u: Table, v: Table)
    requires TableAges(t, u) && TableAges(u, v)
    ensures TableAges(t, v)
  {
    forall i | 0 <= i < |t| ensures Ages(t[i], v[i]) {
      AgesTransitive(t[i], u[i], v[i]);
    }
  }

  lemma {:induction false} SettingsKeepInv(t: Table, settings: seq<Setting>, owners: set<int>, entitled: bool, now: int)
    requires Inv(t)
    ensures Inv(TableAfterSettings(t, settings, owners, entitled, now))
    ensures TableAges(t, TableAfterSettings(t, settings, owners, entitled, now))
  {
    if settings != [] {
      var last := |settings| - 1;
      var u := TableAfterSettings(t, settings[..last], owners, entitled, now);
      SettingsKeepInv(t, settings[..last], owners, entitled, now);
      SettingKeepsInv(u, settings[last], owners, entitled, now);
      TableAgesTransitive(t, u, TableAfterSetting(u, settings[last], owners, entitled, now));
    }
  }

  /** Every step keeps the invariant, and only ages the rows that exist. */
  lemma StepKeepsInv(q: State, s: Step)
    requires Inv(q.runs)
    ensures Inv(Next(q, s).runs) && TableAges(q.runs, Next(q, s).runs)
  {
    match s {
      case Claim(maintenance) => ClaimKeepsInv(q.runs, q.owners, maintenance);
      case Enqueue(r, maintenance, entitled, now) => EnqueueKeepsInv(q.runs, r, maintenance, entitled, now);
      case Schedule(settings, entitled, now) => SettingsKeepInv(q.runs, settings, q.owners, entitled, now);
      case _ =>
        var u := Next(q, s).runs;
        forall i | 0 <= i < |u|
          ensures Ages(q.runs[i], u[i]) && GoodRow(u[i]) && (Held(u[i]) ==> Held(q.runs[i]))
        {
          RowStepAges(s, i, q.runs[i]);
        }
        AgingKeepsInv(q.runs, u);
    }
  }

  /**
   Over every run of the queue: at most one run is held by the worker, the projects
   and cars of one owner's active runs are pairwise disjoint, `finished_at` marks
   exactly the finished runs and no run is claimed twice; and between any two moments
   every row only ages, so a finished run stays as it is for ever.
   */
  lemma {:induction false} QueueIsSafe(q: State, steps: seq<Step>)
    requires Inv(q.runs)
    ensures Inv(Run(q, steps).runs) && TableAges(q.runs, Run(q, steps).runs)
  {
    if steps != [] {
      var middle := Run(q, steps[..|steps| - 1]);
      QueueIsSafe(q, steps[..|steps| - 1]);
      StepKeepsInv(middle, steps[|steps| - 1]);
      TableAgesTransitive(q.runs, middle.runs, Run(q, steps).runs);
    }
  }

  /** A queue that some run of the system leads to. */
  ghost predicate Reachable(q: State) {
    exists owners: set<int>, steps: seq<Step> :: q == Run(State([], owners), steps)
  }

  /** Every queue that the system can reach from an empty one is safe, and stays so. */
  lemma ReachableQueueIsSafe(q: State, more: seq<Step>)
    requires Reachable(q)
    ensures Inv(q.runs) && Inv(Run(q, more).runs) && TableAges(q.runs, Run(q, more).runs)
  {
    var owners, steps :| q == Run(State([], owners), steps);
    QueueIsSafe(State([], owners), steps);
    QueueIsSafe(q, more);
  }

  // --- claiming -------------------------------------------------------------------

  /**
   A claim succeeds exactly when no maintenance is on, the worker holds nothing and
   some active owner has a queued run; it then takes the oldest such run, by creation
   time and row number, and touches no other row.
   */
  lemma ClaimTakesTheOldest(t: Table, owners: set<int>, maintenance: bool)
    ensures var id := Claimed(t, owners, maintenance);
            && (id.Some? <==> !maintenance && !SomethingHeld(t) && exists i | 0 <= i < |t| :: Claimable(t[i], owners))
            && (id.Some? ==>
                  && Claimable(t[id.value], owners)
                  && (forall j | 0 <= j < |t| && j != id.value && Claimable(t[j], owners) :: Earlier(t, id.value, j))
                  && AfterClaim(t, owners, maintenance)
                     == t[id.value := t[id.value].(status := Running, attempts := t[id.value].attempts + 1, finishedAt := None)])
            && (id.None? ==> AfterClaim(t, owners, maintenance) == t)
  {
    var found := OldestClaimable(t, owners);
    if found.Some? {
      assert Claimable(t[found.value], owners);
    }
  }

  // --- enqueueing -----------------------------------------------------------------

  /** The projects some active run of the owner is responsible for. */
  ghost function ActiveProjects(t: Table, owner: int): set<int> {
    set i, p | 0 <= i < |t| && t[i].owner == owner && Active(t[i]) && p in t[i].projects :: p
  }

  /** A queued automatic run gives way to a manual request for projects. */
  predicate GivesWay(run: ScanRun, r: Request) {
    r.kind == Projects && r.manual && run.kind == Projects && run.automatic && run.status == Queued
  }

  lemma YieldedRow(run: ScanRun, r: Request, now: int)
    requires r.kind == Projects && r.manual
    ensures var after := YieldRow(run, r.owner, Requested(r), now);
            && after.owner == run.owner && CarSet(after) == CarSet(run)
            && (run.owner != r.owner ==> after == run)
            && (run.owner == r.owner && Active(run) ==>
                  (set p | p in after.projects && Active(after))
                  == if GivesWay(run, r) then ProjectSet(run) - Requested(r) else ProjectSet(run))
            && (!Active(run) ==> after == run)
  {
    var after := YieldRow(run, r.owner, Requested(r), now);
    if run.owner == r.owner && Active(run) && GivesWay(run, r) {
      var overlap := Requested(r) * ProjectSet(run);
      var rest := Without(run.projects, overlap);
      assert forall p :: p in rest <==> p in ProjectSet(run) - Requested(r);
      if rest == [] {
        assert forall p :: p !in ProjectSet(run) - Requested(r);
      }
    }
  }

  /**
   A manual project request is refused exactly when some active run of its owner that
   does not give way shares a project with it. A refusal leaves the table as it was.
   */
  lemma ManualRequestRefused(t: Table, r: Request, now: int)
    requires r.kind == Projects && r.manual && r.cars == []
    ensures var answer := EnqueueAnswer(t, r, false, true, now);
            && (answer.Accepted? <==> forall i | 0 <= i < |t| ::
                  t[i].owner == r.owner && Active(t[i]) && !GivesWay(t[i], r) ==> Requested(r) !! ProjectSet(t[i]))
            && (!answer.Accepted? ==> AfterEnqueue(t, r, false, true, now) == t)
  {
    var u := Yielded(t, r, now);
    forall i | 0 <= i < |t|
      ensures Refusal(u[i], r).None? <==>
        (t[i].owner == r.owner && Active(t[i]) && !GivesWay(t[i], r) ==> Requested(r) !! ProjectSet(t[i]))
    {
      YieldedRow(t[i], r, now);
      NoOverlap(Requested(r), ProjectSet(u[i]));
      NoOverlap(Requested(r), ProjectSet(t[i]));
      assert RequestedCars(r) == {};
      if t[i].owner == r.owner && Active(t[i]) && Active(u[i]) {
        var kept := set p | p in u[i].projects && Active(u[i]);
        assert forall p :: p in ProjectSet(u[i]) <==> p in kept;
        assert ProjectSet(u[i]) == kept;
      }
    }
  }

  /**
   An accepted manual request makes its owner responsible for exactly the projects it
   was responsible for before and the requested ones: merging queued automatic runs
   into it drops and duplicates nothing. Other owners are not affected.
   */
  lemma AcceptedRequestAddsItsProjects(t: Table, r: Request, now: int, owner: int)
    requires r.kind == Projects && r.manual
    requires EnqueueAnswer(t, r, false, true, now).Accepted?
    ensures var u := AfterEnqueue(t, r, false, true, now);
            ActiveProjects(u, owner) == ActiveProjects(t, owner) + if owner == r.owner then Requested(r) else {}
  {
    var y := Yielded(t, r, now);
    var u := AfterEnqueue(t, r, false, true, now);
    forall i | 0 <= i < |t|
      ensures forall p :: p in y[i].projects && Active(y[i]) ==> p in t[i].projects && Active(t[i])
      ensures forall p :: p in t[i].projects && Active(t[i]) && (t[i].owner != r.owner || p !in Requested(r)) ==>
                p in y[i].projects && Active(y[i])
      ensures y[i].owner == t[i].owner
    {
      YieldedRow(t[i], r, now);
      if t[i].owner == r.owner && Active(t[i]) {
        var kept := set p | p in y[i].projects && Active(y[i]);
        assert forall p :: p in kept <==> p in y[i].projects && Active(y[i]);
        assert forall p :: p in ProjectSet(t[i]) <==> p in t[i].projects;
      }
    }
    assert u[|t|] == NewRun(r, false, now);
    forall p ensures p in ActiveProjects(u, owner)
                     <==> p in ActiveProjects(t, owner) + if owner == r.owner then Requested(r) else {}
    {
      if p in ActiveProjects(u, owner) {
        var i :| 0 <= i < |u| && u[i].owner == owner && Active(u[i]) && p in u[i].projects;
        assert i < |t| ==> y[i] == u[i];
      }
      if p in ActiveProjects(t, owner) && (owner != r.owner || p !in Requested(r)) {
        var i :| 0 <= i < |t| && t[i].owner == owner && Active(t[i]) && p in t[i].projects;
        assert u[i] == y[i];
      }
      if owner == r.owner && p in Requested(r) {
        assert p in u[|t|].projects;
      }
    }
  }

  // --- scheduling -----------------------------------------------------------------

  function SettingsAfter(settings: seq<Setting>, owners: set<int>, entitled: bool, now: int): seq<Setting> {
    seq(|settings|, i requires 0 <= i < |settings| => SettingAfter(settings[i], owners, entitled, now))
  }

  /** A setting that was due is not due again before its interval has passed. */
  lemma DueOncePerInterval(s: Setting, owners: set<int>, entitled: bool, now: int, later: int)
    requires Due(s, owners, now) && later < now + s.interval
    ensures !Due(SettingAfter(s, owners, entitled, now), owners, later)
  {
  }

  /** Running the scheduler again at the same time adds no run, whatever has happened to the queue since. */
  lemma {:induction false} ScheduledOnce(
    t: Table, settings: seq<Setting>, owners: set<int>, entitled: bool, again: bool, now: int)
    requires forall s | s in settings :: s.interval > 0
    ensures TableAfterSettings(t, SettingsAfter(settings, owners, entitled, now), owners, again, now) == t
  {
    if settings != [] {
      var last := |settings| - 1;
      assert forall s | s in settings[..last] :: s in settings;
      assert settings[last] in settings;
      ScheduledOnce(t, settings[..last], owners, entitled, again, now);
      var after := SettingsAfter(settings, owners, entitled, now);
      assert after[..last] == SettingsAfter(settings[..last], owners, entitled, now);
      assert !Due(after[last], owners, now);
    }
  }

  // --- how long a run can live ----------------------------------------------------

  function Potential(t: Table): nat {
    if t == [] then 0 else Potential(t[..|t| - 1]) + Rank(t[|t| - 1].status)
  }

  /** Rows whose status a step changed. */
  function Moved(t: Table, u: Table): nat
    requires |t| <= |u|
  {
    if t == [] then 0
    else
      var last := |t| - 1;
      Moved(t[..last], u[..last]) + (if t[last].status != u[last].status then 1 else 0)
  }

  function StatusChanges(q: State, steps: seq<Step>): nat
    requires Inv(q.runs)
  {
    if steps == [] then 0
    else
      var prefix := steps[..|steps| - 1];
      QueueIsSafe(q, prefix);
      StepKeepsInv(Run(q, prefix), steps[|steps| - 1]);
      StatusChanges(q, prefix) + Moved(Run(q, prefix).runs, Run(q, steps).runs)
  }

  lemma {:induction false} PotentialGrows(u: Table, n: nat)
    requires n <= |u|
    ensures Potential(u) <= Potential(u[..n]) + 3 * (|u| - n)
  {
    if n == |u| {
      assert u[..n] == u;
    } else {
      assert u[..|u| - 1][..n] == u[..n];
      PotentialGrows(u[..|u| - 1], n);
    }
  }

  lemma {:induction false} AgingSpendsPotential(t: Table, u: Table)
    requires TableAges(t, u)
    ensures Moved(t, u) + Potential(u[..|t|]) <= Potential(t)
  {
    if t != [] {
      var last := |t| - 1;
      AgingSpendsPotential(t[..last], u[..last]);
      assert u[..|t|][..last] == u[..last] && u[..last][..last] == u[..last];
      assert Ages(t[last], u[last]);
    }
  }

  /**
   Whatever happens to the queue, the status changes over a whole run number at most
   three for every row there ever was: no run can be kept going for ever.
   */
  lemma {:induction false} LifecyclesAreShort(q: State, steps: seq<Step>)
    requires Inv(q.runs)
    ensures StatusChanges(q, steps) + Potential(Run(q, steps).runs)
         <= Potential(q.runs) + 3 * (|Run(q, steps).runs| - |q.runs|)
  {
    QueueIsSafe(q, steps);
    if steps != [] {
      var prefix, last := steps[..|steps| - 1], steps[|steps| - 1];
      LifecyclesAreShort(q, prefix);
      QueueIsSafe(q, prefix);
      StepKeepsInv(Run(q, prefix), last);
      AgingSpendsPotential(Run(q, prefix).runs, Run(q, steps).runs);
      PotentialGrows(Run(q, steps).runs, |Run(q, prefix).runs|);
    }
  }
}
