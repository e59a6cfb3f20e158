/**
 What every interleaving of the coordinator and the worker threads keeps: no task is
 lost or read twice, the consumer's blocking take always gets its result, and closing
 the pool leaves no thread blocked on the task queue.
 */
module DetailWorkersRuns {
  import opened DetailWorkers

  // --- where the tasks are --------------------------------------------------------

  function JobNames(items: seq<Item>): seq<Task> {
    if items == [] then []
    else (if items[0].Job? then [items[0].task] else []) + JobNames(items[1..])
  }

  function InHand(t: Thread): seq<Task> {
    if t.Turn? || t.Reading? then [t.task] else []
  }

  function InFlight(threads: seq<Thread>): seq<Task> {
    if threads == [] then [] else InHand(threads[0]) + InFlight(threads[1..])
  }

  function Names(results: seq<Result>): seq<Task> {
    seq(|results|, i requires 0 <= i < |results| => results[i].task)
  }

  function Held(c: Coordinator): seq<Task> {
    if c.Refilling? then [c.held.task] else []
  }

  function Occurrences(s: seq<Task>, x: Task): nat {
    multiset(s)[x]
  }

  /** How many copies of a task the pool knows of, wherever they are. */
  function Copies(p: Pool, x: Task): nat {
    Occurrences(p.pending, x) + Occurrences(JobNames(p.tasks), x) + Occurrences(InFlight(p.threads), x)
    + Occurrences(Names(p.results), x) + Occurrences(Held(p.coordinator), x) + Occurrences(Names(p.delivered), x)
    + Occurrences(p.dropped, x)
  }

  lemma OccurrencesOfSum(a: seq<Task>, b: seq<Task>, x: Task)
    ensures Occurrences(a + b, x) == Occurrences(a, x) + Occurrences(b, x)
  {
    assert multiset(a + b) == multiset(a) + multiset(b);
  }

  /** Taking the first task off a sequence. */
  lemma OccurrencesOfTail(s: seq<Task>, x: Task)
    requires s != []
    ensures Occurrences(s, x) == Occurrences([s[0]], x) + Occurrences(s[1..], x)
  {
    assert s == [s[0]] + s[1..];
    OccurrencesOfSum([s[0]], s[1..], x);
  }

  function JobOf(t: Item): seq<Task> {
    if t.Job? then [t.task] else []
  }

  lemma JobsUnfold(items: seq<Item>)
    requires items != []
    ensures JobNames(items) == JobOf(items[0]) + JobNames(items[1..])
  {
  }

  lemma NoJobs()
    ensures JobNames([]) == []
  {
  }

  lemma {:induction false} JobsOfAppend(items: seq<Item>, t: Item)
    ensures JobNames(items + [t]) == JobNames(items) + JobOf(t)
  {
    hide JobNames, JobOf;
    var all := items + [t];
    JobsUnfold(all);
    NoJobs();
    if items == [] {
      assert all[0] == t && all[1..] == [];
    } else {
      JobsUnfold(items);
      assert all[0] == items[0] && all[1..] == items[1..] + [t];
      JobsOfAppend(items[1..], t);
    }
  }

  lemma NamesOfAppend(results: seq<Result>, r: Result)
    ensures Names(results + [r]) == Names(results) + [r.task]
  {
  }

  lemma NamesOfTail(results: seq<Result>)
    requires results != []
    ensures Names(results) == [results[0].task] + Names(results[1..])
  {
  }

  lemma {:induction false} InFlightOfUpdate(threads: seq<Thread>, w: nat, t: Thread, x: Task)
    requires w < |threads|
    ensures Occurrences(InFlight(threads[w := t]), x) + Occurrences(InHand(threads[w]), x)
            == Occurrences(InFlight(threads), x) + Occurrences(InHand(t), x)
    ensures |InFlight(threads[w := t])| + |InHand(threads[w])| == |InFlight(threads)| + |InHand(t)|
  {
    hide Occurrences, InHand;
    var after := threads[w := t];
    OccurrencesOfSum(InHand(threads[0]), InFlight(threads[1..]), x);
    OccurrencesOfSum(InHand(after[0]), InFlight(after[1..]), x);
    if w == 0 {
      assert after[1..] == threads[1..];
    } else {
      assert after[1..] == threads[1..][w - 1 := t];
      InFlightOfUpdate(threads[1..], w - 1, t, x);
    }
  }

  lemma {:induction false} NothingInFlight(threads: seq<Thread>)
    ensures InFlight(threads) == [] <==> forall t | t in threads :: InHand(t) == []
  {
    if threads != [] {
      NothingInFlight(threads[1..]);
      assert threads == [threads[0]] + threads[1..];
    }
  }

  // --- no task is lost or duplicated ----------------------------------------------

  lemma WorkerConserves(p: Pool, s: Step, x: Task)
    requires OfWorker(s) && ThreadEnabled(p, s, s.w)
    ensures Copies(WorkerNext(p, s), x) == Copies(p, x)
  {
    hide InFlight, Occurrences, Names, JobNames;
    var w, q := s.w, WorkerNext(p, s);
    InFlightOfUpdate(p.threads, w, q.threads[w], x);
    match s {
      case GetTask(_) => TakingJob(p.tasks, x);
      case TakeTurn(_) => OccurrencesOfSum(p.dropped, [p.threads[w].task], x);
      case FinishRead(_, failed) =>
        NamesOfAppend(p.results, Result(p.threads[w].task, failed));
        OccurrencesOfSum(Names(p.results), [p.threads[w].task], x);
      case _ =>
    }
    NoOccurrence(x);
  }

  lemma NoOccurrence(x: Task)
    ensures Occurrences([], x) == 0
  {
  }

  lemma TakingJob(tasks: seq<Item>, x: Task)
    requires tasks != []
    ensures Occurrences(JobNames(tasks), x)
            == Occurrences(JobNames(tasks[1..]), x) + if tasks[0].Job? then Occurrences([tasks[0].task], x) else 0
  {
    if tasks[0].Job? {
      OccurrencesOfSum([tasks[0].task], JobNames(tasks[1..]), x);
    } else {
      assert [] + JobNames(tasks[1..]) == JobNames(tasks[1..]);
    }
  }

  lemma PutOneConserves(p: Pool, x: Task)
    requires Enabled(p, PutOne)
    ensures Copies(CoordinatorNext(p, PutOne), x) == Copies(p, x)
  {
    hide InFlight, Occurrences, Names, JobNames;
    if p.pending != [] {
      JobsOfAppend(p.tasks, Job(p.pending[0]));
      OccurrencesOfSum(JobNames(p.tasks), [p.pending[0]], x);
      OccurrencesOfTail(p.pending, x);
    }
    if p.coordinator.Refilling? {
      NamesOfAppend(p.delivered, p.coordinator.held);
      OccurrencesOfSum(Names(p.delivered), [p.coordinator.held.task], x);
    }
    NoOccurrence(x);
  }

  lemma CoordinatorConserves(p: Pool, s: Step, x: Task)
    requires !OfWorker(s) && Enabled(p, s) && !s.Submit?
    ensures Copies(CoordinatorNext(p, s), x) == Copies(p, x)
  {
    hide InFlight, Occurrences, Names, JobNames;
    match s {
      case PutOne => PutOneConserves(p, x);
      case TakeResult =>
        NamesOfTail(p.results);
        OccurrencesOfSum([p.results[0].task], Names(p.results[1..]), x);
      case PutStop =>
        JobsOfAppend(p.tasks, StopMark);
        assert JobNames(p.tasks) + [] == JobNames(p.tasks);
      case _ =>
    }
    NoOccurrence(x);
  }

  lemma SubmitConserves(p: Pool, ts: seq<Task>, x: Task)
    requires Enabled(p, Submit(ts)) && Copies(p, x) == 0
    ensures Copies(CoordinatorNext(p, Submit(ts)), x) == Occurrences(ts, x)
  {
    hide InFlight, Occurrences, Names, JobNames;
    NoOccurrence(x);
  }

  // --- the invariant --------------------------------------------------------------

  /** A thread that the start event has released and that has not stopped. */
  predicate Working(t: Thread) {
    t.Idle? || t.Getting? || t.Turn? || t.Reading?
  }

  /** The tasks that are queued, being read, or read and not yet taken. */
  function Ahead(p: Pool): nat {
    |p.tasks| + |InFlight(p.threads)| + |p.results|
  }

  /** How many results the running call of `results` has still to hand over. */
  function Asking(c: Coordinator): nat {
    match c
    case Testing(left) => left
    case Taking(left) => left + 1
    case Refilling(left, _) => left + 1
    case _ => 0
  }

  /** Threads that are blocked on the task queue, or would be if it were empty. */
  function Getters(threads: seq<Thread>): nat {
    if threads == [] then 0 else (if threads[0].Getting? then 1 else 0) + Getters(threads[1..])
  }

  ghost predicate Shape(p: Pool) {
    && 1 <= p.workers <= 2 && |p.threads| == p.workers && |p.tasks| <= Capacity(p)
    && (p.coordinator.Closing? ==> p.coordinator.put <= p.workers)
    && (p.coordinator.Closing? || p.coordinator.Closed? ==> p.stop && p.start)
    && (p.coordinator.Entering? ==> !p.stop && !p.start)
    && (!p.coordinator.Entering? ==> p.start)
    && (p.coordinator.Entering? ==> p.submitted == [])
  }

  /** What holds until somebody sets the stop event. */
  ghost predicate Running(p: Pool) {
    && StopMark !in p.tasks && p.dropped == []
    && (forall t | t in p.threads :: !t.Exited?)
    && (!p.start ==> forall t | t in p.threads :: !Working(t))
    && (p.start ==> (forall t | t in p.threads :: !t.Starting?) && exists t | t in p.threads :: !t.FailedToStart?)
    && |p.delivered| + Asking(p.coordinator) == p.asked
    && (p.pending != [] && !Filling(p.coordinator) ==> Ahead(p) >= Capacity(p))
    && (p.pending != [] && p.coordinator.Refilling? ==> Ahead(p) >= Capacity(p) - 1)
  }

  /** What holds while the pool is being closed and ever after. */
  predicate Releasing(p: Pool) {
    && (p.coordinator.Closing? ==> |p.tasks| + p.workers - p.coordinator.put >= Getters(p.threads))
    && (p.coordinator.Closed? ==> |p.tasks| >= Getters(p.threads))
  }

  ghost predicate Inv(p: Pool) {
    && Shape(p)
    && (forall x :: Occurrences(p.submitted, x) == Copies(p, x))
    && (!p.stop ==> Running(p))
    && Releasing(p)
  }

  lemma NewPoolIsGood(requested: int)
    ensures Inv(NewPool(requested))
  {
    hide InFlight, Getters, Names, JobNames, Occurrences;
    var p := NewPool(requested);
    forall t | t in p.threads ensures t == Starting && InHand(t) == [] {
    }
    NothingInFlight(p.threads);
    assert Names([]) == [] && JobNames([]) == [] by {
      NothingNamed();
    }
    forall x ensures Occurrences(p.submitted, x) == Copies(p, x) {
      NoOccurrence(x);
    }
    NoGetters(p.threads);
  }

  lemma NothingNamed()
    ensures Names([]) == [] && JobNames([]) == []
  {
  }

  lemma {:induction false} NoGetters(threads: seq<Thread>)
    ensures Getters(threads) <= |threads|
  {
    if threads != [] {
      NoGetters(threads[1..]);
    }
  }

  lemma {:induction false} GettersOfUpdate(threads: seq<Thread>, w: nat, t: Thread)
    requires w < |threads|
    ensures Getters(threads[w := t]) + (if threads[w].Getting? then 1 else 0)
            == Getters(threads) + if t.Getting? then 1 else 0
  {
    if w == 0 {
      assert threads[w := t][1..] == threads[1..];
    } else {
      assert threads[w := t][1..] == threads[1..][w - 1 := t];
      GettersOfUpdate(threads[1..], w - 1, t);
    }
  }

  lemma InFlightSize(threads: seq<Thread>, w: nat, t: Thread)
    requires w < |threads|
    ensures |InFlight(threads[w := t])| + |InHand(threads[w])| == |InFlight(threads)| + |InHand(t)|
  {
    InFlightOfUpdate(threads, w, t, "");
    hide InFlight;
  }

  lemma WorkerKeepsThreads(p: Pool, s: Step)
    requires Inv(p) && !p.stop && OfWorker(s) && ThreadEnabled(p, s, s.w)
    ensures var q := WorkerNext(p, s);
            && (forall t | t in q.threads :: !t.Exited?)
            && (!q.start ==> forall t | t in q.threads :: !Working(t))
            && (q.start ==> (forall t | t in q.threads :: !t.Starting?) && exists t | t in q.threads :: !t.FailedToStart?)
  {
    hide InFlight, Copies, Occurrences, JobNames, Names, Getters, Ahead, Asking, Capacity;
    var w, q := s.w, WorkerNext(p, s);
    assert forall t | t in q.threads :: t in p.threads || t == q.threads[w];
    assert p.threads[w] in p.threads && q.threads[w] in q.threads;
    if s.GetTask? {
      assert p.tasks[0] in p.tasks;
    }
    if p.start {
      assert !q.threads[w].FailedToStart?;
    }
  }

  lemma WorkerKeepsRunning(p: Pool, s: Step)
    requires Inv(p) && !p.stop && OfWorker(s) && ThreadEnabled(p, s, s.w)
    ensures Running(WorkerNext(p, s))
  {
    hide InFlight, Copies, Occurrences, JobNames, Names, Getters, Working;
    var w, q := s.w, WorkerNext(p, s);
    WorkerKeepsThreads(p, s);
    InFlightSize(p.threads, w, q.threads[w]);
    if s.GetTask? {
      assert p.tasks[0] in p.tasks;
      assert forall x | x in p.tasks[1..] :: x in p.tasks;
    }
  }

  lemma WorkerKeepsReleasing(p: Pool, s: Step)
    requires Inv(p) && OfWorker(s) && ThreadEnabled(p, s, s.w)
    ensures Releasing(WorkerNext(p, s))
  {
    hide InFlight, Copies, Occurrences, JobNames, Names, Getters;
    GettersOfUpdate(p.threads, s.w, WorkerNext(p, s).threads[s.w]);
  }

  lemma CoordinatorKeepsRunning(p: Pool, s: Step)
    requires Inv(p) && !OfWorker(s) && Enabled(p, s) && !CoordinatorNext(p, s).stop
    ensures Running(CoordinatorNext(p, s))
  {
    hide InFlight, Copies, Occurrences, JobNames, Names, Getters;
    assert !p.stop;
  }

  lemma WorkerKeepsInv(p: Pool, s: Step)
    requires Inv(p) && OfWorker(s) && ThreadEnabled(p, s, s.w)
    ensures Inv(WorkerNext(p, s))
  {
    var q := WorkerNext(p, s);
    hide Copies, Occurrences, Getters, Running;
    if !p.stop {
      WorkerKeepsRunning(p, s);
    }
    WorkerKeepsReleasing(p, s);
    forall x ensures Occurrences(q.submitted, x) == Copies(q, x) {
      WorkerConserves(p, s, x);
    }
    hide Releasing;
  }

  lemma CoordinatorKeepsCounts(p: Pool, s: Step, x: Task)
    requires Occurrences(p.submitted, x) == Copies(p, x) && !OfWorker(s) && Enabled(p, s)
    ensures var q := CoordinatorNext(p, s); Occurrences(q.submitted, x) == Copies(q, x)
  {
    hide Copies, Occurrences;
    if s.Submit? {
      NoOccurrence(x);
      SubmitConserves(p, s.ts, x);
    } else {
      CoordinatorConserves(p, s, x);
    }
  }

  lemma CoordinatorKeepsShape(p: Pool, s: Step)
    requires Shape(p) && Releasing(p) && !OfWorker(s) && Enabled(p, s)
    ensures Shape(CoordinatorNext(p, s)) && Releasing(CoordinatorNext(p, s))
  {
    hide Getters;
    NoGetters(p.threads);
  }

  lemma CoordinatorKeepsInv(p: Pool, s: Step)
    requires Inv(p) && !OfWorker(s) && Enabled(p, s)
    ensures Inv(CoordinatorNext(p, s))
  {
    hide Copies, Occurrences, Shape, Running, Releasing, CoordinatorNext, Enabled;
    var q := CoordinatorNext(p, s);
    CoordinatorKeepsShape(p, s);
    if !q.stop {
      CoordinatorKeepsRunning(p, s);
    }
    forall x ensures Occurrences(q.submitted, x) == Copies(q, x) {
      CoordinatorKeepsCounts(p, s, x);
    }
  }

  lemma StepKeepsInv(p: Pool, s: Step)
    requires Inv(p)
    ensures Inv(Next(p, s))
  {
    hide Inv, Enabled, WorkerNext, CoordinatorNext;
    if Enabled(p, s) {
      if OfWorker(s) {
        assert ThreadEnabled(p, s, s.w) by {
          WorkerEnabled(p, s);
        }
        WorkerKeepsInv(p, s);
      } else {
        CoordinatorKeepsInv(p, s);
      }
    }
  }

  lemma WorkerEnabled(p: Pool, s: Step)
    requires OfWorker(s)
    ensures Enabled(p, s) <==> ThreadEnabled(p, s, s.w)
  {
  }

  /** A state that some interleaving reaches from a fresh pool. */
  ghost predicate Reachable(p: Pool) {
    exists requested: int, steps: seq<Step> :: p == Run(NewPool(requested), steps)
  }

  lemma {:induction false} RunKeepsInv(requested: int, steps: seq<Step>)
    ensures Inv(Run(NewPool(requested), steps))
  {
    if steps == [] {
      NewPoolIsGood(requested);
    } else {
      RunKeepsInv(requested, steps[..|steps| - 1]);
      StepKeepsInv(Run(NewPool(requested), steps[..|steps| - 1]), steps[|steps| - 1]);
    }
  }

  lemma CountsAreEqual(p: Pool)
    requires forall x :: Occurrences(p.submitted, x) == Copies(p, x)
    ensures multiset(p.submitted)
            == multiset(p.pending + JobNames(p.tasks) + InFlight(p.threads) + Names(p.results) + Held(p.coordinator)
                        + Names(p.delivered) + p.dropped)
  {
    hide Names, JobNames, InFlight, Held;
    var all := p.pending + JobNames(p.tasks) + InFlight(p.threads) + Names(p.results) + Held(p.coordinator)
      + Names(p.delivered) + p.dropped;
    forall x ensures multiset(p.submitted)[x] == multiset(all)[x] {
      assert Occurrences(p.submitted, x) == Copies(p, x);
      hide Occurrences;
      OccurrencesOfSum(p.pending, JobNames(p.tasks), x);
      var a := p.pending + JobNames(p.tasks);
      OccurrencesOfSum(a, InFlight(p.threads), x);
      OccurrencesOfSum(a + InFlight(p.threads), Names(p.results), x);
      var b := a + InFlight(p.threads) + Names(p.results);
      OccurrencesOfSum(b, Held(p.coordinator), x);
      OccurrencesOfSum(b + Held(p.coordinator), Names(p.delivered), x);
      OccurrencesOfSum(b + Held(p.coordinator) + Names(p.delivered), p.dropped, x);
      OccurrencesAre(p.submitted, x);
      OccurrencesAre(all, x);
    }
  }

  lemma OccurrencesAre(s: seq<Task>, x: Task)
    ensures Occurrences(s, x) == multiset(s)[x]
  {
  }

  /**
   In every reachable state the submitted tasks are, as a multiset, exactly those still
   pending, queued, being read, read but not taken, in the coordinator's hand,
   delivered, or dropped by a stopped worker; and none is dropped before a stop.
   */
  lemma NoTaskIsLost(p: Pool)
    requires Reachable(p)
    ensures multiset(p.submitted)
            == multiset(p.pending + JobNames(p.tasks) + InFlight(p.threads) + Names(p.results) + Held(p.coordinator)
                        + Names(p.delivered) + p.dropped)
    ensures !p.stop ==> p.dropped == [] && |p.tasks| <= 3 * p.workers
  {
    var requested, steps :| p == Run(NewPool(requested), steps);
    RunKeepsInv(requested, steps);
    hide Run;
    CountsAreEqual(p);
  }

  // --- the consumer never waits for ever ------------------------------------------

  lemma JobsOnly(items: seq<Item>)
    requires StopMark !in items
    ensures |JobNames(items)| == |items|
  {
    hide JobNames;
    forall i | 0 <= i < |items| ensures items[i].Job? {
      assert items[i] in items;
    }
    EveryItemIsAJob(items);
  }

  lemma {:induction false} EveryItemIsAJob(items: seq<Item>)
    requires forall i | 0 <= i < |items| :: items[i].Job?
    ensures |JobNames(items)| == |items|
  {
    if items != [] {
      EveryItemIsAJob(items[1..]);
    }
  }

  lemma SizesAddUp(p: Pool)
    requires Inv(p)
    ensures |p.submitted| == |p.pending| + |JobNames(p.tasks)| + |InFlight(p.threads)| + |p.results|
                             + |Held(p.coordinator)| + |p.delivered| + |p.dropped|
  {
    hide JobNames, InFlight, Held, Running, Releasing, Shape;
    CountsAreEqual(p);
    hide Copies, Occurrences;
    var all := p.pending + JobNames(p.tasks) + InFlight(p.threads) + Names(p.results) + Held(p.coordinator)
      + Names(p.delivered) + p.dropped;
    assert |multiset(p.submitted)| == |p.submitted| && |multiset(all)| == |all|;
  }

  lemma {:induction false} SomeoneReads(threads: seq<Thread>)
    requires InFlight(threads) != []
    ensures exists w :: 0 <= w < |threads| && InHand(threads[w]) != []
  {
    NothingInFlight(threads);
    hide InFlight, InHand;
    var t :| t in threads && InHand(t) != [];
    var w :| 0 <= w < |threads| && threads[w] == t;
    assert InHand(threads[w]) != [];
  }

  /** Thread `w` can take a step now. */
  predicate CanStep(p: Pool, w: nat) {
    && w < |p.threads|
    && match p.threads[w]
       case Starting => true
       case Waiting => p.start
       case Getting => p.tasks != []
       case FailedToStart => false
       case Exited => false
       case _ => true
  }

  /**
   While a result is still owed and nobody stopped the pool, a blocked take is never a
   deadlock: a result is waiting or some thread can step.
   */
  lemma BlockedTakeIsNoDeadlock(p: Pool)
    requires Inv(p) && p.coordinator.Taking? && !p.stop && |p.delivered| < |p.submitted|
    ensures p.results != [] || exists w :: CanStep(p, w)
  {
    hide Copies, Occurrences, Getters, JobNames;
    SizesAddUp(p);
    JobsOnly(p.tasks);
    if p.results == [] {
      if InFlight(p.threads) != [] {
        SomeoneReads(p.threads);
        hide InFlight;
        var w: nat :| w < |p.threads| && InHand(p.threads[w]) != [];
        assert CanStep(p, w);
      } else {
        hide InFlight;
        assert p.tasks != [];
        var t :| t in p.threads && !t.FailedToStart?;
        var w: nat :| w < |p.threads| && p.threads[w] == t;
        assert p.threads[w] in p.threads;
        assert CanStep(p, w);
      }
    }
  }

  /** How many steps a thread can take before it must finish a read. */
  function StepsToRead(t: Thread): nat {
    match t
    case Starting => 6
    case Waiting => 5
    case Idle => 4
    case Getting => 3
    case Turn(_) => 2
    case Reading(_) => 1
    case _ => 0
  }

  function Patience(threads: seq<Thread>): nat {
    if threads == [] then 0 else StepsToRead(threads[0]) + Patience(threads[1..])
  }

  lemma {:induction false} PatienceOfUpdate(threads: seq<Thread>, w: nat, t: Thread)
    requires w < |threads|
    ensures Patience(threads[w := t]) + StepsToRead(threads[w]) == Patience(threads) + StepsToRead(t)
  {
    hide StepsToRead;
    if w == 0 {
      assert threads[w := t][1..] == threads[1..];
    } else {
      assert threads[w := t][1..] == threads[1..][w - 1 := t];
      PatienceOfUpdate(threads[1..], w - 1, t);
    }
  }

  lemma {:induction false} PatienceIsBounded(threads: seq<Thread>)
    ensures Patience(threads) <= 6 * |threads|
  {
    if threads != [] {
      PatienceIsBounded(threads[1..]);
    }
  }

  /** Every step of the run is a worker's, and happens. */
  predicate WorkersOnly(p: Pool, steps: seq<Step>)
    decreases |steps|
  {
    steps == [] || (OfWorker(steps[0]) && ThreadEnabled(p, steps[0], steps[0].w)
                    && WorkersOnly(WorkerNext(p, steps[0]), steps[1..]))
  }

  function AfterWorkers(p: Pool, steps: seq<Step>): Pool
    requires WorkersOnly(p, steps)
    decreases |steps|
  {
    if steps == [] then p else AfterWorkers(WorkerNext(p, steps[0]), steps[1..])
  }

  /**
   A take cannot be kept waiting: however the workers are scheduled, each step brings a
   result or uses up some of a bounded patience, at most six steps a thread.
   */
  lemma {:induction false} WaitIsBounded(p: Pool, steps: seq<Step>)
    requires WorkersOnly(p, steps) && !p.stop && |steps| > Patience(p.threads)
    ensures |AfterWorkers(p, steps).results| > |p.results|
    decreases |steps|
  {
    hide Patience;
    var q := WorkerNext(p, steps[0]);
    PatienceOfUpdate(p.threads, steps[0].w, q.threads[steps[0].w]);
    if steps[0].FinishRead? {
      ResultsOnlyGrow(q, steps[1..]);
    } else {
      WaitIsBounded(q, steps[1..]);
    }
  }

  lemma {:induction false} ResultsOnlyGrow(p: Pool, steps: seq<Step>)
    requires WorkersOnly(p, steps)
    ensures |AfterWorkers(p, steps).results| >= |p.results|
    ensures AfterWorkers(p, steps).submitted == p.submitted && AfterWorkers(p, steps).delivered == p.delivered
    ensures Inv(p) ==> Inv(AfterWorkers(p, steps))
    decreases |steps|
  {
    if steps != [] {
      if Inv(p) {
        WorkerKeepsInv(p, steps[0]);
      }
      hide Inv;
      ResultsOnlyGrow(WorkerNext(p, steps[0]), steps[1..]);
    }
  }

  /**
   Asking for more results than tasks is exactly what does block for ever: once every
   submitted task has been delivered no schedule of the workers brings another result.
   */
  lemma NothingComesAfterTheLast(p: Pool, steps: seq<Step>)
    requires Inv(p) && WorkersOnly(p, steps) && |p.delivered| == |p.submitted|
    ensures AfterWorkers(p, steps).results == []
  {
    ResultsOnlyGrow(p, steps);
    hide Inv, AfterWorkers, WorkersOnly;
    SizesAddUp(AfterWorkers(p, steps));
  }

  /** The coordinator asks for one result per submitted task, so each of its takes is owed one. */
  lemma EveryTakeIsOwedAResult(p: Pool)
    requires Inv(p) && p.coordinator.Taking? && !p.stop && p.asked <= |p.submitted|
    ensures |p.delivered| < |p.submitted|
    ensures p.results != [] || exists w :: CanStep(p, w)
  {
    assert |p.delivered| + Asking(p.coordinator) == p.asked;
    hide Inv;
    BlockedTakeIsNoDeadlock(p);
  }

  /**
   When the coordinator has asked for one result per submitted task and the call has
   ended without a stop, it was given exactly the submitted tasks, each once, and the
   pool holds nothing more.
   */
  lemma EverythingIsDelivered(p: Pool)
    requires Inv(p) && !p.stop && p.coordinator.Outside? && p.asked == |p.submitted|
    ensures multiset(Names(p.delivered)) == multiset(p.submitted)
    ensures p.pending == [] && p.tasks == [] && p.results == [] && InFlight(p.threads) == []
  {
    assert |p.delivered| == |p.submitted|;
    SizesAddUp(p);
    JobsOnly(p.tasks);
    CountsAreEqual(p);
    hide Inv, InFlight;
    assert p.pending + JobNames(p.tasks) + InFlight(p.threads) + Names(p.results) + Held(p.coordinator)
           + Names(p.delivered) + p.dropped == Names(p.delivered);
  }

  // --- one worker keeps the order -------------------------------------------------

  /** Every task, the most advanced first. */
  function Line(p: Pool): seq<Task> {
    Names(p.delivered) + Held(p.coordinator) + Names(p.results) + InFlight(p.threads) + JobNames(p.tasks) + p.pending
  }

  lemma OneThread(p: Pool)
    requires |p.threads| == 1
    ensures InFlight(p.threads) == InHand(p.threads[0])
  {
    assert p.threads[1..] == [];
    assert InFlight([]) == [];
  }

  lemma WorkerMovesOn(p: Pool, s: Step)
    requires OfWorker(s) && ThreadEnabled(p, s, s.w) && |p.threads| == 1 && !p.stop && StopMark !in p.tasks
    ensures var q := WorkerNext(p, s);
            Names(q.results) + InFlight(q.threads) + JobNames(q.tasks) == Names(p.results) + InFlight(p.threads) + JobNames(p.tasks)
  {
    hide InFlight, Names, JobNames;
    OneThread(p);
    OneThread(WorkerNext(p, s));
    if s.GetTask? {
      assert p.tasks[0] in p.tasks;
      JobsUnfold(p.tasks);
    } else if s.FinishRead? {
      NamesOfAppend(p.results, Result(p.threads[0].task, s.failed));
    }
  }

  lemma MiddleMoves(
    d: seq<Task>, h: seq<Task>, q: seq<Task>, r: seq<Task>, f: seq<Task>, j: seq<Task>,
    r': seq<Task>, f': seq<Task>, j': seq<Task>)
    requires r + f + j == r' + f' + j'
    ensures d + h + r + f + j + q == d + h + r' + f' + j' + q
  {
    assert d + h + r + f + j + q == d + h + (r + f + j) + q;
    assert d + h + r' + f' + j' + q == d + h + (r' + f' + j') + q;
  }

  lemma WorkerKeepsLine(p: Pool, s: Step)
    requires OfWorker(s) && ThreadEnabled(p, s, s.w) && |p.threads| == 1 && !p.stop && StopMark !in p.tasks
    ensures Line(WorkerNext(p, s)) == Line(p)
  {
    hide InFlight, Names, Held, JobNames;
    var q := WorkerNext(p, s);
    WorkerMovesOn(p, s);
    MiddleMoves(Names(p.delivered), Held(p.coordinator), p.pending, Names(q.results), InFlight(q.threads), JobNames(q.tasks),
                Names(p.results), InFlight(p.threads), JobNames(p.tasks));
  }

  lemma Regrouped(
    d: seq<Task>, h: seq<Task>, r: seq<Task>, f: seq<Task>, j: seq<Task>, q: seq<Task>,
    d': seq<Task>, h': seq<Task>, j': seq<Task>, q': seq<Task>)
    requires d + h == d' + h' && j + q == j' + q'
    ensures d + h + r + f + j + q == d' + h' + r + f + j' + q'
  {
    assert d + h + r + f + j + q == (d + h) + (r + f) + (j + q);
    assert d' + h' + r + f + j' + q' == (d' + h') + (r + f) + (j' + q');
  }

  lemma PutMovesFirst(jobs: seq<Task>, pending: seq<Task>)
    requires pending != []
    ensures jobs + [pending[0]] + pending[1..] == jobs + pending
  {
    assert pending == [pending[0]] + pending[1..];
  }

  lemma PutOneKeepsLine(p: Pool)
    requires Enabled(p, PutOne)
    ensures Line(CoordinatorNext(p, PutOne)) == Line(p)
  {
    hide InFlight, JobNames, Names;
    var q := CoordinatorNext(p, PutOne);
    if p.pending != [] {
      JobsOfAppend(p.tasks, Job(p.pending[0]));
      PutMovesFirst(JobNames(p.tasks), p.pending);
    }
    if p.coordinator.Refilling? {
      NamesOfAppend(p.delivered, p.coordinator.held);
      assert Names(p.delivered) + [p.coordinator.held.task] + [] == Names(p.delivered) + [p.coordinator.held.task];
    }
    Regrouped(Names(q.delivered), Held(q.coordinator), Names(p.results), InFlight(p.threads), JobNames(q.tasks), q.pending,
              Names(p.delivered), Held(p.coordinator), JobNames(p.tasks), p.pending);
  }

  lemma CoordinatorKeepsLine(p: Pool, s: Step)
    requires !OfWorker(s) && Enabled(p, s) && !s.Submit? && !CoordinatorNext(p, s).stop
    requires p.coordinator.Closing? ==> p.stop
    ensures Line(CoordinatorNext(p, s)) == Line(p)
  {
    hide InFlight, JobNames, Names;
    match s {
      case PutOne => PutOneKeepsLine(p);
      case TakeResult => NamesOfTail(p.results);
      case _ =>
    }
  }

  lemma FirstLine(p: Pool, ts: seq<Task>)
    requires Inv(p) && Enabled(p, Submit(ts)) && Line(p) == []
    ensures Line(CoordinatorNext(p, Submit(ts))) == ts
  {
    hide InFlight, JobNames, Names, Inv;
  }

  lemma StepKeepsLine(p: Pool, s: Step)
    requires Inv(p) && p.workers == 1 && !Next(p, s).stop && Line(p) == p.submitted
    ensures Line(Next(p, s)) == Next(p, s).submitted
  {
    hide Line, Copies, Occurrences;
    if !Enabled(p, s) {
    } else if OfWorker(s) {
      WorkerKeepsLine(p, s);
    } else if s.Submit? {
      FirstLine(p, s.ts);
    } else {
      CoordinatorKeepsLine(p, s);
    }
  }

  lemma StopIsForEver(p: Pool, s: Step)
    ensures p.stop ==> Next(p, s).stop
    ensures Next(p, s).workers == p.workers
  {
  }

  /** With one worker, results come back in the order in which the tasks were submitted. */
  lemma {:induction false} OneWorkerKeepsTheOrder(requested: int, steps: seq<Step>)
    requires requested <= 1 && !Run(NewPool(requested), steps).stop
    ensures var p := Run(NewPool(requested), steps);
            p.workers == 1 && Line(p) == p.submitted && Names(p.delivered) <= p.submitted
  {
    if steps == [] {
      OneThread(NewPool(requested));
      assert Names([]) == [];
    } else {
      var before := Run(NewPool(requested), steps[..|steps| - 1]);
      StopIsForEver(before, steps[|steps| - 1]);
      OneWorkerKeepsTheOrder(requested, steps[..|steps| - 1]);
      RunKeepsInv(requested, steps[..|steps| - 1]);
      hide Next;
      StepKeepsLine(before, steps[|steps| - 1]);
    }
    hide Next, InFlight, JobNames, Names, Held;
  }

  // --- closing --------------------------------------------------------------------

  /** A thread that is gone. */
  predicate Gone(t: Thread) {
    t.Exited? || t.FailedToStart?
  }

  /** How many steps a thread can still take in a stopped pool. */
  function StepsToExit(t: Thread): nat {
    match t
    case Starting => 3
    case Waiting => 2
    case Idle => 1
    case Getting => 2
    case Turn(_) => 1
    case Reading(_) => 2
    case _ => 0
  }

  function Remaining(threads: seq<Thread>): nat {
    if threads == [] then 0 else StepsToExit(threads[0]) + Remaining(threads[1..])
  }

  lemma {:induction false} RemainingOfUpdate(threads: seq<Thread>, w: nat, t: Thread)
    requires w < |threads|
    ensures Remaining(threads[w := t]) + StepsToExit(threads[w]) == Remaining(threads) + StepsToExit(t)
    ensures Remaining(threads) <= 3 * |threads|
  {
    hide StepsToExit;
    if w == 0 {
      assert threads[w := t][1..] == threads[1..];
      RemainingIsBounded(threads);
    } else {
      assert threads[w := t][1..] == threads[1..][w - 1 := t];
      RemainingOfUpdate(threads[1..], w - 1, t);
      RemainingIsBounded(threads);
    }
  }

  lemma {:induction false} RemainingIsBounded(threads: seq<Thread>)
    ensures Remaining(threads) <= 3 * |threads|
  {
    if threads != [] {
      RemainingIsBounded(threads[1..]);
    }
  }

  lemma {:induction false} SomeoneGets(threads: seq<Thread>, w: nat)
    requires w < |threads| && threads[w].Getting?
    ensures Getters(threads) > 0
  {
    if w > 0 {
      SomeoneGets(threads[1..], w - 1);
    }
  }

  /** After `close` a thread that is not gone is never blocked: it can step at once. */
  lemma ClosedPoolBlocksNobody(p: Pool, w: nat)
    requires Inv(p) && p.coordinator.Closed? && w < |p.threads|
    ensures CanStep(p, w) <==> !Gone(p.threads[w])
  {
    hide Copies, Occurrences, Getters, Running;
    if p.threads[w].Getting? {
      SomeoneGets(p.threads, w);
    }
  }

  /** Threads that cannot step are gone. */
  ghost predicate Settled(p: Pool) {
    (forall w: nat | w < |p.threads| :: !CanStep(p, w)) ==> forall w: nat | w < |p.threads| :: Gone(p.threads[w])
  }

  /**
   However the threads are scheduled after `close`, they take at most three steps each,
   and a schedule that cannot be continued has left every thread gone.
   */
  lemma {:induction false} ClosedPoolEnds(p: Pool, steps: seq<Step>)
    requires Inv(p) && p.coordinator.Closed? && WorkersOnly(p, steps)
    ensures |steps| <= Remaining(p.threads) <= 3 * p.workers
    ensures Settled(AfterWorkers(p, steps))
    decreases |steps|
  {
    hide Inv, Remaining, CanStep, Gone, WorkerNext, ThreadEnabled, Settled;
    ClosedShape(p);
    RemainingIsBounded(p.threads);
    if steps == [] {
      ClosedPoolSettles(p);
    } else {
      WorkerSpends(p, steps[0]);
      WorkerKeepsInv(p, steps[0]);
      ClosedPoolEnds(WorkerNext(p, steps[0]), steps[1..]);
    }
  }

  lemma ClosedPoolSettles(p: Pool)
    requires Inv(p) && p.coordinator.Closed?
    ensures Settled(p)
  {
    hide Inv, CanStep, Gone;
    forall w: nat | w < |p.threads| ensures CanStep(p, w) <==> !Gone(p.threads[w]) {
      ClosedPoolBlocksNobody(p, w);
    }
  }

  lemma ClosedShape(p: Pool)
    requires Inv(p) && p.coordinator.Closed?
    ensures p.stop && p.start && |p.threads| == p.workers
  {
    hide Copies, Occurrences, Running;
  }

  /** A worker's step in a closed pool brings it nearer to its end. */
  lemma WorkerSpends(p: Pool, s: Step)
    requires OfWorker(s) && ThreadEnabled(p, s, s.w) && p.stop && p.start
    ensures Remaining(WorkerNext(p, s).threads) < Remaining(p.threads)
    ensures WorkerNext(p, s).coordinator == p.coordinator
  {
    RemainingOfUpdate(p.threads, s.w, WorkerNext(p, s).threads[s.w]);
    hide Remaining;
  }

  // --- how much at once, and in which order ---------------------------------------

  /** Whatever is asked for, a pool has one or two threads, and at most three queued tasks for each. */
  lemma PoolIsBounded(requested: int, steps: seq<Step>)
    ensures var p := Run(NewPool(requested), steps);
            && p.workers == (if requested < 1 then 1 else if requested > 2 then 2 else requested)
            && |p.threads| == p.workers && |InFlight(p.threads)| <= p.workers && |p.tasks| <= 3 * p.workers
  {
    RunKeepsInv(requested, steps);
    WorkersStay(requested, steps);
    hide InFlight, Run, Running, Copies, Occurrences;
    FlightIsBounded(Run(NewPool(requested), steps).threads);
  }

  lemma {:induction false} WorkersStay(requested: int, steps: seq<Step>)
    ensures Run(NewPool(requested), steps).workers
            == if requested < 1 then 1 else if requested > 2 then 2 else requested
  {
    if steps != [] {
      WorkersStay(requested, steps[..|steps| - 1]);
      StopIsForEver(Run(NewPool(requested), steps[..|steps| - 1]), steps[|steps| - 1]);
    }
    hide Next;
  }

  lemma {:induction false} FlightIsBounded(threads: seq<Thread>)
    ensures |InFlight(threads)| <= |threads|
  {
    if threads != [] {
      FlightIsBounded(threads[1..]);
    }
  }

  function TakenBy(p: Pool, s: Step): seq<Task> {
    if s.GetTask? && Enabled(p, s) then JobOf(p.tasks[0]) else []
  }

  /** The tasks that threads took from the queue, one after the other. */
  function Taken(p: Pool, steps: seq<Step>): seq<Task> {
    if steps == [] then []
    else
      var before, step := Run(p, steps[..|steps| - 1]), steps[|steps| - 1];
      Taken(p, steps[..|steps| - 1]) + TakenBy(before, step)
  }

  /** The reads that ended, one after the other, each with its task and how it ended. */
  function Finished(p: Pool, steps: seq<Step>): seq<Result> {
    if steps == [] then []
    else
      var before, step := Run(p, steps[..|steps| - 1]), steps[|steps| - 1];
      Finished(p, steps[..|steps| - 1]) + EndedBy(before, step)
  }

  function Handed(c: Coordinator): seq<Result> {
    if c.Refilling? then [c.held] else []
  }

  lemma WorkerTakes(p: Pool, s: Step)
    requires OfWorker(s)
    ensures var q := Next(p, s); TakenBy(p, s) + JobNames(q.tasks) + q.pending == JobNames(p.tasks) + p.pending
  {
    hide JobNames, JobOf;
    if s.GetTask? && Enabled(p, s) {
      JobsUnfold(p.tasks);
    }
  }

  lemma CoordinatorTakesNothing(p: Pool, s: Step)
    requires !OfWorker(s) && Enabled(p, s)
    ensures var q := CoordinatorNext(p, s);
            if s.Submit? then q.pending == s.ts && q.tasks == p.tasks
            else JobNames(q.tasks) + q.pending == JobNames(p.tasks) + p.pending
  {
    hide JobNames, JobOf;
    if s.PutOne? && p.pending != [] {
      JobsOfAppend(p.tasks, Job(p.pending[0]));
      JobIsItself(p.pending[0]);
      PutMovesFirst(JobNames(p.tasks), p.pending);
    }
    if s.PutStop? {
      JobsOfAppend(p.tasks, StopMark);
      MarkIsNoJob();
      assert JobNames(p.tasks) + [] == JobNames(p.tasks);
    }
  }

  lemma TakenMoves(p: Pool, s: Step)
    requires s.Submit? ==> Enabled(p, s) ==> p.pending == [] && JobNames(p.tasks) == []
    ensures var q := Next(p, s);
            if s.Submit? && Enabled(p, s) then TakenBy(p, s) + JobNames(q.tasks) + q.pending == s.ts
            else TakenBy(p, s) + JobNames(q.tasks) + q.pending == JobNames(p.tasks) + p.pending
  {
    hide JobNames, JobOf, Enabled, CoordinatorNext, WorkerNext;
    if OfWorker(s) {
      WorkerTakes(p, s);
    } else if Enabled(p, s) {
      CoordinatorTakesNothing(p, s);
    }
  }

  lemma JobIsItself(t: Task)
    ensures JobOf(Job(t)) == [t]
  {
  }

  lemma MarkIsNoJob()
    ensures JobOf(StopMark) == []
  {
  }

  lemma NothingBeforeSubmit(p: Pool)
    requires Inv(p) && p.submitted == []
    ensures p.pending == [] && JobNames(p.tasks) == []
  {
    hide InFlight, Names, JobNames, Held, Running, Releasing, Shape, Occurrences;
    forall x ensures Occurrences(p.pending, x) == 0 && Occurrences(JobNames(p.tasks), x) == 0 {
      NoOccurrence(x);
      assert Occurrences(p.submitted, x) == Copies(p, x);
    }
    NeverMeansEmpty(p.pending);
    NeverMeansEmpty(JobNames(p.tasks));
  }

  lemma NeverMeansEmpty(s: seq<Task>)
    requires forall x :: Occurrences(s, x) == 0
    ensures s == []
  {
    assert s != [] ==> s[0] in multiset(s) && Occurrences(s, s[0]) > 0;
  }

  lemma TakenStep(p: Pool, s: Step, done: seq<Task>)
    requires Inv(p) && done + JobNames(p.tasks) + p.pending == p.submitted
    ensures var q := Next(p, s);
            (done + TakenBy(p, s)) + JobNames(q.tasks) + q.pending == q.submitted
  {
    hide Next, JobNames, JobOf, Inv, Enabled, TakenBy;
    SubmittedMoves(p, s);
    var q := Next(p, s);
    if s.Submit? && Enabled(p, s) {
      NothingBeforeSubmit(p);
      assert done == [];
      TakenMoves(p, s);
      assert done + TakenBy(p, s) == TakenBy(p, s);
    } else {
      TakenMoves(p, s);
      assert (done + TakenBy(p, s)) + JobNames(q.tasks) + q.pending == done + (TakenBy(p, s) + JobNames(q.tasks) + q.pending);
      assert done + JobNames(p.tasks) + p.pending == done + (JobNames(p.tasks) + p.pending);
    }
  }

  /**
   However many workers there are, and whether or not somebody stops the pool, tasks leave
   the queue in the order in which they were submitted, and none is passed over.
   */
  lemma {:induction false} TasksAreTakenInOrder(requested: int, steps: seq<Step>)
    ensures var p := Run(NewPool(requested), steps);
            Taken(NewPool(requested), steps) + JobNames(p.tasks) + p.pending == p.submitted
  {
    if steps == [] {
      NoJobs();
    } else {
      TasksAreTakenInOrder(requested, steps[..|steps| - 1]);
      RunKeepsInv(requested, steps[..|steps| - 1]);
      hide Next, JobNames, JobOf, Inv;
      TakenStep(Run(NewPool(requested), steps[..|steps| - 1]), steps[|steps| - 1], Taken(NewPool(requested), steps[..|steps| - 1]));
    }
  }

  lemma SubmittedMoves(p: Pool, s: Step)
    ensures Next(p, s).submitted == if s.Submit? && Enabled(p, s) then s.ts else p.submitted
    ensures s.Submit? && Enabled(p, s) ==> p.submitted == []
  {
  }

  /** The read that a step ends, if it ends one. */
  function EndedBy(p: Pool, s: Step): seq<Result> {
    if s.FinishRead? && Enabled(p, s) then [Result(p.threads[s.w].task, s.failed)] else []
  }

  lemma WorkerFinishes(p: Pool, s: Step)
    requires OfWorker(s)
    ensures var q := Next(p, s);
            q.delivered == p.delivered && q.coordinator == p.coordinator && q.results == p.results + EndedBy(p, s)
  {
  }

  lemma CoordinatorHandsOver(p: Pool, s: Step)
    requires !OfWorker(s) && Enabled(p, s)
    ensures var q := CoordinatorNext(p, s);
            q.delivered + Handed(q.coordinator) + q.results == p.delivered + Handed(p.coordinator) + p.results
  {
    if s.TakeResult? {
      assert p.results == [p.results[0]] + p.results[1..];
    }
  }

  lemma FinishedMoves(p: Pool, s: Step)
    ensures var q := Next(p, s);
            q.delivered + Handed(q.coordinator) + q.results == p.delivered + Handed(p.coordinator) + p.results + EndedBy(p, s)
  {
    hide Enabled, CoordinatorNext, WorkerNext;
    if OfWorker(s) {
      WorkerFinishes(p, s);
    } else if Enabled(p, s) {
      CoordinatorHandsOver(p, s);
    }
  }

  /**
   Results are handed over in the order in which the reads ended, each with the task that
   was read and whether that read failed; none is skipped, repeated or exchanged.
   */
  lemma {:induction false} FirstFinishedIsFirstDelivered(requested: int, steps: seq<Step>)
    ensures var p := Run(NewPool(requested), steps);
            p.delivered + Handed(p.coordinator) + p.results == Finished(NewPool(requested), steps)
  {
    if steps != [] {
      FirstFinishedIsFirstDelivered(requested, steps[..|steps| - 1]);
      FinishedMoves(Run(NewPool(requested), steps[..|steps| - 1]), steps[|steps| - 1]);
      hide Next;
    }
  }

  /** After a stop, no thread begins another read, and no task enters the queue. */
  lemma {:induction false} NothingStartsAfterStop(p: Pool, steps: seq<Step>, w: nat)
    requires p.stop && w < |p.threads| && p.submitted != []
    ensures var q := Run(p, steps);
            && q.stop && |q.threads| == |p.threads| && q.pending == p.pending && q.submitted == p.submitted
            && (q.threads[w].Reading? ==> q.threads[w] == p.threads[w])
  {
    if steps != [] {
      NothingStartsAfterStop(p, steps[..|steps| - 1], w);
      StoppedStep(Run(p, steps[..|steps| - 1]), steps[|steps| - 1], w);
      hide Next;
    }
  }

  lemma StoppedStep(p: Pool, s: Step, w: nat)
    requires p.stop && w < |p.threads| && p.submitted != []
    ensures var q := Next(p, s);
            && q.stop && |q.threads| == |p.threads| && q.pending == p.pending && q.submitted == p.submitted
            && (q.threads[w].Reading? ==> q.threads[w] == p.threads[w])
  {
  }

  // --- stopping -------------------------------------------------------------------

  /**
   Between calls and between results the pool can be cancelled, which only sets the stop
   event, and closed: then the stop event is set, nobody waits for the start event, and
   after one stop mark for each worker, or as many as fit, the call returns.
   */
  lemma PoolCanBeStopped(p: Pool)
    requires Inv(p) && (p.coordinator.Outside? || p.coordinator.Testing?)
    ensures Next(p, Cancel) == p.(stop := true)
    ensures var q := StopAll(Next(p, BeginClose));
            var room := if 3 * p.workers - |p.tasks| < p.workers then 3 * p.workers - |p.tasks| else p.workers;
            && q == p.(stop := true, start := true, coordinator := Closed, tasks := q.tasks)
            && |q.tasks| == |p.tasks| + room && q.tasks[..|p.tasks|] == p.tasks
            && forall i | |p.tasks| <= i < |q.tasks| :: q.tasks[i] == StopMark
  {
    hide Running, Copies, Occurrences, WithStops, StopAll, Releasing;
    CloseIsStopAll(Next(p, BeginClose));
    StopsFit(p.tasks, p.workers, 3 * p.workers);
  }

  lemma {:induction false} StopsFit(tasks: seq<Item>, stops: nat, capacity: nat)
    requires |tasks| <= capacity
    ensures var room := if capacity - |tasks| < stops then capacity - |tasks| else stops;
            var all := WithStops(tasks, stops, capacity);
            && |all| == |tasks| + room && all[..|tasks|] == tasks
            && forall i | |tasks| <= i < |all| :: all[i] == StopMark
    decreases stops
  {
    if stops > 0 && |tasks| < capacity {
      StopsFit(tasks + [StopMark], stops - 1, capacity);
      var all := WithStops(tasks, stops, capacity);
      assert all[..|tasks|] == all[..|tasks| + 1][..|tasks|];
      assert all[|tasks|] == all[..|tasks| + 1][|tasks|];
    }
  }
}
