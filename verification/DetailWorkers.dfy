/**
 The bounded worker pool for detail reads (backend/app/detail_workers.py): one
 coordinator, one or two worker threads, a bounded task queue, an unbounded result
 queue, and the stop protocol.
 */
module DetailWorkers {

  /** A task, named by its key. */
  type Task = string

  datatype Item = Job(task: Task) | StopMark

  datatype Result = Result(task: Task, failed: bool)

  /** Where a worker thread is. */
  datatype Thread =
    | Starting            // its reader is being opened
    | FailedToStart
    | Waiting             // ready, waiting for the start event
    | Idle                // about to test the stop event
    | Getting             // blocked on the task queue
    | Turn(task: Task)    // waiting for its start slot
    | Reading(task: Task)
    | Exited

  /** Where the coordinator is. */
  datatype Coordinator =
    | Entering
    | Outside                     // between calls
    | FillingAfterSubmit
    | Testing(left: nat)          // about to test the stop event in `results`
    | Taking(left: nat)           // blocked on the result queue
    | Refilling(left: nat, held: Result)
    | Closing(put: nat)
    | Closed

  datatype Pool = Pool(
    workers: nat,
    stop: bool,
    start: bool,
    pending: seq<Task>,
    tasks: seq<Item>,
    results: seq<Result>,
    threads: seq<Thread>,
    coordinator: Coordinator,
    submitted: seq<Task>,
    asked: nat,                   // how many results `results` was asked for
    delivered: seq<Result>,
    dropped: seq<Task>)

  function Capacity(p: Pool): nat {
    p.workers * 3
  }

  function NewPool(requested: int): Pool {
    var workers := if requested < 1 then 1 else if requested > 2 then 2 else requested;
    Pool(workers, false, false, [], [], [], seq(workers, _ => Starting), Entering, [], 0, [], [])
  }

  datatype Step =
    | ReaderOpens(w: nat)
    | ReaderFails(w: nat)
    | ThreadStarts(w: nat)
    | TestStop(w: nat)
    | GetTask(w: nat)
    | TakeTurn(w: nat)
    | FinishRead(w: nat, failed: bool)
    | Entered                    // every worker has reported, at least one is ready
    | EnterGivesUp               // a worker timed out, or all of them failed
    | Submit(ts: seq<Task>)
    | PutOne                     // one turn of the loop in `_fill_task_queue`
    | BeginResults(count: nat)
    | TestBeforeTake
    | TakeResult
    | Cancel
    | BeginClose
    | PutStop                    // one turn of the loop in `close`

  predicate Reported(t: Thread) {
    !t.Starting?
  }

  predicate Filling(c: Coordinator) {
    c.FillingAfterSubmit? || c.Refilling?
  }

  predicate ThreadEnabled(p: Pool, s: Step, w: nat) {
    w < |p.threads| &&
    match s
    case ReaderOpens(_) => p.threads[w].Starting?
    case ReaderFails(_) => p.threads[w].Starting?
    case ThreadStarts(_) => p.threads[w].Waiting? && p.start
    case TestStop(_) => p.threads[w].Idle?
    case GetTask(_) => p.threads[w].Getting? && p.tasks != []
    case TakeTurn(_) => p.threads[w].Turn?
    case FinishRead(_, _) => p.threads[w].Reading?
    case _ => false
  }

  /** A worker's step. */
  predicate OfWorker(s: Step) {
    s.ReaderOpens? || s.ReaderFails? || s.ThreadStarts? || s.TestStop? || s.GetTask? || s.TakeTurn? || s.FinishRead?
  }

  predicate Enabled(p: Pool, s: Step) {
    if OfWorker(s) then ThreadEnabled(p, s, s.w)
    else
      match s
      case Entered => p.coordinator.Entering? && (forall t | t in p.threads :: Reported(t))
                      && exists t | t in p.threads :: t.Waiting?
      case EnterGivesUp => p.coordinator.Entering?
      case Submit(_) => p.coordinator.Outside? && p.submitted == []
      case PutOne => Filling(p.coordinator)
      case BeginResults(_) => p.coordinator.Outside?
      case TestBeforeTake => p.coordinator.Testing?
      case TakeResult => p.coordinator.Taking? && p.results != []
      case Cancel => p.coordinator.Outside? || p.coordinator.Testing?
      case BeginClose => p.coordinator.Outside? || p.coordinator.Testing?
      case PutStop => p.coordinator.Closing?
      case _ => false
  }

  function SetThread(p: Pool, w: nat, t: Thread): Pool
    requires w < |p.threads|
  {
    p.(threads := p.threads[w := t])
  }

  function WorkerNext(p: Pool, s: Step): Pool
    requires OfWorker(s) && ThreadEnabled(p, s, s.w)
  {
    match s
    case ReaderOpens(w) => SetThread(p, w, Waiting)
    case ReaderFails(w) => SetThread(p, w, FailedToStart)
    case ThreadStarts(w) => SetThread(p, w, Idle)
    case TestStop(w) => SetThread(p, w, if p.stop then Exited else Getting)
    case GetTask(w) =>
      var taken := SetThread(p, w, if p.tasks[0].StopMark? then Exited else Turn(p.tasks[0].task));
      taken.(tasks := p.tasks[1..])
    case TakeTurn(w) =>
      if p.stop then SetThread(p, w, Exited).(dropped := p.dropped + [p.threads[w].task])
      else SetThread(p, w, Reading(p.threads[w].task))
    case FinishRead(w, failed) =>
      SetThread(p, w, Idle).(results := p.results + [Result(p.threads[w].task, failed)])
  }

  /** After the loop in `_fill_task_queue` ends. */
  function FillDone(p: Pool): Pool {
    match p.coordinator
    case Refilling(left, held) => p.(coordinator := Testing(left), delivered := p.delivered + [held])
    case _ => p.(coordinator := Outside)
  }

  function CoordinatorNext(p: Pool, s: Step): Pool
    requires !OfWorker(s) && Enabled(p, s)
  {
    match s
    case Entered => p.(coordinator := Outside, start := true)
    case EnterGivesUp => p.(coordinator := Closing(0), stop := true, start := true)
    case Submit(ts) => p.(coordinator := FillingAfterSubmit, pending := ts, submitted := ts)
    case PutOne =>
      if p.pending != [] && !p.stop && |p.tasks| < Capacity(p)
      then p.(tasks := p.tasks + [Job(p.pending[0])], pending := p.pending[1..])
      else FillDone(p)
    case BeginResults(count) => p.(coordinator := Testing(count), asked := |p.delivered| + count)
    case TestBeforeTake =>
      if p.coordinator.left == 0 || p.stop then p.(coordinator := Outside)
      else p.(coordinator := Taking(p.coordinator.left - 1))
    case TakeResult =>
      p.(coordinator := Refilling(p.coordinator.left, p.results[0]), results := p.results[1..])
    case Cancel => p.(stop := true)
    case BeginClose => p.(coordinator := Closing(0), stop := true, start := true)
    case PutStop =>
      if p.coordinator.put < p.workers && |p.tasks| < Capacity(p)
      then p.(tasks := p.tasks + [StopMark], coordinator := Closing(p.coordinator.put + 1))
      else p.(coordinator := Closed)
  }

  /** A step that is not enabled does not happen. */
  function Next(p: Pool, s: Step): Pool {
    if !Enabled(p, s) then p
    else if OfWorker(s) then WorkerNext(p, s)
    else CoordinatorNext(p, s)
  }

  function Run(p: Pool, steps: seq<Step>): Pool {
    if steps == [] then p else Next(Run(p, steps[..|steps| - 1]), steps[|steps| - 1])
  }

  // --- the pool object ------------------------------------------------------------

  /** The queue after as many pending tasks as fit were moved into it. */
  function FilledTasks(tasks: seq<Item>, pending: seq<Task>, capacity: nat): seq<Item>
    decreases |pending|
  {
    if pending == [] || |tasks| >= capacity then tasks
    else FilledTasks(tasks + [Job(pending[0])], pending[1..], capacity)
  }

  function FilledPending(tasks: seq<Item>, pending: seq<Task>, capacity: nat): seq<Task>
    decreases |pending|
  {
    if pending == [] || |tasks| >= capacity then pending
    else FilledPending(tasks + [Job(pending[0])], pending[1..], capacity)
  }

  function WithStops(tasks: seq<Item>, stops: nat, capacity: nat): seq<Item>
    decreases stops
  {
    if stops == 0 || |tasks| >= capacity then tasks
    else WithStops(tasks + [StopMark], stops - 1, capacity)
  }

  /** The queue is filled in submission order, as far as it has room. */
  lemma {:induction false} FillTakesInOrder(tasks: seq<Item>, pending: seq<Task>, capacity: nat)
    requires |tasks| <= capacity
    ensures var n := if |pending| < capacity - |tasks| then |pending| else capacity - |tasks|;
            && FilledTasks(tasks, pending, capacity)
               == tasks + seq(n, i requires 0 <= i < n => Job(pending[i]))
            && FilledPending(tasks, pending, capacity) == pending[n..]
    decreases |pending|
  {
    if pending != [] && |tasks| < capacity {
      FillTakesInOrder(tasks + [Job(pending[0])], pending[1..], capacity);
    }
  }

  /** The turns of the loop in `_fill_task_queue`, as steps of the pool. */
  function PutAll(p: Pool): Pool
    requires Filling(p.coordinator)
    decreases |p.pending|
  {
    var q := Next(p, PutOne);
    if Filling(q.coordinator) then PutAll(q) else q
  }

  /** The loop of the pool object is the loop of the step model. */
  lemma {:induction false} FillIsPutAll(p: Pool)
    requires Filling(p.coordinator)
    ensures var q := PutAll(p);
            && q.tasks == (if p.stop then p.tasks else FilledTasks(p.tasks, p.pending, Capacity(p)))
            && q.pending == (if p.stop then p.pending else FilledPending(p.tasks, p.pending, Capacity(p)))
            && q == FillDone(p).(tasks := q.tasks, pending := q.pending)
    decreases |p.pending|
  {
    if Filling(Next(p, PutOne).coordinator) {
      FillIsPutAll(Next(p, PutOne));
    }
  }

  /** The turns of the loop in `close`, as steps of the pool. */
  function StopAll(p: Pool): Pool
    requires p.coordinator.Closing? && p.coordinator.put <= p.workers
    decreases p.workers - p.coordinator.put
  {
    var q := Next(p, PutStop);
    if q.coordinator.Closing? then StopAll(q) else q
  }

  lemma {:induction false} CloseIsStopAll(p: Pool)
    requires p.coordinator.Closing? && p.coordinator.put <= p.workers
    ensures StopAll(p) == p.(tasks := WithStops(p.tasks, p.workers - p.coordinator.put, Capacity(p)), coordinator := Closed)
    decreases p.workers - p.coordinator.put
  {
    if Next(p, PutStop).coordinator.Closing? {
      CloseIsStopAll(Next(p, PutStop));
    }
  }

  /** The queues and events of one pool, as the coordinator's calls change them. */
  class DetailWorkerPool {
    const workers: nat
    var stopEvent: bool
    var startEvent: bool
    var tasks: seq<Item>
    var results: seq<Result>
    var pending: seq<Task>

    constructor (requested: int)
      ensures workers == NewPool(requested).workers
      ensures !stopEvent && !startEvent && tasks == [] && results == [] && pending == []
    {
      workers := if requested < 1 then 1 else if requested > 2 then 2 else requested;
      stopEvent, startEvent, tasks, results, pending := false, false, [], [], [];
    }

    method FillTaskQueue()
      modifies this`tasks, this`pending
      ensures tasks == if stopEvent then old(tasks) else FilledTasks(old(tasks), old(pending), workers * 3)
      ensures pending == if stopEvent then old(pending) else FilledPending(old(tasks), old(pending), workers * 3)
    {
      while pending != [] && !stopEvent
        invariant !stopEvent ==>
          && FilledTasks(tasks, pending, workers * 3) == FilledTasks(old(tasks), old(pending), workers * 3)
          && FilledPending(tasks, pending, workers * 3) == FilledPending(old(tasks), old(pending), workers * 3)
        invariant stopEvent ==> tasks == old(tasks) && pending == old(pending)
        decreases |pending|
      {
        if |tasks| >= workers * 3 {
          return;
        }
        tasks := tasks + [Job(pending[0])];
        pending := pending[1..];
      }
    }

    method SubmitAll(ts: seq<Task>)
      modifies this`tasks, this`pending
      ensures tasks == if stopEvent then old(tasks) else FilledTasks(old(tasks), ts, workers * 3)
      ensures pending == if stopEvent then ts else FilledPending(old(tasks), ts, workers * 3)
    {
      pending := ts;
      FillTaskQueue();
    }

    /** One turn of `results`, once the result queue has something to give. */
    method NextResult() returns (result: Result)
      requires results != []
      modifies this`tasks, this`pending, this`results
      ensures result == old(results)[0] && results == old(results)[1..]
      ensures tasks == if stopEvent then old(tasks) else FilledTasks(old(tasks), old(pending), workers * 3)
      ensures pending == if stopEvent then old(pending) else FilledPending(old(tasks), old(pending), workers * 3)
    {
      result := results[0];
      results := results[1..];
      FillTaskQueue();
    }

    method Cancel()
      modifies this`stopEvent
      ensures stopEvent
    {
      stopEvent := true;
    }

    method Close()
      modifies this`stopEvent, this`startEvent, this`tasks
      ensures stopEvent && startEvent
      ensures tasks == WithStops(old(tasks), workers, workers * 3)
    {
      stopEvent, startEvent := true, true;
      for i := 0 to workers
        invariant stopEvent && startEvent
        invariant WithStops(tasks, workers - i, workers * 3) == WithStops(old(tasks), workers, workers * 3)
      {
        if |tasks| >= workers * 3 {
          break;
        }
        tasks := tasks + [StopMark];
      }
    }
  }
}
