/**
 One project's pass over a verified search result (backend/app/worker.py): the rows of
 the result pages are sorted into detail reads and plain sightings, tracked cars that
 are not on a page are probed, the reads come back, and a complete search decides which
 cars it missed.
 */
module ScanPass {
  import opened Ledger
  import opened LedgerRuns
  import opened Listing
  import opened Wrappers

  datatype Mode = Accurate | Fast

  datatype ReadKind = FullRead | PriceProbe

  /** `detail_read_kind`: the smallest read that can settle what a row leaves open. */
  function DetailReadKind(
    mode: Mode, isNew: bool, listPriceChanged: bool, listPriceMissing: bool, missing: bool, manual: bool)
    : Option<ReadKind>
  {
    if mode == Accurate || isNew || manual then Some(FullRead)
    else if listPriceChanged || listPriceMissing || missing then Some(PriceProbe)
    else None
  }

  /** A row of the collected pages. */
  datatype Row = Row(id: string, listPrice: Option<int>)

  datatype Task = Task(id: string, kind: ReadKind, markFound: bool)

  /** What a detail read brings; `Abort` ends the whole pass. */
  datatype ReadResult = Page(details: Details) | ReadError | Abort

  type Files = map<string, CarFile>

  function FileAt(files: Files, id: string): CarFile {
    if id in files then files[id] else EMPTY_FILE
  }

  // --- one row --------------------------------------------------------------------

  /** Rows of cars that are excluded, sold or no longer tracked are passed over. */
  predicate PassedOver(f: CarFile, p: int) {
    f.car.Some? && (f.car.value.excluded || f.car.value.status == Sold || (p in f.links && !f.links[p].tracking))
  }

  function RowRead(f: CarFile, row: Row, mode: Mode): Option<ReadKind> {
    var known := f.car.Some?;
    DetailReadKind(mode, !known,
                   known && row.listPrice.Some? && row.listPrice != f.car.value.price,
                   known && (row.listPrice.None? || f.car.value.price.None?), false, false)
  }

  function RowTask(f: CarFile, p: int, row: Row, mode: Mode): Option<Task> {
    if PassedOver(f, p) || RowRead(f, row, mode).None? then None
    else Some(Task(row.id, RowRead(f, row, mode).value, true))
  }

  predicate RowFound(f: CarFile, p: int) {
    f.car.Some? && !PassedOver(f, p)
  }

  function RowFile(f: CarFile, p: int, row: Row, mode: Mode): CarFile {
    if PassedOver(f, p) || RowRead(f, row, mode).Some? then f else ListedObserved(f, p).0
  }

  // --- cars that no row shows -----------------------------------------------------

  /** `_should_refresh_missing_car`, for a car the project tracks. */
  predicate Probed(f: CarFile, p: int, found: bool) {
    Watched(f, p) && f.car.value.status != Sold && !found
  }

  // --- one result -----------------------------------------------------------------

  /** The document a result is stored as. */
  function Document(task: Task, details: Details): Details {
    if task.kind == PriceProbe then ProbeDetail(details) else details
  }

  /** The worker cannot go on after this result. */
  predicate Aborts(f: CarFile, p: int, task: Task, result: ReadResult) {
    result.Abort? || (result.Page? && Verdict(f, p, Document(task, result.details)) == CrossListing)
  }

  predicate Stores(f: CarFile, p: int, task: Task, result: ReadResult) {
    result.Page? && Verdict(f, p, Document(task, result.details)) == Accepted
  }

  function ResultFile(f: CarFile, p: int, task: Task, result: ReadResult): CarFile {
    if Stores(f, p, task, result) then ReadObserved(f, p, Document(task, result.details), task.markFound).0
    else if result.ReadError? && task.markFound && f.car.Some? && p in f.links then FoundWithoutDetail(f, p)
    else f
  }

  predicate ResultFound(f: CarFile, p: int, task: Task, result: ReadResult) {
    task.markFound
    && (Stores(f, p, task, result) || (result.ReadError? && f.car.Some? && p in f.links))
  }

  predicate ResultSold(f: CarFile, p: int, task: Task, result: ReadResult) {
    Stores(f, p, task, result) && Truthy(Get(result.details, SoldFlag))
  }

  // --- the pass -------------------------------------------------------------------

  ghost predicate DistinctRows(rows: seq<Row>) {
    forall i, j | 0 <= i < j < |rows| :: rows[i].id != rows[j].id
  }

  ghost predicate DistinctTasks(tasks: seq<Task>) {
    forall i, j | 0 <= i < j < |tasks| :: tasks[i].id != tasks[j].id
  }

  predicate HasRow(rows: seq<Row>, id: string) {
    exists i | 0 <= i < |rows| :: rows[i].id == id
  }

  /** The tasks the rows give rise to, in row order. */
  function RowTasks(files: Files, p: int, rows: seq<Row>, mode: Mode): seq<Task> {
    if rows == [] then []
    else
      var last := rows[|rows| - 1];
      var task := RowTask(FileAt(files, last.id), p, last, mode);
      RowTasks(files, p, rows[..|rows| - 1], mode) + if task.Some? then [task.value] else []
  }

  /** The loop over the rows. */
  method WalkRows(files: Files, p: int, rows: seq<Row>, mode: Mode)
    returns (after: Files, found: set<string>, tasks: seq<Task>)
    requires DistinctRows(rows)
    ensures forall i | 0 <= i < |rows| :: FileAt(after, rows[i].id) == RowFile(FileAt(files, rows[i].id), p, rows[i], mode)
    ensures forall id | !HasRow(rows, id) :: FileAt(after, id) == FileAt(files, id)
    ensures forall id :: id in found <==> HasRow(rows, id) && RowFound(FileAt(files, id), p)
    ensures tasks == RowTasks(files, p, rows, mode)
  {
    hide RowFile, RowRead, PassedOver;
    after, found, tasks := files, {}, [];
    for i := 0 to |rows|
      invariant forall j | 0 <= j < i :: FileAt(after, rows[j].id) == RowFile(FileAt(files, rows[j].id), p, rows[j], mode)
      invariant forall id | !HasRow(rows[..i], id) :: FileAt(after, id) == FileAt(files, id)
      invariant forall id :: id in found <==> HasRow(rows[..i], id) && RowFound(FileAt(files, id), p)
      invariant tasks == RowTasks(files, p, rows[..i], mode)
    {
      var row := rows[i];
      assert rows[..i + 1][..i] == rows[..i];
      OneMoreRow(rows, i);
      assert FileAt(after, row.id) == FileAt(files, row.id);
      var f, task, known := WalkRow(FileAt(after, row.id), p, row, mode);
      if known {
        found := found + {row.id};
      }
      if task.Some? {
        tasks := tasks + [task.value];
      }
      if f != FileAt(after, row.id) {
        after := after[row.id := f];
      }
    }
    assert rows[..|rows|] == rows;
  }

  lemma OneMoreRow(rows: seq<Row>, i: nat)
    requires i < |rows| && DistinctRows(rows)
    ensures !HasRow(rows[..i], rows[i].id)
    ensures forall id :: HasRow(rows[..i + 1], id) <==> HasRow(rows[..i], id) || id == rows[i].id
    ensures forall j | 0 <= j < i :: rows[j].id != rows[i].id
  {
    forall id ensures HasRow(rows[..i + 1], id) <==> HasRow(rows[..i], id) || id == rows[i].id {
      if HasRow(rows[..i], id) {
        var j :| 0 <= j < i && rows[..i][j].id == id;
        assert rows[..i + 1][j].id == id;
      }
      assert rows[..i + 1][i] == rows[i];
    }
  }

  /** One turn of the loop over the rows. */
  method WalkRow(f: CarFile, p: int, row: Row, mode: Mode) returns (after: CarFile, task: Option<Task>, known: bool)
    ensures after == RowFile(f, p, row, mode) && task == RowTask(f, p, row, mode) && known == RowFound(f, p)
  {
    hide ChangeReport, PreviousState, RelistEvents;
    after, task, known := f, None, false;
    if f.car.Some? && (f.car.value.excluded || f.car.value.status == Sold) {
      return;
    }
    if f.car.Some? && p in f.links && !f.links[p].tracking {
      return;
    }
    known := f.car.Some?;
    var kind := RowRead(f, row, mode);
    if kind.Some? {
      task := Some(Task(row.id, kind.value, true));
      return;
    }
    after := Remembered(FoundWithoutDetail(f, p), p);
  }

  /** The probes for tracked cars that no row showed; `ids` are the listings the project tracks. */
  method ProbeMissing(files: Files, p: int, ids: seq<string>, found: set<string>) returns (tasks: seq<Task>)
    requires forall i, j | 0 <= i < j < |ids| :: ids[i] != ids[j]
    ensures DistinctTasks(tasks)
    ensures forall t :: t in tasks <==>
      t.kind == PriceProbe && !t.markFound && t.id in ids && Probed(FileAt(files, t.id), p, t.id in found)
  {
    tasks := [];
    for i := 0 to |ids|
      invariant DistinctTasks(tasks)
      invariant forall t :: t in tasks <==>
        t.kind == PriceProbe && !t.markFound && t.id in ids[..i] && Probed(FileAt(files, t.id), p, t.id in found)
    {
      assert ids[..i + 1] == ids[..i] + [ids[i]];
      var f := FileAt(files, ids[i]);
      if f.car.Some? && p in f.links && f.links[p].tracking && !f.car.value.excluded
         && f.car.value.status != Sold && ids[i] !in found {
        tasks := tasks + [Task(ids[i], PriceProbe, false)];
      }
    }
    assert ids[..|ids|] == ids;
  }

  /** The loop over the finished reads; an aborting result ends the pass. */
  method HandleResults(files: Files, p: int, tasks: seq<Task>, results: seq<ReadResult>, foundBefore: set<string>)
    returns (after: Files, found: set<string>, sold: set<string>, aborted: bool)
    requires |tasks| == |results| && DistinctTasks(tasks)
    ensures aborted <==> exists i :: 0 <= i < |tasks| && Aborts(FileAt(files, tasks[i].id), p, tasks[i], results[i])
    ensures !aborted ==> forall i | 0 <= i < |tasks| ::
      && FileAt(after, tasks[i].id) == ResultFile(FileAt(files, tasks[i].id), p, tasks[i], results[i])
      && (tasks[i].id in found <==>
            tasks[i].id in foundBefore || ResultFound(FileAt(files, tasks[i].id), p, tasks[i], results[i]))
      && (tasks[i].id in sold <==> ResultSold(FileAt(files, tasks[i].id), p, tasks[i], results[i]))
    ensures forall id | forall i | 0 <= i < |tasks| :: tasks[i].id != id ::
      FileAt(after, id) == FileAt(files, id) && (id in found <==> id in foundBefore) && id !in sold
  {
    hide ResultFile, ResultFound, ResultSold, Aborts;
    after, found, sold, aborted := files, foundBefore, {}, false;
    for i := 0 to |tasks|
      invariant !aborted
      invariant forall j | 0 <= j < i :: !Aborts(FileAt(files, tasks[j].id), p, tasks[j], results[j])
      invariant forall j | 0 <= j < i ::
        && FileAt(after, tasks[j].id) == ResultFile(FileAt(files, tasks[j].id), p, tasks[j], results[j])
        && (tasks[j].id in found <==>
              tasks[j].id in foundBefore || ResultFound(FileAt(files, tasks[j].id), p, tasks[j], results[j]))
        && (tasks[j].id in sold <==> ResultSold(FileAt(files, tasks[j].id), p, tasks[j], results[j]))
      invariant forall id | forall j | 0 <= j < i :: tasks[j].id != id ::
        FileAt(after, id) == FileAt(files, id) && (id in found <==> id in foundBefore) && id !in sold
    {
      var task, id := tasks[i], tasks[i].id;
      var f := FileAt(after, id);
      if Aborts(f, p, task, results[i]) {
        aborted := true;
        return;
      }
      after := after[id := ResultFile(f, p, task, results[i])];
      if ResultFound(f, p, task, results[i]) {
        found := found + {id};
      }
      if ResultSold(f, p, task, results[i]) {
        sold := sold + {id};
      }
    }
  }

  // --- what one listing goes through in a pass ------------------------------------

  /** A listing, the row that shows it, and the read that came back for it, if any. */
  datatype Experience = Experience(id: string, row: Option<Row>, result: Option<ReadResult>)

  /** The read a pass orders for a listing. */
  function Ordered(f: CarFile, p: int, e: Experience, mode: Mode): Option<Task> {
    if e.row.Some? then RowTask(f, p, e.row.value, mode)
    else if Probed(f, p, false) then Some(Task(e.id, PriceProbe, false)) else None
  }

  function Walked(f: CarFile, p: int, row: Option<Row>, mode: Mode): CarFile {
    if row.Some? then RowFile(f, p, row.value, mode) else f
  }

  /** A read comes back exactly if one was ordered, and lets the pass go on. */
  predicate Answers(f: CarFile, p: int, e: Experience, mode: Mode) {
    var task := Ordered(f, p, e, mode);
    && (e.result.Some? <==> task.Some?)
    && (task.Some? ==> !Aborts(Walked(f, p, e.row, mode), p, task.value, e.result.value))
  }

  /** The listing's file before the absence pass. */
  function Resulting(f: CarFile, p: int, e: Experience, mode: Mode): CarFile
    requires Answers(f, p, e, mode)
  {
    var g := Walked(f, p, e.row, mode);
    var task := Ordered(f, p, e, mode);
    if task.Some? then ResultFile(g, p, task.value, e.result.value) else g
  }

  predicate Seen(f: CarFile, p: int, e: Experience, mode: Mode)
    requires Answers(f, p, e, mode)
  {
    var task := Ordered(f, p, e, mode);
    (e.row.Some? && RowFound(f, p))
    || (task.Some? && ResultFound(Walked(f, p, e.row, mode), p, task.value, e.result.value))
  }

  predicate ConfirmedSold(f: CarFile, p: int, e: Experience, mode: Mode)
    requires Answers(f, p, e, mode)
  {
    var task := Ordered(f, p, e, mode);
    task.Some? && ResultSold(Walked(f, p, e.row, mode), p, task.value, e.result.value)
  }

  /** The listing's file after a completed pass over all pages. */
  function Judged(f: CarFile, p: int, e: Experience, mode: Mode): CarFile
    requires Answers(f, p, e, mode)
  {
    Absent(Resulting(f, p, e, mode), p, Seen(f, p, e, mode), ConfirmedSold(f, p, e, mode))
  }

  /**
   A car that was already sold when the pass began is not read again, in the result or
   not: the pass leaves its record alone, and counts it as missed even if a page shows it.
   */
  lemma SoldCarIsLeftAlone(f: CarFile, p: int, e: Experience, mode: Mode)
    requires Answers(f, p, e, mode) && f.car.Some? && f.car.value.status == Sold
    ensures Ordered(f, p, e, mode).None? && Resulting(f, p, e, mode) == f
    ensures Judged(f, p, e, mode).car == f.car
    ensures Watched(f, p) ==> Judged(f, p, e, mode).links[p].missing == f.links[p].missing + 1
                              && Judged(f, p, e, mode).links[p].searchStatus == NotFoundInSearch
  {
    hide ListedObserved, ResultFile, RowRead;
  }

  /** What a stored read leaves of the links. */
  lemma StoredLink(f: CarFile, p: int, detail: Details, mark: bool)
    requires f.car.Some? && Verdict(f, p, detail) == Accepted
    ensures var g := ReadObserved(f, p, detail, mark).0;
            && g.car.Some? && p in g.links && !g.car.value.excluded && g.links[p].tracking
            && g.links[p].searchStatus == MarkFound(LinkOf(f, p), mark).searchStatus
            && g.links[p].missing == MarkFound(LinkOf(f, p), mark).missing
  {
    hide Merge, StatusAfter, StatusEvents, DetailEvents, RelistEvents, NewPricePoints, NewSnapshots,
      AuthoritativePrice, ChangeReport, PreviousState, Fingerprint;
  }

  /**
   A tracked car on a visited page is marked missing by a completed pass exactly when it
   was sold before, or its own read in this pass said that it is sold. Any other visited
   car ends up found, with its counter at zero.
   */
  lemma VisitedCarIsMissedExactly(f: CarFile, p: int, e: Experience, mode: Mode)
    requires Answers(f, p, e, mode) && e.row.Some? && Watched(Resulting(f, p, e, mode), p)
    ensures var before, after := Resulting(f, p, e, mode).links[p], Judged(f, p, e, mode).links[p];
            var sold := (f.car.Some? && f.car.value.status == Sold) || ConfirmedSold(f, p, e, mode);
            if sold then after.searchStatus == NotFoundInSearch && after.missing == before.missing + 1
            else after.searchStatus == Found && after.missing == 0
  {
    if f.car.Some? && f.car.value.status == Sold {
      SoldCarIsLeftAlone(f, p, e, mode);
    } else {
      VisitedCarIsSeen(f, p, e, mode);
    }
    hide Resulting, Seen, ConfirmedSold;
  }

  lemma VisitedCarIsSeen(f: CarFile, p: int, e: Experience, mode: Mode)
    requires Answers(f, p, e, mode) && e.row.Some? && Watched(Resulting(f, p, e, mode), p)
    requires !(f.car.Some? && f.car.value.status == Sold)
    ensures Seen(f, p, e, mode)
  {
    hide ReadObserved, ListedObserved, FoundWithoutDetail, ProbeDetail, Verdict;
    if f.car.None? {
      assert RowTask(f, p, e.row.value, mode) == Some(Task(e.row.value.id, FullRead, true));
    }
  }

  /**
   A tracked car that no visited page shows and that was not sold is probed, and a
   completed pass counts it as missed once, whatever the probe says about the offer.
   */
  lemma AbsentCarIsProbedAndMissed(f: CarFile, p: int, e: Experience, mode: Mode)
    requires Answers(f, p, e, mode) && e.row.None? && Watched(f, p) && f.car.value.status != Sold
    ensures Ordered(f, p, e, mode).Some? && Ordered(f, p, e, mode).value.kind == PriceProbe
    ensures var after := Judged(f, p, e, mode);
            Watched(after, p) && after.links[p].searchStatus == NotFoundInSearch
            && after.links[p].missing == f.links[p].missing + 1
  {
    hide ReadObserved, ProbeDetail, Verdict, FoundWithoutDetail, Answers;
    assert Answers(f, p, e, mode);
    ProbedAnswer(f, p, e, mode);
    ProbedLink(f, p, Task(e.id, PriceProbe, false), e.result.value);
  }

  lemma ProbedAnswer(f: CarFile, p: int, e: Experience, mode: Mode)
    requires Answers(f, p, e, mode) && e.row.None? && Watched(f, p) && f.car.value.status != Sold
    ensures e.result.Some? && Ordered(f, p, e, mode) == Some(Task(e.id, PriceProbe, false))
    ensures Resulting(f, p, e, mode) == ResultFile(f, p, Task(e.id, PriceProbe, false), e.result.value)
    ensures !Seen(f, p, e, mode)
  {
    hide ReadObserved, ProbeDetail, Verdict, FoundWithoutDetail, ResultFile, Aborts, Stores;
  }

  lemma ProbedLink(f: CarFile, p: int, task: Task, result: ReadResult)
    requires Watched(f, p) && !task.markFound
    ensures Watched(ResultFile(f, p, task, result), p)
    ensures ResultFile(f, p, task, result).links[p].missing == f.links[p].missing
  {
    if Stores(f, p, task, result) {
      StoredLink(f, p, Document(task, result.details), false);
    }
    hide ReadObserved, ProbeDetail, Verdict, FoundWithoutDetail;
  }

  // --- a pass is a run of ledger steps --------------------------------------------

  /** The committed steps that one listing goes through in a completed pass over all pages. */
  function PassSteps(f: CarFile, p: int, e: Experience, mode: Mode): seq<Step>
    requires Answers(f, p, e, mode)
  {
    WalkSteps(f, p, e, mode) + ResultSteps(f, p, e, mode)
    + [Searched(p, Seen(f, p, e, mode), ConfirmedSold(f, p, e, mode))]
  }

  function WalkSteps(f: CarFile, p: int, e: Experience, mode: Mode): seq<Step> {
    if e.row.Some? && !PassedOver(f, p) && RowRead(f, e.row.value, mode).None? then [Listed(p)] else []
  }

  function ResultSteps(f: CarFile, p: int, e: Experience, mode: Mode): seq<Step>
    requires Answers(f, p, e, mode)
  {
    var task := Ordered(f, p, e, mode);
    if task.None? then []
    else if Stores(Walked(f, p, e.row, mode), p, task.value, e.result.value) then
      [Read(p, Document(task.value, e.result.value.details), task.value.markFound)]
    else if e.result.value.ReadError? && task.value.markFound then [ReadFailed(p)]
    else []
  }

  lemma NoSteps(w: World)
    ensures Run(w, []) == w
  {
  }

  lemma OneStep(w: World, s: Step)
    ensures Run(w, [s]) == Next(w, s)
  {
    hide Next;
    assert [s][..0] == [];
  }

  lemma {:induction false} RunSplits(w: World, steps: seq<Step>, more: seq<Step>)
    ensures Run(w, steps + more) == Run(Run(w, steps), more)
  {
    hide Next;
    if more == [] {
      assert steps + more == steps;
    } else {
      RunSplits(w, steps, more[..|more| - 1]);
      assert (steps + more)[..|steps + more| - 1] == steps + more[..|more| - 1];
    }
  }

  lemma WalkIsRun(w: World, p: int, e: Experience, mode: Mode)
    ensures Run(w, WalkSteps(w.file, p, e, mode)).file == Walked(w.file, p, e.row, mode)
  {
    NoSteps(w);
    OneStep(w, Listed(p));
    hide ListedObserved, Run;
  }

  lemma ResultIsRun(w: World, before: World, p: int, e: Experience, mode: Mode)
    requires Answers(w.file, p, e, mode) && before.file == Walked(w.file, p, e.row, mode)
    ensures Run(before, ResultSteps(w.file, p, e, mode)).file == Resulting(w.file, p, e, mode)
  {
    var steps := ResultSteps(w.file, p, e, mode);
    NoSteps(before);
    if steps != [] {
      OneStep(before, steps[0]);
    }
    hide Run, ReadObserved, FoundWithoutDetail, ListedObserved, Aborts, Document, RowRead;
    NoRowMeansKnown(w.file, p, e, mode);
  }

  lemma NoRowMeansKnown(f: CarFile, p: int, e: Experience, mode: Mode)
    ensures Ordered(f, p, e, mode).Some? && f.car.None? ==> e.row.Some?
  {
    hide RowRead;
  }

  /**
   What a completed pass makes of a listing is what a run of ledger steps makes of it. So
   whatever holds after every run of the ledger holds after every pass.
   */
  lemma PassIsRun(w: World, p: int, e: Experience, mode: Mode)
    requires Answers(w.file, p, e, mode)
    ensures Run(w, PassSteps(w.file, p, e, mode)).file == Judged(w.file, p, e, mode)
  {
    hide Next, Run, Walked, Resulting, Seen, ConfirmedSold, WalkSteps, ResultSteps, Answers;
    var walk, result := WalkSteps(w.file, p, e, mode), ResultSteps(w.file, p, e, mode);
    var last := Searched(p, Seen(w.file, p, e, mode), ConfirmedSold(w.file, p, e, mode));
    WalkIsRun(w, p, e, mode);
    ResultIsRun(w, Run(w, walk), p, e, mode);
    RunSplits(w, walk, result);
    RunSplits(w, walk + result, [last]);
    OneStep(Run(w, walk + result), last);
    SearchedIsAbsent(Run(w, walk + result), last);
  }

  lemma SearchedIsAbsent(w: World, s: Step)
    requires s.Searched?
    ensures Next(w, s).file == Absent(w.file, s.project, s.found, s.confirmedSold)
  {
    hide Absent;
  }

  /** In particular a pass keeps the ledger invariant. */
  lemma PassKeepsLedgerValid(w: World, p: int, e: Experience, mode: Mode, id: Json)
    requires Valid(w, id) && id != Null && Answers(w.file, p, e, mode)
    requires e.result.Some? && e.result.value.Page? ==> CanonicalText(e.result.value.details) == id
    ensures var v := Run(w, PassSteps(w.file, p, e, mode));
            Valid(v, id) && v.file == Judged(w.file, p, e, mode)
  {
    hide Valid, Run, Judged;
    PassIsRun(w, p, e, mode);
    StepsAreAbout(w.file, p, e, mode, id);
    RunKeepsValid(w, PassSteps(w.file, p, e, mode), id);
  }

  lemma StepsAreAbout(f: CarFile, p: int, e: Experience, mode: Mode, id: Json)
    requires Answers(f, p, e, mode)
    requires e.result.Some? && e.result.value.Page? ==> CanonicalText(e.result.value.details) == id
    ensures AllAbout(PassSteps(f, p, e, mode), id)
  {
    hide Walked, Ordered, Aborts, RowRead, PassedOver, Seen, ConfirmedSold, Verdict, ProbeDetail, CanonicalText;
    if e.result.Some? && e.result.value.Page? {
      ProbeKeepsIdentity(e.result.value.details);
    }
  }

  // --- the pass as a whole --------------------------------------------------------

  function RowOf(rows: seq<Row>, id: string): Option<Row> {
    if rows == [] then None
    else if rows[|rows| - 1].id == id then Some(rows[|rows| - 1])
    else RowOf(rows[..|rows| - 1], id)
  }

  lemma {:induction false} RowOfIs(rows: seq<Row>, id: string)
    ensures RowOf(rows, id).None? <==> !HasRow(rows, id)
    ensures RowOf(rows, id).Some? ==> exists i :: 0 <= i < |rows| && rows[i] == RowOf(rows, id).value && rows[i].id == id
  {
    if rows != [] {
      var last := |rows| - 1;
      RowOfIs(rows[..last], id);
      if RowOf(rows[..last], id).Some? {
        var i :| 0 <= i < last && rows[..last][i] == RowOf(rows[..last], id).value && rows[..last][i].id == id;
        assert rows[i].id == id;
      }
      if rows[last].id != id && HasRow(rows, id) {
        var i :| 0 <= i < |rows| && rows[i].id == id;
        assert rows[..last][i].id == id;
      }
    }
  }

  /** What a listing goes through when reads answer as `reader` says. */
  function Met(files: Files, p: int, rows: seq<Row>, mode: Mode, reader: string -> ReadResult, id: string): Experience {
    var e := Experience(id, RowOf(rows, id), None);
    if Ordered(FileAt(files, id), p, e, mode).Some? then e.(result := Some(reader(id))) else e
  }

  lemma {:induction false} RowTasksAre(files: Files, p: int, rows: seq<Row>, mode: Mode, t: Task)
    ensures t in RowTasks(files, p, rows, mode)
      <==> exists i :: 0 <= i < |rows| && RowTask(FileAt(files, rows[i].id), p, rows[i], mode) == Some(t)
  {
    hide RowTask;
    if rows != [] {
      var last := |rows| - 1;
      RowTasksAre(files, p, rows[..last], mode, t);
      if exists i :: 0 <= i < last && RowTask(FileAt(files, rows[..last][i].id), p, rows[..last][i], mode) == Some(t) {
        var i :| 0 <= i < last && RowTask(FileAt(files, rows[..last][i].id), p, rows[..last][i], mode) == Some(t);
        assert rows[i] == rows[..last][i];
      }
      if exists i :: 0 <= i < |rows| && RowTask(FileAt(files, rows[i].id), p, rows[i], mode) == Some(t) {
        var i :| 0 <= i < |rows| && RowTask(FileAt(files, rows[i].id), p, rows[i], mode) == Some(t);
        if i < last {
          assert rows[..last][i] == rows[i];
        }
      }
    }
  }

  lemma TaskCarriesRowId(f: CarFile, p: int, row: Row, mode: Mode)
    ensures RowTask(f, p, row, mode).Some? ==>
              RowTask(f, p, row, mode).value.id == row.id && (f.car.None? || RowFound(f, p))
  {
    hide RowRead;
  }

  lemma {:induction false} RowTasksAreDistinct(files: Files, p: int, rows: seq<Row>, mode: Mode)
    requires DistinctRows(rows)
    ensures DistinctTasks(RowTasks(files, p, rows, mode))
  {
    hide RowTask;
    if rows != [] {
      var last := |rows| - 1;
      var front := rows[..last];
      RowTasksAreDistinct(files, p, front, mode);
      TaskCarriesRowId(FileAt(files, rows[last].id), p, rows[last], mode);
      forall t | t in RowTasks(files, p, front, mode) ensures t.id != rows[last].id {
        RowTasksAre(files, p, front, mode, t);
        var i :| 0 <= i < |front| && RowTask(FileAt(files, front[i].id), p, front[i], mode) == Some(t);
        TaskCarriesRowId(FileAt(files, front[i].id), p, front[i], mode);
        assert front[i] == rows[i];
      }
    }
  }

  /** The tasks of a pass: those of the rows, then the probes of cars that no row shows. */
  ghost predicate TasksOfPass(files: Files, p: int, rows: seq<Row>, mode: Mode, tasks: seq<Task>) {
    && DistinctTasks(tasks)
    && forall t :: t in tasks <==>
         Ordered(FileAt(files, t.id), p, Experience(t.id, RowOf(rows, t.id), None), mode) == Some(t)
  }

  lemma RowTaskIsOrdered(files: Files, p: int, rows: seq<Row>, mode: Mode, t: Task)
    requires DistinctRows(rows)
    ensures t in RowTasks(files, p, rows, mode) <==>
      HasRow(rows, t.id) && Ordered(FileAt(files, t.id), p, Experience(t.id, RowOf(rows, t.id), None), mode) == Some(t)
  {
    RowTasksAre(files, p, rows, mode, t);
    RowOfIs(rows, t.id);
    hide RowTask, RowTasks, RowOf;
    if t in RowTasks(files, p, rows, mode) {
      var i :| 0 <= i < |rows| && RowTask(FileAt(files, rows[i].id), p, rows[i], mode) == Some(t);
      TaskCarriesRowId(FileAt(files, rows[i].id), p, rows[i], mode);
      assert HasRow(rows, t.id);
      var j :| 0 <= j < |rows| && rows[j] == RowOf(rows, t.id).value && rows[j].id == t.id;
      assert i == j;
    }
    if HasRow(rows, t.id) {
      var j :| 0 <= j < |rows| && rows[j] == RowOf(rows, t.id).value && rows[j].id == t.id;
    }
  }

  /** A car that a row shows and that is not passed over needs no probe; one that is passed over gets none. */
  lemma RowNeedsNoProbe(f: CarFile, p: int, row: Row, mode: Mode)
    ensures !Probed(RowFile(f, p, row, mode), p, RowFound(f, p))
  {
    if RowFound(f, p) {
    } else if f.car.None? {
      assert RowFile(f, p, row, mode).car.None?;
    } else {
      assert RowFile(f, p, row, mode) == f;
    }
  }

  lemma ProbeIsOrdered(files: Files, walked: Files, p: int, rows: seq<Row>, mode: Mode, found: set<string>, t: Task)
    requires FileAt(walked, t.id) == WalkedAt(files, p, rows, mode, t.id)
    requires t.id in found <==> HasRow(rows, t.id) && RowFound(FileAt(files, t.id), p)
    ensures t.kind == PriceProbe && !t.markFound && Probed(FileAt(walked, t.id), p, t.id in found)
      <==> !HasRow(rows, t.id)
           && Ordered(FileAt(files, t.id), p, Experience(t.id, RowOf(rows, t.id), None), mode) == Some(t)
  {
    RowOfIs(rows, t.id);
    hide RowFile, RowTask, RowFound, RowOf;
    if HasRow(rows, t.id) {
      RowNeedsNoProbe(FileAt(files, t.id), p, RowOf(rows, t.id).value, mode);
    }
  }

  function WalkedAt(files: Files, p: int, rows: seq<Row>, mode: Mode, id: string): CarFile {
    Walked(FileAt(files, id), p, RowOf(rows, id), mode)
  }

  /** Collecting the tasks of a pass, before any read comes back; `tracked` are the project's cars. */
  method PlanPass(files: Files, p: int, rows: seq<Row>, mode: Mode, tracked: seq<string>)
    returns (walked: Files, found: set<string>, tasks: seq<Task>)
    requires DistinctRows(rows) && (forall i, j | 0 <= i < j < |tracked| :: tracked[i] != tracked[j])
    requires forall id | Watched(FileAt(files, id), p) :: id in tracked
    ensures TasksOfPass(files, p, rows, mode, tasks)
    ensures forall id :: FileAt(walked, id) == WalkedAt(files, p, rows, mode, id)
    ensures forall id :: id in found <==> RowOf(rows, id).Some? && RowFound(FileAt(files, id), p)
  {
    hide RowFile, RowFound, RowTasks, RowOf, Ordered, RowTask;
    var ordered;
    walked, found, ordered := WalkRows(files, p, rows, mode);
    forall id
      ensures FileAt(walked, id) == WalkedAt(files, p, rows, mode, id)
      ensures RowOf(rows, id).Some? <==> HasRow(rows, id)
    {
      RowOfIs(rows, id);
      if HasRow(rows, id) {
        var i :| 0 <= i < |rows| && rows[i] == RowOf(rows, id).value && rows[i].id == id;
      }
    }
    var probes := ProbeMissing(walked, p, tracked, found);
    tasks := ordered + probes;
    PlannedTasks(files, walked, p, rows, mode, tracked, found, probes);
  }

  lemma PlannedTasks(
    files: Files, walked: Files, p: int, rows: seq<Row>, mode: Mode, tracked: seq<string>, found: set<string>, probes: seq<Task>)
    requires DistinctRows(rows) && DistinctTasks(probes)
    requires forall id | Watched(FileAt(files, id), p) :: id in tracked
    requires forall id :: FileAt(walked, id) == WalkedAt(files, p, rows, mode, id)
    requires forall id :: id in found <==> HasRow(rows, id) && RowFound(FileAt(files, id), p)
    requires forall t :: t in probes <==>
      t.kind == PriceProbe && !t.markFound && t.id in tracked && Probed(FileAt(walked, t.id), p, t.id in found)
    ensures TasksOfPass(files, p, rows, mode, RowTasks(files, p, rows, mode) + probes)
  {
    hide RowFound, RowTasks, RowOf, RowTask, WalkedAt;
    var ordered := RowTasks(files, p, rows, mode);
    forall t
      ensures t in ordered
        <==> HasRow(rows, t.id)
             && Ordered(FileAt(files, t.id), p, Experience(t.id, RowOf(rows, t.id), None), mode) == Some(t)
      ensures t in probes
        <==> !HasRow(rows, t.id)
             && Ordered(FileAt(files, t.id), p, Experience(t.id, RowOf(rows, t.id), None), mode) == Some(t)
    {
      RowTaskIsOrdered(files, p, rows, mode, t);
      ProbeIsOrdered(files, walked, p, rows, mode, found, t);
      RowOfIs(rows, t.id);
    }
    RowTasksAreDistinct(files, p, rows, mode);
    hide Ordered, Probed;
    var tasks := ordered + probes;
    forall i, j | 0 <= i < j < |tasks| ensures tasks[i].id != tasks[j].id {
      if i < |ordered| <= j {
        assert tasks[i] in ordered && tasks[j] in probes;
      }
    }
  }

  // --- from the loops to one listing ----------------------------------------------

  lemma OrderedCarriesId(f: CarFile, p: int, rows: seq<Row>, mode: Mode, id: string)
    ensures var task := Ordered(f, p, Experience(id, RowOf(rows, id), None), mode);
            task.Some? ==> task.value.id == id
  {
    RowOfIs(rows, id);
    hide RowOf, RowTask, Probed;
    if RowOf(rows, id).Some? {
      TaskCarriesRowId(f, p, RowOf(rows, id).value, mode);
    }
  }

  /** The listing's task, if it has one, is the only task that carries its id. */
  lemma TaskOf(files: Files, p: int, rows: seq<Row>, mode: Mode, tasks: seq<Task>, id: string)
    requires TasksOfPass(files, p, rows, mode, tasks)
    ensures var task := Ordered(FileAt(files, id), p, Experience(id, RowOf(rows, id), None), mode);
            if task.None? then forall i | 0 <= i < |tasks| :: tasks[i].id != id
            else exists i :: 0 <= i < |tasks| && tasks[i] == task.value && tasks[i].id == id
  {
    OrderedCarriesId(FileAt(files, id), p, rows, mode, id);
    hide Ordered, RowOf, DistinctTasks;
    assert forall i | 0 <= i < |tasks| :: tasks[i] in tasks;
    var task := Ordered(FileAt(files, id), p, Experience(id, RowOf(rows, id), None), mode);
    if task.Some? {
      assert task.value in tasks;
    }
  }

  /** What `Met` means: the result is there exactly if a read was ordered. */
  lemma MetMeans(files: Files, p: int, rows: seq<Row>, mode: Mode, reader: string -> ReadResult, id: string)
    ensures var e := Met(files, p, rows, mode, reader, id);
            var task := Ordered(FileAt(files, id), p, Experience(id, RowOf(rows, id), None), mode);
            && Ordered(FileAt(files, id), p, e, mode) == task
            && Walked(FileAt(files, id), p, e.row, mode) == WalkedAt(files, p, rows, mode, id)
            && e.row == RowOf(rows, id)
            && e.result == if task.Some? then Some(reader(id)) else None
  {
    hide RowTask, Probed, RowFile, RowOf;
  }

  lemma AnswersMeans(files: Files, p: int, rows: seq<Row>, mode: Mode, reader: string -> ReadResult, tasks: seq<Task>, id: string)
    requires TasksOfPass(files, p, rows, mode, tasks)
    ensures Answers(FileAt(files, id), p, Met(files, p, rows, mode, reader, id), mode)
      <==> forall i | 0 <= i < |tasks| && tasks[i].id == id ::
             !Aborts(WalkedAt(files, p, rows, mode, id), p, tasks[i], reader(tasks[i].id))
  {
    MetMeans(files, p, rows, mode, reader, id);
    TaskOf(files, p, rows, mode, tasks, id);
    hide Ordered, Walked, WalkedAt, Aborts, Met, RowOf, FileAt;
    var task := Ordered(FileAt(files, id), p, Experience(id, RowOf(rows, id), None), mode);
    if task.Some? {
      var i :| 0 <= i < |tasks| && tasks[i] == task.value && tasks[i].id == id;
      assert forall j | 0 <= j < |tasks| && tasks[j].id == id :: j == i;
    }
  }

  /** The listing's file and verdicts, once all results have been handled. */
  lemma ResultMeans(
    files: Files, p: int, rows: seq<Row>, mode: Mode, reader: string -> ReadResult, tasks: seq<Task>, id: string,
    g: CarFile, found: bool, sold: bool)
    requires TasksOfPass(files, p, rows, mode, tasks)
    requires Answers(FileAt(files, id), p, Met(files, p, rows, mode, reader, id), mode)
    requires var walked := WalkedAt(files, p, rows, mode, id);
             var shown := RowOf(rows, id).Some? && RowFound(FileAt(files, id), p);
             && (forall i | 0 <= i < |tasks| && tasks[i].id == id ::
                   && g == ResultFile(walked, p, tasks[i], reader(id))
                   && (found <==> shown || ResultFound(walked, p, tasks[i], reader(id)))
                   && (sold <==> ResultSold(walked, p, tasks[i], reader(id))))
             && ((forall i | 0 <= i < |tasks| :: tasks[i].id != id) ==> g == walked && (found <==> shown) && !sold)
    ensures var f, e := FileAt(files, id), Met(files, p, rows, mode, reader, id);
            && Resulting(f, p, e, mode) == g
            && (Seen(f, p, e, mode) <==> found)
            && (ConfirmedSold(f, p, e, mode) <==> sold)
  {
    MetMeans(files, p, rows, mode, reader, id);
    TaskOf(files, p, rows, mode, tasks, id);
    hide Ordered, Walked, WalkedAt, Aborts, Met, RowOf, FileAt, RowFound, ResultFile, ResultFound, ResultSold, TasksOfPass;
    var task := Ordered(FileAt(files, id), p, Experience(id, RowOf(rows, id), None), mode);
    if task.Some? {
      var i :| 0 <= i < |tasks| && tasks[i] == task.value && tasks[i].id == id;
    }
  }

  /** The absence pass over every listing. */
  function AbsenceApplied(files: Files, p: int, found: set<string>, sold: set<string>): Files {
    map id | id in files :: Absent(files[id], p, id in found, id in sold)
  }

  lemma AbsenceAt(files: Files, p: int, found: set<string>, sold: set<string>, id: string)
    ensures FileAt(AbsenceApplied(files, p, found, sold), id) == Absent(FileAt(files, id), p, id in found, id in sold)
  {
  }

  /**
   A whole pass. It completes exactly if no read aborts it, and then every listing ends
   as the rules for one listing say, whatever the order in which the reads came back.
   */
  method ScanProject(
    files: Files, p: int, rows: seq<Row>, mode: Mode, tracked: seq<string>, allPages: bool, reader: string -> ReadResult)
    returns (after: Files, completed: bool)
    requires DistinctRows(rows) && (forall i, j | 0 <= i < j < |tracked| :: tracked[i] != tracked[j])
    requires forall id | Watched(FileAt(files, id), p) :: id in tracked
    ensures completed <==> forall id :: Answers(FileAt(files, id), p, Met(files, p, rows, mode, reader, id), mode)
    ensures completed && allPages ==>
      forall id :: FileAt(after, id) == Judged(FileAt(files, id), p, Met(files, p, rows, mode, reader, id), mode)
    ensures completed && !allPages ==>
      forall id :: FileAt(after, id) == Resulting(FileAt(files, id), p, Met(files, p, rows, mode, reader, id), mode)
  {
    hide Ordered, WalkedAt, Aborts, Met, RowOf, FileAt, RowFound, ResultFile, ResultFound, ResultSold, Resulting, Seen,
      ConfirmedSold, Answers, Absent, AbsenceApplied, Watched;
    var walked, foundRows, tasks := PlanPass(files, p, rows, mode, tracked);
    var results := seq(|tasks|, i requires 0 <= i < |tasks| => reader(tasks[i].id));
    var found, sold, aborted;
    after, found, sold, aborted := HandleResults(walked, p, tasks, results, foundRows);
    completed := !aborted;
    forall id
      ensures Answers(FileAt(files, id), p, Met(files, p, rows, mode, reader, id), mode)
        <==> forall i | 0 <= i < |tasks| && tasks[i].id == id ::
               !Aborts(FileAt(walked, id), p, tasks[i], results[i])
    {
      AnswersMeans(files, p, rows, mode, reader, tasks, id);
    }
    if completed {
      forall id
        ensures var f, e := FileAt(files, id), Met(files, p, rows, mode, reader, id);
                && Answers(f, p, e, mode)
                && Resulting(f, p, e, mode) == FileAt(after, id)
                && (Seen(f, p, e, mode) <==> id in found)
                && (ConfirmedSold(f, p, e, mode) <==> id in sold)
      {
        ResultMeans(files, p, rows, mode, reader, tasks, id, FileAt(after, id), id in found, id in sold);
      }
      if allPages {
        ghost var before := after;
        after := AbsenceApplied(after, p, found, sold);
        forall id
          ensures FileAt(after, id) == Judged(FileAt(files, id), p, Met(files, p, rows, mode, reader, id), mode)
        {
          AbsenceAt(before, p, found, sold, id);
        }
      }
    }
  }
}
