/**
 What holds of one shared listing over any interleaving of scans by any number of
 projects (backend/app/worker.py, backend/app/services.py).
 */
module LedgerRuns {
  import opened Listing
  import opened Merging
  import opened Ledger
  import opened Wrappers

  // --- runs -------------------------------------------------------------------

  /** The committed steps that touch a listing. */
  datatype Step =
    | Read(project: int, page: Details, markFound: bool)     // a detail read or a price probe came back
    | Listed(project: int)                                   // seen in the result list, no detail needed
    | ReadFailed(project: int)                               // listed, but its detail read failed
    | Searched(project: int, found: bool, confirmedSold: bool) // a complete search ended
    | Removed(project: int)

  /** The stored file, and for each project the car exactly as it last observed it. */
  datatype World = World(file: CarFile, seen: map<int, Car>)

  const START := World(EMPTY_FILE, map[])

  function Noted(w: World, project: int, file: CarFile, observed: bool): World {
    World(file, if observed && file.car.Some? then w.seen[project := file.car.value] else w.seen)
  }

  predicate ListedCounts(f: CarFile, project: int) {
    f.car.Some? && !f.car.value.excluded && f.car.value.status != Sold && LinkOf(f, project).tracking
  }

  function Next(w: World, s: Step): World {
    match s
    case Read(p, page, mark) =>
      Noted(w, p, ReadObserved(w.file, p, page, mark).0, Verdict(w.file, p, page) == Accepted)
    case Listed(p) => Noted(w, p, ListedObserved(w.file, p).0, ListedCounts(w.file, p))
    case ReadFailed(p) => if p in w.file.links then World(FoundWithoutDetail(w.file, p), w.seen) else w
    case Searched(p, found, sold) => World(Absent(w.file, p, found, sold), w.seen)
    case Removed(p) => World(Untracked(w.file, p), w.seen)
  }

  function Told(w: World, s: Step): Option<Report> {
    match s
    case Read(p, page, mark) => ReadObserved(w.file, p, page, mark).1
    case Listed(p) => ListedObserved(w.file, p).1
    case ReadFailed(_) => None
    case Searched(p, found, sold) => AbsenceReport(w.file, p, found, sold)
    case Removed(_) => None
  }

  function Run(w: World, steps: seq<Step>): World {
    if steps == [] then w else Next(Run(w, steps[..|steps| - 1]), steps[|steps| - 1])
  }

  /** Every page read for this file carries its identity. */
  predicate About(s: Step, id: Json) {
    s.Read? ==> CanonicalText(s.page) == id
  }

  ghost predicate AllAbout(steps: seq<Step>, id: Json) {
    forall s | s in steps :: About(s, id)
  }

  // --- the invariant ------------------------------------------------------------

  ghost predicate GoodCar(f: CarFile, id: Json) {
    match f.car
    case None => f.links == map[] && f.snapshots == [] && f.history == []
    case Some(c) =>
      && c.details != map[]
      && CanonicalText(c.details) == id
      && c.fingerprint == Fingerprint(c.details)
      && f.snapshots != []
      && MaterialChanges(f.snapshots[|f.snapshots| - 1], c.details) == []
      && (AuthoritativePrice(c.details).Some? ==> c.price == AuthoritativePrice(c.details))
  }

  /** The stored observation of a project describes the car it saw. */
  ghost predicate GoodObservation(f: CarFile, project: int, car: Car) {
    && project in f.links
    && f.links[project].observed.Some?
    && var o := f.links[project].observed.value;
    && o.price == car.price && o.status == car.status
    && o.fingerprint == Fingerprint(car.details) && car.fingerprint == Fingerprint(car.details)
    && o.snapshot.Some? && o.snapshot.value < |f.snapshots|
    && MaterialChanges(f.snapshots[o.snapshot.value], car.details) == []
  }

  ghost predicate Valid(w: World, id: Json) {
    && GoodCar(w.file, id)
    && (forall p | p in w.seen :: GoodObservation(w.file, p, w.seen[p]))
    && (forall p | p in w.file.links :: p in w.seen)
  }

  lemma MergedDocument(known: Details, page: Details)
    ensures Merge(known, page) != map[]
    ensures Get(Merge(known, page), FingerprintField) == Fingerprint(Merge(known, page))
  {
    MergeFingerprint(known, page);
    hide Merge;
  }

  lemma MergedIdentity(known: Details, page: Details, id: Json)
    requires CanonicalText(page) == id && id != Null
    requires known == map[] || CanonicalText(known) == id
    ensures CanonicalText(Merge(known, page)) == id
  {
    LiveAt(known, page, CanonicalCarId);
    SoldCanonical(known, page);
    hide MergeLive, MergeSold;
  }

  lemma SoldCanonical(known: Details, page: Details)
    requires CanonicalCarId in page
    ensures CanonicalText(MergeSold(known, page)) == CanonicalText(page)
  {
  }

  /** The newest snapshot still describes the stored details after an update. */
  lemma NewestSnapshot(f: CarFile, p: int, merged: Details, mark: bool, id: Json)
    requires GoodCar(f, id)
    ensures Stored(f, p, merged, mark).snapshots != []
    ensures var shots := Stored(f, p, merged, mark).snapshots;
            MaterialChanges(shots[|shots| - 1], merged) == []
  {
    var shots := Stored(f, p, merged, mark).snapshots;
    SameListingReflexive(merged);
    if NewSnapshots(f, merged) == [] {
      assert f.car.Some?;
      SameListingTransitive(f.snapshots[|f.snapshots| - 1], StoredDetails(f), merged);
    }
  }

  lemma StoredKeepsCar(f: CarFile, p: int, page: Details, mark: bool, id: Json)
    requires GoodCar(f, id) && id != Null && CanonicalText(page) == id
    ensures GoodCar(Stored(f, p, Merge(StoredDetails(f), page), mark), id)
  {
    var known := StoredDetails(f);
    var merged := Merge(known, page);
    MergedDocument(known, page);
    MergedIdentity(known, page, id);
    NewestSnapshot(f, p, merged, mark, id);
    hide Merge, MaterialChanges, Fingerprint, AuthoritativePrice, Verdict, StatusAfter, StatusEvents,
      DetailEvents, RelistEvents, NewSnapshots, NewPricePoints, CanonicalText;
  }

  lemma RememberKeepsValid(w: World, p: int, g: CarFile, id: Json)
    requires Valid(w, id) && GoodCar(g, id) && g.car.Some? && p in g.links
    requires g.links.Keys == w.file.links.Keys + {p}
    requires forall q | q in w.file.links && q != p :: g.links[q].observed == w.file.links[q].observed
    requires |w.file.snapshots| <= |g.snapshots| && g.snapshots[..|w.file.snapshots|] == w.file.snapshots
    ensures Valid(Noted(w, p, Remembered(g, p), true), id)
  {
    hide MaterialChanges, Fingerprint, AuthoritativePrice, CanonicalText;
    var v := Noted(w, p, Remembered(g, p), true);
    forall q | q in v.seen ensures GoodObservation(v.file, q, v.seen[q]) {
      if q != p {
        assert GoodObservation(w.file, q, w.seen[q]);
      }
    }
  }

  lemma SameRecordKeepsValid(w: World, g: CarFile, id: Json)
    requires Valid(w, id)
    requires g.car == w.file.car || (g.car.Some? && w.file.car.Some? && g.car.value == w.file.car.value.(status := Sold))
    requires g.snapshots == w.file.snapshots && g.history == w.file.history
    requires g.links.Keys == w.file.links.Keys
    requires forall q | q in w.file.links :: g.links[q].observed == w.file.links[q].observed
    ensures Valid(World(g, w.seen), id)
  {
    hide MaterialChanges, Fingerprint, AuthoritativePrice, CanonicalText;
    forall q | q in w.seen ensures GoodObservation(g, q, w.seen[q]) {
      assert GoodObservation(w.file, q, w.seen[q]);
    }
  }

  lemma StepKeepsValid(w: World, s: Step, id: Json)
    requires Valid(w, id) && About(s, id) && id != Null
    ensures Valid(Next(w, s), id)
  {
    hide Valid, GoodCar, Merge, StatusAfter, StatusEvents, DetailEvents, RelistEvents, NewPricePoints,
      NewSnapshots, AuthoritativePrice, CanonicalText, ChangeReport;
    match s {
      case Read(p, page, mark) =>
        if Verdict(w.file, p, page) == Accepted {
          ReadKeepsValid(w, p, page, mark, id);
        }
      case Listed(p) =>
        if ListedCounts(w.file, p) {
          ListedKeepsValid(w, p, id);
        }
      case ReadFailed(p) =>
        if p in w.file.links {
          SameRecordKeepsValid(w, FoundWithoutDetail(w.file, p), id);
        }
      case Searched(p, found, sold) => SameRecordKeepsValid(w, Absent(w.file, p, found, sold), id);
      case Removed(p) => SameRecordKeepsValid(w, Untracked(w.file, p), id);
    }
  }

  lemma ReadKeepsValid(w: World, p: int, page: Details, mark: bool, id: Json)
    requires Valid(w, id) && id != Null && CanonicalText(page) == id
    requires Verdict(w.file, p, page) == Accepted
    ensures Valid(Next(w, Read(p, page, mark)), id)
  {
    var merged := Merge(StoredDetails(w.file), page);
    StoredKeepsCar(w.file, p, page, mark, id);
    hide GoodCar, Merge, StatusAfter, StatusEvents, DetailEvents, RelistEvents, NewPricePoints,
      NewSnapshots, AuthoritativePrice, CanonicalText, ChangeReport;
    RememberKeepsValid(w, p, Stored(w.file, p, merged, mark), id);
  }

  lemma ListedKeepsValid(w: World, p: int, id: Json)
    requires Valid(w, id) && ListedCounts(w.file, p)
    ensures Valid(Next(w, Listed(p)), id)
  {
    hide RelistEvents, AuthoritativePrice, CanonicalText, ChangeReport, MaterialChanges, Fingerprint;
    RememberKeepsValid(w, p, FoundWithoutDetail(w.file, p), id);
  }

  /** The invariant holds after every run, whatever projects interleave. */
  lemma {:induction false} RunKeepsValid(w: World, steps: seq<Step>, id: Json)
    requires Valid(w, id) && AllAbout(steps, id) && id != Null
    ensures Valid(Run(w, steps), id)
  {
    if steps != [] {
      var prefix, last := steps[..|steps| - 1], steps[|steps| - 1];
      assert forall s | s in prefix :: s in steps;
      RunKeepsValid(w, prefix, id);
      StepKeepsValid(Run(w, prefix), last, id);
    }
  }

  lemma StartIsValid(id: Json)
    ensures Valid(START, id)
  {
  }

  /** Some interleaving of scans of any projects leads from the empty file to `w`. */
  ghost predicate Reachable(w: World, id: Json) {
    exists steps :: AllAbout(steps, id) && w == Run(START, steps)
  }

  lemma ReachableIsValid(w: World, id: Json)
    requires Reachable(w, id) && id != Null
    ensures Valid(w, id)
  {
    var steps :| AllAbout(steps, id) && w == Run(START, steps);
    StartIsValid(id);
    RunKeepsValid(START, steps, id);
  }

  // --- what a project is told ---------------------------------------------------

  /** The step makes `project` look at the car, and the look is recorded. */
  predicate Looks(w: World, s: Step, project: int) {
    (s.Read? && s.project == project && Verdict(w.file, project, s.page) == Accepted)
    || (s.Listed? && s.project == project && ListedCounts(w.file, project))
  }

  /** The document a report for this project compares with. */
  function Compared(f: CarFile, project: int): Details {
    var previous := PreviousState(f, project);
    if previous.Some? then previous.value.details else map[]
  }

  /** The car record after a step. */
  function CarAfter(w: World, s: Step): Car {
    var f := Next(w, s).file;
    if f.car.Some? then f.car.value else Car(map[], None, New, Null, false)
  }

  // What a look makes of the record, in terms of the file before it and the page it read.

  function DocumentOnLook(f: CarFile, s: Step): Details {
    if s.Read? then Merge(StoredDetails(f), s.page) else StoredDetails(f)
  }

  function PriceOnLook(f: CarFile, s: Step): Option<int> {
    if s.Read? && AuthoritativePrice(DocumentOnLook(f, s)).Some? then AuthoritativePrice(DocumentOnLook(f, s))
    else StoredPrice(f)
  }

  function StatusOnLook(f: CarFile, s: Step): Kind {
    if s.Read? then StatusAfter(f, DocumentOnLook(f, s)) else StoredStatus(f)
  }

  /** The look finds a listing that the project's search had lost. */
  predicate FindsAgain(f: CarFile, s: Step, p: int) {
    LinkOf(f, p).searchStatus == NotFoundInSearch && (s.Listed? || (s.Read? && s.markFound))
  }

  lemma LookLeaves(w: World, s: Step, p: int, id: Json)
    requires Valid(w, id) && Looks(w, s, p)
    ensures var car := CarAfter(w, s);
            && car.details == DocumentOnLook(w.file, s)
            && car.price == PriceOnLook(w.file, s)
            && car.status == StatusOnLook(w.file, s)
            && car.fingerprint == Fingerprint(DocumentOnLook(w.file, s))
  {
    hide Merge, StatusAfter, StatusEvents, DetailEvents, RelistEvents, NewPricePoints, NewSnapshots,
      AuthoritativePrice, ChangeReport, PreviousState, Fingerprint, MaterialChanges, CanonicalText, GoodObservation;
    if s.Read? {
      MergedDocument(StoredDetails(w.file), s.page);
    }
  }

  /** Whether a look leaves the link found where it had been lost. */
  lemma LookFinds(w: World, s: Step, p: int)
    requires Looks(w, s, p) && p in Next(w, s).file.links
    ensures FindsAgain(w.file, s, p)
      <==> LinkOf(w.file, p).searchStatus == NotFoundInSearch && Next(w, s).file.links[p].searchStatus == Found
  {
    hide Merge, StatusAfter, StatusEvents, DetailEvents, RelistEvents, NewPricePoints, NewSnapshots,
      AuthoritativePrice, ChangeReport, PreviousState, Fingerprint;
  }

  lemma FingerprintShowsOffer(a: Details, b: Details)
    requires Fingerprint(a) == Fingerprint(b)
    ensures Offer(a) == Offer(b)
  {
    assert Fingerprint(a).of[OfferType] == Fingerprint(b).of[OfferType];
  }

  /** A look leaves the car record in the file and in the project's memory. */
  lemma LookRecords(w: World, s: Step, p: int)
    requires Looks(w, s, p)
    ensures Next(w, s).file.car == Some(CarAfter(w, s))
    ensures Next(w, s).seen == w.seen[p := CarAfter(w, s)]
    ensures p in Next(w, s).file.links
    ensures Told(w, s) == ChangeReport(CarAfter(w, s), PreviousState(w.file, p), Next(w, s).file.links[p].searchStatus)
  {
    hide Merge, StatusAfter, StatusEvents, DetailEvents, RelistEvents, NewPricePoints, NewSnapshots,
      AuthoritativePrice, ChangeReport, PreviousState, Fingerprint;
  }

  /** The previous state that a report compares with is the car as the project saw it. */
  lemma PreviousIsWhatWasSeen(w: World, p: int, id: Json)
    requires Valid(w, id) && p in w.seen
    ensures var previous := PreviousState(w.file, p);
            && previous.Some?
            && previous.value.price == w.seen[p].price
            && previous.value.status == w.seen[p].status
            && previous.value.fingerprint == w.seen[p].fingerprint
            && previous.value.searchStatus == LinkOf(w.file, p).searchStatus
            && Offer(previous.value.details) == Offer(w.seen[p].details)
            && MaterialChanges(previous.value.details, w.seen[p].details) == []
  {
    hide MaterialChanges, Fingerprint, Offer, AuthoritativePrice, CanonicalText, Truthy;
    assert GoodObservation(w.file, p, w.seen[p]);
    assert w.file.car.Some?;
    hide Valid, GoodCar;
    var shot := w.file.snapshots[w.file.links[p].observed.value.snapshot.value];
    assert MaterialChanges(shot, w.seen[p].details) == [];
    SameListingHasSameOffer(shot, w.seen[p].details);
  }

  lemma ValidFingerprints(w: World, p: int, id: Json)
    requires Valid(w, id) && p in w.seen
    ensures w.seen[p].fingerprint == Fingerprint(w.seen[p].details)
  {
    hide MaterialChanges, Fingerprint, AuthoritativePrice, CanonicalText;
    assert GoodObservation(w.file, p, w.seen[p]);
  }

  lemma SameListingHasSameOffer(a: Details, b: Details)
    requires MaterialChanges(a, b) == []
    ensures Offer(a) == Offer(b)
  {
    NoMaterialChange(a, b);
    hide MaterialChanges;
  }

  lemma NeverSeenMeansNoPrevious(w: World, p: int, id: Json)
    requires Valid(w, id) && p !in w.seen
    ensures PreviousState(w.file, p) == None
  {
    hide MaterialChanges, Fingerprint, Offer;
  }

  lemma SilentReport(car: Car, previous: Option<Previous>, search: SearchStatus)
    requires ChangeReport(car, previous, search) == None
    ensures previous.Some?
    ensures car.status == Sold ==> previous.value.status == Sold
    ensures car.status != Sold ==>
              car.price == previous.value.price && Offer(car.details) == Offer(previous.value.details)
  {
    hide Offer, MaterialChanges;
  }

  /**
   What a project is told about a car with the price and the fingerprint it last saw:
   the bare status if that is another one, else that a lost listing is back, else nothing.
   */
  function NewsOfStatus(price: Option<int>, seen: Kind, status: Kind, foundAgain: bool): Option<Report> {
    if status != seen then Some(Observed(status, price, price, []))
    else if status != Sold && foundAgain then Some(Observed(Relisted, price, price, []))
    else None
  }

  lemma StatusReport(car: Car, previous: Previous, search: SearchStatus)
    requires previous.price == car.price
    requires previous.fingerprint == car.fingerprint && Offer(previous.details) == Offer(car.details)
    ensures ChangeReport(car, Some(previous), search)
            == NewsOfStatus(car.price, previous.status, car.status,
                            previous.searchStatus == NotFoundInSearch && search == Found)
  {
    hide Offer, MaterialChanges;
  }

  lemma ReturnReport(car: Car, previous: Previous, search: SearchStatus)
    requires previous.status == Sold && car.status != Sold
    ensures ChangeReport(car, Some(previous), search) == None <==>
              (car.price == previous.price && Offer(previous.details) == Offer(car.details)
               && car.fingerprint != previous.fingerprint
               && MaterialChanges(previous.details, car.details) == [])
  {
    hide Offer, MaterialChanges;
  }

  /**
   Nothing is lost: when a look is silent, the project had seen the car before; a
   sold car was already known to be sold, and any other car has the price and the
   offer type that this same project saw last, whatever other projects did since.
   */
  lemma SilenceLosesNothing(w: World, s: Step, p: int, id: Json)
    requires Reachable(w, id) && id != Null
    requires Looks(w, s, p) && Told(w, s) == None
    ensures p in w.seen
    ensures StatusOnLook(w.file, s) == Sold ==> w.seen[p].status == Sold
    ensures StatusOnLook(w.file, s) != Sold ==>
              PriceOnLook(w.file, s) == w.seen[p].price
              && Offer(DocumentOnLook(w.file, s)) == Offer(w.seen[p].details)
  {
    hide Next, Told, CarAfter, Valid, Looks, PreviousState, Offer, ChangeReport, Reachable, DocumentOnLook, PriceOnLook,
      StatusOnLook;
    ReachableIsValid(w, id);
    LookRecords(w, s, p);
    LookLeaves(w, s, p, id);
    SilentReport(CarAfter(w, s), PreviousState(w.file, p), Next(w, s).file.links[p].searchStatus);
    if p in w.seen {
      PreviousIsWhatWasSeen(w, p, id);
    } else {
      NeverSeenMeansNoPrevious(w, p, id);
    }
  }

  /**
   A look at a car with the price and the fingerprint that this project saw last is told
   as `NewsOfStatus` says. So it is silent exactly when the status, which all projects
   share, is also the one it saw and the look does not find a lost listing again. A price
   that other projects saw move and come back leaves another status behind, and is told.
   */
  lemma UnchangedCarIsQuiet(w: World, s: Step, p: int, id: Json)
    requires Reachable(w, id) && id != Null
    requires Looks(w, s, p) && p in w.seen
    requires PriceOnLook(w.file, s) == w.seen[p].price
    requires Fingerprint(DocumentOnLook(w.file, s)) == w.seen[p].fingerprint
    ensures var status := StatusOnLook(w.file, s);
            && Told(w, s) == NewsOfStatus(w.seen[p].price, w.seen[p].status, status, FindsAgain(w.file, s, p))
            && (Told(w, s) == None
                <==> status == w.seen[p].status && (status == Sold || !FindsAgain(w.file, s, p)))
  {
    hide Next, Told, CarAfter, Looks, PreviousState, Offer, ChangeReport, Valid, Fingerprint, Reachable,
      DocumentOnLook, PriceOnLook, StatusOnLook, FindsAgain;
    ReachableIsValid(w, id);
    LookRecords(w, s, p);
    LookLeaves(w, s, p, id);
    LookFinds(w, s, p);
    ValidFingerprints(w, p, id);
    FingerprintShowsOffer(DocumentOnLook(w.file, s), w.seen[p].details);
    PreviousIsWhatWasSeen(w, p, id);
    StatusReport(CarAfter(w, s), PreviousState(w.file, p).value, Next(w, s).file.links[p].searchStatus);
  }

  /** The look did not read a page that says "sold". */
  predicate ForSaleOnLook(f: CarFile, s: Step) {
    s.Read? ==> !Truthy(Get(DocumentOnLook(f, s), SoldFlag))
  }

  lemma ForSaleStatus(w: World, s: Step, p: int)
    requires Looks(w, s, p)
    ensures ForSaleOnLook(w.file, s) <==> StatusOnLook(w.file, s) != Sold
  {
    hide Merge, AnnouncedChange, Revised, Truthy, Verdict;
  }

  /**
   The one status change that silence can hide: a car this project last saw sold is for
   sale again. Its return is told unless the price is the one it saw, and the document
   has another fingerprint and no material difference to the snapshot it saw.
   */
  lemma ReturnFromSoldIsTold(w: World, s: Step, p: int, id: Json)
    requires Reachable(w, id) && id != Null
    requires Looks(w, s, p) && p in w.seen
    requires w.seen[p].status == Sold && ForSaleOnLook(w.file, s)
    ensures Told(w, s) == None
      <==> (PriceOnLook(w.file, s) == w.seen[p].price
            && Fingerprint(DocumentOnLook(w.file, s)) != w.seen[p].fingerprint
            && MaterialChanges(Compared(w.file, p), DocumentOnLook(w.file, s)) == [])
  {
    hide Next, Told, CarAfter, Valid, Looks, PreviousState, Offer, ChangeReport, Reachable, MaterialChanges,
      DocumentOnLook, PriceOnLook, StatusOnLook, Fingerprint, ForSaleOnLook;
    ReachableIsValid(w, id);
    LookRecords(w, s, p);
    LookLeaves(w, s, p, id);
    ForSaleStatus(w, s, p);
    PreviousIsWhatWasSeen(w, p, id);
    ReturnReport(CarAfter(w, s), PreviousState(w.file, p).value, Next(w, s).file.links[p].searchStatus);
    if MaterialChanges(Compared(w.file, p), DocumentOnLook(w.file, s)) == [] {
      SameListingHasSameOffer(Compared(w.file, p), DocumentOnLook(w.file, s));
    }
  }

  lemma LivePageLeavesNotSold(f: CarFile, merged: Details)
    requires !Truthy(Get(merged, SoldFlag))
    ensures StatusAfter(f, merged) != Sold
  {
    hide Revised, AnnouncedChange;
  }
}
