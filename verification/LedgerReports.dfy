/**
 What a project is told about a car, case by case, over the car as that project saw it
 last, the page, and the stored file (backend/app/worker.py).
 */
module LedgerReports {
  import opened Listing
  import opened Merging
  import opened Ledger
  import opened LedgerRuns
  import opened LedgerUpdates
  import opened Wrappers

  // --- what a look makes of the status --------------------------------------------

  /** The status that a look at a known car leaves, in terms of the record before it and the document it stores. */
  lemma StatusOnLookIs(w: World, s: Step, p: int, id: Json)
    requires Valid(w, id) && Looks(w, s, p) && w.file.car.Some?
    ensures var car, doc, status := w.file.car.value, DocumentOnLook(w.file, s), StatusOnLook(w.file, s);
            && (s.Listed? ==> status == car.status != Sold)
            && (s.Read? ==>
                  && (status == Sold <==> Truthy(Get(doc, SoldFlag)))
                  && (status != Sold && PriceMoves(car, doc) ==>
                        status == if AuthoritativePrice(doc).value < car.price.value then PriceDrop else PriceIncrease)
                  && (status != Sold && !PriceMoves(car, doc) ==>
                        status == if car.status == Sold || Reworded(car, doc) then Updated else car.status))
  {
    hide Merge, StatusAfter, AuthoritativePrice, Fingerprint, MaterialChanges, Offer, GoodObservation, CanonicalText,
      ReadObserved, Verdict, ShowsAnother, Unwanted, PriceMoves, Reworded, Truthy, DocumentOnLook, CarAfter, Upserted;
    if s.Read? {
      ReadIsRefusedExactly(w.file, p, s.page, s.markFound);
      StatusAfterUpdate(w.file, w.file.car.value, p, s.page, s.markFound);
      RecordIsUpserted(w, s, p);
    } else {
      ListedIsPassedOverExactly(w.file, p);
    }
  }

  lemma RecordIsUpserted(w: World, s: Step, p: int)
    requires s.Read? && Looks(w, s, p)
    ensures var after := Upserted(w.file, p, s.page, s.markFound).car;
            after.Some? && after.value.status == StatusOnLook(w.file, s)
    ensures DocumentOnLook(w.file, s) == Merge(StoredDetails(w.file), s.page)
  {
    hide Merge, StatusAfter, StatusEvents, DetailEvents, RelistEvents, NewPricePoints, NewSnapshots, AuthoritativePrice,
      Fingerprint;
  }

  // --- what is told ---------------------------------------------------------------

  /** The document that the project's last observation points to. */
  function Shot(f: CarFile, p: int): Details {
    if p in f.links && f.links[p].observed.Some? && f.links[p].observed.value.snapshot.Some?
       && f.links[p].observed.value.snapshot.value < |f.snapshots|
    then f.snapshots[f.links[p].observed.value.snapshot.value] else map[]
  }

  lemma ComparedIsShot(w: World, p: int, id: Json)
    requires Valid(w, id) && p in w.seen
    ensures PreviousState(w.file, p).Some? && PreviousState(w.file, p).value.details == Shot(w.file, p)
    ensures MaterialChanges(Shot(w.file, p), w.seen[p].details) == []
  {
    hide MaterialChanges, Fingerprint, Offer, AuthoritativePrice, CanonicalText, Truthy;
    assert GoodObservation(w.file, p, w.seen[p]);
    assert w.file.car.Some?;
  }

  lemma ReportOf(car: Car, previous: Previous, search: SearchStatus)
    ensures var told := ChangeReport(car, Some(previous), search);
            && (car.status == Sold ==>
                  told == if previous.status == Sold then None else Some(Observed(Sold, previous.price, car.price, [])))
            && (car.status != Sold && Offer(car.details) != Offer(previous.details) ==>
                  told == Some(Observed(MaterialUpdate, previous.price, car.price,
                                        MaterialChanges(previous.details, car.details))))
            && (car.status != Sold && Offer(car.details) == Offer(previous.details) && previous.price.Some? && car.price.Some? ==>
                  && (previous.price.value > car.price.value ==> told == Some(Observed(PriceDrop, previous.price, car.price, [])))
                  && (previous.price.value < car.price.value ==> told == Some(Observed(PriceIncrease, previous.price, car.price, []))))
            && (car.status != Sold && Offer(car.details) == Offer(previous.details) && previous.price.None? && car.price.Some? ==>
                  told == Some(Observed(if car.price.value < 0 then PriceDrop else PriceIncrease, None, car.price, [])))
            && (car.status != Sold && Offer(car.details) == Offer(previous.details) && previous.price == car.price
                && previous.fingerprint != car.fingerprint ==>
                  told == if MaterialChanges(previous.details, car.details) == [] then None
                          else Some(Observed(MaterialUpdate, car.price, car.price,
                                             MaterialChanges(previous.details, car.details))))
  {
    hide MaterialChanges, Offer;
  }

  /**
   What a look tells a project that has seen the car before. The end of a sale is told
   once. Of a car for sale, another type of offer is told as an update, a price that
   moved as a drop or an increase from the price this project saw, and another
   description as an update with the differences to the snapshot it saw, if there are
   any. `UnchangedCarIsQuiet` says the rest.
   */
  lemma ReportExactly(w: World, s: Step, p: int, id: Json)
    requires Reachable(w, id) && id != Null && Looks(w, s, p) && p in w.seen
    ensures var seen, doc, price, told := w.seen[p], DocumentOnLook(w.file, s), PriceOnLook(w.file, s), Told(w, s);
            var changes := MaterialChanges(Shot(w.file, p), doc);
            && (!ForSaleOnLook(w.file, s) ==>
                  told == if seen.status == Sold then None else Some(Observed(Sold, seen.price, price, [])))
            && (ForSaleOnLook(w.file, s) && Offer(doc) != Offer(seen.details) ==>
                  told == Some(Observed(MaterialUpdate, seen.price, price, changes)) && changes != [])
            && (ForSaleOnLook(w.file, s) && Offer(doc) == Offer(seen.details) && seen.price.Some? && price.Some? ==>
                  && (seen.price.value > price.value ==> told == Some(Observed(PriceDrop, seen.price, price, [])))
                  && (seen.price.value < price.value ==> told == Some(Observed(PriceIncrease, seen.price, price, []))))
            && (ForSaleOnLook(w.file, s) && Offer(doc) == Offer(seen.details) && seen.price.None? && price.Some? ==>
                  told == Some(Observed(if price.value < 0 then PriceDrop else PriceIncrease, None, price, [])))
            && (ForSaleOnLook(w.file, s) && Offer(doc) == Offer(seen.details) && seen.price == price
                && Fingerprint(doc) != seen.fingerprint ==>
                  told == if changes == [] then None else Some(Observed(MaterialUpdate, price, price, changes)))
  {
    hide Next, Told, CarAfter, Valid, Looks, PreviousState, Offer, ChangeReport, Reachable, MaterialChanges,
      DocumentOnLook, PriceOnLook, StatusOnLook, Fingerprint, ForSaleOnLook, Shot;
    ReachableIsValid(w, id);
    LookRecords(w, s, p);
    LookLeaves(w, s, p, id);
    ForSaleStatus(w, s, p);
    PreviousIsWhatWasSeen(w, p, id);
    ComparedIsShot(w, p, id);
    ReportOf(CarAfter(w, s), PreviousState(w.file, p).value, Next(w, s).file.links[p].searchStatus);
    if MaterialChanges(Shot(w.file, p), DocumentOnLook(w.file, s)) == [] {
      SameListingHasSameOffer(Shot(w.file, p), DocumentOnLook(w.file, s));
    }
  }

  /** A project that looks at a car for the first time is told that it is new, with its price, whatever others saw. */
  lemma FirstLookIsNew(w: World, s: Step, p: int, id: Json)
    requires Reachable(w, id) && id != Null && Looks(w, s, p) && p !in w.seen
    ensures Told(w, s) == Some(Observed(New, None, PriceOnLook(w.file, s), []))
  {
    hide Next, Told, CarAfter, Valid, Looks, PreviousState, Offer, Reachable, MaterialChanges,
      DocumentOnLook, PriceOnLook, StatusOnLook, Fingerprint;
    ReachableIsValid(w, id);
    LookRecords(w, s, p);
    LookLeaves(w, s, p, id);
    NeverSeenMeansNoPrevious(w, p, id);
  }

  /** Reads that are refused, rows that are passed over, failed reads and removals are told to nobody. */
  lemma OnlyLooksAreTold(w: World, s: Step)
    requires !s.Searched? && !Looks(w, s, s.project)
    ensures Told(w, s) == None && Next(w, s).seen == w.seen
    ensures s.Read? || s.Listed? ==> Next(w, s) == w
  {
    if s.Read? {
      ReadIsRefusedExactly(w.file, s.project, s.page, s.markFound);
    } else if s.Listed? {
      ListedIsPassedOverExactly(w.file, s.project);
    }
    hide Merge, StatusAfter, ChangeReport, PreviousState, Upserted, RelistEvents, Fingerprint, ShowsAnother;
  }

  /** The end of a search is told as what it logs, and shows the project nothing of the car. */
  lemma SearchIsToldAsLogged(w: World, p: int, found: bool, sold: bool)
    ensures var s := Searched(p, found, sold);
            && Next(w, s).seen == w.seen
            && (w.file.car.None? || p !in w.file.links || Unwanted(w.file, p) ==> Told(w, s) == None && Next(w, s) == w)
            && (w.file.car.Some? && p in w.file.links && !Unwanted(w.file, p) ==>
                  var logged := LoggedAtEnd(w.file.car.value, w.file.links[p], p, found, sold);
                  && Next(w, s).file.events == w.file.events + (if logged.Some? then [logged.value] else [])
                  && (logged.None? <==> Told(w, s) == None)
                  && (logged.Some? ==> Told(w, s) == Some(match logged.value
                                                          case SoldInProject(_) => AbsenceKind(Sold)
                                                          case RelistedIn(_) => AbsenceKind(Relisted)
                                                          case SearchStatusMoved(_, status, _) => AbsenceStatus(status)
                                                          case _ => AbsenceKind(Updated))))
  {
    SearchEndsExactly(w.file, p, found, sold);
    hide Absent, AbsenceReport;
  }

  /** When a look is recorded, in terms of the file and the page. */
  lemma LooksExactly(w: World, s: Step, p: int)
    ensures Looks(w, s, p) <==>
      && (s.Read? || s.Listed?) && s.project == p && !Unwanted(w.file, p)
      && (s.Read? ==> !ShowsAnother(s.page))
      && (s.Listed? ==> w.file.car.Some? && w.file.car.value.status != Sold)
  {
    if s.Read? {
      ReadIsRefusedExactly(w.file, p, s.page, s.markFound);
    }
    ListedIsPassedOverExactly(w.file, p);
    hide Verdict, ListedCounts, ShowsAnother;
  }

  /** What a look leaves with the project: the newest snapshot, if there is one, and the record's price, fingerprint and status. */
  lemma LookIsRemembered(f: CarFile, p: int)
    requires f.car.Some? && p in f.links
    ensures var g, car := Remembered(f, p), f.car.value;
            && g == f.(links := f.links[p := f.links[p].(observed := g.links[p].observed)])
            && g.links[p].observed == Some(Observation(if f.snapshots == [] then None else Some(|f.snapshots| - 1),
                                                       car.price, Fingerprint(car.details), car.status))
  {
    hide Fingerprint;
  }

  /**
   A link that has no observation yet is compared with the record as it stands: with its
   price, the fingerprint of its document, and its status, where a document that says
   "sold" counts as sold, and a sold record of a document that does not counts as updated.
   */
  lemma UnobservedLink(f: CarFile, p: int)
    requires f.car.Some? && p in f.links && f.links[p].observed.None?
    ensures var car, previous := f.car.value, PreviousState(f, p);
            && previous.Some? && previous.value.details == car.details && previous.value.snapshot.None?
            && previous.value.price == car.price && previous.value.fingerprint == Fingerprint(car.details)
            && previous.value.searchStatus == f.links[p].searchStatus
            && (Truthy(Get(car.details, SoldFlag)) ==> previous.value.status == Sold)
            && (!Truthy(Get(car.details, SoldFlag)) ==> previous.value.status == if car.status == Sold then Updated else car.status)
  {
    hide Fingerprint, Truthy;
  }

  // --- removal --------------------------------------------------------------------

  /** The project has removed the listing. */
  predicate Gone(f: CarFile, p: int) {
    p in f.links && !f.links[p].tracking && f.links[p].searchStatus == RemovedFromProject
  }

  lemma GoneStays(w: World, s: Step, p: int)
    requires Gone(w.file, p) && (w.file.car.None? ==> w.file.links == map[])
    ensures Gone(Next(w, s).file, p) && (Next(w, s).file.car.None? ==> Next(w, s).file.links == map[])
    ensures s.project == p ==> Told(w, s) == None && !Looks(w, s, p)
    ensures p in w.seen <==> p in Next(w, s).seen
    ensures p in w.seen ==> Next(w, s).seen[p] == w.seen[p]
  {
    LooksExactly(w, s, s.project);
    if !s.Searched? && !Looks(w, s, s.project) {
      OnlyLooksAreTold(w, s);
    }
    hide Merge, StatusAfter, StatusEvents, DetailEvents, RelistEvents, NewPricePoints, NewSnapshots, AuthoritativePrice,
      ChangeReport, PreviousState, Fingerprint, ShowsAnother;
  }

  /** Removal ends tracking for one project and is logged; record, snapshots and other projects stay as they are. */
  lemma RemovedIsGone(f: CarFile, p: int)
    requires p in f.links
    ensures var g := Untracked(f, p);
            && Gone(g, p) && g.car == f.car && g.snapshots == f.snapshots && g.history == f.history
            && g.events == f.events + [RemovedFrom(p)]
            && g.links.Keys == f.links.Keys && g.links[p].observed == f.links[p].observed
            && g.links[p].missing == f.links[p].missing
            && forall q | q in f.links && q != p :: g.links[q] == f.links[q]
  {
  }

  /**
   Removal is final: whatever any project does afterwards, the project that removed the
   listing neither looks at it nor is told anything about it again, and what it saw last
   stays as it was.
   */
  lemma {:induction false} RemovalIsFinal(w: World, p: int, steps: seq<Step>, s: Step)
    requires p in w.file.links && w.file.car.Some? && s.project == p
    ensures var v := Run(Next(w, Removed(p)), steps);
            && Gone(v.file, p) && !Looks(v, s, p) && Told(v, s) == None
            && (p in v.seen <==> p in w.seen) && (p in w.seen ==> v.seen[p] == w.seen[p])
  {
    RemovedIsGone(w.file, p);
    RemovedStaysGone(Next(w, Removed(p)), p, steps);
    hide Next, Run, Told, Looks, Gone;
    GoneStays(Run(Next(w, Removed(p)), steps), s, p);
  }

  lemma {:induction false} RemovedStaysGone(w: World, p: int, steps: seq<Step>)
    requires Gone(w.file, p) && (w.file.car.None? ==> w.file.links == map[])
    ensures var v := Run(w, steps);
            && Gone(v.file, p) && (v.file.car.None? ==> v.file.links == map[])
            && (p in v.seen <==> p in w.seen) && (p in w.seen ==> v.seen[p] == w.seen[p])
  {
    hide Next, Gone;
    if steps != [] {
      RemovedStaysGone(w, p, steps[..|steps| - 1]);
      GoneStays(Run(w, steps[..|steps| - 1]), steps[|steps| - 1], p);
    }
  }
}
