/**
 The shared-car ledger (backend/app/services.py and the per-project half of
 backend/app/worker.py): one car record is shared by every project that tracks it,
 and each project keeps what it last observed of it.
 */
module Ledger {
  import opened Listing
  import opened Merging
  import opened Wrappers

  /** Car statuses and report changes share one vocabulary, as they do in the source. */
  datatype Kind = New | PriceDrop | PriceIncrease | Updated | Sold | MaterialUpdate | Relisted

  datatype SearchStatus = Found | NotFoundInSearch | RemovedFromProject

  datatype Car = Car(details: Details, price: Option<int>, status: Kind, fingerprint: Json, excluded: bool)

  datatype Observation = Observation(snapshot: Option<nat>, price: Option<int>, fingerprint: Json, status: Kind)

  datatype Link = Link(searchStatus: SearchStatus, missing: nat, tracking: bool, observed: Option<Observation>)

  datatype Event =
    | NewCar(details: Details)
    | SoldPageSeen
    | PriceMoved(kind: Kind, fromPrice: int, toPrice: int, difference: nat)
    | AvailableAgain
    | MaterialUpdated(changes: seq<Change>)
    | MileageChanged(before: Json, after: Json)
    | AccidentInfoChanged(accident: Json)
    | RelistedIn(project: int)
    | SearchStatusMoved(project: int, status: SearchStatus, missing: nat)
    | SoldInProject(project: int)
    | RemovedFrom(project: int)

  datatype PricePoint = PricePoint(price: int, offer: Json)

  /** Everything stored about one listing, over all projects. */
  datatype CarFile = CarFile(
    car: Option<Car>,
    links: map<int, Link>,
    snapshots: seq<Details>,
    history: seq<PricePoint>,
    events: seq<Event>)

  const EMPTY_FILE := CarFile(None, map[], [], [], [])

  const FRESH_LINK := Link(Found, 0, true, None)

  // --- upsert_detail ------------------------------------------------------------

  function StoredDetails(f: CarFile): Details {
    if f.car.Some? then f.car.value.details else map[]
  }

  function StoredPrice(f: CarFile): Option<int> {
    if f.car.Some? then f.car.value.price else None
  }

  function StoredStatus(f: CarFile): Kind {
    if f.car.Some? then f.car.value.status else New
  }

  predicate TrackingDisabled(f: CarFile, project: int) {
    f.car.Some? && (f.car.value.excluded || (project in f.links && !f.links[project].tracking))
  }

  function LinkOf(f: CarFile, project: int): Link {
    if project in f.links then f.links[project] else FRESH_LINK
  }

  /** The price change an update announces: none when the offer type moved. */
  function AnnouncedChange(f: CarFile, merged: Details): PriceChange {
    var known := StoredDetails(f);
    if known != map[] && Offer(known) != Offer(merged) then NoChange
    else ComparePrices(StoredPrice(f), AuthoritativePrice(merged))
  }

  function Differences(f: CarFile, merged: Details): seq<Change> {
    if StoredDetails(f) == map[] then [] else MaterialChanges(StoredDetails(f), merged)
  }

  /** Stored under another fingerprint, and materially different. */
  predicate Revised(f: CarFile, merged: Details) {
    && StoredDetails(f) != map[]
    && Fingerprint(StoredDetails(f)) != Get(merged, FingerprintField)
    && Differences(f, merged) != []
  }

  predicate TurnsSold(f: CarFile, merged: Details) {
    Truthy(Get(merged, SoldFlag)) && StoredStatus(f) != Sold
  }

  function StatusAfter(f: CarFile, merged: Details): Kind {
    var change := AnnouncedChange(f, merged);
    if Truthy(Get(merged, SoldFlag)) then Sold
    else if change.Moved? then (if change.drop then PriceDrop else PriceIncrease)
    else if StoredStatus(f) == Sold || Revised(f, merged) then Updated
    else StoredStatus(f)
  }

  function StatusEvents(f: CarFile, merged: Details): seq<Event> {
    var change := AnnouncedChange(f, merged);
    if Truthy(Get(merged, SoldFlag)) then (if TurnsSold(f, merged) then [SoldPageSeen] else [])
    else if change.Moved? then
      [PriceMoved(if change.drop then PriceDrop else PriceIncrease, change.before, change.after, change.difference)]
    else if StoredStatus(f) == Sold then [AvailableAgain]
    else if Revised(f, merged) then [MaterialUpdated(Differences(f, merged))]
    else []
  }

  function DetailEvents(f: CarFile, merged: Details): seq<Event> {
    var known := StoredDetails(f);
    (if Truthy(Get(known, MileageKm)) && Truthy(Get(merged, MileageKm))
        && Get(merged, MileageKm) != Get(known, MileageKm)
     then [MileageChanged(Get(known, MileageKm), Get(merged, MileageKm))] else [])
    + (if Truthy(Get(known, Accident))
          && AccidentSignature(Get(merged, Accident)) != AccidentSignature(Get(known, Accident))
       then [AccidentInfoChanged(Get(merged, Accident))] else [])
  }

  function RelistEvents(f: CarFile, project: int, markFound: bool): seq<Event> {
    if markFound && LinkOf(f, project).searchStatus == NotFoundInSearch then [RelistedIn(project)] else []
  }

  function NewPricePoints(f: CarFile, merged: Details): seq<PricePoint> {
    var price := AuthoritativePrice(merged);
    if price.Some? && price.value != 0 && price != StoredPrice(f)
    then [PricePoint(price.value, Offer(merged))] else []
  }

  function NewSnapshots(f: CarFile, merged: Details): seq<Details> {
    if StoredDetails(f) == map[] || AnnouncedChange(f, merged).Moved? || Differences(f, merged) != []
       || TurnsSold(f, merged)
    then [merged] else []
  }

  function MarkFound(link: Link, markFound: bool): Link {
    if markFound then link.(searchStatus := Found, missing := 0) else link
  }

  /** The file after `upsert_detail` has accepted `merged`. */
  function Stored(f: CarFile, project: int, merged: Details, markFound: bool): CarFile {
    var price := AuthoritativePrice(merged);
    CarFile(
      Some(Car(merged,
               if price.Some? then price else StoredPrice(f),
               StatusAfter(f, merged),
               Get(merged, FingerprintField),
               f.car.Some? && f.car.value.excluded)),
      f.links[project := MarkFound(LinkOf(f, project), markFound)],
      f.snapshots + NewSnapshots(f, merged),
      f.history + NewPricePoints(f, merged),
      f.events + (if f.car.None? then [NewCar(merged)] else [])
      + StatusEvents(f, merged) + DetailEvents(f, merged) + RelistEvents(f, project, markFound))
  }

  function CanonicalText(detail: Details): Json {
    Get(detail, CanonicalCarId)
  }

  function SourceText(detail: Details): Json {
    if Truthy(Get(detail, SourceCarId)) then Get(detail, SourceCarId) else CanonicalText(detail)
  }

  datatype Outcome = Accepted | CrossListing | TrackingIsDisabled

  function Verdict(f: CarFile, project: int, detail: Details): Outcome {
    if !Truthy(Get(detail, SoldFlag)) && SourceText(detail) != CanonicalText(detail) then CrossListing
    else if TrackingDisabled(f, project) then TrackingIsDisabled
    else Accepted
  }

  /** `upsert_detail` on one file; a refusal rolls everything back. */
  function Upserted(f: CarFile, project: int, detail: Details, markFound: bool): CarFile {
    if Verdict(f, project, detail) == Accepted
    then Stored(f, project, Merge(StoredDetails(f), detail), markFound)
    else f
  }

  /** The document `upsert_price_status` builds from a price and availability probe. */
  function ProbeDetail(status: Details): Details {
    var sold := Truthy(Get(status, SoldFlag));
    map[
      CanonicalCarId := CanonicalText(status),
      SourceCarId := Get(status, SourceCarId),
      DisplayedCarId := Get(status, DisplayedCarId),
      Url := Get(status, Url),
      PriceKrw := if sold then Null else Get(status, PriceKrw),
      PriceSource := if sold then Null else if PriceSource in status then status[PriceSource] else Str(DetailPrimary),
      OfferType := if OfferType in status then status[OfferType] else Str(Sale),
      RentalMonthlyPaymentKrw := Get(status, RentalMonthlyPaymentKrw),
      RentalTermMonths := Get(status, RentalTermMonths),
      RentalAcquisitionPriceKrw := Get(status, RentalAcquisitionPriceKrw),
      VehiclePriceKrw := Get(status, VehiclePriceKrw),
      LeaseMonthlyPaymentKrw := Get(status, LeaseMonthlyPaymentKrw),
      LeaseTermMonths := Get(status, LeaseTermMonths),
      CheckedAt := Get(status, CheckedAt),
      ParseQuality := Str(if sold then SoldPage else PriceStatus),
      SoldFlag := Bool(sold),
      Unavailable := Bool(false)]
  }

  lemma ProbeKeepsIdentity(status: Details)
    ensures CanonicalText(ProbeDetail(status)) == CanonicalText(status)
  {
    hide Truthy;
  }

  // --- search membership --------------------------------------------------------

  /** `mark_found_without_detail`. */
  function FoundWithoutDetail(f: CarFile, project: int): CarFile {
    var link := LinkOf(f, project);
    if f.car.None? then f
    else if !link.tracking || f.car.value.excluded then f.(links := f.links[project := link])
    else f.(links := f.links[project := MarkFound(link, true)],
            events := f.events + RelistEvents(f, project, true))
  }

  /** `apply_missing`; the third component says the listing was relisted. */
  function ApplyMissing(success: bool, found: bool, count: nat, status: SearchStatus): (nat, SearchStatus, bool) {
    if !success then (count, status, false)
    else if found then (0, Found, status == NotFoundInSearch)
    else (count + 1, NotFoundInSearch, false)
  }

  predicate Watched(f: CarFile, project: int) {
    f.car.Some? && !f.car.value.excluded && project in f.links && f.links[project].tracking
  }

  /** One turn of the loop in `mark_absent`. */
  function Absent(f: CarFile, project: int, found: bool, confirmedSold: bool): CarFile {
    if !Watched(f, project) then f
    else
      var link := f.links[project];
      if confirmedSold then
        f.(links := f.links[project := link.(searchStatus := NotFoundInSearch, missing := link.missing + 1)],
           car := Some(f.car.value.(status := Sold)),
           events := f.events + if f.car.value.status != Sold then [SoldInProject(project)] else [])
      else
        var (count, status, relisted) := ApplyMissing(true, found, link.missing, link.searchStatus);
        f.(links := f.links[project := link.(searchStatus := status, missing := count)],
           events := f.events +
             if relisted then [RelistedIn(project)]
             else if status != link.searchStatus then [SearchStatusMoved(project, status, count)]
             else [])
  }

  /** What `mark_absent` reports about one file. */
  function AbsenceReport(f: CarFile, project: int, found: bool, confirmedSold: bool): Option<Report> {
    if !Watched(f, project) then None
    else
      var link := f.links[project];
      if confirmedSold then (if f.car.value.status != Sold then Some(AbsenceKind(Sold)) else None)
      else
        var (_, status, relisted) := ApplyMissing(true, found, link.missing, link.searchStatus);
        if relisted then Some(AbsenceKind(Relisted))
        else if status != link.searchStatus then Some(AbsenceStatus(status)) else None
  }

  function Untracked(f: CarFile, project: int): CarFile {
    if project !in f.links then f
    else f.(links := f.links[project := f.links[project].(tracking := false, searchStatus := RemovedFromProject)],
            events := f.events + [RemovedFrom(project)])
  }

  // --- what a project last saw, and what it is told -----------------------------

  datatype Previous = Previous(
    price: Option<int>, fingerprint: Json, status: Kind, details: Details,
    searchStatus: SearchStatus, snapshot: Option<nat>)

  datatype Report =
    | Observed(change: Kind, oldPrice: Option<int>, price: Option<int>, changes: seq<Change>)
    | AbsenceKind(change: Kind)
    | AbsenceStatus(status: SearchStatus)

  /** `_previous_state`. */
  function PreviousState(f: CarFile, project: int): Option<Previous> {
    if f.car.None? || project !in f.links then None
    else
      var car, link := f.car.value, f.links[project];
      var seen := link.observed;
      var snapshot := if seen.Some? then seen.value.snapshot else None;
      var details := if snapshot.Some? && snapshot.value < |f.snapshots| then f.snapshots[snapshot.value] else car.details;
      Some(Previous(
        if seen.Some? then seen.value.price else car.price,
        if seen.Some? then seen.value.fingerprint else Fingerprint(details),
        if seen.Some? then seen.value.status
        else if Truthy(Get(details, SoldFlag)) then Sold
        else if car.status == Sold then Updated else car.status,
        details, link.searchStatus, snapshot))
  }

  /** `_change_report` for an unchanged identity; `None` is silence. */
  function ChangeReport(car: Car, previous: Option<Previous>, searchStatus: SearchStatus): Option<Report> {
    if previous.None? then Some(Observed(New, None, car.price, []))
    else
      var p := previous.value;
      if car.status == Sold then
        if p.status == Sold then None else Some(Observed(Sold, p.price, car.price, []))
      else if Offer(p.details) != Offer(car.details) then
        Some(Observed(MaterialUpdate, p.price, car.price, MaterialChanges(p.details, car.details)))
      else if p.price != car.price then
        Some(Observed(if Amount(p.price) > Amount(car.price) then PriceDrop else PriceIncrease, p.price, car.price, []))
      else if p.fingerprint != car.fingerprint then
        if MaterialChanges(p.details, car.details) == [] then None
        else Some(Observed(MaterialUpdate, p.price, car.price, MaterialChanges(p.details, car.details)))
      else if p.status != car.status then
        Some(Observed(car.status, p.price, car.price, []))
      else if p.searchStatus == NotFoundInSearch && searchStatus == Found then
        Some(Observed(Relisted, p.price, car.price, []))
      else None
  }

  function Amount(price: Option<int>): int {
    if price.Some? then price.value else 0
  }

  /** `_latest_snapshot_id`. */
  function LatestSnapshot(f: CarFile): Option<nat> {
    if f.snapshots == [] then None else Some(|f.snapshots| - 1)
  }

  /** `_remember_observation`. */
  function Remembered(f: CarFile, project: int): CarFile
    requires f.car.Some? && project in f.links
  {
    var car := f.car.value;
    f.(links := f.links[project := f.links[project].(observed :=
      Some(Observation(LatestSnapshot(f), car.price, Fingerprint(car.details), car.status)))])
  }

  /**
   One detail read, from the previous state to the remembered observation. The source
   takes the previous state when it walks the row and stores the read later; the two
   moments show the same file, because the worker holds one run at a time and a run reads
   a listing once for a project. (What a user removes in between makes the store refuse.)
   */
  function ReadObserved(f: CarFile, project: int, page: Details, markFound: bool): (CarFile, Option<Report>) {
    if Verdict(f, project, page) != Accepted then (f, None)
    else
      var g := Upserted(f, project, page, markFound);
      (Remembered(g, project), ChangeReport(g.car.value, PreviousState(f, project), g.links[project].searchStatus))
  }

  /** A known listing that a result page shows and no detail read is needed for. */
  function ListedObserved(f: CarFile, project: int): (CarFile, Option<Report>) {
    if f.car.None? || f.car.value.excluded || f.car.value.status == Sold || !LinkOf(f, project).tracking
    then (f, None)
    else
      var g := FoundWithoutDetail(f, project);
      (Remembered(g, project), ChangeReport(g.car.value, PreviousState(f, project), g.links[project].searchStatus))
  }

  function AbsenceReports(
    files: map<string, CarFile>, project: int, rows: seq<string>, foundIds: set<string>, confirmedSold: set<string>)
    : seq<(string, Report)>
    requires forall id | id in rows :: id in files
  {
    if rows == [] then []
    else
      var id := rows[|rows| - 1];
      var told := AbsenceReport(files[id], project, id in foundIds, id in confirmedSold);
      AbsenceReports(files, project, rows[..|rows| - 1], foundIds, confirmedSold)
      + if told.Some? then [(id, told.value)] else []
  }

  // --- the statements of upsert_detail, section by section ----------------------

  /** Decides the car's new status and writes the event that announces it. */
  method AnnounceStatus(f: CarFile, detail: Details, change: PriceChange, differences: seq<Change>)
    returns (status: Kind, events: seq<Event>)
    requires change == AnnouncedChange(f, detail) && differences == Differences(f, detail)
    ensures status == StatusAfter(f, detail)
    ensures events == StatusEvents(f, detail)
  {
    hide AnnouncedChange, Differences, Fingerprint, Truthy;
    status, events := StoredStatus(f), [];
    if Truthy(Get(detail, SoldFlag)) {
      if status != Sold {
        events := [SoldPageSeen];
      }
      status := Sold;
    } else if change.Moved? {
      status := if change.drop then PriceDrop else PriceIncrease;
      events := [PriceMoved(status, change.before, change.after, change.difference)];
    } else if status == Sold {
      status, events := Updated, [AvailableAgain];
    } else if StoredDetails(f) != map[]
              && Fingerprint(StoredDetails(f)) != Get(detail, FingerprintField) && differences != [] {
      status, events := Updated, [MaterialUpdated(differences)];
    }
  }

  method NoteDetailChanges(f: CarFile, detail: Details) returns (events: seq<Event>)
    ensures events == DetailEvents(f, detail)
  {
    var known := StoredDetails(f);
    hide Truthy, AccidentSignature, StoredDetails, Get;
    events := [];
    if Truthy(Get(known, MileageKm)) && Truthy(Get(detail, MileageKm))
       && Get(detail, MileageKm) != Get(known, MileageKm) {
      events := events + [MileageChanged(Get(known, MileageKm), Get(detail, MileageKm))];
    }
    if Truthy(Get(known, Accident))
       && AccidentSignature(Get(detail, Accident)) != AccidentSignature(Get(known, Accident)) {
      events := events + [AccidentInfoChanged(Get(detail, Accident))];
    }
  }

  method SeeLink(f: CarFile, project: int, markFound: bool) returns (link: Link, events: seq<Event>)
    ensures link == MarkFound(LinkOf(f, project), markFound)
    ensures events == RelistEvents(f, project, markFound)
  {
    link, events := LinkOf(f, project), [];
    var before := link.searchStatus;
    if markFound {
      link := link.(searchStatus := Found, missing := 0);
    }
    if markFound && before == NotFoundInSearch {
      events := [RelistedIn(project)];
    }
  }

  /** Stores a merged document in its file. */
  method StoreMerged(f: CarFile, project: int, detail: Details, markFound: bool) returns (updated: CarFile)
    ensures updated == Stored(f, project, detail, markFound)
  {
    hide StatusAfter, StatusEvents, DetailEvents, RelistEvents, MarkFound, LinkOf, AuthoritativePrice,
      Truthy, Fingerprint, MaterialChanges, Offer, ComparePrices;
    var known := StoredDetails(f);
    var knownPrice := StoredPrice(f);
    var differences: seq<Change> := [];
    if known != map[] {
      differences := MaterialChanges(known, detail);
    }
    var created: seq<Event> := [];
    if f.car.None? {
      created := [NewCar(detail)];
    }
    var authoritative := AuthoritativePrice(detail);
    var offerChanged := known != map[] && Offer(known) != Offer(detail);
    var change := if offerChanged then NoChange else ComparePrices(knownPrice, authoritative);
    var soldTransition := Truthy(Get(detail, SoldFlag)) && StoredStatus(f) != Sold;
    var history := f.history;
    if authoritative.Some? && authoritative.value != 0 && authoritative != knownPrice {
      history := history + [PricePoint(authoritative.value, Offer(detail))];
    }
    var status, announced := AnnounceStatus(f, detail, change, differences);
    var noted := NoteDetailChanges(f, detail);
    var price := if authoritative.Some? then authoritative else knownPrice;
    var link, relisted := SeeLink(f, project, markFound);
    var snapshots := f.snapshots;
    if known == map[] || change.Moved? || differences != [] || soldTransition {
      snapshots := snapshots + [detail];
    }
    var car := Car(detail, price, status, Get(detail, FingerprintField), f.car.Some? && f.car.value.excluded);
    updated := CarFile(Some(car), f.links[project := link], snapshots, history,
                       f.events + created + announced + noted + relisted);
  }

  /** The body of the loop in `mark_absent`. */
  method MarkOneAbsent(f: CarFile, project: int, found: bool, confirmedSold: bool)
    returns (updated: CarFile, report: Option<Report>)
    requires Watched(f, project)
    ensures updated == Absent(f, project, found, confirmedSold)
    ensures report == AbsenceReport(f, project, found, confirmedSold)
  {
    var link, car, events := f.links[project], f.car.value, f.events;
    report := None;
    if confirmedSold {
      link := link.(searchStatus := NotFoundInSearch, missing := link.missing + 1);
      if car.status != Sold {
        car := car.(status := Sold);
        events := events + [SoldInProject(project)];
        report := Some(AbsenceKind(Sold));
      }
    } else {
      var (count, status, relisted) := ApplyMissing(true, found, link.missing, link.searchStatus);
      if relisted {
        events := events + [RelistedIn(project)];
        report := Some(AbsenceKind(Relisted));
      } else if status != link.searchStatus {
        events := events + [SearchStatusMoved(project, status, count)];
        report := Some(AbsenceStatus(status));
      }
      link := link.(searchStatus := status, missing := count);
    }
    updated := f.(links := f.links[project := link], car := Some(car), events := events);
    assert updated.events == Absent(f, project, found, confirmedSold).events;
  }

  /** The files once `mark_absent` has handled the given rows. */
  ghost function Marked(
    files: map<string, CarFile>, project: int, rows: seq<string>, foundIds: set<string>, confirmedSold: set<string>)
    : map<string, CarFile>
  {
    map id | id in files ::
      if id in rows then Absent(files[id], project, id in foundIds, id in confirmedSold) else files[id]
  }

  lemma MarkedNone(files: map<string, CarFile>, project: int, foundIds: set<string>, confirmedSold: set<string>)
    ensures Marked(files, project, [], foundIds, confirmedSold) == files
  {
    hide Absent;
  }

  lemma MarkedOneMore(
    files: map<string, CarFile>, project: int, rows: seq<string>, id: string, foundIds: set<string>,
    confirmedSold: set<string>)
    requires id in files
    ensures Marked(files, project, rows + [id], foundIds, confirmedSold)
      == Marked(files, project, rows, foundIds, confirmedSold)
           [id := Absent(files[id], project, id in foundIds, id in confirmedSold)]
  {
    hide Absent;
  }

  lemma MarkedAll(
    files: map<string, CarFile>, project: int, rows: seq<string>, foundIds: set<string>, confirmedSold: set<string>)
    requires forall id | id in files && id !in rows :: !Watched(files[id], project)
    ensures Marked(files, project, rows, foundIds, confirmedSold)
      == map id | id in files :: Absent(files[id], project, id in foundIds, id in confirmedSold)
  {
    forall id | id in files && id !in rows
      ensures Absent(files[id], project, id in foundIds, id in confirmedSold) == files[id]
    {
      hide Watched;
    }
    hide Absent, Watched;
  }

  // --- the ledger object --------------------------------------------------------

  class CarLedger {
    var files: map<string, CarFile>

    ghost function FileOf(id: string): CarFile
      reads this
    {
      if id in files then files[id] else EMPTY_FILE
    }

    constructor ()
      ensures files == map[]
    {
      files := map[];
    }

    method ReadFile(id: string) returns (f: CarFile)
      ensures f == FileOf(id)
    {
      f := if id in files then files[id] else EMPTY_FILE;
    }

    /** `upsert_detail`, statement by statement. */
    method UpsertDetail(project: int, id: string, page: Details, markFound: bool) returns (outcome: Outcome)
      requires CanonicalText(page) == Str(Word(id))
      modifies this
      ensures outcome == Verdict(old(FileOf(id)), project, page)
      ensures files == if outcome == Accepted
                       then old(files)[id := Upserted(old(FileOf(id)), project, page, markFound)]
                       else old(files)
    {
      if !Truthy(Get(page, SoldFlag)) && SourceText(page) != CanonicalText(page) {
        return CrossListing;
      }
      var f := ReadFile(id);
      if f.car.Some? && (f.car.value.excluded || (project in f.links && !f.links[project].tracking)) {
        return TrackingIsDisabled;
      }
      var merged := MergeReliableDetail(StoredDetails(f), page);
      var updated := StoreMerged(f, project, merged, markFound);
      files := files[id := updated];
      return Accepted;
    }

    /** `upsert_price_status`: a probe is stored through the same path as a full read. */
    method UpsertPriceStatus(project: int, id: string, probe: Details, markFound: bool) returns (outcome: Outcome)
      requires CanonicalText(probe) == Str(Word(id))
      modifies this
      ensures outcome == Verdict(old(FileOf(id)), project, ProbeDetail(probe))
      ensures files == if outcome == Accepted
                       then old(files)[id := Upserted(old(FileOf(id)), project, ProbeDetail(probe), markFound)]
                       else old(files)
    {
      ProbeKeepsIdentity(probe);
      hide Upserted, Verdict, ProbeDetail, CanonicalText;
      outcome := UpsertDetail(project, id, ProbeDetail(probe), markFound);
    }

    method MarkFoundWithoutDetail(project: int, id: string) returns (relisted: bool)
      requires id in files && files[id].car.Some?
      modifies this
      ensures relisted == (Watched(FoundWithoutDetail(old(files)[id], project), project)
                           && LinkOf(old(files)[id], project).searchStatus == NotFoundInSearch)
      ensures files == old(files)[id := FoundWithoutDetail(old(files)[id], project)]
    {
      var f := files[id];
      var link := LinkOf(f, project);
      f := f.(links := f.links[project := link]);
      relisted := false;
      if link.tracking && !f.car.value.excluded {
        if link.searchStatus == NotFoundInSearch {
          f := f.(events := f.events + [RelistedIn(project)]);
          relisted := true;
        }
        f := f.(links := f.links[project := link.(searchStatus := Found, missing := 0)]);
      }
      var expected := FoundWithoutDetail(files[id], project);
      assert f.events == expected.events && f.links == expected.links;
      files := files[id := f];
    }

    /**
     `mark_absent` over the rows its query returned: the listings the project still
     tracks, each once.
     */
    method MarkAbsent(project: int, rows: seq<string>, foundIds: set<string>, confirmedSold: set<string>)
      returns (changed: seq<(string, Report)>)
      requires forall i, j | 0 <= i < j < |rows| :: rows[i] != rows[j]
      requires forall id :: id in rows <==> id in files && Watched(files[id], project)
      modifies this
      ensures files == map id | id in old(files) ::
                         Absent(old(files)[id], project, id in foundIds, id in confirmedSold)
      ensures changed == AbsenceReports(old(files), project, rows, foundIds, confirmedSold)
    {
      changed := [];
      ghost var before := files;
      MarkedNone(before, project, foundIds, confirmedSold);
      hide Absent, AbsenceReport, Watched, Marked;
      for i := 0 to |rows|
        invariant files.Keys == before.Keys
        invariant files == Marked(before, project, rows[..i], foundIds, confirmedSold)
        invariant forall id | id in before && id !in rows[..i] :: files[id] == before[id]
        invariant changed == AbsenceReports(before, project, rows[..i], foundIds, confirmedSold)
      {
        var id := rows[i];
        assert rows[..i + 1] == rows[..i] + [id];
        var f, report := MarkOneAbsent(files[id], project, id in foundIds, id in confirmedSold);
        MarkedOneMore(before, project, rows[..i], id, foundIds, confirmedSold);
        files := files[id := f];
        if report.Some? {
          changed := changed + [(id, report.value)];
        }
      }
      assert rows[..|rows|] == rows;
      MarkedAll(before, project, rows, foundIds, confirmedSold);
    }

    /** Remove a listing from one project; the shared record stays. */
    method RemoveCarFromProject(project: int, id: string)
      requires id in files && project in files[id].links
      modifies this
      ensures files == old(files)[id := Untracked(old(files)[id], project)]
    {
      var f := files[id];
      files := files[id := f.(
        links := f.links[project := f.links[project].(tracking := false, searchStatus := RemovedFromProject)],
        events := f.events + [RemovedFrom(project)])];
    }

    /**
     The coordinator's handling of one finished detail read: store it, compare with
     what this project saw last, and remember the new observation.
     */
    method ObserveDetail(project: int, id: string, page: Details, markFound: bool) returns (report: Option<Report>)
      requires CanonicalText(page) == Str(Word(id))
      modifies this
      ensures var (f, told) := ReadObserved(old(FileOf(id)), project, page, markFound);
              report == told && FileOf(id) == f
      ensures forall other | other in old(files) && other != id :: other in files && files[other] == old(files)[other]
    {
      var previousFile := ReadFile(id);
      var previous := PreviousState(previousFile, project);
      var outcome := UpsertDetail(project, id, page, markFound);
      if outcome != Accepted {
        return None;
      }
      var f := files[id];
      report := ChangeReport(f.car.value, previous, f.links[project].searchStatus);
      files := files[id := Remembered(f, project)];
    }
  }
}
