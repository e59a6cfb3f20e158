/**
 What one accepted update, one sighting and one completed search do to a listing's file,
 in terms of the file before and the page (backend/app/services.py).
 */
module LedgerUpdates {
  import opened Listing
  import opened Merging
  import opened Ledger
  import opened LedgerRuns
  import opened Wrappers

  // --- which reads are stored -----------------------------------------------------

  /** The page shows a car for sale under another listing than the one that was asked for. */
  predicate ShowsAnother(page: Details) {
    && !Truthy(Get(page, SoldFlag))
    && Truthy(Get(page, SourceCarId)) && Get(page, SourceCarId) != Get(page, CanonicalCarId)
  }

  /** The car is excluded for everybody, or the project has stopped tracking it. */
  predicate Unwanted(f: CarFile, p: int) {
    f.car.Some? && (f.car.value.excluded || (p in f.links && !f.links[p].tracking))
  }

  /** A read is refused exactly for a page of another listing or a car nobody wants, and a refusal changes nothing. */
  lemma ReadIsRefusedExactly(f: CarFile, p: int, page: Details, mark: bool)
    ensures Verdict(f, p, page)
            == if ShowsAnother(page) then CrossListing else if Unwanted(f, p) then TrackingIsDisabled else Accepted
    ensures Verdict(f, p, page) != Accepted ==>
              Upserted(f, p, page, mark) == f && ReadObserved(f, p, page, mark) == (f, None)
  {
    hide Truthy;
  }

  // --- the record -----------------------------------------------------------------

  /** The price moves: both are known, not zero and different, and the offer is of the same type. */
  predicate PriceMoves(car: Car, merged: Details) {
    && car.price.Some? && AuthoritativePrice(merged).Some?
    && car.price.value != 0 && AuthoritativePrice(merged).value != 0
    && AuthoritativePrice(merged) != car.price
    && Offer(merged) == Offer(car.details)
  }

  /** The document is another one than the stored, and describes the car differently. */
  predicate Reworded(car: Car, merged: Details) {
    Fingerprint(merged) != Fingerprint(car.details) && MaterialChanges(car.details, merged) != []
  }

  lemma AnnouncedIs(f: CarFile, car: Car, merged: Details)
    requires f.car == Some(car) && car.details != map[]
    ensures var change := AnnouncedChange(f, merged);
            && (change.Moved? <==> PriceMoves(car, merged))
            && (change.Moved? ==>
                  var a, b := car.price.value, AuthoritativePrice(merged).value;
                  change == Moved(b < a, a, b, if b < a then a - b else b - a))
  {
    hide AuthoritativePrice, Offer;
  }

  lemma RevisedIs(f: CarFile, car: Car, merged: Details)
    requires f.car == Some(car) && car.details != map[] && Get(merged, FingerprintField) == Fingerprint(merged)
    ensures Revised(f, merged) <==> Reworded(car, merged)
    ensures Differences(f, merged) == MaterialChanges(car.details, merged)
  {
    hide Fingerprint, MaterialChanges, Get;
  }

  /**
   The status an update leaves on a known car: sold exactly when the page says so; else
   the direction of a price move; else that it was updated, if it came back from sold or
   is described differently under another fingerprint; else the status it had.
   */
  lemma StatusAfterUpdate(f: CarFile, car: Car, p: int, page: Details, mark: bool)
    requires f.car == Some(car) && car.details != map[] && !ShowsAnother(page) && !Unwanted(f, p)
    ensures var merged := Merge(car.details, page);
            var sold := Truthy(Get(merged, SoldFlag));
            var after := Upserted(f, p, page, mark).car;
            && after.Some?
            && (after.value.status == Sold <==> sold)
            && (!sold && PriceMoves(car, merged) ==>
                  after.value.status == if AuthoritativePrice(merged).value < car.price.value then PriceDrop else PriceIncrease)
            && (!sold && !PriceMoves(car, merged) ==>
                  after.value.status == if car.status == Sold || Reworded(car, merged) then Updated else car.status)
  {
    var merged := Merge(car.details, page);
    ReadIsRefusedExactly(f, p, page, mark);
    MergedDocument(car.details, page);
    AnnouncedIs(f, car, merged);
    RevisedIs(f, car, merged);
    hide Merge, Verdict, AnnouncedChange, Revised, Differences, Truthy, Fingerprint, MaterialChanges, AuthoritativePrice,
      StatusEvents, DetailEvents, RelistEvents, NewPricePoints, NewSnapshots, PriceMoves, Reworded, Offer;
    assert merged == Merge(StoredDetails(f), page);
  }

  /** What an update leaves of the record: the merged document, the price it read or else the old one. */
  lemma RecordAfterUpdate(f: CarFile, p: int, page: Details, mark: bool)
    requires !ShowsAnother(page) && !Unwanted(f, p)
    ensures var merged := Merge(StoredDetails(f), page);
            var price := AuthoritativePrice(merged);
            var g := Upserted(f, p, page, mark);
            && g.car.Some? && g.car.value.details == merged && g.car.value.fingerprint == Fingerprint(merged)
            && (price.Some? ==> g.car.value.price == price)
            && (price.None? ==> g.car.value.price == if f.car.Some? then f.car.value.price else None)
            && !g.car.value.excluded
            && g.history == f.history + (if price.Some? && price.value != 0 && (f.car.None? || f.car.value.price != price)
                                         then [PricePoint(price.value, Offer(merged))] else [])
  {
    var merged := Merge(StoredDetails(f), page);
    ReadIsRefusedExactly(f, p, page, mark);
    MergedDocument(StoredDetails(f), page);
    hide Merge, Verdict, Truthy, Fingerprint, AuthoritativePrice, StatusAfter, StatusEvents, DetailEvents, RelistEvents,
      NewSnapshots, Offer;
  }

  /** An update touches only the link of its project: found again if it says so, and what was observed stays for now. */
  lemma LinksAfterUpdate(f: CarFile, p: int, page: Details, mark: bool)
    requires !ShowsAnother(page) && !Unwanted(f, p) && (f.car.None? ==> f.links == map[])
    ensures var g := Upserted(f, p, page, mark);
            && g.links.Keys == f.links.Keys + {p}
            && (forall q | q in f.links && q != p :: g.links[q] == f.links[q])
            && g.links[p].tracking
            && g.links[p].observed == (if p in f.links then f.links[p].observed else None)
            && (mark || p !in f.links ==> g.links[p].searchStatus == Found && g.links[p].missing == 0)
            && (!mark && p in f.links ==> g.links[p] == f.links[p])
  {
    ReadIsRefusedExactly(f, p, page, mark);
    hide Merge, Verdict, Truthy, Fingerprint, AuthoritativePrice, StatusAfter, StatusEvents, DetailEvents, RelistEvents,
      NewSnapshots, NewPricePoints, Offer;
  }

  // --- snapshots ------------------------------------------------------------------

  /**
   An update of a known car leaves a snapshot of what it stored exactly when the price
   moved, the car is described differently, or it turned sold; and otherwise none.
   */
  lemma SnapshotsExactly(f: CarFile, car: Car, p: int, page: Details, mark: bool)
    requires f.car == Some(car) && car.details != map[] && !ShowsAnother(page) && !Unwanted(f, p)
    ensures var merged := Merge(car.details, page);
            Upserted(f, p, page, mark).snapshots
            == f.snapshots + if PriceMoves(car, merged) || MaterialChanges(car.details, merged) != []
                                || (Truthy(Get(merged, SoldFlag)) && car.status != Sold) then [merged] else []
  {
    var merged := Merge(car.details, page);
    ReadIsRefusedExactly(f, p, page, mark);
    AnnouncedIs(f, car, merged);
    hide Merge, Verdict, AnnouncedChange, Truthy, Fingerprint, MaterialChanges, AuthoritativePrice, StatusAfter,
      StatusEvents, DetailEvents, RelistEvents, NewPricePoints, PriceMoves, Offer;
    assert merged == Merge(StoredDetails(f), page);
  }

  /** The first read of a listing always leaves one, announces it, and has no status but new or sold. */
  lemma FirstUpdate(f: CarFile, p: int, page: Details, mark: bool)
    requires f.car.None? && !ShowsAnother(page)
    ensures var merged := Merge(map[], page);
            var g := Upserted(f, p, page, mark);
            var sold := Truthy(Get(merged, SoldFlag));
            && g.snapshots == f.snapshots + [merged]
            && g.car.Some? && g.car.value.status == (if sold then Sold else New)
            && (p !in f.links || f.links[p].searchStatus != NotFoundInSearch ==>
                  g.events == f.events + [NewCar(merged)] + if sold then [SoldPageSeen] else [])
  {
    var merged := Merge(map[], page);
    ReadIsRefusedExactly(f, p, page, mark);
    NothingKnown(f, merged);
    hide Merge, Verdict, Truthy, Fingerprint, AuthoritativePrice, StatusAfter, StatusEvents, DetailEvents,
      NewPricePoints, Offer;
    assert merged == Merge(StoredDetails(f), page);
    assert !Unwanted(f, p);
  }

  lemma NothingKnown(f: CarFile, merged: Details)
    requires f.car.None?
    ensures StatusAfter(f, merged) == if Truthy(Get(merged, SoldFlag)) then Sold else New
    ensures StatusEvents(f, merged) == if Truthy(Get(merged, SoldFlag)) then [SoldPageSeen] else []
    ensures DetailEvents(f, merged) == []
  {
    hide AuthoritativePrice;
  }

  // --- events ---------------------------------------------------------------------

  /** The accident texts of the document say something else. */
  predicate AccidentDiffers(car: Car, merged: Details) {
    AccidentSignature(Get(merged, Accident)) != AccidentSignature(Get(car.details, Accident))
  }

  /** What an update of a known car has to announce. */
  predicate Announces(f: CarFile, car: Car, p: int, merged: Details, mark: bool, e: Event) {
    var sold := Truthy(Get(merged, SoldFlag));
    match e
    case SoldPageSeen => sold && car.status != Sold
    case PriceMoved(kind, a, b, difference) =>
      && !sold && PriceMoves(car, merged) && car.price == Some(a) && AuthoritativePrice(merged) == Some(b)
      && (if b < a then kind == PriceDrop && difference == a - b else kind == PriceIncrease && difference == b - a)
    case AvailableAgain => !sold && !PriceMoves(car, merged) && car.status == Sold
    case MaterialUpdated(changes) =>
      && !sold && !PriceMoves(car, merged) && car.status != Sold && Reworded(car, merged)
      && changes == MaterialChanges(car.details, merged)
    case MileageChanged(before, after) =>
      && before == Get(car.details, MileageKm) && after == Get(merged, MileageKm)
      && Truthy(before) && Truthy(after) && before != after
    case AccidentInfoChanged(accident) =>
      Truthy(Get(car.details, Accident)) && AccidentDiffers(car, merged) && accident == Get(merged, Accident)
    case RelistedIn(q) => q == p && mark && p in f.links && f.links[p].searchStatus == NotFoundInSearch
    case _ => false
  }

  lemma StatusEventIs(f: CarFile, car: Car, merged: Details)
    requires f.car == Some(car) && car.details != map[] && Get(merged, FingerprintField) == Fingerprint(merged)
    requires PriceMoves(car, merged) ==> car.price.Some? && AuthoritativePrice(merged).Some?
    ensures StatusEvents(f, merged)
            == if Truthy(Get(merged, SoldFlag)) then (if car.status != Sold then [SoldPageSeen] else [])
               else if PriceMoves(car, merged) then
                 var a, b := car.price.value, AuthoritativePrice(merged).value;
                 [if b < a then PriceMoved(PriceDrop, a, b, a - b) else PriceMoved(PriceIncrease, a, b, b - a)]
               else if car.status == Sold then [AvailableAgain]
               else if Reworded(car, merged) then [MaterialUpdated(MaterialChanges(car.details, merged))]
               else []
  {
    AnnouncedIs(f, car, merged);
    RevisedIs(f, car, merged);
    hide AnnouncedChange, Revised, Differences, Truthy, Fingerprint, MaterialChanges, AuthoritativePrice, PriceMoves,
      Reworded, Get, AccidentDiffers;
  }

  lemma StatusEventsAre(f: CarFile, car: Car, p: int, merged: Details, mark: bool, e: Event)
    requires f.car == Some(car) && car.details != map[] && Get(merged, FingerprintField) == Fingerprint(merged)
    ensures |StatusEvents(f, merged)| <= 1
    ensures e in StatusEvents(f, merged) <==>
      (e.SoldPageSeen? || e.PriceMoved? || e.AvailableAgain? || e.MaterialUpdated?) && Announces(f, car, p, merged, mark, e)
  {
    if PriceMoves(car, merged) {
      PriceMovesNeeds(car, merged);
    }
    StatusEventIs(f, car, merged);
    hide StatusEvents, Truthy, Fingerprint, MaterialChanges, AuthoritativePrice, PriceMoves, Reworded, Get, AccidentDiffers;
  }

  lemma PriceMovesNeeds(car: Car, merged: Details)
    requires PriceMoves(car, merged)
    ensures car.price.Some? && AuthoritativePrice(merged).Some?
  {
  }

  lemma DetailEventsAre(f: CarFile, car: Car, p: int, merged: Details, mark: bool, e: Event)
    requires f.car == Some(car)
    ensures forall i, j | 0 <= i < j < |DetailEvents(f, merged)| :: DetailEvents(f, merged)[i] != DetailEvents(f, merged)[j]
    ensures e in DetailEvents(f, merged) <==>
      (e.MileageChanged? || e.AccidentInfoChanged?) && Announces(f, car, p, merged, mark, e)
  {
    hide Truthy, Fingerprint, MaterialChanges, AuthoritativePrice, PriceMoves, Reworded, Get, AccidentSignature;
  }

  lemma RelistEventsAre(f: CarFile, car: Car, p: int, merged: Details, mark: bool, e: Event)
    ensures |RelistEvents(f, p, mark)| <= 1
    ensures e in RelistEvents(f, p, mark) <==> e.RelistedIn? && Announces(f, car, p, merged, mark, e)
  {
    hide Truthy, Fingerprint, MaterialChanges, AuthoritativePrice, PriceMoves, Reworded, Get, AccidentDiffers;
  }

  /** An update of a known car adds to the log exactly what it has to announce, each once. */
  lemma EventsOfUpdate(f: CarFile, car: Car, p: int, page: Details, mark: bool, e: Event)
    requires f.car == Some(car) && car.details != map[] && !ShowsAnother(page) && !Unwanted(f, p)
    ensures var written := Upserted(f, p, page, mark).events;
            && f.events <= written
            && (e in written[|f.events|..] <==> Announces(f, car, p, Merge(car.details, page), mark, e))
            && forall i, j | |f.events| <= i < j < |written| :: written[i] != written[j]
  {
    hide Merge, Upserted, StatusEvents, DetailEvents, RelistEvents, Announces, Fingerprint, Get, ShowsAnother, Unwanted;
    var merged := Merge(car.details, page);
    var written := Upserted(f, p, page, mark).events;
    UpdateLog(f, car, p, page, mark);
    MergedDocument(car.details, page);
    forall x: Event
      ensures x in StatusEvents(f, merged) <==>
        (x.SoldPageSeen? || x.PriceMoved? || x.AvailableAgain? || x.MaterialUpdated?) && Announces(f, car, p, merged, mark, x)
      ensures x in DetailEvents(f, merged) <==>
        (x.MileageChanged? || x.AccidentInfoChanged?) && Announces(f, car, p, merged, mark, x)
      ensures x in RelistEvents(f, p, mark) <==> x.RelistedIn? && Announces(f, car, p, merged, mark, x)
    {
      StatusEventsAre(f, car, p, merged, mark, x);
      DetailEventsAre(f, car, p, merged, mark, x);
      RelistEventsAre(f, car, p, merged, mark, x);
    }
    StatusEventsAre(f, car, p, merged, mark, e);
    DetailEventsAre(f, car, p, merged, mark, e);
    RelistEventsAre(f, car, p, merged, mark, e);
    NothingElse(f, car, p, merged, mark, e);
    ThreeParts(StatusEvents(f, merged), DetailEvents(f, merged), RelistEvents(f, p, mark));
    assert written[|f.events|..] == StatusEvents(f, merged) + DetailEvents(f, merged) + RelistEvents(f, p, mark);
  }

  lemma NothingElse(f: CarFile, car: Car, p: int, merged: Details, mark: bool, e: Event)
    ensures Announces(f, car, p, merged, mark, e) ==>
      e.SoldPageSeen? || e.PriceMoved? || e.AvailableAgain? || e.MaterialUpdated? || e.MileageChanged?
      || e.AccidentInfoChanged? || e.RelistedIn?
  {
    hide Truthy, Fingerprint, MaterialChanges, AuthoritativePrice, PriceMoves, Reworded, Get, AccidentDiffers;
  }

  lemma ThreeParts(a: seq<Event>, b: seq<Event>, c: seq<Event>)
    requires |a| <= 1 && |c| <= 1 && (forall i, j | 0 <= i < j < |b| :: b[i] != b[j])
    requires forall x | x in a :: x !in b && x !in c
    requires forall x | x in b :: x !in c
    ensures var all := a + b + c; forall i, j | 0 <= i < j < |all| :: all[i] != all[j]
  {
    var all := a + b + c;
    forall i, j | 0 <= i < j < |all| ensures all[i] != all[j] {
      if i < |a| {
        assert all[i] in a;
      } else if i < |a| + |b| {
        assert all[i] in b;
      }
      if |a| <= j < |a| + |b| {
        assert all[j] in b;
      } else if |a| + |b| <= j {
        assert all[j] in c;
      }
    }
  }

  lemma UpdateLog(f: CarFile, car: Car, p: int, page: Details, mark: bool)
    requires f.car == Some(car) && !ShowsAnother(page) && !Unwanted(f, p)
    ensures var merged := Merge(car.details, page);
            Upserted(f, p, page, mark).events
            == f.events + (StatusEvents(f, merged) + DetailEvents(f, merged) + RelistEvents(f, p, mark))
  {
    ReadIsRefusedExactly(f, p, page, mark);
    hide Merge, Verdict, Truthy, Fingerprint, MaterialChanges, AuthoritativePrice, StatusAfter, StatusEvents, DetailEvents,
      RelistEvents, NewPricePoints, NewSnapshots, Offer;
    assert Merge(car.details, page) == Merge(StoredDetails(f), page);
  }

  // --- probes ---------------------------------------------------------------------

  /** What a probe says about the listing itself. */
  const PROBED_IDENTITY: set<Field> := {CanonicalCarId, SourceCarId, DisplayedCarId, Url, CheckedAt}

  /** What a probe says about the offer, besides its price and type. */
  const PROBED_OFFER: set<Field> := {
    RentalMonthlyPaymentKrw, RentalTermMonths, RentalAcquisitionPriceKrw, VehiclePriceKrw, LeaseMonthlyPaymentKrw,
    LeaseTermMonths}

  predicate Copies(probe: Details, k: Field) {
    k in ProbeDetail(probe) && ProbeDetail(probe)[k] == Get(probe, k)
  }

  lemma ProbeCopiesIdentity(probe: Details)
    ensures Copies(probe, CanonicalCarId) && Copies(probe, SourceCarId) && Copies(probe, DisplayedCarId)
    ensures Copies(probe, Url) && Copies(probe, CheckedAt)
  {
    hide Truthy, Get;
    assert CanonicalText(probe) == Get(probe, CanonicalCarId);
  }

  lemma ProbeCopiesOffer(probe: Details)
    ensures Copies(probe, RentalMonthlyPaymentKrw) && Copies(probe, RentalTermMonths)
    ensures Copies(probe, RentalAcquisitionPriceKrw) && Copies(probe, VehiclePriceKrw)
    ensures Copies(probe, LeaseMonthlyPaymentKrw) && Copies(probe, LeaseTermMonths)
    ensures PriceKrw in ProbeDetail(probe)
    ensures Get(ProbeDetail(probe), PriceKrw) == if Truthy(Get(probe, SoldFlag)) then Null else Get(probe, PriceKrw)
  {
    hide Truthy;
  }

  lemma ProbeSaysNoMore(probe: Details, k: Field)
    requires k in ProbeDetail(probe)
    ensures k in PROBED_IDENTITY || k in PROBED_OFFER
            || k in {PriceKrw, PriceSource, OfferType, ParseQuality, SoldFlag, Unavailable}
  {
    hide Truthy, Get;
  }

  lemma ProbeAt(probe: Details, k: Field)
    ensures k in PROBED_IDENTITY + PROBED_OFFER + {PriceKrw} ==>
              k in ProbeDetail(probe)
              && Get(ProbeDetail(probe), k) == if k == PriceKrw && Truthy(Get(probe, SoldFlag)) then Null else Get(probe, k)
    ensures k !in PROBED_IDENTITY + PROBED_OFFER + {PriceKrw, PriceSource, OfferType, ParseQuality, SoldFlag, Unavailable} ==>
              k !in ProbeDetail(probe)
  {
    hide Truthy, ProbeDetail;
    ProbeCopiesIdentity(probe);
    ProbeCopiesOffer(probe);
    if k in ProbeDetail(probe) {
      ProbeSaysNoMore(probe, k);
    }
  }

  lemma ProbeFlags(probe: Details)
    ensures var d, sold := ProbeDetail(probe), Truthy(Get(probe, SoldFlag));
            && SoldFlag in d && d[SoldFlag] == Bool(sold) && Truthy(d[SoldFlag]) == sold
            && Unavailable in d && d[Unavailable] == Bool(false)
            && ParseQuality in d && d[ParseQuality] == Str(if sold then SoldPage else PriceStatus)
            && OfferType in d && d[OfferType] == (if OfferType in probe then probe[OfferType] else Str(Sale))
            && PriceSource in d
            && d[PriceSource] == if sold then Null else if PriceSource in probe then probe[PriceSource] else Str(DetailPrimary)
  {
  }

  /**
   A probe of a car for sale writes price, offer, identity and times of the listing into
   the document, and leaves every other plain field as it was.
   */
  lemma LiveProbeAt(known: Details, probe: Details, k: Field)
    requires !Truthy(Get(probe, SoldFlag))
    requires k !in {Options, Condition, ConditionSummary, FingerprintField}
    ensures Get(Merge(known, ProbeDetail(probe)), k)
            == if k in PROBED_IDENTITY + PROBED_OFFER + {PriceKrw} then Get(probe, k)
               else if k == PriceSource then (if PriceSource in probe then probe[PriceSource] else Str(DetailPrimary))
               else if k == OfferType then (if OfferType in probe then probe[OfferType] else Str(Sale))
               else if k == SoldFlag || k == Unavailable then Bool(false)
               else if k == ParseQuality then Str(PriceStatus)
               else Get(known, k)
  {
    hide Merge, ProbeDetail, STABLE_FIELDS, UNKNOWN, Truthy;
    ProbeAt(probe, k);
    ProbeFlags(probe);
    ProbedIsNotStable(k);
    LivePageAt(known, ProbeDetail(probe), k);
  }

  lemma ProbedIsNotStable(k: Field)
    ensures k in STABLE_FIELDS ==>
              k !in PROBED_IDENTITY + PROBED_OFFER + {PriceKrw, PriceSource, OfferType, ParseQuality, SoldFlag, Unavailable}
  {
  }

  /** A probe of a sold car only marks the known document as that of a sold listing: price and offer stay as they were. */
  lemma SoldProbeAt(known: Details, probe: Details, k: Field)
    requires Truthy(Get(probe, SoldFlag)) && known != map[] && k != FingerprintField
    ensures Get(Merge(known, ProbeDetail(probe)), k)
            == if k in PROBED_IDENTITY then Get(probe, k)
               else match k
                    case SoldFlag => Bool(true)
                    case Unavailable => Bool(false)
                    case ParseQuality => Str(SoldPage)
                    case _ => Get(known, k)
  {
    hide Merge, ProbeDetail, SOLD_PAGE_FIELDS, Truthy;
    ProbeAt(probe, k);
    ProbeFlags(probe);
    SoldProbeFields(k);
    SoldPageAt(known, ProbeDetail(probe), k);
  }

  lemma SoldProbeFields(k: Field)
    ensures k in PROBED_IDENTITY ==> k in SOLD_PAGE_FIELDS && k !in {SoldFlag, Unavailable, ParseQuality}
    ensures k in PROBED_OFFER + {PriceKrw, PriceSource, OfferType} ==> k !in SOLD_PAGE_FIELDS
  {
  }

  // --- sightings ------------------------------------------------------------------

  /**
   A known car that is found without a read has its link set to found, with the counter
   at zero, and a relisting logged if it had been lost. A car nobody wants stays as it is.
   */
  lemma SightingExactly(f: CarFile, p: int)
    requires f.car.Some?
    ensures var g := FoundWithoutDetail(f, p);
            && g.car == f.car && g.snapshots == f.snapshots && g.history == f.history
            && g.links.Keys == f.links.Keys + {p}
            && (forall q | q in f.links && q != p :: g.links[q] == f.links[q])
            && (Unwanted(f, p) && p in f.links ==> g == f)
            && (!Unwanted(f, p) ==>
                  && g.links[p] == Link(Found, 0, true, if p in f.links then f.links[p].observed else None)
                  && g.events == f.events + if p in f.links && f.links[p].searchStatus == NotFoundInSearch
                                            then [RelistedIn(p)] else [])
  {
  }

  /** A listed row is looked at only if its car is known, wanted and not sold; else nothing is changed or told. */
  lemma ListedIsPassedOverExactly(f: CarFile, p: int)
    ensures var passedOver := f.car.None? || Unwanted(f, p) || f.car.value.status == Sold;
            && (passedOver ==> ListedObserved(f, p) == (f, None))
            && (ListedCounts(f, p) <==> !passedOver)
  {
  }

  // --- the end of a search --------------------------------------------------------

  /** What the log of a file gets when a search of the project ends. */
  function LoggedAtEnd(car: Car, link: Link, p: int, found: bool, sold: bool): Option<Event> {
    if sold then (if car.status == Sold then None else Some(SoldInProject(p)))
    else if found then
      match link.searchStatus
      case Found => None
      case NotFoundInSearch => Some(RelistedIn(p))
      case RemovedFromProject => Some(SearchStatusMoved(p, Found, 0))
    else if link.searchStatus == NotFoundInSearch then None
    else Some(SearchStatusMoved(p, NotFoundInSearch, link.missing + 1))
  }

  /**
   The end of a complete search touches a wanted car of the project, and no other. Being
   found resets its link, and being missed or confirmed sold counts one miss; only a
   confirmation changes the record. What is logged is reported, in the same words.
   */
  lemma SearchEndsExactly(f: CarFile, p: int, found: bool, sold: bool)
    ensures var g, told := Absent(f, p, found, sold), AbsenceReport(f, p, found, sold);
            if f.car.None? || p !in f.links || Unwanted(f, p) then g == f && told == None
            else
              var logged := LoggedAtEnd(f.car.value, f.links[p], p, found, sold);
              && g.car == Some(if sold then f.car.value.(status := Sold) else f.car.value)
              && g.links == f.links[p := if found && !sold then f.links[p].(searchStatus := Found, missing := 0)
                                         else f.links[p].(searchStatus := NotFoundInSearch, missing := f.links[p].missing + 1)]
              && g.snapshots == f.snapshots && g.history == f.history
              && g.events == f.events + (if logged.Some? then [logged.value] else [])
              && told == (match logged
                          case None => None
                          case Some(SoldInProject(_)) => Some(AbsenceKind(Sold))
                          case Some(RelistedIn(_)) => Some(AbsenceKind(Relisted))
                          case Some(SearchStatusMoved(_, status, _)) => Some(AbsenceStatus(status))
                          case _ => None)
  {
  }

  /** A search that did not succeed moves nothing; one that did resets or counts, and says when a lost listing is back. */
  lemma MissingIsCountedExactly(success: bool, found: bool, count: nat, status: SearchStatus)
    ensures var (counted, after, relisted) := ApplyMissing(success, found, count, status);
            && (!success ==> counted == count && after == status)
            && (success && found ==> counted == 0 && after == Found)
            && (success && !found ==> counted == count + 1 && after == NotFoundInSearch)
            && (relisted <==> success && found && status == NotFoundInSearch)
  {
  }

  /** The reports of a completed search come in the order of its rows, one for each listing that has one. */
  lemma {:induction false} ReportsFollowRows(
    files: map<string, CarFile>, p: int, rows: seq<string>, foundIds: set<string>, sold: set<string>, id: string, told: Report)
    requires forall x | x in rows :: x in files
    ensures var all := AbsenceReports(files, p, rows, foundIds, sold);
            && ((id, told) in all <==>
                  id in rows && AbsenceReport(files[id], p, id in foundIds, id in sold) == Some(told))
            && |all| <= |rows|
            && forall i, j | 0 <= i < j < |all| ::
                 exists k, l :: 0 <= k < l < |rows| && rows[k] == all[i].0 && rows[l] == all[j].0
  {
    hide AbsenceReport;
    if rows != [] {
      var last := |rows| - 1;
      ReportsFollowRows(files, p, rows[..last], foundIds, sold, id, told);
      var front := AbsenceReports(files, p, rows[..last], foundIds, sold);
      var all := AbsenceReports(files, p, rows, foundIds, sold);
      assert rows == rows[..last] + [rows[last]];
      forall i, j | 0 <= i < j < |all|
        ensures exists k, l :: 0 <= k < l < |rows| && rows[k] == all[i].0 && rows[l] == all[j].0
      {
        if j < |front| {
          var k, l :| 0 <= k < l < last && rows[..last][k] == front[i].0 && rows[..last][l] == front[j].0;
          assert rows[k] == all[i].0 && rows[l] == all[j].0;
        } else {
          assert front[i] in front;
          EveryReportHasARow(files, p, rows[..last], foundIds, sold, front[i].0, front[i].1);
          var k :| 0 <= k < last && rows[..last][k] == front[i].0;
          assert rows[k] == all[i].0 && rows[last] == all[j].0;
        }
      }
    }
  }

  lemma {:induction false} EveryReportHasARow(
    files: map<string, CarFile>, p: int, rows: seq<string>, foundIds: set<string>, sold: set<string>, id: string, told: Report)
    requires forall x | x in rows :: x in files
    requires (id, told) in AbsenceReports(files, p, rows, foundIds, sold)
    ensures id in rows
  {
    hide AbsenceReport;
    if rows != [] && id != rows[|rows| - 1] {
      EveryReportHasARow(files, p, rows[..|rows| - 1], foundIds, sold, id, told);
    }
  }
}
