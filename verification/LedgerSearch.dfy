/**
 Search membership of one shared listing over any run: the missing counter, the
 relisted events, and what misses and probes can never do
 (backend/app/services.py, backend/app/parser.py).
 */
module LedgerSearch {
  import opened Listing
  import opened Merging
  import opened Ledger
  import opened LedgerRuns
  import opened Wrappers

  // --- what a step says about one project's search --------------------------------

  /** The step finds the listing for the project. */
  predicate Finds(f: CarFile, s: Step, p: int) {
    match s
    case Read(q, page, mark) => q == p && mark && Verdict(f, p, page) == Accepted
    case Listed(q) => q == p && ListedCounts(f, p)
    case ReadFailed(q) => q == p && Watched(f, p)
    case Searched(q, found, sold) => q == p && Watched(f, p) && found && !sold
    case Removed(_) => false
  }

  /** The step is a completed full search of the project that missed the listing. */
  predicate Misses(f: CarFile, s: Step, p: int) {
    s.Searched? && s.project == p && Watched(f, p) && (s.confirmedSold || !s.found)
  }

  /** Completed searches of `p` that missed the listing since it was last found. */
  function MissedSinceFound(steps: seq<Step>, p: int): nat {
    if steps == [] then 0
    else
      var prefix, last := steps[..|steps| - 1], steps[|steps| - 1];
      var f := Run(START, prefix).file;
      if Finds(f, last, p) then 0
      else MissedSinceFound(prefix, p) + (if Misses(f, last, p) then 1 else 0)
  }

  /** Steps of the run in which the listing went from missing to found in `p`. */
  function Returns(steps: seq<Step>, p: int): nat {
    if steps == [] then 0
    else
      var prefix := steps[..|steps| - 1];
      var before, after := LinkOf(Run(START, prefix).file, p), LinkOf(Run(START, steps).file, p);
      Returns(prefix, p) + (if before.searchStatus == NotFoundInSearch && after.searchStatus == Found then 1 else 0)
  }

  function RelistedCount(events: seq<Event>, p: int): nat {
    if events == [] then 0
    else RelistedCount(events[..|events| - 1], p) + (if events[|events| - 1] == RelistedIn(p) then 1 else 0)
  }

  lemma {:induction false} RelistedCountOfSum(a: seq<Event>, b: seq<Event>, p: int)
    ensures RelistedCount(a + b, p) == RelistedCount(a, p) + RelistedCount(b, p)
  {
    if b == [] {
      assert a + b == a;
    } else {
      assert (a + b)[..|a + b| - 1] == a + b[..|b| - 1];
      RelistedCountOfSum(a, b[..|b| - 1], p);
    }
  }

  lemma {:induction false} NoRelisted(events: seq<Event>, p: int)
    requires RelistedIn(p) !in events
    ensures RelistedCount(events, p) == 0
  {
    if events != [] {
      NoRelisted(events[..|events| - 1], p);
    }
  }

  lemma OneRelisted(q: int, p: int)
    ensures RelistedCount([RelistedIn(q)], p) == if q == p then 1 else 0
  {
    assert [RelistedIn(q)][..0] == [];
  }

  lemma CountRelistEvents(f: CarFile, q: int, mark: bool, p: int)
    ensures RelistedCount(RelistEvents(f, q, mark), p)
      == if q == p && mark && LinkOf(f, p).searchStatus == NotFoundInSearch then 1 else 0
  {
    if RelistEvents(f, q, mark) != [] {
      OneRelisted(q, p);
    }
  }

  // --- one step -------------------------------------------------------------------

  /** The search half of a step, for one project. */
  ghost predicate SearchStep(before: Link, after: Link, finds: bool, misses: bool, relisted: int) {
    && (after.tracking ==> before.tracking)
    && (after.tracking && finds ==> after.searchStatus == Found && after.missing == 0)
    && (after.tracking && misses ==> after.searchStatus == NotFoundInSearch && after.missing == before.missing + 1)
    && (after.tracking && !finds && !misses ==>
          after.searchStatus == before.searchStatus && after.missing == before.missing)
    && !(finds && misses)
    && relisted == (if before.searchStatus == NotFoundInSearch && after.searchStatus == Found then 1 else 0)
  }

  lemma StoredSearch(f: CarFile, q: int, merged: Details, mark: bool, p: int)
    ensures var g := Stored(f, q, merged, mark);
            && LinkOf(g, p) == (if q == p then MarkFound(LinkOf(f, p), mark) else LinkOf(f, p))
            && RelistedCount(g.events, p) == RelistedCount(f.events, p) + RelistedCount(RelistEvents(f, q, mark), p)
  {
    var created: seq<Event> := if f.car.None? then [NewCar(merged)] else [];
    StatusEventsRelistNothing(f, merged, p);
    hide StatusEvents, DetailEvents, StatusAfter, NewSnapshots, NewPricePoints, AuthoritativePrice, RelistEvents,
      RelistedCount;
    RelistedAtTheEnd(f.events, created, StatusEvents(f, merged), DetailEvents(f, merged), RelistEvents(f, q, mark), p);
  }

  lemma RelistedAtTheEnd(a: seq<Event>, b: seq<Event>, c: seq<Event>, d: seq<Event>, e: seq<Event>, p: int)
    requires RelistedIn(p) !in b && RelistedIn(p) !in c && RelistedIn(p) !in d
    ensures RelistedCount(a + b + c + d + e, p) == RelistedCount(a, p) + RelistedCount(e, p)
  {
    NoRelisted(b, p);
    NoRelisted(c, p);
    NoRelisted(d, p);
    RelistedCountOfSum(a, b, p);
    RelistedCountOfSum(a + b, c, p);
    RelistedCountOfSum(a + b + c, d, p);
    RelistedCountOfSum(a + b + c + d, e, p);
  }

  lemma StatusEventsRelistNothing(f: CarFile, merged: Details, p: int)
    ensures RelistedIn(p) !in StatusEvents(f, merged) && RelistedIn(p) !in DetailEvents(f, merged)
  {
    hide Truthy, AccidentSignature, AnnouncedChange, Revised, Differences;
  }

  lemma AbsentSearch(f: CarFile, q: int, found: bool, sold: bool, p: int)
    ensures var g := Absent(f, q, found, sold);
            SearchStep(LinkOf(f, p), LinkOf(g, p), Finds(f, Searched(q, found, sold), p),
                       Misses(f, Searched(q, found, sold), p),
                       RelistedCount(g.events, p) - RelistedCount(f.events, p))
  {
    hide RelistedCount;
    if Watched(f, q) {
      var g := Absent(f, q, found, sold);
      var extra := g.events[|f.events|..];
      assert g.events == f.events + extra;
      RelistedCountOfSum(f.events, extra, p);
      if extra == [RelistedIn(q)] {
        OneRelisted(q, p);
      } else {
        NoRelisted(extra, p);
      }
    }
  }

  lemma ReadSearch(w: World, q: int, page: Details, mark: bool, p: int)
    requires Verdict(w.file, q, page) == Accepted
    ensures var g := Next(w, Read(q, page, mark)).file;
            SearchStep(LinkOf(w.file, p), LinkOf(g, p), Finds(w.file, Read(q, page, mark), p), false,
                       RelistedCount(g.events, p) - RelistedCount(w.file.events, p))
  {
    var stored := Stored(w.file, q, Merge(StoredDetails(w.file), page), mark);
    StoredSearch(w.file, q, Merge(StoredDetails(w.file), page), mark, p);
    CountRelistEvents(w.file, q, mark, p);
    hide Merge, RelistEvents, RelistedCount, ChangeReport, PreviousState, Fingerprint;
    RememberedSearch(w, q, page, mark, p);
    hide Stored, Next;
  }

  lemma RememberedSearch(w: World, q: int, page: Details, mark: bool, p: int)
    requires Verdict(w.file, q, page) == Accepted
    ensures var g := Next(w, Read(q, page, mark)).file;
            var stored := Stored(w.file, q, Merge(StoredDetails(w.file), page), mark);
            && g.events == stored.events
            && LinkOf(g, p).(observed := None) == LinkOf(stored, p).(observed := None)
  {
    hide Merge, Fingerprint, ChangeReport, PreviousState, StatusAfter, StatusEvents, DetailEvents, RelistEvents,
      NewSnapshots, NewPricePoints, AuthoritativePrice;
  }

  lemma FoundSearch(f: CarFile, q: int, p: int)
    requires f.car.Some?
    ensures var g := FoundWithoutDetail(f, q);
            SearchStep(LinkOf(f, p), LinkOf(g, p), q == p && LinkOf(f, p).tracking && !f.car.value.excluded, false,
                       RelistedCount(g.events, p) - RelistedCount(f.events, p))
  {
    CountRelistEvents(f, q, true, p);
    RelistedCountOfSum(f.events, RelistEvents(f, q, true), p);
    hide RelistEvents, RelistedCount;
  }

  lemma StepMovesSearch(w: World, s: Step, p: int)
    ensures SearchStep(LinkOf(w.file, p), LinkOf(Next(w, s).file, p), Finds(w.file, s, p), Misses(w.file, s, p),
                       RelistedCount(Next(w, s).file.events, p) - RelistedCount(w.file.events, p))
  {
    var f := w.file;
    hide Stored, Merge, RelistEvents, RelistedCount, ChangeReport, PreviousState, Fingerprint;
    match s {
      case Read(q, page, mark) =>
        if Verdict(f, q, page) == Accepted {
          ReadSearch(w, q, page, mark, p);
        }
        hide Next;
      case Listed(q) =>
        if ListedCounts(f, q) {
          FoundSearch(f, q, p);
        }
      case ReadFailed(q) =>
        if f.car.Some? {
          FoundSearch(f, q, p);
        }
      case Searched(q, found, sold) => AbsentSearch(f, q, found, sold, p);
      case Removed(q) => RemovedSearch(f, q, p);
    }
  }

  lemma RemovedSearch(f: CarFile, q: int, p: int)
    ensures SearchStep(LinkOf(f, p), LinkOf(Untracked(f, q), p), false, false,
                       RelistedCount(Untracked(f, q).events, p) - RelistedCount(f.events, p))
  {
    RelistedCountOfSum(f.events, [RemovedFrom(q)], p);
    NoRelisted([RemovedFrom(q)], p);
    hide RelistedCount;
  }

  // --- any run --------------------------------------------------------------------

  /**
   After any run, for every project that still tracks the listing: it is marked
   missing exactly when the counter is positive, and the counter is the number of
   completed searches that missed it since it was last found.
   */
  lemma {:induction false} CounterCountsMisses(steps: seq<Step>, p: int)
    ensures var link := LinkOf(Run(START, steps).file, p);
            link.tracking ==>
              && (link.searchStatus == NotFoundInSearch <==> link.missing > 0)
              && link.searchStatus != RemovedFromProject
              && link.missing == MissedSinceFound(steps, p)
  {
    hide Next, Finds, Misses, RelistedCount;
    if steps != [] {
      var prefix, last := steps[..|steps| - 1], steps[|steps| - 1];
      CounterCountsMisses(prefix, p);
      StepMovesSearch(Run(START, prefix), last, p);
    }
  }

  /** Over any run, a project hears "relisted" in the event log once for every return, and no more. */
  lemma {:induction false} EveryReturnIsLoggedOnce(steps: seq<Step>, p: int)
    ensures RelistedCount(Run(START, steps).file.events, p) == Returns(steps, p)
  {
    hide Next, Finds, Misses;
    if steps != [] {
      var prefix, last := steps[..|steps| - 1], steps[|steps| - 1];
      EveryReturnIsLoggedOnce(prefix, p);
      StepMovesSearch(Run(START, prefix), last, p);
    }
  }

  /** A page that shows the car for sale, or no page at all. */
  predicate ShowsNoSale(s: Step) {
    match s
    case Read(_, page, _) => SoldFlag in page && !Truthy(page[SoldFlag])
    case Searched(_, _, sold) => !sold
    case _ => true
  }

  lemma LiveReadNotSold(w: World, q: int, page: Details, mark: bool)
    requires Verdict(w.file, q, page) == Accepted && SoldFlag in page && !Truthy(page[SoldFlag])
    ensures StoredStatus(Next(w, Read(q, page, mark)).file) != Sold
  {
    var merged := Merge(StoredDetails(w.file), page);
    LiveAt(StoredDetails(w.file), page, SoldFlag);
    assert Get(merged, SoldFlag) == page[SoldFlag];
    LivePageLeavesNotSold(w.file, merged);
    hide Merge, StatusAfter, StatusEvents, DetailEvents, RelistEvents, NewSnapshots, NewPricePoints,
      AuthoritativePrice, ChangeReport, PreviousState, Fingerprint;
  }

  /** However often searches miss a car, only a sold page makes it sold. */
  lemma {:induction false} MissesNeverSell(steps: seq<Step>)
    requires forall s | s in steps :: ShowsNoSale(s)
    ensures StoredStatus(Run(START, steps).file) != Sold
  {
    if steps != [] {
      var prefix, last := steps[..|steps| - 1], steps[|steps| - 1];
      assert forall s | s in prefix :: s in steps;
      assert ShowsNoSale(last);
      MissesNeverSell(prefix);
      var w := Run(START, prefix);
      if last.Read? && Verdict(w.file, last.project, last.page) == Accepted {
        LiveReadNotSold(w, last.project, last.page, last.markFound);
      }
      hide Stored, Merge, ChangeReport, PreviousState, Fingerprint;
    }
  }

  // --- a probe that confirms what is known ----------------------------------------

  /** The fields a price probe writes that describe the offer. */
  predicate OfferField(f: Field) {
    f.RentalMonthlyPaymentKrw? || f.RentalTermMonths? || f.RentalAcquisitionPriceKrw?
    || f.VehiclePriceKrw? || f.LeaseMonthlyPaymentKrw? || f.LeaseTermMonths?
  }

  /** The probe found a live page with the price and the offer that are already stored. */
  ghost predicate Confirms(f: CarFile, probe: Details) {
    var page := ProbeDetail(probe);
    && !Truthy(Get(probe, SoldFlag))
    && AuthoritativePrice(page) == StoredPrice(f)
    && Offer(page) == Offer(StoredDetails(f))
    && forall k | OfferField(k) :: Get(page, k) == Get(StoredDetails(f), k)
  }

  /** The keys of the document a probe is turned into. */
  predicate ProbeField(f: Field) {
    OfferField(f) || f.OfferType? || f.PriceKrw? || f.PriceSource? || f.CanonicalCarId? || f.SourceCarId?
    || f.DisplayedCarId? || f.Url? || f.CheckedAt? || f.ParseQuality? || f.SoldFlag? || f.Unavailable?
  }

  lemma ProbeWrites(probe: Details)
    ensures forall k :: k in ProbeDetail(probe) <==> ProbeField(k)
  {
    hide Truthy;
  }

  lemma ProbeIsLive(probe: Details)
    requires !Truthy(Get(probe, SoldFlag))
    ensures !Truthy(Get(ProbeDetail(probe), SoldFlag))
  {
    assert Get(ProbeDetail(probe), SoldFlag) == Bool(false);
  }

  /** Fields that neither the probe nor the merge rules for texts can touch. */
  predicate Untouched(k: Field) {
    (Tracked(k) && k != OfferType && k != ConditionSummary) || k == MileageKm || k == Accident
  }

  lemma UntouchedKinds(k: Field)
    requires Untouched(k)
    ensures ProbeField(k) ==> OfferField(k)
    ensures k != Options && k != Condition && k != ConditionSummary && k != FingerprintField
  {
  }

  lemma UnprobedFieldAt(known: Details, page: Details, k: Field)
    requires k in page <==> ProbeField(k)
    requires OfferField(k) ==> Get(page, k) == Get(known, k)
    requires Untouched(k)
    ensures Get(MergeLive(known, page), k) == Get(known, k)
  {
    hide MergeLive, Untouched, ProbeField, OfferField, KeepsStable;
    UntouchedKinds(k);
    LiveAt(known, page, k);
  }

  lemma UnprobedFields(known: Details, page: Details)
    requires forall k :: k in page <==> ProbeField(k)
    requires forall k | OfferField(k) :: Get(page, k) == Get(known, k)
    ensures forall k | Untouched(k) :: Get(MergeLive(known, page), k) == Get(known, k)
  {
    hide MergeLive, Untouched, ProbeField, OfferField, Get;
    forall k | Untouched(k) ensures Get(MergeLive(known, page), k) == Get(known, k) {
      UnprobedFieldAt(known, page, k);
    }
  }

  lemma WrittenFields(known: Details, page: Details)
    requires forall k :: k in page <==> ProbeField(k)
    ensures var merged := MergeLive(known, page);
            && Get(merged, OfferType) == Get(page, OfferType)
            && Get(merged, PriceKrw) == Get(page, PriceKrw)
            && Get(merged, PriceSource) == Get(page, PriceSource)
            && Get(merged, SoldFlag) == Get(page, SoldFlag)
  {
    hide MergeLive;
    WrittenFieldAt(known, page, OfferType);
    WrittenFieldAt(known, page, PriceKrw);
    WrittenFieldAt(known, page, PriceSource);
    WrittenFieldAt(known, page, SoldFlag);
  }

  lemma WrittenFieldAt(known: Details, page: Details, k: Field)
    requires k in page && !Stable(k) && k != Options && k != Condition && k != ConditionSummary && k != FingerprintField
    ensures Get(MergeLive(known, page), k) == Get(page, k)
  {
    hide MergeLive;
    LiveAt(known, page, k);
  }

  lemma ProbedTexts(known: Details, page: Details)
    requires forall k :: k in page <==> ProbeField(k)
    ensures var merged := MergeLive(known, page);
            && Get(merged, ConditionSummary) == Get(known, ConditionSummary)
            && Entries(Get(merged, Options)) == Entries(Get(known, Options))
            && Entries(Get(merged, Condition)) == Entries(Get(known, Condition))
  {
    LiveSummaryAt(known, page);
    LiveOptionsAt(known, page);
    LiveConditionAt(known, page);
    hide MergeLive;
    assert Options !in page && Condition !in page && ConditionSummary !in page;
    assert Entries(Get(page, Options)) == map[] && Entries(Get(page, Condition)) == map[];
  }

  /**
   A price probe that confirms price and offer of a car that is not sold adds no
   history point, no snapshot and no event, except for the return of a listing that
   the probe is also told to mark as found.
   */
  lemma ConfirmingProbeAddsNothing(f: CarFile, p: int, probe: Details, mark: bool, id: Json)
    requires GoodCar(f, id) && f.car.Some? && f.car.value.status != Sold
    requires Confirms(f, probe)
    ensures var g := Stored(f, p, Merge(StoredDetails(f), ProbeDetail(probe)), mark);
            && g.history == f.history && g.snapshots == f.snapshots
            && g.events == f.events + RelistEvents(f, p, mark)
            && StoredPrice(g) == StoredPrice(f) && StoredStatus(g) == StoredStatus(f)
  {
    var known, page := StoredDetails(f), ProbeDetail(probe);
    ProbeWrites(probe);
    ProbeIsLive(probe);
    assert known != map[];
    hide ProbeDetail, GoodCar, Truthy, MaterialChanges, Fingerprint, Entries, ProbeField,
      Tracked, RelistEvents, AccidentSignature, Offer, OfferField, MergeLive;
    var merged := MergeLive(known, page);
    UnprobedFields(known, page);
    WrittenFields(known, page);
    assert Untouched(MileageKm) && Untouched(Accident);
    ProbedTexts(known, page);
    ProbeKeepsListing(known, merged, page);
    assert AuthoritativePrice(merged) == AuthoritativePrice(page);
    hide AuthoritativePrice, Stored;
    NothingToAnnounce(f, merged);
    StoredQuietly(f, p, merged, mark);
  }

  lemma ProbeKeepsListing(known: Details, merged: Details, page: Details)
    requires forall k | Untouched(k) :: Get(merged, k) == Get(known, k)
    requires Get(merged, ConditionSummary) == Get(known, ConditionSummary)
    requires Get(merged, OfferType) == Get(page, OfferType) && Offer(page) == Offer(known)
    requires Entries(Get(merged, Options)) == Entries(Get(known, Options))
    requires Entries(Get(merged, Condition)) == Entries(Get(known, Condition))
    ensures MaterialChanges(known, merged) == []
  {
    NoMaterialChange(known, merged);
    hide MaterialChanges, Tracked, Entries;
  }

  lemma NothingToAnnounce(f: CarFile, merged: Details)
    requires f.car.Some? && f.car.value.status != Sold && StoredDetails(f) != map[]
    requires MaterialChanges(StoredDetails(f), merged) == []
    requires AuthoritativePrice(merged) == StoredPrice(f) && !Truthy(Get(merged, SoldFlag))
    requires Get(merged, MileageKm) == Get(StoredDetails(f), MileageKm)
    requires Get(merged, Accident) == Get(StoredDetails(f), Accident)
    ensures StatusAfter(f, merged) == StoredStatus(f)
    ensures StatusEvents(f, merged) == [] && DetailEvents(f, merged) == []
    ensures NewSnapshots(f, merged) == [] && NewPricePoints(f, merged) == []
  {
    hide MaterialChanges, AuthoritativePrice, Truthy, AccidentSignature, Fingerprint, Offer, Get;
  }

  lemma StoredQuietly(f: CarFile, p: int, merged: Details, mark: bool)
    requires f.car.Some? && AuthoritativePrice(merged) == StoredPrice(f)
    requires StatusAfter(f, merged) == StoredStatus(f)
    requires StatusEvents(f, merged) == [] && DetailEvents(f, merged) == []
    requires NewSnapshots(f, merged) == [] && NewPricePoints(f, merged) == []
    ensures var g := Stored(f, p, merged, mark);
            && g.history == f.history && g.snapshots == f.snapshots
            && g.events == f.events + RelistEvents(f, p, mark)
            && StoredPrice(g) == StoredPrice(f) && StoredStatus(g) == StoredStatus(f)
  {
    hide StatusAfter, StatusEvents, DetailEvents, NewSnapshots, NewPricePoints, AuthoritativePrice, RelistEvents;
  }
}
