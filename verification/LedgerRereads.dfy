/**
 Reading the same offer again. Every read carries new times, scan ids and screenshots,
 other projects scan in between, and probes confirm the price; a project is told about
 the offer once (backend/app/worker.py, backend/app/services.py).
 */
module LedgerRereads {
  import opened Listing
  import opened Merging
  import opened Ledger
  import opened LedgerRuns
  import opened LedgerSearch
  import opened Wrappers

  // --- documents that describe the same offer -------------------------------------

  /** The same offer: equal in everything that is compared, whatever else differs. */
  ghost predicate Like(a: Details, b: Details) {
    && Offer(a) == Offer(b)
    && (forall f | Tracked(f) && f != OfferType :: Get(a, f) == Get(b, f))
    && (forall k :: Get(Entries(Get(a, Options)), k) == Get(Entries(Get(b, Options)), k))
    && (forall k :: ConditionValue(Get(Entries(Get(a, Condition)), k))
                 == ConditionValue(Get(Entries(Get(b, Condition)), k)))
  }

  lemma LikeIsNoChange(a: Details, b: Details)
    requires Like(a, b)
    ensures MaterialChanges(a, b) == []
  {
    hide MaterialChanges, Tracked, Offer;
    NoMaterialChange(a, b);
  }

  /** The fields of a page that say something about the offer. */
  predicate ContentField(f: Field) {
    Tracked(f) || f.PriceKrw? || f.PriceSource? || f.SoldFlag? || f.SourceCarId? || f.CanonicalCarId?
  }

  /**
   Two pages with the same content. They may differ in times, scan ids, screenshots, the
   evidence quoted for a condition and every other field that is not compared.
   */
  ghost predicate SameContent(q: Details, r: Details) {
    && (forall f | ContentField(f) :: (f in q <==> f in r) && Get(q, f) == Get(r, f))
    && (forall k :: (k in Entries(Get(q, Options)) <==> k in Entries(Get(r, Options)))
                    && Get(Entries(Get(q, Options)), k) == Get(Entries(Get(r, Options)), k))
    && (forall k :: (k in Entries(Get(q, Condition)) <==> k in Entries(Get(r, Condition)))
                    && ConditionValue(Get(Entries(Get(q, Condition)), k))
                       == ConditionValue(Get(Entries(Get(r, Condition)), k)))
  }

  // --- merging like documents -----------------------------------------------------

  /** A merged field depends only on what both documents say about it. */
  lemma MergedFieldAt(a: Details, b: Details, q: Details, r: Details, f: Field)
    requires f != Options && f != Condition && f != ConditionSummary && f != FingerprintField
    requires Get(a, f) == Get(b, f) && (f in q <==> f in r) && Get(q, f) == Get(r, f)
    ensures Get(MergeLive(a, q), f) == Get(MergeLive(b, r), f)
  {
    LiveAt(a, q, f);
    LiveAt(b, r, f);
    hide MergeLive;
  }

  lemma MergedOffer(a: Details, b: Details, q: Details, r: Details)
    requires Offer(a) == Offer(b) && (OfferType in q <==> OfferType in r) && Get(q, OfferType) == Get(r, OfferType)
    ensures Offer(MergeLive(a, q)) == Offer(MergeLive(b, r))
  {
    LiveAt(a, q, OfferType);
    LiveAt(b, r, OfferType);
    hide MergeLive;
  }

  lemma MergedSummary(a: Details, b: Details, q: Details, r: Details)
    requires Get(a, ConditionSummary) == Get(b, ConditionSummary)
    requires (ConditionSummary in q <==> ConditionSummary in r) && Get(q, ConditionSummary) == Get(r, ConditionSummary)
    ensures Get(MergeLive(a, q), ConditionSummary) == Get(MergeLive(b, r), ConditionSummary)
  {
    LiveSummaryAt(a, q);
    LiveSummaryAt(b, r);
    hide MergeLive;
  }

  lemma MergedOption(a: Details, b: Details, q: Details, r: Details, k: Field)
    requires Get(Entries(Get(a, Options)), k) == Get(Entries(Get(b, Options)), k)
    requires k in Entries(Get(q, Options)) <==> k in Entries(Get(r, Options))
    requires Get(Entries(Get(q, Options)), k) == Get(Entries(Get(r, Options)), k)
    ensures Get(Entries(Get(MergeLive(a, q), Options)), k) == Get(Entries(Get(MergeLive(b, r), Options)), k)
  {
    LiveOptionsAt(a, q);
    LiveOptionsAt(b, r);
    hide MergeLive;
  }

  /** How sure an entry is can be read off its compared part. */
  lemma GradeIsCompared(e: Json, g: Json)
    requires ConditionValue(e) == ConditionValue(g)
    ensures Established(e) == Established(g) && Unverified(e) == Unverified(g)
  {
    if e.Obj? {
      assert Get(e.fields, Status) == Get(ConditionValue(e).fields, Status);
      assert Get(g.fields, Status) == Get(ConditionValue(g).fields, Status);
    }
  }

  lemma MergedEntryAt(before: Details, after: Details, k: Field)
    ensures Get(MergedCondition(before, after), k)
            == if k in after && !(Unverified(after[k]) && Established(Get(before, k))) then after[k] else Get(before, k)
  {
  }

  lemma MergedEntry(a: Details, b: Details, q: Details, r: Details, k: Field)
    requires ConditionValue(Get(Entries(Get(a, Condition)), k)) == ConditionValue(Get(Entries(Get(b, Condition)), k))
    requires k in Entries(Get(q, Condition)) <==> k in Entries(Get(r, Condition))
    requires ConditionValue(Get(Entries(Get(q, Condition)), k)) == ConditionValue(Get(Entries(Get(r, Condition)), k))
    ensures ConditionValue(Get(Entries(Get(MergeLive(a, q), Condition)), k))
            == ConditionValue(Get(Entries(Get(MergeLive(b, r), Condition)), k))
  {
    hide MergeLive, MergedCondition, ConditionValue, Established, Unverified;
    LiveConditionAt(a, q);
    LiveConditionAt(b, r);
    MergedEntryAt(Entries(Get(a, Condition)), Entries(Get(q, Condition)), k);
    MergedEntryAt(Entries(Get(b, Condition)), Entries(Get(r, Condition)), k);
    GradeIsCompared(Get(Entries(Get(a, Condition)), k), Get(Entries(Get(b, Condition)), k));
    GradeIsCompared(Get(Entries(Get(q, Condition)), k), Get(Entries(Get(r, Condition)), k));
  }

  lemma SpecialFields()
    ensures Tracked(OfferType) && Tracked(ConditionSummary)
    ensures !Tracked(Options) && !Tracked(Condition) && !Tracked(FingerprintField)
  {
  }

  /** Merging pages of the same content into like documents gives like documents. */
  lemma LikeMerges(a: Details, b: Details, q: Details, r: Details)
    requires Like(a, b) && SameContent(q, r)
    ensures Like(MergeLive(a, q), MergeLive(b, r))
  {
    hide MergeLive, Tracked, Offer, ConditionValue, Entries, Get;
    SpecialFields();
    assert forall f | Tracked(f) :: ContentField(f);
    MergedOffer(a, b, q, r);
    MergedSummary(a, b, q, r);
    forall f | Tracked(f) && f != OfferType ensures Get(MergeLive(a, q), f) == Get(MergeLive(b, r), f) {
      if f != ConditionSummary {
        MergedFieldAt(a, b, q, r, f);
      }
    }
    forall k
      ensures Get(Entries(Get(MergeLive(a, q), Options)), k) == Get(Entries(Get(MergeLive(b, r), Options)), k)
      ensures ConditionValue(Get(Entries(Get(MergeLive(a, q), Condition)), k))
              == ConditionValue(Get(Entries(Get(MergeLive(b, r), Condition)), k))
    {
      MergedOption(a, b, q, r, k);
      MergedEntry(a, b, q, r, k);
    }
  }

  lemma SameContentWithItself(q: Details)
    ensures SameContent(q, q)
  {
  }

  lemma LivePagesMerge(d: Details, q: Details)
    requires !Truthy(Get(q, SoldFlag))
    ensures Merge(d, q) == MergeLive(d, q)
  {
  }

  // --- pages that say nothing new -------------------------------------------------

  /** The page brings a price and where it was read, or neither. */
  predicate PriceTogether(q: Details) {
    PriceSource in q <==> PriceKrw in q
  }

  /** A page of a car for sale that tells nothing new about the offer of this car. */
  ghost predicate NothingNew(car: Car, q: Details) {
    && SoldFlag in q && !Truthy(q[SoldFlag])
    && PriceTogether(q)
    && (AuthoritativePrice(q).None? || AuthoritativePrice(q) == car.price)
    && Like(Merge(car.details, q), car.details)
  }

  lemma PriceOfMerge(d: Details, q: Details)
    requires PriceTogether(q) && SoldFlag in q && !Truthy(q[SoldFlag])
    ensures AuthoritativePrice(Merge(d, q)) == if PriceKrw in q then AuthoritativePrice(q) else AuthoritativePrice(d)
  {
    hide Merge, MergeLive;
    LivePagesMerge(d, q);
    LiveAt(d, q, PriceKrw);
    LiveAt(d, q, PriceSource);
    hide Truthy;
  }

  /** The car as it was: same price, same status, and a document of the same offer. */
  ghost predicate AsItWas(car: Car, was: Car) {
    car.price == was.price && car.status == was.status && Like(car.details, was.details)
  }

  lemma MergedStaysLike(d: Details, was: Car, q: Details)
    requires Like(d, was.details) && NothingNew(was, q)
    ensures Like(Merge(d, q), was.details)
  {
    LivePagesMerge(d, q);
    LivePagesMerge(was.details, q);
    SameContentWithItself(q);
    hide Merge, MergeLive, SameContent, Tracked, ConditionValue, Offer;
    LikeMerges(d, was.details, q, q);
  }

  lemma MergedPriceStays(f: CarFile, was: Car, q: Details, id: Json)
    requires GoodCar(f, id) && f.car.Some? && f.car.value.price == was.price && NothingNew(was, q)
    ensures var price := AuthoritativePrice(Merge(f.car.value.details, q)); price.None? || price == f.car.value.price
  {
    PriceOfMerge(f.car.value.details, q);
    hide Merge, AuthoritativePrice, MaterialChanges, Fingerprint, CanonicalText, Like;
  }

  lemma QuietDocument(f: CarFile, merged: Details)
    requires f.car.Some? && f.car.value.status != Sold && StoredDetails(f) != map[]
    requires !Truthy(Get(merged, SoldFlag)) && MaterialChanges(StoredDetails(f), merged) == []
    requires AuthoritativePrice(merged).None? || AuthoritativePrice(merged) == StoredPrice(f)
    ensures StatusAfter(f, merged) == StoredStatus(f) && StatusEvents(f, merged) == []
    ensures NewSnapshots(f, merged) == [] && NewPricePoints(f, merged) == []
  {
    hide MaterialChanges, AuthoritativePrice, Truthy, Fingerprint, Offer, Get;
    assert !AnnouncedChange(f, merged).Moved?;
    assert !Revised(f, merged);
  }

  lemma NoMileageEvent(f: CarFile, merged: Details)
    requires Get(merged, MileageKm) == Get(StoredDetails(f), MileageKm)
    ensures DetailEvents(f, merged) == [] || DetailEvents(f, merged) == [AccidentInfoChanged(Get(merged, Accident))]
  {
    hide Truthy, AccidentSignature;
  }

  lemma LikeMileage(a: Details, b: Details)
    requires Like(a, b)
    ensures Get(a, MileageKm) == Get(b, MileageKm)
  {
    hide Entries, ConditionValue, Offer;
  }

  lemma QuietMerge(f: CarFile, was: Car, q: Details, id: Json)
    requires GoodCar(f, id) && f.car.Some? && f.car.value.status != Sold
    requires AsItWas(f.car.value, was) && NothingNew(was, q)
    ensures var merged := Merge(StoredDetails(f), q);
            && StoredDetails(f) != map[] && Like(merged, was.details)
            && !Truthy(Get(merged, SoldFlag)) && MaterialChanges(StoredDetails(f), merged) == []
            && (AuthoritativePrice(merged).None? || AuthoritativePrice(merged) == StoredPrice(f))
            && Get(merged, MileageKm) == Get(StoredDetails(f), MileageKm)
  {
    hide Merge, MaterialChanges, AuthoritativePrice, Like, Truthy, Fingerprint, Get;
    var d := f.car.value.details;
    var merged := Merge(d, q);
    MergedStaysLike(d, was, q);
    MergedPriceStays(f, was, q, id);
    LikeThrough(d, was.details, merged);
    LikeIsNoChange(d, merged);
    LikeMileage(d, merged);
    MergedSaleFlag(d, q);
  }

  /**
   Storing a page that says nothing new keeps price, status, history and snapshots, and
   writes no event but that the listing is back or that the accident texts differ.
   */
  lemma RereadChangesNothing(f: CarFile, p: int, was: Car, q: Details, mark: bool, id: Json)
    requires GoodCar(f, id) && f.car.Some? && f.car.value.status != Sold
    requires AsItWas(f.car.value, was) && NothingNew(was, q)
    ensures var merged := Merge(StoredDetails(f), q);
            var g := Stored(f, p, merged, mark);
            && g.car.Some? && AsItWas(g.car.value, was)
            && g.snapshots == f.snapshots && g.history == f.history
            && (DetailEvents(f, merged) == [] || DetailEvents(f, merged) == [AccidentInfoChanged(Get(merged, Accident))])
            && g.events == f.events + DetailEvents(f, merged) + RelistEvents(f, p, mark)
  {
    hide Merge, MaterialChanges, AuthoritativePrice, Like, Truthy, Fingerprint, GoodCar, NothingNew, StatusAfter,
      StatusEvents, NewSnapshots, NewPricePoints, DetailEvents, RelistEvents, Get;
    QuietMerge(f, was, q, id);
    QuietDocument(f, Merge(StoredDetails(f), q));
    NoMileageEvent(f, Merge(StoredDetails(f), q));
  }

  lemma LikeThrough(a: Details, b: Details, c: Details)
    requires Like(a, b) && Like(c, b)
    ensures Like(a, c)
  {
    hide Tracked, Offer, ConditionValue, Entries, Get;
  }

  lemma MergedSaleFlag(d: Details, q: Details)
    requires SoldFlag in q && !Truthy(q[SoldFlag])
    ensures !Truthy(Get(Merge(d, q), SoldFlag))
  {
    LivePagesMerge(d, q);
    LiveAt(d, q, SoldFlag);
    hide MergeLive;
  }

  // --- which pages say nothing new ------------------------------------------------

  /** After a page has been stored, every page of the same content says nothing new. */
  lemma SameContentSaysNothingNew(f: CarFile, p: int, page: Details, mark: bool, r: Details)
    requires SoldFlag in page && !Truthy(page[SoldFlag]) && PriceTogether(page) && SameContent(page, r)
    ensures var g := Stored(f, p, Merge(StoredDetails(f), page), mark);
            g.car.value.status != Sold && NothingNew(g.car.value, r)
  {
    var known := StoredDetails(f);
    var once := Merge(known, page);
    SamePrice(page, r);
    PriceOfMerge(known, page);
    MergedSaleFlag(known, page);
    LivePageLeavesNotSold(f, once);
    MergeIdempotent(known, page);
    LivePagesMerge(once, page);
    LivePagesMerge(once, r);
    LikeItself(once);
    hide Merge, MergeLive, Like, AuthoritativePrice, Tracked, ConditionValue, Entries, StatusAfter, StatusEvents, DetailEvents,
      RelistEvents, NewPricePoints, NewSnapshots, Truthy;
    SameContentBack(page, r);
    LikeMerges(once, once, r, page);
  }

  lemma LikeItself(d: Details)
    ensures Like(d, d)
  {
  }

  lemma SameContentBack(q: Details, r: Details)
    requires SameContent(q, r)
    ensures SameContent(r, q)
  {
    hide Entries, ConditionValue, ContentField, Get;
  }

  lemma SamePrice(q: Details, r: Details)
    requires SameContent(q, r)
    ensures AuthoritativePrice(q) == AuthoritativePrice(r) && PriceTogether(q) == PriceTogether(r)
    ensures AuthoritativePrice(q).Some? ==> PriceKrw in q
    ensures (SoldFlag in q <==> SoldFlag in r) && Get(q, SoldFlag) == Get(r, SoldFlag)
    ensures CanonicalText(q) == CanonicalText(r) && SourceText(q) == SourceText(r)
  {
    hide Entries, ConditionValue, Tracked;
    assert ContentField(PriceKrw) && ContentField(PriceSource) && ContentField(SoldFlag)
           && ContentField(SourceCarId) && ContentField(CanonicalCarId);
  }

  /** So does a probe that confirms the price and the offer. */
  lemma ConfirmingProbeSaysNothingNew(f: CarFile, probe: Details)
    requires f.car.Some? && Confirms(f, probe)
    ensures NothingNew(f.car.value, ProbeDetail(probe))
  {
    var known, page := StoredDetails(f), ProbeDetail(probe);
    ProbeWrites(probe);
    ProbeIsLive(probe);
    LivePagesMerge(known, page);
    hide ProbeDetail, Truthy, Entries, ProbeField, Tracked, Offer, OfferField, MergeLive, Merge, AuthoritativePrice;
    assert PriceSource in page && PriceKrw in page && SoldFlag in page by {
      assert ProbeField(PriceSource) && ProbeField(PriceKrw) && ProbeField(SoldFlag);
    }
    assert Get(page, SoldFlag) == page[SoldFlag];
    UnprobedFields(known, page);
    ProbedTexts(known, page);
    WrittenFields(known, page);
    SameOfferType(MergeLive(known, page), page);
    ProbeIsLike(known, MergeLive(known, page));
  }

  lemma SameOfferType(a: Details, b: Details)
    requires Get(a, OfferType) == Get(b, OfferType)
    ensures Offer(a) == Offer(b)
  {
  }

  lemma ProbeIsLike(known: Details, merged: Details)
    requires forall k | Untouched(k) :: Get(merged, k) == Get(known, k)
    requires Get(merged, ConditionSummary) == Get(known, ConditionSummary) && Offer(merged) == Offer(known)
    requires Entries(Get(merged, Options)) == Entries(Get(known, Options))
    requires Entries(Get(merged, Condition)) == Entries(Get(known, Condition))
    ensures Like(merged, known)
  {
    hide Tracked, Entries, Offer, ConditionValue;
  }

  // --- any number of quiet steps --------------------------------------------------

  /**
   A step that brings no news about this car: reads that say nothing new, sightings,
   failed reads, completed searches that do not confirm a sale, and removals, of any
   projects.
   */
  ghost predicate Quiet(was: Car, s: Step) {
    match s
    case Read(_, page, _) => NothingNew(was, page)
    case Searched(_, _, sold) => !sold
    case _ => true
  }

  /** The record is as it was, and for sale. */
  ghost predicate Rests(f: CarFile, was: Car) {
    f.car.Some? && was.status != Sold && AsItWas(f.car.value, was)
  }

  /** The project has seen the car as it was. */
  ghost predicate Remembers(w: World, p: int, was: Car) {
    p in w.seen && AsItWas(w.seen[p], was)
  }

  lemma QuietRead(w: World, s: Step, was: Car, id: Json)
    requires Valid(w, id) && Rests(w.file, was) && s.Read? && Quiet(was, s)
    ensures var v := Next(w, s);
            && Rests(v.file, was) && v.file.snapshots == w.file.snapshots && v.file.history == w.file.history
            && v.seen == if Looks(w, s, s.project) then w.seen[s.project := v.file.car.value] else w.seen
  {
    hide Valid, Merge, AsItWas, NothingNew, ChangeReport, PreviousState, Fingerprint, StatusAfter, StatusEvents,
      DetailEvents, RelistEvents, NewPricePoints, NewSnapshots, AuthoritativePrice, GoodCar, Stored;
    ValidCar(w, id);
    if Verdict(w.file, s.project, s.page) == Accepted {
      NotSold(w.file, was);
      RereadChangesNothing(w.file, s.project, was, s.page, s.markFound, id);
    }
    hide Verdict;
  }

  lemma NotSold(f: CarFile, was: Car)
    requires Rests(f, was)
    ensures f.car.value.status != Sold
  {
    hide Like;
  }

  lemma ValidCar(w: World, id: Json)
    requires Valid(w, id)
    ensures GoodCar(w.file, id)
  {
    hide GoodCar, GoodObservation;
  }

  lemma QuietOther(w: World, s: Step, was: Car)
    requires Rests(w.file, was) && !s.Read? && Quiet(was, s)
    ensures var v := Next(w, s);
            && v.file.car == w.file.car && v.file.snapshots == w.file.snapshots && v.file.history == w.file.history
            && v.seen == if s.Listed? && Looks(w, s, s.project) then w.seen[s.project := v.file.car.value] else w.seen
  {
    hide AsItWas, ChangeReport, PreviousState, Fingerprint, RelistEvents;
  }

  lemma QuietStep(w: World, s: Step, was: Car, id: Json)
    requires Valid(w, id) && Rests(w.file, was) && Quiet(was, s) && About(s, id) && id != Null
    ensures var v := Next(w, s);
            && Valid(v, id) && Rests(v.file, was)
            && v.file.snapshots == w.file.snapshots && v.file.history == w.file.history
            && forall p | Remembers(w, p, was) || Looks(w, s, p) :: Remembers(v, p, was)
  {
    hide Valid, Next, AsItWas, NothingNew, Quiet;
    StepKeepsValid(w, s, id);
    if s.Read? {
      QuietRead(w, s, was, id);
    } else {
      QuietOther(w, s, was);
    }
    hide Verdict, ListedCounts;
  }

  ghost predicate AllQuiet(was: Car, steps: seq<Step>) {
    forall s | s in steps :: Quiet(was, s)
  }

  /** Any number of quiet steps leaves price, status, history and snapshots alone, and the project's memory of the car. */
  lemma {:induction false} QuietRun(w: World, steps: seq<Step>, was: Car, p: int, id: Json)
    requires Valid(w, id) && Rests(w.file, was) && AllQuiet(was, steps) && AllAbout(steps, id) && id != Null
    ensures var v := Run(w, steps);
            && Valid(v, id) && Rests(v.file, was)
            && v.file.snapshots == w.file.snapshots && v.file.history == w.file.history
            && (Remembers(w, p, was) ==> Remembers(v, p, was))
  {
    hide Valid, Next, Rests, Remembers, Quiet, About;
    if steps != [] {
      var prefix, last := steps[..|steps| - 1], steps[|steps| - 1];
      assert forall s | s in prefix :: s in steps;
      QuietRun(w, prefix, was, p, id);
      QuietStep(Run(w, prefix), last, was, id);
    }
  }

  // --- what a project is told -----------------------------------------------------

  lemma QuietLookReport(car: Car, previous: Previous, search: SearchStatus)
    requires car.status != Sold && previous.status == car.status && previous.price == car.price
    requires MaterialChanges(previous.details, car.details) == [] && Offer(previous.details) == Offer(car.details)
    ensures ChangeReport(car, Some(previous), search)
            == if previous.fingerprint != car.fingerprint then None
               else NewsOfStatus(car.price, car.status, car.status,
                                 previous.searchStatus == NotFoundInSearch && search == Found)
  {
    hide MaterialChanges, Offer;
  }

  lemma RememberedIsCompared(w: World, p: int, was: Car, car: Car, id: Json)
    requires Valid(w, id) && Remembers(w, p, was) && AsItWas(car, was)
    ensures var previous := PreviousState(w.file, p);
            && previous.Some? && previous.value.status == car.status && previous.value.price == car.price
            && previous.value.fingerprint == w.seen[p].fingerprint
            && previous.value.searchStatus == LinkOf(w.file, p).searchStatus
            && MaterialChanges(previous.value.details, car.details) == []
            && Offer(previous.value.details) == Offer(car.details)
  {
    hide Valid, PreviousState, MaterialChanges, Like, Offer;
    PreviousIsWhatWasSeen(w, p, id);
    LikeThrough(w.seen[p].details, was.details, car.details);
    LikeIsNoChange(w.seen[p].details, car.details);
    SameListingTransitive(PreviousState(w.file, p).value.details, w.seen[p].details, car.details);
    SameListingHasSameOffer(PreviousState(w.file, p).value.details, car.details);
  }

  /**
   No change is told twice. Once a project has looked at a car for sale, any number of
   steps of any projects that bring no news about it - rereads of the same content with
   other times and scan ids, probes that confirm it, sightings, failed reads, completed
   searches, removals - leave every later look of that project silent, but for the return
   of a listing that its search had lost.
   */
  lemma RereadsAreQuiet(v: World, look: Step, steps: seq<Step>, s: Step, p: int, id: Json)
    requires Reachable(v, id) && id != Null && About(look, id) && Looks(v, look, p)
    requires var was := CarAfter(v, look);
             && was.status != Sold && AllQuiet(was, steps) && AllAbout(steps, id)
             && Quiet(was, s) && About(s, id)
    requires Looks(Run(Next(v, look), steps), s, p)
    ensures var w := Run(Next(v, look), steps);
            && p in w.seen
            && Told(w, s)
               == if w.seen[p].fingerprint != Fingerprint(DocumentOnLook(w.file, s)) then None
                  else NewsOfStatus(w.seen[p].price, w.seen[p].status, w.seen[p].status, FindsAgain(w.file, s, p))
  {
    var was := CarAfter(v, look);
    var start := Next(v, look);
    ReachableIsValid(v, id);
    StepKeepsValid(v, look, id);
    LookRecords(v, look, p);
    LikeItself(was.details);
    assert Rests(start.file, was) && Remembers(start, p, was);
    hide Valid, Next, Run, Told, CarAfter, Looks, Quiet, AllQuiet, AllAbout, About, Like, PreviousState, Fingerprint,
      DocumentOnLook, FindsAgain, MaterialChanges, Offer, ChangeReport, Reachable, NewsOfStatus;
    QuietRun(start, steps, was, p, id);
    QuietLook(Run(start, steps), s, p, was, id);
  }

  /** The step reads the same content as `page`, or a probe that confirms the record `f`, or reads nothing. */
  ghost predicate Rereads(f: CarFile, page: Details, s: Step) {
    match s
    case Read(_, q, _) => SameContent(page, q) || exists probe :: q == ProbeDetail(probe) && Confirms(f, probe)
    case Searched(_, _, sold) => !sold
    case _ => true
  }

  lemma RereadIsQuiet(f: CarFile, p: int, page: Details, mark: bool, g: CarFile, s: Step)
    requires SoldFlag in page && !Truthy(page[SoldFlag]) && PriceTogether(page)
    requires g.car == Stored(f, p, Merge(StoredDetails(f), page), mark).car && Rereads(g, page, s)
    ensures Quiet(g.car.value, s)
  {
    hide NothingNew, Stored, SameContent, Confirms, ProbeDetail, Merge;
    if s.Read? {
      if SameContent(page, s.page) {
        SameContentSaysNothingNew(f, p, page, mark, s.page);
      } else {
        var probe :| s.page == ProbeDetail(probe) && Confirms(g, probe);
        StoredHasCar(f, p, Merge(StoredDetails(f), page), mark);
        ConfirmingProbeSaysNothingNew(g, probe);
      }
    }
  }

  lemma StoredHasCar(f: CarFile, p: int, merged: Details, mark: bool)
    ensures Stored(f, p, merged, mark).car.Some?
  {
  }

  lemma ReadRecord(v: World, p: int, page: Details, mark: bool)
    requires Looks(v, Read(p, page, mark), p)
    ensures Next(v, Read(p, page, mark)).file.car == Stored(v.file, p, Merge(StoredDetails(v.file), page), mark).car
    ensures Next(v, Read(p, page, mark)).file.car == Some(CarAfter(v, Read(p, page, mark)))
  {
    hide Merge, StatusAfter, StatusEvents, DetailEvents, RelistEvents, NewPricePoints, NewSnapshots, AuthoritativePrice,
      ChangeReport, PreviousState, Fingerprint;
  }

  /**
   A project that read a page of a car for sale is told about its content once: whatever
   number of projects reread that content or confirm it by probes in between, whatever
   complete searches find or miss the car, its next look says nothing, or that a lost
   listing is back.
   */
  lemma ContentIsToldOnce(v: World, p: int, page: Details, mark: bool, steps: seq<Step>, s: Step, id: Json)
    requires Reachable(v, id) && id != Null && About(Read(p, page, mark), id) && Looks(v, Read(p, page, mark), p)
    requires SoldFlag in page && !Truthy(page[SoldFlag]) && PriceTogether(page)
    requires var w := Next(v, Read(p, page, mark));
             && (forall t | t in steps :: Rereads(w.file, page, t)) && AllAbout(steps, id)
             && Rereads(w.file, page, s) && About(s, id)
             && Looks(Run(w, steps), s, p)
    ensures var told := Told(Run(Next(v, Read(p, page, mark)), steps), s);
            told == None || (told.value.Observed? && told.value.change == Relisted)
  {
    var look := Read(p, page, mark);
    var w := Next(v, look);
    ReadRecord(v, p, page, mark);
    PageOfCarForSale(v, p, page, mark);
    hide Next, Run, Told, CarAfter, Looks, Quiet, AllAbout, About, Reachable, Stored, Merge, Rereads, Truthy,
      Fingerprint, DocumentOnLook, FindsAgain, SameContent;
    forall t | t in steps || t == s ensures Quiet(w.file.car.value, t) {
      RereadIsQuiet(v.file, p, page, mark, w.file, t);
    }
    RereadsAreQuiet(v, look, steps, s, p, id);
  }

  lemma PageOfCarForSale(v: World, p: int, page: Details, mark: bool)
    requires Looks(v, Read(p, page, mark), p) && SoldFlag in page && !Truthy(page[SoldFlag])
    ensures CarAfter(v, Read(p, page, mark)).status != Sold
  {
    var merged := Merge(StoredDetails(v.file), page);
    MergedSaleFlag(StoredDetails(v.file), page);
    LivePageLeavesNotSold(v.file, merged);
    ReadRecord(v, p, page, mark);
    hide Next, CarAfter, Merge, StatusAfter, StatusEvents, DetailEvents, RelistEvents, NewPricePoints, NewSnapshots,
      AuthoritativePrice, Truthy, Looks;
  }

  lemma QuietLook(w: World, s: Step, p: int, was: Car, id: Json)
    requires Valid(w, id) && Rests(w.file, was) && Remembers(w, p, was) && id != Null
    requires Quiet(was, s) && About(s, id) && Looks(w, s, p)
    ensures Told(w, s)
            == if w.seen[p].fingerprint != Fingerprint(DocumentOnLook(w.file, s)) then None
               else NewsOfStatus(w.seen[p].price, w.seen[p].status, w.seen[p].status, FindsAgain(w.file, s, p))
  {
    hide Valid, Next, Told, CarAfter, Looks, Quiet, Like, PreviousState, Fingerprint, DocumentOnLook, PriceOnLook,
      StatusOnLook, FindsAgain, MaterialChanges, Offer, ChangeReport, NewsOfStatus, About;
    QuietStep(w, s, was, id);
    LookRecords(w, s, p);
    LookLeaves(w, s, p, id);
    LookFinds(w, s, p);
    RememberedIsCompared(w, p, was, CarAfter(w, s), id);
    QuietLookReport(CarAfter(w, s), PreviousState(w.file, p).value, Next(w, s).file.links[p].searchStatus);
  }

  // --- a first read and a second one ----------------------------------------------

  lemma FirstRead(p: int, page: Details, id: Json)
    requires id != Null && CanonicalText(page) == id && SourceText(page) == id
    requires SoldFlag in page && !Truthy(page[SoldFlag])
    ensures var s := Read(p, page, true);
            var w := Next(START, s);
            && Reachable(START, id) && Looks(START, s, p)
            && Told(START, s) == Some(Observed(New, None, CarAfter(START, s).price, []))
            && w.file.car == Stored(EMPTY_FILE, p, Merge(map[], page), true).car
            && LinkOf(w.file, p).searchStatus == Found && LinkOf(w.file, p).tracking && !w.file.car.value.excluded
  {
    var s := Read(p, page, true);
    assert Reachable(START, id) by {
      assert AllAbout([], id) && START == Run(START, []);
    }
    var merged := Merge(map[], page);
    LivePageLeavesNotSold(EMPTY_FILE, merged) by {
      MergedSaleFlag(map[], page);
    }
    hide Merge, StatusAfter, StatusEvents, DetailEvents, RelistEvents, NewPricePoints, NewSnapshots, AuthoritativePrice,
      Fingerprint, CanonicalText, SourceText, Reachable, Truthy;
  }

  /**
   The first read of a new listing is told as new; reading the same content again, at
   another time and in another scan, is silent.
   */
  lemma FirstReadIsNewThenSilent(p: int, page: Details, again: Details, mark: bool, id: Json)
    requires id != Null && CanonicalText(page) == id && SourceText(page) == id
    requires SoldFlag in page && !Truthy(page[SoldFlag]) && PriceTogether(page) && SameContent(page, again)
    ensures var first, second := Read(p, page, true), Read(p, again, mark);
            var w := Next(START, first);
            && Reachable(START, id) && Looks(START, first, p) && Looks(w, second, p)
            && Told(START, first) == Some(Observed(New, None, CarAfter(START, first).price, []))
            && Told(w, second) == None
  {
    var first, second := Read(p, page, true), Read(p, again, mark);
    var w := Next(START, first);
    FirstRead(p, page, id);
    SamePrice(page, again);
    SameContentSaysNothingNew(EMPTY_FILE, p, page, true, again);
    assert Looks(w, second, p);
    assert !FindsAgain(w.file, second, p);
    hide Merge, Stored, StatusAfter, Told, Like, SameContent, AuthoritativePrice, Next, Looks, Fingerprint, DocumentOnLook,
      NothingNew, FindsAgain, Reachable, Truthy;
    assert Run(w, []) == w;
    RereadsAreQuiet(START, first, [], second, p, id);
  }
}
