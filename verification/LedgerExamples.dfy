/**
 Runs from the empty ledger in which a project is told of a price that came back, is not
 told of a sold car that came back, and in which an established condition is lost.
 */
module LedgerExamples {
  import opened Listing
  import opened Merging
  import opened Ledger
  import opened LedgerRuns
  import opened LedgerRereads
  import opened Wrappers

  // --- small pages ----------------------------------------------------------------

  /** A page of a car for sale, with a price and perhaps a number of seats. */
  function SalePage(id: string, price: int, seats: Option<int>): Details {
    var page := map[CanonicalCarId := Str(Word(id)), PriceKrw := Int(price), PriceSource := Str(DetailPrimary),
                    SoldFlag := Bool(false)];
    if seats.Some? then page[SeatCount := Int(seats.value)] else page
  }

  function SaleEndedPage(id: string): Details {
    map[CanonicalCarId := Str(Word(id)), SoldFlag := Bool(true)]
  }

  /** The document says this, and nothing else that is compared. */
  ghost predicate Shows(d: Details, id: string, price: int, seats: Json) {
    && Get(d, CanonicalCarId) == Str(Word(id))
    && Get(d, PriceKrw) == Int(price) && Get(d, PriceSource) == Str(DetailPrimary)
    && Get(d, SeatCount) == seats
    && Get(d, Options) == Obj(map[]) && Get(d, Condition) == Obj(map[])
    && forall f | Tracked(f) && f != SeatCount :: Get(d, f) == Null
  }

  function Seats(known: Json, page: Option<int>): Json {
    if page.Some? then Int(page.value) else known
  }

  lemma SalePageFields(id: string, price: int, seats: Option<int>)
    ensures var page := SalePage(id, price, seats);
            && (forall f :: f in page <==>
                  f.CanonicalCarId? || f.PriceKrw? || f.PriceSource? || f.SoldFlag? || (f.SeatCount? && seats.Some?))
            && page[CanonicalCarId] == Str(Word(id)) && page[PriceKrw] == Int(price)
            && page[PriceSource] == Str(DetailPrimary) && page[SoldFlag] == Bool(false)
            && (seats.Some? ==> page[SeatCount] == Int(seats.value))
  {
  }

  lemma SaleMerges(d: Details, id: string, earlier: int, known: Json, price: int, seats: Option<int>)
    requires (d == map[] && known == Null) || Shows(d, id, earlier, known)
    ensures Shows(Merge(d, SalePage(id, price, seats)), id, price, Seats(known, seats))
  {
    hide SalePage, Merge, MergeLive, Tracked, MergedCondition, Truthy;
    var page := SalePage(id, price, seats);
    SalePageFields(id, price, seats);
    SaleIsLive(page);
    LivePagesMerge(d, page);
    SaleExtras(d, page, id, earlier, known);
    SaleFields(d, page, id, earlier, known, price, seats);
  }

  lemma SaleIsLive(page: Details)
    requires SoldFlag in page && page[SoldFlag] == Bool(false)
    ensures !Truthy(Get(page, SoldFlag))
  {
  }

  lemma SaleExtras(d: Details, page: Details, id: string, earlier: int, known: Json)
    requires (d == map[] && known == Null) || Shows(d, id, earlier, known)
    requires Options !in page && Condition !in page && ConditionSummary !in page
    ensures var m := MergeLive(d, page);
            Get(m, Options) == Obj(map[]) && Get(m, Condition) == Obj(map[]) && Get(m, ConditionSummary) == Null
  {
    hide MergeLive, Tracked;
    LiveOptionsAt(d, page);
    LiveConditionAt(d, page);
    LiveSummaryAt(d, page);
    SpecialFields();
    assert MergedCondition(map[], map[]) == map[];
  }

  lemma SaleFields(d: Details, page: Details, id: string, earlier: int, known: Json, price: int, seats: Option<int>)
    requires (d == map[] && known == Null) || Shows(d, id, earlier, known)
    requires forall f :: f in page <==>
               f.CanonicalCarId? || f.PriceKrw? || f.PriceSource? || f.SoldFlag? || (f.SeatCount? && seats.Some?)
    requires page[CanonicalCarId] == Str(Word(id)) && page[PriceKrw] == Int(price)
    requires page[PriceSource] == Str(DetailPrimary)
    requires seats.Some? ==> page[SeatCount] == Int(seats.value)
    ensures var m := MergeLive(d, page);
            && Get(m, CanonicalCarId) == Str(Word(id)) && Get(m, PriceKrw) == Int(price)
            && Get(m, PriceSource) == Str(DetailPrimary) && Get(m, SeatCount) == Seats(known, seats)
            && forall f | Tracked(f) && f != SeatCount && f != ConditionSummary :: Get(m, f) == Null
  {
    hide MergeLive, Tracked, Get;
    WrittenAt(d, page, CanonicalCarId);
    WrittenAt(d, page, PriceKrw);
    WrittenAt(d, page, PriceSource);
    NothingInEmpty(SeatCount);
    SeatsAt(d, page, known, seats);
    SpecialFields();
    forall f | Tracked(f) && f != SeatCount && f != ConditionSummary ensures Get(MergeLive(d, page), f) == Null {
      PriceFieldsAreNotTracked(f);
      NothingInEmpty(f);
      UnsaidAt(d, page, f);
    }
  }

  lemma NothingInEmpty(f: Field)
    ensures Get(map[], f) == Null
  {
  }

  lemma WrittenAt(d: Details, page: Details, f: Field)
    requires f in page && (f.CanonicalCarId? || f.PriceKrw? || f.PriceSource?)
    ensures Get(MergeLive(d, page), f) == page[f]
  {
    hide MergeLive;
    LiveAt(d, page, f);
  }

  lemma SeatsAt(d: Details, page: Details, known: Json, seats: Option<int>)
    requires Get(d, SeatCount) == known && (SeatCount in page <==> seats.Some?)
    requires seats.Some? ==> page[SeatCount] == Int(seats.value)
    ensures Get(MergeLive(d, page), SeatCount) == Seats(known, seats)
  {
    hide MergeLive;
    LiveAt(d, page, SeatCount);
  }

  lemma UnsaidAt(d: Details, page: Details, f: Field)
    requires f !in page && Get(d, f) == Null
    requires f != Options && f != Condition && f != ConditionSummary && f != FingerprintField
    ensures Get(MergeLive(d, page), f) == Null
  {
    hide MergeLive;
    LiveAt(d, page, f);
  }

  lemma PriceFieldsAreNotTracked(f: Field)
    requires Tracked(f)
    ensures f != CanonicalCarId && f != PriceKrw && f != PriceSource && f != SoldFlag
  {
  }

  lemma EndPageFields(id: string)
    ensures var page := SaleEndedPage(id);
            && CanonicalCarId in page && CanonicalText(page) == Str(Word(id))
            && SoldFlag in page && Truthy(Get(page, SoldFlag))
  {
  }

  lemma SoldPagesMerge(d: Details, q: Details)
    requires Truthy(Get(q, SoldFlag)) && d != map[]
    ensures Merge(d, q) == MergeSold(d, q)
  {
  }

  lemma EndMerges(d: Details, id: string, price: int, seats: Json)
    requires Shows(d, id, price, seats) && d != map[]
    ensures Shows(Merge(d, SaleEndedPage(id)), id, price, seats)
  {
    hide Merge, MergeSold, SaleEndedPage, Tracked, SoldPageField, Get, Truthy;
    var page := SaleEndedPage(id);
    EndPageFields(id);
    SoldPagesMerge(d, page);
    SoldCanonical(d, page);
    CanonicalIsGet(MergeSold(d, page));
    CanonicalIsGet(page);
    forall f | f == PriceKrw || f == PriceSource || f == Options || f == Condition || Tracked(f)
      ensures Get(MergeSold(d, page), f) == Get(d, f)
    {
      NoSaleField(f);
      SoldAt(d, page, f);
    }
    assert Tracked(SeatCount) by {
      SeatCountIsTracked();
    }
  }

  lemma CanonicalIsGet(d: Details)
    ensures CanonicalText(d) == Get(d, CanonicalCarId)
  {
  }

  lemma SeatCountIsTracked()
    ensures Tracked(SeatCount)
  {
  }

  lemma NoSaleField(f: Field)
    requires f == PriceKrw || f == PriceSource || f == Options || f == Condition || Tracked(f)
    ensures !SoldPageField(f) && f != FingerprintField
  {
  }

  lemma SameShowSamePrint(a: Details, b: Details, id: string, price: int, seats: Json)
    requires Shows(a, id, price, seats) && Shows(b, id, price, seats)
    ensures Fingerprint(a) == Fingerprint(b)
  {
    hide Fingerprint, Get;
    SameFingerprint(a, b);
  }

  lemma OtherSeatsOtherPrint(a: Details, b: Details, id: string, price: int, seats: Json)
    requires Shows(a, id, price, Null) && Shows(b, id, price, seats) && seats != Null
    ensures Fingerprint(a) != Fingerprint(b)
  {
    assert SeatCount !in Fingerprint(a).of && SeatCount in Fingerprint(b).of;
  }

  /** Seats that appear are no material change, and a price never is one. */
  lemma NoMaterialBetween(a: Details, b: Details, id: string, earlier: int, price: int, known: Json, seats: Json)
    requires Shows(a, id, earlier, known) && Shows(b, id, price, seats) && (known == seats || known == Null)
    ensures MaterialChanges(a, b) == []
  {
    hide MaterialChanges;
    NoMaterialChange(a, b);
    hide ConditionValue;
  }

  lemma ShownOffer(d: Details, id: string, price: int, seats: Json)
    requires Shows(d, id, price, seats)
    ensures AuthoritativePrice(d) == Some(price) && Offer(d) == Str(Sale) && d != map[]
  {
    assert Tracked(OfferType);
  }

  // --- steps between such documents -----------------------------------------------

  /** The record shows this, and every project that has the car tracks and finds it. */
  ghost predicate RecordShows(w: World, id: string, price: int, seats: Json, status: Kind) {
    && Valid(w, Str(Word(id)))
    && w.file.car.Some? && !w.file.car.value.excluded
    && Shows(w.file.car.value.details, id, price, seats)
    && w.file.car.value.price == Some(price) && w.file.car.value.status == status
    && AllFind(w.file)
  }

  predicate AllFind(f: CarFile) {
    && (f.car.Some? ==> !f.car.value.excluded)
    && forall q | q in f.links :: f.links[q].tracking && f.links[q].searchStatus == Found
  }

  lemma ReadKeepsTracking(w: World, p: int, page: Details, mark: bool)
    requires AllFind(w.file) && (Truthy(Get(page, SoldFlag)) || SourceText(page) == CanonicalText(page))
    ensures Looks(w, Read(p, page, mark), p) && AllFind(Next(w, Read(p, page, mark)).file)
  {
    hide Merge, StatusAfter, StatusEvents, DetailEvents, RelistEvents, NewPricePoints, NewSnapshots,
      AuthoritativePrice, ChangeReport, PreviousState, Fingerprint, Truthy, CanonicalText, SourceText;
  }

  lemma SalePageIsReadable(id: string, price: int, seats: Option<int>)
    ensures var page := SalePage(id, price, seats);
            && CanonicalText(page) == Str(Word(id)) && SourceText(page) == Str(Word(id))
            && SoldFlag in page && !Truthy(page[SoldFlag])
  {
    SalePageFields(id, price, seats);
    hide SalePage;
  }

  lemma FirstSale(id: string, p: int, price: int)
    ensures var s := Read(p, SalePage(id, price, None), true);
            && Looks(START, s, p) && About(s, Str(Word(id)))
            && RecordShows(Next(START, s), id, price, Null, New)
            && Next(START, s).seen.Keys == {p} && Next(START, s).seen[p] == CarAfter(START, s)
            && CarAfter(START, s) == Next(START, s).file.car.value
  {
    hide Next, CarAfter, SalePage, Merge, StatusAfter, AuthoritativePrice, Valid, Shows, Looks, Truthy, Fingerprint,
      CanonicalText, SourceText;
    var page := SalePage(id, price, None);
    var s := Read(p, page, true);
    SalePageIsReadable(id, price, None);
    SaleMerges(map[], id, 0, Null, price, None);
    ReadKeepsTracking(START, p, page, true);
    StartIsValid(Str(Word(id)));
    StepKeepsValid(START, s, Str(Word(id)));
    LookRecords(START, s, p);
    LookLeaves(START, s, p, Str(Word(id)));
    FirstStatus(page);
    ShownOffer(Merge(map[], page), id, price, Null);
  }

  lemma FirstStatus(page: Details)
    requires SoldFlag in page && !Truthy(page[SoldFlag])
    ensures StatusAfter(EMPTY_FILE, Merge(map[], page)) == New
  {
    MergedSaleFlag(map[], page);
    hide Merge, Truthy, AuthoritativePrice;
  }

  /** The status a sale page leaves on a record that shows the same but for price and new seats. */
  function SaleStatus(earlier: int, price: int, status: Kind): Kind {
    if price < earlier then PriceDrop else if price > earlier then PriceIncrease else if status == Sold then Updated else status
  }

  lemma NextSale(w: World, id: string, earlier: int, known: Json, status: Kind, p: int, price: int, seats: Option<int>, mark: bool)
    requires RecordShows(w, id, earlier, known, status) && 0 < earlier && 0 < price
    requires known == Null || known == Seats(known, seats)
    ensures var s := Read(p, SalePage(id, price, seats), mark);
            && Looks(w, s, p) && About(s, Str(Word(id)))
            && RecordShows(Next(w, s), id, price, Seats(known, seats), SaleStatus(earlier, price, status))
            && Next(w, s).seen == w.seen[p := Next(w, s).file.car.value]
            && DocumentOnLook(w.file, s) == Next(w, s).file.car.value.details
            && PriceOnLook(w.file, s) == Some(price) && StatusOnLook(w.file, s) == SaleStatus(earlier, price, status)
  {
    hide Next, CarAfter, SalePage, Merge, StatusAfter, AuthoritativePrice, Valid, Shows, Looks, Truthy, Fingerprint,
      SaleStatus, MaterialChanges, CanonicalText, SourceText, Offer, Seats;
    var page := SalePage(id, price, seats);
    var s := Read(p, page, mark);
    var d := w.file.car.value.details;
    SalePageIsReadable(id, price, seats);
    SaleMerges(d, id, earlier, known, price, seats);
    ReadKeepsTracking(w, p, page, mark);
    StepKeepsValid(w, s, Str(Word(id)));
    LookRecords(w, s, p);
    LookLeaves(w, s, p, Str(Word(id)));
    ShownOffer(d, id, earlier, known);
    ShownOffer(Merge(d, page), id, price, Seats(known, seats));
    NoMaterialBetween(d, Merge(d, page), id, earlier, price, known, Seats(known, seats));
    MergedSaleFlag(d, page);
    SaleStatusIs(w.file, Merge(d, page), earlier, price);
  }

  lemma SaleStatusIs(f: CarFile, merged: Details, earlier: int, price: int)
    requires f.car.Some? && f.car.value.price == Some(earlier) && 0 < earlier && 0 < price && StoredDetails(f) != map[]
    requires AuthoritativePrice(merged) == Some(price) && !Truthy(Get(merged, SoldFlag))
    requires Offer(StoredDetails(f)) == Offer(merged) && MaterialChanges(StoredDetails(f), merged) == []
    ensures StatusAfter(f, merged) == SaleStatus(earlier, price, f.car.value.status)
  {
    hide AuthoritativePrice, Truthy, Offer, MaterialChanges, Fingerprint;
  }

  lemma EndOfSale(w: World, id: string, price: int, seats: Json, status: Kind, p: int)
    requires RecordShows(w, id, price, seats, status)
    ensures var s := Read(p, SaleEndedPage(id), false);
            && Looks(w, s, p) && About(s, Str(Word(id)))
            && RecordShows(Next(w, s), id, price, seats, Sold)
            && Next(w, s).seen == w.seen[p := Next(w, s).file.car.value]
  {
    hide Next, CarAfter, SaleEndedPage, Merge, StatusAfter, AuthoritativePrice, Valid, Shows, Looks, Truthy, Fingerprint,
      CanonicalText, SourceText, Offer;
    var page := SaleEndedPage(id);
    var s := Read(p, page, false);
    var d := w.file.car.value.details;
    EndPageFields(id);
    ShownOffer(d, id, price, seats);
    EndMerges(d, id, price, seats);
    ReadKeepsTracking(w, p, page, false);
    StepKeepsValid(w, s, Str(Word(id)));
    LookRecords(w, s, p);
    LookLeaves(w, s, p, Str(Word(id)));
    ShownOffer(Merge(d, page), id, price, seats);
    EndedStatus(w.file, page);
  }

  lemma EndedStatus(f: CarFile, page: Details)
    requires Truthy(Get(page, SoldFlag)) && StoredDetails(f) != map[]
    ensures StatusAfter(f, Merge(StoredDetails(f), page)) == Sold
  {
    hide AnnouncedChange, Revised;
    assert Get(MergeSold(StoredDetails(f), page), SoldFlag) == Bool(true);
  }

  lemma RunOf(w: World, steps: seq<Step>, s: Step)
    ensures Run(w, steps + [s]) == Next(Run(w, steps), s)
  {
    hide Next;
    assert (steps + [s])[..|steps + [s]| - 1] == steps;
  }

  // --- a price that came back -----------------------------------------------------

  /** Another project sees the price fall and rise again. */
  function PriceCameBack(id: string, high: int, low: int): seq<Step> {
    [Read(1, SalePage(id, high, None), true), Read(2, SalePage(id, low, None), true), Read(2, SalePage(id, high, None), true)]
  }

  /**
   A project rereads the very price and content that it saw last, and is told of a price
   increase from that price to itself, because another project saw the price fall and
   rise again in between and left its status on the shared record.
   */
  lemma PriceThatCameBackIsTold(id: string, high: int, low: int)
    requires 0 < low < high
    ensures var w := Run(START, PriceCameBack(id, high, low));
            var s := Read(1, SalePage(id, high, None), true);
            && Reachable(w, Str(Word(id))) && Looks(w, s, 1) && 1 in w.seen
            && PriceOnLook(w.file, s) == w.seen[1].price == Some(high)
            && Fingerprint(DocumentOnLook(w.file, s)) == w.seen[1].fingerprint
            && Told(w, s) == Some(Observed(PriceIncrease, Some(high), Some(high), []))
  {
    hide Next, SalePage, RecordShows, Looks, Told, DocumentOnLook, PriceOnLook, Fingerprint, CarAfter, AllAbout;
    var steps := PriceCameBack(id, high, low);
    var w1 := Next(START, steps[0]);
    var w2 := Next(w1, steps[1]);
    var w3 := Next(w2, steps[2]);
    FirstSale(id, 1, high);
    NextSale(w1, id, high, Null, New, 2, low, None, true);
    NextSale(w2, id, low, Null, PriceDrop, 2, high, None, true);
    ThreeSteps(steps);
    assert AllAbout(steps, Str(Word(id))) by {
      OnlyThree(steps, Str(Word(id)));
    }
    assert Reachable(w3, Str(Word(id)));
    CameBackIsTold(w3, w1.file.car.value, w1, id, high);
  }

  lemma OnlyThree(steps: seq<Step>, id: Json)
    requires |steps| == 3 && About(steps[0], id) && About(steps[1], id) && About(steps[2], id)
    ensures AllAbout(steps, id)
  {
    hide About;
  }

  lemma CameBackIsTold(w: World, seen: Car, first: World, id: string, price: int)
    requires Reachable(w, Str(Word(id))) && RecordShows(w, id, price, Null, PriceIncrease) && 0 < price
    requires RecordShows(first, id, price, Null, New) && first.file.car == Some(seen)
    requires 1 in w.seen && w.seen[1] == seen
    ensures var s := Read(1, SalePage(id, price, None), true);
            && Looks(w, s, 1)
            && PriceOnLook(w.file, s) == w.seen[1].price == Some(price)
            && Fingerprint(DocumentOnLook(w.file, s)) == w.seen[1].fingerprint
            && Told(w, s) == Some(Observed(PriceIncrease, Some(price), Some(price), []))
  {
    hide Next, SalePage, Shows, Valid, Looks, Told, DocumentOnLook, PriceOnLook, StatusOnLook, Fingerprint, CarAfter,
      FindsAgain, Reachable;
    var s := Read(1, SalePage(id, price, None), true);
    NextSale(w, id, price, Null, PriceIncrease, 1, price, None, true);
    ValidFingerprints(w, 1, Str(Word(id)));
    SameShowSamePrint(DocumentOnLook(w.file, s), w.seen[1].details, id, price, Null);
    NothingLost(w.file, s, 1);
    UnchangedCarIsQuiet(w, s, 1, Str(Word(id)));
  }

  lemma NothingLost(f: CarFile, s: Step, p: int)
    requires AllFind(f)
    ensures !FindsAgain(f, s, p)
  {
  }

  lemma ThreeSteps(steps: seq<Step>)
    requires |steps| == 3
    ensures Run(START, steps) == Next(Next(Next(START, steps[0]), steps[1]), steps[2])
  {
    hide Next;
    RunOf(START, [], steps[0]);
    RunOf(START, [steps[0]], steps[1]);
    RunOf(START, [steps[0], steps[1]], steps[2]);
    assert [] + [steps[0]] == [steps[0]] && [steps[0]] + [steps[1]] == [steps[0], steps[1]];
    assert steps == [steps[0], steps[1]] + [steps[2]];
  }

  // --- a return from sold that nobody tells ---------------------------------------

  /** Two projects know the car; one probes its end; the other's manual refresh finds it for sale, with new seats. */
  function SilentReturn(id: string, price: int, seats: int): seq<Step> {
    [Read(1, SalePage(id, price, None), true), Read(2, SalePage(id, price, None), true),
     Read(1, SaleEndedPage(id), false), Read(2, SalePage(id, price, Some(seats)), false)]
  }

  /**
   A project that saw the car sold comes across it in its search results, for sale again
   at the price it saw, and is told nothing.
   */
  lemma ReturnThatIsNotTold(id: string, price: int, seats: int)
    requires 0 < price
    ensures var w := Run(START, SilentReturn(id, price, seats));
            var s := Listed(1);
            && Reachable(w, Str(Word(id))) && Looks(w, s, 1) && 1 in w.seen
            && w.seen[1].status == Sold && StatusOnLook(w.file, s) == Updated
            && Told(w, s) == None
  {
    hide Next, SalePage, SaleEndedPage, RecordShows, Looks, Told, Fingerprint, CarAfter, AllAbout, StatusOnLook, About,
      Run, Valid, Reachable;
    var steps := SilentReturn(id, price, seats);
    var ended := Next(Next(Next(START, steps[0]), steps[1]), steps[2]);
    var back := Next(ended, steps[3]);
    SilentReturnStates(id, price, seats, ended, back);
    FourSteps(steps);
    OnlyFour(steps, Str(Word(id)));
    RunIsReachable(steps, Str(Word(id)));
    ReturnIsNotTold(back, ended, id, price, seats);
  }

  lemma RunIsReachable(steps: seq<Step>, id: Json)
    requires AllAbout(steps, id)
    ensures Reachable(Run(START, steps), id)
  {
  }

  lemma SilentReturnStates(id: string, price: int, seats: int, ended: World, back: World)
    requires 0 < price
    requires ended == Next(Next(Next(START, Read(1, SalePage(id, price, None), true)),
                                Read(2, SalePage(id, price, None), true)), Read(1, SaleEndedPage(id), false))
    requires back == Next(ended, Read(2, SalePage(id, price, Some(seats)), false))
    ensures RecordShows(ended, id, price, Null, Sold) && RecordShows(back, id, price, Int(seats), Updated)
    ensures 1 in back.seen && ended.file.car == Some(back.seen[1])
    ensures About(Read(1, SalePage(id, price, None), true), Str(Word(id)))
    ensures About(Read(2, SalePage(id, price, None), true), Str(Word(id)))
    ensures About(Read(1, SaleEndedPage(id), false), Str(Word(id)))
    ensures About(Read(2, SalePage(id, price, Some(seats)), false), Str(Word(id)))
  {
    hide Next, SalePage, SaleEndedPage, Looks, Fingerprint, CarAfter, StatusOnLook, PriceOnLook, DocumentOnLook, About,
      Valid, Shows;
    var w1 := Next(START, Read(1, SalePage(id, price, None), true));
    var w2 := Next(w1, Read(2, SalePage(id, price, None), true));
    FirstSale(id, 1, price);
    NextSale(w1, id, price, Null, New, 2, price, None, true);
    EndOfSale(w2, id, price, Null, New, 1);
    NextSale(ended, id, price, Null, Sold, 2, price, Some(seats), false);
  }

  lemma OnlyFour(steps: seq<Step>, id: Json)
    requires |steps| == 4 && About(steps[0], id) && About(steps[1], id) && About(steps[2], id) && About(steps[3], id)
    ensures AllAbout(steps, id)
  {
    hide About;
  }

  lemma ReturnIsNotTold(w: World, ended: World, id: string, price: int, seats: int)
    requires Reachable(w, Str(Word(id))) && RecordShows(w, id, price, Int(seats), Updated)
    requires RecordShows(ended, id, price, Null, Sold)
    requires 1 in w.seen && ended.file.car == Some(w.seen[1])
    ensures var s := Listed(1);
            && Looks(w, s, 1) && w.seen[1].status == Sold && StatusOnLook(w.file, s) == Updated
            && Told(w, s) == None
  {
    hide Next, Shows, Valid, Told, Fingerprint, CarAfter, MaterialChanges, PreviousState, Reachable;
    var s := Listed(1);
    var seen, car := w.seen[1], w.file.car.value;
    OtherSeatsOtherPrint(seen.details, car.details, id, price, Int(seats));
    NoMaterialBetween(seen.details, car.details, id, price, price, Null, Int(seats));
    ValidFingerprints(w, 1, Str(Word(id)));
    PreviousIsWhatWasSeen(w, 1, Str(Word(id)));
    SameListingTransitive(Compared(w.file, 1), seen.details, car.details);
    ListedLooks(w, 1);
    hide Looks;
    ReturnFromSoldIsTold(w, s, 1, Str(Word(id)));
  }

  lemma ListedLooks(w: World, p: int)
    requires w.file.car.Some? && AllFind(w.file) && w.file.car.value.status != Sold
    ensures Looks(w, Listed(p), p)
  {
  }

  lemma FourSteps(steps: seq<Step>)
    requires |steps| == 4
    ensures Run(START, steps) == Next(Next(Next(Next(START, steps[0]), steps[1]), steps[2]), steps[3])
  {
    hide Next;
    ThreeSteps(steps[..3]);
    RunOf(START, steps[..3], steps[3]);
    assert steps == steps[..3] + [steps[3]];
  }

  // --- a condition entry that is lost ---------------------------------------------

  /** A document with one condition entry. */
  function WithEntry(k: Field, entry: Json): Details {
    map[SoldFlag := Bool(false), Condition := Obj(map[k := entry])]
  }

  /** A confirmed entry is lost to a page whose entry carries no grade. */
  lemma UngradedEntryLosesConfirmation(k: Field)
    ensures var known := WithEntry(k, Obj(map[Status := Str(ConfirmedText)]));
            var page := WithEntry(k, Obj(map[]));
            && Established(Get(Entries(Get(known, Condition)), k))
            && !Established(Get(Entries(Get(Merge(known, page), Condition)), k))
  {
    var known := WithEntry(k, Obj(map[Status := Str(ConfirmedText)]));
    var page := WithEntry(k, Obj(map[]));
    EstablishedConditionLost(known, page, k);
    hide Merge;
  }
}
