/**
 The price history of one shared listing over any run (backend/app/services.py):
 it ends at the current price, never repeats a price, and every step in it was
 announced exactly once.
 */
module LedgerHistory {
  import opened Listing
  import opened Merging
  import opened Ledger
  import opened LedgerRuns
  import opened Wrappers

  /** Prices that a page carries are positive. */
  predicate Priced(d: Details) {
    Get(d, PriceKrw).Int? ==> Get(d, PriceKrw).n > 0
  }

  ghost predicate GoodHistory(f: CarFile) {
    && (f.history == [] <==> StoredPrice(f) == None)
    && (f.history != [] ==> StoredPrice(f) == Some(f.history[|f.history| - 1].price))
    && (StoredPrice(f).Some? ==> StoredPrice(f).value > 0)
    && (forall i | 0 <= i < |f.history| - 1 :: f.history[i].price != f.history[i + 1].price)
    && Priced(StoredDetails(f))
  }

  function PriceMoves(events: seq<Event>): seq<Event> {
    if events == [] then []
    else
      var last := events[|events| - 1];
      PriceMoves(events[..|events| - 1]) + if last.PriceMoved? then [last] else []
  }

  lemma {:induction false} PriceMovesOfSum(a: seq<Event>, b: seq<Event>)
    ensures PriceMoves(a + b) == PriceMoves(a) + PriceMoves(b)
  {
    if b == [] {
      assert a + b == a;
    } else {
      assert (a + b)[..|a + b| - 1] == a + b[..|b| - 1];
      PriceMovesOfSum(a, b[..|b| - 1]);
    }
  }

  lemma {:induction false} NoPriceMoves(events: seq<Event>)
    requires forall e | e in events :: !e.PriceMoved?
    ensures PriceMoves(events) == []
  {
    if events != [] {
      NoPriceMoves(events[..|events| - 1]);
    }
  }

  lemma OnePriceMove(e: Event)
    ensures PriceMoves([e]) == if e.PriceMoved? then [e] else []
  {
    assert [e][..0] == [];
  }

  // --- one update -----------------------------------------------------------------

  lemma MergedPrice(known: Details, page: Details)
    requires Priced(known) && Priced(page)
    ensures Priced(Merge(known, page))
  {
    SoldAt(known, page, PriceKrw);
    LiveAt(known, page, PriceKrw);
    hide MergeLive, MergeSold;
  }

  /** A sold page never brings a price of its own once the listing is known. */
  lemma SoldPageHasNoNews(f: CarFile, page: Details, id: Json)
    requires GoodCar(f, id) && CanonicalText(page) == id && f.car.Some?
    requires Truthy(Get(page, SoldFlag))
    ensures var merged := Merge(StoredDetails(f), page);
            NewPricePoints(f, merged) == [] && !AnnouncedChange(f, merged).Moved?
  {
    SoldPageKeepsListing(f.car.value.details, page);
    hide Merge, MaterialChanges, Fingerprint, AuthoritativePrice, CanonicalText, Truthy, Offer;
  }

  /** The price events one update writes. */
  function Moves(f: CarFile, merged: Details): seq<Event> {
    PriceMoves(StatusEvents(f, merged))
  }

  lemma MovesInTheMiddle(a: seq<Event>, b: seq<Event>, c: seq<Event>, d: seq<Event>, e: seq<Event>)
    requires forall x | x in b || x in d || x in e :: !x.PriceMoved?
    ensures PriceMoves(a + b + c + d + e) == PriceMoves(a) + PriceMoves(c)
  {
    NoPriceMoves(b);
    NoPriceMoves(d);
    NoPriceMoves(e);
    PriceMovesOfSum(a, b);
    PriceMovesOfSum(a + b, c);
    PriceMovesOfSum(a + b + c, d);
    PriceMovesOfSum(a + b + c + d, e);
  }

  lemma OnlyStatusEventsMovePrices(f: CarFile, p: int, merged: Details, mark: bool)
    ensures PriceMoves(Stored(f, p, merged, mark).events) == PriceMoves(f.events) + Moves(f, merged)
  {
    var created: seq<Event> := if f.car.None? then [NewCar(merged)] else [];
    DetailEventsMoveNoPrice(f, merged);
    hide StatusEvents, DetailEvents, StatusAfter, NewSnapshots, NewPricePoints, Truthy, AuthoritativePrice, PriceMoves;
    MovesInTheMiddle(f.events, created, StatusEvents(f, merged), DetailEvents(f, merged), RelistEvents(f, p, mark));
  }

  lemma DetailEventsMoveNoPrice(f: CarFile, merged: Details)
    ensures forall e | e in DetailEvents(f, merged) :: !e.PriceMoved?
  {
    hide Truthy, AccidentSignature;
  }

  /**
   One update and the price record. A new point follows a different last point, and
   is announced by exactly one event with the two prices in the right direction,
   unless the offer type moved too; without a new point no price event is written.
   */
  lemma EachPointIsAnnounced(f: CarFile, page: Details, id: Json)
    requires GoodCar(f, id) && GoodHistory(f) && CanonicalText(page) == id
    requires Priced(page) && SoldFlag in page
    ensures var merged := Merge(StoredDetails(f), page);
            var points, moves := NewPricePoints(f, merged), Moves(f, merged);
            && |points| <= 1
            && (points == [] || f.history == [] ==> moves == [])
            && (points != [] && f.history != [] ==>
                  var last, next := f.history[|f.history| - 1].price, points[0].price;
                  && last != next
                  && moves == if Offer(StoredDetails(f)) != Offer(merged) then []
                              else [PriceMoved(if next < last then PriceDrop else PriceIncrease, last, next,
                                               if next < last then last - next else next - last)])
  {
    hide Merge, Truthy, Moves, NewPricePoints, Offer, AnnouncedChange, MaterialChanges, Fingerprint, AuthoritativePrice;
    var merged := Merge(StoredDetails(f), page);
    MergedPrice(StoredDetails(f), page);
    MergedSoldFlag(StoredDetails(f), page);
    if f.car.Some? && Truthy(Get(page, SoldFlag)) {
      SoldPageHasNoNews(f, page, id);
    }
    assert f.car.None? ==> f.history == [];
    assert f.car.Some? ==> StoredDetails(f) != map[];
    hide GoodCar, GoodHistory, CanonicalText;
    MergedPointIsAnnounced(f, merged);
  }

  lemma PositivePrice(d: Details)
    requires Priced(d)
    ensures AuthoritativePrice(d).Some? ==> AuthoritativePrice(d).value > 0
  {
  }

  lemma MergedPointIsAnnounced(f: CarFile, merged: Details)
    requires GoodHistory(f) && (f.car.None? ==> f.history == []) && Priced(merged)
    requires f.car.Some? && Truthy(Get(merged, SoldFlag)) ==>
               NewPricePoints(f, merged) == [] && !AnnouncedChange(f, merged).Moved?
    requires f.car.Some? ==> StoredDetails(f) != map[]
    ensures var points, moves := NewPricePoints(f, merged), Moves(f, merged);
            && |points| <= 1
            && (points == [] || f.history == [] ==> moves == [])
            && (points != [] && f.history != [] ==>
                  var last, next := f.history[|f.history| - 1].price, points[0].price;
                  && last != next
                  && moves == if Offer(StoredDetails(f)) != Offer(merged) then []
                              else [PriceMoved(if next < last then PriceDrop else PriceIncrease, last, next,
                                               if next < last then last - next else next - last)])
  {
    PositivePrice(merged);
    StatusMoves(f, merged);
    hide AuthoritativePrice, Truthy, Moves, Priced, Offer, Get, Revised, Differences;
  }

  lemma MergedSoldFlag(known: Details, page: Details)
    requires SoldFlag in page
    ensures Truthy(Get(Merge(known, page), SoldFlag)) <==> Truthy(page[SoldFlag])
  {
    LiveAt(known, page, SoldFlag);
    hide MergeLive;
  }

  lemma StatusMoves(f: CarFile, merged: Details)
    ensures Moves(f, merged)
      == if !Truthy(Get(merged, SoldFlag)) && AnnouncedChange(f, merged).Moved? then StatusEvents(f, merged) else []
  {
    hide Truthy, AnnouncedChange, Revised, Differences;
    var events := StatusEvents(f, merged);
    if events == [] {
    } else {
      assert events == [events[0]];
      OnePriceMove(events[0]);
    }
  }

  lemma StoredRecord(f: CarFile, p: int, merged: Details, mark: bool)
    ensures var g := Stored(f, p, merged, mark);
            && StoredDetails(g) == merged
            && StoredPrice(g) == (if AuthoritativePrice(merged).Some? then AuthoritativePrice(merged) else StoredPrice(f))
            && g.history == f.history + NewPricePoints(f, merged)
  {
    hide AuthoritativePrice, StatusAfter, StatusEvents, DetailEvents, RelistEvents, NewSnapshots, NewPricePoints;
  }

  lemma MergedKeepsHistory(f: CarFile, g: CarFile, merged: Details)
    requires GoodHistory(f) && Priced(merged)
    requires StoredDetails(g) == merged
    requires StoredPrice(g) == if AuthoritativePrice(merged).Some? then AuthoritativePrice(merged) else StoredPrice(f)
    requires g.history == f.history + NewPricePoints(f, merged)
    ensures GoodHistory(g)
  {
    PositivePrice(merged);
    hide AuthoritativePrice, StoredDetails, StoredPrice, Priced, Offer;
  }

  lemma StoredKeepsHistory(f: CarFile, p: int, page: Details, mark: bool)
    requires GoodHistory(f) && Priced(page)
    ensures GoodHistory(Stored(f, p, Merge(StoredDetails(f), page), mark))
  {
    hide Merge, Stored, AuthoritativePrice, NewPricePoints, Priced;
    assert Priced(StoredDetails(f)) by {
      hide StoredDetails;
    }
    MergedPrice(StoredDetails(f), page);
    var merged := Merge(StoredDetails(f), page);
    hide GoodHistory;
    StoredRecord(f, p, merged, mark);
    MergedKeepsHistory(f, Stored(f, p, merged, mark), merged);
  }

  // --- any run --------------------------------------------------------------------

  ghost predicate PricedRun(steps: seq<Step>) {
    forall s | s in steps && s.Read? :: Priced(s.page) && SoldFlag in s.page
  }

  /** The step adds a later price point together with another offer type. */
  predicate JumpsOffer(f: CarFile, s: Step) {
    && s.Read? && Verdict(f, s.project, s.page) == Accepted
    && f.history != []
    && var merged := Merge(StoredDetails(f), s.page);
    && NewPricePoints(f, merged) != [] && Offer(StoredDetails(f)) != Offer(merged)
  }

  function Jumps(steps: seq<Step>): nat {
    if steps == [] then 0
    else
      var prefix := steps[..|steps| - 1];
      Jumps(prefix) + (if JumpsOffer(Run(START, prefix).file, steps[|steps| - 1]) then 1 else 0)
  }

  function LaterPoints(f: CarFile): nat {
    if f.history == [] then 0 else |f.history| - 1
  }

  lemma StepKeepsHistory(w: World, s: Step, id: Json)
    requires Valid(w, id) && GoodHistory(w.file) && About(s, id) && id != Null
    requires s.Read? ==> Priced(s.page) && SoldFlag in s.page
    ensures var v := Next(w, s);
            && GoodHistory(v.file)
            && w.file.history <= v.file.history
            && LaterPoints(v.file) - |PriceMoves(v.file.events)|
               == LaterPoints(w.file) - |PriceMoves(w.file.events)| + (if JumpsOffer(w.file, s) then 1 else 0)
  {
    var f := w.file;
    if s.Read? {
      if Verdict(f, s.project, s.page) == Accepted {
        var merged := Merge(StoredDetails(f), s.page);
        StoredKeepsHistory(f, s.project, s.page, s.markFound);
        EachPointIsAnnounced(f, s.page, id);
        OnlyStatusEventsMovePrices(f, s.project, merged, s.markFound);
        RememberingKeepsHistory(Stored(f, s.project, merged, s.markFound), s.project);
        hide Merge, Moves, PriceMoves, StatusAfter, StatusEvents, DetailEvents, RelistEvents, NewSnapshots,
          AuthoritativePrice, GoodHistory, Valid, Offer, CanonicalText, Truthy;
      }
    } else {
      OtherStepKeepsHistory(w, s, id);
    }
  }

  lemma RememberingKeepsHistory(f: CarFile, p: int)
    requires f.car.Some? && p in f.links && GoodHistory(f)
    ensures GoodHistory(Remembered(f, p))
  {
    hide Priced;
  }

  lemma OtherStepKeepsHistory(w: World, s: Step, id: Json)
    requires GoodHistory(w.file) && !s.Read?
    ensures GoodHistory(Next(w, s).file) && Next(w, s).file.history == w.file.history
    ensures PriceMoves(Next(w, s).file.events) == PriceMoves(w.file.events)
  {
    hide Priced, Fingerprint, ChangeReport, PreviousState, PriceMoves;
    var f := w.file;
    match s {
      case Listed(p) => QuietEvents(f.events, RelistEvents(f, p, true));
      case ReadFailed(p) => QuietEvents(f.events, RelistEvents(f, p, true));
      case Searched(p, found, sold) =>
        var g := Absent(f, p, found, sold);
        QuietEvents(f.events, g.events[|f.events|..]);
        assert g.events == f.events + g.events[|f.events|..];
      case Removed(p) => QuietEvents(f.events, [RemovedFrom(p)]);
    }
  }

  lemma QuietEvents(events: seq<Event>, extra: seq<Event>)
    requires forall e | e in extra :: !e.PriceMoved?
    ensures PriceMoves(events + extra) == PriceMoves(events)
  {
    NoPriceMoves(extra);
    PriceMovesOfSum(events, extra);
  }

  /**
   After any run of positively priced reads: the history ends at the current price,
   no two neighbouring points are equal, and the later points are counted by the
   price events and the offer changes that came with them.
   */
  lemma {:induction false} HistoryIsExplained(steps: seq<Step>, id: Json)
    requires AllAbout(steps, id) && PricedRun(steps) && id != Null
    ensures var f := Run(START, steps).file;
            GoodHistory(f) && LaterPoints(f) == |PriceMoves(f.events)| + Jumps(steps)
  {
    StartIsValid(id);
    RunKeepsValid(START, steps, id);
    if steps != [] {
      var prefix, last := steps[..|steps| - 1], steps[|steps| - 1];
      assert forall s | s in prefix :: s in steps;
      assert last in steps;
      HistoryIsExplained(prefix, id);
      RunKeepsValid(START, prefix, id);
      hide Valid, GoodHistory, Next, PriceMoves, CanonicalText, JumpsOffer;
      StepKeepsHistory(Run(START, prefix), last, id);
    }
  }

  /** With a price of zero the history falls behind: the price is stored, the point is not. */
  lemma ZeroPriceIsNotInTheHistory(f: CarFile, p: int, merged: Details, mark: bool)
    requires AuthoritativePrice(merged) == Some(0)
    ensures var g := Stored(f, p, merged, mark);
            g.car.value.price == Some(0) && g.history == f.history
  {
    hide AuthoritativePrice, StatusAfter, StatusEvents, DetailEvents, RelistEvents, NewSnapshots;
  }
}
