/**
 Which reads a pass orders and what they come to, in terms of the stored files, the rows
 and the pages (backend/app/worker.py, `detail_read_kind` of backend/app/parser.py).
 */
module ScanReads {
  import opened Ledger
  import opened LedgerRuns
  import opened LedgerUpdates
  import opened Listing
  import opened Merging
  import opened ScanPass
  import opened Wrappers

  // --- which reads are ordered ----------------------------------------------------

  /** A row may lead to something: its car is new, or known, wanted and not sold. */
  predicate Open(f: CarFile, p: int) {
    f.car.None? || (!Unwanted(f, p) && f.car.value.status != Sold)
  }

  /** The result list cannot settle the price: it or the record shows none, or they differ. */
  predicate PriceInDoubt(car: Car, row: Row) {
    row.listPrice.None? || car.price.None? || row.listPrice.value != car.price.value
  }

  /** A full read is for accurate scans, new cars and manual refreshes; no read is for a fast scan with no question open. */
  lemma SmallestReadExactly(mode: Mode, isNew: bool, changed: bool, missing: bool, gone: bool, manual: bool)
    ensures var read := DetailReadKind(mode, isNew, changed, missing, gone, manual);
            && (read == Some(FullRead) <==> mode == Accurate || isNew || manual)
            && (read == None <==> mode == Fast && !isNew && !manual && !changed && !missing && !gone)
  {
  }

  /**
   The read a row leads to: a full one in an accurate scan and for a new car; in a fast
   scan of a known car a probe exactly when the price is in doubt; and nothing at all for
   a car that is sold or that nobody wants.
   */
  lemma RowReadExactly(f: CarFile, p: int, row: Row, mode: Mode)
    ensures RowTask(f, p, row, mode)
            == if !Open(f, p) then None
               else if mode == Accurate || f.car.None? then Some(Task(row.id, FullRead, true))
               else if PriceInDoubt(f.car.value, row) then Some(Task(row.id, PriceProbe, true))
               else None
  {
  }

  /** What the walk over the rows does at once: only a row without a read that is not passed over is seen on the spot. */
  lemma RowIsSeenAtOnceExactly(f: CarFile, p: int, row: Row, mode: Mode)
    ensures RowFound(f, p) <==> f.car.Some? && Open(f, p)
    ensures RowFile(f, p, row, mode)
            == if f.car.Some? && Open(f, p) && mode == Fast && !PriceInDoubt(f.car.value, row)
               then Remembered(FoundWithoutDetail(f, p), p) else f
  {
    hide ChangeReport, PreviousState, RelistEvents, Fingerprint;
  }

  /** Without a row, a probe that does not count as finding the car, for exactly the wanted cars that are not sold. */
  lemma MissingReadExactly(f: CarFile, p: int, id: string, mode: Mode)
    ensures Ordered(f, p, Experience(id, None, None), mode)
            == if f.car.Some? && p in f.links && Open(f, p) then Some(Task(id, PriceProbe, false)) else None
  {
  }

  // --- what the reads come to -----------------------------------------------------

  /** The document that a read of this kind stores. */
  function Stored(kind: ReadKind, page: Details): Details {
    match kind
    case FullRead => page
    case PriceProbe => ProbeDetail(page)
  }

  lemma ProbeShowsAnother(page: Details)
    ensures ShowsAnother(ProbeDetail(page)) <==> ShowsAnother(page)
  {
    ProbeAt(page, CanonicalCarId);
    ProbeAt(page, SourceCarId);
    ProbeFlags(page);
    hide ProbeDetail, Truthy;
  }

  /** A pass is aborted exactly by a reader that gives up or a page for sale of another listing. */
  lemma AbortsExactly(f: CarFile, p: int, task: Task, result: ReadResult)
    ensures Aborts(f, p, task, result) <==> result.Abort? || (result.Page? && ShowsAnother(result.details))
  {
    if result.Page? {
      ReadIsRefusedExactly(f, p, Document(task, result.details), task.markFound);
      ProbeShowsAnother(result.details);
    }
    hide ProbeDetail, ShowsAnother, Verdict;
  }

  /**
   What a result comes to. A page of a wanted car is stored, as a probe or in full, and
   says whether the car is sold. After a failed read, a car that a row showed still counts
   as found. Nothing else happens.
   */
  lemma ResultExactly(f: CarFile, p: int, task: Task, result: ReadResult)
    requires !(result.Abort? || (result.Page? && ShowsAnother(result.details)))
    ensures ResultFile(f, p, task, result)
            == if result.Page? && !Unwanted(f, p) then
                 ReadObserved(f, p, Stored(task.kind, result.details), task.markFound).0
               else if result.ReadError? && task.markFound && f.car.Some? && p in f.links then FoundWithoutDetail(f, p)
               else f
    ensures ResultFound(f, p, task, result) <==>
      task.markFound && ((result.Page? && !Unwanted(f, p)) || (result.ReadError? && f.car.Some? && p in f.links))
    ensures ResultSold(f, p, task, result) <==>
      result.Page? && !Unwanted(f, p) && Truthy(Get(result.details, SoldFlag))
  {
    if result.Page? {
      ReadIsRefusedExactly(f, p, Document(task, result.details), task.markFound);
      ProbeShowsAnother(result.details);
    }
    hide ProbeDetail, ShowsAnother, Verdict, ReadObserved, FoundWithoutDetail, Unwanted, Truthy;
  }

  // --- what a completed pass does to one listing ----------------------------------

  lemma SoldAfterUpdate(f: CarFile, p: int, detail: Details, mark: bool)
    requires Verdict(f, p, detail) == Accepted
    ensures var g := Upserted(f, p, detail, mark);
            g.car.Some? && (g.car.value.status == Sold <==> Truthy(Get(Merge(StoredDetails(f), detail), SoldFlag)))
  {
    hide Merge, Verdict, AnnouncedChange, Revised, StatusEvents, DetailEvents, RelistEvents, NewPricePoints, NewSnapshots,
      AuthoritativePrice, Truthy;
  }

  lemma ObservedKeepsRecord(f: CarFile, p: int, detail: Details, mark: bool)
    requires Verdict(f, p, detail) == Accepted
    ensures ReadObserved(f, p, detail, mark).0.car == Upserted(f, p, detail, mark).car
  {
    hide Merge, StatusAfter, StatusEvents, DetailEvents, RelistEvents, NewPricePoints, NewSnapshots,
      AuthoritativePrice, ChangeReport, PreviousState, Fingerprint, Truthy, SourceText, CanonicalText;
  }

  /** The record that a stored page leaves. */
  lemma StoredLeaves(f: CarFile, p: int, detail: Details, mark: bool)
    requires !ShowsAnother(detail) && !Unwanted(f, p)
    ensures var merged := Merge(StoredDetails(f), detail);
            var g := ReadObserved(f, p, detail, mark).0;
            && g.car.Some? && g.car.value.details == merged
            && g.car.value.price == (if AuthoritativePrice(merged).Some? then AuthoritativePrice(merged)
                                     else if f.car.Some? then f.car.value.price else None)
            && (g.car.value.status == Sold <==> Truthy(Get(merged, SoldFlag)))
  {
    hide Upserted, ReadObserved, Merge, AuthoritativePrice, Truthy, ShowsAnother, Verdict, Fingerprint, Offer, Unwanted;
    ReadIsRefusedExactly(f, p, detail, mark);
    RecordAfterUpdate(f, p, detail, mark);
    SoldAfterUpdate(f, p, detail, mark);
    ObservedKeepsRecord(f, p, detail, mark);
  }

  /** The price of a page for sale that brings one is the price of the merged document. */
  lemma PriceIsTaken(known: Details, page: Details, price: int)
    requires SoldFlag in page && !Truthy(page[SoldFlag]) && AuthoritativePrice(page) == Some(price)
    ensures AuthoritativePrice(Merge(known, page)) == Some(price) && !Truthy(Get(Merge(known, page), SoldFlag))
  {
    hide Merge, Truthy, UNKNOWN;
    assert PriceKrw in page && PriceSource in page;
    LivePageAt(known, page, PriceKrw);
    LivePageAt(known, page, PriceSource);
    LivePageAt(known, page, SoldFlag);
  }

  /** The price a probe of a car for sale brings; it is taken to be the listing's own unless the probe names its source. */
  lemma ProbeBringsPrice(page: Details, price: int)
    ensures AuthoritativePrice(ProbeDetail(page)) == Some(price)
      <==> !Truthy(Get(page, SoldFlag)) && Get(page, PriceKrw) == Int(price)
           && (PriceSource in page ==>
                 page[PriceSource] in {Str(DetailPrimary), Str(DetailRentalMonthly), Str(DetailLeaseMonthly)})
  {
    hide ProbeDetail, Truthy;
    ProbeAt(page, PriceKrw);
    ProbeFlags(page);
  }

  /** A read comes back exactly where one is needed: for a row as it orders one, else for a wanted car that no row shows. */
  lemma ReadComesBackExactly(f: CarFile, p: int, e: Experience, mode: Mode)
    requires Answers(f, p, e, mode)
    ensures e.result.Some? <==>
      Open(f, p) && if e.row.None? then f.car.Some? && p in f.links
                    else mode == Accurate || f.car.None? || PriceInDoubt(f.car.value, e.row.value)
  {
    hide Aborts, Walked, RowTask, Unwanted;
    if e.row.Some? {
      RowReadExactly(f, p, e.row.value, mode);
    } else {
      MissingReadExactly(f, p, e.id, mode);
      assert Ordered(f, p, e, mode).Some? <==> Ordered(f, p, Experience(e.id, None, None), mode).Some?;
    }
  }

  /** The kind of the read that came back. */
  function KindOf(f: CarFile, e: Experience, mode: Mode): ReadKind {
    if e.row.Some? && (mode == Accurate || f.car.None?) then FullRead else PriceProbe
  }

  lemma OrderedIs(f: CarFile, p: int, e: Experience, mode: Mode)
    requires Answers(f, p, e, mode) && e.result.Some?
    ensures var task := Ordered(f, p, e, mode);
            && task.Some? && task.value.kind == KindOf(f, e, mode) && task.value.markFound == e.row.Some?
            && Walked(f, p, e.row, mode) == f && Open(f, p)
            && !(e.result.value.Abort? || (e.result.value.Page? && ShowsAnother(e.result.value.details)))
  {
    hide Aborts, Unwanted, RowTask, RowFile, ShowsAnother;
    if e.row.Some? {
      RowReadExactly(f, p, e.row.value, mode);
      RowIsSeenAtOnceExactly(f, p, e.row.value, mode);
    } else {
      MissingReadExactly(f, p, e.id, mode);
      assert Ordered(f, p, e, mode) == Ordered(f, p, Experience(e.id, None, None), mode);
    }
    var task := Ordered(f, p, e, mode);
    AbortsExactly(f, p, task.value, e.result.value);
  }

  lemma ResultingIs(f: CarFile, p: int, e: Experience, mode: Mode)
    requires Answers(f, p, e, mode) && e.result.Some? && e.result.value.Page?
    ensures Resulting(f, p, e, mode)
            == ReadObserved(f, p, Stored(KindOf(f, e, mode), e.result.value.details), e.row.Some?).0
    ensures ConfirmedSold(f, p, e, mode) <==> Truthy(Get(e.result.value.details, SoldFlag))
    ensures !Unwanted(f, p) && !ShowsAnother(Stored(KindOf(f, e, mode), e.result.value.details))
  {
    hide Aborts, Ordered, Walked, ReadObserved, ResultFile, ResultSold, ProbeDetail, ShowsAnother, Answers;
    OrderedIs(f, p, e, mode);
    ProbeShowsAnother(e.result.value.details);
    ResultExactly(f, p, Ordered(f, p, e, mode).value, e.result.value);
  }

  lemma JudgedRecord(f: CarFile, p: int, e: Experience, mode: Mode)
    requires Answers(f, p, e, mode)
    ensures var g := Resulting(f, p, e, mode);
            Judged(f, p, e, mode).car
            == if g.car.Some? && p in g.links && !Unwanted(g, p) && ConfirmedSold(f, p, e, mode)
               then Some(g.car.value.(status := Sold)) else g.car
  {
    hide Resulting, Seen, ConfirmedSold, Answers, Unwanted, Absent;
    SearchEndsExactly(Resulting(f, p, e, mode), p, Seen(f, p, e, mode), ConfirmedSold(f, p, e, mode));
  }

  /**
   Whatever price the list showed, a completed pass whose read brought a price for sale
   ends with that price and the car not sold.
   */
  lemma PassSettlesPrice(f: CarFile, p: int, e: Experience, mode: Mode, price: int)
    requires Answers(f, p, e, mode) && e.result.Some? && e.result.value.Page?
    requires var detail := Stored(KindOf(f, e, mode), e.result.value.details);
             AuthoritativePrice(detail) == Some(price) && SoldFlag in detail && !Truthy(detail[SoldFlag])
    ensures var car := Judged(f, p, e, mode).car;
            car.Some? && car.value.price == Some(price) && car.value.status != Sold
  {
    hide Judged, Resulting, ConfirmedSold, Answers, Unwanted, ReadObserved, Merge, Truthy, AuthoritativePrice, ShowsAnother,
      ProbeDetail;
    var page := e.result.value.details;
    var detail := Stored(KindOf(f, e, mode), page);
    ResultingIs(f, p, e, mode);
    PriceIsTaken(StoredDetails(f), detail, price);
    StoredLeaves(f, p, detail, e.row.Some?);
    ProbeFlags(page);
    JudgedRecord(f, p, e, mode);
  }

  /** A read that says "sold" ends with the known car sold, at the price and with the description it had. */
  lemma PassEndsSale(f: CarFile, p: int, e: Experience, mode: Mode, k: Field)
    requires Answers(f, p, e, mode) && e.result.Some? && e.result.value.Page?
    requires Truthy(Get(e.result.value.details, SoldFlag))
    requires f.car.Some? && f.car.value.details != map[]
    requires var price := AuthoritativePrice(f.car.value.details); price.Some? ==> f.car.value.price == price
    requires k !in SOLD_PAGE_FIELDS && k != FingerprintField
    ensures var car := Judged(f, p, e, mode).car;
            && car.Some? && car.value.status == Sold && car.value.price == f.car.value.price
            && Get(car.value.details, k) == Get(f.car.value.details, k)
  {
    hide Judged, Resulting, ConfirmedSold, Answers, Unwanted, ReadObserved, Merge, Truthy, ShowsAnother, ProbeDetail,
      SOLD_PAGE_FIELDS;
    var known, page := f.car.value.details, e.result.value.details;
    var detail := Stored(KindOf(f, e, mode), page);
    ResultingIs(f, p, e, mode);
    SoldStored(f, e, mode);
    SoldMergeKeeps(known, detail, k);
    StoredLeaves(f, p, detail, e.row.Some?);
    JudgedRecord(f, p, e, mode);
  }

  lemma SoldStored(f: CarFile, e: Experience, mode: Mode)
    requires e.result.Some? && e.result.value.Page?
    ensures var page := e.result.value.details;
            Truthy(Get(page, SoldFlag)) ==> Truthy(Get(Stored(KindOf(f, e, mode), page), SoldFlag))
  {
    ProbeFlags(e.result.value.details);
    hide ProbeDetail, Truthy;
  }

  lemma SoldMergeKeeps(known: Details, detail: Details, k: Field)
    requires Truthy(Get(detail, SoldFlag)) && known != map[]
    ensures var merged := Merge(known, detail);
            && Truthy(Get(merged, SoldFlag)) && AuthoritativePrice(merged) == AuthoritativePrice(known)
            && (k !in SOLD_PAGE_FIELDS && k != FingerprintField ==> Get(merged, k) == Get(known, k))
  {
    SoldPageAt(known, detail, SoldFlag);
    SoldPageAt(known, detail, PriceKrw);
    SoldPageAt(known, detail, PriceSource);
    if k !in SOLD_PAGE_FIELDS && k != FingerprintField {
      SoldPageAt(known, detail, k);
    }
    hide Merge;
  }

  /** Without a read that brought a page, a completed pass leaves the record of a listing as it was. */
  lemma PassWithoutPageKeepsRecord(f: CarFile, p: int, e: Experience, mode: Mode)
    requires Answers(f, p, e, mode) && (e.result.None? || !e.result.value.Page?)
    ensures Judged(f, p, e, mode).car == f.car
  {
    hide Judged, Aborts, Ordered, ReadObserved, Unwanted, FoundWithoutDetail, RowFile, ShowsAnother;
    JudgedRecord(f, p, e, mode);
    if e.row.Some? {
      RowIsSeenAtOnceExactly(f, p, e.row.value, mode);
    }
    var task := Ordered(f, p, e, mode);
    var g := Walked(f, p, e.row, mode);
    if task.Some? {
      AbortsExactly(g, p, task.value, e.result.value);
      ResultExactly(g, p, task.value, e.result.value);
    }
    if f.car.Some? {
      SightingExactly(f, p);
    }
    if g.car.Some? {
      SightingExactly(g, p);
    }
  }

  // --- a changed price in the list ------------------------------------------------

  lemma RowIsItsOwn(rows: seq<Row>, i: nat)
    requires DistinctRows(rows) && i < |rows|
    ensures RowOf(rows, rows[i].id) == Some(rows[i])
  {
    RowOfIs(rows, rows[i].id);
    hide RowOf;
    assert HasRow(rows, rows[i].id);
    var j :| 0 <= j < |rows| && rows[j] == RowOf(rows, rows[i].id).value && rows[j].id == rows[i].id;
    assert j == i;
  }

  /**
   No change of price in the list is overlooked by a fast scan: the row of a wanted car
   that shows another price than the record is always read, and if that probe finds a
   price for sale, the completed pass leaves it in the record.
   */
  lemma OtherListPriceIsSettled(files: Files, p: int, rows: seq<Row>, reader: string -> ReadResult, i: nat, price: int)
    requires DistinctRows(rows) && i < |rows|
    requires var f := FileAt(files, rows[i].id);
             && f.car.Some? && Open(f, p)
             && rows[i].listPrice.Some? && rows[i].listPrice != f.car.value.price
             && Answers(f, p, Met(files, p, rows, Fast, reader, rows[i].id), Fast)
    ensures var id := rows[i].id;
            var e := Met(files, p, rows, Fast, reader, id);
            && e.result == Some(reader(id))
            && (reader(id).Page? ==>
                  var page := reader(id).details;
                  !Truthy(Get(page, SoldFlag)) && Get(page, PriceKrw) == Int(price)
                  && (PriceSource in page ==>
                        page[PriceSource] in {Str(DetailPrimary), Str(DetailRentalMonthly), Str(DetailLeaseMonthly)}) ==>
                    var car := Judged(FileAt(files, id), p, e, Fast).car;
                    car.Some? && car.value.price == Some(price) && car.value.status != Sold)
  {
    hide RowOf, Answers, Met, Judged, Ordered, Walked, WalkedAt, FileAt, Unwanted, Truthy, ProbeDetail, AuthoritativePrice;
    var id := rows[i].id;
    var e := Met(files, p, rows, Fast, reader, id);
    RowIsItsOwn(rows, i);
    MetMeans(files, p, rows, Fast, reader, id);
    ReadComesBackExactly(FileAt(files, id), p, e, Fast);
    if reader(id).Page? {
      ProbeBringsPrice(reader(id).details, price);
      ProbeFlags(reader(id).details);
      if AuthoritativePrice(ProbeDetail(reader(id).details)) == Some(price) {
        PassSettlesPrice(FileAt(files, id), p, e, Fast, price);
      }
    }
  }
}
