/**
 Collecting every page of a search (backend/app/scanner.py: the arithmetic of
 `_pagination_metadata`, and `collect_search_pages`). Reading a page is an arbitrary
 function of its number.
 */
module Pagination {
  import opened Wrappers

  type Id = string

  datatype SearchPage = SearchPage(rows: map<Id, string>, totalPages: int, totalResults: Option<nat>, hasNext: bool)

  datatype Error = ReadFailed(what: string) | WrongPage | EmptyPage(page: nat) | RepeatedPage(page: nat) | TooManyPages

  datatype Collection = Collection(rows: map<Id, string>, pagesVisited: nat, totalPages: int, totalResults: Option<nat>)

  /** What reading each page gives; pages are numbered from one. */
  type Reader = nat -> Result<SearchPage, Error>

  // --- what one page says about the number of pages -------------------------------

  function Largest(numbers: seq<int>, default: int): int {
    if numbers == [] then default
    else if |numbers| == 1 then numbers[0]
    else Max(numbers[0], Largest(numbers[1..], default))
  }

  /** Division of a count by a page size, rounded up. */
  function PagesFor(total: nat, limit: nat): nat
    requires limit > 0
  {
    (total + limit - 1) / limit
  }

  /** What a result page shows: its page links, which page is active, and the total it reports. */
  datatype Shown = Shown(numbers: seq<int>, active: Option<int>, nextEnabled: bool, total: Option<nat>)

  /** The end of `_pagination_metadata`: the number of pages, and whether there is a next one. */
  function Metadata(shown: Shown, requested: nat, limit: nat): Result<(int, bool), Error>
    requires limit > 0
  {
    if shown.active.Some? && shown.active.value != requested then Err(WrongPage)
    else
      var linked := Largest(shown.numbers, requested);
      var pages := if shown.total.Some? then Max(linked, PagesFor(shown.total.value, limit)) else linked;
      Ok((pages, shown.nextEnabled || requested + 1 in shown.numbers || requested < pages))
  }

  /** The page that was read carries what its own display says. */
  ghost predicate ReadsDisplay(read: Reader, display: nat -> Shown, limit: nat)
    requires limit > 0
  {
    forall n: nat :: read(n).Ok? ==>
      Metadata(display(n), n, limit) == Ok((read(n).value.totalPages, read(n).value.hasNext))
  }

  // --- what a successful collection is --------------------------------------------

  predicate Readable(read: Reader, n: nat) {
    read(n).Ok?
  }

  function Page(read: Reader, n: nat): SearchPage
    requires Readable(read, n)
  {
    read(n).value
  }

  /** Page `n` repeats an earlier page. */
  ghost predicate Repeats(read: Reader, n: nat) {
    Readable(read, n) &&
    exists m: nat :: 1 <= m < n && Readable(read, m) && Page(read, m).rows.Keys == Page(read, n).rows.Keys
  }

  /** Why page `n` ends the collection with an error, if it does. */
  ghost function Failure(read: Reader, n: nat): Option<Error> {
    if !Readable(read, n) then Some(read(n).error)
    else if n > 1 && Page(read, n).rows == map[] then Some(EmptyPage(n))
    else if Repeats(read, n) then Some(RepeatedPage(n))
    else None
  }

  /** Page `n` ends the collection successfully. */
  predicate Last(read: Reader, allPages: bool, n: nat)
    requires Readable(read, n)
  {
    !allPages || !Page(read, n).hasNext
  }

  /** The pages before `n` are fine and lead on to `n`. */
  ghost predicate Reaches(read: Reader, allPages: bool, n: nat) {
    forall m: nat | 1 <= m < n :: Failure(read, m).None? && !Last(read, allPages, m)
  }

  /** Page `n` is fine, the first without a successor, and within the limit. */
  ghost predicate EndsAt(read: Reader, allPages: bool, maxPages: int, n: nat) {
    1 <= n <= maxPages && Reaches(read, allPages, n) && Failure(read, n).None? && Last(read, allPages, n)
  }

  /** The rows of pages 1 to `n`; a listing on several pages keeps its latest row. */
  function Rows(read: Reader, n: nat): map<Id, string> {
    if n == 0 then map[] else if !Readable(read, n) then Rows(read, n - 1) else Rows(read, n - 1) + Page(read, n).rows
  }

  function Pages(read: Reader, n: nat): int {
    if n == 0 then 1 else if !Readable(read, n) then Pages(read, n - 1)
    else Max(Pages(read, n - 1), Page(read, n).totalPages)
  }

  /** The total that the last page to report one reported. */
  function Total(read: Reader, n: nat): Option<nat> {
    if n == 0 then None
    else if Readable(read, n) && Page(read, n).totalResults.Some? then Page(read, n).totalResults
    else Total(read, n - 1)
  }

  /**
   `collect_search_pages`. It succeeds exactly when some page within the limit is the
   first without a successor and every page up to it is readable, not empty (but for the
   first) and no repetition; it then returns the rows of exactly those pages. Otherwise
   it returns the failure of the first page that has one, or runs into the limit.
   */
  method CollectSearchPages(read: Reader, allPages: bool, maxPages: int) returns (r: Result<Collection, Error>)
    ensures r.Ok? <==> exists n: nat :: EndsAt(read, allPages, maxPages, n)
    ensures r.Ok? ==>
      && EndsAt(read, allPages, maxPages, r.value.pagesVisited)
      && r.value.rows == Rows(read, r.value.pagesVisited)
      && r.value.totalPages == Max(Pages(read, r.value.pagesVisited), r.value.pagesVisited)
      && r.value.totalResults == Total(read, r.value.pagesVisited)
    ensures r.Err? ==>
      exists n: nat :: 1 <= n && Reaches(read, allPages, n)
        && if n <= maxPages then Failure(read, n) == Some(r.error)
           else r.error == TooManyPages && (n == maxPages + 1 || n == 1)
  {
    var rows: map<Id, string> := map[];
    var fingerprints: set<set<Id>> := {};
    var requested: nat := 1;
    var expectedPages := 1;
    var totalResults: Option<nat> := None;
    while requested <= maxPages
      invariant 1 <= requested && (requested <= maxPages + 1 || requested == 1)
      invariant Reaches(read, allPages, requested)
      invariant rows == Rows(read, requested - 1) && expectedPages == Pages(read, requested - 1)
      invariant totalResults == Total(read, requested - 1)
      invariant forall f :: f in fingerprints <==>
        exists m: nat :: 1 <= m < requested && Readable(read, m) && Page(read, m).rows.Keys == f
      decreases maxPages - requested
    {
      var current := read(requested);
      if current.Err? {
        assert Failure(read, requested) == Some(current.error);
        NotReached(read, allPages, maxPages, requested);
        return Err(current.error);
      }
      if requested > 1 && current.value.rows == map[] {
        assert Failure(read, requested) == Some(EmptyPage(requested));
        NotReached(read, allPages, maxPages, requested);
        return Err(EmptyPage(requested));
      }
      var fingerprint := current.value.rows.Keys;
      if fingerprint in fingerprints {
        assert Failure(read, requested) == Some(RepeatedPage(requested));
        NotReached(read, allPages, maxPages, requested);
        return Err(RepeatedPage(requested));
      }
      assert !Repeats(read, requested) && Failure(read, requested).None?;
      fingerprints := fingerprints + {fingerprint};
      rows := rows + current.value.rows;
      expectedPages := Max(expectedPages, current.value.totalPages);
      if current.value.totalResults.Some? {
        totalResults := current.value.totalResults;
      }
      if !allPages || !current.value.hasNext {
        assert EndsAt(read, allPages, maxPages, requested);
        return Ok(Collection(rows, requested, Max(expectedPages, requested), totalResults));
      }
      assert !Last(read, allPages, requested);
      requested := requested + 1;
    }
    NotReached(read, allPages, maxPages, requested);
    r := Err(TooManyPages);
  }

  /** A collection that got to page `n` and did not end there successfully ends nowhere. */
  lemma NotReached(read: Reader, allPages: bool, maxPages: int, n: nat)
    requires n >= 1 && Reaches(read, allPages, n) && (n > maxPages || Failure(read, n).Some?)
    ensures forall k: nat :: !EndsAt(read, allPages, maxPages, k)
  {
    forall k: nat ensures !EndsAt(read, allPages, maxPages, k) {
      if 1 <= k < n {
        assert Failure(read, k).None? && !Last(read, allPages, k);
      } else if n < k {
        assert Reaches(read, allPages, k) ==> Failure(read, n).None?;
      }
    }
  }

  // --- what success means ---------------------------------------------------------

  lemma {:induction false} RowsAreTheUnion(read: Reader, n: nat, id: Id)
    ensures id in Rows(read, n) <==> exists m: nat :: 1 <= m <= n && Readable(read, m) && id in Page(read, m).rows
  {
    if n > 0 {
      RowsAreTheUnion(read, n - 1, id);
    }
  }

  /**
   A successful collection of all pages returns exactly the listings of pages 1 to k,
   where k is the first page without a next one; pages 2 to k are not empty and no two
   pages show the same listings.
   */
  lemma SuccessIsComplete(read: Reader, maxPages: int, k: nat)
    requires EndsAt(read, true, maxPages, k)
    ensures k <= maxPages
    ensures forall m: nat | 1 <= m <= k :: Readable(read, m) && (Page(read, m).hasNext <==> m < k)
    ensures forall m: nat | 2 <= m <= k :: Readable(read, m) && Page(read, m).rows != map[]
    ensures forall m: nat, n: nat | 1 <= m < n <= k ::
      Readable(read, m) && Readable(read, n) && Page(read, m).rows.Keys != Page(read, n).rows.Keys
    ensures forall id ::
      (id in Rows(read, k) <==> exists m: nat :: 1 <= m <= k && Readable(read, m) && id in Page(read, m).rows)
  {
    hide Failure, Last, Repeats, Rows;
    forall m: nat | 1 <= m <= k ensures Readable(read, m) && (Page(read, m).hasNext <==> m < k) {
      PageOnTheWay(read, maxPages, k, m);
    }
    forall m: nat | 2 <= m <= k ensures Readable(read, m) && Page(read, m).rows != map[] {
      PageOnTheWay(read, maxPages, k, m);
    }
    forall m: nat, n: nat | 1 <= m < n <= k
      ensures Readable(read, m) && Readable(read, n) && Page(read, m).rows.Keys != Page(read, n).rows.Keys
    {
      PageOnTheWay(read, maxPages, k, m);
      PageOnTheWay(read, maxPages, k, n);
      NoRepetition(read, m, n);
    }
    forall id
      ensures id in Rows(read, k) <==> exists m: nat :: 1 <= m <= k && Readable(read, m) && id in Page(read, m).rows
    {
      RowsAreTheUnion(read, k, id);
    }
  }

  lemma PageOnTheWay(read: Reader, maxPages: int, k: nat, m: nat)
    requires EndsAt(read, true, maxPages, k) && 1 <= m <= k
    ensures Readable(read, m) && (Page(read, m).hasNext <==> m < k) && Failure(read, m).None?
    ensures m > 1 ==> Page(read, m).rows != map[]
  {
    assert Failure(read, m).None?;
    assert m < k ==> !Last(read, true, m);
  }

  lemma NoRepetition(read: Reader, m: nat, n: nat)
    requires 1 <= m < n && Readable(read, m) && Readable(read, n) && Failure(read, n).None?
    ensures Page(read, m).rows.Keys != Page(read, n).rows.Keys
  {
    assert !Repeats(read, n);
  }

  lemma {:induction false} LargestIsLargest(numbers: seq<int>, default: int)
    ensures forall n | n in numbers :: n <= Largest(numbers, default)
  {
    if |numbers| > 1 {
      LargestIsLargest(numbers[1..], default);
      assert numbers == [numbers[0]] + numbers[1..];
    }
  }

  /** Rounded up, the pages of a total hold it, and one page less does not. */
  lemma PagesHold(total: nat, limit: nat)
    requires limit > 0
    ensures PagesFor(total, limit) * limit >= total
    ensures PagesFor(total, limit) > 0 ==> (PagesFor(total, limit) - 1) * limit < total
  {
    var p := PagesFor(total, limit);
    assert total + limit - 1 == p * limit + (total + limit - 1) % limit;
    assert (p - 1) * limit == p * limit - limit;
  }

  /**
   The pages collected are enough for the total that the last of them reports: their
   number times the page size covers it, no linked page lies beyond them, and no
   "next" control was left enabled.
   */
  lemma SuccessCoversTheTotal(read: Reader, display: nat -> Shown, limit: nat, maxPages: int, k: nat)
    requires limit > 0 && ReadsDisplay(read, display, limit) && EndsAt(read, true, maxPages, k)
    ensures display(k).total.Some? ==> k * limit >= display(k).total.value
    ensures forall n | n in display(k).numbers :: n <= k
    ensures !display(k).nextEnabled
  {
    assert Readable(read, k) && !Page(read, k).hasNext;
    LargestIsLargest(display(k).numbers, k);
    if display(k).total.Some? {
      var pages := PagesFor(display(k).total.value, limit);
      PagesHold(display(k).total.value, limit);
      Monotone(pages, k, limit);
    }
  }

  /**
   What a page's display means. A page that shows itself to be another than the one
   requested is refused. The number of pages is the least that covers the links shown (or
   the page itself, if there are none) and the total reported; and there is a next page
   exactly if a "next" control is enabled, the following page is linked, or the number of
   pages is not reached.
   */
  lemma DisplayIsReadExactly(shown: Shown, requested: nat, limit: nat)
    requires limit > 0
    ensures var r := Metadata(shown, requested, limit);
            && (r == Err(WrongPage) <==> shown.active.Some? && shown.active.value != requested)
            && (r.Err? ==> r == Err(WrongPage))
            && (r.Ok? ==>
                  var (pages, next) := r.value;
                  && (forall n | n in shown.numbers :: n <= pages) && (shown.numbers == [] ==> requested <= pages)
                  && (shown.total.Some? ==> shown.total.value <= pages * limit)
                  && (pages in shown.numbers || (shown.numbers == [] && pages == requested)
                      || (shown.total.Some? && (pages - 1) * limit < shown.total.value))
                  && (next <==> shown.nextEnabled || requested + 1 in shown.numbers || requested < pages))
  {
    if !(shown.active.Some? && shown.active.value != requested) {
      LargestIsLargest(shown.numbers, requested);
      LargestIsShown(shown.numbers, requested);
      if shown.total.Some? {
        var linked, needed := Largest(shown.numbers, requested), PagesFor(shown.total.value, limit);
        PagesHold(shown.total.value, limit);
        if linked > needed {
          Monotone(needed, linked, limit);
        }
      }
    }
  }

  lemma {:induction false} LargestIsShown(numbers: seq<int>, default: int)
    ensures if numbers == [] then Largest(numbers, default) == default else Largest(numbers, default) in numbers
  {
    if |numbers| > 1 {
      LargestIsShown(numbers[1..], default);
      assert numbers == [numbers[0]] + numbers[1..];
    }
  }

  /** Each listing of a collection has the row of the latest page that shows it. */
  lemma {:induction false} CollectedFromLatest(read: Reader, k: nat, id: Id)
    ensures id in Rows(read, k) ==>
      exists m: nat :: 1 <= m <= k && ShownLast(read, k, m, id) && Rows(read, k)[id] == Page(read, m).rows[id]
  {
    if k > 0 {
      CollectedFromLatest(read, k - 1, id);
      if id in Rows(read, k) {
        if Readable(read, k) && id in Page(read, k).rows {
          assert ShownLast(read, k, k, id);
        } else {
          var m: nat :| 1 <= m <= k - 1 && ShownLast(read, k - 1, m, id) && Rows(read, k - 1)[id] == Page(read, m).rows[id];
          assert ShownLast(read, k, m, id);
        }
      }
    }
  }

  /** Of pages 1 to `k`, page `m` is the last that shows the listing. */
  ghost predicate ShownLast(read: Reader, k: nat, m: nat, id: Id) {
    Readable(read, m) && id in Page(read, m).rows
    && forall n: nat | m < n <= k && Readable(read, n) :: id !in Page(read, n).rows
  }

  /** The number of pages is at least what each page gave, and given by one of them unless it is one. */
  lemma {:induction false} PagesAreLargest(read: Reader, k: nat)
    ensures forall m: nat | 1 <= m <= k && Readable(read, m) :: Page(read, m).totalPages <= Pages(read, k)
    ensures Pages(read, k) == 1 || exists m: nat :: 1 <= m <= k && Readable(read, m) && Page(read, m).totalPages == Pages(read, k)
  {
    if k > 0 {
      PagesAreLargest(read, k - 1);
    }
  }

  /** The total is the one that was given last. */
  lemma {:induction false} TotalIsLatest(read: Reader, k: nat, m: nat)
    requires 1 <= m <= k && Readable(read, m) && Page(read, m).totalResults.Some?
    requires forall n: nat | m < n <= k && Readable(read, n) :: Page(read, n).totalResults.None?
    ensures Total(read, k) == Page(read, m).totalResults
  {
    if m < k {
      TotalIsLatest(read, k - 1, m);
    }
  }

  /** Without a page that gives one, there is no total. */
  lemma {:induction false} NoTotal(read: Reader, k: nat)
    requires forall n: nat | 1 <= n <= k && Readable(read, n) :: Page(read, n).totalResults.None?
    ensures Total(read, k) == None
  {
    if k > 0 {
      NoTotal(read, k - 1);
    }
  }

  // --- exactly when a collection succeeds and fails -------------------------------

  /** Pages `m` and `n` were read and show the same listings. */
  predicate ShowTheSame(read: Reader, m: nat, n: nat) {
    read(m).Ok? && read(n).Ok? && read(m).value.rows.Keys == read(n).value.rows.Keys
  }

  /** Page `n` was read, is not empty unless it is the first, and shows other listings than every page before. */
  ghost predicate Fine(read: Reader, n: nat) {
    && read(n).Ok? && (n > 1 ==> read(n).value.rows != map[])
    && forall m: nat | 1 <= m < n :: !ShowTheSame(read, m, n)
  }

  lemma RepeatsIs(read: Reader, n: nat)
    ensures Repeats(read, n) <==> exists m: nat :: 1 <= m < n && ShowTheSame(read, m, n)
  {
    if Repeats(read, n) {
      var m: nat :| 1 <= m < n && Readable(read, m) && Page(read, m).rows.Keys == Page(read, n).rows.Keys;
      assert ShowTheSame(read, m, n);
    }
    if exists m: nat :: 1 <= m < n && ShowTheSame(read, m, n) {
      var m: nat :| 1 <= m < n && ShowTheSame(read, m, n);
      assert Readable(read, m) && Page(read, m).rows.Keys == Page(read, n).rows.Keys;
    }
  }

  lemma FineIs(read: Reader, n: nat)
    ensures Failure(read, n).None? <==> Fine(read, n)
  {
    RepeatsIs(read, n);
    hide Repeats, ShowTheSame;
  }

  /**
   The collection ends with page `k` exactly if `k` is within the limit, every page up to it
   is fine, and it stops there: because one page was asked for, or because `k` is the first
   page without a next one.
   */
  lemma EndsExactly(read: Reader, allPages: bool, maxPages: int, k: nat)
    ensures EndsAt(read, allPages, maxPages, k) <==>
      && 1 <= k <= maxPages
      && (forall n: nat | 1 <= n <= k :: Fine(read, n))
      && (allPages ==> forall n: nat | 1 <= n <= k :: read(n).Ok? && (read(n).value.hasNext <==> n < k))
      && (!allPages ==> k == 1)
  {
    forall n: nat ensures Failure(read, n).None? <==> Fine(read, n) {
      FineIs(read, n);
    }
    hide Failure, Fine;
    if EndsAt(read, allPages, maxPages, k) {
      forall n: nat | 1 <= n <= k ensures Fine(read, n) && (allPages ==> read(n).Ok? && (read(n).value.hasNext <==> n < k)) {
        assert n < k ==> Failure(read, n).None? && !Last(read, allPages, n);
        FineIsRead(read, n);
      }
      FineIsRead(read, 1);
      assert k > 1 ==> !Last(read, allPages, 1);
    }
    if 1 <= k && forall n: nat | 1 <= n <= k :: Fine(read, n) {
      forall n: nat | 1 <= n <= k ensures Readable(read, n) {
        FineIsRead(read, n);
      }
    }
  }

  lemma FineIsRead(read: Reader, n: nat)
    ensures Fine(read, n) ==> read(n).Ok?
  {
  }

  /** Why a page fails: its reader's own error, or else that it is empty, or else that it repeats an earlier page. */
  lemma FailsExactly(read: Reader, n: nat, error: Error)
    ensures Failure(read, n) == Some(error) <==>
      if read(n).Err? then error == read(n).error
      else if n > 1 && read(n).value.rows == map[] then error == EmptyPage(n)
      else error == RepeatedPage(n) && exists m: nat :: 1 <= m < n && ShowTheSame(read, m, n)
  {
    RepeatsIs(read, n);
    hide Repeats, ShowTheSame;
  }
}
