/**
 * The paging rule every list and search method of the three services
 * repeats: resolve the sort direction, turn the 1-based page number into a
 * 0-based index, ask the storage for that page, wrap it with
 * `PageHelper.getPageResponse`, and turn any runtime failure on the way into
 * `IllegalArgumentsException(PAGE_ERROR_MSG)`.
 */
module Listing {

  import opened Wrappers
  import opened JavaLang
  import opened AppConstants
  import opened Exceptions
  import opened PageHelper

  datatype Direction = Ascending | Descending

  /** The request parameters of a listing, as the controllers pass them. */
  datatype PageParams = PageParams(pageNumber: Int32, pageSize: Int32, sortBy: string, sortDir: string)

  /** What the storage is asked for: `PageRequest.of(index, size, Sort.by(sortBy).<direction>())`. */
  datatype PageQuery = PageQuery(index: int, size: int, sortBy: string, direction: Direction)

  /**
   * The storage collaborator of one repository query: the page it answers, or
   * `None` when it raises a runtime exception (for instance a `sortBy` that
   * names no property of the entity).
   */
  type Storage<E> = PageQuery -> Option<StoragePage<E>>

  /**
   * `sortDir.equalsIgnoreCase("asc") ? ascending : descending`: ascending
   * exactly when the direction folds to "asc".
   */
  function SortDirection(sortDir: string): (d: Direction)
    ensures d == Ascending <==> FoldCase(sortDir) == "asc"
  {
    assert FoldCase("asc") == "asc";
    if EqualsIgnoreCase(sortDir, "asc") then Ascending else Descending
  }

  /**
   * The request built inside the try block. `Sort.by(sortBy)` throws on a
   * property without text (Spring's `Sort.Order` checks `hasText`);
   * `pageNumber - 1` is Java `int` arithmetic; `PageRequest.of` throws on a
   * negative index or a size below one. A request that is built meets
   * `PageRequest`'s own invariants.
   */
  function PageRequestOf(p: PageParams): (r: Option<PageQuery>)
    ensures r.Some? ==> 0 <= r.value.index <= IntMax && r.value.size >= 1 && HasText(r.value.sortBy)
    ensures r.Some? ==> r.value.size == p.pageSize && r.value.sortBy == p.sortBy
  {
    var index := Wrap32(p.pageNumber - 1);
    if !HasText(p.sortBy) || index < 0 || p.pageSize < 1 then None
    else Some(PageQuery(index, p.pageSize, p.sortBy, SortDirection(p.sortDir)))
  }

  /**
   * One listing. Every failure, in building the request or in the storage,
   * comes out as `IllegalArguments(PageErrorMsg)` and nothing else; a result
   * is produced exactly when the request is valid and the storage answers.
   */
  function ListPage<E, D>(p: PageParams, storage: Storage<E>, toDto: E -> D): (r: Result<PageResponse<D>, Exception>)
    ensures r.Failure? ==> r.error == IllegalArguments(PageErrorMsg)
    ensures r.Success? <==> PageRequestOf(p).Some? && storage(PageRequestOf(p).value).Some?
  {
    match PageRequestOf(p)
    case None => Failure(IllegalArguments(PageErrorMsg))
    case Some(q) =>
      match storage(q)
      case None => Failure(IllegalArguments(PageErrorMsg))
      case Some(page) => Success(GetPageResponse(page, toDto))
  }

  // ---------------------------------------------------------------------------
  // What the listing relies on from the storage

  /** The storage answers the page it was asked for (`Page.getNumber()` is the requested index). */
  ghost predicate HonoursIndex<E>(storage: Storage<E>)
  {
    forall q :: storage(q).Some? ==> storage(q).value.number == q.index
  }

  /** Every record the storage returns satisfies the query's filter. */
  ghost predicate OnlyMatching<E>(storage: Storage<E>, keep: E -> bool)
  {
    forall q, i :: storage(q).Some? && 0 <= i < |storage(q).value.content| ==> keep(storage(q).value.content[i])
  }

  // ---------------------------------------------------------------------------
  // Properties

  /**
   * The direction is ascending exactly for the three-letter spellings of
   * "asc" ignoring case (including the long s, U+017F, which Java upper-cases
   * to 'S'); everything else, "desc" and garbage alike, is descending.
   */
  lemma AscendingExactlyForAsc(sortDir: string)
    ensures SortDirection(sortDir) == Ascending <==>
              |sortDir| == 3 && sortDir[0] in CaseVariants('a') && sortDir[1] in CaseVariants('s')
              && sortDir[2] in CaseVariants('c')
  {
  }

  lemma DirectionExamples()
    ensures SortDirection("asc") == Ascending && SortDirection("ASC") == Ascending
    ensures SortDirection("Asc") == Ascending && SortDirection("a\U{017F}c") == Ascending
    ensures SortDirection("desc") == Descending && SortDirection("foo") == Descending
    ensures SortDirection("ace") == Descending && SortDirection("") == Descending
    ensures SortDirection("asc ") == Descending
  {
    AscendingExactlyForAsc("a\U{017F}c");
    AscendingExactlyForAsc("ace");
    AscendingExactlyForAsc("asc ");
  }

  /**
   * The request is valid exactly when the sort property has text, the page
   * size is positive and the page number is at least one or is
   * `Integer.MIN_VALUE`, whose decrement wraps round to `Integer.MAX_VALUE`;
   * the index asked for is the page number minus one, or `Integer.MAX_VALUE`
   * in that wrapped case.
   */
  lemma PageRequestValidity(p: PageParams)
    ensures PageRequestOf(p).Some? <==>
              HasText(p.sortBy) && (p.pageNumber >= 1 || p.pageNumber == IntMin) && p.pageSize >= 1
    ensures PageRequestOf(p).Some? ==>
              var q := PageRequestOf(p).value;
              q.index == (if p.pageNumber == IntMin then IntMax else p.pageNumber - 1)
              && q.size == p.pageSize && q.sortBy == p.sortBy
              && (q.direction == Ascending <==> EqualsIgnoreCase(p.sortDir, "asc"))
  {
    if p.pageNumber == IntMin {
      assert Wrap32(p.pageNumber - 1) == IntMax;
    }
  }

  /** A page number from `Integer.MIN_VALUE + 1` to 0, or a page size below one, is refused. */
  lemma NonPositivePageIsRefused<E, D>(p: PageParams, storage: Storage<E>, toDto: E -> D)
    requires (IntMin < p.pageNumber < 1) || p.pageSize < 1
    ensures ListPage(p, storage, toDto) == Failure(IllegalArguments(PageErrorMsg))
  {
    PageRequestValidity(p);
  }

  /** An empty or all-blank sort property is refused before the storage is asked. */
  lemma BlankSortPropertyIsRefused<E, D>(storage: Storage<E>, toDto: E -> D, sortDir: string)
    ensures ListPage(PageParams(1, 10, "", sortDir), storage, toDto) == Failure(IllegalArguments(PageErrorMsg))
    ensures ListPage(PageParams(1, 10, " \t", sortDir), storage, toDto) == Failure(IllegalArguments(PageErrorMsg))
  {
    assert !HasText(" \t") by {
      forall i | 0 <= i < |" \t"|
        ensures IsWhitespace(" \t"[i])
      {
      }
    }
  }

  /** Any runtime failure of the storage becomes the page error; there is no partial result. */
  lemma StorageFaultIsPageError<E, D>(p: PageParams, storage: Storage<E>, toDto: E -> D)
    requires PageRequestOf(p).Some? && storage(PageRequestOf(p).value).None?
    ensures ListPage(p, storage, toDto) == Failure(IllegalArguments(PageErrorMsg))
  {
  }

  /**
   * A successful listing is the storage's page, wrapped: the same records in
   * the same order, each mapped, with size, totals and last-page flag copied.
   */
  lemma ListPageWrapsStoragePage<E, D>(p: PageParams, storage: Storage<E>, toDto: E -> D)
    requires ListPage(p, storage, toDto).Success?
    ensures var q := PageRequestOf(p).value;
            var page := storage(q).value;
            var r := ListPage(p, storage, toDto).value;
            && q.direction == SortDirection(p.sortDir)
            && |r.content| == |page.content|
            && (forall i :: 0 <= i < |page.content| ==> r.content[i] == toDto(page.content[i]))
            && r.pageSize == page.size && r.totalElements == page.totalElements
            && r.totalPages == page.totalPages && r.lastPage == page.isLast
  {
  }

  /**
   * The envelope's page number is the one requested: the service subtracts
   * one, the storage answers that index, the envelope adds one back.
   */
  lemma PageNumberRoundTrip<E, D>(p: PageParams, storage: Storage<E>, toDto: E -> D)
    requires HonoursIndex(storage)
    requires ListPage(p, storage, toDto).Success?
    ensures ListPage(p, storage, toDto).value.pageNumber == p.pageNumber
  {
    var q := PageRequestOf(p).value;
    assert storage(q).value.number == Wrap32(p.pageNumber - 1);
    DecrementIncrement(p.pageNumber);
  }

  /**
   * With `Integer.MIN_VALUE` as page number the request is not refused: the
   * storage is asked for index `Integer.MAX_VALUE`, and the envelope reports
   * `Integer.MIN_VALUE` back.
   */
  lemma MinIntPageNumberIsNotRefused<E, D>(p: PageParams, storage: Storage<E>, toDto: E -> D)
    requires p.pageNumber == IntMin && p.pageSize >= 1 && HasText(p.sortBy)
    ensures PageRequestOf(p).Some? && PageRequestOf(p).value.index == IntMax
    ensures HonoursIndex(storage) && storage(PageRequestOf(p).value).Some? ==>
              ListPage(p, storage, toDto).Success? && ListPage(p, storage, toDto).value.pageNumber == IntMin
  {
    PageRequestValidity(p);
    if HonoursIndex(storage) && storage(PageRequestOf(p).value).Some? {
      PageNumberRoundTrip(p, storage, toDto);
    }
  }

  /** A record that passes `keep` maps to a DTO that passes `seen`. */
  lemma CarriedOver<E, D>(e: E, toDto: E -> D, keep: E -> bool, seen: D -> bool)
    requires forall x :: keep(x) ==> seen(toDto(x))
    requires keep(e)
    ensures seen(toDto(e))
  {
  }

  /**
   * When the storage keeps only records satisfying `keep`, and the mapping
   * carries `keep` over to what `seen` checks on the DTO, every DTO listed
   * passes `seen`.
   */
  lemma ListedOnlyMatching<E, D>(p: PageParams, storage: Storage<E>, toDto: E -> D,
                                 keep: E -> bool, seen: D -> bool)
    requires OnlyMatching(storage, keep)
    requires forall x :: keep(x) ==> seen(toDto(x))
    ensures var r := ListPage(p, storage, toDto);
            r.Success? ==> forall i :: 0 <= i < |r.value.content| ==> seen(r.value.content[i])
  {
    var r := ListPage(p, storage, toDto);
    if r.Success? {
      var page := storage(PageRequestOf(p).value).value;
      ListPageWrapsStoragePage(p, storage, toDto);
      forall i | 0 <= i < |r.value.content|
        ensures seen(r.value.content[i])
      {
        CarriedOver(page.content[i], toDto, keep, seen);
      }
    }
  }
}
