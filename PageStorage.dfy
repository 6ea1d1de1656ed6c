/**
 * A reference storage collaborator: what Spring Data's `PageImpl` does with
 * one query over an ordered table. The services never compute any of this;
 * it is here to show that the storage contract the listing relies on can be
 * met, and to pin down the page arithmetic the envelope copies.
 */
module PageStorage {

  import opened Wrappers
  import opened JavaLang
  import opened PageHelper
  import opened Listing
  import opened AppConstants
  import opened Exceptions

  /** The records of `s` that satisfy `keep`, in order. */
  function Filter<E>(s: seq<E>, keep: E -> bool): (r: seq<E>)
    ensures |r| <= |s|
    ensures forall i :: 0 <= i < |r| ==> keep(r[i])
    ensures forall i :: 0 <= i < |r| ==> r[i] in s
    ensures forall i :: 0 <= i < |s| && keep(s[i]) ==> s[i] in r
  {
    if s == [] then []
    else if keep(s[0]) then [s[0]] + Filter(s[1..], keep)
    else Filter(s[1..], keep)
  }

  function Reverse<E>(s: seq<E>): (r: seq<E>)
    ensures |r| == |s|
    ensures forall i :: 0 <= i < |s| ==> r[i] == s[|s| - 1 - i]
  {
    if s == [] then [] else Reverse(s[1..]) + [s[0]]
  }

  lemma {:induction false} FilterAppend<E>(s: seq<E>, t: seq<E>, keep: E -> bool)
    ensures Filter(s + t, keep) == Filter(s, keep) + Filter(t, keep)
  {
    if s == [] {
      assert s + t == t;
    } else {
      assert (s + t)[1..] == s[1..] + t;
      FilterAppend(s[1..], t, keep);
    }
  }

  /** Filtering commutes with reversing: a descending page holds the same records as an ascending one. */
  lemma {:induction false} FilterReverse<E>(s: seq<E>, keep: E -> bool)
    ensures Filter(Reverse(s), keep) == Reverse(Filter(s, keep))
  {
    if s != [] {
      FilterReverse(s[1..], keep);
      FilterAppend(Reverse(s[1..]), [s[0]], keep);
      if keep(s[0]) {
        assert Filter(s, keep) == [s[0]] + Filter(s[1..], keep);
        assert Reverse(Filter(s, keep)) == Reverse(Filter(s[1..], keep)) + [s[0]] by {
          var f := Filter(s, keep);
          assert f[1..] == Filter(s[1..], keep);
        }
      } else {
        assert Filter([s[0]], keep) == [];
      }
    }
  }

  function CeilDiv(n: nat, d: nat): nat
    requires d >= 1
  {
    (n + d - 1) / d
  }

  function Min(a: int, b: int): int
  {
    if a <= b then a else b
  }

  /**
   * The page of a paged query: the `size` records from offset `index * size`
   * of `rows` (every matching record, in the query's order), with the total
   * count, `ceil(total / size)` pages, and "last" when no page follows.
   */
  function SlicePage<E>(rows: seq<E>, index: nat, size: nat): (p: StoragePage<E>)
    requires size >= 1
    ensures p.number == index && p.size == size && p.totalElements == |rows|
    ensures p.totalPages == CeilDiv(|rows|, size)
    ensures p.isLast <==> index + 1 >= p.totalPages
    ensures |p.content| == if index * size >= |rows| then 0 else Min(size, |rows| - index * size)
    ensures forall i :: 0 <= i < |p.content| ==> index * size + i < |rows| && p.content[i] == rows[index * size + i]
  {
    var start := index * size;
    var content := if start >= |rows| then [] else rows[start..Min(start + size, |rows|)];
    StoragePage(content, index, size, |rows|, CeilDiv(|rows|, size), !(index + 1 < CeilDiv(|rows|, size)))
  }

  /**
   * Spring's `new PageImpl<>(records)`, the unpaged page the service tests
   * hand back from their mocked repositories: index 0, size = number of
   * records, and a single page.
   */
  function UnpagedPage<E>(records: seq<E>): (p: StoragePage<E>)
    ensures p.content == records && p.number == 0 && p.totalElements == |records|
    ensures p.totalPages == 1 && p.isLast
  {
    var size := |records|;
    var totalPages := if size == 0 then 1 else CeilDiv(|records|, size);
    StoragePage(records, 0, size, |records|, totalPages, !(0 + 1 < totalPages))
  }

  /**
   * A reference repository query: for each sortable property, the table in
   * ascending order of it; the query keeps the records satisfying `keep`,
   * reverses them for a descending sort, and slices out the requested page.
   * A property that is not sortable raises, as Spring's property lookup does.
   */
  function SliceStorage<E>(ascending: map<string, seq<E>>, keep: E -> bool): Storage<E>
  {
    (q: PageQuery) => if q.index < 0 || q.size < 1 || q.sortBy !in ascending then None
         else
           var rows := Filter(ascending[q.sortBy], keep);
           Some(SlicePage(if q.direction == Ascending then rows else Reverse(rows), q.index, q.size))
  }

  /** The reference storage meets the contract the listing relies on. */
  lemma SliceStorageMeetsContract<E>(ascending: map<string, seq<E>>, keep: E -> bool)
    ensures HonoursIndex(SliceStorage(ascending, keep))
    ensures OnlyMatching(SliceStorage(ascending, keep), keep)
  {
    var storage := SliceStorage(ascending, keep);
    forall q, i | storage(q).Some? && 0 <= i < |storage(q).value.content|
      ensures keep(storage(q).value.content[i])
    {
      var rows := Filter(ascending[q.sortBy], keep);
      var ordered := if q.direction == Ascending then rows else Reverse(rows);
      assert storage(q).value == SlicePage(ordered, q.index, q.size);
      var k := q.index * q.size + i;
      assert storage(q).value.content[i] == ordered[k];
      if q.direction == Descending {
        assert ordered[k] == rows[|rows| - 1 - k];
      }
    }
  }

  /** A `sortBy` naming no sortable property comes out as the page error. */
  lemma UnknownSortFieldIsPageError<E, D>(p: PageParams, ascending: map<string, seq<E>>, keep: E -> bool, toDto: E -> D)
    requires p.sortBy !in ascending
    ensures ListPage(p, SliceStorage(ascending, keep), toDto) == Failure(IllegalArguments(PageErrorMsg))
  {
  }

  /**
   * Over the reference storage, a valid request on a sortable property
   * always succeeds, and the envelope satisfies the page invariants: a full
   * page of `pageSize` records before the last page, the remainder on it and
   * none past it, the requested page number, every matching record counted,
   * `ceil(total / pageSize)` pages, and "last" exactly when the page number
   * reaches the page count.
   */
  lemma ListingOverSliceStorage<E, D>(p: PageParams, ascending: map<string, seq<E>>, keep: E -> bool, toDto: E -> D)
    requires p.pageNumber >= 1 && p.pageSize >= 1 && p.sortBy in ascending && HasText(p.sortBy)
    ensures var r := ListPage(p, SliceStorage(ascending, keep), toDto);
            var total := |Filter(ascending[p.sortBy], keep)|;
            var skipped := (p.pageNumber - 1) * p.pageSize;
            && r.Success?
            && r.value.pageSize == p.pageSize
            && |r.value.content| == (if skipped >= total then 0 else Min(p.pageSize, total - skipped))
            && r.value.pageNumber == p.pageNumber
            && r.value.totalElements == total
            && r.value.totalPages == CeilDiv(total, p.pageSize)
            && (r.value.lastPage <==> p.pageNumber >= r.value.totalPages)
  {
    var storage := SliceStorage(ascending, keep);
    SliceStorageMeetsContract(ascending, keep);
    PageRequestValidity(p);
    PageNumberRoundTrip(p, storage, toDto);
    ListPageWrapsStoragePage(p, storage, toDto);
    var q := PageRequestOf(p).value;
    FilterReverse(ascending[p.sortBy], keep);
  }

  /** The page the reference storage answers for a valid query on a sortable property. */
  lemma SliceAnswer<E>(ascending: map<string, seq<E>>, keep: E -> bool, q: PageQuery)
    requires q.index >= 0 && q.size >= 1 && q.sortBy in ascending
    ensures var rows := Filter(ascending[q.sortBy], keep);
            SliceStorage(ascending, keep)(q)
              == Some(SlicePage(if q.direction == Ascending then rows else Reverse(rows), q.index, q.size))
  {
  }

  /** Slicing no rows gives no records, no pages, and the last page. */
  lemma EmptySlice<E>(rows: seq<E>, index: nat, size: nat)
    requires size >= 1 && rows == []
    ensures var page := SlicePage(rows, index, size);
            page.content == [] && page.totalElements == 0 && page.totalPages == 0 && page.isLast
  {
    assert 0 <= size - 1 < size;
  }

  /** An empty collection gives an empty last page with no elements and no pages. */
  lemma EmptyCollectionPage<E, D>(p: PageParams, ascending: map<string, seq<E>>, keep: E -> bool, toDto: E -> D)
    requires p.pageNumber >= 1 && p.pageSize >= 1 && p.sortBy in ascending && HasText(p.sortBy)
    requires ascending[p.sortBy] == []
    ensures var r := ListPage(p, SliceStorage(ascending, keep), toDto);
            r.Success? && r.value.content == [] && r.value.totalElements == 0
            && r.value.totalPages == 0 && r.value.lastPage
  {
    PageRequestValidity(p);
    var q := PageRequestOf(p).value;
    var rows := Filter(ascending[p.sortBy], keep);
    assert rows == [];
    var ordered := if q.direction == Ascending then rows else Reverse(rows);
    assert ordered == [];
    SliceAnswer(ascending, keep, q);
    EmptySlice(ordered, q.index, q.size);
    ListPageWrapsStoragePage(p, SliceStorage(ascending, keep), toDto);
  }

  /** Three rows in pages of two: two pages, the first full and not last, the second holding one row. */
  lemma ThreeRowsInSlicesOfTwo<E>(rows: seq<E>)
    requires |rows| == 3
    ensures var first := SlicePage(rows, 0, 2);
            |first.content| == 2 && first.totalPages == 2 && !first.isLast
    ensures var second := SlicePage(rows, 1, 2);
            |second.content| == 1 && second.isLast
  {
    assert CeilDiv(3, 2) == 2;
  }

  /** Keeping every record keeps the collection as it is. */
  lemma {:induction false} FilterKeepAll<E>(s: seq<E>, keep: E -> bool)
    requires forall x :: keep(x)
    ensures Filter(s, keep) == s
  {
    if s != [] {
      FilterKeepAll(s[1..], keep);
    }
  }

  /**
   * Three matching records in pages of two: page 1 holds two records and is
   * not the last of two pages; page 2 holds one and is the last.
   */
  lemma ThreeRecordsInPagesOfTwo<E, D>(rows: seq<E>, sortBy: string, sortDir: string, toDto: E -> D)
    requires |rows| == 3 && HasText(sortBy)
    ensures var storage := SliceStorage(map[sortBy := rows], _ => true);
            var first := ListPage(PageParams(1, 2, sortBy, sortDir), storage, toDto);
            var second := ListPage(PageParams(2, 2, sortBy, sortDir), storage, toDto);
            && first.Success? && |first.value.content| == 2 && first.value.totalPages == 2 && !first.value.lastPage
            && second.Success? && |second.value.content| == 1 && second.value.lastPage
  {
    var keep: E -> bool := _ => true;
    var ascending := map[sortBy := rows];
    FilterKeepAll(rows, keep);
    var ordered := if SortDirection(sortDir) == Ascending then rows else Reverse(rows);
    ThreeRowsInSlicesOfTwo(ordered);
    ScenarioPage(PageParams(1, 2, sortBy, sortDir), ascending, keep, toDto);
    ScenarioPage(PageParams(2, 2, sortBy, sortDir), ascending, keep, toDto);
  }

  /** The listing over the reference storage is the wrapped slice of the ordered matching records. */
  lemma ScenarioPage<E, D>(p: PageParams, ascending: map<string, seq<E>>, keep: E -> bool, toDto: E -> D)
    requires p.pageNumber >= 1 && p.pageSize >= 1 && p.sortBy in ascending && HasText(p.sortBy)
    ensures var rows := Filter(ascending[p.sortBy], keep);
            var ordered := if SortDirection(p.sortDir) == Ascending then rows else Reverse(rows);
            var page := SlicePage(ordered, p.pageNumber - 1, p.pageSize);
            var r := ListPage(p, SliceStorage(ascending, keep), toDto);
            r.Success? && |r.value.content| == |page.content|
            && r.value.totalPages == page.totalPages && r.value.lastPage == page.isLast
  {
    PageRequestValidity(p);
    var q := PageRequestOf(p).value;
    SliceAnswer(ascending, keep, q);
    ListPageWrapsStoragePage(p, SliceStorage(ascending, keep), toDto);
  }

  /**
   * When every matching record fits on the first page, the descending page
   * is the ascending page reversed.
   */
  lemma DescendingReversesSinglePage<E>(ascending: map<string, seq<E>>, keep: E -> bool, sortBy: string, size: int)
    requires sortBy in ascending && size >= 1 && |ascending[sortBy]| <= size
    ensures var storage := SliceStorage(ascending, keep);
            var up := storage(PageQuery(0, size, sortBy, Ascending));
            var down := storage(PageQuery(0, size, sortBy, Descending));
            up.Some? && down.Some? && down.value.content == Reverse(up.value.content)
  {
    var rows := Filter(ascending[sortBy], keep);
    assert SlicePage(rows, 0, size).content == rows;
    assert SlicePage(Reverse(rows), 0, size).content == Reverse(rows);
  }
}
