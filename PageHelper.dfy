/**
 * The page envelope `PageResponse` and `PageHelper.getPageResponse`, which
 * builds one from the page the storage returned.
 */
module PageHelper {

  import opened JavaLang

  /**
   * One page as the storage hands it back (Spring's `Page`): the records,
   * the 0-based page index, the page size, and the storage's own counts.
   */
  datatype StoragePage<E> = StoragePage(
    content: seq<E>,
    number: int,
    size: int,
    totalElements: int,
    totalPages: int,
    isLast: bool)

  /** The envelope every listing returns. */
  datatype PageResponse<D> = PageResponse(
    content: seq<D>,
    pageNumber: Int32,
    pageSize: int,
    totalElements: int,
    totalPages: int,
    lastPage: bool)

  /** The stream `map(...).collect(toList())`: `f` applied to every element, order kept. */
  function MapAll<E, D>(items: seq<E>, f: E -> D): (r: seq<D>)
    ensures |r| == |items|
    ensures forall i :: 0 <= i < |items| ==> r[i] == f(items[i])
  {
    if items == [] then [] else [f(items[0])] + MapAll(items[1..], f)
  }

  /**
   * `getPageResponse`: the content mapped element by element in the storage's
   * order, the 0-based index turned back into a 1-based page number (with
   * Java `int` wrap-around), and size, totals and the last-page flag copied,
   * not recomputed.
   */
  function GetPageResponse<E, D>(page: StoragePage<E>, toDto: E -> D): (r: PageResponse<D>)
    ensures |r.content| == |page.content|
    ensures forall i :: 0 <= i < |page.content| ==> r.content[i] == toDto(page.content[i])
    ensures r.pageNumber == Wrap32(page.number + 1)
    ensures r.pageSize == page.size
    ensures r.totalElements == page.totalElements && r.totalPages == page.totalPages
    ensures r.lastPage == page.isLast
  {
    PageResponse(MapAll(page.content, toDto), Wrap32(page.number + 1), page.size,
                 page.totalElements, page.totalPages, page.isLast)
  }
}
