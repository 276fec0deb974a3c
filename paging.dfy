/** The job-list pagination of the home page in script.js: nine cards a
    page, a page number kept between clicks, and prev/next/number links. */
module Paging {

  /** `pagination.pageSize`, fixed when the state is created and never
      changed. */
  const PageSize: nat := 9

  /** How `Array.prototype.slice` reads one of its bounds: a negative bound
      counts from the end, and every bound is clamped to `[0, len]`. */
  function SliceBound(i: int, len: nat): (k: nat)
    ensures k <= len
    ensures 0 <= i <= len ==> k == i
    ensures i > len ==> k == len
    ensures i < 0 ==> k == if len + i < 0 then 0 else len + i
  {
    if i < 0 then (if len + i < 0 then 0 else len + i)
    else if i > len then len
    else i
  }

  /** `s.slice(start, end)`. */
  function JsSlice<T>(s: seq<T>, start: int, end: int): (r: seq<T>)
    ensures 0 <= start <= end <= |s| ==> r == s[start..end]
  {
    var from, to := SliceBound(start, |s|), SliceBound(end, |s|);
    if from < to then s[from..to] else []
  }

  /** A slice whose end is not before its start never holds more than the
      bounds span, whatever their signs or sizes. (With the end before the
      start it can: `slice(0, -1)` drops only the last item.) */
  lemma JsSliceLength<T>(s: seq<T>, start: int, end: int)
    requires start <= end
    ensures |JsSlice(s, start, end)| <= |s|
    ensures |JsSlice(s, start, end)| <= end - start
  {
    var from, to := SliceBound(start, |s|), SliceBound(end, |s|);
    if start < 0 <= end {
      assert from >= |s| + start;
    }
  }

  /** `Math.max(1, Math.ceil(data.length / pageSize))`: always at least one
      page, enough pages to hold every item, and no page to spare. */
  function TotalPages(len: nat): (n: nat)
    ensures n >= 1
    ensures len <= n * PageSize
    ensures n == 1 || (n - 1) * PageSize < len
  {
    if len == 0 then 1 else (len + PageSize - 1) / PageSize
  }

  /** `(page - 1) * pageSize`: where a page starts in the list. */
  function PageStart(page: int): int {
    (page - 1) * PageSize
  }

  /** The cards shown on `page`: `data.slice(start, start + pageSize)`. */
  function PageItems<T>(data: seq<T>, page: int): (r: seq<T>)
    ensures |r| <= PageSize
  {
    JsSliceLength(data, PageStart(page), PageStart(page) + PageSize);
    JsSlice(data, PageStart(page), PageStart(page) + PageSize)
  }

  /** On every page from 1 to the last, the cards shown are the items from
      the page's start up to nine further or the end of the list, and the
      page is not empty when the list is not. */
  lemma PageItemsWindow<T>(data: seq<T>, page: int)
    requires 1 <= page <= TotalPages(|data|)
    ensures PageStart(page) <= |data|
    ensures PageItems(data, page) == data[PageStart(page)..if PageStart(page) + PageSize <= |data| then PageStart(page) + PageSize else |data|]
    ensures |data| > 0 ==> PageItems(data, page) != []
  {
  }

  /** Every item is shown on exactly the page its index says: page
      `i / 9 + 1`, position `i % 9`, and that page exists. */
  lemma PagesCoverData<T>(data: seq<T>, i: int)
    requires 0 <= i < |data|
    ensures 1 <= i / PageSize + 1 <= TotalPages(|data|)
    ensures i % PageSize < |PageItems(data, i / PageSize + 1)|
    ensures PageItems(data, i / PageSize + 1)[i % PageSize] == data[i]
  {
    var p := i / PageSize + 1;
    assert PageStart(p) + i % PageSize == i;
    PageItemsWindow(data, p);
  }

  /** The target of a pagination link: `data-page` is "prev", "next" or a
      page number (the only other value `Number(val)` accepts). */
  datatype PageLink = Prev | Next | Numbered(n: int)

  /** The click handler: `prev` steps back unless on page 1, `next` steps
      forward unless on the last page, a number jumps to it; `prev` on the
      first page and `next` on the last do nothing. */
  function Follow(page: int, total: int, link: PageLink): (r: int)
    ensures !link.Numbered? && 1 <= page <= total ==> 1 <= r <= total
    ensures !link.Numbered? ==> page - 1 <= r <= page + 1
    ensures link.Prev? ==> r <= page && (r == page <==> page <= 1)
    ensures link.Next? ==> r >= page && (r == page <==> page >= total)
    ensures link.Numbered? ==> r == link.n
  {
    match link
    case Prev => if page > 1 then page - 1 else page
    case Next => if page < total then page + 1 else page
    case Numbered(n) => n
  }

  /** The pagination state `{ page, pageSize, data }` of the home page. */
  class Pager<T> {
    var page: int
    var data: seq<T>

    /** The current page lies among the pages there are. */
    ghost predicate Valid()
      reads this
    {
      1 <= page <= TotalPages(|data|)
    }

    /** `{ page: 1, pageSize: 9, data: [] }`. */
    constructor ()
      ensures Valid()
      ensures page == 1 && data == []
    {
      page := 1;
      data := [];
    }

    /** The cards of the current page. */
    function Items(): (r: seq<T>)
      reads this
      ensures |r| <= PageSize
    {
      PageItems(data, page)
    }

    /** `pagination.data = jobs` once the job list has loaded; the page is
      left where it is. */
    method Load(jobs: seq<T>)
      modifies this
      ensures data == jobs && page == old(page)
      ensures old(page) == 1 ==> Valid()
    {
      data := jobs;
    }

    /** One click on a pagination link. A prev or next click keeps a valid
        page valid; a number click keeps it valid when the number is one of
        the rendered links `1..totalPages`. */
    method Click(link: PageLink)
      modifies this
      ensures data == old(data)
      ensures page == Follow(old(page), TotalPages(|data|), link)
      ensures old(Valid()) && (link.Numbered? ==> 1 <= link.n <= TotalPages(|data|)) ==> Valid()
    {
      var total := TotalPages(|data|);
      if link.Prev? && page > 1 {
        page := page - 1;
      } else if link.Next? && page < total {
        page := page + 1;
      } else if link.Numbered? {
        page := link.n;
      }
    }
  }
}
