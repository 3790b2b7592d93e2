/**
  Query listings. The embedded element list of a query listing is declared
  with the status element type, so a page of queries holds `Status` values.
*/
module Queries {
  import opened Paging
  import opened Statuses

  /** SearchResultQuery: the `_embedded.elements` of one page plus the embedded PaginationParam fields. */
  class SearchResultQuery {
    var elements: seq<Status>
    var total: int
    var count: int
    var pageSize: int
    var offset: int

    /** A list object as decoded from one page. */
    constructor (page: Page<Status>)
      ensures Value() == page
    {
      elements := page.elements;
      total := page.param.total;
      count := page.param.count;
      pageSize := page.param.pageSize;
      offset := page.param.offset;
    }

    /** The page this object currently holds. */
    function Value(): Page<Status>
      reads this
    {
      Page(PaginationParam(total, count, pageSize, offset), elements)
    }

    /** TotalPage: the number of pages of `pageSize` elements needed for `total` elements. */
    function TotalPage(): (n: int)
      reads this
      requires pageSize > 0
      ensures (n - 1) * pageSize < total <= n * pageSize
      ensures total == 0 ==> n == 0
      ensures total > 0 ==> n >= 1
    {
      Paging.TotalPage(Value().param)
    }

    /** ConcatEmbed: append the argument's elements after the receiver's; nothing else changes. */
    method ConcatEmbed(states: SearchResultQuery)
      modifies this
      ensures Value() == Concat(old(Value()), old(states.Value()))
      ensures |elements| == old(|elements|) + old(|states.elements|)
      ensures total == old(total) && count == old(count) && pageSize == old(pageSize) && offset == old(offset)
      ensures states != this ==> states.Value() == old(states.Value())
    {
      elements := elements + states.elements;
    }
  }
}
