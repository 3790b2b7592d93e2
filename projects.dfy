/** Project listings: one page of projects together with its paging fields. */
module Projects {
  import opened Paging

  /** A listed project; the fields the listing logic never inspects (links, dates, descriptions) are left out. */
  datatype Project = Project(typ: string, id: int, identifier: string, name: string, active: bool, public: bool, status: string)

  /** SearchResultProject: the `_embedded.elements` of one page plus the embedded PaginationParam fields. */
  class SearchResultProject {
    var elements: seq<Project>
    var total: int
    var count: int
    var pageSize: int
    var offset: int

    /** A list object as decoded from one page. */
    constructor (page: Page<Project>)
      ensures Value() == page
    {
      elements := page.elements;
      total := page.param.total;
      count := page.param.count;
      pageSize := page.param.pageSize;
      offset := page.param.offset;
    }

    /** The page this object currently holds. */
    function Value(): Page<Project>
      reads this
    {
      Page(PaginationParam(total, count, pageSize, offset), elements)
    }

    /** TotalPage: the number of pages of `pageSize` elements needed for `total` elements. */
    function TotalPage(): (n: int)
      reads this
      requires pageSize > 0
      ensures (n - 1) * pageSize < total <= n * pageSize
      ensures total == 0 ==> n == 0
      ensures total > 0 ==> n >= 1
    {
      Paging.TotalPage(Value().param)
    }

    /** ConcatEmbed: append the argument's elements after the receiver's; nothing else changes. */
    method ConcatEmbed(proj: SearchResultProject)
      modifies this
      ensures Value() == Concat(old(Value()), old(proj.Value()))
      ensures total == old(total) && count == old(count) && pageSize == old(pageSize) && offset == old(offset)
      ensures proj != this ==> proj.Value() == old(proj.Value())
    {
      elements := elements + proj.elements;
    }
  }
}
