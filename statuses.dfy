/**
  Status listings. Unlike the other list types, a status list carries a
  read-write lock, which GetListWithContext creates and ConcatEmbed acquires.
*/
module Statuses {
  import opened Wrappers
  import opened Paging

  /** A work package status as listed. */
  datatype Status = Status(
    typ: string, id: int, name: string, isClosed: bool, color: string,
    isDefault: bool, isReadOnly: bool, position: int)

  /** A read-write mutex, reduced to whether its write lock is held. */
  class RWMutex {
    var locked: bool

    constructor ()
      ensures !locked
    {
      locked := false;
    }

    /** Acquire the write lock. On a held lock the call never returns, so it is only callable unlocked. */
    method Lock()
      requires !locked
      modifies this
      ensures locked
    {
      locked := true;
    }

    /** Release the write lock; releasing an unlocked mutex is a fatal error. */
    method Unlock()
      requires locked
      modifies this
      ensures !locked
    {
      locked := false;
    }
  }

  /** SearchResultStatus: the `_embedded.elements` of one page, the PaginationParam fields, and a lock. */
  class SearchResultStatus {
    var elements: seq<Status>
    var total: int
    var count: int
    var pageSize: int
    var offset: int
    var lock: RWMutex?

    /** A list object as decoded from one page: the lock is not set yet. */
    constructor (page: Page<Status>)
      ensures Value() == page && lock == null
    {
      elements := page.elements;
      total := page.param.total;
      count := page.param.count;
      pageSize := page.param.pageSize;
      offset := page.param.offset;
      lock := null;
    }

    /** The page this object currently holds. */
    function Value(): Page<Status>
      reads this
    {
      Page(PaginationParam(total, count, pageSize, offset), elements)
    }

    /** TotalPage: the number of pages of `pageSize` elements needed for `total` elements. */
    function TotalPage(): (n: int)
      reads this
      requires pageSize > 0
      ensures (n - 1) * pageSize < total <= n * pageSize
      ensures total == 0 ==> n == 0
      ensures total > 0 ==> n >= 1
    {
      Paging.TotalPage(Value().param)
    }

    /**
      ConcatEmbed as written: take the write lock, append the argument's
      elements, and return still holding the lock. A nil lock would panic and a
      held one would block, so the call needs a set, free lock; afterwards the
      lock is held, and a second call on the same list cannot proceed.
    */
    method ConcatEmbed(status: SearchResultStatus)
      requires lock != null && !lock.locked
      modifies this, lock
      ensures lock == old(lock) && lock.locked
      ensures Value() == Concat(old(Value()), old(status.Value()))
      ensures total == old(total) && count == old(count) && pageSize == old(pageSize) && offset == old(offset)
      ensures status != this ==> status.Value() == old(status.Value())
    {
      lock.Lock();
      elements := elements + status.elements;
    }

    /** ConcatEmbed with the lock released on return: the same append, and the lock is free again. */
    method ConcatEmbedReleasing(status: SearchResultStatus)
      requires lock != null && !lock.locked
      modifies this, lock
      ensures lock == old(lock) && !lock.locked
      ensures Value() == Concat(old(Value()), old(status.Value()))
      ensures status != this ==> status.Value() == old(status.Value())
    {
      lock.Lock();
      elements := elements + status.elements;
      lock.Unlock();
    }
  }

  /** The pages a sequence of status lists holds. */
  function Values(lists: seq<SearchResultStatus>): (pages: seq<Page<Status>>)
    reads set l | l in lists
    ensures |pages| == |lists|
    ensures forall i :: 0 <= i < |lists| ==> pages[i] == lists[i].Value()
  {
    if lists == [] then [] else Values(lists[..|lists| - 1]) + [lists[|lists| - 1].Value()]
  }

  /**
    The fold AutoPageTurn performs on a status listing, as written: the first
    page is the accumulator and every later page is appended with ConcatEmbed.
    The second append waits for the lock the first one kept, so the fold
    blocks exactly when there are two or more pages to append.
  */
  method FoldPagesAsWritten(acc: SearchResultStatus, rest: seq<SearchResultStatus>) returns (blocked: bool)
    requires acc.lock != null && !acc.lock.locked
    requires acc !in rest
    modifies acc, acc.lock
    ensures blocked <==> |rest| >= 2
    ensures !blocked ==> acc.Value() == Page(old(acc.Value()).param, old(acc.elements) + Flatten(old(Values(rest))))
  {
    ghost var pages := Values(rest);
    var i := 0;
    while i < |rest|
      invariant 0 <= i <= |rest| && i <= 1
      invariant acc.lock == old(acc.lock)
      invariant acc.lock.locked <==> i >= 1
      invariant forall j :: 0 <= j < |rest| ==> rest[j].Value() == pages[j]
      invariant acc.Value() == Page(old(acc.Value()).param, old(acc.elements) + Flatten(pages[..i]))
    {
      if acc.lock.locked {
        // Lock on the held lock never returns
        return true;
      }
      FlattenSnoc(pages, i);
      acc.ConcatEmbed(rest[i]);
      i := i + 1;
    }
    assert pages[..|rest|] == pages;
    return false;
  }

  /** The same fold with ConcatEmbedReleasing: it never blocks and appends every page in order. */
  method FoldPages(acc: SearchResultStatus, rest: seq<SearchResultStatus>)
    requires acc.lock != null && !acc.lock.locked
    requires acc !in rest
    modifies acc, acc.lock
    ensures acc.lock == old(acc.lock) && !acc.lock.locked
    ensures acc.Value() == Page(old(acc.Value()).param, old(acc.elements) + Flatten(old(Values(rest))))
  {
    ghost var pages := Values(rest);
    for i := 0 to |rest|
      invariant acc.lock == old(acc.lock) && !acc.lock.locked
      invariant forall j :: 0 <= j < |rest| ==> rest[j].Value() == pages[j]
      invariant acc.Value() == Page(old(acc.Value()).param, old(acc.elements) + Flatten(pages[..i]))
    {
      FlattenSnoc(pages, i);
      acc.ConcatEmbedReleasing(rest[i]);
    }
    assert pages[..|rest|] == pages;
  }

  /** Flattening one more page appends that page's elements. */
  lemma FlattenSnoc(pages: seq<Page<Status>>, i: nat)
    requires i < |pages|
    ensures Flatten(pages[..i + 1]) == Flatten(pages[..i]) + pages[i].elements
  {
    assert pages[..i + 1][..i] == pages[..i];
  }

  /** What the generic list fetch hands back: a status list, or an object of some other type. */
  datatype Decoded = DecodedStatusList(page: Page<Status>) | DecodedOther

  /**
    GetListWithContext, given the outcome `got` of the generic list fetch for
    the statuses endpoint: pass its error on, refuse an object that is not a
    status list, and otherwise return the list with a fresh, free lock.
  */
  method GetListWithContext(got: Result<Decoded, Error>) returns (list: SearchResultStatus?, err: Option<Error>)
    ensures got.Failure? ==> list == null && err == Some(got.error)
    ensures got.Success? && got.value.DecodedOther? ==> list == null && err == Some(ConvertToStatusListFailed)
    ensures got.Success? && got.value.DecodedStatusList? ==>
      && err == None
      && list != null && fresh(list) && list.Value() == got.value.page
      && list.lock != null && fresh(list.lock) && !list.lock.locked
  {
    match got
    case Failure(e) =>
      return null, Some(e);
    case Success(obj) =>
      if obj.DecodedOther? {
        return null, Some(ConvertToStatusListFailed);
      }
      list := new SearchResultStatus(obj.page);
      list.lock := new RWMutex();
      return list, None;
  }
}
