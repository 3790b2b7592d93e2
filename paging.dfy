/**
  The page capability every paged list result offers: the paging fields of
  `PaginationParam`, an ordered element sequence, the page count derived from
  `total` and `pageSize`, and the append of another page's elements.
  The concrete list classes (projects, queries, statuses) are tied to these
  value-level definitions by their `Value()` functions.
*/
module Paging {
  import opened Wrappers

  /** The paging fields of a list result: total element count, count on this page, page size, 1-based page offset. */
  datatype PaginationParam = PaginationParam(total: int, count: int, pageSize: int, offset: int)

  /** One page of a list result: its paging fields and its `_embedded.elements`. */
  datatype Page<E> = Page(param: PaginationParam, elements: seq<E>)

  /**
    Ceiling of a / b for a positive divisor. The source computes
    math.Ceil(float64(a) / float64(b)); over the integers this is the unique n with
    (n - 1) * b < a <= n * b.
  */
  function CeilDiv(a: int, b: int): (n: int)
    requires b > 0
    ensures (n - 1) * b < a <= n * b
  {
    var q := (a + b - 1) / b;
    var m := (a + b - 1) % b;
    assert a + b - 1 == q * b + m;
    assert (q - 1) * b == q * b - b;
    q
  }

  /** The two bounds of CeilDiv pin the result down: no other integer satisfies them. */
  lemma CeilDivUnique(a: int, b: int, n: int)
    requires b > 0
    requires (n - 1) * b < a <= n * b
    ensures n == CeilDiv(a, b)
  {
    var r := CeilDiv(a, b);
    if n < r {
      assert n <= r - 1;
      assert n * b <= (r - 1) * b by { MulMonotone(n, r - 1, b); }
      assert false;
    } else if r < n {
      assert r <= n - 1;
      assert r * b <= (n - 1) * b by { MulMonotone(r, n - 1, b); }
      assert false;
    }
  }

  lemma MulMonotone(x: int, y: int, b: int)
    requires x <= y && b > 0
    ensures x * b <= y * b
  {
    assert y * b - x * b == (y - x) * b;
  }

  /** Number of pages needed for `total` elements at `pageSize` per page. */
  function TotalPage(p: PaginationParam): (n: int)
    requires p.pageSize > 0
    ensures (n - 1) * p.pageSize < p.total <= n * p.pageSize
    ensures p.total == 0 ==> n == 0
    ensures p.total > 0 ==> n >= 1
  {
    var n := CeilDiv(p.total, p.pageSize);
    if p.total == 0 then
      assert n * p.pageSize >= 0;
      assert (n - 1) * p.pageSize < 0;
      assert n == 0 by { if n > 0 { MulMonotone(1, n, p.pageSize); } else if n < 0 { MulMonotone(n, -1, p.pageSize); } }
      n
    else
      assert p.total > 0 ==> n >= 1 by { if p.total > 0 && n <= 0 { MulMonotone(n, 0, p.pageSize); } }
      n
  }

  /** The receiver page with the argument's elements appended after its own; paging fields stay the receiver's. */
  function Concat<E>(acc: Page<E>, other: Page<E>): (r: Page<E>)
    ensures r.param == acc.param
    ensures |r.elements| == |acc.elements| + |other.elements|
    ensures r.elements[..|acc.elements|] == acc.elements
    ensures r.elements[|acc.elements|..] == other.elements
  {
    Page(acc.param, acc.elements + other.elements)
  }

  /** The elements of all pages, page after page, each page's elements in their own order. */
  function Flatten<E>(pages: seq<Page<E>>): seq<E>
  {
    if pages == [] then [] else Flatten(pages[..|pages| - 1]) + pages[|pages| - 1].elements
  }

  /** Sum of the element counts of the pages. */
  function ElementCount<E>(pages: seq<Page<E>>): nat
  {
    if pages == [] then 0 else ElementCount(pages[..|pages| - 1]) + |pages[|pages| - 1].elements|
  }

  /**
    The result of folding pages with Concat, seeded with the first page:
    nothing for no pages, otherwise the first page's paging fields with the
    elements of every page in order.
  */
  function MergeInOrder<E>(pages: seq<Page<E>>): (r: Option<Page<E>>)
    ensures r.Some? <==> pages != []
    ensures r.Some? ==> r.value.param == pages[0].param && |r.value.elements| == ElementCount(pages)
  {
    if pages == [] then None
    else
      FlattenLength(pages);
      Some(Page(pages[0].param, Flatten(pages)))
  }

  /** Folding one more page onto a merge is exactly one Concat. */
  lemma {:induction false} MergeStep<E>(pages: seq<Page<E>>, p: Page<E>)
    requires pages != []
    ensures MergeInOrder(pages).Some?
    ensures MergeInOrder(pages + [p]) == Some(Concat(MergeInOrder(pages).value, p))
  {
    var all := pages + [p];
    assert all[..|all| - 1] == pages;
    assert all[0] == pages[0];
  }

  /** Merging a single page gives that page. */
  lemma MergeOne<E>(p: Page<E>)
    ensures MergeInOrder([p]) == Some(p)
  {
    assert [p][..0] == [];
    assert Flatten([p]) == p.elements;
  }

  /** Flattening keeps every element: its length is the sum of the page lengths. */
  lemma {:induction false} FlattenLength<E>(pages: seq<Page<E>>)
    ensures |Flatten(pages)| == ElementCount(pages)
  {
    if pages != [] {
      FlattenLength(pages[..|pages| - 1]);
    }
  }

  /** Element k of page i sits in the flattened sequence right after the elements of pages 0..i-1. */
  lemma {:induction false} FlattenAt<E>(pages: seq<Page<E>>, i: nat, k: nat)
    requires i < |pages| && k < |pages[i].elements|
    ensures ElementCount(pages[..i]) + k < |Flatten(pages)|
    ensures Flatten(pages)[ElementCount(pages[..i]) + k] == pages[i].elements[k]
  {
    var n := |pages|;
    var init := pages[..n - 1];
    FlattenLength(pages);
    FlattenLength(init);
    if i == n - 1 {
      assert pages[..i] == init;
    } else {
      assert init[..i] == pages[..i];
      FlattenAt(init, i, k);
    }
  }

  /**
    Number of elements the service puts on page i (1-based) of a listing of
    `total` elements at `size` per page: full pages, then the remainder, then none.
  */
  function PageLength(total: int, size: int, i: int): int
  {
    if total - (i - 1) * size <= 0 then 0
    else if total - (i - 1) * size < size then total - (i - 1) * size
    else size
  }

  /** Sum of PageLength over pages 1..n. */
  function SumPageLengths(total: int, size: int, n: nat): int
  {
    if n == 0 then 0 else SumPageLengths(total, size, n - 1) + PageLength(total, size, n)
  }

  /**
    The first n full-or-remainder pages hold min(total, n * size) elements, so
    the TotalPage(...) pages of a listing hold exactly `total` elements.
  */
  lemma {:induction false} SumPageLengthsPrefix(total: int, size: int, n: nat)
    requires size > 0 && total >= 0
    requires (n - 1) * size < total || n == 0
    ensures SumPageLengths(total, size, n) == if n * size <= total then n * size else total
  {
    if n > 0 {
      assert (n - 1) * size == n * size - size;
      if n - 1 > 0 {
        assert (n - 2) * size == (n - 1) * size - size;
      }
      SumPageLengthsPrefix(total, size, n - 1);
    }
  }

  /** Full pages of `pageSize` plus a remainder page add up to `total` elements. */
  lemma PagesCoverTotal(p: PaginationParam)
    requires p.pageSize > 0 && p.total >= 0
    ensures SumPageLengths(p.total, p.pageSize, if TotalPage(p) < 0 then 0 else TotalPage(p)) == p.total
  {
    var n := TotalPage(p);
    if p.total == 0 {
      assert n == 0;
    } else {
      assert n >= 1;
      SumPageLengthsPrefix(p.total, p.pageSize, n);
    }
  }

  /** When page i of a listing holds PageLength(total, size, i) elements, the pages hold their sum. */
  lemma {:induction false} ElementCountOfPageLengths<E>(pages: seq<Page<E>>, total: int, size: int)
    requires forall i :: 0 <= i < |pages| ==> |pages[i].elements| == PageLength(total, size, i + 1)
    ensures ElementCount(pages) == SumPageLengths(total, size, |pages|)
  {
    if pages != [] {
      ElementCountOfPageLengths(pages[..|pages| - 1], total, size);
    }
  }

  /**
    When the service fills every page of a listing as PageLength says, merging
    the TotalPage(...) pages yields exactly `total` elements.
  */
  lemma MergedHoldsTotal<E>(pages: seq<Page<E>>, p: PaginationParam)
    requires p.pageSize > 0 && p.total >= 0
    requires |pages| == TotalPage(p)
    requires forall i :: 0 <= i < |pages| ==> |pages[i].elements| == PageLength(p.total, p.pageSize, i + 1)
    ensures |Flatten(pages)| == p.total
  {
    FlattenLength(pages);
    ElementCountOfPageLengths(pages, p.total, p.pageSize);
    PagesCoverTotal(p);
  }
}
