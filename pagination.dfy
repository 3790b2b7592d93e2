/**
  AutoPageTurn: fetch page 1, and if the listing has two or more pages,
  request every page 1..N again, collect N (index, page) boxes from a
  channel into an int-keyed tree, and fold the tree's pages in ascending key
  order with ConcatEmbed, seeded with the lowest-index page.

  Concurrency is replaced by its observable effect: the single-page fetch is a
  deterministic function parameter, and the channel delivers the boxes in an
  arbitrary order `arrival` (a permutation of 1..N: the order in which the
  requests reach their send). A request whose fetch fails sends nothing, and
  the collector then waits forever for its N-th box: that outcome is `Blocked`.
*/
module Pagination {
  import opened Wrappers
  import opened Paging
  import opened OrderedKeys

  /** The dynamic types the zero test of the fold recognises, and every other type. */
  datatype GoType =
    | SearchResultProjectPtr
    | SearchResultQueryPtr
    | SearchResultStatusPtr
    | SearchResultUserPtr
    | SearchResultWPPtr
    | OtherType(name: string)

  /** A value of the type parameter seen as an interface: its dynamic type and whether it is a nil pointer. */
  datatype Dynamic = Dynamic(typ: GoType, isNil: bool)

  /** The list result types AutoPageTurn is used with. */
  datatype PageKind = ProjectList | QueryList | StatusList | UserList | WorkPackageList

  function PointerType(kind: PageKind): GoType
  {
    match kind
    case ProjectList => SearchResultProjectPtr
    case QueryList => SearchResultQueryPtr
    case StatusList => SearchResultStatusPtr
    case UserList => SearchResultUserPtr
    case WorkPackageList => SearchResultWPPtr
  }

  /** isInterfaceZero: a type switch that recognises nil pointers of the five list types and nothing else. */
  function IsInterfaceZero(v: Dynamic): (zero: bool)
    ensures zero <==> v.isNil && !v.typ.OtherType?
  {
    match v.typ
    case SearchResultProjectPtr => v.isNil
    case SearchResultQueryPtr => v.isNil
    case SearchResultStatusPtr => v.isNil
    case SearchResultUserPtr => v.isNil
    case SearchResultWPPtr => v.isNil
    case OtherType(_) => false
  }

  const DefaultPageSize: int := 10

  /** The page size every fetch of one call uses: 0 becomes the default, anything else is kept. */
  function EffectivePageSize(pageSize: int): (size: int)
    ensures size != 0
    ensures pageSize != 0 ==> size == pageSize
    ensures pageSize == 0 ==> size == DefaultPageSize
  {
    if pageSize == 0 then DefaultPageSize else pageSize
  }

  /** The single-page fetch, bound to one list type: (filter, offset, pageSize) to a page or an error. */
  type Fetcher<!F, E> = (F, int, int) -> Result<Page<E>, Error>

  /** saveBox: a fetched page tagged with its page index. */
  datatype SaveBox<E> = SaveBox(index: int, res: Page<E>)

  /** One invocation of the fetch function, with the arguments it was given. */
  datatype FetchCall<F> = FetchCall(filter: F, offset: int, pageSize: int)

  /** What a call of AutoPageTurn does: return a page, return an error, or wait forever on the channel. */
  datatype Outcome<E> = Returned(res: Page<E>) | Failed(err: Error) | Blocked

  /** request: fetch one page; send its box on success, send nothing on failure. */
  function Request<F, E>(filter: F, pageSize: int, idx: int, fetch: Fetcher<F, E>): (sent: Option<SaveBox<E>>)
    ensures sent.Some? <==> fetch(filter, idx, pageSize).Success?
    ensures sent.Some? ==> sent.value.index == idx && Success(sent.value.res) == fetch(filter, idx, pageSize)
  {
    match fetch(filter, idx, pageSize)
    case Success(page) => Some(SaveBox(idx, page))
    case Failure(_) => None
  }

  /** The boxes the channel delivers when the requests for `arrival` reach their send in that order. */
  function Delivered<F, E>(filter: F, pageSize: int, fetch: Fetcher<F, E>, arrival: seq<int>): (boxes: seq<SaveBox<E>>)
    ensures |boxes| <= |arrival|
  {
    if arrival == [] then []
    else
      var sent := Request(filter, pageSize, arrival[0], fetch);
      (if sent.Some? then [sent.value] else []) + Delivered(filter, pageSize, fetch, arrival[1..])
  }

  /** When every request succeeds, the channel delivers one box per request, in arrival order. */
  lemma {:induction false} DeliveredAllSucceed<F, E>(filter: F, pageSize: int, fetch: Fetcher<F, E>, arrival: seq<int>)
    requires forall k :: 0 <= k < |arrival| ==> fetch(filter, arrival[k], pageSize).Success?
    ensures |Delivered(filter, pageSize, fetch, arrival)| == |arrival|
    ensures forall k :: 0 <= k < |arrival| ==>
      Delivered(filter, pageSize, fetch, arrival)[k] == SaveBox(arrival[k], fetch(filter, arrival[k], pageSize).value)
  {
    if arrival != [] {
      DeliveredAllSucceed(filter, pageSize, fetch, arrival[1..]);
      var rest := Delivered(filter, pageSize, fetch, arrival[1..]);
      assert fetch(filter, arrival[0], pageSize).Success?;
      assert Delivered(filter, pageSize, fetch, arrival)
        == [SaveBox(arrival[0], fetch(filter, arrival[0], pageSize).value)] + rest;
      forall k | 1 <= k < |arrival|
        ensures Delivered(filter, pageSize, fetch, arrival)[k] == SaveBox(arrival[k], fetch(filter, arrival[k], pageSize).value)
      {
        assert arrival[1..][k - 1] == arrival[k];
      }
    }
  }

  /** A failed request sends nothing, so the channel delivers fewer boxes than there were requests. */
  lemma {:induction false} DeliveredShort<F, E>(filter: F, pageSize: int, fetch: Fetcher<F, E>, arrival: seq<int>, k: nat)
    requires k < |arrival| && fetch(filter, arrival[k], pageSize).Failure?
    ensures |Delivered(filter, pageSize, fetch, arrival)| < |arrival|
  {
    if k > 0 {
      assert arrival[1..][k - 1] == arrival[k];
      DeliveredShort(filter, pageSize, fetch, arrival[1..], k - 1);
    }
  }

  /** Every box on the channel was sent by a request of the arrival sequence, carrying that request's page. */
  lemma {:induction false} DeliveredFromFetches<F, E>(filter: F, pageSize: int, fetch: Fetcher<F, E>, arrival: seq<int>)
    ensures forall b :: b in Delivered(filter, pageSize, fetch, arrival) ==>
      b.index in arrival && Success(b.res) == fetch(filter, b.index, pageSize)
  {
    if arrival != [] {
      DeliveredFromFetches(filter, pageSize, fetch, arrival[1..]);
      assert forall x :: x in arrival[1..] ==> x in arrival;
    }
  }

  /** The indices the boxes carry. */
  function Indices<E>(boxes: seq<SaveBox<E>>): set<int>
  {
    set j | 0 <= j < |boxes| :: boxes[j].index
  }

  /** The tree after putting `boxes` in order: a later box with the same index overwrites an earlier one. */
  function TreeOf<E>(boxes: seq<SaveBox<E>>): (t: map<int, Page<E>>)
    ensures |t| <= |boxes|
    ensures t == map[] <==> boxes == []
  {
    if boxes == [] then map[]
    else TreeOf(boxes[..|boxes| - 1])[boxes[|boxes| - 1].index := boxes[|boxes| - 1].res]
  }

  /** The tree's keys are exactly the indices of the boxes put into it. */
  lemma {:induction false} TreeOfKeys<E>(boxes: seq<SaveBox<E>>)
    ensures TreeOf(boxes).Keys == Indices(boxes)
  {
    if boxes != [] {
      var init := boxes[..|boxes| - 1];
      var last := boxes[|boxes| - 1];
      TreeOfKeys(init);
      assert boxes == init + [last];
      assert Indices(boxes) == Indices(init) + {last.index};
    }
  }

  /** A box that no later box overwrites is what the tree holds for its index. */
  lemma {:induction false} TreeOfLastWins<E>(boxes: seq<SaveBox<E>>, i: nat)
    requires i < |boxes|
    requires forall j :: i < j < |boxes| ==> boxes[j].index != boxes[i].index
    ensures boxes[i].index in TreeOf(boxes) && TreeOf(boxes)[boxes[i].index] == boxes[i].res
  {
    var n := |boxes|;
    if i < n - 1 {
      var init := boxes[..n - 1];
      assert forall j :: i < j < |init| ==> init[j] == boxes[j];
      TreeOfLastWins(init, i);
    }
  }

  /** If every box for index i carries page(i), the tree holds page(i) at the index of each box. */
  lemma {:induction false} TreeOfHas<E>(boxes: seq<SaveBox<E>>, pages: seq<Page<E>>, j: nat)
    requires forall j :: 0 <= j < |boxes| ==>
      1 <= boxes[j].index <= |pages| && boxes[j].res == pages[boxes[j].index - 1]
    requires j < |boxes|
    ensures boxes[j].index in TreeOf(boxes) && TreeOf(boxes)[boxes[j].index] == pages[boxes[j].index - 1]
  {
    var n := |boxes|;
    if j < n - 1 && boxes[j].index != boxes[n - 1].index {
      var init := boxes[..n - 1];
      assert forall i :: 0 <= i < |init| ==> init[i] == boxes[i];
      TreeOfHas(init, pages, j);
    }
  }

  /**
    addResToTree: receive exactly `size` boxes from the channel, which delivers
    `collection` in order, and put each under its index. If the channel holds
    fewer than `size` boxes the receive blocks forever (None).
  */
  method AddResToTree<E>(collection: seq<SaveBox<E>>, size: int) returns (t: Option<map<int, Page<E>>>)
    ensures size <= |collection| ==> t == Some(TreeOf(collection[..if size < 0 then 0 else size]))
    ensures size > |collection| ==> t == None
  {
    var tree: map<int, Page<E>> := map[];
    var i := 0;
    while i < size
      invariant 0 <= i <= (if size < 0 then 0 else size)
      invariant i <= |collection|
      invariant tree == TreeOf(collection[..i])
    {
      if i == |collection| {
        // the receive of box i + 1 never completes
        return None;
      }
      var res := collection[i];
      assert collection[..i + 1][..i] == collection[..i];
      tree := tree[res.index := res.res];
      i := i + 1;
    }
    return Some(tree);
  }

  /** The pages a tree holds under `keys`, in the order of `keys`. */
  function PagesAt<E>(t: map<int, Page<E>>, keys: seq<int>): (pages: seq<Page<E>>)
    requires forall i :: 0 <= i < |keys| ==> keys[i] in t
    ensures |pages| == |keys|
  {
    if keys == [] then []
    else
      assert keys[|keys| - 1] in keys;
      PagesAt(t, keys[..|keys| - 1]) + [t[keys[|keys| - 1]]]
  }

  /** Keys() of the tree: its keys in ascending order. */
  method TreeKeys<V>(t: map<int, V>) returns (keys: seq<int>)
    ensures keys == SortedKeys(t.Keys)
  {
    var rest := t.Keys;
    keys := [];
    while rest != {}
      invariant rest <= t.Keys
      invariant StrictlyIncreasing(keys)
      invariant forall k :: k in keys <==> k in t.Keys && k !in rest
      invariant forall k, r :: k in keys && r in rest ==> k < r
      decreases |rest|
    {
      MinExists(rest);
      var m :| m in rest && forall k :: k in rest ==> m <= k;
      forall i | 0 <= i < |keys|
        ensures keys[i] < m
      {
        assert keys[i] in keys;
      }
      keys := keys + [m];
      rest := rest - {m};
    }
    SortedKeysIncreasing(t.Keys);
    StrictlyIncreasingUnique(keys, SortedKeys(t.Keys));
  }

  /**
    The fold of AutoPageTurn: walk `keys` (the tree's keys, so every lookup
    finds its page); the first page becomes the accumulator, which starts as
    the nil value of the list type, and every later one is appended to it
    with ConcatEmbed.
  */
  method FoldInKeyOrder<E>(kind: PageKind, t: map<int, Page<E>>, keys: seq<int>) returns (tmpRes: Option<Page<E>>)
    requires forall i :: 0 <= i < |keys| ==> keys[i] in t
    ensures tmpRes == MergeInOrder(PagesAt(t, keys))
  {
    tmpRes := None;
    for i := 0 to |keys|
      invariant tmpRes == MergeInOrder(PagesAt(t, keys[..i]))
    {
      ghost var done := PagesAt(t, keys[..i]);
      var key := keys[i];
      assert keys[..i + 1][..i] == keys[..i];
      var bx := t[key];
      assert PagesAt(t, keys[..i + 1]) == done + [bx];
      var zero := IsInterfaceZero(Dynamic(PointerType(kind), tmpRes.None?));
      if zero {
        assert done == [];
        MergeOne(bx);
        tmpRes := Some(bx);
      } else {
        MergeStep(done, bx);
        tmpRes := Some(Concat(tmpRes.value, bx));
      }
    }
    assert keys[..|keys|] == keys;
  }

  /** The channel order is a permutation of the page indices 1..n. */
  ghost predicate IsArrivalOrder(arrival: seq<int>, n: int)
  {
    && |arrival| == n
    && (forall k :: 0 <= k < |arrival| ==> 1 <= arrival[k] <= n)
    && (forall j, k :: 0 <= j < k < |arrival| ==> arrival[j] != arrival[k])
    && (forall i :: 1 <= i <= n ==> i in arrival)
  }

  /** Every page 1..n can be fetched. */
  ghost predicate AllFetched<F, E>(filter: F, pageSize: int, fetch: Fetcher<F, E>, n: int)
  {
    forall i :: 1 <= i <= n ==> fetch(filter, i, pageSize).Success?
  }

  /** Pages 1..n as fetched, page i at position i - 1. */
  ghost function FetchedPages<F, E>(filter: F, pageSize: int, fetch: Fetcher<F, E>, n: nat): seq<Page<E>>
    requires AllFetched(filter, pageSize, fetch, n)
  {
    seq(n, i requires 0 <= i < n => fetch(filter, i + 1, pageSize).value)
  }

  /** When every request succeeds, the boxes carry page i under index i. */
  lemma DeliveredPages<F, E>(filter: F, pageSize: int, fetch: Fetcher<F, E>, arrival: seq<int>, n: nat)
    requires IsArrivalOrder(arrival, n)
    requires AllFetched(filter, pageSize, fetch, n)
    ensures |Delivered(filter, pageSize, fetch, arrival)| == n
    ensures forall j :: 0 <= j < n ==> Delivered(filter, pageSize, fetch, arrival)[j].index == arrival[j]
    ensures var boxes := Delivered(filter, pageSize, fetch, arrival);
      var pages := FetchedPages(filter, pageSize, fetch, n);
      forall j :: 0 <= j < |boxes| ==> 1 <= boxes[j].index <= |pages| && boxes[j].res == pages[boxes[j].index - 1]
  {
    assert forall k :: 0 <= k < |arrival| ==> fetch(filter, arrival[k], pageSize).Success?;
    DeliveredAllSucceed(filter, pageSize, fetch, arrival);
  }

  /** A permutation of 1..n delivers every index 1..n and no other. */
  lemma DeliveredIndices<E>(boxes: seq<SaveBox<E>>, arrival: seq<int>, n: nat)
    requires IsArrivalOrder(arrival, n)
    requires |boxes| == n
    requires forall j :: 0 <= j < n ==> boxes[j].index == arrival[j]
    ensures Indices(boxes) == PageRange(n)
  {
    forall k
      ensures k in Indices(boxes) <==> k in PageRange(n)
    {
      if 1 <= k <= n {
        assert k in arrival;
        var j :| 0 <= j < |arrival| && arrival[j] == k;
        assert boxes[j].index == k;
      }
    }
  }

  /** Reading a tree at keys that hold the given pages gives those pages, in key-sequence order. */
  lemma {:induction false} PagesAtKeys<E>(t: map<int, Page<E>>, keys: seq<int>, pages: seq<Page<E>>)
    requires |keys| == |pages|
    requires forall i :: 0 <= i < |keys| ==> keys[i] in t && t[keys[i]] == pages[i]
    ensures forall i :: 0 <= i < |keys| ==> keys[i] in t
    ensures PagesAt(t, keys) == pages
  {
    if keys != [] {
      var n := |keys|;
      var keys', pages' := keys[..n - 1], pages[..n - 1];
      assert forall i :: 0 <= i < n - 1 ==> keys'[i] == keys[i] && pages'[i] == pages[i];
      PagesAtKeys(t, keys', pages');
      assert pages == pages' + [pages[n - 1]];
    }
  }

  /** A tree keyed exactly 1..n is walked as 1, 2, ..., n. */
  lemma KeysOfFullTree<V>(t: map<int, V>, n: nat)
    requires t.Keys == PageRange(n)
    ensures SortedKeys(t.Keys) == IndexRange(n)
  {
    KeysOfPageRange(n);
  }

  /** Reading a tree at 1, 2, ..., n gives the pages it holds there, in index order. */
  lemma PagesOfIndexRange<E>(t: map<int, Page<E>>, pages: seq<Page<E>>)
    requires forall k :: 1 <= k <= |pages| ==> k in t && t[k] == pages[k - 1]
    ensures forall i :: 0 <= i < |pages| ==> IndexRange(|pages|)[i] in t
    ensures PagesAt(t, IndexRange(|pages|)) == pages
  {
    var keys := IndexRange(|pages|);
    forall i | 0 <= i < |keys|
      ensures keys[i] in t && t[keys[i]] == pages[i]
    {
      assert keys[i] == i + 1;
    }
    PagesAtKeys(t, keys, pages);
  }

  /** Boxes carrying every index 1..n in turn, each with its page, give a tree holding page k at every key k in 1..n. */
  lemma TreeOfBoxes<E>(boxes: seq<SaveBox<E>>, pages: seq<Page<E>>, arrival: seq<int>)
    requires |boxes| == |arrival|
    requires forall j :: 0 <= j < |boxes| ==> boxes[j].index == arrival[j]
    requires forall k :: 1 <= k <= |pages| ==> k in arrival
    requires forall j :: 0 <= j < |boxes| ==>
      1 <= boxes[j].index <= |pages| && boxes[j].res == pages[boxes[j].index - 1]
    ensures forall k :: 1 <= k <= |pages| ==> k in TreeOf(boxes) && TreeOf(boxes)[k] == pages[k - 1]
  {
    forall k | 1 <= k <= |pages|
      ensures k in TreeOf(boxes) && TreeOf(boxes)[k] == pages[k - 1]
    {
      assert k in arrival;
      var j :| 0 <= j < |arrival| && arrival[j] == k;
      TreeOfHas(boxes, pages, j);
    }
  }

  /**
    Whatever the arrival order, when every page can be fetched the collected
    tree holds exactly the keys 1..n, and reading it at 1, 2, ..., n gives
    pages 1..n in index order.
  */
  lemma CollectedPagesInIndexOrder<F, E>(filter: F, pageSize: int, fetch: Fetcher<F, E>, arrival: seq<int>, n: nat)
    requires IsArrivalOrder(arrival, n)
    requires AllFetched(filter, pageSize, fetch, n)
    ensures |Delivered(filter, pageSize, fetch, arrival)| == n
    ensures TreeOf(Delivered(filter, pageSize, fetch, arrival)).Keys == PageRange(n)
    ensures forall i :: 0 <= i < n ==> IndexRange(n)[i] in TreeOf(Delivered(filter, pageSize, fetch, arrival))
    ensures PagesAt(TreeOf(Delivered(filter, pageSize, fetch, arrival)), IndexRange(n))
         == FetchedPages(filter, pageSize, fetch, n)
  {
    var pages := FetchedPages(filter, pageSize, fetch, n);
    var boxes := Delivered(filter, pageSize, fetch, arrival);
    DeliveredPages(filter, pageSize, fetch, arrival, n);
    assert |pages| == n;
    TreeOfArrival(boxes, pages, arrival);
  }

  /** Boxes arriving in a permutation of 1..n, each with its page, give a tree keyed 1..n read as the pages. */
  lemma TreeOfArrival<E>(boxes: seq<SaveBox<E>>, pages: seq<Page<E>>, arrival: seq<int>)
    requires IsArrivalOrder(arrival, |pages|)
    requires |boxes| == |pages|
    requires forall j :: 0 <= j < |pages| ==> boxes[j].index == arrival[j]
    requires forall j :: 0 <= j < |boxes| ==>
      1 <= boxes[j].index <= |pages| && boxes[j].res == pages[boxes[j].index - 1]
    ensures TreeOf(boxes).Keys == PageRange(|pages|)
    ensures forall i :: 0 <= i < |pages| ==> IndexRange(|pages|)[i] in TreeOf(boxes)
    ensures PagesAt(TreeOf(boxes), IndexRange(|pages|)) == pages
  {
    DeliveredIndices(boxes, arrival, |pages|);
    TreeOfKeys(boxes);
    TreeOfBoxes(boxes, pages, arrival);
    PagesOfIndexRange(TreeOf(boxes), pages);
  }

  /** With one request per page, the channel delivers all n boxes exactly when every page can be fetched. */
  lemma DeliveredCount<F, E>(filter: F, pageSize: int, fetch: Fetcher<F, E>, arrival: seq<int>, n: nat)
    requires IsArrivalOrder(arrival, n)
    ensures |Delivered(filter, pageSize, fetch, arrival)| <= n
    ensures |Delivered(filter, pageSize, fetch, arrival)| == n <==> AllFetched(filter, pageSize, fetch, n)
  {
    if AllFetched(filter, pageSize, fetch, n) {
      DeliveredPages(filter, pageSize, fetch, arrival, n);
    } else {
      var p :| 1 <= p <= n && fetch(filter, p, pageSize).Failure?;
      assert p in arrival;
      var k :| 0 <= k < |arrival| && arrival[k] == p;
      DeliveredShort(filter, pageSize, fetch, arrival, k);
    }
  }

  /**
    The multi-page result: folding the collected tree in key order gives page
    1's paging fields with the elements of pages 1..n in index order.
  */
  lemma MultiPageResult<F, E>(filter: F, pageSize: int, fetch: Fetcher<F, E>, arrival: seq<int>, n: nat,
                              tree: map<int, Page<E>>, keys: seq<int>)
    requires n >= 1 && IsArrivalOrder(arrival, n)
    requires AllFetched(filter, pageSize, fetch, n)
    requires tree == TreeOf(Delivered(filter, pageSize, fetch, arrival))
    requires keys == SortedKeys(tree.Keys)
    ensures forall i :: 0 <= i < |keys| ==> keys[i] in tree
    ensures MergeInOrder(PagesAt(tree, keys))
      == Some(Page(fetch(filter, 1, pageSize).value.param, Flatten(FetchedPages(filter, pageSize, fetch, n))))
  {
    CollectedPagesInIndexOrder(filter, pageSize, fetch, arrival, n);
    KeysOfFullTree(tree, n);
    FirstFetched(filter, pageSize, fetch, n);
    MergeFromFirst(FetchedPages(filter, pageSize, fetch, n));
  }

  /** The first fetched page is the answer to the fetch of page 1. */
  lemma FirstFetched<F, E>(filter: F, pageSize: int, fetch: Fetcher<F, E>, n: nat)
    requires n >= 1 && AllFetched(filter, pageSize, fetch, n)
    ensures |FetchedPages(filter, pageSize, fetch, n)| == n
    ensures FetchedPages(filter, pageSize, fetch, n)[0] == fetch(filter, 1, pageSize).value
  {
  }

  /** Merging pages gives the first page's paging fields and all the elements. */
  lemma MergeFromFirst<E>(pages: seq<Page<E>>)
    requires pages != []
    ensures MergeInOrder(pages) == Some(Page(pages[0].param, Flatten(pages)))
  {
  }

  /** What AutoPageTurn needs of its inputs: a usable page size on page 1, and a permutation for the channel. */
  ghost predicate CallableWith<F, E>(filter: F, pageSize: int, fetch: Fetcher<F, E>, arrival: seq<int>)
  {
    var first := fetch(filter, 1, EffectivePageSize(pageSize));
    first.Success? ==>
      && first.value.param.pageSize > 0
      && (TotalPage(first.value.param) >= 2 ==> IsArrivalOrder(arrival, TotalPage(first.value.param)))
  }

  /**
    AutoPageTurn. `calls` lists the fetch invocations (page 1 first, then the
    requests in launch order); `out` is what the call returns, or Blocked.
  */
  method AutoPageTurn<F(==), E>(kind: PageKind, filter: F, pageSize: int, fetch: Fetcher<F, E>, arrival: seq<int>)
    returns (out: Outcome<E>, calls: seq<FetchCall<F>>)
    requires CallableWith(filter, pageSize, fetch, arrival)
    // every fetch gets the caller's filter and the same page size, 10 when 0 was asked for
    ensures |calls| >= 1 && calls[0] == FetchCall(filter, 1, EffectivePageSize(pageSize))
    ensures forall c :: c in calls ==> c.filter == filter && c.pageSize == EffectivePageSize(pageSize)
    // a failed first fetch: its error, nothing else fetched
    ensures var first := fetch(filter, 1, EffectivePageSize(pageSize));
      first.Failure? ==> out == Failed(first.error) && |calls| == 1
    // fewer than two pages: the first page itself, nothing else fetched
    ensures var first := fetch(filter, 1, EffectivePageSize(pageSize));
      first.Success? && TotalPage(first.value.param) < 2 ==> out == Returned(first.value) && |calls| == 1
    // two or more pages: N more fetches for pages 1..N; the result is page 1's paging fields with
    // the elements of pages 1..N in index order, whatever the arrival order; a failed page blocks
    ensures var first := fetch(filter, 1, EffectivePageSize(pageSize));
      first.Success? && TotalPage(first.value.param) >= 2 ==>
        var n := TotalPage(first.value.param);
        && |calls| == n + 1
        && (forall i :: 1 <= i <= n ==> calls[i].offset == i)
        && (AllFetched(filter, EffectivePageSize(pageSize), fetch, n) ==>
              out == Returned(Page(first.value.param, Flatten(FetchedPages(filter, EffectivePageSize(pageSize), fetch, n)))))
        && (!AllFetched(filter, EffectivePageSize(pageSize), fetch, n) ==> out == Blocked)
  {
    var size := pageSize;
    if size == 0 {
      size := DefaultPageSize;
    }
    var offset := 1;
    var res := fetch(filter, offset, size);
    calls := [FetchCall(filter, offset, size)];
    if res.Failure? {
      return Failed(res.error), calls;
    }
    if TotalPage(res.value.param) < 2 {
      return Returned(res.value), calls;
    }
    var totalPage := TotalPage(res.value.param);

    // one request per page index, page 1 included
    var i := offset;
    while i <= totalPage
      invariant 1 <= i <= totalPage + 1
      invariant |calls| == i
      invariant calls[0] == FetchCall(filter, 1, size)
      invariant forall j :: 1 <= j < i ==> calls[j] == FetchCall(filter, j, size)
      invariant forall c :: c in calls ==> c.filter == filter && c.pageSize == size
    {
      calls := calls + [FetchCall(filter, i, size)];
      i := i + 1;
    }

    var collection := Delivered(filter, size, fetch, arrival);
    DeliveredCount(filter, size, fetch, arrival, totalPage);
    var t := AddResToTree(collection, totalPage);
    if t.None? {
      // a request that failed sent nothing: the collector waits for its box forever
      return Blocked, calls;
    }
    assert collection[..totalPage] == collection;
    var keys := TreeKeys(t.value);
    var tmpRes := FoldInKeyOrder(kind, t.value, keys);
    MultiPageResult(filter, size, fetch, arrival, totalPage, t.value, keys);
    return Returned(tmpRes.value), calls;
  }
}
