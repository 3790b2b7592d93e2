# go-openproject: paging, request shaping and list merging, in Dafny

go-openproject is a Go client library for the OpenProject REST API (API v3).
This project models the parts of it that compute rather than talk to the
network, and proves what they promise:

- **Automatic page turning** (`pagination.go`). `AutoPageTurn` fetches page 1
  of a listing to learn its total. If there are two or more pages, it starts
  one goroutine per page index 1..N. Each goroutine sends its page, boxed with
  its index, into a channel. A collector stores the boxes in a red-black tree
  keyed by index. The pages are then folded in ascending key order with the
  list type's `ConcatEmbed`, seeded with the first page found. The model takes
  the order in which the goroutines reach the channel as a parameter
  (`arrival`, any permutation of 1..N). The tree is a `map<int, Page>`, whose
  key walk is `OrderedKeys.SortedKeys`. The fetch function is a pure function
  parameter. `AutoPageTurn` is proved to return page 1's paging fields with
  the elements of pages 1..N in index order, whatever the arrival order.
- **The list types' page capability** (`project.go`, `query.go`,
  `status.go`). Each type has `TotalPage`, the integer ceiling of total over
  page size, and `ConcatEmbed`, an in-place append. Each is a class with the
  source's fields. A `Value()` function ties each class to the value-level
  page of `Paging`.
- **The status list's lock** (`status.go`). `GetListWithContext` installs a
  fresh lock, and `ConcatEmbed` takes it. The lock is modelled as a flag.
- **Request and response shaping** (`openproject.go`):
  - the 2xx check;
  - the base URL's trailing slash in `NewClient`;
  - the paging fields that `newResponse` copies into a `Response`;
  - the canonical request string hashed into the JWT `qsh` claim;
  - the header deep copy made by `cloneRequest`.
- **The work-package activities href rule** (`activities.go`).

Three behaviours of the code differ from what a caller might expect, and
the model follows the code:

- **A failed page fetch.** One might expect a page that fails to fetch
  during fan-out to be dropped, leaving a partial merge. In the code,
  `request` returns without sending when its fetch fails (pagination.go
  lines 73-75), while `addResToTree` still receives exactly N times (lines
  63-64), so it waits forever and `AutoPageTurn` never returns. The model's
  outcome for this case is `Blocked`.
- **The status lock.** One might expect the lock to be released after each
  append. The status list's `ConcatEmbed` takes its lock and never releases
  it (status.go:27-30). See Findings.
- **Which pages are fetched again.** The fan-out fetches every index 1..N,
  including page 1, which was already fetched. So the fetch function runs N+1
  times, and page 1 of the merge is the one fetched by the fan-out.

Modules:

- `Wrappers`: `Option`, `Result` and the errors.
- `Paging`: `PaginationParam`, `Page`, `TotalPage`, `Concat`, `MergeInOrder`.
- `OrderedKeys`: the ascending key walk.
- `Pagination`: `AutoPageTurn` and its helpers.
- `Projects`, `Queries`, `Statuses`: the list classes.
- `Text`: the string functions the canonical request uses.
- `OpenProject`: responses, the client and requests.
- `Activities`: the href rule.

## Model

| member | source | states |
|---|---|---|
| Paging.CeilDiv | project.go:23 | the result n is the integer ceiling of a / b for b > 0: (n-1)·b < a ≤ n·b |
| Paging.CeilDivUnique | project.go:23 | exactly one integer satisfies those bounds, so the ceiling is determined by them |
| Paging.TotalPage | project.go:22-24 | the page count n satisfies (n-1)·pageSize < total ≤ n·pageSize; it is 0 for total 0 and at least 1 for total > 0 |
| Paging.Concat | project.go:26-28 | the result keeps the receiver's paging fields; its elements are the receiver's followed by the argument's, lengths adding up |
| Paging.MergeInOrder | pagination.go:45-56 | folding pages with Concat from the first page gives nothing exactly for no pages, else the first page's paging fields and as many elements as all pages hold |
| Paging.MergeStep | pagination.go:50-54 | folding one more page onto a merge is exactly one Concat of that page |
| Paging.MergeOne | pagination.go:50-51 | a fold over one page yields that page unchanged |
| Paging.FlattenLength | pagination.go:46-56 | the merged element sequence loses nothing: its length is the sum of the page lengths |
| Paging.FlattenAt | pagination.go:46-56 | element k of page i sits in the merge right after the elements of the earlier pages |
| Paging.SumPageLengthsPrefix | pagination_test.go:53-58 | n full-or-remainder pages hold min(total, n·pageSize) elements |
| Paging.PagesCoverTotal | pagination_test.go:53-58 | the TotalPage pages of a listing, full pages then a remainder, hold exactly total elements |
| Paging.ElementCountOfPageLengths | pagination_test.go:53-58 | pages filled as the service fills them hold the summed page lengths |
| Paging.MergedHoldsTotal | pagination_test.go:53-58 | merging the TotalPage pages of a fully served listing yields exactly total elements |
| OrderedKeys.MinExists | pagination.go:46 | every non-empty key set has a least key, which the ascending walk starts from |
| OrderedKeys.Least | pagination.go:46 | the least key of a non-empty key set: a member no other key is below |
| OrderedKeys.SortedKeys | pagination.go:46 | the tree's key walk has one entry per key and holds exactly the tree's keys |
| OrderedKeys.SortedKeysIncreasing | pagination.go:46 | the key walk is strictly ascending |
| OrderedKeys.StrictlyIncreasingUnique | pagination.go:46 | an ascending key walk is determined by the key set alone |
| OrderedKeys.PageRange | pagination.go:39 | the page indices launched are exactly 1..N |
| OrderedKeys.IndexRange | pagination.go:39 | the indices 1, 2, …, N in launch order: position i holds i+1 |
| OrderedKeys.KeysOfPageRange | pagination.go:39-46 | a tree holding keys 1..N is walked as 1, 2, …, N |
| Pagination.EffectivePageSize | pagination.go:22-24 | the page size used is never 0: a requested 0 becomes the default 10, and any other size is kept |
| Pagination.IsInterfaceZero | pagination.go:79-93 | true exactly for a nil pointer of one of the five list result types; false for every other value |
| Pagination.Request | pagination.go:71-77 | a box is sent exactly when the fetch succeeds; it carries the requested index and the fetched page |
| Pagination.Delivered | pagination.go:71-77 | the channel never carries more boxes than requests were launched |
| Pagination.DeliveredFromFetches | pagination.go:71-77 | every box on the channel was sent by a launched request and carries the page that request's fetch returned for its index |
| Pagination.DeliveredAllSucceed | pagination.go:71-77 | when every fetch succeeds, the channel carries one box per launched index, in arrival order, each with its page |
| Pagination.DeliveredShort | pagination.go:73-75 | one failed fetch leaves the channel with fewer boxes than requests launched |
| Pagination.TreeOf | pagination.go:62-66 | the tree holds at most one entry per box put, and is empty exactly when no box was put |
| Pagination.TreeOfKeys | pagination.go:66 | the tree's keys are exactly the indices of the boxes put into it |
| Pagination.TreeOfLastWins | pagination.go:66 | a key holds the page of the last box put with that index: a repeated index overwrites |
| Pagination.TreeOfHas | pagination.go:61-69 | when every box carries the page at its own index, each box's index is a key of the tree holding that page, whatever boxes came later |
| Pagination.AddResToTree | pagination.go:61-69 | the collector receives exactly size boxes and keys each by its index; with fewer boxes available it never returns |
| Pagination.PagesAt | pagination.go:46-49 | looking up a key sequence in the tree gives one page per key |
| Pagination.TreeKeys | pagination.go:46 | the key loop visits the tree's keys in ascending order, each once |
| Pagination.FoldInKeyOrder | pagination.go:45-56 | the nil-seeded fold over the keys equals MergeInOrder of the pages at those keys |
| Pagination.DeliveredPages | pagination.go:39-41 | when every fetch succeeds, the N boxes arrive in the arrival order with their own index and page |
| Pagination.DeliveredIndices | pagination.go:39-41 | boxes carrying a permutation of 1..N have exactly the indices 1..N |
| Pagination.PagesAtKeys | pagination.go:46-49 | reading a tree at keys that hold given pages yields those pages in key-sequence order |
| Pagination.KeysOfFullTree | pagination.go:46 | a tree keyed exactly 1..N is walked as 1, 2, …, N |
| Pagination.PagesOfIndexRange | pagination.go:46-49 | reading a tree that holds page k at key k, at keys 1, 2, …, N, yields pages 1..N in order |
| Pagination.TreeOfBoxes | pagination.go:61-69 | boxes covering every index 1..N, each with the page at its index, give a tree with page k at key k |
| Pagination.TreeOfArrival | pagination.go:37-49 | boxes arriving in any permutation of 1..N, each with its page, give a tree keyed exactly 1..N that reads back as pages 1..N in order |
| Pagination.CollectedPagesInIndexOrder | pagination.go:37-49 | whatever the arrival order, when all fetches succeed the collected tree is walked as pages 1..N in index order |
| Pagination.DeliveredCount | pagination.go:63-75 | at most N boxes arrive, and exactly N exactly when every page fetch succeeds, which is when the collector completes |
| Pagination.MultiPageResult | pagination.go:44-58 | when every page fetch succeeds, the fold yields page 1's paging fields and the elements of pages 1..N concatenated in index order |
| Pagination.AutoPageTurn | pagination.go:18-59 | page size 0 becomes 10 and any other size is passed on unchanged, with the filter, to every fetch. A failed first fetch returns its error after one call. Fewer than 2 pages returns page 1 after one call. Otherwise N more fetches are made for indices 1..N. The result is then page 1's paging fields with all pages' elements in index order, for any arrival order; one failed page blocks forever |
| Projects.SearchResultProject.constructor | project.go:17-20 | the decoded list holds the page's paging fields and elements |
| Projects.SearchResultProject.TotalPage | project.go:22-24 | the ceiling bounds of Paging.TotalPage on the receiver's fields |
| Projects.SearchResultProject.ConcatEmbed | project.go:26-28 | the receiver becomes Concat of its old page and the argument's: elements appended in order, paging fields unchanged, argument unchanged |
| Queries.SearchResultQuery.constructor | query.go:15-18 | the decoded list holds the page's paging fields and Status elements |
| Queries.SearchResultQuery.TotalPage | query.go:20-22 | the ceiling bounds on the receiver's fields |
| Queries.SearchResultQuery.ConcatEmbed | query.go:24-26 | Status elements appended after the receiver's, length the sum of both, paging fields and argument unchanged |
| Statuses.RWMutex.constructor | status.go:82 | a new lock is free |
| Statuses.RWMutex.Lock | status.go:28 | takes the write lock; it can proceed only on a free lock, and afterwards the lock is held |
| Statuses.RWMutex.Unlock | status.go:20 | releases a held write lock |
| Statuses.SearchResultStatus.constructor | status.go:17-21 | a decoded list holds its page, with no lock yet |
| Statuses.SearchResultStatus.TotalPage | status.go:23-25 | the ceiling bounds on the receiver's fields |
| Statuses.SearchResultStatus.ConcatEmbed | status.go:27-30 | needs a set, free lock. Appends the argument's elements, leaving the paging fields and the argument unchanged. Returns with the lock still held |
| Statuses.SearchResultStatus.ConcatEmbedReleasing | status.go:27-30 | the same append, and the lock is free again afterwards (the corrected ConcatEmbed) |
| Statuses.Values | status.go:27-30 | one page per list, each list's current page |
| Statuses.FoldPagesAsWritten | status.go:27-30 | folding status pages with the written ConcatEmbed blocks exactly when two or more pages follow the first; otherwise the elements are appended |
| Statuses.FoldPages | status.go:27-30 | with the lock released after each append, the fold never blocks, appends every page's elements in order and leaves the lock free |
| Statuses.GetListWithContext | status.go:72-84 | a fetch error is passed on with no list. A result of another type gives the conversion error. Otherwise the decoded list is returned with a fresh, free lock |
| Text.StrLeq | openproject.go:626 | the byte-wise order of sort.Strings; a prefix sorts before or equal to any extension of it |
| Text.StrLeqTotal | openproject.go:626 | any two strings are ordered one way or the other |
| Text.StrLeqAntisymmetric | openproject.go:626 | strings ordered both ways are equal |
| Text.StrLeqTransitive | openproject.go:626 | the string order is transitive |
| Text.Insert | openproject.go:626 | inserting into a sorted sequence keeps it sorted and adds exactly that string |
| Text.SortStrings | openproject.go:626 | sort.Strings yields an ascending sequence of the same strings, with the same multiplicities |
| Text.SortedUnique | openproject.go:626 | two ascending orderings of the same strings are equal |
| Text.Join | openproject.go:623-627 | strings.Join: no parts join to "", one part joins to itself, and a non-empty join starts with the first part |
| Text.JoinChars | openproject.go:623-627 | a join holds no character that is in neither a part nor the separator |
| Text.JoinSnoc | openproject.go:623-627 | joining one more part appends the separator and that part |
| Text.ReplaceChar | openproject.go:615-624 | a one-character text becomes `with` if it is c and stays itself otherwise; after replacing c by a text without c, no c remains; a text without c is unchanged |
| Text.ReplaceCharAppend | openproject.go:615-624 | replacing distributes over concatenation, so with the one-character cases it determines the whole result |
| Text.ReplaceCharLength | openproject.go:615-624 | the result grows by the length of `with` minus one per occurrence of c, and by nothing else |
| Text.ReplaceCharAt | openproject.go:615-624 | character k of s appears, in order, right after the rewritten text before it: a c as `with`, any other character as itself |
| Text.TrimLeft | openproject.go:615 | the result is a suffix of s: it drops only leading copies of c, and all of them |
| Text.TrimRight | openproject.go:615 | the result is a prefix of s: it drops only trailing copies of c, and all of them |
| Text.Trim | openproject.go:615 | neither end of the result is c; a string without c is unchanged |
| Text.TrimIsInfix | openproject.go:615 | the result is the slice s[i..j] where everything before i and from j on is c: only the outer runs of c are removed |
| Text.HasSuffix | openproject.go:83 | s ends with the suffix exactly when s is some string followed by it |
| Text.ToUpper | openproject.go:627 | same length; each a..z becomes A..Z and every other character is kept |
| OpenProject.CheckResponse | openproject.go:342-349 | no error exactly for status codes 200..299; otherwise an error carrying the status code |
| OpenProject.Response.constructor | openproject.go:374-375 | a new Response holds the status code and zero paging fields |
| OpenProject.Response.PopulatePageValues | openproject.go:385-398 | a work-package or user listing's Total, Count, PageSize and Offset are copied; any other value leaves them as they were |
| OpenProject.NewResponse | openproject.go:374-378 | a fresh Response whose paging fields are the listing's for those two types and zero otherwise |
| OpenProject.NormalizedBaseURL | openproject.go:83-85 | the base URL ends in "/", extends the given one by at most that slash, and is unchanged when it already ended in "/" |
| OpenProject.NormalizeIdempotent | openproject.go:83-85 | normalising twice is normalising once |
| OpenProject.Client.constructor | openproject.go:92-95 | the client keeps the base URL it was given |
| OpenProject.NewClient | openproject.go:77-106 | the normalised URL is parsed. If it parses, a client with that base URL and no error; otherwise no client and the parse error |
| OpenProject.CanonicalPath | openproject.go:615 | starts with "/" and contains no "&"; without "&" in the URL path, it is "/" + the path trimmed of "/" |
| OpenProject.CanonicalPathOfSlice | openproject.go:615 | "/" followed by the slice of the path between its outer runs of "/" (a slice that starts and ends with no "/"), with each "&" of it written as "%26" and every other character kept in order |
| OpenProject.TrimIsSlice | openproject.go:615 | trimming introduces no character the path did not have |
| OpenProject.Entry | openproject.go:622-624 | an entry contains no "+"; it is the escaped key and the escaped joined values, each with every "+" written as "%20" and nothing else changed, around an untouched "="; without "+" in the escapes it is escape(key) "=" escape(joined values) |
| OpenProject.CanonicalString | openproject.go:627 | the canonical string starts with the upper-cased method, "&" and the canonical path's leading "/" |
| OpenProject.EntriesFor | openproject.go:617-625 | at most one entry per visited parameter |
| OpenProject.EntriesComeFromKeys | openproject.go:618-624 | every entry is the entry of a visited parameter other than jwt |
| OpenProject.CanonicalizeRequest | openproject.go:614-628 | the loop builds the entries of every parameter but jwt. The result is the upper-cased method, the canonical path and the sorted entries, joined by "&" |
| OpenProject.EntriesForAppend | openproject.go:618-625 | visiting two key runs in turn gives their entries in turn |
| OpenProject.EntriesForStep | openproject.go:618-625 | one more loop step adds the visited parameter's entry, or nothing for jwt |
| OpenProject.EntriesForPermutation | openproject.go:618-625 | visiting the same keys in another order yields the same entries with the same multiplicities |
| OpenProject.RemoveBoth | openproject.go:618 | removing the same key from two permutations of one another leaves permutations |
| OpenProject.EntriesWithout | openproject.go:618-625 | a key's entry plus the entries of the other keys are all the entries |
| OpenProject.DistinctOnce | openproject.go:618 | a map iteration visits each key once |
| OpenProject.EnumerationsArePermutations | openproject.go:618 | two iteration orders of the same query map visit the same keys |
| OpenProject.CanonicalOrderIndependent | openproject.go:618-627 | the canonical string does not depend on the map iteration order |
| OpenProject.CanonicalIgnoresJwt | openproject.go:618-621 | adding a jwt parameter, with any values, leaves the canonical string unchanged |
| OpenProject.JwtLastEnumeration | openproject.go:618 | visiting jwt last is one iteration order of the map with jwt added |
| OpenProject.JwtEntriesDropped | openproject.go:619-621 | visiting jwt adds no entry |
| OpenProject.EntriesForOtherMap | openproject.go:618-624 | entries depend only on the values of the visited keys |
| OpenProject.Request.constructor | openproject.go:634-637 | the request holds the given method, URL and header |
| OpenProject.CopyValues | openproject.go:641 | a new slice with the same values |
| OpenProject.CloneRequest | openproject.go:634-644 | a new request with the same method and URL, and a header with the same keys. Each key holds a newly allocated slice of equal values, no two keys sharing one, so edits to the clone's lists never reach the original |
| Activities.WPHrefEndpoint | activities.go:59-64 | an empty href is the "href is empty" error. A longer href starting with "/" loses exactly one leading "/". Any other href, "/" included, is kept unchanged and never empty |
| Activities.GetFromWPHrefWithContext | activities.go:58-71 | an empty href makes no fetch and returns the error. Otherwise there is exactly one fetch of the endpoint with offset 0 and page size 0, and its result is returned |

## Left out

- Goroutines, the channel and scheduling: the order in which the requests reach the channel is the `arrival` parameter (any permutation of 1..N). The fetch function is pure, so a page fetched twice (page 1) gives the same answer both times.
- Pagination.AutoPageTurn: on a failed first fetch, Go also returns the (typically nil) value the fetch gave alongside the error; the model returns only the error.
- Pagination.AutoPageTurn: the fold's accumulator in Go is page 1's own object, which every ConcatEmbed grows in place (aliasing the page stored in the tree); the model folds values, so that aliasing is not captured.
- Pagination.AutoPageTurn: the generic fold is over values and does not carry the status list's lock; the lock's effect on a status listing is modelled separately by Statuses.FoldPagesAsWritten.
- Pagination.AddResToTree: the `fmt.Printf` logging of each received box is output only.
- The red-black tree library is a `map<int, Page>` plus its ascending key walk; its internal balancing is not modelled.
- Paging.TotalPage: Go divides as float64 and rounds up with math.Ceil. The model uses exact integer ceiling division and requires pageSize > 0. Page size 0, which gives Inf or NaN in Go, is not modelled, nor is float rounding for totals above 2^53.
- Panics on a wrong dynamic type (`b.(T)`, `proj.(*SearchResultProject)`, `obj.(*Activities)`) and on nil receivers are not modelled; the model's types rule them out.
- The `*Response` values returned next to results, the `http.Response` a Response wraps (reduced to its status code), http.DefaultClient defaulting and the service pointers NewClient wires up are not modelled.
- url.Parse is the `parses` predicate of NewClient and url.QueryEscape the `escape` function of the canonical request; parsing the query string into a map (URL.Query) is the given `Values` map.
- Text.ToUpper maps ASCII letters only; Go's strings.ToUpper also upper-cases other Unicode letters. Strings compare by character, which agrees with Go's byte order for valid UTF-8.
- OpenProject.CloneRequest: the shallow copy of the request struct is reduced to its method and URL; Go turns an empty value slice into a nil slice, the model into a new empty array.
- SHA-256 hashing of the canonical string and JWT signing, JSON decoding, HTTP transport and the generic GetListWithContext helper are not part of this model; a decoded listing enters as a parameter (`Statuses.GetListWithContext`'s `got`, the fetch functions).
- Element types keep the fields that the list operations carry (Status in full, Project and Activity reduced); their JSON tags are not modelled.

## Findings

| source | as written | input that shows it | evidently intended | confidence | as-written member | corrected member |
|---|---|---|---|---|---|---|
| status.go:27-30 | `ConcatEmbed` takes the list's write lock and returns without releasing it | AutoPageTurn over a status listing of 3 pages (total 25, page size 10), reached through a wrapper that gives GetList the fetch signature: the fold calls ConcatEmbed on page 1's list twice, and the second Lock waits forever | release the lock when the append is done, so later appends proceed | high; not executed | Statuses.FoldPagesAsWritten | Statuses.FoldPages |
