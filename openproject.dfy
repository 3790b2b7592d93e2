/**
  The client-side request and response shaping rules: the 2xx status check,
  the base URL's trailing slash, the canonical request string that the JWT
  transport hashes into its `qsh` claim, the paging fields copied into a
  Response, and the header deep copy made before a transport edits a request.
*/
module OpenProject {
  import opened Wrappers
  import opened Paging
  import opened Text

  // ---------------------------------------------------------------- responses

  /** CheckResponse: no error exactly for a status code in 200..299; otherwise an error carrying the code. */
  function CheckResponse(statusCode: int): (err: Option<Error>)
    ensures err.None? <==> 200 <= statusCode <= 299
    ensures err.Some? ==> err.value == RequestFailed(statusCode)
  {
    if 200 <= statusCode && statusCode <= 299 then None else Some(RequestFailed(statusCode))
  }

  /** The decoded body handed to newResponse: one of the two result types with paging fields, or anything else. */
  datatype Body =
    | SearchResultWPBody(param: PaginationParam)
    | SearchResultUserBody(param: PaginationParam)
    | OtherBody

  /** Response: the HTTP response (reduced to its status code) and the paging fields of the listing it carried. */
  class Response {
    var statusCode: int
    var total: int
    var count: int
    var pageSize: int
    var offset: int

    constructor (statusCode: int)
      ensures this.statusCode == statusCode && Paging() == PaginationParam(0, 0, 0, 0)
    {
      this.statusCode := statusCode;
      total := 0;
      count := 0;
      pageSize := 0;
      offset := 0;
    }

    function Paging(): PaginationParam
      reads this
    {
      PaginationParam(total, count, pageSize, offset)
    }

    /** populatePageValues: copy the four paging fields from a work package or user listing; leave them otherwise. */
    method PopulatePageValues(v: Body)
      modifies this
      ensures v.OtherBody? ==> Paging() == old(Paging())
      ensures !v.OtherBody? ==> Paging() == v.param
      ensures statusCode == old(statusCode)
    {
      match v
      case SearchResultWPBody(value) =>
        total := value.total;
        count := value.count;
        pageSize := value.pageSize;
        offset := value.offset;
      case SearchResultUserBody(value) =>
        total := value.total;
        count := value.count;
        pageSize := value.pageSize;
        offset := value.offset;
      case OtherBody =>
    }
  }

  /** newResponse: a fresh Response whose paging fields are the body's for the two paged types and zero otherwise. */
  method NewResponse(statusCode: int, v: Body) returns (resp: Response)
    ensures fresh(resp) && resp.statusCode == statusCode
    ensures resp.Paging() == if v.OtherBody? then PaginationParam(0, 0, 0, 0) else v.param
  {
    resp := new Response(statusCode);
    resp.PopulatePageValues(v);
  }

  // ------------------------------------------------------------------ client

  /** The base URL with a trailing slash, so that relative paths resolve below it. */
  function NormalizedBaseURL(baseURL: string): (u: string)
    ensures HasSuffix(u, "/")
    ensures |baseURL| <= |u| <= |baseURL| + 1 && u[..|baseURL|] == baseURL
    ensures HasSuffix(baseURL, "/") ==> u == baseURL
  {
    if HasSuffix(baseURL, "/") then baseURL else baseURL + "/"
  }

  /** Normalising twice is normalising once. */
  lemma NormalizeIdempotent(baseURL: string)
    ensures NormalizedBaseURL(NormalizedBaseURL(baseURL)) == NormalizedBaseURL(baseURL)
  {
    var u := NormalizedBaseURL(baseURL);
    assert HasSuffix(u, "/");
  }

  /** Client, reduced to the base URL every request is resolved against. */
  class Client {
    const baseURL: string

    constructor (baseURL: string)
      ensures this.baseURL == baseURL
    {
      this.baseURL := baseURL;
    }
  }

  /**
    NewClient: add the missing trailing slash, then parse. `parses` stands for
    url.Parse accepting the string; its error becomes UrlParseFailed.
  */
  method NewClient(baseURL: string, parses: string -> bool) returns (client: Client?, err: Option<Error>)
    ensures parses(NormalizedBaseURL(baseURL)) ==>
      err == None && client != null && fresh(client) && client.baseURL == NormalizedBaseURL(baseURL)
    ensures !parses(NormalizedBaseURL(baseURL)) ==>
      client == null && err == Some(UrlParseFailed(NormalizedBaseURL(baseURL)))
  {
    var url := baseURL;
    if !HasSuffix(url, "/") {
      url := url + "/";
    }
    if !parses(url) {
      return null, Some(UrlParseFailed(url));
    }
    client := new Client(url);
    return client, None;
  }

  // ---------------------------------------------------- canonical request

  /** url.Values: each query parameter with its list of values. */
  type Values = map<string, seq<string>>

  /** The canonical path: "/" and the URL path without its outer slashes, each '&' written as "%26". */
  function CanonicalPath(path: string): (r: string)
    ensures |r| >= 1 && r[0] == '/'
    ensures '&' !in r
    ensures '&' !in path ==> r == "/" + Trim(path, '/')
  {
    var trimmed := Trim(path, '/');
    TrimIsSlice(path, '/');
    var replaced := ReplaceChar(trimmed, '&', "%26");
    assert '&' !in "%26";
    assert '&' !in path ==> '&' !in trimmed && replaced == trimmed;
    "/" + replaced
  }

  /**
    The canonical path is "/" and the slice of the path between its leading and
    trailing runs of '/', with each '&' of that slice written as "%26".
  */
  lemma CanonicalPathOfSlice(path: string)
    ensures exists i, j ::
              && 0 <= i <= j <= |path| && OuterRuns(path, i, j, '/')
              && (i < j ==> path[i] != '/' && path[j - 1] != '/')
              && CanonicalPath(path) == "/" + ReplaceChar(path[i..j], '&', "%26")
  {
    TrimIsInfix(path, '/');
    var t := Trim(path, '/');
    var i, j :| 0 <= i <= j <= |path| && t == path[i..j] && OuterRuns(path, i, j, '/');
    SliceEnds(path, t, '/', i, j);
    assert CanonicalPath(path) == "/" + ReplaceChar(path[i..j], '&', "%26");
    assert && 0 <= i <= j <= |path| && OuterRuns(path, i, j, '/')
           && (i < j ==> path[i] != '/' && path[j - 1] != '/')
           && CanonicalPath(path) == "/" + ReplaceChar(path[i..j], '&', "%26");
  }

  lemma TrimIsSlice(s: string, c: char)
    ensures forall x :: x in Trim(s, c) ==> x in s
  {
    var left := TrimLeft(s, c);
    var r := TrimRight(left, c);
    forall x | x in r
      ensures x in s
    {
      var i :| 0 <= i < |r| && r[i] == x;
      assert left[i] == x;
      assert s[|s| - |left| + i] == x;
    }
  }

  /** One canonical query entry: escaped key "=" escaped concatenated values, each '+' then written as "%20". */
  function Entry(key: string, values: seq<string>, escape: string -> string): (e: string)
    ensures '+' !in e
    ensures '+' !in escape(key) && '+' !in escape(Join(values, "")) ==>
      e == escape(key) + "=" + escape(Join(values, ""))
    ensures e == ReplaceChar(escape(key), '+', "%20") + "=" + ReplaceChar(escape(Join(values, "")), '+', "%20")
  {
    var k, v := escape(key), escape(Join(values, ""));
    var joined := k + "=" + v;
    assert '+' !in k && '+' !in v ==> '+' !in joined;
    ReplaceCharAppend(k + "=", v, '+', "%20");
    ReplaceCharAppend(k, "=", '+', "%20");
    ReplaceChar(joined, '+', "%20")
  }

  /** Every key of the sequence is a key of the map. */
  ghost predicate KeysIn(q: Values, keys: seq<string>)
  {
    forall i :: 0 <= i < |keys| ==> keys[i] in q
  }

  /** The entries produced while visiting `keys` in order; the key "jwt" produces none. */
  function EntriesFor(q: Values, keys: seq<string>, escape: string -> string): (entries: seq<string>)
    requires KeysIn(q, keys)
    ensures |entries| <= |keys|
  {
    if keys == [] then []
    else
      var k := keys[|keys| - 1];
      EntriesFor(q, keys[..|keys| - 1], escape) + (if k == "jwt" then [] else [Entry(k, q[k], escape)])
  }

  /** Every entry is the entry of a visited key other than "jwt". */
  lemma {:induction false} EntriesComeFromKeys(q: Values, keys: seq<string>, escape: string -> string, e: string)
    requires KeysIn(q, keys)
    requires e in EntriesFor(q, keys, escape)
    ensures exists i :: 0 <= i < |keys| && keys[i] != "jwt" && e == Entry(keys[i], q[keys[i]], escape)
  {
    var n := |keys|;
    var init := keys[..n - 1];
    if e in EntriesFor(q, init, escape) {
      EntriesComeFromKeys(q, init, escape, e);
      var i :| 0 <= i < |init| && init[i] != "jwt" && e == Entry(init[i], q[init[i]], escape);
      assert keys[i] == init[i];
    } else {
      assert keys[n - 1] != "jwt" && e == Entry(keys[n - 1], q[keys[n - 1]], escape);
    }
  }

  /** `keys` is an order in which a map iteration may visit q: every key exactly once. */
  ghost predicate IsEnumeration(q: Values, keys: seq<string>)
  {
    && KeysIn(q, keys)
    && (forall k :: k in q ==> k in keys)
    && (forall i, j :: 0 <= i < j < |keys| ==> keys[i] != keys[j])
  }

  /** The canonical request string: upper-cased method, canonical path and the sorted entries joined by '&'. */
  function CanonicalString(httpMethod: string, path: string, q: Values, keys: seq<string>, escape: string -> string): (r: string)
    requires KeysIn(q, keys)
    ensures |r| >= |httpMethod| + 2 && r[..|httpMethod| + 2] == ToUpper(httpMethod) + "&/"
  {
    var verb, cp, entries := ToUpper(httpMethod), CanonicalPath(path), Join(SortStrings(EntriesFor(q, keys, escape)), "&");
    Regroup(verb, cp, entries);
    verb + "&" + cp + "&" + entries
  }

  /** A string joined behind a verb and a path starting with '/' begins with the verb and "&/". */
  lemma Regroup(verb: string, cp: string, rest: string)
    requires |cp| >= 1 && cp[0] == '/'
    ensures var r := verb + "&" + cp + "&" + rest;
      |r| >= |verb| + 2 && r[..|verb| + 2] == verb + "&/"
  {
    var r := verb + "&" + cp + "&" + rest;
    assert r == (verb + "&/") + (cp[1..] + "&" + rest);
  }

  /**
    canonicalizeRequest: visit the query parameters in map iteration order
    `keys`, build one entry per parameter except "jwt", sort the entries and
    join method, path and entries with '&'.
  */
  method CanonicalizeRequest(httpMethod: string, path: string, q: Values, keys: seq<string>, escape: string -> string)
    returns (s: string)
    requires IsEnumeration(q, keys)
    ensures s == CanonicalString(httpMethod, path, q, keys, escape)
  {
    var canonicalPath := "/" + ReplaceChar(Trim(path, '/'), '&', "%26");
    var canonicalQueryString: seq<string> := [];
    for i := 0 to |keys|
      invariant canonicalQueryString == EntriesFor(q, keys[..i], escape)
    {
      var k := keys[i];
      EntriesForStep(q, keys, i, escape);
      if k == "jwt" {
        continue;
      }
      var param := escape(k);
      var value := escape(Join(q[k], ""));
      canonicalQueryString := canonicalQueryString + [ReplaceChar(param + "=" + value, '+', "%20")];
    }
    assert keys[..|keys|] == keys;
    canonicalQueryString := SortStrings(canonicalQueryString);
    s := ToUpper(httpMethod) + "&" + canonicalPath + "&" + Join(canonicalQueryString, "&");
  }

  /** Visiting one more key adds that key's entry, or nothing for "jwt". */
  lemma EntriesForStep(q: Values, keys: seq<string>, i: nat, escape: string -> string)
    requires KeysIn(q, keys) && i < |keys|
    ensures KeysIn(q, keys[..i]) && KeysIn(q, keys[..i + 1])
    ensures EntriesFor(q, keys[..i + 1], escape)
         == EntriesFor(q, keys[..i], escape) + (if keys[i] == "jwt" then [] else [Entry(keys[i], q[keys[i]], escape)])
  {
    assert keys[..i + 1][..i] == keys[..i];
  }

  lemma {:induction false} EntriesForAppend(q: Values, a: seq<string>, b: seq<string>, escape: string -> string)
    requires KeysIn(q, a)
    requires KeysIn(q, b)
    ensures KeysIn(q, a + b)
    ensures EntriesFor(q, a + b, escape) == EntriesFor(q, a, escape) + EntriesFor(q, b, escape)
    decreases |b|
  {
    KeysInAppend(q, a, b);
    if b == [] {
      assert a + b == a;
    } else {
      var n := |b|;
      var b' := b[..n - 1];
      KeysInAppend(q, a, b');
      assert KeysIn(q, b') by { assert b == b' + [b[n - 1]]; KeysInSplit(q, b', [b[n - 1]]); }
      assert (a + b)[..|a + b| - 1] == a + b';
      assert (a + b)[|a + b| - 1] == b[n - 1];
      EntriesForAppend(q, a, b', escape);
    }
  }

  lemma KeysInAppend(q: Values, a: seq<string>, b: seq<string>)
    requires KeysIn(q, a) && KeysIn(q, b)
    ensures KeysIn(q, a + b)
  {
    forall i | 0 <= i < |a + b|
      ensures (a + b)[i] in q
    {
      if i >= |a| { assert (a + b)[i] == b[i - |a|]; }
    }
  }

  lemma KeysInSplit(q: Values, a: seq<string>, b: seq<string>)
    requires KeysIn(q, a + b)
    ensures KeysIn(q, a) && KeysIn(q, b)
  {
    forall i | 0 <= i < |a|
      ensures a[i] in q
    {
      assert (a + b)[i] == a[i];
    }
    forall i | 0 <= i < |b|
      ensures b[i] in q
    {
      assert (a + b)[|a| + i] == b[i];
    }
  }

  /** Visiting the same keys in another order yields the same entries, in another order. */
  lemma {:induction false} EntriesForPermutation(q: Values, a: seq<string>, b: seq<string>, escape: string -> string)
    requires KeysIn(q, a)
    requires KeysIn(q, b)
    requires multiset(a) == multiset(b)
    ensures multiset(EntriesFor(q, a, escape)) == multiset(EntriesFor(q, b, escape))
    decreases |a|
  {
    assert |a| == |multiset(a)| == |multiset(b)| == |b|;
    if a != [] {
      var n := |a|;
      var x := a[n - 1];
      assert x in multiset(b) by { assert a[n - 1] in a; }
      var j :| 0 <= j < |b| && b[j] == x;
      var a' := a[..n - 1];
      var b' := b[..j] + b[j + 1..];
      RemoveBoth(a, b, j);
      EntriesWithout(q, b, j, escape);
      assert KeysIn(q, a') by {
        forall i | 0 <= i < |a'| ensures a'[i] in q { assert a'[i] == a[i]; }
      }
      EntriesForPermutation(q, a', b', escape);
      EntriesForLast(q, a, escape);
    }
  }

  /** The entries of a key sequence are those of all but its last key, then the last key's. */
  lemma EntriesForLast(q: Values, a: seq<string>, escape: string -> string)
    requires KeysIn(q, a) && a != []
    ensures KeysIn(q, a[..|a| - 1])
    ensures EntriesFor(q, a, escape) == EntriesFor(q, a[..|a| - 1], escape) + EntriesFor(q, [a[|a| - 1]], escape)
  {
    var x := a[|a| - 1];
    assert [x][..0] == [];
    assert EntriesFor(q, [x], escape) == (if x == "jwt" then [] else [Entry(x, q[x], escape)]);
  }

  lemma RemoveBoth(a: seq<string>, b: seq<string>, j: nat)
    requires a != [] && j < |b| && b[j] == a[|a| - 1]
    requires multiset(a) == multiset(b)
    ensures multiset(a[..|a| - 1]) == multiset(b[..j] + b[j + 1..])
  {
    var x := b[j];
    assert a == a[..|a| - 1] + [x];
    assert b == b[..j] + [x] + b[j + 1..];
    assert multiset(a[..|a| - 1]) == multiset(a) - multiset{x};
    assert multiset(b[..j] + b[j + 1..]) == multiset(b) - multiset{x};
  }

  /** The entries of b are those of b without position j, plus the entry of b[j]. */
  lemma EntriesWithout(q: Values, b: seq<string>, j: nat, escape: string -> string)
    requires j < |b|
    requires KeysIn(q, b)
    ensures KeysIn(q, b[..j] + b[j + 1..])
    ensures multiset(EntriesFor(q, b, escape))
         == multiset(EntriesFor(q, b[..j] + b[j + 1..], escape)) + multiset(EntriesFor(q, [b[j]], escape))
  {
    var b1 := b[..j];
    var b2 := b[j + 1..];
    assert b == b1 + [b[j]] + b2;
    EntriesForAppend(q, b1, b2, escape);
    EntriesForAppend(q, b1, [b[j]], escape);
    EntriesForAppend(q, b1 + [b[j]], b2, escape);
  }

  /** A key sequence without repetitions holds each of its keys once. */
  lemma {:induction false} DistinctOnce(keys: seq<string>, k: string)
    requires forall i, j :: 0 <= i < j < |keys| ==> keys[i] != keys[j]
    ensures multiset(keys)[k] == if k in keys then 1 else 0
  {
    if keys != [] {
      var n := |keys|;
      assert keys == keys[..n - 1] + [keys[n - 1]];
      DistinctOnce(keys[..n - 1], k);
      assert keys[n - 1] !in keys[..n - 1];
    }
  }

  /** Two iteration orders of the same map visit the same keys. */
  lemma EnumerationsArePermutations(q: Values, a: seq<string>, b: seq<string>)
    requires IsEnumeration(q, a) && IsEnumeration(q, b)
    ensures multiset(a) == multiset(b)
  {
    forall k
      ensures multiset(a)[k] == multiset(b)[k]
    {
      DistinctOnce(a, k);
      DistinctOnce(b, k);
    }
  }

  /** The canonical string does not depend on the order in which the query map is iterated. */
  lemma CanonicalOrderIndependent(httpMethod: string, path: string, q: Values, a: seq<string>, b: seq<string>,
                                  escape: string -> string)
    requires IsEnumeration(q, a) && IsEnumeration(q, b)
    ensures CanonicalString(httpMethod, path, q, a, escape) == CanonicalString(httpMethod, path, q, b, escape)
  {
    EnumerationsArePermutations(q, a, b);
    EntriesForPermutation(q, a, b, escape);
    SortedUnique(SortStrings(EntriesFor(q, a, escape)), SortStrings(EntriesFor(q, b, escape)));
  }

  /** Adding a "jwt" parameter, with any values, leaves the canonical string unchanged. */
  lemma CanonicalIgnoresJwt(httpMethod: string, path: string, q: Values, keys: seq<string>, withJwt: seq<string>,
                            jwt: seq<string>, escape: string -> string)
    requires "jwt" !in q
    requires IsEnumeration(q, keys)
    requires IsEnumeration(q["jwt" := jwt], withJwt)
    ensures CanonicalString(httpMethod, path, q["jwt" := jwt], withJwt, escape)
         == CanonicalString(httpMethod, path, q, keys, escape)
  {
    JwtLastEnumeration(q, keys, jwt);
    CanonicalOrderIndependent(httpMethod, path, q["jwt" := jwt], withJwt, keys + ["jwt"], escape);
    JwtEntriesDropped(q, keys, jwt, escape);
  }

  lemma JwtLastEnumeration(q: Values, keys: seq<string>, jwt: seq<string>)
    requires "jwt" !in q
    requires IsEnumeration(q, keys)
    ensures IsEnumeration(q["jwt" := jwt], keys + ["jwt"])
  {
    var keys2 := keys + ["jwt"];
    forall i, j | 0 <= i < j < |keys2|
      ensures keys2[i] != keys2[j]
    {
      assert keys2[i] == keys[i];
    }
  }

  lemma JwtEntriesDropped(q: Values, keys: seq<string>, jwt: seq<string>, escape: string -> string)
    requires "jwt" !in q
    requires KeysIn(q, keys)
    ensures KeysIn(q["jwt" := jwt], keys + ["jwt"])
    ensures EntriesFor(q["jwt" := jwt], keys + ["jwt"], escape) == EntriesFor(q, keys, escape)
  {
    var keys2 := keys + ["jwt"];
    assert keys2[..|keys2| - 1] == keys;
    EntriesForOtherMap(q, q["jwt" := jwt], keys, escape);
  }

  /** Entries depend only on the values of the keys visited. */
  lemma {:induction false} EntriesForOtherMap(q: Values, q2: Values, keys: seq<string>, escape: string -> string)
    requires KeysIn(q, keys)
    requires forall i :: 0 <= i < |keys| ==> keys[i] in q2 && q2[keys[i]] == q[keys[i]]
    ensures EntriesFor(q2, keys, escape) == EntriesFor(q, keys, escape)
  {
    if keys != [] {
      EntriesForOtherMap(q, q2, keys[..|keys| - 1], escape);
    }
  }

  // ------------------------------------------------------------ header copy

  /** An outgoing request: method, URL and a header map whose value lists are shared slices. */
  class Request {
    var httpMethod: string
    var url: string
    var header: map<string, array<string>>

    constructor (httpMethod: string, url: string, header: map<string, array<string>>)
      ensures this.httpMethod == httpMethod && this.url == url && this.header == header
    {
      this.httpMethod := httpMethod;
      this.url := url;
      this.header := header;
    }
  }

  /** append([]string(nil), s...): the values in a new slice. */
  method CopyValues(s: array<string>) returns (c: array<string>)
    ensures fresh(c) && c[..] == s[..]
  {
    c := new string[s.Length];
    for i := 0 to s.Length
      invariant c[..i] == s[..i]
    {
      c[i] := s[i];
    }
    assert c[..] == c[..s.Length];
  }

  /**
    cloneRequest: a new request with the same method and URL and a header
    with the same keys, each holding its own new slice with the same values,
    so editing the clone's lists leaves the original's untouched.
  */
  method CloneRequest(r: Request) returns (r2: Request)
    ensures fresh(r2)
    ensures r2.httpMethod == r.httpMethod && r2.url == r.url
    ensures r2.header.Keys == r.header.Keys
    ensures forall k :: k in r2.header ==> fresh(r2.header[k]) && r2.header[k][..] == r.header[k][..]
    ensures forall k1, k2 :: k1 in r2.header && k2 in r2.header && k1 != k2 ==> r2.header[k1] != r2.header[k2]
  {
    var header: map<string, array<string>> := map[];
    var rest := r.header.Keys;
    while rest != {}
      invariant rest <= r.header.Keys
      invariant header.Keys == r.header.Keys - rest
      invariant forall k :: k in header ==> fresh(header[k]) && header[k][..] == r.header[k][..]
      invariant forall k1, k2 :: k1 in header && k2 in header && k1 != k2 ==> header[k1] != header[k2]
      decreases |rest|
    {
      var k :| k in rest;
      var c := CopyValues(r.header[k]);
      header := header[k := c];
      rest := rest - {k};
    }
    r2 := new Request(r.httpMethod, r.url, header);
  }
}
