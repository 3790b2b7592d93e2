/** The activities of a work package, fetched through the href of its activities link. */
module Activities {
  import opened Wrappers

  /** One activity; the links, details and timestamps it also carries are left out. */
  datatype Activity = Activity(typ: string, id: int, comment: string, version: int)

  /** The activities listing of a work package. */
  datatype ActivityList = ActivityList(typ: string, total: int, count: int, elements: seq<Activity>)

  /** One call of the generic list fetch: endpoint, offset and page size. */
  datatype ListCall = ListCall(endpoint: string, offset: int, pageSize: int)

  /** What a call does: the list fetches it issues, and what it returns. */
  datatype Fetched = Fetched(calls: seq<ListCall>, result: Result<ActivityList, Error>)

  /**
    The endpoint an activities href is fetched from: an href that starts with
    "/" and is longer than that loses its one leading "/"; the href "/" is kept;
    an empty href is refused with "href is empty".
  */
  function WPHrefEndpoint(href: string): (r: Result<string, Error>)
    ensures r == Failure(HrefEmpty) <==> href == ""
    ensures r.Success? ==> r.value != ""
    ensures r.Success? && |href| > 1 && href[0] == '/' ==> "/" + r.value == href
    ensures r.Success? && !(|href| > 1 && href[0] == '/') ==> r.value == href
  {
    var endpoint := if |href| > 1 && href[0] == '/' then href[1..] else href;
    if endpoint == "" then Failure(HrefEmpty) else Success(endpoint)
  }

  /**
    GetFromWPHrefWithContext: an empty href fails before any fetch; otherwise
    exactly one list fetch of the endpoint with offset 0 and page size 0, whose
    outcome is passed on unchanged. `fetch` stands for the generic list fetch.
  */
  function GetFromWPHrefWithContext(href: string, fetch: (string, int, int) -> Result<ActivityList, Error>): (out: Fetched)
    ensures href == "" ==> out.calls == [] && out.result == Failure(HrefEmpty)
    ensures href != "" ==>
      var endpoint := WPHrefEndpoint(href).value;
      && out.calls == [ListCall(endpoint, 0, 0)]
      && out.result == fetch(endpoint, 0, 0)
  {
    match WPHrefEndpoint(href)
    case Failure(e) => Fetched([], Failure(e))
    case Success(endpoint) => Fetched([ListCall(endpoint, 0, 0)], fetch(endpoint, 0, 0))
  }
}
