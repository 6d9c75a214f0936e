/** The Pocket-link half of the client's API layer (pocketService.ts): a
    read-only feed of links imported from a Pocket export. */
module PocketService {
  import opened Wrappers
  import opened Text
  import opened Lists
  import opened Api

  /** A Pocket link as the server sends it; `timeAdded` is in Unix seconds. */
  datatype PocketLinkResponse = PocketLinkResponse(
    id: int,
    title: Option<string>,
    url: string,
    timeAdded: int,
    tags: Option<string>,
    status: string,
    createdAt: string)

  /** A Pocket link as the client keeps it: string id and a title that is never null. */
  datatype PocketLink = PocketLink(
    id: string,
    title: string,
    url: string,
    timeAdded: int,
    tags: Option<string>,
    status: string,
    createdAt: string)

  /** The status filter used when the caller gives none. */
  const DefaultStatusFilter: string := "unread"

  /** `convertToPocketLink`: only the id and the title are transformed. */
  function ConvertToPocketLink(r: PocketLinkResponse): (p: PocketLink)
    ensures p.id == IntToString(r.id) && ParseInt(p.id) == Some(r.id)
    ensures r.title.Some? && r.title.value != "" ==> p.title == r.title.value
    ensures r.title.None? || r.title.value == "" ==> p.title == r.url
    ensures p.url == r.url && p.timeAdded == r.timeAdded && p.tags == r.tags
    ensures p.status == r.status && p.createdAt == r.createdAt
  {
    IntToStringRoundTrip(r.id);
    PocketLink(
      IntToString(r.id),
      if r.title.Some? && r.title.value != "" then r.title.value else r.url,
      r.url, r.timeAdded, r.tags, r.status, r.createdAt)
  }

  /** `fetchPocketLinks(statusFilter = "unread")`: GET
      `/pocket-links/?status_filter=<filter>` (sent without credentials, unlike
      the bookmark calls), then convert every record in order. */
  function FetchPocketLinks(base: string, statusFilter: Option<string>, reply: Reply<seq<PocketLinkResponse>>): (x: Exchange<seq<PocketLink>>)
    ensures x.request.verb == Get && x.request.body == NoBody && !x.request.withCredentials
    ensures statusFilter.Some? ==> x.request.url == base + "/pocket-links/?status_filter=" + statusFilter.value
    ensures statusFilter.None? ==> x.request.url == base + "/pocket-links/?status_filter=unread"
    ensures Respond(reply).Failure? ==> x.outcome == Failure(Respond(reply).error)
    ensures Respond(reply).Success? ==>
              x.outcome.Success? &&
              |x.outcome.value| == |Respond(reply).value| &&
              forall k :: 0 <= k < |x.outcome.value| ==>
                x.outcome.value[k] == ConvertToPocketLink(Respond(reply).value[k])
  {
    var filter := statusFilter.GetOr(DefaultStatusFilter);
    var request := MakeRequest(base, "/pocket-links/?status_filter=" + filter, Get, NoBody, false);
    assert base + ("/pocket-links/?status_filter=" + filter) == base + "/pocket-links/?status_filter=" + filter;
    match Respond(reply)
    case Failure(e) => Exchange(request, Failure(e))
    case Success(data) =>
      Exchange(request, Success(Map(data, ConvertToPocketLink)))
  }
}
