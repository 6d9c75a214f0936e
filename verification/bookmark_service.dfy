/** The bookmark half of the client's API layer (bookmarkService.ts): the
    wire record, its conversion to the record the views display, and the
    three calls the app makes. */
module BookmarkService {
  import opened Wrappers
  import opened Text
  import opened Lists
  import opened Api

  /** A bookmark as the server sends it. */
  datatype BookmarkResponse = BookmarkResponse(
    id: int,
    url: string,
    title: Option<string>,
    description: Option<string>,
    archived: bool,
    createdAt: string)

  /** A bookmark as the client keeps it: string id, no nulls. */
  datatype Bookmark = Bookmark(
    id: string,
    url: string,
    title: string,
    description: string,
    archived: bool)

  /** `convertToBookmark`: `title || url` and `description || ""` treat both
      `null` and the empty string as missing. */
  function ConvertToBookmark(r: BookmarkResponse): (b: Bookmark)
    ensures b.id == IntToString(r.id) && ParseInt(b.id) == Some(r.id)
    ensures b.url == r.url && b.archived == r.archived
    ensures r.title.Some? && r.title.value != "" ==> b.title == r.title.value
    ensures r.title.None? || r.title.value == "" ==> b.title == r.url
    ensures r.description.Some? ==> b.description == r.description.value
    ensures r.description.None? ==> b.description == ""
  {
    IntToStringRoundTrip(r.id);
    Bookmark(
      IntToString(r.id),
      r.url,
      if r.title.Some? && r.title.value != "" then r.title.value else r.url,
      if r.description.Some? then r.description.value else "",
      r.archived)
  }

  /** Records with different server ids get different client ids. */
  lemma ConvertKeepsIdsDistinct(a: BookmarkResponse, b: BookmarkResponse)
    requires a.id != b.id
    ensures ConvertToBookmark(a).id != ConvertToBookmark(b).id
  {
    if ConvertToBookmark(a).id == ConvertToBookmark(b).id {
      IntToStringInjective(a.id, b.id);
    }
  }

  /** A converted bookmark never has an empty title unless its URL is empty. */
  lemma ConvertedTitleNonEmpty(r: BookmarkResponse)
    requires r.url != ""
    ensures ConvertToBookmark(r).title != ""
  {
  }

  /** `fetchBookmarks(archived = false)`: GET `/bookmarks/?archived=true|false`,
      then convert every record, keeping the server's order. */
  function FetchBookmarks(base: string, archived: Option<bool>, reply: Reply<seq<BookmarkResponse>>): (x: Exchange<seq<Bookmark>>)
    ensures x.request.verb == Get && x.request.body == NoBody && x.request.withCredentials
    ensures archived.Some? ==> x.request.url == base + "/bookmarks/?archived=" + BoolText(archived.value)
    ensures archived.None? ==> x.request.url == base + "/bookmarks/?archived=false"
    ensures Respond(reply).Failure? ==> x.outcome == Failure(Respond(reply).error)
    ensures Respond(reply).Success? ==>
              x.outcome.Success? &&
              |x.outcome.value| == |Respond(reply).value| &&
              forall k :: 0 <= k < |x.outcome.value| ==>
                x.outcome.value[k] == ConvertToBookmark(Respond(reply).value[k])
  {
    var flag := archived.GetOr(false);
    var request := MakeRequest(base, "/bookmarks/?archived=" + BoolText(flag), Get, NoBody, true);
    assert base + ("/bookmarks/?archived=" + BoolText(flag)) == base + "/bookmarks/?archived=" + BoolText(flag);
    match Respond(reply)
    case Failure(e) => Exchange(request, Failure(e))
    case Success(data) =>
      Exchange(request, Success(Map(data, ConvertToBookmark)))
  }

  /** `createBookmark(url)`: POST `{"url": url}` to `/bookmarks/`. */
  function CreateBookmark(base: string, url: string, reply: Reply<BookmarkResponse>): (x: Exchange<Bookmark>)
    ensures x.request.verb == Post && x.request.body == UrlBody(url) && x.request.withCredentials
    ensures x.request.url == base + "/bookmarks/"
    ensures Respond(reply).Failure? ==> x.outcome == Failure(Respond(reply).error)
    ensures Respond(reply).Success? ==> x.outcome == Success(ConvertToBookmark(Respond(reply).value))
  {
    var request := MakeRequest(base, "/bookmarks/", Post, UrlBody(url), true);
    match Respond(reply)
    case Failure(e) => Exchange(request, Failure(e))
    case Success(data) => Exchange(request, Success(ConvertToBookmark(data)))
  }

  /** `archiveBookmark(id)`: PATCH `/bookmarks/{id}/archive` with no body. */
  function ArchiveBookmark(base: string, id: string, reply: Reply<BookmarkResponse>): (x: Exchange<Bookmark>)
    ensures x.request.verb == Patch && x.request.body == NoBody && x.request.withCredentials
    ensures x.request.url == base + "/bookmarks/" + id + "/archive"
    ensures Respond(reply).Failure? ==> x.outcome == Failure(Respond(reply).error)
    ensures Respond(reply).Success? ==> x.outcome == Success(ConvertToBookmark(Respond(reply).value))
  {
    var request := MakeRequest(base, "/bookmarks/" + id + "/archive", Patch, NoBody, true);
    assert base + ("/bookmarks/" + id + "/archive") == base + "/bookmarks/" + id + "/archive";
    match Respond(reply)
    case Failure(e) => Exchange(request, Failure(e))
    case Success(data) => Exchange(request, Success(ConvertToBookmark(data)))
  }
}
