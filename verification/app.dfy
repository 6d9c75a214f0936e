/** The client's top-level component (App.tsx) as a controller: the loaded
    bookmarks, the archive filter, the loading flag and the error banner,
    with one method per handler. Each handler's awaited server call is
    taken as an input (the reply the server gave), so a handler runs as
    one step from the state before the click to the state after the reply. */
module AppState {
  import opened Wrappers
  import opened Lists
  import opened Api
  import opened BookmarkService

  const LoadFailedText: string := "Failed to load bookmarks. Please try again later."
  const AddFailedText: string := "Failed to add bookmark. Please try again."
  const ArchiveFailedText: string := "Failed to archive bookmark. Please try again."

  /** `bookmark.archived === showArchived`. */
  function InView(showArchived: bool): Bookmark -> bool {
    (b: Bookmark) => b.archived == showArchived
  }

  /** `b.id === id`. */
  function HasId(id: string): Bookmark -> bool {
    (b: Bookmark) => b.id == id
  }

  /** `b.id !== id`. */
  function OtherId(id: string): Bookmark -> bool {
    (b: Bookmark) => b.id != id
  }

  /** `b.id === id ? { ...b, archived: true } : b`. */
  function ArchiveIfId(id: string): Bookmark -> Bookmark {
    (b: Bookmark) => if b.id == id then b.(archived := true) else b
  }

  /** `prev.filter((b) => b.id !== id)`: the entries with that id leave the
      list and every other entry stays. */
  function Unlisted(bookmarks: seq<Bookmark>, id: string): (r: seq<Bookmark>)
    ensures forall k :: 0 <= k < |r| ==> r[k].id != id && r[k] in bookmarks
    ensures forall k :: 0 <= k < |bookmarks| && bookmarks[k].id != id ==> bookmarks[k] in r
  {
    Filter(bookmarks, OtherId(id))
  }

  /** `prev.map((b) => (b.id === id ? { ...b, archived: true } : b))`: only
      the entries with that id change, and only in their flag. */
  function FlaggedArchived(bookmarks: seq<Bookmark>, id: string): (r: seq<Bookmark>)
    ensures |r| == |bookmarks|
    ensures forall k :: 0 <= k < |r| && bookmarks[k].id == id ==> r[k] == bookmarks[k].(archived := true)
    ensures forall k :: 0 <= k < |r| && bookmarks[k].id != id ==> r[k] == bookmarks[k]
  {
    Map(bookmarks, ArchiveIfId(id))
  }

  /** The bookmarks the table shows for a filter value. */
  function Displayed(bookmarks: seq<Bookmark>, showArchived: bool): (r: seq<Bookmark>)
    ensures forall k :: 0 <= k < |r| ==> r[k] in bookmarks && r[k].archived == showArchived
    ensures forall k :: 0 <= k < |bookmarks| && bookmarks[k].archived == showArchived ==> bookmarks[k] in r
  {
    Filter(bookmarks, InView(showArchived))
  }

  /** The count the navbar shows is the number of bookmarks in the current view. */
  lemma DisplayedCount(bookmarks: seq<Bookmark>, showArchived: bool)
    ensures |Displayed(bookmarks, showArchived)| == CountWhere(bookmarks, InView(showArchived))
  {
    FilterLength(bookmarks, InView(showArchived));
  }

  /** When the server honours the filter, every loaded bookmark is shown. */
  lemma HonestLoadShowsAll(bookmarks: seq<Bookmark>, showArchived: bool)
    requires forall k :: 0 <= k < |bookmarks| ==> bookmarks[k].archived == showArchived
    ensures Displayed(bookmarks, showArchived) == bookmarks
  {
    FilterKeepsAll(bookmarks, InView(showArchived));
  }

  /** A bookmark appended to the list shows at the end of the active view
      when it is not archived, and changes nothing there when it is. */
  lemma AppendedShowsLast(bookmarks: seq<Bookmark>, b: Bookmark)
    ensures !b.archived ==> Displayed(bookmarks + [b], false) == Displayed(bookmarks, false) + [b]
    ensures b.archived ==> Displayed(bookmarks + [b], false) == Displayed(bookmarks, false)
  {
    FilterAppend(bookmarks, [b], InView(false));
    assert Filter([b], InView(false)) == (if !b.archived then [b] else []) + Filter([b][1..], InView(false));
  }

  /** What the page body shows below the error banner. */
  datatype Body = LoadingNotice | Table(bookmarks: seq<Bookmark>)

  datatype Page = Page(banner: Option<string>, body: Body, bookmarkCount: nat)

  class App {
    const apiBase: string
    var bookmarks: seq<Bookmark>
    var showArchived: bool
    var isLoading: bool
    var error: Option<string>

    /** The state on mount, before the first load. */
    constructor (apiBase: string)
      ensures this.apiBase == apiBase
      ensures bookmarks == [] && !showArchived && !isLoading && error == None
    {
      this.apiBase := apiBase;
      bookmarks := [];
      showArchived := false;
      isLoading := false;
      error := None;
    }

    /** `filteredBookmarks`: the bookmarks whose `archived` equals the filter,
        in the order they are held. */
    function FilteredBookmarks(): (r: seq<Bookmark>)
      reads this
      ensures forall k :: 0 <= k < |r| ==> r[k] in bookmarks && r[k].archived == showArchived
      ensures forall k :: 0 <= k < |bookmarks| && bookmarks[k].archived == showArchived ==> bookmarks[k] in r
    {
      Displayed(bookmarks, showArchived)
    }

    /** What is rendered: the error banner if any, the loading notice in
        place of the table while loading, and the navbar count. */
    function View(): (p: Page)
      reads this
      ensures p.banner == error
      ensures p.body.LoadingNotice? <==> isLoading
      ensures p.body.Table? ==> p.body.bookmarks == FilteredBookmarks()
      ensures p.bookmarkCount == CountWhere(bookmarks, InView(showArchived))
    {
      DisplayedCount(bookmarks, showArchived);
      Page(error, if isLoading then LoadingNotice else Table(FilteredBookmarks()), |FilteredBookmarks()|)
    }

    /** The navbar's toggle. Changing the filter runs the load effect, which
        is `LoadBookmarks` with the reply to the new request. */
    method ToggleArchived()
      modifies this
      ensures showArchived == !old(showArchived)
      ensures bookmarks == old(bookmarks) && isLoading == old(isLoading) && error == old(error)
    {
      showArchived := !showArchived;
    }

    /** The load effect: fetch the list for the current filter and replace
        the held list with it; on failure keep the old list and show the
        load error. Loading ends either way. */
    method LoadBookmarks(reply: Reply<seq<BookmarkResponse>>) returns (request: Request)
      modifies this
      ensures request == FetchBookmarks(apiBase, Some(showArchived), reply).request
      ensures request.url == apiBase + "/bookmarks/?archived=" + BoolText(showArchived)
      ensures showArchived == old(showArchived) && !isLoading
      ensures Respond(reply).Success? ==>
                && error == None
                && bookmarks == FetchBookmarks(apiBase, Some(showArchived), reply).outcome.value
                && |bookmarks| == |Respond(reply).value|
      ensures Respond(reply).Failure? ==> error == Some(LoadFailedText) && bookmarks == old(bookmarks)
    {
      isLoading := true;
      error := None;
      var exchange := FetchBookmarks(apiBase, Some(showArchived), reply);
      request := exchange.request;
      match exchange.outcome {
        case Success(data) =>
          bookmarks := data;
        case Failure(_) =>
          error := Some(LoadFailedText);
      }
      isLoading := false;
    }

    /** `handleAddBookmark`: create the bookmark on the server and, in the
        active view only, append what the server returned. */
    method AddBookmark(url: string, reply: Reply<BookmarkResponse>) returns (request: Request)
      modifies this
      ensures request == CreateBookmark(apiBase, url, reply).request
      ensures request.body == UrlBody(url)
      ensures showArchived == old(showArchived) && !isLoading
      ensures Respond(reply).Success? && !showArchived ==>
                bookmarks == old(bookmarks) + [ConvertToBookmark(Respond(reply).value)] && error == None
      ensures Respond(reply).Success? && showArchived ==> bookmarks == old(bookmarks) && error == None
      ensures Respond(reply).Failure? ==> bookmarks == old(bookmarks) && error == Some(AddFailedText)
    {
      isLoading := true;
      error := None;
      var exchange := CreateBookmark(apiBase, url, reply);
      request := exchange.request;
      match exchange.outcome {
        case Success(created) =>
          if !showArchived {
            bookmarks := bookmarks + [created];
          }
        case Failure(_) =>
          error := Some(AddFailedText);
      }
      isLoading := false;
    }

    /** `handleArchiveToggle` as written: the request is sent only when the
        first bookmark with this id exists and is not archived yet. On the
        other paths the handler returns before its `finally`, so the
        loading flag it raised stays raised. */
    method ArchiveToggle(id: string, reply: Reply<BookmarkResponse>) returns (request: Option<Request>)
      modifies this
      ensures showArchived == old(showArchived) && |bookmarks| <= |old(bookmarks)|
      ensures request.Some? <==> Find(old(bookmarks), HasId(id)).Some? && !Find(old(bookmarks), HasId(id)).value.archived
      ensures request.None? ==> bookmarks == old(bookmarks) && isLoading && error == None
      ensures request.Some? ==>
                && request.value == ArchiveBookmark(apiBase, id, reply).request
                && request.value.url == apiBase + "/bookmarks/" + id + "/archive"
                && !isLoading
      ensures request.Some? && Respond(reply).Success? && !old(showArchived) ==>
                error == None && bookmarks == Unlisted(old(bookmarks), id)
      ensures request.Some? && Respond(reply).Success? && old(showArchived) ==>
                error == None && bookmarks == FlaggedArchived(old(bookmarks), id)
      ensures request.Some? && Respond(reply).Failure? ==>
                bookmarks == old(bookmarks) && error == Some(ArchiveFailedText)
    {
      isLoading := true;
      error := None;
      var target := Find(bookmarks, HasId(id));
      if target.None? {
        return None;
      }
      if !target.value.archived {
        var exchange := ArchiveBookmark(apiBase, id, reply);
        request := Some(exchange.request);
        match exchange.outcome {
          case Success(_) =>
            if !showArchived {
              bookmarks := Unlisted(bookmarks, id);
            } else {
              bookmarks := FlaggedArchived(bookmarks, id);
            }
          case Failure(_) =>
            error := Some(ArchiveFailedText);
        }
        isLoading := false;
      } else {
        request := None;
      }
    }

    /** `handleArchiveToggle` with every path ending as the `finally` does:
        the same effect on the list and the banner, and loading always ends. */
    method ArchiveToggleSettled(id: string, reply: Reply<BookmarkResponse>) returns (request: Option<Request>)
      modifies this
      ensures showArchived == old(showArchived) && !isLoading
      ensures request.Some? <==> Find(old(bookmarks), HasId(id)).Some? && !Find(old(bookmarks), HasId(id)).value.archived
      ensures request.None? ==> bookmarks == old(bookmarks) && error == None
      ensures request.Some? ==>
                && request.value == ArchiveBookmark(apiBase, id, reply).request
                && request.value.url == apiBase + "/bookmarks/" + id + "/archive"
      ensures request.Some? && Respond(reply).Success? && !old(showArchived) ==>
                error == None && bookmarks == Unlisted(old(bookmarks), id)
      ensures request.Some? && Respond(reply).Success? && old(showArchived) ==>
                error == None && bookmarks == FlaggedArchived(old(bookmarks), id)
      ensures request.Some? && Respond(reply).Failure? ==>
                bookmarks == old(bookmarks) && error == Some(ArchiveFailedText)
    {
      request := ArchiveToggle(id, reply);
      isLoading := false;
    }
  }

  /** The "Restore" button the table shows on archived rows calls the same
      handler; with the archived view loaded, clicking it leaves the page on
      the loading notice, because the handler returns early. */
  method RestoreClickLeavesLoading() returns (stuck: bool)
    ensures stuck
  {
    var app := new App("http://localhost:8000");
    app.ToggleArchived();
    var record := BookmarkResponse(1, "https://example.com", None, None, true, "");
    var _ := app.LoadBookmarks(Response(200, Data([record])));
    var restored := app.bookmarks[0];
    var request := app.ArchiveToggle(restored.id, Response(200, Data(record)));
    stuck := app.View().body.LoadingNotice?;
  }

  /** The settled handler leaves the same page on the table instead. */
  method RestoreClickSettles() returns (settled: bool)
    ensures settled
  {
    var app := new App("http://localhost:8000");
    app.ToggleArchived();
    var record := BookmarkResponse(1, "https://example.com", None, None, true, "");
    var _ := app.LoadBookmarks(Response(200, Data([record])));
    var restored := app.bookmarks[0];
    var request := app.ArchiveToggleSettled(restored.id, Response(200, Data(record)));
    HonestLoadShowsAll(app.bookmarks, true);
    settled := app.View().body == Table([restored]) && request.None?;
  }
}
