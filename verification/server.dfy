/** The request handlers of the FastAPI service (server.py) over the
    in-memory store. Fetching a page's title and description is network
    I/O; its outcome is a parameter of `CreateBookmark`. */
module Server {
  import opened Wrappers
  import opened Text
  import opened Lists
  import opened Store

  /** What `fetch_url_metadata` returned: each part may be missing. */
  datatype Metadata = Metadata(title: Option<string>, description: Option<string>)

  /** An `HTTPException` (or an unhandled exception, which FastAPI turns into a 500). */
  datatype HttpError = HttpError(status: int, detail: string)

  const NotFound: int := 404
  const Conflict: int := 409
  const InternalServerError: int := 500

  const NoDescription: string := "No description available"
  const InternalErrorDetail: string := "Internal Server Error"

  /** Status filter used when the query string has none. */
  const DefaultStatusFilter: string := "unread"

  function DuplicateDetail(id: int): string {
    "URL already exists with bookmark ID " + IntToString(id)
  }

  function NotFoundDetail(id: int): string {
    "Bookmark with ID " + IntToString(id) + " not found"
  }

  /** `POST /bookmarks/`: reject a URL that is already stored with 409;
      otherwise store the page's metadata, defaulting a missing description.
      A URL stored more than once (possible through the older handler) makes
      `scalar_one_or_none` raise, which the framework answers with 500. */
  method CreateBookmark(db: BookmarkStore, url: string, meta: Metadata) returns (r: Result<BookmarkRow, HttpError>)
    requires db.Valid()
    modifies db
    ensures db.Valid()
    ensures |old(db.WithUrl(url))| >= 2 ==>
              r == Failure(HttpError(InternalServerError, InternalErrorDetail)) && unchanged(db)
    ensures |old(db.WithUrl(url))| == 1 ==>
              r == Failure(HttpError(Conflict, DuplicateDetail(old(db.WithUrl(url))[0].id))) && unchanged(db)
    ensures old(db.WithUrl(url)) == [] ==>
              && r.Success?
              && r.value == BookmarkRow(old(db.nextId), url, meta.title, Some(meta.description.GetOr(NoDescription)), false)
              && db.rows == old(db.rows) + [r.value]
              && db.nextId == old(db.nextId) + 1
    ensures DistinctBy(old(db.rows), BookmarkUrl) ==> DistinctBy(db.rows, BookmarkUrl)
    ensures DistinctBy(old(db.rows), BookmarkUrl) && r.Failure? ==> r.error.status == Conflict
  {
    if DistinctBy(db.rows, BookmarkUrl) {
      DistinctKeyLookup(db.rows, BookmarkUrl, url);
    }
    var existing := ScalarOneOrNone(db.WithUrl(url));
    if existing.Failure? {
      return Failure(HttpError(InternalServerError, InternalErrorDetail));
    }
    if existing.value.Some? {
      return Failure(HttpError(Conflict, DuplicateDetail(existing.value.value.id)));
    }
    var description := if meta.description.None? then NoDescription else meta.description.value;
    var row := db.Insert(url, meta.title, Some(description));
    r := Success(row);
    assert forall k :: 0 <= k < |old(db.rows)| ==> old(db.rows)[k].url != url;
  }

  /** `GET /bookmarks/?archived=…` (default `false`): the rows whose flag matches. */
  function ListBookmarks(db: BookmarkStore, archived: Option<bool>): (r: seq<BookmarkRow>)
    reads db
    ensures forall k :: 0 <= k < |r| ==> r[k] in db.rows && r[k].archived == archived.GetOr(false)
    ensures forall k :: 0 <= k < |db.rows| && db.rows[k].archived == archived.GetOr(false) ==> db.rows[k] in r
    ensures |r| == CountWhere(db.rows, KeyIs(BookmarkArchived, archived.GetOr(false)))
  {
    WithKey(db.rows, BookmarkArchived, archived.GetOr(false))
  }

  /** Every row appears in exactly one of the two listings. */
  lemma ListingsPartitionRows(db: BookmarkStore, row: BookmarkRow)
    requires row in db.rows
    ensures row in ListBookmarks(db, Some(true)) <==> !(row in ListBookmarks(db, Some(false)))
  {
    var k :| 0 <= k < |db.rows| && db.rows[k] == row;
    if row.archived {
      assert row in ListBookmarks(db, Some(true));
    } else {
      assert row in ListBookmarks(db, Some(false));
    }
  }

  /** `PATCH /bookmarks/{id}/archive`: 404 for an unknown id; otherwise set
      that row's flag and return it. Calling it again changes nothing more. */
  method ArchiveBookmark(db: BookmarkStore, id: int) returns (r: Result<BookmarkRow, HttpError>)
    requires db.Valid()
    modifies db
    ensures db.Valid()
    ensures (forall k :: 0 <= k < |old(db.rows)| ==> old(db.rows)[k].id != id) ==>
              r == Failure(HttpError(NotFound, NotFoundDetail(id))) && unchanged(db)
    ensures forall k :: 0 <= k < |old(db.rows)| && old(db.rows)[k].id == id ==>
              r == Success(old(db.rows)[k].(archived := true)) &&
              db.rows == MarkArchived(old(db.rows), id) && db.nextId == old(db.nextId)
  {
    db.AtMostOneWithId(id);
    var found := ScalarOneOrNone(db.WithId(id));
    if found.Failure? || found.value.None? {
      return Failure(HttpError(NotFound, NotFoundDetail(id)));
    }
    var row := found.value.value;
    assert forall k :: 0 <= k < |db.rows| && db.rows[k].id == id ==> db.rows[k] == row by {
      forall k | 0 <= k < |db.rows| && db.rows[k].id == id ensures db.rows[k] == row {
        assert db.rows[k] in db.WithId(id);
      }
    }
    db.SetArchived(id);
    r := Success(row.(archived := true));
  }

  /** Rows ordered newest first. */
  predicate NewestFirst(links: seq<PocketLinkRow>) {
    forall i, j :: 0 <= i < j < |links| ==> links[i].timeAdded >= links[j].timeAdded
  }

  /** A row at least as new as `x` and as every row of `tail` is at least as
      new as every row of a rearrangement of `tail` plus `x`. */
  lemma BoundedByHead(head: PocketLinkRow, x: PocketLinkRow, tail: seq<PocketLinkRow>, r: seq<PocketLinkRow>)
    requires head.timeAdded >= x.timeAdded
    requires forall k :: 0 <= k < |tail| ==> head.timeAdded >= tail[k].timeAdded
    requires multiset(r) == multiset(tail) + multiset{x}
    ensures forall k :: 0 <= k < |r| ==> head.timeAdded >= r[k].timeAdded
  {
    forall k | 0 <= k < |r| ensures head.timeAdded >= r[k].timeAdded {
      assert r[k] in multiset(r);
      if r[k] != x {
        assert r[k] in multiset(tail);
      }
    }
  }

  /** Places `x` after every row at least as new as it. */
  function InsertByTime(x: PocketLinkRow, links: seq<PocketLinkRow>): (r: seq<PocketLinkRow>)
    requires NewestFirst(links)
    ensures NewestFirst(r)
    ensures multiset(r) == multiset(links) + multiset{x}
  {
    if links == [] || links[0].timeAdded < x.timeAdded then [x] + links
    else
      var rest := InsertByTime(x, links[1..]);
      BoundedByHead(links[0], x, links[1..], rest);
      assert links == [links[0]] + links[1..];
      [links[0]] + rest
  }

  /** `order_by(time_added.desc())`. Rows with equal times may come in any
      order in the database; this ordering is one of the admissible ones. */
  function SortNewestFirst(links: seq<PocketLinkRow>): (r: seq<PocketLinkRow>)
    ensures NewestFirst(r)
    ensures multiset(r) == multiset(links)
  {
    if links == [] then []
    else
      assert links == [links[0]] + links[1..];
      InsertByTime(links[0], SortNewestFirst(links[1..]))
  }

  /** The `where` clause of `GET /pocket-links/`: "all" lets every status through. */
  predicate StatusMatches(filter: string, link: PocketLinkRow) {
    filter == "all" || link.status == filter
  }

  /** `GET /pocket-links/?status_filter=…` (default "unread"): the matching
      links, newest first. */
  function ListPocketLinks(links: seq<PocketLinkRow>, statusFilter: Option<string>): (r: seq<PocketLinkRow>)
    ensures NewestFirst(r)
    ensures forall x :: x in r <==> x in links && StatusMatches(statusFilter.GetOr(DefaultStatusFilter), x)
    ensures multiset(r) == multiset(Filter(links, (x: PocketLinkRow) => StatusMatches(statusFilter.GetOr(DefaultStatusFilter), x)))
    ensures statusFilter == Some("all") ==> multiset(r) == multiset(links)
  {
    var filter := statusFilter.GetOr(DefaultStatusFilter);
    var kept := Filter(links, (x: PocketLinkRow) => StatusMatches(filter, x));
    var r := SortNewestFirst(kept);
    assert forall x :: x in r <==> x in kept by {
      forall x ensures x in r <==> x in kept {
        assert x in r <==> x in multiset(r);
        assert x in kept <==> x in multiset(kept);
      }
    }
    FilterKeepsAll(links, (x: PocketLinkRow) => StatusMatches(filter, x));
    r
  }
}
