/** The older variant of the service (main.py). Creating a bookmark neither
    checks for an existing URL nor defaults the description; listing and
    archiving are the same code as in server.py and are defined through it. */
module LegacyServer {
  import opened Wrappers
  import opened Lists
  import opened Store
  import Server

  /** `POST /bookmarks/` in main.py: always stores a new row holding exactly
      what the metadata fetch returned, whether or not the URL is already stored. */
  method CreateBookmark(db: BookmarkStore, url: string, meta: Server.Metadata) returns (row: BookmarkRow)
    requires db.Valid()
    modifies db
    ensures db.Valid()
    ensures row == BookmarkRow(old(db.nextId), url, meta.title, meta.description, false)
    ensures db.rows == old(db.rows) + [row] && db.nextId == old(db.nextId) + 1
  {
    row := db.Insert(url, meta.title, meta.description);
  }

  /** Adding a row for a URL that is already stored breaks URL uniqueness,
      which is what this handler does on a repeated submission; server.py's
      handler then answers every later create of that URL with 500. */
  lemma RepeatedCreateDuplicates(rows: seq<BookmarkRow>, row: BookmarkRow, k: nat)
    requires k < |rows| && rows[k].url == row.url
    ensures !DistinctBy(rows + [row], BookmarkUrl)
    ensures |WithKey(rows + [row], BookmarkUrl, row.url)| >= 2
  {
    var all := rows + [row];
    assert all[k].url == all[|rows|].url;
    assert all[k] in WithKey(all, BookmarkUrl, row.url);
    assert WithKey(all, BookmarkUrl, row.url) == WithKey(rows, BookmarkUrl, row.url) + WithKey([row], BookmarkUrl, row.url) by {
      FilterAppend(rows, [row], KeyIs(BookmarkUrl, row.url));
    }
    assert rows[k] in WithKey(rows, BookmarkUrl, row.url);
    assert WithKey([row], BookmarkUrl, row.url) == [row];
  }

  /** `GET /bookmarks/?archived=…` in main.py: identical to server.py. */
  function ListBookmarks(db: BookmarkStore, archived: Option<bool>): (r: seq<BookmarkRow>)
    reads db
    ensures forall k :: 0 <= k < |r| ==> r[k] in db.rows && r[k].archived == archived.GetOr(false)
    ensures forall k :: 0 <= k < |db.rows| && db.rows[k].archived == archived.GetOr(false) ==> db.rows[k] in r
    ensures |r| == CountWhere(db.rows, KeyIs(BookmarkArchived, archived.GetOr(false)))
  {
    Server.ListBookmarks(db, archived)
  }

  /** `PATCH /bookmarks/{id}/archive` in main.py: identical to server.py. */
  method ArchiveBookmark(db: BookmarkStore, id: int) returns (r: Result<BookmarkRow, Server.HttpError>)
    requires db.Valid()
    modifies db
    ensures db.Valid()
    ensures (forall k :: 0 <= k < |old(db.rows)| ==> old(db.rows)[k].id != id) ==>
              r == Failure(Server.HttpError(Server.NotFound, Server.NotFoundDetail(id))) && unchanged(db)
    ensures forall k :: 0 <= k < |old(db.rows)| && old(db.rows)[k].id == id ==>
              r == Success(old(db.rows)[k].(archived := true)) &&
              db.rows == MarkArchived(old(db.rows), id) && db.nextId == old(db.nextId)
  {
    r := Server.ArchiveBookmark(db, id);
  }
}
