/** The database the server handlers and the ingestion script work on
    (models.py), as an in-memory collection: the `bookmarks` table, and a
    session over the `pocket_links` table that holds uncommitted additions
    until it commits. Ids come from an auto-increment counter. */
module Store {
  import opened Wrappers
  import opened Lists

  /** A row of `bookmarks`; `created_at`/`updated_at` are clock values and are not modelled. */
  datatype BookmarkRow = BookmarkRow(
    id: nat,
    url: string,
    title: Option<string>,
    description: Option<string>,
    archived: bool)

  /** A row of `pocket_links`. */
  datatype PocketLinkRow = PocketLinkRow(
    id: nat,
    title: Option<string>,
    url: string,
    timeAdded: int,
    tags: Option<string>,
    status: string)

  /** Why a query's `scalar_one_or_none()` raised. */
  datatype QueryError = MultipleResultsFound

  /** `scalar_one_or_none()`: no row, exactly one row, or an exception. */
  function ScalarOneOrNone<T>(matches: seq<T>): (r: Result<Option<T>, QueryError>)
    ensures r == Success(None) <==> matches == []
    ensures r.Success? && r.value.Some? <==> |matches| == 1
    ensures r.Success? && r.value.Some? ==> r.value.value == matches[0]
    ensures r.Failure? <==> |matches| >= 2
  {
    if |matches| == 0 then Success(None)
    else if |matches| == 1 then Success(Some(matches[0]))
    else Failure(MultipleResultsFound)
  }

  /** The `where` conditions of the store's queries. */
  function IdIs(id: int): BookmarkRow -> bool {
    (row: BookmarkRow) => row.id == id
  }

  /** The URL a row is keyed by, for the uniqueness of URLs. */
  function BookmarkUrl(row: BookmarkRow): string {
    row.url
  }

  function LinkUrl(link: PocketLinkRow): string {
    link.url
  }

  /** The flag the bookmark listings select on. */
  function BookmarkArchived(row: BookmarkRow): bool {
    row.archived
  }

  /** The rows after `bookmark.archived = True` on the row with id `id`. */
  function MarkArchived(rows: seq<BookmarkRow>, id: int): (r: seq<BookmarkRow>)
    ensures |r| == |rows|
    ensures forall k :: 0 <= k < |rows| && rows[k].id != id ==> r[k] == rows[k]
    ensures forall k :: 0 <= k < |rows| && rows[k].id == id ==> r[k] == rows[k].(archived := true)
  {
    if rows == [] then []
    else [if rows[0].id == id then rows[0].(archived := true) else rows[0]] + MarkArchived(rows[1..], id)
  }

  /** Archiving twice is archiving once. */
  lemma {:induction false} MarkArchivedIdempotent(rows: seq<BookmarkRow>, id: int)
    ensures MarkArchived(MarkArchived(rows, id), id) == MarkArchived(rows, id)
  {
    if rows != [] {
      MarkArchivedIdempotent(rows[1..], id);
      assert MarkArchived(rows, id)[1..] == MarkArchived(rows[1..], id);
    }
  }

  /** The `bookmarks` table. */
  class BookmarkStore {
    var rows: seq<BookmarkRow>
    var nextId: nat

    /** Ids are assigned in increasing order and lie below the counter. */
    ghost predicate Valid()
      reads this
    {
      && (forall i, j :: 0 <= i < j < |rows| ==> rows[i].id < rows[j].id)
      && (forall k :: 0 <= k < |rows| ==> rows[k].id < nextId)
    }

    constructor ()
      ensures Valid() && rows == [] && nextId == 1
    {
      rows := [];
      nextId := 1;
    }

    /** `select(Bookmark).where(Bookmark.url == url)`, in table order. */
    function WithUrl(url: string): (r: seq<BookmarkRow>)
      reads this
      ensures forall k :: 0 <= k < |r| ==> r[k] in rows && r[k].url == url
      ensures forall k :: 0 <= k < |rows| && rows[k].url == url ==> rows[k] in r
      ensures |r| == CountWhere(rows, KeyIs(BookmarkUrl, url))
    {
      WithKey(rows, BookmarkUrl, url)
    }

    /** `select(Bookmark).where(Bookmark.id == id)`. */
    function WithId(id: int): (r: seq<BookmarkRow>)
      reads this
      ensures forall k :: 0 <= k < |r| ==> r[k] in rows && r[k].id == id
      ensures forall k :: 0 <= k < |rows| && rows[k].id == id ==> rows[k] in r
    {
      Filter(rows, IdIs(id))
    }

    /** `id` is a primary key: at most one row has a given id. */
    lemma AtMostOneWithId(id: int)
      requires Valid()
      ensures |WithId(id)| <= 1
      ensures WithId(id) == [] <==> forall k :: 0 <= k < |rows| ==> rows[k].id != id
    {
      IdFilterAtMostOne(rows, id);
      if WithId(id) != [] {
        assert WithId(id)[0] in rows;
      }
    }

    /** Over rows with increasing ids, filtering by one id leaves at most one row. */
    static lemma {:induction false} IdFilterAtMostOne(rows: seq<BookmarkRow>, id: int)
      requires forall i, j :: 0 <= i < j < |rows| ==> rows[i].id < rows[j].id
      ensures |Filter(rows, IdIs(id))| <= 1
    {
      if rows != [] {
        IdFilterAtMostOne(rows[1..], id);
        var rest := Filter(rows[1..], IdIs(id));
        if rows[0].id == id && rest != [] {
          assert rest[0] in rows[1..];
        }
      }
    }

    /** `db.add(Bookmark(...))` followed by `commit`: the row gets the next id
        and the column default `archived = false`. */
    method Insert(url: string, title: Option<string>, description: Option<string>) returns (row: BookmarkRow)
      requires Valid()
      modifies this
      ensures Valid()
      ensures row == BookmarkRow(old(nextId), url, title, description, false)
      ensures rows == old(rows) + [row] && nextId == old(nextId) + 1
    {
      row := BookmarkRow(nextId, url, title, description, false);
      rows := rows + [row];
      nextId := nextId + 1;
    }

    /** `bookmark.archived = True` followed by `commit`. */
    method SetArchived(id: int)
      requires Valid()
      modifies this
      ensures Valid()
      ensures rows == MarkArchived(old(rows), id) && nextId == old(nextId)
    {
      rows := MarkArchived(rows, id);
    }
  }

  /** A session on `pocket_links`: committed rows, rows added but not yet
      committed, the id counter, and the number of commits so far. Queries
      see the pending rows too, because the session flushes before it queries. */
  class PocketLinkSession {
    var table: seq<PocketLinkRow>
    var pending: seq<PocketLinkRow>
    var nextId: nat
    var commits: nat

    constructor (table: seq<PocketLinkRow>, nextId: nat)
      ensures this.table == table && pending == [] && this.nextId == nextId && commits == 0
    {
      this.table := table;
      this.pending := [];
      this.nextId := nextId;
      this.commits := 0;
    }

    /** What a query in this session sees. */
    function Visible(): seq<PocketLinkRow>
      reads this
    {
      table + pending
    }

    /** `db.add(PocketLink(...))`: pending until the next commit. */
    method Add(title: Option<string>, url: string, timeAdded: int, tags: Option<string>, status: string)
      modifies this
      ensures pending == old(pending) + [PocketLinkRow(old(nextId), title, url, timeAdded, tags, status)]
      ensures table == old(table) && nextId == old(nextId) + 1 && commits == old(commits)
    {
      pending := pending + [PocketLinkRow(nextId, title, url, timeAdded, tags, status)];
      nextId := nextId + 1;
    }

    /** `db.commit()`: pending rows become part of the table. */
    method Commit()
      modifies this
      ensures table == old(table) + old(pending) && pending == []
      ensures nextId == old(nextId) && commits == old(commits) + 1
    {
      table := table + pending;
      pending := [];
      commits := commits + 1;
    }

    /** `db.rollback()`: pending rows are discarded. Ids already handed out
        are not reused, as with a database sequence. */
    method Rollback()
      modifies this
      ensures table == old(table) && pending == []
      ensures nextId == old(nextId) && commits == old(commits)
    {
      pending := [];
    }
  }
}
