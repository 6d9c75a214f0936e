/** The Pocket CSV ingestion script (ingest_pocket_data.py): every row is
    stripped and validated, rows without a URL, with a non-integer
    `time_added`, or with a URL already stored are counted as skipped, and
    accepted rows are added to the session and committed in batches of 100.
    Reading the CSV file is not modelled: the rows arrive as dictionaries,
    as `csv.DictReader` yields them. */
module Ingest {
  import opened Wrappers
  import opened Text
  import opened Lists
  import opened Store

  /** A `csv.DictReader` row: a column present in the header but missing
      from a short row holds `None`. */
  type CsvRow = map<string, Option<string>>

  /** Number of added rows after which the session commits. */
  const BatchSize: nat := 100

  /** What aborts the ingestion: `None.strip()` on a short row
      (`AttributeError`), or a URL lookup that matches several rows. */
  datatype IngestError = NullField(column: string) | LookupFailed(error: QueryError)

  /** The counters printed at the end. */
  datatype Counts = Counts(processed: nat, skipped: nat)

  /** `row.get(column, '').strip()`. */
  function Field(row: CsvRow, column: string): (r: Result<string, IngestError>)
    ensures column !in row ==> r == Success("")
    ensures column in row && row[column].Some? ==> r == Success(Trim(Python, row[column].value))
    ensures column in row && row[column].None? ==> r == Failure(NullField(column))
  {
    if column !in row then Success("")
    else match row[column]
      case None => Failure(NullField(column))
      case Some(v) => Success(Trim(Python, v))
  }

  /** `s or None`. */
  function OrNone(s: string): (r: Option<string>)
    ensures r.None? <==> s == ""
    ensures r.Some? ==> r.value == s
  {
    if s == "" then None else Some(s)
  }

  /** The five stripped columns of one row. */
  datatype Fields = Fields(title: string, url: string, timeAdded: string, tags: string, status: string)

  /** Reading and stripping `title`, `url`, `time_added`, `tags` and
      `status`, in that order; the first null column aborts. */
  function ReadRow(row: CsvRow): (r: Result<Fields, IngestError>)
    ensures r.Success? <==>
              && Field(row, "title").Success? && Field(row, "url").Success? && Field(row, "time_added").Success?
              && Field(row, "tags").Success? && Field(row, "status").Success?
    ensures r.Success? ==>
              && Field(row, "title") == Success(r.value.title)
              && Field(row, "url") == Success(r.value.url)
              && Field(row, "time_added") == Success(r.value.timeAdded)
              && Field(row, "tags") == Success(r.value.tags)
              && Field(row, "status") == Success(r.value.status)
    ensures r.Failure? ==> r.error.NullField?
  {
    var title := Field(row, "title");
    var url := Field(row, "url");
    var timeAdded := Field(row, "time_added");
    var tags := Field(row, "tags");
    var status := Field(row, "status");
    if title.Failure? then Failure(title.error)
    else if url.Failure? then Failure(url.error)
    else if timeAdded.Failure? then Failure(timeAdded.error)
    else if tags.Failure? then Failure(tags.error)
    else if status.Failure? then Failure(status.error)
    else Success(Fields(title.value, url.value, timeAdded.value, tags.value, status.value))
  }

  /** What happens to one row. */
  datatype Verdict =
    | Abort(error: IngestError)
    | MissingUrl
    | BadTime
    | AlreadyStored
    | Accept(title: Option<string>, url: string, timeAdded: int, tags: Option<string>, status: string)

  /** The checks on a readable row, given what the session can see: no URL,
      then a `time_added` that `int()` rejects, then a URL that is already
      stored; the lookup raises when several rows hold the URL. */
  function Classify(f: Fields, visible: seq<PocketLinkRow>): (v: Verdict)
    ensures v.Abort? ==> v.error.LookupFailed?
    ensures v == MissingUrl <==> f.url == ""
    ensures v == BadTime <==> f.url != "" && ParseInt(f.timeAdded).None?
    ensures v == AlreadyStored <==>
              f.url != "" && ParseInt(f.timeAdded).Some? && |WithKey(visible, LinkUrl, f.url)| == 1
    ensures v.Abort? <==>
              f.url != "" && ParseInt(f.timeAdded).Some? && |WithKey(visible, LinkUrl, f.url)| >= 2
    ensures v.Accept? ==>
              && v.url == f.url && v.url != ""
              && Some(v.timeAdded) == ParseInt(f.timeAdded)
              && v.status == f.status
              && v.title == OrNone(f.title)
              && v.tags == OrNone(f.tags)
              && forall k :: 0 <= k < |visible| ==> visible[k].url != v.url
  {
    if f.url == "" then MissingUrl
    else match ParseInt(f.timeAdded)
      case None => BadTime
      case Some(t) =>
        var found := WithKey(visible, LinkUrl, f.url);
        match ScalarOneOrNone(found)
        case Failure(e) => Abort(LookupFailed(e))
        case Success(Some(_)) => AlreadyStored
        case Success(None) =>
          Accept(OrNone(f.title), f.url, t, OrNone(f.tags), f.status)
  }

  /** A row as the loop body sees it after reading its five columns. */
  type ReadResult = Result<Fields, IngestError>

  /** Every row read, in file order. */
  function ReadAll(rows: seq<CsvRow>): (r: seq<ReadResult>)
    ensures |r| == |rows|
    ensures forall k :: 0 <= k < |r| && r[k].Failure? ==> r[k].error.NullField?
  {
    if rows == [] then [] else [ReadRow(rows[0])] + ReadAll(rows[1..])
  }

  /** The `k`-th entry of `ReadAll` is the `k`-th row read. */
  lemma {:induction false} ReadAllAt(rows: seq<CsvRow>, k: nat)
    requires k < |rows|
    ensures ReadAll(rows)[k] == ReadRow(rows[k])
  {
    if k > 0 {
      ReadAllAt(rows[1..], k - 1);
    }
  }

  /** The body of the loop for one row. */
  function Judge(line: ReadResult, visible: seq<PocketLinkRow>): Verdict
  {
    match line
    case Failure(e) => Abort(e)
    case Success(f) => Classify(f, visible)
  }

  /** What `Judge` promises: a null column aborts, a readable row is
      classified, and an accepted URL is held by no visible link. */
  lemma JudgeCases(line: ReadResult, visible: seq<PocketLinkRow>)
    ensures var v := Judge(line, visible);
            && (line.Failure? ==> v == Abort(line.error))
            && (line.Success? && v.Abort? ==> v.error.LookupFailed?)
            && (v.Accept? ==> v.url != "" && forall k :: 0 <= k < |visible| ==> visible[k].url != v.url)
  {
  }

  /** Where the loop stands after some lines: the links added so far, the
      skipped count, and the error that stopped it, if any. */
  datatype Progress = Progress(added: seq<PocketLinkRow>, skipped: nat, failure: Option<IngestError>)

  /** The effect of one verdict on `p`: nothing once an error was raised;
      an accepted row is added with the next id. */
  function Step(p: Progress, v: Verdict, firstId: nat): (q: Progress)
    ensures p.failure.Some? ==> q == p
    ensures q.added == p.added || (v.Accept? && q.added == p.added + [PocketLinkRow(firstId + |p.added|, v.title, v.url, v.timeAdded, v.tags, v.status)])
    ensures p.failure.None? ==> (q.failure.Some? <==> v.Abort?)
    ensures p.failure.None? && v.Abort? ==> q.failure == Some(v.error)
    ensures p.failure.None? && v.Accept? ==>
              q.added == p.added + [PocketLinkRow(firstId + |p.added|, v.title, v.url, v.timeAdded, v.tags, v.status)] && q.skipped == p.skipped
    ensures p.failure.None? && !v.Accept? ==> q.added == p.added
    ensures p.failure.None? && !v.Accept? && !v.Abort? ==> q.skipped == p.skipped + 1
  {
    if p.failure.Some? then p
    else match v
      case Abort(e) => p.(failure := Some(e))
      case Accept(title, url, timeAdded, tags, status) =>
        p.(added := p.added + [PocketLinkRow(firstId + |p.added|, title, url, timeAdded, tags, status)])
      case _ => p.(skipped := p.skipped + 1)
  }

  /** The loop over the rows as a function: each row is judged against the
      lines already stored plus those added before it; an abort stops it. */
  function Replay(known: seq<PocketLinkRow>, lines: seq<ReadResult>, firstId: nat): Progress
  {
    if lines == [] then Progress([], 0, None)
    else
      var p := Replay(known, lines[..|lines| - 1], firstId);
      Step(p, Judge(lines[|lines| - 1], known + p.added), firstId)
  }

  /** `Replay` over one more row is one more `Step`. */
  lemma ReplayExtends(known: seq<PocketLinkRow>, lines: seq<ReadResult>, i: nat, firstId: nat)
    requires i < |lines|
    ensures var p := Replay(known, lines[..i], firstId);
            Replay(known, lines[..i + 1], firstId) == Step(p, Judge(lines[i], known + p.added), firstId)
  {
    assert lines[..i + 1][..i] == lines[..i];
  }

  /** Once a row aborts, later lines change nothing. */
  lemma {:induction false} ReplayStops(known: seq<PocketLinkRow>, lines: seq<ReadResult>, i: nat, firstId: nat)
    requires i <= |lines|
    requires Replay(known, lines[..i], firstId).failure.Some?
    ensures Replay(known, lines, firstId) == Replay(known, lines[..i], firstId)
    decreases |lines| - i
  {
    if i < |lines| {
      assert lines[..|lines| - 1][..i] == lines[..i];
      ReplayStops(known, lines[..|lines| - 1], i, firstId);
    } else {
      assert lines[..i] == lines;
    }
  }

  /** Without an abort, every row read is either processed or skipped. */
  lemma {:induction false} ReplayCountsEveryRow(known: seq<PocketLinkRow>, lines: seq<ReadResult>, firstId: nat)
    ensures Replay(known, lines, firstId).failure.None? ==>
              |Replay(known, lines, firstId).added| + Replay(known, lines, firstId).skipped == |lines|
    ensures |Replay(known, lines, firstId).added| + Replay(known, lines, firstId).skipped <= |lines|
  {
    if lines != [] {
      ReplayCountsEveryRow(known, lines[..|lines| - 1], firstId);
    }
  }

  /** Consecutive ids from `firstId`, and no empty URL. */
  predicate NumberedFrom(links: seq<PocketLinkRow>, firstId: nat) {
    forall k :: 0 <= k < |links| ==> links[k].url != "" && links[k].id == firstId + k
  }

  /** Ids are handed out consecutively and every added URL is non-empty. */
  lemma {:induction false} ReplayNumbersLinks(known: seq<PocketLinkRow>, lines: seq<ReadResult>, firstId: nat)
    ensures NumberedFrom(Replay(known, lines, firstId).added, firstId)
  {
    if lines != [] {
      var p := Replay(known, lines[..|lines| - 1], firstId);
      ReplayNumbersLinks(known, lines[..|lines| - 1], firstId);
      var v := Judge(lines[|lines| - 1], known + p.added);
      JudgeCases(lines[|lines| - 1], known + p.added);
      var q := Replay(known, lines, firstId);
      assert q == Step(p, v, firstId);
      if q.added != p.added {
        forall k | 0 <= k < |q.added|
          ensures q.added[k].url != "" && q.added[k].id == firstId + k
        {
          if k < |p.added| {
            assert q.added[k] == p.added[k];
          }
        }
      }
    }
  }

  /** No added link repeats a URL that was already stored, nor one added
      earlier in the same run. */
  lemma {:induction false} ReplayAddsNewUrls(known: seq<PocketLinkRow>, lines: seq<ReadResult>, firstId: nat)
    requires DistinctBy(known, LinkUrl)
    ensures DistinctBy(known + Replay(known, lines, firstId).added, LinkUrl)
  {
    if lines == [] {
      assert known + [] == known;
    } else {
      var p := Replay(known, lines[..|lines| - 1], firstId);
      ReplayAddsNewUrls(known, lines[..|lines| - 1], firstId);
      var v := Judge(lines[|lines| - 1], known + p.added);
      JudgeCases(lines[|lines| - 1], known + p.added);
      var q := Replay(known, lines, firstId);
      assert q == Step(p, v, firstId);
      if q.added != p.added {
        var link := PocketLinkRow(firstId + |p.added|, v.title, v.url, v.timeAdded, v.tags, v.status);
        assert v.Accept?;
        assert q.added == p.added + [link];
        assert known + q.added == (known + p.added) + [link];
        AppendFreshKey(known + p.added, link, LinkUrl);
      }
    }
  }

  /** When the stored URLs are unique, the URL lookup never raises: the only
      error a run can stop on is a row with a null column. */
  lemma {:induction false} ReplayLookupNeverFails(known: seq<PocketLinkRow>, lines: seq<ReadResult>, firstId: nat)
    requires DistinctBy(known, LinkUrl)
    requires forall k :: 0 <= k < |lines| && lines[k].Failure? ==> lines[k].error.NullField?
    ensures Replay(known, lines, firstId).failure.Some? ==> Replay(known, lines, firstId).failure.value.NullField?
  {
    if lines != [] {
      var front := lines[..|lines| - 1];
      var line := lines[|lines| - 1];
      var p := Replay(known, front, firstId);
      ReplayLookupNeverFails(known, front, firstId);
      if p.failure.None? && line.Success? {
        ReplayAddsNewUrls(known, front, firstId);
        DistinctKeyLookup(known + p.added, LinkUrl, line.value.url);
        assert !Judge(line, known + p.added).Abort?;
      }
    }
  }

  /** After an addition, the processed count is a multiple of the batch size
      exactly when the pending additions fill a batch. */
  lemma BatchFull(n: nat, batches: nat, rest: nat)
    requires n == batches * BatchSize + rest && 1 <= rest <= BatchSize
    ensures n % BatchSize == 0 <==> rest == BatchSize
  {
    if rest == BatchSize {
      assert n == (batches + 1) * BatchSize;
    } else {
      BatchSplit(n, batches, rest);
    }
  }

  /** `n` links in `batches` full batches and `rest` pending ones. */
  lemma BatchSplit(n: nat, batches: nat, rest: nat)
    requires n == batches * BatchSize + rest && rest < BatchSize
    ensures n / BatchSize == batches && n % BatchSize == rest
  {
  }

  /** How the session stands against the loop's ghost progress: committed
      plus pending rows are the known rows plus those added, all but the
      pending ones sit in full batches, and each full batch was committed. */
  ghost predicate Tracks(s: PocketLinkSession, known: seq<PocketLinkRow>, firstId: nat, commits0: nat,
                         p: Progress, batches: nat)
    reads s
  {
    && p.failure.None?
    && s.table + s.pending == known + p.added
    && |p.added| == batches * BatchSize + |s.pending| && |s.pending| < BatchSize
    && s.nextId == firstId + |p.added|
    && s.commits == commits0 + batches
  }

  /** The rest of one pass of the loop body, once the row is judged: an
      accepted row is added and counted and a full batch is committed, a
      skipped row is counted, and an error rolls back the pending additions. */
  method Record(s: PocketLinkSession, verdict: Verdict, processed: nat, skipped: nat,
                ghost known: seq<PocketLinkRow>, ghost firstId: nat, ghost commits0: nat,
                ghost before: Progress, ghost batches: nat)
      returns (failure: Option<IngestError>, processed': nat, skipped': nat, ghost after: Progress, ghost batches': nat)
    requires Tracks(s, known, firstId, commits0, before, batches)
    requires processed == |before.added| && skipped == before.skipped
    modifies s
    ensures after == Step(before, verdict, firstId)
    ensures failure == after.failure
    ensures failure.None? ==>
              && Tracks(s, known, firstId, commits0, after, batches')
              && processed' == |after.added| && skipped' == after.skipped
    ensures failure.Some? ==>
              && s.pending == []
              && s.table == known + after.added[..|after.added| - |after.added| % BatchSize]
              && s.commits == commits0 + |after.added| / BatchSize
              && s.nextId == firstId + |after.added|
  {
    after := Step(before, verdict, firstId);
    processed', skipped', batches' := processed, skipped, batches;
    match verdict {
      case Abort(e) =>
        KeptBatches(known, before.added, s.table, s.pending);
        BatchSplit(processed, batches, |s.pending|);
        s.Rollback();
        failure := Some(e);
      case Accept(title, url, timeAdded, tags, status) =>
        ghost var pendingBefore := s.pending;
        s.Add(title, url, timeAdded, tags, status);
        ghost var link := PocketLinkRow(firstId + |before.added|, title, url, timeAdded, tags, status);
        assert s.pending == pendingBefore + [link];
        assert after.added == before.added + [link];
        assert s.table + s.pending == (s.table + pendingBefore) + [link];
        processed' := processed + 1;
        BatchFull(processed', batches, |s.pending|);
        if processed' % BatchSize == 0 {
          s.Commit();
          batches' := batches + 1;
        }
        failure := None;
      case _ =>
        skipped' := skipped + 1;
        failure := None;
    }
  }

  /** One pass of the loop body: the row is read and judged against what
      the session sees, and the verdict is recorded. */
  method IngestOne(s: PocketLinkSession, rows: seq<CsvRow>, i: nat, processed: nat, skipped: nat,
                   ghost lines: seq<ReadResult>, ghost known: seq<PocketLinkRow>, ghost firstId: nat,
                   ghost commits0: nat, ghost before: Progress, ghost batches: nat)
      returns (failure: Option<IngestError>, processed': nat, skipped': nat, ghost after: Progress, ghost batches': nat, i': nat)
    requires i < |rows| && lines == ReadAll(rows)
    requires Replay(known, lines[..i], firstId) == before
    requires Tracks(s, known, firstId, commits0, before, batches)
    requires processed == |before.added| && skipped == before.skipped
    modifies s
    ensures i' == i + 1 && Replay(known, lines[..i'], firstId) == after
    ensures failure == after.failure
    ensures failure.None? ==>
              && Tracks(s, known, firstId, commits0, after, batches')
              && processed' == |after.added| && skipped' == after.skipped
    ensures failure.Some? ==>
              && s.pending == []
              && s.table == known + after.added[..|after.added| - |after.added| % BatchSize]
              && s.commits == commits0 + |after.added| / BatchSize
              && s.nextId == firstId + |after.added|
  {
    ReadAllAt(rows, i);
    ReplayExtends(known, lines, i, firstId);
    var verdict := Judge(ReadRow(rows[i]), s.Visible());
    failure, processed', skipped', after, batches' :=
      Record(s, verdict, processed, skipped, known, firstId, commits0, before, batches);
    i' := i + 1;
  }

  /** `ingest_csv_data`: the loop over the rows with its two counters, a
      commit whenever the processed count reaches a multiple of 100, and a
      final commit. An error rolls back what is not yet committed and is
      raised again. */
  method IngestCsv(s: PocketLinkSession, rows: seq<CsvRow>) returns (r: Result<Counts, IngestError>)
    requires s.pending == []
    modifies s
    ensures s.pending == []
    ensures var p := Replay(old(s.table), ReadAll(rows), old(s.nextId));
            && s.nextId == old(s.nextId) + |p.added|
            && (p.failure.None? ==>
                  && r == Success(Counts(|p.added|, p.skipped))
                  && s.table == old(s.table) + p.added
                  && s.commits == old(s.commits) + |p.added| / BatchSize + 1)
            && (p.failure.Some? ==>
                  && r == Failure(p.failure.value)
                  && s.table == old(s.table) + p.added[..|p.added| - |p.added| % BatchSize]
                  && s.commits == old(s.commits) + |p.added| / BatchSize)
  {
    ghost var known := s.table;
    ghost var firstId := s.nextId;
    ghost var commits0 := s.commits;
    ghost var lines := ReadAll(rows);
    ghost var progress := Progress([], 0, None);
    ghost var batches := 0;
    var processed, skipped := 0, 0;
    var i := 0;
    while i < |rows|
      invariant 0 <= i <= |rows|
      invariant Replay(known, lines[..i], firstId) == progress
      invariant Tracks(s, known, firstId, commits0, progress, batches)
      invariant processed == |progress.added| && skipped == progress.skipped
    {
      var failure;
      failure, processed, skipped, progress, batches, i :=
        IngestOne(s, rows, i, processed, skipped, lines, known, firstId, commits0, progress, batches);
      if failure.Some? {
        ReplayStops(known, lines, i, firstId);
        return Failure(failure.value);
      }
    }
    assert lines[..i] == lines;
    BatchSplit(processed, batches, |s.pending|);
    s.Commit();
    r := Success(Counts(processed, skipped));
  }

  /** After a rollback the table holds every added link but the last
      `|pending|` ones. */
  lemma KeptBatches(known: seq<PocketLinkRow>, added: seq<PocketLinkRow>, table: seq<PocketLinkRow>, pending: seq<PocketLinkRow>)
    requires table + pending == known + added
    requires |pending| <= |added|
    ensures table == known + added[..|added| - |pending|]
  {
    assert table == (table + pending)[..|table|];
    assert (known + added)[..|table|] == known + added[..|added| - |pending|];
  }
}
