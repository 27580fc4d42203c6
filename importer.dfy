/** The dump importer: reading an archive's lines, the two batched import
    loops, and the run over a directory of archives. */
module Importer {
  import opened Json
  import opened PyStr
  import opened Schema
  import opened Store
  import opened Transform
  import opened Batching

  /** The `batch_size` every import runs with. */
  const DefaultBatchSize := 100000

  /** An archive found in the dump directory: its file name, the decoded
      text lines its decompressor produces, and whether the reader raised
      after them (unreadable file or corrupt frame). */
  datatype Archive = Archive(name: string, raw: seq<string>, truncated: bool)

  /** The lines `decompress_zst_file` yields: each decoded line stripped,
      blank ones skipped. */
  function ReadLines(raw: seq<string>): (lines: seq<string>)
    ensures |lines| <= |raw|
    decreases |raw|
  {
    if raw == [] then []
    else
      var last := raw[|raw| - 1];
      ReadLines(raw[..|raw| - 1]) + (if Strip(last) == [] then [] else [Strip(last)])
  }

  /** Only stripped, non-empty lines reach the parser. */
  lemma {:induction false} ReadLinesStripped(raw: seq<string>)
    ensures forall i :: 0 <= i < |ReadLines(raw)| ==> ReadLines(raw)[i] != [] && IsStripped(ReadLines(raw)[i])
    decreases |raw|
  {
    if raw != [] {
      var init, line := raw[..|raw| - 1], Strip(raw[|raw| - 1]);
      ReadLinesStripped(init);
      StripStripped(raw[|raw| - 1]);
      var before, added := ReadLines(init), if line == [] then [] else [line];
      assert ReadLines(raw) == before + added;
      forall i | 0 <= i < |ReadLines(raw)|
        ensures ReadLines(raw)[i] != [] && IsStripped(ReadLines(raw)[i])
      {
        if i >= |before| {
          assert ReadLines(raw)[i] == line;
        }
      }
    }
  }

  /** No line with content is lost: every decoded line that is not all
      whitespace reaches the parser, stripped. */
  lemma {:induction false} ReadLinesKeepsContent(raw: seq<string>, i: nat)
    requires i < |raw| && !AllSpace(raw[i])
    ensures Strip(raw[i]) in ReadLines(raw)
    decreases |raw|
  {
    StripEmpty(raw[i]);
    if i < |raw| - 1 {
      ReadLinesKeepsContent(raw[..|raw| - 1], i);
    }
  }

  /** The rows `import_submissions` appends, in order: one per line that
      parses to an object. */
  function SubmissionRows(lines: seq<string>, parse: string -> Parsed): (rows: seq<SubmissionRow>)
    ensures |rows| <= |lines|
    decreases |lines|
  {
    if lines == [] then []
    else
      var row := SubmissionOf(parse(lines[|lines| - 1]));
      SubmissionRows(lines[..|lines| - 1], parse) + (if row.Some? then [row.value] else [])
  }

  /** The rows `import_comments` appends, in order. */
  function CommentRows(lines: seq<string>, parse: string -> Parsed): (rows: seq<CommentRow>)
    ensures |rows| <= |lines|
    decreases |lines|
  {
    if lines == [] then []
    else
      var row := CommentOf(parse(lines[|lines| - 1]));
      CommentRows(lines[..|lines| - 1], parse) + (if row.Some? then [row.value] else [])
  }

  lemma SubmissionRowsStep(lines: seq<string>, i: nat, parse: string -> Parsed)
    requires i < |lines|
    ensures var row := SubmissionOf(parse(lines[i]));
      SubmissionRows(lines[..i + 1], parse) == SubmissionRows(lines[..i], parse) + (if row.Some? then [row.value] else [])
  {
    assert lines[..i + 1][..i] == lines[..i];
  }

  lemma CommentRowsStep(lines: seq<string>, i: nat, parse: string -> Parsed)
    requires i < |lines|
    ensures var row := CommentOf(parse(lines[i]));
      CommentRows(lines[..i + 1], parse) == CommentRows(lines[..i], parse) + (if row.Some? then [row.value] else [])
  {
    assert lines[..i + 1][..i] == lines[..i];
  }

  /** Lines are handled independently: the rows of a concatenation are the
      rows of its parts. */
  lemma {:induction false} SubmissionRowsAppend(a: seq<string>, b: seq<string>, parse: string -> Parsed)
    ensures SubmissionRows(a + b, parse) == SubmissionRows(a, parse) + SubmissionRows(b, parse)
    decreases |b|
  {
    if b != [] {
      assert (a + b)[..|a + b| - 1] == a + b[..|b| - 1];
      SubmissionRowsAppend(a, b[..|b| - 1], parse);
    } else {
      assert a + b == a;
    }
  }

  lemma {:induction false} CommentRowsAppend(a: seq<string>, b: seq<string>, parse: string -> Parsed)
    ensures CommentRows(a + b, parse) == CommentRows(a, parse) + CommentRows(b, parse)
    decreases |b|
  {
    if b != [] {
      assert (a + b)[..|a + b| - 1] == a + b[..|b| - 1];
      CommentRowsAppend(a, b[..|b| - 1], parse);
    } else {
      assert a + b == a;
    }
  }

  /** A line that fails to parse or transform is dropped and changes
      nothing else: the import neither stops nor loses other rows. */
  lemma BadSubmissionLineDropped(a: seq<string>, bad: string, b: seq<string>, parse: string -> Parsed)
    requires SubmissionOf(parse(bad)).None?
    ensures SubmissionRows(a + [bad] + b, parse) == SubmissionRows(a + b, parse)
  {
    SubmissionRowsAppend(a + [bad], b, parse);
    SubmissionRowsAppend(a, [bad], parse);
    SubmissionRowsAppend(a, b, parse);
    assert [bad][..0] == [];
  }

  lemma BadCommentLineDropped(a: seq<string>, bad: string, b: seq<string>, parse: string -> Parsed)
    requires CommentOf(parse(bad)).None?
    ensures CommentRows(a + [bad] + b, parse) == CommentRows(a + b, parse)
  {
    CommentRowsAppend(a + [bad], b, parse);
    CommentRowsAppend(a, [bad], parse);
    CommentRowsAppend(a, b, parse);
    assert [bad][..0] == [];
  }

  /** The rows that reach the store: all of them, unless the reader raised,
      in which case the last partial batch is never flushed. */
  function Written<R>(rows: seq<R>, batchSize: int, truncated: bool): (w: seq<R>)
    ensures |w| <= |rows| && w == rows[..|w|]
    ensures !truncated ==> w == rows
    ensures batchSize >= 1 ==> |rows| - |w| < batchSize
  {
    if truncated then rows[..|rows| - Remainder(|rows|, batchSize)] else rows
  }

  /** Commits of one import of `n` rows. */
  function ImportCommits(n: nat, batchSize: int, truncated: bool): (c: nat)
    ensures n == 0 ==> c == 0
    ensures !truncated && n > 0 ==> c >= 1
  {
    if truncated then FullBatches(n, batchSize) else Flushes(n, batchSize)
  }

  /** The batch bookkeeping between two lines: the rows appended so far are
      the flushed ones followed by the pending batch, whose size is what the
      threshold leaves over, and `flushes` batches have been committed. */
  ghost predicate Accounted<R>(rows: seq<R>, flushed: seq<R>, batch: seq<R>, count: nat, flushes: nat, batchSize: int)
  {
    && rows == flushed + batch && count == |rows|
    && |batch| == Remainder(count, batchSize) && flushes == FullBatches(count, batchSize)
  }

  /** Appending a row that does not fill the batch keeps it pending. */
  lemma AppendKeeps<R>(rows: seq<R>, flushed: seq<R>, batch: seq<R>, row: R, count: nat, flushes: nat, batchSize: int)
    requires Accounted(rows, flushed, batch, count, flushes, batchSize)
    requires |batch + [row]| < batchSize
    ensures Accounted(rows + [row], flushed, batch + [row], count + 1, flushes, batchSize)
  {
    Step(count, batchSize);
    assert rows + [row] == flushed + (batch + [row]);
  }

  /** Appending a row that fills the batch flushes all of it. */
  lemma AppendFlushes<R>(rows: seq<R>, flushed: seq<R>, batch: seq<R>, row: R, count: nat, flushes: nat, batchSize: int)
    requires Accounted(rows, flushed, batch, count, flushes, batchSize)
    requires |batch + [row]| >= batchSize
    ensures Accounted(rows + [row], flushed + (batch + [row]), [], count + 1, flushes + 1, batchSize)
  {
    Step(count, batchSize);
    assert rows + [row] == flushed + (batch + [row]) + [];
  }

  /** After the last line: what the final flush adds, and the commits of
      the whole import. */
  lemma Finish<R>(rows: seq<R>, flushed: seq<R>, batch: seq<R>, flushes: nat, batchSize: int, truncated: bool)
    requires Accounted(rows, flushed, batch, |rows|, flushes, batchSize)
    ensures !truncated && batch != [] ==> Written(rows, batchSize, truncated) == flushed + batch
    ensures truncated || batch == [] ==> Written(rows, batchSize, truncated) == flushed
    ensures ImportCommits(|rows|, batchSize, truncated) == flushes + (if !truncated && batch != [] then 1 else 0)
  {
    assert rows[..|rows| - |batch|] == flushed;
    assert flushed + [] == flushed;
  }

  /** One more line of a submissions dump: dropped, appended to the batch, or
      appended and flushed with it. */
  lemma SubmissionLine(lines: seq<string>, i: nat, parse: string -> Parsed, flushed: seq<SubmissionRow>,
                     batch: seq<SubmissionRow>, count: nat, flushes: nat, batchSize: int)
    requires i < |lines| && Accounted(SubmissionRows(lines[..i], parse), flushed, batch, count, flushes, batchSize)
    ensures var row := SubmissionOf(parse(lines[i])); var rows := SubmissionRows(lines[..i + 1], parse);
      && (row.None? ==> Accounted(rows, flushed, batch, count, flushes, batchSize))
      && (row.Some? && |batch + [row.value]| < batchSize ==>
            Accounted(rows, flushed, batch + [row.value], count + 1, flushes, batchSize))
      && (row.Some? && |batch + [row.value]| >= batchSize ==>
            Accounted(rows, flushed + (batch + [row.value]), [], count + 1, flushes + 1, batchSize))
  {
    SubmissionRowsStep(lines, i, parse);
    var row := SubmissionOf(parse(lines[i]));
    if row.Some? {
      if |batch + [row.value]| < batchSize {
        AppendKeeps(SubmissionRows(lines[..i], parse), flushed, batch, row.value, count, flushes, batchSize);
      } else {
        AppendFlushes(SubmissionRows(lines[..i], parse), flushed, batch, row.value, count, flushes, batchSize);
      }
    } else {
      assert SubmissionRows(lines[..i], parse) + [] == SubmissionRows(lines[..i], parse);
    }
  }

  /** One more line of a comments dump: dropped, appended to the batch, or
      appended and flushed with it. */
  lemma CommentLine(lines: seq<string>, i: nat, parse: string -> Parsed, flushed: seq<CommentRow>,
                     batch: seq<CommentRow>, count: nat, flushes: nat, batchSize: int)
    requires i < |lines| && Accounted(CommentRows(lines[..i], parse), flushed, batch, count, flushes, batchSize)
    ensures var row := CommentOf(parse(lines[i])); var rows := CommentRows(lines[..i + 1], parse);
      && (row.None? ==> Accounted(rows, flushed, batch, count, flushes, batchSize))
      && (row.Some? && |batch + [row.value]| < batchSize ==>
            Accounted(rows, flushed, batch + [row.value], count + 1, flushes, batchSize))
      && (row.Some? && |batch + [row.value]| >= batchSize ==>
            Accounted(rows, flushed + (batch + [row.value]), [], count + 1, flushes + 1, batchSize))
  {
    CommentRowsStep(lines, i, parse);
    var row := CommentOf(parse(lines[i]));
    if row.Some? {
      if |batch + [row.value]| < batchSize {
        AppendKeeps(CommentRows(lines[..i], parse), flushed, batch, row.value, count, flushes, batchSize);
      } else {
        AppendFlushes(CommentRows(lines[..i], parse), flushed, batch, row.value, count, flushes, batchSize);
      }
    } else {
      assert CommentRows(lines[..i], parse) + [] == CommentRows(lines[..i], parse);
    }
  }

  /** The write both flushes of `import_submissions` perform: upsert the
      batch, then commit. */
  method FlushSubmissions(db: Connection, batch: seq<SubmissionRow>)
    modifies db`submissions, db`commits
    ensures db.submissions == UpsertAll(old(db.submissions), batch, SubmissionKey)
    ensures db.commits == old(db.commits) + 1
  {
    db.ReplaceIntoSubmissions(batch);
    db.Commit();
  }

  /** The write both flushes of `import_comments` perform. */
  method FlushComments(db: Connection, batch: seq<CommentRow>)
    modifies db`comments, db`commits
    ensures db.comments == UpsertAll(old(db.comments), batch, CommentKey)
    ensures db.commits == old(db.commits) + 1
  {
    db.ReplaceIntoComments(batch);
    db.Commit();
  }

  /** One pass of the loop of `import_submissions`: the line's row, if it has one,
      joins the batch, and a batch that reaches `batchSize` is written and
      committed; a line without a row counts as an error. */
  method ImportSubmissionLine(db: Connection, lines: seq<string>, i: nat, parse: string -> Parsed, batchSize: int,
                            batch: seq<SubmissionRow>, count: nat, errors: nat, ghost flushed: seq<SubmissionRow>, ghost flushes: nat,
                            ghost base: Table<SubmissionRow>, ghost baseCommits: nat)
    returns (batchOut: seq<SubmissionRow>, countOut: nat, errorsOut: nat, ghost flushedOut: seq<SubmissionRow>, ghost flushesOut: nat)
    requires i < |lines| && count + errors == i
    requires Accounted(SubmissionRows(lines[..i], parse), flushed, batch, count, flushes, batchSize)
    requires db.submissions == UpsertAll(base, flushed, SubmissionKey) && db.commits == baseCommits + flushes
    modifies db`submissions, db`commits
    ensures Accounted(SubmissionRows(lines[..i + 1], parse), flushedOut, batchOut, countOut, flushesOut, batchSize)
    ensures countOut + errorsOut == i + 1
    ensures db.submissions == UpsertAll(base, flushedOut, SubmissionKey) && db.commits == baseCommits + flushesOut
  {
    var row := SubmissionOf(parse(lines[i]));
    SubmissionLine(lines, i, parse, flushed, batch, count, flushes, batchSize);
    batchOut, countOut, errorsOut, flushedOut, flushesOut := batch, count, errors, flushed, flushes;
    if row.Some? {
      batchOut, countOut := batch + [row.value], count + 1;
      if |batchOut| >= batchSize {
        FlushSubmissions(db, batchOut);
        UpsertAllAppend(base, flushed, batchOut, SubmissionKey);
        flushedOut, flushesOut := flushed + batchOut, flushes + 1;
        batchOut := [];
      }
    } else {
      errorsOut := errors + 1;
    }
  }

  /** `import_submissions` over the `lines` the decompressor yields (and
      `truncated` when it raised after them): every line either appends a row or
      counts an error; full batches are upserted and committed as they fill,
      the rest once at the end. */
  method ImportSubmissions(db: Connection, lines: seq<string>, truncated: bool, parse: string -> Parsed, batchSize: int)
    returns (count: nat, errors: nat)
    modifies db`submissions, db`commits
    ensures var rows := SubmissionRows(lines, parse);
      && count == |rows| && count + errors == |lines|
      && db.submissions == UpsertAll(old(db.submissions), Written(rows, batchSize, truncated), SubmissionKey)
      && db.commits == old(db.commits) + ImportCommits(count, batchSize, truncated)
  {
    var submissions: seq<SubmissionRow> := [];
    count, errors := 0, 0;
    ghost var flushed: seq<SubmissionRow>, flushes: nat := [], 0;
    for i := 0 to |lines|
      invariant Accounted(SubmissionRows(lines[..i], parse), flushed, submissions, count, flushes, batchSize)
      invariant count + errors == i
      invariant db.submissions == UpsertAll(old(db.submissions), flushed, SubmissionKey) && db.commits == old(db.commits) + flushes
    {
      submissions, count, errors, flushed, flushes :=
        ImportSubmissionLine(db, lines, i, parse, batchSize, submissions, count, errors, flushed, flushes, old(db.submissions), old(db.commits));
    }
    assert lines[..|lines|] == lines;
    Finish(SubmissionRows(lines, parse), flushed, submissions, flushes, batchSize, truncated);
    if !truncated && |submissions| > 0 {
      FlushSubmissions(db, submissions);
      UpsertAllAppend(old(db.submissions), flushed, submissions, SubmissionKey);
    }
  }

  /** One pass of the loop of `import_comments`: the line's row, if it has one,
      joins the batch, and a batch that reaches `batchSize` is written and
      committed; a line without a row counts as an error. */
  method ImportCommentLine(db: Connection, lines: seq<string>, i: nat, parse: string -> Parsed, batchSize: int,
                            batch: seq<CommentRow>, count: nat, errors: nat, ghost flushed: seq<CommentRow>, ghost flushes: nat,
                            ghost base: Table<CommentRow>, ghost baseCommits: nat)
    returns (batchOut: seq<CommentRow>, countOut: nat, errorsOut: nat, ghost flushedOut: seq<CommentRow>, ghost flushesOut: nat)
    requires i < |lines| && count + errors == i
    requires Accounted(CommentRows(lines[..i], parse), flushed, batch, count, flushes, batchSize)
    requires db.comments == UpsertAll(base, flushed, CommentKey) && db.commits == baseCommits + flushes
    modifies db`comments, db`commits
    ensures Accounted(CommentRows(lines[..i + 1], parse), flushedOut, batchOut, countOut, flushesOut, batchSize)
    ensures countOut + errorsOut == i + 1
    ensures db.comments == UpsertAll(base, flushedOut, CommentKey) && db.commits == baseCommits + flushesOut
  {
    var row := CommentOf(parse(lines[i]));
    CommentLine(lines, i, parse, flushed, batch, count, flushes, batchSize);
    batchOut, countOut, errorsOut, flushedOut, flushesOut := batch, count, errors, flushed, flushes;
    if row.Some? {
      batchOut, countOut := batch + [row.value], count + 1;
      if |batchOut| >= batchSize {
        FlushComments(db, batchOut);
        UpsertAllAppend(base, flushed, batchOut, CommentKey);
        flushedOut, flushesOut := flushed + batchOut, flushes + 1;
        batchOut := [];
      }
    } else {
      errorsOut := errors + 1;
    }
  }

  /** `import_comments`: the same loop over comment rows. */
  method ImportComments(db: Connection, lines: seq<string>, truncated: bool, parse: string -> Parsed, batchSize: int)
    returns (count: nat, errors: nat)
    modifies db`comments, db`commits
    ensures var rows := CommentRows(lines, parse);
      && count == |rows| && count + errors == |lines|
      && db.comments == UpsertAll(old(db.comments), Written(rows, batchSize, truncated), CommentKey)
      && db.commits == old(db.commits) + ImportCommits(count, batchSize, truncated)
  {
    var comments: seq<CommentRow> := [];
    count, errors := 0, 0;
    ghost var flushed: seq<CommentRow>, flushes: nat := [], 0;
    for i := 0 to |lines|
      invariant Accounted(CommentRows(lines[..i], parse), flushed, comments, count, flushes, batchSize)
      invariant count + errors == i
      invariant db.comments == UpsertAll(old(db.comments), flushed, CommentKey) && db.commits == old(db.commits) + flushes
    {
      comments, count, errors, flushed, flushes :=
        ImportCommentLine(db, lines, i, parse, batchSize, comments, count, errors, flushed, flushes, old(db.comments), old(db.commits));
    }
    assert lines[..|lines|] == lines;
    Finish(CommentRows(lines, parse), flushed, comments, flushes, batchSize, truncated);
    if !truncated && |comments| > 0 {
      FlushComments(db, comments);
      UpsertAllAppend(old(db.comments), flushed, comments, CommentKey);
    }
  }

  /** A complete read writes every appended row, in `ceil(count / batch_size)`
      commits; only a reader failure loses the partial batch. */
  lemma CompleteImportWritesAll<R>(rows: seq<R>, batchSize: int)
    requires batchSize >= 1
    ensures Written(rows, batchSize, false) == rows
    ensures ImportCommits(|rows|, batchSize, false) == (|rows| + batchSize - 1) / batchSize
    ensures |Written(rows, batchSize, true)| == FullBatches(|rows|, batchSize) * batchSize
  {
    FlushesCeiling(|rows|, batchSize);
    DivMod(|rows|, batchSize);
  }

  /** Importing the same archive again leaves the submissions table as the
      first import left it exactly when no written row has a NULL id;
      a row without an id is added once more on every run. */
  lemma ReimportSubmissions(t: Table<SubmissionRow>, a: Archive, parse: string -> Parsed)
    ensures var w := Written(SubmissionRows(ReadLines(a.raw), parse), DefaultBatchSize, a.truncated);
      UpsertAll(UpsertAll(t, w, SubmissionKey), w, SubmissionKey) == UpsertAll(t, w, SubmissionKey)
      <==> forall j :: 0 <= j < |w| ==> w[j].id != Null
  {
    var w := Written(SubmissionRows(ReadLines(a.raw), parse), DefaultBatchSize, a.truncated);
    ReplayIdempotent(t, w, SubmissionKey);
  }

  lemma ReimportComments(t: Table<CommentRow>, a: Archive, parse: string -> Parsed)
    ensures var w := Written(CommentRows(ReadLines(a.raw), parse), DefaultBatchSize, a.truncated);
      UpsertAll(UpsertAll(t, w, CommentKey), w, CommentKey) == UpsertAll(t, w, CommentKey)
      <==> forall j :: 0 <= j < |w| ==> w[j].id != Null
  {
    var w := Written(CommentRows(ReadLines(a.raw), parse), DefaultBatchSize, a.truncated);
    ReplayIdempotent(t, w, CommentKey);
  }

  /** `create_database`: a new database file, its tables created empty, and
      the one commit that ends the schema statements. */
  method CreateDatabase() returns (db: Connection)
    ensures fresh(db)
    ensures db.submissions == Empty() && db.comments == Empty()
    ensures db.users == Empty() && db.usersFailed == Empty()
    ensures db.commits == 1
  {
    db := new Connection();
    db.Commit();
  }

  /** `file.endswith('_submissions.zst')` */
  predicate IsSubmissionArchive(name: string)
  {
    EndsWith(name, "_submissions.zst")
  }

  /** `elif file.endswith('_comments.zst')` */
  predicate IsCommentArchive(name: string)
  {
    !IsSubmissionArchive(name) && EndsWith(name, "_comments.zst")
  }

  /** The two suffixes exclude each other, so the `elif` only matters for
      names that end in neither. */
  lemma SuffixesExclusive(name: string)
    ensures !(EndsWith(name, "_submissions.zst") && EndsWith(name, "_comments.zst"))
  {
    if EndsWith(name, "_submissions.zst") {
      assert name[|name| - 13] == "_submissions.zst"[3] == 'b';
    }
  }

  /** The submission archives, in walk order. */
  function SubmissionArchives(files: seq<Archive>): (r: seq<Archive>)
    ensures |r| <= |files|
    ensures forall k :: 0 <= k < |r| ==> IsSubmissionArchive(r[k].name)
    decreases |files|
  {
    if files == [] then []
    else
      var f := files[|files| - 1];
      SubmissionArchives(files[..|files| - 1]) + (if IsSubmissionArchive(f.name) then [f] else [])
  }

  /** The comment archives, in walk order. */
  function CommentArchives(files: seq<Archive>): (r: seq<Archive>)
    ensures |r| <= |files|
    ensures forall k :: 0 <= k < |r| ==> IsCommentArchive(r[k].name)
    decreases |files|
  {
    if files == [] then []
    else
      var f := files[|files| - 1];
      CommentArchives(files[..|files| - 1]) + (if IsCommentArchive(f.name) then [f] else [])
  }

  /** Classification: a file goes to the submission list exactly when its
      name ends in `_submissions.zst`, to the comment list exactly when it
      ends in `_comments.zst`, never to both, and otherwise nowhere. */
  lemma {:induction false} ArchivesSpec(files: seq<Archive>)
    ensures forall f :: f in SubmissionArchives(files) <==> f in files && EndsWith(f.name, "_submissions.zst")
    ensures forall f :: f in CommentArchives(files) <==> f in files && EndsWith(f.name, "_comments.zst")
    ensures |SubmissionArchives(files)| + |CommentArchives(files)| <= |files|
    decreases |files|
  {
    if files != [] {
      var init, f := files[..|files| - 1], files[|files| - 1];
      ArchivesSpec(init);
      assert files == init + [f];
      SuffixesExclusive(f.name);
      forall g ensures g in CommentArchives(files) <==> g in files && EndsWith(g.name, "_comments.zst") {
        SuffixesExclusive(g.name);
      }
    }
  }

  /** The `os.walk` loop of `main`: sorts archive files by suffix. */
  method ClassifyArchives(files: seq<Archive>) returns (submissionFiles: seq<Archive>, commentFiles: seq<Archive>)
    ensures submissionFiles == SubmissionArchives(files)
    ensures commentFiles == CommentArchives(files)
  {
    submissionFiles, commentFiles := [], [];
    for i := 0 to |files|
      invariant submissionFiles == SubmissionArchives(files[..i])
      invariant commentFiles == CommentArchives(files[..i])
    {
      assert files[..i + 1][..i] == files[..i];
      var f := files[i];
      if EndsWith(f.name, "_submissions.zst") {
        submissionFiles := submissionFiles + [f];
      } else if EndsWith(f.name, "_comments.zst") {
        commentFiles := commentFiles + [f];
      }
    }
    assert files[..|files|] == files;
  }

  /** Submission rows written by importing `archives` one after another. */
  function SubmissionsWritten(archives: seq<Archive>, parse: string -> Parsed): seq<SubmissionRow>
    decreases |archives|
  {
    if archives == [] then []
    else
      var a := archives[|archives| - 1];
      SubmissionsWritten(archives[..|archives| - 1], parse)
      + Written(SubmissionRows(ReadLines(a.raw), parse), DefaultBatchSize, a.truncated)
  }

  /** Comment rows written by importing `archives` one after another. */
  function CommentsWritten(archives: seq<Archive>, parse: string -> Parsed): seq<CommentRow>
    decreases |archives|
  {
    if archives == [] then []
    else
      var a := archives[|archives| - 1];
      CommentsWritten(archives[..|archives| - 1], parse)
      + Written(CommentRows(ReadLines(a.raw), parse), DefaultBatchSize, a.truncated)
  }

  /** Commits made by importing submission `archives` one after another. */
  function SubmissionCommits(archives: seq<Archive>, parse: string -> Parsed): nat
    decreases |archives|
  {
    if archives == [] then 0
    else
      var a := archives[|archives| - 1];
      SubmissionCommits(archives[..|archives| - 1], parse)
      + ImportCommits(|SubmissionRows(ReadLines(a.raw), parse)|, DefaultBatchSize, a.truncated)
  }

  /** Commits made by importing comment `archives` one after another. */
  function CommentCommits(archives: seq<Archive>, parse: string -> Parsed): nat
    decreases |archives|
  {
    if archives == [] then 0
    else
      var a := archives[|archives| - 1];
      CommentCommits(archives[..|archives| - 1], parse)
      + ImportCommits(|CommentRows(ReadLines(a.raw), parse)|, DefaultBatchSize, a.truncated)
  }

  lemma SubmissionArchivesStep(archives: seq<Archive>, i: nat, parse: string -> Parsed)
    requires i < |archives|
    ensures var a, rows := archives[i], SubmissionRows(ReadLines(archives[i].raw), parse);
      && SubmissionsWritten(archives[..i + 1], parse)
         == SubmissionsWritten(archives[..i], parse) + Written(rows, DefaultBatchSize, a.truncated)
      && SubmissionCommits(archives[..i + 1], parse)
         == SubmissionCommits(archives[..i], parse) + ImportCommits(|rows|, DefaultBatchSize, a.truncated)
  {
    assert archives[..i + 1][..i] == archives[..i];
  }

  lemma CommentArchivesStep(archives: seq<Archive>, i: nat, parse: string -> Parsed)
    requires i < |archives|
    ensures var a, rows := archives[i], CommentRows(ReadLines(archives[i].raw), parse);
      && CommentsWritten(archives[..i + 1], parse)
         == CommentsWritten(archives[..i], parse) + Written(rows, DefaultBatchSize, a.truncated)
      && CommentCommits(archives[..i + 1], parse)
         == CommentCommits(archives[..i], parse) + ImportCommits(|rows|, DefaultBatchSize, a.truncated)
  {
    assert archives[..i + 1][..i] == archives[..i];
  }

  /** The loop of `main` over the submission files. */
  method ImportSubmissionArchives(db: Connection, archives: seq<Archive>, parse: string -> Parsed)
    modifies db`submissions, db`commits
    ensures db.submissions == UpsertAll(old(db.submissions), SubmissionsWritten(archives, parse), SubmissionKey)
    ensures db.commits == old(db.commits) + SubmissionCommits(archives, parse)
  {
    for i := 0 to |archives|
      invariant db.submissions == UpsertAll(old(db.submissions), SubmissionsWritten(archives[..i], parse), SubmissionKey)
      invariant db.commits == old(db.commits) + SubmissionCommits(archives[..i], parse)
    {
      var a := archives[i];
      SubmissionArchivesStep(archives, i, parse);
      var count, errors := ImportSubmissions(db, ReadLines(a.raw), a.truncated, parse, DefaultBatchSize);
      UpsertAllAppend(old(db.submissions), SubmissionsWritten(archives[..i], parse),
        Written(SubmissionRows(ReadLines(a.raw), parse), DefaultBatchSize, a.truncated), SubmissionKey);
    }
    assert archives[..|archives|] == archives;
  }

  /** The loop of `main` over the comment files. */
  method ImportCommentArchives(db: Connection, archives: seq<Archive>, parse: string -> Parsed)
    modifies db`comments, db`commits
    ensures db.comments == UpsertAll(old(db.comments), CommentsWritten(archives, parse), CommentKey)
    ensures db.commits == old(db.commits) + CommentCommits(archives, parse)
  {
    for i := 0 to |archives|
      invariant db.comments == UpsertAll(old(db.comments), CommentsWritten(archives[..i], parse), CommentKey)
      invariant db.commits == old(db.commits) + CommentCommits(archives[..i], parse)
    {
      var a := archives[i];
      CommentArchivesStep(archives, i, parse);
      var count, errors := ImportComments(db, ReadLines(a.raw), a.truncated, parse, DefaultBatchSize);
      UpsertAllAppend(old(db.comments), CommentsWritten(archives[..i], parse),
        Written(CommentRows(ReadLines(a.raw), parse), DefaultBatchSize, a.truncated), CommentKey);
    }
    assert archives[..|archives|] == archives;
  }

  /** `main` of the importer, after the database is open: every submission
      archive is imported, then every comment archive; other files are
      ignored. */
  method RunImport(db: Connection, files: seq<Archive>, parse: string -> Parsed)
    modifies db`submissions, db`comments, db`commits
    ensures db.submissions == UpsertAll(old(db.submissions), SubmissionsWritten(SubmissionArchives(files), parse), SubmissionKey)
    ensures db.comments == UpsertAll(old(db.comments), CommentsWritten(CommentArchives(files), parse), CommentKey)
    ensures db.commits == old(db.commits)
      + SubmissionCommits(SubmissionArchives(files), parse) + CommentCommits(CommentArchives(files), parse)
  {
    var submissionFiles, commentFiles := ClassifyArchives(files);
    ImportSubmissionArchives(db, submissionFiles, parse);
    ImportCommentArchives(db, commentFiles, parse);
  }
}
