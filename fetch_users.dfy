/** The user fetcher: collects the distinct authors of the imported posts,
    resolves every name not seen before through the Reddit API, and stores a
    profile or a failure row for it, in batches. */
module FetchUsers {
  import opened Json
  import opened Schema
  import opened Store
  import opened Batching

  /** `BATCH_SIZE`: outcomes per commit. */
  const BatchSize := 100

  /** The author recorded for a deleted post or comment. */
  const Deleted: Value := Str("[deleted]")

  /** Every author of a submission or a comment, each once
      (`SELECT DISTINCT author FROM (... UNION ...)`). */
  function Authors(submissions: Table<SubmissionRow>, comments: Table<CommentRow>): set<Value>
  {
    Column(submissions, SubmissionAuthor) + Column(comments, CommentAuthor)
  }

  /** `get_unique_users`: the distinct authors except `[deleted]`, in the
      order the query returns them (which SQL leaves unspecified). A NULL
      author is kept, since it is not equal to the placeholder. */
  method UniqueUsers(db: Connection) returns (usernames: seq<Value>)
    ensures forall u :: u in usernames <==> u in Authors(db.submissions, db.comments) && u != Deleted
    ensures forall i, j :: 0 <= i < j < |usernames| ==> usernames[i] != usernames[j]
  {
    var rows := Authors(db.submissions, db.comments);
    usernames := [];
    while rows != {}
      invariant rows <= Authors(db.submissions, db.comments)
      invariant forall u :: u in usernames <==> u in Authors(db.submissions, db.comments) - rows && u != Deleted
      invariant forall i, j :: 0 <= i < j < |usernames| ==> usernames[i] != usernames[j]
      decreases |rows|
    {
      var u :| u in rows;
      if u != Deleted {
        assert u !in usernames;
        usernames := usernames + [u];
      }
      rows := rows - {u};
    }
  }

  /** `usernames_to_fetch`: the names neither stored nor failed before, in
      their original order. */
  function ToFetch(names: seq<Value>, existing: set<Value>, failed: set<Value>): (r: seq<Value>)
    ensures forall u :: u in r <==> u in names && u !in existing && u !in failed
    ensures |r| <= |names|
    decreases |names|
  {
    if names == [] then []
    else
      var u := names[|names| - 1];
      assert names == names[..|names| - 1] + [u];
      ToFetch(names[..|names| - 1], existing, failed) + (if u !in existing && u !in failed then [u] else [])
  }

  /** Distinct names stay distinct, so no name is fetched twice in a run. */
  lemma {:induction false} ToFetchDistinct(names: seq<Value>, existing: set<Value>, failed: set<Value>)
    requires forall i, j :: 0 <= i < j < |names| ==> names[i] != names[j]
    ensures var r := ToFetch(names, existing, failed);
      forall i, j :: 0 <= i < j < |r| ==> r[i] != r[j]
    decreases |names|
  {
    if names != [] {
      var init, u := names[..|names| - 1], names[|names| - 1];
      ToFetchDistinct(init, existing, failed);
      assert u !in init;
      assert u !in ToFetch(init, existing, failed);
    }
  }

  /** With nothing stored or failed yet, every name is fetched, in order. */
  lemma {:induction false} ToFetchAllNew(names: seq<Value>, existing: set<Value>, failed: set<Value>)
    requires forall u :: u in names ==> u !in existing && u !in failed
    ensures ToFetch(names, existing, failed) == names
    decreases |names|
  {
    if names != [] {
      var init, u := names[..|names| - 1], names[|names| - 1];
      forall v | v in init
        ensures v !in existing && v !in failed
      {
        var k :| 0 <= k < |init| && init[k] == v;
        assert names[k] == v;
      }
      ToFetchAllNew(init, existing, failed);
      assert names == init + [u];
    }
  }

  /** What resolving one name through the API gives: the profile's
      attributes, or the exception it raised, as `str(e)`. */
  datatype Fetch = Fetched(attrs: Record) | Raised(message: string)

  /** What the loop appends for one name: a profile row, a failure because
      the profile has no id, or a failure because the API raised. */
  datatype Outcome = Added(row: UserRow) | NoId(failure: FailedRow) | Errored(failure: FailedRow)

  /** `getattr(profile_subreddit, name, None)`: a field of the profile's
      subreddit object, or `None`. */
  function SubredditAttr(sub: Value, name: string): Value
  {
    if sub.Obj? && name in sub.fields then sub.fields[name] else Null
  }

  /** The body of the `try` for one name, stamped with the time `now`. */
  function Classify(name: Value, fetch: Fetch, now: int): (o: Outcome)
    ensures o.Errored? <==> fetch.Raised?
    ensures o.Added? <==> fetch.Fetched? && Truthy(Get(fetch.attrs, "id"))
    ensures o.Added? ==> o.row.id == Get(fetch.attrs, "id") && Truthy(o.row.id)
    ensures o.Added? ==> o.row.username == name && o.row.retrievedOn == now
    ensures o.NoId? ==> o.failure == FailedRow(name, "suspended_or_none", now)
    ensures o.Errored? ==> o.failure == FailedRow(name, fetch.message, now)
  {
    match fetch
    case Raised(message) => Errored(FailedRow(name, message, now))
    case Fetched(attrs) =>
      var id := Get(attrs, "id");
      if !Truthy(id) then NoId(FailedRow(name, "suspended_or_none", now))
      else
        Added(Profile(id, name, attrs, now))
  }

  /** The tuple appended to `batch_success` for a profile with a truthy id. */
  function Profile(id: Value, name: Value, attrs: Record, now: int): (u: UserRow)
    ensures UserKey(u) == id && UserName(u) == name && u.retrievedOn == now
    ensures "is_suspended" !in attrs ==> u.isSuspended == Bool(false)
    ensures !Truthy(Get(attrs, "subreddit")) ==> u.profileName == Null && u.profileDescription == Null
  {
    var sub := Get(attrs, "subreddit");
    UserRow(
      id, name,
      Get(attrs, "created_utc"), Get(attrs, "comment_karma"), Get(attrs, "link_karma"),
      Get(attrs, "is_mod"), GetOr(attrs, "is_suspended", Bool(false)),
      if Truthy(sub) then SubredditAttr(sub, "display_name") else Null,
      if Truthy(sub) then SubredditAttr(sub, "public_description") else Null,
      now)
  }

  /** Missing profile data is stored as NULL, except the suspension flag,
      which reads as false; a profile without a subreddit has neither a
      display name nor a description. */
  lemma ClassifyDefaults(name: Value, attrs: Record, now: int)
    requires Truthy(Get(attrs, "id"))
    ensures var o := Classify(name, Fetched(attrs), now);
      && o.Added?
      && ("created_utc" !in attrs ==> o.row.createdUtc == Null)
      && ("comment_karma" !in attrs ==> o.row.commentKarma == Null)
      && ("link_karma" !in attrs ==> o.row.linkKarma == Null)
      && ("is_mod" !in attrs ==> o.row.isMod == Null)
      && ("is_suspended" !in attrs ==> o.row.isSuspended == Bool(false))
      && (!Truthy(Get(attrs, "subreddit")) ==> o.row.profileName == Null && o.row.profileDescription == Null)
  {
  }

  /** The name an outcome is recorded under. */
  function OutcomeName(o: Outcome): Value
  {
    match o
    case Added(row) => row.username
    case NoId(failure) => failure.username
    case Errored(failure) => failure.username
  }

  /** The outcomes of the loop over `names`, in order; the `i`-th name
      (counting from 1, as `enumerate(..., start=1)` does) is stamped
      `clock(i)`. Each outcome is recorded under its own name, and a
      profile is only ever added with a truthy id. */
  function Outcomes(names: seq<Value>, lookup: Value -> Fetch, clock: nat -> int): (outs: seq<Outcome>)
    ensures |outs| == |names|
    ensures forall i :: 0 <= i < |outs| ==> OutcomeName(outs[i]) == names[i]
    ensures forall i :: 0 <= i < |outs| && outs[i].Added? ==> Truthy(outs[i].row.id)
    decreases |names|
  {
    if names == [] then []
    else
      var u := names[|names| - 1];
      Outcomes(names[..|names| - 1], lookup, clock) + [Classify(u, lookup(u), clock(|names|))]
  }

  lemma OutcomesStep(names: seq<Value>, i: nat, lookup: Value -> Fetch, clock: nat -> int)
    requires i < |names|
    ensures Outcomes(names[..i + 1], lookup, clock)
      == Outcomes(names[..i], lookup, clock) + [Classify(names[i], lookup(names[i]), clock(i + 1))]
  {
    assert names[..i + 1][..i] == names[..i];
  }

  function Names(outs: seq<Outcome>): seq<Value>
  {
    seq(|outs|, i requires 0 <= i < |outs| => OutcomeName(outs[i]))
  }

  function UserNames(rows: seq<UserRow>): seq<Value>
  {
    seq(|rows|, i requires 0 <= i < |rows| => rows[i].username)
  }

  function FailedNames(rows: seq<FailedRow>): seq<Value>
  {
    seq(|rows|, i requires 0 <= i < |rows| => rows[i].username)
  }

  /** What one outcome adds to `batch_success` and to `batch_failed`. */
  function SuccessOf(o: Outcome): seq<UserRow>
  {
    if o.Added? then [o.row] else []
  }

  function FailureOf(o: Outcome): seq<FailedRow>
  {
    if o.Added? then [] else [o.failure]
  }

  /** The rows appended to `batch_success`, in order. */
  function Successes(outs: seq<Outcome>): seq<UserRow>
    decreases |outs|
  {
    if outs == [] then []
    else
      Successes(outs[..|outs| - 1]) + SuccessOf(outs[|outs| - 1])
  }

  /** The rows appended to `batch_failed`, in order. */
  function Failures(outs: seq<Outcome>): seq<FailedRow>
    decreases |outs|
  {
    if outs == [] then []
    else
      Failures(outs[..|outs| - 1]) + FailureOf(outs[|outs| - 1])
  }

  /** Every fetched name gets exactly one row: a profile or a failure. */
  lemma {:induction false} Partition(outs: seq<Outcome>)
    ensures |Successes(outs)| + |Failures(outs)| == |outs|
    ensures multiset(UserNames(Successes(outs))) + multiset(FailedNames(Failures(outs))) == multiset(Names(outs))
    decreases |outs|
  {
    if outs != [] {
      var init, o := outs[..|outs| - 1], outs[|outs| - 1];
      Partition(init);
      assert outs == init + [o];
      NamesAppend(init, [o]);
      UserNamesAppend(Successes(init), SuccessOf(o));
      FailedNamesAppend(Failures(init), FailureOf(o));
      OneName(o);
    }
  }

  lemma OneName(o: Outcome)
    ensures |SuccessOf(o)| + |FailureOf(o)| == 1
    ensures multiset(UserNames(SuccessOf(o))) + multiset(FailedNames(FailureOf(o))) == multiset(Names([o]))
  {
    assert Names([o]) == [OutcomeName(o)];
    if o.Added? {
      assert UserNames(SuccessOf(o)) == [o.row.username];
    } else {
      assert FailedNames(FailureOf(o)) == [o.failure.username];
    }
  }

  lemma NamesAppend(a: seq<Outcome>, b: seq<Outcome>)
    ensures Names(a + b) == Names(a) + Names(b)
  {
  }

  lemma UserNamesAppend(a: seq<UserRow>, b: seq<UserRow>)
    ensures UserNames(a + b) == UserNames(a) + UserNames(b)
  {
  }

  lemma FailedNamesAppend(a: seq<FailedRow>, b: seq<FailedRow>)
    ensures FailedNames(a + b) == FailedNames(a) + FailedNames(b)
  {
  }

  /** Every stored profile has a truthy, hence non-NULL, id. */
  lemma {:induction false} AddedIds(outs: seq<Outcome>)
    requires forall i :: 0 <= i < |outs| && outs[i].Added? ==> Truthy(outs[i].row.id)
    ensures forall j :: 0 <= j < |Successes(outs)| ==> Truthy(Successes(outs)[j].id)
    decreases |outs|
  {
    if outs != [] {
      AddedIds(outs[..|outs| - 1]);
    }
  }

  /** Bookkeeping of the flush check: batches committed by the threshold so
      far, and outcomes waiting in the two lists together. */
  datatype Batches = Batches(flushed: nat, pending: nat)

  /** One more outcome. A name without an id `continue`s past the check, so
      only a profile or an error can trigger a flush. */
  function Advance(b: Batches, o: Outcome): (a: Batches)
    ensures a.flushed == b.flushed + 1 <==> !o.NoId? && b.pending + 1 >= BatchSize
    ensures a.flushed == b.flushed + 1 ==> a.pending == 0
    ensures a.flushed != b.flushed + 1 ==> a.flushed == b.flushed && a.pending == b.pending + 1
  {
    if o.NoId? then Batches(b.flushed, b.pending + 1)
    else if b.pending + 1 >= BatchSize then Batches(b.flushed + 1, 0)
    else Batches(b.flushed, b.pending + 1)
  }

  function Track(outs: seq<Outcome>): (t: Batches)
    ensures t.pending <= |outs|
    decreases |outs|
  {
    if outs == [] then Batches(0, 0) else Advance(Track(outs[..|outs| - 1]), outs[|outs| - 1])
  }

  /** `batch_count` at the end: the threshold flushes and a final flush of
      whatever is left. */
  function BatchCount(outs: seq<Outcome>): (c: nat)
    ensures outs != [] ==> c >= 1
    ensures c <= |outs|
  {
    TrackBound(outs);
    Track(outs).flushed + (if Track(outs).pending > 0 then 1 else 0)
  }

  /** The threshold flushes and the pending outcomes together account for
      no more than the outcomes seen: each threshold flush takes at least
      `BatchSize` of them (see `TrackStep`). */
  lemma {:induction false} TrackBound(outs: seq<Outcome>)
    ensures Track(outs).flushed * BatchSize + Track(outs).pending <= |outs|
    decreases |outs|
  {
    if outs != [] {
      TrackBound(outs[..|outs| - 1]);
    }
  }

  /** One more outcome triggers a threshold flush exactly when it is a
      profile or an error that brings the lists to `BatchSize`; that flush
      writes every pending outcome and this one, at least `BatchSize` in
      all, and empties the lists. Otherwise the outcome only waits. */
  lemma TrackStep(outs: seq<Outcome>, o: Outcome)
    ensures Track(outs + [o]).flushed > Track(outs).flushed <==> !o.NoId? && Track(outs).pending + 1 >= BatchSize
    ensures Track(outs + [o]).flushed > Track(outs).flushed ==>
      Track(outs + [o]).flushed == Track(outs).flushed + 1 && Track(outs + [o]).pending == 0
    ensures Track(outs + [o]).flushed <= Track(outs).flushed ==>
      Track(outs + [o]).flushed == Track(outs).flushed && Track(outs + [o]).pending == Track(outs).pending + 1
  {
    assert (outs + [o])[..|outs|] == outs;
  }

  /** When every name resolves to a profile or an error, the batches are
      exactly those of a plain threshold writer: `ceil(n / 100)` commits. */
  lemma {:induction false} TrackPlain(outs: seq<Outcome>)
    requires forall i :: 0 <= i < |outs| ==> !outs[i].NoId?
    ensures Track(outs) == Batches(FullBatches(|outs|, BatchSize), Remainder(|outs|, BatchSize))
    ensures BatchCount(outs) == (|outs| + BatchSize - 1) / BatchSize
    decreases |outs|
  {
    if outs != [] {
      TrackPlain(outs[..|outs| - 1]);
      Step(|outs| - 1, BatchSize);
    }
    FlushesCeiling(|outs|, BatchSize);
  }

  /** Names without an id never trigger a flush: a run of them piles up in
      the pending batch, past `BatchSize` if it is long enough. */
  lemma {:induction false} TrackNoIdRun(outs: seq<Outcome>, more: seq<Outcome>)
    requires forall i :: 0 <= i < |more| ==> more[i].NoId?
    ensures Track(outs + more) == Batches(Track(outs).flushed, Track(outs).pending + |more|)
    decreases |more|
  {
    if more == [] {
      assert outs + more == outs;
    } else {
      TrackNoIdRun(outs, more[..|more| - 1]);
      assert (outs + more)[..|outs + more| - 1] == outs + more[..|more| - 1];
    }
  }

  /** One hundred and fifty names without an id are committed in one batch
      of one hundred and fifty rows. */
  lemma OversizedBatch(f: FailedRow)
    ensures var outs := seq(150, _ => NoId(f));
      Track(outs) == Batches(0, 150) && BatchCount(outs) == 1
  {
    var outs := seq(150, _ => NoId(f));
    TrackNoIdRun([], outs);
    assert [] + outs == outs;
  }

  /** The state of the two lists between names: the outcomes so far are
      the rows already written followed by the rows waiting, and the
      waiting rows are what the flush check has left over. */
  ghost predicate Buffered(outs: seq<Outcome>, storedSuccess: seq<UserRow>, batchSuccess: seq<UserRow>,
                           storedFailed: seq<FailedRow>, batchFailed: seq<FailedRow>, batchCount: nat)
  {
    && Successes(outs) == storedSuccess + batchSuccess
    && Failures(outs) == storedFailed + batchFailed
    && Track(outs) == Batches(batchCount, |batchSuccess| + |batchFailed|)
  }

  /** An outcome that does not flush waits in its list. */
  lemma Buffer(outs: seq<Outcome>, storedSuccess: seq<UserRow>, batchSuccess: seq<UserRow>,
               storedFailed: seq<FailedRow>, batchFailed: seq<FailedRow>, batchCount: nat, o: Outcome)
    requires Buffered(outs, storedSuccess, batchSuccess, storedFailed, batchFailed, batchCount)
    requires o.NoId? || |batchSuccess| + |batchFailed| + 1 < BatchSize
    ensures Buffered(outs + [o], storedSuccess, batchSuccess + SuccessOf(o),
                     storedFailed, batchFailed + FailureOf(o), batchCount)
  {
    assert (outs + [o])[..|outs|] == outs;
    assert storedSuccess + batchSuccess + SuccessOf(o) == storedSuccess + (batchSuccess + SuccessOf(o));
    assert storedFailed + batchFailed + FailureOf(o) == storedFailed + (batchFailed + FailureOf(o));
  }

  /** A profile or an error that brings the lists to `BatchSize` flushes
      both of them. */
  lemma Flush(outs: seq<Outcome>, storedSuccess: seq<UserRow>, batchSuccess: seq<UserRow>,
              storedFailed: seq<FailedRow>, batchFailed: seq<FailedRow>, batchCount: nat, o: Outcome)
    requires Buffered(outs, storedSuccess, batchSuccess, storedFailed, batchFailed, batchCount)
    requires !o.NoId? && |batchSuccess| + |batchFailed| + 1 >= BatchSize
    ensures Buffered(outs + [o], storedSuccess + (batchSuccess + SuccessOf(o)), [],
                     storedFailed + (batchFailed + FailureOf(o)), [], batchCount + 1)
  {
    assert (outs + [o])[..|outs|] == outs;
    assert storedSuccess + batchSuccess + SuccessOf(o) == storedSuccess + (batchSuccess + SuccessOf(o)) + [];
    assert storedFailed + batchFailed + FailureOf(o) == storedFailed + (batchFailed + FailureOf(o)) + [];
  }

  /** The write both flushes perform: the profiles into `reddit_users` and
      the failures into `reddit_users_failed`, each only when its list is
      not empty, then one commit. */
  method WriteBatch(db: Connection, batchSuccess: seq<UserRow>, batchFailed: seq<FailedRow>)
    modifies db`users, db`usersFailed, db`commits
    ensures db.users == UpsertAll(old(db.users), batchSuccess, UserKey)
    ensures db.usersFailed == UpsertAll(old(db.usersFailed), batchFailed, FailedKey)
    ensures db.commits == old(db.commits) + 1
  {
    if batchSuccess != [] {
      db.ReplaceIntoUsers(batchSuccess);
    }
    if batchFailed != [] {
      db.ReplaceIntoUsersFailed(batchFailed);
    }
    db.Commit();
  }

  /** One pass of the loop of `fetch_and_store_users`: the name's outcome
      joins its list; a name without an id skips the flush check, any other
      outcome that brings the two lists to `BatchSize` writes and commits
      both. */
  method FetchUser(db: Connection, toFetch: seq<Value>, i: nat, lookup: Value -> Fetch, clock: nat -> int,
                   batchSuccess: seq<UserRow>, batchFailed: seq<FailedRow>, batchCount: nat,
                   additions: nat, errors: nat, skipped: nat, ghost storedSuccess: seq<UserRow>, ghost storedFailed: seq<FailedRow>,
                   ghost baseUsers: Table<UserRow>, ghost baseFailed: Table<FailedRow>, ghost baseCommits: nat)
    returns (successOut: seq<UserRow>, failedOut: seq<FailedRow>, countOut: nat,
             additionsOut: nat, errorsOut: nat, skippedOut: nat, ghost storedSuccessOut: seq<UserRow>, ghost storedFailedOut: seq<FailedRow>)
    requires i < |toFetch|
    requires additions == |batchSuccess| && skipped + errors == |batchFailed|
    requires Buffered(Outcomes(toFetch[..i], lookup, clock), storedSuccess, batchSuccess, storedFailed, batchFailed, batchCount)
    requires db.users == UpsertAll(baseUsers, storedSuccess, UserKey)
    requires db.usersFailed == UpsertAll(baseFailed, storedFailed, FailedKey)
    requires db.commits == baseCommits + batchCount
    modifies db`users, db`usersFailed, db`commits
    ensures additionsOut == |successOut| && skippedOut + errorsOut == |failedOut|
    ensures Buffered(Outcomes(toFetch[..i + 1], lookup, clock), storedSuccessOut, successOut, storedFailedOut, failedOut, countOut)
    ensures db.users == UpsertAll(baseUsers, storedSuccessOut, UserKey)
    ensures db.usersFailed == UpsertAll(baseFailed, storedFailedOut, FailedKey)
    ensures db.commits == baseCommits + countOut
  {
    var username := toFetch[i];
    var outcome := Classify(username, lookup(username), clock(i + 1));
    OutcomesStep(toFetch, i, lookup, clock);
    ghost var done := Outcomes(toFetch[..i], lookup, clock);
    successOut, failedOut, countOut := batchSuccess, batchFailed, batchCount;
    additionsOut, errorsOut, skippedOut := additions, errors, skipped;
    storedSuccessOut, storedFailedOut := storedSuccess, storedFailed;
    if outcome.NoId? {
      failedOut := batchFailed + [outcome.failure];
      skippedOut := skipped + 1;
      Buffer(done, storedSuccess, batchSuccess, storedFailed, batchFailed, batchCount, outcome);
      return;
    } else if outcome.Added? {
      successOut := batchSuccess + [outcome.row];
      additionsOut := additions + 1;
    } else {
      failedOut := batchFailed + [outcome.failure];
      errorsOut := errors + 1;
    }
    if |successOut| + |failedOut| >= BatchSize {
      Flush(done, storedSuccess, batchSuccess, storedFailed, batchFailed, batchCount, outcome);
      WriteBatch(db, successOut, failedOut);
      UpsertAllAppend(baseUsers, storedSuccess, successOut, UserKey);
      UpsertAllAppend(baseFailed, storedFailed, failedOut, FailedKey);
      countOut := batchCount + 1;
      storedSuccessOut, storedFailedOut := storedSuccess + successOut, storedFailed + failedOut;
      successOut, failedOut := [], [];
      additionsOut, errorsOut, skippedOut := 0, 0, 0;
    } else {
      Buffer(done, storedSuccess, batchSuccess, storedFailed, batchFailed, batchCount, outcome);
    }
  }

  /** `fetch_and_store_users`: skips known names, resolves the rest one by
      one, and writes profiles and failures together whenever the two
      lists hold `BatchSize` outcomes, then once more at the end. */
  method FetchAndStoreUsers(db: Connection, usernames: seq<Value>, lookup: Value -> Fetch, clock: nat -> int)
    returns (removedCount: nat, batchCount: nat)
    modifies db`users, db`usersFailed, db`commits
    ensures var toFetch := ToFetch(usernames, Column(old(db.users), UserName), Column(old(db.usersFailed), FailedName));
      var outs := Outcomes(toFetch, lookup, clock);
      && removedCount == |usernames| - |toFetch|
      && db.users == UpsertAll(old(db.users), Successes(outs), UserKey)
      && db.usersFailed == UpsertAll(old(db.usersFailed), Failures(outs), FailedKey)
      && batchCount == BatchCount(outs)
      && db.commits == old(db.commits) + batchCount
  {
    var existing := Column(db.users, UserName);
    var failed := Column(db.usersFailed, FailedName);
    var toFetch := ToFetch(usernames, existing, failed);
    removedCount := |usernames| - |toFetch|;
    var batchSuccess: seq<UserRow>, batchFailed: seq<FailedRow> := [], [];
    batchCount := 0;
    var additions, errors, skipped := 0, 0, 0;
    ghost var storedSuccess: seq<UserRow>, storedFailed: seq<FailedRow> := [], [];
    for i := 0 to |toFetch|
      invariant Buffered(Outcomes(toFetch[..i], lookup, clock), storedSuccess, batchSuccess, storedFailed, batchFailed, batchCount)
      invariant additions == |batchSuccess| && skipped + errors == |batchFailed|
      invariant db.users == UpsertAll(old(db.users), storedSuccess, UserKey)
      invariant db.usersFailed == UpsertAll(old(db.usersFailed), storedFailed, FailedKey)
      invariant db.commits == old(db.commits) + batchCount
    {
      batchSuccess, batchFailed, batchCount, additions, errors, skipped, storedSuccess, storedFailed :=
        FetchUser(db, toFetch, i, lookup, clock, batchSuccess, batchFailed, batchCount, additions, errors, skipped,
                  storedSuccess, storedFailed, old(db.users), old(db.usersFailed), old(db.commits));
    }
    assert toFetch[..|toFetch|] == toFetch;
    if batchSuccess != [] || batchFailed != [] {
      WriteBatch(db, batchSuccess, batchFailed);
      UpsertAllAppend(old(db.users), storedSuccess, batchSuccess, UserKey);
      UpsertAllAppend(old(db.usersFailed), storedFailed, batchFailed, FailedKey);
      batchCount := batchCount + 1;
    } else {
      assert storedSuccess + batchSuccess == storedSuccess;
      assert storedFailed + batchFailed == storedFailed;
    }
  }

  /** No two profiles share an id. */
  predicate DistinctIds(s: seq<UserRow>)
  {
    forall i, j :: 0 <= i < j < |s| ==> s[i].id != s[j].id
  }

  /** After a run every fetched name is on record, so a later run skips it:
      a failure is always kept (under its name, or as a row of its own when
      the name is NULL), and a profile is kept as long as no other profile
      of the run shares its id. */
  lemma FetchedOnRecord(users: Table<UserRow>, failed: Table<FailedRow>, names: seq<Value>,
                        lookup: Value -> Fetch, clock: nat -> int, again: seq<Value>)
    requires DistinctIds(Successes(Outcomes(names, lookup, clock)))
    ensures var outs := Outcomes(names, lookup, clock);
      var users' := UpsertAll(users, Successes(outs), UserKey);
      var failed' := UpsertAll(failed, Failures(outs), FailedKey);
      && (forall u :: u in names ==> u in Column(users', UserName) || u in Column(failed', FailedName))
      && (forall u :: u in ToFetch(again, Column(users', UserName), Column(failed', FailedName)) ==> u !in names)
  {
    var outs := Outcomes(names, lookup, clock);
    var s, f := Successes(outs), Failures(outs);
    var users', failed' := UpsertAll(users, s, UserKey), UpsertAll(failed, f, FailedKey);
    assert Names(outs) == names;
    Partition(outs);
    AddedIds(outs);
    forall u | u in names
      ensures u in Column(users', UserName) || u in Column(failed', FailedName)
    {
      assert u in multiset(Names(outs));
      OnRecord(users, failed, s, f, u);
    }
  }

  /** A name carried by one of the written rows is found in its table. */
  lemma OnRecord(users: Table<UserRow>, failed: Table<FailedRow>, s: seq<UserRow>, f: seq<FailedRow>, u: Value)
    requires u in multiset(UserNames(s)) + multiset(FailedNames(f))
    requires forall j :: 0 <= j < |s| ==> Truthy(s[j].id)
    requires DistinctIds(s)
    ensures u in Column(UpsertAll(users, s, UserKey), UserName) || u in Column(UpsertAll(failed, f, FailedKey), FailedName)
  {
    if u in UserNames(s) {
      var j :| 0 <= j < |s| && UserNames(s)[j] == u;
      assert Truthy(s[j].id);
      ProfileOnRecord(users, s, j);
    } else {
      assert u in FailedNames(f);
      var j :| 0 <= j < |f| && FailedNames(f)[j] == u;
      FailureOnRecord(failed, f, j);
    }
  }

  /** A profile whose id no later profile reuses keeps its username in the table. */
  lemma ProfileOnRecord(users: Table<UserRow>, s: seq<UserRow>, j: nat)
    requires j < |s| && s[j].id != Null
    requires forall k :: j < k < |s| ==> s[k].id != s[j].id
    ensures s[j].username in Column(UpsertAll(users, s, UserKey), UserName)
  {
    UpsertAllSplit(users, s, UserKey);
    WritesLastWins(s, UserKey, j);
    var users' := UpsertAll(users, s, UserKey);
    assert users'.keyed[s[j].id] == s[j];
  }

  /** A failure always leaves its name in the table. */
  lemma FailureOnRecord(failed: Table<FailedRow>, f: seq<FailedRow>, j: nat)
    requires j < |f|
    ensures f[j].username in Column(UpsertAll(failed, f, FailedKey), FailedName)
  {
    UpsertAllSplit(failed, f, FailedKey);
    var failed' := UpsertAll(failed, f, FailedKey);
    var u := f[j].username;
    if u == Null {
      NullKeyedHas(f, FailedKey, j);
      var k :| 0 <= k < |NullKeyed(f, FailedKey)| && NullKeyed(f, FailedKey)[k] == f[j];
      assert failed'.unkeyed[|failed.unkeyed| + k] == f[j];
    } else {
      WritesHas(f, FailedKey, j);
      assert FailedName(failed'.keyed[u]) == u;
    }
  }

  /** `main` of the fetcher, once the tables exist (`create_users_tables`
      commits once): the unique authors are collected and fetched. */
  method RunFetch(db: Connection, lookup: Value -> Fetch, clock: nat -> int) returns (usernames: seq<Value>)
    modifies db`users, db`usersFailed, db`commits
    ensures forall u :: u in usernames <==> u in Authors(db.submissions, db.comments) && u != Deleted
    ensures var toFetch := ToFetch(usernames, Column(old(db.users), UserName), Column(old(db.usersFailed), FailedName));
      var outs := Outcomes(toFetch, lookup, clock);
      && db.users == UpsertAll(old(db.users), Successes(outs), UserKey)
      && db.usersFailed == UpsertAll(old(db.usersFailed), Failures(outs), FailedKey)
      && db.commits == old(db.commits) + 1 + BatchCount(outs)
  {
    db.Commit();
    usernames := UniqueUsers(db);
    var removedCount, batchCount := FetchAndStoreUsers(db, usernames, lookup, clock);
  }
}
