/** The relational store: each table is a set of rows under `INSERT OR REPLACE`
    keyed by its primary key, and the connection holds the four tables. */
module Store {
  import opened Json
  import opened Schema

  /** A table whose primary key is a TEXT column. SQLite lets such a key be
      NULL, and no two NULL keys conflict, so every row with a NULL key is a
      row of its own (`unkeyed`); every other row sits under its key. */
  datatype Table<R> = Table(keyed: map<Value, R>, unkeyed: seq<R>)

  function Empty<R>(): Table<R>
  {
    Table(map[], [])
  }

  /** `INSERT OR REPLACE` of one row: a row with a non-NULL key replaces the
      whole row under that key; a row with a NULL key is added. */
  function Upsert<R>(t: Table<R>, row: R, key: R -> Value): (u: Table<R>)
    ensures key(row) != Null ==> key(row) in u.keyed && u.keyed[key(row)] == row && u.unkeyed == t.unkeyed
    ensures key(row) == Null ==> u.keyed == t.keyed && u.unkeyed == t.unkeyed + [row]
    ensures RowCount(t) <= RowCount(u) <= RowCount(t) + 1
  {
    if key(row) == Null then t.(unkeyed := t.unkeyed + [row])
    else t.(keyed := t.keyed[key(row) := row])
  }

  /** `executemany` of `INSERT OR REPLACE` over `rows`, in order. No row is
      ever deleted: every key stays, every NULL-keyed row stays in place, and
      each written row adds at most one row. */
  function UpsertAll<R>(t: Table<R>, rows: seq<R>, key: R -> Value): (u: Table<R>)
    ensures RowCount(t) <= RowCount(u) <= RowCount(t) + |rows|
    decreases |rows|
  {
    if rows == [] then t else UpsertAll(Upsert(t, rows[0], key), rows[1..], key)
  }

  /** The keyed rows a sequence of writes leaves behind on its own: for each
      non-NULL key, the last row written with it. */
  function Writes<R>(rows: seq<R>, key: R -> Value): (w: map<Value, R>)
    ensures Null !in w
    ensures forall k :: k in w ==> key(w[k]) == k
    decreases |rows|
  {
    if rows == [] then map[]
    else if key(rows[0]) == Null then Writes(rows[1..], key)
    else map[key(rows[0]) := rows[0]] + Writes(rows[1..], key)
  }

  /** The rows of a sequence whose key is NULL, in order. */
  function NullKeyed<R>(rows: seq<R>, key: R -> Value): (n: seq<R>)
    ensures |n| <= |rows|
    ensures forall i :: 0 <= i < |n| ==> key(n[i]) == Null
    decreases |rows|
  {
    if rows == [] then []
    else (if key(rows[0]) == Null then [rows[0]] else []) + NullKeyed(rows[1..], key)
  }

  /** `SELECT col FROM t`, as a set. */
  function Column<R>(t: Table<R>, col: R -> Value): set<Value>
  {
    (set k | k in t.keyed :: col(t.keyed[k])) + (set i | 0 <= i < |t.unkeyed| :: col(t.unkeyed[i]))
  }

  /** Number of rows in the table (`SELECT COUNT(*)`). */
  function RowCount<R>(t: Table<R>): nat
  {
    |t.keyed| + |t.unkeyed|
  }

  /** Upserting a sequence of rows overlays their last writes on the keyed
      rows and appends their NULL-keyed rows. */
  lemma UpsertAllSplit<R>(t: Table<R>, rows: seq<R>, key: R -> Value)
    ensures UpsertAll(t, rows, key) == Table(t.keyed + Writes(rows, key), t.unkeyed + NullKeyed(rows, key))
  {
    UpsertAllKeyed(t, rows, key);
    UpsertAllUnkeyed(t, rows, key);
  }

  lemma {:induction false} UpsertAllKeyed<R>(t: Table<R>, rows: seq<R>, key: R -> Value)
    ensures UpsertAll(t, rows, key).keyed == t.keyed + Writes(rows, key)
    decreases |rows|
  {
    if rows == [] {
      assert t.keyed + map[] == t.keyed;
    } else {
      var r, rest := rows[0], rows[1..];
      UpsertAllKeyed(Upsert(t, r, key), rest, key);
      if key(r) != Null {
        UpdateThenMerge(t.keyed, key(r), r, Writes(rest, key));
      }
    }
  }

  lemma UpdateThenMerge<K, V>(m: map<K, V>, k: K, v: V, w: map<K, V>)
    ensures m[k := v] + w == m + (map[k := v] + w)
  {
  }

  lemma {:induction false} UpsertAllUnkeyed<R>(t: Table<R>, rows: seq<R>, key: R -> Value)
    ensures UpsertAll(t, rows, key).unkeyed == t.unkeyed + NullKeyed(rows, key)
    decreases |rows|
  {
    if rows == [] {
      assert t.unkeyed + [] == t.unkeyed;
    } else {
      var r, rest := rows[0], rows[1..];
      var u := Upsert(t, r, key);
      assert UpsertAll(t, rows, key) == UpsertAll(u, rest, key);
      UpsertAllUnkeyed(u, rest, key);
      if key(r) == Null {
        assert NullKeyed(rows, key) == [r] + NullKeyed(rest, key);
        assert t.unkeyed + [r] + NullKeyed(rest, key) == t.unkeyed + ([r] + NullKeyed(rest, key));
      } else {
        assert u.unkeyed == t.unkeyed;
        assert NullKeyed(rows, key) == [] + NullKeyed(rest, key);
      }
    }
  }

  /** Writing `a` and then `b` is writing `a + b`: the batches of an import
      add up to one run over all its rows. */
  lemma {:induction false} UpsertAllAppend<R>(t: Table<R>, a: seq<R>, b: seq<R>, key: R -> Value)
    ensures UpsertAll(UpsertAll(t, a, key), b, key) == UpsertAll(t, a + b, key)
    decreases |a|
  {
    if a == [] {
      assert a + b == b;
    } else {
      assert (a + b)[1..] == a[1..] + b;
      UpsertAllAppend(Upsert(t, a[0], key), a[1..], b, key);
    }
  }

  /** Last write wins: a key is written exactly when some row carries it,
      and it then holds the last row that carries it. */
  lemma {:induction false} WritesLastWins<R>(rows: seq<R>, key: R -> Value, i: nat)
    requires i < |rows| && key(rows[i]) != Null
    requires forall j :: i < j < |rows| ==> key(rows[j]) != key(rows[i])
    ensures key(rows[i]) in Writes(rows, key) && Writes(rows, key)[key(rows[i])] == rows[i]
    decreases |rows|
  {
    if i > 0 {
      WritesLastWins(rows[1..], key, i - 1);
    } else {
      WritesMissing(rows[1..], key, key(rows[0]));
    }
  }

  /** A key that no row carries is not written. */
  lemma {:induction false} WritesMissing<R>(rows: seq<R>, key: R -> Value, k: Value)
    requires forall j :: 0 <= j < |rows| ==> key(rows[j]) != k
    ensures k !in Writes(rows, key)
    decreases |rows|
  {
    if rows != [] {
      WritesMissing(rows[1..], key, k);
    }
  }

  /** Every non-NULL key some row carries is written, under a row that
      carries it. */
  lemma {:induction false} WritesHas<R>(rows: seq<R>, key: R -> Value, j: nat)
    requires j < |rows| && key(rows[j]) != Null
    ensures key(rows[j]) in Writes(rows, key)
    decreases |rows|
  {
    if j > 0 {
      WritesHas(rows[1..], key, j - 1);
    }
  }

  /** Every row with a NULL key is kept. */
  lemma {:induction false} NullKeyedHas<R>(rows: seq<R>, key: R -> Value, j: nat)
    requires j < |rows| && key(rows[j]) == Null
    ensures rows[j] in NullKeyed(rows, key)
    decreases |rows|
  {
    if j > 0 {
      NullKeyedHas(rows[1..], key, j - 1);
    }
  }

  /** Re-running the same writes leaves the table as one run left it exactly
      when none of them has a NULL key. */
  lemma ReplayIdempotent<R>(t: Table<R>, rows: seq<R>, key: R -> Value)
    ensures UpsertAll(UpsertAll(t, rows, key), rows, key) == UpsertAll(t, rows, key)
            <==> forall j :: 0 <= j < |rows| ==> key(rows[j]) != Null
  {
    var once := UpsertAll(t, rows, key);
    UpsertAllSplit(t, rows, key);
    UpsertAllSplit(once, rows, key);
    var w, n := Writes(rows, key), NullKeyed(rows, key);
    assert (t.keyed + w) + w == t.keyed + w;
    if forall j :: 0 <= j < |rows| ==> key(rows[j]) != Null {
      NullKeyedNone(rows, key);
      assert t.unkeyed + [] + [] == t.unkeyed + [];
    } else {
      var j :| 0 <= j < |rows| && key(rows[j]) == Null;
      NullKeyedSome(rows, key, j);
      assert |t.unkeyed + n + n| > |t.unkeyed + n|;
    }
  }

  lemma {:induction false} NullKeyedNone<R>(rows: seq<R>, key: R -> Value)
    requires forall j :: 0 <= j < |rows| ==> key(rows[j]) != Null
    ensures NullKeyed(rows, key) == []
    decreases |rows|
  {
    if rows != [] {
      NullKeyedNone(rows[1..], key);
    }
  }

  lemma {:induction false} NullKeyedSome<R>(rows: seq<R>, key: R -> Value, j: nat)
    requires j < |rows| && key(rows[j]) == Null
    ensures NullKeyed(rows, key) != []
    decreases |rows|
  {
    if j > 0 {
      NullKeyedSome(rows[1..], key, j - 1);
    }
  }

  /** Rows with distinct, non-NULL keys that are new to the table each add
      one row: N such rows grow the table by exactly N. */
  lemma {:induction false} UpsertAllCount<R>(t: Table<R>, rows: seq<R>, key: R -> Value)
    requires forall j :: 0 <= j < |rows| ==> key(rows[j]) != Null && key(rows[j]) !in t.keyed
    requires forall i, j :: 0 <= i < j < |rows| ==> key(rows[i]) != key(rows[j])
    ensures RowCount(UpsertAll(t, rows, key)) == RowCount(t) + |rows|
    decreases |rows|
  {
    if rows != [] {
      var r := rows[0];
      var t' := Upsert(t, r, key);
      assert |t'.keyed| == |t.keyed| + 1;
      forall j | 0 <= j < |rows[1..]|
        ensures key(rows[1..][j]) != Null && key(rows[1..][j]) !in t'.keyed
      {
        assert rows[1..][j] == rows[j + 1];
      }
      UpsertAllCount(t', rows[1..], key);
    }
  }

  /** The connection to the database file: the four tables and the number
      of transactions committed through it. */
  class Connection {
    var submissions: Table<SubmissionRow>
    var comments: Table<CommentRow>
    var users: Table<UserRow>
    var usersFailed: Table<FailedRow>
    var commits: nat

    /** A freshly created database: every table empty. */
    constructor ()
      ensures submissions == Empty() && comments == Empty()
      ensures users == Empty() && usersFailed == Empty()
      ensures commits == 0
    {
      submissions, comments := Empty(), Empty();
      users, usersFailed := Empty(), Empty();
      commits := 0;
    }

    /** `executemany('INSERT OR REPLACE INTO submissions ...', rows)` */
    method ReplaceIntoSubmissions(rows: seq<SubmissionRow>)
      modifies this`submissions
      ensures submissions == UpsertAll(old(submissions), rows, SubmissionKey)
    {
      submissions := UpsertAll(submissions, rows, SubmissionKey);
    }

    /** `executemany('INSERT OR REPLACE INTO comments ...', rows)` */
    method ReplaceIntoComments(rows: seq<CommentRow>)
      modifies this`comments
      ensures comments == UpsertAll(old(comments), rows, CommentKey)
    {
      comments := UpsertAll(comments, rows, CommentKey);
    }

    /** `executemany('INSERT OR REPLACE INTO reddit_users ...', rows)` */
    method ReplaceIntoUsers(rows: seq<UserRow>)
      modifies this`users
      ensures users == UpsertAll(old(users), rows, UserKey)
    {
      users := UpsertAll(users, rows, UserKey);
    }

    /** `executemany('INSERT OR REPLACE INTO reddit_users_failed ...', rows)` */
    method ReplaceIntoUsersFailed(rows: seq<FailedRow>)
      modifies this`usersFailed
      ensures usersFailed == UpsertAll(old(usersFailed), rows, FailedKey)
    {
      usersFailed := UpsertAll(usersFailed, rows, FailedKey);
    }

    /** `conn.commit()` */
    method Commit()
      modifies this`commits
      ensures commits == old(commits) + 1
    {
      commits := commits + 1;
    }
  }
}
