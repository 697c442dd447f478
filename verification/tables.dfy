/** The two Room tables and the meaning of the DAO statements used on them:
    `@Insert(onConflict = REPLACE)`, `UPDATE ... WHERE id = :id` and
    `SELECT ... WHERE id IN (:ids)`. A table is a map from primary key to row. */
module Tables {
  import opened Entities

  type ExerciseTable = map<string, ExerciseEntity>
  type SetTable = map<string, ExerciseSetEntity>

  /** The table invariant of a primary-key column: every row sits under its
      own key. */
  predicate KeyedBy<R>(t: map<string, R>, key: R -> string) {
    forall k :: k in t ==> key(t[k]) == k
  }

  /** The primary-key columns, as key functions for `InsertAll`. */
  function ExerciseKey(e: ExerciseEntity): (k: string) { e.id }
  function SetKey(e: ExerciseSetEntity): (k: string) { e.id }

  /** The keys of a list of rows. */
  function Keys<R>(rows: seq<R>, key: R -> string): (ks: set<string>)
    ensures forall i :: 0 <= i < |rows| ==> key(rows[i]) in ks
    decreases |rows|
  {
    if |rows| == 0 then {} else Keys(rows[..|rows| - 1], key) + {key(rows[|rows| - 1])}
  }

  /** Every key of a list is the key of one of its rows. */
  lemma {:induction false} KeyHasRow<R>(rows: seq<R>, key: R -> string, k: string)
    requires k in Keys(rows, key)
    ensures exists i :: 0 <= i < |rows| && key(rows[i]) == k
    decreases |rows|
  {
    var prefix := rows[..|rows| - 1];
    if k != key(rows[|rows| - 1]) {
      KeyHasRow(prefix, key, k);
      var i :| 0 <= i < |prefix| && key(prefix[i]) == k;
      assert key(rows[i]) == k;
    }
  }

  /** The rows of a list have pairwise distinct keys. */
  predicate DistinctKeys<R>(rows: seq<R>, key: R -> string) {
    forall i, j :: 0 <= i < j < |rows| ==> key(rows[i]) != key(rows[j])
  }

  /** A batch insert with `OnConflictStrategy.REPLACE`, one row after the
      other: a row whose key is already present replaces the old row, so the
      last row of the batch with a given key is the one that stays. */
  function InsertAll<R>(t: map<string, R>, rows: seq<R>, key: R -> string): (r: map<string, R>)
    ensures r.Keys == t.Keys + Keys(rows, key)
    ensures forall k :: k in t && k !in Keys(rows, key) ==> r[k] == t[k]
    ensures forall i :: 0 <= i < |rows| && (forall j :: i < j < |rows| ==> key(rows[j]) != key(rows[i]))
              ==> r[key(rows[i])] == rows[i]
    decreases |rows|
  {
    if |rows| == 0 then t
    else
      var last := rows[|rows| - 1];
      var prefix := rows[..|rows| - 1];
      InsertAll(t, prefix, key)[key(last) := last]
  }

  /** Inserting a batch is a map union in which the batch wins. */
  lemma {:induction false} InsertAllIsUnion<R>(t: map<string, R>, rows: seq<R>, key: R -> string)
    ensures InsertAll(t, rows, key) == t + InsertAll(map[], rows, key)
    decreases |rows|
  {
    if |rows| > 0 {
      var last := rows[|rows| - 1];
      var prefix := rows[..|rows| - 1];
      InsertAllIsUnion(t, prefix, key);
      UnionUpdate(t, InsertAll(map[], prefix, key), key(last), last);
    }
  }

  /** Updating the right operand of a union updates the union. */
  lemma UnionUpdate<R>(t: map<string, R>, b: map<string, R>, k: string, v: R)
    ensures (t + b)[k := v] == t + b[k := v]
  {
  }

  /** REPLACE-inserting the same batch twice leaves the table as one insert does. */
  lemma InsertAllIdempotent<R>(t: map<string, R>, rows: seq<R>, key: R -> string)
    ensures InsertAll(InsertAll(t, rows, key), rows, key) == InsertAll(t, rows, key)
  {
    var u := InsertAll(map[], rows, key);
    InsertAllIsUnion(t, rows, key);
    InsertAllIsUnion(t + u, rows, key);
    assert (t + u) + u == t + u;
  }

  /** A list of rows with distinct keys has as many keys as rows. */
  lemma {:induction false} DistinctKeysCount<R>(rows: seq<R>, key: R -> string)
    requires DistinctKeys(rows, key)
    ensures |Keys(rows, key)| == |rows|
    decreases |rows|
  {
    if |rows| > 0 {
      var n := |rows| - 1;
      var prefix := rows[..n];
      assert DistinctKeys(prefix, key) by {
        forall i, j | 0 <= i < j < |prefix| ensures key(prefix[i]) != key(prefix[j]) {
          assert prefix[i] == rows[i] && prefix[j] == rows[j];
        }
      }
      DistinctKeysCount(prefix, key);
      if key(rows[n]) in Keys(prefix, key) {
        KeyHasRow(prefix, key, key(rows[n]));
      }
    }
  }

  /** A batch with distinct keys adds exactly one row per element to an empty table. */
  lemma InsertAllDistinctSize<R>(rows: seq<R>, key: R -> string)
    requires DistinctKeys(rows, key)
    ensures |InsertAll(map[], rows, key)| == |rows|
  {
    DistinctKeysCount(rows, key);
    var r := InsertAll(map[], rows, key);
    assert r.Keys == Keys(rows, key);
  }

  /** REPLACE-inserting rows keeps every row of the table under its own key. */
  lemma InsertAllKeepsKeyed<R>(t: map<string, R>, rows: seq<R>, key: R -> string)
    ensures KeyedBy(t, key) ==> KeyedBy(InsertAll(t, rows, key), key)
  {
    var r := InsertAll(t, rows, key);
    forall k | k in r && KeyedBy(t, key) ensures key(r[k]) == k {
      if k in Keys(rows, key) {
        KeyHasRow(rows, key, k);
        var i :| 0 <= i < |rows| && key(rows[i]) == k;
        var j := LastWithKey(t, rows, key, i);
      }
    }
  }

  /** Every key of a batch has a last occurrence, and that row is the one that stays. */
  lemma LastWithKey<R>(t: map<string, R>, rows: seq<R>, key: R -> string, i: nat) returns (j: nat)
    requires i < |rows|
    ensures i <= j < |rows| && key(rows[j]) == key(rows[i])
    ensures forall m :: j < m < |rows| ==> key(rows[m]) != key(rows[i])
    ensures InsertAll(t, rows, key)[key(rows[i])] == rows[j]
    decreases |rows| - i
  {
    if forall m :: i < m < |rows| ==> key(rows[m]) != key(rows[i]) {
      j := i;
    } else {
      var m :| i < m < |rows| && key(rows[m]) == key(rows[i]);
      j := LastWithKey(t, rows, key, m);
    }
  }

  /** `UPDATE exercises SET isCompleted = :done WHERE id = :id`: only the row
      with that key changes, and only its completion flag; no row matches an
      unknown id. */
  function UpdateCompletion(t: ExerciseTable, id: string, done: bool): (r: ExerciseTable)
    ensures r.Keys == t.Keys
    ensures id in t ==> r[id] == t[id].(isCompleted := done)
    ensures forall k :: k in t && k != id ==> r[k] == t[k]
    ensures KeyedBy(t, ExerciseKey) ==> KeyedBy(r, ExerciseKey)
  {
    if id in t then t[id := t[id].(isCompleted := done)] else t
  }

  /** The update is idempotent, the last of two updates on one row wins, and
      an unknown id leaves the table as it was. */
  lemma UpdateCompletionLaws(t: ExerciseTable, id: string, a: bool, b: bool)
    ensures UpdateCompletion(UpdateCompletion(t, id, a), id, b) == UpdateCompletion(t, id, b)
    ensures id !in t ==> UpdateCompletion(t, id, a) == t
  {
  }

  /** `SELECT * FROM exercises WHERE id IN (:ids)`: every stored row whose id
      is listed, each once, however often it is listed; unknown ids select
      nothing. SQL leaves the order unspecified; this returns first-listed first. */
  method SelectByIds(t: ExerciseTable, ids: seq<string>) returns (rows: seq<ExerciseEntity>)
    requires KeyedBy(t, ExerciseKey)
    ensures forall i :: 0 <= i < |rows| ==> rows[i].id in ids && rows[i].id in t && t[rows[i].id] == rows[i]
    ensures forall k :: k in ids && k in t ==> t[k] in rows
    ensures forall i, j :: 0 <= i < j < |rows| ==> rows[i].id != rows[j].id
  {
    rows := [];
    var n := 0;
    while n < |ids|
      invariant 0 <= n <= |ids|
      invariant forall i :: 0 <= i < |rows| ==> rows[i].id in ids[..n] && rows[i].id in t && t[rows[i].id] == rows[i]
      invariant forall k :: k in ids[..n] && k in t ==> t[k] in rows
      invariant forall i, j :: 0 <= i < j < |rows| ==> rows[i].id != rows[j].id
    {
      var k := ids[n];
      if k in t && t[k] !in rows {
        rows := rows + [t[k]];
      }
      assert ids[..n + 1] == ids[..n] + [k];
      n := n + 1;
    }
    assert ids[..n] == ids;
  }
}
