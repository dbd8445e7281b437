/**
 * db/repository.py, NewsChunkRepository: a batch of chunks goes into a table in which the pair of
 * ticker and content hash is unique, while another writer may add rows of its own.
 */
module NewsChunks {

  datatype Chunk = Chunk(ticker: string, hash: string, text: string)

  datatype Key = Key(ticker: string, hash: string)

  /** The table, by its unique key. */
  type Table = map<Key, Chunk>

  function KeyOf(c: Chunk): Key {
    Key(c.ticker, c.hash)
  }

  // ---------- what an insertion is to achieve ----------

  /** The first entry of the batch for a key. */
  ghost predicate FirstEntry(chunks: seq<Chunk>, k: Key, c: Chunk) {
    exists i {:trigger chunks[i]} :: 0 <= i < |chunks| && chunks[i] == c && KeyOf(c) == k && NoneBefore(chunks, i, k)
  }

  ghost predicate NoneBefore(chunks: seq<Chunk>, i: int, k: Key) {
    forall j :: 0 <= j < i && j < |chunks| ==> KeyOf(chunks[j]) != k
  }

  ghost predicate Mentions(chunks: seq<Chunk>, k: Key) {
    exists i :: 0 <= i < |chunks| && KeyOf(chunks[i]) == k
  }

  /** The table `before` with the first batch entry added for each key that it lacks. */
  ghost predicate FilledBy(before: Table, chunks: seq<Chunk>, after: Table) {
    && (forall k :: k in after <==> k in before || Mentions(chunks, k))
    && (forall k :: k in before ==> k in after && after[k] == before[k])
    && (forall k :: k in after && k !in before ==> FirstEntry(chunks, k, after[k]))
  }

  /** There is only one such table. */
  lemma FilledIsDetermined(before: Table, chunks: seq<Chunk>, a: Table, b: Table)
    requires FilledBy(before, chunks, a) && FilledBy(before, chunks, b)
    ensures a == b
  {
    assert a.Keys == b.Keys;
    forall k | k in a
      ensures a[k] == b[k]
    {
      if k !in before {
        var i :| 0 <= i < |chunks| && chunks[i] == a[k] && KeyOf(a[k]) == k && NoneBefore(chunks, i, k);
        var j :| 0 <= j < |chunks| && chunks[j] == b[k] && KeyOf(b[k]) == k && NoneBefore(chunks, j, k);
        assert i == j;
      }
    }
  }

  /** The batch put in one entry at a time, each skipped when its key is taken. */
  function Filled(before: Table, chunks: seq<Chunk>): Table {
    if chunks == [] then before
    else
      var n := |chunks| - 1;
      var t := Filled(before, chunks[..n]);
      if KeyOf(chunks[n]) in t then t else t[KeyOf(chunks[n]) := chunks[n]]
  }

  lemma MentionsSplit(chunks: seq<Chunk>, k: Key)
    requires chunks != []
    ensures Mentions(chunks, k) <==> Mentions(chunks[..|chunks| - 1], k) || KeyOf(chunks[|chunks| - 1]) == k
  {
    var n := |chunks| - 1;
    assert forall i :: 0 <= i < n ==> chunks[..n][i] == chunks[i];
  }

  lemma FirstEntryStays(chunks: seq<Chunk>, k: Key, c: Chunk)
    requires chunks != [] && FirstEntry(chunks[..|chunks| - 1], k, c)
    ensures FirstEntry(chunks, k, c)
  {
    var n := |chunks| - 1;
    var i :| 0 <= i < n && chunks[..n][i] == c && KeyOf(c) == k && NoneBefore(chunks[..n], i, k);
    assert forall j :: 0 <= j < n ==> chunks[..n][j] == chunks[j];
    assert chunks[i] == c && NoneBefore(chunks, i, k);
  }

  lemma NewFirstEntry(chunks: seq<Chunk>)
    requires chunks != [] && !Mentions(chunks[..|chunks| - 1], KeyOf(chunks[|chunks| - 1]))
    ensures FirstEntry(chunks, KeyOf(chunks[|chunks| - 1]), chunks[|chunks| - 1])
  {
    var n := |chunks| - 1;
    assert forall j :: 0 <= j < n ==> chunks[..n][j] == chunks[j];
    assert NoneBefore(chunks, n, KeyOf(chunks[n]));
  }

  lemma {:induction false} FilledFills(before: Table, chunks: seq<Chunk>)
    ensures FilledBy(before, chunks, Filled(before, chunks))
  {
    if chunks != [] {
      var n := |chunks| - 1;
      var t, key := Filled(before, chunks[..n]), KeyOf(chunks[n]);
      FilledFills(before, chunks[..n]);
      forall k
        ensures Mentions(chunks, k) <==> Mentions(chunks[..n], k) || key == k
      {
        MentionsSplit(chunks, k);
      }
      forall k | k in t && k !in before
        ensures FirstEntry(chunks, k, t[k])
      {
        FirstEntryStays(chunks, k, t[k]);
      }
      if key !in t {
        NewFirstEntry(chunks);
      }
    }
  }

  /** Every row lies under its own ticker and hash. */
  ghost predicate WellKeyed(table: Table) {
    forall k :: k in table ==> table[k].ticker == k.ticker && table[k].hash == k.hash
  }

  /** The unique constraint after an insertion: each ticker and hash of the batch has its one row. */
  lemma {:induction false} RowsUnderTheirKeys(before: Table, chunks: seq<Chunk>)
    requires WellKeyed(before)
    ensures WellKeyed(Filled(before, chunks))
    ensures forall i :: 0 <= i < |chunks| ==> Key(chunks[i].ticker, chunks[i].hash) in Filled(before, chunks)
  {
    if chunks != [] {
      var n := |chunks| - 1;
      RowsUnderTheirKeys(before, chunks[..n]);
      assert forall i :: 0 <= i < n ==> chunks[..n][i] == chunks[i];
    }
  }

  // ---------- batches ----------

  /** Cutting a batch in two makes no difference. */
  lemma {:induction false} BatchesCompose(before: Table, a: seq<Chunk>, b: seq<Chunk>)
    ensures Filled(Filled(before, a), b) == Filled(before, a + b)
    decreases |b|
  {
    if b == [] {
      assert a + b == a;
    } else {
      var n := |b| - 1;
      BatchesCompose(before, a, b[..n]);
      var all := a + b;
      assert |all| - 1 == |a| + n && all[|a| + n] == b[n];
      assert all[..|a| + n] == a + b[..n];
    }
  }

  /** Repeating a batch adds nothing, whatever rows came in between. */
  lemma {:induction false} RepeatAddsNothing(now: Table, chunks: seq<Chunk>)
    requires forall k :: Mentions(chunks, k) ==> k in now
    ensures Filled(now, chunks) == now
  {
    if chunks != [] {
      var n := |chunks| - 1;
      forall k | Mentions(chunks[..n], k)
        ensures k in now
      {
        MentionsSplit(chunks, k);
      }
      RepeatAddsNothing(now, chunks[..n]);
      MentionsSplit(chunks, KeyOf(chunks[n]));
    }
  }

  /** After an insertion every key of the batch is present, so the next insertion of it returns 0. */
  lemma SecondInsertReturnsZero(before: Table, chunks: seq<Chunk>, meanwhile: Table)
    ensures
      var now := Arrived(Filled(before, chunks), meanwhile);
      |Filled(now, chunks)| - |now| == 0
  {
    FilledFills(before, chunks);
    RepeatAddsNothing(Arrived(Filled(before, chunks), meanwhile), chunks);
  }

  /** Two writers in either order leave the same keys and add the same number of rows together. */
  lemma WritersAddTheSameKeys(before: Table, a: seq<Chunk>, b: seq<Chunk>)
    ensures Filled(Filled(before, a), b).Keys == Filled(Filled(before, b), a).Keys
    ensures |Filled(Filled(before, a), b)| == |Filled(Filled(before, b), a)|
  {
    FilledFills(before, a);
    FilledFills(before, b);
    FilledFills(Filled(before, a), b);
    FilledFills(Filled(before, b), a);
    var ab, ba := Filled(Filled(before, a), b), Filled(Filled(before, b), a);
    assert ab.Keys == ba.Keys;
    assert |ab| == |ab.Keys| && |ba| == |ba.Keys|;
  }

  // ---------- what the method prepares ----------

  ghost predicate DistinctKeys(rows: seq<Chunk>) {
    forall i, j :: 0 <= i < j < |rows| ==> KeyOf(rows[i]) != KeyOf(rows[j])
  }

  /** The first entry of each key, in batch order: the values of the dictionary. */
  function Firsts(chunks: seq<Chunk>): seq<Chunk> {
    if chunks == [] then []
    else
      var n := |chunks| - 1;
      var before := Firsts(chunks[..n]);
      if exists i :: 0 <= i < |before| && KeyOf(before[i]) == KeyOf(chunks[n]) then before else before + [chunks[n]]
  }

  /** The rows whose keys are not in the set. */
  function Absent(rows: seq<Chunk>, existing: set<Key>): seq<Chunk> {
    if rows == [] then []
    else
      var n := |rows| - 1;
      var before := Absent(rows[..n], existing);
      if KeyOf(rows[n]) in existing then before else before + [rows[n]]
  }

  lemma {:induction false} FirstsMention(chunks: seq<Chunk>, k: Key)
    ensures Mentions(Firsts(chunks), k) <==> Mentions(chunks, k)
  {
    if chunks != [] {
      var n := |chunks| - 1;
      var firsts := Firsts(chunks[..n]);
      FirstsMention(chunks[..n], k);
      MentionsSplit(chunks, k);
      assert (firsts + [chunks[n]])[..|firsts|] == firsts;
      MentionsSplit(firsts + [chunks[n]], k);
    }
  }

  lemma {:induction false} FirstsDistinct(chunks: seq<Chunk>)
    ensures DistinctKeys(Firsts(chunks))
  {
    if chunks != [] {
      FirstsDistinct(chunks[..|chunks| - 1]);
    }
  }

  lemma {:induction false} FirstsFillAlike(before: Table, chunks: seq<Chunk>)
    ensures Filled(before, Firsts(chunks)) == Filled(before, chunks)
  {
    if chunks != [] {
      var n := |chunks| - 1;
      var firsts, last := Firsts(chunks[..n]), chunks[n];
      FirstsFillAlike(before, chunks[..n]);
      FilledFills(before, firsts);
      assert (firsts + [last])[..|firsts|] == firsts;
    }
  }

  lemma {:induction false} AbsentElements(rows: seq<Chunk>, existing: set<Key>)
    ensures forall c :: c in Absent(rows, existing) <==> c in rows && KeyOf(c) !in existing
  {
    if rows != [] {
      AbsentElements(rows[..|rows| - 1], existing);
      assert rows == rows[..|rows| - 1] + [rows[|rows| - 1]];
    }
  }

  lemma {:induction false} AbsentDistinct(rows: seq<Chunk>, existing: set<Key>)
    requires DistinctKeys(rows)
    ensures DistinctKeys(Absent(rows, existing))
  {
    if rows != [] {
      var n := |rows| - 1;
      var kept := Absent(rows[..n], existing);
      AbsentDistinct(rows[..n], existing);
      AbsentElements(rows[..n], existing);
      forall i | 0 <= i < |kept|
        ensures KeyOf(kept[i]) != KeyOf(rows[n])
      {
        assert kept[i] in rows[..n];
      }
    }
  }

  lemma {:induction false} AbsentFillAlike(before: Table, rows: seq<Chunk>, existing: set<Key>)
    requires existing <= before.Keys
    ensures Filled(before, Absent(rows, existing)) == Filled(before, rows)
  {
    if rows != [] {
      var n := |rows| - 1;
      var kept := Absent(rows[..n], existing);
      AbsentFillAlike(before, rows[..n], existing);
      FilledFills(before, rows[..n]);
      assert (kept + [rows[n]])[..|kept|] == kept;
    }
  }

  /** Rows with new and different keys are all added. */
  lemma {:induction false} NewRowsAllCount(before: Table, rows: seq<Chunk>)
    requires DistinctKeys(rows) && forall i :: 0 <= i < |rows| ==> KeyOf(rows[i]) !in before
    ensures |Filled(before, rows)| == |before| + |rows|
  {
    if rows != [] {
      var n := |rows| - 1;
      NewRowsAllCount(before, rows[..n]);
      FilledFills(before, rows[..n]);
      var t := Filled(before, rows[..n]);
      assert KeyOf(rows[n]) !in t;
      assert t[KeyOf(rows[n]) := rows[n]].Keys == t.Keys + {KeyOf(rows[n])};
    }
  }

  /** The table once another writer's rows are in; the writer too meets the unique constraint. */
  function Arrived(table: Table, others: Table): Table {
    others + table
  }

  // ---------- the repository ----------

  class NewsChunkRepository {
    var table: Table

    constructor (rows: Table)
      ensures table == rows
    {
      table := rows;
    }

    /** The keys of the list that are in the table. */
    method ExistingKeys(keys: seq<Key>) returns (existing: set<Key>)
      ensures forall k :: k in existing <==> k in keys && k in table
    {
      existing := set k | k in keys && k in table;
    }

    /** Adding rows under the unique constraint: all of them, or an error and none. */
    method AddAll(rows: seq<Chunk>) returns (added: bool)
      modifies this
      ensures added == Insertable(old(table), rows)
      ensures table == if added then Filled(old(table), rows) else old(table)
    {
      added := Insertable(table, rows);
      if added {
        table := Filled(table, rows);
      }
    }

    /** The dictionary loop: the first entry of each key, in batch order. */
    static method UniqueChunks(chunks: seq<Chunk>) returns (keys: seq<Key>, unique: map<Key, Chunk>)
      ensures DictionaryOf(keys, unique, Firsts(chunks))
    {
      keys := [];
      unique := map[];
      for i := 0 to |chunks|
        invariant DictionaryOf(keys, unique, Firsts(chunks[..i]))
      {
        DictionaryNext(keys, unique, chunks, i);
        var key := KeyOf(chunks[i]);
        if key !in unique {
          keys := keys + [key];
          unique := unique[key := chunks[i]];
        }
      }
      assert chunks[..|chunks|] == chunks;
    }

    /** The entries of the dictionary whose keys are not in the table. */
    static method NewRows(keys: seq<Key>, unique: map<Key, Chunk>, existing: set<Key>, ghost rows: seq<Chunk>)
        returns (toInsert: seq<Chunk>)
      requires DictionaryOf(keys, unique, rows)
      ensures toInsert == Absent(rows, existing)
    {
      toInsert := [];
      for i := 0 to |keys|
        invariant toInsert == Absent(rows[..i], existing)
      {
        assert rows[..i + 1][..i] == rows[..i];
        if keys[i] !in existing {
          toInsert := toInsert + [unique[keys[i]]];
        }
      }
      assert rows[..|keys|] == rows;
    }

    /**
     * The retry after a conflict: one row at a time, skipping those that conflict. `late[i]` are rows
     * that the other writer commits before attempt i; `theirs` collects those that found their key free.
     */
    method AddOneByOne(rows: seq<Chunk>, late: seq<Table>) returns (inserted: nat, ghost theirs: Table)
      modifies this
      ensures Inserted(old(table), theirs, rows, table, inserted)
      ensures Written(theirs, map[], late)
    {
      inserted, theirs := 0, map[];
      assert rows[..0] == [] && Arrived(table, theirs) == table;
      for i := 0 to |rows|
        invariant Inserted(old(table), theirs, rows[..i], table, inserted)
        invariant Written(theirs, map[], late)
      {
        if i < |late| {
          LateKeeps(old(table), theirs, rows[..i], table, inserted, late[i]);
          AdmittedWritten(theirs, late, table, i);
          theirs := theirs + Admitted(table, late[i]);
          table := Arrived(table, late[i]);
        }
        RowKeeps(old(table), theirs, rows, i, table, inserted);
        var added := AddAll([rows[i]]);
        if added {
          inserted := inserted + 1;
        }
      }
      assert rows[..|rows|] == rows;
    }

    /**
     * `others` are the rows that another writer commits after the query for existing keys, `late` those
     * it commits during the retry; `theirs` collects what it got in. On either path the table ends as the
     * other writer left it plus the first batch entry for each key it lacks, and the result is the number
     * of rows added.
     */
    method InsertChunks(chunks: seq<Chunk>, others: Table, late: seq<Table>) returns (inserted: nat, ghost theirs: Table)
      modifies this
      ensures chunks == [] ==> table == old(table) && inserted == 0
      ensures chunks != [] ==> Inserted(old(table), theirs, chunks, table, inserted)
      ensures Written(theirs, others, late)
      ensures forall k :: k in others ==> k in theirs
    {
      theirs := others;
      if chunks == [] {
        inserted := 0;
        return;
      }
      var keys, unique := UniqueChunks(chunks);
      var existing := ExistingKeys(keys);
      table := Arrived(table, others);
      var toInsert := NewRows(keys, unique, existing, Firsts(chunks));
      NewRowsSuffice(table, chunks, existing);
      ghost var more;
      inserted, more := AddNewRows(toInsert, late);
      theirs := more + others;
      NewRowsSuffice(Arrived(Arrived(old(table), others), more), chunks, existing);
      ArrivedTwice(old(table), others, more);
      WrittenTogether(more, others, late);
    }

    /** Fast path in one step, or the retry when a row conflicts. */
    method AddNewRows(toInsert: seq<Chunk>, late: seq<Table>) returns (inserted: nat, ghost theirs: Table)
      requires DistinctKeys(toInsert)
      modifies this
      ensures Inserted(old(table), theirs, toInsert, table, inserted)
      ensures Written(theirs, map[], late)
    {
      theirs := map[];
      assert Arrived(table, theirs) == table;
      if toInsert == [] {
        inserted := 0;
        return;
      }
      var added := AddAll(toInsert);
      if added {
        NewRowsAllCount(old(table), toInsert);
        inserted := |toInsert|;
        return;
      }
      inserted, theirs := AddOneByOne(toInsert, late);
    }
  }

  /** The other writer commits this row at some point. */
  ghost predicate Committed(k: Key, c: Chunk, others: Table, late: seq<Table>) {
    (k in others && others[k] == c) || exists i :: 0 <= i < |late| && k in late[i] && late[i][k] == c
  }

  ghost predicate Written(theirs: Table, others: Table, late: seq<Table>) {
    forall k :: k in theirs ==> Committed(k, theirs[k], others, late)
  }

  lemma AdmittedWritten(theirs: Table, late: seq<Table>, table: Table, i: nat)
    requires Written(theirs, map[], late) && i < |late|
    ensures Written(theirs + Admitted(table, late[i]), map[], late)
  {
    var all := theirs + Admitted(table, late[i]);
    forall k | k in all
      ensures Committed(k, all[k], map[], late)
    {
      if k in Admitted(table, late[i]) {
        assert k in late[i] && late[i][k] == all[k];
      } else {
        assert k in theirs && all[k] == theirs[k];
      }
    }
  }

  lemma WrittenTogether(more: Table, others: Table, late: seq<Table>)
    requires Written(more, map[], late)
    ensures Written(more + others, others, late)
  {
    forall k | k in more + others
      ensures Committed(k, (more + others)[k], others, late)
    {
      if k !in others {
        assert Committed(k, more[k], map[], late);
      }
    }
  }

  /** What an insertion leaves and returns, given the other writer's rows. */
  ghost predicate Inserted(before: Table, theirs: Table, chunks: seq<Chunk>, after: Table, inserted: nat) {
    && after == Filled(Arrived(before, theirs), chunks)
    && inserted == |after| - |Arrived(before, theirs)|
  }

  /** No row meets the unique constraint, neither against the table nor against another row. */
  predicate Insertable(table: Table, rows: seq<Chunk>) {
    && (forall i :: 0 <= i < |rows| ==> KeyOf(rows[i]) !in table)
    && (forall i, j :: 0 <= i < j < |rows| ==> KeyOf(rows[i]) != KeyOf(rows[j]))
  }

  ghost predicate DictionaryOf(keys: seq<Key>, unique: map<Key, Chunk>, rows: seq<Chunk>) {
    && |keys| == |rows|
    && (forall i :: 0 <= i < |keys| ==> keys[i] == KeyOf(rows[i]) && keys[i] in unique && unique[keys[i]] == rows[i])
    && (forall k :: k in unique <==> k in keys)
  }

  lemma DictionaryNext(keys: seq<Key>, unique: map<Key, Chunk>, chunks: seq<Chunk>, i: nat)
    requires i < |chunks| && DictionaryOf(keys, unique, Firsts(chunks[..i]))
    ensures
      var key := KeyOf(chunks[i]);
      if key in unique then DictionaryOf(keys, unique, Firsts(chunks[..i + 1]))
      else DictionaryOf(keys + [key], unique[key := chunks[i]], Firsts(chunks[..i + 1]))
  {
    var rows, key := Firsts(chunks[..i]), KeyOf(chunks[i]);
    assert chunks[..i + 1][..i] == chunks[..i];
    assert key in keys ==> exists j :: 0 <= j < |rows| && KeyOf(rows[j]) == key;
    assert (exists j :: 0 <= j < |rows| && KeyOf(rows[j]) == key) ==> key in keys;
  }

  lemma FillOne(before: Table, rows: seq<Chunk>, i: nat)
    requires i < |rows|
    ensures Filled(before, rows[..i + 1]) == Filled(Filled(before, rows[..i]), [rows[i]])
    ensures
      var t := Filled(before, rows[..i]);
      if Insertable(t, [rows[i]]) then |Filled(before, rows[..i + 1])| == |t| + 1 else Filled(before, rows[..i + 1]) == t
  {
    BatchesCompose(before, rows[..i], [rows[i]]);
    assert rows[..i] + [rows[i]] == rows[..i + 1];
    var t := Filled(before, rows[..i]);
    if Insertable(t, [rows[i]]) {
      assert KeyOf([rows[i]][0]) !in t;
      NewRowsAllCount(t, [rows[i]]);
    } else {
      assert Filled(t, [rows[i]]) == t by {
        assert [rows[i]][..0] == [];
      }
    }
  }

  /** Leaving out the keys found by the query loses nothing. */
  lemma NewRowsSuffice(left: Table, chunks: seq<Chunk>, existing: set<Key>)
    requires existing <= left.Keys
    ensures Filled(left, Absent(Firsts(chunks), existing)) == Filled(left, chunks)
    ensures DistinctKeys(Absent(Firsts(chunks), existing))
  {
    FirstsFillAlike(left, chunks);
    FirstsDistinct(chunks);
    AbsentFillAlike(left, Firsts(chunks), existing);
    AbsentDistinct(Firsts(chunks), existing);
  }

  /** The rows of another writer that find their key free. */
  function Admitted(table: Table, others: Table): Table {
    map k | k in others && k !in table :: others[k]
  }

  lemma ArrivedTwice(table: Table, a: Table, b: Table)
    ensures Arrived(Arrived(table, a), b) == Arrived(table, b + a)
    ensures forall k :: k in a ==> k in b + a
    ensures forall k :: k in table ==> k in Arrived(Arrived(table, a), b)
  {
  }

  lemma LateTables(before: Table, theirs: Table, now: Table, late: Table)
    requires forall k :: k in Arrived(before, theirs) ==> k in now
    ensures
      var more := Admitted(now, late);
      && Arrived(before, theirs + more).Keys == Arrived(before, theirs).Keys + more.Keys
      && Arrived(now, late).Keys == now.Keys + more.Keys
      && Arrived(before, theirs).Keys * more.Keys == {} && now.Keys * more.Keys == {}
      && (forall k :: k in Arrived(before, theirs) ==> Arrived(before, theirs + more)[k] == Arrived(before, theirs)[k])
      && (forall k :: k in more ==> Arrived(before, theirs + more)[k] == Arrived(now, late)[k] == late[k])
  {
  }

  /** Rows arriving late might as well have come first: the batch so far had other keys. */
  lemma LateFills(before: Table, theirs: Table, rows: seq<Chunk>, now: Table, late: Table)
    requires FilledBy(Arrived(before, theirs), rows, now)
    ensures FilledBy(Arrived(before, theirs + Admitted(now, late)), rows, Arrived(now, late))
  {
    LateTables(before, theirs, now, late);
    var start, end := Arrived(before, theirs + Admitted(now, late)), Arrived(now, late);
    forall k | k in start
      ensures k in end && end[k] == start[k]
    {
      if k in Arrived(before, theirs) {
        assert k in now && end[k] == now[k];
      }
    }
    forall k | k in end && k !in start
      ensures FirstEntry(rows, k, end[k])
    {
      assert k in now && end[k] == now[k];
    }
  }

  lemma LateCount(before: Table, theirs: Table, now: Table, late: Table)
    requires forall k :: k in Arrived(before, theirs) ==> k in now
    ensures |Arrived(now, late)| - |Arrived(before, theirs + Admitted(now, late))| == |now| - |Arrived(before, theirs)|
  {
    LateTables(before, theirs, now, late);
    var more := Admitted(now, late);
    var start, end, first := Arrived(before, theirs + more), Arrived(now, late), Arrived(before, theirs);
    assert |start| == |start.Keys| && |end| == |end.Keys| && |first| == |first.Keys| && |now| == |now.Keys|;
    assert |first.Keys + more.Keys| == |first.Keys| + |more.Keys|;
    assert |now.Keys + more.Keys| == |now.Keys| + |more.Keys|;
  }

  lemma LateRows(before: Table, theirs: Table, rows: seq<Chunk>, late: Table)
    ensures
      var now := Filled(Arrived(before, theirs), rows);
      var all := theirs + Admitted(now, late);
      && Filled(Arrived(before, all), rows) == Arrived(now, late)
      && |Arrived(now, late)| - |Arrived(before, all)| == |now| - |Arrived(before, theirs)|
  {
    var now := Filled(Arrived(before, theirs), rows);
    FilledFills(Arrived(before, theirs), rows);
    LateFills(before, theirs, rows, now, late);
    LateCount(before, theirs, now, late);
    var start := Arrived(before, theirs + Admitted(now, late));
    FilledFills(start, rows);
    FilledIsDetermined(start, rows, Arrived(now, late), Filled(start, rows));
  }

  lemma LateKeeps(before: Table, theirs: Table, rows: seq<Chunk>, table: Table, inserted: nat, late: Table)
    requires Inserted(before, theirs, rows, table, inserted)
    ensures Inserted(before, theirs + Admitted(table, late), rows, Arrived(table, late), inserted)
  {
    LateRows(before, theirs, rows, late);
  }

  lemma RowKeeps(before: Table, theirs: Table, rows: seq<Chunk>, i: nat, table: Table, inserted: nat)
    requires i < |rows| && Inserted(before, theirs, rows[..i], table, inserted)
    ensures
      if Insertable(table, [rows[i]])
      then Inserted(before, theirs, rows[..i + 1], Filled(table, [rows[i]]), inserted + 1)
      else Inserted(before, theirs, rows[..i + 1], table, inserted)
  {
    FillOne(Arrived(before, theirs), rows, i);
  }
}
