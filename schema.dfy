/** The `tracker` table: its schema text and the meaning SQLite gives to an
    insert under `UNIQUE(book_id, chapter_index) ON CONFLICT REPLACE`. */
module Schema {
  import opened Wrappers

  const TableName := "tracker"
  const ColumnBookId := "book_id"
  const ColumnChapterIndex := "chapter_index"
  const ColumnTime := "time"

  /** The statement that creates the table. The source spells the UNIQUE
      clause's column list as literal text; the ensures says that this text
      names exactly the two key columns of the column constants. */
  function SqlCreateEntries(): (s: string)
    ensures s == "CREATE TABLE " + TableName + " (" + ColumnBookId + " INTEGER," + ColumnChapterIndex + " INTEGER,"
                 + ColumnTime + " REAL, UNIQUE(" + ColumnBookId + ", " + ColumnChapterIndex + ") ON CONFLICT REPLACE)"
  {
    assert "book_id, chapter_index" == ColumnBookId + ", " + ColumnChapterIndex;
    "CREATE TABLE " + TableName + " (" +
      ColumnBookId + " INTEGER," +
      ColumnChapterIndex + " INTEGER," +
      ColumnTime + " REAL, UNIQUE(" + "book_id, chapter_index" + ") ON CONFLICT REPLACE)"
  }

  /** The statement that removes the table. */
  function SqlDeleteEntries(): (s: string)
    ensures s == "DROP TABLE IF EXISTS tracker"
  {
    "DROP TABLE IF EXISTS " + TableName
  }

  /** One row of `tracker`. A `None` key column is SQL NULL: the plugin writes
      NULL when no book information has been set yet. */
  datatype Row = Row(bookId: Option<int>, chapterIndex: Option<int>, time: real)
  {
    /** The row's value of the unique key, if neither part is NULL. */
    function Key(): Option<(int, int)>
    {
      if bookId.Some? && chapterIndex.Some? then Some((bookId.value, chapterIndex.value)) else None
    }
  }

  /** The rows of the table, in insertion (rowid) order. */
  type Table = seq<Row>

  /** Two rows clash under the UNIQUE constraint. For a UNIQUE constraint SQL
      NULL is distinct from every value, itself included. */
  predicate Conflicts(a: Row, b: Row)
  {
    a.Key().Some? && a.Key() == b.Key()
  }

  /** The table invariant the UNIQUE constraint maintains. */
  predicate UniqueKeys(t: Table)
  {
    forall i, j :: 0 <= i < j < |t| ==> !Conflicts(t[i], t[j])
  }

  /** The number of rows whose key is `k`. */
  function KeyCount(t: Table, k: (int, int)): nat
    decreases |t|
  {
    if t == [] then 0
    else KeyCount(t[..|t| - 1], k) + (if t[|t| - 1].Key() == Some(k) then 1 else 0)
  }

  /** The rows whose key is not `k`, in their order: the rows `REPLACE`
      deletes are exactly those with key `k`, and every other row keeps its
      multiplicity. */
  function Without(t: Table, k: (int, int)): (r: Table)
    ensures |r| + KeyCount(t, k) == |t|
    ensures forall i :: 0 <= i < |r| ==> r[i].Key() != Some(k)
    ensures forall x :: x in r ==> x in t
    decreases |t|
  {
    if t == [] then []
    else
      var rest := Without(t[..|t| - 1], k);
      var last := t[|t| - 1];
      if last.Key() == Some(k) then rest else rest + [last]
  }

  /** `REPLACE` deletes exactly the rows with key `k`: every other row keeps
      its multiplicity. */
  lemma {:induction false} WithoutMultiplicity(t: Table, k: (int, int), x: Row)
    ensures multiset(Without(t, k))[x] == if x.Key() == Some(k) then 0 else multiset(t)[x]
    decreases |t|
  {
    if t != [] {
      var init := t[..|t| - 1];
      var last := t[|t| - 1];
      assert t == init + [last];
      WithoutMultiplicity(init, k, x);
      if last.Key() != Some(k) {
        assert multiset(Without(t, k)) == multiset(Without(init, k)) + multiset{last};
      }
    }
  }

  /** `INSERT` of one row: a row with a non-NULL key first deletes the row it
      conflicts with (`ON CONFLICT REPLACE`); the new row is appended. */
  function Insert(t: Table, row: Row): (r: Table)
    ensures |r| > 0 && r[|r| - 1] == row
    ensures forall i :: 0 <= i < |r| - 1 ==> !Conflicts(r[i], row)
    ensures forall x :: x in r ==> x in t || x == row
  {
    if row.Key().Some? then Without(t, row.Key().value) + [row] else t + [row]
  }

  /** The last position recorded per key: the table as a map. */
  function Positions(t: Table): map<(int, int), real>
    decreases |t|
  {
    if t == [] then map[]
    else
      var m := Positions(t[..|t| - 1]);
      var last := t[|t| - 1];
      if last.Key().Some? then m[last.Key().value := last.time] else m
  }

  /** Every stored position is the time of a row carrying its key, and of
      the last such row. */
  lemma {:induction false} PositionsFromRows(t: Table, k: (int, int)) returns (i: nat)
    requires k in Positions(t)
    ensures i < |t| && t[i].Key() == Some(k) && t[i].time == Positions(t)[k]
    ensures forall j :: i < j < |t| ==> t[j].Key() != Some(k)
    decreases |t|
  {
    var init := t[..|t| - 1];
    var last := t[|t| - 1];
    if last.Key() == Some(k) {
      i := |t| - 1;
    } else {
      i := PositionsFromRows(init, k);
      assert forall j :: i < j < |init| ==> t[j] == init[j];
    }
  }

  lemma {:induction false} PositionsHasKey(t: Table, k: (int, int))
    ensures k in Positions(t) <==> KeyCount(t, k) > 0
    decreases |t|
  {
    if t != [] {
      PositionsHasKey(t[..|t| - 1], k);
    }
  }

  lemma {:induction false} PositionsWithout(t: Table, k: (int, int))
    ensures Positions(Without(t, k)) == Positions(t) - {k}
    decreases |t|
  {
    if t != [] {
      var init := t[..|t| - 1];
      var last := t[|t| - 1];
      PositionsWithout(init, k);
      if last.Key() != Some(k) {
        var rest := Without(init, k);
        assert (rest + [last])[..|rest + [last]| - 1] == rest;
      }
    }
  }

  lemma {:induction false} WithoutKeepsUnique(t: Table, k: (int, int))
    requires UniqueKeys(t)
    ensures UniqueKeys(Without(t, k))
    decreases |t|
  {
    if t != [] {
      var init := t[..|t| - 1];
      var last := t[|t| - 1];
      assert UniqueKeys(init);
      WithoutKeepsUnique(init, k);
      var rest := Without(init, k);
      if last.Key() != Some(k) {
        forall i | 0 <= i < |rest| ensures !Conflicts(rest[i], last) {
          assert rest[i] in init;
          var j :| 0 <= j < |init| && init[j] == rest[i];
          assert t[j] == rest[i];
        }
        var r := rest + [last];
        forall i, j | 0 <= i < j < |r| ensures !Conflicts(r[i], r[j]) {
          if j < |rest| {
            assert r[i] == rest[i] && r[j] == rest[j];
          } else {
            assert r[i] == rest[i] && r[j] == last;
          }
        }
      }
    }
  }

  lemma {:induction false} WithoutAbsent(t: Table, k: (int, int))
    requires KeyCount(t, k) == 0
    ensures Without(t, k) == t
    decreases |t|
  {
    if t != [] {
      var init := t[..|t| - 1];
      WithoutAbsent(init, k);
      assert init + [t[|t| - 1]] == t;
    }
  }

  lemma {:induction false} UniqueAtMostOne(t: Table, k: (int, int))
    requires UniqueKeys(t)
    ensures KeyCount(t, k) <= 1
    decreases |t|
  {
    if t != [] {
      var init := t[..|t| - 1];
      assert UniqueKeys(init);
      UniqueAtMostOne(init, k);
      if t[|t| - 1].Key() == Some(k) && KeyCount(init, k) == 1 {
        var i := KeyedRow(init, k);
        assert false;
      }
    }
  }

  /** An index of a row with key `k`, when there is one. */
  lemma {:induction false} KeyedRow(t: Table, k: (int, int)) returns (i: nat)
    requires KeyCount(t, k) > 0
    ensures i < |t| && t[i].Key() == Some(k)
    decreases |t|
  {
    var init := t[..|t| - 1];
    if t[|t| - 1].Key() == Some(k) {
      i := |t| - 1;
    } else {
      i := KeyedRow(init, k);
    }
  }

  /** The UNIQUE constraint holds after every insert: the table never holds
      two rows with the same non-NULL (book_id, chapter_index). */
  lemma InsertKeepsUnique(t: Table, row: Row)
    requires UniqueKeys(t)
    ensures UniqueKeys(Insert(t, row))
  {
    var r := Insert(t, row);
    var base := r[..|r| - 1];
    if row.Key().Some? {
      WithoutKeepsUnique(t, row.Key().value);
      assert base == Without(t, row.Key().value);
    } else {
      assert base == t;
    }
    forall i, j | 0 <= i < j < |r| ensures !Conflicts(r[i], r[j]) {
      if j < |r| - 1 {
        assert r[i] == base[i] && r[j] == base[j];
      }
    }
  }

  /** An insert records its time under its key and leaves every other key's
      position as it was; a row with a NULL key part changes no position. */
  lemma InsertPositions(t: Table, row: Row)
    ensures row.Key().Some? ==> Positions(Insert(t, row)) == Positions(t)[row.Key().value := row.time]
    ensures row.Key().None? ==> Positions(Insert(t, row)) == Positions(t)
  {
    var r := Insert(t, row);
    assert r[..|r| - 1] == if row.Key().Some? then Without(t, row.Key().value) else t;
    if row.Key().Some? {
      PositionsWithout(t, row.Key().value);
    }
  }

  /** What an insert does to the multiset of rows: every row that does not
      conflict with the new one (every row with a NULL key part among them)
      keeps its multiplicity, the new row is added once, and the rows it
      conflicts with are gone. */
  lemma InsertMultiplicity(t: Table, row: Row)
    ensures forall x :: !Conflicts(x, row) ==> multiset(Insert(t, row))[x] == multiset(t)[x] + (if x == row then 1 else 0)
    ensures forall x :: Conflicts(x, row) ==> multiset(Insert(t, row))[x] == if x == row then 1 else 0
  {
    if row.Key().Some? {
      var w := Without(t, row.Key().value);
      assert multiset(Insert(t, row)) == multiset(w) + multiset{row};
      forall x {
        WithoutMultiplicity(t, row.Key().value, x);
      }
    } else {
      assert multiset(Insert(t, row)) == multiset(t) + multiset{row};
    }
  }

  /** After an insert with a non-NULL key, exactly one row has that key, and
      it holds the inserted time. */
  lemma InsertLeavesOneRow(t: Table, row: Row)
    requires row.Key().Some?
    ensures KeyCount(Insert(t, row), row.Key().value) == 1
    ensures Positions(Insert(t, row))[row.Key().value] == row.time
  {
    var k := row.Key().value;
    var r := Insert(t, row);
    assert r[..|r| - 1] == Without(t, k);
    var w := Without(t, k);
    if KeyCount(w, k) > 0 {
      var i := KeyedRow(w, k);
      assert false;
    }
    InsertPositions(t, row);
  }

  /** Inserting under a key that is not yet present adds exactly that row and
      keeps all others; inserting under a present key keeps the row count. */
  lemma InsertNewOrExistingKey(t: Table, row: Row)
    requires UniqueKeys(t) && row.Key().Some?
    ensures row.Key().value !in Positions(t) ==> Insert(t, row) == t + [row]
    ensures row.Key().value in Positions(t) ==> |Insert(t, row)| == |t|
  {
    var k := row.Key().value;
    PositionsHasKey(t, k);
    UniqueAtMostOne(t, k);
    if k !in Positions(t) {
      WithoutAbsent(t, k);
    }
  }

  /** Last writer wins: two inserts under one key leave a single row, holding
      the second time. */
  lemma LastWriterWins(t: Table, first: Row, second: Row)
    requires first.Key().Some? && second.Key() == first.Key()
    ensures KeyCount(Insert(Insert(t, first), second), first.Key().value) == 1
    ensures Positions(Insert(Insert(t, first), second)) == Positions(t)[first.Key().value := second.time]
  {
    InsertPositions(t, first);
    InsertPositions(Insert(t, first), second);
    InsertLeavesOneRow(Insert(t, first), second);
  }

  /** Rows whose key has a NULL part never replace anything: every such insert
      adds one row. */
  lemma NullKeyRowsAccumulate(t: Table, row: Row)
    requires row.Key().None?
    ensures Insert(t, row) == t + [row] && |Insert(t, row)| == |t| + 1
  {
  }

  /** The two statements of the schema, applied to a database that may or may
      not hold the table (`None`: no table). */
  datatype Statement = CreateEntries | DeleteEntries

  datatype SqlError = TableExists

  function Execute(st: Statement, db: Option<Table>): (r: Result<Option<Table>, SqlError>)
    ensures st == DeleteEntries ==> r == Ok(None)
    ensures st == CreateEntries ==> (r.Ok? <==> db.None?)
    ensures r == Ok(Some([])) ==> st == CreateEntries
  {
    match st
    case CreateEntries => if db.None? then Ok(Some([])) else Err(TableExists)
    case DeleteEntries => Ok(None)
  }

  /** Dropping then creating the table, whatever was there before, yields an
      empty table that satisfies the UNIQUE invariant. */
  lemma DropThenCreateIsEmpty(db: Option<Table>)
    ensures Execute(DeleteEntries, db).Ok?
    ensures Execute(CreateEntries, Execute(DeleteEntries, db).value) == Ok(Some([]))
    ensures UniqueKeys([]) && Positions([]) == map[]
  {
  }
}
