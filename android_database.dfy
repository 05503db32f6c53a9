/**
 * The parts of android.database the DAO layer relies on, as an in-memory
 * database: ContentValues rows, tables keyed by row id, the selections the
 * DAOs build (conjunctions of "column = ?" and "column LIKE ?"), DISTINCT
 * queries answered in an unspecified order, Android's nested transactions
 * (a level ended without being marked successful fails its parent, and the
 * outermost end commits or rolls back), and a forward-only Cursor.
 */
module AndroidDatabase {
  import opened JavaLang

  /** A non-null column value. */
  datatype Value = LongValue(n: int) | TextValue(s: string)

  /** Object.toString of the value, and the text SQLite compares an argument with. */
  function Text(v: Value): string
  {
    match v
    case LongValue(n) => IntToString(n)
    case TextValue(s) => s
  }

  /** ContentValues, and one row of a table or cursor: a column absent from the map is NULL. */
  type Row = map<string, Value>

  /** One term of a selection: "column = ?" or "column LIKE ?" with its argument. */
  datatype Criterion = Criterion(column: string, like: bool, arg: string)

  /**
   * SQL LIKE: '%' matches any run of characters, '_' exactly one, and
   * letters compare without regard to ASCII case.
   */
  predicate LikeMatch(s: string, p: string)
    decreases |s| + |p|
  {
    if |p| == 0 then |s| == 0
    else if p[0] == '%' then LikeMatch(s, p[1..]) || (|s| > 0 && LikeMatch(s[1..], p))
    else |s| > 0 && (p[0] == '_' || ToLowerAscii(s[0]) == ToLowerAscii(p[0])) && LikeMatch(s[1..], p[1..])
  }

  /** A LIKE pattern without wildcards matches its own text. */
  lemma {:induction false} LikeMatchesItself(s: string)
    requires forall i :: 0 <= i < |s| ==> s[i] != '%' && s[i] != '_'
    ensures LikeMatch(s, s)
  {
    if |s| > 0 {
      LikeMatchesItself(s[1..]);
    }
  }

  /** "%" matches every text. */
  lemma {:induction false} LikeAnything(s: string)
    ensures LikeMatch(s, "%")
  {
    if |s| > 0 {
      LikeAnything(s[1..]);
    }
  }

  predicate Satisfies(row: Row, c: Criterion)
  {
    c.column in row && (if c.like then LikeMatch(Text(row[c.column]), c.arg) else Text(row[c.column]) == c.arg)
  }

  /** The selection holds: every criterion does (an empty selection selects every row). */
  predicate MatchesAll(row: Row, criteria: seq<Criterion>)
  {
    forall i :: 0 <= i < |criteria| ==> Satisfies(row, criteria[i])
  }

  /** A table: the INTEGER PRIMARY KEY column, which aliases the row id, and the rows by row id. */
  datatype Table = Table(keyColumn: string, rows: map<int, Row>)

  function MatchingKeys(t: Table, criteria: seq<Criterion>): set<int>
  {
    set k | k in t.rows && MatchesAll(t.rows[k], criteria)
  }

  function MatchingRows(t: Table, criteria: seq<Criterion>): set<Row>
  {
    set k | k in t.rows && MatchesAll(t.rows[k], criteria) :: t.rows[k]
  }

  /** delete with a selection: the rows that do not match it. */
  function Deleted(t: Table, criteria: seq<Criterion>): (r: Table)
    ensures r.keyColumn == t.keyColumn && r.rows.Keys == t.rows.Keys - MatchingKeys(t, criteria)
    ensures forall k :: k in r.rows ==> r.rows[k] == t.rows[k]
    ensures criteria == [] ==> r.rows == map[]
  {
    Table(t.keyColumn, map k | k in t.rows && !MatchesAll(t.rows[k], criteria) :: t.rows[k])
  }

  /**
   * update with a selection: every matching row takes the values of cv;
   * the key column keeps the row's own id.
   */
  function Updated(t: Table, criteria: seq<Criterion>, cv: Row): (r: Table)
    ensures r.keyColumn == t.keyColumn && r.rows.Keys == t.rows.Keys
    ensures forall k :: k in t.rows && !MatchesAll(t.rows[k], criteria) ==> r.rows[k] == t.rows[k]
    ensures forall k :: k in t.rows && MatchesAll(t.rows[k], criteria) ==>
      forall c :: c in cv && c != t.keyColumn ==> c in r.rows[k] && r.rows[k][c] == cv[c]
  {
    Table(t.keyColumn, map k | k in t.rows :: if MatchesAll(t.rows[k], criteria) then t.rows[k] + (cv - {t.keyColumn}) else t.rows[k])
  }

  /**
   * insert: a Long value in the key column is taken as the row id and
   * fails (-1, nothing stored) when taken already or when the value is no
   * integer; without one the row gets nextRowId. The stored row carries
   * its id in the key column.
   */
  function Inserted(t: Table, cv: Row, nextRowId: int): (r: (int, Table))
    requires nextRowId > 0 && forall k :: k in t.rows ==> k < nextRowId
    ensures r.1.keyColumn == t.keyColumn
    ensures r.0 == -1 ==> r.1 == t
    ensures r.0 != -1 ==> r.0 !in t.rows && r.1.rows == t.rows[r.0 := cv[t.keyColumn := LongValue(r.0)]]
    ensures t.keyColumn !in cv ==> r.0 == nextRowId
  {
    if t.keyColumn in cv then
      var v := cv[t.keyColumn];
      if v.LongValue? && v.n !in t.rows && v.n != -1 then
        assert cv[t.keyColumn := LongValue(v.n)] == cv;
        (v.n, Table(t.keyColumn, t.rows[v.n := cv]))
      else (-1, t)
    else (nextRowId, Table(t.keyColumn, t.rows[nextRowId := cv[t.keyColumn := LongValue(nextRowId)]]))
  }

  /** Every row id of every table lies below `bound`. */
  ghost predicate KeysBelow(ts: map<string, Table>, bound: int)
  {
    forall name :: name in ts ==> forall k :: k in ts[name].rows ==> k < bound
  }

  /** One level of SQLiteSession's transaction stack. */
  datatype Level = Level(marked: bool, childFailed: bool)

  /** setTransactionSuccessful on a stack: the innermost level marked. */
  function Marked(levels: seq<Level>): (r: seq<Level>)
    requires levels != []
    ensures |r| == |levels| && r[..|r| - 1] == levels[..|levels| - 1]
    ensures r[|r| - 1].marked && r[|r| - 1].childFailed == levels[|levels| - 1].childFailed
  {
    levels[..|levels| - 1] + [Level(true, levels[|levels| - 1].childFailed)]
  }

  /** Whether the innermost level succeeded: marked, and no level inside it failed. */
  function TopSucceeded(levels: seq<Level>): bool
    requires levels != []
  {
    levels[|levels| - 1].marked && !levels[|levels| - 1].childFailed
  }

  /**
   * endTransaction on the stack: the innermost level is popped, and a
   * nested one that did not succeed fails its parent.
   */
  function LevelsAfterEnd(levels: seq<Level>): (r: seq<Level>)
    requires levels != []
    ensures |r| == |levels| - 1
  {
    if |levels| > 1 then
      var parent := levels[|levels| - 2];
      levels[..|levels| - 2] + [Level(parent.marked, parent.childFailed || !TopSucceeded(levels))]
    else []
  }

  /**
   * endTransaction on the tables: a nested end keeps them; the outermost
   * one keeps them on success and restores the snapshot otherwise.
   */
  function TablesAfterEnd(levels: seq<Level>, tables: map<string, Table>, snapshot: map<string, Table>): map<string, Table>
    requires levels != []
  {
    if |levels| > 1 || TopSucceeded(levels) then tables else snapshot
  }

  /**
   * Ending a level pops it and keeps the levels below it; a nested end
   * never touches the tables, and the outermost one commits exactly when
   * the level was marked and no level inside it failed.
   */
  lemma AfterEndRules(levels: seq<Level>, tables: map<string, Table>, snapshot: map<string, Table>)
    requires levels != []
    ensures |levels| > 1 ==> TablesAfterEnd(levels, tables, snapshot) == tables
    ensures |levels| > 1 ==> LevelsAfterEnd(levels)[..|levels| - 2] == levels[..|levels| - 2]
    ensures |levels| > 1 ==> LevelsAfterEnd(levels)[|levels| - 2].marked == levels[|levels| - 2].marked
    ensures |levels| > 1 ==>
      (LevelsAfterEnd(levels)[|levels| - 2].childFailed <==> levels[|levels| - 2].childFailed || !TopSucceeded(levels))
    ensures |levels| == 1 ==>
      TablesAfterEnd(levels, tables, snapshot) == (if levels[0].marked && !levels[0].childFailed then tables else snapshot)
  {
  }

  /**
   * A nested transaction that ends unmarked dooms the outer one: even
   * marked successful, the outermost level then restores its snapshot.
   */
  lemma FailedChildForcesRollback(outer: Level, inner: Level, tables: map<string, Table>, snapshot: map<string, Table>)
    requires !inner.marked
    ensures var afterInner := LevelsAfterEnd([outer, inner]);
      LevelsAfterEnd(Marked(afterInner)) == [] &&
      TablesAfterEnd(Marked(afterInner), TablesAfterEnd([outer, inner], tables, snapshot), snapshot) == snapshot
  {
  }

  /** Marking and ending a level whose children all succeeded keeps what it wrote. */
  lemma CommitKeepsTables(levels: seq<Level>, tables: map<string, Table>, snapshot: map<string, Table>)
    requires levels != [] && !levels[|levels| - 1].childFailed
    ensures TablesAfterEnd(Marked(levels), tables, snapshot) == tables
    ensures |levels| > 1 ==> LevelsAfterEnd(Marked(levels)) == levels[..|levels| - 1]
  {
  }

  class Database {
    var tables: map<string, Table>
    /** The id a row inserted without one gets: above every id used so far. */
    var nextRowId: int
    /** The open transaction levels, outermost first. */
    var levels: seq<Level>
    /** The tables as they were when the outermost transaction began. */
    var snapshot: map<string, Table>

    ghost predicate Valid()
      reads this
    {
      nextRowId > 0 && KeysBelow(tables, nextRowId) && KeysBelow(snapshot, nextRowId) && snapshot.Keys == tables.Keys
    }

    constructor(tables: map<string, Table>, nextRowId: int)
      requires nextRowId > 0 && KeysBelow(tables, nextRowId)
      ensures Valid() && this.tables == tables && this.nextRowId == nextRowId && levels == []
    {
      this.tables := tables;
      this.nextRowId := nextRowId;
      levels := [];
      snapshot := tables;
    }

    /** beginTransaction: a new level; the outermost one remembers the tables. */
    method BeginTransaction()
      requires Valid()
      modifies this`levels, this`snapshot
      ensures Valid() && levels == old(levels) + [Level(false, false)]
      ensures snapshot == if old(levels) == [] then tables else old(snapshot)
    {
      if levels == [] {
        snapshot := tables;
      }
      levels := levels + [Level(false, false)];
    }

    /** setTransactionSuccessful: marks the innermost level (twice is an IllegalStateException). */
    method SetTransactionSuccessful()
      requires levels != [] && !levels[|levels| - 1].marked
      modifies this`levels
      ensures levels == Marked(old(levels))
    {
      levels := levels[..|levels| - 1] + [Level(true, levels[|levels| - 1].childFailed)];
    }

    /**
     * endTransaction: the innermost level succeeded when it was marked and
     * no level inside it failed. A failed inner level fails its parent;
     * the outermost level commits when it succeeded and otherwise restores
     * the tables it began with.
     */
    method EndTransaction()
      requires Valid() && levels != []
      modifies this`levels, this`tables
      ensures Valid() && nextRowId == old(nextRowId)
      ensures levels == LevelsAfterEnd(old(levels))
      ensures tables == TablesAfterEnd(old(levels), old(tables), old(snapshot))
    {
      var ok := TopSucceeded(levels);
      if |levels| > 1 {
        var parent := levels[|levels| - 2];
        levels := levels[..|levels| - 2] + [Level(parent.marked, parent.childFailed || !ok)];
      } else {
        levels := [];
        if !ok {
          tables := snapshot;
        }
      }
    }

    /** insert(table, null, values): the new row id, or -1. */
    method Insert(table: string, cv: Row) returns (key: int)
      requires Valid() && table in tables
      modifies this`tables, this`nextRowId
      ensures Valid() && tables.Keys == old(tables.Keys)
      ensures key == Inserted(old(tables[table]), cv, old(nextRowId)).0
      ensures tables == old(tables)[table := Inserted(old(tables[table]), cv, old(nextRowId)).1]
    {
      var r := Inserted(tables[table], cv, nextRowId);
      key := r.0;
      tables := tables[table := r.1];
      if key >= nextRowId {
        nextRowId := key + 1;
      }
    }

    /**
     * update(table, values, selection, args): the number of rows changed;
     * the selection is a conjunction of column tests.
     */
    method Update(table: string, criteria: seq<Criterion>, cv: Row) returns (count: int)
      requires Valid() && table in tables
      modifies this`tables
      ensures Valid() && tables.Keys == old(tables.Keys)
      ensures count == |MatchingKeys(old(tables[table]), criteria)|
      ensures tables == old(tables)[table := Updated(old(tables[table]), criteria, cv)]
    {
      count := |MatchingKeys(tables[table], criteria)|;
      tables := tables[table := Updated(tables[table], criteria, cv)];
    }

    /** delete(table, selection, args): the number of rows removed; no selection removes all. */
    method Delete(table: string, criteria: seq<Criterion>) returns (count: int)
      requires Valid() && table in tables
      modifies this`tables
      ensures Valid() && tables.Keys == old(tables.Keys)
      ensures count == |MatchingKeys(old(tables[table]), criteria)|
      ensures tables == old(tables)[table := Deleted(old(tables[table]), criteria)]
    {
      count := |MatchingKeys(tables[table], criteria)|;
      tables := tables[table := Deleted(tables[table], criteria)];
    }

    /**
     * query(true, table, columns, selection, args, ...): the distinct
     * matching rows, each once, in an order SQLite does not promise.
     */
    method Query(table: string, criteria: seq<Criterion>) returns (rows: seq<Row>)
      requires table in tables
      ensures Distinct(rows)
      ensures forall r :: r in rows <==> r in MatchingRows(tables[table], criteria)
      ensures |rows| == |MatchingRows(tables[table], criteria)|
      ensures criteria == [] ==> forall k :: k in tables[table].rows ==> tables[table].rows[k] in rows
    {
      var remaining := MatchingRows(tables[table], criteria);
      rows := [];
      while remaining != {}
        invariant remaining <= MatchingRows(tables[table], criteria)
        invariant Distinct(rows)
        invariant forall r :: r in rows <==> r in MatchingRows(tables[table], criteria) && r !in remaining
        invariant |rows| + |remaining| == |MatchingRows(tables[table], criteria)|
        decreases |remaining|
      {
        var r :| r in remaining;
        rows := rows + [r];
        remaining := remaining - {r};
      }
    }
  }

  /** Removing the matching rows leaves none that match, and the counts add up. */
  lemma DeletedLeavesNoMatch(t: Table, criteria: seq<Criterion>)
    ensures MatchingKeys(Deleted(t, criteria), criteria) == {}
    ensures |Deleted(t, criteria).rows| + |MatchingKeys(t, criteria)| == |t.rows|
  {
    var d := Deleted(t, criteria);
    assert d.rows.Keys == t.rows.Keys - MatchingKeys(t, criteria);
    assert MatchingKeys(t, criteria) <= t.rows.Keys;
    assert |t.rows.Keys| == |t.rows|;
    assert |d.rows.Keys| == |d.rows|;
  }

  /**
   * A forward-only cursor over query results. It starts before the first
   * row; moveToNext stops after the last.
   */
  class Cursor {
    const rows: seq<Row>
    var position: int

    ghost predicate Valid()
      reads this
    {
      -1 <= position <= |rows|
    }

    constructor(rows: seq<Row>)
      ensures Valid() && this.rows == rows && position == -1
    {
      this.rows := rows;
      position := -1;
    }

    /** isAfterLast: true for an empty cursor, or past its last row. */
    predicate IsAfterLast()
      reads this
    {
      |rows| == 0 || position == |rows|
    }

    /** moveToNext: one row on, or to the end; whether a row is now current. */
    method MoveToNext() returns (moved: bool)
      requires Valid()
      modifies this`position
      ensures Valid()
      ensures moved <==> old(position) + 1 < |rows|
      ensures position == if moved then old(position) + 1 else |rows|
    {
      if position + 1 >= |rows| {
        position := |rows|;
        moved := false;
      } else {
        position := position + 1;
        moved := true;
      }
    }
  }
}
