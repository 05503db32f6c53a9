/**
 * net/mantucon/baracus/dao/BaseDao.java: the generic DAO every entity DAO
 * derives from. It maps beans to rows through its RowMapper, decides
 * between insert and update, runs the optimistic version check, keeps the
 * transient flag, wraps writes in transactions and reports changes to the
 * application context.
 *
 * The database is the in-memory one of AndroidDatabase. A RowMapper is
 * described by the columns it maps (the way ConfigurationDao's does): the
 * id column, an optional version column and the bean's property columns.
 * The context's static emitters are replaced by an event log.
 */
module NetBaseDao {
  import opened JavaLang
  import opened NetField
  import opened AndroidDatabase
  import opened NetAbstractModelBase
  import NetModelBase

  const OPTIMISTIC_LOCKING_MODEL_BASE: string := "net.mantucon.baracus.orm.OptimisticLockingModelBase"

  /** OptimisticLockingModelBase.versionCol.fieldName. */
  const VERSION_COLUMN: string := "version"

  /** The runtime exceptions the DAO lets escape. */
  datatype DaoError =
    | IllegalArgumentException
    | UnsupportedOperationException
    | NullPointerException
    | ClassCastException
    | OptimisticLockException(entityName: string)

  /** The notifications BaracusApplicationContext.emit... receives. */
  datatype Event =
    | DeleteEvent(className: string)
    | SetChangeEvent(className: string)
    | DataChangeEvent(bean: AbstractModelBase)

  /** The application context as the DAO reaches it: the events emitted, in order. */
  class EventLog {
    var events: seq<Event>

    constructor()
      ensures events == []
    {
      events := [];
    }

    method Emit(e: Event)
      modifies this`events
      ensures events == old(events) + [e]
    {
      events := events + [e];
    }
  }

  /** What a row mapper reads and writes of a bean. */
  datatype BeanState = BeanState(id: Option<int>, version: int, properties: map<string, Value>)

  /**
   * One save as saveAll performs it: the bean, the tables, the next row id
   * and the bean's state it started from, whether it inserted, what it
   * threw, and the tables it left.
   */
  datatype SaveRecord = SaveRecord(item: AbstractModelBase, tables: map<string, Table>, next: int,
    state: BeanState, insert: bool, error: Option<DaoError>, after: map<string, Table>)

  function StateOf(b: AbstractModelBase): BeanState
    reads b`id, b`version, b`properties
  {
    BeanState(b.id, b.version, b.properties)
  }

  /**
   * RowMapper: the table, the field list, the optional name field, and
   * the columns from() and getContentValues() map.
   */
  datatype RowMapper = RowMapper(
    affectedTable: string,
    fieldList: seq<Field>,
    nameField: Option<Field>,
    idColumn: string,
    versionColumn: Option<string>,
    propertyColumns: set<string>)

  /** The mapped columns are different columns. */
  predicate WellFormed(m: RowMapper)
  {
    m.idColumn !in m.propertyColumns &&
    (m.versionColumn.Some? ==> m.versionColumn.value != m.idColumn && m.versionColumn.value !in m.propertyColumns)
  }

  /** Cursor.getLong: NULL and text that is no number read as 0. */
  function LongOf(row: Row, column: string): int
  {
    if column !in row then 0
    else match row[column]
      case LongValue(n) => n
      case TextValue(s) => if ParseInt(s).Some? then ParseInt(s).value else 0
  }

  /**
   * from(c): the id read with getLong, the version (when mapped) likewise,
   * and every mapped property present in the row read with getString.
   */
  function Mapped(m: RowMapper, row: Row): BeanState
  {
    BeanState(
      Some(LongOf(row, m.idColumn)),
      if m.versionColumn.Some? then LongOf(row, m.versionColumn.value) else 0,
      map c | c in m.propertyColumns && c in row :: TextValue(Text(row[c])))
  }

  /** getContentValues(item): the id and each mapped property, each only when non-null, and the version. */
  function ContentValuesOf(m: RowMapper, s: BeanState): Row
  {
    (map c | c in m.propertyColumns && c in s.properties :: s.properties[c])
    + (if m.versionColumn.Some? then map[m.versionColumn.value := LongValue(s.version)] else map[])
    + (if s.id.Some? then map[m.idColumn := LongValue(s.id.value)] else map[])
  }

  /**
   * Reading back what getContentValues wrote gives the bean's state again,
   * for a bean with an id whose properties are mapped strings.
   */
  lemma MappedContentValues(m: RowMapper, s: BeanState)
    requires WellFormed(m) && s.id.Some?
    requires s.properties.Keys <= m.propertyColumns
    requires forall c :: c in s.properties ==> s.properties[c].TextValue?
    requires m.versionColumn.None? ==> s.version == 0
    ensures Mapped(m, ContentValuesOf(m, s)) == s
  {
    var cv := ContentValuesOf(m, s);
    assert m.idColumn in cv && cv[m.idColumn] == LongValue(s.id.value);
    if m.versionColumn.Some? {
      assert cv[m.versionColumn.value] == LongValue(s.version);
    }
    var props := map c | c in m.propertyColumns && c in cv :: TextValue(Text(cv[c]));
    assert forall c :: c in m.propertyColumns ==> (c in cv <==> c in s.properties);
    assert props == s.properties;
  }

  /** The creation date save leaves on a bean: set on insert, and on update when missing. */
  function StampedCreation(insert: bool, timestamped: bool, creation: Option<int>, now: int): Option<int>
  {
    if timestamped && (insert || creation.None?) then Some(now) else creation
  }

  /** The modification date save leaves on a bean: always now for a Timestamped one. */
  function StampedModification(timestamped: bool, lastModification: Option<int>, now: int): Option<int>
  {
    if timestamped then Some(now) else lastModification
  }

  /**
   * A Timestamped bean leaves save with both dates set: an insert stamps
   * both with now, an update keeps a creation date that was set and always
   * refreshes the modification date; other beans keep their dates.
   */
  lemma StampedDatesRules(insert: bool, creation: Option<int>, lastModification: Option<int>, now: int)
    ensures StampedCreation(insert, true, creation, now).Some? && StampedModification(true, lastModification, now) == Some(now)
    ensures insert ==> StampedCreation(insert, true, creation, now) == Some(now)
    ensures !insert && creation.Some? ==> StampedCreation(insert, true, creation, now) == creation
    ensures StampedCreation(insert, false, creation, now) == creation && StampedModification(false, lastModification, now) == lastModification
  {
  }

  /**
   * The outcome of the version check on update: getById finds more than
   * one row, or none (el.getVersion() dereferences null), or a bean of a
   * managed class that is no OptmisticLocking (the cast fails), or the one
   * whose version must equal the bean's.
   */
  ghost function LockOutcome(m: RowMapper, rows: set<Row>, lockingDao: bool, version: int, entity: string): Option<DaoError>
  {
    if |rows| > 1 then Some(IllegalArgumentException)
    else if |rows| == 0 then Some(NullPointerException)
    else if !lockingDao then Some(ClassCastException)
    else if Mapped(m, TheRow(rows)).version != version then Some(OptimisticLockException(entity))
    else None
  }

  /** The row of a query that found exactly one. */
  ghost function TheRow(rows: set<Row>): (r: Row)
    requires |rows| == 1
    ensures r in rows
  {
    var r :| r in rows; r
  }

  lemma SingletonMember<T>(s: set<T>, a: T, b: T)
    requires |s| == 1 && a in s && b in s
    ensures a == b
  {
    var rest := s - {a};
    assert |rest| == 0;
    assert b !in rest;
  }

  /** What createLazyReference returns: a NullReference, or a LazyReference loading through daoClass. */
  datatype DaoReference = NullReference | LazyReference(daoClass: string, id: int)

  /** createLazyReference: a NullReference exactly when the id is null. */
  function CreateLazyReference(daoClass: string, id: Option<int>): (r: DaoReference)
    ensures r.NullReference? <==> id.None?
    ensures r.LazyReference? ==> r.daoClass == daoClass && r.id == id.value
  {
    if id.None? then NullReference else LazyReference(daoClass, id.value)
  }

  /** One where-clause term of queryByExample: LIKE for strings when wildcards are asked for. */
  function ExampleCriterion(column: string, v: Value, withWildCard: bool): Criterion
  {
    Criterion(column, withWildCard && v.TextValue?, Text(v))
  }

  /** The criteria of queryByExample for its entries in iteration order. */
  function ExampleCriteria(cv: Row, order: seq<string>, withWildCard: bool): seq<Criterion>
    requires forall k :: k in order ==> k in cv
  {
    seq(|order|, i requires 0 <= i < |order| => ExampleCriterion(order[i], cv[order[i]], withWildCard))
  }

  /** How one criterion is written into the clause. */
  function Term(c: Criterion): string
  {
    c.column + (if c.like then " LIKE ?" else " = ?")
  }

  function Terms(criteria: seq<Criterion>): seq<string>
  {
    seq(|criteria|, i requires 0 <= i < |criteria| => Term(criteria[i]))
  }

  /** The arguments, one per criterion, in clause order. */
  function Args(criteria: seq<Criterion>): seq<string>
  {
    seq(|criteria|, i requires 0 <= i < |criteria| => criteria[i].arg)
  }

  /**
   * Without wildcards an example selects exactly the rows that hold each
   * of its values in the same column.
   */
  lemma ExampleSelectsAgreeingRows(cv: Row, order: seq<string>, row: Row)
    requires forall k :: k in order <==> k in cv
    ensures MatchesAll(row, ExampleCriteria(cv, order, false)) <==> Agrees(row, cv)
  {
    var crit := ExampleCriteria(cv, order, false);
    if MatchesAll(row, crit) {
      forall k | k in cv
        ensures k in row && Text(row[k]) == Text(cv[k])
      {
        var i :| 0 <= i < |order| && order[i] == k;
        assert Satisfies(row, crit[i]);
      }
    }
    if forall k :: k in cv ==> k in row && Text(row[k]) == Text(cv[k]) {
      forall i | 0 <= i < |crit|
        ensures Satisfies(row, crit[i])
      {
        assert order[i] in cv;
      }
    }
  }

  /**
   * The rows a query by example without wildcards yields are the rows of
   * the table that agree with the example.
   */
  lemma ExampleQuerySelectsAgreeingRows(t: Table, cv: Row, order: seq<string>, rows: seq<Row>)
    requires forall k :: k in order <==> k in cv
    requires forall r :: r in rows <==> r in MatchingRows(t, ExampleCriteria(cv, order, false))
    ensures forall k :: k in t.rows ==> (t.rows[k] in rows <==> Agrees(t.rows[k], cv))
  {
    forall k | k in t.rows
      ensures t.rows[k] in rows <==> Agrees(t.rows[k], cv)
    {
      ExampleSelectsAgreeingRows(cv, order, t.rows[k]);
    }
  }

  /** With wildcards a string value without '%' or '_' still selects the rows holding it. */
  lemma ExampleWildcardKeepsExactRows(cv: Row, order: seq<string>, row: Row)
    requires forall k :: k in order <==> k in cv
    requires forall k :: k in cv ==> k in row && row[k] == cv[k]
    requires forall k, i :: k in cv && cv[k].TextValue? && 0 <= i < |cv[k].s| ==> cv[k].s[i] != '%' && cv[k].s[i] != '_'
    ensures MatchesAll(row, ExampleCriteria(cv, order, true))
  {
    var crit := ExampleCriteria(cv, order, true);
    forall i | 0 <= i < |crit|
      ensures Satisfies(row, crit[i])
    {
      var k := order[i];
      if cv[k].TextValue? {
        LikeMatchesItself(cv[k].s);
      }
    }
  }


  lemma ExampleCriteriaSnoc(cv: Row, order: seq<string>, key: string, withWildCard: bool)
    requires forall k :: k in order ==> k in cv
    requires key in cv
    ensures ExampleCriteria(cv, order + [key], withWildCard) == ExampleCriteria(cv, order, withWildCard) + [ExampleCriterion(key, cv[key], withWildCard)]
  {
  }

  /**
   * One step of walking a map's keys: the key taken from the remaining
   * ones joins the visited ones, which stay distinct.
   */
  lemma VisitKey<V>(m: map<string, V>, order: seq<string>, remaining: set<string>, key: string)
    requires remaining <= m.Keys && key in remaining
    requires forall k :: k in order <==> k in m && k !in remaining
    requires |order| + |remaining| == |m| && Distinct(order)
    ensures remaining - {key} <= m.Keys && |remaining - {key}| < |remaining|
    ensures forall k :: k in order + [key] <==> k in m && k !in remaining - {key}
    ensures |order + [key]| + |remaining - {key}| == |m| && Distinct(order + [key])
  {
    assert |remaining - {key}| == |remaining| - 1;
  }

  /** One more criterion: its term joined to the clause, its argument appended. */
  lemma ClauseStep(criteria: seq<Criterion>, c: Criterion)
    ensures JoinedBy(Terms(criteria + [c]), " AND ") ==
      (if |criteria| == 0 then "" else JoinedBy(Terms(criteria), " AND ") + " AND ") + Term(c)
    ensures Args(criteria + [c]) == Args(criteria) + [c.arg]
  {
    TermsSnoc(criteria, c);
    ArgsSnoc(criteria, c);
    JoinedBySnoc(Terms(criteria), Term(c), " AND ");
  }

  /** Adding a criterion appends its term. */
  lemma TermsSnoc(criteria: seq<Criterion>, c: Criterion)
    ensures Terms(criteria + [c]) == Terms(criteria) + [Term(c)]
  {
  }

  /** Adding a criterion appends its argument. */
  lemma ArgsSnoc(criteria: seq<Criterion>, c: Criterion)
    ensures Args(criteria + [c]) == Args(criteria) + [c.arg]
  {
  }

  /**
   * queryByExample's loop: the content values' entries in the order the
   * map yields them, each appended as a term (joined with " AND ") and
   * its value's text as the next argument.
   */
  method ExampleClause(cv: Row, withWildCard: bool) returns (clause: string, args: seq<string>, criteria: seq<Criterion>, ghost order: seq<string>)
    ensures forall k :: k in order <==> k in cv
    ensures |order| == |cv| && Distinct(order)
    ensures criteria == ExampleCriteria(cv, order, withWildCard)
    ensures clause == JoinedBy(Terms(criteria), " AND ")
    ensures args == Args(criteria)
  {
    var remaining := cv.Keys;
    clause, args, criteria, order := "", [], [], [];
    var withAnd := false;
    while remaining != {}
      invariant remaining <= cv.Keys
      invariant forall k :: k in order <==> k in cv && k !in remaining
      invariant |order| + |remaining| == |cv| && Distinct(order)
      invariant criteria == ExampleCriteria(cv, order, withWildCard)
      invariant clause == JoinedBy(Terms(criteria), " AND ")
      invariant args == Args(criteria)
      invariant withAnd <==> |order| > 0
      decreases |remaining|
    {
      var key :| key in remaining;
      var c := ExampleCriterion(key, cv[key], withWildCard);
      ClauseStep(criteria, c);
      if withAnd {
        clause := clause + " AND ";
      } else {
        withAnd := true;
      }
      clause := clause + Term(c);
      args := args + [c.arg];
      ExampleCriteriaSnoc(cv, order, key, withWildCard);
      VisitKey(cv, order, remaining, key);
      criteria := criteria + [c];
      order := order + [key];
      remaining := remaining - {key};
    }
    assert |cv.Keys| == |cv|;
  }

  /** A transaction handle over the DAO's database. */
  class TxHandle {
    const db: Database

    constructor(db: Database)
      ensures this.db == db
    {
      this.db := db;
    }

    /** commit: setTransactionSuccessful, then endTransaction. */
    method Commit()
      requires db.Valid() && db.levels != [] && !db.levels[|db.levels| - 1].marked
      modifies db`levels, db`tables
      ensures db.Valid() && db.snapshot == old(db.snapshot)
      ensures db.levels == LevelsAfterEnd(Marked(old(db.levels)))
      ensures db.tables == TablesAfterEnd(Marked(old(db.levels)), old(db.tables), old(db.snapshot))
    {
      db.SetTransactionSuccessful();
      db.EndTransaction();
    }

    /** rollback: endTransaction without marking. */
    method Rollback()
      requires db.Valid() && db.levels != []
      modifies db`levels, db`tables
      ensures db.Valid() && db.snapshot == old(db.snapshot)
      ensures db.levels == LevelsAfterEnd(old(db.levels))
      ensures db.tables == TablesAfterEnd(old(db.levels), old(db.tables), old(db.snapshot))
    {
      db.EndTransaction();
    }
  }

  class BaseDao {
    const managedClass: JavaClass
    const rowMapper: RowMapper
    const db: Database
    /** The application context the events go to. */
    const context: EventLog

    /**
     * The table exists, its key column is the DAO's id column, and the row
     * mapper writes the id there.
     */
    ghost predicate Valid()
      reads this, db
    {
      db.Valid() && rowMapper.affectedTable in db.tables && WellFormed(rowMapper) &&
      InstanceOf(managedClass, ABSTRACT_MODEL_BASE) &&
      rowMapper.idColumn == IdColumn() && db.tables[rowMapper.affectedTable].keyColumn == IdColumn()
    }

    /** BaseDao(Class): the managed class; the database and the row mapper come with the subclass. */
    constructor(managedClass: JavaClass, rowMapper: RowMapper, db: Database, context: EventLog)
      ensures this.managedClass == managedClass && this.rowMapper == rowMapper
      ensures this.db == db && this.context == context
    {
      this.managedClass := managedClass;
      this.rowMapper := rowMapper;
      this.db := db;
      this.context := context;
    }

    /** getIdField: "_id" for ModelBase classes, the legacy "id" otherwise; both key columns at 0. */
    function IdField(): (f: Field)
      ensures f.isKeyAttribute && f.fieldIndex == 0
      ensures f.fieldName == Some("_id") <==> InstanceOf(managedClass, NetModelBase.MODEL_BASE)
      ensures f.fieldName == Some("id") <==> !InstanceOf(managedClass, NetModelBase.MODEL_BASE)
    {
      if InstanceOf(managedClass, NetModelBase.MODEL_BASE) then NetModelBase.MODEL_ID_COL else ID_COL
    }

    /** The id column's name, as getIdField() + " = ?" writes it. */
    function IdColumn(): string
    {
      ValueOf(IdField().fieldName)
    }

    /** "id column = ?" with the id's text. */
    function IdCriteria(id: int): seq<Criterion>
    {
      [Criterion(IdColumn(), false, IntToString(id))]
    }

    /** What rowMapper.from gives: a bean of the managed class, read from the table, not transient. */
    ghost predicate Loaded(b: AbstractModelBase)
      reads this, b
    {
      b.Valid() && b.cls == managedClass && b.tableName == rowMapper.affectedTable && !b.isTransient &&
      b.isOldStyle == !InstanceOf(managedClass, NetModelBase.MODEL_BASE)
    }

    /** rowMapper.from(c): a new bean holding the current row's state. */
    method From(c: Cursor) returns (b: AbstractModelBase)
      requires InstanceOf(managedClass, ABSTRACT_MODEL_BASE) && 0 <= c.position < |c.rows|
      ensures fresh(b) && Loaded(b) && StateOf(b) == Mapped(rowMapper, c.rows[c.position])
    {
      var state := Mapped(rowMapper, c.rows[c.position]);
      b := new AbstractModelBase(managedClass, rowMapper.affectedTable, !InstanceOf(managedClass, NetModelBase.MODEL_BASE));
      b.id := state.id;
      b.version := state.version;
      b.properties := state.properties;
      b.SetTransient(false);
    }

    /**
     * iterateCursor: while the cursor is not after its last row and moves
     * on, the row it moved to is mapped; so every row after the current
     * one, in order.
     */
    method IterateCursor(c: Cursor) returns (result: seq<AbstractModelBase>)
      requires InstanceOf(managedClass, ABSTRACT_MODEL_BASE) && c.Valid()
      modifies c`position
      ensures c.Valid() && c.IsAfterLast()
      ensures |result| == if old(c.position) < |c.rows| then |c.rows| - old(c.position) - 1 else 0
      ensures forall i :: 0 <= i < |result| ==>
        fresh(result[i]) && Loaded(result[i]) && StateOf(result[i]) == Mapped(rowMapper, c.rows[old(c.position) + 1 + i])
    {
      result := [];
      var going := !c.IsAfterLast();
      if going {
        going := c.MoveToNext();
      }
      while going
        invariant c.Valid()
        invariant going ==> 0 <= c.position < |c.rows| && c.position == old(c.position) + 1 + |result|
        invariant !going ==> c.IsAfterLast()
        invariant !going ==> |result| == if old(c.position) < |c.rows| then |c.rows| - old(c.position) - 1 else 0
        invariant forall i :: 0 <= i < |result| ==>
          fresh(result[i]) && Loaded(result[i]) && StateOf(result[i]) == Mapped(rowMapper, c.rows[old(c.position) + 1 + i])
        decreases |c.rows| - c.position, going
      {
        var b := From(c);
        result := result + [b];
        going := c.MoveToNext();
      }
    }

    /** iterateCursor over a fresh cursor on the rows: every row mapped, in order. */
    method MapRows(rows: seq<Row>) returns (result: seq<AbstractModelBase>)
      requires InstanceOf(managedClass, ABSTRACT_MODEL_BASE)
      ensures |result| == |rows| && forall i :: 0 <= i < |result| ==>
        fresh(result[i]) && Loaded(result[i]) && StateOf(result[i]) == Mapped(rowMapper, rows[i])
    {
      var c := new Cursor(rows);
      result := IterateCursor(c);
    }

    /**
     * query(selection, args) as written: after the first moveToNext,
     * iterateCursor moves on again before mapping, so the first matching
     * row is never mapped; no match gives null.
     */
    method QueryAsWritten(criteria: seq<Criterion>) returns (result: Option<seq<AbstractModelBase>>, ghost rows: seq<Row>)
      requires Valid()
      ensures Distinct(rows) && forall r :: r in rows <==> r in MatchingRows(db.tables[rowMapper.affectedTable], criteria)
      ensures |rows| == |MatchingRows(db.tables[rowMapper.affectedTable], criteria)|
      ensures result.None? <==> |rows| == 0
      ensures result.Some? ==> |result.value| == |rows| - 1 && forall i :: 0 <= i < |result.value| ==>
        fresh(result.value[i]) && Loaded(result.value[i]) && StateOf(result.value[i]) == Mapped(rowMapper, rows[i + 1])
    {
      var found := db.Query(rowMapper.affectedTable, criteria);
      rows := found;
      var c := new Cursor(found);
      var moved := false;
      if !c.IsAfterLast() {
        moved := c.MoveToNext();
      }
      if moved {
        var list := IterateCursor(c);
        result := Some(list);
      } else {
        result := None;
      }
    }

    /** query(selection, args) mapping every matching row; no match still gives null. */
    method Query(criteria: seq<Criterion>) returns (result: Option<seq<AbstractModelBase>>, ghost rows: seq<Row>)
      requires Valid()
      ensures Distinct(rows) && forall r :: r in rows <==> r in MatchingRows(db.tables[rowMapper.affectedTable], criteria)
      ensures |rows| == |MatchingRows(db.tables[rowMapper.affectedTable], criteria)|
      ensures result.None? <==> |rows| == 0
      ensures result.Some? ==> |result.value| == |rows| && forall i :: 0 <= i < |result.value| ==>
        fresh(result.value[i]) && Loaded(result.value[i]) && StateOf(result.value[i]) == Mapped(rowMapper, rows[i])
    {
      var found := db.Query(rowMapper.affectedTable, criteria);
      rows := found;
      if |found| > 0 {
        var list := MapRows(found);
        result := Some(list);
      } else {
        result := None;
      }
    }

    /**
     * getUniqueByField: null when no row has the value, the mapped bean
     * when one does, IllegalArgumentException when several do.
     */
    method GetUniqueByField(field: Field, value: string) returns (r: Result<Option<AbstractModelBase>, DaoError>)
      requires Valid()
      ensures var rows := MatchingRows(db.tables[rowMapper.affectedTable], [Criterion(ValueOf(field.fieldName), false, value)]);
        (r == Success(None) <==> |rows| == 0) &&
        (r.Failure? <==> |rows| > 1) && (r.Failure? ==> r.error == IllegalArgumentException) &&
        (|rows| == 1 ==> (r.Success? && r.value.Some? && fresh(r.value.value) && Loaded(r.value.value) &&
                          StateOf(r.value.value) == Mapped(rowMapper, TheRow(rows))))
    {
      ghost var matching := MatchingRows(db.tables[rowMapper.affectedTable], [Criterion(ValueOf(field.fieldName), false, value)]);
      var rows := db.Query(rowMapper.affectedTable, [Criterion(ValueOf(field.fieldName), false, value)]);
      var c := new Cursor(rows);
      var moved := false;
      if !c.IsAfterLast() {
        moved := c.MoveToNext();
      }
      if moved {
        var b := From(c);
        var more := c.MoveToNext();
        if more {
          return Failure(IllegalArgumentException);
        }
        assert |rows| == 1 && rows[0] in matching;
        SingletonMember(matching, rows[0], TheRow(matching));
        r := Success(Some(b));
      } else {
        r := Success(None);
      }
    }

    /** getById: the unique bean whose id column holds the id's text ("null" for a null id). */
    method GetById(id: Option<int>) returns (r: Result<Option<AbstractModelBase>, DaoError>)
      requires Valid()
      ensures var rows := MatchingRows(db.tables[rowMapper.affectedTable], [Criterion(IdColumn(), false, if id.Some? then IntToString(id.value) else "null")]);
        (r == Success(None) <==> |rows| == 0) && (r.Failure? <==> |rows| > 1) &&
        (r.Failure? ==> r.error == IllegalArgumentException) &&
        (|rows| == 1 ==> (r.Success? && r.value.Some? && fresh(r.value.value) && Loaded(r.value.value) &&
                          StateOf(r.value.value) == Mapped(rowMapper, TheRow(rows))))
    {
      r := GetUniqueByField(IdField(), if id.Some? then IntToString(id.value) else "null");
    }

    /** getByName: getUniqueByField on the row mapper's name field; without one, UnsupportedOperationException. */
    method GetByName(name: string) returns (r: Result<Option<AbstractModelBase>, DaoError>)
      requires Valid()
      ensures rowMapper.nameField.None? <==> r == Failure(UnsupportedOperationException)
      ensures rowMapper.nameField.Some? ==>
        var rows := MatchingRows(db.tables[rowMapper.affectedTable], [Criterion(ValueOf(rowMapper.nameField.value.fieldName), false, name)]);
        (r == Success(None) <==> |rows| == 0) && (r.Failure? <==> |rows| > 1) &&
        (|rows| == 1 ==> r.Success? && r.value.Some? && fresh(r.value.value) && StateOf(r.value.value) == Mapped(rowMapper, TheRow(rows)))
    {
      if rowMapper.nameField.None? {
        return Failure(UnsupportedOperationException);
      }
      r := GetUniqueByField(rowMapper.nameField.value, name);
      assert r.Failure? ==> r.error == IllegalArgumentException;
    }

    /**
     * getByField: goes through query as written, so of the rows whose field
     * holds the value all but the first are mapped, and no match gives null.
     */
    method GetByField(field: Field, value: string) returns (result: Option<seq<AbstractModelBase>>, ghost rows: seq<Row>)
      requires Valid()
      ensures var matching := MatchingRows(db.tables[rowMapper.affectedTable], [Criterion(ValueOf(field.fieldName), false, value)]);
        Distinct(rows) && (forall r :: r in rows <==> r in matching) && |rows| == |matching|
      ensures result.None? <==> |rows| == 0
      ensures result.Some? ==> |result.value| == |rows| - 1 && forall i :: 0 <= i < |result.value| ==>
        fresh(result.value[i]) && Loaded(result.value[i]) && StateOf(result.value[i]) == Mapped(rowMapper, rows[i + 1])
    {
      result, rows := QueryAsWritten([Criterion(ValueOf(field.fieldName), false, value)]);
    }

    /** loadAll: every row of the table, mapped; an empty table gives an empty list. */
    method LoadAll() returns (result: seq<AbstractModelBase>, ghost rows: seq<Row>)
      requires Valid()
      ensures Distinct(rows) && forall r :: r in rows <==> r in MatchingRows(db.tables[rowMapper.affectedTable], [])
      ensures forall k :: k in db.tables[rowMapper.affectedTable].rows ==> db.tables[rowMapper.affectedTable].rows[k] in rows
      ensures |result| == |rows| && forall i :: 0 <= i < |result| ==>
        fresh(result[i]) && Loaded(result[i]) && StateOf(result[i]) == Mapped(rowMapper, rows[i])
    {
      var found := db.Query(rowMapper.affectedTable, []);
      rows := found;
      result := MapRows(found);
    }

    /** deleteById: deletes the rows holding the id; a null id throws NullPointerException. */
    method DeleteById(id: Option<int>) returns (r: Result<int, DaoError>)
      requires Valid()
      modifies db`tables
      ensures Valid()
      ensures id.None? ==> r == Failure(NullPointerException) && db.tables == old(db.tables)
      ensures id.Some? ==> r == Success(|MatchingKeys(old(db.tables[rowMapper.affectedTable]), IdCriteria(id.value))|)
      ensures id.Some? ==> db.tables == old(db.tables)[rowMapper.affectedTable := Deleted(old(db.tables[rowMapper.affectedTable]), IdCriteria(id.value))]
    {
      if id.None? {
        return Failure(NullPointerException);
      }
      var count := db.Delete(rowMapper.affectedTable, IdCriteria(id.value));
      r := Success(count);
    }

    /**
     * delete(model): a persisted bean's row is deleted by id, a delete
     * event is emitted and the bean becomes transient; a transient bean
     * gives -1 and nothing happens.
     */
    method Delete(model: AbstractModelBase) returns (r: Result<int, DaoError>)
      requires Valid()
      modifies db`tables, context`events, model`isTransient
      ensures Valid()
      ensures old(model.isTransient) ==>
        r == Success(-1) && db.tables == old(db.tables) && context.events == old(context.events) && model.isTransient
      ensures !old(model.isTransient) && model.id.None? ==>
        r == Failure(NullPointerException) && db.tables == old(db.tables) && context.events == old(context.events) && !model.isTransient
      ensures !old(model.isTransient) && model.id.Some? ==>
        r == Success(|MatchingKeys(old(db.tables[rowMapper.affectedTable]), IdCriteria(model.id.value))|) &&
        db.tables == old(db.tables)[rowMapper.affectedTable := Deleted(old(db.tables[rowMapper.affectedTable]), IdCriteria(model.id.value))] &&
        context.events == old(context.events) + [DeleteEvent(managedClass.name)] && model.isTransient
    {
      if !model.isTransient {
        r := DeleteById(model.id);
        if r.Failure? {
          return;
        }
        context.Emit(DeleteEvent(managedClass.name));
        model.SetTransient(true);
      } else {
        r := Success(-1);
      }
    }

    /** deleteAll: deletes every row of the table. */
    method DeleteAll()
      requires Valid()
      modifies db`tables
      ensures Valid() && db.tables == old(db.tables)[rowMapper.affectedTable := Table(IdColumn(), map[])]
    {
      var _ := db.Delete(rowMapper.affectedTable, []);
    }

    /** getTransaction: begins a transaction and hands it out. */
    method GetTransaction() returns (h: TxHandle)
      requires Valid()
      modifies db`levels, db`snapshot
      ensures Valid() && fresh(h) && h.db == db
      ensures db.levels == old(db.levels) + [Level(false, false)]
      ensures db.snapshot == if old(db.levels) == [] then db.tables else old(db.snapshot)
    {
      db.BeginTransaction();
      h := new TxHandle(db);
    }

    /** The entries queryByExample searches by: the content values, without "version" for a locking bean. */
    ghost function ExampleValues(example: AbstractModelBase): Row
      reads this, example
    {
      var cv := ContentValuesOf(rowMapper, StateOf(example));
      if InstanceOf(example.cls, OPTIMISTIC_LOCKING_MODEL_BASE) then cv - {VERSION_COLUMN} else cv
    }

    /**
     * queryByExample: every row matching all the example's non-null
     * entries, ANDed in the map's order (LIKE for strings when wildcards
     * are asked for). Without wildcards, exactly the rows that agree with
     * the example on each of those entries.
     */
    method QueryByExample(example: AbstractModelBase, withWildCard: bool) returns (result: seq<AbstractModelBase>, ghost rows: seq<Row>, ghost order: seq<string>)
      requires Valid()
      ensures forall k :: k in order <==> k in ExampleValues(example)
      ensures Distinct(rows)
      ensures forall r :: r in rows <==>
        r in MatchingRows(db.tables[rowMapper.affectedTable], ExampleCriteria(ExampleValues(example), order, withWildCard))
      ensures !withWildCard ==> forall k :: k in db.tables[rowMapper.affectedTable].rows ==>
        (db.tables[rowMapper.affectedTable].rows[k] in rows <==> Agrees(db.tables[rowMapper.affectedTable].rows[k], ExampleValues(example)))
      ensures |result| == |rows| && forall i :: 0 <= i < |result| ==>
        fresh(result[i]) && Loaded(result[i]) && StateOf(result[i]) == Mapped(rowMapper, rows[i])
    {
      var cv := ContentValuesOf(rowMapper, StateOf(example));
      if InstanceOf(example.cls, OPTIMISTIC_LOCKING_MODEL_BASE) {
        cv := cv - {VERSION_COLUMN};
      }
      var clause, args, criteria, keys := ExampleClause(cv, withWildCard);
      order := keys;
      var found := db.Query(rowMapper.affectedTable, criteria);
      rows := found;
      if !withWildCard {
        ExampleQuerySelectsAgreeingRows(db.tables[rowMapper.affectedTable], cv, order, rows);
      }
      result := MapRows(found);
    }

    /** The Timestamped part of save: both branches set the dates before the content values are built. */
    method Stamp(item: AbstractModelBase, insert: bool, now: int)
      modifies item`creationDate, item`lastModificationDate
      ensures item.creationDate == StampedCreation(insert, InstanceOf(item.cls, TIMESTAMPED), old(item.creationDate), now)
      ensures item.lastModificationDate == StampedModification(InstanceOf(item.cls, TIMESTAMPED), old(item.lastModificationDate), now)
    {
      if InstanceOf(item.cls, TIMESTAMPED) {
        if insert || item.creationDate.None? {
          item.creationDate := Some(now);
        }
        item.lastModificationDate := Some(now);
      }
    }

    /**
     * The version check of an update of an OptmisticLocking bean: the
     * outcome of reading the stored bean by id and comparing its version
     * with the bean's.
     */
    ghost function VersionCheck(t0: map<string, Table>, id: int, version: int): Option<DaoError>
      requires rowMapper.affectedTable in t0
    {
      LockOutcome(rowMapper, MatchingRows(t0[rowMapper.affectedTable], IdCriteria(id)),
        InstanceOf(managedClass, OPTMISTIC_LOCKING), version, SimpleName(managedClass.name))
    }

    /** What save throws: an insert never fails; an update of an OptmisticLocking bean fails as its version check does. */
    ghost function SaveError(t0: map<string, Table>, s0: BeanState, insert: bool, locking: bool): Option<DaoError>
      requires rowMapper.affectedTable in t0 && (insert || s0.id.Some?)
    {
      if insert || !locking then None else VersionCheck(t0, s0.id.value, s0.version)
    }

    /** The content values an insert stores and the row id insert answers. */
    ghost function InsertedRow(t0: map<string, Table>, next0: int, s0: BeanState): (int, Table)
      requires rowMapper.affectedTable in t0 && next0 > 0 && KeysBelow(t0, next0)
    {
      Inserted(t0[rowMapper.affectedTable], ContentValuesOf(rowMapper, s0), next0)
    }

    /**
     * The bean's state after save: an insert gives it the row id; an
     * update that passes the version check bumps the version of an
     * OptmisticLocking bean; a failed check leaves it as it was.
     */
    ghost function SavedState(t0: map<string, Table>, next0: int, s0: BeanState, insert: bool, locking: bool, failed: bool): BeanState
      requires rowMapper.affectedTable in t0 && (insert ==> next0 > 0 && KeysBelow(t0, next0))
    {
      if insert then BeanState(Some(InsertedRow(t0, next0, s0).0), s0.version, s0.properties)
      else if failed then s0
      else BeanState(s0.id, if locking then s0.version + 1 else s0.version, s0.properties)
    }

    /**
     * The tables after save: an insert stores the content values; an
     * update that passes the version check writes the content values of
     * the saved state to the rows holding the id; a failed check writes
     * nothing.
     */
    ghost function SavedTables(t0: map<string, Table>, next0: int, s0: BeanState, insert: bool, locking: bool, failed: bool): map<string, Table>
      requires rowMapper.affectedTable in t0 && (insert ==> next0 > 0 && KeysBelow(t0, next0)) && (insert || s0.id.Some?)
    {
      if insert then t0[rowMapper.affectedTable := InsertedRow(t0, next0, s0).1]
      else if failed then t0
      else t0[rowMapper.affectedTable := Updated(t0[rowMapper.affectedTable], IdCriteria(s0.id.value),
        ContentValuesOf(rowMapper, SavedState(t0, next0, s0, insert, locking, failed)))]
    }

    /** save's insert branch: stamp the dates, insert the content values, take the new row id. */
    method SaveInsert(item: AbstractModelBase, now: int)
      requires Valid() && (item.id.None? || item.isTransient)
      modifies item`id, item`isTransient, item`creationDate, item`lastModificationDate, db`tables, db`nextRowId
      ensures Valid() && item.id.Some? && !item.isTransient
      ensures StateOf(item) == SavedState(old(db.tables), old(db.nextRowId), old(StateOf(item)), true, InstanceOf(item.cls, OPTMISTIC_LOCKING), false)
      ensures db.tables == SavedTables(old(db.tables), old(db.nextRowId), old(StateOf(item)), true, InstanceOf(item.cls, OPTMISTIC_LOCKING), false)
      ensures item.creationDate == StampedCreation(true, InstanceOf(item.cls, TIMESTAMPED), old(item.creationDate), now)
      ensures item.lastModificationDate == StampedModification(InstanceOf(item.cls, TIMESTAMPED), old(item.lastModificationDate), now)
    {
      Stamp(item, true, now);
      var cv := ContentValuesOf(rowMapper, StateOf(item));
      var key := db.Insert(rowMapper.affectedTable, cv);
      item.SetId(Some(key));
      item.SetTransient(false);
    }

    /**
     * The OptmisticLocking check of save: the stored bean is read by id
     * (a null id reads as "null") and must carry the bean's version.
     */
    method CheckVersion(id: int, version: int) returns (error: Option<DaoError>)
      requires Valid()
      ensures error == VersionCheck(db.tables, id, version)
    {
      ghost var rows := MatchingRows(db.tables[rowMapper.affectedTable], IdCriteria(id));
      var el := GetById(Some(id));
      if el.Failure? {
        assert |rows| > 1;
        return Some(el.error);
      }
      if el.value.None? {
        assert |rows| == 0;
        return Some(NullPointerException);
      }
      assert |rows| == 1;
      if !InstanceOf(managedClass, OPTMISTIC_LOCKING) {
        return Some(ClassCastException);
      }
      assert el.value.value.version == Mapped(rowMapper, TheRow(rows)).version;
      if el.value.value.version != version {
        return Some(OptimisticLockException(SimpleName(managedClass.name)));
      }
      error := None;
    }

    /**
     * save's update branch: stamp the dates, run the version check for an
     * OptmisticLocking bean and bump its version when it passes, then
     * update the row holding the bean's id.
     */
    method SaveUpdate(item: AbstractModelBase, now: int) returns (error: Option<DaoError>)
      requires Valid() && item.id.Some? && !item.isTransient
      modifies item`creationDate, item`lastModificationDate, item`version, db`tables
      ensures Valid()
      ensures error == SaveError(old(db.tables), old(StateOf(item)), false, InstanceOf(item.cls, OPTMISTIC_LOCKING))
      ensures StateOf(item) == SavedState(old(db.tables), old(db.nextRowId), old(StateOf(item)), false, InstanceOf(item.cls, OPTMISTIC_LOCKING), error.Some?)
      ensures db.tables == SavedTables(old(db.tables), old(db.nextRowId), old(StateOf(item)), false, InstanceOf(item.cls, OPTMISTIC_LOCKING), error.Some?)
      ensures item.creationDate == StampedCreation(false, InstanceOf(item.cls, TIMESTAMPED), old(item.creationDate), now)
      ensures item.lastModificationDate == StampedModification(InstanceOf(item.cls, TIMESTAMPED), old(item.lastModificationDate), now)
    {
      ghost var s0 := StateOf(item);
      Stamp(item, false, now);
      assert StateOf(item) == s0;
      error := LockUpdate(item);
      if error.Some? {
        return;
      }
      WriteUpdate(item);
    }

    /** The version check of save's update branch and, when it passes, the version increment. */
    method LockUpdate(item: AbstractModelBase) returns (error: Option<DaoError>)
      requires Valid() && item.id.Some?
      modifies item`version
      ensures error == SaveError(db.tables, old(StateOf(item)), false, InstanceOf(item.cls, OPTMISTIC_LOCKING))
      ensures StateOf(item) == SavedState(db.tables, db.nextRowId, old(StateOf(item)), false, InstanceOf(item.cls, OPTMISTIC_LOCKING), error.Some?)
    {
      error := None;
      if InstanceOf(item.cls, OPTMISTIC_LOCKING) {
        error := CheckVersion(item.id.value, item.version);
        if error.Some? {
          return;
        }
        item.version := item.version + 1;
      }
    }

    /** The write of save's update branch: the bean's content values to the rows holding its id. */
    method WriteUpdate(item: AbstractModelBase)
      requires Valid() && item.id.Some?
      modifies db`tables
      ensures Valid()
      ensures db.tables == old(db.tables)[rowMapper.affectedTable :=
        Updated(old(db.tables)[rowMapper.affectedTable], IdCriteria(item.id.value), ContentValuesOf(rowMapper, StateOf(item)))]
    {
      var cv := ContentValuesOf(rowMapper, StateOf(item));
      var _ := db.Update(rowMapper.affectedTable, IdCriteria(item.id.value), cv);
    }

    /** save's try block without the transaction: insert or update. */
    method SaveBody(item: AbstractModelBase, now: int) returns (error: Option<DaoError>)
      requires Valid()
      modifies item`id, item`isTransient, item`creationDate, item`lastModificationDate, item`version, db`tables, db`nextRowId
      ensures Valid() && item.id.Some? && !item.isTransient
      ensures error.Some? ==> db.tables == old(db.tables)
      ensures error == SaveError(old(db.tables), old(StateOf(item)), old(item.id.None? || item.isTransient), InstanceOf(item.cls, OPTMISTIC_LOCKING))
      ensures StateOf(item) == SavedState(old(db.tables), old(db.nextRowId), old(StateOf(item)), old(item.id.None? || item.isTransient),
        InstanceOf(item.cls, OPTMISTIC_LOCKING), error.Some?)
      ensures db.tables == SavedTables(old(db.tables), old(db.nextRowId), old(StateOf(item)), old(item.id.None? || item.isTransient),
        InstanceOf(item.cls, OPTMISTIC_LOCKING), error.Some?)
      ensures item.creationDate == StampedCreation(old(item.id.None? || item.isTransient), InstanceOf(item.cls, TIMESTAMPED), old(item.creationDate), now)
      ensures item.lastModificationDate == StampedModification(InstanceOf(item.cls, TIMESTAMPED), old(item.lastModificationDate), now)
    {
      if item.id.None? || item.isTransient {
        SaveInsert(item, now);
        error := None;
      } else {
        error := SaveUpdate(item, now);
      }
    }

    /**
     * The end of save's own transaction: marked successful when the write
     * succeeded, then ended. A failed write leaves the level unmarked, so
     * the outermost one restores the tables it began with.
     */
    method EndLocalTransaction(success: bool)
      requires db.Valid() && db.levels != [] && db.levels[|db.levels| - 1] == Level(false, false)
      modifies db`levels, db`tables
      ensures db.Valid() && db.snapshot == old(db.snapshot) && db.nextRowId == old(db.nextRowId)
      ensures db.levels == LevelsAfterEnd(old(db.levels)[..|old(db.levels)| - 1] + [Level(success, false)])
      ensures db.tables == TablesAfterEnd(old(db.levels)[..|old(db.levels)| - 1] + [Level(success, false)], old(db.tables), old(db.snapshot))
    {
      ghost var outer := db.levels[..|db.levels| - 1];
      if success {
        db.SetTransactionSuccessful();
        assert db.levels == outer + [Level(true, false)];
      } else {
        assert db.levels == outer + [Level(false, false)];
      }
      db.EndTransaction();
    }

    /**
     * save(item, handle): a bean without id or marked transient is
     * inserted, any other one updated. Without a handle the write runs in
     * its own transaction, committed when it succeeds; an exception ends
     * that transaction unmarked. A successful insert emits a set change
     * event, a successful update a data change event.
     */
    method Save(item: AbstractModelBase, handle: Option<TxHandle>, now: int) returns (error: Option<DaoError>)
      requires Valid()
      modifies item`id, item`isTransient, item`creationDate, item`lastModificationDate, item`version
      modifies db`tables, db`nextRowId, db`levels, db`snapshot, context`events
      ensures Valid() && item.id.Some? && !item.isTransient
      ensures error == SaveError(old(db.tables), old(StateOf(item)), old(item.id.None? || item.isTransient), InstanceOf(item.cls, OPTMISTIC_LOCKING))
      ensures StateOf(item) == SavedState(old(db.tables), old(db.nextRowId), old(StateOf(item)), old(item.id.None? || item.isTransient),
        InstanceOf(item.cls, OPTMISTIC_LOCKING), error.Some?)
      ensures db.tables == SavedTables(old(db.tables), old(db.nextRowId), old(StateOf(item)), old(item.id.None? || item.isTransient),
        InstanceOf(item.cls, OPTMISTIC_LOCKING), error.Some?)
      ensures item.creationDate == StampedCreation(old(item.id.None? || item.isTransient), InstanceOf(item.cls, TIMESTAMPED), old(item.creationDate), now)
      ensures item.lastModificationDate == StampedModification(InstanceOf(item.cls, TIMESTAMPED), old(item.lastModificationDate), now)
      ensures context.events == old(context.events) + SaveEvents(item, old(item.id.None? || item.isTransient), error)
      ensures handle.Some? ==> db.levels == old(db.levels) && db.snapshot == old(db.snapshot)
      ensures handle.None? ==> db.levels == LevelsAfterEnd(old(db.levels) + [Level(error.None?, false)])
      ensures handle.None? ==> db.snapshot == if old(db.levels) == [] then old(db.tables) else old(db.snapshot)
    {
      var insert := item.id.None? || item.isTransient;
      error := SaveTransacted(item, handle, now);
      ghost var s1, t1 := StateOf(item), db.tables;
      Notify(item, insert, error);
      assert StateOf(item) == s1 && db.tables == t1;
    }

    /** save's write and its transaction, before the events. */
    method SaveTransacted(item: AbstractModelBase, handle: Option<TxHandle>, now: int) returns (error: Option<DaoError>)
      requires Valid()
      modifies item`id, item`isTransient, item`creationDate, item`lastModificationDate, item`version
      modifies db`tables, db`nextRowId, db`levels, db`snapshot
      ensures Valid() && item.id.Some? && !item.isTransient
      ensures error == SaveError(old(db.tables), old(StateOf(item)), old(item.id.None? || item.isTransient), InstanceOf(item.cls, OPTMISTIC_LOCKING))
      ensures StateOf(item) == SavedState(old(db.tables), old(db.nextRowId), old(StateOf(item)), old(item.id.None? || item.isTransient),
        InstanceOf(item.cls, OPTMISTIC_LOCKING), error.Some?)
      ensures db.tables == SavedTables(old(db.tables), old(db.nextRowId), old(StateOf(item)), old(item.id.None? || item.isTransient),
        InstanceOf(item.cls, OPTMISTIC_LOCKING), error.Some?)
      ensures item.creationDate == StampedCreation(old(item.id.None? || item.isTransient), InstanceOf(item.cls, TIMESTAMPED), old(item.creationDate), now)
      ensures item.lastModificationDate == StampedModification(InstanceOf(item.cls, TIMESTAMPED), old(item.lastModificationDate), now)
      ensures handle.Some? ==> db.levels == old(db.levels) && db.snapshot == old(db.snapshot)
      ensures handle.None? ==> db.levels == LevelsAfterEnd(old(db.levels) + [Level(error.None?, false)])
      ensures handle.None? ==> db.snapshot == if old(db.levels) == [] then old(db.tables) else old(db.snapshot)
    {
      var insert := item.id.None? || item.isTransient;
      ghost var s0, t0, n0 := StateOf(item), db.tables, db.nextRowId;
      if handle.None? {
        db.BeginTransaction();
      }
      assert StateOf(item) == s0 && db.tables == t0;
      error := SaveBody(item, now);
      ghost var s1, t1 := StateOf(item), db.tables;
      assert s1 == SavedState(t0, n0, s0, insert, InstanceOf(item.cls, OPTMISTIC_LOCKING), error.Some?);
      assert t1 == SavedTables(t0, n0, s0, insert, InstanceOf(item.cls, OPTMISTIC_LOCKING), error.Some?);
      if handle.None? {
        assert (old(db.levels) + [Level(false, false)])[..|old(db.levels)|] == old(db.levels);
        EndLocalTransaction(error.None?);
        assert db.tables == t1;
      }
    }

    /** The events save emits: none after an exception, a set change after an insert, a data change after an update. */
    function SaveEvents(item: AbstractModelBase, insert: bool, error: Option<DaoError>): (r: seq<Event>)
      ensures |r| <= 1
    {
      if error.Some? then [] else if insert then [SetChangeEvent(managedClass.name)] else [DataChangeEvent(item)]
    }

    method Notify(item: AbstractModelBase, insert: bool, error: Option<DaoError>)
      modifies context`events
      ensures context.events == old(context.events) + SaveEvents(item, insert, error)
    {
      if error.None? {
        if insert {
          context.Emit(SetChangeEvent(managedClass.name));
        } else {
          context.Emit(DataChangeEvent(item));
        }
      }
    }

    /** The record describes a save run from its start state: it threw what save throws there and left the tables save leaves. */
    ghost predicate SaveHolds(r: SaveRecord)
    {
      rowMapper.affectedTable in r.tables && r.next > 0 && KeysBelow(r.tables, r.next) && (r.insert || r.state.id.Some?) &&
      r.error == SaveError(r.tables, r.state, r.insert, InstanceOf(r.item.cls, OPTMISTIC_LOCKING)) &&
      r.after == SavedTables(r.tables, r.next, r.state, r.insert, InstanceOf(r.item.cls, OPTMISTIC_LOCKING), r.error.Some?)
    }

    /**
     * What one recorded save does to the tables: only the mapped table
     * changes, and a failed save changes nothing. An insert stores the
     * content values under a row id no row had (or stores nothing when
     * the key it carries is taken); an update gives the rows holding the
     * bean's id the content values of the saved state and leaves every
     * other row as it was.
     */
    lemma SaveRecordEffect(r: SaveRecord)
      requires SaveHolds(r)
      ensures r.after.Keys == r.tables.Keys
      ensures forall name :: name in r.tables && name != rowMapper.affectedTable ==> r.after[name] == r.tables[name]
      ensures r.error.Some? ==> r.after == r.tables
      ensures r.insert ==>
        var t0, t1, cv := r.tables[rowMapper.affectedTable], r.after[rowMapper.affectedTable], ContentValuesOf(rowMapper, r.state);
        var id := InsertedRow(r.tables, r.next, r.state).0;
        (id == -1 ==> t1 == t0) &&
        (id != -1 ==> id !in t0.rows && t1.rows == t0.rows[id := cv[t0.keyColumn := LongValue(id)]])
      ensures !r.insert && r.error.None? ==>
        var t0, t1 := r.tables[rowMapper.affectedTable], r.after[rowMapper.affectedTable];
        var cv := ContentValuesOf(rowMapper, SavedState(r.tables, r.next, r.state, false, InstanceOf(r.item.cls, OPTMISTIC_LOCKING), false));
        t1.rows.Keys == t0.rows.Keys &&
        (forall k :: k in t0.rows && !MatchesAll(t0.rows[k], IdCriteria(r.state.id.value)) ==> t1.rows[k] == t0.rows[k]) &&
        (forall k, c :: k in t0.rows && MatchesAll(t0.rows[k], IdCriteria(r.state.id.value)) && c in cv && c != t0.keyColumn ==>
          c in t1.rows[k] && t1.rows[k][c] == cv[c])
    {
    }

    /** The saves run one after the other from t0, each from the tables the previous one left, ending in t1. */
    ghost predicate SaveChain(trace: seq<SaveRecord>, t0: map<string, Table>, t1: map<string, Table>)
    {
      (forall j {:trigger SaveHolds(trace[j])} :: 0 <= j < |trace| ==> SaveHolds(trace[j])) &&
      (forall j :: 0 <= j < |trace| - 1 ==> trace[j + 1].tables == trace[j].after) &&
      if trace == [] then t1 == t0 else trace[0].tables == t0 && t1 == trace[|trace| - 1].after
    }

    /** The events of the recorded saves, in order. */
    ghost function TraceEvents(trace: seq<SaveRecord>): seq<Event>
      decreases |trace|
    {
      if trace == [] then []
      else
        var r := trace[|trace| - 1];
        TraceEvents(trace[..|trace| - 1]) + SaveEvents(r.item, r.insert, r.error)
    }

    /** A save run from where a chain ended extends it. */
    lemma ChainExtend(trace: seq<SaveRecord>, r: SaveRecord, t0: map<string, Table>, t1: map<string, Table>)
      requires SaveChain(trace, t0, t1) && SaveHolds(r) && r.tables == t1
      ensures SaveChain(trace + [r], t0, r.after)
      ensures TraceEvents(trace + [r]) == TraceEvents(trace) + SaveEvents(r.item, r.insert, r.error)
    {
      assert (trace + [r])[..|trace|] == trace;
    }

    /** The trace holds one record per bean from the start of list, each for its bean, only the one at failedAt throwing. */
    ghost predicate Recorded(list: seq<AbstractModelBase>, trace: seq<SaveRecord>, failedAt: int)
    {
      |trace| <= |list| && forall j :: 0 <= j < |trace| ==> trace[j].item == list[j] && (trace[j].error.Some? <==> j == failedAt)
    }

    /** A bean saved for the first time started from its state in states and its insert flag in inserts. */
    ghost predicate FirstStates(list: seq<AbstractModelBase>, trace: seq<SaveRecord>, states: seq<BeanState>, inserts: seq<bool>)
    {
      |trace| <= |list| == |states| == |inserts| &&
      forall j :: 0 <= j < |trace| && NotBefore(list, j, j) ==> trace[j].state == states[j] && trace[j].insert == inserts[j]
    }

    /**
     * The trace is saveAll's run over list: one record per bean up to the
     * first failing save (failed) or to the end, only the failing one
     * throwing; the beans started from states and inserts; and the saves
     * chain from t0 to t1.
     */
    ghost predicate SavedInTurn(list: seq<AbstractModelBase>, failed: Option<nat>, trace: seq<SaveRecord>,
                                states: seq<BeanState>, inserts: seq<bool>, t0: map<string, Table>, t1: map<string, Table>)
    {
      (failed.Some? ==> failed.value < |list|) &&
      |trace| == (if failed.None? then |list| else failed.value + 1) &&
      Recorded(list, trace, if failed.None? then -1 else failed.value) &&
      FirstStates(list, trace, states, inserts) && SaveChain(trace, t0, t1)
    }

    /** The first n beans have ids and are marked persistent. */
    ghost predicate Persisted(list: seq<AbstractModelBase>, n: nat)
      reads list
    {
      n <= |list| && forall j :: 0 <= j < n ==> list[j].id.Some? && !list[j].isTransient
    }

    /** Every bean from position i on that is not saved yet still has its state in states and its insert flag in inserts. */
    ghost predicate NotYetSaved(list: seq<AbstractModelBase>, i: nat, states: seq<BeanState>, inserts: seq<bool>)
      reads list
    {
      i <= |list| == |states| == |inserts| &&
      forall k :: i <= k < |list| && NotBefore(list, i, k) ==>
        StateOf(list[k]) == states[k] && (list[k].id.None? || list[k].isTransient) == inserts[k]
    }

    /** Appending the record of the next bean's save, started from its state before the loop, extends the run. */
    lemma RunExtend(list: seq<AbstractModelBase>, trace: seq<SaveRecord>, r: SaveRecord, states: seq<BeanState>, inserts: seq<bool>)
      requires |trace| < |list| && Recorded(list, trace, -1) && FirstStates(list, trace, states, inserts)
      requires r.item == list[|trace|]
      requires NotBefore(list, |trace|, |trace|) ==> r.state == states[|trace|] && r.insert == inserts[|trace|]
      ensures Recorded(list, trace + [r], if r.error.None? then -1 else |trace|)
      ensures FirstStates(list, trace + [r], states, inserts)
    {
    }

    /** The beans' states, position by position. */
    ghost function StatesOf(list: seq<AbstractModelBase>): (r: seq<BeanState>)
      reads list
      ensures |r| == |list| && forall k :: 0 <= k < |list| ==> r[k] == StateOf(list[k])
    {
      seq(|list|, k requires 0 <= k < |list| reads list => StateOf(list[k]))
    }

    /** Whether save would insert each bean, position by position. */
    ghost function InsertFlags(list: seq<AbstractModelBase>): (r: seq<bool>)
      reads list
      ensures |r| == |list| && forall k :: 0 <= k < |list| ==> r[k] == (list[k].id.None? || list[k].isTransient)
    {
      seq(|list|, k requires 0 <= k < |list| reads list => list[k].id.None? || list[k].isTransient)
    }

    /** No bean before position i is the bean at position k. */
    ghost predicate NotBefore(list: seq<AbstractModelBase>, i: int, k: int)
      requires 0 <= i <= |list| && 0 <= k < |list|
    {
      forall p :: 0 <= p < i ==> list[p] != list[k]
    }

    /**
     * A save as saveAll's loop relies on it: the save is recorded, its
     * record extending the chain of the saves before it and its events
     * following theirs; the transaction levels are as save leaves them.
     */
    method SaveStep(item: AbstractModelBase, handle: Option<TxHandle>, now: int,
                    ghost trace: seq<SaveRecord>, ghost t0: map<string, Table>, ghost e0: seq<Event>)
      returns (error: Option<DaoError>, ghost r: SaveRecord)
      requires Valid() && SaveChain(trace, t0, db.tables) && context.events == e0 + TraceEvents(trace)
      modifies item`id, item`isTransient, item`creationDate, item`lastModificationDate, item`version
      modifies db`tables, db`nextRowId, db`levels, db`snapshot, context`events
      ensures Valid() && item.id.Some? && !item.isTransient
      ensures r == SaveRecord(item, old(db.tables), old(db.nextRowId), old(StateOf(item)), old(item.id.None? || item.isTransient), error, db.tables)
      ensures SaveChain(trace + [r], t0, db.tables) && context.events == e0 + TraceEvents(trace + [r])
      ensures handle.Some? ==> db.levels == old(db.levels) && db.snapshot == old(db.snapshot)
      ensures handle.None? ==> db.levels == LevelsAfterEnd(old(db.levels) + [Level(error.None?, false)])
      ensures handle.None? ==> db.snapshot == if old(db.levels) == [] then old(db.tables) else old(db.snapshot)
    {
      r := SaveRecord(item, db.tables, db.nextRowId, StateOf(item), item.id.None? || item.isTransient, None, map[]);
      error := Save(item, handle, now);
      r := r.(error := error, after := db.tables);
      ChainExtend(trace, r, t0, r.tables);
    }

    /** The save of the bean at position i: the beans before it stay persisted, the other unsaved ones as they were. */
    method SaveBean(list: seq<AbstractModelBase>, i: nat, handle: Option<TxHandle>, now: int,
                    ghost trace: seq<SaveRecord>, ghost t0: map<string, Table>, ghost e0: seq<Event>,
                    ghost states: seq<BeanState>, ghost inserts: seq<bool>)
      returns (error: Option<DaoError>, ghost r: SaveRecord)
      requires Valid() && i < |list| && NotYetSaved(list, i, states, inserts) && Persisted(list, i)
      requires SaveChain(trace, t0, db.tables) && context.events == e0 + TraceEvents(trace)
      modifies list
      modifies db`tables, db`nextRowId, db`levels, db`snapshot, context`events
      ensures Valid() && NotYetSaved(list, i + 1, states, inserts) && Persisted(list, i + 1)
      ensures r.item == list[i] && r.error == error
      ensures NotBefore(list, i, i) ==> r.state == states[i] && r.insert == inserts[i]
      ensures SaveChain(trace + [r], t0, db.tables) && context.events == e0 + TraceEvents(trace + [r])
      ensures handle.Some? ==> db.levels == old(db.levels) && db.snapshot == old(db.snapshot)
      ensures handle.None? ==> db.levels == LevelsAfterEnd(old(db.levels) + [Level(error.None?, false)])
      ensures handle.None? ==> db.snapshot == if old(db.levels) == [] then old(db.tables) else old(db.snapshot)
    {
      error, r := SaveStep(list[i], handle, now, trace, t0, e0);
    }

    /**
     * One turn of saveAll's loop, reached only while every earlier save
     * succeeded: the bean at position i is saved and its record appended
     * to the trace. states and inserts are the beans' states and insert
     * flags from before the loop, which the beans not yet saved still have.
     */
    method SaveNext(list: seq<AbstractModelBase>, i: nat, handle: Option<TxHandle>, now: int,
                    ghost trace: seq<SaveRecord>, ghost t0: map<string, Table>, ghost e0: seq<Event>,
                    ghost states: seq<BeanState>, ghost inserts: seq<bool>, ghost outer: seq<Level>)
      returns (error: Option<DaoError>, ghost trace': seq<SaveRecord>)
      requires Valid() && i < |list| && |trace| == i
      requires Recorded(list, trace, -1) && FirstStates(list, trace, states, inserts)
      requires NotYetSaved(list, i, states, inserts) && Persisted(list, i)
      requires SaveChain(trace, t0, db.tables) && context.events == e0 + TraceEvents(trace)
      requires handle.None? ==> db.levels == outer + [Level(false, false)]
      modifies list
      modifies db`tables, db`nextRowId, db`levels, db`snapshot, context`events
      ensures Valid() && db.snapshot == old(db.snapshot) && |trace'| == i + 1
      ensures Recorded(list, trace', if error.None? then -1 else i) && FirstStates(list, trace', states, inserts)
      ensures error.None? ==> NotYetSaved(list, i + 1, states, inserts)
      ensures Persisted(list, i + 1)
      ensures SaveChain(trace', t0, db.tables) && context.events == e0 + TraceEvents(trace')
      ensures handle.Some? ==> db.levels == old(db.levels)
      ensures handle.None? ==> db.levels == outer + [Level(false, !error.None?)]
    {
      ghost var r;
      error, r := SaveBean(list, i, handle, now, trace, t0, e0, states, inserts);
      NestedSaveEnd(outer, false, error.None?);
      RunExtend(list, trace, r, states, inserts);
      trace' := trace + [r];
    }

    /**
     * saveAll's loop: each bean saved in turn with the caller's handle,
     * until the first save that fails. Without a handle every save opens
     * and ends its own level inside the innermost one, which a failure
     * marks as having a failed child. The trace records every save run:
     * the saves chain from the tables the loop began with to the tables it
     * leaves, the events are theirs in order, and a bean saved for the
     * first time starts from the state it had when the loop began.
     */
    method SaveEach(list: seq<AbstractModelBase>, handle: Option<TxHandle>, now: int)
      returns (saved: bool, ghost failed: Option<nat>, ghost trace: seq<SaveRecord>)
      requires Valid()
      requires handle.None? ==> db.levels != [] && db.levels[|db.levels| - 1] == Level(false, false)
      modifies list
      modifies db`tables, db`nextRowId, db`levels, db`snapshot, context`events
      ensures Valid() && db.snapshot == old(db.snapshot)
      ensures saved <==> failed.None?
      ensures SavedInTurn(list, failed, trace, old(StatesOf(list)), old(InsertFlags(list)), old(db.tables), db.tables)
      ensures context.events == old(context.events) + TraceEvents(trace)
      ensures Persisted(list, |trace|)
      ensures handle.Some? ==> db.levels == old(db.levels)
      ensures handle.None? ==> db.levels == old(db.levels)[..|old(db.levels)| - 1] + [Level(false, !saved)]
    {
      ghost var outer := if handle.None? then db.levels[..|db.levels| - 1] else [];
      ghost var states, inserts := StatesOf(list), InsertFlags(list);
      failed := None;
      trace := [];
      saved := true;
      var i := 0;
      while i < |list| && saved
        invariant Valid() && 0 <= i <= |list| && db.snapshot == old(db.snapshot) && |trace| == i
        invariant saved <==> failed.None?
        invariant failed.Some? ==> failed.value == i - 1 && i >= 1
        invariant Recorded(list, trace, if saved then -1 else i - 1) && FirstStates(list, trace, states, inserts)
        invariant saved ==> NotYetSaved(list, i, states, inserts)
        invariant Persisted(list, i)
        invariant SaveChain(trace, old(db.tables), db.tables)
        invariant context.events == old(context.events) + TraceEvents(trace)
        invariant handle.Some? ==> db.levels == old(db.levels)
        invariant handle.None? ==> db.levels == outer + [Level(false, !saved)]
        decreases |list| - i
      {
        var error;
        error, trace := SaveNext(list, i, handle, now, trace, old(db.tables), old(context.events), states, inserts, outer);
        saved := error.None?;
        if error.Some? {
          failed := Some(i);
        }
        i := i + 1;
      }
    }

    /**
     * saveAll(list, handle): each bean saved in turn, handing each save
     * the caller's handle (so without one, each save opens its own
     * transaction inside the one saveAll began). The first failing save
     * ends the loop; its exception is swallowed, and only a local
     * transaction is then rolled back. The saved beans keep their ids and
     * stay marked persistent even when their rows are rolled back.
     * The tables are those the chain of saves wrote, except after a
     * failure rolls back an outermost local transaction, which restores
     * the tables saveAll began with.
     */
    method SaveAll(list: seq<AbstractModelBase>, handle: Option<TxHandle>, now: int)
      returns (ghost failed: Option<nat>, ghost trace: seq<SaveRecord>, ghost written: map<string, Table>)
      requires Valid()
      modifies list
      modifies db`tables, db`nextRowId, db`levels, db`snapshot, context`events
      ensures Valid()
      ensures SavedInTurn(list, failed, trace, old(StatesOf(list)), old(InsertFlags(list)), old(db.tables), written)
      ensures context.events == old(context.events) + TraceEvents(trace)
      ensures Persisted(list, |trace|)
      ensures handle.Some? || failed.None? || old(db.levels) != [] ==> db.tables == written
      ensures handle.None? && failed.Some? && old(db.levels) == [] ==> db.tables == old(db.tables)
      ensures handle.Some? ==> db.levels == old(db.levels) && db.snapshot == old(db.snapshot)
      ensures handle.None? && failed.None? ==> db.levels == old(db.levels)
      ensures handle.None? && failed.Some? ==> db.levels == LevelsAfterEnd(old(db.levels) + [Level(false, true)])
    {
      ghost var states, inserts := StatesOf(list), InsertFlags(list);
      var txHandle: TxHandle;
      if handle.None? {
        txHandle := GetTransaction();
        assert (old(db.levels) + [Level(false, false)])[..|old(db.levels)|] == old(db.levels);
      } else {
        txHandle := handle.value;
      }
      assert StatesOf(list) == states && InsertFlags(list) == inserts;
      var saved;
      saved, failed, trace := SaveEach(list, handle, now);
      written := db.tables;
      if handle.None? {
        EndOwnTransaction(txHandle, saved, old(db.levels));
      }
    }

    /**
     * The end of the transaction saveAll began itself: committed when
     * every save succeeded, rolled back otherwise. Only an outermost
     * rollback touches the tables, restoring its snapshot.
     */
    method EndOwnTransaction(txHandle: TxHandle, saved: bool, ghost base: seq<Level>)
      requires db.Valid() && txHandle.db == db && db.levels == base + [Level(false, !saved)]
      modifies db`levels, db`tables
      ensures db.Valid() && db.snapshot == old(db.snapshot)
      ensures saved || base != [] ==> db.tables == old(db.tables)
      ensures !saved && base == [] ==> db.tables == old(db.snapshot)
      ensures saved ==> db.levels == base
      ensures !saved ==> db.levels == LevelsAfterEnd(base + [Level(false, true)])
    {
      if saved {
        txHandle.Commit();
        CommitKeepsTables(base + [Level(false, false)], old(db.tables), db.snapshot);
      } else {
        txHandle.Rollback();
      }
    }
  }

  /** Ending a save's own level that succeeded or not inside an unmarked level records the failure there. */
  lemma NestedSaveEnd(outer: seq<Level>, failedBefore: bool, ok: bool)
    ensures LevelsAfterEnd(outer + [Level(false, failedBefore)] + [Level(ok, false)]) == outer + [Level(false, failedBefore || !ok)]
  {
    var levels := outer + [Level(false, failedBefore)] + [Level(ok, false)];
    assert levels[..|levels| - 2] == outer;
  }

  /** The row holds each of the entries' values, compared as text. */
  predicate Agrees(row: Row, cv: Row)
  {
    forall k :: k in cv ==> k in row && Text(row[k]) == Text(cv[k])
  }
}
