/**
 * org/baracus/orm/OptimisticLockingModelBase.java: ModelBase beans with a
 * version column for optimistic locking, their own equals, and the
 * exception a failed version check throws.
 */
module OrgOptimisticLockingModelBase {
  import opened JavaLang
  import opened NetField
  import opened OrgAbstractModelBase
  import opened OrgModelBase
  import OrgFieldList

  const OPTIMISTIC_LOCKING_MODEL_BASE: string := "org.baracus.orm.OptimisticLockingModelBase"

  const LOCK_FAILURE_PREFIX: string := "Optimistic locking failed for entity "

  /** OptimisticLockException: the entity's name and the message built from it. */
  datatype OptimisticLockException = OptimisticLockException(entityName: string, message: string)

  function NewOptimisticLockException(entityName: string): (e: OptimisticLockException)
    ensures e.entityName == entityName
    ensures |e.message| == |LOCK_FAILURE_PREFIX| + |entityName|
    ensures e.message[..|LOCK_FAILURE_PREFIX|] == LOCK_FAILURE_PREFIX && e.message[|LOCK_FAILURE_PREFIX|..] == entityName
  {
    OptimisticLockException(entityName, LOCK_FAILURE_PREFIX + entityName)
  }

  /**
   * versionCol: "version", a key column, at the index ModelBase.fieldList.size()
   * had when the class was initialised.
   */
  function VersionCol(modelBaseFieldList: OrgFieldList.FieldList): (f: Field)
    reads modelBaseFieldList
    ensures f.fieldName == Some("version") && f.isKeyAttribute
    ensures f.fieldIndex == |modelBaseFieldList.fields|
  {
    Field(Some("version"), modelBaseFieldList.Size(), true)
  }

  predicate LockingClass(c: JavaClass)
  {
    InstanceOf(c, OPTIMISTIC_LOCKING_MODEL_BASE) && ModelClass(c)
  }

  /** OptimisticLockingModelBase(String, Long): ModelBase's constructor, version 0. */
  method NewLockingModelBase(cls: JavaClass, tableName: string, id: Option<int>) returns (m: AbstractModelBase)
    requires LockingClass(cls)
    ensures fresh(m) && m.Valid() && m.cls == cls && m.tableName == tableName
    ensures m.id == id && (m.isTransient <==> id.None?) && m.version == 0
  {
    m := NewModelBaseWithId(cls, tableName, id);
  }

  method SetVersion(m: AbstractModelBase, version: int)
    modifies m`version
    ensures m.version == version
  {
    m.version := version;
  }

  /**
   * OptimisticLockingModelBase.equals: the same object, or an
   * OptimisticLockingModelBase with the same id and table name.
   */
  predicate LockingEquals(this_: AbstractModelBase, o: Option<AbstractModelBase>)
    reads this_, if o.Some? then {o.value} else {}
  {
    o.Some? && (o.value == this_ ||
      (InstanceOf(o.value.cls, OPTIMISTIC_LOCKING_MODEL_BASE) && this_.id == o.value.id && this_.tableName == o.value.tableName))
  }

  /**
   * a.equals(o) as Java dispatches it on a's runtime class: the
   * OptimisticLockingModelBase override, else the ModelBase one, else
   * Object's identity (AbstractModelBase declares none).
   */
  predicate Equals(a: AbstractModelBase, o: Option<AbstractModelBase>)
    reads a, if o.Some? then {o.value} else {}
  {
    if InstanceOf(a.cls, OPTIMISTIC_LOCKING_MODEL_BASE) then LockingEquals(a, o)
    else if InstanceOf(a.cls, MODEL_BASE) then ModelEquals(a, o)
    else o == Some(a)
  }

  /** Whatever the classes, equal beans hash alike and nothing equals null. */
  lemma EqualsConsistentWithHashCode(a: AbstractModelBase, b: AbstractModelBase)
    ensures !Equals(a, None)
    ensures Equals(a, Some(a))
    ensures Equals(a, Some(b)) ==> a.HashCode() == b.HashCode()
  {
  }

  /**
   * equals is not symmetric across the hierarchy: a plain ModelBase
   * equals a locking bean of the same id and table, which does not equal
   * it back.
   */
  lemma EqualsAsymmetric(m: AbstractModelBase, l: AbstractModelBase)
    requires ModelClass(m.cls) && !InstanceOf(m.cls, OPTIMISTIC_LOCKING_MODEL_BASE) && LockingClass(l.cls)
    requires m.id == l.id && m.tableName == l.tableName
    ensures Equals(m, Some(l)) && !Equals(l, Some(m))
  {
  }

  /** Among locking beans equals is symmetric and decided by id and table. */
  lemma LockingEqualsOnKey(a: AbstractModelBase, b: AbstractModelBase)
    requires LockingClass(a.cls) && LockingClass(b.cls) && a != b
    ensures Equals(a, Some(b)) <==> a.id == b.id && a.tableName == b.tableName
    ensures Equals(a, Some(b)) <==> Equals(b, Some(a))
  {
  }

  /**
   * The static block: a field list bound to "AbstractModelBase" receives
   * ModelBase.fieldList and then versionCol.
   */
  method StaticInit(modelBaseFieldList: OrgFieldList.FieldList) returns (fieldList: OrgFieldList.FieldList, versionCol: Field)
    ensures fresh(fieldList) && fieldList.Valid() && fieldList.binder == "AbstractModelBase"
    ensures versionCol == VersionCol(modelBaseFieldList)
    ensures fieldList.fields == modelBaseFieldList.fields + [versionCol] && !fieldList.locked
  {
    versionCol := VersionCol(modelBaseFieldList);
    fieldList := new OrgFieldList.FieldList("AbstractModelBase");
    var _ := fieldList.AddFieldList(modelBaseFieldList);
    var _ := fieldList.Add(versionCol);
  }

  /**
   * After class initialisation the list holds "_id" at 0 and "version" at
   * 1; both are key columns, so the list without key columns is empty and
   * getFieldNamesAsStringWithoutKeyColumn throws.
   */
  method StaticFieldListScenario() returns (names: Result<string, OrgFieldList.FieldListError>, plain: Result<string, OrgFieldList.FieldListError>)
    ensures names == Success("_id,version")
    ensures plain == Failure(OrgFieldList.StringIndexOutOfBoundsException)
  {
    var modelBaseFieldList := OrgModelBase.StaticFieldList();
    var fieldList, versionCol := StaticInit(modelBaseFieldList);
    assert versionCol == Field(Some("version"), 1, true);
    assert fieldList.fields == [ID_COL, versionCol];
    names := fieldList.GetFieldNamesAsString();
    OrgFieldList.SortByIndexOfSorted([ID_COL, versionCol]);
    assert OrgFieldList.NameTexts([ID_COL, versionCol]) == ["_id", "version"] by {
      assert [ID_COL, versionCol][..1] == [ID_COL];
      assert [ID_COL][..0] == [];
      assert OrgFieldList.NameTexts([ID_COL]) == OrgFieldList.NameTexts([]) + [ValueOf(Some("_id"))];
    }
    assert JoinedBy(["_id", "version"], ",") == "_id,version" by {
      assert ["_id", "version"][..1] == ["_id"];
    }
    plain := fieldList.GetFieldNamesAsStringWithoutKeyColumn();
    assert OrgFieldList.NonKey([ID_COL, versionCol]) == [] by {
      assert [ID_COL, versionCol][..1] == [ID_COL];
      assert [ID_COL][..0] == [];
      assert OrgFieldList.NonKey([ID_COL]) == OrgFieldList.NonKey([]);
      assert OrgFieldList.NonKey([ID_COL, versionCol]) == OrgFieldList.NonKey([ID_COL]);
    }
    assert plain.error.StringIndexOutOfBoundsException?;
  }
}
