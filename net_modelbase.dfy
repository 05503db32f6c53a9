/**
 * net/mantucon/baracus/orm/ModelBase.java: beans with the Android-style
 * "_id" key column, and the SQL that moves a legacy table to it.
 */
module NetModelBase {
  import opened JavaLang
  import opened NetField
  import opened NetAbstractModelBase
  import OrgFieldList

  const MODEL_BASE: string := "net.mantucon.baracus.orm.ModelBase"

  /** idCol: the "_id" key column at index 0. */
  const MODEL_ID_COL: Field := Field(Some("_id"), 0, true)

  const MIGRATION_PREFIX: string := "UPDATE sqlite_master SET SQL=REPLACE(SQL,'id','_id') WHERE NAME = '"

  /** ModelBase(String): a new-style bean (isOldStyle false). */
  method NewModelBase(cls: JavaClass, tableName: string) returns (m: AbstractModelBase)
    requires InstanceOf(cls, MODEL_BASE) && InstanceOf(cls, ABSTRACT_MODEL_BASE)
    ensures fresh(m) && m.Valid() && m.cls == cls && m.tableName == tableName
    ensures !m.isOldStyle && m.id == None && m.isTransient
  {
    m := new AbstractModelBase(cls, tableName, false);
  }

  /**
   * getMigrationStatement: the statement renaming the "id" column to
   * "_id" in the bean's table; the table name is quoted verbatim.
   */
  function MigrationStatement(m: AbstractModelBase): (r: string)
    reads m
    ensures |r| == |MIGRATION_PREFIX| + |m.tableName| + 1
    ensures r[..|MIGRATION_PREFIX|] == MIGRATION_PREFIX
    ensures r[|MIGRATION_PREFIX|..|r| - 1] == m.tableName && r[|r| - 1] == '\''
  {
    MIGRATION_PREFIX + m.tableName + "'"
  }

  /**
   * The static block: ModelBase declares no field list of its own, so
   * its idCol goes into the inherited AbstractModelBase.fieldList.
   */
  method StaticInit(abstractFieldList: OrgFieldList.FieldList)
    modifies abstractFieldList
    ensures abstractFieldList.fields == old(abstractFieldList.fields) + [MODEL_ID_COL]
    ensures abstractFieldList.Valid() && abstractFieldList.dirty
  {
    var _ := abstractFieldList.Add(MODEL_ID_COL);
  }

  /**
   * Once ModelBase is loaded, AbstractModelBase.fieldList names both key
   * columns, "id" and then "_id", both at index 0.
   */
  method SharedFieldListScenario() returns (names: Result<string, OrgFieldList.FieldListError>)
    ensures names == Success("id,_id")
  {
    var fieldList := StaticFieldList();
    StaticInit(fieldList);
    assert fieldList.fields == [ID_COL, MODEL_ID_COL];
    names := fieldList.GetFieldNamesAsString();
    assert OrgFieldList.SortByIndex([ID_COL, MODEL_ID_COL]) == [ID_COL, MODEL_ID_COL] by {
      OrgFieldList.SortByIndexOfSorted([ID_COL, MODEL_ID_COL]);
    }
    assert OrgFieldList.NameTexts([ID_COL, MODEL_ID_COL]) == ["id", "_id"] by {
      assert [ID_COL, MODEL_ID_COL][..1] == [ID_COL];
      assert [ID_COL][..0] == [];
      assert OrgFieldList.NameTexts([ID_COL]) == OrgFieldList.NameTexts([]) + [ValueOf(Some("id"))];
    }
    assert JoinedBy(["id", "_id"], ",") == "id,_id" by {
      assert ["id", "_id"][..1] == ["id"];
    }
  }
}
