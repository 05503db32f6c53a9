/**
 * net/mantucon/baracus/dao/ConfigurationDao.java: the DAO of the
 * configuration table and its row mapper. The row mapper reads a row
 * into a ConfigurationParameter and writes the non-null attributes of one
 * into content values; both agree with the generic description of a row
 * mapper that NetBaseDao runs the DAO rules on.
 */
module NetConfigurationDao {
  import opened JavaLang
  import opened NetField
  import opened AndroidDatabase
  import opened NetAbstractModelBase
  import opened NetConfigurationParameter
  import NetBaseDao
  import NetModelBase

  const ID_COLUMN: string := "id"

  /**
   * The row mapper: table "configuration", the parameter's field list,
   * configParamCol as the name field; it maps the legacy id column and the
   * two attribute columns and no version.
   */
  const ROW_MAPPER: NetBaseDao.RowMapper := NetBaseDao.RowMapper(
    TABLE_CONFIGURATION, FIELD_LIST, Some(CONFIG_PARAM_COL), ID_COLUMN, None, {CONFIG_PARAMETER, CONFIG_PARAMETER_VALUE})

  /** The row mapper's columns are distinct and its name field is one of the mapped attributes. */
  lemma RowMapperWellFormed()
    ensures NetBaseDao.WellFormed(ROW_MAPPER)
    ensures ROW_MAPPER.nameField.Some? && ValueOf(ROW_MAPPER.nameField.value.fieldName) in ROW_MAPPER.propertyColumns
    ensures ROW_MAPPER.idColumn == ValueOf(ID_COL.fieldName)
  {
  }

  /**
   * from(c): a new ConfigurationParameter with the id read by getLong and
   * the name and value read by getString (NULL read as null), marked not
   * transient.
   */
  method From(cls: JavaClass, c: Cursor) returns (p: AbstractModelBase)
    requires ConfigurationClass(cls) && 0 <= c.position < |c.rows|
    ensures fresh(p) && p.Valid() && p.cls == cls && p.tableName == TABLE_CONFIGURATION && p.isOldStyle && !p.isTransient
    ensures NetBaseDao.StateOf(p) == NetBaseDao.Mapped(ROW_MAPPER, c.rows[c.position])
    ensures GetConfigParameter(p) == GetString(c.rows[c.position], CONFIG_PARAMETER)
    ensures GetConfigParameterValue(p) == GetString(c.rows[c.position], CONFIG_PARAMETER_VALUE)
  {
    var row := c.rows[c.position];
    p := NewConfigurationParameter(cls);
    p.SetId(Some(NetBaseDao.LongOf(row, ID_COLUMN)));
    SetConfigParameter(p, GetString(row, CONFIG_PARAMETER));
    SetConfigParameterValue(p, GetString(row, CONFIG_PARAMETER_VALUE));
    p.SetTransient(false);
    assert p.properties == NetBaseDao.Mapped(ROW_MAPPER, row).properties;
  }

  /** Cursor.getString: the column's text, null for NULL. */
  function GetString(row: Row, column: string): Option<string>
  {
    if column in row then Some(Text(row[column])) else None
  }

  /** getContentValues: the id, the name and the value, each put only when non-null. */
  function GetContentValues(p: AbstractModelBase): (r: Row)
    reads p
    ensures ID_COLUMN in r <==> p.id.Some?
    ensures CONFIG_PARAMETER in r <==> GetConfigParameter(p).Some?
    ensures CONFIG_PARAMETER_VALUE in r <==> GetConfigParameterValue(p).Some?
    ensures r.Keys <= {ID_COLUMN, CONFIG_PARAMETER, CONFIG_PARAMETER_VALUE}
  {
    var withId: Row := if p.id.Some? then map[ID_COLUMN := LongValue(p.id.value)] else map[];
    var withName := if GetConfigParameter(p).Some? then withId[CONFIG_PARAMETER := TextValue(GetConfigParameter(p).value)] else withId;
    if GetConfigParameterValue(p).Some? then withName[CONFIG_PARAMETER_VALUE := TextValue(GetConfigParameterValue(p).value)] else withName
  }

  /** A bean whose properties are the two attributes the setters store. */
  ghost predicate Attributes(p: AbstractModelBase)
    reads p
  {
    p.properties.Keys <= {CONFIG_PARAMETER, CONFIG_PARAMETER_VALUE} &&
    forall c :: c in p.properties ==> p.properties[c].TextValue?
  }

  /**
   * The hand-written getContentValues writes what the generic row mapper
   * description writes, so the DAO rules of NetBaseDao apply to it.
   */
  lemma ContentValuesAgree(p: AbstractModelBase)
    requires Attributes(p)
    ensures GetContentValues(p) == NetBaseDao.ContentValuesOf(ROW_MAPPER, NetBaseDao.StateOf(p))
  {
    var r, g := GetContentValues(p), NetBaseDao.ContentValuesOf(ROW_MAPPER, NetBaseDao.StateOf(p));
    forall c | c in r
      ensures c in g && r[c] == g[c]
    {
      if c != ID_COLUMN {
        assert p.properties[c] == TextValue(Text(p.properties[c]));
      }
    }
    assert r.Keys == g.Keys;
  }

  /**
   * Round trip: reading back the content values of a saved bean gives its
   * id, name and value again.
   */
  lemma FromContentValues(p: AbstractModelBase)
    requires Attributes(p) && p.id.Some? && p.version == 0
    ensures NetBaseDao.Mapped(ROW_MAPPER, GetContentValues(p)) == NetBaseDao.StateOf(p)
    ensures GetString(GetContentValues(p), CONFIG_PARAMETER) == GetConfigParameter(p)
    ensures GetString(GetContentValues(p), CONFIG_PARAMETER_VALUE) == GetConfigParameterValue(p)
  {
    ContentValuesAgree(p);
    NetBaseDao.MappedContentValues(ROW_MAPPER, NetBaseDao.StateOf(p));
  }

  /**
   * ConfigurationDao(): a BaseDao over ConfigurationParameter with this row
   * mapper; on a database whose configuration table is keyed by "id" it
   * satisfies the DAO's invariant.
   */
  method NewConfigurationDao(cls: JavaClass, db: Database, context: NetBaseDao.EventLog) returns (dao: NetBaseDao.BaseDao)
    requires ConfigurationClass(cls)
    ensures fresh(dao) && dao.managedClass == cls && dao.rowMapper == ROW_MAPPER && dao.db == db && dao.context == context
    ensures dao.IdColumn() == ID_COLUMN
    ensures db.Valid() && TABLE_CONFIGURATION in db.tables && db.tables[TABLE_CONFIGURATION].keyColumn == ID_COLUMN ==> dao.Valid()
  {
    dao := new NetBaseDao.BaseDao(cls, ROW_MAPPER, db, context);
  }
}
