/**
 * net/mantucon/baracus/model/ConfigurationParameter.java: the key/value
 * bean of the "configuration" table. It is a LegacyModelBase whose two
 * string attributes sit in the bean's properties under their column
 * names; its column indices come from a static counter on top of the
 * legacy field list.
 */
module NetConfigurationParameter {
  import opened JavaLang
  import opened NetField
  import opened AndroidDatabase
  import opened NetAbstractModelBase
  import opened NetLegacyModelBase
  import OrgFieldList

  const TABLE_CONFIGURATION: string := "configuration"
  const CONFIGURATION_PARAMETER: string := "net.mantucon.baracus.model.ConfigurationParameter"
  const CONFIG_PARAMETER: string := "config_parameter"
  const CONFIG_PARAMETER_VALUE: string := "config_parameter_value"

  /** The runtime class: a LegacyModelBase, hence an AbstractModelBase and no ModelBase. */
  predicate ConfigurationClass(c: JavaClass)
  {
    InstanceOf(c, CONFIGURATION_PARAMETER) && LegacyClass(c)
  }

  /**
   * The class initialiser: the two columns are numbered by the size of
   * LegacyModelBase.fieldList plus a counter that starts at 0 and is
   * incremented after each use; the list then receives the legacy list
   * and both columns.
   */
  method StaticInit(legacyFieldList: OrgFieldList.FieldList)
    returns (fieldList: OrgFieldList.FieldList, configParamCol: Field, configParamValueCol: Field, prefix: int)
    ensures fresh(fieldList) && fieldList.Valid() && fieldList.binder == "ConfigurationParameter" && !fieldList.locked
    ensures configParamCol == NewField(Some(CONFIG_PARAMETER), |legacyFieldList.fields|)
    ensures configParamValueCol == NewField(Some(CONFIG_PARAMETER_VALUE), |legacyFieldList.fields| + 1)
    ensures fieldList.fields == legacyFieldList.fields + [configParamCol, configParamValueCol]
    ensures prefix == 2
  {
    prefix := 0;
    fieldList := new OrgFieldList.FieldList("ConfigurationParameter");
    configParamCol := NewField(Some(CONFIG_PARAMETER), legacyFieldList.Size() + prefix);
    prefix := prefix + 1;
    configParamValueCol := NewField(Some(CONFIG_PARAMETER_VALUE), legacyFieldList.Size() + prefix);
    prefix := prefix + 1;
    var _ := fieldList.AddFieldList(legacyFieldList);
    var _ := fieldList.Add(configParamCol);
    var _ := fieldList.Add(configParamValueCol);
  }

  /** The columns after class initialisation, on top of the one-entry legacy list. */
  const CONFIG_PARAM_COL: Field := Field(Some(CONFIG_PARAMETER), 1, false)
  const CONFIG_PARAM_VALUE_COL: Field := Field(Some(CONFIG_PARAMETER_VALUE), 2, false)
  const FIELD_LIST: seq<Field> := [ID_COL, CONFIG_PARAM_COL, CONFIG_PARAM_VALUE_COL]

  /** Initialised after LegacyModelBase, the columns sit at 1 and 2 and the list reads id, name, value. */
  method StaticInitScenario() returns (fieldList: OrgFieldList.FieldList, configParamCol: Field, configParamValueCol: Field)
    ensures configParamCol == CONFIG_PARAM_COL && configParamValueCol == CONFIG_PARAM_VALUE_COL
    ensures fieldList.fields == FIELD_LIST
  {
    var legacyFieldList := NetLegacyModelBase.StaticFieldList();
    var prefix;
    fieldList, configParamCol, configParamValueCol, prefix := StaticInit(legacyFieldList);
  }

  /** ConfigurationParameter(): a legacy bean of the "configuration" table, without attributes. */
  method NewConfigurationParameter(cls: JavaClass) returns (p: AbstractModelBase)
    requires ConfigurationClass(cls)
    ensures fresh(p) && p.Valid() && p.cls == cls && p.tableName == TABLE_CONFIGURATION
    ensures p.isOldStyle && p.id == None && p.isTransient && p.version == 0 && p.properties == map[]
    ensures GetConfigParameter(p) == None && GetConfigParameterValue(p) == None
  {
    p := NewLegacyModelBase(cls, TABLE_CONFIGURATION);
  }

  /** A string attribute as the bean holds it: None when null. */
  function Attribute(p: AbstractModelBase, column: string): Option<string>
    reads p
  {
    if column in p.properties then Some(Text(p.properties[column])) else None
  }

  function GetConfigParameter(p: AbstractModelBase): Option<string>
    reads p
  {
    Attribute(p, CONFIG_PARAMETER)
  }

  function GetConfigParameterValue(p: AbstractModelBase): Option<string>
    reads p
  {
    Attribute(p, CONFIG_PARAMETER_VALUE)
  }

  /** The attribute stored as the setter stores it: null removes it. */
  function Stored(properties: map<string, Value>, column: string, value: Option<string>): map<string, Value>
  {
    if value.Some? then properties[column := TextValue(value.value)] else properties - {column}
  }

  method SetConfigParameter(p: AbstractModelBase, configParameter: Option<string>)
    modifies p`properties
    ensures p.properties == Stored(old(p.properties), CONFIG_PARAMETER, configParameter)
    ensures GetConfigParameter(p) == configParameter
    ensures GetConfigParameterValue(p) == old(GetConfigParameterValue(p))
  {
    p.properties := Stored(p.properties, CONFIG_PARAMETER, configParameter);
  }

  method SetConfigParameterValue(p: AbstractModelBase, configParameterValue: Option<string>)
    modifies p`properties
    ensures p.properties == Stored(old(p.properties), CONFIG_PARAMETER_VALUE, configParameterValue)
    ensures GetConfigParameterValue(p) == configParameterValue
    ensures GetConfigParameter(p) == old(GetConfigParameter(p))
  {
    p.properties := Stored(p.properties, CONFIG_PARAMETER_VALUE, configParameterValue);
  }

  /**
   * ConfigurationParameter.equals: the same object; otherwise a
   * ConfigurationParameter that LegacyModelBase.equals accepts and whose
   * name (dereferenced without a null check) and value (null-safe) agree.
   * A null name on this side throws NullPointerException.
   */
  function Equals(p: AbstractModelBase, o: Option<AbstractModelBase>): (r: Result<bool, NullPointerError>)
    reads p, if o.Some? then {o.value} else {}
  {
    if o == Some(p) then Success(true)
    else if o.None? || !InstanceOf(o.value.cls, CONFIGURATION_PARAMETER) then Success(false)
    else if !LegacyEquals(p, o) then Success(false)
    else if GetConfigParameter(p).None? then Failure(NullPointerError)
    else Success(GetConfigParameter(p) == GetConfigParameter(o.value) && GetConfigParameterValue(p) == GetConfigParameterValue(o.value))
  }

  datatype NullPointerError = NullPointerError

  /**
   * Because LegacyModelBase.equals rejects every bean that is no ModelBase,
   * equals never throws and is identity: two configuration parameters
   * with the same id, table, name and value are unequal.
   */
  lemma EqualsIsIdentity(p: AbstractModelBase, o: AbstractModelBase)
    requires ConfigurationClass(o.cls)
    ensures Equals(p, Some(o)) == Success(p == o)
    ensures Equals(p, None) == Success(false)
  {
  }

  /** The evidently intended equals: as Equals, with the intended LegacyModelBase.equals underneath. */
  function EqualsIntended(p: AbstractModelBase, o: Option<AbstractModelBase>): (r: Result<bool, NullPointerError>)
    reads p, if o.Some? then {o.value} else {}
  {
    if o == Some(p) then Success(true)
    else if o.None? || !InstanceOf(o.value.cls, CONFIGURATION_PARAMETER) then Success(false)
    else if !LegacyEqualsIntended(p, o) then Success(false)
    else if GetConfigParameter(p).None? then Failure(NullPointerError)
    else Success(GetConfigParameter(p) == GetConfigParameter(o.value) && GetConfigParameterValue(p) == GetConfigParameterValue(o.value))
  }

  /**
   * Between configuration parameters with a name, the intended equals is
   * content equality (id, table, name and value), and beans it calls
   * equal hash alike.
   */
  lemma EqualsIntendedIsContent(p: AbstractModelBase, o: AbstractModelBase)
    requires ConfigurationClass(p.cls) && ConfigurationClass(o.cls) && GetConfigParameter(p).Some?
    ensures EqualsIntended(p, Some(o)) == Success(p == o ||
      (p.id == o.id && p.tableName == o.tableName
       && GetConfigParameter(p) == GetConfigParameter(o) && GetConfigParameterValue(p) == GetConfigParameterValue(o)))
    ensures EqualsIntended(p, Some(o)) == Success(true) ==> HashCode(p) == HashCode(o)
  {
    if EqualsIntended(p, Some(o)) == Success(true) && p != o {
      HashCodeOfContent(p, o);
    }
  }

  /** hashCode: the AbstractModelBase hash, then the name's hash (null throws), then the value's hash (0 for null). */
  function HashCode(p: AbstractModelBase): (r: Result<int, NullPointerError>)
    reads p
    ensures r.Failure? <==> GetConfigParameter(p).None?
    ensures r.Success? ==> IsInt32(r.value)
  {
    if GetConfigParameter(p).None? then Failure(NullPointerError)
    else
      var result := Wrap32(31 * p.HashCode() + StringHash(GetConfigParameter(p).value));
      Success(Wrap32(31 * result + (if GetConfigParameterValue(p).Some? then StringHash(GetConfigParameterValue(p).value) else 0)))
  }

  /** Beans that agree on id, table, name and value hash alike, although they are never equal. */
  lemma HashCodeOfContent(p: AbstractModelBase, q: AbstractModelBase)
    requires p.id == q.id && p.tableName == q.tableName
    requires GetConfigParameter(p) == GetConfigParameter(q) && GetConfigParameterValue(p) == GetConfigParameterValue(q)
    ensures HashCode(p) == HashCode(q)
  {
    assert p.HashCode() == q.HashCode();
  }
}
