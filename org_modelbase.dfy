/**
 * org/baracus/orm/ModelBase.java: beans with the Android-style "_id" key
 * column, a static field list holding it, and value equality on id and
 * table name.
 */
module OrgModelBase {
  import opened JavaLang
  import opened NetField
  import opened OrgAbstractModelBase
  import OrgFieldList

  const MODEL_BASE: string := "org.baracus.orm.ModelBase"

  /** idCol: the "_id" key column at index 0. */
  const ID_COL: Field := Field(Some("_id"), 0, true)

  predicate ModelClass(c: JavaClass)
  {
    InstanceOf(c, MODEL_BASE) && InstanceOf(c, ABSTRACT_MODEL_BASE)
  }

  /** ModelBase(String): a new-style bean without id. */
  method NewModelBase(cls: JavaClass, tableName: string) returns (m: AbstractModelBase)
    requires ModelClass(cls)
    ensures fresh(m) && m.Valid() && m.cls == cls && m.tableName == tableName
    ensures !m.isOldStyle && m.id == None && m.isTransient
  {
    m := new AbstractModelBase(cls, tableName, false);
  }

  /** ModelBase(String, Long): a bean given an id counts as persisted. */
  method NewModelBaseWithId(cls: JavaClass, tableName: string, id: Option<int>) returns (m: AbstractModelBase)
    requires ModelClass(cls)
    ensures fresh(m) && m.Valid() && m.cls == cls && m.tableName == tableName
    ensures !m.isOldStyle && m.id == id && (m.isTransient <==> id.None?) && m.version == 0
  {
    m := new AbstractModelBase(cls, tableName, false);
    m.id := id;
    if id.Some? {
      m.SetTransient(false);
    }
  }

  /**
   * ModelBase.equals: the same object, or a ModelBase with the same id
   * (both null counts) and table name. `o` is None for null or an object
   * that is no AbstractModelBase.
   */
  predicate ModelEquals(this_: AbstractModelBase, o: Option<AbstractModelBase>)
    reads this_, if o.Some? then {o.value} else {}
  {
    o.Some? && (o.value == this_ ||
      (InstanceOf(o.value.cls, MODEL_BASE) && this_.id == o.value.id && this_.tableName == o.value.tableName))
  }

  /**
   * Among ModelBase beans equals is an equivalence that rejects null, and
   * equal beans hash alike.
   */
  lemma ModelEqualsContract(a: AbstractModelBase, b: AbstractModelBase, c: AbstractModelBase)
    requires InstanceOf(a.cls, MODEL_BASE) && InstanceOf(b.cls, MODEL_BASE) && InstanceOf(c.cls, MODEL_BASE)
    ensures ModelEquals(a, Some(a)) && !ModelEquals(a, None)
    ensures ModelEquals(a, Some(b)) <==> ModelEquals(b, Some(a))
    ensures ModelEquals(a, Some(b)) && ModelEquals(b, Some(c)) ==> ModelEquals(a, Some(c))
    ensures ModelEquals(a, Some(b)) ==> a.HashCode() == b.HashCode()
  {
  }

  /**
   * A bean that is not a ModelBase is only equal to itself, whatever its
   * id and table.
   */
  lemma ModelEqualsRejectsOthers(a: AbstractModelBase, b: AbstractModelBase)
    requires !InstanceOf(b.cls, MODEL_BASE)
    ensures ModelEquals(a, Some(b)) <==> a == b
  {
  }

  /** The static field list: binder "ModelBase", holding idCol. */
  method StaticFieldList() returns (fieldList: OrgFieldList.FieldList)
    ensures fresh(fieldList) && fieldList.Valid()
    ensures fieldList.binder == "ModelBase" && fieldList.fields == [ID_COL] && !fieldList.locked
  {
    fieldList := new OrgFieldList.FieldList("ModelBase");
    var _ := fieldList.Add(ID_COL);
  }
}
