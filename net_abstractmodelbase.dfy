/**
 * net/mantucon/baracus/orm/AbstractModelBase.java: the state every
 * persistent bean of the older tree carries (id, transient flag, table
 * name) and the equality and hash code defined on it.
 *
 * Java subclasses become one Dafny class: the runtime class is the const
 * `cls`, and the state of the Timestamped and OptmisticLocking interfaces
 * (creation and modification dates, version) sits in fields that only
 * beans whose class implements them use. The persistent attributes a
 * subclass declares are its `properties`, by column name.
 */
module NetAbstractModelBase {
  import opened JavaLang
  import opened NetField
  import opened AndroidDatabase
  import OrgFieldList

  const ABSTRACT_MODEL_BASE: string := "net.mantucon.baracus.orm.AbstractModelBase"
  const TIMESTAMPED: string := "net.mantucon.baracus.orm.Timestamped"
  const OPTMISTIC_LOCKING: string := "net.mantucon.baracus.orm.OptmisticLocking"

  /** idCol: the "id" key column at index 0. */
  const ID_COL: Field := Field(Some("id"), 0, true)

  class AbstractModelBase {
    const cls: JavaClass
    var id: Option<int>
    var isTransient: bool
    const tableName: string
    /** Which id column the bean uses; set by the LegacyModelBase and ModelBase constructors. */
    const isOldStyle: bool
    /** Timestamped: dates as epoch milliseconds. */
    var creationDate: Option<int>
    var lastModificationDate: Option<int>
    /** OptmisticLocking: the version the bean was read with. */
    var version: int
    /** The subclass's own persistent attributes, by column name; an absent one is null. */
    var properties: map<string, Value>

    ghost predicate Valid()
      reads this
    {
      InstanceOf(cls, ABSTRACT_MODEL_BASE)
    }

    /** AbstractModelBase(String): a new bean has no id and is transient. */
    constructor(cls: JavaClass, tableName: string, isOldStyle: bool)
      requires InstanceOf(cls, ABSTRACT_MODEL_BASE)
      ensures Valid()
      ensures this.cls == cls && this.tableName == tableName && this.isOldStyle == isOldStyle
      ensures id == None && isTransient
      ensures creationDate == None && lastModificationDate == None && version == 0 && properties == map[]
    {
      this.cls := cls;
      this.tableName := tableName;
      this.isOldStyle := isOldStyle;
      id := None;
      isTransient := true;
      creationDate := None;
      lastModificationDate := None;
      version := 0;
      properties := map[];
    }

    method SetTransient(aTransient: bool)
      modifies this`isTransient
      ensures isTransient == aTransient
    {
      isTransient := aTransient;
    }

    method SetId(id: Option<int>)
      modifies this`id
      ensures this.id == id
    {
      this.id := id;
    }

    /**
     * equals(Object): `o` is None for null or an object that is no
     * AbstractModelBase. The same object, or the same id (both null
     * counts) and table name.
     */
    predicate Equals(o: Option<AbstractModelBase>)
      reads this, if o.Some? then {o.value} else {}
    {
      o.Some? && (o.value == this || (id == o.value.id && tableName == o.value.tableName))
    }

    /** hashCode: 31 * the id's Long hash (0 for null) + the table name's hash, in int arithmetic. */
    function HashCode(): (h: int)
      reads this
      ensures IsInt32(h)
    {
      Wrap32(31 * (if id.Some? then LongHash(id.value) else 0) + StringHash(tableName))
    }

    function ToString(): string
      reads this
    {
      "AbstractModelBase{id=" + (if id.Some? then IntToString(id.value) else "null") +
      ", isTransient=" + BoolToString(isTransient) + ", tableName='" + tableName + "'}"
    }
  }

  /** equals is an equivalence that rejects null, and equal beans hash alike. */
  lemma EqualsContract(a: AbstractModelBase, b: AbstractModelBase, c: AbstractModelBase)
    ensures a.Equals(Some(a)) && !a.Equals(None)
    ensures a.Equals(Some(b)) <==> b.Equals(Some(a))
    ensures a.Equals(Some(b)) && b.Equals(Some(c)) ==> a.Equals(Some(c))
    ensures a.Equals(Some(b)) ==> a.HashCode() == b.HashCode()
  {
  }

  /** Two transient beans of one table without ids are equal: equals cannot tell unsaved beans apart. */
  lemma UnsavedBeansEqual(a: AbstractModelBase, b: AbstractModelBase)
    requires a.id.None? && b.id.None? && a.tableName == b.tableName
    ensures a.Equals(Some(b))
  {
  }

  /** The static field list: locked, holding idCol only. */
  method StaticFieldList() returns (fieldList: OrgFieldList.FieldList)
    ensures fresh(fieldList) && fieldList.Valid()
    ensures fieldList.binder == "AbstractModelBase" && fieldList.fields == [ID_COL] && fieldList.locked
  {
    fieldList := new OrgFieldList.FieldList.WithFields("AbstractModelBase", [ID_COL]);
  }
}
