/**
 * org/baracus/orm/AbstractModelBase.java: the state every persistent bean
 * of the newer tree carries (id, transient flag, table name, style flag)
 * and the hash code defined on it. It declares no equals, so beans that
 * do not override it compare by identity.
 *
 * Java subclasses become one Dafny class: the runtime class is the const
 * `cls`, and the version of OptimisticLockingModelBase sits in a field that
 * only beans of that class use.
 */
module OrgAbstractModelBase {
  import opened JavaLang

  const ABSTRACT_MODEL_BASE: string := "org.baracus.orm.AbstractModelBase"

  class AbstractModelBase {
    const cls: JavaClass
    var id: Option<int>
    var isTransient: bool
    const tableName: string
    const isOldStyle: bool
    /** OptimisticLockingModelBase.version. */
    var version: int

    ghost predicate Valid()
      reads this
    {
      InstanceOf(cls, ABSTRACT_MODEL_BASE)
    }

    /**
     * AbstractModelBase(String, boolean); the one-argument constructor
     * passes false. A new bean has no id and is transient.
     */
    constructor(cls: JavaClass, tableName: string, isOldStyle: bool)
      requires InstanceOf(cls, ABSTRACT_MODEL_BASE)
      ensures Valid()
      ensures this.cls == cls && this.tableName == tableName && this.isOldStyle == isOldStyle
      ensures id == None && isTransient && version == 0
    {
      this.cls := cls;
      this.tableName := tableName;
      this.isOldStyle := isOldStyle;
      id := None;
      isTransient := true;
      version := 0;
    }

    method SetTransient(aTransient: bool)
      modifies this`isTransient
      ensures isTransient == aTransient
    {
      isTransient := aTransient;
    }

    method SetId(id: Option<int>)
      modifies this`id
      ensures this.id == id
    {
      this.id := id;
    }

    /** hashCode: 31 * the id's Long hash (0 for null) + the table name's hash, in int arithmetic. */
    function HashCode(): (h: int)
      reads this
      ensures IsInt32(h)
    {
      Wrap32(31 * (if id.Some? then LongHash(id.value) else 0) + StringHash(tableName))
    }

    function ToString(): string
      reads this
    {
      "AbstractModelBase{id=" + (if id.Some? then IntToString(id.value) else "null") +
      ", isTransient=" + BoolToString(isTransient) + ", tableName='" + tableName + "'}"
    }
  }

  /** The hash code reads the id and the table name only: beans agreeing on both hash alike. */
  lemma HashCodeOfKey(a: AbstractModelBase, b: AbstractModelBase)
    requires a.id == b.id && a.tableName == b.tableName
    ensures a.HashCode() == b.HashCode()
  {
  }

  /** toString names the id ("null" when unsaved), the transient flag and the table. */
  lemma ToStringUnsaved(a: AbstractModelBase)
    requires a.id.None? && a.isTransient
    ensures a.ToString() == "AbstractModelBase{id=null, isTransient=true, tableName='" + a.tableName + "'}"
  {
    assert BoolToString(a.isTransient) == "true";
    assert "AbstractModelBase{id=" + "null" + ", isTransient=" + "true" + ", tableName='" == "AbstractModelBase{id=null, isTransient=true, tableName='";
  }
}
