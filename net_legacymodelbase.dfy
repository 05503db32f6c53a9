/**
 * net/mantucon/baracus/orm/LegacyModelBase.java: beans with the old "id"
 * key column. Its equals only accepts ModelBase instances, which a legacy
 * bean never is.
 */
module NetLegacyModelBase {
  import opened JavaLang
  import opened NetField
  import opened NetAbstractModelBase
  import NetModelBase
  import OrgFieldList

  const LEGACY_MODEL_BASE: string := "net.mantucon.baracus.orm.LegacyModelBase"

  /** A class below LegacyModelBase, hence not below ModelBase (both extend AbstractModelBase). */
  predicate LegacyClass(c: JavaClass)
  {
    InstanceOf(c, LEGACY_MODEL_BASE) && InstanceOf(c, ABSTRACT_MODEL_BASE) && !InstanceOf(c, NetModelBase.MODEL_BASE)
  }

  /** LegacyModelBase(String): an old-style bean (isOldStyle true). */
  method NewLegacyModelBase(cls: JavaClass, tableName: string) returns (m: AbstractModelBase)
    requires LegacyClass(cls)
    ensures fresh(m) && m.Valid() && m.cls == cls && m.tableName == tableName
    ensures m.isOldStyle && m.id == None && m.isTransient && m.version == 0 && m.properties == map[]
  {
    m := new AbstractModelBase(cls, tableName, true);
  }

  /**
   * LegacyModelBase.equals: the same object, or a ModelBase with the same
   * id and table name. `o` is None for null or a non-AbstractModelBase.
   */
  predicate LegacyEquals(this_: AbstractModelBase, o: Option<AbstractModelBase>)
    reads this_, if o.Some? then {o.value} else {}
  {
    o.Some? && (o.value == this_ ||
      (InstanceOf(o.value.cls, NetModelBase.MODEL_BASE) && this_.id == o.value.id && this_.tableName == o.value.tableName))
  }

  /** Among legacy beans equals is identity, even for the same id and table. */
  lemma LegacyEqualsIsIdentity(a: AbstractModelBase, b: AbstractModelBase)
    requires LegacyClass(b.cls)
    ensures LegacyEquals(a, Some(b)) <==> a == b
  {
  }

  /**
   * The evidently intended LegacyModelBase.equals: the same object, or a
   * LegacyModelBase with the same id and table name.
   */
  predicate LegacyEqualsIntended(this_: AbstractModelBase, o: Option<AbstractModelBase>)
    reads this_, if o.Some? then {o.value} else {}
  {
    o.Some? && (o.value == this_ ||
      (InstanceOf(o.value.cls, LEGACY_MODEL_BASE) && this_.id == o.value.id && this_.tableName == o.value.tableName))
  }

  /**
   * Among legacy beans the intended equals compares id and table name: it
   * is symmetric and agrees with hashCode.
   */
  lemma LegacyEqualsIntendedIsContent(a: AbstractModelBase, b: AbstractModelBase)
    requires LegacyClass(a.cls) && LegacyClass(b.cls)
    ensures LegacyEqualsIntended(a, Some(b)) <==> a == b || (a.id == b.id && a.tableName == b.tableName)
    ensures LegacyEqualsIntended(a, Some(b)) <==> LegacyEqualsIntended(b, Some(a))
    ensures LegacyEqualsIntended(a, Some(b)) ==> a.HashCode() == b.HashCode()
  {
  }

  /**
   * equals is not symmetric: a legacy bean equals a ModelBase of the same
   * id and table, and that ModelBase (using AbstractModelBase.equals)
   * equals it back, but two such legacy beans are unequal while their
   * hash codes agree.
   */
  lemma LegacyEqualsQuirk(l1: AbstractModelBase, l2: AbstractModelBase, m: AbstractModelBase)
    requires LegacyClass(l1.cls) && LegacyClass(l2.cls) && InstanceOf(m.cls, NetModelBase.MODEL_BASE)
    requires l1 != l2 && l1.id == l2.id == m.id && l1.tableName == l2.tableName == m.tableName
    ensures LegacyEquals(l1, Some(m)) && m.Equals(Some(l1))
    ensures !LegacyEquals(l1, Some(l2)) && l1.HashCode() == l2.HashCode()
  {
  }

  /** The static field list: "AbstractModelBase" as binder, holding idCol. */
  method StaticFieldList() returns (fieldList: OrgFieldList.FieldList)
    ensures fresh(fieldList) && fieldList.Valid()
    ensures fieldList.binder == "AbstractModelBase" && fieldList.fields == [ID_COL] && !fieldList.locked
  {
    fieldList := new OrgFieldList.FieldList("AbstractModelBase");
    var _ := fieldList.Add(ID_COL);
  }
}
