/**
 * net/mantucon/baracus/orm/Field.java: the description of one database
 * column of an entity (its name, its position in the row, whether it is
 * part of the key), with Java equality, hashing and ordering.
 */
module NetField {
  import opened JavaLang

  /** A column: the name may be null, the index is a Java int. */
  datatype Field = Field(fieldName: Option<string>, fieldIndex: int, isKeyAttribute: bool)

  predicate ValidField(f: Field) { IsInt32(f.fieldIndex) }

  /** Field(String, int): a regular, non-key column. */
  function NewField(name: Option<string>, index: int): (f: Field)
    ensures f.fieldName == name && f.fieldIndex == index && !f.isKeyAttribute
  {
    Field(name, index, false)
  }

  /** Field(String): a non-key column whose index is left at -1 for validation to fix. */
  function NewUnindexedField(name: Option<string>): (f: Field)
    ensures f.fieldName == name && f.fieldIndex == -1 && !f.isKeyAttribute
  {
    Field(name, -1, false)
  }

  /** Field(String, int, boolean). */
  function NewKeyField(name: Option<string>, index: int, isKey: bool): (f: Field)
    ensures f.fieldName == name && f.fieldIndex == index && f.isKeyAttribute == isKey
  {
    Field(name, index, isKey)
  }

  /**
   * Field.equals(Object): `other` is None when the argument is null or not
   * a Field. Index and (null-safe) name decide; the key flag does not.
   */
  predicate Equals(f: Field, other: Option<Field>)
  {
    other.Some? && f.fieldIndex == other.value.fieldIndex && f.fieldName == other.value.fieldName
  }

  /** Field.hashCode: 31 * fieldIndex + the name's hash (0 for null), in int arithmetic. */
  function HashCode(f: Field): (h: int)
    ensures IsInt32(h)
  {
    Wrap32(31 * f.fieldIndex + (if f.fieldName.Some? then StringHash(f.fieldName.value) else 0))
  }

  /** Field.compareTo: Integer.compareTo on the two indexes. */
  function CompareTo(f: Field, g: Field): (r: int)
    ensures r < 0 <==> f.fieldIndex < g.fieldIndex
    ensures r == 0 <==> f.fieldIndex == g.fieldIndex
    ensures r > 0 <==> f.fieldIndex > g.fieldIndex
    ensures -1 <= r <= 1
  {
    if f.fieldIndex < g.fieldIndex then -1 else if f.fieldIndex == g.fieldIndex then 0 else 1
  }

  /** equals is an equivalence on fields, never true for null, and equal fields hash alike. */
  lemma EqualsContract(f: Field, g: Field, h: Field)
    ensures Equals(f, Some(f))
    ensures !Equals(f, None)
    ensures Equals(f, Some(g)) <==> Equals(g, Some(f))
    ensures Equals(f, Some(g)) && Equals(g, Some(h)) ==> Equals(f, Some(h))
    ensures Equals(f, Some(g)) ==> HashCode(f) == HashCode(g)
  {
  }

  /** The key flag is invisible to equals: a key and a non-key column of the same name and index are equal. */
  lemma EqualsIgnoresKeyFlag(name: Option<string>, index: int)
    ensures Equals(NewKeyField(name, index, true), Some(NewField(name, index)))
  {
  }

  /**
   * compareTo orders by index only, so it is not consistent with equals:
   * two different columns at the same index compare as 0.
   */
  lemma CompareToInconsistentWithEquals()
    ensures var a := NewField(Some("a"), 1); var b := NewField(Some("b"), 1);
      CompareTo(a, b) == 0 && !Equals(a, Some(b))
  {
  }

  /** compareTo is antisymmetric and transitive (a total preorder on indexes). */
  lemma CompareToOrder(f: Field, g: Field, h: Field)
    ensures CompareTo(f, g) == -CompareTo(g, f)
    ensures CompareTo(f, g) <= 0 && CompareTo(g, h) <= 0 ==> CompareTo(f, h) <= 0
  {
  }
}
