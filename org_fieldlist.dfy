/**
 * org/baracus/orm/FieldList.java: the columns of an entity, kept sorted
 * by column index on demand (a dirty flag records whether a sort is due),
 * with the comma-separated projections the DAO layer builds its SQL from.
 *
 * org/baracus/orm/Field.java is not part of this model; its fields are
 * those of net/mantucon/baracus/orm/Field.java (name, index, key flag,
 * equals on index and name, compareTo on the index), which NetField models.
 */
module OrgFieldList {
  import opened JavaLang
  import opened NetField

  /** substring(0, -1) on an empty builder. */
  datatype FieldListError = StringIndexOutOfBoundsException

  /** Ascending by column index: what Collections.sort with Field.compareTo yields. */
  predicate SortedByIndex(s: seq<Field>)
  {
    forall i, j :: 0 <= i < j < |s| ==> s[i].fieldIndex <= s[j].fieldIndex
  }

  /** f placed after every element of the sorted s whose index is at most f's. */
  function Insert(f: Field, s: seq<Field>): seq<Field>
  {
    if |s| == 0 then [f]
    else if s[|s| - 1].fieldIndex <= f.fieldIndex then s + [f]
    else Insert(f, s[..|s| - 1]) + [s[|s| - 1]]
  }

  /** A stable sort by index (insertion sort, each element after its equals). */
  function SortByIndex(s: seq<Field>): seq<Field>
  {
    if |s| == 0 then [] else Insert(s[|s| - 1], SortByIndex(s[..|s| - 1]))
  }

  /** The fields at column index k, in list order. */
  function WithIndex(s: seq<Field>, k: int): seq<Field>
  {
    if |s| == 0 then []
    else WithIndex(s[..|s| - 1], k) + (if s[|s| - 1].fieldIndex == k then [s[|s| - 1]] else [])
  }

  /** The fields that are not part of the key, in list order. */
  function NonKey(s: seq<Field>): seq<Field>
  {
    if |s| == 0 then []
    else NonKey(s[..|s| - 1]) + (if s[|s| - 1].isKeyAttribute then [] else [s[|s| - 1]])
  }

  /** The column names as StringBuilder.append renders them (null as "null"). */
  function NameTexts(s: seq<Field>): seq<string>
  {
    seq(|s|, i requires 0 <= i < |s| => ValueOf(s[i].fieldName))
  }

  /** The column names as getFieldNames puts them in its array. */
  function Names(s: seq<Field>): seq<Option<string>>
  {
    seq(|s|, i requires 0 <= i < |s| => s[i].fieldName)
  }

  /** n copies of x. */
  function Repeat(x: string, n: nat): seq<string>
  {
    seq(n, _ => x)
  }

  /** ArrayList.contains: some element the field equals. */
  predicate Contains(s: seq<Field>, f: Field)
  {
    exists i :: 0 <= i < |s| && Equals(f, Some(s[i]))
  }

  /** The fields of `list` checkField reports against `present`, in order. */
  function Reported(list: seq<Field>, present: seq<Field>): seq<Field>
  {
    if |list| == 0 then []
    else Reported(list[..|list| - 1], present) + (if Contains(present, list[|list| - 1]) then [list[|list| - 1]] else [])
  }

  lemma Init<T>(a: seq<T>, x: T)
    ensures (a + [x])[..|a|] == a && (a + [x])[|a|] == x
  {
  }

  lemma NonKeySnoc(s: seq<Field>, f: Field)
    ensures NonKey(s + [f]) == NonKey(s) + (if f.isKeyAttribute then [] else [f])
  {
    Init(s, f);
  }

  lemma NameTextsSnoc(s: seq<Field>, f: Field)
    ensures NameTexts(s + [f]) == NameTexts(s) + [ValueOf(f.fieldName)]
  {
  }

  lemma RepeatSnoc(x: string, n: nat)
    ensures Repeat(x, n + 1) == Repeat(x, n) + [x]
  {
  }

  lemma {:induction false} InsertMultiset(f: Field, s: seq<Field>)
    ensures multiset(Insert(f, s)) == multiset(s) + multiset{f}
    decreases |s|
  {
    if |s| > 0 && s[|s| - 1].fieldIndex > f.fieldIndex {
      InsertMultiset(f, s[..|s| - 1]);
      assert s == s[..|s| - 1] + [s[|s| - 1]];
    }
  }

  lemma {:induction false} InsertSorted(f: Field, s: seq<Field>)
    requires SortedByIndex(s)
    ensures SortedByIndex(Insert(f, s))
    decreases |s|
  {
    if |s| > 0 && s[|s| - 1].fieldIndex > f.fieldIndex {
      var init, last := s[..|s| - 1], s[|s| - 1];
      InsertSorted(f, init);
      InsertMultiset(f, init);
      var t := Insert(f, init);
      forall i | 0 <= i < |t|
        ensures t[i].fieldIndex <= last.fieldIndex
      {
        assert t[i] in multiset(t);
        assert t[i] in multiset(init) || t[i] == f;
        if t[i] != f {
          assert t[i] in init;
        }
      }
    }
  }

  lemma {:induction false} InsertWithIndex(f: Field, s: seq<Field>, k: int)
    ensures WithIndex(Insert(f, s), k) == WithIndex(s, k) + (if f.fieldIndex == k then [f] else [])
    decreases |s|
  {
    if |s| == 0 {
      Init([], f);
    } else if s[|s| - 1].fieldIndex <= f.fieldIndex {
      Init(s, f);
    } else {
      var init, last := s[..|s| - 1], s[|s| - 1];
      InsertWithIndex(f, init, k);
      Init(Insert(f, init), last);
    }
  }

  lemma {:induction false} InsertNonKey(f: Field, s: seq<Field>)
    ensures |NonKey(Insert(f, s))| == |NonKey(s)| + (if f.isKeyAttribute then 0 else 1)
    decreases |s|
  {
    if |s| == 0 {
      Init([], f);
    } else if s[|s| - 1].fieldIndex <= f.fieldIndex {
      Init(s, f);
    } else {
      var init, last := s[..|s| - 1], s[|s| - 1];
      InsertNonKey(f, init);
      Init(Insert(f, init), last);
    }
  }

  /** getFields' order: ascending by index, the same fields, and fields of equal index in their insertion order. */
  lemma {:induction false} SortByIndexCorrect(s: seq<Field>)
    ensures SortedByIndex(SortByIndex(s))
    ensures multiset(SortByIndex(s)) == multiset(s)
    decreases |s|
  {
    if |s| > 0 {
      SortByIndexCorrect(s[..|s| - 1]);
      InsertSorted(s[|s| - 1], SortByIndex(s[..|s| - 1]));
      InsertMultiset(s[|s| - 1], SortByIndex(s[..|s| - 1]));
      assert s == s[..|s| - 1] + [s[|s| - 1]];
    }
  }

  /** The sort is stable: the fields sharing an index keep their relative order. */
  lemma {:induction false} SortByIndexStable(s: seq<Field>, k: int)
    ensures WithIndex(SortByIndex(s), k) == WithIndex(s, k)
    decreases |s|
  {
    if |s| > 0 {
      SortByIndexStable(s[..|s| - 1], k);
      InsertWithIndex(s[|s| - 1], SortByIndex(s[..|s| - 1]), k);
    }
  }

  /** Sorting a sorted list changes nothing, which is why a clean list is returned as it is. */
  lemma {:induction false} SortByIndexOfSorted(s: seq<Field>)
    requires SortedByIndex(s)
    ensures SortByIndex(s) == s
    decreases |s|
  {
    if |s| > 0 {
      var init, last := s[..|s| - 1], s[|s| - 1];
      assert SortedByIndex(init);
      SortByIndexOfSorted(init);
      if |init| > 0 {
        assert init[|init| - 1].fieldIndex <= last.fieldIndex;
      }
      assert init + [last] == s;
    }
  }

  /** Sorting keeps the number of non-key columns, so names and placeholders agree in number. */
  lemma {:induction false} SortByIndexNonKey(s: seq<Field>)
    ensures |NonKey(SortByIndex(s))| == |NonKey(s)|
    decreases |s|
  {
    if |s| > 0 {
      SortByIndexNonKey(s[..|s| - 1]);
      InsertNonKey(s[|s| - 1], SortByIndex(s[..|s| - 1]));
    }
  }

  /** The placeholder list: "?" and "," alternating, one "?" per column. */
  lemma {:induction false} PlaceholderShape(n: nat)
    requires n > 0
    ensures |JoinedBy(Repeat("?", n), ",")| == 2 * n - 1
    ensures forall i :: 0 <= i < 2 * n - 1 ==> JoinedBy(Repeat("?", n), ",")[i] == (if i % 2 == 0 then '?' else ',')
  {
    if n > 1 {
      PlaceholderShape(n - 1);
      Init(Repeat("?", n - 1), "?");
      RepeatSnoc("?", n - 1);
    }
  }

  /** Appending x then sep to the builder of xs gives the builder of xs + [x]. */
  lemma TerminatedSnoc(xs: seq<string>, x: string, sep: string)
    ensures Terminated(xs + [x], sep) == Terminated(xs, sep) + x + sep
  {
    Init(xs, x);
  }

  /** The builder cut by one character: Failure for an empty builder, else the joined text. */
  function CutLast(xs: seq<string>): (r: Result<string, FieldListError>)
    ensures r.Failure? <==> |xs| == 0
    ensures r.Success? ==> r.value == JoinedBy(xs, ",")
  {
    if |xs| == 0 then Failure(StringIndexOutOfBoundsException)
    else CutLastIsJoined(xs, ","); Success(Terminated(xs, ",")[..|Terminated(xs, ",")| - 1])
  }

  class FieldList {
    var fields: seq<Field>
    const binder: string
    var locked: bool
    var dirty: bool

    /** A list marked clean is sorted. */
    ghost predicate Valid()
      reads this
    {
      !dirty ==> SortedByIndex(fields)
    }

    /** FieldList(String): empty, unlocked, due for a sort. */
    constructor(binder: string)
      ensures Valid()
      ensures this.binder == binder && fields == [] && !locked && dirty
    {
      this.binder := binder;
      fields := [];
      locked := false;
      dirty := true;
    }

    /**
     * FieldList(String, Field...): the locked test runs while locked still
     * holds its initial false, so it never throws; the fields are added in
     * order and the list is locked.
     */
    constructor WithFields(binder: string, fieldList: seq<Field>)
      ensures Valid()
      ensures this.binder == binder && fields == fieldList && locked && dirty
    {
      this.binder := binder;
      fields := [];
      locked := false;
      dirty := true;
      new;
      var i := 0;
      while i < |fieldList|
        invariant 0 <= i <= |fieldList|
        invariant fields == fieldList[..i] && dirty && !locked
      {
        var _ := Add(fieldList[i]);
        assert fieldList[..i + 1] == fieldList[..i] + [fieldList[i]];
        i := i + 1;
      }
      assert fieldList[..i] == fieldList;
      locked := true;
    }

    /**
     * add(Field): appends whether or not the list is locked; `duplicate`
     * is whether checkField logs that an equal field is already present.
     */
    method Add(field: Field) returns (duplicate: bool)
      modifies this
      ensures Valid()
      ensures duplicate <==> Contains(old(fields), field)
      ensures fields == old(fields) + [field] && dirty && locked == old(locked)
    {
      duplicate := Contains(fields, field);
      fields := fields + [field];
      dirty := true;
    }

    /**
     * add(List<Field>): every field is checked against the list as it was
     * (so repeats inside `list` go unreported), then all are appended.
     */
    method AddAll(list: seq<Field>) returns (reported: seq<Field>)
      modifies this
      ensures Valid()
      ensures reported == Reported(list, old(fields))
      ensures fields == old(fields) + list && dirty && locked == old(locked)
    {
      reported := [];
      var i := 0;
      while i < |list|
        invariant 0 <= i <= |list|
        invariant reported == Reported(list[..i], fields)
        invariant fields == old(fields) && dirty == old(dirty) && locked == old(locked)
      {
        Init(list[..i], list[i]);
        assert list[..i + 1] == list[..i] + [list[i]];
        if Contains(fields, list[i]) {
          reported := reported + [list[i]];
        }
        i := i + 1;
      }
      assert list[..i] == list;
      fields := fields + list;
      dirty := true;
    }

    /** add(FieldList): the other list's fields (this list's own when other is this) appended. */
    method AddFieldList(other: FieldList) returns (reported: seq<Field>)
      modifies this
      ensures Valid()
      ensures reported == Reported(old(other.fields), old(fields))
      ensures fields == old(fields) + old(other.fields) && dirty && locked == old(locked)
    {
      reported := AddAll(other.fields);
      dirty := true;
    }

    function Size(): nat
      reads this
    {
      |fields|
    }

    /**
     * getFields: a dirty list is sorted in place and marked clean. Either
     * way the result is the stable sort of the fields.
     */
    method GetFields() returns (r: seq<Field>)
      requires Valid()
      modifies this
      ensures Valid() && !dirty && locked == old(locked)
      ensures r == fields == SortByIndex(old(fields))
    {
      if dirty {
        fields := SortByIndex(fields);
        SortByIndexCorrect(old(fields));
        dirty := false;
      } else {
        SortByIndexOfSorted(fields);
      }
      r := fields;
    }

    /** getFieldNames: the names of the sorted fields in a new array. */
    method GetFieldNames() returns (r: array<Option<string>>)
      requires Valid()
      modifies this
      ensures Valid() && !dirty && locked == old(locked) && fields == SortByIndex(old(fields))
      ensures fresh(r) && r[..] == Names(fields)
    {
      var sorted := GetFields();
      r := new Option<string>[|sorted|];
      var i := 0;
      while i < |sorted|
        invariant 0 <= i <= |sorted| && fields == sorted && !dirty && locked == old(locked)
        invariant r[..i] == Names(sorted[..i])
      {
        r[i] := sorted[i].fieldName;
        Init(sorted[..i], sorted[i]);
        assert sorted[..i + 1] == sorted[..i] + [sorted[i]];
        assert r[..i + 1] == r[..i] + [r[i]];
        i := i + 1;
      }
      assert sorted[..i] == sorted;
    }

    /** getFieldNamesAsString: the sorted names joined by ","; an empty list throws. */
    method GetFieldNamesAsString() returns (r: Result<string, FieldListError>)
      requires Valid()
      modifies this
      ensures Valid() && !dirty && locked == old(locked) && fields == SortByIndex(old(fields))
      ensures r.Failure? <==> |fields| == 0
      ensures r.Success? ==> r.value == JoinedBy(NameTexts(fields), ",")
    {
      var sorted := GetFields();
      var sb: string := [];
      var i := 0;
      while i < |sorted|
        invariant 0 <= i <= |sorted| && fields == sorted && !dirty && locked == old(locked)
        invariant sb == Terminated(NameTexts(sorted[..i]), ",")
      {
        NameTextsSnoc(sorted[..i], sorted[i]);
        assert sorted[..i + 1] == sorted[..i] + [sorted[i]];
        TerminatedSnoc(NameTexts(sorted[..i]), ValueOf(sorted[i].fieldName), ",");
        sb := sb + ValueOf(sorted[i].fieldName) + ",";
        i := i + 1;
      }
      assert sorted[..i] == sorted;
      r := CutLast(NameTexts(sorted));
    }

    /** getFieldNamesAsStringWithoutKeyColumn: the same over the non-key fields. */
    method GetFieldNamesAsStringWithoutKeyColumn() returns (r: Result<string, FieldListError>)
      requires Valid()
      modifies this
      ensures Valid() && !dirty && locked == old(locked) && fields == SortByIndex(old(fields))
      ensures r.Failure? <==> |NonKey(fields)| == 0
      ensures r.Success? ==> r.value == JoinedBy(NameTexts(NonKey(fields)), ",")
    {
      var sorted := GetFields();
      var sb: string := [];
      var i := 0;
      while i < |sorted|
        invariant 0 <= i <= |sorted| && fields == sorted && !dirty && locked == old(locked)
        invariant sb == Terminated(NameTexts(NonKey(sorted[..i])), ",")
      {
        NonKeySnoc(sorted[..i], sorted[i]);
        assert sorted[..i + 1] == sorted[..i] + [sorted[i]];
        if !sorted[i].isKeyAttribute {
          assert NonKey(sorted[..i + 1]) == NonKey(sorted[..i]) + [sorted[i]];
          NameTextsSnoc(NonKey(sorted[..i]), sorted[i]);
          TerminatedSnoc(NameTexts(NonKey(sorted[..i])), ValueOf(sorted[i].fieldName), ",");
          sb := sb + ValueOf(sorted[i].fieldName) + ",";
        } else {
          assert NonKey(sorted[..i + 1]) == NonKey(sorted[..i]);
        }
        i := i + 1;
      }
      assert sorted[..i] == sorted;
      r := CutLast(NameTexts(NonKey(sorted)));
    }

    /** getParamsAsString: one "?" per field, joined by ","; an empty list throws. */
    method GetParamsAsString() returns (r: Result<string, FieldListError>)
      ensures r.Failure? <==> |fields| == 0
      ensures r.Success? ==> r.value == JoinedBy(Repeat("?", |fields|), ",")
    {
      var sb: string := [];
      var i := 0;
      while i < |fields|
        invariant 0 <= i <= |fields|
        invariant sb == Terminated(Repeat("?", i), ",")
      {
        RepeatSnoc("?", i);
        TerminatedSnoc(Repeat("?", i), "?", ",");
        sb := sb + "?,";
        i := i + 1;
      }
      r := CutLast(Repeat("?", |fields|));
    }

    /** getParamsAsStringWithoutKeyColumn: one "?" per non-key field, in list order. */
    method GetParamsAsStringWithoutKeyColumn() returns (r: Result<string, FieldListError>)
      ensures r.Failure? <==> |NonKey(fields)| == 0
      ensures r.Success? ==> r.value == JoinedBy(Repeat("?", |NonKey(fields)|), ",")
    {
      var sb: string := [];
      var i := 0;
      while i < |fields|
        invariant 0 <= i <= |fields|
        invariant sb == Terminated(Repeat("?", |NonKey(fields[..i])|), ",")
      {
        NonKeySnoc(fields[..i], fields[i]);
        assert fields[..i + 1] == fields[..i] + [fields[i]];
        if !fields[i].isKeyAttribute {
          RepeatSnoc("?", |NonKey(fields[..i])|);
          TerminatedSnoc(Repeat("?", |NonKey(fields[..i])|), "?", ",");
          sb := sb + "?,";
        }
        i := i + 1;
      }
      assert fields[..i] == fields;
      r := CutLast(Repeat("?", |NonKey(fields)|));
    }

    /** validate: the positions whose field's index differs from the position, in order (each is logged). */
    method Validate() returns (misplaced: seq<int>)
      ensures forall j :: 0 <= j < |misplaced| ==> 0 <= misplaced[j] < |fields|
      ensures forall j, k :: 0 <= j < k < |misplaced| ==> misplaced[j] < misplaced[k]
      ensures forall p :: 0 <= p < |fields| ==> (p in misplaced <==> fields[p].fieldIndex != p)
    {
      misplaced := [];
      var i := 0;
      while i < |fields|
        invariant 0 <= i <= |fields|
        invariant forall j :: 0 <= j < |misplaced| ==> 0 <= misplaced[j] < i
        invariant forall j, k :: 0 <= j < k < |misplaced| ==> misplaced[j] < misplaced[k]
        invariant forall p :: 0 <= p < i ==> (p in misplaced <==> fields[p].fieldIndex != p)
      {
        if i != fields[i].fieldIndex {
          misplaced := misplaced + [i];
        }
        i := i + 1;
      }
    }
  }

  /** The projections agree: without the key, as many placeholders as column names. */
  lemma ProjectionsAgree(s: seq<Field>)
    ensures |NameTexts(NonKey(SortByIndex(s)))| == |Repeat("?", |NonKey(s)|)|
  {
    SortByIndexNonKey(s);
  }
}
