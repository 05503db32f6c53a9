/**
 * What the containers read and write through java.lang.reflect, made
 * explicit: a metadata table (each class's superclass, declared fields
 * and public constructors, plus a given assignability relation) and a
 * heap of objects identified by number, each with a runtime class and a
 * store of reference-typed fields. A log records the calls the
 * containers make into user code (constructors, lifecycle hooks,
 * listeners), so that contracts can say which calls happened.
 */
module JavaReflection {
  import opened JavaLang

  /** A class, named by Class.getName. Two classes with the same name are the same class. */
  type ClassName = string

  /** An object reference that is not null. */
  type ObjId = nat

  const CONTEXT: ClassName := "android.content.Context"
  const SQLITE_DATABASE: ClassName := "android.database.sqlite.SQLiteDatabase"
  const FRAGMENT: ClassName := "android.app.Fragment"

  /** The shape of a public constructor: no parameter, exactly one Context, or anything else. */
  datatype Ctor = NoArg | ContextArg | OtherCtor

  /** A field as getDeclaredFields lists it: its name and the name of its declared type. */
  datatype FieldDecl = FieldDecl(name: string, declaredType: ClassName)

  /**
   * What reflection tells about a class: its superclass, its declared
   * fields in order, its public constructors in the order
   * getConstructors returns them, and whether newInstance succeeds
   * (false for an abstract class or a constructor that throws).
   */
  datatype ClassInfo = ClassInfo(
    superclass: Option<ClassName>,
    fields: seq<FieldDecl>,
    constructors: seq<Ctor>,
    constructible: bool)

  /** The metadata table; a class missing from it has no fields, no superclass and no constructor. */
  datatype Metadata = Metadata(classes: map<ClassName, ClassInfo>, assignable: set<(ClassName, ClassName)>)

  /** Class.isAssignableFrom: every class is assignable to itself, and to the supertypes the table lists. */
  predicate IsAssignableFrom(md: Metadata, supertype: ClassName, subtype: ClassName)
  {
    supertype == subtype || (supertype, subtype) in md.assignable
  }

  /** A field of some class: the declaring class, its name and its declared type. */
  datatype FieldRef = FieldRef(owner: ClassName, name: string, declaredType: ClassName)

  function Superclass(md: Metadata, c: ClassName): Option<ClassName>
  {
    if c in md.classes then md.classes[c].superclass else None
  }

  /** Class.getDeclaredFields. */
  function DeclaredFields(md: Metadata, c: ClassName): (r: seq<FieldRef>)
    ensures forall i :: 0 <= i < |r| ==> r[i].owner == c
  {
    if c in md.classes then
      var fs := md.classes[c].fields;
      seq(|fs|, i requires 0 <= i < |fs| => FieldRef(c, fs[i].name, fs[i].declaredType))
    else []
  }

  /** The declared fields of c and of at most fuel - 1 of its superclasses, nearest first. */
  function LineageFields(md: Metadata, c: ClassName, fuel: nat): seq<FieldRef>
    decreases fuel, 0
  {
    if fuel == 0 then []
    else DeclaredFields(md, c) + SuperFields(md, c, fuel - 1)
  }

  /** The fields the superclasses of c contribute. */
  function SuperFields(md: Metadata, c: ClassName, fuel: nat): seq<FieldRef>
    decreases fuel, 1
  {
    match Superclass(md, c)
    case None => []
    case Some(s) => LineageFields(md, s, fuel)
  }

  /**
   * getAllDeclaredFields: the class's own fields, then each superclass's.
   * A chain of superclasses in an acyclic table visits each listed class
   * at most once, so |classes| + 1 steps reach its end.
   */
  function AllDeclaredFields(md: Metadata, c: ClassName): seq<FieldRef>
  {
    LineageFields(md, c, |md.classes| + 1)
  }

  /** A class's own fields come first in the collected list. */
  lemma OwnFieldsFirst(md: Metadata, c: ClassName)
    ensures AllDeclaredFields(md, c)[..|DeclaredFields(md, c)|] == DeclaredFields(md, c)
  {
  }

  /** Every field of a direct superclass is collected too (its own chain is one step shorter). */
  lemma {:induction false} SuperclassFieldsIncluded(md: Metadata, c: ClassName, s: ClassName, fuel: nat, f: FieldRef)
    requires Superclass(md, c) == Some(s) && fuel > 0
    requires f in LineageFields(md, s, fuel - 1)
    ensures f in LineageFields(md, c, fuel)
  {
    assert LineageFields(md, c, fuel) == DeclaredFields(md, c) + LineageFields(md, s, fuel - 1);
  }

  /** A reference field's value: absent from the store means null. */
  type Fields = map<FieldRef, Option<ObjId>>

  function Read(fs: Fields, f: FieldRef): Option<ObjId>
  {
    if f in fs then fs[f] else None
  }

  /**
   * What outjection leaves in an object's fields: every listed field
   * whose declared type is one of the given classes is null, every other
   * field keeps its value.
   */
  function Outjected(fs: Fields, fields: seq<FieldRef>, keys: set<ClassName>): (r: Fields)
    ensures forall f :: Read(r, f) == if f in fields && f.declaredType in keys then None else Read(fs, f)
  {
    fs + map f | f in fields && f.declaredType in keys :: None
  }

  /** Outjecting twice is outjecting once. */
  lemma OutjectedIdempotent(fs: Fields, fields: seq<FieldRef>, keys: set<ClassName>)
    ensures Outjected(Outjected(fs, fields, keys), fields, keys) == Outjected(fs, fields, keys)
  {
    var once := Outjected(fs, fields, keys);
    var twice := Outjected(once, fields, keys);
    assert twice.Keys == once.Keys;
    forall f | f in twice.Keys
      ensures twice[f] == once[f]
    {
      assert Read(twice, f) == Read(once, f);
    }
  }

  /** Two stores that hold the same value in every field. */
  ghost predicate SameReads(a: Fields, b: Fields)
  {
    forall f :: Read(a, f) == Read(b, f)
  }

  /**
   * One more field of the list visited by outjection: it is nulled when
   * its type is one of the classes, and left alone otherwise.
   */
  lemma OutjectedStep(orig: Fields, cur: Fields, fields: seq<FieldRef>, i: nat, keys: set<ClassName>)
    requires i < |fields| && SameReads(cur, Outjected(orig, fields[..i], keys))
    ensures SameReads(if fields[i].declaredType in keys then cur[fields[i] := None] else cur,
                      Outjected(orig, fields[..i + 1], keys))
  {
    var next := if fields[i].declaredType in keys then cur[fields[i] := None] else cur;
    forall g
      ensures Read(next, g) == Read(Outjected(orig, fields[..i + 1], keys), g)
    {
      assert g in fields[..i + 1] <==> g in fields[..i] || g == fields[i];
      assert Read(cur, g) == Read(Outjected(orig, fields[..i], keys), g);
    }
  }

  /** Outjecting a store that already reads as outjected changes nothing it reads. */
  lemma OutjectedAgain(a: Fields, b: Fields, fields: seq<FieldRef>, keys: set<ClassName>)
    requires SameReads(a, Outjected(b, fields, keys))
    ensures SameReads(Outjected(a, fields, keys), Outjected(b, fields, keys))
  {
    forall g
      ensures Read(Outjected(a, fields, keys), g) == Read(Outjected(b, fields, keys), g)
    {
      assert Read(a, g) == Read(Outjected(b, fields, keys), g);
    }
  }

  /** An argument passed to user code. */
  datatype Arg = ClassArg(c: ClassName) | ObjArg(o: ObjId)

  /** A call into user code: a constructor, or a method invoked on an object. */
  datatype Call = Constructed(obj: ObjId, ctor: Ctor) | Invoked(target: ObjId, methodName: string, args: seq<Arg>)

  /** The objects of the running program. */
  class Heap {
    var classOf: map<ObjId, ClassName>
    var store: map<ObjId, Fields>
    /** The calls into user code, in the order they were made. */
    var log: seq<Call>
    /** Above every id in use. */
    var next: nat

    ghost predicate Valid()
      reads `classOf, `store, `next
    {
      store.Keys == classOf.Keys && forall id :: id in classOf ==> id < next
    }

    constructor()
      ensures Valid() && classOf == map[] && store == map[] && log == []
    {
      classOf := map[];
      store := map[];
      log := [];
      next := 0;
    }

    /** A new object of class c, built by a constructor of the given shape; every field starts null. */
    method New(c: ClassName, ctor: Ctor) returns (id: ObjId)
      requires Valid()
      modifies this
      ensures Valid() && id !in old(classOf)
      ensures classOf == old(classOf)[id := c] && store == old(store)[id := map[]]
      ensures log == old(log) + [Constructed(id, ctor)]
    {
      id := next;
      next := next + 1;
      classOf := classOf[id := c];
      store := store[id := map[]];
      log := log + [Constructed(id, ctor)];
    }

    /** Field.set. */
    method SetField(o: ObjId, f: FieldRef, v: Option<ObjId>)
      requires o in store
      modifies this`store
      ensures store == old(store)[o := old(store)[o][f := v]]
      ensures store.Keys == old(store).Keys
    {
      store := store[o := store[o][f := v]];
    }

    /** A call into user code; what the callee does is not modelled. */
    method Invoke(target: ObjId, methodName: string, args: seq<Arg>)
      modifies this`log
      ensures log == old(log) + [Invoked(target, methodName, args)]
    {
      log := log + [Invoked(target, methodName, args)];
    }
  }

  /** The first constructor newInstance may use: one without parameters or with exactly a Context. */
  function FirstUsable(ctors: seq<Ctor>): (r: Option<nat>)
    ensures r.Some? ==> r.value < |ctors| && ctors[r.value] != OtherCtor
    ensures r.Some? ==> forall j :: 0 <= j < r.value ==> ctors[j] == OtherCtor
    ensures r.None? ==> forall j :: 0 <= j < |ctors| ==> ctors[j] == OtherCtor
  {
    if |ctors| == 0 then None
    else if ctors[0] != OtherCtor then Some(0)
    else match FirstUsable(ctors[1..])
      case None => None
      case Some(k) => Some(k + 1)
  }

  function Constructors(md: Metadata, c: ClassName): seq<Ctor>
  {
    if c in md.classes then md.classes[c].constructors else []
  }

  /** The constructor shape instantiation of c uses, if any. */
  function ChosenCtor(md: Metadata, c: ClassName): Option<Ctor>
  {
    match FirstUsable(Constructors(md, c))
    case None => None
    case Some(k) => Some(Constructors(md, c)[k])
  }

  /**
   * The loop of instantiatePojo/instantiateBean over getConstructors:
   * the first constructor with no parameter or exactly one Context
   * parameter is taken.
   */
  method ChooseConstructor(ctors: seq<Ctor>) returns (chosen: Option<Ctor>)
    ensures chosen.None? <==> FirstUsable(ctors).None?
    ensures chosen.Some? ==> chosen.value == ctors[FirstUsable(ctors).value]
  {
    chosen := None;
    var i := 0;
    while i < |ctors|
      invariant 0 <= i <= |ctors|
      invariant forall j :: 0 <= j < i ==> ctors[j] == OtherCtor
    {
      if ctors[i] == NoArg || ctors[i] == ContextArg {
        chosen := Some(ctors[i]);
        assert FirstUsable(ctors) == Some(i) by { FirstUsableAt(ctors, i); }
        return;
      }
      i := i + 1;
    }
  }

  /** The first index holding a usable constructor is the one FirstUsable names. */
  lemma {:induction false} FirstUsableAt(ctors: seq<Ctor>, i: nat)
    requires i < |ctors| && ctors[i] != OtherCtor
    requires forall j :: 0 <= j < i ==> ctors[j] == OtherCtor
    ensures FirstUsable(ctors) == Some(i)
  {
    if i > 0 {
      FirstUsableAt(ctors[1..], i - 1);
    }
  }

  /** getAllDeclaredFields as written: the own fields, then a loop up the superclass chain. */
  method GetAllDeclaredFields(md: Metadata, c: ClassName) returns (fields: seq<FieldRef>)
    ensures fields == AllDeclaredFields(md, c)
  {
    fields := DeclaredFields(md, c);
    var current := c;
    var fuel: nat := |md.classes|;
    while Superclass(md, current).Some? && fuel > 0
      invariant fields + SuperFields(md, current, fuel) == AllDeclaredFields(md, c)
      decreases fuel
    {
      var s := Superclass(md, current).value;
      assert SuperFields(md, current, fuel) == DeclaredFields(md, s) + SuperFields(md, s, fuel - 1);
      fields := fields + DeclaredFields(md, s);
      current := s;
      fuel := fuel - 1;
    }
    assert SuperFields(md, current, fuel) == [];
  }
}
