/**
 * What the bean containers of both trees share once reflection is made
 * explicit: the handle caches of BaracusApplicationContext with their two
 * lookups (connectOpenHelper, connectDbHandle), constructor selection,
 * and the meaning of one run of performInjection over an object's
 * fields. Each tree's BaracusOpenHelper is a different class, so the
 * lookups take the helper class as a parameter.
 */
module BeanInjection {
  import opened JavaLang
  import opened JavaReflection

  /** What the container and the context's handle lookups throw. */
  datatype ContainerError =
    | InstantiationException(className: ClassName)   // no usable constructor (java.lang.InstantiationException)
    | ConstructorFailed(className: ClassName)        // newInstance threw
    | IntantiationException(cause: ContainerError)   // Exceptions.IntantiationException, spelled as in the source
    | IncompatibleTypesException(message: string)
    | ContextNotYetCreatedException
    | NullPointerException
    | ConcurrentModificationException
    | ContainerAlreadyStartedException               // a second application object in the org tree

  /**
   * What the two containers' performInjection differ in: the name of the
   * open-helper class whose fields get the helper, and whether a Context
   * field of the target gets the application instance (org, outside
   * managed activities) or is left to the bean loop (net).
   */
  datatype Rules = Rules(helperClass: ClassName, contextInjected: bool)

  /** The handles the context hands out: its db and baracusOpenHelper caches and the application instance. */
  datatype Handles = Handles(db: Option<ObjId>, openHelper: Option<ObjId>, instance: Option<ObjId>)

  /** The infrastructure types injection treats specially. */
  datatype Handle = DbHandle | OpenHelperHandle | ContextHandle

  /** The infrastructure handle a field of declared type t receives. */
  function InfraKind(t: ClassName, rules: Rules): Option<Handle>
  {
    if t == SQLITE_DATABASE then Some(DbHandle)
    else if t == rules.helperClass then Some(OpenHelperHandle)
    else if rules.contextInjected && t == CONTEXT then Some(ContextHandle)
    else None
  }

  function HandleValue(h: Handles, k: Handle): Option<ObjId>
  {
    match k
    case DbHandle => h.db
    case OpenHelperHandle => h.openHelper
    case ContextHandle => h.instance
  }

  /** Caches only go from null to a value, and the instance stays. */
  predicate HandlesGrow(h1: Handles, h2: Handles)
  {
    (h1.db.Some? ==> h2.db == h1.db)
    && (h1.openHelper.Some? ==> h2.openHelper == h1.openHelper)
    && h2.instance == h1.instance
  }

  /**
   * The values the inner loop of performInjection may leave in a field of
   * declared type t after visiting the registered classes `visited`: the
   * bean of t when t is among them, and the infrastructure handle as soon
   * as some other class was visited (that branch sits inside the loop).
   * With both present, which one stays depends on the iteration order.
   */
  function CandidatesOver(t: ClassName, visited: set<ClassName>, beans: map<ClassName, Option<ObjId>>,
                          rules: Rules, h: Handles): set<Option<ObjId>>
  {
    (if t in visited && t in beans then {beans[t]} else {})
    + (if visited - {t} != {} && InfraKind(t, rules).Some?
       then {HandleValue(h, InfraKind(t, rules).value)} else {})
  }

  function Candidates(t: ClassName, beans: map<ClassName, Option<ObjId>>, rules: Rules, h: Handles): set<Option<ObjId>>
  {
    CandidatesOver(t, beans.Keys, beans, rules, h)
  }

  /** A database or open-helper handle that was needed has been obtained. */
  predicate ResolvedOver(t: ClassName, visited: set<ClassName>, rules: Rules, h: Handles)
  {
    visited - {t} != {} ==>
      match InfraKind(t, rules)
      case Some(DbHandle) => h.db.Some?
      case Some(OpenHelperHandle) => h.openHelper.Some?
      case _ => true
  }

  /** Two updates of the same entry are one. */
  lemma UpdatedTwice<K, V>(m0: map<K, V>, m1: map<K, V>, m2: map<K, V>, k: K)
    requires k in m1 && m1 == m0[k := m1[k]]
    requires k in m2 && m2 == m1[k := m2[k]]
    ensures m2 == m0[k := m2[k]]
  {
  }

  /** Whether injecting a field of type t can complete, given which of the two handle lookups can. */
  predicate AvailableIn(t: ClassName, rules: Rules, keys: set<ClassName>, dbOk: bool, helperOk: bool)
  {
    keys - {t} != {} ==>
      match InfraKind(t, rules)
      case Some(DbHandle) => dbOk
      case Some(OpenHelperHandle) => helperOk
      case _ => true
  }

  /** Injecting every field of the list can complete. */
  predicate AllAvailable(fields: seq<FieldRef>, rules: Rules, keys: set<ClassName>, dbOk: bool, helperOk: bool)
  {
    forall i :: 0 <= i < |fields| ==> AvailableIn(fields[i].declaredType, rules, keys, dbOk, helperOk)
  }

  /** After visiting `visited`, field f holds a candidate, or its old value when there is none. */
  ghost predicate PartlyInjected(before: Fields, after: Fields, f: FieldRef, visited: set<ClassName>,
                                 beans: map<ClassName, Option<ObjId>>, rules: Rules, h: Handles)
  {
    ResolvedOver(f.declaredType, visited, rules, h)
    && var c := CandidatesOver(f.declaredType, visited, beans, rules, h);
       if c == {} then Read(after, f) == Read(before, f) else Read(after, f) in c
  }

  ghost predicate FieldInjected(before: Fields, after: Fields, f: FieldRef,
                                beans: map<ClassName, Option<ObjId>>, rules: Rules, h: Handles)
  {
    PartlyInjected(before, after, f, beans.Keys, beans, rules, h)
  }

  /** performInjection(Object): every listed field injected, every other field untouched. */
  ghost predicate Injected(before: Fields, after: Fields, fields: seq<FieldRef>,
                           beans: map<ClassName, Option<ObjId>>, rules: Rules, h: Handles)
  {
    forall g :: if g in fields then FieldInjected(before, after, g, beans, rules, h)
                else Read(after, g) == Read(before, g)
  }

  /** Growing caches do not change what an injected field may hold. */
  lemma FieldInjectedStable(before: Fields, after: Fields, f: FieldRef,
                            beans: map<ClassName, Option<ObjId>>, rules: Rules, h1: Handles, h2: Handles)
    requires FieldInjected(before, after, f, beans, rules, h1) && HandlesGrow(h1, h2)
    ensures FieldInjected(before, after, f, beans, rules, h2)
  {
    assert Candidates(f.declaredType, beans, rules, h1) == Candidates(f.declaredType, beans, rules, h2);
  }

  /** Injecting an object twice leaves it injected: each candidate set is the same both times. */
  lemma FieldInjectedTwice(a: Fields, b: Fields, c: Fields, f: FieldRef,
                           beans: map<ClassName, Option<ObjId>>, rules: Rules, h1: Handles, h2: Handles)
    requires FieldInjected(a, b, f, beans, rules, h1) && HandlesGrow(h1, h2)
    requires FieldInjected(b, c, f, beans, rules, h2)
    ensures FieldInjected(a, c, f, beans, rules, h2)
  {
    FieldInjectedStable(a, b, f, beans, rules, h1, h2);
  }

  /** `after` differs from `before` at most in field f. */
  predicate OnlyField(before: Fields, after: Fields, f: FieldRef)
  {
    after == before || (f in after && after == before[f := after[f]])
  }

  lemma OnlyFieldReads(before: Fields, after: Fields, f: FieldRef)
    requires OnlyField(before, after, f)
    ensures forall g :: g != f ==> Read(after, g) == Read(before, g)
  {
  }

  lemma OnlyFieldTwice(a: Fields, b: Fields, c: Fields, f: FieldRef)
    requires OnlyField(a, b, f) && OnlyField(b, c, f)
    ensures OnlyField(a, c, f)
  {
    if b != a && c != b {
      assert c == a[f := c[f]];
    }
  }

  /**
   * The inner loop of performInjection(Object) part-way: only field f has
   * changed, and it holds what visiting `visited` leaves in it.
   */
  ghost predicate ClassesProgress(orig: Fields, cur: Fields, f: FieldRef, visited: set<ClassName>,
                                  beans: map<ClassName, Option<ObjId>>, rules: Rules, h: Handles)
  {
    OnlyField(orig, cur, f) && PartlyInjected(orig, cur, f, visited, beans, rules, h)
  }

  /**
   * The field loop of performInjection(Object) part-way: each of the first
   * i fields could be injected, and is.
   */
  ghost predicate FieldsProgress(orig: Fields, cur: Fields, fields: seq<FieldRef>, i: nat,
                                 beans: map<ClassName, Option<ObjId>>, rules: Rules, h: Handles, dbOk: bool, helperOk: bool)
  {
    i <= |fields| && Injected(orig, cur, fields[..i], beans, rules, h)
    && forall j :: 0 <= j < i ==> AvailableIn(fields[j].declaredType, rules, beans.Keys, dbOk, helperOk)
  }

  /** The field loop after its last pass: the whole list could be injected, and is. */
  lemma FieldsFinished(orig: Fields, cur: Fields, fields: seq<FieldRef>,
                       beans: map<ClassName, Option<ObjId>>, rules: Rules, h: Handles, dbOk: bool, helperOk: bool)
    requires FieldsProgress(orig, cur, fields, |fields|, beans, rules, h, dbOk, helperOk)
    ensures Injected(orig, cur, fields, beans, rules, h) && AllAvailable(fields, rules, beans.Keys, dbOk, helperOk)
  {
    assert fields[..|fields|] == fields;
  }

  /** One more field of the list done. */
  lemma InjectedStep(orig: Fields, cur: Fields, next: Fields, fields: seq<FieldRef>, i: nat,
                     beans: map<ClassName, Option<ObjId>>, rules: Rules, h1: Handles, h2: Handles)
    requires i < |fields|
    requires Injected(orig, cur, fields[..i], beans, rules, h1) && HandlesGrow(h1, h2)
    requires FieldInjected(cur, next, fields[i], beans, rules, h2)
    requires forall g :: g != fields[i] ==> Read(next, g) == Read(cur, g)
    ensures Injected(orig, next, fields[..i + 1], beans, rules, h2)
  {
    forall g
      ensures if g in fields[..i + 1] then FieldInjected(orig, next, g, beans, rules, h2)
              else Read(next, g) == Read(orig, g)
    {
      if g == fields[i] {
        if g in fields[..i] {
          FieldInjectedTwice(orig, cur, next, g, beans, rules, h1, h2);
        } else {
          assert Read(cur, g) == Read(orig, g);
        }
      } else if g in fields[..i] {
        FieldInjectedStable(orig, cur, g, beans, rules, h1, h2);
        assert g in fields[..i + 1];
      } else {
        assert g !in fields[..i + 1];
      }
    }
  }

  /** One more pass of the field loop. */
  lemma FieldsStep(orig: Fields, cur: Fields, next: Fields, fields: seq<FieldRef>, i: nat,
                   beans: map<ClassName, Option<ObjId>>, rules: Rules, h1: Handles, h2: Handles, dbOk: bool, helperOk: bool)
    requires i < |fields| && FieldsProgress(orig, cur, fields, i, beans, rules, h1, dbOk, helperOk) && HandlesGrow(h1, h2)
    requires AvailableIn(fields[i].declaredType, rules, beans.Keys, dbOk, helperOk)
    requires FieldInjected(cur, next, fields[i], beans, rules, h2)
    requires OnlyField(cur, next, fields[i])
    ensures FieldsProgress(orig, next, fields, i + 1, beans, rules, h2, dbOk, helperOk)
  {
    OnlyFieldReads(cur, next, fields[i]);
    InjectedStep(orig, cur, next, fields, i, beans, rules, h1, h2);
  }

  /** Injecting an already injected object again keeps it injected. */
  lemma InjectedTwice(a: Fields, b: Fields, c: Fields, fields: seq<FieldRef>,
                      beans: map<ClassName, Option<ObjId>>, rules: Rules, h1: Handles, h2: Handles)
    requires Injected(a, b, fields, beans, rules, h1) && HandlesGrow(h1, h2)
    requires Injected(b, c, fields, beans, rules, h2)
    ensures Injected(a, c, fields, beans, rules, h2)
  {
    forall g | g in fields
      ensures FieldInjected(a, c, g, beans, rules, h2)
    {
      FieldInjectedTwice(a, b, c, g, beans, rules, h1, h2);
    }
  }

  lemma InjectedStable(a: Fields, b: Fields, fields: seq<FieldRef>,
                       beans: map<ClassName, Option<ObjId>>, rules: Rules, h1: Handles, h2: Handles)
    requires Injected(a, b, fields, beans, rules, h1) && HandlesGrow(h1, h2)
    ensures Injected(a, b, fields, beans, rules, h2)
  {
    forall g | g in fields
      ensures FieldInjected(a, b, g, beans, rules, h2)
    {
      FieldInjectedStable(a, b, g, beans, rules, h1, h2);
    }
  }

  /**
   * Outside the infrastructure types the iteration order does not matter:
   * a field whose type names a registered class holds that class's bean.
   */
  lemma {:induction false} PlainFieldGetsBean(before: Fields, after: Fields, f: FieldRef,
                                              beans: map<ClassName, Option<ObjId>>, rules: Rules, h: Handles)
    requires FieldInjected(before, after, f, beans, rules, h)
    requires InfraKind(f.declaredType, rules).None?
    ensures f.declaredType in beans ==> Read(after, f) == beans[f.declaredType]
    ensures f.declaredType !in beans ==> Read(after, f) == Read(before, f)
  {
    var t := f.declaredType;
    if t in beans {
      assert Candidates(t, beans, rules, h) == {beans[t]};
    } else {
      assert Candidates(t, beans, rules, h) == {};
    }
  }

  /**
   * With an empty registry nothing is injected, not even the
   * infrastructure handles: their branches sit inside the loop over the
   * registered classes.
   */
  lemma {:induction false} EmptyRegistryInjectsNothing(before: Fields, after: Fields, fields: seq<FieldRef>,
                                                       rules: Rules, h: Handles)
    requires Injected(before, after, fields, map[], rules, h)
    ensures forall g :: Read(after, g) == Read(before, g)
  {
    forall g
      ensures Read(after, g) == Read(before, g)
    {
      if g in fields {
        assert FieldInjected(before, after, g, map[], rules, h);
        assert Candidates(g.declaredType, map[], rules, h) == {};
      }
    }
  }

  /** A registered class that is not of an infrastructure type holds the other bean candidate. */
  lemma {:induction false} OrderDecidesOnlyForInfrastructure(before: Fields, after: Fields, f: FieldRef,
                                                             beans: map<ClassName, Option<ObjId>>, rules: Rules, h: Handles)
    requires FieldInjected(before, after, f, beans, rules, h)
    requires f.declaredType in beans && InfraKind(f.declaredType, rules).Some? && beans.Keys - {f.declaredType} != {}
    ensures Read(after, f) == beans[f.declaredType] || Read(after, f) == HandleValue(h, InfraKind(f.declaredType, rules).value)
  {
  }

  /** beanMap.values() restricted to non-null instances. */
  function Instances(beans: map<ClassName, Option<ObjId>>): set<ObjId>
  {
    set k | k in beans && beans[k].Some? :: beans[k].value
  }

  /** Every instance a slot holds is an object of the heap. */
  predicate HeldIn(beans: map<ClassName, Option<ObjId>>, classOf: map<ObjId, ClassName>)
  {
    forall k :: k in beans && beans[k].Some? ==> beans[k].value in classOf
  }

  predicate HasNull(beans: map<ClassName, Option<ObjId>>)
  {
    exists k :: k in beans && beans[k].None?
  }

  /** The instances of the open-helper class among the beans. */
  function HelperBeans(md: Metadata, helperClass: ClassName, classOf: map<ObjId, ClassName>,
                       beans: map<ClassName, Option<ObjId>>): set<ObjId>
  {
    set o | o in Instances(beans) && o in classOf && IsAssignableFrom(md, helperClass, classOf[o])
  }

  /** A lookup that could succeed still can when more handles are available. */
  lemma AllAvailableGrows(fields: seq<FieldRef>, rules: Rules, keys: set<ClassName>,
                          dbOk: bool, helperOk: bool, dbOk2: bool, helperOk2: bool)
    requires AllAvailable(fields, rules, keys, dbOk, helperOk)
    requires (dbOk ==> dbOk2) && (helperOk ==> helperOk2)
    ensures AllAvailable(fields, rules, keys, dbOk2, helperOk2)
  {
  }

  /** The call a lifecycle loop makes on one element: none for null or for an object that is not an iface. */
  function HookCall(md: Metadata, classOf: map<ObjId, ClassName>, o: Option<ObjId>, iface: ClassName, name: string): seq<Call>
  {
    if o.Some? && o.value in classOf && IsAssignableFrom(md, iface, classOf[o.value])
    then [Invoked(o.value, name, [])] else []
  }

  /**
   * The calls a lifecycle loop (postConstruct, onDestroy) makes over the
   * given elements, in order: method `name` on each instance of iface.
   */
  function HookCalls(md: Metadata, classOf: map<ObjId, ClassName>, objs: seq<Option<ObjId>>, iface: ClassName, name: string): seq<Call>
  {
    if objs == [] then []
    else HookCalls(md, classOf, objs[..|objs| - 1], iface, name) + HookCall(md, classOf, objs[|objs| - 1], iface, name)
  }

  /** A lifecycle loop calls `name`, without arguments, exactly on the listed instances of iface. */
  lemma {:induction false} HookCallsExactly(md: Metadata, classOf: map<ObjId, ClassName>, objs: seq<Option<ObjId>>,
                                            iface: ClassName, name: string, c: Call)
    ensures c in HookCalls(md, classOf, objs, iface, name) <==>
      c.Invoked? && c.methodName == name && c.args == [] && Some(c.target) in objs
      && c.target in classOf && IsAssignableFrom(md, iface, classOf[c.target])
  {
    if objs != [] {
      var init := objs[..|objs| - 1];
      HookCallsExactly(md, classOf, init, iface, name, c);
      assert objs == init + [objs[|objs| - 1]];
    }
  }

  /** Over distinct elements a lifecycle loop calls no hook twice. */
  lemma {:induction false} HookCallsDistinct(md: Metadata, classOf: map<ObjId, ClassName>, objs: seq<Option<ObjId>>,
                                             iface: ClassName, name: string)
    requires Distinct(objs)
    ensures Distinct(HookCalls(md, classOf, objs, iface, name))
  {
    if objs != [] {
      var init := objs[..|objs| - 1];
      var last := objs[|objs| - 1];
      HookCallsDistinct(md, classOf, init, iface, name);
      var calls := HookCalls(md, classOf, init, iface, name);
      if last.Some? && last.value in classOf && IsAssignableFrom(md, iface, classOf[last.value]) {
        var c := Invoked(last.value, name, []);
        HookCallsExactly(md, classOf, init, iface, name, c);
        assert c !in calls;
        forall i, j | 0 <= i < j < |calls + [c]|
          ensures (calls + [c])[i] != (calls + [c])[j]
        {
          if j == |calls| {
            assert (calls + [c])[i] == calls[i];
          }
        }
      }
    }
  }

  /**
   * A lifecycle loop over a set part-way: `order` lists the visited
   * elements, each once, and the log has grown by their hook calls.
   */
  ghost predicate HooksProgress(md: Metadata, classOf: map<ObjId, ClassName>, all: set<Option<ObjId>>,
                                remaining: set<Option<ObjId>>, order: seq<Option<ObjId>>,
                                log0: seq<Call>, log: seq<Call>, iface: ClassName, name: string)
  {
    remaining <= all && Distinct(order) && (forall x :: x in order <==> x in all && x !in remaining)
    && log == log0 + HookCalls(md, classOf, order, iface, name)
  }

  lemma HooksStep(md: Metadata, classOf: map<ObjId, ClassName>, all: set<Option<ObjId>>,
                  remaining: set<Option<ObjId>>, order: seq<Option<ObjId>>,
                  log0: seq<Call>, log: seq<Call>, iface: ClassName, name: string, o: Option<ObjId>)
    requires HooksProgress(md, classOf, all, remaining, order, log0, log, iface, name) && o in remaining
    ensures HooksProgress(md, classOf, all, remaining - {o}, order + [o], log0, log + HookCall(md, classOf, o, iface, name), iface, name)
  {
    assert (order + [o])[..|order|] == order;
  }

  /**
   * A lifecycle loop over the classes of a bean map part-way: `keys`
   * lists the visited classes, each once, and the log has grown by the
   * hook calls on their instances.
   */
  ghost predicate SlotHooksProgress(md: Metadata, classOf: map<ObjId, ClassName>, beans: map<ClassName, Option<ObjId>>,
                                    remaining: set<ClassName>, keys: seq<ClassName>,
                                    log0: seq<Call>, log: seq<Call>, iface: ClassName, name: string)
  {
    remaining <= beans.Keys && Distinct(keys) && (forall k :: k in keys <==> k in beans && k !in remaining)
    && log == log0 + HookCalls(md, classOf, SlotsAt(beans, keys), iface, name)
  }

  lemma SlotHooksStep(md: Metadata, classOf: map<ObjId, ClassName>, beans: map<ClassName, Option<ObjId>>,
                      remaining: set<ClassName>, keys: seq<ClassName>,
                      log0: seq<Call>, log: seq<Call>, iface: ClassName, name: string, k: ClassName)
    requires SlotHooksProgress(md, classOf, beans, remaining, keys, log0, log, iface, name) && k in remaining
    ensures SlotHooksProgress(md, classOf, beans, remaining - {k}, keys + [k], log0,
                              log + HookCall(md, classOf, beans[k], iface, name), iface, name)
  {
    var ks := keys + [k];
    var h := HookCall(md, classOf, beans[k], iface, name);
    assert Distinct(ks) && (forall c :: c in ks <==> c in beans && c !in remaining - {k}) by {
      SlotKeysStep(beans, remaining, keys, k);
    }
    assert log + h == log0 + HookCalls(md, classOf, SlotsAt(beans, ks), iface, name) by {
      SlotLogStep(md, classOf, beans, keys, iface, name, k);
    }
  }

  /** Taking k out of the remaining classes and appending it keeps the key sequence duplicate-free and exact. */
  lemma SlotKeysStep(beans: map<ClassName, Option<ObjId>>, remaining: set<ClassName>, keys: seq<ClassName>, k: ClassName)
    requires remaining <= beans.Keys && Distinct(keys) && (forall c :: c in keys <==> c in beans && c !in remaining)
    requires k in remaining
    ensures Distinct(keys + [k]) && (forall c :: c in keys + [k] <==> c in beans && c !in remaining - {k})
  {
    var ks := keys + [k];
    assert k !in keys;
    forall i, j | 0 <= i < j < |ks| ensures ks[i] != ks[j] {
      if j < |keys| { assert ks[i] == keys[i] && ks[j] == keys[j]; }
    }
  }

  /** Appending k's slot appends its hook call to the log. */
  lemma SlotLogStep(md: Metadata, classOf: map<ObjId, ClassName>, beans: map<ClassName, Option<ObjId>>,
                    keys: seq<ClassName>, iface: ClassName, name: string, k: ClassName)
    requires k in beans
    ensures HookCalls(md, classOf, SlotsAt(beans, keys + [k]), iface, name)
         == HookCalls(md, classOf, SlotsAt(beans, keys), iface, name) + HookCall(md, classOf, beans[k], iface, name)
  {
    var ks := keys + [k];
    var s := SlotsAt(beans, ks);
    assert ks[..|ks| - 1] == keys;
    assert s[..|s| - 1] == SlotsAt(beans, keys) && s[|s| - 1] == beans[k];
  }

  /** The slots of the given classes, in that order. */
  function SlotsAt(beans: map<ClassName, Option<ObjId>>, ks: seq<ClassName>): (r: seq<Option<ObjId>>)
    ensures |r| == |ks|
    ensures forall i :: 0 <= i < |ks| ==> r[i] == Lookup(beans, ks[i])
  {
    if ks == [] then [] else SlotsAt(beans, ks[..|ks| - 1]) + [Lookup(beans, ks[|ks| - 1])]
  }

  /**
   * The static handles of BaracusApplicationContext that the container
   * reaches through getInstance(): the application instance, the
   * database handle and the open-helper cache, with the two lookups that
   * fill the caches. Neither cache is ever reset to null except db by
   * destroy.
   */
  class Infrastructure {
    /** __instance: set by the context's constructor. */
    var instance: Option<ObjId>
    /** db */
    var db: Option<ObjId>
    /** baracusOpenHelper */
    var openHelper: Option<ObjId>
    /** The database getWritableDatabase() opens. */
    const database: ObjId
    /** BaracusOpenHelper of the context's own tree. */
    const helperClass: ClassName

    constructor(database: ObjId, helperClass: ClassName)
      ensures instance.None? && db.None? && openHelper.None? && this.database == database && this.helperClass == helperClass
    {
      this.database := database;
      this.helperClass := helperClass;
      instance := None;
      db := None;
      openHelper := None;
    }

    function Now(): Handles
      reads this
    {
      Handles(db, openHelper, instance)
    }

    /** connectOpenHelper would answer without throwing. */
    predicate HelperAvailable(md: Metadata, classOf: map<ObjId, ClassName>, beans: map<ClassName, Option<ObjId>>)
      reads this
    {
      openHelper.Some? || (!HasNull(beans) && HelperBeans(md, helperClass, classOf, beans) != {})
    }

    /** connectDbHandle would answer without throwing. */
    predicate DbAvailable(md: Metadata, classOf: map<ObjId, ClassName>, beans: map<ClassName, Option<ObjId>>)
      reads this
    {
      db.Some? || HelperAvailable(md, classOf, beans)
    }

    /**
     * connectOpenHelper: the cache, or else the last bean assignable to
     * BaracusOpenHelper in iteration order; a null bean throws
     * NullPointerException at o.getClass() (after caching whatever helper
     * came before it), and no helper at all throws
     * ContextNotYetCreatedException.
     */
    method ConnectOpenHelper(md: Metadata, classOf: map<ObjId, ClassName>, beans: map<ClassName, Option<ObjId>>)
      returns (r: Result<ObjId, ContainerError>)
      requires HeldIn(beans, classOf)
      modifies this`openHelper
      ensures old(openHelper).Some? ==> openHelper == old(openHelper) && r == Success(openHelper.value)
      ensures old(openHelper).None? && HasNull(beans) ==>
        r == Failure(NullPointerException) && (openHelper.None? || openHelper.value in HelperBeans(md, helperClass, classOf, beans))
      ensures old(openHelper).None? && !HasNull(beans) && HelperBeans(md, helperClass, classOf, beans) == {} ==>
        r == Failure(ContextNotYetCreatedException) && openHelper.None?
      ensures old(openHelper).None? && !HasNull(beans) && HelperBeans(md, helperClass, classOf, beans) != {} ==>
        r.Success? && openHelper == Some(r.value) && r.value in HelperBeans(md, helperClass, classOf, beans)
    {
      if openHelper.Some? {
        return Success(openHelper.value);
      }
      var remaining := beans.Keys;
      while remaining != {}
        invariant remaining <= beans.Keys
        invariant forall k :: k in beans && k !in remaining ==> beans[k].Some?
        invariant openHelper.None? ==> forall k :: k in beans && k !in remaining ==> beans[k].value !in HelperBeans(md, helperClass, classOf, beans)
        invariant openHelper.Some? ==> openHelper.value in HelperBeans(md, helperClass, classOf, beans)
        decreases remaining
      {
        var k :| k in remaining;
        match beans[k]
        case None =>
          return Failure(NullPointerException);
        case Some(o) =>
          if IsAssignableFrom(md, helperClass, classOf[o]) {
            openHelper := Some(o);
          }
        remaining := remaining - {k};
      }
      if openHelper.None? {
        assert HelperBeans(md, helperClass, classOf, beans) == {};
        return Failure(ContextNotYetCreatedException);
      }
      r := Success(openHelper.value);
    }

    /** connectDbHandle: the cache, or else the writable database of connectOpenHelper(), cached. */
    method ConnectDbHandle(md: Metadata, classOf: map<ObjId, ClassName>, beans: map<ClassName, Option<ObjId>>)
      returns (r: Result<ObjId, ContainerError>)
      requires HeldIn(beans, classOf)
      modifies this`openHelper, this`db
      ensures old(db).Some? ==> r == Success(old(db).value) && db == old(db) && openHelper == old(openHelper)
      ensures old(db).None? ==> (r.Success? <==> old(HelperAvailable(md, classOf, beans)))
      ensures r.Success? ==> db == Some(r.value) && r.value == (if old(db).Some? then old(db).value else database)
      ensures r.Failure? ==> db.None?
      ensures old(openHelper).Some? ==> openHelper == old(openHelper)
      ensures openHelper.Some? ==> openHelper == old(openHelper) || openHelper.value in HelperBeans(md, helperClass, classOf, beans)
      ensures r.Success? ==> HelperAvailable(md, classOf, beans) == old(HelperAvailable(md, classOf, beans))
    {
      if db.None? {
        var h := ConnectOpenHelper(md, classOf, beans);
        if h.Failure? {
          return Failure(h.error);
        }
        db := Some(database);
      }
      r := Success(db.value);
    }
  }

  function Lookup(beans: map<ClassName, Option<ObjId>>, c: ClassName): Option<ObjId>
  {
    if c in beans then beans[c] else None
  }


  /** newInstance of c can succeed: a usable constructor, a context to pass if it wants one, a body that does not throw. */
  predicate InstantiableIn(md: Metadata, instance: Option<ObjId>, c: ClassName)
  {
    ChosenCtor(md, c).Some?
    && (ChosenCtor(md, c) == Some(ContextArg) ==> instance.Some?)
    && c in md.classes && md.classes[c].constructible
  }

  /** One more registered class visited by the inner injection loop. */
  lemma PartlyStep(orig: Fields, cur: Fields, next: Fields, f: FieldRef, visited: set<ClassName>, k: ClassName,
                   beans: map<ClassName, Option<ObjId>>, rules: Rules, h1: Handles, h2: Handles)
    requires k in beans && PartlyInjected(orig, cur, f, visited, beans, rules, h1) && HandlesGrow(h1, h2)
    requires f.declaredType == k ==> Read(next, f) == beans[k]
    requires f.declaredType != k && InfraKind(f.declaredType, rules).Some? ==>
      Read(next, f) == HandleValue(h2, InfraKind(f.declaredType, rules).value)
      && ResolvedOver(f.declaredType, visited + {k}, rules, h2)
    requires f.declaredType != k && InfraKind(f.declaredType, rules).None? ==> Read(next, f) == Read(cur, f)
    ensures PartlyInjected(orig, next, f, visited + {k}, beans, rules, h2)
  {
    var t := f.declaredType;
    var c1 := CandidatesOver(t, visited, beans, rules, h1);
    var c2 := CandidatesOver(t, visited + {k}, beans, rules, h2);
    assert c1 <= c2;
    if t == k {
      assert beans[k] in c2;
    } else if InfraKind(t, rules).Some? {
      assert k in (visited + {k}) - {t};
      assert Read(next, f) in c2;
    } else {
      assert c1 == c2;
    }
  }
}
