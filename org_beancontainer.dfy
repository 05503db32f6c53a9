/**
 * org/baracus/context/BeanContainer.java: the singleton registry of the
 * org tree. Registered classes map to their single instance (null until
 * createInstances runs); an interface or superclass may be bound to an
 * implementation class whose instance it shares. Injection sets every
 * field whose declared type names a registered class; fields of the
 * infrastructure types (SQLiteDatabase, BaracusOpenHelper and, outside
 * managed activities, Context) receive the context's handles instead.
 *
 * The static beanMap (keyed by class name) and clazzMap (keyed by class)
 * always hold the same entries, since every write goes to both; as classes
 * are identified by their names here, the single map `beans` stands for
 * both. HashMap and HashSet iteration order is not fixed: loops pick the
 * next key with `:|` over a snapshot of the keys, and every contract holds
 * for any order.
 */
module OrgBeanContainer {
  import opened JavaLang
  import opened JavaReflection
  import opened BeanInjection
  import opened ContainerCore

  const BARACUS_OPEN_HELPER: ClassName := "org.baracus.dao.BaracusOpenHelper"
  const INITIALIZEABLE: ClassName := "org.baracus.lifecycle.Initializeable"
  const DESTROYABLE: ClassName := "org.baracus.lifecycle.Destroyable"
  const MANAGED_ACTIVITY: ClassName := "org.baracus.context.ManagedActivity"

  /** Injection in the org tree: the org open helper, and Context for every target but a ManagedActivity. */
  const ORG: Policy := Policy(BARACUS_OPEN_HELPER, true, Some(MANAGED_ACTIVITY))

  /** The static state of BeanContainer, over the program's heap and the context's handles. */
  class BeanContainer {
    const md: Metadata
    const heap: Heap
    const infra: Infrastructure
    /** beanMap and clazzMap: registered class -> its singleton, null until instantiated. */
    var beans: map<ClassName, Option<ObjId>>
    /** interfaceMap: supertype -> the implementation class bound to it. */
    var interfaceMap: map<ClassName, ClassName>
    var knownFragments: set<ObjId>
    var activeActivities: map<ClassName, ObjId>
    var pausedActivities: map<ClassName, ObjId>
    var existingActivities: map<ClassName, ObjId>

    ghost predicate Valid()
      reads this, heap`classOf, heap`next, heap`store
    {
      Registered(beans, knownFragments, activeActivities, pausedActivities, existingActivities, heap.classOf, heap.next)
      && infra.helperClass == BARACUS_OPEN_HELPER
      && heap.store.Keys == heap.classOf.Keys
    }

    /** Every bound implementation class is registered; a failed replaceBeanClass can break this. */
    ghost predicate BindingsRegistered()
      reads this
    {
      forall s :: s in interfaceMap ==> s in beans && interfaceMap[s] in beans
    }

    constructor(md: Metadata, heap: Heap, infra: Infrastructure)
      requires heap.Valid() && infra.helperClass == BARACUS_OPEN_HELPER
      ensures Valid() && BindingsRegistered()
      ensures this.md == md && this.heap == heap && this.infra == infra
      ensures beans == map[] && interfaceMap == map[] && knownFragments == {}
      ensures activeActivities == map[] && pausedActivities == map[] && existingActivities == map[]
    {
      this.md := md;
      this.heap := heap;
      this.infra := infra;
      beans := map[];
      interfaceMap := map[];
      knownFragments := {};
      activeActivities := map[];
      pausedActivities := map[];
      existingActivities := map[];
    }

    predicate IsInstance(o: ObjId, t: ClassName)
      reads heap`classOf
    {
      o in heap.classOf && IsAssignableFrom(md, t, heap.classOf[o])
    }

    /** The fields performInjection and performOutjection walk for o. */
    function FieldsOf(o: ObjId): seq<FieldRef>
      reads heap`classOf
      requires o in heap.classOf
    {
      AllDeclaredFields(md, heap.classOf[o])
    }

    /** How o's fields are injected: Context fields are skipped on managed activities. */
    function RulesFor(o: ObjId): Rules
      reads heap`classOf
      requires o in heap.classOf
    {
      RulesOf(md, ORG, heap.classOf[o])
    }

    predicate FieldAvailable(t: ClassName, rules: Rules)
      reads this, heap, infra
    {
      AvailableIn(t, rules, beans.Keys, infra.DbAvailable(md, heap.classOf, beans), infra.HelperAvailable(md, heap.classOf, beans))
    }

    /** performInjection(o) completes: every handle one of its fields needs can be obtained. */
    predicate Injectable(o: ObjId)
      reads this, heap, infra
      requires o in heap.classOf
    {
      InjectableUnder(o, infra.DbAvailable(md, heap.classOf, beans), infra.HelperAvailable(md, heap.classOf, beans))
    }

    /** Injectable(o), for given answers of the two handle lookups. */
    predicate InjectableUnder(o: ObjId, dbOk: bool, helperOk: bool)
      reads this, heap`classOf
      requires o in heap.classOf
    {
      ObjInjectable(md, ORG, heap.classOf, beans.Keys, o, dbOk, helperOk)
    }

    /** o's fields, compared with `before`, are injected against the current registry and handles. */
    ghost predicate InjectedFrom(before: map<ObjId, Fields>, o: ObjId)
      reads this, heap, infra
    {
      ObjInjected(md, ORG, heap.classOf, beans, before, heap.store, o, infra.Now())
    }

    /** Neither handle lookup has become possible or impossible. */
    twostate predicate SameAvailability()
      reads this, heap, infra
    {
      infra.HelperAvailable(md, heap.classOf, beans) == old(infra.HelperAvailable(md, heap.classOf, beans))
      && infra.DbAvailable(md, heap.classOf, beans) == old(infra.DbAvailable(md, heap.classOf, beans))
    }

    // ---------------------------------------------------------------- registration

    /** registerBeanClass(Class): a new class is registered with a null instance; a known one is left alone. */
    method RegisterBeanClass(c: ClassName)
      modifies this`beans
      ensures beans == if c in old(beans) then old(beans) else old(beans)[c := None]
    {
      if c !in beans {
        beans := beans[c := None];
      }
    }

    /**
     * registerBeanClass(interfaceType, implementationClass): binds the
     * supertype to the implementation and registers both; an
     * implementation not assignable to the supertype throws
     * IncompatibleTypesException and changes nothing.
     */
    method BindBeanClass(supertype: ClassName, impl: ClassName) returns (thrown: Option<ContainerError>)
      modifies this`beans, this`interfaceMap
      ensures thrown.Some? <==> !IsAssignableFrom(md, supertype, impl)
      ensures thrown.Some? ==> thrown.value == IncompatibleTypesException(impl + " cannot be assigned to type " + supertype + " ")
      ensures thrown.Some? ==> beans == old(beans) && interfaceMap == old(interfaceMap)
      ensures thrown.None? ==> interfaceMap == old(interfaceMap)[supertype := impl]
      ensures thrown.None? ==> beans.Keys == old(beans).Keys + {supertype, impl}
      ensures thrown.None? ==> forall k :: k in beans ==> beans[k] == Lookup(old(beans), k)
      ensures thrown.None? && old(BindingsRegistered()) ==> BindingsRegistered()
    {
      if !IsAssignableFrom(md, supertype, impl) {
        return Some(IncompatibleTypesException(impl + " cannot be assigned to type " + supertype + " "));
      }
      interfaceMap := interfaceMap[supertype := impl];
      if supertype !in beans {
        RegisterBeanClass(supertype);
      }
      if impl !in beans {
        RegisterBeanClass(impl);
      }
      thrown := None;
    }

    /**
     * replaceBeanClass: drops the supertype's binding and instance, then
     * binds it anew. The removal happens before the assignability check,
     * so a rejected replacement leaves the supertype unregistered.
     */
    method ReplaceBeanClass(supertype: ClassName, impl: ClassName) returns (thrown: Option<ContainerError>)
      modifies this`beans, this`interfaceMap
      ensures thrown.Some? <==> !IsAssignableFrom(md, supertype, impl)
      ensures thrown.Some? ==> beans == old(beans) - {supertype} && interfaceMap == old(interfaceMap) - {supertype}
      ensures thrown.None? ==> interfaceMap == old(interfaceMap)[supertype := impl]
      ensures thrown.None? ==> supertype in beans && beans[supertype] == None && impl in beans
      ensures thrown.None? ==> forall k :: k in beans && k != supertype ==> beans[k] == Lookup(old(beans), k)
    {
      interfaceMap := interfaceMap - {supertype};
      beans := beans - {supertype};
      thrown := BindBeanClass(supertype, impl);
    }

    // ---------------------------------------------------------------- instantiation

    /** newInstance of c can succeed: a usable constructor, a context to pass if it wants one, a body that does not throw. */
    predicate Instantiable(c: ClassName)
      reads infra
    {
      InstantiableIn(md, infra.instance, c)
    }

    /**
     * instantiatePojo: the first constructor taking nothing or just the
     * Context is used; none throws InstantiationException, and the
     * Context constructor needs getContext(), which throws on a missing
     * instance.
     */
    method InstantiatePojo(c: ClassName) returns (r: Result<ObjId, ContainerError>)
      requires Valid()
      modifies heap
      ensures Valid()
      ensures r.Success? <==> Instantiable(c)
      ensures r.Success? ==> r.value !in old(heap.classOf) && heap.classOf == old(heap.classOf)[r.value := c]
      ensures r.Success? ==> heap.store == old(heap.store)[r.value := map[]]
      ensures r.Success? ==> heap.log == old(heap.log) + [Constructed(r.value, ChosenCtor(md, c).value)]
      ensures r.Failure? ==> heap.classOf == old(heap.classOf) && heap.store == old(heap.store) && heap.log == old(heap.log)
      ensures r.Failure? && ChosenCtor(md, c).None? ==> r.error == InstantiationException(c)
    {
      var chosen := ChooseConstructor(Constructors(md, c));
      if chosen.None? {
        return Failure(InstantiationException(c));
      }
      assert chosen == ChosenCtor(md, c);
      if chosen.value == ContextArg && infra.instance.None? {
        return Failure(NullPointerException);
      }
      if !(c in md.classes && md.classes[c].constructible) {
        return Failure(ConstructorFailed(c));
      }
      var id := heap.New(c, chosen.value);
      r := Success(id);
    }

    /** holdBean: store the instance for the class; a Fragment also joins knownFragments. */
    method HoldBean(c: ClassName, o: Option<ObjId>)
      requires Valid() && (o.Some? ==> o.value in heap.classOf)
      modifies this`beans, this`knownFragments
      ensures Valid()
      ensures beans == old(beans)[c := o]
      ensures knownFragments == if o.Some? && IsInstance(o.value, FRAGMENT) then old(knownFragments) + {o.value} else old(knownFragments)
    {
      beans := beans[c := o];
      if o.Some? && IsInstance(o.value, FRAGMENT) {
        knownFragments := knownFragments + {o.value};
      }
    }

    /** removeBean: the class stays registered, its instance is dropped. */
    method RemoveBean(c: ClassName)
      requires Valid()
      modifies this`beans
      ensures Valid() && beans == old(beans)[c := None]
    {
      beans := beans[c := None];
    }

    /** The class whose instance a class gets: its bound implementation, or itself. */
    function Impl(c: ClassName): ClassName
      reads this
    {
      ImplIn(interfaceMap, c)
    }

    /**
     * instantiateSingletonBean: a bound supertype takes the instance of its
     * implementation, creating (and holding) one when there is none yet;
     * an unbound class takes its own instance or a new one. On failure
     * nothing has changed.
     */
    method InstantiateSingletonBean(c: ClassName) returns (thrown: Option<ContainerError>)
      requires Valid()
      modifies heap, this`beans, this`knownFragments
      ensures Valid() && interfaceMap == old(interfaceMap)
      ensures Lookup(old(beans), Impl(c)).Some? ==>
        thrown.None? && beans == old(beans)[c := Lookup(old(beans), Impl(c))] && heap.classOf == old(heap.classOf) && heap.store == old(heap.store)
      ensures Lookup(old(beans), Impl(c)).None? ==> (thrown.None? <==> Instantiable(Impl(c)))
      ensures Lookup(old(beans), Impl(c)).None? && thrown.None? ==>
        c in beans && beans[c].Some? && beans == old(beans)[Impl(c) := beans[c]][c := beans[c]]
        && beans[c].value !in old(heap.classOf) && heap.classOf == old(heap.classOf)[beans[c].value := Impl(c)]
        && heap.store == old(heap.store)[beans[c].value := map[]]
      ensures thrown.None? ==> c in beans && beans[c].Some?
      ensures thrown.None? ==>
        knownFragments == old(knownFragments) + (if IsInstance(beans[c].value, FRAGMENT) then {beans[c].value} else {})
      ensures thrown.Some? ==>
        beans == old(beans) && knownFragments == old(knownFragments)
        && heap.classOf == old(heap.classOf) && heap.store == old(heap.store)
    {
      // Both branches of the source look up the instance of Impl(c): the
      // bound implementation, or c itself; only a new implementation
      // instance is held under its own class before c gets it.
      var impl := Impl(c);
      var result: ObjId;
      var existing := Lookup(beans, impl);
      if existing.None? {
        var p := InstantiatePojo(impl);
        if p.Failure? {
          return Some(p.error);
        }
        result := p.value;
        if c in interfaceMap {
          HoldBean(impl, Some(result));
        }
      } else {
        result := existing.value;
      }
      HoldBean(c, Some(result));
      thrown := None;
    }

    /** What createInstances keeps true while it walks the registered classes. */
    ghost predicate CreationInvariant(before: map<ClassName, Option<ObjId>>, beforeClasses: map<ObjId, ClassName>,
                                      beforeStore: map<ObjId, Fields>, beforeFragments: set<ObjId>, bindings: bool)
      reads this, heap, infra
    {
      Valid()
      && CreationInv(before, beforeClasses, beforeStore, beforeFragments, bindings,
                     beans, interfaceMap, md, infra.instance, heap.classOf, heap.store, knownFragments)
    }

    /** One step of createInstances: instantiate a class whose slot is null, keeping the invariant. */
    method CreateOne(c: ClassName, ghost before: map<ClassName, Option<ObjId>>, ghost beforeClasses: map<ObjId, ClassName>,
                     ghost beforeStore: map<ObjId, Fields>, ghost beforeFragments: set<ObjId>, ghost bindings: bool)
      returns (thrown: Option<ContainerError>)
      requires CreationInvariant(before, beforeClasses, beforeStore, beforeFragments, bindings)
      requires bindings ==> BindingsRegistered()
      requires c in before && c in beans && beans[c].None?
      modifies heap, this`beans, this`knownFragments
      ensures interfaceMap == old(interfaceMap) && old(beans).Keys <= beans.Keys
      ensures CreationInvariant(before, beforeClasses, beforeStore, beforeFragments, bindings)
      ensures thrown.None? ==> beans[c].Some?
      ensures FilledKept(old(beans), beans)
      ensures thrown.None? ==> Impl(c) in beans
      ensures thrown.Some? ==> !Instantiable(Impl(c))
      ensures forall k :: k != c && k != Impl(c) ==> Lookup(beans, k) == Lookup(old(beans), k)
    {
      ghost var b0 := beans;
      ghost var cl0 := heap.classOf;
      ghost var st0 := heap.store;
      ghost var kf0 := knownFragments;
      thrown := InstantiateSingletonBean(c);
      assert thrown.None? ==> Impl(c) in beans;
      assert forall k :: k != c && k != Impl(c) ==> Lookup(beans, k) == Lookup(b0, k);
      if thrown.None? {
        if Lookup(b0, Impl(c)).Some? {
          SharedCreation(before, beforeClasses, beforeStore, beforeFragments, bindings,
                         b0, beans, interfaceMap, md, infra.instance, cl0, st0, kf0, knownFragments, c);
        } else {
          FreshCreation(before, beforeClasses, beforeStore, beforeFragments, bindings,
                        b0, beans, interfaceMap, md, infra.instance, cl0, heap.classOf, st0, heap.store, kf0, knownFragments,
                        c, beans[c].value);
        }
      }
    }

    /** createInstances part-way: the invariant holds and every class visited so far has an instance. */
    ghost predicate CreationLoop(before: map<ClassName, Option<ObjId>>, beforeClasses: map<ObjId, ClassName>,
                                 beforeStore: map<ObjId, Fields>, beforeFragments: set<ObjId>, bindings: bool,
                                 remaining: set<ClassName>)
      reads this, heap, infra
    {
      remaining <= before.Keys
      && CreationInvariant(before, beforeClasses, beforeStore, beforeFragments, bindings)
      && forall k :: k in before && k !in remaining ==> beans[k].Some?
    }

    /** One pass of the loop of createInstances: class c is instantiated when its slot is null. */
    method CreateAt(c: ClassName, ghost remaining: set<ClassName>, ghost before: map<ClassName, Option<ObjId>>,
                    ghost beforeClasses: map<ObjId, ClassName>, ghost beforeStore: map<ObjId, Fields>,
                    ghost beforeFragments: set<ObjId>, ghost bindings: bool)
      returns (thrown: Option<ContainerError>)
      requires c in remaining && CreationLoop(before, beforeClasses, beforeStore, beforeFragments, bindings, remaining)
      requires bindings ==> BindingsRegistered()
      modifies heap, this`beans, this`knownFragments
      ensures CreationInvariant(before, beforeClasses, beforeStore, beforeFragments, bindings)
      ensures thrown.None? ==> CreationLoop(before, beforeClasses, beforeStore, beforeFragments, bindings, remaining - {c})
      ensures thrown.None? && Lookup(old(beans), c).None? ==> Impl(c) in beans
      ensures thrown.Some? ==> !Instantiable(Impl(c))
      ensures forall k :: k != c && k != Impl(c) ==> Lookup(beans, k) == Lookup(old(beans), k)
    {
      if beans[c].None? {
        thrown := CreateOne(c, before, beforeClasses, beforeStore, beforeFragments, bindings);
      } else {
        thrown := None;
      }
    }

    /**
     * createInstances: every registered class whose instance is null gets
     * one, in iteration order; the first failure is rethrown wrapped in
     * IntantiationException. Filled slots are never touched; an unbound
     * class gets a fresh instance of itself, a bound supertype (that is not
     * itself some other binding's implementation) shares the instance of
     * its implementation, and the fragments among the new instances join
     * knownFragments. An unbound null class that cannot be instantiated
     * makes the whole call throw.
     */
    method CreateInstances() returns (thrown: Option<ContainerError>)
      requires Valid()
      modifies heap, this`beans, this`knownFragments
      ensures Valid() && interfaceMap == old(interfaceMap)
      ensures thrown.Some? ==> thrown.value.IntantiationException?
      ensures CreationInvariant(old(beans), old(heap.classOf), old(heap.store), old(knownFragments), old(BindingsRegistered()))
      ensures thrown.None? ==> forall k :: k in beans ==> beans[k].Some?
      ensures thrown.None? ==> forall k :: k in old(beans) && old(beans[k]).None? && k !in interfaceMap ==> Instantiable(k)
    {
      ghost var before := beans;
      ghost var bindings := BindingsRegistered();
      var remaining := beans.Keys;
      while remaining != {}
        invariant CreationLoop(before, old(heap.classOf), old(heap.store), old(knownFragments), bindings, remaining)
        decreases remaining
      {
        var c :| c in remaining;
        thrown := CreateAt(c, remaining, before, old(heap.classOf), old(heap.store), old(knownFragments), bindings);
        if thrown.Some? {
          return Some(IntantiationException(thrown.value));
        }
        remaining := remaining - {c};
      }
      thrown := None;
    }

    /**
     * Two supertypes with null slots bound to one implementation class that
     * has no slot of its own, neither of them the implementation of another
     * binding. A replaceBeanClass rejected for its implementation leaves a
     * supertype bound to a class it has just unregistered.
     */
    predicate OrphanedPair(t1: ClassName, t2: ClassName)
      reads this
    {
      OrphanedIn(beans, interfaceMap, t1, t2)
    }

    /**
     * createInstances as written, part-way, besides CreationLoop: the key
     * set is the one the loop started from until its last pass, and the
     * two supertypes of an orphaned pair (`blocked`) are both unvisited.
     */
    ghost predicate KeysUnvisited(before: map<ClassName, Option<ObjId>>, remaining: set<ClassName>,
                                  blocked: bool, t1: ClassName, t2: ClassName)
      reads this
    {
      (beans.Keys == before.Keys || remaining == {})
      && (blocked ==> OrphanedIn(before, interfaceMap, t1, t2) && t1 in remaining && t2 in remaining
                      && Lookup(beans, t1).None? && Lookup(beans, t2).None?)
    }

    /**
     * One pass of createInstances as written: the class is instantiated
     * when its slot is null, and the iterator's next step throws
     * ConcurrentModificationException once the map has gained a key.
     */
    method CreateAtAsWritten(c: ClassName, remaining: set<ClassName>, keys: set<ClassName>,
                             ghost before: map<ClassName, Option<ObjId>>, ghost beforeClasses: map<ObjId, ClassName>,
                             ghost beforeStore: map<ObjId, Fields>, ghost beforeFragments: set<ObjId>, ghost bindings: bool,
                             ghost blocked: bool, ghost t1: ClassName, ghost t2: ClassName)
      returns (thrown: Option<ContainerError>)
      requires c in remaining && keys == before.Keys
      requires CreationLoop(before, beforeClasses, beforeStore, beforeFragments, bindings, remaining)
      requires KeysUnvisited(before, remaining, blocked, t1, t2)
      requires bindings ==> BindingsRegistered()
      modifies heap, this`beans, this`knownFragments
      ensures CreationInvariant(before, beforeClasses, beforeStore, beforeFragments, bindings)
      ensures thrown.Some? ==> thrown.value.IntantiationException? || (thrown == Some(ConcurrentModificationException) && before.Keys < beans.Keys)
      ensures thrown.Some? && thrown.value.IntantiationException? ==> !Instantiable(Impl(c))
      ensures thrown.None? ==> CreationLoop(before, beforeClasses, beforeStore, beforeFragments, bindings, remaining - {c})
      ensures thrown.None? ==> KeysUnvisited(before, remaining - {c}, blocked, t1, t2)
    {
      thrown := CreateAt(c, remaining, before, beforeClasses, beforeStore, beforeFragments, bindings);
      if thrown.Some? {
        return Some(IntantiationException(thrown.value));
      }
      if blocked && (c == t1 || c == t2) {
        assert interfaceMap[c] in beans && interfaceMap[c] !in keys;
        assert (if c == t1 then t2 else t1) in remaining - {c};
      } else if blocked {
        assert Impl(c) != t1 && Impl(c) != t2;
      }
      if beans.Keys != keys && remaining - {c} != {} {
        return Some(ConcurrentModificationException);
      }
    }

    /**
     * createInstances as written: the for-each runs over clazzMap's live key
     * set, and holdBean puts a bound implementation that had no slot into
     * that same map. The iterator's next step then throws
     * ConcurrentModificationException, outside the try block, so it is not
     * wrapped; only when the class that added the key was the last one
     * does the loop end normally. With every binding's implementation
     * registered no key is ever added; with an orphaned pair the call
     * never completes.
     */
    method CreateInstancesAsWritten() returns (thrown: Option<ContainerError>, ghost failed: ClassName)
      requires Valid()
      modifies heap, this`beans, this`knownFragments
      ensures Valid() && interfaceMap == old(interfaceMap)
      ensures CreationInvariant(old(beans), old(heap.classOf), old(heap.store), old(knownFragments), old(BindingsRegistered()))
      ensures thrown.Some? ==> thrown.value.IntantiationException? || thrown == Some(ConcurrentModificationException)
      ensures thrown == Some(ConcurrentModificationException) ==> old(beans).Keys < beans.Keys
      ensures old(BindingsRegistered()) ==> thrown != Some(ConcurrentModificationException)
      ensures thrown.None? ==> forall k :: k in beans ==> beans[k].Some?
      ensures (exists t1, t2 :: old(OrphanedPair(t1, t2))) ==> thrown.Some?
      ensures thrown.Some? && thrown.value.IntantiationException? ==> failed in old(beans) && !Instantiable(Impl(failed))
    {
      ghost var before := beans;
      ghost var bindings := BindingsRegistered();
      ghost var blocked := exists t1, t2 :: OrphanedPair(t1, t2);
      ghost var t1: ClassName, t2: ClassName := "", "";
      failed := "";
      if blocked {
        t1, t2 :| OrphanedPair(t1, t2);
      }
      var keys := beans.Keys;
      var remaining := keys;
      while remaining != {}
        invariant CreationLoop(before, old(heap.classOf), old(heap.store), old(knownFragments), bindings, remaining)
        invariant KeysUnvisited(before, remaining, blocked, t1, t2)
        decreases remaining
      {
        var c :| c in remaining;
        thrown := CreateAtAsWritten(c, remaining, keys, before, old(heap.classOf), old(heap.store), old(knownFragments),
                                    bindings, blocked, t1, t2);
        if thrown.Some? {
          return thrown, c;
        }
        remaining := remaining - {c};
      }
      thrown := None;
    }

    // ---------------------------------------------------------------- injection

    /**
     * One pass of the inner loop of performInjection(Object): a registered
     * class k named like the field's type sets its bean; any other class
     * sets the infrastructure handle for a field of an infrastructure
     * type, rethrowing a failed lookup.
     */
    method InjectFromClass(o: ObjId, f: FieldRef, rules: Rules, k: ClassName,
                           ghost orig: Fields, ghost visited: set<ClassName>)
      returns (thrown: Option<ContainerError>)
      requires Valid() && o in heap.classOf && k in beans
      requires ClassesProgress(orig, heap.store[o], f, visited, beans, rules, infra.Now())
      modifies heap`store, infra`db, infra`openHelper
      ensures Valid() && heap.store == old(heap.store)[o := heap.store[o]]
      ensures HandlesGrow(old(infra.Now()), infra.Now())
      ensures thrown.None? ==> SameAvailability()
      ensures thrown.Some? ==> !old(FieldAvailable(f.declaredType, rules)) && heap.store == old(heap.store)
      ensures thrown.None? ==> ClassesProgress(orig, heap.store[o], f, visited + {k}, beans, rules, infra.Now())
    {
      var t := f.declaredType;
      var kind := InfraKind(t, rules);
      ghost var h1 := infra.Now();
      ghost var cur := heap.store[o];
      if t == k {
        heap.SetField(o, f, beans[k]);
      } else if kind == Some(DbHandle) {
        assert k in beans.Keys - {t};
        var r := infra.ConnectDbHandle(md, heap.classOf, beans);
        if r.Failure? {
          return Some(r.error);
        }
        heap.SetField(o, f, Some(r.value));
      } else if kind == Some(OpenHelperHandle) {
        assert k in beans.Keys - {t};
        var r := infra.ConnectOpenHelper(md, heap.classOf, beans);
        if r.Failure? {
          return Some(r.error);
        }
        heap.SetField(o, f, Some(r.value));
      } else if kind == Some(ContextHandle) {
        heap.SetField(o, f, infra.instance);
      }
      OnlyFieldTwice(orig, cur, heap.store[o], f);
      PartlyStep(orig, cur, heap.store[o], f, visited, k, beans, rules, h1, infra.Now());
      thrown := None;
    }

    /**
     * The inner loop of performInjection(Object) for one field, over all
     * registered classes. It throws exactly when the field needs a handle
     * that cannot be obtained.
     */
    method InjectField(o: ObjId, f: FieldRef, rules: Rules) returns (thrown: Option<ContainerError>)
      requires Valid() && o in heap.classOf
      modifies heap`store, infra`db, infra`openHelper
      ensures Valid() && heap.store == old(heap.store)[o := heap.store[o]]
      ensures OnlyField(old(heap.store[o]), heap.store[o], f)
      ensures HandlesGrow(old(infra.Now()), infra.Now())
      ensures thrown.None? ==> SameAvailability()
      ensures thrown.None? <==> old(FieldAvailable(f.declaredType, rules))
      ensures thrown.None? ==> FieldInjected(old(heap.store[o]), heap.store[o], f, beans, rules, infra.Now())
    {
      var remaining := beans.Keys;
      ghost var visited: set<ClassName> := {};
      ghost var orig := heap.store[o];
      while remaining != {}
        invariant visited + remaining == beans.Keys
        invariant Valid() && heap.store == old(heap.store)[o := heap.store[o]]
        invariant HandlesGrow(old(infra.Now()), infra.Now()) && SameAvailability()
        invariant ClassesProgress(orig, heap.store[o], f, visited, beans, rules, infra.Now())
        decreases remaining
      {
        var k :| k in remaining;
        ghost var st := heap.store;
        thrown := InjectFromClass(o, f, rules, k, orig, visited);
        UpdatedTwice(old(heap.store), st, heap.store, o);
        if thrown.Some? {
          return;
        }
        remaining := remaining - {k};
        visited := visited + {k};
      }
      thrown := None;
    }

    /** One pass of the outer loop of performInjection(Object): field i of the list goes through InjectField. */
    method InjectFieldAt(obj: ObjId, fields: seq<FieldRef>, i: nat, rules: Rules,
                         ghost orig: Fields, ghost dbOk: bool, ghost helperOk: bool)
      returns (thrown: Option<ContainerError>)
      requires Valid() && obj in heap.classOf && i < |fields|
      requires infra.DbAvailable(md, heap.classOf, beans) == dbOk && infra.HelperAvailable(md, heap.classOf, beans) == helperOk
      requires FieldsProgress(orig, heap.store[obj], fields, i, beans, rules, infra.Now(), dbOk, helperOk)
      modifies heap`store, infra`db, infra`openHelper
      ensures Valid() && heap.store == old(heap.store)[obj := heap.store[obj]]
      ensures HandlesGrow(old(infra.Now()), infra.Now())
      ensures thrown.Some? ==> !AllAvailable(fields, rules, beans.Keys, dbOk, helperOk)
      ensures thrown.None? ==> infra.DbAvailable(md, heap.classOf, beans) == dbOk && infra.HelperAvailable(md, heap.classOf, beans) == helperOk
      ensures thrown.None? ==> FieldsProgress(orig, heap.store[obj], fields, i + 1, beans, rules, infra.Now(), dbOk, helperOk)
    {
      ghost var cur := heap.store[obj];
      ghost var h1 := infra.Now();
      assert FieldAvailable(fields[i].declaredType, rules) == AvailableIn(fields[i].declaredType, rules, beans.Keys, dbOk, helperOk);
      thrown := InjectField(obj, fields[i], rules);
      if thrown.None? {
        FieldsStep(orig, cur, heap.store[obj], fields, i, beans, rules, h1, infra.Now(), dbOk, helperOk);
      }
    }

    /**
     * performInjection(Object): a null object throws NullPointerException
     * at getClass(); any other goes through PerformInjectionOn.
     */
    method PerformInjection(o: Option<ObjId>) returns (thrown: Option<ContainerError>)
      requires Valid() && (o.Some? ==> o.value in heap.classOf)
      modifies heap`store, infra`db, infra`openHelper
      ensures Valid()
      ensures HandlesGrow(old(infra.Now()), infra.Now())
      ensures thrown.None? ==> SameAvailability()
      ensures o.None? ==> thrown == Some(NullPointerException) && heap.store == old(heap.store) && infra.Now() == old(infra.Now())
      ensures o.Some? ==> heap.store == old(heap.store)[o.value := heap.store[o.value]]
      ensures o.Some? ==> (thrown.None? <==> old(Injectable(o.value)))
      ensures o.Some? && thrown.None? ==> InjectedFrom(old(heap.store), o.value)
    {
      if o.None? {
        return Some(NullPointerException);
      }
      thrown := PerformInjectionOn(o.value);
    }

    /**
     * performInjection(Object) on an object: every field of its class and
     * of its superclasses goes through the inner loop, and the object is
     * injected unless a needed handle cannot be obtained. Only that object
     * changes.
     */
    method PerformInjectionOn(obj: ObjId) returns (thrown: Option<ContainerError>)
      requires Valid() && obj in heap.classOf
      modifies heap`store, infra`db, infra`openHelper
      ensures Valid()
      ensures HandlesGrow(old(infra.Now()), infra.Now())
      ensures thrown.None? ==> SameAvailability()
      ensures heap.store == old(heap.store)[obj := heap.store[obj]]
      ensures thrown.None? <==> old(Injectable(obj))
      ensures thrown.None? ==> InjectedFrom(old(heap.store), obj)
    {
      var fields := GetAllDeclaredFields(md, heap.classOf[obj]);
      var rules := RulesFor(obj);
      ghost var orig := heap.store[obj];
      ghost var dbOk := infra.DbAvailable(md, heap.classOf, beans);
      ghost var helperOk := infra.HelperAvailable(md, heap.classOf, beans);
      var i := 0;
      while i < |fields|
        invariant Valid() && heap.store == old(heap.store)[obj := heap.store[obj]]
        invariant HandlesGrow(old(infra.Now()), infra.Now())
        invariant infra.DbAvailable(md, heap.classOf, beans) == dbOk && infra.HelperAvailable(md, heap.classOf, beans) == helperOk
        invariant FieldsProgress(orig, heap.store[obj], fields, i, beans, rules, infra.Now(), dbOk, helperOk)
      {
        ghost var st := heap.store;
        thrown := InjectFieldAt(obj, fields, i, rules, orig, dbOk, helperOk);
        UpdatedTwice(old(heap.store), st, heap.store, obj);
        if thrown.Some? {
          return;
        }
        i := i + 1;
      }
      FieldsFinished(orig, heap.store[obj], fields, beans, rules, infra.Now(), dbOk, helperOk);
      thrown := None;
    }

    /** performInjection(Class): the instance held for the class, null when there is none. */
    method PerformInjectionOfClass(c: ClassName) returns (thrown: Option<ContainerError>)
      requires Valid()
      modifies heap`store, infra`db, infra`openHelper
      ensures Valid()
      ensures HandlesGrow(old(infra.Now()), infra.Now())
      ensures thrown.None? ==> SameAvailability()
      ensures Lookup(beans, c).None? ==> thrown == Some(NullPointerException) && heap.store == old(heap.store)
      ensures Lookup(beans, c).Some? ==> heap.store == old(heap.store)[Lookup(beans, c).value := heap.store[Lookup(beans, c).value]]
      ensures Lookup(beans, c).Some? ==> (thrown.None? <==> old(Injectable(Lookup(beans, c).value)))
      ensures Lookup(beans, c).Some? && thrown.None? ==> InjectedFrom(old(heap.store), Lookup(beans, c).value)
    {
      var o := Lookup(beans, c);
      if o.Some? {
        assert o.value in Instances(beans);
      }
      thrown := PerformInjection(o);
    }

    /** Every slot of `slots` holds an instance, and performInjection on it can complete. */
    predicate AllInjectable(slots: map<ClassName, Option<ObjId>>)
      reads this, heap, infra
    {
      AllInjectableUnder(slots, infra.DbAvailable(md, heap.classOf, beans), infra.HelperAvailable(md, heap.classOf, beans))
    }

    /** AllInjectable(slots), for given answers of the two handle lookups. */
    predicate AllInjectableUnder(slots: map<ClassName, Option<ObjId>>, dbOk: bool, helperOk: bool)
      reads this, heap`classOf
    {
      SlotsInjectable(md, ORG, heap.classOf, beans.Keys, slots, dbOk, helperOk)
    }

    /** One pass of the loop of InjectEach: performInjection on the instance of slot k. */
    method InjectSlot(slots: map<ClassName, Option<ObjId>>, k: ClassName, ghost remaining: set<ClassName>,
                      ghost orig: map<ObjId, Fields>, ghost done: set<ObjId>, ghost dbOk: bool, ghost helperOk: bool)
      returns (thrown: Option<ContainerError>)
      requires Valid() && HeldIn(slots, heap.classOf) && k in remaining
      requires heap.store.Keys == orig.Keys
      requires infra.DbAvailable(md, heap.classOf, beans) == dbOk && infra.HelperAvailable(md, heap.classOf, beans) == helperOk
      requires EachProgress(md, ORG, heap.classOf, beans, slots, remaining, orig, heap.store, done, infra.Now(), dbOk, helperOk)
      modifies heap`store, infra`db, infra`openHelper
      ensures Valid() && heap.store.Keys == orig.Keys
      ensures HandlesGrow(old(infra.Now()), infra.Now())
      ensures thrown.Some? ==> !AllInjectableUnder(slots, dbOk, helperOk)
      ensures thrown.None? ==> slots[k].Some?
      ensures thrown.None? ==>
        infra.DbAvailable(md, heap.classOf, beans) == dbOk && infra.HelperAvailable(md, heap.classOf, beans) == helperOk
      ensures thrown.None? ==>
        EachProgress(md, ORG, heap.classOf, beans, slots, remaining - {k}, orig, heap.store, done + {slots[k].value}, infra.Now(), dbOk, helperOk)
      ensures forall x :: x in orig && x !in Instances(slots) ==> x in heap.store && heap.store[x] == orig[x]
    {
      ghost var st := heap.store;
      ghost var h1 := infra.Now();
      if slots[k].Some? {
        assert slots[k].value in Instances(slots);
      }
      thrown := PerformInjection(slots[k]);
      if thrown.None? {
        InjectedExactlyStep(md, ORG, heap.classOf, beans, orig, st, heap.store, done, slots[k].value, h1, infra.Now());
      }
    }

    /**
     * performInjection on the instance of every slot, in iteration order;
     * the first failure is rethrown. It fails exactly when some slot is
     * null or holds an object that cannot be injected; otherwise every
     * instance is injected. Objects held by no slot are not touched.
     */
    method InjectEach(slots: map<ClassName, Option<ObjId>>) returns (thrown: Option<ContainerError>)
      requires Valid() && HeldIn(slots, heap.classOf)
      modifies heap`store, infra`db, infra`openHelper
      ensures Valid()
      ensures HandlesGrow(old(infra.Now()), infra.Now())
      ensures thrown.None? ==> SameAvailability()
      ensures thrown.None? <==> old(AllInjectable(slots))
      ensures thrown.None? ==> InjectedExactly(md, ORG, heap.classOf, beans, old(heap.store), heap.store, Instances(slots), infra.Now())
      ensures forall x :: x in old(heap.store) && x !in Instances(slots) ==> x in heap.store && heap.store[x] == old(heap.store)[x]
    {
      ghost var orig := heap.store;
      ghost var dbOk := infra.DbAvailable(md, heap.classOf, beans);
      ghost var helperOk := infra.HelperAvailable(md, heap.classOf, beans);
      ghost var done: set<ObjId> := {};
      var remaining := slots.Keys;
      while remaining != {}
        invariant Valid() && heap.store.Keys == orig.Keys
        invariant HandlesGrow(old(infra.Now()), infra.Now())
        invariant infra.DbAvailable(md, heap.classOf, beans) == dbOk && infra.HelperAvailable(md, heap.classOf, beans) == helperOk
        invariant EachProgress(md, ORG, heap.classOf, beans, slots, remaining, orig, heap.store, done, infra.Now(), dbOk, helperOk)
        decreases remaining
      {
        var k :| k in remaining;
        thrown := InjectSlot(slots, k, remaining, orig, done, dbOk, helperOk);
        if thrown.Some? {
          return;
        }
        done := done + {slots[k].value};
        remaining := remaining - {k};
      }
      EachFinished(md, ORG, heap.classOf, beans, slots, orig, heap.store, done, infra.Now(), dbOk, helperOk);
      thrown := None;
    }

    /**
     * performInjections: performInjection(Class) for every registered
     * class. It completes exactly when every class holds an injectable
     * instance, and then every instance is injected.
     */
    method PerformInjections() returns (thrown: Option<ContainerError>)
      requires Valid()
      modifies heap`store, infra`db, infra`openHelper
      ensures Valid()
      ensures HandlesGrow(old(infra.Now()), infra.Now())
      ensures thrown.None? <==> old(AllInjectable(beans))
      ensures thrown.None? ==> forall k :: k in beans && beans[k].Some? ==> InjectedFrom(old(heap.store), beans[k].value)
      ensures forall x :: x in old(heap.store) && x !in Instances(beans) ==> x in heap.store && heap.store[x] == old(heap.store)[x]
    {
      thrown := InjectEach(beans);
      if thrown.None? {
        forall k | k in beans && beans[k].Some?
          ensures InjectedFrom(old(heap.store), beans[k].value)
        {
          assert beans[k].value in Instances(beans);
        }
      }
    }

    // ---------------------------------------------------------------- outjection and destruction

    /**
     * The inner loop of performOutjection(Object) for one field: the field
     * is set to null when a registered class carries the name of its type.
     */
    method OutjectField(o: ObjId, f: FieldRef)
      requires Valid() && o in heap.classOf
      modifies heap`store
      ensures Valid()
      ensures heap.store == old(heap.store)[o := if f.declaredType in beans then old(heap.store[o])[f := None] else old(heap.store[o])]
    {
      var remaining := beans.Keys;
      ghost var orig := heap.store[o];
      while remaining != {}
        invariant remaining <= beans.Keys && Valid()
        invariant heap.store == old(heap.store)[o := if f.declaredType in beans.Keys - remaining then orig[f := None] else orig]
        decreases remaining
      {
        var k :| k in remaining;
        if f.declaredType == k {
          heap.SetField(o, f, None);
        }
        remaining := remaining - {k};
      }
    }

    /**
     * performOutjection(Object): every field of the object's class and of
     * its superclasses whose type is a registered class is set to null;
     * nothing else changes.
     */
    method PerformOutjectionOn(o: ObjId)
      requires Valid() && o in heap.classOf
      modifies heap`store
      ensures Valid() && heap.store == old(heap.store)[o := heap.store[o]]
      ensures SameReads(heap.store[o], Outjected(old(heap.store[o]), FieldsOf(o), beans.Keys))
    {
      var fields := GetAllDeclaredFields(md, heap.classOf[o]);
      ghost var orig := heap.store[o];
      var i := 0;
      while i < |fields|
        invariant i <= |fields|
        invariant Valid() && heap.store == old(heap.store)[o := heap.store[o]]
        invariant SameReads(heap.store[o], Outjected(orig, fields[..i], beans.Keys))
      {
        ghost var cur := heap.store[o];
        ghost var st := heap.store;
        OutjectField(o, fields[i]);
        OutjectedStep(orig, cur, fields, i, beans.Keys);
        UpdatedTwice(old(heap.store), st, heap.store, o);
        i := i + 1;
      }
      assert fields[..i] == fields;
    }

    /** performOutjection(Class): the instance held for the class; a null one only draws a warning. */
    method PerformOutjectionOfClass(c: ClassName)
      requires Valid()
      modifies heap`store
      ensures Valid()
      ensures Lookup(beans, c).None? ==> heap.store == old(heap.store)
      ensures Lookup(beans, c).Some? ==>
        var o := Lookup(beans, c).value;
        o in heap.classOf && heap.store == old(heap.store)[o := heap.store[o]]
        && SameReads(heap.store[o], Outjected(old(heap.store[o]), FieldsOf(o), beans.Keys))
    {
      var o := Lookup(beans, c);
      if o.Some? {
        PerformOutjectionOn(o.value);
      }
    }

    /** One pass of the first loop of performDestruction: performOutjection on slot k. */
    method OutjectSlot(k: ClassName, ghost remaining: set<ClassName>, ghost orig: map<ObjId, Fields>, ghost done: set<ObjId>)
      requires Valid() && k in remaining
      requires OutjectProgress(md, heap.classOf, beans, remaining, orig, heap.store, done)
      modifies heap`store
      ensures Valid()
      ensures OutjectProgress(md, heap.classOf, beans, remaining - {k}, orig, heap.store, if beans[k].Some? then done + {beans[k].value} else done)
    {
      ghost var st := heap.store;
      PerformOutjectionOfClass(k);
      if beans[k].Some? {
        assert beans[k].value in Instances(beans);
        OutjectedExactlyStep(md, heap.classOf, beans.Keys, orig, st, heap.store, done, beans[k].value);
      }
    }

    /** The first loop of performDestruction: performOutjection(Class) for every registered class. */
    method OutjectAll()
      requires Valid()
      modifies heap`store
      ensures Valid()
      ensures OutjectedExactly(md, heap.classOf, beans.Keys, old(heap.store), heap.store, Instances(beans))
    {
      ghost var orig := heap.store;
      ghost var done: set<ObjId> := {};
      var remaining := beans.Keys;
      while remaining != {}
        invariant Valid() && OutjectProgress(md, heap.classOf, beans, remaining, orig, heap.store, done)
        decreases remaining
      {
        var k :| k in remaining;
        OutjectSlot(k, remaining, orig, done);
        if beans[k].Some? {
          done := done + {beans[k].value};
        }
        remaining := remaining - {k};
      }
      assert done == Instances(beans);
    }

    /** The second loop of performDestruction: removeBean for every registered class. */
    method RemoveAll()
      requires Valid()
      modifies this`beans
      ensures Valid()
      ensures beans == map k | k in old(beans) :: None
    {
      ghost var held := beans;
      var remaining := beans.Keys;
      while remaining != {}
        invariant remaining <= held.Keys && Valid()
        invariant beans == map k | k in held :: if k in remaining then held[k] else None
        decreases remaining
      {
        var k :| k in remaining;
        RemoveBean(k);
        remaining := remaining - {k};
      }
    }

    /**
     * performDestruction: every held instance is outjected, then every
     * class keeps its registration with a null instance.
     */
    method PerformDestruction()
      requires Valid()
      modifies heap`store, this`beans
      ensures Valid()
      ensures beans == map k | k in old(beans) :: None
      ensures OutjectedExactly(md, heap.classOf, old(beans).Keys, old(heap.store), heap.store, Instances(old(beans)))
    {
      OutjectAll();
      RemoveAll();
    }

    // ---------------------------------------------------------------- lifecycle hooks

    /** performPostConstructOn: postConstruct on an Initializeable object; nothing on null or any other object. */
    method PerformPostConstructOn(o: Option<ObjId>)
      modifies heap`log
      ensures heap.log == old(heap.log) + HookCall(md, heap.classOf, o, INITIALIZEABLE, "postConstruct")
    {
      if o.Some? && IsInstance(o.value, INITIALIZEABLE) {
        heap.Invoke(o.value, "postConstruct", []);
      }
    }

    /**
     * performPostConstuct: the held instances are first collected into a
     * set, so an instance held under several classes gets postConstruct
     * once; `order` is the set's iteration order.
     */
    method PerformPostConstuct() returns (ghost order: seq<Option<ObjId>>)
      modifies heap`log
      ensures Distinct(order) && forall x :: x in order <==> x in beans.Values
      ensures heap.log == old(heap.log) + HookCalls(md, heap.classOf, order, INITIALIZEABLE, "postConstruct")
      ensures Distinct(heap.log[|old(heap.log)|..])
    {
      var all := beans.Values;
      var remaining := all;
      order := [];
      while remaining != {}
        invariant HooksProgress(md, heap.classOf, all, remaining, order, old(heap.log), heap.log, INITIALIZEABLE, "postConstruct")
        decreases remaining
      {
        var o :| o in remaining;
        HooksStep(md, heap.classOf, all, remaining, order, old(heap.log), heap.log, INITIALIZEABLE, "postConstruct", o);
        PerformPostConstructOn(o);
        order := order + [o];
        remaining := remaining - {o};
      }
      HookCallsDistinct(md, heap.classOf, order, INITIALIZEABLE, "postConstruct");
      assert heap.log[|old(heap.log)|..] == HookCalls(md, heap.classOf, order, INITIALIZEABLE, "postConstruct");
    }

    /**
     * The loop of shutdownContext: onDestroy on every Destroyable held
     * instance, once per class holding it; `keys` is the map's iteration
     * order.
     */
    method DestroyHeld() returns (ghost keys: seq<ClassName>)
      modifies heap`log
      ensures Distinct(keys) && forall k :: k in keys <==> k in beans
      ensures heap.log == old(heap.log) + HookCalls(md, heap.classOf, SlotsAt(beans, keys), DESTROYABLE, "onDestroy")
    {
      var remaining := beans.Keys;
      keys := [];
      while remaining != {}
        invariant SlotHooksProgress(md, heap.classOf, beans, remaining, keys, old(heap.log), heap.log, DESTROYABLE, "onDestroy")
        decreases remaining
      {
        var k :| k in remaining;
        SlotHooksStep(md, heap.classOf, beans, remaining, keys, old(heap.log), heap.log, DESTROYABLE, "onDestroy", k);
        var o := beans[k];
        if o.Some? && IsInstance(o.value, DESTROYABLE) {
          heap.Invoke(o.value, "onDestroy", []);
        }
        keys := keys + [k];
        remaining := remaining - {k};
      }
    }

    /** shutdownContext: the onDestroy loop, then performDestruction. */
    method ShutdownContext() returns (ghost keys: seq<ClassName>)
      requires Valid()
      modifies heap`log, heap`store, this`beans
      ensures Valid()
      ensures Distinct(keys) && forall k :: k in keys <==> k in old(beans)
      ensures heap.log == old(heap.log) + HookCalls(md, heap.classOf, SlotsAt(old(beans), keys), DESTROYABLE, "onDestroy")
      ensures beans == map k | k in old(beans) :: None
      ensures OutjectedExactly(md, heap.classOf, old(beans).Keys, old(heap.store), heap.store, Instances(old(beans)))
    {
      keys := DestroyHeld();
      PerformDestruction();
    }

    // ---------------------------------------------------------------- activities

    /** addActiveActivity: the activity is held under its own class, replacing any other. */
    method AddActiveActivity(a: ObjId)
      requires Valid() && a in heap.classOf
      modifies this`activeActivities
      ensures Valid() && activeActivities == PutActivity(old(activeActivities), heap.classOf, a)
    {
      activeActivities := PutActivity(activeActivities, heap.classOf, a);
    }

    /** addExistingActivity */
    method AddExistingActivity(a: ObjId)
      requires Valid() && a in heap.classOf
      modifies this`existingActivities
      ensures Valid() && existingActivities == PutActivity(old(existingActivities), heap.classOf, a)
    {
      existingActivities := PutActivity(existingActivities, heap.classOf, a);
    }

    /** addPausedActivity */
    method AddPausedActivity(a: ObjId)
      requires Valid() && a in heap.classOf
      modifies this`pausedActivities
      ensures Valid() && pausedActivities == PutActivity(old(pausedActivities), heap.classOf, a)
    {
      pausedActivities := PutActivity(pausedActivities, heap.classOf, a);
    }

    /** removeActiveActivity: the entry of the activity's class goes, even when it holds another activity. */
    method RemoveActiveActivity(a: ObjId)
      requires Valid() && a in heap.classOf
      modifies this`activeActivities
      ensures Valid() && activeActivities == DropActivity(old(activeActivities), heap.classOf, a)
    {
      activeActivities := DropActivity(activeActivities, heap.classOf, a);
    }

    /** removeExistingActivity */
    method RemoveExistingActivity(a: ObjId)
      requires Valid() && a in heap.classOf
      modifies this`existingActivities
      ensures Valid() && existingActivities == DropActivity(old(existingActivities), heap.classOf, a)
    {
      existingActivities := DropActivity(existingActivities, heap.classOf, a);
    }

    /** removePausedActivity */
    method RemovePausedActivity(a: ObjId)
      requires Valid() && a in heap.classOf
      modifies this`pausedActivities
      ensures Valid() && pausedActivities == DropActivity(old(pausedActivities), heap.classOf, a)
    {
      pausedActivities := DropActivity(pausedActivities, heap.classOf, a);
    }

    /**
     * getBean: the instance held for the class; failing that, the active
     * activity of exactly that class; else null.
     */
    function GetBean(c: ClassName): (r: Option<ObjId>)
      reads this, heap`classOf, heap`next, heap`store
      requires Valid()
      ensures Lookup(beans, c).Some? ==> r == Lookup(beans, c)
      ensures Lookup(beans, c).None? ==> (r.Some? <==> c in activeActivities)
      ensures r.Some? ==> r.value in heap.classOf
      ensures r.Some? && Lookup(beans, c).None? ==> heap.classOf[r.value] == c
    {
      if Lookup(beans, c).Some? then
        assert Lookup(beans, c).value in Instances(beans);
        Lookup(beans, c)
      else if c in activeActivities then Some(activeActivities[c])
      else None
    }

    // ---------------------------------------------------------------- UI components

    /** The active activities as slots of InjectEach. */
    function ActiveSlots(): (r: map<ClassName, Option<ObjId>>)
      reads this
      ensures r.Keys == activeActivities.Keys
      ensures forall c :: c in r ==> r[c] == Some(activeActivities[c])
    {
      map c | c in activeActivities :: Some(activeActivities[c])
    }

    /** connectDbHandle would answer. */
    predicate DbOk()
      reads this, heap`classOf, infra
    {
      infra.DbAvailable(md, heap.classOf, beans)
    }

    /** connectOpenHelper would answer. */
    predicate HelperOk()
      reads this, heap`classOf, infra
    {
      infra.HelperAvailable(md, heap.classOf, beans)
    }

    /** The fragment loop part-way, under the handle answers `dbOk` and `helperOk` of its start. */
    ghost predicate FragmentLoop(orig: map<ObjId, Fields>, known0: set<ObjId>, remaining: set<ObjId>, dbOk: bool, helperOk: bool)
      reads this, heap, infra
    {
      Valid() && heap.store.Keys == orig.Keys
      && (dbOk ==> infra.DbAvailable(md, heap.classOf, beans)) && (helperOk ==> infra.HelperAvailable(md, heap.classOf, beans))
      && FragmentsProgress(md, ORG, heap.classOf, beans, orig, heap.store, known0, knownFragments, remaining, infra.Now(), dbOk, helperOk)
    }

    /**
     * One pass of the fragment loop of treatKnownUiComponents:
     * performInjection on f, and f leaves knownFragments when it throws.
     */
    method InjectFragment(f: ObjId, ghost remaining: set<ObjId>, ghost orig: map<ObjId, Fields>,
                          ghost known0: set<ObjId>, ghost dbOk: bool, ghost helperOk: bool, ghost first: bool)
      returns (dropped: bool)
      requires f in remaining && FragmentLoop(orig, known0, remaining, dbOk, helperOk)
      requires first ==> infra.DbAvailable(md, heap.classOf, beans) == dbOk && infra.HelperAvailable(md, heap.classOf, beans) == helperOk
      modifies heap`store, infra`db, infra`openHelper, this`knownFragments
      ensures FragmentLoop(orig, known0, remaining - {f}, dbOk, helperOk)
      ensures dropped <==> !old(Injectable(f))
      ensures knownFragments == if dropped then old(knownFragments) - {f} else old(knownFragments)
      ensures first && !ObjInjectable(md, ORG, heap.classOf, beans.Keys, f, dbOk, helperOk) ==> dropped
    {
      ghost var st := heap.store;
      ghost var h1 := infra.Now();
      ghost var dbNow := infra.DbAvailable(md, heap.classOf, beans);
      ghost var helperNow := infra.HelperAvailable(md, heap.classOf, beans);
      var thrown := PerformInjectionOn(f);
      dropped := thrown.Some?;
      if dropped {
        if ObjInjectable(md, ORG, heap.classOf, beans.Keys, f, dbOk, helperOk) {
          AllAvailableGrows(FieldsOf(f), RulesFor(f), beans.Keys, dbOk, helperOk, dbNow, helperNow);
        }
        FragmentDropped(md, ORG, heap.classOf, beans, orig, st, heap.store, known0, knownFragments, remaining, f, h1, infra.Now(), dbOk, helperOk);
        knownFragments := knownFragments - {f};
      } else {
        FragmentKept(md, ORG, heap.classOf, beans, orig, st, heap.store, known0, knownFragments, remaining, f, h1, infra.Now(), dbOk, helperOk);
      }
    }

    /**
     * The fragment loop of treatKnownUiComponents as evidently intended:
     * each fragment is injected and one that throws is dropped, over a
     * snapshot of the set. With nothing left to visit, FragmentsProgress
     * says: a fragment that was injectable at the start is kept, every
     * kept fragment is injected, and objects that are not fragments are
     * untouched.
     */
    method InjectFragments()
      requires Valid()
      modifies heap`store, infra`db, infra`openHelper, this`knownFragments
      ensures Valid()
      ensures FragmentsProgress(md, ORG, heap.classOf, beans, old(heap.store), heap.store,
                                old(knownFragments), knownFragments, {}, infra.Now(), old(DbOk()), old(HelperOk()))
    {
      ghost var orig := heap.store;
      ghost var known0 := knownFragments;
      ghost var dbOk := infra.DbAvailable(md, heap.classOf, beans);
      ghost var helperOk := infra.HelperAvailable(md, heap.classOf, beans);
      var remaining := knownFragments;
      while remaining != {}
        invariant FragmentLoop(orig, known0, remaining, dbOk, helperOk)
        decreases remaining
      {
        var f :| f in remaining;
        var _ := InjectFragment(f, remaining, orig, known0, dbOk, helperOk, false);
        remaining := remaining - {f};
      }
    }

    /**
     * The fragment loop as written, part-way: besides FragmentLoop, no
     * fragment has been dropped and no handle lookup has changed before
     * the first pass, and when no fragment was injectable at the start
     * (`blocked`) the first pass has dropped one.
     */
    ghost predicate WrittenLoop(orig: map<ObjId, Fields>, known0: set<ObjId>, remaining: set<ObjId>,
                                dbOk: bool, helperOk: bool, removed: bool, blocked: bool)
      reads this, heap, infra
    {
      FragmentLoop(orig, known0, remaining, dbOk, helperOk)
      && (blocked ==> NoneInjectable(md, ORG, heap.classOf, beans.Keys, known0, dbOk, helperOk))
      && (remaining == known0 ==>
            !removed && infra.DbAvailable(md, heap.classOf, beans) == dbOk && infra.HelperAvailable(md, heap.classOf, beans) == helperOk)
      && (blocked ==> remaining == known0 || (removed && |remaining| + 1 == |known0|))
    }

    /** One pass of the fragment loop as written, once no fragment has been dropped yet. */
    method VisitFragmentAsWritten(f: ObjId, ghost remaining: set<ObjId>, ghost orig: map<ObjId, Fields>,
                                  ghost known0: set<ObjId>, ghost dbOk: bool, ghost helperOk: bool, ghost blocked: bool)
      returns (removed: bool)
      requires f in remaining && WrittenLoop(orig, known0, remaining, dbOk, helperOk, false, blocked)
      modifies heap`store, infra`db, infra`openHelper, this`knownFragments
      ensures WrittenLoop(orig, known0, remaining - {f}, dbOk, helperOk, removed, blocked)
    {
      ghost var first := remaining == known0;
      if first && blocked {
        assert !ObjInjectable(md, ORG, heap.classOf, beans.Keys, f, dbOk, helperOk);
      }
      removed := InjectFragment(f, remaining, orig, known0, dbOk, helperOk, first);
      assert |remaining - {f}| + 1 == |remaining|;
    }

    /**
     * The fragment loop of treatKnownUiComponents as written: it removes a
     * failing fragment from the set it is iterating over, so the
     * iterator's next step throws ConcurrentModificationException unless
     * that fragment was the last one. With two fragments neither of which
     * can be injected, the call always throws.
     */
    method InjectFragmentsAsWritten() returns (thrown: Option<ContainerError>)
      requires Valid()
      modifies heap`store, infra`db, infra`openHelper, this`knownFragments
      ensures Valid()
      ensures thrown.Some? ==> thrown == Some(ConcurrentModificationException)
      ensures |old(knownFragments)| >= 2 && NoneInjectable(md, ORG, old(heap.classOf), old(beans.Keys), old(knownFragments), old(DbOk()), old(HelperOk())) ==>
        thrown.Some?
      ensures thrown.None? ==>
        FragmentsProgress(md, ORG, heap.classOf, beans, old(heap.store), heap.store,
                          old(knownFragments), knownFragments, {}, infra.Now(), old(DbOk()), old(HelperOk()))
    {
      ghost var orig := heap.store;
      ghost var known0 := knownFragments;
      ghost var dbOk := infra.DbAvailable(md, heap.classOf, beans);
      ghost var helperOk := infra.HelperAvailable(md, heap.classOf, beans);
      ghost var blocked := NoneInjectable(md, ORG, heap.classOf, beans.Keys, known0, dbOk, helperOk);
      var remaining := knownFragments;
      var removed := false;
      while remaining != {}
        invariant WrittenLoop(orig, known0, remaining, dbOk, helperOk, removed, blocked)
        decreases remaining
      {
        if removed {
          return Some(ConcurrentModificationException);
        }
        var f :| f in remaining;
        removed := VisitFragmentAsWritten(f, remaining, orig, known0, dbOk, helperOk, blocked);
        remaining := remaining - {f};
      }
      thrown := None;
    }

    /**
     * treatKnownUiComponents: performInjection on every active activity,
     * rethrowing the first failure, then the fragment loop.
     */
    method TreatKnownUiComponents() returns (thrown: Option<ContainerError>)
      requires Valid()
      modifies heap`store, infra`db, infra`openHelper, this`knownFragments
      ensures Valid()
      ensures thrown.Some? <==> !old(AllInjectable(ActiveSlots()))
      ensures thrown.Some? ==> knownFragments == old(knownFragments)
      ensures thrown.None? ==> knownFragments <= old(knownFragments)
      ensures thrown.None? ==>
        forall x :: x in old(heap.store) && x !in old(knownFragments) && x !in Instances(ActiveSlots()) ==>
          x in heap.store && heap.store[x] == old(heap.store)[x]
    {
      var slots := ActiveSlots();
      thrown := InjectEach(slots);
      if thrown.Some? {
        return;
      }
      InjectFragments();
    }
  }

  const SERVICE: ClassName := "app.Service"
  const REPOSITORY: ClassName := "app.Repository"
  const SERVICE_IMPL: ClassName := "app.ServiceImpl"

  /** Both supertypes bound to the implementation in an empty container. */
  method BindPair(container: BeanContainer)
    requires container.beans == map[] && container.interfaceMap == map[]
    requires container.md.assignable == {(SERVICE, SERVICE_IMPL), (REPOSITORY, SERVICE_IMPL)}
    modifies container
    ensures container.interfaceMap == map[SERVICE := SERVICE_IMPL, REPOSITORY := SERVICE_IMPL]
    ensures container.beans == map[SERVICE := None, SERVICE_IMPL := None, REPOSITORY := None]
    ensures unchanged(container`knownFragments, container`activeActivities, container`pausedActivities, container`existingActivities)
  {
    var bound := container.BindBeanClass(SERVICE, SERVICE_IMPL);
    bound := container.BindBeanClass(REPOSITORY, SERVICE_IMPL);
  }

  /**
   * Two supertypes bound to one implementation, then a replaceBeanClass of
   * the implementation that is rejected: the rejected call has already
   * unregistered the implementation, and both bindings stay.
   */
  method RejectedReplacement() returns (container: BeanContainer)
    ensures fresh(container) && fresh(container.heap) && container.Valid()
    ensures container.beans == map[SERVICE := None, REPOSITORY := None]
    ensures container.OrphanedPair(SERVICE, REPOSITORY)
    ensures container.Impl(SERVICE) == container.Impl(REPOSITORY) == SERVICE_IMPL
    ensures container.Instantiable(SERVICE_IMPL)
  {
    var md := Metadata(map[SERVICE_IMPL := ClassInfo(None, [], [NoArg], true)],
                       {(SERVICE, SERVICE_IMPL), (REPOSITORY, SERVICE_IMPL)});
    var heap := new Heap();
    var infra := new Infrastructure(0, BARACUS_OPEN_HELPER);
    container := new BeanContainer(md, heap, infra);
    BindPair(container);
    assert !IsAssignableFrom(md, SERVICE_IMPL, "app.Other");
    var replaced := container.ReplaceBeanClass(SERVICE_IMPL, "app.Other");
    assert container.beans == map[SERVICE := None, REPOSITORY := None];
    assert InstantiableIn(md, infra.instance, SERVICE_IMPL);
  }

  /**
   * createInstances as written after RejectedReplacement: its first pass
   * holds the implementation under a new key and the next pass throws
   * ConcurrentModificationException, although every class involved can be
   * instantiated.
   */
  method OrphanedBindingScenario() returns (thrown: Option<ContainerError>)
    ensures thrown == Some(ConcurrentModificationException)
  {
    var container := RejectedReplacement();
    assert forall k :: k in container.beans ==> container.Instantiable(container.Impl(k));
    ghost var failed;
    thrown, failed := container.CreateInstancesAsWritten();
  }
}
