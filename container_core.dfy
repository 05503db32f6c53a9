/**
 * The state both bean containers keep, as values: which objects the
 * registry and the activity maps hold, and what injection, outjection,
 * instantiation and the fragment loop leave behind. The two trees differ
 * only in their injection policy: the open-helper class and whether, and
 * for which targets, Context fields are injected.
 */
module ContainerCore {
  import opened JavaLang
  import opened JavaReflection
  import opened BeanInjection

  /**
   * How a container injects: the open-helper class of its tree, whether
   * it injects Context fields at all, and the class whose instances are
   * spared Context injection.
   */
  datatype Policy = Policy(helperClass: ClassName, injectsContext: bool, contextExempt: Option<ClassName>)

  /** The rules for the fields of an object of class c. */
  function RulesOf(md: Metadata, p: Policy, c: ClassName): (r: Rules)
    ensures r.helperClass == p.helperClass
    ensures r.contextInjected <==> p.injectsContext && !(p.contextExempt.Some? && IsAssignableFrom(md, p.contextExempt.value, c))
  {
    Rules(p.helperClass, p.injectsContext && !(p.contextExempt.Some? && IsAssignableFrom(md, p.contextExempt.value, c)))
  }

  /** Object x's fields in `after`, compared with `before`, are injected. */
  ghost predicate ObjInjected(md: Metadata, p: Policy, classOf: map<ObjId, ClassName>, beans: map<ClassName, Option<ObjId>>,
                              before: map<ObjId, Fields>, after: map<ObjId, Fields>, x: ObjId, h: Handles)
  {
    x in before && x in after && x in classOf
    && Injected(before[x], after[x], AllDeclaredFields(md, classOf[x]), beans, RulesOf(md, p, classOf[x]), h)
  }

  /** Every field of o can be injected, for given answers of the two handle lookups. */
  predicate ObjInjectable(md: Metadata, p: Policy, classOf: map<ObjId, ClassName>, keys: set<ClassName>, o: ObjId, dbOk: bool, helperOk: bool)
  {
    o in classOf && AllAvailable(AllDeclaredFields(md, classOf[o]), RulesOf(md, p, classOf[o]), keys, dbOk, helperOk)
  }

  /**
   * What a successful build of a container leaves: every held instance
   * was injected by performInjections (from store `created` to store
   * `injected`, under handles h), and in `store` those injected by nothing
   * since (not in `reinjected`, not an active activity) still hold exactly
   * those fields.
   */
  ghost predicate Built(md: Metadata, p: Policy, classOf: map<ObjId, ClassName>, beans: map<ClassName, Option<ObjId>>,
                        active: set<ObjId>, created: map<ObjId, Fields>, injected: map<ObjId, Fields>,
                        store: map<ObjId, Fields>, reinjected: set<ObjId>, h: Handles)
  {
    (forall k :: k in beans && beans[k].Some? ==> ObjInjected(md, p, classOf, beans, created, injected, beans[k].value, h))
    && (forall k :: k in beans && beans[k].Some? && beans[k].value !in reinjected && beans[k].value !in active ==>
          ObjInjected(md, p, classOf, beans, created, store, beans[k].value, h))
  }

  /** Built from its two halves: the injections, and the fields untouched since. */
  lemma BuiltFromParts(md: Metadata, p: Policy, classOf: map<ObjId, ClassName>, beans: map<ClassName, Option<ObjId>>,
                       active: set<ObjId>, created: map<ObjId, Fields>, injected: map<ObjId, Fields>,
                       store: map<ObjId, Fields>, reinjected: set<ObjId>, h: Handles)
    requires forall k :: k in beans && beans[k].Some? ==> ObjInjected(md, p, classOf, beans, created, injected, beans[k].value, h)
    requires forall x :: x in injected && x !in reinjected && x !in active ==> x in store && store[x] == injected[x]
    ensures Built(md, p, classOf, beans, active, created, injected, store, reinjected, h)
  {
  }

  /** Injecting one more object x again only adds x to the objects whose fields may have moved on. */
  lemma BuiltReinjected(md: Metadata, p: Policy, classOf: map<ObjId, ClassName>, beans: map<ClassName, Option<ObjId>>,
                        active: set<ObjId>, created: map<ObjId, Fields>, injected: map<ObjId, Fields>,
                        store: map<ObjId, Fields>, store2: map<ObjId, Fields>, reinjected: set<ObjId>, h: Handles, x: ObjId)
    requires Built(md, p, classOf, beans, active, created, injected, store, reinjected, h)
    requires forall y :: y in store && y != x ==> y in store2 && store2[y] == store[y]
    ensures Built(md, p, classOf, beans, active, created, injected, store2, reinjected + {x}, h)
  {
  }

  /** Every slot holds an instance that can be injected. */
  predicate SlotsInjectable(md: Metadata, p: Policy, classOf: map<ObjId, ClassName>, keys: set<ClassName>,
                            slots: map<ClassName, Option<ObjId>>, dbOk: bool, helperOk: bool)
  {
    forall k :: k in slots ==> slots[k].Some? && ObjInjectable(md, p, classOf, keys, slots[k].value, dbOk, helperOk)
  }

  /**
   * The loop of InjectEach part-way: every slot outside `remaining` held an
   * injectable instance, which is now injected; nothing else has changed.
   */
  ghost predicate EachProgress(md: Metadata, p: Policy, classOf: map<ObjId, ClassName>, beans: map<ClassName, Option<ObjId>>,
                               slots: map<ClassName, Option<ObjId>>, remaining: set<ClassName>,
                               orig: map<ObjId, Fields>, store: map<ObjId, Fields>, done: set<ObjId>, h: Handles,
                               dbOk: bool, helperOk: bool)
  {
    remaining <= slots.Keys && done <= Instances(slots)
    && (forall k :: k in slots && k !in remaining ==>
          slots[k].Some? && slots[k].value in done && ObjInjectable(md, p, classOf, beans.Keys, slots[k].value, dbOk, helperOk))
    && InjectedExactly(md, p, classOf, beans, orig, store, done, h)
  }

  /** When no slot remains, every slot was injectable and exactly the instances are injected. */
  lemma EachFinished(md: Metadata, p: Policy, classOf: map<ObjId, ClassName>, beans: map<ClassName, Option<ObjId>>,
                     slots: map<ClassName, Option<ObjId>>, orig: map<ObjId, Fields>, store: map<ObjId, Fields>,
                     done: set<ObjId>, h: Handles, dbOk: bool, helperOk: bool)
    requires EachProgress(md, p, classOf, beans, slots, {}, orig, store, done, h, dbOk, helperOk)
    ensures SlotsInjectable(md, p, classOf, beans.Keys, slots, dbOk, helperOk)
    ensures InjectedExactly(md, p, classOf, beans, orig, store, Instances(slots), h)
  {
    assert done == Instances(slots);
  }

  /** Each activity is held under its own runtime class. */
  ghost predicate ActivityMap(m: map<ClassName, ObjId>, classOf: map<ObjId, ClassName>)
  {
    forall c :: c in m ==> m[c] in classOf && classOf[m[c]] == c
  }

  /** Every object the container holds exists, and every id in use is below `next`. */
  ghost predicate Registered(beans: map<ClassName, Option<ObjId>>, fragments: set<ObjId>,
                             active: map<ClassName, ObjId>, paused: map<ClassName, ObjId>, existing: map<ClassName, ObjId>,
                             classOf: map<ObjId, ClassName>, next: nat)
  {
    (forall id :: id in classOf ==> id < next)
    && HeldIn(beans, classOf) && fragments <= classOf.Keys
    && ActivityMap(active, classOf) && ActivityMap(paused, classOf) && ActivityMap(existing, classOf)
  }

  /** Every object in `done` is injected, every other object of `before` is as it was. */
  ghost predicate InjectedExactly(md: Metadata, p: Policy, classOf: map<ObjId, ClassName>, beans: map<ClassName, Option<ObjId>>,
                                  before: map<ObjId, Fields>, after: map<ObjId, Fields>, done: set<ObjId>, h: Handles)
  {
    (forall x :: x in done ==> ObjInjected(md, p, classOf, beans, before, after, x, h))
    && (forall x :: x in before && x !in done ==> x in after && after[x] == before[x])
  }

  /** Injecting one more object, possibly one injected already. */
  lemma InjectedExactlyStep(md: Metadata, p: Policy, classOf: map<ObjId, ClassName>, beans: map<ClassName, Option<ObjId>>,
                            before: map<ObjId, Fields>, cur: map<ObjId, Fields>, next: map<ObjId, Fields>,
                            done: set<ObjId>, o: ObjId, h1: Handles, h2: Handles)
    requires InjectedExactly(md, p, classOf, beans, before, cur, done, h1) && HandlesGrow(h1, h2)
    requires o in before && o in cur && o in next && next == cur[o := next[o]]
    requires ObjInjected(md, p, classOf, beans, cur, next, o, h2)
    ensures InjectedExactly(md, p, classOf, beans, before, next, done + {o}, h2)
  {
    forall x | x in done + {o}
      ensures ObjInjected(md, p, classOf, beans, before, next, x, h2)
    {
      var fs := AllDeclaredFields(md, classOf[x]);
      var r := RulesOf(md, p, classOf[x]);
      if x == o {
        if o in done {
          InjectedTwice(before[x], cur[x], next[x], fs, beans, r, h1, h2);
        }
      } else {
        InjectedStable(before[x], cur[x], fs, beans, r, h1, h2);
      }
    }
  }

  /** The class's slot was null (or missing) before and holds an instance now. */
  predicate NewlyFilled(before: map<ClassName, Option<ObjId>>, after: map<ClassName, Option<ObjId>>, k: ClassName)
  {
    k in after && after[k].Some? && Lookup(before, k).None?
  }


  /**
   * Two supertypes with null slots bound to one implementation that has no
   * slot of its own, neither of them the implementation of another binding.
   */
  predicate OrphanedIn(beans: map<ClassName, Option<ObjId>>, binds: map<ClassName, ClassName>, t1: ClassName, t2: ClassName)
  {
    t1 != t2 && t1 in beans && t2 in beans && beans[t1].None? && beans[t2].None?
    && t1 in binds && t2 in binds && binds[t1] == binds[t2]
    && binds[t1] !in beans && t1 !in binds.Values && t2 !in binds.Values
  }

  function ImplIn(binds: map<ClassName, ClassName>, c: ClassName): ClassName
  {
    if c in binds then binds[c] else c
  }

  /** Registration only grows, and only by bound implementation classes. */
  ghost predicate KeysKept(before: map<ClassName, Option<ObjId>>, beans: map<ClassName, Option<ObjId>>,
                           binds: map<ClassName, ClassName>, bindings: bool)
  {
    before.Keys <= beans.Keys <= before.Keys + binds.Values
    && (bindings ==> beans.Keys == before.Keys)
    && (forall k :: k in beans && k !in before ==> beans[k].Some?)
  }

  /** A slot that held an instance still holds it. */
  ghost predicate FilledKept(before: map<ClassName, Option<ObjId>>, beans: map<ClassName, Option<ObjId>>)
  {
    forall k :: k in before && before[k].Some? ==> k in beans && beans[k] == before[k]
  }

  /**
   * Each newly filled slot holds a fresh instance of its own class, or
   * shares the instance of the implementation bound to it; unbound
   * classes always get their own, and a bound supertype that is no other
   * binding's implementation always shares.
   */
  ghost predicate NewInstancesOk(before: map<ClassName, Option<ObjId>>, beans: map<ClassName, Option<ObjId>>,
                                 binds: map<ClassName, ClassName>, beforeClasses: map<ObjId, ClassName>,
                                 classOf: map<ObjId, ClassName>)
  {
    (forall k :: NewlyFilled(before, beans, k) ==>
       (beans[k].value !in beforeClasses && beans[k].value in classOf && classOf[beans[k].value] == k)
       || (k in binds && beans[k] == Lookup(beans, binds[k])))
    && (forall k :: NewlyFilled(before, beans, k) && k in binds && k !in binds.Values ==> beans[k] == Lookup(beans, binds[k]))
    && (forall k :: NewlyFilled(before, beans, k) && k !in binds ==>
          beans[k].value !in beforeClasses && beans[k].value in classOf && classOf[beans[k].value] == k)
  }

  /** An unbound class that was null and cannot be instantiated is still null. */
  ghost predicate BlockedStayNull(before: map<ClassName, Option<ObjId>>, beans: map<ClassName, Option<ObjId>>,
                                  binds: map<ClassName, ClassName>, md: Metadata, instance: Option<ObjId>)
  {
    forall k :: k in before && before[k].None? && k !in binds && !InstantiableIn(md, instance, k) ==> Lookup(beans, k).None?
  }

  /** The fragments among the instances of newly filled slots. */
  ghost function NewFragmentsIn(before: map<ClassName, Option<ObjId>>, beans: map<ClassName, Option<ObjId>>,
                                md: Metadata, classOf: map<ObjId, ClassName>): set<ObjId>
  {
    set k | k in beans && NewlyFilled(before, beans, k) && beans[k].value in classOf
                       && IsAssignableFrom(md, FRAGMENT, classOf[beans[k].value]) :: beans[k].value
  }

  /** Existing objects keep their class and their fields. */
  ghost predicate HeapKept(beforeClasses: map<ObjId, ClassName>, beforeStore: map<ObjId, Fields>,
                           classOf: map<ObjId, ClassName>, store: map<ObjId, Fields>)
  {
    (forall p :: p in beforeClasses ==> p in classOf && classOf[p] == beforeClasses[p])
    && (forall p :: p in beforeStore ==> p in store && store[p] == beforeStore[p])
  }

  /** The slot of c takes the existing instance of its implementation. */
  lemma SharedStep(before: map<ClassName, Option<ObjId>>, beforeClasses: map<ObjId, ClassName>,
                   b0: map<ClassName, Option<ObjId>>, b1: map<ClassName, Option<ObjId>>, binds: map<ClassName, ClassName>,
                   classOf: map<ObjId, ClassName>, md: Metadata, instance: Option<ObjId>, c: ClassName, bindings: bool)
    requires KeysKept(before, b0, binds, bindings) && FilledKept(before, b0)
    requires NewInstancesOk(before, b0, binds, beforeClasses, classOf)
    requires BlockedStayNull(before, b0, binds, md, instance)
    requires c in before && c in b0 && b0[c].None?
    requires Lookup(b0, ImplIn(binds, c)).Some? && b1 == b0[c := Lookup(b0, ImplIn(binds, c))]
    ensures KeysKept(before, b1, binds, bindings) && FilledKept(before, b1)
    ensures NewInstancesOk(before, b1, binds, beforeClasses, classOf)
    ensures BlockedStayNull(before, b1, binds, md, instance)
  {
    assert c in binds && binds[c] != c;
    forall k | NewlyFilled(before, b1, k) && k != c
      ensures b1[k] == b0[k] && NewlyFilled(before, b0, k)
    {
    }
    forall k | NewlyFilled(before, b1, k) && k in binds && k != c
      ensures Lookup(b1, binds[k]) == Lookup(b0, binds[k]) || b0[k] != Lookup(b0, binds[k])
    {
    }
  }

  /** The slot of c (and of its implementation) takes a new instance o. */
  lemma FreshStep(before: map<ClassName, Option<ObjId>>, beforeClasses: map<ObjId, ClassName>,
                  b0: map<ClassName, Option<ObjId>>, b1: map<ClassName, Option<ObjId>>, binds: map<ClassName, ClassName>,
                  cl0: map<ObjId, ClassName>, cl1: map<ObjId, ClassName>, md: Metadata, instance: Option<ObjId>,
                  c: ClassName, o: ObjId, bindings: bool)
    requires KeysKept(before, b0, binds, bindings) && FilledKept(before, b0)
    requires NewInstancesOk(before, b0, binds, beforeClasses, cl0)
    requires BlockedStayNull(before, b0, binds, md, instance)
    requires bindings ==> forall s :: s in binds ==> s in b0 && binds[s] in b0
    requires HeldIn(b0, cl0) && beforeClasses.Keys <= cl0.Keys
    requires c in before && c in b0 && b0[c].None?
    requires Lookup(b0, ImplIn(binds, c)).None? && InstantiableIn(md, instance, ImplIn(binds, c))
    requires o !in cl0 && cl1 == cl0[o := ImplIn(binds, c)]
    requires b1 == b0[ImplIn(binds, c) := Some(o)][c := Some(o)]
    ensures KeysKept(before, b1, binds, bindings) && FilledKept(before, b1)
    ensures NewInstancesOk(before, b1, binds, beforeClasses, cl1)
    ensures BlockedStayNull(before, b1, binds, md, instance)
  {
    FreshKeys(before, b0, b1, binds, c, o, bindings);
    FreshNew(before, beforeClasses, b0, b1, binds, cl0, cl1, c, o);
    FreshBlocked(before, b0, b1, binds, md, instance, c, o);
  }

  lemma FreshKeys(before: map<ClassName, Option<ObjId>>, b0: map<ClassName, Option<ObjId>>, b1: map<ClassName, Option<ObjId>>,
                  binds: map<ClassName, ClassName>, c: ClassName, o: ObjId, bindings: bool)
    requires KeysKept(before, b0, binds, bindings) && FilledKept(before, b0)
    requires bindings ==> forall s :: s in binds ==> s in b0 && binds[s] in b0
    requires c in before && c in b0 && b0[c].None?
    requires Lookup(b0, ImplIn(binds, c)).None?
    requires b1 == b0[ImplIn(binds, c) := Some(o)][c := Some(o)]
    ensures KeysKept(before, b1, binds, bindings) && FilledKept(before, b1)
  {
    var impl := ImplIn(binds, c);
    assert impl == c || impl in binds.Values;
    assert b1.Keys == b0.Keys + {impl};
  }

  lemma FreshNew(before: map<ClassName, Option<ObjId>>, beforeClasses: map<ObjId, ClassName>,
                 b0: map<ClassName, Option<ObjId>>, b1: map<ClassName, Option<ObjId>>, binds: map<ClassName, ClassName>,
                 cl0: map<ObjId, ClassName>, cl1: map<ObjId, ClassName>, c: ClassName, o: ObjId)
    requires FilledKept(before, b0)
    requires NewInstancesOk(before, b0, binds, beforeClasses, cl0)
    requires HeldIn(b0, cl0) && beforeClasses.Keys <= cl0.Keys
    requires c in b0 && b0[c].None?
    requires Lookup(b0, ImplIn(binds, c)).None?
    requires o !in cl0 && cl1 == cl0[o := ImplIn(binds, c)]
    requires b1 == b0[ImplIn(binds, c) := Some(o)][c := Some(o)]
    ensures NewInstancesOk(before, b1, binds, beforeClasses, cl1)
  {
    var impl := ImplIn(binds, c);
    forall k | NewlyFilled(before, b1, k) && k != c && k != impl
      ensures b1[k] == b0[k] && NewlyFilled(before, b0, k) && b0[k].value != o && cl1[b0[k].value] == cl0[b0[k].value]
    {
      assert b0[k].value in Instances(b0);
    }
    forall k | NewlyFilled(before, b1, k)
      ensures (b1[k].value !in beforeClasses && b1[k].value in cl1 && cl1[b1[k].value] == k)
              || (k in binds && b1[k] == Lookup(b1, binds[k]))
    {
      if k != c && k != impl && k in binds && b0[k] == Lookup(b0, binds[k]) {
        assert binds[k] != c && binds[k] != impl;
      }
    }
    forall k | NewlyFilled(before, b1, k) && k in binds && k !in binds.Values
      ensures b1[k] == Lookup(b1, binds[k])
    {
      if k != c {
        assert binds[k] != c && binds[k] != impl;
      }
    }
  }

  lemma FreshBlocked(before: map<ClassName, Option<ObjId>>, b0: map<ClassName, Option<ObjId>>, b1: map<ClassName, Option<ObjId>>,
                     binds: map<ClassName, ClassName>, md: Metadata, instance: Option<ObjId>, c: ClassName, o: ObjId)
    requires BlockedStayNull(before, b0, binds, md, instance)
    requires InstantiableIn(md, instance, ImplIn(binds, c))
    requires b1 == b0[ImplIn(binds, c) := Some(o)][c := Some(o)]
    ensures BlockedStayNull(before, b1, binds, md, instance)
  {
  }

  /** Fragments among the instances of newly filled slots, one step on. */
  lemma NewFragmentsShared(before: map<ClassName, Option<ObjId>>, b0: map<ClassName, Option<ObjId>>, b1: map<ClassName, Option<ObjId>>,
                           md: Metadata, cl: map<ObjId, ClassName>, c: ClassName, x: ObjId)
    requires c in b0 && b0[c].None? && FilledKept(before, b0)
    requires HeldIn(b0, cl) && x in cl
    requires b1 == b0[c := Some(x)]
    ensures NewFragmentsIn(before, b1, md, cl) ==
      NewFragmentsIn(before, b0, md, cl) + (if IsAssignableFrom(md, FRAGMENT, cl[x]) then {x} else {})
  {
    var lhs := NewFragmentsIn(before, b1, md, cl);
    var rhs := NewFragmentsIn(before, b0, md, cl) + (if IsAssignableFrom(md, FRAGMENT, cl[x]) then {x} else {});
    forall p | p in lhs ensures p in rhs {
      var k :| k in b1 && NewlyFilled(before, b1, k) && b1[k].value in cl
               && IsAssignableFrom(md, FRAGMENT, cl[b1[k].value]) && b1[k].value == p;
      if k != c {
        assert NewlyFilled(before, b0, k);
      }
    }
    forall p | p in NewFragmentsIn(before, b0, md, cl) ensures p in lhs {
      var k :| k in b0 && NewlyFilled(before, b0, k) && b0[k].value in cl
               && IsAssignableFrom(md, FRAGMENT, cl[b0[k].value]) && b0[k].value == p;
      assert NewlyFilled(before, b1, k);
    }
    assert NewlyFilled(before, b1, c);
  }

  lemma NewFragmentsFresh(before: map<ClassName, Option<ObjId>>, b0: map<ClassName, Option<ObjId>>, b1: map<ClassName, Option<ObjId>>,
                          md: Metadata, cl0: map<ObjId, ClassName>, cl1: map<ObjId, ClassName>, c: ClassName, impl: ClassName, o: ObjId)
    requires c in b0 && b0[c].None? && FilledKept(before, b0) && Lookup(b0, impl).None?
    requires HeldIn(b0, cl0) && o !in cl0 && cl1 == cl0[o := impl]
    requires b1 == b0[impl := Some(o)][c := Some(o)]
    ensures NewFragmentsIn(before, b1, md, cl1) ==
      NewFragmentsIn(before, b0, md, cl0) + (if IsAssignableFrom(md, FRAGMENT, cl1[o]) then {o} else {})
  {
    var lhs := NewFragmentsIn(before, b1, md, cl1);
    var rhs := NewFragmentsIn(before, b0, md, cl0) + (if IsAssignableFrom(md, FRAGMENT, cl1[o]) then {o} else {});
    forall p | p in lhs ensures p in rhs {
      var k :| k in b1 && NewlyFilled(before, b1, k) && b1[k].value in cl1
               && IsAssignableFrom(md, FRAGMENT, cl1[b1[k].value]) && b1[k].value == p;
      if k != c && k != impl {
        assert NewlyFilled(before, b0, k);
        assert b0[k].value in Instances(b0);
      }
    }
    forall p | p in NewFragmentsIn(before, b0, md, cl0) ensures p in lhs {
      var k :| k in b0 && NewlyFilled(before, b0, k) && b0[k].value in cl0
               && IsAssignableFrom(md, FRAGMENT, cl0[b0[k].value]) && b0[k].value == p;
      assert k != c && k != impl;
      assert NewlyFilled(before, b1, k);
    }
    assert NewlyFilled(before, b1, c);
  }

  /** What createInstances keeps true, over the values of the container and heap state. */
  ghost predicate CreationInv(before: map<ClassName, Option<ObjId>>, beforeClasses: map<ObjId, ClassName>,
                              beforeStore: map<ObjId, Fields>, beforeFragments: set<ObjId>, bindings: bool,
                              beans: map<ClassName, Option<ObjId>>, binds: map<ClassName, ClassName>, md: Metadata,
                              instance: Option<ObjId>, classOf: map<ObjId, ClassName>, store: map<ObjId, Fields>,
                              fragments: set<ObjId>)
  {
    KeysKept(before, beans, binds, bindings)
    && FilledKept(before, beans)
    && NewInstancesOk(before, beans, binds, beforeClasses, classOf)
    && BlockedStayNull(before, beans, binds, md, instance)
    && fragments == beforeFragments + NewFragmentsIn(before, beans, md, classOf)
    && HeapKept(beforeClasses, beforeStore, classOf, store)
  }

  lemma SharedCreation(before: map<ClassName, Option<ObjId>>, beforeClasses: map<ObjId, ClassName>,
                       beforeStore: map<ObjId, Fields>, beforeFragments: set<ObjId>, bindings: bool,
                       b0: map<ClassName, Option<ObjId>>, b1: map<ClassName, Option<ObjId>>, binds: map<ClassName, ClassName>,
                       md: Metadata, instance: Option<ObjId>, cl: map<ObjId, ClassName>, st: map<ObjId, Fields>,
                       kf0: set<ObjId>, kf1: set<ObjId>, c: ClassName)
    requires CreationInv(before, beforeClasses, beforeStore, beforeFragments, bindings, b0, binds, md, instance, cl, st, kf0)
    requires HeldIn(b0, cl)
    requires c in before && c in b0 && b0[c].None?
    requires Lookup(b0, ImplIn(binds, c)).Some? && b1 == b0[c := Lookup(b0, ImplIn(binds, c))]
    requires kf1 == kf0 + (if IsAssignableFrom(md, FRAGMENT, cl[b1[c].value]) then {b1[c].value} else {})
    ensures CreationInv(before, beforeClasses, beforeStore, beforeFragments, bindings, b1, binds, md, instance, cl, st, kf1)
    ensures FilledKept(b0, b1)
  {
    SharedStep(before, beforeClasses, b0, b1, binds, cl, md, instance, c, bindings);
    assert b1[c].value in Instances(b0);
    NewFragmentsShared(before, b0, b1, md, cl, c, b1[c].value);
  }

  lemma FreshCreation(before: map<ClassName, Option<ObjId>>, beforeClasses: map<ObjId, ClassName>,
                      beforeStore: map<ObjId, Fields>, beforeFragments: set<ObjId>, bindings: bool,
                      b0: map<ClassName, Option<ObjId>>, b1: map<ClassName, Option<ObjId>>, binds: map<ClassName, ClassName>,
                      md: Metadata, instance: Option<ObjId>, cl0: map<ObjId, ClassName>, cl1: map<ObjId, ClassName>,
                      st0: map<ObjId, Fields>, st1: map<ObjId, Fields>, kf0: set<ObjId>, kf1: set<ObjId>, c: ClassName, o: ObjId)
    requires CreationInv(before, beforeClasses, beforeStore, beforeFragments, bindings, b0, binds, md, instance, cl0, st0, kf0)
    requires bindings ==> forall s :: s in binds ==> s in b0 && binds[s] in b0
    requires HeldIn(b0, cl0) && st0.Keys == cl0.Keys
    requires c in before && c in b0 && b0[c].None?
    requires Lookup(b0, ImplIn(binds, c)).None? && InstantiableIn(md, instance, ImplIn(binds, c))
    requires o !in cl0 && cl1 == cl0[o := ImplIn(binds, c)] && st1 == st0[o := map[]]
    requires b1 == b0[ImplIn(binds, c) := Some(o)][c := Some(o)]
    requires kf1 == kf0 + (if IsAssignableFrom(md, FRAGMENT, cl1[o]) then {o} else {})
    ensures CreationInv(before, beforeClasses, beforeStore, beforeFragments, bindings, b1, binds, md, instance, cl1, st1, kf1)
    ensures FilledKept(b0, b1)
  {
    assert beforeClasses.Keys <= cl0.Keys;
    FreshStep(before, beforeClasses, b0, b1, binds, cl0, cl1, md, instance, c, o, bindings);
    NewFragmentsFresh(before, b0, b1, md, cl0, cl1, c, ImplIn(binds, c), o);
    SlotsFilled(b0, b1, ImplIn(binds, c), c, o);
  }

  /** Filling two null slots keeps every filled one. */
  lemma SlotsFilled(b0: map<ClassName, Option<ObjId>>, b1: map<ClassName, Option<ObjId>>, a: ClassName, c: ClassName, o: ObjId)
    requires Lookup(b0, a).None? && Lookup(b0, c).None? && b1 == b0[a := Some(o)][c := Some(o)]
    ensures FilledKept(b0, b1)
  {
  }


  // ---------------------------------------------------------------- outjection, fragments, activities

  /** Every object in `done` reads as outjected against the classes `keys`; every other object is as it was. */
  ghost predicate OutjectedExactly(md: Metadata, classOf: map<ObjId, ClassName>, keys: set<ClassName>,
                                   before: map<ObjId, Fields>, after: map<ObjId, Fields>, done: set<ObjId>)
  {
    (forall x :: x in done ==>
       x in before && x in after && x in classOf
       && SameReads(after[x], Outjected(before[x], AllDeclaredFields(md, classOf[x]), keys)))
    && (forall x :: x in before && x !in done ==> x in after && after[x] == before[x])
  }

  /** The first loop of performDestruction part-way, `remaining` not yet visited and the instances `done` outjected. */
  ghost predicate OutjectProgress(md: Metadata, classOf: map<ObjId, ClassName>, beans: map<ClassName, Option<ObjId>>,
                                  remaining: set<ClassName>, orig: map<ObjId, Fields>, store: map<ObjId, Fields>, done: set<ObjId>)
  {
    remaining <= beans.Keys && store.Keys == orig.Keys && done <= Instances(beans)
    && (forall k :: k in beans && k !in remaining && beans[k].Some? ==> beans[k].value in done)
    && OutjectedExactly(md, classOf, beans.Keys, orig, store, done)
  }

  /** Outjecting one more object, possibly one outjected already. */
  lemma OutjectedExactlyStep(md: Metadata, classOf: map<ObjId, ClassName>, keys: set<ClassName>,
                             before: map<ObjId, Fields>, cur: map<ObjId, Fields>, next: map<ObjId, Fields>,
                             done: set<ObjId>, o: ObjId)
    requires OutjectedExactly(md, classOf, keys, before, cur, done)
    requires o in before && o in cur && o in next && o in classOf && next == cur[o := next[o]]
    requires SameReads(next[o], Outjected(cur[o], AllDeclaredFields(md, classOf[o]), keys))
    ensures OutjectedExactly(md, classOf, keys, before, next, done + {o})
  {
    var fs := AllDeclaredFields(md, classOf[o]);
    if o in done {
      OutjectedAgain(cur[o], before[o], fs, keys);
    }
  }

  /**
   * The fragment loop of treatKnownUiComponents part-way, `remaining` not
   * yet visited: a visited fragment stays known when its injection
   * completed, and then it is injected; one that was injectable under the
   * handle answers at the start is never dropped; objects not visited are
   * as they were.
   */
  ghost predicate FragmentsProgress(md: Metadata, p: Policy, classOf: map<ObjId, ClassName>, beans: map<ClassName, Option<ObjId>>,
                                    orig: map<ObjId, Fields>, store: map<ObjId, Fields>,
                                    known0: set<ObjId>, known: set<ObjId>, remaining: set<ObjId>,
                                    h: Handles, dbOk: bool, helperOk: bool)
  {
    remaining <= known <= known0
    && (forall x :: x in known0 && x !in remaining && ObjInjectable(md, p, classOf, beans.Keys, x, dbOk, helperOk) ==> x in known)
    && (forall x :: x in known && x !in remaining ==> ObjInjected(md, p, classOf, beans, orig, store, x, h))
    && (forall x :: x in orig && (x !in known0 || x in remaining) ==> x in store && store[x] == orig[x])
  }

  /** No object of `objs` is injectable under the given handle answers. */
  predicate NoneInjectable(md: Metadata, p: Policy, classOf: map<ObjId, ClassName>, keys: set<ClassName>,
                           objs: set<ObjId>, dbOk: bool, helperOk: bool)
  {
    forall x :: x in objs ==> !ObjInjectable(md, p, classOf, keys, x, dbOk, helperOk)
  }

  /** A fragment whose injection completed is kept. */
  lemma FragmentKept(md: Metadata, p: Policy, classOf: map<ObjId, ClassName>, beans: map<ClassName, Option<ObjId>>,
                     orig: map<ObjId, Fields>, cur: map<ObjId, Fields>, next: map<ObjId, Fields>,
                     known0: set<ObjId>, known: set<ObjId>, remaining: set<ObjId>, x: ObjId,
                     h1: Handles, h2: Handles, dbOk: bool, helperOk: bool)
    requires FragmentsProgress(md, p, classOf, beans, orig, cur, known0, known, remaining, h1, dbOk, helperOk)
    requires x in remaining && x in orig && HandlesGrow(h1, h2)
    requires x in cur && x in next && next == cur[x := next[x]]
    requires ObjInjected(md, p, classOf, beans, cur, next, x, h2)
    ensures FragmentsProgress(md, p, classOf, beans, orig, next, known0, known, remaining - {x}, h2, dbOk, helperOk)
  {
    forall y | y in known && y !in remaining - {x}
      ensures ObjInjected(md, p, classOf, beans, orig, next, y, h2)
    {
      if y != x {
        assert ObjInjected(md, p, classOf, beans, orig, cur, y, h1);
        assert next[y] == cur[y];
        InjectedStable(orig[y], cur[y], AllDeclaredFields(md, classOf[y]), beans, RulesOf(md, p, classOf[y]), h1, h2);
      } else {
        assert cur[x] == orig[x];
      }
    }
    forall y | y in orig && (y !in known0 || y in remaining - {x})
      ensures y in next && next[y] == orig[y]
    {
      assert y != x && next[y] == cur[y];
    }
  }

  /** A fragment whose injection failed, and which was not injectable at the start, is dropped. */
  lemma FragmentDropped(md: Metadata, p: Policy, classOf: map<ObjId, ClassName>, beans: map<ClassName, Option<ObjId>>,
                        orig: map<ObjId, Fields>, cur: map<ObjId, Fields>, next: map<ObjId, Fields>,
                        known0: set<ObjId>, known: set<ObjId>, remaining: set<ObjId>, x: ObjId,
                        h1: Handles, h2: Handles, dbOk: bool, helperOk: bool)
    requires FragmentsProgress(md, p, classOf, beans, orig, cur, known0, known, remaining, h1, dbOk, helperOk)
    requires x in remaining && HandlesGrow(h1, h2)
    requires !ObjInjectable(md, p, classOf, beans.Keys, x, dbOk, helperOk)
    requires x in cur && x in next && next == cur[x := next[x]]
    ensures FragmentsProgress(md, p, classOf, beans, orig, next, known0, known - {x}, remaining - {x}, h2, dbOk, helperOk)
  {
    forall y | y in known - {x} && y !in remaining - {x}
      ensures ObjInjected(md, p, classOf, beans, orig, next, y, h2)
    {
      InjectedStable(orig[y], cur[y], AllDeclaredFields(md, classOf[y]), beans, RulesOf(md, p, classOf[y]), h1, h2);
    }
  }

  /** Each activity is held under its own runtime class. */
  function PutActivity(m: map<ClassName, ObjId>, classOf: map<ObjId, ClassName>, a: ObjId): (r: map<ClassName, ObjId>)
    requires a in classOf
    ensures classOf[a] in r && r[classOf[a]] == a
    ensures forall c :: c != classOf[a] ==> (c in r <==> c in m) && (c in m ==> r[c] == m[c])
  {
    m[classOf[a] := a]
  }

  /** removeActivity: the entry of the activity's class goes, whichever activity it held. */
  function DropActivity(m: map<ClassName, ObjId>, classOf: map<ObjId, ClassName>, a: ObjId): (r: map<ClassName, ObjId>)
    requires a in classOf
    ensures classOf[a] !in r
    ensures forall c :: c != classOf[a] ==> (c in r <==> c in m) && (c in m ==> r[c] == m[c])
  {
    m - {classOf[a]}
  }

  /** Adding and then removing an activity leaves its class without an entry and every other class as it was. */
  lemma DropAfterPut(m: map<ClassName, ObjId>, classOf: map<ObjId, ClassName>, a: ObjId)
    requires a in classOf
    ensures DropActivity(PutActivity(m, classOf, a), classOf, a) == DropActivity(m, classOf, a)
  {
    var lhs := DropActivity(PutActivity(m, classOf, a), classOf, a);
    var rhs := DropActivity(m, classOf, a);
    assert lhs.Keys == rhs.Keys;
  }

  /** Adding the same activity twice is adding it once. */
  lemma PutTwice(m: map<ClassName, ObjId>, classOf: map<ObjId, ClassName>, a: ObjId)
    requires a in classOf
    ensures PutActivity(PutActivity(m, classOf, a), classOf, a) == PutActivity(m, classOf, a)
  {
    var lhs := PutActivity(PutActivity(m, classOf, a), classOf, a);
    var rhs := PutActivity(m, classOf, a);
    assert lhs.Keys == rhs.Keys;
  }

}
