/**
 * net/mantucon/baracus/context/BaracusApplicationContext.java: the static
 * side of the net tree's application class. It owns the bean container,
 * the init / semaphore / refCount flags, the ActivityLifecycleCallbacks
 * object registered with the Android Application, and the delete and
 * set-change listener tables. The Android callbacks are methods called
 * explicitly; the Application's callback list is the sequence of callback
 * objects registered with it; the string resources are a table from
 * resource id to text.
 */
module NetBaracusApplicationContext {
  import opened JavaLang
  import opened JavaReflection
  import JavaUtil
  import opened BeanInjection
  import opened ContainerCore
  import opened NetBeanContainer
  import opened ListenerTables
  import MessageArgs

  const CONFIGURATION_DAO: ClassName := "net.mantucon.baracus.dao.ConfigurationDao"

  /** Why resolveString fails: no application instance (NullPointerException), or getString's Resources.NotFoundException. */
  datatype ResourceError = InstanceMissing | ResourcesNotFoundException(msgId: int)

  /** The static state of BaracusApplicationContext. */
  class ApplicationContext {
    /** beanContainer */
    const container: BeanContainer
    /** The string resources getString answers from. */
    const resources: map<int, string>
    var semaphore: bool
    var refCount: int
    var init: bool
    /** callbacks: the callback object make() created last. */
    var callbacks: Option<nat>
    /** The callback objects registered with the Application, in registration order. */
    var registered: seq<nat>
    /** How many callback objects make() has created; they are numbered from 0. */
    var created: nat
    var deleteListeners: map<ClassName, ObjId>
    var changeListeners: map<ClassName, ObjId>

    /**
     * The container is consistent, and semaphore is never set in this
     * tree; every registered callback object is one make() created.
     */
    ghost predicate Valid()
      reads this`semaphore, this`callbacks, this`registered, this`created, container, container.heap
    {
      container.Valid() && !semaphore
      && (callbacks.Some? ==> callbacks.value < created)
      && forall i :: 0 <= i < |registered| ==> registered[i] < created
    }

    /** The static initializer: ConfigurationDao is registered before anything else. */
    constructor(md: Metadata, heap: Heap, infra: Infrastructure, resources: map<int, string>)
      requires heap.Valid() && infra.helperClass == BARACUS_OPEN_HELPER
      ensures Valid() && !init && refCount == 0 && callbacks.None? && registered == [] && created == 0
      ensures container.md == md && container.heap == heap && container.infra == infra && this.resources == resources
      ensures container.beans == map[CONFIGURATION_DAO := None] && container.knownFragments == {}
      ensures container.activeActivities == map[] && container.pausedActivities == map[] && container.existingActivities == map[]
      ensures deleteListeners == map[] && changeListeners == map[]
    {
      container := new BeanContainer(md, heap, infra);
      this.resources := resources;
      semaphore := false;
      refCount := 0;
      init := false;
      callbacks := None;
      registered := [];
      created := 0;
      deleteListeners := map[];
      changeListeners := map[];
      new;
      container.RegisterBeanClass(CONFIGURATION_DAO);
    }

    /** The constructor of the application object `app`: it becomes __instance, then make() runs. */
    method Construct(app: ObjId) returns (thrown: Option<ContainerError>)
      requires Valid()
      modifies container.infra`instance, this`callbacks, this`created, this`registered, this`refCount
      ensures Valid() && container.infra.instance == Some(app) && thrown.None?
      ensures callbacks == Some(old(created)) && created == old(created) + 1
      ensures registered == old(registered) + [old(created)] && refCount == old(refCount) + 1
    {
      container.infra.instance := Some(app);
      thrown := Make();
    }

    /**
     * make(): semaphore is never set, so every call creates a new callback
     * object and registers it with the application instance (a missing
     * instance throws NullPointerException there); refCount grows by one.
     */
    method Make() returns (thrown: Option<ContainerError>)
      requires Valid()
      modifies this`callbacks, this`created, this`registered, this`refCount
      ensures Valid()
      ensures callbacks == Some(old(created)) && created == old(created) + 1 && old(created) !in old(registered)
      ensures container.infra.instance.None? ==>
        thrown == Some(NullPointerException) && registered == old(registered) && refCount == old(refCount)
      ensures container.infra.instance.Some? ==>
        thrown.None? && registered == old(registered) + [old(created)] && refCount == old(refCount) + 1
    {
      if !semaphore {
        callbacks := Some(created);
        created := created + 1;
        if container.infra.instance.None? {
          return Some(NullPointerException);
        }
        registered := registered + [callbacks.value];
      }
      refCount := refCount + 1;
      thrown := None;
    }

    /** Built (see ContainerCore) for this container, its active activities and its current store. */
    ghost predicate BuiltFrom(created: map<ObjId, Fields>, injected: map<ObjId, Fields>, reinjected: set<ObjId>, h: Handles)
      reads container, container.heap
    {
      Built(container.md, NET, container.heap.classOf, container.beans, container.activeActivities.Values,
            created, injected, container.heap.store, reinjected, h)
    }

    /**
     * The container steps of initApplicationContext: createInstances,
     * performInjections, performPostConstuct and treatKnownUiComponents in
     * turn, the first failure propagating. On success the registered
     * classes are the same, every slot holds an instance, a slot that held
     * one before still holds it, every instance was injected (see
     * BuiltFrom), and the log ends with the postConstruct calls over the
     * slots in `keys` order.
     */
    method BuildContainer()
      returns (thrown: Option<ContainerError>, ghost keys: seq<ClassName>,
               ghost created: map<ObjId, Fields>, ghost injected: map<ObjId, Fields>, ghost fragments: set<ObjId>, ghost h: Handles)
      requires Valid()
      modifies container.heap, container`beans, container`knownFragments, container.infra`db, container.infra`openHelper
      ensures Valid()
      ensures thrown.None? ==>
        container.beans.Keys == old(container.beans).Keys && (forall k :: k in container.beans ==> container.beans[k].Some?)
        && FilledKept(old(container.beans), container.beans)
      ensures thrown.None? ==> BuiltFrom(created, injected, fragments, h)
      ensures thrown.None? ==>
        Distinct(keys) && (forall k :: k in keys <==> k in container.beans)
        && var calls := HookCalls(container.md, container.heap.classOf, SlotsAt(container.beans, keys), INITIALIZEABLE, "postConstruct");
           |calls| <= |container.heap.log| && container.heap.log[|container.heap.log| - |calls|..] == calls
    {
      keys, injected, fragments, h := [], map[], {}, container.infra.Now();
      thrown := CreateAll();
      created := container.heap.store;
      if thrown.Some? {
        return;
      }
      thrown, keys, injected, fragments, h := WireContainer();
    }

    /** createInstances, seen from the context: the same classes, each slot filled, filled slots kept. */
    method CreateAll() returns (thrown: Option<ContainerError>)
      requires Valid()
      modifies container.heap, container`beans, container`knownFragments
      ensures Valid()
      ensures thrown.None? ==>
        container.beans.Keys == old(container.beans).Keys && (forall k :: k in container.beans ==> container.beans[k].Some?)
        && FilledKept(old(container.beans), container.beans)
    {
      thrown := container.CreateInstances();
    }

    /** performInjections, performPostConstuct and treatKnownUiComponents, over the instances createInstances left. */
    method WireContainer()
      returns (thrown: Option<ContainerError>, ghost keys: seq<ClassName>,
               ghost injected: map<ObjId, Fields>, ghost fragments: set<ObjId>, ghost h: Handles)
      requires Valid()
      modifies container.heap`store, container.heap`log, container`knownFragments, container.infra`db, container.infra`openHelper
      ensures Valid()
      ensures thrown.None? ==> BuiltFrom(old(container.heap.store), injected, fragments, h)
      ensures thrown.None? ==> Distinct(keys) && (forall k :: k in keys <==> k in container.beans)
      ensures thrown.None? ==>
        var calls := HookCalls(container.md, container.heap.classOf, SlotsAt(container.beans, keys), INITIALIZEABLE, "postConstruct");
        |calls| <= |container.heap.log| && container.heap.log[|container.heap.log| - |calls|..] == calls
    {
      keys, injected, fragments, h := [], map[], {}, container.infra.Now();
      thrown := container.PerformInjections();
      if thrown.Some? {
        return;
      }
      injected := container.heap.store;
      fragments := container.knownFragments;
      h := container.infra.Now();
      keys := container.PerformPostConstuct();
      thrown := container.TreatKnownUiComponents();
      if thrown.None? {
        BuiltFromParts(container.md, NET, container.heap.classOf, container.beans, container.activeActivities.Values,
                       old(container.heap.store), injected, container.heap.store, fragments, h);
      }
    }

    /**
     * initApplicationContext: once, while init is false, the container is
     * built (see BuildContainer) and init is set after it; a failure
     * propagates and leaves init unset. With init set it does nothing.
     */
    method InitApplicationContext()
      returns (thrown: Option<ContainerError>, ghost keys: seq<ClassName>,
               ghost created: map<ObjId, Fields>, ghost injected: map<ObjId, Fields>, ghost fragments: set<ObjId>, ghost h: Handles)
      requires Valid()
      modifies container.heap, container`beans, container`knownFragments, container.infra`db, container.infra`openHelper, this`init
      ensures Valid()
      ensures old(init) ==>
        thrown.None? && init && container.beans == old(container.beans) && container.knownFragments == old(container.knownFragments)
        && container.heap.classOf == old(container.heap.classOf) && container.heap.store == old(container.heap.store)
        && container.heap.log == old(container.heap.log)
      ensures !old(init) ==> (init <==> thrown.None?)
      ensures !old(init) && thrown.None? ==>
        container.beans.Keys == old(container.beans).Keys && (forall k :: k in container.beans ==> container.beans[k].Some?)
        && FilledKept(old(container.beans), container.beans)
      ensures !old(init) && thrown.None? ==> BuiltFrom(created, injected, fragments, h)
      ensures !old(init) && thrown.None? ==>
        Distinct(keys) && (forall k :: k in keys <==> k in container.beans)
        && var calls := HookCalls(container.md, container.heap.classOf, SlotsAt(container.beans, keys), INITIALIZEABLE, "postConstruct");
           |calls| <= |container.heap.log| && container.heap.log[|container.heap.log| - |calls|..] == calls
    {
      if init {
        thrown, keys, created, injected, fragments, h := None, [], map[], map[], {}, container.infra.Now();
        return;
      }
      thrown, keys, created, injected, fragments, h := BuildAndMark();
    }

    /**
     * What a successful build leaves: the same classes, each with an
     * instance, every filled slot kept, the instances injected, and the
     * postConstruct calls of the beans in key order ending the log.
     */
    ghost predicate Wired(b0: map<ClassName, Option<ObjId>>, keys: seq<ClassName>, created: map<ObjId, Fields>,
                          injected: map<ObjId, Fields>, fragments: set<ObjId>, h: Handles)
      reads container, container.heap
    {
      container.beans.Keys == b0.Keys && (forall k :: k in container.beans ==> container.beans[k].Some?)
      && FilledKept(b0, container.beans)
      && BuiltFrom(created, injected, fragments, h)
      && Distinct(keys) && (forall k :: k in keys <==> k in container.beans)
      && var calls := HookCalls(container.md, container.heap.classOf, SlotsAt(container.beans, keys), INITIALIZEABLE, "postConstruct");
         |calls| <= |container.heap.log| && container.heap.log[|container.heap.log| - |calls|..] == calls
    }

    /** The first initialisation: the container is built, and init is set exactly when that succeeds. */
    method BuildAndMark()
      returns (thrown: Option<ContainerError>, ghost keys: seq<ClassName>,
               ghost created: map<ObjId, Fields>, ghost injected: map<ObjId, Fields>, ghost fragments: set<ObjId>, ghost h: Handles)
      requires Valid()
      modifies container.heap, container`beans, container`knownFragments, container.infra`db, container.infra`openHelper, this`init
      ensures Valid()
      ensures init <==> thrown.None?
      ensures thrown.None? ==> Wired(old(container.beans), keys, created, injected, fragments, h)
    {
      thrown, keys, created, injected, fragments, h := BuildContainer();
      assert thrown.None? ==> Wired(old(container.beans), keys, created, injected, fragments, h);
      init := thrown.None?;
    }

    // ---------------------------------------------------------------- activity lifecycle callbacks

    /**
     * onActivityCreated: the activity joins the existing activities, the
     * context is built if it was not yet, and the activity is injected.
     */
    method OnActivityCreated(a: ObjId) returns (thrown: Option<ContainerError>)
      requires Valid() && a in container.heap.classOf
      modifies container.heap, container`beans, container`knownFragments, container`existingActivities,
               container.infra`db, container.infra`openHelper, this`init
      ensures Valid()
      ensures container.existingActivities == PutActivity(old(container.existingActivities), old(container.heap.classOf), a)
      ensures thrown.None? ==> init
      ensures old(init) ==> container.heap.store == old(container.heap.store)[a := container.heap.store[a]]
      ensures old(init) ==> (thrown.None? <==> old(container.Injectable(a)))
      ensures old(init) && thrown.None? ==> container.InjectedFrom(old(container.heap.store), a)
    {
      container.AddExistingActivity(a);
      var failed := InitialiseOnDemand();
      if failed.Some? {
        return failed;
      }
      thrown := container.PerformInjection(Some(a));
    }

    /** The first step of onActivityCreated: the context is built unless it already was. */
    method InitialiseOnDemand() returns (thrown: Option<ContainerError>)
      requires Valid()
      modifies container.heap, container`beans, container`knownFragments, container.infra`db, container.infra`openHelper, this`init
      ensures Valid()
      ensures thrown.None? ==> init
      ensures old(init) ==>
        thrown.None? && container.beans == old(container.beans) && container.heap.classOf == old(container.heap.classOf)
        && container.heap.store == old(container.heap.store) && container.infra.Now() == old(container.infra.Now())
    {
      if !init {
        var failed, _, _, _, _, _ := InitApplicationContext();
        thrown := failed;
      } else {
        thrown := None;
      }
    }

    /** onActivityStarted: the activity becomes the active one of its class. */
    method OnActivityStarted(a: ObjId)
      requires Valid() && a in container.heap.classOf
      modifies container`activeActivities
      ensures Valid() && container.activeActivities == PutActivity(old(container.activeActivities), container.heap.classOf, a)
    {
      container.AddActiveActivity(a);
    }

    /** onActivityResumed: the activity's class leaves the paused activities. */
    method OnActivityResumed(a: ObjId)
      requires Valid() && a in container.heap.classOf
      modifies container`pausedActivities
      ensures Valid() && container.pausedActivities == DropActivity(old(container.pausedActivities), container.heap.classOf, a)
    {
      container.RemovePausedActivity(a);
    }

    /** onActivityPaused: the activity becomes the paused one of its class. */
    method OnActivityPaused(a: ObjId)
      requires Valid() && a in container.heap.classOf
      modifies container`pausedActivities
      ensures Valid() && container.pausedActivities == PutActivity(old(container.pausedActivities), container.heap.classOf, a)
    {
      container.AddPausedActivity(a);
    }

    /** onActivityStopped: the activity's class leaves the active activities and the activity is outjected. */
    method OnActivityStopped(a: ObjId)
      requires Valid() && a in container.heap.classOf
      modifies container`activeActivities, container.heap`store
      ensures Valid() && container.activeActivities == DropActivity(old(container.activeActivities), container.heap.classOf, a)
      ensures container.heap.store == old(container.heap.store)[a := container.heap.store[a]]
      ensures SameReads(container.heap.store[a],
                        Outjected(old(container.heap.store[a]), container.FieldsOf(a), container.beans.Keys))
    {
      container.RemoveActiveActivity(a);
      container.PerformOutjectionOn(a);
    }

    /** onActivityDestroyed: the activity's class leaves the existing activities. */
    method OnActivityDestroyed(a: ObjId)
      requires Valid() && a in container.heap.classOf
      modifies container`existingActivities
      ensures Valid() && container.existingActivities == DropActivity(old(container.existingActivities), container.heap.classOf, a)
    {
      container.RemoveExistingActivity(a);
    }

    // ---------------------------------------------------------------- resources, handles and beans

    /**
     * resolveString: the resource text with "$1".."$n" replaced by the
     * arguments in turn; a null or empty argument array leaves the text
     * as it is.
     */
    method ResolveString(msgId: int, vars: Option<seq<string>>) returns (r: Result<string, ResourceError>)
      ensures container.infra.instance.None? ==> r == Failure(InstanceMissing)
      ensures container.infra.instance.Some? && msgId !in resources ==> r == Failure(ResourcesNotFoundException(msgId))
      ensures container.infra.instance.Some? && msgId in resources ==>
        r == Success(MessageArgs.Substituted(resources[msgId], if vars.Some? then vars.value else []))
    {
      if container.infra.instance.None? {
        return Failure(InstanceMissing);
      }
      if msgId !in resources {
        return Failure(ResourcesNotFoundException(msgId));
      }
      var rawMsg := resources[msgId];
      if vars.Some? && |vars.value| > 0 {
        var args := vars.value;
        var i := 0;
        while i < |args|
          invariant 0 <= i <= |args|
          invariant rawMsg == MessageArgs.Substituted(resources[msgId], args[..i])
        {
          assert args[..i + 1][..i] == args[..i];
          rawMsg := Replace(rawMsg, "$" + IntToString(i + 1), args[i]);
          i := i + 1;
        }
        assert args[..i] == args;
      }
      r := Success(rawMsg);
    }

    /** connectOpenHelper: the cached helper, else the last registered helper instance, cached; see Infrastructure.ConnectOpenHelper. */
    method ConnectOpenHelper() returns (r: Result<ObjId, ContainerError>)
      requires Valid()
      modifies container.infra`openHelper
      ensures Valid()
      ensures r.Success? <==> old(container.HelperOk())
      ensures old(container.infra.openHelper).Some? ==> r == Success(old(container.infra.openHelper).value)
      ensures r.Success? ==> container.infra.openHelper == Some(r.value)
      ensures r.Success? && old(container.infra.openHelper).None? ==>
        r.value in HelperBeans(container.md, BARACUS_OPEN_HELPER, container.heap.classOf, container.beans)
      ensures r.Failure? ==> r.error == if HasNull(container.beans) then NullPointerException else ContextNotYetCreatedException
    {
      r := container.infra.ConnectOpenHelper(container.md, container.heap.classOf, container.beans);
    }

    /** connectDbHandle: the cached database, else the helper's writable database, cached. */
    method ConnectDbHandle() returns (r: Result<ObjId, ContainerError>)
      requires Valid()
      modifies container.infra`openHelper, container.infra`db
      ensures Valid()
      ensures r.Success? <==> old(container.DbOk())
      ensures r.Success? ==> container.infra.db == Some(r.value)
      ensures r.Success? ==> r.value == if old(container.infra.db).Some? then old(container.infra.db).value else container.infra.database
    {
      r := container.infra.ConnectDbHandle(container.md, container.heap.classOf, container.beans);
    }

    /** getBean: the registry slot of the class only; there is no fallback to the active activities. */
    function GetBean(c: ClassName): (r: Option<ObjId>)
      reads this, container
      ensures r.Some? <==> c in container.beans && container.beans[c].Some?
      ensures r.Some? ==> r.value in Instances(container.beans)
      ensures c in container.activeActivities && Lookup(container.beans, c).None? ==> r.None?
    {
      if c in container.beans && container.beans[c].Some? then
        assert container.beans[c].value in Instances(container.beans);
        container.beans[c]
      else None
    }

    // ---------------------------------------------------------------- listeners

    /** registerDeleteListener: one listener per model class; a new one replaces the old. */
    method RegisterDeleteListener(c: ClassName, dac: ObjId)
      modifies this`deleteListeners
      ensures deleteListeners == old(deleteListeners)[c := dac]
    {
      deleteListeners := deleteListeners[c := dac];
    }

    /**
     * emitDeleteEvent: onDelete on the class's listener, if any; a
     * listener that throws (`throws`) is removed and nothing propagates.
     */
    method EmitDeleteEvent(c: ClassName, throws: bool)
      modifies this`deleteListeners, container.heap`log
      ensures container.heap.log == old(container.heap.log) + EmitCall(old(deleteListeners), c, "onDelete", [])
      ensures deleteListeners == AfterEmit(old(deleteListeners), c, throws)
    {
      if c in deleteListeners {
        var dac := deleteListeners[c];
        container.heap.Invoke(dac, "onDelete", []);
        if throws {
          deleteListeners := deleteListeners - {c};
        }
      }
    }

    /** registerSetChangeListener: one listener per model class; a new one replaces the old. */
    method RegisterSetChangeListener(c: ClassName, dac: ObjId)
      modifies this`changeListeners
      ensures changeListeners == old(changeListeners)[c := dac]
    {
      changeListeners := changeListeners[c := dac];
    }

    /** emitSetChangeEvent: onChange() on the class's listener, if any, removing it when it throws. */
    method EmitSetChangeEvent(c: ClassName, throws: bool)
      modifies this`changeListeners, container.heap`log
      ensures container.heap.log == old(container.heap.log) + EmitCall(old(changeListeners), c, "onChange", [])
      ensures changeListeners == AfterEmit(old(changeListeners), c, throws)
    {
      if c in changeListeners {
        var dac := changeListeners[c];
        container.heap.Invoke(dac, "onChange", []);
        if throws {
          changeListeners := changeListeners - {c};
        }
      }
    }

    // ---------------------------------------------------------------- destroy

    /** destroy(force) lowers refCount and shuts the context down at zero or when forced. */
    predicate ShutsDown(force: bool)
      reads this
    {
      refCount - 1 == 0 || force
    }

    /**
     * unregisterActivityLifecycleCallbacks(callbacks): the first
     * registration of the callback object goes; a null callbacks removes
     * nothing.
     */
    method UnregisterCallbacks()
      requires Valid()
      modifies this`registered
      ensures Valid()
      ensures registered == if callbacks.Some? then JavaUtil.RemoveFirst(old(registered), callbacks.value) else old(registered)
      ensures callbacks.Some? && callbacks.value in old(registered) ==> |registered| == |old(registered)| - 1
    {
      if callbacks.Some? {
        JavaUtil.RemoveFirstCount(registered, callbacks.value);
        registered := JavaUtil.RemoveFirst(registered, callbacks.value);
        forall i | 0 <= i < |registered|
          ensures registered[i] < created
        {
          assert registered[i] in multiset(old(registered));
        }
      }
    }

    /**
     * The part of destroy after shutdownContext: the callback object is
     * unregistered, the database handle (connected anew if need be) is
     * closed, the listener tables are cleared, db is nulled and semaphore
     * and init are reset. A missing application instance or a failing
     * connectDbHandle ends it early with the exception.
     */
    method ReleaseAfterShutdown() returns (thrown: Option<ContainerError>)
      requires Valid()
      modifies this`registered, this`deleteListeners, this`changeListeners, this`semaphore, this`init,
               container.heap`log, container.infra`db, container.infra`openHelper
      ensures Valid()
      ensures container.infra.instance.None? ==> thrown == Some(NullPointerException) && registered == old(registered)
      ensures container.infra.instance.Some? ==>
        registered == if old(callbacks).Some? then JavaUtil.RemoveFirst(old(registered), old(callbacks).value) else old(registered)
      ensures container.infra.instance.Some? ==> (thrown.None? <==> old(container.DbOk()))
      ensures thrown.Some? ==>
        deleteListeners == old(deleteListeners) && changeListeners == old(changeListeners) && init == old(init)
        && container.heap.log == old(container.heap.log)
      ensures thrown.None? ==>
        deleteListeners == map[] && changeListeners == map[] && container.infra.db.None? && !init
        && container.heap.log == old(container.heap.log)
                                 + [Invoked(if old(container.infra.db).Some? then old(container.infra.db).value else container.infra.database, "close", [])]
    {
      if container.infra.instance.None? {
        return Some(NullPointerException);
      }
      UnregisterCallbacks();
      var r := ConnectDbHandle();
      if r.Failure? {
        return Some(r.error);
      }
      container.heap.Invoke(r.value, "close", []);
      deleteListeners := map[];
      changeListeners := map[];
      container.infra.db := None;
      semaphore := false;
      init := false;
      thrown := None;
    }

    /**
     * destroy(force): refCount goes down by one and is never reset. At
     * zero, or when forced, shutdownContext runs (onDestroy hooks, every
     * instance outjected, every slot emptied) and then the release steps.
     */
    method Destroy(force: bool) returns (thrown: Option<ContainerError>, ghost keys: seq<ClassName>)
      requires Valid()
      modifies this`refCount, this`registered, this`deleteListeners, this`changeListeners, this`semaphore, this`init,
               container`beans, container.heap`log, container.heap`store, container.infra`db, container.infra`openHelper
      ensures Valid() && refCount == old(refCount) - 1
      ensures !old(ShutsDown(force)) ==>
        thrown.None? && container.beans == old(container.beans) && container.heap.store == old(container.heap.store)
        && container.heap.log == old(container.heap.log) && init == old(init) && registered == old(registered)
        && deleteListeners == old(deleteListeners) && changeListeners == old(changeListeners)
      ensures old(ShutsDown(force)) ==>
        container.beans == (map k | k in old(container.beans) :: None)
        && OutjectedExactly(container.md, container.heap.classOf, old(container.beans).Keys, old(container.heap.store),
                            container.heap.store, Instances(old(container.beans)))
        && Distinct(keys) && (forall k :: k in keys <==> k in old(container.beans))
        && var hooks := old(container.heap.log)
             + HookCalls(container.md, container.heap.classOf, SlotsAt(old(container.beans), keys), DESTROYABLE, "onDestroy");
           |hooks| <= |container.heap.log| && container.heap.log[..|hooks|] == hooks
      ensures old(ShutsDown(force)) && container.infra.instance.Some? ==>
        (thrown.None? <==> old(container.infra.db).Some? || old(container.infra.openHelper).Some?)
      ensures old(ShutsDown(force)) && thrown.None? ==>
        deleteListeners == map[] && changeListeners == map[] && container.infra.db.None? && !init
      ensures thrown.Some? ==> init == old(init) && deleteListeners == old(deleteListeners) && changeListeners == old(changeListeners)
    {
      keys := [];
      refCount := refCount - 1;
      if refCount == 0 || force {
        keys := container.ShutdownContext();
        ghost var log := container.heap.log;
        ShutdownBlocksHelper();
        thrown := ReleaseAfterShutdown();
        assert log[..|log|] == log;
      } else {
        thrown := None;
      }
    }

    /** After shutdownContext every slot is null, so only a cached handle can still be obtained. */
    lemma ShutdownBlocksHelper()
      requires forall k :: k in container.beans ==> container.beans[k].None?
      ensures container.DbOk() <==> container.infra.db.Some? || container.infra.openHelper.Some?
    {
      assert HelperBeans(container.md, BARACUS_OPEN_HELPER, container.heap.classOf, container.beans) == {};
    }
  }
}
