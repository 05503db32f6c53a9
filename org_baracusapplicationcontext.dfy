/**
 * org/baracus/context/BaracusApplicationContext.java: the static side of
 * the org tree's application class. Beside what the net tree keeps (the
 * container, the init / semaphore / refCount flags, the callback object
 * registered with the Android Application, the delete and set-change
 * tables) it holds the data-change and generic-event listener sets, the
 * validation and error-handling factories picked from the container, and
 * an optional ApplicationContextInitializer. The Android callbacks are
 * methods called explicitly; the Application's callback list is the
 * sequence of callback objects registered with it; the string resources
 * are a table from resource id to text.
 */
module OrgBaracusApplicationContext {
  import opened JavaLang
  import opened JavaReflection
  import JavaUtil
  import opened BeanInjection
  import opened ContainerCore
  import opened OrgBeanContainer
  import opened ListenerTables
  import MessageArgs

  const CONFIGURATION_DAO: ClassName := "org.baracus.dao.ConfigurationDao"
  const VALIDATION_FACTORY: ClassName := "org.baracus.validation.ValidationFactory"
  const ERROR_HANDLING_FACTORY: ClassName := "org.baracus.errorhandling.ErrorHandlingFactory"

  /** Why resolveString fails: no application instance (NullPointerException), or getString's Resources.NotFoundException. */
  datatype ResourceError = InstanceMissing | ResourcesNotFoundException(msgId: int)

  /** The static state of BaracusApplicationContext. */
  class ApplicationContext {
    /** beanContainer */
    const container: BeanContainer
    /** The string resources getString answers from. */
    const resources: map<int, string>
    var semaphore: bool
    var refCount: int
    var init: bool
    /** callbacks: the callback object make() created last. */
    var callbacks: Option<nat>
    /** The callback objects registered with the Application, in registration order. */
    var registered: seq<nat>
    /** How many callback objects make() has created; they are numbered from 0. */
    var created: nat
    var deleteListeners: map<ClassName, ObjId>
    /** changeListener */
    var changeListeners: map<ClassName, ObjId>
    /** dataListener: model class -> its DataChangeAwareComponents. */
    var dataListeners: map<ClassName, set<ObjId>>
    /** eventConsumers: event class -> its GenericEventAwareComponents. */
    var eventConsumers: map<ClassName, set<ObjId>>
    var validationFactory: Option<ObjId>
    var errorHandlingFactory: Option<ObjId>
    /** applicationContextInitializer */
    var initializer: Option<ObjId>

    /** The container is consistent; every registered callback object is one make() created; the initializer is an object. */
    ghost predicate Valid()
      reads this, container, container.heap
    {
      container.Valid()
      && (callbacks.Some? ==> callbacks.value < created)
      && (forall i :: 0 <= i < |registered| ==> registered[i] < created)
      && (initializer.Some? ==> initializer.value in container.heap.classOf)
    }

    /** The static initializer: ConfigurationDao, ValidationFactory and ErrorHandlingFactory are registered first. */
    constructor(md: Metadata, heap: Heap, infra: Infrastructure, resources: map<int, string>)
      requires heap.Valid() && infra.helperClass == BARACUS_OPEN_HELPER
      ensures Valid() && !init && !semaphore && refCount == 0 && callbacks.None? && registered == [] && created == 0
      ensures container.md == md && container.heap == heap && container.infra == infra && this.resources == resources
      ensures container.beans == map[CONFIGURATION_DAO := None, VALIDATION_FACTORY := None, ERROR_HANDLING_FACTORY := None]
      ensures container.interfaceMap == map[] && container.knownFragments == {}
      ensures container.activeActivities == map[] && container.pausedActivities == map[] && container.existingActivities == map[]
      ensures deleteListeners == map[] && changeListeners == map[] && dataListeners == map[] && eventConsumers == map[]
      ensures validationFactory.None? && errorHandlingFactory.None? && initializer.None?
    {
      container := new BeanContainer(md, heap, infra);
      this.resources := resources;
      semaphore := false;
      refCount := 0;
      init := false;
      callbacks := None;
      registered := [];
      created := 0;
      deleteListeners := map[];
      changeListeners := map[];
      dataListeners := map[];
      eventConsumers := map[];
      validationFactory := None;
      errorHandlingFactory := None;
      initializer := None;
      new;
      container.RegisterBeanClass(CONFIGURATION_DAO);
      container.RegisterBeanClass(VALIDATION_FACTORY);
      container.RegisterBeanClass(ERROR_HANDLING_FACTORY);
    }

    /**
     * The constructor of the application object `app`: a second one throws
     * ContainerAlreadyStartedException and changes nothing; the first
     * becomes __instance, then make() runs.
     */
    method Construct(app: ObjId) returns (thrown: Option<ContainerError>)
      requires Valid()
      modifies container.infra`instance, this`semaphore, this`callbacks, this`created, this`registered, this`refCount
      ensures Valid()
      ensures old(container.infra.instance).Some? ==>
        thrown == Some(ContainerAlreadyStartedException) && container.infra.instance == old(container.infra.instance)
        && semaphore == old(semaphore) && callbacks == old(callbacks) && registered == old(registered) && refCount == old(refCount)
      ensures old(container.infra.instance).None? ==>
        thrown.None? && container.infra.instance == Some(app) && !semaphore && refCount == old(refCount) + 1
      ensures old(container.infra.instance).None? && !old(semaphore) ==>
        callbacks == Some(old(created)) && registered == old(registered) + [old(created)]
    {
      if container.infra.instance.Some? {
        return Some(ContainerAlreadyStartedException);
      }
      container.infra.instance := Some(app);
      thrown := Make();
    }

    /**
     * make(): unless semaphore is set, semaphore is raised, a new callback
     * object is created and registered with the application instance (a
     * missing instance throws NullPointerException there and leaves
     * semaphore raised); then semaphore is lowered and refCount grows by
     * one. After a make() that threw, the next one registers nothing.
     */
    method Make() returns (thrown: Option<ContainerError>)
      requires Valid()
      modifies this`semaphore, this`callbacks, this`created, this`registered, this`refCount
      ensures Valid()
      ensures old(semaphore) ==>
        thrown.None? && !semaphore && callbacks == old(callbacks) && created == old(created)
        && registered == old(registered) && refCount == old(refCount) + 1
      ensures !old(semaphore) ==> callbacks == Some(old(created)) && created == old(created) + 1 && old(created) !in old(registered)
      ensures !old(semaphore) && container.infra.instance.None? ==>
        thrown == Some(NullPointerException) && semaphore && registered == old(registered) && refCount == old(refCount)
      ensures !old(semaphore) && container.infra.instance.Some? ==>
        thrown.None? && !semaphore && registered == old(registered) + [old(created)] && refCount == old(refCount) + 1
    {
      if !semaphore {
        semaphore := true;
        callbacks := Some(created);
        created := created + 1;
        if container.infra.instance.None? {
          return Some(NullPointerException);
        }
        registered := registered + [callbacks.value];
      }
      semaphore := false;
      refCount := refCount + 1;
      thrown := None;
    }

    /**
     * The tail of initApplicationContext: the factories are looked up with
     * getBean, and an initializer, if set, is injected (a failure
     * propagating) and told afterContextIsBuilt.
     */
    method FinishInit() returns (thrown: Option<ContainerError>)
      requires Valid()
      modifies this`validationFactory, this`errorHandlingFactory, container.heap`store, container.heap`log,
               container.infra`db, container.infra`openHelper
      ensures Valid()
      ensures validationFactory == old(container.GetBean(VALIDATION_FACTORY))
      ensures errorHandlingFactory == old(container.GetBean(ERROR_HANDLING_FACTORY))
      ensures initializer.None? ==> thrown.None? && container.heap.store == old(container.heap.store) && container.heap.log == old(container.heap.log)
      ensures initializer.Some? ==>
        container.heap.store == old(container.heap.store)[initializer.value := container.heap.store[initializer.value]]
      ensures initializer.Some? ==> (thrown.None? <==> old(container.Injectable(initializer.value)))
      ensures initializer.Some? && thrown.None? ==>
        container.InjectedFrom(old(container.heap.store), initializer.value)
        && container.heap.log == old(container.heap.log) + [Invoked(initializer.value, "afterContextIsBuilt", [])]
    {
      validationFactory := container.GetBean(VALIDATION_FACTORY);
      errorHandlingFactory := container.GetBean(ERROR_HANDLING_FACTORY);
      thrown := None;
      if initializer.Some? {
        thrown := container.PerformInjection(initializer);
        if thrown.Some? {
          return;
        }
        container.heap.Invoke(initializer.value, "afterContextIsBuilt", []);
      }
    }

    /** Built (see ContainerCore) for this container, its active activities and its current store. */
    ghost predicate BuiltFrom(created: map<ObjId, Fields>, injected: map<ObjId, Fields>, reinjected: set<ObjId>, h: Handles)
      reads this, container, container.heap
    {
      Built(container.md, ORG, container.heap.classOf, container.beans, container.activeActivities.Values,
            created, injected, container.heap.store, reinjected, h)
    }

    /** The initializer as a set: the one object FinishInit injects again. */
    function InitializerSet(): set<ObjId>
      reads this
    {
      if initializer.Some? then {initializer.value} else {}
    }

    /**
     * createInstances, seen from the context: no registered class is lost,
     * a bound implementation class may join (none when every binding was
     * registered), every slot is filled and filled slots are kept.
     */
    method CreateAll() returns (thrown: Option<ContainerError>)
      requires Valid()
      modifies container.heap, container`beans, container`knownFragments
      ensures Valid() && container.interfaceMap == old(container.interfaceMap)
      ensures thrown.None? ==>
        old(container.beans).Keys <= container.beans.Keys <= old(container.beans).Keys + container.interfaceMap.Values
        && (old(container.BindingsRegistered()) ==> container.beans.Keys == old(container.beans).Keys)
        && (forall k :: k in container.beans ==> container.beans[k].Some?)
        && FilledKept(old(container.beans), container.beans)
    {
      thrown := container.CreateInstances();
    }

    /** performInjections, performPostConstuct and treatKnownUiComponents, over the instances createInstances left. */
    method WireContainer()
      returns (thrown: Option<ContainerError>, ghost order: seq<Option<ObjId>>,
               ghost injected: map<ObjId, Fields>, ghost fragments: set<ObjId>, ghost h: Handles)
      requires Valid()
      modifies container.heap`store, container.heap`log, container`knownFragments, container.infra`db, container.infra`openHelper
      ensures Valid()
      ensures thrown.None? ==> BuiltFrom(old(container.heap.store), injected, fragments, h)
      ensures thrown.None? ==> Distinct(order) && (forall x :: x in order <==> x in container.beans.Values)
      ensures thrown.None? ==>
        container.heap.log == old(container.heap.log) + HookCalls(container.md, container.heap.classOf, order, INITIALIZEABLE, "postConstruct")
    {
      order, injected, fragments, h := [], map[], {}, container.infra.Now();
      thrown := container.PerformInjections();
      if thrown.Some? {
        return;
      }
      injected := container.heap.store;
      fragments := container.knownFragments;
      h := container.infra.Now();
      order := container.PerformPostConstuct();
      thrown := container.TreatKnownUiComponents();
      if thrown.None? {
        BuiltFromParts(container.md, ORG, container.heap.classOf, container.beans, container.activeActivities.Values,
                       old(container.heap.store), injected, container.heap.store, fragments, h);
      }
    }

    /** The calls FinishInit appends after the build: afterContextIsBuilt on the initializer, if there is one. */
    function AfterBuilt(): seq<Call>
      reads this
    {
      if initializer.Some? then [Invoked(initializer.value, "afterContextIsBuilt", [])] else []
    }

    /**
     * What a successful build leaves, compared with the registry b0 it
     * started from: no registered class is lost (and none joins when every
     * binding was registered, `bindings`), every slot holds an instance, a
     * slot that held one still holds it, every instance was injected (see
     * BuiltFrom), and the log ends with the postConstruct calls over the
     * instances in `order`, followed by `tail`.
     */
    ghost predicate Initialised(b0: map<ClassName, Option<ObjId>>, bindings: bool, order: seq<Option<ObjId>>,
                                created: map<ObjId, Fields>, injected: map<ObjId, Fields>, reinjected: set<ObjId>, h: Handles,
                                tail: seq<Call>)
      reads this, container, container.heap
    {
      b0.Keys <= container.beans.Keys <= b0.Keys + container.interfaceMap.Values
      && (bindings ==> container.beans.Keys == b0.Keys)
      && (forall k :: k in container.beans ==> container.beans[k].Some?)
      && FilledKept(b0, container.beans)
      && BuiltFrom(created, injected, reinjected, h)
      && Distinct(order) && (forall x :: x in order <==> x in container.beans.Values)
      && EndsWith(container.heap.log, HookCalls(container.md, container.heap.classOf, order, INITIALIZEABLE, "postConstruct") + tail)
    }

    /**
     * The container steps of initApplicationContext: createInstances,
     * performInjections, performPostConstuct and treatKnownUiComponents in
     * turn, the first failure propagating; on success the container is
     * Initialised, with only the fragments injected again.
     */
    method BuildContainer()
      returns (thrown: Option<ContainerError>, ghost order: seq<Option<ObjId>>,
               ghost created: map<ObjId, Fields>, ghost injected: map<ObjId, Fields>, ghost fragments: set<ObjId>, ghost h: Handles)
      requires Valid()
      modifies container.heap, container`beans, container`knownFragments, container.infra`db, container.infra`openHelper
      ensures Valid() && container.interfaceMap == old(container.interfaceMap)
      ensures thrown.None? ==>
        Initialised(old(container.beans), old(container.BindingsRegistered()), order, created, injected, fragments, h, [])
    {
      order, injected, fragments, h := [], map[], {}, container.infra.Now();
      thrown := CreateAll();
      created := container.heap.store;
      if thrown.Some? {
        return;
      }
      ghost var log0 := container.heap.log;
      thrown, order, injected, fragments, h := WireContainer();
      if thrown.None? {
        EndsWithAppend(log0, [], HookCalls(container.md, container.heap.classOf, order, INITIALIZEABLE, "postConstruct"));
      }
    }

    /**
     * initApplicationContext: once, while init is false, the container is
     * built, then the factories and the initializer are seen to; the first
     * failure propagates and init is set after all of them. With init set
     * it does nothing. On success the container is Initialised, with the
     * fragments and the initializer injected again and afterContextIsBuilt
     * last in the log.
     */
    method InitApplicationContext()
      returns (thrown: Option<ContainerError>, ghost order: seq<Option<ObjId>>,
               ghost created: map<ObjId, Fields>, ghost injected: map<ObjId, Fields>, ghost fragments: set<ObjId>, ghost h: Handles)
      requires Valid()
      modifies container.heap, container`beans, container`knownFragments, container.infra`db, container.infra`openHelper,
               this`init, this`validationFactory, this`errorHandlingFactory
      ensures Valid()
      ensures old(init) ==>
        thrown.None? && init && container.beans == old(container.beans) && container.knownFragments == old(container.knownFragments)
        && container.heap.classOf == old(container.heap.classOf) && container.heap.store == old(container.heap.store)
        && container.heap.log == old(container.heap.log)
      ensures !old(init) ==> (init <==> thrown.None?)
      ensures !old(init) && thrown.None? ==>
        Initialised(old(container.beans), old(container.BindingsRegistered()), order, created, injected,
                    fragments + InitializerSet(), h, AfterBuilt())
      ensures !old(init) && thrown.None? && VALIDATION_FACTORY in container.beans ==>
        validationFactory == container.beans[VALIDATION_FACTORY]
      ensures !old(init) && thrown.None? && ERROR_HANDLING_FACTORY in container.beans ==>
        errorHandlingFactory == container.beans[ERROR_HANDLING_FACTORY]
    {
      if init {
        thrown, order, created, injected, fragments, h := None, [], map[], map[], {}, container.infra.Now();
        return;
      }
      ghost var b0, bindings := container.beans, container.BindingsRegistered();
      thrown, order, created, injected, fragments, h := BuildContainer();
      if thrown.Some? {
        return;
      }
      thrown := FinishInitKeeping(b0, bindings, order, created, injected, fragments, h);
      if thrown.Some? {
        return;
      }
      init := true;
    }

    /** FinishInit after a successful build: the container stays Initialised, the initializer joining the objects injected again. */
    method FinishInitKeeping(ghost b0: map<ClassName, Option<ObjId>>, ghost bindings: bool, ghost order: seq<Option<ObjId>>,
                             ghost created: map<ObjId, Fields>, ghost injected: map<ObjId, Fields>, ghost fragments: set<ObjId>,
                             ghost h: Handles)
      returns (thrown: Option<ContainerError>)
      requires Valid() && Initialised(b0, bindings, order, created, injected, fragments, h, [])
      modifies this`validationFactory, this`errorHandlingFactory, container.heap`store, container.heap`log,
               container.infra`db, container.infra`openHelper
      ensures Valid()
      ensures validationFactory == container.GetBean(VALIDATION_FACTORY)
      ensures errorHandlingFactory == container.GetBean(ERROR_HANDLING_FACTORY)
      ensures thrown.None? ==> Initialised(b0, bindings, order, created, injected, fragments + InitializerSet(), h, AfterBuilt())
    {
      ghost var store0 := container.heap.store;
      ghost var log0 := container.heap.log;
      ghost var calls := HookCalls(container.md, container.heap.classOf, order, INITIALIZEABLE, "postConstruct");
      thrown := FinishInit();
      if thrown.Some? {
        return;
      }
      if initializer.Some? {
        BuiltReinjected(container.md, ORG, container.heap.classOf, container.beans, container.activeActivities.Values,
                        created, injected, store0, container.heap.store, fragments, h, initializer.value);
        assert calls + [] == calls;
        EndsWithAppend(log0, calls, AfterBuilt());
      } else {
        assert fragments + InitializerSet() == fragments && calls + AfterBuilt() == calls + [];
      }
    }

    /**
     * reinitializeContext: init is cleared and initApplicationContext runs
     * in full, so the outcome is that of a first initialisation.
     */
    method ReinitializeContext()
      returns (thrown: Option<ContainerError>, ghost order: seq<Option<ObjId>>,
               ghost created: map<ObjId, Fields>, ghost injected: map<ObjId, Fields>, ghost fragments: set<ObjId>, ghost h: Handles)
      requires Valid()
      modifies container.heap, container`beans, container`knownFragments, container.infra`db, container.infra`openHelper,
               this`init, this`validationFactory, this`errorHandlingFactory
      ensures Valid()
      ensures init <==> thrown.None?
      ensures thrown.None? ==>
        Initialised(old(container.beans), old(container.BindingsRegistered()), order, created, injected,
                    fragments + InitializerSet(), h, AfterBuilt())
      ensures thrown.None? && VALIDATION_FACTORY in container.beans ==> validationFactory == container.beans[VALIDATION_FACTORY]
      ensures thrown.None? && ERROR_HANDLING_FACTORY in container.beans ==> errorHandlingFactory == container.beans[ERROR_HANDLING_FACTORY]
    {
      init := false;
      thrown, order, created, injected, fragments, h := InitApplicationContext();
    }

    // ---------------------------------------------------------------- activity lifecycle callbacks

    /**
     * onActivityCreated: the activity joins the existing activities, the
     * context is built if it was not yet, and the activity is injected.
     */
    method OnActivityCreated(a: ObjId) returns (thrown: Option<ContainerError>)
      requires Valid() && a in container.heap.classOf
      modifies container.heap, container`beans, container`knownFragments, container`existingActivities,
               container.infra`db, container.infra`openHelper, this`init, this`validationFactory, this`errorHandlingFactory
      ensures Valid()
      ensures container.existingActivities == PutActivity(old(container.existingActivities), old(container.heap.classOf), a)
      ensures thrown.None? ==> init
      ensures old(init) ==> container.heap.store == old(container.heap.store)[a := container.heap.store[a]]
      ensures old(init) ==> (thrown.None? <==> old(container.Injectable(a)))
      ensures old(init) && thrown.None? ==> container.InjectedFrom(old(container.heap.store), a)
    {
      container.AddExistingActivity(a);
      var failed := InitialiseOnDemand();
      if failed.Some? {
        return failed;
      }
      thrown := container.PerformInjection(Some(a));
    }

    /** The first step of onActivityCreated: the context is built unless it already was. */
    method InitialiseOnDemand() returns (thrown: Option<ContainerError>)
      requires Valid()
      modifies container.heap, container`beans, container`knownFragments, container.infra`db, container.infra`openHelper,
               this`init, this`validationFactory, this`errorHandlingFactory
      ensures Valid()
      ensures thrown.None? ==> init
      ensures old(init) ==>
        thrown.None? && container.beans == old(container.beans) && container.heap.classOf == old(container.heap.classOf)
        && container.heap.store == old(container.heap.store) && container.infra.Now() == old(container.infra.Now())
    {
      if !init {
        var failed, _, _, _, _, _ := InitApplicationContext();
        thrown := failed;
      } else {
        thrown := None;
      }
    }

    /** onActivityStarted: the activity becomes the active one of its class. */
    method OnActivityStarted(a: ObjId)
      requires Valid() && a in container.heap.classOf
      modifies container`activeActivities
      ensures Valid() && container.activeActivities == PutActivity(old(container.activeActivities), container.heap.classOf, a)
    {
      container.AddActiveActivity(a);
    }

    /** onActivityResumed: the activity's class leaves the paused activities and the activity is injected again. */
    method OnActivityResumed(a: ObjId) returns (thrown: Option<ContainerError>)
      requires Valid() && a in container.heap.classOf
      modifies container`pausedActivities, container.heap`store, container.infra`db, container.infra`openHelper
      ensures Valid() && container.pausedActivities == DropActivity(old(container.pausedActivities), container.heap.classOf, a)
      ensures container.heap.store == old(container.heap.store)[a := container.heap.store[a]]
      ensures thrown.None? <==> old(container.Injectable(a))
      ensures thrown.None? ==> container.InjectedFrom(old(container.heap.store), a)
    {
      container.RemovePausedActivity(a);
      thrown := container.PerformInjection(Some(a));
    }

    /** onActivityPaused: the activity becomes the paused one of its class. */
    method OnActivityPaused(a: ObjId)
      requires Valid() && a in container.heap.classOf
      modifies container`pausedActivities
      ensures Valid() && container.pausedActivities == PutActivity(old(container.pausedActivities), container.heap.classOf, a)
    {
      container.AddPausedActivity(a);
    }

    /** onActivityStopped: the activity's class leaves the active activities and the activity is outjected. */
    method OnActivityStopped(a: ObjId)
      requires Valid() && a in container.heap.classOf
      modifies container`activeActivities, container.heap`store
      ensures Valid() && container.activeActivities == DropActivity(old(container.activeActivities), container.heap.classOf, a)
      ensures container.heap.store == old(container.heap.store)[a := container.heap.store[a]]
      ensures SameReads(container.heap.store[a],
                        Outjected(old(container.heap.store[a]), container.FieldsOf(a), container.beans.Keys))
    {
      container.RemoveActiveActivity(a);
      container.PerformOutjectionOn(a);
    }

    /** onActivityDestroyed: the activity's class leaves the existing activities. */
    method OnActivityDestroyed(a: ObjId)
      requires Valid() && a in container.heap.classOf
      modifies container`existingActivities
      ensures Valid() && container.existingActivities == DropActivity(old(container.existingActivities), container.heap.classOf, a)
    {
      container.RemoveExistingActivity(a);
    }

    // ---------------------------------------------------------------- resources, handles and beans

    /**
     * resolveString(msgId, vars...): the resource text with "$1".."$n"
     * replaced by the arguments in turn; a null or empty argument array
     * leaves the text as it is.
     */
    method ResolveString(msgId: int, vars: Option<seq<string>>) returns (r: Result<string, ResourceError>)
      ensures container.infra.instance.None? ==> r == Failure(InstanceMissing)
      ensures container.infra.instance.Some? && msgId !in resources ==> r == Failure(ResourcesNotFoundException(msgId))
      ensures container.infra.instance.Some? && msgId in resources ==>
        r == Success(MessageArgs.Substituted(resources[msgId], if vars.Some? then vars.value else []))
    {
      if container.infra.instance.None? {
        return Failure(InstanceMissing);
      }
      if msgId !in resources {
        return Failure(ResourcesNotFoundException(msgId));
      }
      var rawMsg := resources[msgId];
      if vars.Some? && |vars.value| > 0 {
        var args := vars.value;
        var i := 0;
        while i < |args|
          invariant 0 <= i <= |args|
          invariant rawMsg == MessageArgs.Substituted(resources[msgId], args[..i])
        {
          assert args[..i + 1][..i] == args[..i];
          rawMsg := Replace(rawMsg, "$" + IntToString(i + 1), args[i]);
          i := i + 1;
        }
        assert args[..i] == args;
      }
      r := Success(rawMsg);
    }

    /** resolveString(msgId, var): only "$1" is replaced, which is what the array form does with one argument. */
    method ResolveStringWith(msgId: int, arg: string) returns (r: Result<string, ResourceError>)
      ensures container.infra.instance.None? ==> r == Failure(InstanceMissing)
      ensures container.infra.instance.Some? && msgId !in resources ==> r == Failure(ResourcesNotFoundException(msgId))
      ensures container.infra.instance.Some? && msgId in resources ==>
        r == Success(MessageArgs.Substituted(resources[msgId], [arg]))
    {
      if container.infra.instance.None? {
        return Failure(InstanceMissing);
      }
      if msgId !in resources {
        return Failure(ResourcesNotFoundException(msgId));
      }
      assert [arg][..0] == [];
      assert MessageArgs.Placeholder(1) == "$1";
      r := Success(Replace(resources[msgId], "$1", arg));
    }

    /** connectOpenHelper: the cached helper, else the last registered helper instance, cached. */
    method ConnectOpenHelper() returns (r: Result<ObjId, ContainerError>)
      requires Valid()
      modifies container.infra`openHelper
      ensures Valid()
      ensures r.Success? <==> old(container.HelperOk())
      ensures old(container.infra.openHelper).Some? ==> r == Success(old(container.infra.openHelper).value)
      ensures r.Success? ==> container.infra.openHelper == Some(r.value)
      ensures r.Success? && old(container.infra.openHelper).None? ==>
        r.value in HelperBeans(container.md, BARACUS_OPEN_HELPER, container.heap.classOf, container.beans)
      ensures r.Failure? ==> r.error == if HasNull(container.beans) then NullPointerException else ContextNotYetCreatedException
    {
      r := container.infra.ConnectOpenHelper(container.md, container.heap.classOf, container.beans);
    }

    /** connectDbHandle: the cached database, else the helper's writable database, cached. */
    method ConnectDbHandle() returns (r: Result<ObjId, ContainerError>)
      requires Valid()
      modifies container.infra`openHelper, container.infra`db
      ensures Valid()
      ensures r.Success? <==> old(container.DbOk())
      ensures r.Success? ==> container.infra.db == Some(r.value)
      ensures r.Success? ==> r.value == if old(container.infra.db).Some? then old(container.infra.db).value else container.infra.database
    {
      r := container.infra.ConnectDbHandle(container.md, container.heap.classOf, container.beans);
    }

    /** getBean: the container's lookup, with its fallback to the active activity of exactly that class. */
    function GetBean(c: ClassName): (r: Option<ObjId>)
      reads this, container, container.heap
      requires Valid()
      ensures Lookup(container.beans, c).Some? ==> r == Lookup(container.beans, c)
      ensures Lookup(container.beans, c).None? ==> (r.Some? <==> c in container.activeActivities)
      ensures r.Some? ==> r.value in container.heap.classOf
    {
      container.GetBean(c)
    }

    /** performInjectionsOn: performInjection, skipped while semaphore is raised. */
    method PerformInjectionsOn(o: Option<ObjId>) returns (thrown: Option<ContainerError>)
      requires Valid() && (o.Some? ==> o.value in container.heap.classOf)
      modifies container.heap`store, container.infra`db, container.infra`openHelper
      ensures Valid()
      ensures semaphore ==> thrown.None? && container.heap.store == old(container.heap.store)
      ensures !semaphore && o.None? ==> thrown == Some(NullPointerException) && container.heap.store == old(container.heap.store)
      ensures !semaphore && o.Some? ==>
        container.heap.store == old(container.heap.store)[o.value := container.heap.store[o.value]]
        && (thrown.None? <==> old(container.Injectable(o.value)))
        && (thrown.None? ==> container.InjectedFrom(old(container.heap.store), o.value))
    {
      thrown := None;
      if !semaphore {
        thrown := container.PerformInjection(o);
      }
    }

    /**
     * createPrototypeBean: a new, unregistered instance through
     * instantiatePojo, injected through performInjectionsOn and given
     * postConstruct; any failure comes out wrapped in IntantiationException.
     */
    method CreatePrototypeBean(c: ClassName) returns (r: Result<ObjId, ContainerError>)
      requires Valid()
      modifies container.heap, container.infra`db, container.infra`openHelper
      ensures Valid() && container.beans == old(container.beans)
      ensures r.Failure? ==> r.error.IntantiationException?
      ensures !old(container.Instantiable(c)) ==>
        r.Failure? && container.heap.classOf == old(container.heap.classOf) && container.heap.log == old(container.heap.log)
      ensures semaphore && old(container.Instantiable(c)) ==> r.Success?
      ensures r.Success? ==>
        r.value !in old(container.heap.classOf) && container.heap.classOf == old(container.heap.classOf)[r.value := c]
        && container.heap.log == old(container.heap.log) + [Constructed(r.value, ChosenCtor(container.md, c).value)]
                                 + HookCall(container.md, container.heap.classOf, Some(r.value), INITIALIZEABLE, "postConstruct")
      ensures r.Success? && !semaphore ==> container.InjectedFrom(old(container.heap.store)[r.value := map[]], r.value)
    {
      var p := container.InstantiatePojo(c);
      if p.Failure? {
        return Failure(IntantiationException(p.error));
      }
      var t := PerformInjectionsOn(Some(p.value));
      if t.Some? {
        return Failure(IntantiationException(t.value));
      }
      container.PerformPostConstructOn(Some(p.value));
      r := Success(p.value);
    }

    /** setApplicationContextInitializer */
    method SetApplicationContextInitializer(i: Option<ObjId>)
      requires Valid() && (i.Some? ==> i.value in container.heap.classOf)
      modifies this`initializer
      ensures Valid() && initializer == i
    {
      initializer := i;
    }

    /** The held instances assignable to t. */
    ghost predicate Assignable(o: ObjId, t: ClassName)
      reads container.heap
    {
      o in container.heap.classOf && IsAssignableFrom(container.md, t, container.heap.classOf[o])
    }

    /**
     * getBeansOfType: every held instance assignable to t, once per class
     * holding it, in the map's iteration order; a class whose slot is
     * still null throws NullPointerException at getClass().
     */
    method GetBeansOfType(t: ClassName) returns (r: Result<seq<ObjId>, ContainerError>)
      requires Valid()
      ensures r.Failure? <==> HasNull(container.beans)
      ensures r.Failure? ==> r.error == NullPointerException
      ensures r.Success? ==> |r.value| <= |container.beans|
      ensures r.Success? ==> forall o :: o in r.value <==> o in Instances(container.beans) && Assignable(o, t)
    {
      var beans := container.beans;
      var remaining := beans.Keys;
      var result := [];
      while remaining != {}
        invariant remaining <= beans.Keys
        invariant forall k :: k in beans && k !in remaining ==> beans[k].Some?
        invariant |result| + |remaining| <= |beans.Keys|
        invariant forall o :: o in result ==> o in Instances(beans) && Assignable(o, t)
        invariant forall k :: k in beans && k !in remaining && Assignable(beans[k].value, t) ==> beans[k].value in result
        decreases remaining
      {
        var k :| k in remaining;
        if beans[k].None? {
          return Failure(NullPointerException);
        }
        var o := beans[k].value;
        assert o in Instances(beans);
        if IsAssignableFrom(container.md, t, container.heap.classOf[o]) {
          result := result + [o];
        }
        remaining := remaining - {k};
      }
      forall o | o in Instances(beans) && Assignable(o, t)
        ensures o in result
      {
        var k :| k in beans && beans[k] == Some(o);
      }
      r := Success(result);
    }

    // ---------------------------------------------------------------- delete and set-change listeners

    /** registerDeleteListener: one listener per model class; a new one replaces the old. */
    method RegisterDeleteListener(c: ClassName, dac: ObjId)
      modifies this`deleteListeners
      ensures deleteListeners == old(deleteListeners)[c := dac]
    {
      deleteListeners := deleteListeners[c := dac];
    }

    /** emitDeleteEvent: onDelete on the class's listener, if any, removing it when it throws. */
    method EmitDeleteEvent(c: ClassName, throws: bool)
      modifies this`deleteListeners, container.heap`log
      ensures container.heap.log == old(container.heap.log) + EmitCall(old(deleteListeners), c, "onDelete", [])
      ensures deleteListeners == AfterEmit(old(deleteListeners), c, throws)
    {
      if c in deleteListeners {
        var dac := deleteListeners[c];
        container.heap.Invoke(dac, "onDelete", []);
        if throws {
          deleteListeners := deleteListeners - {c};
        }
      }
    }

    /** registerSetChangeListener: one listener per model class; a new one replaces the old. */
    method RegisterSetChangeListener(c: ClassName, dac: ObjId)
      modifies this`changeListeners
      ensures changeListeners == old(changeListeners)[c := dac]
    {
      changeListeners := changeListeners[c := dac];
    }

    /** emitSetChangeEvent: onChange(clazz) on the class's listener, if any, removing it when it throws. */
    method EmitSetChangeEvent(c: ClassName, throws: bool)
      modifies this`changeListeners, container.heap`log
      ensures container.heap.log == old(container.heap.log) + EmitCall(old(changeListeners), c, "onChange", [ClassArg(c)])
      ensures changeListeners == AfterEmit(old(changeListeners), c, throws)
    {
      if c in changeListeners {
        var dac := changeListeners[c];
        container.heap.Invoke(dac, "onChange", [ClassArg(c)]);
        if throws {
          changeListeners := changeListeners - {c};
        }
      }
    }

    // ---------------------------------------------------------------- data-change and generic listeners

    /** registerDataChangeListener: the class's set is created on first use and gains the listener. */
    method RegisterDataChangeListener(c: ClassName, dac: ObjId)
      modifies this`dataListeners
      ensures dataListeners == WithListener(old(dataListeners), c, dac)
    {
      var s := if c in dataListeners then dataListeners[c] else {};
      dataListeners := dataListeners[c := s + {dac}];
    }

    /** unregisterDataChangeListener: the listener leaves every class's set. */
    method UnregisterDataChangeListener(dac: ObjId)
      modifies this`dataListeners
      ensures dataListeners == WithoutListener(old(dataListeners), dac)
    {
      var remaining := dataListeners.Keys;
      while remaining != {}
        invariant remaining <= old(dataListeners).Keys && dataListeners.Keys == old(dataListeners).Keys
        invariant forall k :: k in dataListeners ==>
          dataListeners[k] == if k in remaining then old(dataListeners)[k] else old(dataListeners)[k] - {dac}
        decreases remaining
      {
        var k :| k in remaining;
        dataListeners := dataListeners[k := dataListeners[k] - {dac}];
        remaining := remaining - {k};
      }
      assert dataListeners == WithoutListener(old(dataListeners), dac);
    }

    /**
     * emitDataChangeEvent: for a non-null item, onChange(item) on every
     * listener of exactly the item's class, dropping the ones that throw
     * (`failing`); a null item, or a class without listeners, does
     * nothing. The iteration is the corrected one of EmitAll.
     */
    method EmitDataChangeEvent(item: Option<ObjId>, failing: set<ObjId>) returns (ghost order: seq<ObjId>)
      requires Valid() && (item.Some? ==> item.value in container.heap.classOf)
      modifies this`dataListeners, container.heap`log
      ensures item.None? || container.heap.classOf[item.value] !in old(dataListeners) ==>
        dataListeners == old(dataListeners) && container.heap.log == old(container.heap.log)
      ensures item.Some? && container.heap.classOf[item.value] in old(dataListeners) ==>
        var c := container.heap.classOf[item.value];
        dataListeners == old(dataListeners)[c := old(dataListeners)[c] - failing]
        && Distinct(order) && (forall x :: x in order <==> x in old(dataListeners)[c])
        && container.heap.log == old(container.heap.log) + Calls(order, "onChange", [ObjArg(item.value)])
    {
      order := [];
      if item.Some? {
        var c := container.heap.classOf[item.value];
        if c in dataListeners {
          var all := dataListeners[c];
          if |all| > 0 {
            var current;
            current, order := EmitAll(container.heap, all, failing, "onChange", [ObjArg(item.value)]);
            dataListeners := dataListeners[c := current];
          } else {
            assert all - failing == all;
            assert dataListeners[c := all] == dataListeners;
          }
        }
      }
    }

    /** registerGenericListener: the event class's set is created on first use and gains the handler. */
    method RegisterGenericListener(eventClass: ClassName, handler: ObjId)
      modifies this`eventConsumers
      ensures eventConsumers == WithListener(old(eventConsumers), eventClass, handler)
    {
      var s := if eventClass in eventConsumers then eventConsumers[eventClass] else {};
      eventConsumers := eventConsumers[eventClass := s + {handler}];
    }

    /** freeGenericListeners: the event class's set is emptied; the class stays a key. */
    method FreeGenericListeners(eventClass: ClassName)
      modifies this`eventConsumers
      ensures eventConsumers == Freed(old(eventConsumers), eventClass)
    {
      if eventClass in eventConsumers {
        eventConsumers := eventConsumers[eventClass := {}];
      }
    }

    /** freeDataChangeListeners: the model class's set is emptied; the class stays a key. */
    method FreeDataChangeListeners(c: ClassName)
      modifies this`dataListeners
      ensures dataListeners == Freed(old(dataListeners), c)
    {
      if c in dataListeners {
        dataListeners := dataListeners[c := {}];
      }
    }

    /**
     * emitGenericEvent: handleEvent(event) on every consumer of exactly the
     * event's class, dropping the ones that throw; a null event throws
     * NullPointerException at getClass(). The iteration is the corrected
     * one of EmitAll.
     */
    method EmitGenericEvent(event: Option<ObjId>, failing: set<ObjId>) returns (thrown: Option<ContainerError>, ghost order: seq<ObjId>)
      requires Valid() && (event.Some? ==> event.value in container.heap.classOf)
      modifies this`eventConsumers, container.heap`log
      ensures event.None? ==> thrown == Some(NullPointerException)
      ensures event.Some? ==> thrown.None?
      ensures event.None? || container.heap.classOf[event.value] !in old(eventConsumers) ==>
        eventConsumers == old(eventConsumers) && container.heap.log == old(container.heap.log)
      ensures event.Some? && container.heap.classOf[event.value] in old(eventConsumers) ==>
        var c := container.heap.classOf[event.value];
        eventConsumers == old(eventConsumers)[c := old(eventConsumers)[c] - failing]
        && Distinct(order) && (forall x :: x in order <==> x in old(eventConsumers)[c])
        && container.heap.log == old(container.heap.log) + Calls(order, "handleEvent", [ObjArg(event.value)])
    {
      order := [];
      if event.None? {
        return Some(NullPointerException), order;
      }
      thrown := None;
      var c := container.heap.classOf[event.value];
      if c in eventConsumers {
        var current;
        current, order := EmitAll(container.heap, eventConsumers[c], failing, "handleEvent", [ObjArg(event.value)]);
        eventConsumers := eventConsumers[c := current];
      }
    }

    // ---------------------------------------------------------------- destroy

    /** destroy(force) lowers refCount and shuts the context down at zero or when forced. */
    predicate ShutsDown(force: bool)
      reads this
    {
      refCount - 1 == 0 || force
    }

    /**
     * unregisterActivityLifecycleCallbacks(callbacks): the first
     * registration of the callback object goes; a null callbacks removes
     * nothing.
     */
    method UnregisterCallbacks()
      requires Valid()
      modifies this`registered
      ensures Valid()
      ensures registered == if callbacks.Some? then JavaUtil.RemoveFirst(old(registered), callbacks.value) else old(registered)
      ensures callbacks.Some? && callbacks.value in old(registered) ==> |registered| == |old(registered)| - 1
    {
      if callbacks.Some? {
        JavaUtil.RemoveFirstCount(registered, callbacks.value);
        registered := JavaUtil.RemoveFirst(registered, callbacks.value);
        forall i | 0 <= i < |registered|
          ensures registered[i] < created
        {
          assert registered[i] in multiset(old(registered));
        }
      }
    }

    /**
     * The part of destroy after shutdownContext: the callback object is
     * unregistered, the database handle (connected anew if need be) is
     * closed, the delete and set-change tables are cleared, db and the two
     * factories are nulled and semaphore and init are reset. A missing
     * application instance or a failing connectDbHandle ends it early.
     */
    method ReleaseAfterShutdown() returns (thrown: Option<ContainerError>)
      requires Valid()
      modifies this`registered, this`deleteListeners, this`changeListeners, this`semaphore, this`init,
               this`validationFactory, this`errorHandlingFactory,
               container.heap`log, container.infra`db, container.infra`openHelper
      ensures Valid()
      ensures container.infra.instance.None? ==> thrown == Some(NullPointerException) && registered == old(registered)
      ensures container.infra.instance.Some? ==>
        registered == if old(callbacks).Some? then JavaUtil.RemoveFirst(old(registered), old(callbacks).value) else old(registered)
      ensures container.infra.instance.Some? ==> (thrown.None? <==> old(container.DbOk()))
      ensures thrown.Some? ==>
        deleteListeners == old(deleteListeners) && changeListeners == old(changeListeners) && init == old(init)
        && container.heap.log == old(container.heap.log)
      ensures thrown.None? ==>
        deleteListeners == map[] && changeListeners == map[] && container.infra.db.None? && !init && !semaphore
        && validationFactory.None? && errorHandlingFactory.None?
        && container.heap.log == old(container.heap.log)
                                 + [Invoked(if old(container.infra.db).Some? then old(container.infra.db).value else container.infra.database, "close", [])]
    {
      if container.infra.instance.None? {
        return Some(NullPointerException);
      }
      UnregisterCallbacks();
      var r := ConnectDbHandle();
      if r.Failure? {
        return Some(r.error);
      }
      container.heap.Invoke(r.value, "close", []);
      ClearStatics();
      thrown := None;
    }

    /** The resets at the end of destroy: the delete and set-change tables, db, the factories, semaphore and init. */
    method ClearStatics()
      requires Valid()
      modifies this`deleteListeners, this`changeListeners, this`semaphore, this`init,
               this`validationFactory, this`errorHandlingFactory, container.infra`db
      ensures Valid()
      ensures deleteListeners == map[] && changeListeners == map[] && container.infra.db.None? && !init && !semaphore
        && validationFactory.None? && errorHandlingFactory.None?
    {
      deleteListeners := map[];
      changeListeners := map[];
      container.infra.db := None;
      validationFactory := None;
      errorHandlingFactory := None;
      semaphore := false;
      init := false;
    }

    /**
     * destroy(force): refCount goes down by one and is never reset. At
     * zero, or when forced, shutdownContext runs and then the release
     * steps. The data-change and generic listener sets survive it.
     */
    method Destroy(force: bool) returns (thrown: Option<ContainerError>, ghost keys: seq<ClassName>)
      requires Valid()
      modifies this`refCount, this`registered, this`deleteListeners, this`changeListeners, this`semaphore, this`init,
               this`validationFactory, this`errorHandlingFactory,
               container`beans, container.heap`log, container.heap`store, container.infra`db, container.infra`openHelper
      ensures Valid() && refCount == old(refCount) - 1
      ensures !old(ShutsDown(force)) ==>
        thrown.None? && container.beans == old(container.beans) && container.heap.store == old(container.heap.store)
        && container.heap.log == old(container.heap.log) && init == old(init) && registered == old(registered)
        && deleteListeners == old(deleteListeners) && changeListeners == old(changeListeners)
      ensures old(ShutsDown(force)) ==>
        container.beans == (map k | k in old(container.beans) :: None)
        && OutjectedExactly(container.md, container.heap.classOf, old(container.beans).Keys, old(container.heap.store),
                            container.heap.store, Instances(old(container.beans)))
        && Distinct(keys) && (forall k :: k in keys <==> k in old(container.beans))
        && var hooks := old(container.heap.log)
             + HookCalls(container.md, container.heap.classOf, SlotsAt(old(container.beans), keys), DESTROYABLE, "onDestroy");
           |hooks| <= |container.heap.log| && container.heap.log[..|hooks|] == hooks
      ensures old(ShutsDown(force)) && container.infra.instance.Some? ==>
        (thrown.None? <==> old(container.infra.db).Some? || old(container.infra.openHelper).Some?)
      ensures old(ShutsDown(force)) && thrown.None? ==>
        deleteListeners == map[] && changeListeners == map[] && container.infra.db.None? && !init && !semaphore
        && validationFactory.None? && errorHandlingFactory.None?
      ensures thrown.Some? ==> init == old(init) && deleteListeners == old(deleteListeners) && changeListeners == old(changeListeners)
    {
      keys := [];
      refCount := refCount - 1;
      if refCount == 0 || force {
        keys := container.ShutdownContext();
        ghost var log := container.heap.log;
        ShutdownBlocksHelper();
        thrown := ReleaseAfterShutdown();
        assert log[..|log|] == log;
      } else {
        thrown := None;
      }
    }

    /** After shutdownContext every slot is null, so only a cached handle can still be obtained. */
    lemma ShutdownBlocksHelper()
      requires forall k :: k in container.beans ==> container.beans[k].None?
      ensures container.DbOk() <==> container.infra.db.Some? || container.infra.openHelper.Some?
    {
      assert HelperBeans(container.md, BARACUS_OPEN_HELPER, container.heap.classOf, container.beans) == {};
    }
  }
}
