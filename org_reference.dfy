/**
 * The Reference implementations of the newer tree:
 * org/baracus/orm/LazyReference.java (loads its target on first access),
 * org/baracus/orm/ObjectReference.java (holds its target directly) and
 * org/baracus/orm/NullReference.java (null for everything).
 *
 * org/baracus/orm/ReferenceLoader.java is not part of this model; the
 * loader is the id it was built with and the outcome of its load, as the
 * older tree's ReferenceLoader has them.
 */
module OrgReference {
  import opened JavaLang
  import opened OrgAbstractModelBase

  /** What a load can end in: the bean (or null), or an exception escaping the DAO. */
  datatype LoadOutcome = LoadedObject(bean: Option<AbstractModelBase>) | LoadFailed

  datatype ReferenceError = LoaderException | NullPointerException

  /** ReferenceLoader: an id and the DAO lookup behind loadObject. */
  class ReferenceLoader {
    const id: Option<int>
    const load: () -> LoadOutcome
    /** How often loadObject has run. */
    ghost var invocations: nat

    constructor(id: Option<int>, load: () -> LoadOutcome)
      ensures this.id == id && this.load == load && invocations == 0
    {
      this.id := id;
      this.load := load;
      invocations := 0;
    }

    method LoadObject() returns (r: LoadOutcome)
      modifies this`invocations
      ensures r == load() && invocations == old(invocations) + 1
    {
      r := load();
      invocations := invocations + 1;
    }
  }

  datatype ReferenceState = Armed | Loaded

  class LazyReference {
    var collectionState: ReferenceState
    var instance: Option<AbstractModelBase>
    const referenceLoader: ReferenceLoader

    /** An armed reference has not loaded anything yet. */
    ghost predicate Valid()
      reads this
    {
      collectionState == Armed ==> instance == None
    }

    constructor(referenceLoader: ReferenceLoader)
      ensures Valid() && this.referenceLoader == referenceLoader
      ensures collectionState == Armed && instance == None
    {
      this.referenceLoader := referenceLoader;
      collectionState := Armed;
      instance := None;
    }

    /**
     * getObject: an armed reference is marked Loaded before the loader
     * runs, so the loader runs at most once; when it throws, the exception
     * propagates and every later call answers null.
     */
    method GetObject() returns (r: Result<Option<AbstractModelBase>, ReferenceError>)
      requires Valid()
      modifies this, referenceLoader`invocations
      ensures Valid() && collectionState == Loaded
      ensures old(collectionState) == Loaded ==> r == Success(instance) && instance == old(instance)
      ensures old(collectionState) == Loaded ==> referenceLoader.invocations == old(referenceLoader.invocations)
      ensures old(collectionState) == Armed ==> referenceLoader.invocations == old(referenceLoader.invocations) + 1
      ensures old(collectionState) == Armed && referenceLoader.load().LoadedObject? ==>
        r == Success(referenceLoader.load().bean) && instance == referenceLoader.load().bean
      ensures old(collectionState) == Armed && referenceLoader.load().LoadFailed? ==>
        r == Failure(LoaderException) && instance == None
    {
      if collectionState == Armed {
        collectionState := Loaded;
        var outcome := referenceLoader.LoadObject();
        if outcome.LoadFailed? {
          return Failure(LoaderException);
        }
        instance := outcome.bean;
      }
      r := Success(instance);
    }

    /** getObjectRefId: the loader's id, without loading. */
    function GetObjectRefId(): (r: Option<int>)
      reads this
      ensures r == referenceLoader.id
    {
      referenceLoader.id
    }
  }

  class ObjectReference {
    /** The field `object`. */
    var obj: Option<AbstractModelBase>

    /** ObjectReference(T). */
    constructor(obj: Option<AbstractModelBase>)
      ensures this.obj == obj
    {
      this.obj := obj;
    }

    /** ObjectReference(): no target. */
    constructor Empty()
      ensures obj == None
    {
      obj := None;
    }

    function GetObject(): Option<AbstractModelBase>
      reads this
    {
      obj
    }

    /** getObjectRefId: the target's id; no target throws NullPointerException. */
    function GetObjectRefId(): (r: Result<Option<int>, ReferenceError>)
      reads this, if obj.Some? then {obj.value} else {}
      ensures r.Failure? <==> obj.None?
      ensures r.Success? ==> r.value == obj.value.id
    {
      if obj.None? then Failure(NullPointerException) else Success(obj.value.id)
    }

    method SetObject(obj: Option<AbstractModelBase>)
      modifies this
      ensures this.obj == obj
    {
      this.obj := obj;
    }
  }

  /** NullReference: a stateless reference answering null to both questions. */
  class NullReference {
    constructor()
    {
    }

    function GetObject(): Option<AbstractModelBase>
    {
      None
    }

    function GetObjectRefId(): Option<int>
    {
      None
    }
  }

  /**
   * A NullReference stands in for an empty ObjectReference: both yield no
   * target, but only the NullReference answers the id question without
   * throwing.
   */
  lemma NullReferenceAvoidsCrash(n: NullReference, o: ObjectReference)
    requires o.obj.None?
    ensures n.GetObject() == o.GetObject()
    ensures n.GetObjectRefId() == None && o.GetObjectRefId() == Failure(NullPointerException)
  {
  }

  /**
   * A lazy reference loads once: two calls run the loader once and agree
   * on a loaded bean.
   */
  method LoadOnceScenario(bean: AbstractModelBase) returns (first: Result<Option<AbstractModelBase>, ReferenceError>, second: Result<Option<AbstractModelBase>, ReferenceError>)
    ensures first == second == Success(Some(bean))
  {
    var loader := new ReferenceLoader(Some(7), () => LoadedObject(Some(bean)));
    var reference := new LazyReference(loader);
    first := reference.GetObject();
    second := reference.GetObject();
    assert loader.invocations == 1;
  }

  /** A loader that throws does so once; the reference then answers null. */
  method FailedLoadScenario() returns (first: Result<Option<AbstractModelBase>, ReferenceError>, second: Result<Option<AbstractModelBase>, ReferenceError>)
    ensures first == Failure(LoaderException) && second == Success(None)
  {
    var loader := new ReferenceLoader(Some(7), () => LoadFailed);
    var reference := new LazyReference(loader);
    first := reference.GetObject();
    second := reference.GetObject();
  }
}
