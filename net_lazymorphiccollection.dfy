/**
 * net/mantucon/baracus/orm/LazyMorphicCollection.java: a lazily loaded
 * list typed by a supertype of what its loader yields. It can take over
 * the loader object of an existing LazyCollection and then keeps its own
 * Armed/Loaded state, so the shared loader runs once for each of them.
 *
 * Covariance (U extends T) is not needed in the model: loader and list
 * share one element type.
 */
module NetLazyMorphicCollection {
  import opened JavaLang
  import opened JavaUtil
  import opened NetLazyCollection

  class LazyMorphicCollection<T(==)> {
    var collectionState: CollectionState
    const lazyLoader: LazyLoader<T>
    var referencedData: seq<T>

    /** Nothing is held before the load. */
    ghost predicate Valid()
      reads this
    {
      collectionState == Armed ==> referencedData == []
    }

    /** The loader ran once on this operation if the list was armed, otherwise not at all. */
    ghost predicate LoadedOnce(oldState: CollectionState, oldInvocations: nat)
      reads this, lazyLoader
    {
      collectionState == Loaded &&
      lazyLoader.invocations == oldInvocations + (if oldState == Armed then 1 else 0)
    }

    /** LazyMorphicCollection(LazyLoader): armed, empty. */
    constructor(lazyLoader: LazyLoader<T>)
      ensures Valid() && this.lazyLoader == lazyLoader
      ensures collectionState == Armed && referencedData == []
    {
      this.lazyLoader := lazyLoader;
      collectionState := Armed;
      referencedData := [];
    }

    /**
     * LazyMorphicCollection(LazyCollection): the source's loader object,
     * but neither its data nor its state: the view starts armed and empty.
     */
    constructor Morph(source: LazyCollection<T>)
      ensures Valid() && lazyLoader == source.lazyLoader
      ensures collectionState == Armed && referencedData == []
    {
      lazyLoader := source.lazyLoader;
      collectionState := Armed;
      referencedData := [];
    }

    /** equals and hashCode are Object's: identity, whatever the contents. */
    predicate Equals(o: object?)
    {
      o == this
    }

    /**
     * checkReferencedData: an armed list is marked loaded first, then
     * filled; if the loader throws it stays loaded and empty.
     */
    method CheckReferencedData() returns (r: Result<seq<T>, ListError>)
      requires Valid()
      modifies this, lazyLoader`invocations
      ensures Valid() && LoadedOnce(old(collectionState), old(lazyLoader.invocations))
      ensures r == Prepared(lazyLoader, old(collectionState), old(referencedData))
      ensures referencedData == (if r.Success? then r.value else old(referencedData))
    {
      if collectionState == Armed {
        collectionState := Loaded;
        var loaded := lazyLoader.LoadReference();
        if loaded.Threw? {
          return Failure(LoaderException);
        }
        referencedData := referencedData + loaded.items;
      }
      r := Success(referencedData);
    }

    method Add(x: T) returns (r: Result<bool, ListError>)
      requires Valid()
      modifies this, lazyLoader`invocations
      ensures Valid() && LoadedOnce(old(collectionState), old(lazyLoader.invocations))
      ensures var p := Prepared(lazyLoader, old(collectionState), old(referencedData));
        if p.Failure? then r == Failure(p.error) && referencedData == old(referencedData)
        else r == Success(true) && referencedData == p.value + [x]
    {
      var p := CheckReferencedData();
      if p.Failure? {
        return Failure(p.error);
      }
      referencedData := referencedData + [x];
      r := Success(true);
    }

    /** add(int, T): IndexOutOfBoundsException unless 0 <= index <= size. */
    method AddAt(index: int, x: T) returns (r: Result<(), ListError>)
      requires Valid()
      modifies this, lazyLoader`invocations
      ensures Valid() && LoadedOnce(old(collectionState), old(lazyLoader.invocations))
      ensures var p := Prepared(lazyLoader, old(collectionState), old(referencedData));
        if p.Failure? then r == Failure(p.error) && referencedData == old(referencedData)
        else if !(0 <= index <= |p.value|) then r == Failure(IndexOutOfBoundsException) && referencedData == p.value
        else r == Success(()) && referencedData == InsertAt(p.value, index, [x])
    {
      var p := CheckReferencedData();
      if p.Failure? {
        return Failure(p.error);
      }
      if !(0 <= index <= |referencedData|) {
        return Failure(IndexOutOfBoundsException);
      }
      referencedData := InsertAt(referencedData, index, [x]);
      r := Success(());
    }

    /** addAll(Collection): true when something was added. */
    method AddAll(c: seq<T>) returns (r: Result<bool, ListError>)
      requires Valid()
      modifies this, lazyLoader`invocations
      ensures Valid() && LoadedOnce(old(collectionState), old(lazyLoader.invocations))
      ensures var p := Prepared(lazyLoader, old(collectionState), old(referencedData));
        if p.Failure? then r == Failure(p.error) && referencedData == old(referencedData)
        else r == Success(|c| > 0) && referencedData == p.value + c
    {
      var p := CheckReferencedData();
      if p.Failure? {
        return Failure(p.error);
      }
      referencedData := referencedData + c;
      r := Success(|c| > 0);
    }

    /** addAll(int, Collection). */
    method AddAllAt(index: int, c: seq<T>) returns (r: Result<bool, ListError>)
      requires Valid()
      modifies this, lazyLoader`invocations
      ensures Valid() && LoadedOnce(old(collectionState), old(lazyLoader.invocations))
      ensures var p := Prepared(lazyLoader, old(collectionState), old(referencedData));
        if p.Failure? then r == Failure(p.error) && referencedData == old(referencedData)
        else if !(0 <= index <= |p.value|) then r == Failure(IndexOutOfBoundsException) && referencedData == p.value
        else r == Success(|c| > 0) && referencedData == InsertAt(p.value, index, c)
    {
      var p := CheckReferencedData();
      if p.Failure? {
        return Failure(p.error);
      }
      if !(0 <= index <= |referencedData|) {
        return Failure(IndexOutOfBoundsException);
      }
      referencedData := InsertAt(referencedData, index, c);
      r := Success(|c| > 0);
    }

    /** subList: the elements from start up to end (a copy; the view is not modelled). */
    method SubList(start: int, end: int) returns (r: Result<seq<T>, ListError>)
      requires Valid()
      modifies this, lazyLoader`invocations
      ensures Valid() && LoadedOnce(old(collectionState), old(lazyLoader.invocations))
      ensures var p := Prepared(lazyLoader, old(collectionState), old(referencedData));
        (p.Failure? ==> r == Failure(p.error) && referencedData == old(referencedData)) &&
        (p.Success? ==> (referencedData == p.value &&
                         (r.Success? <==> 0 <= start <= end <= |p.value|) &&
                         (r.Success? ==> r.value == p.value[start..end])))
    {
      var p := CheckReferencedData();
      if p.Failure? {
        return Failure(p.error);
      }
      if start < 0 || end > |referencedData| {
        return Failure(IndexOutOfBoundsException);
      }
      if start > end {
        return Failure(IllegalArgumentException);
      }
      r := Success(referencedData[start..end]);
    }

    /** remove(int): the element removed. */
    method RemoveAt(index: int) returns (r: Result<T, ListError>)
      requires Valid()
      modifies this, lazyLoader`invocations
      ensures Valid() && LoadedOnce(old(collectionState), old(lazyLoader.invocations))
      ensures var p := Prepared(lazyLoader, old(collectionState), old(referencedData));
        if p.Failure? then r == Failure(p.error) && referencedData == old(referencedData)
        else if !(0 <= index < |p.value|) then r == Failure(IndexOutOfBoundsException) && referencedData == p.value
        else r == Success(p.value[index]) && referencedData == p.value[..index] + p.value[index + 1..]
    {
      var p := CheckReferencedData();
      if p.Failure? {
        return Failure(p.error);
      }
      if !(0 <= index < |referencedData|) {
        return Failure(IndexOutOfBoundsException);
      }
      r := Success(referencedData[index]);
      referencedData := referencedData[..index] + referencedData[index + 1..];
    }

    /** remove(Object): drops the first occurrence. */
    method Remove(x: T) returns (r: Result<bool, ListError>)
      requires Valid()
      modifies this, lazyLoader`invocations
      ensures Valid() && LoadedOnce(old(collectionState), old(lazyLoader.invocations))
      ensures var p := Prepared(lazyLoader, old(collectionState), old(referencedData));
        if p.Failure? then r == Failure(p.error) && referencedData == old(referencedData)
        else r == Success(x in p.value) && referencedData == RemoveFirst(p.value, x)
    {
      var p := CheckReferencedData();
      if p.Failure? {
        return Failure(p.error);
      }
      r := Success(x in referencedData);
      referencedData := RemoveFirst(referencedData, x);
    }

    /** removeAll: true when something was removed. */
    method RemoveAllOf(c: seq<T>) returns (r: Result<bool, ListError>)
      requires Valid()
      modifies this, lazyLoader`invocations
      ensures Valid() && LoadedOnce(old(collectionState), old(lazyLoader.invocations))
      ensures var p := Prepared(lazyLoader, old(collectionState), old(referencedData));
        if p.Failure? then r == Failure(p.error) && referencedData == old(referencedData)
        else r == Success(RemoveAll(p.value, c) != p.value) && referencedData == RemoveAll(p.value, c)
    {
      var p := CheckReferencedData();
      if p.Failure? {
        return Failure(p.error);
      }
      var kept := RemoveAll(referencedData, c);
      r := Success(kept != referencedData);
      referencedData := kept;
    }

    /** retainAll: true when something was removed. */
    method RetainAllOf(c: seq<T>) returns (r: Result<bool, ListError>)
      requires Valid()
      modifies this, lazyLoader`invocations
      ensures Valid() && LoadedOnce(old(collectionState), old(lazyLoader.invocations))
      ensures var p := Prepared(lazyLoader, old(collectionState), old(referencedData));
        if p.Failure? then r == Failure(p.error) && referencedData == old(referencedData)
        else r == Success(RetainAll(p.value, c) != p.value) && referencedData == RetainAll(p.value, c)
    {
      var p := CheckReferencedData();
      if p.Failure? {
        return Failure(p.error);
      }
      var kept := RetainAll(referencedData, c);
      r := Success(kept != referencedData);
      referencedData := kept;
    }

    method Clear() returns (r: Result<(), ListError>)
      requires Valid()
      modifies this, lazyLoader`invocations
      ensures Valid() && LoadedOnce(old(collectionState), old(lazyLoader.invocations))
      ensures var p := Prepared(lazyLoader, old(collectionState), old(referencedData));
        if p.Failure? then r == Failure(p.error) && referencedData == old(referencedData)
        else r == Success(()) && referencedData == []
    {
      var p := CheckReferencedData();
      if p.Failure? {
        return Failure(p.error);
      }
      referencedData := [];
      r := Success(());
    }

    /** set(int, T): the element replaced. */
    method Set(index: int, x: T) returns (r: Result<T, ListError>)
      requires Valid()
      modifies this, lazyLoader`invocations
      ensures Valid() && LoadedOnce(old(collectionState), old(lazyLoader.invocations))
      ensures var p := Prepared(lazyLoader, old(collectionState), old(referencedData));
        if p.Failure? then r == Failure(p.error) && referencedData == old(referencedData)
        else if !(0 <= index < |p.value|) then r == Failure(IndexOutOfBoundsException) && referencedData == p.value
        else r == Success(p.value[index]) && referencedData == p.value[index := x]
    {
      var p := CheckReferencedData();
      if p.Failure? {
        return Failure(p.error);
      }
      if !(0 <= index < |referencedData|) {
        return Failure(IndexOutOfBoundsException);
      }
      r := Success(referencedData[index]);
      referencedData := referencedData[index := x];
    }

    method Get(index: int) returns (r: Result<T, ListError>)
      requires Valid()
      modifies this, lazyLoader`invocations
      ensures Valid() && LoadedOnce(old(collectionState), old(lazyLoader.invocations))
      ensures var p := Prepared(lazyLoader, old(collectionState), old(referencedData));
        if p.Failure? then r == Failure(p.error) && referencedData == old(referencedData)
        else referencedData == p.value && r == (if 0 <= index < |p.value| then Success(p.value[index]) else Failure(IndexOutOfBoundsException))
    {
      var p := CheckReferencedData();
      if p.Failure? {
        return Failure(p.error);
      }
      if !(0 <= index < |referencedData|) {
        return Failure(IndexOutOfBoundsException);
      }
      r := Success(referencedData[index]);
    }

    method Size() returns (r: Result<nat, ListError>)
      requires Valid()
      modifies this, lazyLoader`invocations
      ensures Valid() && LoadedOnce(old(collectionState), old(lazyLoader.invocations))
      ensures var p := Prepared(lazyLoader, old(collectionState), old(referencedData));
        if p.Failure? then r == Failure(p.error) && referencedData == old(referencedData)
        else referencedData == p.value && r == Success(|p.value|)
    {
      var p := CheckReferencedData();
      if p.Failure? {
        return Failure(p.error);
      }
      r := Success(|referencedData|);
    }

    method IsEmpty() returns (r: Result<bool, ListError>)
      requires Valid()
      modifies this, lazyLoader`invocations
      ensures Valid() && LoadedOnce(old(collectionState), old(lazyLoader.invocations))
      ensures var p := Prepared(lazyLoader, old(collectionState), old(referencedData));
        if p.Failure? then r == Failure(p.error) && referencedData == old(referencedData)
        else referencedData == p.value && r == Success(|p.value| == 0)
    {
      var p := CheckReferencedData();
      if p.Failure? {
        return Failure(p.error);
      }
      r := Success(|referencedData| == 0);
    }

    method Contains(x: T) returns (r: Result<bool, ListError>)
      requires Valid()
      modifies this, lazyLoader`invocations
      ensures Valid() && LoadedOnce(old(collectionState), old(lazyLoader.invocations))
      ensures var p := Prepared(lazyLoader, old(collectionState), old(referencedData));
        if p.Failure? then r == Failure(p.error) && referencedData == old(referencedData)
        else referencedData == p.value && r == Success(x in p.value)
    {
      var p := CheckReferencedData();
      if p.Failure? {
        return Failure(p.error);
      }
      r := Success(x in referencedData);
    }

    method ContainsAll(c: seq<T>) returns (r: Result<bool, ListError>)
      requires Valid()
      modifies this, lazyLoader`invocations
      ensures Valid() && LoadedOnce(old(collectionState), old(lazyLoader.invocations))
      ensures var p := Prepared(lazyLoader, old(collectionState), old(referencedData));
        if p.Failure? then r == Failure(p.error) && referencedData == old(referencedData)
        else referencedData == p.value && r == Success(forall y :: y in c ==> y in p.value)
    {
      var p := CheckReferencedData();
      if p.Failure? {
        return Failure(p.error);
      }
      r := Success(forall y :: y in c ==> y in referencedData);
    }

    method IndexOfElement(x: T) returns (r: Result<int, ListError>)
      requires Valid()
      modifies this, lazyLoader`invocations
      ensures Valid() && LoadedOnce(old(collectionState), old(lazyLoader.invocations))
      ensures var p := Prepared(lazyLoader, old(collectionState), old(referencedData));
        if p.Failure? then r == Failure(p.error) && referencedData == old(referencedData)
        else referencedData == p.value && r == Success(IndexOf(p.value, x))
    {
      var p := CheckReferencedData();
      if p.Failure? {
        return Failure(p.error);
      }
      r := Success(IndexOf(referencedData, x));
    }

    method LastIndexOfElement(x: T) returns (r: Result<int, ListError>)
      requires Valid()
      modifies this, lazyLoader`invocations
      ensures Valid() && LoadedOnce(old(collectionState), old(lazyLoader.invocations))
      ensures var p := Prepared(lazyLoader, old(collectionState), old(referencedData));
        if p.Failure? then r == Failure(p.error) && referencedData == old(referencedData)
        else referencedData == p.value && r == Success(LastIndexOf(p.value, x))
    {
      var p := CheckReferencedData();
      if p.Failure? {
        return Failure(p.error);
      }
      r := Success(LastIndexOf(referencedData, x));
    }

    /**
     * toArray(), toArray(T[]), iterator(), listIterator() and
     * listIterator(int) from position `from`: the elements they walk over.
     */
    method Snapshot(from: int) returns (r: Result<seq<T>, ListError>)
      requires Valid()
      modifies this, lazyLoader`invocations
      ensures Valid() && LoadedOnce(old(collectionState), old(lazyLoader.invocations))
      ensures var p := Prepared(lazyLoader, old(collectionState), old(referencedData));
        if p.Failure? then r == Failure(p.error) && referencedData == old(referencedData)
        else referencedData == p.value && r == (if 0 <= from <= |p.value| then Success(p.value[from..]) else Failure(IndexOutOfBoundsException))
    {
      var p := CheckReferencedData();
      if p.Failure? {
        return Failure(p.error);
      }
      if !(0 <= from <= |referencedData|) {
        return Failure(IndexOutOfBoundsException);
      }
      r := Success(referencedData[from..]);
    }

    /** ensureCapacity and trimToSize: only the load; capacity is not modelled. */
    method Touch() returns (r: Result<(), ListError>)
      requires Valid()
      modifies this, lazyLoader`invocations
      ensures Valid() && LoadedOnce(old(collectionState), old(lazyLoader.invocations))
      ensures var p := Prepared(lazyLoader, old(collectionState), old(referencedData));
        if p.Failure? then r == Failure(p.error) && referencedData == old(referencedData)
        else referencedData == p.value && r == Success(())
    {
      var p := CheckReferencedData();
      if p.Failure? {
        return Failure(p.error);
      }
      r := Success(());
    }
  }

  /**
   * A view over an already loaded collection loads again through the
   * shared loader: source and view each hold the items once, and the
   * loader has run twice.
   */
  method SharedLoaderScenario(items: seq<int>) returns (sourceSize: Result<nat, ListError>, viewSize: Result<nat, ListError>)
    ensures sourceSize == Success(|items|) && viewSize == Success(|items|)
  {
    var loader := new LazyLoader(() => Returned(items));
    var source := new LazyCollection(loader);
    sourceSize := source.Size();
    var view := new LazyMorphicCollection.Morph(source);
    viewSize := view.Size();
    assert loader.invocations == 2;
  }

  /** Two views with the same contents are still different lists for equals. */
  method IdentityScenario(items: seq<int>) returns (same: bool, other: bool)
    ensures same && !other
  {
    var loader := new LazyLoader(() => Returned(items));
    var a := new LazyMorphicCollection(loader);
    var b := new LazyMorphicCollection(loader);
    var _ := a.Size();
    var _ := b.Size();
    same := a.Equals(a);
    other := a.Equals(b);
  }
}
