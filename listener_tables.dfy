/**
 * The listener tables of both application contexts. The delete and
 * set-change tables hold one listener per model class; the org tree's
 * data-change and generic-event tables hold a set of listeners per class.
 * Emitting calls the listeners registered for one class, and a listener
 * whose callback throws is dropped from its table while the exception is
 * swallowed. Whether a callback throws is not the container's to know:
 * each emission is given the listeners whose callback throws this time.
 */
module ListenerTables {
  import opened JavaLang
  import opened JavaReflection

  // ---------------------------------------------------------------- one listener per class

  /** The single-listener table after emitting for c: the listener is gone exactly when it threw. */
  function AfterEmit(table: map<ClassName, ObjId>, c: ClassName, throws: bool): (r: map<ClassName, ObjId>)
    ensures c in table ==> (c in r <==> !throws)
    ensures c !in r ==> c !in table || throws
    ensures forall k :: k != c ==> (k in r <==> k in table)
    ensures forall k :: k in r ==> k in table && r[k] == table[k]
  {
    if c in table && throws then table - {c} else table
  }

  /** The call an emission for c makes: the registered listener's callback, or nothing. */
  function EmitCall(table: map<ClassName, ObjId>, c: ClassName, methodName: string, args: seq<Arg>): (r: seq<Call>)
    ensures |r| <= 1
    ensures |r| == 1 <==> c in table
    ensures c in table ==> r[0] == Invoked(table[c], methodName, args)
  {
    if c in table then [Invoked(table[c], methodName, args)] else []
  }

  /**
   * Once a listener has thrown, emissions for its class call nothing and
   * change nothing until a listener is registered again; registering one
   * makes the next emission call exactly the new listener.
   */
  lemma ThrowerSilenced(table: map<ClassName, ObjId>, c: ClassName, methodName: string, args: seq<Arg>,
                        later: bool, l: ObjId)
    requires c in table
    ensures var t := AfterEmit(table, c, true);
      EmitCall(t, c, methodName, args) == [] && AfterEmit(t, c, later) == t
      && EmitCall(t[c := l], c, methodName, args) == [Invoked(l, methodName, args)]
  {
  }

  // ---------------------------------------------------------------- a set of listeners per class

  /** The listeners registered for c; none when c has no set yet. */
  function SetOf(table: map<ClassName, set<ObjId>>, c: ClassName): set<ObjId>
  {
    if c in table then table[c] else {}
  }

  /** Registration: c's set is created on first use and gains l; no other class changes. */
  function WithListener(table: map<ClassName, set<ObjId>>, c: ClassName, l: ObjId): (r: map<ClassName, set<ObjId>>)
    ensures r.Keys == table.Keys + {c}
    ensures r[c] == SetOf(table, c) + {l}
    ensures forall k :: k in table && k != c ==> r[k] == table[k]
  {
    table[c := SetOf(table, c) + {l}]
  }

  /** Unregistration: l leaves every set; every class keeps its (possibly empty) set. */
  function WithoutListener(table: map<ClassName, set<ObjId>>, l: ObjId): (r: map<ClassName, set<ObjId>>)
    ensures r.Keys == table.Keys
    ensures forall k :: k in r ==> l !in r[k] && r[k] + {l} >= table[k] && r[k] <= table[k]
  {
    map k | k in table :: table[k] - {l}
  }

  /** freeDataChangeListeners / freeGenericListeners: c's set is emptied but its key stays. */
  function Freed(table: map<ClassName, set<ObjId>>, c: ClassName): (r: map<ClassName, set<ObjId>>)
    ensures r.Keys == table.Keys
    ensures c in r ==> r[c] == {}
    ensures forall k :: k in table && k != c ==> r[k] == table[k]
  {
    if c in table then table[c := {}] else table
  }

  /** The calls of an emission that visits the listeners in `order`. */
  function Calls(order: seq<ObjId>, methodName: string, args: seq<Arg>): (r: seq<Call>)
    ensures |r| == |order|
    ensures forall i :: 0 <= i < |order| ==> r[i] == Invoked(order[i], methodName, args)
  {
    seq(|order|, i requires 0 <= i < |order| => Invoked(order[i], methodName, args))
  }

  /**
   * An emission over the listener set `all`, part-way: `order` lists the
   * listeners called so far, each once, and the set has lost exactly the
   * visited listeners that threw.
   */
  ghost predicate EmitProgress(all: set<ObjId>, failing: set<ObjId>, remaining: set<ObjId>, order: seq<ObjId>,
                               current: set<ObjId>, log0: seq<Call>, log: seq<Call>, methodName: string, args: seq<Arg>)
  {
    remaining <= all
    && Distinct(order)
    && (forall x :: x in order <==> x in all && x !in remaining)
    && current == all - (failing - remaining)
    && log == log0 + Calls(order, methodName, args)
  }

  /** Calling listener x and dropping it when it threw moves an emission one step on. */
  lemma EmitStep(all: set<ObjId>, failing: set<ObjId>, remaining: set<ObjId>, order: seq<ObjId>,
                 current: set<ObjId>, log0: seq<Call>, log: seq<Call>, methodName: string, args: seq<Arg>, x: ObjId)
    requires EmitProgress(all, failing, remaining, order, current, log0, log, methodName, args) && x in remaining
    ensures EmitProgress(all, failing, remaining - {x}, order + [x],
                         if x in failing then current - {x} else current,
                         log0, log + [Invoked(x, methodName, args)], methodName, args)
  {
    assert Calls(order + [x], methodName, args) == Calls(order, methodName, args) + [Invoked(x, methodName, args)];
    assert x !in order;
  }

  /** A finished emission called every listener exactly once and kept exactly those that did not throw. */
  lemma EmitFinished(all: set<ObjId>, failing: set<ObjId>, order: seq<ObjId>, current: set<ObjId>,
                     log0: seq<Call>, log: seq<Call>, methodName: string, args: seq<Arg>)
    requires EmitProgress(all, failing, {}, order, current, log0, log, methodName, args)
    ensures |order| == |all| && current == all - failing
    ensures forall x :: x in all ==> Invoked(x, methodName, args) in log[|log0|..]
  {
    DistinctCard(order, all);
    forall x | x in all
      ensures Invoked(x, methodName, args) in log[|log0|..]
    {
      var i :| 0 <= i < |order| && order[i] == x;
      assert log[|log0|..] == Calls(order, methodName, args);
      assert log[|log0|..][i] == Invoked(x, methodName, args);
    }
  }

  /** A sequence without repetitions has as many elements as the set it lists. */
  lemma {:induction false} DistinctCard(order: seq<ObjId>, all: set<ObjId>)
    requires Distinct(order) && forall x :: x in order <==> x in all
    ensures |order| == |all|
    decreases |order|
  {
    if order != [] {
      var last := order[|order| - 1];
      var init := order[..|order| - 1];
      assert forall x :: x in init <==> x in all - {last} by {
        forall x ensures x in init <==> x in all - {last} {
          if x in init {
            var j :| 0 <= j < |init| && init[j] == x;
            assert order[j] == x && j < |order| - 1;
          }
          if x in all - {last} {
            var j :| 0 <= j < |order| && order[j] == x;
            assert j != |order| - 1;
            assert init[j] == x;
          }
        }
      }
      DistinctCard(init, all - {last});
    }
  }

  // ---------------------------------------------------------------- emitting to a set of listeners

  /**
   * An emission over the listener set `all` as it is meant to work: each
   * listener is called once, in the set's iteration order `order`, and
   * the ones that threw are dropped afterwards; `current` is the set to
   * store back.
   */
  method EmitAll(heap: Heap, all: set<ObjId>, failing: set<ObjId>, methodName: string, args: seq<Arg>)
    returns (current: set<ObjId>, ghost order: seq<ObjId>)
    modifies heap`log
    ensures current == all - failing
    ensures Distinct(order) && |order| == |all| && forall x :: x in order <==> x in all
    ensures heap.log == old(heap.log) + Calls(order, methodName, args)
  {
    var remaining := all;
    current := all;
    order := [];
    while remaining != {}
      invariant EmitProgress(all, failing, remaining, order, current, old(heap.log), heap.log, methodName, args)
      decreases remaining
    {
      var x :| x in remaining;
      EmitStep(all, failing, remaining, order, current, old(heap.log), heap.log, methodName, args, x);
      heap.Invoke(x, methodName, args);
      if x in failing {
        current := current - {x};
      }
      order := order + [x];
      remaining := remaining - {x};
    }
    EmitFinished(all, failing, order, current, old(heap.log), heap.log, methodName, args);
  }

  /**
   * The iteration as written has so far visited no listener that threw,
   * except possibly the last one of all.
   */
  ghost predicate NoneHit(all: set<ObjId>, failing: set<ObjId>, remaining: set<ObjId>, order: seq<ObjId>)
  {
    (remaining != {} ==> (all - remaining) * failing == {})
    && (remaining == {} && order != [] ==> all * failing <= {order[|order| - 1]})
  }

  /** Visiting a listener that did not throw, or the very last one, keeps NoneHit. */
  lemma NoneHitStep(all: set<ObjId>, failing: set<ObjId>, remaining: set<ObjId>, order: seq<ObjId>, x: ObjId)
    requires remaining <= all && x in remaining && NoneHit(all, failing, remaining, order)
    requires x !in failing || remaining - {x} == {}
    ensures NoneHit(all, failing, remaining - {x}, order + [x])
  {
    assert (all - (remaining - {x})) * failing == (all - remaining) * failing + {x} * failing;
  }

  /**
   * An iteration as written that got through called every listener, hit at
   * most one that threw, and kept the set whole when none threw.
   */
  lemma NoneHitFinished(all: set<ObjId>, failing: set<ObjId>, order: seq<ObjId>, current: set<ObjId>,
                        log0: seq<Call>, log: seq<Call>, methodName: string, args: seq<Arg>)
    requires EmitProgress(all, failing, {}, order, current, log0, log, methodName, args)
    requires NoneHit(all, failing, {}, order)
    ensures current == all - failing && |order| == |all| && |all * failing| <= 1
    ensures all * failing == {} ==> current == all
  {
    EmitFinished(all, failing, order, current, log0, log, methodName, args);
    if order == [] {
      assert all == {};
    } else if all * failing != {} {
      assert all * failing == {order[|order| - 1]};
    }
    if all * failing == {} {
      assert all - failing == all;
    }
  }

  /**
   * The set emissions as written: the for-each walks the live set, so once
   * a listener that threw has been removed, the iterator's next step throws
   * ConcurrentModificationException (`cme`), which escapes the emission.
   * Only a listener visited last can be removed without it; two listeners
   * that throw always end the emission early, and the second is never
   * called.
   */
  method EmitAsWritten(heap: Heap, all: set<ObjId>, failing: set<ObjId>, methodName: string, args: seq<Arg>)
    returns (current: set<ObjId>, cme: bool, ghost order: seq<ObjId>)
    modifies heap`log
    ensures Distinct(order) && (forall x :: x in order ==> x in all)
    ensures heap.log == old(heap.log) + Calls(order, methodName, args)
    ensures all * failing == {} ==> !cme && current == all
    ensures |all * failing| >= 2 ==> cme
    ensures !cme ==> current == all - failing && |order| == |all|
    ensures cme ==> |order| > 0 && order[|order| - 1] in failing && current == all - {order[|order| - 1]}
  {
    var remaining := all;
    current := all;
    order := [];
    cme := false;
    while remaining != {}
      invariant EmitProgress(all, failing, remaining, order, current, old(heap.log), heap.log, methodName, args)
      invariant NoneHit(all, failing, remaining, order)
      decreases remaining
    {
      var x :| x in remaining;
      EmitStep(all, failing, remaining, order, current, old(heap.log), heap.log, methodName, args, x);
      heap.Invoke(x, methodName, args);
      if x in failing && remaining - {x} != {} {
        SharedNotDisjoint(all, failing, x);
        current := current - {x};
        order := order + [x];
        cme := true;
        return;
      }
      NoneHitStep(all, failing, remaining, order, x);
      if x in failing {
        current := current - {x};
      }
      order := order + [x];
      remaining := remaining - {x};
    }
    NoneHitFinished(all, failing, order, current, old(heap.log), heap.log, methodName, args);
  }

  /** A listener that threw is one the set and the failing listeners share. */
  lemma SharedNotDisjoint(all: set<ObjId>, failing: set<ObjId>, x: ObjId)
    requires x in all && x in failing
    ensures all * failing != {}
  {
    assert x in all * failing;
  }
}
