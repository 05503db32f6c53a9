/**
 * org/baracus/util/DataUtil.java: indexing a collection by a key the
 * caller's Hashifier extracts, either one item per key (hashify) or a list
 * of items per key (hashify2List). Collections are iterated in sequence
 * order; the hashifier is a function.
 */
module OrgDataUtil {
  import opened JavaLang

  datatype HashifyError = IllegalArgumentException(message: string)

  const NON_UNIQUE_MESSAGE: string :=
    "The hashifier for the passed item list must produce unique keys! Otherwise use hashify2List function!"

  /** The keys the hashifier gives the items. */
  ghost function KeySet<T, U>(items: seq<T>, key: T -> U): set<U>
  {
    set i | 0 <= i < |items| :: key(items[i])
  }

  ghost predicate UniqueKeys<T, U>(items: seq<T>, key: T -> U)
  {
    forall i, j :: 0 <= i < j < |items| ==> key(items[i]) != key(items[j])
  }

  /** Extending a prefix by one item adds that item's key. */
  lemma KeySetSnoc<T, U>(items: seq<T>, key: T -> U, i: nat)
    requires i < |items|
    ensures KeySet(items[..i + 1], key) == KeySet(items[..i], key) + {key(items[i])}
  {
    var a := KeySet(items[..i + 1], key);
    var b := KeySet(items[..i], key);
    forall x | x in a ensures x in b + {key(items[i])} {
      var j :| 0 <= j < i + 1 && key(items[..i + 1][j]) == x;
      if j < i {
        assert items[..i][j] == items[..i + 1][j];
      }
    }
    forall x | x in b ensures x in a {
      var j :| 0 <= j < i && key(items[..i][j]) == x;
      assert items[..i + 1][j] == items[..i][j];
    }
    assert items[..i + 1][i] == items[i];
  }

  lemma UniqueKeysSnoc<T, U>(items: seq<T>, key: T -> U, i: nat)
    requires i < |items| && UniqueKeys(items[..i], key)
    requires key(items[i]) !in KeySet(items[..i], key)
    ensures UniqueKeys(items[..i + 1], key)
  {
    var p := items[..i + 1];
    var q := items[..i];
    forall a, b | 0 <= a < b < |p| ensures key(p[a]) != key(p[b]) {
      assert p[a] == q[a];
      if b < i {
        assert p[b] == q[b];
      } else {
        assert key(q[a]) in KeySet(q, key);
      }
    }
  }

  /**
   * hashify: a 1:1 map from key to item; the first item whose key was
   * already used makes it throw IllegalArgumentException.
   */
  method Hashify<T, U(==)>(items: seq<T>, key: T -> U) returns (r: Result<map<U, T>, HashifyError>)
    ensures r.Success? <==> UniqueKeys(items, key)
    ensures r.Failure? ==> r.error == IllegalArgumentException(NON_UNIQUE_MESSAGE)
    ensures r.Success? ==> r.value.Keys == KeySet(items, key) && |r.value| == |items|
    ensures r.Success? ==> forall i :: 0 <= i < |items| ==> r.value[key(items[i])] == items[i]
  {
    var result: map<U, T> := map[];
    var i := 0;
    while i < |items|
      invariant 0 <= i <= |items|
      invariant UniqueKeys(items[..i], key)
      invariant result.Keys == KeySet(items[..i], key) && |result| == i
      invariant forall k :: 0 <= k < i ==> result[key(items[k])] == items[k]
    {
      var t := items[i];
      var u := key(t);
      if u in result {
        HashifyClash(items, key, i);
        return Failure(IllegalArgumentException(NON_UNIQUE_MESSAGE));
      }
      HashifyStep(items, key, i, result);
      result := result[u := t];
      i := i + 1;
    }
    assert items[..i] == items;
    r := Success(result);
  }

  /** A key already taken by an earlier item means the keys are not unique. */
  lemma HashifyClash<T, U>(items: seq<T>, key: T -> U, i: nat)
    requires i < |items| && key(items[i]) in KeySet(items[..i], key)
    ensures !UniqueKeys(items, key)
  {
    var k :| 0 <= k < i && key(items[..i][k]) == key(items[i]);
    assert items[..i][k] == items[k];
  }

  /** hashify's loop body: a fresh key extends the map by the next item. */
  lemma HashifyStep<T, U>(items: seq<T>, key: T -> U, i: nat, result: map<U, T>)
    requires i < |items| && UniqueKeys(items[..i], key)
    requires result.Keys == KeySet(items[..i], key) && |result| == i
    requires forall k :: 0 <= k < i ==> result[key(items[k])] == items[k]
    requires key(items[i]) !in result
    ensures UniqueKeys(items[..i + 1], key)
    ensures result[key(items[i]) := items[i]].Keys == KeySet(items[..i + 1], key)
    ensures |result[key(items[i]) := items[i]]| == i + 1
    ensures forall k :: 0 <= k < i + 1 ==> result[key(items[i]) := items[i]][key(items[k])] == items[k]
  {
    var u, t := key(items[i]), items[i];
    KeySetSnoc(items, key, i);
    UniqueKeysSnoc(items, key, i);
    forall k | 0 <= k < i ensures key(items[k]) in result {
      assert items[..i][k] == items[k];
    }
    assert |result[u := t]| == |result| + 1;
  }

  /** The items with key k, in input order. */
  function GroupOf<T, U(==)>(items: seq<T>, key: T -> U, k: U): (g: seq<T>)
    ensures |g| <= |items|
    ensures forall x :: x in g ==> x in items && key(x) == k
  {
    if |items| == 0 then []
    else GroupOf(items[..|items| - 1], key, k) + (if key(items[|items| - 1]) == k then [items[|items| - 1]] else [])
  }

  /**
   * hashify2List: every key maps to the list of items with that key, in
   * input order; it never throws.
   */
  method Hashify2List<T, U(==)>(items: seq<T>, key: T -> U) returns (r: map<U, seq<T>>)
    ensures r.Keys == KeySet(items, key)
    ensures forall k :: k in r ==> r[k] == GroupOf(items, key, k)
  {
    var result: map<U, seq<T>> := map[];
    var i := 0;
    while i < |items|
      invariant 0 <= i <= |items|
      invariant result.Keys == KeySet(items[..i], key)
      invariant forall k :: k in result ==> result[k] == GroupOf(items[..i], key, k)
    {
      var t := items[i];
      var u := key(t);
      assert items[..i + 1][..i] == items[..i];
      assert items[..i + 1][i] == t;
      KeySetSnoc(items, key, i);
      var itemCollection;
      if u !in result {
        GroupOfAbsent(items[..i], key, u);
        itemCollection := [];
      } else {
        itemCollection := result[u];
      }
      result := result[u := itemCollection + [t]];
      i := i + 1;
    }
    assert items[..i] == items;
    r := result;
  }

  /** A key no item has gets an empty group. */
  lemma {:induction false} GroupOfAbsent<T, U>(items: seq<T>, key: T -> U, k: U)
    requires k !in KeySet(items, key)
    ensures GroupOf(items, key, k) == []
  {
    if |items| > 0 {
      var init := items[..|items| - 1];
      assert k !in KeySet(init, key) by {
        forall j | 0 <= j < |init| ensures key(init[j]) != k {
          assert init[j] == items[j];
        }
      }
      GroupOfAbsent(init, key, k);
      assert key(items[|items| - 1]) in KeySet(items, key);
    }
  }

  /** The sum of the group sizes over a list of keys. */
  function GroupSizes<T, U(==)>(items: seq<T>, key: T -> U, ks: seq<U>): nat
  {
    if |ks| == 0 then 0 else GroupSizes(items, key, ks[..|ks| - 1]) + |GroupOf(items, key, ks[|ks| - 1])|
  }

  lemma {:induction false} CountOccurrence<U>(ks: seq<U>, u: U)
    requires forall i, j :: 0 <= i < j < |ks| ==> ks[i] != ks[j]
    ensures CountOf(ks, u) == (if u in ks then 1 else 0)
  {
    if |ks| > 0 {
      var init := ks[..|ks| - 1];
      CountOccurrence(init, u);
      if ks[|ks| - 1] == u {
        assert u !in init by {
          forall j | 0 <= j < |init| ensures init[j] != u {
            assert init[j] == ks[j];
          }
        }
      } else {
        assert u in ks <==> u in init by {
          if u in ks {
            var j :| 0 <= j < |ks| && ks[j] == u;
            assert init[j] == u;
          }
        }
      }
    }
  }

  function CountOf<U(==)>(ks: seq<U>, u: U): nat
  {
    if |ks| == 0 then 0 else CountOf(ks[..|ks| - 1], u) + (if ks[|ks| - 1] == u then 1 else 0)
  }

  lemma {:induction false} GroupSizesStep<T, U>(items: seq<T>, key: T -> U, x: T, ks: seq<U>)
    ensures GroupSizes(items + [x], key, ks) == GroupSizes(items, key, ks) + CountOf(ks, key(x))
  {
    if |ks| > 0 {
      GroupSizesStep(items, key, x, ks[..|ks| - 1]);
      assert (items + [x])[..|items + [x]| - 1] == items;
    }
  }

  /**
   * Every item lands in exactly one group: over any duplicate-free list of
   * keys covering all item keys, the group sizes add up to the input size.
   */
  lemma {:induction false} GroupSizesSumToInput<T, U>(items: seq<T>, key: T -> U, ks: seq<U>)
    requires forall i, j :: 0 <= i < j < |ks| ==> ks[i] != ks[j]
    requires forall i :: 0 <= i < |items| ==> key(items[i]) in ks
    ensures GroupSizes(items, key, ks) == |items|
  {
    if |items| == 0 {
      GroupSizesEmpty(key, ks);
    } else {
      var init := items[..|items| - 1];
      var x := items[|items| - 1];
      assert items == init + [x];
      GroupSizesSumToInput(init, key, ks);
      GroupSizesStep(init, key, x, ks);
      CountOccurrence(ks, key(x));
    }
  }

  lemma {:induction false} GroupSizesEmpty<T, U>(key: T -> U, ks: seq<U>)
    ensures GroupSizes([], key, ks) == 0
  {
    if |ks| > 0 {
      GroupSizesEmpty(key, ks[..|ks| - 1]);
    }
  }
}
