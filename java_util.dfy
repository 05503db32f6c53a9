/**
 * The java.util.ArrayList operations the lazy collections delegate to,
 * on sequences, with equals read as Dafny equality.
 */
module JavaUtil {
  /** What a delegated list operation can throw. */
  datatype ListError = IndexOutOfBoundsException | IllegalArgumentException | LoaderException

  /** indexOf: the first position holding x, or -1. */
  function IndexOf<T(==)>(s: seq<T>, x: T): (r: int)
    ensures -1 <= r < |s|
    ensures r == -1 <==> x !in s
    ensures r >= 0 ==> s[r] == x && forall j :: 0 <= j < r ==> s[j] != x
  {
    if |s| == 0 then -1
    else if s[0] == x then 0
    else var k := IndexOf(s[1..], x); if k == -1 then -1 else k + 1
  }

  /** lastIndexOf: the last position holding x, or -1. */
  function LastIndexOf<T(==)>(s: seq<T>, x: T): (r: int)
    ensures -1 <= r < |s|
    ensures r == -1 <==> x !in s
    ensures r >= 0 ==> s[r] == x && forall j :: r < j < |s| ==> s[j] != x
  {
    if |s| == 0 then -1
    else if s[|s| - 1] == x then |s| - 1
    else LastIndexOf(s[..|s| - 1], x)
  }

  /** remove(Object): drops the first occurrence, if any. */
  function RemoveFirst<T(==)>(s: seq<T>, x: T): seq<T>
  {
    var k := IndexOf(s, x);
    if k == -1 then s else s[..k] + s[k + 1..]
  }

  /** removeAll: keeps, in order, the elements not in c. */
  function RemoveAll<T(==)>(s: seq<T>, c: seq<T>): seq<T>
  {
    if |s| == 0 then []
    else (if s[0] in c then [] else [s[0]]) + RemoveAll(s[1..], c)
  }

  /** retainAll: keeps, in order, the elements in c. */
  function RetainAll<T(==)>(s: seq<T>, c: seq<T>): seq<T>
  {
    if |s| == 0 then []
    else (if s[0] in c then [s[0]] else []) + RetainAll(s[1..], c)
  }

  /** remove(Object) takes exactly one occurrence when there is one. */
  lemma RemoveFirstCount<T>(s: seq<T>, x: T)
    ensures x in s ==> |RemoveFirst(s, x)| == |s| - 1 && multiset(RemoveFirst(s, x)) == multiset(s) - multiset{x}
    ensures x !in s ==> RemoveFirst(s, x) == s
  {
    var k := IndexOf(s, x);
    if k != -1 {
      assert s == s[..k] + [x] + s[k + 1..];
    }
  }

  /** removeAll and retainAll split the list: what one keeps the other drops, both in order. */
  lemma {:induction false} RemoveRetainPartition<T>(s: seq<T>, c: seq<T>)
    ensures forall y :: y in RemoveAll(s, c) <==> y in s && y !in c
    ensures forall y :: y in RetainAll(s, c) <==> y in s && y in c
    ensures |RemoveAll(s, c)| + |RetainAll(s, c)| == |s|
  {
    if |s| > 0 {
      RemoveRetainPartition(s[1..], c);
      assert s == [s[0]] + s[1..];
    }
  }

  /** add(index, x): x at position index, the tail shifted; index may equal the size. */
  function InsertAt<T>(s: seq<T>, index: int, xs: seq<T>): (r: seq<T>)
    requires 0 <= index <= |s|
    ensures |r| == |s| + |xs| && r[..index] == s[..index]
    ensures r[index..index + |xs|] == xs && r[index + |xs|..] == s[index..]
  {
    s[..index] + xs + s[index..]
  }
}
