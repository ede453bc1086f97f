/** The array operations the controllers apply to document fields and to
    collections: `filter` of one value, lookup by key, and the newest-first
    ordering of `sort({createdAt: -1})`. */
module Sequences {
  import opened Common

  /** `xs.filter(y => y != x)`: every occurrence of `x` dropped, the rest kept in order. */
  function RemoveAll<T(==)>(xs: seq<T>, x: T): (r: seq<T>)
    ensures x !in r
    ensures forall y :: y in r ==> y in xs
    ensures forall y :: y in xs && y != x ==> y in r
    ensures forall y :: y in xs && y != x ==> multiset(r)[y] == multiset(xs)[y]
    ensures x !in xs ==> r == xs
    ensures |r| <= |xs|
  {
    if xs == [] then []
    else
      assert xs == [xs[0]] + xs[1..];
      if xs[0] == x then RemoveAll(xs[1..], x)
      else [xs[0]] + RemoveAll(xs[1..], x)
  }

  /** Filtering a value out of a list that ends with it is filtering the rest. */
  lemma {:induction false} RemoveAllAppended<T>(xs: seq<T>, x: T)
    ensures RemoveAll(xs + [x], x) == RemoveAll(xs, x)
  {
    if xs == [] {
      assert [x][1..] == [];
    } else {
      assert (xs + [x])[1..] == xs[1..] + [x];
      RemoveAllAppended(xs[1..], x);
    }
  }

  /** The test `y => y != x` of `xs.filter(y => y != x)`. */
  function Other<T(==)>(x: T): T -> bool
  {
    y => y != x
  }

  /** Filtering one value out is the general filter with the test `y != x`. */
  lemma {:induction false} RemoveAllIsFilter<T>(xs: seq<T>, x: T)
    ensures RemoveAll(xs, x) == Filter(xs, Other(x))
  {
    if xs != [] {
      RemoveAllIsFilter(xs[1..], x);
    }
  }

  /** Filtering keeps a list free of duplicates. */
  lemma {:induction false} RemoveAllKeepsNoDup<T>(xs: seq<T>, x: T)
    requires NoDup(xs)
    ensures NoDup(RemoveAll(xs, x))
  {
    if xs != [] {
      assert NoDup(xs[1..]) by {
        forall i, j | 0 <= i < j < |xs[1..]| ensures xs[1..][i] != xs[1..][j] {
          assert xs[1..][i] == xs[i + 1] && xs[1..][j] == xs[j + 1];
        }
      }
      RemoveAllKeepsNoDup(xs[1..], x);
      if xs[0] != x {
        assert xs[0] !in xs[1..] by {
          forall k | 0 <= k < |xs[1..]| ensures xs[1..][k] != xs[0] {
            assert xs[1..][k] == xs[k + 1];
          }
        }
        ConsNoDup(xs[0], RemoveAll(xs[1..], x));
      }
    }
  }

  /** The position of the first `x` in `xs`, or its length when there is none. */
  function FirstOf<T(==)>(xs: seq<T>, x: T): (p: nat)
    ensures p <= |xs|
    ensures p < |xs| ==> xs[p] == x
    ensures forall k :: 0 <= k < p ==> xs[k] != x
  {
    if xs == [] then 0
    else if xs[0] == x then 0
    else 1 + FirstOf(xs[1..], x)
  }

  /** No value occurs twice. */
  predicate NoDup<T(==)>(xs: seq<T>)
  {
    forall i, j :: 0 <= i < j < |xs| ==> xs[i] != xs[j]
  }

  lemma ConsNoDup<T>(x: T, xs: seq<T>)
    requires NoDup(xs) && x !in xs
    ensures NoDup([x] + xs)
  {
    forall i, j | 0 <= i < j < |[x] + xs| ensures ([x] + xs)[i] != ([x] + xs)[j] {
      if i > 0 {
        assert ([x] + xs)[i] == xs[i - 1];
      }
      assert ([x] + xs)[j] == xs[j - 1];
    }
  }

  /** Appending a value that is not yet present keeps a list free of duplicates. */
  lemma SnocNoDup<T>(xs: seq<T>, x: T)
    requires NoDup(xs) && x !in xs
    ensures NoDup(xs + [x])
  {
    forall i, j | 0 <= i < j < |xs + [x]| ensures (xs + [x])[i] != (xs + [x])[j] {
      assert (xs + [x])[i] == xs[i];
      if j < |xs| {
        assert (xs + [x])[j] == xs[j];
      }
    }
  }

  /** No two documents of a collection share a key. */
  predicate UniqueKeys<T, K(==)>(docs: seq<T>, key: T -> K)
  {
    forall i, j :: 0 <= i < j < |docs| ==> key(docs[i]) != key(docs[j])
  }

  /** `findOne`: the position of the first document whose key is `k`, if any. */
  function Find<T, K(==)>(docs: seq<T>, key: T -> K, k: K): (r: Option<nat>)
    ensures r.Some? ==> r.value < |docs| && key(docs[r.value]) == k
    ensures r.Some? ==> forall j :: 0 <= j < r.value ==> key(docs[j]) != k
    ensures r.None? <==> forall j :: 0 <= j < |docs| ==> key(docs[j]) != k
  {
    if docs == [] then None
    else if key(docs[0]) == k then Some(0)
    else match Find(docs[1..], key, k)
      case None => None
      case Some(i) => Some(i + 1)
  }

  /** With unique keys, the position `Find` reports is the only one with that key. */
  lemma FindUnique<T, K>(docs: seq<T>, key: T -> K, k: K, i: nat)
    requires UniqueKeys(docs, key)
    requires i < |docs| && key(docs[i]) == k
    ensures Find(docs, key, k) == Some(i)
  {
  }

  /** Looking up a key after appending a document (`save` of a new document). */
  lemma {:induction false} FindAppended<T, K>(docs: seq<T>, key: T -> K, d: T, k: K)
    ensures Find(docs + [d], key, k) ==
      if Find(docs, key, k).Some? then Find(docs, key, k)
      else if key(d) == k then Some(|docs|)
      else None
  {
    if docs != [] && key(docs[0]) != k {
      assert (docs + [d])[1..] == docs[1..] + [d];
      FindAppended(docs[1..], key, d, k);
    }
  }

  /** Replacing a document by one with the same key keeps keys unique. */
  lemma UpdateKeepsUniqueKeys<T, K>(docs: seq<T>, key: T -> K, i: nat, d: T)
    requires UniqueKeys(docs, key) && i < |docs| && key(d) == key(docs[i])
    ensures UniqueKeys(docs[i := d], key)
  {
    var r := docs[i := d];
    forall a, b | 0 <= a < b < |r| ensures key(r[a]) != key(r[b]) {
      assert key(r[a]) == key(docs[a]) && key(r[b]) == key(docs[b]);
    }
  }

  /** Appending a document with a fresh key keeps keys unique. */
  lemma AppendKeepsUniqueKeys<T, K>(docs: seq<T>, key: T -> K, d: T)
    requires UniqueKeys(docs, key) && Find(docs, key, key(d)).None?
    ensures UniqueKeys(docs + [d], key)
  {
    var r := docs + [d];
    forall a, b | 0 <= a < b < |r| ensures key(r[a]) != key(r[b]) {
      assert r[a] == docs[a];
    }
  }

  /** Removing one document from a collection (`deleteOne`, `findByIdAndDelete`). */
  function RemoveAt<T>(docs: seq<T>, i: nat): (r: seq<T>)
    requires i < |docs|
    ensures |r| == |docs| - 1
    ensures forall j :: 0 <= j < i ==> r[j] == docs[j]
    ensures forall j :: i <= j < |r| ==> r[j] == docs[j + 1]
  {
    docs[..i] + docs[i + 1..]
  }

  /** Removing a document keeps the remaining keys unique and drops exactly that key. */
  lemma RemoveAtKeys<T, K>(docs: seq<T>, key: T -> K, i: nat)
    requires UniqueKeys(docs, key) && i < |docs|
    ensures UniqueKeys(RemoveAt(docs, i), key)
    ensures forall d :: d in RemoveAt(docs, i) ==> key(d) != key(docs[i])
    ensures forall k :: k != key(docs[i]) ==> Find(RemoveAt(docs, i), key, k).Some? == Find(docs, key, k).Some?
  {
    var r := RemoveAt(docs, i);
    forall a, b | 0 <= a < b < |r| ensures key(r[a]) != key(r[b]) {
      var a', b' := if a < i then a else a + 1, if b < i then b else b + 1;
      assert r[a] == docs[a'] && r[b] == docs[b'];
    }
    forall d | d in r ensures key(d) != key(docs[i]) {
      var p :| 0 <= p < |r| && r[p] == d;
      assert d == docs[if p < i then p else p + 1];
    }
    forall k | k != key(docs[i]) ensures Find(r, key, k).Some? == Find(docs, key, k).Some? {
      RemoveAtFind(docs, key, i, k);
    }
  }

  lemma RemoveAtFind<T, K>(docs: seq<T>, key: T -> K, i: nat, k: K)
    requires i < |docs| && k != key(docs[i])
    ensures Find(RemoveAt(docs, i), key, k).Some? == Find(docs, key, k).Some?
  {
    var r := RemoveAt(docs, i);
    if Find(docs, key, k).Some? {
      var p := Find(docs, key, k).value;
      if p < i { assert key(r[p]) == k; } else { assert key(r[p - 1]) == k; }
    }
    if Find(r, key, k).Some? {
      var p := Find(r, key, k).value;
      if p < i { assert key(docs[p]) == k; } else { assert key(docs[p + 1]) == k; }
    }
  }

  /** `xs.filter(keep)`, and a query's filter over a collection: the elements
      that satisfy `keep`, each as often as in `xs`, in their original order. */
  function Filter<T>(xs: seq<T>, keep: T -> bool): (r: seq<T>)
    ensures forall y :: y in r ==> y in xs && keep(y)
    ensures forall y :: y in xs && keep(y) ==> y in r
    ensures forall y :: y in xs && keep(y) ==> multiset(r)[y] == multiset(xs)[y]
    ensures |r| <= |xs|
  {
    if xs == [] then []
    else
      var rest := Filter(xs[1..], keep);
      assert xs == [xs[0]] + xs[1..];
      if keep(xs[0]) then [xs[0]] + rest else rest
  }

  /** Filtering a concatenation filters each part in turn: the kept elements keep their order. */
  lemma {:induction false} FilterAppend<T>(a: seq<T>, b: seq<T>, keep: T -> bool)
    ensures Filter(a + b, keep) == Filter(a, keep) + Filter(b, keep)
  {
    if a == [] {
      assert a + b == b;
    } else {
      assert (a + b)[1..] == a[1..] + b;
      FilterAppend(a[1..], b, keep);
    }
  }

  /** Filtering a collection with unique keys keeps them unique. */
  lemma {:induction false} FilterKeepsUniqueKeys<T, K>(xs: seq<T>, keep: T -> bool, key: T -> K)
    requires UniqueKeys(xs, key)
    ensures UniqueKeys(Filter(xs, keep), key)
  {
    if xs != [] {
      var rest := xs[1..];
      assert UniqueKeys(rest, key) by {
        forall a, b | 0 <= a < b < |rest| ensures key(rest[a]) != key(rest[b]) {
          assert rest[a] == xs[a + 1] && rest[b] == xs[b + 1];
        }
      }
      FilterKeepsUniqueKeys(rest, keep, key);
      if keep(xs[0]) {
        var tail := Filter(rest, keep);
        var r := [xs[0]] + tail;
        forall a, b | 0 <= a < b < |r| ensures key(r[a]) != key(r[b]) {
          if a == 0 {
            assert r[b] in rest;
            var j :| 0 <= j < |rest| && rest[j] == r[b];
            assert xs[j + 1] == r[b];
          } else {
            assert r[a] == tail[a - 1] && r[b] == tail[b - 1];
          }
        }
      }
    }
  }

  /** Descending order of creation time, the order of `sort({createdAt: -1})`. */
  predicate NewestFirstOrder<T>(xs: seq<T>, stamp: T -> int)
  {
    forall i, j :: 0 <= i < j < |xs| ==> stamp(xs[i]) >= stamp(xs[j])
  }

  function InsertByStamp<T>(x: T, xs: seq<T>, stamp: T -> int): (r: seq<T>)
    requires NewestFirstOrder(xs, stamp)
    ensures NewestFirstOrder(r, stamp)
    ensures multiset(r) == multiset(xs) + multiset{x}
    ensures |r| == |xs| + 1
    ensures r[0] == x || (xs != [] && r[0] == xs[0])
  {
    if xs == [] then [x]
    else if stamp(x) >= stamp(xs[0]) then [x] + xs
    else
      var rest := InsertByStamp(x, xs[1..], stamp);
      assert xs == [xs[0]] + xs[1..];
      [xs[0]] + rest
  }

  /** The documents of `xs` in newest-first order; among equal stamps, the earlier stays first. */
  function NewestFirst<T>(xs: seq<T>, stamp: T -> int): (r: seq<T>)
    ensures NewestFirstOrder(r, stamp)
    ensures multiset(r) == multiset(xs)
    ensures |r| == |xs|
  {
    if xs == [] then []
    else
      assert xs == [xs[0]] + xs[1..];
      InsertByStamp(xs[0], NewestFirst(xs[1..], stamp), stamp)
  }

  /** Applying to each element a map that keeps its stamp. */
  function MapAll<T>(xs: seq<T>, f: T -> T): (r: seq<T>)
    ensures |r| == |xs|
    ensures forall k :: 0 <= k < |xs| ==> r[k] == f(xs[k])
  {
    if xs == [] then [] else [f(xs[0])] + MapAll(xs[1..], f)
  }

  lemma {:induction false} InsertCommutesWithMap<T>(x: T, xs: seq<T>, stamp: T -> int, f: T -> T)
    requires NewestFirstOrder(xs, stamp)
    requires forall y :: stamp(f(y)) == stamp(y)
    ensures NewestFirstOrder(MapAll(xs, f), stamp)
    ensures InsertByStamp(f(x), MapAll(xs, f), stamp) == MapAll(InsertByStamp(x, xs, stamp), f)
  {
    var m := MapAll(xs, f);
    assert forall k :: 0 <= k < |xs| ==> stamp(m[k]) == stamp(xs[k]);
    if xs != [] {
      assert m[1..] == MapAll(xs[1..], f);
      if stamp(x) < stamp(xs[0]) {
        InsertCommutesWithMap(x, xs[1..], stamp, f);
      }
    }
  }

  /** Sorting by stamp commutes with any map that keeps the stamp. */
  lemma {:induction false} NewestFirstCommutesWithMap<T>(xs: seq<T>, stamp: T -> int, f: T -> T)
    requires forall y :: stamp(f(y)) == stamp(y)
    ensures NewestFirst(MapAll(xs, f), stamp) == MapAll(NewestFirst(xs, stamp), f)
  {
    if xs != [] {
      var m := MapAll(xs, f);
      assert m[1..] == MapAll(xs[1..], f);
      NewestFirstCommutesWithMap(xs[1..], stamp, f);
      InsertCommutesWithMap(xs[0], NewestFirst(xs[1..], stamp), stamp, f);
    }
  }
}
