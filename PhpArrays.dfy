/**
 * PHP's ordered arrays, the data structure every compiler pass below rewrites:
 * an association list with distinct keys kept in insertion order.
 */
module PhpArrays {

  datatype Option<+T> = None | Some(value: T)

  datatype Result<+T, +E> = Ok(value: T) | Err(error: E)

  /** The result of an operation that either completes or throws. */
  datatype Outcome<+E> = Pass | Fail(error: E)

  /** A PHP array key. PHP stores decimal-integer strings as integer keys; keys here are taken as given. */
  datatype Key = IntKey(i: int) | StrKey(s: string)

  /** An ordered map: the entries of a PHP array in iteration order. */
  type OMap<K, V> = seq<(K, V)>

  /** A PHP array. */
  type PArray<V> = OMap<Key, V>

  function Keys<K, V>(m: OMap<K, V>): (ks: seq<K>)
    ensures |ks| == |m|
    ensures forall i :: 0 <= i < |m| ==> ks[i] == m[i].0
  {
    seq(|m|, i requires 0 <= i < |m| => m[i].0)
  }

  function Values<K, V>(m: OMap<K, V>): (vs: seq<V>)
    ensures |vs| == |m|
    ensures forall i :: 0 <= i < |m| ==> vs[i] == m[i].1
  {
    seq(|m|, i requires 0 <= i < |m| => m[i].1)
  }

  lemma ValuesSnoc<K, V>(m: OMap<K, V>)
    requires m != []
    ensures Values(m) == Values(m[..|m| - 1]) + [m[|m| - 1].1]
  {
    assert Values(m)[..|m| - 1] == Values(m[..|m| - 1]);
  }

  /**
   * Appending a list's last element after its other elements gives the list. Stated for
   * an abstract element type, so that it costs nothing when the elements are sequences.
   */
  lemma ConcatSnoc<T>(a: seq<T>, list: seq<T>)
    requires list != []
    ensures (a + list[..|list| - 1]) + [list[|list| - 1]] == a + list
  {
    assert list == list[..|list| - 1] + [list[|list| - 1]];
  }

  /** Growing a prefix by one element; stated for an abstract element type, like `ConcatSnoc`. */
  lemma PrefixSnoc<T>(s: seq<T>, i: nat)
    requires i < |s|
    ensures s[..i + 1][..i] == s[..i] && s[..i + 1] == s[..i] + [s[i]]
  {
  }

  /** A non-empty sequence is its prefix followed by its last element. */
  lemma InitLast<T>(s: seq<T>)
    requires s != []
    ensures s[..|s| - 1] + [s[|s| - 1]] == s && s[..|s|] == s
  {
  }

  /** The prefix of `init + [last]` before `last` is `init`. */
  lemma SnocPrefix<T>(init: seq<T>, last: T)
    ensures (init + [last])[..|init|] == init
  {
  }

  /** Sequence displays of one and two elements built by concatenation. */
  lemma Displays<T>(x: T, y: T)
    ensures [] + [x] == [x] && [x] + [y] == [x, y]
  {
  }

  /** PHP keeps at most one entry per key. */
  ghost predicate DistinctKeys<K, V>(m: OMap<K, V>) {
    forall i, j :: 0 <= i < j < |m| ==> m[i].0 != m[j].0
  }

  /** The position of key `k` in `m`, or -1 when it is absent (`isset`/`array_key_exists`). */
  function Find<K(==), V>(m: OMap<K, V>, k: K): (r: int)
    ensures -1 <= r < |m|
    ensures r >= 0 ==> m[r].0 == k && forall j :: 0 <= j < r ==> m[j].0 != k
    ensures r < 0 <==> k !in Keys(m)
  {
    if m == [] then -1
    else if m[0].0 == k then 0
    else
      var r := Find(m[1..], k);
      assert forall j :: 1 <= j < |m| ==> m[1..][j - 1] == m[j];
      if r < 0 then -1 else r + 1
  }

  /** `$m[$k]`, for a key that is present. */
  function Get<K(==), V>(m: OMap<K, V>, k: K): (v: V)
    requires k in Keys(m)
    ensures (k, v) in m
  {
    m[Find(m, k)].1
  }

  /** The first position holding key `k` is what `Find` returns. */
  lemma FindIsFirst<K, V>(m: OMap<K, V>, k: K, i: int)
    requires 0 <= i < |m| && m[i].0 == k
    requires forall j :: 0 <= j < i ==> m[j].0 != k
    ensures Find(m, k) == i
  {
    assert Keys(m)[i] == k;
  }

  /** `$m[$k] = $v`: an existing entry keeps its place, a new one goes last. */
  function Put<K(==,!new), V>(m: OMap<K, V>, k: K, v: V): (r: OMap<K, V>)
    ensures k in Keys(m) ==> |r| == |m| && Keys(r) == Keys(m)
    ensures k !in Keys(m) ==> r == m + [(k, v)]
    ensures k in Keys(r) && Get(r, k) == v
    ensures forall k' :: k' != k ==> (k' in Keys(r) <==> k' in Keys(m))
    ensures forall k' :: k' != k && k' in Keys(m) ==> Get(r, k') == Get(m, k')
    ensures DistinctKeys(m) ==> DistinctKeys(r)
  {
    var i := Find(m, k);
    var r := if i < 0 then m + [(k, v)] else m[i := (k, v)];
    assert |r| == |m| ==> Keys(r) == Keys(m);
    assert |r| > |m| ==> Keys(r) == Keys(m) + [k];
    assert Find(r, k) == (if i < 0 then |m| else i) by {
      if i < 0 { FindIsFirst(r, k, |m|); } else { FindIsFirst(r, k, i); }
    }
    assert forall k' :: k' != k && k' in Keys(m) ==> Find(r, k') == Find(m, k') by {
      forall k' | k' != k && k' in Keys(m) ensures Find(r, k') == Find(m, k') {
        FindIsFirst(r, k', Find(m, k'));
      }
    }
    r
  }

  /** Every entry after `$m[$k] = $v` was already there or is the new one. */
  lemma PutEntries<K(!new), V>(m: OMap<K, V>, k: K, v: V)
    ensures forall i :: 0 <= i < |Put(m, k, v)| ==> Put(m, k, v)[i] in m || Put(m, k, v)[i] == (k, v)
  {
    var r := Put(m, k, v);
    var f := Find(m, k);
    forall i | 0 <= i < |r| ensures r[i] in m || r[i] == (k, v) {
      if f >= 0 && i != f {
        assert r[i] == m[i];
      }
    }
  }

  /** The keys of a non-empty map: its first key, then the keys of the rest. */
  lemma KeysCons<K, V>(m: OMap<K, V>)
    requires m != []
    ensures forall k :: k in Keys(m) <==> k == m[0].0 || k in Keys(m[1..])
    ensures DistinctKeys(m) ==> DistinctKeys(m[1..]) && m[0].0 !in Keys(m[1..])
  {
    assert Keys(m) == [m[0].0] + Keys(m[1..]);
  }

  /** `unset($m[$k])`: the other entries keep their order (`RemoveCutsOut`). */
  function Remove<K(==,!new), V(==,!new)>(m: OMap<K, V>, k: K): (r: OMap<K, V>)
    ensures k !in Keys(r)
    ensures forall k' :: k' != k ==> (k' in Keys(r) <==> k' in Keys(m))
    ensures forall p :: p in r <==> p in m && p.0 != k
    ensures DistinctKeys(m) ==> DistinctKeys(r)
  {
    if m == [] then []
    else
      var tail := Remove(m[1..], k);
      KeysCons(m);
      assert forall p :: p in m <==> p == m[0] || p in m[1..];
      if m[0].0 == k then tail
      else
        var r := [m[0]] + tail;
        KeysCons(r);
        assert r[1..] == tail;
        r
  }

  /** In a map without repeated keys, `unset` cuts out the one entry for `k` and keeps the rest in order. */
  lemma ConsSlices<T>(s: seq<T>, f: nat)
    requires f + 1 < |s|
    ensures s[..f + 1] + s[f + 2..] == [s[0]] + (s[1..][..f] + s[1..][f + 1..])
  {
    assert s[..f + 1] == [s[0]] + s[1..][..f];
    assert s[f + 2..] == s[1..][f + 1..];
  }

  lemma {:induction false} RemoveCutsOut<K(!new), V(!new)>(m: OMap<K, V>, k: K)
    requires DistinctKeys(m)
    ensures Remove(m, k) == if Find(m, k) < 0 then m else m[..Find(m, k)] + m[Find(m, k) + 1..]
  {
    if m != [] {
      var tail := m[1..];
      KeysCons(m);
      RemoveCutsOut(tail, k);
      var f := Find(tail, k);
      if m[0].0 == k {
        assert Find(m, k) == 0;
        assert k !in Keys(tail);
        assert Remove(m, k) == Remove(tail, k) == tail;
        assert m[..0] + m[1..] == tail;
      } else {
        assert Remove(m, k) == [m[0]] + Remove(tail, k);
        if f < 0 {
          assert Find(m, k) == -1;
          assert m == [m[0]] + tail;
        } else {
          assert Find(m, k) == f + 1;
          assert Remove(tail, k) == tail[..f] + tail[f + 1..];
          ConsSlices(m, f);
        }
      }
    }
  }

  /** In a map without repeated keys, the entry for `k` is the one `Get` finds. */
  lemma GetOfDistinct<K, V>(m: OMap<K, V>, k: K, v: V)
    requires DistinctKeys(m) && (k, v) in m
    ensures k in Keys(m) && Get(m, k) == v
  {
    var i :| 0 <= i < |m| && m[i] == (k, v);
    assert Keys(m)[i] == k;
  }

  /** `unset($m[$k])` keeps the value of every other key. */
  lemma RemoveKeepsOthers<K(!new), V(!new)>(m: OMap<K, V>, k: K, k': K)
    requires DistinctKeys(m) && k' != k && k' in Keys(m)
    ensures k' in Keys(Remove(m, k)) && Get(Remove(m, k), k') == Get(m, k')
  {
    GetOfDistinct(Remove(m, k), k', Get(m, k'));
  }

  /** `$m[$k] ?? []` for a map whose values are lists. */
  function ListAt<K(==), T>(m: OMap<K, seq<T>>, k: K): (l: seq<T>)
    ensures k !in Keys(m) ==> l == []
  {
    var i := Find(m, k);
    if i < 0 then [] else m[i].1
  }

  /**
   * The key PHP gives to `$a[] = $v`: one past the largest integer key, or 0.
   * (PHP tracks this counter separately; for an array that only ever grew it is this value.)
   */
  function NextIndex<V>(a: PArray<V>): (n: nat)
    ensures forall k :: IntKey(k) in Keys(a) ==> k < n
    ensures n > 0 ==> IntKey(n - 1) in Keys(a)
  {
    if a == [] then 0
    else
      var init := a[..|a| - 1];
      var n0 := NextIndex(init);
      assert Keys(a) == Keys(init) + [a[|a| - 1].0];
      match a[|a| - 1].0
      case IntKey(k) => if k + 1 > n0 then k + 1 else n0
      case StrKey(_) => n0
  }

  /** `$a[] = $v`. */
  function Append<V>(a: PArray<V>, v: V): (r: PArray<V>)
    ensures r == Put(a, IntKey(NextIndex(a)), v)
    ensures |r| == |a| + 1
  {
    a + [(IntKey(NextIndex(a)), v)]
  }

  /** An array whose keys are all integers. */
  ghost predicate IntKeyed<V>(a: PArray<V>) {
    forall i :: 0 <= i < |a| ==> a[i].0.IntKey?
  }

  /** Integer keys in strictly ascending order. */
  ghost predicate Ascending<V>(a: PArray<V>)
    requires IntKeyed(a)
  {
    forall i, j :: 0 <= i < j < |a| ==> a[i].0.i < a[j].0.i
  }

  /** A list in PHP's sense: keys 0, 1, ..., n-1 in this order. */
  predicate IsList<V>(a: PArray<V>) {
    forall i :: 0 <= i < |a| ==> a[i].0 == IntKey(i)
  }

  /** Members of a permutation are members of the original. */
  lemma MultisetMembers<T>(r: seq<T>, a: seq<T>)
    requires multiset(r) == multiset(a)
    ensures forall i :: 0 <= i < |r| ==> r[i] in a
    ensures forall i :: 0 <= i < |a| ==> a[i] in r
  {
    forall i | 0 <= i < |r| ensures r[i] in a {
      assert r[i] in multiset(r);
    }
    forall i | 0 <= i < |a| ensures a[i] in r {
      assert a[i] in multiset(a);
    }
  }

  /** Putting a smaller key in front keeps an array ascending. */
  lemma PrependAscending<V>(x: (Key, V), rest: PArray<V>)
    requires x.0.IntKey? && IntKeyed(rest) && Ascending(rest)
    requires forall j :: 0 <= j < |rest| ==> x.0.i < rest[j].0.i
    ensures IntKeyed([x] + rest) && Ascending([x] + rest)
  {
    var r := [x] + rest;
    forall i, j | 0 <= i < j < |r| ensures r[i].0.i < r[j].0.i {
      assert r[j] == rest[j - 1];
      if i > 0 { assert r[i] == rest[i - 1]; }
    }
  }

  /** In an ascending array the first key is below every later one. */
  lemma AscendingHead<V>(a: PArray<V>)
    requires a != [] && IntKeyed(a) && Ascending(a)
    ensures forall x :: x in a[1..] ==> a[0].0.i < x.0.i
  {
    forall x | x in a[1..] ensures a[0].0.i < x.0.i {
      var k :| 0 <= k < |a[1..]| && a[1..][k] == x;
      assert a[k + 1] == x;
    }
  }

  /** The tail of an ascending array is ascending. */
  lemma AscendingTail<V>(a: PArray<V>)
    requires a != [] && IntKeyed(a) && Ascending(a)
    ensures IntKeyed(a[1..]) && Ascending(a[1..])
  {
    assert forall i :: 0 <= i < |a| - 1 ==> a[1..][i] == a[i + 1];
  }

  /** Putting the smallest entry back in front of an insertion into the tail. */
  lemma InsertBehindHead<V>(p: (Key, V), a: PArray<V>, rest: PArray<V>)
    requires p.0.IntKey? && a != [] && IntKeyed(a) && Ascending(a)
    requires a[0].0.i < p.0.i
    requires IntKeyed(rest) && Ascending(rest)
    requires multiset(rest) == multiset(a[1..]) + multiset{p}
    requires forall i :: 0 <= i < |rest| ==> rest[i] == p || rest[i] in a[1..]
    ensures IntKeyed([a[0]] + rest) && Ascending([a[0]] + rest)
    ensures multiset([a[0]] + rest) == multiset(a) + multiset{p}
    ensures forall i :: 0 <= i < |[a[0]] + rest| ==> ([a[0]] + rest)[i] == p || ([a[0]] + rest)[i] in a
  {
    AscendingHead(a);
    PrependAscending(a[0], rest);
    assert a == [a[0]] + a[1..];
    var r := [a[0]] + rest;
    forall i | 0 <= i < |r| ensures r[i] == p || r[i] in a {
      if i > 0 {
        assert r[i] == rest[i - 1];
      }
    }
  }

  function InsertByKey<V>(p: (Key, V), a: PArray<V>): (r: PArray<V>)
    requires p.0.IntKey? && IntKeyed(a) && Ascending(a)
    requires forall i :: 0 <= i < |a| ==> a[i].0 != p.0
    ensures IntKeyed(r) && Ascending(r)
    ensures multiset(r) == multiset(a) + multiset{p}
    ensures forall i :: 0 <= i < |r| ==> r[i] == p || r[i] in a
  {
    if a == [] || p.0.i < a[0].0.i then
      PrependAscending(p, a);
      [p] + a
    else
      AscendingTail(a);
      assert a[0].0 != p.0;
      var rest := InsertByKey(p, a[1..]);
      InsertBehindHead(p, a, rest);
      [a[0]] + rest
  }

  /** A permutation of a map's tail holds no entry with the head's key. */
  lemma TailPermutationAvoidsHead<V>(a: PArray<V>, rest: PArray<V>)
    requires a != [] && DistinctKeys(a)
    requires multiset(rest) == multiset(a[1..])
    ensures forall j :: 0 <= j < |rest| ==> rest[j].0 != a[0].0
    ensures multiset(a) == multiset{a[0]} + multiset(rest)
  {
    MultisetMembers(rest, a[1..]);
    forall j | 0 <= j < |rest| ensures rest[j].0 != a[0].0 {
      var k :| 0 <= k < |a[1..]| && a[1..][k] == rest[j];
      assert a[k + 1] == rest[j];
    }
    assert a == [a[0]] + a[1..];
  }

  /** Strictly ascending keys are distinct keys. */
  lemma AscendingIsDistinct<V>(a: PArray<V>)
    requires IntKeyed(a) && Ascending(a)
    ensures DistinctKeys(a)
  {
    forall i, j | 0 <= i < j < |a| ensures a[i].0 != a[j].0 {
      assert a[i].0.i < a[j].0.i;
    }
  }

  /** `ksort` leaves an array that is already in key order as it is. */
  lemma {:induction false} KSortOfAscending<V>(a: PArray<V>)
    requires IntKeyed(a) && Ascending(a)
    ensures DistinctKeys(a) && KSort(a) == a
    decreases |a|
  {
    AscendingIsDistinct(a);
    if a != [] {
      AscendingTail(a);
      KeysCons(a);
      KSortOfAscending(a[1..]);
      assert a == [a[0]] + a[1..];
    }
  }

  /** After `ksort` every key still maps to the value it had. */
  lemma KSortKeepsValues<V>(a: PArray<V>, k: Key)
    requires IntKeyed(a) && DistinctKeys(a) && k in Keys(a)
    ensures k in Keys(KSort(a)) && Get(KSort(a), k) == Get(a, k)
  {
    var r := KSort(a);
    assert (k, Get(a, k)) in multiset(a);
    AscendingIsDistinct(r);
    GetOfDistinct(r, k, Get(a, k));
  }

  /** PHP's `ksort` on an integer-keyed array: the same entries, ordered by key. */
  function KSort<V>(a: PArray<V>): (r: PArray<V>)
    requires IntKeyed(a) && DistinctKeys(a)
    ensures IntKeyed(r) && Ascending(r)
    ensures multiset(r) == multiset(a)
    decreases |a|
  {
    if a == [] then []
    else
      KeysCons(a);
      assert IntKeyed(a[1..]);
      var rest := KSort(a[1..]);
      TailPermutationAvoidsHead(a, rest);
      InsertByKey(a[0], rest)
  }
}
