/**
 * PHP's ordered arrays with non-integer keys, as a sequence of key/value
 * pairs in insertion order. Assigning to an existing key replaces its value
 * in place; assigning to a new key appends it.
 */
module Assoc {
  import opened Wrappers

  predicate HasKey<K(==), V>(a: seq<(K, V)>, k: K) {
    exists i :: 0 <= i < |a| && a[i].0 == k
  }

  /** Each key appears once, as in any PHP array. */
  predicate UniqueKeys<K(==), V>(a: seq<(K, V)>) {
    forall i, j :: 0 <= i < j < |a| ==> a[i].0 != a[j].0
  }

  /** `$a[$k]`, or `None` when `!array_key_exists($k, $a)`. */
  function Find<K(==), V>(a: seq<(K, V)>, k: K): (r: Option<V>)
    ensures r.None? <==> !HasKey(a, k)
    ensures r.Some? ==> exists i :: 0 <= i < |a| && a[i] == (k, r.value)
    decreases |a|
  {
    if a == [] then None
    else if a[0].0 == k then Some(a[0].1)
    else
      var r := Find(a[1..], k);
      assert forall i :: 1 <= i < |a| ==> a[i] == a[1..][i - 1];
      assert HasKey(a[1..], k) ==> HasKey(a, k);
      if r.Some? then
        assert exists i :: 0 <= i < |a| && a[i] == (k, r.value) by {
          var i :| 0 <= i < |a[1..]| && a[1..][i] == (k, r.value);
          assert a[i + 1] == (k, r.value);
        }
        r
      else r
  }

  /** `$a[$k] = $v`. */
  function Put<K(==), V>(a: seq<(K, V)>, k: K, v: V): seq<(K, V)>
    decreases |a|
  {
    if a == [] then [(k, v)]
    else if a[0].0 == k then [(k, v)] + a[1..]
    else [a[0]] + Put(a[1..], k, v)
  }

  /** `$a[$k][] = $v` on an array of lists. */
  function Append<K(==), V>(a: seq<(K, seq<V>)>, k: K, v: V): seq<(K, seq<V>)> {
    var old_ := Find(a, k);
    Put(a, k, (if old_.Some? then old_.value else []) + [v])
  }

  predicate NonEmptyValues<K, V>(a: seq<(K, seq<V>)>) {
    forall i :: 0 <= i < |a| ==> a[i].1 != []
  }

  /** After `$a[$k] = $v` the key `k` holds `v` and every other key keeps its value. */
  lemma {:induction false} PutFind<K, V>(a: seq<(K, V)>, k: K, v: V, t: K)
    ensures Find(Put(a, k, v), t) == if t == k then Some(v) else Find(a, t)
    decreases |a|
  {
    if a != [] && a[0].0 != k {
      PutFind(a[1..], k, v, t);
      assert Put(a, k, v)[1..] == Put(a[1..], k, v);
    } else if a != [] {
      assert Put(a, k, v)[1..] == a[1..];
    }
  }

  /** The keys after `$a[$k] = $v`: the old ones and `k`, in the same places. */
  lemma {:induction false} PutKeys<K, V>(a: seq<(K, V)>, k: K, v: V)
    ensures var r := Put(a, k, v);
            |r| == (if HasKey(a, k) then |a| else |a| + 1)
            && (forall i :: 0 <= i < |a| ==> r[i].0 == a[i].0)
            && (!HasKey(a, k) ==> r[|a|] == (k, v))
    decreases |a|
  {
    var r := Put(a, k, v);
    if a != [] && a[0].0 != k {
      var tail := a[1..];
      PutKeys(tail, k, v);
      assert r == [a[0]] + Put(tail, k, v);
      assert forall i :: 1 <= i < |a| ==> a[i] == tail[i - 1];
      assert HasKey(a, k) <==> HasKey(tail, k) by {
        if HasKey(a, k) {
          var i :| 0 <= i < |a| && a[i].0 == k;
          assert tail[i - 1].0 == k;
        }
        if HasKey(tail, k) {
          var i :| 0 <= i < |tail| && tail[i].0 == k;
          assert a[i + 1].0 == k;
        }
      }
    } else if a != [] {
      assert HasKey(a, k) by { assert a[0].0 == k; }
    }
  }

  /** Every entry after `$a[$k] = $v` is the new one or an old one. */
  lemma {:induction false} PutElems<K, V>(a: seq<(K, V)>, k: K, v: V)
    ensures forall j :: 0 <= j < |Put(a, k, v)| ==> Put(a, k, v)[j] == (k, v) || Put(a, k, v)[j] in a
    decreases |a|
  {
    if a != [] && a[0].0 != k {
      PutElems(a[1..], k, v);
      var r := Put(a, k, v);
      assert r == [a[0]] + Put(a[1..], k, v);
      forall j | 0 <= j < |r| ensures r[j] == (k, v) || r[j] in a {
        if j > 0 {
          assert r[j] == Put(a[1..], k, v)[j - 1];
          assert forall x :: x in a[1..] ==> x in a;
        }
      }
    } else if a != [] {
      assert forall x :: x in a[1..] ==> x in a;
    }
  }

  /** Assigning a key in order to every element of a list of keys. */
  function PutEach<K(==), V>(a: seq<(K, V)>, keys: seq<K>, v: V): seq<(K, V)>
    decreases |keys|
  {
    if keys == [] then a else Put(PutEach(a, keys[..|keys| - 1], v), keys[|keys| - 1], v)
  }

  /** After assigning `v` to every key of a list, each of those keys holds `v` and the others are untouched. */
  lemma {:induction false} PutEachFind<K, V>(a: seq<(K, V)>, keys: seq<K>, v: V, t: K)
    ensures Find(PutEach(a, keys, v), t) == if t in keys then Some(v) else Find(a, t)
    decreases |keys|
  {
    if keys != [] {
      var init := keys[..|keys| - 1];
      PutEachFind(a, init, v, t);
      PutFind(PutEach(a, init, v), keys[|keys| - 1], v, t);
      assert keys == init + [keys[|keys| - 1]];
    }
  }

  lemma PutHasKey<K, V>(a: seq<(K, V)>, k: K, v: V, t: K)
    ensures HasKey(Put(a, k, v), t) <==> HasKey(a, t) || t == k
  {
    PutFind(a, k, v, t);
  }

  /** `$a[$k] = $v` keeps the keys unique. */
  lemma PutUnique<K, V>(a: seq<(K, V)>, k: K, v: V)
    requires UniqueKeys(a)
    ensures UniqueKeys(Put(a, k, v))
  {
    var r := Put(a, k, v);
    PutKeys(a, k, v);
    if !HasKey(a, k) {
      forall i | 0 <= i < |a| ensures r[i].0 != k {
        assert r[i].0 == a[i].0;
      }
    }
  }

  /** The lists of an array of lists after `$a[$k][] = $v`. */
  lemma AppendFind<K, V>(a: seq<(K, seq<V>)>, k: K, v: V, t: K)
    ensures Find(Append(a, k, v), t)
            == if t == k then Some((if Find(a, k).Some? then Find(a, k).value else []) + [v]) else Find(a, t)
  {
    var old_ := Find(a, k);
    PutFind(a, k, (if old_.Some? then old_.value else []) + [v], t);
  }

  /** `$a[$k][] = $v` keeps the keys unique and every list non-empty. */
  lemma AppendUnique<K, V>(a: seq<(K, seq<V>)>, k: K, v: V)
    requires UniqueKeys(a) && NonEmptyValues(a)
    ensures UniqueKeys(Append(a, k, v)) && NonEmptyValues(Append(a, k, v))
  {
    var old_ := Find(a, k);
    var nv := (if old_.Some? then old_.value else []) + [v];
    var r := Append(a, k, v);
    PutUnique(a, k, nv);
    PutKeys(a, k, nv);
    forall i | 0 <= i < |r| ensures r[i].1 != [] {
      if i < |a| && r[i].0 != k {
        PutFind(a, k, nv, r[i].0);
        assert Find(r, r[i].0) == Some(r[i].1) by {
          FindUnique(r, i);
        }
        FindUnique(a, i);
      } else {
        if i < |a| {
          assert r[i].0 == k;
        }
        PutFind(a, k, nv, k);
        FindUnique(r, i);
      }
    }
  }

  /** With unique keys, the value found for a key is the one at its place. */
  lemma {:induction false} FindUnique<K, V>(a: seq<(K, V)>, i: nat)
    requires UniqueKeys(a) && i < |a|
    ensures Find(a, a[i].0) == Some(a[i].1)
    decreases |a|
  {
    if i > 0 {
      var tail := a[1..];
      assert forall j, l :: 0 <= j < l < |tail| ==> tail[j] == a[j + 1] && tail[l] == a[l + 1];
      FindUnique(tail, i - 1);
      assert a[0].0 != a[i].0;
    }
  }

  /** The elements of `xs` whose key is `k`, in order. */
  function Having<K(==), V>(xs: seq<V>, key: V -> K, k: K): seq<V>
    decreases |xs|
  {
    if xs == [] then []
    else Having(xs[..|xs| - 1], key, k) + (if key(xs[|xs| - 1]) == k then [xs[|xs| - 1]] else [])
  }

  /** `foreach ($xs as $x) $result[key($x)][] = $x;` */
  function GroupBy<K(==), V>(xs: seq<V>, key: V -> K): seq<(K, seq<V>)>
    decreases |xs|
  {
    if xs == [] then []
    else Append(GroupBy(xs[..|xs| - 1], key), key(xs[|xs| - 1]), xs[|xs| - 1])
  }

  /**
   * Grouping gives one non-empty group per key met, and the group of a key
   * holds exactly the elements with that key, in their original order.
   */
  lemma {:induction false} GroupByFind<K, V>(xs: seq<V>, key: V -> K, k: K)
    ensures var g := GroupBy(xs, key);
            UniqueKeys(g) && NonEmptyValues(g)
            && Find(g, k) == if Having(xs, key, k) == [] then None else Some(Having(xs, key, k))
    decreases |xs|
  {
    if xs != [] {
      var init := xs[..|xs| - 1];
      var x := xs[|xs| - 1];
      GroupByFind(init, key, k);
      AppendFind(GroupBy(init, key), key(x), x, k);
      AppendUnique(GroupBy(init, key), key(x), x);
      assert GroupBy(xs, key) == Append(GroupBy(init, key), key(x), x);
      assert Having(xs, key, k) == Having(init, key, k) + (if key(x) == k then [x] else []);
      var g := GroupBy(xs, key);
      if key(x) == k && Having(init, key, k) == [] {
        assert Having(xs, key, k) == [x];
        assert Find(g, k) == Some([x]);
      } else if key(x) == k {
        assert Find(g, k) == Some(Having(init, key, k) + [x]);
      } else {
        assert Find(g, k) == Find(GroupBy(init, key), k);
        assert Having(xs, key, k) == Having(init, key, k);
      }
      assert UniqueKeys(g);
      assert NonEmptyValues(g);
      assert Find(g, k) == (if Having(xs, key, k) == [] then None else Some(Having(xs, key, k)));
    } else {
      assert GroupBy(xs, key) == [];
      assert Find(GroupBy(xs, key), k).None?;
      assert Having(xs, key, k) == [];
    }
  }

  /** Assigning the same key twice leaves only the second value. */
  lemma {:induction false} PutPut<K, V>(a: seq<(K, V)>, k: K, v1: V, v2: V)
    ensures Put(Put(a, k, v1), k, v2) == Put(a, k, v2)
    decreases |a|
  {
    if a != [] && a[0].0 != k {
      PutPut(a[1..], k, v1, v2);
      assert Put(a, k, v1) == [a[0]] + Put(a[1..], k, v1);
      assert (Put(a, k, v1))[1..] == Put(a[1..], k, v1);
    }
  }

  /** The entries of `b` whose keys `a` lacks, in order. */
  function Missing<K(==), V>(a: seq<(K, V)>, b: seq<(K, V)>): seq<(K, V)>
    decreases |b|
  {
    if b == [] then []
    else Missing(a, b[..|b| - 1]) + (if HasKey(a, b[|b| - 1].0) then [] else [b[|b| - 1]])
  }

  /** PHP's array union `$a + $b`: every entry of `a`, then the entries of `b` under keys `a` lacks. */
  function Union<K(==), V>(a: seq<(K, V)>, b: seq<(K, V)>): seq<(K, V)> {
    a + Missing(a, b)
  }

  lemma {:induction false} FindConcat<K, V>(a: seq<(K, V)>, c: seq<(K, V)>, k: K)
    ensures Find(a + c, k) == if HasKey(a, k) then Find(a, k) else Find(c, k)
    decreases |a|
  {
    if a != [] {
      assert (a + c)[1..] == a[1..] + c;
      FindConcat(a[1..], c, k);
      if a[0].0 != k {
        assert HasKey(a, k) <==> HasKey(a[1..], k) by {
          if HasKey(a, k) {
            var i :| 0 <= i < |a| && a[i].0 == k;
            assert a[1..][i - 1].0 == k;
          }
          if HasKey(a[1..], k) {
            var i :| 0 <= i < |a[1..]| && a[1..][i].0 == k;
            assert a[i + 1].0 == k;
          }
        }
      } else {
        assert HasKey(a, k) by { assert a[0].0 == k; }
      }
    } else {
      assert a + c == c;
    }
  }

  lemma {:induction false} FindMissing<K, V>(a: seq<(K, V)>, b: seq<(K, V)>, k: K)
    requires !HasKey(a, k)
    ensures Find(Missing(a, b), k) == Find(b, k)
    decreases |b|
  {
    if b != [] {
      var init := b[..|b| - 1];
      var x := b[|b| - 1];
      FindMissing(a, init, k);
      assert b == init + [x];
      FindConcat(init, [x], k);
      FindConcat(Missing(a, init), if HasKey(a, x.0) then [] else [x], k);
      if HasKey(a, x.0) {
        assert x.0 != k;
        assert Find([x], k) == None by { assert Find([x][1..], k) == None; }
        assert Missing(a, b) == Missing(a, init) + [];
      }
      assert HasKey(Missing(a, init), k) <==> HasKey(init, k) by {
        if HasKey(Missing(a, init), k) {
          assert Find(Missing(a, init), k).Some?;
        }
        if HasKey(init, k) {
          assert Find(init, k).Some?;
        }
      }
    }
  }

  /** In `$a + $b` the left-hand entry wins on a shared key; other keys come from `b`. */
  lemma UnionFind<K, V>(a: seq<(K, V)>, b: seq<(K, V)>, k: K)
    ensures Find(Union(a, b), k) == if HasKey(a, k) then Find(a, k) else Find(b, k)
  {
    FindConcat(a, Missing(a, b), k);
    if !HasKey(a, k) {
      FindMissing(a, b, k);
    }
  }

  /** Dropping the last entry keeps the keys unique, and that key occurs nowhere before it. */
  lemma UniqueInit<K, V>(a: seq<(K, V)>)
    requires UniqueKeys(a) && a != []
    ensures UniqueKeys(a[..|a| - 1]) && !HasKey(a[..|a| - 1], a[|a| - 1].0)
  {
    var init := a[..|a| - 1];
    assert forall i :: 0 <= i < |init| ==> init[i] == a[i];
  }

  /** With unique keys, a key is found at the last entry or else in the entries before it. */
  lemma FindSnoc<K, V>(a: seq<(K, V)>, k: K)
    requires UniqueKeys(a) && a != []
    ensures Find(a, k) == if k == a[|a| - 1].0 then Some(a[|a| - 1].1) else Find(a[..|a| - 1], k)
  {
    var init := a[..|a| - 1];
    UniqueInit(a);
    assert a == init + [a[|a| - 1]];
    FindConcat(init, [a[|a| - 1]], k);
    assert Find([a[|a| - 1]], k) == if k == a[|a| - 1].0 then Some(a[|a| - 1].1) else None by {
      assert [a[|a| - 1]][1..] == [];
    }
  }

  /** `unset($a[$k])`: the other entries, in order. */
  function Unset<K(==), V>(a: seq<(K, V)>, k: K): seq<(K, V)>
    decreases |a|
  {
    if a == [] then []
    else if a[0].0 == k then Unset(a[1..], k)
    else [a[0]] + Unset(a[1..], k)
  }

  /** After `unset($a[$k])` the key is gone and every other key keeps its value. */
  lemma {:induction false} UnsetFind<K, V>(a: seq<(K, V)>, k: K, t: K)
    ensures Find(Unset(a, k), t) == if t == k then None else Find(a, t)
    decreases |a|
  {
    if a != [] {
      UnsetFind(a[1..], k, t);
      if a[0].0 != k {
        assert Unset(a, k)[1..] == Unset(a[1..], k);
      }
    }
  }

  /** Every entry left by `unset` was there before, under another key. */
  lemma {:induction false} UnsetElems<K, V>(a: seq<(K, V)>, k: K)
    ensures forall x :: x in Unset(a, k) ==> x in a && x.0 != k
    decreases |a|
  {
    if a != [] {
      UnsetElems(a[1..], k);
    }
  }

  /** `unset` keeps the keys unique. */
  lemma {:induction false} UnsetUnique<K, V>(a: seq<(K, V)>, k: K)
    requires UniqueKeys(a)
    ensures UniqueKeys(Unset(a, k))
    decreases |a|
  {
    if a != [] {
      var tail := a[1..];
      assert UniqueKeys(tail) by {
        assert forall i :: 0 <= i < |tail| ==> tail[i] == a[i + 1];
      }
      UnsetUnique(tail, k);
      UnsetElems(tail, k);
      if a[0].0 != k {
        var r := Unset(a, k);
        assert r == [a[0]] + Unset(tail, k);
        forall i | 1 <= i < |r| ensures r[i].0 != a[0].0 {
          assert r[i] in Unset(tail, k);
          var j :| 0 <= j < |tail| && tail[j] == r[i];
          assert a[j + 1] == r[i];
        }
      }
    }
  }
}
