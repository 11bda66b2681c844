/** Sequences of records looked up through a key projection, as the planner
    does with `prev.find(x => x.id === slot.id)` and
    `prev.filter(x => x.id !== slot.id)`. */
module Keyed {
  import opened Options

  /** The keys that occur in `xs`. */
  function KeysOf<T, K>(xs: seq<T>, key: T -> K): set<K> {
    set i | 0 <= i < |xs| :: key(xs[i])
  }

  /** No two entries of `xs` share a key. */
  predicate UniqueKeys<T, K(==)>(xs: seq<T>, key: T -> K) {
    forall i, j :: 0 <= i < j < |xs| ==> key(xs[i]) != key(xs[j])
  }

  lemma KeysOfCons<T, K>(x: T, xs: seq<T>, key: T -> K)
    ensures KeysOf([x] + xs, key) == {key(x)} + KeysOf(xs, key)
  {
    var ys := [x] + xs;
    forall k | k in KeysOf(ys, key) ensures k in {key(x)} + KeysOf(xs, key) {
      var i :| 0 <= i < |ys| && key(ys[i]) == k;
      if i > 0 { assert key(xs[i - 1]) == k; }
    }
    forall k | k in KeysOf(xs, key) ensures k in KeysOf(ys, key) {
      var i :| 0 <= i < |xs| && key(xs[i]) == k;
      assert key(ys[i + 1]) == k;
    }
    assert key(ys[0]) == key(x);
  }

  lemma KeysOfAppend<T, K>(xs: seq<T>, ys: seq<T>, key: T -> K)
    ensures KeysOf(xs + ys, key) == KeysOf(xs, key) + KeysOf(ys, key)
  {
    var zs := xs + ys;
    forall k | k in KeysOf(zs, key) ensures k in KeysOf(xs, key) + KeysOf(ys, key) {
      var i :| 0 <= i < |zs| && key(zs[i]) == k;
      if i >= |xs| { assert key(ys[i - |xs|]) == k; }
    }
    forall k | k in KeysOf(ys, key) ensures k in KeysOf(zs, key) {
      var i :| 0 <= i < |ys| && key(ys[i]) == k;
      assert key(zs[i + |xs|]) == k;
    }
    forall k | k in KeysOf(xs, key) ensures k in KeysOf(zs, key) {
      var i :| 0 <= i < |xs| && key(xs[i]) == k;
      assert key(zs[i]) == k;
    }
  }

  /** `Array.prototype.find` with the predicate "has key `k`": the first entry
      with that key, or `None` (JavaScript's `undefined`) when there is none. */
  function Find<T, K(==)>(xs: seq<T>, key: T -> K, k: K): (r: Option<T>)
    ensures r.None? <==> k !in KeysOf(xs, key)
    ensures r.Some? ==> exists i :: 0 <= i < |xs| && xs[i] == r.value && key(xs[i]) == k
                                  && forall j :: 0 <= j < i ==> key(xs[j]) != k
  {
    if xs == [] then None
    else
      KeysOfCons(xs[0], xs[1..], key);
      assert xs == [xs[0]] + xs[1..];
      if key(xs[0]) == k then Some(xs[0])
      else
        var r := Find(xs[1..], key, k);
        assert r.Some? ==> exists i :: 0 <= i < |xs| && xs[i] == r.value && key(xs[i]) == k
                                   && forall j :: 0 <= j < i ==> key(xs[j]) != k
        by {
          if r.Some? {
            var i :| 0 <= i < |xs[1..]| && xs[1..][i] == r.value && key(xs[1..][i]) == k
                     && forall j :: 0 <= j < i ==> key(xs[1..][j]) != k;
            assert forall j :: 0 <= j < i + 1 ==> key(xs[j]) != k by {
              forall j | 0 <= j < i + 1 ensures key(xs[j]) != k {
                if j > 0 { assert xs[j] == xs[1..][j - 1]; }
              }
            }
          }
        }
        r
  }

  /** `Array.prototype.filter` with the predicate "key differs from `k`":
      every entry with key `k` dropped, the others kept in order. */
  function Without<T(!new), K(==)>(xs: seq<T>, key: T -> K, k: K): (r: seq<T>)
    ensures forall i :: 0 <= i < |r| ==> key(r[i]) != k
    ensures forall y :: multiset(r)[y] == if key(y) == k then 0 else multiset(xs)[y]
    ensures KeysOf(r, key) == KeysOf(xs, key) - {k}
    ensures |r| <= |xs|
  {
    if xs == [] then []
    else
      assert xs == [xs[0]] + xs[1..];
      KeysOfCons(xs[0], xs[1..], key);
      var rest := Without(xs[1..], key, k);
      if key(xs[0]) == k then rest
      else
        KeysOfCons(xs[0], rest, key);
        [xs[0]] + rest
  }

  /** Dropping a key distributes over concatenation: what survives keeps the
      order it had. */
  lemma {:induction false} WithoutAppend<T(!new), K>(xs: seq<T>, ys: seq<T>, key: T -> K, k: K)
    ensures Without(xs + ys, key, k) == Without(xs, key, k) + Without(ys, key, k)
  {
    if xs == [] {
      assert xs + ys == ys;
    } else {
      assert (xs + ys)[1..] == xs[1..] + ys;
      WithoutAppend(xs[1..], ys, key, k);
    }
  }

  /** Dropping a key that occurs makes the sequence strictly shorter. */
  lemma {:induction false} WithoutShrinks<T(!new), K>(xs: seq<T>, key: T -> K, k: K)
    requires k in KeysOf(xs, key)
    ensures |Without(xs, key, k)| < |xs|
  {
    KeysOfCons(xs[0], xs[1..], key);
    assert xs == [xs[0]] + xs[1..];
    if key(xs[0]) != k {
      WithoutShrinks(xs[1..], key, k);
    }
  }

  /** Dropping a key that does not occur changes nothing. */
  lemma {:induction false} WithoutAbsent<T(!new), K>(xs: seq<T>, key: T -> K, k: K)
    requires k !in KeysOf(xs, key)
    ensures Without(xs, key, k) == xs
  {
    if xs != [] {
      KeysOfCons(xs[0], xs[1..], key);
      assert xs == [xs[0]] + xs[1..];
      WithoutAbsent(xs[1..], key, k);
    }
  }

  lemma {:induction false} UniqueKeysCons<T, K>(x: T, xs: seq<T>, key: T -> K)
    ensures UniqueKeys([x] + xs, key) <==> key(x) !in KeysOf(xs, key) && UniqueKeys(xs, key)
  {
    var ys := [x] + xs;
    if UniqueKeys(ys, key) {
      forall i, j | 0 <= i < j < |xs| ensures key(xs[i]) != key(xs[j]) {
        assert xs[i] == ys[i + 1] && xs[j] == ys[j + 1];
      }
      forall i | 0 <= i < |xs| ensures key(xs[i]) != key(x) {
        assert ys[i + 1] == xs[i] && ys[0] == x;
      }
    }
    if key(x) !in KeysOf(xs, key) && UniqueKeys(xs, key) {
      forall i, j | 0 <= i < j < |ys| ensures key(ys[i]) != key(ys[j]) {
        assert ys[j] == xs[j - 1];
        if i > 0 { assert ys[i] == xs[i - 1]; }
      }
    }
  }

  /** Dropping a key keeps the keys unique. */
  lemma {:induction false} WithoutUnique<T(!new), K>(xs: seq<T>, key: T -> K, k: K)
    requires UniqueKeys(xs, key)
    ensures UniqueKeys(Without(xs, key, k), key)
  {
    if xs != [] {
      assert xs == [xs[0]] + xs[1..];
      UniqueKeysCons(xs[0], xs[1..], key);
      WithoutUnique(xs[1..], key, k);
      var rest := Without(xs[1..], key, k);
      if key(xs[0]) != k {
        UniqueKeysCons(xs[0], rest, key);
      }
    }
  }
}
