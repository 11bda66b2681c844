/** The add-or-remove toggle the planner applies to its selection (keyed by
    slot id) and to its list of active time bands (keyed by the band itself). */
module Toggling {
  import opened Keyed

  /** If some entry already has `x`'s key, every entry with that key goes;
      otherwise `x` is appended. */
  function Toggle<T(!new), K(==)>(xs: seq<T>, x: T, key: T -> K): (r: seq<T>)
    ensures key(x) in KeysOf(xs, key) ==>
              KeysOf(r, key) == KeysOf(xs, key) - {key(x)} && |r| < |xs|
    ensures key(x) !in KeysOf(xs, key) ==>
              KeysOf(r, key) == KeysOf(xs, key) + {key(x)} && |r| == |xs| + 1
  {
    if Find(xs, key, key(x)).Some? then
      WithoutShrinks(xs, key, key(x));
      Without(xs, key, key(x))
    else
      KeysOfAppend(xs, [x], key);
      assert KeysOf([x], key) == {key(x)} by { assert [x][0] == x; }
      xs + [x]
  }

  /** Toggling an absent key appends `x` and leaves the earlier entries as
      they were. */
  lemma ToggleAbsent<T(!new), K>(xs: seq<T>, x: T, key: T -> K)
    requires key(x) !in KeysOf(xs, key)
    ensures Toggle(xs, x, key) == xs + [x]
    ensures Toggle(xs, x, key)[..|xs|] == xs && Toggle(xs, x, key)[|xs|] == x
  {
  }

  /** Toggling a present key removes exactly the entries with that key and
      keeps the rest in order; every other entry keeps its multiplicity. */
  lemma TogglePresent<T(!new), K>(xs: seq<T>, x: T, key: T -> K)
    requires key(x) in KeysOf(xs, key)
    ensures Toggle(xs, x, key) == Without(xs, key, key(x))
    ensures forall y :: multiset(Toggle(xs, x, key))[y] ==
                          if key(y) == key(x) then 0 else multiset(xs)[y]
  {
  }

  /** A selection without duplicate keys stays without them. */
  lemma {:induction false} ToggleKeepsUnique<T(!new), K>(xs: seq<T>, x: T, key: T -> K)
    requires UniqueKeys(xs, key)
    ensures UniqueKeys(Toggle(xs, x, key), key)
  {
    if key(x) in KeysOf(xs, key) {
      WithoutUnique(xs, key, key(x));
    } else {
      var r := xs + [x];
      forall i, j | 0 <= i < j < |r| ensures key(r[i]) != key(r[j]) {
        if j == |xs| {
          assert key(r[i]) == key(xs[i]) && key(xs[i]) in KeysOf(xs, key);
        } else {
          assert r[i] == xs[i] && r[j] == xs[j];
        }
      }
    }
  }

  /** Toggling twice from a state where the key is absent gives back the very
      same sequence. */
  lemma {:induction false} ToggleTwiceAbsent<T(!new), K>(xs: seq<T>, x: T, key: T -> K)
    requires key(x) !in KeysOf(xs, key)
    ensures Toggle(Toggle(xs, x, key), x, key) == xs
  {
    var once := Toggle(xs, x, key);
    assert once == xs + [x];
    assert key(once[|xs|]) == key(x);
    WithoutAppend(xs, [x], key, key(x));
    WithoutAbsent(xs, key, key(x));
    assert Without([x], key, key(x)) == [];
  }

  /** Toggling twice from a state where the key is present gives back the same
      set of keys: the old entries with that key are replaced by `x`, moved
      to the end. */
  lemma {:induction false} ToggleTwicePresent<T(!new), K>(xs: seq<T>, x: T, key: T -> K)
    requires key(x) in KeysOf(xs, key)
    ensures Toggle(Toggle(xs, x, key), x, key) == Without(xs, key, key(x)) + [x]
    ensures KeysOf(Toggle(Toggle(xs, x, key), x, key), key) == KeysOf(xs, key)
  {
  }
}
