/** Bucketing the visible slots for display: one section per non-empty day,
    and within it one group per time string. */
module Grouping {
  import opened Slots
  import opened Keyed

  /** The entries of `xs` whose key is `k`, in the order of `xs`; written as
      a fold from the left, like the `reduce` that builds it. */
  function Bucket<T, K(==)>(xs: seq<T>, key: T -> K, k: K): seq<T> {
    if xs == [] then []
    else Bucket(xs[..|xs| - 1], key, k) + (if key(xs[|xs| - 1]) == k then [xs[|xs| - 1]] else [])
  }

  lemma BucketSnoc<T, K>(xs: seq<T>, x: T, key: T -> K, k: K)
    ensures Bucket(xs + [x], key, k) == Bucket(xs, key, k) + (if key(x) == k then [x] else [])
  {
    assert (xs + [x])[..|xs|] == xs;
  }

  /** Every entry of a bucket has the bucket's key. */
  lemma {:induction false} BucketKeys<T, K>(xs: seq<T>, key: T -> K, k: K)
    ensures forall i :: 0 <= i < |Bucket(xs, key, k)| ==> key(Bucket(xs, key, k)[i]) == k
  {
    if xs != [] {
      BucketKeys(xs[..|xs| - 1], key, k);
    }
  }

  /** A bucket holds each entry with its key as often as `xs` does, and no
      other entry. */
  lemma {:induction false} BucketCounts<T(!new), K>(xs: seq<T>, key: T -> K, k: K)
    ensures forall y :: multiset(Bucket(xs, key, k))[y] == if key(y) == k then multiset(xs)[y] else 0
  {
    if xs != [] {
      var n := |xs|;
      BucketCounts(xs[..n - 1], key, k);
      assert xs == xs[..n - 1] + [xs[n - 1]];
    }
  }

  /** A bucket is empty exactly when its key does not occur. */
  lemma {:induction false} BucketEmpty<T, K>(xs: seq<T>, key: T -> K, k: K)
    ensures Bucket(xs, key, k) == [] <==> k !in KeysOf(xs, key)
  {
    if xs != [] {
      var n := |xs|;
      var init, last := xs[..n - 1], xs[n - 1];
      BucketEmpty(init, key, k);
      assert xs == init + [last];
      KeysOfAppend(init, [last], key);
      assert KeysOf([last], key) == {key(last)} by { assert [last][0] == last; }
    }
  }

  /** `groupBy`: an object from each key occurring in `arr` to the entries
      with that key, built by pushing each entry onto its key's list. */
  method GroupBy<T, K(==)>(arr: seq<T>, keyFn: T -> K) returns (groups: map<K, seq<T>>)
    ensures groups.Keys == KeysOf(arr, keyFn)
    ensures forall k :: k in groups ==> groups[k] == Bucket(arr, keyFn, k)
  {
    groups := map[];
    var i := 0;
    while i < |arr|
      invariant 0 <= i <= |arr|
      invariant groups.Keys == KeysOf(arr[..i], keyFn)
      invariant forall k :: k in groups ==> groups[k] == Bucket(arr[..i], keyFn, k)
    {
      var item := arr[i];
      var k := keyFn(item);
      assert arr[..i + 1] == arr[..i] + [item];
      assert arr[..i + 1][..i] == arr[..i];
      KeysOfAppend(arr[..i], [item], keyFn);
      assert KeysOf([item], keyFn) == {k} by { assert [item][0] == item; }
      if k !in groups {
        BucketEmpty(arr[..i], keyFn, k);
        groups := groups[k := []];
      }
      forall k' ensures Bucket(arr[..i + 1], keyFn, k') == Bucket(arr[..i], keyFn, k')
                          + (if k == k' then [item] else []) {
        BucketSnoc(arr[..i], item, keyFn, k');
      }
      groups := groups[k := groups[k] + [item]];
      i := i + 1;
    }
    assert arr[..i] == arr;
  }

  /** `groups` holds one entry per time string of `daySlots`, listing that
      time's slots in order: what `GroupBy(daySlots, TimeOf)` returns. */
  ghost predicate GroupedByTime(daySlots: seq<Slot>, groups: map<string, seq<Slot>>) {
    && groups.Keys == KeysOf(daySlots, TimeOf)
    && forall t :: t in groups ==> groups[t] == Bucket(daySlots, TimeOf, t)
  }

  /** One rendered day: its day number and its slots grouped by time string. */
  datatype DaySection = DaySection(day: int, groups: map<string, seq<Slot>>)

  /** A section that is rendered for `filtered`: a day with at least one
      visible slot, grouped by time. */
  ghost predicate Rendered(filtered: seq<Slot>, section: DaySection) {
    && OnDay(filtered, section.day) != []
    && GroupedByTime(OnDay(filtered, section.day), section.groups)
  }

  /** The days before `d` (from Monday on) that have a visible slot, in
      order. */
  function DaysBefore(filtered: seq<Slot>, d: int): seq<int>
    decreases d
  {
    if d <= 1 then []
    else DaysBefore(filtered, d - 1) + (if OnDay(filtered, d - 1) != [] then [d - 1] else [])
  }

  /** The days of the week that get a section. */
  function VisibleDays(filtered: seq<Slot>): seq<int> {
    DaysBefore(filtered, 8)
  }

  /** The sections' days, in order. */
  function DaysOf(sections: seq<DaySection>): (r: seq<int>)
    ensures |r| == |sections|
    ensures forall j :: 0 <= j < |r| ==> r[j] == sections[j].day
  {
    if sections == [] then [] else DaysOf(sections[..|sections| - 1]) + [sections[|sections| - 1].day]
  }

  /** `DaysBefore` lists days from 1 up to `d`, each a day with a visible
      slot. */
  lemma {:induction false} DaysBeforeRange(filtered: seq<Slot>, d: int)
    ensures forall j :: 0 <= j < |DaysBefore(filtered, d)| ==>
              1 <= DaysBefore(filtered, d)[j] < d && OnDay(filtered, DaysBefore(filtered, d)[j]) != []
    decreases d
  {
    if d > 1 {
      DaysBeforeRange(filtered, d - 1);
    }
  }

  /** `DaysBefore` is strictly increasing. */
  lemma {:induction false} DaysBeforeIncreasing(filtered: seq<Slot>, d: int)
    ensures forall j, j' :: 0 <= j < j' < |DaysBefore(filtered, d)| ==>
              DaysBefore(filtered, d)[j] < DaysBefore(filtered, d)[j']
    decreases d
  {
    if d > 1 {
      DaysBeforeIncreasing(filtered, d - 1);
      DaysBeforeRange(filtered, d - 1);
    }
  }

  /** A day from 1 up to `d` is listed exactly when it has a visible slot. */
  lemma {:induction false} DaysBeforeComplete(filtered: seq<Slot>, d: int)
    ensures forall e :: 1 <= e < d && OnDay(filtered, e) != [] ==> e in DaysBefore(filtered, d)
    ensures forall e :: 1 <= e < d ==> (e in DaysBefore(filtered, d) <==> OnDay(filtered, e) != [])
    decreases d
  {
    if d > 1 {
      DaysBeforeComplete(filtered, d - 1);
    }
    DaysBeforeRange(filtered, d);
    forall e | e in DaysBefore(filtered, d) ensures OnDay(filtered, e) != [] {
      var j :| 0 <= j < |DaysBefore(filtered, d)| && DaysBefore(filtered, d)[j] == e;
    }
  }

  /** The days that get a section are the days 1 to 7 with a visible slot,
      each once, Monday first. */
  lemma VisibleDaysSpec(filtered: seq<Slot>)
    ensures forall j :: 0 <= j < |VisibleDays(filtered)| ==> 1 <= VisibleDays(filtered)[j] <= 7
    ensures forall j, j' :: 0 <= j < j' < |VisibleDays(filtered)| ==>
              VisibleDays(filtered)[j] < VisibleDays(filtered)[j']
    ensures forall e :: 1 <= e <= 7 ==> (e in VisibleDays(filtered) <==> OnDay(filtered, e) != [])
  {
    DaysBeforeRange(filtered, 8);
    DaysBeforeIncreasing(filtered, 8);
    DaysBeforeComplete(filtered, 8);
  }

  /** A weekday gets a section exactly when some visible slot falls on it. */
  lemma VisibleDayHasSlot(filtered: seq<Slot>, e: int)
    requires 1 <= e <= 7
    ensures e in VisibleDays(filtered) <==> exists i :: 0 <= i < |filtered| && filtered[i].dow == e
  {
    VisibleDaysSpec(filtered);
    OnDayNonEmpty(filtered, e);
  }

  /** The slot list's day sections: one per visible day, in day order, each
      day's slots grouped by their time string. */
  method DaySections(filtered: seq<Slot>) returns (sections: seq<DaySection>)
    ensures DaysOf(sections) == VisibleDays(filtered)
    ensures forall j :: 0 <= j < |sections| ==> Rendered(filtered, sections[j])
  {
    sections := [];
    for d := 1 to 8
      invariant DaysOf(sections) == DaysBefore(filtered, d)
      invariant forall j :: 0 <= j < |sections| ==> Rendered(filtered, sections[j])
    {
      var daySlots := OnDay(filtered, d);
      if daySlots != [] {
        var groups := GroupBy(daySlots, TimeOf);
        assert (sections + [DaySection(d, groups)])[..|sections|] == sections;
        sections := sections + [DaySection(d, groups)];
      }
    }
  }
}
