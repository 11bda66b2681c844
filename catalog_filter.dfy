/** The planner's visible catalog: slots passing the time-band and subject
    tests, stably sorted by day of the week. */
module CatalogFilter {
  import opened Slots

  /** The four time-band tab ids, the default value of `activeTimes`. */
  const AllBands: seq<string> := ["morning", "midday", "afternoon", "evening"]

  /** The time-band test: some active band's marker occurs in the slot's time
      string. This is a plain substring match, not an interval check, so
      "10:00–12:00 PM" carries both the morning and the midday marker. */
  predicate ByTime(activeTimes: seq<string>, time: string) {
    || ("morning" in activeTimes && Contains(time, "10:00"))
    || ("midday" in activeTimes && Contains(time, "12:00"))
    || ("afternoon" in activeTimes && Contains(time, "3:00"))
    || ("evening" in activeTimes && Contains(time, "5:00"))
  }

  /** The subject test: the subject "all" lets every slot through. */
  predicate BySubject(activeSubject: string, subject: string) {
    activeSubject == "all" || subject == activeSubject
  }

  predicate Passes(s: Slot, activeTimes: seq<string>, activeSubject: string) {
    ByTime(activeTimes, s.time) && BySubject(activeSubject, s.subject)
  }

  /** `slots.filter(...)`: the slots passing both tests, in catalog order. */
  function Select(slots: seq<Slot>, activeTimes: seq<string>, activeSubject: string): (r: seq<Slot>)
    ensures |r| <= |slots|
    ensures forall i :: 0 <= i < |r| ==> Passes(r[i], activeTimes, activeSubject)
  {
    if slots == [] then []
    else
      (if Passes(slots[0], activeTimes, activeSubject) then [slots[0]] else [])
        + Select(slots[1..], activeTimes, activeSubject)
  }

  /** A slot occurs in the selection as often as in the catalog when it passes,
      and not at all otherwise. */
  lemma {:induction false} SelectCounts(slots: seq<Slot>, activeTimes: seq<string>, activeSubject: string)
    ensures forall s :: multiset(Select(slots, activeTimes, activeSubject))[s]
                     == if Passes(s, activeTimes, activeSubject) then multiset(slots)[s] else 0
  {
    if slots != [] {
      SelectCounts(slots[1..], activeTimes, activeSubject);
      assert slots == [slots[0]] + slots[1..];
    }
  }

  /** Non-decreasing by day of the week. */
  predicate SortedByDow(xs: seq<Slot>) {
    forall i, j :: 0 <= i < j < |xs| ==> xs[i].dow <= xs[j].dow
  }

  /** Places `x` in front of the first slot whose day is not earlier than its
      own; every slot passed over lies on an earlier day. */
  function InsertByDow(x: Slot, s: seq<Slot>): (r: seq<Slot>)
    ensures |r| == |s| + 1
  {
    if s == [] || x.dow <= s[0].dow then [x] + s
    else [s[0]] + InsertByDow(x, s[1..])
  }

  lemma {:induction false} InsertByDowPermutes(x: Slot, s: seq<Slot>)
    ensures multiset(InsertByDow(x, s)) == multiset(s) + multiset{x}
  {
    if !(s == [] || x.dow <= s[0].dow) {
      InsertByDowPermutes(x, s[1..]);
      assert s == [s[0]] + s[1..];
    }
  }

  /** A slot followed by a sorted sequence whose days are all at least the
      slot's own is sorted. */
  lemma SortedCons(h: Slot, t: seq<Slot>)
    requires SortedByDow(t)
    requires forall j :: 0 <= j < |t| ==> h.dow <= t[j].dow
    ensures SortedByDow([h] + t)
  {
    var r := [h] + t;
    forall i, j | 0 <= i < j < |r| ensures r[i].dow <= r[j].dow {
      assert r[j] == t[j - 1];
      if i > 0 { assert r[i] == t[i - 1]; }
    }
  }

  /** Inserting keeps every slot's day at or above a common lower bound. */
  lemma {:induction false} InsertByDowAbove(x: Slot, s: seq<Slot>, b: int)
    requires b <= x.dow
    requires forall j :: 0 <= j < |s| ==> b <= s[j].dow
    ensures forall j :: 0 <= j < |InsertByDow(x, s)| ==> b <= InsertByDow(x, s)[j].dow
  {
    if !(s == [] || x.dow <= s[0].dow) {
      InsertByDowAbove(x, s[1..], b);
      var rest := InsertByDow(x, s[1..]);
      forall j | 0 <= j < |[s[0]] + rest| ensures b <= ([s[0]] + rest)[j].dow {
        if j > 0 { assert ([s[0]] + rest)[j] == rest[j - 1]; }
      }
    } else {
      var r := [x] + s;
      forall j | 0 <= j < |r| ensures b <= r[j].dow {
        if j > 0 { assert r[j] == s[j - 1]; }
      }
    }
  }

  lemma {:induction false} InsertByDowSorted(x: Slot, s: seq<Slot>)
    requires SortedByDow(s)
    ensures SortedByDow(InsertByDow(x, s))
  {
    if s == [] || x.dow <= s[0].dow {
      SortedCons(x, s);
    } else {
      var tail := s[1..];
      assert SortedByDow(tail) by {
        forall i, j | 0 <= i < j < |tail| ensures tail[i].dow <= tail[j].dow {
          assert tail[i] == s[i + 1] && tail[j] == s[j + 1];
        }
      }
      InsertByDowSorted(x, tail);
      assert forall j :: 0 <= j < |tail| ==> s[0].dow <= tail[j].dow by {
        forall j | 0 <= j < |tail| ensures s[0].dow <= tail[j].dow {
          assert tail[j] == s[j + 1];
        }
      }
      InsertByDowAbove(x, tail, s[0].dow);
      SortedCons(s[0], InsertByDow(x, tail));
    }
  }

  /** On `x`'s own day, `x` comes before the slots of `s`; other days are
      untouched. */
  lemma {:induction false} InsertByDowOnDay(x: Slot, s: seq<Slot>, d: int)
    ensures OnDay(InsertByDow(x, s), d) == if x.dow == d then [x] + OnDay(s, d) else OnDay(s, d)
  {
    if s == [] || x.dow <= s[0].dow {
      assert ([x] + s)[0] == x && ([x] + s)[1..] == s;
    } else {
      InsertByDowOnDay(x, s[1..], d);
      var rest := InsertByDow(x, s[1..]);
      assert ([s[0]] + rest)[0] == s[0] && ([s[0]] + rest)[1..] == rest;
    }
  }

  /** Inserting the head of a sequence into a stable sort of its tail gives a
      stable sort of the whole sequence. */
  lemma InsertByDowStep(xs: seq<Slot>, rest: seq<Slot>)
    requires xs != []
    requires SortedByDow(rest) && multiset(rest) == multiset(xs[1..])
    requires forall d :: OnDay(rest, d) == OnDay(xs[1..], d)
    ensures SortedByDow(InsertByDow(xs[0], rest))
    ensures multiset(InsertByDow(xs[0], rest)) == multiset(xs)
    ensures forall d :: OnDay(InsertByDow(xs[0], rest), d) == OnDay(xs, d)
  {
    InsertByDowSorted(xs[0], rest);
    InsertByDowPermutes(xs[0], rest);
    assert xs == [xs[0]] + xs[1..];
    assert multiset(xs) == multiset{xs[0]} + multiset(xs[1..]);
    forall d ensures OnDay(InsertByDow(xs[0], rest), d) == OnDay(xs, d) {
      InsertByDowOnDay(xs[0], rest, d);
      if xs[0].dow != d {
        assert OnDay(xs, d) == [] + OnDay(xs[1..], d) == OnDay(xs[1..], d);
      }
    }
  }

  /** `sort((a, b) => a.dow - b.dow)`, stable: sorted by day, a permutation of
      the input, and on each day the slots keep their input order. */
  function SortByDow(xs: seq<Slot>): (r: seq<Slot>)
    ensures SortedByDow(r)
    ensures multiset(r) == multiset(xs)
    ensures forall d :: OnDay(r, d) == OnDay(xs, d)
  {
    if xs == [] then []
    else
      var rest := SortByDow(xs[1..]);
      InsertByDowStep(xs, rest);
      InsertByDow(xs[0], rest)
  }

  /** Sorting an already sorted sequence leaves it as it is. */
  lemma {:induction false} SortSortedIsIdentity(xs: seq<Slot>)
    requires SortedByDow(xs)
    ensures SortByDow(xs) == xs
  {
    if xs != [] {
      SortSortedIsIdentity(xs[1..]);
      assert xs == [xs[0]] + xs[1..];
    }
  }

  /** Being sorted by day and keeping each day's order pin a sequence down:
      any stable sort by day gives the same result as `SortByDow`. */
  lemma {:induction false} StableSortUnique(r1: seq<Slot>, r2: seq<Slot>)
    requires SortedByDow(r1) && SortedByDow(r2)
    requires forall d :: OnDay(r1, d) == OnDay(r2, d)
    ensures r1 == r2
  {
    if r1 == [] || r2 == [] {
      if r1 != [] {
        OnDayHead(r1);
        assert false;
      }
      if r2 != [] {
        OnDayHead(r2);
        assert false;
      }
    } else {
      var a, b := r1[0], r2[0];
      if a.dow < b.dow {
        OnDayMissing(r2, a.dow);
        assert false;
      }
      if b.dow < a.dow {
        OnDayMissing(r1, b.dow);
        assert false;
      }
      var m := a.dow;
      assert OnDay(r1, m) == [a] + OnDay(r1[1..], m);
      assert OnDay(r2, m) == [b] + OnDay(r2[1..], m);
      assert a == OnDay(r1, m)[0] == OnDay(r2, m)[0] == b;
      forall d ensures OnDay(r1[1..], d) == OnDay(r2[1..], d) {
        assert OnDay(r1, d) == OnDay(r2, d);
        if d == m {
          var x1, x2 := OnDay(r1[1..], d), OnDay(r2[1..], d);
          assert x1 == ([a] + x1)[1..] == OnDay(r1, d)[1..];
          assert x2 == ([b] + x2)[1..] == OnDay(r2, d)[1..];
        } else {
          var x1, x2 := OnDay(r1[1..], d), OnDay(r2[1..], d);
          assert OnDay(r1, d) == [] + x1 == x1;
          assert OnDay(r2, d) == [] + x2 == x2;
        }
      }
      StableSortUnique(r1[1..], r2[1..]);
      assert r1 == [a] + r1[1..] && r2 == [b] + r2[1..];
    }
  }

  /** The `filtered` list of the planner. */
  function Filtered(slots: seq<Slot>, activeTimes: seq<string>, activeSubject: string): (r: seq<Slot>)
    ensures SortedByDow(r)
    ensures forall i :: 0 <= i < |r| ==> Passes(r[i], activeTimes, activeSubject)
    ensures forall s :: multiset(r)[s] == if Passes(s, activeTimes, activeSubject) then multiset(slots)[s] else 0
  {
    var r := SortByDow(Select(slots, activeTimes, activeSubject));
    SelectCounts(slots, activeTimes, activeSubject);
    assert forall i :: 0 <= i < |r| ==> Passes(r[i], activeTimes, activeSubject) by {
      forall i | 0 <= i < |r| ensures Passes(r[i], activeTimes, activeSubject) {
        assert r[i] in multiset(r);
      }
    }
    r
  }

  lemma {:induction false} SelectAppend(xs: seq<Slot>, ys: seq<Slot>, activeTimes: seq<string>, activeSubject: string)
    ensures Select(xs + ys, activeTimes, activeSubject)
         == Select(xs, activeTimes, activeSubject) + Select(ys, activeTimes, activeSubject)
  {
    if xs == [] {
      assert xs + ys == ys;
    } else {
      assert (xs + ys)[0] == xs[0] && (xs + ys)[1..] == xs[1..] + ys;
      SelectAppend(xs[1..], ys, activeTimes, activeSubject);
    }
  }

  /** Filtering commutes with taking one day's slots. */
  lemma {:induction false} SelectOnDay(slots: seq<Slot>, activeTimes: seq<string>, activeSubject: string, d: int)
    ensures OnDay(Select(slots, activeTimes, activeSubject), d)
         == Select(OnDay(slots, d), activeTimes, activeSubject)
  {
    if slots != [] {
      var h, tail := slots[0], slots[1..];
      SelectOnDay(tail, activeTimes, activeSubject, d);
      var ph := if Passes(h, activeTimes, activeSubject) then [h] else [];
      var dh := if h.dow == d then [h] else [];
      OnDayAppend(ph, Select(tail, activeTimes, activeSubject), d);
      SelectAppend(dh, OnDay(tail, d), activeTimes, activeSubject);
      assert OnDay(ph, d) == Select(dh, activeTimes, activeSubject);
    }
  }

  /** Stability: on any one day the filtered list shows the passing slots in
      catalog order. */
  lemma FilteredDayInCatalogOrder(slots: seq<Slot>, activeTimes: seq<string>, activeSubject: string, d: int)
    ensures OnDay(Filtered(slots, activeTimes, activeSubject), d)
         == Select(OnDay(slots, d), activeTimes, activeSubject)
  {
    SelectOnDay(slots, activeTimes, activeSubject, d);
  }

  /** With no band active, nothing is shown. */
  lemma NoBandsShowsNothing(slots: seq<Slot>, activeSubject: string)
    ensures Filtered(slots, [], activeSubject) == []
  {
  }

  /** With every band active, a slot passes the time test exactly when its time
      string carries one of the four markers. */
  lemma AllBandsTimeTest(s: Slot, activeSubject: string)
    ensures Passes(s, AllBands, activeSubject) <==>
              (|| Contains(s.time, "10:00") || Contains(s.time, "12:00")
               || Contains(s.time, "3:00") || Contains(s.time, "5:00"))
              && BySubject(activeSubject, s.subject)
  {
  }

  /** The subject "all" imposes no subject restriction. */
  lemma AllSubjectsUnrestricted(s: Slot, activeTimes: seq<string>)
    ensures Passes(s, activeTimes, "all") <==> ByTime(activeTimes, s.time)
  {
  }

  /** Selecting from slots that all pass keeps them all. */
  lemma {:induction false} SelectAllPass(slots: seq<Slot>, activeTimes: seq<string>, activeSubject: string)
    requires forall i :: 0 <= i < |slots| ==> Passes(slots[i], activeTimes, activeSubject)
    ensures Select(slots, activeTimes, activeSubject) == slots
  {
    if slots != [] {
      SelectAllPass(slots[1..], activeTimes, activeSubject);
      assert slots == [slots[0]] + slots[1..];
    }
  }

  /** Filtering the filtered list again with the same filter state changes
      nothing. */
  lemma FilteredIdempotent(slots: seq<Slot>, activeTimes: seq<string>, activeSubject: string)
    ensures var once := Filtered(slots, activeTimes, activeSubject);
            Filtered(once, activeTimes, activeSubject) == once
  {
    var once := Filtered(slots, activeTimes, activeSubject);
    SelectAllPass(once, activeTimes, activeSubject);
    SortSortedIsIdentity(once);
  }

  /** A "10:00–12:00 PM" session passes when only the midday band is active,
      because its end time carries the midday marker. */
  lemma MiddayMarkerMatchesMorningSlot(s: Slot)
    requires s.time == "10:00–12:00 PM"
    ensures ByTime(["midday"], s.time)
  {
    assert s.time[6..6 + 5] == "12:00";
    ContainsIffOccurs(s.time, "12:00");
    assert OccursAt(s.time, "12:00", 6);
  }

  /** Only the morning band active, one morning and one afternoon session in
      the catalog: only the morning session is shown. */
  lemma MorningOnlyScenario(m: Slot, a: Slot)
    requires m.time == "10:00–12:00 PM" && a.time == "3:00–5:00 PM"
    ensures Filtered([m, a], ["morning"], "all") == [m]
  {
    assert m.time[..5] == "10:00";
    assert Passes(m, ["morning"], "all");
    assert !Contains(a.time, "10:00") by {
      ContainsIffOccurs(a.time, "10:00");
      assert forall j :: 0 <= j < |a.time| ==> a.time[j] != '1';
      forall i ensures !OccursAt(a.time, "10:00", i) {
        if 0 <= i && i + 5 <= |a.time| {
          assert a.time[i..i + 5][0] == a.time[i];
        }
      }
    }
    assert [m, a][1..] == [a];
    assert Select([m, a], ["morning"], "all") == [m];
    SortSortedIsIdentity([m]);
  }
}
