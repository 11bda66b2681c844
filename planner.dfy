/** The planner screen's state and the handlers that replace it. */
module Planner {
  import opened Slots
  import opened Keyed
  import Toggling
  import CatalogFilter

  /** A band tab is keyed by its own id. */
  function BandId(band: string): string { band }

  /** Every slot of `xs` is enabled. */
  ghost predicate AllEnabled(xs: seq<Slot>) {
    forall i :: 0 <= i < |xs| ==> Enabled(xs[i])
  }

  /** Toggling an enabled slot never brings a disabled one into the
      selection. */
  lemma ToggleKeepsEnabled(selected: seq<Slot>, slot: Slot)
    requires AllEnabled(selected) && Enabled(slot)
    ensures AllEnabled(Toggling.Toggle(selected, slot, IdOf))
  {
    var r := Toggling.Toggle(selected, slot, IdOf);
    if slot.id in KeysOf(selected, IdOf) {
      forall i | 0 <= i < |r| ensures Enabled(r[i]) {
        assert r[i] in multiset(r);
        assert r[i] in multiset(selected);
      }
    } else {
      forall i | 0 <= i < |r| ensures Enabled(r[i]) {
        if i < |selected| { assert r[i] == selected[i]; }
      }
    }
  }

  /** The slot the demo "Add Batch" button appends; `stamp` stands for the
      clock reading that makes its id unique. */
  function DemoBatch(stamp: string): (s: Slot)
    ensures Enabled(s) && s.id == "sample-" + stamp
  {
    Slot("sample-" + stamp, 2, "5:00–7:00 PM", "Art & Design", 3000, 6, "open")
  }

  /** The `App` component's state. */
  class App {
    /** The catalog. */
    var slots: seq<Slot>
    /** The chosen sessions, in the order they were picked. */
    var selected: seq<Slot>
    var activeSubject: string
    /** The active time-band tab ids. */
    var activeTimes: seq<string>
    /** The highlighted day tab; it only drives scrolling, never filtering. */
    var activeDay: int

    /** Every chosen session was enabled when chosen, and no session is chosen
        twice. */
    ghost predicate Valid()
      reads this
    {
      && AllEnabled(selected)
      && UniqueKeys(selected, IdOf)
    }

    /** The initial state: nothing chosen, every band active, all subjects,
        Monday highlighted. */
    constructor (catalog: seq<Slot>)
      ensures Valid()
      ensures slots == catalog && selected == []
      ensures activeSubject == "all" && activeTimes == CatalogFilter.AllBands && activeDay == 1
    {
      slots := catalog;
      selected := [];
      activeSubject := "all";
      activeTimes := CatalogFilter.AllBands;
      activeDay := 1;
    }

    /** The list the slot buttons are drawn from. */
    function Visible(): (r: seq<Slot>)
      reads this
      ensures CatalogFilter.SortedByDow(r)
      ensures forall s :: multiset(r)[s] ==
                if CatalogFilter.Passes(s, activeTimes, activeSubject) then multiset(slots)[s] else 0
    {
      CatalogFilter.Filtered(slots, activeTimes, activeSubject)
    }

    /** A click on an enabled session button. Disabled buttons cannot be
        clicked, so the slot is enabled; the handler itself does not check. */
    method Toggle(slot: Slot)
      requires Valid()
      requires Enabled(slot)
      modifies this
      ensures Valid()
      ensures selected == Toggling.Toggle(old(selected), slot, IdOf)
      ensures slots == old(slots) && activeSubject == old(activeSubject)
      ensures activeTimes == old(activeTimes) && activeDay == old(activeDay)
    {
      Toggling.ToggleKeepsUnique(selected, slot, IdOf);
      ToggleKeepsEnabled(selected, slot);
      var found := Find(selected, IdOf, slot.id);
      if found.Some? {
        selected := Without(selected, IdOf, slot.id);
      } else {
        selected := selected + [slot];
      }
    }

    /** A click on a time-band tab: the band is switched off when active and
        switched on (at the end) otherwise. */
    method ToggleTime(band: string)
      requires Valid()
      modifies this
      ensures Valid()
      ensures activeTimes == Toggling.Toggle(old(activeTimes), band, BandId)
      ensures slots == old(slots) && selected == old(selected)
      ensures activeSubject == old(activeSubject) && activeDay == old(activeDay)
    {
      if band in activeTimes {
        assert band in KeysOf(activeTimes, BandId) by {
          var i :| 0 <= i < |activeTimes| && activeTimes[i] == band;
          assert BandId(activeTimes[i]) == band;
        }
        activeTimes := Without(activeTimes, BandId, band);
      } else {
        assert band !in KeysOf(activeTimes, BandId);
        activeTimes := activeTimes + [band];
      }
    }

    /** A click on a day tab: only the highlight moves; the page scroll it
        also triggers is not modelled. */
    method SelectDay(day: int)
      requires Valid()
      modifies this
      ensures Valid()
      ensures activeDay == day
      ensures slots == old(slots) && selected == old(selected)
      ensures activeSubject == old(activeSubject) && activeTimes == old(activeTimes)
    {
      activeDay := day;
    }

    /** The demo "Add Batch" button: a fixed Tuesday evening art batch
        appended to the catalog. */
    method AddDemoBatch(stamp: string)
      requires Valid()
      modifies this
      ensures Valid()
      ensures slots == old(slots) + [DemoBatch(stamp)] && selected == old(selected)
      ensures activeSubject == old(activeSubject) && activeTimes == old(activeTimes)
      ensures activeDay == old(activeDay)
    {
      slots := slots + [DemoBatch(stamp)];
    }
  }
}
