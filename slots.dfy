/** A bookable weekly class session ("batch") of the catalog, and the few
    questions the planner asks about one. */
module Slots {

  /** One catalog entry. The catalog also carries display-only fields
      (`day`, `dateLabel`, `level`, `teacher`, `center`) that no logic reads;
      they are not modelled. `dow` is the day of the week, 1 (Monday) to 7
      (Sunday); `time` is a human-readable range such as "3:00–5:00 PM". */
  datatype Slot = Slot(
    id: string,
    dow: int,
    time: string,
    subject: string,
    coins: nat,
    seatsLeft: int,
    status: string)

  function IdOf(s: Slot): string { s.id }

  function TimeOf(s: Slot): string { s.time }

  /** A slot's button is enabled unless the batch is closed or has no seat left. */
  predicate Enabled(s: Slot) {
    !(s.status == "closed" || s.seatsLeft == 0)
  }

  /** The slots of `xs` that fall on day `d`, in the order of `xs`. */
  function OnDay(xs: seq<Slot>, d: int): (r: seq<Slot>)
    ensures |r| <= |xs|
    ensures forall i :: 0 <= i < |r| ==> r[i].dow == d
  {
    if xs == [] then []
    else
      (if xs[0].dow == d then [xs[0]] else []) + OnDay(xs[1..], d)
  }

  /** Taking one day's slots distributes over concatenation. */
  lemma {:induction false} OnDayAppend(xs: seq<Slot>, ys: seq<Slot>, d: int)
    ensures OnDay(xs + ys, d) == OnDay(xs, d) + OnDay(ys, d)
  {
    if xs == [] {
      assert xs + ys == ys;
    } else {
      assert (xs + ys)[0] == xs[0] && (xs + ys)[1..] == xs[1..] + ys;
      OnDayAppend(xs[1..], ys, d);
    }
  }

  /** Nothing of day `d` is lost: every slot of that day is kept as often as
      it occurs, and no other slot is kept. */
  lemma {:induction false} OnDayCounts(xs: seq<Slot>, d: int)
    ensures forall s :: multiset(OnDay(xs, d))[s] == if s.dow == d then multiset(xs)[s] else 0
  {
    if xs != [] {
      OnDayCounts(xs[1..], d);
      assert xs == [xs[0]] + xs[1..];
    }
  }

  /** A day's slice is non-empty exactly when some slot falls on that day. */
  lemma OnDayNonEmpty(xs: seq<Slot>, d: int)
    ensures OnDay(xs, d) != [] <==> exists i :: 0 <= i < |xs| && xs[i].dow == d
  {
    OnDayCounts(xs, d);
    if OnDay(xs, d) != [] {
      var s := OnDay(xs, d)[0];
      assert multiset(OnDay(xs, d))[s] > 0;
      assert s in multiset(xs);
      var i :| 0 <= i < |xs| && xs[i] == s;
    }
    if exists i :: 0 <= i < |xs| && xs[i].dow == d {
      var i :| 0 <= i < |xs| && xs[i].dow == d;
      assert multiset(xs)[xs[i]] > 0;
      assert xs[i] in multiset(OnDay(xs, d));
    }
  }

  /** A day that no slot falls on has no slots. */
  lemma OnDayMissing(xs: seq<Slot>, d: int)
    requires forall i :: 0 <= i < |xs| ==> xs[i].dow != d
    ensures OnDay(xs, d) == []
  {
    OnDayNonEmpty(xs, d);
  }

  /** A non-empty sequence has a slot on its first slot's day. */
  lemma OnDayHead(xs: seq<Slot>)
    requires xs != []
    ensures OnDay(xs, xs[0].dow) == [xs[0]] + OnDay(xs[1..], xs[0].dow)
  {
  }

  /** `needle` occurs in `hay` starting at index `i`. */
  predicate OccursAt(hay: string, needle: string, i: int) {
    0 <= i && i + |needle| <= |hay| && hay[i..i + |needle|] == needle
  }

  /** JavaScript's `String.prototype.includes`: `needle` is a prefix of `hay`
      or of one of its suffixes. */
  function Contains(hay: string, needle: string): bool
    decreases |hay|
  {
    needle <= hay || (hay != [] && Contains(hay[1..], needle))
  }

  lemma {:induction false} ContainsHasOccurrence(hay: string, needle: string)
    requires Contains(hay, needle)
    ensures exists i :: OccursAt(hay, needle, i)
    decreases |hay|
  {
    if needle <= hay {
      assert hay[0..|needle|] == needle;
      assert OccursAt(hay, needle, 0);
    } else {
      ContainsHasOccurrence(hay[1..], needle);
      var i :| OccursAt(hay[1..], needle, i);
      assert hay[1..][i..i + |needle|] == hay[i + 1..i + 1 + |needle|];
      assert OccursAt(hay, needle, i + 1);
    }
  }

  lemma {:induction false} OccurrenceIsContained(hay: string, needle: string, i: int)
    requires OccursAt(hay, needle, i)
    ensures Contains(hay, needle)
    decreases i
  {
    if i > 0 {
      assert hay[1..][i - 1..i - 1 + |needle|] == hay[i..i + |needle|];
      OccurrenceIsContained(hay[1..], needle, i - 1);
    } else {
      assert hay[..|needle|] == needle;
    }
  }

  /** `Contains` holds exactly when the needle occurs at some index. */
  lemma ContainsIffOccurs(hay: string, needle: string)
    ensures Contains(hay, needle) <==> exists i :: OccursAt(hay, needle, i)
  {
    if Contains(hay, needle) {
      ContainsHasOccurrence(hay, needle);
    }
    if i :| OccursAt(hay, needle, i) {
      OccurrenceIsContained(hay, needle, i);
    }
  }
}
