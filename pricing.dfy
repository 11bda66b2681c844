/** Weekly price of a selection: coin subtotal, count-based discount tier,
    the amount due and the "add N more to save" nudge. */
module Pricing {
  import opened Options
  import opened Slots
  import Keyed
  import Toggling

  /** Discount in coins for a selection of `n` sessions: the second session
      earns 1000, the third 2500, the fourth and beyond 5000. */
  function DiscountForCount(n: nat): (r: nat)
    ensures r in {0, 1000, 2500, 5000}
    ensures r == 0 <==> n <= 1
  {
    if n >= 4 then 5000
    else if n == 3 then 2500
    else if n == 2 then 1000
    else 0
  }

  /** The tier table, row by row. */
  lemma DiscountTable(n: nat)
    ensures n <= 1 ==> DiscountForCount(n) == 0
    ensures n == 2 ==> DiscountForCount(n) == 1000
    ensures n == 3 ==> DiscountForCount(n) == 2500
    ensures n >= 4 ==> DiscountForCount(n) == 5000
  {
  }

  /** More sessions never earn a smaller discount. */
  lemma DiscountMonotone(m: nat, n: nat)
    requires m <= n
    ensures DiscountForCount(m) <= DiscountForCount(n)
  {
  }

  /** Sum of the coin prices of a selection, as a left fold (`reduce` from 0). */
  function Coins(selected: seq<Slot>): nat {
    if selected == [] then 0
    else Coins(selected[..|selected| - 1]) + selected[|selected| - 1].coins
  }

  /** The subtotal of two selections laid end to end is the sum of their
      subtotals. */
  lemma {:induction false} CoinsAppend(a: seq<Slot>, b: seq<Slot>)
    ensures Coins(a + b) == Coins(a) + Coins(b)
  {
    if b == [] {
      assert a + b == a;
    } else {
      var c := a + b;
      assert c[..|c| - 1] == a + b[..|b| - 1];
      assert c[|c| - 1] == b[|b| - 1];
      CoinsAppend(a, b[..|b| - 1]);
    }
  }

  /** Every session contributes its price: the subtotal is at least the price
      of any one selected session. */
  lemma {:induction false} CoinsBound(selected: seq<Slot>, i: nat)
    requires i < |selected|
    ensures selected[i].coins <= Coins(selected)
  {
    var n := |selected|;
    assert selected == selected[..n - 1] + [selected[n - 1]];
    if i < n - 1 {
      CoinsBound(selected[..n - 1], i);
    }
  }

  /** `Math.max(0, coins - discount)`: the amount due, clamped at zero. */
  function Due(coins: nat, discount: nat): (r: nat)
    ensures r <= coins
    ensures r >= coins - discount
    ensures r == 0 || r == coins - discount
  {
    if coins - discount > 0 then coins - discount else 0
  }

  /** When the subtotal covers the discount, the amount due is the plain
      difference; otherwise it is zero. */
  lemma DueExact(coins: nat, discount: nat)
    ensures coins >= discount ==> Due(coins, discount) == coins - discount
    ensures coins < discount ==> Due(coins, discount) == 0
  {
  }

  /** "Add `more` more to save `save` coins." */
  datatype Nudge = Nudge(more: nat, save: nat)

  /** The planner's `nextTarget`, a chain of conditionals on the count. */
  function NextTarget(count: nat): Option<Nudge> {
    if count < 2 then Some(Nudge(2 - count, 1000))
    else if count == 2 then Some(Nudge(1, 2500))
    else if count == 3 then Some(Nudge(1, 5000))
    else None
  }

  /** The banner's `cfg`, written independently with a different test order. */
  function NudgeConfig(count: nat): Option<Nudge> {
    if count >= 4 then None
    else if count < 2 then Some(Nudge(2 - count, 1000))
    else if count == 2 then Some(Nudge(1, 2500))
    else Some(Nudge(1, 5000))
  }

  /** The nudge names the next discount tier: `more` is the least number of
      extra sessions that raises the discount, and `save` is the discount then
      reached. It disappears exactly when the top tier is reached. */
  lemma NextTargetIsNextTier(count: nat)
    ensures NextTarget(count).None? <==> count >= 4
    ensures NextTarget(count).None? ==> forall m: nat :: m >= count ==> DiscountForCount(m) == DiscountForCount(count)
    ensures NextTarget(count).Some? ==>
              var t := NextTarget(count).value;
              && t.more == (if count < 2 then 2 - count else 1)
              && t.save == DiscountForCount(count + t.more)
              && DiscountForCount(count) < t.save
              && forall m: nat :: count <= m < count + t.more ==> DiscountForCount(m) == DiscountForCount(count)
  {
  }

  /** The banner and the bottom bar always show the same nudge. */
  lemma NudgeAgreesWithNextTarget(count: nat)
    ensures NudgeConfig(count) == NextTarget(count)
  {
  }

  /** Everything the bottom bar shows about a selection. */
  datatype Quote = Quote(count: nat, coins: nat, discount: nat, due: nat, next: Option<Nudge>)

  function QuoteOf(selected: seq<Slot>): (q: Quote)
    ensures q.count == |selected|
    ensures q.due <= q.coins
    ensures q.coins >= q.discount ==> q.due == q.coins - q.discount
    ensures q.next.None? <==> |selected| >= 4
  {
    var coins := Coins(selected);
    var discount := DiscountForCount(|selected|);
    Quote(|selected|, coins, discount, Due(coins, discount), NextTarget(|selected|))
  }

  /** Selecting one more session (toggling a slot whose id is absent) adds its
      price to the subtotal and lifts the discount to the next count's tier. */
  lemma {:induction false} ToggleAddPrices(selected: seq<Slot>, slot: Slot)
    requires slot.id !in Keyed.KeysOf(selected, IdOf)
    ensures QuoteOf(Toggling.Toggle(selected, slot, IdOf)).coins == Coins(selected) + slot.coins
    ensures QuoteOf(Toggling.Toggle(selected, slot, IdOf)).discount == DiscountForCount(|selected| + 1)
  {
    Toggling.ToggleAbsent(selected, slot, IdOf);
    CoinsAppend(selected, [slot]);
    assert Coins([slot]) == slot.coins by { assert [slot][..0] == []; }
  }

  /** One open slot priced 3000: subtotal 3000, no discount, 3000 due, one more
      session to save 1000. */
  lemma ScenarioOneSlot()
    ensures var s := Slot("s1", 2, "10:00–12:00 PM", "Math", 3000, 5, "open");
            QuoteOf(Toggling.Toggle([], s, IdOf)) == Quote(1, 3000, 0, 3000, Some(Nudge(1, 1000)))
  {
    var s := Slot("s1", 2, "10:00–12:00 PM", "Math", 3000, 5, "open");
    Toggling.ToggleAbsent([], s, IdOf);
    assert [] + [s] == [s];
    assert [s][..0] == [];
    assert Coins([s]) == 3000;
  }

  /** Two sessions priced 3000 and 2500: subtotal 5500, discount 1000, 4500 due,
      one more to reach 2500. */
  lemma ScenarioTwoSlots(a: Slot, b: Slot)
    requires a.coins == 3000 && b.coins == 2500
    ensures QuoteOf([a, b]) == Quote(2, 5500, 1000, 4500, Some(Nudge(1, 2500)))
  {
    assert [a, b][..1] == [a];
    assert [a][..0] == [];
    assert Coins([a]) == 3000;
    assert Coins([a, b]) == 5500;
  }

  /** Four sessions at 1000 each: the 5000 discount exceeds the 4000 subtotal
      and the amount due is clamped to zero. */
  lemma ScenarioClamped(a: Slot, b: Slot, c: Slot, d: Slot)
    requires a.coins == 1000 && b.coins == 1000 && c.coins == 1000 && d.coins == 1000
    ensures QuoteOf([a, b, c, d]) == Quote(4, 4000, 5000, 0, None)
  {
    assert [a, b, c, d][..3] == [a, b, c];
    assert [a, b, c][..2] == [a, b];
    assert [a, b][..1] == [a];
    assert [a][..0] == [];
    assert Coins([a]) == 1000;
    assert Coins([a, b]) == 2000;
    assert Coins([a, b, c]) == 3000;
    assert Coins([a, b, c, d]) == 4000;
  }
}
