# Weekly afterschool planner: selection and pricing core

The planner screen (`src/App.jsx`) shows a catalog of weekly afterschool
sessions ("slots"), each held on a day of the week (`dow`, 1 = Monday), in a
time band (a display string such as `"10:00–12:00 PM"`), for a subject, at a
price in coins. A parent narrows the catalog with four time-band tabs
(morning, midday, afternoon, evening), picks sessions by clicking them, and a
bottom bar prices the week: the coin subtotal, a discount that grows with the
number of sessions chosen (1000 for two, 2500 for three, 5000 for four or
more), the amount due clamped at zero, and a nudge saying how many more
sessions reach the next tier.

This Dafny project models that core:

- `Slots` — the slot record, the enabled test (a closed slot or one with no
  seats left cannot be clicked), the per-day slice `OnDay`, and JavaScript's
  `String.prototype.includes` as `Contains`, proved equal to "occurs at some
  index".
- `Keyed` — key-based lookup (`Array.prototype.find` by id) and removal
  (`filter` on `id !==`), with their contracts over the set of keys and the
  multiset of elements.
- `Toggling` — the add-or-remove toggle shared by the session buttons and the
  time-band tabs, with the facts that it adds exactly the missing key,
  removes exactly the present one and keeps keys unique; toggling twice
  undoes itself when the key was absent, and when it was present restores
  the key set with the entry moved to the end.
- `Pricing` — the discount table, the coin subtotal, the clamped amount due,
  the next-tier nudge (computed twice in the source, proved to agree), and a
  few worked quotes.
- `CatalogFilter` — the time-band and subject tests, the filter and the
  stable sort by day, proved sorted, a permutation of the passing slots, and
  order-preserving within each day.
- `Grouping` — `groupBy` as an imperative loop building a map, and the day
  sections the list renders, proved to be exactly the days 1..7 that have a
  visible slot, in order, each grouped by time.
- `Planner` — the component state as a class `App` with the handlers that
  replace it (toggle a session, toggle a band, pick a day tab, add the demo
  batch), keeping the invariant that the selection holds only enabled slots
  and no id twice.

The model follows the code: the subject filter is a single string (`"all"`
meaning unrestricted), and the toggle handler does not itself reject disabled
slots — the disabled button is what prevents the click, so the model states
it as a precondition of `Planner.App.Toggle`.

## Model

| member | source | states |
|---|---|---|
| Slots.Enabled | src/App.jsx:94 | a slot's button is enabled unless the slot is closed or has no seat left; no contract of its own, used by `Planner.App.Valid` and `Planner.ToggleKeepsEnabled` |
| Slots.OnDay | src/App.jsx:260 | the day slice keeps only slots of that day and is no longer than its input |
| Slots.OnDayCounts | src/App.jsx:260 | every slot of that day is kept as often as it occurs, and no slot of another day is kept |
| Slots.OnDayNonEmpty | src/App.jsx:260-261 | a day's slice is non-empty exactly when some slot falls on that day |
| Slots.OnDayAppend | src/App.jsx:260 | the day slice of a concatenation is the concatenation of the day slices |
| Slots.Contains | src/App.jsx:134-137 | `String.prototype.includes` as a recursive prefix test; no contract of its own, its meaning is stated by `Slots.ContainsIffOccurs` |
| Slots.ContainsIffOccurs | src/App.jsx:134-137 | `includes` holds exactly when the marker occurs at some index of the time string |
| Keyed.Find | src/App.jsx:146 | lookup by id returns nothing exactly when no element has that id, and otherwise the first element that has it |
| Keyed.Without | src/App.jsx:147 | removal by id drops every element with that id and keeps every other element with its multiplicity; the key set loses exactly that id |
| Keyed.WithoutShrinks | src/App.jsx:147 | removing an id that is present makes the list strictly shorter |
| Keyed.WithoutAbsent | src/App.jsx:147 | removing an id that is absent changes nothing |
| Keyed.WithoutAppend | src/App.jsx:147 | removal distributes over concatenation, so relative order is kept |
| Keyed.WithoutUnique | src/App.jsx:147 | removal keeps ids unique |
| Toggling.Toggle | src/App.jsx:144-148 | toggling a present key removes exactly that key (shorter list); toggling an absent one adds exactly that key (one longer) |
| Toggling.ToggleAbsent | src/App.jsx:147 | an absent key is appended at the end, everything before unchanged |
| Toggling.TogglePresent | src/App.jsx:146-147 | a present key is removed by the id filter |
| Toggling.ToggleKeepsUnique | src/App.jsx:144-148 | a selection with unique ids keeps unique ids after a toggle |
| Toggling.ToggleTwiceAbsent | src/App.jsx:144-148 | picking an unselected session and clicking it again restores the selection exactly |
| Toggling.ToggleTwicePresent | src/App.jsx:144-148 | un-picking a selected session and picking it again moves it to the end with the same set of ids |
| Pricing.DiscountForCount | src/App.jsx:10-15 | the discount is one of 0, 1000, 2500, 5000 and is zero exactly for zero or one session |
| Pricing.DiscountTable | src/App.jsx:10-15 | the tier table row by row: at most one 0, two 1000, three 2500, four or more 5000 |
| Pricing.DiscountMonotone | src/App.jsx:10-15 | more sessions never earn a smaller discount |
| Pricing.Coins | src/App.jsx:151 | the `reduce` sum of the selected prices as a left fold from 0; no contract of its own, its meaning is stated by `Pricing.CoinsAppend` and `Pricing.CoinsBound` |
| Pricing.CoinsAppend | src/App.jsx:151 | the subtotal of two selections end to end is the sum of their subtotals |
| Pricing.CoinsBound | src/App.jsx:151 | the subtotal is at least the price of each selected session |
| Pricing.Due | src/App.jsx:326 | the amount due is never negative, never above the subtotal, and is either zero or subtotal minus discount |
| Pricing.DueExact | src/App.jsx:326 | subtotal minus discount when the subtotal covers the discount, zero otherwise |
| Pricing.NextTarget | src/App.jsx:153-160 | the bottom bar's chain of conditionals on the count; no contract of its own, characterised by `Pricing.NextTargetIsNextTier` |
| Pricing.NudgeConfig | src/App.jsx:78 | the banner's `cfg`, tested in a different order; no contract of its own, shown equal to `Pricing.NextTarget` by `Pricing.NudgeAgreesWithNextTarget` |
| Pricing.NextTargetIsNextTier | src/App.jsx:153-160 | the nudge vanishes exactly at four or more; otherwise `more` is the least number of extra sessions that raises the discount and `save` is the discount then reached |
| Pricing.NudgeAgreesWithNextTarget | src/App.jsx:78 | the banner's nudge equals the bottom bar's for every count |
| Pricing.QuoteOf | src/App.jsx:151-160 | the quote counts the selection, its due never exceeds its subtotal, and it has a nudge exactly below four sessions |
| Pricing.ToggleAddPrices | src/App.jsx:144-152 | picking a new session adds its price to the subtotal and moves the discount to the next count's tier |
| Pricing.ScenarioOneSlot | src/App.jsx:151-160 | one 3000-coin session: subtotal 3000, no discount, 3000 due, one more to save 1000 |
| Pricing.ScenarioTwoSlots | src/App.jsx:151-160 | 3000 and 2500: subtotal 5500, discount 1000, 4500 due, one more to save 2500 |
| Pricing.ScenarioClamped | src/App.jsx:151-160 | four 1000-coin sessions: the 5000 discount exceeds the 4000 subtotal and 0 is due, no nudge |
| CatalogFilter.ByTime | src/App.jsx:133-137 | the band test: some active band whose marker occurs in the time string; no contract of its own, see `CatalogFilter.AllBandsTimeTest` and `CatalogFilter.NoBandsShowsNothing` |
| CatalogFilter.BySubject | src/App.jsx:138 | the subject test, unrestricted for `"all"`; no contract of its own, see `CatalogFilter.AllSubjectsUnrestricted` |
| CatalogFilter.Passes | src/App.jsx:139 | both tests together; no contract of its own, used by `CatalogFilter.Select` and `CatalogFilter.SelectCounts` |
| CatalogFilter.Select | src/App.jsx:131-140 | the filter keeps only slots passing both the band and the subject test and never grows |
| CatalogFilter.SelectCounts | src/App.jsx:131-140 | each slot keeps its full multiplicity when it passes and disappears when it fails |
| CatalogFilter.SelectAppend | src/App.jsx:131-140 | filtering distributes over concatenation, so catalog order is kept |
| CatalogFilter.SortByDow | src/App.jsx:141 | the sort result is ordered by day, a permutation of its input, and each day's slots keep their input order (stability) |
| CatalogFilter.SortSortedIsIdentity | src/App.jsx:141 | sorting a list already ordered by day changes nothing |
| CatalogFilter.StableSortUnique | src/App.jsx:141 | two day-ordered lists with the same slots per day in the same order are equal, so the stable sort's result is determined |
| CatalogFilter.Filtered | src/App.jsx:130-142 | the visible list is ordered by day, holds only passing slots, and holds each passing catalog slot as often as the catalog does |
| CatalogFilter.SelectOnDay | src/App.jsx:131-141 | filtering then slicing by day equals slicing then filtering |
| CatalogFilter.FilteredDayInCatalogOrder | src/App.jsx:130-142 | within one day the visible slots are the passing catalog slots of that day in catalog order |
| CatalogFilter.NoBandsShowsNothing | src/App.jsx:133-137 | with every band tab off nothing is visible |
| CatalogFilter.AllBandsTimeTest | src/App.jsx:133-137 | with every band on, a slot passes the time test exactly when its time contains one of the four markers |
| CatalogFilter.AllSubjectsUnrestricted | src/App.jsx:138 | with subject "all" the subject test never excludes |
| CatalogFilter.SelectAllPass | src/App.jsx:131-140 | a catalog whose slots all pass is kept whole |
| CatalogFilter.FilteredIdempotent | src/App.jsx:130-142 | filtering the visible list again with the same settings gives it back |
| CatalogFilter.MiddayMarkerMatchesMorningSlot | src/App.jsx:135 | the midday marker "12:00" also matches the morning band string "10:00–12:00 PM", so a morning slot stays visible with only midday on |
| CatalogFilter.MorningOnlyScenario | src/App.jsx:130-141 | with only the morning band on, a "10:00–12:00 PM" slot shows and a "3:00–5:00 PM" slot does not |
| Grouping.Bucket | src/App.jsx:18-23 | the list `groupBy` builds for one key, as a fold pushing matching entries; no contract of its own, its meaning is stated by `Grouping.BucketKeys`, `Grouping.BucketCounts` and `Grouping.BucketEmpty` |
| Grouping.BucketKeys | src/App.jsx:18-23 | every element in the group for key k has key k |
| Grouping.BucketCounts | src/App.jsx:18-23 | the group for k holds each element with key k as often as the input does |
| Grouping.BucketEmpty | src/App.jsx:18-23 | the group for k is empty exactly when no element has key k |
| Grouping.GroupBy | src/App.jsx:18-23 | the map's keys are exactly the keys that occur, and each key maps to its elements in input order |
| Grouping.DaysBeforeRange | src/App.jsx:259-261 | the listed days lie in 1 up to the bound, and each listed day has a visible slot |
| Grouping.DaysBeforeIncreasing | src/App.jsx:259-261 | the listed days are strictly increasing |
| Grouping.DaysBeforeComplete | src/App.jsx:259-261 | a day below the bound is listed exactly when it has a visible slot |
| Grouping.VisibleDays | src/App.jsx:259-261 | the days 1..7 whose slice is non-empty, in order; no contract of its own, characterised by `Grouping.VisibleDaysSpec` and `Grouping.VisibleDayHasSlot` |
| Grouping.VisibleDaysSpec | src/App.jsx:259-261 | the rendered days are within 1..7, increasing, and are exactly the days with a visible slot |
| Grouping.VisibleDayHasSlot | src/App.jsx:259-261 | a weekday gets a section exactly when some visible slot falls on it |
| Grouping.DaySections | src/App.jsx:259-264 | one section per day 1..7 that has a visible slot, in day order, each holding that day's slots grouped by time |
| Planner.ToggleKeepsEnabled | src/App.jsx:94-98 | toggling an enabled slot keeps every selected slot enabled |
| Planner.DemoBatch | src/App.jsx:199-212 | the demo batch is enabled and its id is "sample-" followed by the stamp |
| Planner.App.constructor | src/App.jsx:123-127 | nothing selected, subject "all", all four bands on, Monday highlighted, the catalog loaded |
| Planner.App.Visible | src/App.jsx:130-142 | the state's visible list is day-ordered and holds exactly the passing catalog slots with their multiplicity |
| Planner.App.Toggle | src/App.jsx:144-149 | the selection becomes its toggle by id, the invariant (enabled, unique ids) is kept, nothing else changes |
| Planner.App.ToggleTime | src/App.jsx:191-193 | the active bands become their toggle by the band id, nothing else changes |
| Planner.App.SelectDay | src/App.jsx:177-178 | only the highlighted day changes |
| Planner.App.AddDemoBatch | src/App.jsx:196-214 | the catalog gains the demo batch at its end, the selection and the invariant are untouched |

## Left out

- Rendering: the React tree, CSS classes, `framer-motion` animation, labels and the "No sessions" message are display only.
- The week overview (src/App.jsx:238-249) and the button's selected flag (src/App.jsx:277) are views computed with `OnDay` and `Find`; they have no members of their own.
- The order of the time groups within a day (`localeCompare` on the keys, src/App.jsx:264): `Grouping.GroupBy` returns a map, whose keys are a set, so no order is modelled.
- Grouping.GroupBy: the source groups into a plain JavaScript object, which turns every key into a string and throws on a key naming an inherited object member (such as `"constructor"`); the model groups into a map, so neither happens. Time strings never take such values.
- `scrollIntoView` on a day-tab click and the `useRef` section registry: `Planner.App.SelectDay` only moves the highlight.
- `Date.now()` in the demo batch id becomes the `stamp` parameter of `Planner.App.AddDemoBatch`.
- Loading `batches.json`: the catalog is the constructor's parameter.
- `useMemo` caching: `Planner.App.Visible` is recomputed from the state.
- `toLocaleString` number formatting.
- Display-only slot fields (day name, date label, level, teacher, center) are not part of `Slots.Slot`.
- Changing the subject filter: `setActiveSubject` is never called in the source, so there is no handler for it; the filter still takes the subject.
- Prices are modelled as non-negative integers (`nat`); JavaScript numbers that are negative, fractional or not numbers are not modelled.
- Planner.App.Toggle: requires the slot to be enabled, because only enabled buttons can be clicked; the handler itself would add a disabled slot it was given.
- Pricing.QuoteOf: its contract states the count, the clamp and the nudge's presence; the exact subtotal, discount and due are stated by `Pricing.CoinsAppend`, `Pricing.DiscountTable` and `Pricing.DueExact`.
