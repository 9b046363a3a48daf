# Fireworks inventory ledger — a Dafny model

This project models the core of a browser-based stock tracker for a fireworks
retailer. That core is the inventory ledger and the metrics derived from it.
It is written as pure functions over immutable sequences of item records:

- **Ledger** (`ledger.dfy`, module `Ledger`): the list mutations of the app shell.
  Quantity adjustment is clamped at zero. Removal is by id. A new item is inserted at the head.
- **Valuation** (`valuation.dfy`): total stock (Σ quantity) and total valuation (Σ quantity × retail price).
  Both are left folds from 0, like the app's `reduce`.
- **History sampler** (`history.dfy`): after every list change, today's valuation is recorded.
  A point dated today is overwritten in place, or left alone when the value is unchanged.
  Otherwise a point is appended and only the 30 most recent are kept.
- **Inventory table** (`inventory_table.dfy`): the order-preserving search filter.
  The search is case-insensitive over name or SKU, combined with an "ALL or this category" chip.
  The module also covers the low-stock flags on an item card, the wholesale-price fallback,
  and the ±1 quantity buttons.
- **Dashboard** (`dashboard.dfy`): the statistics record. It holds total stock, total valuation,
  the low-stock count and the per-category stock distribution.
  `ComputeStats` is the single-pass loop version, proved equal to the functional definitions.
- **App** (`app.dfy`): the shell as a state machine. Each event mutates the list and is then
  followed by one history sample. The module proves the invariants kept over any admissible
  run of events.
- **Seed** (`seed.dfy`): the three-item demonstration list, with worked examples.
- Support modules: `types.dfy` (records and enums), `seqs.dfy` (filter, sum, subsequence)
  and `text.dfy` (ASCII lower-casing and the substring test).

Money is in integer cents. For example, a price of 388 yuan is `38800`, and the seed's cost of 1.5 yuan is `150`.
Clock readings are parameters. `now` is the timestamp written to `lastUpdated`. `today` is the `YYYY-MM-DD` day used by the sampler.

Points of the code that shape the model:

- An adjustment for an unknown id changes nothing, timestamps included (`Ledger.UpdateUnknownId`).
- The item card reads `wholesalePrice` and `imageUrl`, but the record type in `src/types.ts` does not declare them.
  The model gives `Item` both fields as optional.
- The add form has no lower bound on the initial quantity, so `quantity` is an `int`.
  The "stock is never negative" invariant therefore needs the added item's quantity to be non-negative (`App.Admissible`).

## Model

| member | source | states |
|---|---|---|
| Ledger.UpdateQuantity | src/App.tsx:58-62 | Length is kept. Items with a different id are unchanged. A matching item gets quantity max(0, q + delta), never negative. Its timestamp is refreshed and every other field is kept. |
| Ledger.UpdateUnknownId | src/App.tsx:59-61 | An id that no item carries leaves the list exactly as it was. |
| Ledger.UpdateUnique | src/App.tsx:59-61 | With unique ids, adjusting the item at position k replaces only position k. |
| Ledger.UpdateCompose | src/App.tsx:58-62 | Two adjustments of one item equal a single adjustment by their sum, provided the first does not hit the clamp. |
| Ledger.UpdatePreservesInvariants | src/App.tsx:60 | Adjusting keeps every quantity non-negative and keeps ids unique. |
| Ledger.DeleteItem | src/App.tsx:67 | The result is a subsequence of the list. It holds exactly the items with a different id, each as often as before. An absent id leaves the list unchanged. |
| Ledger.DeleteUnique | src/App.tsx:67 | With unique ids, deleting a present id removes exactly that one entry. The others keep their order and fields. |
| Ledger.DeletePreservesInvariants | src/App.tsx:67 | Deleting keeps quantities non-negative and ids unique. |
| Ledger.AddItem | src/App.tsx:86 | The new list is the new item followed by the old list, unchanged. Its members are the new item and the old ones. |
| Ledger.AddShape | src/App.tsx:86 | Adding grows the list by one, with the new item at index 0 and the old items after it, unchanged. A fresh id keeps ids unique. |
| Ledger.DeleteUndoesAdd | src/App.tsx:67-86 | Deleting the id of a freshly added item gives back the original list. |
| Ledger.FormItem | src/App.tsx:74-85 | A submitted item gets threshold 10 and cost 0 from the form's hidden fields. So it is low-stock exactly when its quantity is at most 10. |
| Ledger.AddValuation | src/App.tsx:86 | Adding raises total valuation by quantity × price of the new item, and total stock by its quantity. |
| Ledger.DeleteValuation | src/App.tsx:67 | With unique ids, deleting a present id lowers total valuation and total stock by exactly that item's share. |
| Ledger.UpdateValuation | src/App.tsx:60 | With unique ids, adjusting the item at a given position changes total stock by (new − old quantity), and total valuation by new·price − old·price. |
| Valuation.TotalValue | src/App.tsx:38 | The left-to-right reduce of quantity × price from 0 equals the same sum taken from the head, so the running order does not matter. |
| Valuation.TotalItems | src/components/Dashboard.tsx:18 | The left-to-right reduce of quantities from 0 equals the same sum taken from the head. |
| Valuation.TotalsNonNegative | src/components/Dashboard.tsx:18-19 | Both totals are 0 for an empty list. They are non-negative when quantities and prices are. |
| Valuation.TotalsAppend | src/App.tsx:38 | The valuation fold is additive over a split of the list. |
| History.Step | src/App.tsx:40-50 | The last point is always (today, value). If it already was, the history is unchanged. A point already dated today is overwritten in place, with the length kept. Otherwise the result has min(n + 1, 30) points, the earlier ones being the most recent old points. A history of at most 30 points stays at most 30. |
| History.Sample | src/App.tsx:38-50 | The point for today carries Σ quantity × price of the current list. |
| History.SameDayLastWins | src/App.tsx:42-46 | Two samples on one day with values v1 then v2 equal a single sample with v2. |
| History.SampleIdempotent | src/App.tsx:40-50 | Sampling the same list twice on the same day gives the same history as sampling once. |
| History.StepPreservesWellFormed | src/App.tsx:40-50 | If dates strictly increase and today is no earlier than the last date, dates still strictly increase after a step. No day is then duplicated, and a history within 30 points stays within 30. |
| Text.Lower | src/components/InventoryTable.tsx:16-17 | Lower-casing keeps the length and leaves no ASCII capital. A character changes only when it is a capital, and then it becomes the matching small letter. |
| Text.Includes | src/components/InventoryTable.tsx:16-17 | The scan `includes` is true exactly when the needle occurs at some position of the haystack. |
| InventoryTable.Shown | src/components/InventoryTable.tsx:15-19 | The filter callback accepts a card exactly when the lower-cased query occurs in the lower-cased name or SKU, and the chip is ALL or equals the card's category. |
| InventoryTable.FilteredItems | src/components/InventoryTable.tsx:15-20 | The result is a subsequence of the items. Each shown item has the lower-cased query in its lower-cased name or SKU, and has the chosen category unless the chip is ALL. Every item passing both tests is shown, each as often as in the list. An empty query with ALL shows the whole list. |
| InventoryTable.FilterIgnoresQueryCase | src/components/InventoryTable.tsx:16-17 | Two queries that lower-case alike show the same cards. |
| InventoryTable.CategoryNarrows | src/components/InventoryTable.tsx:18 | The cards a category chip shows are a subsequence of the cards ALL shows: the same cards, in the same order. |
| InventoryTable.CardFlagsAgree | src/components/InventoryTable.tsx:135-144 | The red quantity styling and the warning badge both appear exactly when quantity ≤ minThreshold. |
| InventoryTable.DisplayedWholesale | src/components/InventoryTable.tsx:112 | The wholesale column shows the wholesale price when it is present and non-zero. Otherwise it shows the retail price. |
| InventoryTable.Press | src/components/InventoryTable.tsx:124-139 | The delete button leaves exactly the items whose id differs from the card's. Minus and plus keep the length and every id. They move the quantity of each item carrying the card's id by −1 or +1, clamped at zero, and leave other quantities alone. |
| InventoryTable.PressSteps | src/components/InventoryTable.tsx:131-139 | Plus and minus move the pressed item's stock by exactly +1 and −1, clamped at zero. Minus on an empty item leaves it at 0. |
| InventoryTable.PlusThenMinusRestores | src/components/InventoryTable.tsx:132-138 | With non-negative stock, plus then minus on one card restores every quantity. |
| Dashboard.LowStockCount | src/components/Dashboard.tsx:20 | The low-stock count equals the number of positions whose item has quantity ≤ minThreshold. It is therefore between 0 and the list length. |
| Dashboard.LowStockCountIsPositions | src/components/Dashboard.tsx:20 | The length of the low-stock filter equals the size of the set of low-stock positions. |
| Dashboard.Distribution | src/components/Dashboard.tsx:22-29 | No category key is repeated. The keys are exactly the categories that occur in the list. Each category's value is its summed stock. The values add up to the total stock. |
| Dashboard.DistributionEntries | src/components/Dashboard.tsx:22-29 | Every entry's value is the stock summed over its category. A category has an entry exactly when it occurs in the list. The entries sum to total stock. |
| Dashboard.BumpLookup | src/components/Dashboard.tsx:23 | One reduce step adds the item's quantity to its category's value and leaves every other category alone. |
| Dashboard.BumpUnique | src/components/Dashboard.tsx:23 | One reduce step never creates a second entry for a category. |
| Dashboard.BumpKeys | src/components/Dashboard.tsx:23 | One reduce step adds the item's category to the key set. |
| Dashboard.BumpSum | src/components/Dashboard.tsx:23 | One reduce step raises the sum of values by the item's quantity. |
| Dashboard.StatsOf | src/components/Dashboard.tsx:17-32 | The statistics agree with one another. The distribution's values add up to totalItems, with one entry per category present. lowStockCount is at most the number of items. |
| Dashboard.ComputeStats | src/components/Dashboard.tsx:17-32 | The single-pass computation equals the four reference definitions: total stock, total valuation, low-stock count and distribution. |
| App.Mount | src/App.tsx:36-52 | On first render the list is kept and today's point records its valuation. |
| App.Dispatch | src/App.tsx:36-52 | After any mutation, the last history point is (today, V). V is the total valuation the dashboard shows for the new list. |
| App.DispatchPreservesInvariant | src/App.tsx:36-86 | Every mutation followed by its sample keeps three things: unique ids, non-negative stock, and a bounded history with one point per day in date order. This needs an added item to be fresh and non-negative, and the clock not to run backwards. |
| App.ActionIds | src/App.tsx:58-86 | Adjusting and deleting never introduce an id. An id present after a mutation was present before, or is the added item's id. |
| App.WellTimedTail | src/App.tsx:36-86 | A run whose added items are fresh and non-negative, and whose calendar days never go backwards, still has those properties after its first event, counted from the state that event leaves. |
| App.RunPreservesInvariant | src/App.tsx:36-86 | Over any run whose added items carry fresh, pairwise distinct ids and non-negative stock, and whose days never go backwards: ids stay unique, quantities stay ≥ 0, and the history never exceeds 30 points or repeats a date. |
| App.BadgesMatchLowStockCount | src/components/InventoryTable.tsx:144 | With no search and the ALL chip, the number of cards with the low-stock badge equals the dashboard's low-stock count. |
| Seed.SeedIsValid | src/constants.tsx:4-44 | The demonstration list has unique ids and non-negative stock. |
| Seed.SeedStats | src/constants.tsx:4-44 | On the demonstration list, exactly 1 item is low-stock. Total stock is 219 units and total valuation is 730000 cents. |
| Seed.SeedDistribution | src/constants.tsx:4-44 | The demonstration list's distribution is cakes 15, sparklers 200, firecrackers 4, in first-appearance order. |
| Seed.RestockScenario | src/constants.tsx:31-43 | The firecracker item (4 in stock, threshold 10) is low-stock. Adding 10 gives 14, no longer low, worth 168000 cents, and the first sample of the day records that value. |
| Seed.SeedSkuSearch | src/constants.tsx:4-44 | The lower-case query "fw-" matches every upper-case SKU of the demonstration list. |
| Seed.SeedCategoryChip | src/constants.tsx:31-43 | The firecracker chip with an empty query shows only the firecracker item. |

## Left out

- Local storage reads and writes and JSON (de)serialisation at start-up and after each change (src/App.tsx:23-31, 37, 55): this is I/O. The code has no fallback for corrupt stored data, so none is modelled. `App.Mount` takes the loaded list and history as parameters.
- The `window.confirm` guard before deletion (src/App.tsx:66): a UI prompt. `Ledger.DeleteItem` models the confirmed case.
- Form parsing, `Number(...)` coercion, `Date.now()` ids and ISO timestamps (src/App.tsx:73-85): `addItem` takes a built item, and ids, `now` and `today` are parameters.
- Floating-point numbers: every JavaScript `number` becomes an unbounded integer. This covers prices and costs (integer cents), `quantity`, `minThreshold`, and the reduces at src/App.tsx:38 and src/components/Dashboard.tsx:18-19. The model's quantities and sums are therefore exact. Rounding of fractional yuan and the loss of precision above 2^53 are not modelled.
- Unicode case mapping: `Text.Lower` lower-cases ASCII letters only. Other characters, including the Chinese names, are left as they are.
- The AI insight panel and its network call (src/services/geminiService.ts, src/components/AIInsightsPanel.tsx): asynchronous I/O.
- Rendering: the charts, safety badge colours and category colours.
- Build configuration (vite.config.ts).
- Dashboard.Distribution: the entries come out in order of first appearance, as `Object.entries` yields non-numeric keys. The contract does not state that order; `Seed.SeedDistribution` shows it on one example.
- Dashboard.StatsOf: "equal item lists give equal statistics" has no lemma of its own. `StatsOf` is a function of the list alone, so it holds by construction.
- History.StepPreservesWellFormed: the date order is lexicographic order on the day strings. That is calendar order only for zero-padded `YYYY-MM-DD` days, which the model assumes without checking the format.
- App.Dispatch: React runs the history effect once each time the list changes. The model samples once per event; sampling is idempotent per day (`History.SampleIdempotent`), so extra runs make no difference.
