# Cart state machine of the food-order app, in Dafny

This project models the shopping cart of a meal-ordering page. It has three parts:

- **The cart reducer** (`cart_reducer.dfy`, module `CartReducer`). This is `cartReducer` from `src/store/CartProvider.js`. It is a pure function from a snapshot `{items, totalAmount}` and an action to the next snapshot. ADD merges an item into the entry with the same id, or appends it. REMOVE takes away one unit, and deletes the entry when its last unit goes. Any other action type resets the cart to the empty default state. The total is kept up to date by a per-action delta and is never recomputed.
- **The cart store** (`cart_store.dfy`, module `CartStore`). This is `CartProvider`. The class `Store` holds the current snapshot. `Dispatch` replaces it with the reducer's result, and `AddItem` / `RemoveItem` dispatch ADD and REMOVE.
- **The header cart button** (`header_cart_button.dfy`, module `HeaderCartButton`). This is `src/components/Layout/HeaderCartButton.js`: a badge count (the sum of the amounts) and a short highlight. The highlight is a class `Button` with a `highlighted` flag and one timer slot, driven by three explicit events: `Change(items)`, `TimerFires` and `Unmount`.

Numbers:
- Prices are `nat`: whole cents.
- Amounts are `int`, because the reducer never checks them.
- `totalAmount` is `int`.

With whole numbers, "total equals the sum of price × amount" can be stated exactly. The invariant `Wellformed` says three things: ids are unique, every amount is at least 1, and the total equals that sum. ADD keeps it when the incoming amount is positive and the incoming price matches the stored price for that id. REMOVE always keeps it. `AddAtStalePriceBreaksTotal` shows that ADD at a different price makes the total drift. The three parts are also proved separately: every action keeps ids unique, with no condition at all, and amounts stay positive whenever ADD brings a positive amount. So the store's own invariant `Valid` (unique ids) survives every call, even after the total has drifted.

Where the code's behaviour is surprising, the model follows the code:
- An unrecognised action type resets the cart to the empty default state (`Action.Unrecognized`).
- REMOVE of an id that is not in the cart reads `.price` of `undefined` and throws in the code. The model returns `Err(MissingItem(id))`. The store then reports `false` and keeps its state.
- ADD has no amount or price check in the code, so the model has none either. Positivity is a precondition of the invariant lemmas, not a rejection path.

## Model

| member | source | states |
|---|---|---|
| `CartReducer.DefaultIsWellformed` | src/store/CartProvider.js:4-7 | the default state has no items and a total of 0, and satisfies the cart invariant |
| `CartReducer.FindIndex` | src/store/CartProvider.js:21-22 | the result is -1 exactly when no entry has the id; otherwise it is the first index whose entry has the id |
| `CartReducer.Without` | src/store/CartProvider.js:56 | no entry that survives the filter carries the id, and the filter never grows the list |
| `CartReducer.WithoutConcat` | src/store/CartProvider.js:56 | filtering distributes over concatenation, so survivors keep their relative order |
| `CartReducer.WithoutSingle` | src/store/CartProvider.js:56 | when slot k is the only entry with its id, filtering that id out deletes exactly slot k and keeps the order of the rest |
| `CartReducer.WithoutMembers` | src/store/CartProvider.js:56 | an entry survives the filter exactly when it was in the list and its id differs |
| `CartReducer.AddToCart` | src/store/CartProvider.js:16-44 | ADD always raises the total by incoming price × incoming amount; the list grows by one exactly when the id was absent; afterwards the id is present |
| `CartReducer.AddAppendsNew` | src/store/CartProvider.js:34-37 | ADD of an absent id appends the incoming item at the end, and earlier entries keep their positions and values |
| `CartReducer.AddMergesExisting` | src/store/CartProvider.js:21-33 | ADD of a present id replaces only the first entry with that id, by a copy with amount old + incoming and the same id, name, price and position; the length is unchanged and no other entry changes |
| `CartReducer.ScenarioOrderPreserved` | src/store/CartProvider.js:21-37 | ADD a, ADD b, ADD a leaves the order a, b with a merged |
| `CartReducer.AddPreservesUnique` | src/store/CartProvider.js:21-37 | ADD keeps ids unique |
| `CartReducer.AddPreservesPositive` | src/store/CartProvider.js:26-37 | ADD of a positive amount keeps every amount positive |
| `CartReducer.AddMergePreservesTotal` | src/store/CartProvider.js:17-33 | a merging ADD at the stored price keeps total = Σ price × amount |
| `CartReducer.AddAppendPreservesTotal` | src/store/CartProvider.js:17 | an appending ADD keeps total = Σ price × amount |
| `CartReducer.AddPreservesWellformed` | src/store/CartProvider.js:16-44 | ADD keeps the whole cart invariant, given a positive amount and the stored price for an existing id |
| `CartReducer.AddAtStalePriceBreaksTotal` | src/store/CartProvider.js:26-33 | a second ADD of an id at another price leaves the stored price, so the total (12) no longer equals the sum (10) |
| `CartReducer.RemoveFromCart` | src/store/CartProvider.js:47-70 | REMOVE fails exactly when the id is absent, with MissingItem(id); on success the list never grows |
| `CartReducer.RemoveOneUnit` | src/store/CartProvider.js:57-62 | REMOVE on an entry whose amount is not 1 replaces it in place with amount − 1; the length and all other entries are unchanged; the total drops by the stored price, not by price × amount |
| `CartReducer.RemoveLastUnit` | src/store/CartProvider.js:48-56 | REMOVE on an entry with amount 1 filters its id out and lowers the total by the stored price; with unique ids exactly that slot goes and the list shrinks by one |
| `CartReducer.RemoveLowersTotalByPrice` | src/store/CartProvider.js:47-53 | REMOVE of any present id succeeds and lowers the total by the stored price of the first entry with that id, whatever its amount |
| `CartReducer.RemovePreservesUnique` | src/store/CartProvider.js:54-62 | REMOVE keeps ids unique, with no condition on prices or the total |
| `CartReducer.RemovePreservesPositive` | src/store/CartProvider.js:54-62 | REMOVE keeps every amount at least 1, even when ids repeat |
| `CartReducer.ReducePreservesUnique` | src/store/CartProvider.js:13-73 | every action keeps ids unique, with no condition on prices or amounts |
| `CartReducer.ReducePreservesPositive` | src/store/CartProvider.js:13-73 | every action keeps amounts positive, provided an ADD brings a positive amount |
| `CartReducer.RemoveLastUnitPreservesWellformed` | src/store/CartProvider.js:54-56 | the deleting REMOVE keeps the cart invariant |
| `CartReducer.RemoveOneUnitPreservesWellformed` | src/store/CartProvider.js:57-62 | the decrementing REMOVE keeps the cart invariant |
| `CartReducer.RemovePreservesWellformed` | src/store/CartProvider.js:47-70 | every successful REMOVE keeps the cart invariant |
| `CartReducer.Reduce` | src/store/CartProvider.js:13-73 | any action type other than ADD and REMOVE yields the empty default state; the reducer fails exactly on REMOVE of an absent id |
| `CartReducer.ReducePreservesWellformed` | src/store/CartProvider.js:13-73 | the reducer keeps the cart invariant, with ADD under a positive amount and the stored price |
| `CartReducer.WellformedTotalNonNegative` | src/store/CartProvider.js:17-50 | in a cart that satisfies the invariant, the total is never negative |
| `CartReducer.RemoveTimesBelowAmount` | src/store/CartProvider.js:48-62 | m < amount REMOVEs of the first entry with an id leave it in place with amount − m, lower the total by price × m, and change no other entry |
| `CartReducer.DrainToLastUnit` | src/store/CartProvider.js:57-62 | amount − 1 REMOVEs of the first entry with an id leave it with exactly one unit and the total lowered by price × (amount − 1) |
| `CartReducer.DrainEntryDeletes` | src/store/CartProvider.js:48-63 | exactly amount REMOVEs delete the entry's slot and lower the total by price × amount |
| `CartReducer.DrainEntry` | src/store/CartProvider.js:47-70 | after amount REMOVEs the entry is gone; one more REMOVE fails with MissingItem |
| `CartReducer.ScenarioAddMergeRemove` | src/store/CartProvider.js:13-73 | from empty: ADD x×2 gives total 10, ADD x×1 merges to amount 3 and total 15, and REMOVE steps to amount 2, then to an empty cart with total 0; a fourth REMOVE fails |
| `CartStore.Store.constructor` | src/store/CartProvider.js:77-80 | the store starts in the empty default state, with unique ids and the full cart invariant |
| `CartStore.Store.Dispatch` | src/store/CartProvider.js:77-80 | the held state becomes the reducer's result, or stays unchanged when the reducer fails; ids stay unique unconditionally, amounts stay positive under a positive ADD, and the full invariant is kept under a positive ADD at the stored price |
| `CartStore.Store.AddItem` | src/store/CartProvider.js:83-85 | the held state becomes the ADD result; ids stay unique even at a stale price; positivity is kept under a positive amount, and the full invariant also needs the stored price |
| `CartStore.Store.RemoveItem` | src/store/CartProvider.js:87-89 | succeeds exactly when the id is present; then the held state becomes the REMOVE result, otherwise it is unchanged; unique ids, positivity and the full invariant are each kept |
| `CartStore.AddTwoRemoveOne` | src/store/CartProvider.js:83-89 | from a fresh store, adding an item with amount 2 and removing its id leaves that item with amount 1 and a total of its price |
| `HeaderCartButton.ReduceAmountsIsSum` | src/components/Layout/HeaderCartButton.js:14-16 | the left fold over the amounts equals the start value plus the sum of the amounts |
| `HeaderCartButton.NumberOfCartItems` | src/components/Layout/HeaderCartButton.js:14-16 | the badge count is the sum of the item amounts, and 0 for an empty cart |
| `HeaderCartButton.BadgeAtLeastLines` | src/components/Layout/HeaderCartButton.js:14-16 | with positive amounts, the badge count is at least the number of entries |
| `HeaderCartButton.AddRaisesBadge` | src/components/Layout/HeaderCartButton.js:14-16 | through the reducer, ADD raises the badge count by the incoming amount, whether it merged or appended |
| `HeaderCartButton.RemoveLowersBadgeByOne` | src/components/Layout/HeaderCartButton.js:14-16 | through the reducer, REMOVE of a present id lowers the badge count by exactly 1 (ids unique) |
| `HeaderCartButton.Button.constructor` | src/components/Layout/HeaderCartButton.js:8 | the highlight starts off, with no pending timer |
| `HeaderCartButton.Button.Change` | src/components/Layout/HeaderCartButton.js:21-36 | the previous timer is cancelled first; a non-empty list turns the highlight on and leaves exactly one 300 ms timer pending; an empty list leaves the highlight as it was and no timer |
| `HeaderCartButton.Button.TimerFires` | src/components/Layout/HeaderCartButton.js:28-30 | a pending timer firing turns the highlight off and leaves no timer; with no timer pending nothing changes; a timer only ever fires on a highlight that is on |
| `HeaderCartButton.Button.Unmount` | src/components/Layout/HeaderCartButton.js:33-35 | unmounting cancels any pending timer and leaves the highlight as it was |
| `HeaderCartButton.EmptiedBeforeTimer` | src/components/Layout/HeaderCartButton.js:21-36 | a non-empty change followed by an empty one before the timer fires leaves the highlight on with no timer |
| `HeaderCartButton.BumpThenSettle` | src/components/Layout/HeaderCartButton.js:21-30 | a non-empty change turns the highlight on, and the timer firing turns it off with no timer left |

## Left out

- JSX rendering, the `CartContext.Provider` value object, `useContext`, the CSS class string for the bump (`HeaderCartButton.js:18`) and the `onClick` prop chain are UI glue. `cart-context` is not part of this model. The store's `state` field stands for the `items` / `totalAmount` it exposes.
- React scheduling is replaced by explicit calls: `useReducer`, `useState`, and when `useEffect` runs (after the first render, and again whenever the `items` array identity changes; the first run is a `Change(items)` call on the initial items). Each `Change(items)` call is one run of the effect.
- Real time and `setTimeout` / `clearTimeout` are left out. The timer is a slot holding its delay, and `TimerFires` is the event of it running out.
- The browser's reaction to a thrown `TypeError` is left out. The store reports the failed REMOVE as `false` and keeps its state.
- `src/components/Meals/MealItem/MealItemForm.js` is not part of this model. Its amount check depends on JavaScript string-to-number coercion, which admits fractions and NaN.
- Floating-point prices and totals are left out. Prices are whole cents, so the totals are exact.
- Unique ids are a precondition of `HeaderCartButton.RemoveLowersBadgeByOne`, `CartReducer.DrainEntryDeletes` and `CartReducer.DrainEntry`. Without that, the filter at `CartProvider.js:56` drops every entry with the id, while the total drops by one price only.
