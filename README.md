# Installment discount simulator: store and edit session

A Dafny model of the two logic-bearing parts of the installment-discount calculator.

**The simulation store** (`store/useStore.ts`, module `Store` in `store.dfy`). The store is the class `SimulationStore`. Its field `simulations` is a sequence that every operation replaces with a new one:
- `AddSimulation` appends a draft under a fresh id with its computed schedule.
- `UpdateSimulation` replaces the entries with the caller's id, the way `map` does.
- `DeleteSimulation` drops the entries with an id, the way `filter` does.
- `CalculateDiscount` is the per-installment loop that builds one row per installment.

Each of these methods is proved against a specification function on sequences: `Minted`, `Replaced`, `Removed` and `Schedule`. `Schedule` is built from `RowsUpTo`, the rows pushed after k iterations of the loop, and `Row`, the row one iteration of the loop body pushes. The list properties are proved about those functions as lemmas: length, order, which entries change, idempotence and id uniqueness.

**The edit session** (`components/SimulationHistory.tsx`, module `History` in `history.dfy`). The class `SimulationHistory` holds a reference to the store and `editingId`.
- `HandleEdit` starts an edit.
- `HandleChange` writes one field into the store without recomputing the results.
- `HandleSave` recomputes the row's schedule from its current fields and ends the edit.

Their effect on the list is given by the functions `Changed` and `Saved`. `Saved` uses `Recomputed`, which stands for the spread copy `{ ...simulation, results }` with freshly computed results. The lemmas about these functions include the change-then-save property.

Numbers are Dafny `real`s. The discount factor `(1 + monthlyRate)^(-i)` is floating point with a fractional exponent. The store carries it as an arbitrary function `discountFactor(rate, i)`, passed to its constructor. Only the structure of a schedule is proved: the row count, the indices `1..n`, the constant `originalValue == price / n`, `discountedValue == originalValue * factor` and `discount == originalValue - discountedValue`.

Ids are strings. The caller passes in the id that `uuidv4()` would mint, and `AddSimulation` requires that it is not already present.

Other behaviour of the code:
- With `installments <= 0` the loop does not run, so the schedule is empty. The division `price / 0` in that case is never used.
- `handleChange` changes the object `find` returned, which the store's list also holds, and then passes it to `updateSimulation`. On values, this means: take the first entry with the id, edit it, and replace every entry with that id by the edited copy. `Changed` is written this way.

Behaviour of the code that the model keeps, though it lets stale results reach the store:
- `updateSimulation` does not recompute `results`. It stores exactly the value it is given.
- `handleChange` writes the edited entry, with its old results, into the store (and so into persistence) before any save. A consistent entry can therefore become stale. `History.ChangeInstallmentsMakesStale` proves this for an edit of the installment count.
- Only `handleSave` recomputes the results.

## Model

| member | source | states |
|---|---|---|
| `Store.SimulationStore.constructor` | store/useStore.ts:47 | the store starts with an empty list and unique ids |
| `Store.SimulationStore.CalculateDiscount` | store/useStore.ts:74-94 | returns exactly `max(installments, 0)` rows. Row k has `installment == k+1`, `originalValue == price / installments`, `discountedValue == originalValue * factor(rate, k+1)` and `discount == originalValue - discountedValue`. The result equals `Schedule` |
| `Store.RowsUpToShape` | store/useStore.ts:80-91 | after k iterations the pushed rows are the rows for installments 1..k, in order |
| `Store.ScheduleShape` | store/useStore.ts:77-93 | the schedule has one row per installment with the row facts above, and is empty when `installments <= 0` |
| `Store.SimulationStore.AddSimulation` | store/useStore.ts:48-61 | the list grows by one. Earlier entries are unchanged and in order. The new last entry has the draft's fields, the given id and the schedule of the draft's price, installments and rate. Unique ids stay unique |
| `Store.AppendKeepsUnique` | store/useStore.ts:49-59 | appending an entry whose id is fresh keeps ids pairwise distinct |
| `Store.SimulationStore.UpdateSimulation` | store/useStore.ts:62-68 | same length and id order. Entries with the id become exactly the caller's value, results included. Other entries are unchanged. An absent id changes nothing. Unique ids stay unique |
| `Store.ReplacedAt` | store/useStore.ts:64-66 | the mapped list has the same length. Position k holds the caller's value if its id matches, and the old entry otherwise |
| `Store.ReplacedIds` | store/useStore.ts:64-66 | update never changes the sequence of ids, so uniqueness is preserved |
| `Store.ReplacedAbsent` | store/useStore.ts:64-66 | updating an id that is not present leaves the list equal to the old one |
| `Store.ReplacedIdempotent` | store/useStore.ts:64-66 | updating twice with the same value equals updating once |
| `Store.SimulationStore.DeleteSimulation` | store/useStore.ts:69-73 | keeps exactly the entries whose id differs. An absent id changes nothing. With unique ids: the length drops by one exactly when the id was present, the result is the list without that one entry, and ids stay unique |
| `Store.RemovedMembers` | store/useStore.ts:71 | an entry survives delete if and only if it was present and its id differs |
| `Store.RemovedConcat` | store/useStore.ts:71 | delete distributes over concatenation, so the surviving entries keep their relative order |
| `Store.RemovedAbsent` | store/useStore.ts:71 | deleting an id that is not present returns the same list |
| `Store.RemovedIdempotent` | store/useStore.ts:71 | deleting twice equals deleting once |
| `Store.RemovedKeepsUnique` | store/useStore.ts:71 | delete preserves pairwise distinct ids |
| `Store.RemovedUnique` | store/useStore.ts:71 | with unique ids, deleting entry k's id gives `s[..k] + s[k+1..]`, one entry shorter |
| `Store.RemovedLength` | store/useStore.ts:71 | with unique ids, the length drops by one if the id was present and is unchanged otherwise |
| `History.Apply` | components/SimulationHistory.tsx:31 | the field edit sets exactly the named field to the new value. Id, results and every other field keep their values |
| `History.Find` | components/SimulationHistory.tsx:19 | `find` returns nothing exactly when no entry has the id. Otherwise it returns an entry of the list with that id |
| `History.FindFirst` | components/SimulationHistory.tsx:28 | `find` returns the first entry with the id |
| `History.FindUnique` | components/SimulationHistory.tsx:19 | with unique ids, `find` returns the one entry with the id |
| `History.RecomputedConsistent` | components/SimulationHistory.tsx:21-22 | `{ ...simulation, results }` with freshly computed results is consistent with its fields and differs from the original only in `results` |
| `History.SavedShape` | components/SimulationHistory.tsx:18-25 | save keeps length, ids and all other entries. Each entry with the id becomes the found entry with recomputed, consistent results. An absent id changes nothing. Uniqueness is kept |
| `History.ChangedShape` | components/SimulationHistory.tsx:27-34 | change keeps length, ids and all other entries. Entries with the id get the edited field and keep their old results. An absent id changes nothing. Uniqueness is kept |
| `History.ChangeThenSave` | components/SimulationHistory.tsx:18-34 | after a change followed by a save of the same row, with unique ids, that row holds the edited fields and the schedule computed from them. Every other row is unchanged |
| `History.ChangeInstallmentsMakesStale` | components/SimulationHistory.tsx:27-33 | an installment-count edit that changes the row count leaves a consistent entry inconsistent until it is saved |
| `History.SimulationHistory.constructor` | components/SimulationHistory.tsx:12 | no row is being edited at first |
| `History.SimulationHistory.HandleEdit` | components/SimulationHistory.tsx:14-16 | `editingId` becomes the id. The simulations are unchanged |
| `History.SimulationHistory.HandleSave` | components/SimulationHistory.tsx:18-25 | always ends with `editingId == None`. The list becomes `Saved`: entries with the id get results consistent with their fields, with the same fields and only new results when ids are unique. Other entries are unchanged. An absent id changes nothing |
| `History.SimulationHistory.HandleChange` | components/SimulationHistory.tsx:27-34 | the list becomes `Changed`. Matching entries keep their old results. Other entries and an absent id leave the list unchanged. `editingId` is unchanged |

## Left out

- Floating-point values: the monthly rate `(1 + rate/100)^(1/12) - 1` and the factor `(1 + monthlyRate)^(-i)` use IEEE doubles and `Math.pow`. They are an abstract function, so "discount is non-negative", "discounted value decreases" and "originals sum to the price" are not stated.
- Non-integer and NaN counts: `installments` is modelled as an integer. A non-integer count or `NaN` from `parseInt` is not modelled. `NaN` would behave like a count of zero and give an empty schedule.
- Id generation: `uuidv4()` is a foreign call. The id is a parameter that must be fresh.
- Persistence: the `persist` middleware, its `localStorage` JSON round trip and the `create` wrapper are library code and I/O.
- Currency formatting: `formatCurrency` and `toLocaleString` are locale-dependent display code.
- History.Apply: the generic setter `(simulation as any)[field] = value` can assign any property, including `id` and `results`, with a value of either type. The model covers the six draft fields with values of their own types; these are the fields the table edits, plus the rate.
- Aliasing: `handleChange` assigns the field on an object that the previous state list also holds. The model works on values, so it does not capture that the old list object is mutated too.
- React: the component reads `simulations` from the hook snapshot of its last render. The model reads the store's current list.
- Out of scope: `components/DiscountCalculator.tsx` (its preview formula, form state and `localStorage` write), `app/page.tsx`, and all JSX rendering, option lists and labels are presentation and are not part of this model.
