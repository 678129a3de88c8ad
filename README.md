# Shopping-cart store

A Dafny model of the cart hook of a React storefront (`src/hooks/useCart.tsx`).
The store keeps an ordered list of product lines, each with a product `id`, a
quantity `amount` and the other catalog fields. It also keeps a copy of that
list in the browser's local storage. Three operations change the cart:

- `addProduct` checks the stock, fetches the catalog record, and then either
  appends a new line of amount 1 or hands off to `updateProductAmount` with
  the current amount plus one.
- `removeProduct` cuts out the first line of the product, or reports an
  error when there is none.
- `updateProductAmount` checks `0 < amount <= stock` and sets the amount of
  every line of the product.

Every successful change rewrites the stored copy with the whole new cart.

The model has two modules:

- `CartRules` (`cart_rules.dfy`) holds the pure part. It defines the cart
  lines, the next-cart computations (`WithAmount` for the `map`, `Spliced`
  for the `splice`), the lookups (`FindIndex`, `Find`) and one transition
  function per operation (`Add`, `Update`, `Remove`, `Initial`). Each
  transition maps the old (cart, stored copy) pair and the gateways' answers
  to the outcome and the new pair. The lemmas state the operations'
  properties about these functions.
- `CartStore` (`cart_store.dfy`) holds the imperative part. Class `Store`
  has the fields `cart` and `stored`, which its methods reassign. Each
  method's contract says that its outcome and new state are exactly those
  of the transition function. The update and the removal keep the cart well
  formed. The add keeps amounts positive, and keeps ids distinct when the
  catalog record has the requested id.

The remote lookups are method parameters of type `Option`. `None` stands
for a request that threw, which the source catches. `AddProduct` has two
stock parameters: `stock` is its own lookup, and `restock` is the lookup
made by the update it hands off to. The user notifications become an
`Outcome` value (`Added`, `Removed`, `Updated`, `OutOfStock`, `RemoveError`,
`Failed`).

Points where the code decides the behaviour:

- The add threshold is `stock <= 1`, as written. A product with exactly one
  unit in stock cannot be added, although an update to amount 1 against the
  same stock is accepted (`AddStricterThanUpdate`).
- The new line takes its `id` from the catalog record, not from the
  requested id. The catalog record is fetched before the cart is searched,
  so a failed catalog request fails the add even for a product already in
  the cart (`AddFailed`).
- An update for a product that is not in the cart reports no error. It
  still writes the unchanged cart to storage.

## Model

| member | source | states |
|---|---|---|
| `CartRules.FindIndex` | src/hooks/useCart.tsx:64-66 | The result is -1 exactly when no line has the id. Otherwise it is the index of a line with the id, and no earlier line has that id. |
| `CartRules.Find` | src/hooks/useCart.tsx:43-44 | The result is None exactly when no line has the id. Otherwise it is the first line of the cart with that id. |
| `CartRules.WithAmountAt` | src/hooks/useCart.tsx:88-93 | The mapped cart has the same length. Each line with the id becomes that line with the new amount, and every other line is unchanged. |
| `CartRules.WithAmountAbsent` | src/hooks/useCart.tsx:88-93 | Mapping with an id that no line has gives back the same cart. |
| `CartRules.SplicedAt` | src/hooks/useCart.tsx:67 | Splicing index k shortens the cart by one. Lines before k stay in place and lines after k move down by one. The multiset of lines loses exactly the line at k. |
| `CartRules.UpdateGuard` | src/hooks/useCart.tsx:84-102 | An update commits exactly when the stock answer exists and 0 < amount <= stock. Otherwise the state is unchanged. A short stock yields OutOfStock and a failed lookup yields Failed. |
| `CartRules.UpdateCommits` | src/hooks/useCart.tsx:87-97 | A committed update keeps the length, order, ids and details of all lines. Lines with the id get the new amount, all other lines are unchanged, and storage holds the new cart. |
| `CartRules.UpdateAbsent` | src/hooks/useCart.tsx:88-97 | A committed update of an absent id reports Updated and keeps the cart content. It still writes the cart to storage. |
| `CartRules.AddLowStock` | src/hooks/useCart.tsx:34-40 | A stock of at most 1, including exactly 1, gives OutOfStock and leaves the cart and storage unchanged. |
| `CartRules.AddFailed` | src/hooks/useCart.tsx:33-57 | A failed stock request, or a failed catalog request after a stock above 1, gives Failed and leaves the cart and storage unchanged, also for a product already in the cart. |
| `CartRules.AddNew` | src/hooks/useCart.tsx:42-53 | A product not in the cart, with stock above 1, appends exactly one line after the unchanged earlier lines. The line has the catalog record's id and details and amount 1. The outcome is Added and storage holds the new cart. |
| `CartRules.AddExisting` | src/hooks/useCart.tsx:43-47 | With stock above 1, adding a product already in the cart has exactly the effect of updating the amount of the first line with that id to its amount plus one, against the update's own stock lookup. On a well-formed cart that line is the given line. |
| `CartRules.AddStricterThanUpdate` | src/hooks/useCart.tsx:37-40 | With one unit in stock, an add is refused whether or not the product is in the cart, while an update to amount 1 against the same stock is accepted. |
| `CartRules.RemovePresent` | src/hooks/useCart.tsx:64-70 | Removing a present id takes out the first line with that id. The cart shrinks by one, the other lines keep their order, the multiset loses only that line, and storage holds the new cart. |
| `CartRules.RemoveAbsent` | src/hooks/useCart.tsx:64-73 | Removing an absent id gives RemoveError and leaves the cart and storage unchanged. |
| `CartRules.InitialEmpty` | src/hooks/useCart.tsx:24-31 | With nothing stored, the store starts with an empty, well-formed cart. |
| `CartRules.UpdatePreserves` | src/hooks/useCart.tsx:87-95 | An update keeps ids pairwise distinct and amounts positive. |
| `CartRules.AddPreserves` | src/hooks/useCart.tsx:43-51 | An add keeps amounts positive for any catalog answer. It keeps ids pairwise distinct when the catalog returns the record of the requested id. |
| `CartRules.RemovePreserves` | src/hooks/useCart.tsx:64-68 | A removal keeps ids pairwise distinct and amounts positive. |
| `CartRules.OperationsCommitOrKeep` | src/hooks/useCart.tsx:32-104 | With storage writes assumed to succeed, each operation either commits the new cart to memory and storage together (Added, Removed, Updated) or leaves the whole state as it was. |
| `CartRules.WorkedExamples` | src/hooks/useCart.tsx:32-104 | Four worked examples, proved on concrete inputs: the first add of a product, an add refused at stock 1, the removal of the only line, and an update up to the stock. |
| `CartStore.Store.constructor` | src/hooks/useCart.tsx:24-31 | The cart is the stored copy when there is one and empty otherwise. The stored slot is left as read. |
| `CartStore.Store.UpdateProductAmount` | src/hooks/useCart.tsx:80-104 | The outcome and the new cart and stored copy are those of `Update` on the old state. A well-formed cart stays well formed. |
| `CartStore.Store.AddProduct` | src/hooks/useCart.tsx:32-60 | The outcome and the new state are those of `Add`. For a product already in the cart, this is done by calling `UpdateProductAmount`. Amounts stay positive, and ids stay distinct when the catalog record has the requested id. |
| `CartStore.Store.RemoveProduct` | src/hooks/useCart.tsx:62-78 | The outcome and the new state are those of `Remove`: the first line with the id is spliced out and written to storage. A well-formed cart stays well formed. |

## Left out

- The HTTP requests to the stock and catalog services (lines 34, 42, 85) are parameters. A request that throws is `None`, and the model does not distinguish kinds of failure.
- Toast notifications and the console log are replaced by the returned `Outcome`. The source gives no notification when an update succeeds; the model reports `Updated`.
- JSON serialisation and local storage are replaced by a field holding the stored lines, or `None` when nothing is stored. The text encoding, its round trip and a stored text that fails to parse at startup are not modelled.
- The React context, provider component, `useState` and `useCart` are framework plumbing and are not modelled.
- Overlapping asynchronous operations are not modelled: the stale cart snapshots and lost updates when several requests are in flight.
- RemoveProduct: the source splices the array it shares with the React state in place. The model reassigns the `cart` sequence, so aliasing of that array is not captured.
- Storage writes are assumed never to fail. In the source, `localStorage.setItem` (lines 52, 69, 97) runs after the in-memory cart has already changed (`setCart` at lines 51 and 95, the in-place `splice` at line 67). If the write throws, for example because the storage quota is exceeded, the catch at lines 56-57, 75-76 or 101-102 reports an error while the in-memory cart keeps its new value and storage keeps the old copy. The model does not have this outcome. `OperationsCommitOrKeep` (commit both or keep both) holds only under this assumption.
- RemoveProduct: the catch branch at lines 75-77 is not modelled. In the source it is reached only by a failing storage write (see above).
- Amounts and ids are unbounded integers. Fractional or non-numeric values of JavaScript numbers are not modelled.
- The catalog record's other fields are an uninterpreted map of strings. A catalog `amount` field is always overwritten by 1, so the record has none here.
- AddPreserves: the uniqueness of ids after an add is proved only when the catalog record carries the requested id, because the source takes the new line's id from that record. Positive amounts are proved for any catalog answer.
