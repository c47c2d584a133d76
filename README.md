# Muva boutique catalog page: a Dafny model

This project models the logic of the boutique's single-page site (`src/App.jsx`):

- the **filter engine** (`useFilters`): the catalog narrowed by a text query, a size label and a colour;
- the **facet lists** that fill the size and colour selectors;
- the **stock derivation** of each product card and size chip;
- the **contact form's submit state machine**, with its honeypot field;
- the **root component's state**: the booking modal, the filter cells and the catalog load.

Pure parts are functions and lemmas. State that the page updates in place is a class.

| file | module | models |
|---|---|---|
| `text.dfy` | `Text` | ASCII `toLowerCase` and `String.prototype.includes` |
| `catalog.dfy` | `Catalog` | `Product` and `Size` records; optional `sizes`/`colors`; subsequence |
| `filters.dfy` | `Filters` | the `useFilters` predicate and `items.filter` |
| `facets.dfy` | `Facets` | `allSizes` / `allColors`: `flatMap`, then `Array.from(new Set(...))` |
| `stock.dfy` | `Stock` | `inStock`, `availableSizes`, the stock line, `SizeChip`'s `sold` |
| `contact.dfy` | `Contact` | class `ContactSection`: `status`, `form`, `handleSubmit` |
| `app.dfy` | `Shop` | class `App`: `items`, `modalOpen`, `selected`, `error`, `loading`, filter cells |

Modelling choices:

- A product's `sizes` and `colors` are `Option`s. A missing list acts like `[]` where the code writes `|| []`. It acts as a failing test where the code uses optional chaining (`p.sizes?.some(...)`).
- The JSON field `label` is a reserved word in Dafny, so it is named `sizeLabel`.
- `qty` is an unbounded integer. It is not assumed non-negative, because the code only ever compares it with 0.
- Network results are parameters:
  - the catalog request settles as a `LoadResult`: an array, other JSON, or a failure;
  - the form POST settles as a `Response`: ok, not ok, or a rejected `fetch`.
- `handleSubmit` is split at its `await`. `BeginSubmit` covers the honeypot check, entering `submitting` and the request body. `CompleteSubmit` covers the outcome. Edits made while the request is outstanding can therefore be modelled between the two calls. `HandleSubmit` runs both back to back.

Behaviour worth noting:

- With the honeypot filled, `handleSubmit` returns before touching `status`. The status therefore stays whatever it was (idle once the page has loaded), not necessarily idle.
- Editing a field never resets the status to idle.
- The form endpoint and the booking link are hard-coded in this file.
- A successful send clears all four fields, the honeypot included. The honeypot was empty anyway, because the send went ahead.
- Labels are not assumed unique within a product, and nothing in the model needs them to be.

## Model

| member | source | states |
|---|---|---|
| `Text.IncludesIff` | src/App.jsx:27 | the `includes` search finds the needle exactly when it occurs at some position of the text |
| `Filters.PassesIff` | src/App.jsx:26-30 | a product passes iff the lower-cased query occurs in the lower-cased name (or the query is empty), some listed size carries the label with `qty > 0` (or the size is empty), and the colour is listed exactly (or is empty) |
| `Filters.SizeFilterCases` | src/App.jsx:28 | for a non-empty size: a pass requires a size entry with that label and `qty > 0`; a label listed only with `qty <= 0` fails; a product with no `sizes` fails |
| `Filters.QueryIgnoresCase` | src/App.jsx:27 | names and queries that ASCII-lower-case to the same string give the same answer, and lower-casing the query changes nothing |
| `Filters.FilterSubsequence` | src/App.jsx:26-31 | `filtered` is a subsequence of `items`: the catalog order is kept |
| `Filters.FilterMembers` | src/App.jsx:26-31 | a product is in `filtered` iff it is in `items` and passes |
| `Filters.FilterCount` | src/App.jsx:26-31 | a passing product appears in `filtered` as many times as in `items`, a failing one not at all |
| `Filters.FilterNoCriteria` | src/App.jsx:27-29 | with query, size and colour all empty, `filtered` equals `items` |
| `Filters.FilterIdempotent` | src/App.jsx:25-32 | filtering the filtered list again with the same criteria changes nothing |
| `Filters.FilterComposition` | src/App.jsx:26-31 | the combined filter equals the query-only, size-only and colour-only filters applied in turn |
| `Filters.FilterIntersection` | src/App.jsx:30 | a product is shown iff it is shown by each of the three single-criterion filters |
| `Filters.FilterAppend` | src/App.jsx:26-31 | filtering a concatenation is the concatenation of the filtered parts, so each product is kept or dropped on its own in catalog order |
| `Filters.AriaGownQueryScenario` | src/App.jsx:27 | queries "aria" and "ARIA" both keep "Aria Gown" |
| `Filters.AriaGownNoMatchScenario` | src/App.jsx:27 | query "zeta" empties the one-product catalog |
| `Filters.AriaGownSizeColorScenario` | src/App.jsx:28-29 | size "M" (qty 0) drops the gown and size "S" (qty 2) keeps it; colour "red" keeps it and "Red" drops it |
| `Facets.Dedup` | src/App.jsx:193-194 | `Array.from(new Set(xs))` has no duplicates and holds exactly the values of `xs` |
| `Facets.DedupFirstOccurrenceOrder` | src/App.jsx:193-194 | the deduplicated list is ordered by each value's first position in the input |
| `Facets.SizeLabelsMembers` | src/App.jsx:193 | the flattened labels are exactly the labels of all sizes of all products |
| `Facets.ColorValuesMembers` | src/App.jsx:194 | the flattened colours are exactly the colours of all products |
| `Facets.AllSizesFacet` | src/App.jsx:193 | `allSizes`: no duplicates; every label of every product and nothing else; first-occurrence order |
| `Facets.AllColorsFacet` | src/App.jsx:194 | `allColors`: no duplicates; every colour of every product and nothing else; first-occurrence order |
| `Facets.SoldOutSizeIsOffered` | src/App.jsx:193 | a size with `qty <= 0` still appears in `allSizes` |
| `Facets.AriaGownFacets` | src/App.jsx:193-194 | for the sample gown `allSizes` is `["S", "M"]`, the sold-out M included, and `allColors` is `["red"]` |
| `Stock.StockedSizesExact` | src/App.jsx:58 | `filter((s) => s.qty > 0)` yields a subsequence holding exactly the sizes with `qty > 0`, each as many times as it is listed |
| `Stock.AvailableSizesExact` | src/App.jsx:58 | `availableSizes` is exactly the listed sizes with `qty > 0`, in order, repeated entries kept (so its length is the card's count), and empty when `sizes` is missing |
| `Stock.InStockIff` | src/App.jsx:57-58 | `inStock` holds iff `availableSizes` is non-empty |
| `Stock.ChipSoldIff` | src/App.jsx:44 | a listed size's chip is sold (`qty <= 0`) iff the size is not among `availableSizes` |
| `Stock.StockNoteSpec` | src/App.jsx:95 | the stock line reads "no restock" iff no size is available; otherwise it counts `availableSizes` (at least 1) and carries the "s" iff the count is above 1 |
| `Stock.SizeFilterMatchesAvailability` | src/App.jsx:57-58 | for a non-empty size, the size filter passes iff that label is among the card's available sizes, so a product shown as sold out passes no size filter |
| `Contact.ContactSection.constructor` | src/App.jsx:125-126 | the form starts idle with all four fields empty |
| `Contact.ContactSection.EditName` | src/App.jsx:153 | sets `name`, keeps the other fields and the status |
| `Contact.ContactSection.EditEmail` | src/App.jsx:154 | sets `email`, keeps the other fields and the status |
| `Contact.ContactSection.EditMessage` | src/App.jsx:155 | sets `message`, keeps the other fields and the status |
| `Contact.ContactSection.EditGotcha` | src/App.jsx:156 | sets the honeypot, keeps the other fields and the status |
| `Contact.ContactSection.BeginSubmit` | src/App.jsx:128-138 | a filled honeypot posts nothing and changes nothing; otherwise the status becomes submitting and the current form is the request body |
| `Contact.ContactSection.CompleteSubmit` | src/App.jsx:139-144 | ok: status success and all four fields cleared; not ok or thrown: status error and the form kept |
| `Contact.ContactSection.HandleSubmit` | src/App.jsx:128-145 | the whole handler: the honeypot short-circuit, the posted body, and the success or error state |
| `Contact.HoneypotScenario` | src/App.jsx:130 | a bot filling the honeypot of a fresh form posts nothing and the status stays idle |
| `Contact.SendButtonScenario` | src/App.jsx:157 | the send button is enabled on a fresh form, disabled while the request is outstanding, and enabled again once it settles |
| `Contact.SendScenario` | src/App.jsx:137-144 | a send posts what was typed; success clears the form, failure keeps it |
| `Shop.App.constructor` | src/App.jsx:169-173 | empty catalog, modal closed, nothing selected, no error, loading; filter cells empty |
| `Shop.App.Filtered` | src/App.jsx:192 | the shown products are a subsequence of `items` holding each passing product as many times as `items` does and no failing one, and all of `items` when no criterion is set |
| `Shop.App.SizeOptions` | src/App.jsx:241 | the size selector lists each label of the loaded catalog exactly once, nothing else, in order of first occurrence |
| `Shop.App.ColorOptions` | src/App.jsx:247 | the colour selector lists each colour of the loaded catalog exactly once, nothing else, in order of first occurrence |
| `Shop.App.CatalogSection` | src/App.jsx:256-267 | the loading placeholder shows iff `loading`; afterwards the grid shows `filtered`, a subsequence of `items`, and the no-match notice iff no catalog product passes |
| `Shop.App.Modal` | src/App.jsx:104-111 | the modal renders iff `modalOpen`, and names a product iff one is selected, with that product's name |
| `Shop.App.FinishLoad` | src/App.jsx:179-188 | array data becomes `items`; other JSON gives `[]`; failure gives `[]` and the fallback notice; `loading` is false on every path; modal and filter state untouched |
| `Shop.App.BookNow` | src/App.jsx:207 | `selected` becomes none and the modal opens; nothing else changes |
| `Shop.App.BookFromHero` | src/App.jsx:221 | the modal opens and `selected` is kept |
| `Shop.App.BookProduct` | src/App.jsx:262 | `selected` becomes the card's product and the modal opens |
| `Shop.App.CloseModal` | src/App.jsx:301 | the modal closes and `selected` is kept |
| `Shop.App.SetQuery` | src/App.jsx:238 | sets the query; nothing else changes |
| `Shop.App.SetSize` | src/App.jsx:239 | sets the size; nothing else changes |
| `Shop.App.SetColor` | src/App.jsx:245 | sets the colour; nothing else changes |
| `Shop.BookingScenario` | src/App.jsx:261-262 | after the catalog loads and with no filter set: the card of a catalog product opens the modal for its product, close hides it, "Book now" reopens it for no product; loading stays false |

`loading` is set to true only by the constructor. `FinishLoad` ends it false. Every other `App` method leaves it unchanged. So once loading has finished it never becomes true again.

## Left out

- Presentation is not modelled: the SVG wordmark, all JSX markup and class strings, the policies and footer content, and the footer year.
- `fetch`, `res.json()`, `import.meta.env`, `cache: "no-store"` and the booking iframe are network or foreign calls. They are abstracted as the `LoadResult` and `Response` outcomes.
- React scheduling is not modelled: async interleaving and effect and hook mechanics. The effect has no unmount guard; a load that settles after unmount is not modelled. `useMemo` is plain function application. The catalog effect runs once, and `FinishLoad` stands for its settling.
- The stock line's number is kept as a count plus the suffix (`StockNote`). Rendering the count to decimal text is left out, and so is price formatting.
- `price` and `image` are not fields of `Product`. The page only displays them, and no logic reads them.
- `toLowerCase` is ASCII lower-casing only. Full Unicode case folding is left out.
- `qty` values that are not integers (fractions, non-numbers) are left out. `qty` is an integer.
- The send button's `disabled` flag (`SendDisabled`) keeps the browser from submitting the form, by click or by Enter, while a request is outstanding. The browser enforces it, not the handler, so `HandleSubmit` does not require it.
- The `required` and `type="email"` checks (src/App.jsx:153-155) are browser validation that gates the submit event. They are not modelled, so `HandleSubmit` and `SendScenario` also admit empty or malformed fields that the page never posts.
- Catalog entries are assumed to be records with a string `name`, string `label`s and string colours. A null entry, a missing `name` or a non-array `sizes` makes the page throw (src/App.jsx:27, 57, 193). A numeric `label` never equals the size selector's string value (src/App.jsx:28, 242). None of this is modelled.
- `e.preventDefault()` only stops the browser's own form submit, so it is not modelled.
- The form endpoint and the booking URL are constants (src/App.jsx:133, 196). Nothing is loaded at runtime besides the catalog.
