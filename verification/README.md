# Shoe shop point of sale — a Dafny model

The shop has two halves: a small HTTP API over a SQLite database (backend/api.py, with the
tables declared in backend/database.py) and a Qt desktop client (frontend/ui.py).

The API hands out the product catalog (`GET /products`) and the sales history (`GET /orders`).
It replaces a product's variants (`PUT /products/{id}`) and rings up a cart (`POST /checkout`).
A cart is a list of lines, each naming a variant (one colour and size of a product) with a
quantity and a price.

The client has four parts:
- the grid of product cards, whose number of columns follows the window width;
- the "buy" dialog, with one quantity spin box per variant, grouped by colour;
- the cart panel, with its rows, its delete buttons and the total label;
- the money text field, which regroups what the operator types into groups of three digits
  separated by dots.

The model is organised as follows:

- **Data** is in `Wrappers`, `Schema` and `Cart`. The tables are records. The request bodies
  and the cart lines are datatypes.
- **Text and numbers** are in `Text` and `Numerals`:
  - Python's `strip()` and `replace(c, "")`;
  - `int(text)` on the texts the client can produce;
  - the `","` thousands grouping.
- **Checkout** is in `Checkout`: the stock loop, the customer name and the order item
  snapshots. `Database.Store.Checkout` runs that loop as a method on the store.
- **Variant reconciliation** of `update_product` is in `Reconcile`: overwrite, delete and
  insert. `Database.Store.UpdateProduct` applies it with a loop.
- **Listing** is in `Catalog` (`get_products`): the search filter as SQLite's LIKE and the
  price range text. **History** is in `History` (`get_orders`): newest first, with the
  displayed date and the totals.
- **Client side:**
  - `PriceInput`: `format_currency`, `format_text` and `get_value`, with the field as a class
    whose text the handler rewrites;
  - `ColorGroup`: `ColorGroupWidget.get_data`;
  - `Grouping`: the grouping of variants by colour;
  - `BuyDialog`: the dialog as a class with its spin boxes;
  - `MainWindow`: the cart panel, item removal, the client's checkout and the card grid, as a
    class.

The database is a class, `Database.Store`, whose handlers change its maps in place. Each
handler keeps the store invariant `Valid()`. A refused request leaves the store unchanged.

The model follows backend/api.py and frontend/ui.py as they stand:
- There are no customers, no debt and no debt log. The order only stores a customer name.
- The name is stored as supplied. It is not trimmed, and the walk-in name is used only when it
  is blank.
- Quantities are not validated, and an empty cart is accepted.
- Nothing edits or deletes an order.

## Model

| member | source | states |
|---|---|---|
| Text.StripIsTrimmedSlice | frontend/ui.py:153-154 | `strip()` returns a slice of its input with only whitespace cut on either side and no whitespace at its ends; it is empty exactly when the input is all whitespace |
| Numerals.DecimalRoundTrip | frontend/ui.py:14 | reading back the decimal digits written for `n` gives `n` |
| Numerals.SignedDecimalParses | frontend/ui.py:57 | `int()` reads every signed numeral back to the integer it denotes |
| Numerals.GroupShape | frontend/ui.py:14 | thousands grouping adds one separator per full group after the first, puts a separator exactly every fourth character from the right, and removing the separators gives the digits back |
| Numerals.GroupedWithoutSeparators | backend/api.py:57 | an integer rendered with the `,` option, separators removed, is its plain signed numeral |
| PriceInput.FormatCurrencyGroupsDigits | frontend/ui.py:13-15 | `format_currency(n)` is the decimal of `n` in dot-separated groups of three, counted from the right |
| PriceInput.GetValueInvertsFormatCurrency | frontend/ui.py:56-57 | `get_value` reads back every number `format_currency` writes |
| PriceInput.FormatTextStep | frontend/ui.py:47-54 | one `format_text` call reformats exactly when the dot-free text is a non-empty run of digits, keeping its value; it leaves a dots-only text alone; otherwise it writes back the dot-free text without its last character |
| PriceInput.SettleKeepsLeadingDigits | frontend/ui.py:47-54 | the field settles on its leading digits (dots ignored) in `format_currency` form, or on the empty text when there are none |
| PriceInput.SettledValue | frontend/ui.py:47-57 | after any typing, `get_value` reads the number formed by the leading digits without error |
| PriceInput.FormatTextIdempotent | frontend/ui.py:47-54 | running `format_text` again on a settled field changes nothing |
| PriceInput.PriceField.SetText | frontend/ui.py:47-54 | writing text into the field leaves it at what the re-entrant textChanged handler settles on |
| Cart.CartTotalAppend | backend/api.py:119 | the total of two carts put together is the sum of their totals |
| Checkout.RefusalIsFinal | backend/api.py:122-126 | once a line is refused, later lines do not change the outcome |
| Checkout.StockAfterCheckout | backend/api.py:122-127 | a successful checkout takes off each variant exactly the total quantity of its lines; every line names an existing variant; no variant appears or disappears; nothing but stock changes |
| Checkout.RefusalNamesShortLine | backend/api.py:122-126 | a refused checkout has a line that was short of stock after the earlier lines; the 400 error names that line's product |
| Checkout.ShortLineRefusesCheckout | backend/api.py:122-126 | conversely, the first short line makes the checkout fail with its product's name |
| Checkout.SameVariantCheckedCumulatively | backend/api.py:122-127 | two lines for one variant pass exactly when the second fits in what the first left |
| Checkout.NonPositiveQuantitiesAccepted | backend/api.py:124 | zero or negative quantities on existing variants always pass and never lower stock |
| Checkout.CheckoutKeepsStockNonNegative | backend/api.py:124-127 | after a successful checkout, every variant has non-negative stock or was not named by the cart and kept its stock |
| Checkout.WalkInIffBlank | backend/api.py:132 | the walk-in name is stored exactly when the supplied name is blank; otherwise the name is stored untrimmed |
| Checkout.Snapshots | backend/api.py:139-147 | one order item per cart line, in order, with its quantity, price, product name and "colour - Size size" text |
| Checkout.AsWrittenRefusesServableCart | backend/database.py:61-66 | as written, a cart the stock allows still ends in a 500 |
| Reconcile.ApplyEntries | backend/api.py:100-109 | applying the incoming variants keeps every existing id; ids only grow and all stay below the next id |
| Reconcile.ApplyEntriesEffect | backend/api.py:100-109 | entries with a current id overwrite that variant with the last such entry; the others become new variants with consecutive fresh ids, in order; no other row changes |
| Reconcile.ReconcileEffect | backend/api.py:94-109 | other products' variants are untouched; the product's variants survive exactly when an incoming entry carries their id, and then take the values of the last such entry (an id of 0 is kept unchanged, being falsy); one new variant per remaining entry, under fresh consecutive ids |
| Reconcile.EntriesWithoutIdsReplaceAll | backend/api.py:94-109 | entries without ids, which is what the client sends, delete every old variant of the product and insert all entries |
| Catalog.MinOf | backend/api.py:56 | `min` over the prices is a member that no price is below |
| Catalog.MaxOf | backend/api.py:56 | `max` over the prices is a member that no price is above |
| Catalog.OutOfStockIffNoVariants | backend/api.py:53-55 | the out-of-stock text is shown exactly when the product has no variants |
| Catalog.UniformPriceShownOnce | backend/api.py:57 | when all prices are equal, the price text is that one price, grouped |
| Catalog.SpreadPricesShownAsRange | backend/api.py:57 | when prices differ, the text is "lowest - highest", both grouped |
| Catalog.SearchIsSubstringMatch | backend/api.py:47-48 | without `%` in it, the search selects exactly the names containing it, ignoring ASCII case (`_` matching any character) |
| Catalog.SummaryPriceRange | backend/api.py:53-57 | a listing entry's price text is "out of stock" exactly when the product has no variants; otherwise it runs from the price of a cheapest variant to that of a dearest one, shown once when they agree |
| Catalog.GetProducts | backend/api.py:43-67 | the handler's loop produces the listing |
| Catalog.ListingIsSelection | backend/api.py:46-65 | the listing is the summaries of the selected products and nothing else |
| Catalog.EmptySearchListsAll | backend/api.py:47-52 | an empty search lists every product, in order |
| History.BeforeIsStrictOrder | backend/api.py:156 | the datetime comparison behind the ordering is a strict total order: never both ways, transitive, and any two distinct datetimes are comparable |
| History.Insert | backend/api.py:156 | inserting an order adds that one order and nothing else |
| History.InsertKeepsOrder | backend/api.py:156 | inserting into a newest-first list keeps it newest first |
| History.NewestFirst | backend/api.py:156 | the history is a permutation of the orders, newest first |
| History.Pad2 | backend/api.py:175 | two-digit padding reads back as the number |
| History.DisplayDateReadsBack | backend/api.py:175 | the displayed "dd/mm HH:MM" date reads back as the order's day, month, hour and minute |
| History.ItemViews | backend/api.py:163-170 | one detail entry per order item, in order |
| History.GetOrders | backend/api.py:153-181 | the response is the summary of each order, newest first |
| History.SnapshotsKeepQuantity | backend/api.py:160 | the item count shown in the history is the cart's total quantity |
| History.SnapshotsKeepValue | backend/api.py:119 | the items of a placed order are worth its cart total |
| Database.PlacingKeepsOrderBookValid | backend/api.py:130-136 | placing an order with the next id and a matching total keeps the order book valid |
| Database.CheckoutKeepsCatalogValid | backend/api.py:122-127 | the stock loop keeps the catalog valid |
| Database.UpdateKeepsCatalogValid | backend/api.py:94-109 | variant reconciliation keeps the catalog valid |
| Database.CheckoutKeepsStoreValid | backend/api.py:116-151 | a successful checkout keeps both the catalog and the order book valid |
| Database.ApplyIncoming | backend/api.py:100-109 | the handler's loop over the incoming variants computes the reconciliation |
| Database.TakeStock | backend/api.py:122-127 | the handler's stock loop computes the checkout outcome |
| Database.OrderItemsOf | backend/api.py:139-147 | the handler's item loop writes the snapshots of the cart |
| Database.Store.constructor | backend/database.py:39-76 | the store starts empty and valid |
| Database.Store.Checkout | backend/api.py:116-151 | refused exactly when the stock loop refuses, with its error, and then nothing changes; otherwise the stock is taken, one order is appended with the next id, and products are untouched |
| Database.Store.UpdateProduct | backend/api.py:83-113 | an unknown id gives 404 and changes nothing; otherwise the name and image are replaced, the variants are reconciled, and orders are untouched |
| ColorGroup.StockValue | frontend/ui.py:162 | an empty stock field reads as 0 |
| ColorGroup.UnreadableIsFinal | frontend/ui.py:155-164 | once a row fails to read, the whole call fails |
| ColorGroup.ReadRows | frontend/ui.py:155-164 | the widget's row loop computes the entries |
| ColorGroup.GetData | frontend/ui.py:151-165 | `get_data` strips the colour and reads the rows |
| ColorGroup.EntriesSomeIffReadable | frontend/ui.py:160-162 | the rows are read without error exactly when every price and stock field is readable |
| ColorGroup.EntriesAreSizedRows | frontend/ui.py:155-164 | one entry without id per row with a size, carrying the colour, the size and the price and stock the fields read as |
| ColorGroup.BlankColorYieldsNothing | frontend/ui.py:153-154 | a blank colour gives no entries |
| ColorGroup.EntriesCarryTrimmedColor | frontend/ui.py:153-164 | every entry carries the stripped colour |
| Grouping.GroupByColor | frontend/ui.py:205-208 | the loop builds one group per colour, holding that colour's variants in order, with the colours in first-seen order |
| Grouping.FirstSeenIsColorSet | frontend/ui.py:205-208 | the colours are listed without repeats, and exactly the colours of the variants are listed |
| Grouping.FirstSeenOrder | frontend/ui.py:205-208 | a colour listed earlier appears in the variants before any variant of a colour listed later |
| Grouping.GroupsArePermutation | frontend/ui.py:205-208 | the groups together hold each variant exactly once |
| BuyDialog.SetValue | frontend/ui.py:219-220 | a spin box keeps its range and clamps the value into it; a value in range is taken as is |
| BuyDialog.AddGroupSpinBoxes | frontend/ui.py:215-223 | one colour's spin boxes are added at 0, each ranging up to its variant's stock; the group's ids not yet present are appended to the keys in group order |
| BuyDialog.BuildSpinBoxes | frontend/ui.py:205-223 | every variant gets a spin box at 0 ranging from 0 to its stock; the keys are the ids colour by colour in order of first appearance, then in list order, each once |
| BuyDialog.BuyDialog.constructor | frontend/ui.py:205-223 | the dialog opens with every spin box at 0, nothing selected, and the spin boxes in colour-then-list order, which is the order `add_to_cart` emits lines in |
| BuyDialog.BuyDialog.SetQuantity | frontend/ui.py:219-220 | the operator changes one spin box, which clamps to its range |
| BuyDialog.LinesOf | frontend/ui.py:247-253 | the inner loop of `add_to_cart` makes one line per variant with the spin box's id, in list order |
| BuyDialog.SelectedLines | frontend/ui.py:244-253 | the outer loop visits the spin boxes in key order and adds the lines of those above 0 |
| BuyDialog.BuyDialog.AddToCart | frontend/ui.py:243-254 | the dialog accepts, appending the lines of the spin boxes above 0 |
| BuyDialog.LinesForCopyVariant | frontend/ui.py:247-253 | each line copies id, price, colour and size from a variant with the spin box's id |
| BuyDialog.SelectionFromPositiveSpins | frontend/ui.py:244-253 | each selected line comes from a spin box above 0 and carries its value |
| BuyDialog.SelectionWithinStock | frontend/ui.py:219-253 | each selected line has a positive quantity within its variant's stock and copies that variant |
| BuyDialog.SelectionCoversChosen | frontend/ui.py:244-253 | every spin box above 0 yields its line |
| MainWindow.IntTextReadsBack | frontend/ui.py:678 | the quantity column reads back as the quantity |
| MainWindow.TotalLabelShowsTotal | frontend/ui.py:687 | the total label shows a grouped number that reads back as the total |
| MainWindow.PythonIndex | frontend/ui.py:690 | a Python index is valid exactly in `[-n, n)` and denotes `idx` or `idx + n` |
| MainWindow.DeletedRemovesOne | frontend/ui.py:689-691 | `del cart[idx]` fails exactly outside `[-n, n)`; otherwise it removes that one line, keeps the others in order and lowers the total by the line's subtotal |
| MainWindow.ColumnCount | frontend/ui.py:603-606 | at least one column |
| MainWindow.ColumnCountFits | frontend/ui.py:603-606 | a narrow grid gets one column; otherwise as many 155-pixel cells as fit in the width less 20 |
| MainWindow.CellsDistinct | frontend/ui.py:611-616 | no two cards share a cell |
| MainWindow.CellsRowMajor | frontend/ui.py:611-616 | cards fill the grid row by row |
| MainWindow.CartPanel | frontend/ui.py:675-685 | the panel loop writes one row per cart line and sums the cart total |
| MainWindow.LayOut | frontend/ui.py:611-616 | the placement loop puts card `i` at row `i / n`, column `i % n` |
| MainWindow.MainWindow.constructor | frontend/ui.py:672-687 | the window opens with an empty cart and a panel that shows it |
| MainWindow.MainWindow.UpdateCartUi | frontend/ui.py:672-687 | the panel shows the cart: its rows and its total label |
| MainWindow.MainWindow.OnCardClosed | frontend/ui.py:659-665 | an accepted dialog's lines are appended to the cart and the total grows by their total; a cancelled one changes nothing |
| MainWindow.MainWindow.RemoveCartItem | frontend/ui.py:689-691 | an index out of range raises and changes nothing; otherwise that line goes and the panel is redrawn |
| MainWindow.MainWindow.Checkout | frontend/ui.py:693-701 | an empty cart, or a server that cannot be reached, leaves the cart alone; otherwise the cart is emptied |
| MainWindow.MainWindow.RecalculateGridColumns | frontend/ui.py:601-616 | with no products the old cards stay; otherwise every product gets a card, row by row, in the columns that fit |
| MainWindow.MainWindow.OnProductsLoaded | frontend/ui.py:655-657 | the products are stored and laid out |
| MainWindow.MainWindow.Resize | frontend/ui.py:597-598 | a new width re-lays the cards in the columns that fit it |

## Left out

- The real database, FastAPI, Qt, `requests` and the background worker threads. Tables are
  maps in a class. Request bodies are datatypes. Widgets are fields. A network call is a
  parameter saying whether the server was reached.
- Row order coming from the database, and ties in `ORDER BY created_at`. Listing rows are a
  parameter. The history sort is a stable insertion sort.
- SQLite's row-id reuse. The store hands out ids from counters that never go back.
- Checkout's two commits. The model commits the order and its items as one step. Requests are
  not concurrent in the model, so no request can see an order without its items.
- The client posts the bare cart list to `/checkout` (frontend/ui.py:696), while the server
  expects an object with a `cart` field. The server answers 422, which the client never inspects, and
  the client empties its cart anyway. `MainWindow.MainWindow.Checkout` models only the client
  side, with the request reaching or not reaching the server.
- `get_orders` reads `o.customer_name`, which the `orders` table does not declare either. The
  history summaries use the field the `Order` record carries.
- `refresh_history`, the history tab's table. It reads keys that the `/orders` response does
  not have, and its own `except: pass` hides the error.
- `create_product`, `get_centered_image`, `run_app`, `seed_data`, the stylesheets, the card
  widgets themselves, `EditProductDialog`, `AddProductPanel` and the inventory-mode card
  click. They are outside the checkout and cart logic modelled here.
- `PriceInput.FormatCurrency`: `"{:,.0f}".format` goes through a float. Integers beyond 2^53
  would be rounded; the model works on exact integers.
- `PriceInput.FormatTextStep` and `Numerals.ParseInt`: only ASCII digits are modelled; the
  model treats every other character as a non-digit. Python's `isdigit` also accepts Unicode
  decimal digits such as Arabic-Indic or full-width ones. `int()` reads those, so
  `format_currency` rewrites them as ASCII digits. Other characters `isdigit` accepts, such as
  superscripts, make `int()` raise, and `format_currency` then returns "" through its `except`
  branch. `int()` also accepts surrounding whitespace and underscores between digits; the
  client never produces either in these fields.
- `BuyDialog.SetValue`: this is QSpinBox's documented clamping, not code of the application.
- `ColorGroup.StockValue`: its contract states only the empty-field case. A non-empty field is
  read by `int()`, modelled by `Numerals.ParseInt`.

## Findings

| source | as written | input that shows it | evidently intended | confidence | as-written member | corrected member |
|---|---|---|---|---|---|---|
| backend/database.py:61-66 with backend/api.py:130-133 | `checkout` builds `Order(total_amount=..., customer_name=...)`, but the `orders` table declares no `customer_name` column, so the constructor raises TypeError after the stock loop and every servable cart ends in a 500 with nothing committed | variant 1 with stock 5, cart of one line for 2 of variant 1 | the order is stored with its customer name, and the stock is taken | not executed | Checkout.CheckoutAsWritten, Checkout.AsWrittenRefusesServableCart | Database.Store.Checkout |
