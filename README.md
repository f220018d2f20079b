# Point-of-sale ledger

A model of the logic of a small point-of-sale program (`main.py`). The program
sells products from a catalog kept in `products.csv`, collects the selected
units in a cart, records every checkout as rows of `transactions.csv`, and
shows the recorded sales as a filterable history, as totals per day and as
the ten best-selling products.

The model keeps the program's own structure:

- `wrappers.dfy` (module `Wrappers`): `Option` and `Result`.
- `text.dfy` (module `Text`): Python's `str.strip`, `split()[0]`, `int()` and
  `float()`, with prices in integer cents, and the writing of numbers.
- `tally.dfy` (module `Tally`): the insertion-ordered accumulation that the
  program does with `dict`, `defaultdict` and `Counter`; the loop shared by
  the two reports, which skips the rows that fail to parse; and
  `Counter.most_common(n)` as a stable sort by decreasing count.
- `cart.dfy` (module `Cart`): the cart as a sequence of `(name, price)`
  units and the grouping pass repeated in `record_transaction`,
  `update_cart` and `checkout`.
- `catalog.dfy` (module `Catalog`): the product dict, and reading and
  writing `products.csv`.
- `ledger.dfy` (module `Ledger`): `transactions.csv`, the rows a sale
  appends, and deleting a row with renumbering.
- `history.dfy` (module `History`): the two timestamp formats, the
  year/month/day filter and the newest-first history list.
- `reports.dfy` (module `Reports`): daily sales and the top ten products.
- `till.dfy` (module `Till`): the class `Till`, which holds the state the
  program changes in place: both files, the cart and the Products tab's
  product dict. Its methods are the event handlers.

Files are `CsvFile = Missing | Present(rows)`. The rows include the header,
and each row is a sequence of string fields. Money is integer cents. A price
is written as `I.FF`, and `float()` is modelled for prices with at most two
decimals.

The model follows the code in these behaviours:

- An existing but empty `products.csv` makes `load_products` raise
  `StopIteration` (`LoadError.NoHeader`). It does not give the default
  catalog.
- `add_product` accepts negative prices.
- All rows of one sale share one index: the number of lines already in the
  file. Index values are therefore not unique across the file.

## Model

| member | source | states |
|---|---|---|
| Text.Strip | main.py:126 | the result is the slice of the input left between a run of leading and a run of trailing whitespace; it neither starts nor ends with whitespace, and is empty exactly when the input is all whitespace |
| Text.FirstWord | main.py:440 | `split()[0]` exists exactly when the text is not all whitespace; it is then the non-empty run of non-whitespace that starts after the leading whitespace and ends at whitespace or at the end of the text |
| Text.FirstWordOf | main.py:440 | a word followed by nothing or by whitespace is the first word of the text |
| Text.ParseFormatInt | main.py:64-75 | an index or amount written into a row reads back as the same integer with `int()` |
| Text.ParseFormatCents | main.py:75 | a price or total written into a row reads back as the same number of cents with `float()` |
| Text.ParseSignedCentsText | main.py:393 | a negative price such as `-1.50` is accepted by `float()` |
| Tally.FirstSeenDistinct | main.py:67-72 | the keys of an accumulated dict are pairwise different |
| Tally.FirstSeenOrder | main.py:67-72 | dict keys keep the order in which they were first added |
| Tally.TallyStep | main.py:68-72 | adding one pair adds its amount to the entry of its key, or appends a new entry when the key is new |
| Tally.TallyConserves | main.py:442 | the entries of the accumulated dict add up to the sum of all the amounts added |
| Tally.TallyTotal | main.py:485 | the entry of each key is the sum of the amounts added under it |
| Tally.AccumulateRows | main.py:437-445 | the loop of both reports leaves the dict of the rows that parse, with every rejected row skipped |
| Tally.FoldedIsAccumulated | main.py:476-486 | updating the dict one row at a time gives one entry per key read, in first-seen order, each holding the sum of that key's amounts |
| Tally.PickedConcat | main.py:437-445 | the pairs read from two runs of rows are those of the first run followed by those of the second |
| Tally.SortByCountCorrect | main.py:489 | the sort behind most_common puts counts in non-increasing order, keeps ties in insertion order and is a permutation |
| Tally.MostCommonSorted | main.py:489 | `most_common(n)` returns min(n, number of entries) entries, in non-increasing order of count |
| Tally.MostCommonIsTop | main.py:489 | no entry left out of `most_common(n)` has a larger count than an entry that is kept |
| Tally.MostCommonKeepsTies | main.py:489 | the kept entries with any one count are the first entries with that count, in insertion order |
| Cart.GroupCart | main.py:65-72 | the grouping loop yields one group per product, holding the first unit's price, the number of units and the sum of their prices |
| Cart.SummaryStep | main.py:67-72 | adding one unit to the cart changes the per-product groups exactly as one pass of the loop does: the group of its product gains one unit and its price, or a new group is appended |
| Cart.GroupedIsSummary | main.py:137-143 | grouping the cart unit by unit gives one group per product, in first-added order, with the product's first price, number of units and price sum |
| Cart.SummaryOrder | main.py:137-143 | each product in the cart has exactly one group, and groups are ordered by the product's first addition |
| Cart.CartTotalIsSum | main.py:145-147 | the group totals add up to the sum of the prices of all units |
| Cart.AmountsCoverCart | main.py:94-96 | the group amounts add up to the number of units in the cart |
| Cart.DisplayTotalDiffers | main.py:98-102 | with two units of one product at different prices, the cart display shows a total other than the sum of the prices |
| Cart.DisplayTotalOfOnePrice | main.py:98-102 | when all units of each product share one price, the displayed total is the amount charged |
| Cart.RemoveRawPositionMisses | main.py:99 | the delete button of the second display row removes a unit of the first product when that product has two units |
| Cart.RemoveFromGroupCounts | main.py:99 | the corrected delete takes exactly one unit of the row's product and leaves every other product's count unchanged |
| Catalog.Lookup | main.py:110-111 | a name is found exactly when it is in the catalog, and it then gives that product's price |
| Catalog.Put | main.py:394 | setting a product keeps the names distinct, sets its price and leaves every other product unchanged; a new name is appended at the end |
| Catalog.Remove | main.py:407 | deleting a product leaves it absent, leaves every other product unchanged and in its order, and changes nothing for an absent name |
| Catalog.Defaults | main.py:19 | the built-in catalog holds five distinct products |
| Catalog.FileRows | main.py:30-51 | a saved file is one header row followed by one name/price row per product, in catalog order |
| Catalog.ReadProducts | main.py:12-17 | the reading loop skips the header and empty rows, stores every other row's price under its name, and stops at the first row that raises |
| Catalog.WriteProducts | main.py:50-51 | the writing loop writes the header and then one row per product |
| Catalog.FailureSticks | main.py:17 | the first row that raises decides the outcome of the whole load |
| Catalog.LoadRowsMeaning | main.py:15-17 | after a load, each name has the price of its last row, and names appear in the order of their first row |
| Catalog.LoadAfterSave | main.py:23-51 | loading a saved catalog gives the same catalog back |
| Ledger.Created | main.py:56-59 | a missing transactions file is created holding just the header |
| Ledger.WriteSale | main.py:74-75 | the writing loop appends one row per group of the sale |
| Ledger.RecordedRows | main.py:61-75 | recording keeps the existing rows and appends one row per product, in group order; each row carries the shared index and timestamp and reads back as the product's price (that of its first unit), amount and total |
| Ledger.BatchIndex | main.py:64 | the index shared by a sale is one more than the number of data rows already recorded |
| Ledger.DataRows | main.py:241-247 | loading fails exactly on an empty file, and otherwise returns every row after the header |
| Ledger.RenumberRows | main.py:257-258 | the rewriting loop gives the i-th row the index i + 1 and keeps the rest of the row |
| Ledger.Without | main.py:252 | deleting position pos keeps the rows before it and shifts the rows after it down by one |
| Ledger.RenumberedMeaning | main.py:257-258 | the rewritten index column reads 1..N, and every other field is kept |
| Ledger.DeleteMeaning | main.py:249-261 | an in-range delete writes the header followed by the other rows renumbered; an out-of-range position writes nothing |
| History.ParseTimestamp | main.py:278-282 | the first format is tried, then the second; any date read is a valid calendar date |
| History.ParseIsoStamp | main.py:63 | a timestamp written by a checkout parses, in the second format, to its own date |
| History.IsoStampNotLegacy | main.py:279 | a timestamp written by a checkout never parses in the first format |
| History.FieldsOfJoin | main.py:279-282 | digit fields joined by the format's separators split back into the same fields |
| History.SiftRows | main.py:274-291 | the filtering loop keeps exactly the rows that pass the test, in file order |
| History.KeptMeaning | main.py:284-289 | the kept rows are in file order, each of them passes the filter, and every row that passes is kept |
| History.NoFilterKeepsParsed | main.py:284-286 | with nothing selected, every row whose timestamp parses is kept |
| History.IsoStampDate | main.py:440 | the first word of a timestamp written by a checkout is its `%Y-%m-%d` date |
| History.Matches | main.py:284-288 | a date matches exactly when each selected dropdown (year, month, day) equals the date's field: a selected field that differs excludes it, and a selection whose every chosen field agrees, including none at all, includes it |
| History.Keep | main.py:284-291 | a kept row's timestamp parses; with nothing selected, a row is kept exactly when its timestamp parses |
| History.DropsUnparsed | main.py:290-291 | a row whose timestamp parses in neither format is dropped, whatever the selection |
| History.View | main.py:294 | the list shows the kept rows newest first, each with its position in the filtered list |
| History.HistoryDeleteMisses | main.py:294-296 | when an earlier row is filtered out, the delete button beside a later row deletes the earlier row |
| History.CorrectedViewDeletesShownRow | main.py:296 | the corrected list shows the same rows, and each button deletes exactly the row it is shown beside |
| Reports.DatedTotal | main.py:439-441 | a row counts exactly when it has at least seven fields, a timestamp that is not blank and a total that `float()` reads; it then counts that total under the timestamp's first word (`split()[0]`), a non-empty date without whitespace |
| Reports.DailySales | main.py:431-446 | the daily sales are the totals per date of the rows that parse |
| Reports.DailySalesMeaning | main.py:437-446 | there is one entry per date, in order of first appearance; each entry sums its date's totals, and the entries add up to the sum of all the totals counted |
| Reports.SkippedRowIgnored | main.py:443-444 | a row that fails to parse changes nothing, and the rows around it are still counted |
| Reports.CheckoutAddsToItsDay | main.py:55-75 | a recorded sale adds its cart's price sum to the date of its timestamp and nothing to any other date |
| Reports.Quantity | main.py:483-484 | a row counts when it has at least five fields and its amount reads as an integer, and it then counts that amount for its product |
| Reports.ProductQuantities | main.py:476-486 | the counter holds, per product, the sum of the amounts of the rows that parse |
| Reports.TopTenMeaning | main.py:489 | the top ten holds min(10, number of products) products, each with its summed amount; no product left out sold more than one shown, and ties keep first-seen order |
| Reports.CheckoutAddsQuantities | main.py:55-75 | a recorded sale adds to each product's quantity the number of its units in the cart |
| Till.LoadTwice | main.py:18-20 | the file created by a first load reads back as the built-in catalog, so loading again gives the same result |
| Till.CustomerName | main.py:126-128 | the name is the stripped field, or "Unknown" when the field is blank |
| Till.ReceiptTotal | main.py:145-147 | the receipt loop adds up the group totals |
| Till.DrawHistory | main.py:294-315 | the history is drawn newest first, and a kept row that cannot be shown raises |
| Till.DailyReport | main.py:433-436 | the daily report fails exactly on an empty transactions file |
| Till.CheckoutInDailySales | main.py:124-163 | after a checkout, the daily report of the sale's date grows by the sum of the cart's prices, and other dates stay the same |
| Till.StampedCheckoutInDailySales | main.py:439-441 | a checkout stamped at a given time adds the cart's price sum to the total of that time's `%Y-%m-%d` date, and nothing to other dates |
| Till.CheckoutInQuantities | main.py:124-163 | after a checkout, each product's quantity sold grows by its number of units in the cart |
| Till.Till.LoadProducts | main.py:9-21 | a missing file gives the five defaults and is written with them; an existing file is read and left as it is |
| Till.Till.OpenProductsTab | main.py:334 | building the Products tab loads the dict as `load_products` does, writing the defaults to a missing file; a load that raises leaves the tab's dict as it was |
| Till.Till.SaveProducts | main.py:23-51 | the products file becomes the header followed by the catalog's rows |
| Till.Till.AddToCart | main.py:105-118 | the catalog is reloaded; a listed product is appended with its current price; otherwise the cart is unchanged and the outcome says why |
| Till.Till.RemoveFromCart | main.py:120-122 | the unit at the given raw position is deleted |
| Till.Till.RemoveCartRow | main.py:99 | the corrected delete removes one unit of the display row's product |
| Till.Till.ShowCart | main.py:88-103 | the cart display shows the groups and the first-price-times-amount total |
| Till.Till.RecordTransaction | main.py:55-75 | the transactions file becomes the existing rows plus the sale's rows |
| Till.Till.Checkout | main.py:124-163 | an empty cart changes nothing; otherwise the sale is recorded under the customer's name, the receipt charges the sum of all prices, and the cart is emptied |
| Till.Till.AddProduct | main.py:388-403 | with both fields non-empty after stripping and a readable price, the product is set and the dict is saved so it reads back unchanged; otherwise nothing changes |
| Till.Till.DeleteProduct | main.py:405-412 | a listed product is removed and the dict saved; an absent name changes nothing |
| Till.Till.LoadTransactions | main.py:233-247 | the file is created when missing, and the rows after the header are returned |
| Till.Till.DeleteTransaction | main.py:249-261 | the freshly loaded rows lose the given position and are written back renumbered; an out-of-range position writes nothing |
| Till.Till.ShowHistory | main.py:263-317 | the history list is the filtered rows newest first, or the error that stops it |
| Till.Till.DailySalesReport | main.py:431-446 | the report is the daily sales of the file's data rows, without creating the file |
| Till.Till.TopTenSales | main.py:475-490 | the report is the ten best-selling products of the file's data rows, without creating the file |

## Left out

- The flet user interface: widgets, dropdown population, tabs, routes, dialogs and `page.update`. Handlers take the text fields and dropdown values as parameters.
- The QR code tab (`qrcode` and its temporary file). It is a foreign library plus file I/O.
- CSV quoting and escaping. A row is a sequence of fields, and the line count behind a sale's index is the number of rows. A field holding a newline would make the two differ.
- The clock: `time.strftime` becomes a timestamp parameter. `Checkout` takes one timestamp for the recorded rows and one for the receipt, since the program reads the clock twice.
- Floating point. Prices are integer cents, and `float()` is modelled for an optional sign, digits and at most two decimals. Exponents, `inf`, `nan`, underscores and longer fractions are rejected where Python would accept them. `:.2f` rounding and `str(float)` text (`1.0` rather than `1.00`) are not modelled.
- Text.ParseInt: `int()` is modelled for ASCII digits with an optional sign. Underscores between digits and non-ASCII decimal digits are rejected where Python would accept them.
- `datetime.strptime` leniency: a space-padded field such as ` 1`, and a run of whitespace where the format has one space, are rejected where Python would accept them. Fields of one or two digits (with or without a leading zero) and four-digit years are read, with fixed separators, and ranges and day-of-month are checked.
- Rows with fewer than 7 fields stop the history list with an `IndexError` that the program does not catch. `Till.Till.ShowHistory` returns `ShortRow` for them before filtering, not at the row where the program stops, so the rows printed before the crash are not modelled.
- `print` logging of skipped rows and missing products.
- The receipt's drawn text. `Checkout` returns the receipt's values instead.
- The read-only listing of the Products tab (`load_products_data`) and the dropdown refresh. They only draw.

## Findings

| source | as written | input that shows it | evidently intended | confidence | as-written member | corrected member |
|---|---|---|---|---|---|---|
| main.py:98-102 | the cart display's total multiplies each group's first price by its amount | add Apple at 1.00, change its price to 1.20, add Apple again: the display shows 2.00 and checkout charges 2.20 | the displayed total is the amount charged | not executed | Cart.DisplayTotalDiffers | Cart.CartTotalIsSum |
| main.py:99, 120-121 | the delete button of display row i deletes raw cart position i | cart Apple, Apple, Banana: the Banana row's button removes an Apple and the Banana stays | the button removes one unit of its own row's product | not executed | Cart.RemoveRawPositionMisses | Cart.RemoveFromGroupCounts |
| main.py:294-296, 249-252 | the history delete button passes the row's position in the filtered list, and delete_transaction uses it as a position in the file | an unparseable row followed by a row stamped 2025-01-02 10:30:00: the button beside the second row deletes the first | each button deletes the row shown beside it | not executed | History.HistoryDeleteMisses | History.CorrectedViewDeletesShownRow |

The `Till` class keeps each handler as written. The corrected cart delete is
also available as `Till.Till.RemoveCartRow`.
