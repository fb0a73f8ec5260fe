# Sales statistics core of `computeSales.py`, in Dafny

This project models the sales-accumulation engine of `computeSales.py`.

- A `Receipt` belongs to one customer, identified by a ten-digit tax identifier (AFM). It holds an ordered list of `ReceiptEntry` lines (product, amount, unit price, line total) and a running total.
- `StatsHandler` folds each receipt into two nested dictionaries. The first maps product → (AFM → cumulative total). The second maps AFM → (product → cumulative total).
- Two queries list one product's sales per customer, or one customer's purchases per product. Each list is sorted by key.
- `is_valid_afm` checks a tax identifier typed in by the user.

Amounts are whole cents (`int`), so the running total, the exact comparison with a declared total and all accumulated cells are exact.

Files and modules:

- `receipts.dfy`, module `Receipts`: the `ReceiptEntry` record; the `Receipt` class with its running total; the sums `Total` and `ProductTotal` over entries.
- `sales_table.dfy`, module `SalesTable`: a two-level dictionary `Table` as a value. `Credit` is one step of either update loop. `CreditByProduct` and `CreditByAfm` are the two loops as folds, and lemmas say what each does to keys and cells. Module `SalesLaws` holds the facts that relate them: the views stay mirror images; updates are strictly additive; receipt order does not matter; a receipt folded twice counts twice.
- `key_order.dfy`, module `KeyOrder`: Python's `<` on strings, and `sorted(d.items())` as `SortedItems`.
- `stats.dfy`, module `Stats`: the `StatsHandler` class. Its update methods are loops over the receipt's entries that reassign the two dictionary fields. The two report functions are here too, along with a worked example.
- `afm.dfy`, module `Afm`: `is_valid_afm` as written, and as evidently intended.

`Receipt.add_entry` (computeSales.py:62) calls `self.entries.insert(receipt_entry)`. `list.insert` needs an index and a value, so in Python this call raises a `TypeError`. `Receipt.AddEntry` models the evident intent, appending at the end; the running total then always equals the sum of the line totals.

## Model

| member | source | states |
|---|---|---|
| Receipts.Receipt.constructor | computeSales.py:56-59 | a new receipt has the given AFM, no entries and running total 0, so the running total equals the sum of its line totals |
| Receipts.Receipt.AddEntry | computeSales.py:61-63 | the entry is appended at the end and the running total grows by its line total, so the running total remains the sum of the line totals |
| Receipts.Receipt.HasCorrectTotal | computeSales.py:65-66 | holds exactly when the sum of the receipt's line totals equals the declared total |
| SalesTable.Credit | computeSales.py:21-29 | one entry's credit adds its outer key, puts the inner key under it, and leaves every other inner dictionary untouched |
| SalesTable.CreditCell | computeSales.py:33-41 | after one credit, the one cell `[outer][inner]` exists and has grown by the amount; every other cell keeps its existence and its value |
| SalesTable.CreditByProduct | computeSales.py:19-29 | the loop of `update_product_per_afm` as a fold of `Credit` over the entries; it has no contract of its own, and `CreditByProductKeys` and `CreditByProductCell` state its effect |
| SalesTable.CreditByAfm | computeSales.py:31-41 | the loop of `update_afm_per_product` as a fold of `Credit` over the entries; it has no contract of its own, and `CreditByAfmKeys` and `CreditByAfmCell` state its effect |
| SalesTable.CreditByProductKeys | computeSales.py:19-29 | `update_product_per_afm` removes no product key and adds exactly the products on the receipt |
| SalesTable.CreditByProductCell | computeSales.py:19-29 | after `update_product_per_afm`, `[p][afm]` has grown by the receipt's total for `p` and exists iff it existed or `p` is on the receipt; cells of other AFMs are unchanged |
| SalesTable.CreditByAfmKeys | computeSales.py:31-41 | `update_afm_per_product` removes no AFM key and adds at most the receipt's AFM, and only when the receipt has entries |
| SalesTable.CreditByAfmCell | computeSales.py:31-41 | after `update_afm_per_product`, `[afm][p]` has grown by the receipt's total for `p` and exists iff it existed or `p` is on the receipt; other AFMs' cells are unchanged |
| SalesTable.CreditByProductNoEmptyInner | computeSales.py:26-28 | `update_product_per_afm` never leaves a product with an empty AFM dictionary |
| SalesTable.CreditByAfmNoEmptyInner | computeSales.py:38-40 | `update_afm_per_product` never leaves an AFM with an empty product dictionary |
| SalesLaws.MirrorPreserved | computeSales.py:15-17 | if `[p][a]` exists in one view exactly when `[a][p]` exists in the other, with equal values, folding a receipt into both keeps that true |
| SalesLaws.NonDecreasing | computeSales.py:24 | with non-negative line totals, no cell of either view ever decreases |
| SalesLaws.OtherCellsUnchanged | computeSales.py:19-41 | no cell disappears; cells of other AFMs, or of products not on the receipt, are unchanged in both views |
| SalesLaws.ProductViewOrderIrrelevant | computeSales.py:19-29 | folding two receipts into the product view in either order gives the same dictionary |
| SalesLaws.AfmViewOrderIrrelevant | computeSales.py:31-41 | folding two receipts into the AFM view in either order gives the same dictionary |
| SalesLaws.ReingestCountsTwice | computeSales.py:15-41 | folding the same receipt twice grows its customer's cell for each product by twice the receipt's total for that product, in both views: a receipt seen before is not recognised |
| KeyOrder.SortedItems | computeSales.py:47 | `sorted(d.items())` holds exactly the pairs of `d`, each once, with keys strictly ascending in Python's string order |
| KeyOrder.AscendingItemsUnique | computeSales.py:52 | two key-ascending lists with the same pairs are equal, so the sorted report is uniquely determined |
| Stats.StatsHandler.constructor | computeSales.py:8-11 | a new handler has both dictionaries empty, and they are mirror images |
| Stats.StatsHandler.UpdateStats | computeSales.py:15-17 | on any handler, both views are updated by the receipt; if the views were mirror images with no empty inner dictionary before, they still are |
| Stats.StatsHandler.UpdateProductPerAfm | computeSales.py:19-29 | the loop over entries leaves `[p][afm]` grown by the receipt's total for `p` and created if needed; nothing else changes and nothing is removed |
| Stats.StatsHandler.UpdateAfmPerProduct | computeSales.py:31-41 | the loop over entries leaves `[afm][p]` grown by the receipt's total for `p` and created if needed; nothing else changes and nothing is removed |
| Stats.StatsHandler.AfmReport | computeSales.py:44-47 | nothing iff the product is unknown or its dictionary is empty; otherwise one `(afm, total)` line per AFM of the product, in ascending AFM order |
| Stats.StatsHandler.ProductReport | computeSales.py:49-52 | nothing iff the AFM is unknown or its dictionary is empty; otherwise one `(product, total)` line per product, in ascending product order |
| Stats.ReportsAgree | computeSales.py:44-52 | `(a, v)` is a line of product `p`'s report exactly when `(p, v)` is a line of AFM `a`'s report |
| Stats.ReportMissingIffUnknown | computeSales.py:45-51 | given the handler invariant, a report is missing exactly when the key was never recorded |
| Stats.ExampleReceipt | computeSales.py:56-63 | a receipt for 1234567890 built by adding MILK (2 × 1.50 = 3.00) and BREAD (1 × 2.50) holds exactly those two lines, in order, and a running total of 5.50, the sum of its line totals |
| Stats.DeclaredTotalExample | computeSales.py:65-66 | that receipt matches the declared total 5.50 but not 5.51 |
| Stats.LedgerExample | computeSales.py:15-52 | after folding that receipt into a new handler, MILK's report is the single line `(1234567890, 300)` and the customer's report lists BREAD, then MILK |
| Afm.IsValidAfmAsWritten | computeSales.py:74-79 | accepts exactly: ten ASCII digits, or `+` followed by nine digits; so it rejects every length other than 10 and every string containing `-` |
| Afm.IsValidAfm | computeSales.py:77 | the corrected check accepts exactly the strings of ten ASCII digits |
| Afm.AsWrittenAcceptsPlusSign | computeSales.py:76-77 | `+123456789` passes the check as written but not the corrected one |
| Afm.AfmExamples | computeSales.py:74-79 | both checks accept `1234567890` and reject `123456789`, `12345678901`, `123-456789` and `12345ABCDE` |

## Left out

- `MenuHandler` and `run_app` (computeSales.py:81-115) are left out. They are console I/O: the menu loop, `input`, `print` and `exit()`. The name-built dispatch through `getattr` is left out with them.
- No receipt-file parser and no entry check are modelled. `computeSales.py` has neither: `option_1` (computeSales.py:90-91) only reads a file name, and `ReceiptEntry.__init__` (computeSales.py:68-72) stores its arguments unchecked.
- Currency is whole cents (`int`), not Python floats. So `0.00` and `+=` on floats are not reproduced, and neither are rounding effects on sums or on the exact equality in `has_correct_total`.
- The text rendering of reports is left out: `'{} {}'.format(...)` with Python's float repr, and joining lines with `"\n"`. A report is the sorted sequence of `(key, cents)` pairs it would print.
- IsValidAfmAsWritten: Python's `int()` also accepts surrounding whitespace, `_` between digits and non-ASCII decimal digits. The model treats it as "optional sign, then ASCII digits" only. So, for example, `" 123456789"` is accepted by the source but not by this model.
- `ReceiptEntry` has no operations. No consistency between unit price, amount and line total is assumed anywhere.
- Python dictionaries are ordered by insertion, and both `update_product_per_afm` and `update_afm_per_product` update an inner dictionary in place through an alias (computeSales.py:21-25, 33-37). The model uses value maps. The only code that iterates the dictionaries sorts their items by distinct keys (computeSales.py:47, 52), so insertion order never shows; and each inner dictionary belongs to one outer key, so the alias changes nothing else.

## Findings

| source | as written | input that shows it | evidently intended | confidence | as-written member | corrected member |
|---|---|---|---|---|---|---|
| computeSales.py:76-77 | `int(afm)` succeeds, `len(afm) == 10` and `"-" not in afm` | `"+123456789"`: `int` accepts the leading `+`, the length is 10, and there is no `-` | only ten decimal digits are a tax identifier, so a sign is refused like `-` | high (not executed) | Afm.IsValidAfmAsWritten, Afm.AsWrittenAcceptsPlusSign | Afm.IsValidAfm |
