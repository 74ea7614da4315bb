# Sales-export reconciliation and price-list matching, in Dafny

This project models the two data pipelines of a small shop's spreadsheet tools.
It proves properties of both.

**Sales-export reconciliation (`order_check.py`).** The POS sales export is a
grid of cells.
- **Extractor.** It finds the rows holding a dashed rule. It keeps the rows
  after the second rule and splits each row's first cell into tokens.
- **Repairer.** It fixes or poisons the barcode token of each row.
- **Segmenter.** It walks the rows with a rewinding cursor. It deletes bill
  header rows and short rows, and collects the bill keys. It stops at the
  grand-total row `รวมทั้งสิ้น`.
- **Aggregator.** It sums the `".แพ็ค"` pack quantities per barcode, in order
  of first appearance.
- **Stock matcher.** It looks each barcode up in the stock sheet. Each match
  consumes the first stock entry with the same integer value.

**Price-list matching (`product_price_checker.py`).**
- `clean_barcode` folds Unicode spaces and strips a leading "No" prefix. It
  then cuts the barcode at the first space, `/`, `+` or Thai character.
- The left price list is parsed from text rows split on wide gaps. Each kept
  row gives an index, a cleaned product and a chosen price.
- Every row of the right sheet is looked up by its first matching product.
- `hide_rows` hides the rows of the output sheets that are not to be shown.

Modules, one per file:
- `text.dfy` (`Text`): the Python string semantics used throughout.
  - `str.isspace`, `strip`, `split()`, substring search and ASCII `isdigit`.
  - The regular expression `\s` of the wide-gap split matches the same
    characters as `str.isspace`, so both use `Text.IsSpace`.
  - `int()` for ASCII text.
- `cells.dfy` (`Cells`): spreadsheet cells (text, number or empty) and blank
  rows.
- `express.dfy` (`Express`): the extractor, the repairer, the segmenter and
  the `GetExpressData` pipeline.
- `quantity.dfy` (`Quantity`): `ExtractPackQtyFromRow` and `SummariseByBarcode`.
- `stock.dfy` (`Stock`): `SafeInt`, `GetStockData`, the consume-once matcher
  of `WriteMainData`, and the bill range and count strings.
- `barcode.dfy` (`Barcode`): `clean_barcode` and `is_integer_token`.
- `pricelist.dfy` (`PriceList`): the row parse, the price choice, the lookup
  and `hide_rows`.

**How loops and mutation are modelled.** Each loop of the source is a `method`
whose `ensures` ties its result to a specification function. The lemmas then
prove the promised properties of that function.
- Sheet rows are 0-based in the model. The source's openpyxl rows are 1-based.
  The model's row `r` is sheet row `r + 1`.
- The stock list that `WriteMainData` deletes from is returned as the leftover
  pool.
- The worksheet whose rows `hide_rows` hides is the class `PriceList.Sheet`.

**Behaviour of the code that is easy to misread:**
- The bill list holds the *normalised* keys, with non-`[A-Za-z0-9]` characters
  removed (order_check.py:580-584), not the bill numbers as printed.
- `"1234.56"` in the barcode position is poisoned, not left alone: `"56"` is
  all digits, so the split branch is skipped (order_check.py:565-572).
- Grouping is by `row[2]` alone (order_check.py:637-643), not by
  (barcode, item code).
- The matcher is a linear search that deletes the first equal entry
  (order_check.py:372-387). A second equal demand therefore claims the next
  duplicate stock entry. It is not a one-to-one lookup in which duplicates
  become unreachable.

## Model

| member | source | states |
|---|---|---|
| Text.TrimSpec | order_check.py:513 | `strip()` removes exactly the leading and trailing whitespace run; the result is a slice of the input that starts and ends with non-whitespace |
| Text.TrimEmpty | order_check.py:513-515 | a stripped cell is empty exactly when the cell is all whitespace |
| Text.Words | order_check.py:540 | `split()` yields non-empty words without whitespace, and none at all exactly when the text is all whitespace |
| Text.WordsKeepText | order_check.py:540 | `split()` yields non-empty whitespace-free words which, concatenated, are the cell's text with only its whitespace removed |
| Text.WordsOfWord | order_check.py:540 | a non-empty text without whitespace splits into itself alone |
| Text.WordsBreak | order_check.py:540 | a whitespace character separates: the words of `u + [c] + v` are the words of `u` followed by those of `v` |
| Text.ParseInt | order_check.py:691 | `int()` of text accepts only a numeral: once stripped, it starts with a digit, or with `+` or `-` followed by at least one more character, and every later character is a digit; a negative value only with a leading `-` |
| Text.ParseIntToDecimal | order_check.py:691 | `int()` reads a decimal numeral back to the number it writes |
| Text.ParseIntLeadingZero | order_check.py:691 | a leading zero does not change what `int()` reads |
| Text.ParseIntSigned | order_check.py:691 | a sign before a decimal numeral reads as `-n` for `-` and as `n` for `+` |
| Express.RowHasDashLine | order_check.py:509-517 | the cell scan with early `break` finds a dash line exactly when some text cell, stripped, is non-empty and all `-` |
| Express.Separators | order_check.py:504-520 | the separator list holds every rule row, only rule rows, in increasing row order |
| Express.ExtractRows | order_check.py:504-541 | the nested scan and the data loop compute the extraction, and every extracted row has at least one token |
| Express.ScanSeparators | order_check.py:504-519 | the first pass computes the separator list |
| Express.SplitFrom | order_check.py:528-539 | the second pass splits every non-blank row from the start on |
| Express.OneRuleIsNotEnough | order_check.py:522-524 | a grid with at most one rule row gives no data |
| Express.FirstTwoSeparators | order_check.py:504-526 | with rules at `p1 < p2` and no other rule before `p2`, these are the first two separators |
| Express.SecondRuleStartsData | order_check.py:526-541 | data starts right after the second rule: the result is the split of the rows after it |
| Express.SplitRowsFromRegion | order_check.py:529-541 | every extracted row is the word split of the first cell of some non-blank row after the start |
| Express.SplitRowsCoversRegion | order_check.py:529-541 | every non-blank row after the start is extracted; only all-empty rows are skipped |
| Express.Extract | order_check.py:504-541 | data rows are returned only when the grid has two rule rows, and every returned row has at least one token |
| Express.RepairRowSpec | order_check.py:550-572 | rows with fewer than 3 tokens are untouched; a row of 3 or more tokens comes back unchanged only when its stripped token 2 is all digits (a token already carrying the poison prefix is poisoned again); a row grows by at most one token; tokens 0-1 and the tokens after index 2 are kept, in order; a split gives digits and non-digit text that rejoin with a dot into the stripped token; afterwards token 2 is all digits or poisoned with its text copied to token 3; and the row is split into digits exactly when its stripped token 2 is a glued field (digits, a dot, then non-empty text that is not all digits) |
| Express.RepairRow | order_check.py:550-572 | a row either comes back unchanged or grows by exactly one token |
| Express.RepairSplitsExactly | order_check.py:554-568 | the split branch is taken exactly when the stripped token is a glued field, stated without reference to the substring search |
| Express.RepairSplitsGluedField | order_check.py:560-568 | `"1234.ABC"` becomes `"1234"`, `"ABC"` |
| Express.RepairPoisonsDecimal | order_check.py:565-572 | `"1234.56"` is poisoned, because its right part is all digits |
| Express.RepairPoisonsLeadingDot | order_check.py:561-572 | `".X"` is poisoned, because its left part is empty |
| Express.RepairInPlace | order_check.py:551-572 | the in-place overwrite and insert at index 3 compute `RepairRow` |
| Express.RepairRows | order_check.py:550-572 | the repair loop repairs every row, one for one |
| Express.SegmentFrom | order_check.py:574-595 | on success, the items and the bill keys together are fewer than the rows (the grand-total row is neither) |
| Express.SegmentBills | order_check.py:574-588 | the delete-and-rewind cursor loop terminates (`len(data) - index` decreases) and computes the segmentation |
| Express.SegmentFromItems | order_check.py:574-595 | on success every surviving item is one of the input rows, has at least 5 tokens and is not the grand-total row |
| Express.SegmentNeedsTotalRow | order_check.py:574-595 | segmentation succeeds exactly when some row is the grand-total row |
| Express.SegmentTotalIsLastToken | order_check.py:590-593 | the total is the last token of the first grand-total row |
| Express.SegmentItemsInOrder | order_check.py:574-593 | the surviving items are a subsequence, in order, of the rows before the total row |
| Express.SegmentAccountsForEveryRow | order_check.py:575-586 | counting: the items, the bill keys and the short rows before the total row add up to the number of those rows |
| Express.SegmentPrefix | order_check.py:574-588 | after any prefix of the rows before the total, the segmentation is what that prefix contributed followed by the segmentation of the rest under the key in progress |
| Express.SegmentByRowFate | order_check.py:574-593 | before the first total row, a row of at least 5 tokens whose key differs from the key in progress goes to the bill list as that key and not to the items; every other row of at least 5 tokens is an item; shorter rows go to neither; the order is kept and the total is the total row's last token |
| Express.BillsAlternate | order_check.py:579-584 | consecutive bill keys always differ |
| Express.TreatExpressData | order_check.py:545-595 | repair then segmentation, in that order |
| Express.GetExpressData | order_check.py:482-543 | the pipeline gives "fewer than two rules", "no grand total" or the items, bills and total of the repaired rows |
| Express.ExpressItemsWellFormed | order_check.py:550-593 | every returned item has at least 5 tokens, and its token 2 is all digits or poisoned with the copy at token 3 |
| Quantity.ExtractPackQtyFromRow | order_check.py:597-616 | the accumulation loop sums what each token contributes |
| Quantity.TokenQty | order_check.py:607-615 | a token contributes something only when `".แพ็ค"` occurs in it |
| Quantity.RowQtyAppend | order_check.py:605-616 | a row's quantity adds up over any split of the row |
| Quantity.RowQtyWithoutPacks | order_check.py:606-607 | a row with no `".แพ็ค"` token has quantity 0 |
| Quantity.PackTokenCounts | order_check.py:607-613 | `"n.แพ็ค"` contributes exactly n |
| Quantity.FirstSeenSpec | order_check.py:631-645 | the summary keys are distinct, and they are exactly the `row[2]` of the rows with at least 4 tokens |
| Quantity.FirstSeenPrefix | order_check.py:631 | keys seen in a prefix of the rows come first, in the same order (order of first appearance) |
| Quantity.QtyOfUnseen | order_check.py:641-645 | a barcode not yet seen has no quantity so far, so starting it at 0 is right |
| Quantity.Summarize | order_check.py:641-650 | one summary per listed barcode, in the listed order |
| Quantity.SummariseByBarcode | order_check.py:618-650 | the OrderedDict loop yields one summary per distinct barcode, in first-seen order, with that barcode's summed quantity |
| Quantity.SummarizeStep | order_check.py:647-648 | one more row adds its quantity to its barcode's summary and to no other |
| Quantity.SummariesConserveQty | order_check.py:633-650 | the summaries' quantities add up to the quantity of all counted rows |
| Stock.SafeIntTextAndNumber | order_check.py:689-693 | a barcode written as text and the same barcode stored as a number are equal under `SafeInt` |
| Stock.SafeIntDropsLeadingZero | order_check.py:689-693 | a leading zero does not change `SafeInt` |
| Stock.SafeInt | order_check.py:689-693 | a number cell is its own value; an empty cell or whitespace-only text has none, as `int()` raises there |
| Stock.StockRowsUpTo | order_check.py:672-685 | the stock list has no more rows than the sheet, and no blank ones |
| Stock.GetStockData | order_check.py:652-685 | the row loop from sheet row 2 computes the stock list of columns 2, 3 and 6 |
| Stock.StockRowsFromSheet | order_check.py:673-683 | every stock entry is columns 2, 3, 6 of some sheet row from row 2 on |
| Stock.StockRowsCoverSheet | order_check.py:673-683 | every non-blank sheet row from row 2 on is in the stock list |
| Stock.FirstClaim | order_check.py:372-377 | the entry claimed is the first whose `SafeInt` equals the item's, both defined; none is claimed only when no entry does |
| Stock.ClaimFirst | order_check.py:371-387 | the search loop with `break` finds that first claiming entry |
| Stock.MatchAll | order_check.py:336-397 | one result per item |
| Stock.WriteMainData | order_check.py:336-397 | the item loop computes the results and the leftover stock |
| Stock.MatchItem | order_check.py:350-387 | one item's body: a poisoned barcode is split at its `_`, any other claims and removes the first claiming entry, as `MatchOne` says |
| Stock.MatchOne | order_check.py:350-387 | the stock shrinks by exactly one entry when a match is reported, and is unchanged otherwise |
| Stock.MatchAllConsumesOnce | order_check.py:372-387 | every match removes exactly one stock entry, and the leftover keeps the original order |
| Stock.PoisonedBarcodeRoundTrip | order_check.py:351-365 | a poisoned barcode is split back at its first `_` into the prefix and the original text, and the stock is untouched |
| Stock.EqualDemandsClaimSuccessiveEntries | order_check.py:372-387 | two equal demands claim the first two equal stock entries, one each |
| Stock.MatchOneClaims | order_check.py:373-387 | a claimed entry is reported with its name and stock count and removed |
| Stock.BillRange | order_check.py:302 | there is no range for an empty bill list; otherwise it is the first bill, `" – "` (an en dash between spaces) and the last bill |
| Stock.BillCount | order_check.py:318 | the count text reads back as the number of bills |
| Barcode.CollapseSpacesSpec | product_price_checker.py:17-26 | after collapsing, every remaining SPACE_CHARS character is the ASCII space and no two are adjacent; the other characters are kept, in order; the result starts with a space exactly when the input does (that each run becomes exactly one space is `Barcode.CollapseRun`) |
| Barcode.CollapsePlain | product_price_checker.py:26 | text without any of SPACE_CHARS is unchanged |
| Barcode.CollapseRun | product_price_checker.py:26 | a maximal run of SPACE_CHARS between two other characters becomes exactly one ASCII space, and the text on either side is collapsed independently |
| Barcode.CollapseSpacesIdempotent | product_price_checker.py:26 | collapsing twice is collapsing once |
| Barcode.StripNoPrefixSpec | product_price_checker.py:31 | only a run of "no" pairs, in any case, is removed from the front, and what remains does not start with one |
| Barcode.StopPrefix | product_price_checker.py:34-35 | the result is a prefix of the input: the longest non-empty one without a stop character, or the whole input when it starts with one |
| Barcode.NormalisedAsciiSpacesOnly | product_price_checker.py:26-31 | after normalising, the only space character left is the ASCII space |
| Barcode.CleanBarcodeSpec | product_price_checker.py:19-35 | the cleaned barcode is a prefix of the normalised text, is empty only when it is, and when it does not start with a stop character it contains none |
| Barcode.CleanBarcode | product_price_checker.py:19-35 | a missing cell cleans to empty text; otherwise the result is a prefix of the normalised text, empty only when that is |
| Barcode.CleanBarcodeDigits | product_price_checker.py:19-35 | a plain digit string is its own cleaned barcode |
| Barcode.CleanBarcodeStripsNo | product_price_checker.py:31 | `"NoNO123"` cleans to `"123"` |
| Barcode.CleanBarcodeNotIdempotent | product_price_checker.py:19-35 | `"No No123"` cleans to `"No123"`, which cleans again to `"123"` |
| Barcode.IntegerTokenParses | product_price_checker.py:42-45 | an integer token reads back as the value of its stripped digits |
| Barcode.IntegerTokenDecimal | product_price_checker.py:42-45 | every decimal numeral is an integer token |
| PriceList.GapFromSpec | product_price_checker.py:90 | the scan finds the leftmost run of two or more whitespace characters, or reports that there is none |
| PriceList.SpaceLenSpec | product_price_checker.py:90 | the gap consumed is the whole whitespace run |
| PriceList.SplitWide | product_price_checker.py:90 | the split always yields at least one field |
| PriceList.SplitWideWhole | product_price_checker.py:90 | text with no gap of two whitespace characters is one field |
| PriceList.SplitWideAtGap | product_price_checker.py:90 | at the first gap, the text before it is the first field and the rest is split on its own |
| PriceList.SplitWideNoGap | product_price_checker.py:90 | no field of the split holds two adjacent whitespace characters |
| PriceList.SplitWideKeepsText | product_price_checker.py:90 | the split loses only whitespace |
| PriceList.SplitWideStripped | product_price_checker.py:90 | on stripped non-empty text every field is non-empty and stripped |
| PriceList.DecimalPriceChosen | product_price_checker.py:100-101 | a whole-number price in column 3 is taken |
| PriceList.DigitlessPriceSkipped | product_price_checker.py:100-105 | a column 3 without a digit is skipped for column 4, or for `""` when there is none |
| PriceList.MalformedPriceSkipped | product_price_checker.py:100-103 | a column 3 with digits that is still not a number, `"1.2.3"`, is skipped for column 4 |
| PriceList.PriceOf | product_price_checker.py:100-105 | column 3 is the price when it parses as a number; otherwise column 4 when there is one, and `""` when there is not |
| PriceList.ParseLeft | product_price_checker.py:84-105 | the row loop builds the left table of the kept rows' entries |
| PriceList.ParseRow | product_price_checker.py:89-105 | one row's split, integer test and price choice give that row's entry of the left table |
| PriceList.LeftTableEntries | product_price_checker.py:88-105 | the three lists have equal length; each line is a kept row's index, cleaned product and chosen price, in row order |
| PriceList.LeftTableComplete | product_price_checker.py:88-105 | every kept row is in the left table |
| PriceList.FindProduct | product_price_checker.py:118-123 | the inner loop with `break` finds the first left product equal to the key, both stripped |
| PriceList.FirstMatchAt | product_price_checker.py:120-123 | when the products before `j` differ from the key and product `j` equals it, the match is `j`; when none does, there is no match |
| PriceList.FirstMatchSpec | product_price_checker.py:120-123 | the match is the first equal product, and there is none only when no product is equal |
| PriceList.ClassifyMeaning | product_price_checker.py:117-131 | a row is unmatched exactly when no product has its key, and outdated exactly when the first such product's price and the row's do not agree: both must parse and be equal to two decimal places |
| PriceList.Classify | product_price_checker.py:117-131 | a row is current only when its own price is present and parses, and matched only when some left product has its key |
| PriceList.UnreadablePriceOutdated | product_price_checker.py:128-131 | when the matched left price, or the row's price, is missing or does not parse (NaN), the row is listed as outdated |
| PriceList.CheckRow | product_price_checker.py:117-131 | one row's lookup and price comparison give its verdict |
| PriceList.LookupRight | product_price_checker.py:113-131 | the row loop lists the unmatched and the outdated rows |
| PriceList.LookupClassifies | product_price_checker.py:116-131 | a row is listed as unmatched or outdated exactly when its own verdict says so, and only row indices are listed |
| PriceList.TallyMembers | product_price_checker.py:125-131 | a row index is listed as unmatched or outdated exactly when its verdict says so, and only existing rows are listed |
| PriceList.EqualKeysClassifiedAlike | product_price_checker.py:116-126 | the left table is never consumed: rows with equal key and price are listed alike |
| PriceList.Sheet.HideRows | product_price_checker.py:144-149 | data row r (2 to max_row) ends up hidden exactly when it was already hidden or r - 2 is not kept; row 1 and rows past max_row are untouched |

## Left out

- Streamlit UI, file upload and download, and workbook I/O and styling are not modelled: fonts, fills, borders, column widths, sheet copying and saving. The model takes the sheets as sequences of cells and returns values.
- `read_any_table` and its CSV encoding fallback are not modelled.
- `pages/insert_product_picture.py` is not part of this model. It does image resizing and drawing anchors.
- Floating point is not modelled: `float()` in the pack quantity, the `sum_qty` accumulation, and `round(..., 2)` in the price comparison.
- PriceList.Classify: `round(left, 2) != round(right, 2)` on two parsed numbers is the parameter `samePrice`, since floats are not modelled. A missing price or one that does not parse is NaN, and the model lists such a row as outdated whatever `samePrice` says.
- Quantity.TokenQty: reads the text before `".แพ็ค"` as an integer (optional sign, ASCII digits). `"1.5.แพ็ค"` contributes 1.5 in the source and 0 in the model.
- Quantity.RowQty: sums integers for the same reason. The source sums floats.
- Stock.SafeInt: ASCII digits only. `int()` also takes Unicode digits and underscores, and truncates float cells; number cells are integers in the model.
- Barcode.IsIntegerToken: ASCII digits only, where `str.isdigit` also takes other Unicode digits.
- PriceList.ParsesAsNumber: ASCII digits only. The `\d` of `numeric_value_for_compare` and `float()` also accept every other Unicode decimal digit, such as the Thai digits ๐ to ๙, so a price written in Thai digits parses in the source and not in the model.
- Express.RepairRow: ASCII digits only. `str.isdigit` also accepts every other Unicode decimal digit, so a barcode token written in Thai digits is left alone or split by the source and poisoned by the model.
- Express.Extract: requires every non-blank row below the second rule to start with non-blank text. In the source, a number or empty first cell raises at `split()` (order_check.py:540) wherever the row is. A first cell that is empty text or only whitespace gives an empty token row instead. That row raises IndexError at the marker test (order_check.py:574) only when it comes before the grand-total row, and is harmless after it. The model excludes it in both places.
- Express.GetExpressData: returns a distinct outcome with fewer than two rules. The source returns `[]`, which its caller then fails to unpack.
- Express.GetExpressData: one "no grand total" outcome covers the source's one reachable error, the IndexError at line 590. The cursor loop stops either at the end of the rows, where line 590 raises first, or at the marker row, so the ValueError at line 595 is never raised.
- PriceList.LookupRight: requires every right-hand row to have at least one cell, as `row.iloc[0]` does.
- Stock.WriteMainData: returns the results and the leftover stock list. The source writes cells and deletes from the caller's list in place.
- Stock.BillRange: models an empty bill list as no range. The source raises IndexError there.
- No range compressor is modelled. The bill "range" in the code is only first and last joined by " – ".
