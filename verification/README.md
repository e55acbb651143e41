# Purchase-order import: the CSV-to-payload transformer

`populate_po.py` is a small web service that replaces the line items of a purchase order in a
Spire ERP with the contents of an uploaded CSV file. This project models the part of it that
turns the file into the order's payload, and proves what that part promises:

- **`clean_numeric`** (module `Numeric`). It keeps only the digits and points of a cell and
  reads what is left as a number. When the input is empty, nothing survives the filtering, or
  the rest is not a number (`"."`, `"1.2.3"`), it yields nothing. Numbers are exact decimals
  (`Decimal(digits, scale)` stands for `digits / 10^scale`), not binary floats. `Value` gives
  the real number a decimal stands for.
- **`process_po_number`** (module `PoNumber`). It keeps the number as typed, and zero-fills a
  copy to ten characters for the lookup.
- **`process_line_item`** (module `LineItems`). It trims the part number, quantity, price and
  description cells, cleans the quantity and the price, and fails the row when the quantity
  is not a number. With the inventory flag set, it asks the ERP whether the part exists. If
  the part does not exist, it asks the ERP to create it when there is a description, and
  prints a warning when there is none. It then builds the item. The ERP is a value `Erp`
  holding two functions, `item_exists` and `create_inventory_item`. Each receives everything
  sent before it, so an ERP whose inventory changes as parts are created is covered. What
  the transformer sends and prints is recorded, in order, in the `trace` of an `Outcome`.
- **`create_payload`** (module `Payload`). It maps each upper-cased header to its column, with
  the last column winning. It checks the required headers, then walks the data rows: rows
  whose every cell is empty are skipped, each other row adds one item in input order, and the
  first failure aborts the whole build. `BuildPayload` is the specification.
  `CreatePayload` is the loop-by-loop method (`MapHeaders`, `CheckRequired`, `AppendItems`),
  proved to compute exactly `BuildPayload`.

Python's `str.strip`, `str.upper` and `str.zfill` are modelled in module `Text`, and `Option`
and `Result` in module `Wrappers`.

Where the code and its intended behaviour part ways, the model follows the code, with one
exception: the creation call at populate_po.py:125 (see "## Findings").
- A creation that the ERP answers with a status other than 201 makes
  `create_inventory_item` print a message and return `None`. Nothing checks that value, so the
  row still yields its item (`CreateOutcome.Rejected`). Only a creation call that raises fails
  the row.
- With the flag set and the part unknown, a row with a description but no price (the cell
  missing, blank or not a number) cannot be created: `create_inventory_item` computes the sell
  price `None/0.55` at line 67, which raises before any request leaves, and line 127 turns that
  into an error. A zero price is a price here: the item is created at cost 0.
- No rule demands a non-empty part number: a row whose part-number cell is empty yields an
  item with an empty part number (`LineItems.EmptyPartNoExample`).
- When the part-number cell itself cannot be read, the error handler at line 119 refers to
  `part_no` before it is assigned. The row then fails without a part number to name
  (`Error.PartNoUnbound`) rather than with the intended message.
- A file without a header row makes `next` raise. It is modelled as the error `EmptyFile`.

## Model

| member | source | states |
|---|---|---|
| Text.TrimStartMeaning | populate_po.py:104-109 | `TrimStart`, the front half of `strip()`: trimming the front removes a prefix made only of whitespace and leaves a result that is empty or starts with a non-space character |
| Text.TrimEndMeaning | populate_po.py:104-109 | `TrimEnd`, the back half of `strip()`: trimming the back removes a suffix made only of whitespace and leaves a result that is empty or ends with a non-space character |
| Text.Strip | populate_po.py:104-109 | `strip()` never lengthens a cell, its result neither starts nor ends with whitespace, and it is empty exactly when the cell is all whitespace |
| Text.StripUnpads | populate_po.py:104-109 | stripping a core padded with whitespace on both sides gives back exactly the core, whatever the padding |
| Text.StripIdempotent | populate_po.py:104-109 | stripping a stripped cell changes nothing |
| Text.Upper | populate_po.py:154 | `upper()` keeps the length, leaves no lower-case letter, and changes each character at most in its case; these facts fix the result |
| Text.UpperEqualIff | populate_po.py:154 | two strings upper-case to the same string exactly when they differ only in the case of letters, in both directions |
| Text.UpperIdempotent | populate_po.py:154 | upper-casing twice is upper-casing once, so the upper-case required headers match their own upper-cased forms |
| Text.ZFill | populate_po.py:43 | `zfill(width)` gives a string of length `max(len, width)` and leaves strings already that long unchanged |
| Numeric.Filter | populate_po.py:95 | the filtered cell is no longer than the input and holds only digits and points |
| Numeric.FilterAppend | populate_po.py:95 | filtering works character by character: filtering a concatenation concatenates the filtered parts |
| Numeric.FilterKeepsCounts | populate_po.py:95 | filtering keeps every digit and every point of the input |
| Numeric.CleanDefinedIff | populate_po.py:91-99 | `CleanNumeric`, the model of `clean_numeric`, yields a number exactly when the input has at least one digit and at most one point; this covers all three absent cases, in both directions |
| Numeric.CleanOfFiltered | populate_po.py:95-97 | cleaning depends only on the filtered input: cleaning the filtered text gives the same answer |
| Numeric.CleanIgnoresNoise | populate_po.py:95 | inserting any character other than a digit or a point anywhere in a cell does not change the result |
| Numeric.CleanWellFormed | populate_po.py:95-97 | a string of digits and at most one point, with at least one digit, cleans to the number it spells |
| Numeric.Value | populate_po.py:97 | a cleaned number is never negative, and it is zero (false in Python) exactly when its digits are zero |
| Numeric.ParseWithPoint | populate_po.py:97 | "whole.frac" is accepted and reads as all its digits over ten to the number of fraction digits; either side may be empty ("7.", ".5"), but not both |
| Numeric.ParseMeaning | populate_po.py:97 | `Parse`, what `float()` reads: a numeral without a point is worth its digits; one with a point is worth the digits before it plus those after it over a power of ten |
| Numeric.ParseWithoutPoint | populate_po.py:97 | a numeral without a point is worth its digits |
| Numeric.ParseAtPoint | populate_po.py:97 | a numeral with one point is worth the digits before it plus those after it over ten to their count |
| Numeric.ShowRoundTrip | populate_po.py:95-97 | writing any exact decimal as a numeral with its point and cleaning it gives back the same decimal |
| Numeric.NumeralRoundTrip | populate_po.py:95-97 | cleaning the decimal numeral of `n` gives `n` |
| Numeric.CurrencyExample | populate_po.py:95 | "$1,250.00" cleans the same as "1250.00" |
| Numeric.BareExample | populate_po.py:97 | "1250.00" cleans to 125000 hundredths, which is 1250 |
| Numeric.MinusExample | populate_po.py:95-97 | "-5" cleans to 5: the minus sign is dropped like any other noise |
| Numeric.SignIgnored | populate_po.py:95 | a leading sign or currency symbol does not change the result |
| Numeric.PriceExample | populate_po.py:95-97 | "$1.50" cleans to 150 hundredths, which is 1.5 |
| Numeric.AbsentExamples | populate_po.py:92-99 | "", "N/A", "." and "1.2.3" all clean to nothing |
| PoNumber.ProcessPoNumber | populate_po.py:41-46 | the typed number is returned unchanged; the padded number is ten characters long, or the input itself when that is longer; and padding it again changes nothing |
| PoNumber.PadDigits | populate_po.py:43 | a number of digits is padded on the left with '0' only: the typed digits form the tail, and the value is unchanged |
| PoNumber.PadKeepsNumber | populate_po.py:42-43 | the padded number cleans to the same value as the typed number |
| PoNumber.SignedExample | populate_po.py:43 | "-42" pads to "-000000042", with the sign kept in front |
| LineItems.ReadableFields | populate_po.py:103-119 | `ReadFields`, the guarded block: when every cell is there, reading fails only on a quantity that cleans to nothing, and otherwise yields the trimmed cells and the cleaned numbers |
| LineItems.OptionalCellMeaning | populate_po.py:108-109 | `OptionalCell`: a price or description column reads like a required one, except that a column absent from the header map is no error and gives no cell; a row too short for a column the map has still fails |
| LineItems.BuildItemMeaning | populate_po.py:132-141 | `BuildItem`: the item always has `whse` "00", the part number and the quantity; `unitPrice` only when the cleaned price is non-zero, `description` only when the trimmed description is non-empty |
| LineItems.RowItemMeaning | populate_po.py:102-143 | `RowItem`, a row's item whatever the ERP does: `whse` "00", the trimmed part number, and the cleaned quantity; `unitPrice` only when the price cleans to a non-zero number; `description` only when the trimmed description is non-empty. A row fails exactly when a cell is missing or the quantity is not a number; it fails without a part number exactly when the part-number cell is the one missing, and a bad quantity names the trimmed part number |
| LineItems.InventoryStep | populate_po.py:121-129 | earlier effects are kept; without the flag nothing is sent or printed; the only error is a failed creation of this row's part |
| LineItems.InventoryStepEffects | populate_po.py:121-129 | the exact effects appended, case by case: nothing without the flag; otherwise the existence query, then for an unknown part either the warning, or the creation request carrying the part number, the description and the cleaned price; without a price no request leaves, because the cost computation at line 67 raises first |
| LineItems.InventoryStepMeaning | populate_po.py:121-129 | creation is requested exactly when the flag is set, the part does not exist, and there are a description and a price; a warning is printed exactly when there is no description instead; the step fails exactly when it would create the part but has no price, or the creation call raises |
| LineItems.InventoryStepAsWritten | populate_po.py:122-127 | as written, no creation request ever leaves, and the step fails exactly when creation would have been attempted |
| LineItems.ProcessLineItem | populate_po.py:102-143 | processing a row only appends to what was already sent and printed |
| LineItems.ProcessLineItemMeaning | populate_po.py:102-143 | a successful row yields exactly its item whatever the ERP answered; a row that cannot be read fails before the ERP is contacted; without the flag nothing is sent; a readable row fails only when creating its part fails |
| LineItems.MissingDescriptionOnlyWarns | populate_po.py:122-129 | with the flag set and the part unknown, a row without a description still yields its item; a warning is printed and no creation is requested |
| LineItems.BlankQuantityFails | populate_po.py:105-119 | a whitespace-only quantity cell fails the row, naming the row's part number |
| LineItems.FullRowItem | populate_po.py:131-143 | a row with every cell meaningful yields an item carrying all five fields |
| LineItems.EmptyPartNoExample | populate_po.py:104-143 | a row with an empty part-number cell still yields an item |
| LineItems.ExtraArgumentExample | populate_po.py:125 | on one row, the step as written fails, while the intended step succeeds after sending the creation request |
| Payload.HeaderMapKeys | populate_po.py:154 | `HeaderMap`, the header-map comprehension: its keys are exactly the upper-cased headers, each mapped to a column holding that header |
| Payload.HeaderMapLastWins | populate_po.py:154 | a header that occurs more than once maps to its last column |
| Payload.HeaderMapIgnoresCase | populate_po.py:154 | header rows equal up to case give the same header map |
| Payload.CellUnderHeader | populate_po.py:104-109 | reading a column by name reads the cell under the last header that upper-cases to that name, and a row too short for that column fails naming the column |
| Payload.CellWithoutHeader | populate_po.py:104-109 | reading a name that no header upper-cases to fails naming the missing key |
| Payload.FirstMissing | populate_po.py:156-158 | the required headers are checked in order; the result is the first one absent from the map, all before it being present |
| Payload.Kept | populate_po.py:160-161 | no kept row is blank, and there are no more kept rows than rows |
| Payload.KeptIsNonBlankRows | populate_po.py:160-161 | a row is skipped exactly when every cell is the empty string; if no row is blank, all rows are kept |
| Payload.KeptAppend | populate_po.py:160-161 | skipping works row by row and keeps order and duplicates: the kept rows of `a + b` are those of `a` followed by those of `b` |
| Payload.KeptOne | populate_po.py:161 | `IsBlankRow`, `not any(line)`: a single row is dropped exactly when it is blank, and otherwise kept as it is |
| Payload.ProcessRows | populate_po.py:160-163 | the row loop only appends to what was sent and printed, and fails only with a row's reading or creation error |
| Payload.ItemsFollowKeptRows | populate_po.py:160-163 | a successful loop yields exactly one item per kept row, each that row's own item, in input order |
| Payload.FailingRowAborts | populate_po.py:112-119 | one kept row that cannot be read makes the whole build fail, with no partial list of items |
| Payload.WithoutInventoryNoEffects | populate_po.py:160-163 | without the flag, nothing is sent or printed, and the result is the first failing kept row's error or else all kept rows' items |
| Payload.BuildPayload | populate_po.py:146-164 | a missing required header fails the build, naming a required header absent from the map, before any row is read and before the ERP is contacted; a file without a header row fails |
| Payload.CreatePayload | populate_po.py:146-164 | the method computes exactly `BuildPayload` |
| Payload.MapHeaders | populate_po.py:153-154 | the column-by-column loop builds exactly the header map |
| Payload.CheckRequired | populate_po.py:156-158 | the check loop reports no header exactly when every required header is present, and otherwise the first missing one |
| Payload.AppendItems | populate_po.py:160-163 | the appending loop computes exactly the row loop's outcome, stopping at the first failing row |
| Payload.PaddedHeaderExample | populate_po.py:153-158 | a header " PART NO" with a leading space does not satisfy the required "PART NO": matching ignores case but not whitespace |
| Payload.LowerCaseHeaderExample | populate_po.py:153-164 | lower-case headers are found, and a file without data rows gives an empty item list |
| Payload.BlankRowExamples | populate_po.py:161 | a row of empty cells is skipped; a row whose cell holds one space is kept, and fails on its quantity |
| Payload.SingleRowPayload | populate_po.py:146-164 | a header row with every required header and one readable row give exactly that row's item |
| Payload.OneRowExample | populate_po.py:146-164 | a whole file with a price in currency notation gives one item with all five fields, and nothing is sent to the ERP |

## Left out

- HTTP and the ERP itself are not modelled: `find_po`, the bodies of `item_exists` and `create_inventory_item`, and the purchase-order update. The ERP is reached only through the two abstract functions of `Erp`. That includes `item_exists` upper-casing the part number before its query, and any exception it raises.
- `upload_file`, the HTML form and the routing are left out as web plumbing. So is `upload_file` calling `create_payload` with three arguments for four parameters at populate_po.py:203: `create_payload` is modelled as called with all its arguments.
- `vendor_no` is left out: `create_payload` only passes it on to `process_line_item`, which uses it only as the surplus argument at line 125.
- Environment settings and authentication are left out as configuration.
- `format_json_filter` and the URL that `process_po_number` builds are left out as library code: `PoQuery` holds the padded number that the filter would carry.
- UTF-8-sig decoding and `csv.reader` quoting and splitting are left out as library code: the file arrives as rows of cells.
- The sell price `round(cost/0.55, 2)` and binary floating-point rounding are left out: cleaned numbers are exact decimals.
- `\d` and `float()` are modelled on the ASCII digits only, and `upper()` on the ASCII letters only. `strip()` removes the characters Python's `isspace` accepts.
- `required_headers` is a Python set, checked in hash order. The model checks a sequence in a fixed order, so when several headers are missing it names the first in that order.
- Text.ZFill: models `zfill`'s sign rule as well, so `process_po_number` is described for any input, not only for digits.

## Findings

| source | as written | input that shows it | evidently intended | confidence | as-written member | corrected member |
|---|---|---|---|---|---|---|
| populate_po.py:125 | `create_inventory_item(part_no, description, unit_price, vendor_no)` passes four arguments to a function of three parameters. It raises a TypeError before any request is sent, and line 127 turns that into an error, so every creation attempt fails the build | flag set, part unknown to the ERP, row "ABC123", "5", "Bolt", "$1.50" | creation is requested with the part number, description and cleaned price, and the row fails only if that call raises; even then a row without a price fails, because the sell price `None/0.55` at line 67 raises (`InventoryStepMeaning`) | high (not executed) | LineItems.InventoryStepAsWritten | LineItems.InventoryStep |
