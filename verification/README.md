# OpenStock inventory core in Dafny

This project models the core of OpenStock, a command-line inventory tool for
resellers, and proves properties of that model. The core is the
validation-driven CSV pipeline and the small pure helpers around it:

- **Validation engine** (`Validation`). It holds the per-field rules for
  title, price, quantity, UPC, size, condition, category and brand. It also
  holds the four marketplace bundles (eBay, StockX, Poshmark, Mercari), which
  concatenate the field results in a fixed order.
- **Item store** (`Store`). The `items` table is a `map<int, Record>`. The
  table's CHECK and NOT NULL constraints are the store invariant and the
  insert precondition. The store offers `insert_item`, `get_item_by_id` and
  the partial `update_item`, including its SET list and parameter list.
- **Import** (`Import`). It covers:
  - the required-header check;
  - field extraction, where a missing column reads as `""` and an unparseable
    number becomes `-1`;
  - tagging errors with `row_idx + 1` and the raw value;
  - the scripted correction session;
  - the batch fold with `imported`/`skipped` counters and a failure ledger.
- **Update** (`Update`). It covers:
  - the `--file`/`--retry` argument check;
  - `UpdateRow::from_record` with "was supplied" tracking;
  - the id-exists check and merging supplied values over the stored row;
  - filtering errors to supplied fields;
  - the correction pass and the partial update;
  - the retry loader that replays a failure ledger.
- **Standalone validator** (`CsvValidate`). It does the positional schema
  check and its own per-row rules. Rows are numbered `i + 2`.
- **Output** (`Format`). It covers CSV escaping, the CSV and table listings
  with their truncation rules, and case-insensitive format dispatch.
- **Filter** (`Filter`). It covers:
  - price-range parsing;
  - field-shortcut expansion and checking;
  - building the WHERE clause and its parameters;
  - the two cell formatters;
  - the cached `handle_filter` command.
- **Cache and monitor** (`Cache`). It covers:
  - cache-key generation, which sorts parameters by key;
  - the TTL query cache as a state machine with an explicit clock;
  - the performance monitor's counters and statistics.

Supporting modules:

- `Wrappers`: `Option` and `Result`.
- `Text`: ASCII trim, case mapping, split, join and padding.
- `Numbers`: decimal text to and from integers and reals, and `{:.2}`.
- `Seqs`: selection of a sequence by a boolean mask.

Terminal interaction is a `nonInteractive` flag plus a scripted sequence of
answer lines, read from a position that the pipelines thread through. Strings
are ASCII, so a byte length is a character count.

## Model

| member | source | states |
|---|---|---|
| Validation.ValidateTitle | src/validation.rs:42-96 | At most two errors, both on the title with the title as value. The platform's length error is reported iff the title is longer than 80. The empty error is last and is reported iff the trimmed title is empty. Valid iff 0 < trimmed, length <= 80 |
| Validation.TitleBoundary | src/validation.rs:42-54 | A title of 80 characters passes; one of 81 fails with exactly the length error |
| Validation.TitleOfSpaces | src/validation.rs:42-54 | 81 spaces give both errors, length first then empty |
| Validation.ValidatePrice | src/validation.rs:98-110 | A negative price gives exactly the non-negative error and a price above 999999.99 exactly the maximum error, each carrying the price text. Otherwise there is no error |
| Validation.ValidateQuantity | src/validation.rs:112-124 | A negative quantity gives exactly the negative error and a quantity above 999999 exactly the too-large error. Otherwise there is no error |
| Validation.ValidateUpcStockX | src/validation.rs:126-141 | A blank UPC gives exactly the required error, with no digit check. Otherwise there is one error iff the number of ASCII digits is neither 12 nor 13 |
| Validation.HyphenInUpcIgnored | src/validation.rs:126-141 | Inserting a hyphen into a non-blank UPC does not change whether it passes, because only digits are counted |
| Validation.ValidateUpcEbay | src/validation.rs:143-155 | At most the digits error. Valid iff the UPC is blank or has 12 or 13 digits |
| Validation.UpcRulesAgreeWhenPresent | src/validation.rs:126-155 | On a non-blank UPC the eBay and StockX rules give the same result |
| Validation.ValidateSizePoshmark | src/validation.rs:157-165 | At most the Poshmark size error, reported iff the trimmed size is empty |
| Validation.ValidateSizeStockX | src/validation.rs:167-175 | At most the StockX size error, reported iff the trimmed size is empty |
| Validation.ValidateCondition | src/validation.rs:177-193 | At most one error. Valid iff the lower-cased condition is one of new, used, deadstock, like new, good, fair |
| Validation.ValidateCategory | src/validation.rs:195-203 | At most one error, reported iff the trimmed category is empty |
| Validation.ValidateBrand | src/validation.rs:205-213 | At most one error, reported iff the brand is non-blank and longer than 100 |
| Validation.ValidateBrandIfGiven | src/validation.rs:234-236 | An absent brand adds no error; a present one follows the brand rule |
| Validation.ValidateUpcEbayIfGiven | src/validation.rs:238-240 | An absent UPC adds no error; a present one follows the eBay UPC rule |
| Validation.ValidateCommon | src/validation.rs:227-232 | The shared prefix of every bundle is valid iff title, price, quantity, category and condition all pass. Its errors come grouped in that field order and carry no row |
| Validation.ValidateItemEbay | src/validation.rs:216-243 | Valid (`is_valid`, empty list) iff every field rule passes, with brand and UPC checked only when given |
| Validation.ValidateItemStockX | src/validation.rs:245-271 | Valid iff the common fields, the UPC, the size and a given brand all pass |
| Validation.ValidateItemPoshmark | src/validation.rs:273-297 | Valid iff the common fields, the size and a given brand all pass |
| Validation.ValidateItemMercari | src/validation.rs:299-321 | Valid iff the common fields and a given brand pass |
| Validation.ValidateItemEbayOrdered | src/validation.rs:216-243 | eBay errors are grouped by field in the eBay check order, carry no row, and concern only fields eBay checks |
| Validation.ValidateItemStockXOrdered | src/validation.rs:245-271 | The same ordering and field facts for StockX |
| Validation.ValidateItemPoshmarkOrdered | src/validation.rs:273-297 | The same ordering and field facts for Poshmark |
| Validation.ValidateItemMercariOrdered | src/validation.rs:299-321 | The same ordering and field facts for Mercari |
| Validation.MercariChecksNoUpcOrSize | src/validation.rs:299-321 | A Mercari result never mentions UPC or size |
| Validation.StockXMissingUpcAndSize | src/validation.rs:245-271 | For an otherwise valid item, an empty UPC and an empty size give exactly the UPC-required and the size-required errors |
| Validation.PoshmarkRequiresSize | src/validation.rs:273-297 | An empty size always gives a size error on Poshmark |
| Validation.Step | src/validation.rs:22-29 | Appending one field's errors (`add_error` in order) after earlier fields keeps the result grouped in check order |
| Store.CheckViolation | src/db/schema.rs:24-47 | No violation iff the record meets every CHECK constraint. Otherwise it names one of the title, price, quantity or status constraints |
| Store.InsertItem | src/db/queries.rs:32-63 | Succeeds iff the new record meets the constraints, and otherwise fails with the violated constraint. On success it adds exactly one row under the next id, keeps every other row, and keeps the invariant |
| Store.GetItemById | src/db/queries.rs:95-114 | None iff the id is absent. Otherwise it returns the stored title, category and condition, and the stored brand and UPC with NULL read as "" (`unwrap_or_default`), so either reads as "" iff it is NULL or empty |
| Store.ViewReadBack | src/db/queries.rs:95-114 | The id text parses back to the id (when it fits in i64), the `{:.2}` price text parses to the price rounded to cents, and the quantity text parses back when it fits in i32 |
| Store.SetListNamesSuppliedColumns | src/db/queries.rs:132-161 | A column is in the SET list iff its value was supplied. `last_updated` is always there, so the list is never empty |
| Store.SetOrderDistinct | src/db/queries.rs:132-161 | The SET columns title, price, quantity, category, condition, brand, upc, last_updated are distinct |
| Store.ParamsMatchColumns | src/db/queries.rs:132-161 | There is one parameter per SET column, in the same order, followed by the id |
| Store.UpdateParams | src/db/queries.rs:132-161 | The parameter list ends with the timestamp and then the id |
| Store.UpdateItem | src/db/queries.rs:117-174 | An absent id fails with the zero-rows error. Otherwise it succeeds iff the patched row meets the constraints. It changes only that row, only in the supplied columns and `last_updated`, and keeps the invariant |
| Store.EmptyPatchTouchesOnlyTimestamp | src/db/queries.rs:160-165 | An update with nothing supplied still succeeds and sets only `last_updated`; the early return is unreachable |
| Import.FirstMissing | src/commands/import.rs:33-43 | Finds the first required field absent from the header, or None iff all are present |
| Import.ValidateHeaders | src/commands/import.rs:33-43 | Ok iff all nine required fields occur in the header. Otherwise the error names the first missing one |
| Import.HeaderCheckIgnoresOrder | src/commands/import.rs:16-19 | Two headers with the same names, in any order and with any extra columns, get the same verdict |
| Import.Check | src/commands/import.rs:94-102 | The eBay validation of a draft is empty iff the draft meets every eBay field rule |
| Import.UnparseablePriceIsNegative | src/commands/import.rs:72-91 | An unparseable price becomes -1 and is reported as the non-negative error with value "-1", while the row keeps the raw text |
| Import.Tag | src/commands/import.rs:104-117 | Each error keeps its field and message, gets row `row_idx + 1`, and gets the raw value of its field |
| Import.NextAnswer | src/commands/import.rs:46-61 | A blank answer line reads as no correction; any other line gives the trimmed text |
| Import.ReadStopsAtFirstBlank | src/commands/import.rs:133-158 | Corrections are read in error order and reading stops at the first blank answer. Without one, all answers are read |
| Import.Correct | src/commands/import.rs:133-158 | The correction session completes iff no answer in its window is blank |
| Import.Apply | src/commands/import.rs:133-158 | An unparseable price or quantity answer keeps the previous value |
| Import.ItemOf | src/commands/import.rs:177-209 | An empty brand or UPC is stored as NULL |
| Import.DraftOkInsertable | src/commands/import.rs:177-209 | A draft that passes validation meets the table constraints, so its insert cannot fail |
| Import.ProcessRowNonInteractive | src/commands/import.rs:120-124 | Without a terminal no answer is read, and a row is imported iff its first check passes. Then it is inserted as drafted |
| Import.ProcessRowInteractive | src/commands/import.rs:133-174 | A valid row is imported without a question. A failing row is imported iff every prompt got an answer and the corrected draft passes the one re-check |
| Import.ShownErrorsAreTagged | src/commands/import.rs:104-117 | The errors shown for a row are its first check's errors, numbered `row_idx + 1` and carrying the raw text of their field |
| Import.ProcessRow | src/commands/import.rs:64-210 | A row that is not imported leaves the store unchanged. An imported row adds exactly one row and keeps the invariant |
| Import.ImportRow | src/commands/import.rs:237-279 | The ledger grows by exactly the row's entries: a CSV parse error or the re-checked errors of a skipped row |
| Import.RowEntries | src/commands/import.rs:238-273 | Every ledger entry of record `row_idx` carries row `row_idx + 1` |
| Import.ImportRowCounts | src/commands/import.rs:237-279 | Each record increments exactly one of imported and skipped, and adds a row iff imported |
| Import.ImportCounts | src/commands/import.rs:237-279 | After the batch, imported + skipped is the number of records, and the store grew by exactly the number imported |
| Import.LedgerRows | src/commands/import.rs:256-273 | Every ledger entry names a record of the file, numbered from 1 |
| Import.NonInteractiveImportsValidRows | src/commands/import.rs:120-124 | Without a terminal, the script is never read and exactly the records whose first check passes are imported |
| Import.LedgerCheckIsFirstCheck | src/commands/import.rs:256-273 | The ledger's re-check of a skipped row gives the same errors as the row's first check |
| Import.HandleImport | src/commands/import.rs:212-295 | It fails iff the header check fails, with that check's error. A ledger is saved iff it is non-empty, and the saved ledger is the collected one |
| Update.Execute | src/commands/update.rs:22-35 | Both sources, or neither, is an error with its own message. Exactly one source selects that loader |
| Update.ReadCell | src/commands/update.rs:389-403 | A blank cell, or one under a header the reader does not know, leaves the row unchanged. Only the id column sets the id. An id, price or quantity cell fails exactly when its trimmed text does not parse, with "Invalid ID/price/quantity in row N" |
| Update.FromRecord | src/commands/update.rs:379-422 | A row with more cells than headers is an error. A row that reads is accepted iff its id is non-zero |
| Update.FromRecordErrors | src/commands/update.rs:387-407 | The first id, price or quantity cell that does not parse makes the row fail with that cell's "Invalid … in row N" error. With no such cell, the only error is "Missing ID in row N" |
| Update.ReadsFailAt | src/commands/update.rs:387-403 | A left-to-right cell reader that refuses exactly the cells a test flags fails iff some cell is flagged, with the error of the first flagged cell |
| Update.FromRecordRoundTrip | src/commands/update.rs:379-422 | Writing an update row as CSV cells and reading it back gives the row again, with the price rounded to cents |
| Update.CellReadsBack | src/commands/update.rs:386-420 | Each column's written cell reads back to that column's value |
| Update.ProvidedErrors | src/commands/update.rs:151-159 | Keeps only errors on supplied fields (`is_field_provided`), in order |
| Update.ProvidedErrorsSame | src/commands/update.rs:424-436 | Rows that supply the same fields keep the same errors |
| Update.ExistingIsStoredRow | src/commands/update.rs:65-81 | The fallback values are the stored row's, with an empty stored brand or UPC counted as absent |
| Update.Overlay | src/commands/update.rs:65-81 | The value checked for each field is the supplied one when given |
| Update.CheckedPatchFits | src/commands/update.rs:186-197 | If the merged values pass validation, the partial update meets the table constraints |
| Update.Amend | src/commands/update.rs:119-142 | A correction keeps the id and the set of supplied fields, and an unparseable price or quantity answer changes nothing |
| Update.FormatError | src/commands/update.rs:119-142 | A format error is reported iff a price or quantity answer does not parse. It carries the field, the row and the answer |
| Update.Prompt | src/commands/update.rs:101-150 | One answer is read per error on a supplied field. The id and the supplied fields are kept |
| Update.PromptAllBlank | src/commands/update.rs:114-115 | When every answer is blank, each error is recorded and the row stays as it was. The session goes on rather than abandoning the row |
| Update.Write | src/commands/update.rs:186-197 | The loop stops iff the partial update fails. Otherwise the store is the updated one |
| Update.RowNotFound | src/commands/update.rs:54-63 | An unknown id logs exactly one "Item not found" entry with the row and the id, and changes nothing |
| Update.RowNonInteractive | src/commands/update.rs:151-159 | Without a terminal, a row is written iff the merged values pass. Otherwise exactly the errors on supplied fields are logged |
| Update.RowInteractive | src/commands/update.rs:161-197 | With a terminal, a failing row is written iff its corrected values pass the one re-check, and then exactly the supplied columns are set |
| Update.UpdateCsvRow | src/commands/update.rs:54-197 | A row never adds or removes items, keeps the invariant and reads no answer without a terminal |
| Update.ReadRecord | src/commands/update.rs:50-51 | A malformed record reads as the reader's error. A parsed record reads as `from_record` makes it |
| Update.UpdateRecord | src/commands/update.rs:47-52 | Every record is counted. A readable record on a valid store never stops the loop. A malformed record, or one `from_record` refuses, stops the loop with that error and leaves the table unchanged |
| Update.UpdateFromReadsAll | src/commands/update.rs:47-52 | When every record reads, the loop runs to the end with data rows numbered from 2 |
| Update.UpdateFromStops | src/commands/update.rs:47-52 | On a valid table the loop stops at the first record that cannot be read, with that record's error, after counting exactly the records up to and including it |
| Update.MalformedRecordAborts | src/commands/update.rs:47-52 | If record k is the first that cannot be read, `update_from_csv` returns its error, has read k + 1 records and saves no ledger |
| Update.NonInteractiveReadsNoAnswers | src/commands/update.rs:151-159 | Without a terminal the CSV loop reads no answer |
| Update.UpdateFromCsv | src/commands/update.rs:37-215 | A missing file is reported with nothing done, and an error means nothing is saved. The item ids are unchanged and the invariant is kept |
| Update.RetryRow | src/commands/update.rs:222-233 | A retried entry's row gets the id parsed from the entry value, or 0, with nothing supplied |
| Update.RetryAnswer | src/commands/update.rs:239-298 | An entry whose field is not a known column is ignored. A fixed answer supplies one field only, so title or category is missing |
| Update.RetryOne | src/commands/update.rs:217-346 | Without a terminal, or with a blank answer, the entry is logged unchanged. With the defaults fallback the store never changes |
| Update.RetryNonInteractiveKeepsLedger | src/commands/update.rs:299-303 | Without a terminal the retry loader re-emits every input entry unchanged and in order, and changes nothing |
| Update.RetryWithDefaultsKeepsStore | src/commands/update.rs:316-334 | As written, the retry loader never changes the store |
| Update.RetryWithStoredWritesPassingAnswer | src/commands/update.rs:336-346 | With the stored row as fallback, a fixed answer whose merged values pass is written as a partial update |
| Update.UpdateFromRetry | src/commands/update.rs:217-364 | The item ids are unchanged and the invariant is kept. An error means nothing is saved, and with the defaults fallback the store is unchanged |
| CsvValidate.CheckSchema | src/commands/validate.rs:77-81 | Fails iff some header position among the nine differs from the schema, naming the first such position |
| CsvValidate.SchemaIsPrefix | src/commands/validate.rs:9-11 | A header that starts with the nine schema fields is accepted, whatever trails them |
| CsvValidate.EmptyHeaderRejected | src/commands/validate.rs:77-81 | An empty header is rejected at the first position |
| CsvValidate.CheckTitle | src/commands/validate.rs:25-31 | At most one error: required when empty, otherwise the limit error when longer than 80 |
| CsvValidate.CheckPrice | src/commands/validate.rs:32-42 | At most one error. No error iff the price parses and is non-negative, with no upper bound. The message is required, invalid or negative |
| CsvValidate.NonNumericPriceIsInvalid | src/commands/validate.rs:32-42 | Digit-free text is the "Invalid price value" error, not coerced to a number |
| CsvValidate.CheckQuantity | src/commands/validate.rs:43-53 | At most one error. No error iff the quantity parses as i32 and is non-negative |
| CsvValidate.CheckPresent | src/commands/validate.rs:54-63 | Category and condition are only checked for emptiness |
| CsvValidate.CheckUpc | src/commands/validate.rs:64-68 | A UPC error iff the category is exactly "stockx" and the UPC is empty; there is no digit check |
| CsvValidate.ValidateRow | src/commands/validate.rs:22-70 | No error iff the record passes every rule. At most six errors, in field order, all on the given row |
| CsvValidate.CollectedInRowOrder | src/commands/validate.rs:83-87 | Errors are numbered from row 2 up to the last record, in file order |
| CsvValidate.NoErrorsIffAllPass | src/commands/validate.rs:83-87 | The collected list is empty iff every record passes |
| CsvValidate.HandleValidate | src/commands/validate.rs:72-100 | A schema error is returned alone. The result is Ok iff the schema and every record pass. The ledger is saved iff rows had errors, and then the result is the validation failure. The saved list is every error the records gave, in file order |
| CsvValidate.CollectedRowErrors | src/commands/validate.rs:83-87 | The collected errors that name record j's row are exactly `validate_row`'s errors for that record, in field order. Every one of them is in the list |
| CsvValidate.SavedErrorsPerRecord | src/commands/validate.rs:83-93 | In the saved file, each record's errors are exactly what `validate_row` reports on it, in field order |
| Format.EscapeCsvField | src/output/format.rs:105-111 | A field without comma, quote or newline is unchanged. Otherwise it is wrapped in quotes |
| Format.EscapeRoundTrip | src/output/format.rs:105-111 | Reading an escaped field back, by unwrapping and undoubling quotes, gives the original field |
| Format.EscapeAddsNoNewline | src/output/format.rs:105-111 | Escaping adds no line break of its own |
| Format.FormatCsv | src/output/format.rs:45-66 | The listing starts with the fixed header, and an empty list gives the header only |
| Format.CsvAppend | src/output/format.rs:45-66 | Listing one more item appends exactly that item's line, so lines follow item order |
| Format.CsvCellsReadBack | src/output/format.rs:50-63 | The text cells read back to the item's fields, an absent brand gives an empty last cell, and the price cell parses to the price in cents |
| Format.CsvLinesCount | src/output/format.rs:50-63 | With newline-free fields, the item lines hold exactly one line break per item |
| Format.ShortenKeeps | src/output/format.rs:77-88 | Text within the limit is unchanged. Longer text becomes its first `keep` characters plus "...", and the result never exceeds the limit |
| Format.ShortenIdempotent | src/output/format.rs:77-88 | Shortening twice is shortening once |
| Format.TitleColumn | src/output/format.rs:77-99 | The title column is exactly 50 wide and starts with the title, or its first 47 characters when cut |
| Format.FormatTable | src/output/format.rs:68-103 | The table always starts with the header and separator lines, and an empty list gives exactly those |
| Format.FormatItems | src/output/format.rs:113-120 | Accepts exactly json, csv and table in any case, and otherwise fails with the unsupported-format message |
| Format.FormatNameIgnoresCase | src/output/format.rs:113-120 | Format names that agree after lower-casing give the same output |
| Cache.Insert | src/config/optimization.rs:194-204 | Inserting into an ascending list keeps it ascending, with the same elements plus the new one |
| Cache.SortByKey | src/config/optimization.rs:194-204 | The sorted parameters are a permutation of the input in strictly ascending key order |
| Cache.CacheKey | src/config/optimization.rs:194-204 | The key starts with the operation, and equals it when there are no parameters |
| Cache.KeyIgnoresOrder | src/config/optimization.rs:247-257 | Two listings of the same parameters give the same key, so map iteration order does not matter |
| Cache.AscendingUnique | src/config/optimization.rs:194-204 | Two ascending lists with the same elements are equal |
| Cache.KeyHoldsEveryParam | src/config/optimization.rs:199-202 | The key contains "_key=value" for every parameter |
| Cache.BelowTransitive | src/config/optimization.rs:196-197 | The key order used by the sort is transitive |
| Cache.BelowTotal | src/config/optimization.rs:196-197 | Two different keys are always ordered one way or the other |
| Cache.RecordQuery | src/config/optimization.rs:35-41 | Appends the duration to that query's list and leaves the other queries and both counters unchanged |
| Cache.GetStats | src/config/optimization.rs:55-77 | Reports the hit and miss counters |
| Cache.QueryStats | src/config/optimization.rs:55-66 | A query has count and average entries iff it was timed. The count is the number of timings and the average is their mean |
| Cache.CountIsRecordings | src/config/optimization.rs:211-222 | After a series of timings, a query's count equals the number of times it was recorded |
| Cache.Get | src/config/optimization.rs:108-125 | A hit iff the key is present and live (now < timestamp + ttl), returning its data. An expired entry is removed and other keys are untouched. Exactly one of hits and misses grows |
| Cache.GetCountsOnce | src/config/optimization.rs:112-123 | Every lookup adds exactly one to hits + misses |
| Cache.GetAfterSet | src/config/optimization.rs:224-238 | Within the TTL, a lookup after a store returns the stored data |
| Cache.ExpiredIsRemoved | src/config/optimization.rs:114-120 | A lookup of an expired entry misses and drops the entry |
| Cache.Set | src/config/optimization.rs:127-137 | Stores the data with the current time and TTL, and leaves other keys and the monitor unchanged |
| Cache.SetOverwrites | src/config/optimization.rs:127-137 | Storing a key twice keeps only the second value |
| Cache.Clear | src/config/optimization.rs:139-143 | Clearing leaves no entries |
| Cache.ClearedMisses | src/config/optimization.rs:139-143 | After a clear every lookup misses |
| Filter.ParsePriceRange | src/commands/filter.rs:33-58 | Without a dash, it succeeds iff the text is a number, which becomes both bounds; otherwise it gives the invalid-price error. More than one dash is the format error |
| Filter.RangeSides | src/commands/filter.rs:34-52 | With one dash, an empty side is no bound, and a non-numeric side fails with the error for that side. There is no min <= max check |
| Filter.RangeRoundTrip | src/commands/filter.rs:33-58 | Printing a range of non-negative bounds as "min-max" and parsing it gives the range back, in cents |
| Filter.ExpandMatchesTable | src/commands/filter.rs:61-73 | Each of the nine shortcuts maps to its column, and any other name passes through |
| Filter.ExpandIdempotent | src/commands/filter.rs:75-99 | Expanding an expanded name changes nothing |
| Filter.ExpandFieldShortcuts | src/commands/filter.rs:75-99 | An accepted list is non-empty, and the only error is "No valid fields specified". Trimming and skipping are stated by `PaddedNameExpands` and `BlankEntrySkipped` |
| Filter.PaddedNameExpands | src/commands/filter.rs:77-91 | White space around a name is trimmed before the shortcut lookup, so a padded name expands like the bare name |
| Filter.BlankEntrySkipped | src/commands/filter.rs:80-83 | A blank entry anywhere in the list adds nothing |
| Text.TrimPadded | src/commands/filter.rs:77 | `trim` gives back a word from between blank padding on both sides |
| Filter.NoFieldsIffBlank | src/commands/filter.rs:75-99 | The expansion fails iff every comma-separated part is blank |
| Filter.ExpandJoined | src/commands/filter.rs:75-99 | Expanding a comma-joined list of plain column names gives the list back |
| Filter.ValidateFields | src/commands/filter.rs:101-114 | Ok iff every name is one of the nine columns. Otherwise the error names the first unknown one |
| Filter.ExpandIntoValid | src/commands/filter.rs:61-114 | Every shortcut expands to a valid column |
| Filter.DefaultFieldsValid | src/commands/filter.rs:338-340 | The default field list expands to itself and passes the field check |
| Filter.BuildFilterQuery | src/commands/filter.rs:116-169 | There is exactly one parameter per condition, and the query starts with SELECT |
| Filter.ParamsLineUp | src/commands/filter.rs:123-154 | The i-th parameter belongs to the i-th condition, in the order min price, max price, category, condition, brand |
| Filter.ConditionIffFilter | src/commands/filter.rs:123-154 | A condition appears iff its filter was given |
| Filter.NoConditionsIffNoFilters | src/commands/filter.rs:123-154 | There are no conditions iff no filter was given |
| Filter.WhereOnlyWithConditions | src/commands/filter.rs:156-166 | The WHERE clause is empty iff there are no conditions. Otherwise it is "WHERE " plus the conditions joined by " AND " |
| Filter.TableCellRule | src/commands/filter.rs:253-258 | A table cell is its text when at most 30 long, and otherwise its first 27 characters plus "..." |
| Filter.CsvCellReadsBack | src/commands/filter.rs:300-305 | A CSV cell reads back to its text |
| Filter.PlainCsvRowSplits | src/commands/filter.rs:293-310 | A row of cells without special characters splits on commas into those cells |
| Filter.FilteredTable | src/commands/filter.rs:218-268 | No items gives the fixed "No items found" message |
| Filter.FilteredCsv | src/commands/filter.rs:270-315 | No items gives the fixed "No items found" message |
| Filter.KeyParams | src/commands/filter.rs:343-352 | The cache-key parameters have distinct names |
| Filter.HandleFilter | src/commands/filter.rs:317-414 | Bad price or field arguments are returned as errors. Otherwise no query runs iff the cache is on and holds a live entry, and a hit prints the stored text. A fresh run prints the rendering its format selects over the expanded fields and stores it with a 300-second TTL. One lookup is counted |
| Filter.Render | src/commands/filter.rs:385-396 | JSON prints the serialised rows, Table the table formatter's output and CSV the CSV formatter's, over the expanded fields |
| Filter.RepeatIsServedFromCache | src/commands/filter.rs:354-410 | Repeating a fresh filter within 300 seconds prints the same text without a query and counts one hit |
| Filter.RunCounts | src/commands/filter.rs:361-383 | A run with the monitor on records one timing for the filter query |

## Left out

- Terminal I/O (`read_line`, `print!`, `is_terminal`, `INVENTORY_NONINTERACTIVE`) is left out. It is replaced by the `nonInteractive` flag and a scripted answer sequence; an exhausted script reads as a blank line.
- File-system work is left out: the home directory, timestamped failure-file names, directory creation, file existence and the performance report. A file is given as its parsed header and records, and the saved ledger is returned as a value.
- The `csv` crate's tokenising and serde_json are left out. A record is `Parsed(cells)` or `Malformed(message)`. JSON output is a parameter (`Format.Rendered.AsJson`, the `json` argument of `Filter.HandleFilter`).
- Floating point is modelled with exact reals:
  - numbers are parsed from plain decimal text only, with no `inf`, `nan` or exponent forms;
  - `{:.2}` uses round-half-to-even on the exact value;
  - `f64::MAX` is the decimal value the program prints for it (17976931348623157 followed by 292 zeros), not the binary value;
  - statistics averages are exact means.
- SQL execution is left out. This covers rusqlite, `execute_filter_query` (the rows are a parameter of `Filter.HandleFilter`), `get_all_items`, `count_items`, `create_database_indexes`, `optimize_database` and the PRAGMAs. The store is a map and the constraint check is a function.
- Concurrency and time are left out: `Mutex` and `Arc` are dropped, and `Instant` timing is a `millis` argument. `measure_query_performance` is not modelled: its timing is the `millis` argument and its result is the rows parameter. `Utc::now` and the cache clock are explicit arguments, with the TTL in whole seconds.
- The monitor's `u64` counters are unbounded naturals; wrap-around is not modelled.
- Unicode semantics are left out: `to_lowercase`, `trim` and char-boundary slicing are modelled over ASCII, where a byte length is a character count.
- `write_performance_report` is left out because it writes a file.
- Filter.FilteredTable: states only that an empty list gives the fixed message. The layout of a non-empty table is given by `TableCellRule` per cell, not as a whole-table contract.
- Filter.FilteredCsv: states only that an empty list gives the fixed message. Each row is covered by `CsvCellReadsBack` and `PlainCsvRowSplits`.
- Format.FormatTable: states the fixed header and separator and the empty case. The per-row layout is stated per column by `TitleColumn`, not for the whole line.
- Format.CsvLinesCount: counts line breaks only for items whose text fields contain no newline. A quoted field may hold one.
- The update command's CSV reader is not flexible (src/commands/update.rs:42-44), unlike the import reader. A record whose length differs from the header is an error from the `csv` crate, so it must be given as `Malformed`. For that reason the "Missing header" branch of `Update.FromRecord` is not reached from `update_from_csv`.
- Filter.BuildFilterQuery: the SELECT list and WHERE text are stated through `WhereOnlyWithConditions` and `ParamsLineUp`; the full query string is not restated as a whole.
- The CLI wiring in `src/main.rs` is left out, as are `list.rs`, `help.rs`, `commands.rs`, `mod.rs`, `add.rs`, `delete.rs` and `stats.rs`. They only print, dispatch, or repeat rules modelled here. Of `main.rs`, only the fact that one monitor is shared by the cache and the filter command is kept.

## Findings

| source | as written | input that shows it | evidently intended | confidence | as-written member | corrected member |
|---|---|---|---|---|---|---|
| src/commands/update.rs:316-325 | The retry loader checks a corrected entry with every field that was not answered defaulted to `""`, `f64::MAX` or `i32::MAX`. So the title or the category is always empty and validation always fails. | Ledger entry {field "title", row 2, value "7"}, answer "Blue shoes", item 7 stored and valid: the category `""` fails, so nothing is written | Check the answered field over the stored row, as `update_from_csv` does with its effective values (src/commands/update.rs:65-81) | not executed | Update.RetryWithDefaultsKeepsStore | Update.RetryWithStoredWritesPassingAnswer |
