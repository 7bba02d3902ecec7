/** The filter command: the price range argument, the field list with its
    shortcuts, the query built from the filters, the two text renderings of
    the matching rows and the command as a whole with its cache and
    timing monitor. */
module Filter {
  import opened Wrappers
  import opened Text
  import opened Numbers
  import opened Seqs
  import Format
  import Cache

  // ---------------------------------------------------------------------
  // Price range
  // ---------------------------------------------------------------------

  /** Inclusive bounds; a missing bound does not filter. */
  datatype PriceRange = PriceRange(min: Option<real>, max: Option<real>)

  const RANGE_FORMAT := "Invalid price range format. Use 'min-max' or 'min-' or '-max'"
  const INVALID_MIN := "Invalid minimum price"
  const INVALID_MAX := "Invalid maximum price"
  const INVALID_PRICE := "Invalid price value"

  /** One side of a range: empty means no bound, anything else must be a
      number. */
  function ParseSide(s: string, message: string): (r: Result<Option<real>>)
    ensures |s| == 0 ==> r == Ok(None)
    ensures |s| > 0 ==> (r.Ok? <==> ParseDecimal(s).Some?)
    ensures |s| > 0 && r.Ok? ==> r.value == ParseDecimal(s)
    ensures r.Err? ==> r.error == message
  {
    if |s| == 0 then Ok(None)
    else match ParseDecimal(s)
      case Some(v) => Ok(Some(v))
      case None => Err(message)
  }

  /** The `--price` argument: `min-max` with either side possibly empty, or
      a single price that is both bounds. Nothing checks that the minimum
      is below the maximum. */
  function ParsePriceRange(s: string): (r: Result<PriceRange>)
    ensures '-' !in s ==> (r.Ok? <==> ParseDecimal(s).Some?)
    ensures '-' !in s && r.Ok? ==> r.value.min == r.value.max == ParseDecimal(s)
    ensures '-' !in s && r.Err? ==> r.error == INVALID_PRICE
    ensures '-' in s && Count(s, '-') != 1 ==> r == Err(RANGE_FORMAT)
  {
    if '-' in s then
      var parts := Split(s, '-');
      if |parts| != 2 then Err(RANGE_FORMAT)
      else match ParseSide(parts[0], INVALID_MIN)
        case Err(e) => Err(e)
        case Ok(lo) =>
          match ParseSide(parts[1], INVALID_MAX)
          case Err(e) => Err(e)
          case Ok(hi) => Ok(PriceRange(lo, hi))
    else
      match ParseDecimal(s)
      case Some(p) => Ok(PriceRange(Some(p), Some(p)))
      case None => Err(INVALID_PRICE)
  }

  /** With exactly one `-`, the two sides are read independently: a side
      that is empty is no bound, the first bad side decides the error. */
  lemma RangeSides(s: string)
    requires Count(s, '-') == 1
    ensures var parts := Split(s, '-');
            var lo := ParseSide(parts[0], INVALID_MIN);
            var hi := ParseSide(parts[1], INVALID_MAX);
            && (lo.Err? ==> ParsePriceRange(s) == Err(INVALID_MIN))
            && (lo.Ok? && hi.Err? ==> ParsePriceRange(s) == Err(INVALID_MAX))
            && (lo.Ok? && hi.Ok? ==> ParsePriceRange(s) == Ok(PriceRange(lo.value, hi.value)))
  {
    if '-' !in s {
      CountAbsent(s, '-');
    }
  }

  /** The argument text of a range whose bounds are non-negative: each
      present bound with two decimals, an empty side for a missing one. */
  function RangeText(r: PriceRange): string {
    (if r.min.Some? then Fixed2Text(r.min.value) else "") + "-" + (if r.max.Some? then Fixed2Text(r.max.value) else "")
  }

  predicate NonNegative(b: Option<real>) {
    b.Some? ==> b.value >= 0.0
  }

  function Rounded(b: Option<real>): Option<real> {
    if b.Some? then Some(RoundCents(b.value)) else None
  }

  lemma NoDashInPrice(p: real)
    requires p >= 0.0
    ensures '-' !in Fixed2Text(p)
  {
    var c := Cents(p);
    var cc := c % 100;
    var units := NatText(c / 100);
    assert Fixed2Text(p) == units + "." + [DigitChar(cc / 10), DigitChar(cc % 10)];
    assert IsDigit(DigitChar(cc / 10)) && IsDigit(DigitChar(cc % 10));
  }

  /** Every range with non-negative bounds, in either order, reads back from
      its text as itself rounded to cents: open ends, the bare `-` and
      inverted ranges included. */
  lemma RangeRoundTrip(r: PriceRange)
    requires NonNegative(r.min) && NonNegative(r.max)
    ensures ParsePriceRange(RangeText(r)) == Ok(PriceRange(Rounded(r.min), Rounded(r.max)))
  {
    var a := if r.min.Some? then Fixed2Text(r.min.value) else "";
    var b := if r.max.Some? then Fixed2Text(r.max.value) else "";
    if r.min.Some? {
      NoDashInPrice(r.min.value);
      ParseFixed2Text(r.min.value);
    }
    if r.max.Some? {
      NoDashInPrice(r.max.value);
      ParseFixed2Text(r.max.value);
    }
    assert Join([a, b], "-") == a + "-" + b;
    SplitJoin([a, b], '-');
    assert '-' in RangeText(r) by {
      assert RangeText(r)[|a|] == '-';
    }
    assert Split(RangeText(r), '-') == [a, b];
  }

  // ---------------------------------------------------------------------
  // Field list
  // ---------------------------------------------------------------------

  /** The columns a filter may show. */
  const VALID_FIELDS := ["item_id", "title", "description", "price", "quantity", "category", "condition", "brand", "upc"]

  /** The shortcut names, each standing for the column at the same place
      in `SHORTCUT_TARGETS`. */
  const SHORTCUTS := ["id", "t", "d", "p", "q", "c", "cat", "b", "u"]
  const SHORTCUT_TARGETS := ["item_id", "title", "description", "price", "quantity", "condition", "category", "brand", "upc"]

  /** A shortcut becomes its column; any other name stays as it is. */
  function Expand(name: string): string {
    if name == "id" then "item_id"
    else if name == "t" then "title"
    else if name == "d" then "description"
    else if name == "p" then "price"
    else if name == "q" then "quantity"
    else if name == "c" then "condition"
    else if name == "cat" then "category"
    else if name == "b" then "brand"
    else if name == "u" then "upc"
    else name
  }

  /** The expansion agrees with the shortcut table, leaves every other name
      alone, and only ever produces columns from shortcuts. */
  lemma ExpandMatchesTable(name: string)
    ensures forall k :: 0 <= k < |SHORTCUTS| && name == SHORTCUTS[k] ==> Expand(name) == SHORTCUT_TARGETS[k]
    ensures name !in SHORTCUTS ==> Expand(name) == name
    ensures name in SHORTCUTS ==> Expand(name) in VALID_FIELDS
  {
  }

  /** Expanding an expanded name changes nothing: no column name is a
      shortcut. */
  lemma ExpandIdempotent(name: string)
    ensures Expand(Expand(name)) == Expand(name)
  {
  }

  /** The non-blank entries, trimmed and expanded, in order. */
  function ExpandList(parts: seq<string>): (r: seq<string>)
    ensures |r| <= |parts|
  {
    if |parts| == 0 then []
    else
      var f := Trim(parts[0]);
      (if f == [] then [] else [Expand(f)]) + ExpandList(parts[1..])
  }

  const NO_FIELDS := "No valid fields specified"

  /** The `--fields` argument: comma-separated names, blank entries
      skipped, shortcuts expanded; no name at all is an error. */
  function ExpandFieldShortcuts(fields: string): (r: Result<seq<string>>)
    ensures r.Ok? ==> |r.value| > 0
    ensures r.Err? ==> r.error == NO_FIELDS
  {
    var list := ExpandList(Split(fields, ','));
    if |list| == 0 then Err(NO_FIELDS) else Ok(list)
  }

  /** Every entry is blank. */
  predicate AllBlank(parts: seq<string>) {
    |parts| == 0 || (IsBlank(parts[0]) && AllBlank(parts[1..]))
  }

  /** The list is empty exactly when every entry is blank. */
  lemma {:induction false} ExpandListEmpty(parts: seq<string>)
    ensures |ExpandList(parts)| == 0 <==> AllBlank(parts)
    decreases |parts|
  {
    if |parts| > 0 {
      ExpandListEmpty(parts[1..]);
    }
  }

  /** The argument is rejected exactly when it names nothing but blanks,
      the empty argument included. */
  lemma NoFieldsIffBlank(fields: string)
    ensures ExpandFieldShortcuts(fields).Err? <==> AllBlank(Split(fields, ','))
  {
    ExpandListEmpty(Split(fields, ','));
  }

  /** An empty argument names nothing. */
  lemma EmptyFieldsRejected()
    ensures ExpandFieldShortcuts("") == Err(NO_FIELDS)
  {
    var parts := Split("", ',');
    assert |parts| == 1;
    assert Join(parts, [',']) == parts[0];
    ExpandListEmpty(parts);
  }

  /** A name as one would write it in the list: non-empty, no comma, no
      whitespace at either end. */
  predicate Plain(name: string) {
    name != [] && ',' !in name && !IsWhitespace(name[0]) && !IsWhitespace(name[|name| - 1])
  }

  function ExpandAll(names: seq<string>): (r: seq<string>)
    ensures |r| == |names|
    ensures forall k :: 0 <= k < |names| ==> r[k] == Expand(names[k])
  {
    if |names| == 0 then [] else [Expand(names[0])] + ExpandAll(names[1..])
  }

  lemma {:induction false} ExpandListPlain(names: seq<string>)
    requires forall k :: 0 <= k < |names| ==> Plain(names[k])
    ensures ExpandList(names) == ExpandAll(names)
    decreases |names|
  {
    if |names| > 0 {
      TrimOfTrimmed(names[0]);
      ExpandListPlain(names[1..]);
    }
  }

  /** Each entry is trimmed before it is looked up: white space around a
      name does not change what it names. */
  lemma PaddedNameExpands(w1: string, name: string, w2: string, rest: seq<string>)
    requires IsBlank(w1) && IsBlank(w2) && Plain(name)
    ensures ExpandList([w1 + name + w2] + rest) == [Expand(name)] + ExpandList(rest)
  {
    TrimPadded(w1, name, w2);
    assert ([w1 + name + w2] + rest)[1..] == rest;
  }

  /** A blank entry, wherever it stands, adds nothing to the list. */
  lemma BlankEntrySkipped(blank: string, rest: seq<string>)
    requires IsBlank(blank)
    ensures ExpandList([blank] + rest) == ExpandList(rest)
  {
    assert ([blank] + rest)[1..] == rest;
  }

  /** Joining plain names with commas and reading the list back gives each
      name expanded, in order. */
  lemma ExpandJoined(names: seq<string>)
    requires |names| > 0
    requires forall k :: 0 <= k < |names| ==> Plain(names[k])
    ensures ExpandFieldShortcuts(Join(names, ",")) == Ok(ExpandAll(names))
  {
    SplitJoin(names, ',');
    assert Split(Join(names, [',']), ',') == names;
    ExpandListPlain(names);
  }

  const UNKNOWN_FIELD := "Unknown field: "

  /** Index of the first name that is not a column, `|fields|` if none. */
  function FirstUnknown(fields: seq<string>): (i: nat)
    ensures i <= |fields|
    ensures forall j :: 0 <= j < i ==> fields[j] in VALID_FIELDS
    ensures i < |fields| ==> fields[i] !in VALID_FIELDS
  {
    if |fields| == 0 then 0
    else if fields[0] !in VALID_FIELDS then 0
    else 1 + FirstUnknown(fields[1..])
  }

  /** Every name must be a column; the first that is not is reported. */
  function ValidateFields(fields: seq<string>): (r: Result<()>)
    ensures r.Ok? <==> forall k :: 0 <= k < |fields| ==> fields[k] in VALID_FIELDS
    ensures r.Err? ==> FirstUnknown(fields) < |fields| && r.error == UNKNOWN_FIELD + fields[FirstUnknown(fields)]
  {
    var i := FirstUnknown(fields);
    if i < |fields| then Err(UNKNOWN_FIELD + fields[i]) else Ok(())
  }

  /** A column name is not a shortcut. */
  lemma ColumnsStayColumns(name: string)
    requires name in VALID_FIELDS
    ensures Expand(name) == name
  {
  }

  lemma ColumnsArePlain(name: string)
    requires name in VALID_FIELDS
    ensures Plain(name)
  {
  }

  /** Every shortcut, and every column, expands to a column. */
  lemma ExpandIntoValid(name: string)
    requires name in SHORTCUTS || name in VALID_FIELDS
    ensures Expand(name) in VALID_FIELDS
  {
  }

  const DEFAULT_FIELD_LIST := ["item_id", "title", "price", "quantity", "category", "condition", "brand"]

  /** The field list used when none is given. */
  const DEFAULT_FIELDS := Join(DEFAULT_FIELD_LIST, ",")

  /** The default list names seven columns, all valid. */
  lemma DefaultFieldsValid()
    ensures ExpandFieldShortcuts(DEFAULT_FIELDS) == Ok(DEFAULT_FIELD_LIST)
    ensures ValidateFields(DEFAULT_FIELD_LIST).Ok?
  {
    forall k | 0 <= k < |DEFAULT_FIELD_LIST|
      ensures Plain(DEFAULT_FIELD_LIST[k]) && ExpandAll(DEFAULT_FIELD_LIST)[k] == DEFAULT_FIELD_LIST[k]
    {
      ColumnsArePlain(DEFAULT_FIELD_LIST[k]);
      ColumnsStayColumns(DEFAULT_FIELD_LIST[k]);
    }
    assert ExpandAll(DEFAULT_FIELD_LIST) == DEFAULT_FIELD_LIST;
    ExpandJoined(DEFAULT_FIELD_LIST);
  }

  // ---------------------------------------------------------------------
  // Query
  // ---------------------------------------------------------------------

  /** A statement parameter. */
  datatype SqlValue = Real(r: real) | Text(t: string)

  /** The statement text and its parameters, one per `?`. */
  datatype Query = Query(sql: string, params: seq<SqlValue>)

  /** Every condition the filter can add, in the order it adds them. */
  const CONDITIONS := ["price >= ?", "price <= ?", "category = ?", "condition = ?", "brand = ?"]

  /** Which conditions apply. */
  function FilterMask(range: Option<PriceRange>, category: Option<string>, condition: Option<string>, brand: Option<string>): (m: seq<bool>)
    ensures |m| == |CONDITIONS|
  {
    [range.Some? && range.value.min.Some?, range.Some? && range.value.max.Some?,
     category.Some?, condition.Some?, brand.Some?]
  }

  /** The parameter each condition would bind. */
  function FilterValues(range: Option<PriceRange>, category: Option<string>, condition: Option<string>, brand: Option<string>): (vs: seq<SqlValue>)
    ensures |vs| == |CONDITIONS|
  {
    var lo := if range.Some? && range.value.min.Some? then range.value.min.value else 0.0;
    var hi := if range.Some? && range.value.max.Some? then range.value.max.value else 0.0;
    [Real(lo), Real(hi), Text(category.GetOr("")), Text(condition.GetOr("")), Text(brand.GetOr(""))]
  }

  function Conditions(range: Option<PriceRange>, category: Option<string>, condition: Option<string>, brand: Option<string>): seq<string> {
    Select(CONDITIONS, FilterMask(range, category, condition, brand))
  }

  function WhereClause(conds: seq<string>): string {
    if |conds| == 0 then "" else "WHERE " + Join(conds, " AND ")
  }

  const SELECT := "SELECT "
  const FROM_ITEMS := " FROM items "

  /** The statement for the filters given and the columns asked for. */
  function BuildFilterQuery(range: Option<PriceRange>, category: Option<string>, condition: Option<string>, brand: Option<string>, fields: seq<string>): (q: Query)
    ensures |q.params| == |Conditions(range, category, condition, brand)|
    ensures var head := SELECT + Join(fields, ", ") + FROM_ITEMS;
            |q.sql| >= |head| && q.sql[..|head|] == head
  {
    var mask := FilterMask(range, category, condition, brand);
    SelectZip(CONDITIONS, FilterValues(range, category, condition, brand), mask);
    var conds := Select(CONDITIONS, mask);
    Query(SELECT + Join(fields, ", ") + FROM_ITEMS + WhereClause(conds),
          Select(FilterValues(range, category, condition, brand), mask))
  }

  /** Conditions and parameters line up: the i-th `?` binds the value of
      the i-th condition, in the order price minimum, price maximum,
      category, condition, brand. */
  lemma ParamsLineUp(range: Option<PriceRange>, category: Option<string>, condition: Option<string>, brand: Option<string>, fields: seq<string>)
    ensures var mask := FilterMask(range, category, condition, brand);
            Zip(Conditions(range, category, condition, brand), BuildFilterQuery(range, category, condition, brand, fields).params)
            == Select(Zip(CONDITIONS, FilterValues(range, category, condition, brand)), mask)
  {
    SelectZip(CONDITIONS, FilterValues(range, category, condition, brand), FilterMask(range, category, condition, brand));
  }

  /** A condition appears exactly when its filter was given. */
  lemma ConditionIffFilter(range: Option<PriceRange>, category: Option<string>, condition: Option<string>, brand: Option<string>, k: nat)
    requires k < |CONDITIONS|
    ensures CONDITIONS[k] in Conditions(range, category, condition, brand) <==> FilterMask(range, category, condition, brand)[k]
  {
    SelectedIffMarked(CONDITIONS, FilterMask(range, category, condition, brand), k);
  }

  /** There are no conditions exactly when no filter was given; an empty
      price range counts as none. */
  lemma NoConditionsIffNoFilters(range: Option<PriceRange>, category: Option<string>, condition: Option<string>, brand: Option<string>)
    ensures |Conditions(range, category, condition, brand)| == 0
            <==> (range.None? || (range.value.min.None? && range.value.max.None?)) && category.None? && condition.None? && brand.None?
  {
    var mask := FilterMask(range, category, condition, brand);
    SelectEmpty(CONDITIONS, mask);
    assert (forall k :: 0 <= k < |mask| ==> !mask[k]) <==> !mask[0] && !mask[1] && !mask[2] && !mask[3] && !mask[4];
  }

  /** Without conditions there is no WHERE clause; with some, the clause is
      the conditions joined by AND. */
  lemma WhereOnlyWithConditions(range: Option<PriceRange>, category: Option<string>, condition: Option<string>, brand: Option<string>, fields: seq<string>)
    ensures var q := BuildFilterQuery(range, category, condition, brand, fields);
            var conds := Conditions(range, category, condition, brand);
            && (|conds| == 0 ==> q.sql == SELECT + Join(fields, ", ") + FROM_ITEMS)
            && (|conds| > 0 ==> q.sql == SELECT + Join(fields, ", ") + FROM_ITEMS + "WHERE " + Join(conds, " AND "))
  {
  }

  // ---------------------------------------------------------------------
  // Rendering the matching rows
  // ---------------------------------------------------------------------

  /** A matching row: the columns not selected stay absent. */
  datatype FilteredItem = FilteredItem(
    itemId: Option<int>,
    title: Option<string>,
    description: Option<string>,
    price: Option<real>,
    quantity: Option<int>,
    category: Option<string>,
    condition: Option<string>,
    brand: Option<string>,
    upc: Option<string>)

  function OptText(o: Option<string>): string { o.GetOr("") }

  function OptInt(o: Option<int>): string {
    if o.Some? then IntText(o.value) else ""
  }

  /** The text of one column of a row; absent values and unknown columns
      are empty. The table shows prices with a `$`. */
  function CellValue(it: FilteredItem, field: string, dollar: bool): string {
    if field == "item_id" then OptInt(it.itemId)
    else if field == "title" then OptText(it.title)
    else if field == "description" then OptText(it.description)
    else if field == "price" then (if it.price.Some? then (if dollar then "$" else "") + Fixed2Text(it.price.value) else "")
    else if field == "quantity" then OptInt(it.quantity)
    else if field == "category" then OptText(it.category)
    else if field == "condition" then OptText(it.condition)
    else if field == "brand" then OptText(it.brand)
    else if field == "upc" then OptText(it.upc)
    else ""
  }

  const NO_ITEMS := "No items found matching the filter criteria.\n"

  const CELL_LIMIT := 30

  /** A table cell: longer than 30 characters becomes the first 27 and `...`. */
  function TableCell(v: string): string {
    Format.Shorten(v, CELL_LIMIT, CELL_LIMIT - 3)
  }

  function TableCells(it: FilteredItem, fields: seq<string>): (cells: seq<string>)
    ensures |cells| == |fields|
  {
    seq(|fields|, k requires 0 <= k < |fields| => TableCell(CellValue(it, fields[k], true)))
  }

  function TableRows(items: seq<FilteredItem>, fields: seq<string>): string {
    if |items| == 0 then "" else Join(TableCells(items[0], fields), " | ") + "\n" + TableRows(items[1..], fields)
  }

  function UpperAll(fields: seq<string>): (r: seq<string>)
    ensures |r| == |fields|
    ensures forall k :: 0 <= k < |fields| ==> r[k] == ToUpper(fields[k])
  {
    seq(|fields|, k requires 0 <= k < |fields| => ToUpper(fields[k]))
  }

  /** Column names upper-cased, a `---` line, then one line per row; an
      empty result is a fixed message instead. */
  function FilteredTable(items: seq<FilteredItem>, fields: seq<string>): (r: string)
    ensures |items| == 0 ==> r == NO_ITEMS
  {
    if |items| == 0 then NO_ITEMS
    else
      var header := Join(UpperAll(fields), " | ") + "\n";
      var rule := Join(seq(|fields|, _ => "---"), " | ") + "\n";
      header + rule + TableRows(items, fields)
  }

  /** Each table cell fits in 30 characters, shows a short value whole and
      a long one as its first 27 characters and `...`. */
  lemma TableCellRule(it: FilteredItem, fields: seq<string>, k: nat)
    requires k < |fields|
    ensures var v := CellValue(it, fields[k], true);
            var c := TableCells(it, fields)[k];
            && |c| <= CELL_LIMIT
            && (|v| <= CELL_LIMIT <==> c == v)
            && (|v| > CELL_LIMIT ==> c == v[..CELL_LIMIT - 3] + "...")
  {
    Format.ShortenKeeps(CellValue(it, fields[k], true), CELL_LIMIT, CELL_LIMIT - 3);
  }

  function CsvCells(it: FilteredItem, fields: seq<string>): (cells: seq<string>)
    ensures |cells| == |fields|
  {
    seq(|fields|, k requires 0 <= k < |fields| => Format.EscapeCsvField(CellValue(it, fields[k], false)))
  }

  function CsvRows(items: seq<FilteredItem>, fields: seq<string>): string {
    if |items| == 0 then "" else Join(CsvCells(items[0], fields), ",") + "\n" + CsvRows(items[1..], fields)
  }

  /** Upper-cased column names, then one line per row with every cell
      quoted as CSV needs; an empty result is a fixed message instead. */
  function FilteredCsv(items: seq<FilteredItem>, fields: seq<string>): (r: string)
    ensures |items| == 0 ==> r == NO_ITEMS
  {
    if |items| == 0 then NO_ITEMS
    else
      var header := Join(UpperAll(fields), ",") + "\n";
      header + CsvRows(items, fields)
  }

  /** Every CSV cell reads back as the value it shows. */
  lemma CsvCellReadsBack(it: FilteredItem, fields: seq<string>, k: nat)
    requires k < |fields|
    ensures Format.ReadCsvField(CsvCells(it, fields)[k]) == CellValue(it, fields[k], false)
  {
    Format.EscapeRoundTrip(CellValue(it, fields[k], false));
  }

  /** A row whose values hold no comma, quote or newline splits back into
      exactly those values. */
  lemma PlainCsvRowSplits(it: FilteredItem, fields: seq<string>)
    requires |fields| > 0
    requires forall k :: 0 <= k < |fields| ==> !Format.NeedsQuoting(CellValue(it, fields[k], false))
    ensures Split(Join(CsvCells(it, fields), ","), ',') == seq(|fields|, k requires 0 <= k < |fields| => CellValue(it, fields[k], false))
  {
    var cells := CsvCells(it, fields);
    assert forall k :: 0 <= k < |cells| ==> cells[k] == CellValue(it, fields[k], false);
    SplitJoin(cells, ',');
    assert Join(cells, ",") == Join(cells, [',']);
  }

  // ---------------------------------------------------------------------
  // The command
  // ---------------------------------------------------------------------

  datatype OutputFormat = Json | Csv | Table

  /** The format's name as `{:?}` prints it, which goes into the cache key. */
  function DebugName(f: OutputFormat): string {
    match f
    case Json => "Json"
    case Csv => "Csv"
    case Table => "Table"
  }

  /** The command's arguments. */
  datatype FilterRequest = FilterRequest(
    price: Option<string>,
    category: Option<string>,
    condition: Option<string>,
    brand: Option<string>,
    fields: Option<string>,
    format: Option<OutputFormat>)

  /** The cache-key parameters: each filter given, as typed, then the
      field list as typed and the format name. */
  function KeyParams(req: FilterRequest, fieldsText: string, format: OutputFormat): (ps: seq<Cache.Param>)
    ensures Cache.DistinctKeys(ps)
  {
    var all := [Cache.Param("price", req.price.GetOr("")), Cache.Param("category", req.category.GetOr("")),
                Cache.Param("condition", req.condition.GetOr("")), Cache.Param("brand", req.brand.GetOr("")),
                Cache.Param("fields", fieldsText), Cache.Param("format", DebugName(format))];
    var mask := [req.price.Some?, req.category.Some?, req.condition.Some?, req.brand.Some?, true, true];
    SelectKeepsDistinctKeys(all, mask);
    Select(all, mask)
  }

  lemma {:induction false} SelectKeepsDistinctKeys(ps: seq<Cache.Param>, mask: seq<bool>)
    requires |ps| == |mask| && Cache.DistinctKeys(ps)
    ensures Cache.DistinctKeys(Select(ps, mask))
    decreases |ps|
  {
    if |ps| > 0 {
      SelectKeepsDistinctKeys(ps[1..], mask[1..]);
      var rest := Select(ps[1..], mask[1..]);
      forall j | 0 <= j < |rest|
        ensures rest[j].key != ps[0].key
      {
        SelectedFrom(ps[1..], mask[1..], rest[j]);
      }
    }
  }

  const FILTER := "filter"
  const FILTER_QUERY := "filter_query"

  /** Cached results live for 300 seconds; the clock counts seconds. */
  const FILTER_TTL := 300

  /** What a successful run printed, the cache and monitor after it, and
      the statement it ran (none when the cache answered). */
  datatype FilterRun = FilterRun(printed: string, state: Cache.QueryCache, query: Option<Query>)

  function ParseRequestRange(price: Option<string>): (r: Result<Option<PriceRange>>)
    ensures price.None? ==> r == Ok(None)
    ensures price.Some? ==> (r.Ok? <==> ParsePriceRange(price.value).Ok?)
    ensures price.Some? && r.Ok? ==> r.value == Some(ParsePriceRange(price.value).value)
    ensures price.Some? && r.Err? ==> r.error == ParsePriceRange(price.value).error
  {
    if price.None? then Ok(None)
    else match ParsePriceRange(price.value)
      case Ok(p) => Ok(Some(p))
      case Err(e) => Err(e)
  }

  /** The output for the chosen format; JSON is the serialisation of the
      rows, which is given. */
  function Render(format: OutputFormat, items: seq<FilteredItem>, fields: seq<string>, json: string): (r: string)
    ensures format.Json? ==> r == json
    ensures format.Table? ==> r == FilteredTable(items, fields)
    ensures format.Csv? ==> r == FilteredCsv(items, fields)
  {
    match format
    case Json => json
    case Table => FilteredTable(items, fields)
    case Csv => FilteredCsv(items, fields)
  }

  /** The part of the command that does not depend on the cache: the
      arguments checked in order (price, field list, field names), giving
      the columns and the range. */
  function Prepare(req: FilterRequest): (r: Result<(Option<PriceRange>, seq<string>)>)
    ensures r.Ok? ==> ValidateFields(r.value.1).Ok? && |r.value.1| > 0
    ensures ParseRequestRange(req.price).Err? ==> r == Err(ParseRequestRange(req.price).error)
  {
    match ParseRequestRange(req.price)
    case Err(e) => Err(e)
    case Ok(range) =>
      match ExpandFieldShortcuts(req.fields.GetOr(DEFAULT_FIELDS))
      case Err(e) => Err(e)
      case Ok(fields) =>
        match ValidateFields(fields)
        case Err(e) => Err(e)
        case Ok(_) => Ok((range, fields))
  }

  function RequestKey(req: FilterRequest): string {
    Cache.CacheKey(FILTER, KeyParams(req, req.fields.GetOr(DEFAULT_FIELDS), req.format.GetOr(Json)))
  }

  /** One run of the command. The cache and monitor are the shared ones the
      program creates at start-up, each possibly switched off; `now` is the
      clock when the cache is consulted and `done` when the result is
      stored; `items` are the rows the statement returns, `json` their
      serialisation and `millis` how long the statement took. */
  function HandleFilter(req: FilterRequest, st: Cache.QueryCache, useCache: bool, useMonitor: bool,
                        now: int, done: int, items: seq<FilteredItem>, json: string, millis: nat): (r: Result<FilterRun>)
    ensures Prepare(req).Err? ==> r == Err(Prepare(req).error)
    ensures Prepare(req).Ok? ==> r.Ok?
    ensures r.Ok? && r.value.query.Some? ==> r.value.query.value == BuildFilterQuery(Prepare(req).value.0, req.category, req.condition, req.brand, Prepare(req).value.1)
    ensures r.Ok? ==> (r.value.query.None? <==> useCache && RequestKey(req) in st.entries && Cache.Live(st.entries[RequestKey(req)], now))
    ensures r.Ok? && r.value.query.None? ==>
              && r.value.printed == st.entries[RequestKey(req)].data
              && r.value.state == Cache.Get(st, RequestKey(req), now).cache
    ensures r.Ok? && r.value.query.Some? ==> r.value.printed == Render(req.format.GetOr(Json), items, Prepare(req).value.1, json)
    ensures r.Ok? && r.value.query.Some? && useCache ==>
              && RequestKey(req) in r.value.state.entries
              && r.value.state.entries[RequestKey(req)] == Cache.Entry(r.value.printed, done, FILTER_TTL)
    ensures r.Ok? && useCache ==> r.value.state.monitor.hits + r.value.state.monitor.misses == st.monitor.hits + st.monitor.misses + 1
  {
    match Prepare(req)
    case Err(e) => Err(e)
    case Ok(prepared) =>
      var (range, fields) := prepared;
      var format := req.format.GetOr(Json);
      var key := RequestKey(req);
      var look := Cache.Get(st, key, now);
      if useCache && look.value.Some? then Ok(FilterRun(look.value.value, look.cache, None))
      else
        var st1 := if useCache then look.cache else st;
        var q := BuildFilterQuery(range, req.category, req.condition, req.brand, fields);
        var st2 := if useMonitor then st1.(monitor := Cache.RecordQuery(st1.monitor, FILTER_QUERY, millis)) else st1;
        var out := Render(format, items, fields, json);
        var st3 := if useCache then Cache.Set(st2, key, out, FILTER_TTL, done) else st2;
        Ok(FilterRun(out, st3, Some(q)))
  }

  /** Repeating a request within five minutes of a run that stored its
      result prints the stored text without running the statement, even if
      the rows have changed since, and counts a cache hit. */
  lemma RepeatIsServedFromCache(req: FilterRequest, st: Cache.QueryCache, useMonitor: bool,
                                now: int, done: int, items: seq<FilteredItem>, json: string, millis: nat,
                                now2: int, done2: int, items2: seq<FilteredItem>, json2: string, millis2: nat)
    requires HandleFilter(req, st, true, useMonitor, now, done, items, json, millis).Ok?
    requires HandleFilter(req, st, true, useMonitor, now, done, items, json, millis).value.query.Some?
    requires done <= now2 < done + FILTER_TTL
    ensures var first := HandleFilter(req, st, true, useMonitor, now, done, items, json, millis).value;
            var second := HandleFilter(req, first.state, true, useMonitor, now2, done2, items2, json2, millis2);
            && second.Ok?
            && second.value.printed == first.printed
            && second.value.query.None?
            && second.value.state.monitor.hits == first.state.monitor.hits + 1
  {
  }

  /** A run that consults the cache counts exactly one hit or miss; a run
      that executes the statement with the monitor on records one more
      timing for it. */
  lemma RunCounts(req: FilterRequest, st: Cache.QueryCache, useMonitor: bool,
                  now: int, done: int, items: seq<FilteredItem>, json: string, millis: nat)
    requires HandleFilter(req, st, true, useMonitor, now, done, items, json, millis).Ok?
    ensures var m := HandleFilter(req, st, true, useMonitor, now, done, items, json, millis).value.state.monitor;
            m.hits + m.misses == st.monitor.hits + st.monitor.misses + 1
    ensures var run := HandleFilter(req, st, true, useMonitor, now, done, items, json, millis).value;
            var before := if FILTER_QUERY in st.monitor.queryTimes then |st.monitor.queryTimes[FILTER_QUERY]| else 0;
            run.query.Some? && useMonitor ==> |run.state.monitor.queryTimes[FILTER_QUERY]| == before + 1
  {
  }
}
