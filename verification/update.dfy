/** `inventory update`: change stored items from a CSV file of partial
    rows, or retry the entries of an error ledger. Each CSV row names an
    item by id and supplies some columns; the supplied columns, over the
    stored values of the others, are checked with the eBay bundle. A row
    that passes is written with `update_item`; one that fails is either
    left in the ledger (non-interactive mode) or corrected through prompts
    and checked once more. As in the import, the terminal is a script of
    input lines and the file system is replaced by parameters. */
module Update {
  import opened Wrappers
  import opened Text
  import opened Numbers
  import opened Validation
  import opened Store
  import Import

  // ---------------------------------------------------------------------
  // The command line
  // ---------------------------------------------------------------------

  const BOTH_SOURCES := "Cannot specify both --file and --retry"
  const NO_SOURCE := "Must specify either --file or --retry"

  /** Where the updates come from. */
  datatype Source = CsvFile(path: string) | RetryFile(path: string)

  /** `execute`: exactly one of `--file` and `--retry` must be given. */
  function Execute(file: Option<string>, retry: Option<string>): (r: Result<Source>)
    ensures r.Ok? <==> file.Some? != retry.Some?
    ensures file.Some? && retry.Some? ==> r == Err(BOTH_SOURCES)
    ensures file.None? && retry.None? ==> r == Err(NO_SOURCE)
    ensures file.Some? && retry.None? ==> r == Ok(CsvFile(file.value))
    ensures file.None? && retry.Some? ==> r == Ok(RetryFile(retry.value))
  {
    if file.Some? && retry.Some? then Err(BOTH_SOURCES)
    else if file.Some? then Ok(CsvFile(file.value))
    else if retry.Some? then Ok(RetryFile(retry.value))
    else Err(NO_SOURCE)
  }

  // ---------------------------------------------------------------------
  // Reading a row
  // ---------------------------------------------------------------------

  /** A partial row: the item's id and the columns the row supplies. */
  datatype UpdateRow = UpdateRow(
    id: int,
    title: Option<string>,
    price: Option<real>,
    quantity: Option<int>,
    condition: Option<string>,
    category: Option<string>,
    brand: Option<string>,
    upc: Option<string>)

  const NOTHING_SUPPLIED: UpdateRow := UpdateRow(0, None, None, None, None, None, None, None)

  /** `is_field_provided`: the id always is; a column is when the row
      supplies it; any other field never is. */
  predicate IsFieldProvided(u: UpdateRow, f: Field) {
    match f
    case Id => true
    case Title => u.title.Some?
    case Price => u.price.Some?
    case Quantity => u.quantity.Some?
    case Condition => u.condition.Some?
    case Category => u.category.Some?
    case Brand => u.brand.Some?
    case Upc => u.upc.Some?
    case _ => false
  }

  /** Two rows supply the same columns. */
  predicate SameProvided(u: UpdateRow, v: UpdateRow) {
    && u.title.Some? == v.title.Some? && u.price.Some? == v.price.Some?
    && u.quantity.Some? == v.quantity.Some? && u.condition.Some? == v.condition.Some?
    && u.category.Some? == v.category.Some? && u.brand.Some? == v.brand.Some?
    && u.upc.Some? == v.upc.Some?
  }

  const MISSING_HEADER := "Missing header"

  /** A reader's error message naming the CSV row. */
  function InRow(what: string, rowNum: nat): string {
    what + " in row " + IntText(rowNum)
  }

  /** The columns an update file may carry, in the order of `UpdateRow`. */
  const UPDATE_HEADERS: seq<string> := ["id", "title", "price", "quantity", "condition", "category", "brand", "upc"]

  /** A non-blank cell under a numeric column that does not parse as that
      column's type (`i64` for the id, a decimal for the price, `i32` for
      the quantity). */
  predicate BadCell(header: string, cell: string) {
    var t := Trim(cell);
    && t != []
    && ((header == "id" && ParseI64(t).None?)
        || (header == "price" && ParseDecimal(t).None?)
        || (header == "quantity" && ParseI32(t).None?))
  }

  /** The reader's message for a cell that does not parse under `header`. */
  function ParseFailure(header: string, rowNum: nat): string {
    if header == "id" then InRow("Invalid ID", rowNum)
    else if header == "price" then InRow("Invalid price", rowNum)
    else InRow("Invalid quantity", rowNum)
  }

  /** One cell read into the row: a blank cell is skipped; a known column
      takes the trimmed text, numbers parsed (a parse failure is an error);
      an unknown column is ignored. */
  function ReadCell(u: UpdateRow, header: string, cell: string, rowNum: nat): (r: Result<UpdateRow>)
    ensures IsBlank(cell) ==> r == Ok(u)
    ensures header !in UPDATE_HEADERS ==> r == Ok(u)
    ensures r.Ok? && header != "id" ==> r.value.id == u.id
    ensures !IsBlank(cell) && header == "id" ==> (r.Err? <==> ParseI64(Trim(cell)).None?)
    ensures !IsBlank(cell) && header == "price" ==> (r.Err? <==> ParseDecimal(Trim(cell)).None?)
    ensures !IsBlank(cell) && header == "quantity" ==> (r.Err? <==> ParseI32(Trim(cell)).None?)
    ensures r.Err? <==> BadCell(header, cell)
    ensures r.Err? ==> r.error == ParseFailure(header, rowNum)
  {
    var t := Trim(cell);
    if t == [] then Ok(u)
    else if header == "id" then
      match ParseI64(t)
      case None => Err(InRow("Invalid ID", rowNum))
      case Some(n) => Ok(u.(id := n))
    else if header == "title" then Ok(u.(title := Some(t)))
    else if header == "price" then
      match ParseDecimal(t)
      case None => Err(InRow("Invalid price", rowNum))
      case Some(p) => Ok(u.(price := Some(p)))
    else if header == "quantity" then
      match ParseI32(t)
      case None => Err(InRow("Invalid quantity", rowNum))
      case Some(q) => Ok(u.(quantity := Some(q)))
    else if header == "condition" then Ok(u.(condition := Some(t)))
    else if header == "category" then Ok(u.(category := Some(t)))
    else if header == "brand" then Ok(u.(brand := Some(t)))
    else if header == "upc" then Ok(u.(upc := Some(t)))
    else Ok(u)
  }

  /** How one cell is read into the row under its header. */
  type CellReader = (UpdateRow, string, string) -> Result<UpdateRow>

  /** `ReadCell` for the record on line `rowNum`. */
  function CellsOfRow(rowNum: nat): CellReader {
    (u, header, cell) => ReadCell(u, header, cell, rowNum)
  }

  /** The cells from `i` on, left to right; the first error stops the
      reading, and a cell without a header is one. */
  function ReadCells(u: UpdateRow, headers: seq<string>, cells: seq<string>, i: nat, read: CellReader)
    : (r: Result<UpdateRow>)
    requires i <= |cells|
    ensures |cells| > |headers| >= i ==> r.Err?
    decreases |cells| - i
  {
    if i == |cells| then Ok(u)
    else if i >= |headers| then Err(MISSING_HEADER)
    else
      match read(u, headers[i], cells[i])
      case Err(e) => Err(e)
      case Ok(next) => ReadCells(next, headers, cells, i + 1, read)
  }

  /** `UpdateRow::from_record`: the cells read in order; an id that is
      absent or zero is an error. */
  function FromRecord(cells: seq<string>, headers: seq<string>, rowNum: nat): (r: Result<UpdateRow>)
    ensures r.Ok? ==> r.value.id != 0
    ensures |cells| > |headers| ==> r.Err?
    ensures ReadCells(NOTHING_SUPPLIED, headers, cells, 0, CellsOfRow(rowNum)).Ok? ==>
              (r.Ok? <==> ReadCells(NOTHING_SUPPLIED, headers, cells, 0, CellsOfRow(rowNum)).value.id != 0)
  {
    match ReadCells(NOTHING_SUPPLIED, headers, cells, 0, CellsOfRow(rowNum))
    case Err(e) => Err(e)
    case Ok(u) => if u.id == 0 then Err(InRow("Missing ID", rowNum)) else Ok(u)
  }

  /** Which cells a reader refuses: a test on a header and a cell. */
  type CellTest = (string, string) -> bool

  /** The first cell from `i` on that `bad` refuses under its header. */
  function FirstBadCell(headers: seq<string>, cells: seq<string>, i: nat, bad: CellTest): (r: Option<nat>)
    requires i <= |cells| <= |headers|
    ensures r.None? <==> forall j :: i <= j < |cells| ==> !bad(headers[j], cells[j])
    ensures r.Some? ==> i <= r.value < |cells| && bad(headers[r.value], cells[r.value])
    ensures r.Some? ==> forall j :: i <= j < r.value ==> !bad(headers[j], cells[j])
    decreases |cells| - i
  {
    if i == |cells| then None
    else if bad(headers[i], cells[i]) then Some(i)
    else FirstBadCell(headers, cells, i + 1, bad)
  }

  /** A reader that refuses exactly the cells `bad` refuses, with a message
      depending on the header only, fails reading a row no longer than its
      header exactly at the first refused cell, whatever the cells before
      it supplied. */
  lemma {:induction false} ReadsFailAt(u: UpdateRow, headers: seq<string>, cells: seq<string>, i: nat,
                                       read: CellReader, bad: CellTest, message: string -> string)
    requires i <= |cells| <= |headers|
    requires forall v, h, c :: read(v, h, c).Err? <==> bad(h, c)
    requires forall v, h, c :: read(v, h, c).Err? ==> read(v, h, c).error == message(h)
    ensures var r := ReadCells(u, headers, cells, i, read);
            var k := FirstBadCell(headers, cells, i, bad);
            && (r.Err? <==> k.Some?)
            && (k.Some? ==> r.error == message(headers[k.value]))
    decreases |cells| - i
  {
    if i < |cells| {
      var c := read(u, headers[i], cells[i]);
      if c.Ok? {
        ReadsFailAt(c.value, headers, cells, i + 1, read, bad, message);
      }
    }
  }

  /** `ReadCell` refuses exactly the `BadCell` cells, with `ParseFailure`. */
  lemma CellsOfRowRefuses(rowNum: nat)
    ensures forall v, h, c :: CellsOfRow(rowNum)(v, h, c).Err? <==> BadCell(h, c)
    ensures forall v, h, c :: CellsOfRow(rowNum)(v, h, c).Err? ==>
              CellsOfRow(rowNum)(v, h, c).error == ParseFailure(h, rowNum)
  {
  }

  /** `from_record` on a row no longer than its header: the first id,
      price or quantity cell that does not parse is the error; with none,
      the only error left is the missing id. */
  lemma FromRecordErrors(cells: seq<string>, headers: seq<string>, rowNum: nat)
    requires |cells| <= |headers|
    ensures var k := FirstBadCell(headers, cells, 0, BadCell);
            k.Some? ==> FromRecord(cells, headers, rowNum) == Err(ParseFailure(headers[k.value], rowNum))
    ensures FirstBadCell(headers, cells, 0, BadCell).None? && FromRecord(cells, headers, rowNum).Err? ==>
              FromRecord(cells, headers, rowNum).error == InRow("Missing ID", rowNum)
  {
    CellsOfRowRefuses(rowNum);
    ReadsFailAt(NOTHING_SUPPLIED, headers, cells, 0, CellsOfRow(rowNum), BadCell, h => ParseFailure(h, rowNum));
  }

  /** A text with something in it and no white space at either end. */
  predicate Tidy(t: string) {
    t != [] && !IsWhitespace(t[0]) && !IsWhitespace(t[|t| - 1])
  }

  /** The cells of a row written under `UPDATE_HEADERS`: absent columns
      empty, the price to two decimals. */
  function RecordOf(u: UpdateRow): (cells: seq<string>)
    ensures |cells| == |UPDATE_HEADERS|
  {
    [IntText(u.id), u.title.GetOr(""),
     if u.price.Some? then Fixed2Text(u.price.value) else "",
     if u.quantity.Some? then IntText(u.quantity.value) else "",
     u.condition.GetOr(""), u.category.GetOr(""), u.brand.GetOr(""), u.upc.GetOr("")]
  }

  lemma IntTextTidy(n: int)
    ensures Tidy(IntText(n)) && IsDigit(IntText(n)[|IntText(n)| - 1])
  {
    var t := NatText(if n < 0 then -n else n);
    if n < 0 {
      assert IntText(n) == "-" + t;
      assert IntText(n)[|IntText(n)| - 1] == t[|t| - 1];
    }
  }

  lemma Fixed2TextTidy(p: real)
    ensures Tidy(Fixed2Text(p))
  {
    var c := Cents(p);
    var cc := c % 100;
    var ip := NatText(c / 100);
    var body := Fixed2Body(c);
    assert body == ip + "." + [DigitChar(cc / 10), DigitChar(cc % 10)];
    assert IsDigit(body[0]) && IsDigit(body[|body| - 1]);
    var t := Fixed2Text(p);
    if p < 0.0 {
      assert t == "-" + body;
      assert t[|t| - 1] == body[|body| - 1];
    } else {
      assert t == body;
    }
  }

  /** A tidy or empty cell is read as written. */
  lemma TrimCell(t: string)
    requires t == [] || Tidy(t)
    ensures Trim(t) == t
  {
    TrimOfTrimmed(t);
  }

  /** A text column supplied tidy, or not at all, reads back as it was. */
  lemma TextCellReadBack(u: UpdateRow, header: string, v: Option<string>, rowNum: nat)
    requires v.Some? ==> Tidy(v.value)
    requires header in {"title", "condition", "category", "brand", "upc"}
    ensures ReadCell(u, header, v.GetOr(""), rowNum) == Ok(
      if v.None? then u
      else if header == "title" then u.(title := v)
      else if header == "condition" then u.(condition := v)
      else if header == "category" then u.(category := v)
      else if header == "brand" then u.(brand := v)
      else u.(upc := v))
  {
    TrimCell(v.GetOr(""));
  }

  /** An id written as text reads back. */
  lemma IdCellReadBack(u: UpdateRow, id: int, rowNum: nat)
    requires I64_MIN <= id <= I64_MAX
    ensures ReadCell(u, "id", IntText(id), rowNum) == Ok(u.(id := id))
  {
    IntTextTidy(id);
    TrimCell(IntText(id));
    ParseIntText(id, I64_MIN, I64_MAX);
  }

  /** A price written to two decimals reads back rounded to cents. */
  lemma PriceCellReadBack(u: UpdateRow, price: Option<real>, rowNum: nat)
    ensures ReadCell(u, "price", if price.Some? then Fixed2Text(price.value) else "", rowNum)
            == Ok(u.(price := if price.Some? then Some(RoundCents(price.value)) else u.price))
  {
    if price.Some? {
      Fixed2TextTidy(price.value);
      TrimCell(Fixed2Text(price.value));
      ParseFixed2Text(price.value);
    }
  }

  /** A quantity that fits an `i32` reads back. */
  lemma QuantityCellReadBack(u: UpdateRow, quantity: Option<int>, rowNum: nat)
    requires quantity.Some? ==> I32_MIN <= quantity.value <= I32_MAX
    ensures ReadCell(u, "quantity", if quantity.Some? then IntText(quantity.value) else "", rowNum)
            == Ok(if quantity.Some? then u.(quantity := quantity) else u)
  {
    if quantity.Some? {
      IntTextTidy(quantity.value);
      TrimCell(IntText(quantity.value));
      ParseIntText(quantity.value, I32_MIN, I32_MAX);
    }
  }

  /** The price a written row reads back with. */
  function ReadBackPrice(u: UpdateRow): Option<real> {
    if u.price.Some? then Some(RoundCents(u.price.value)) else None
  }

  /** What reading the first `k` cells of `RecordOf(u)` has gathered. */
  function Partial(u: UpdateRow, k: nat): UpdateRow {
    UpdateRow(
      if k >= 1 then u.id else 0,
      if k >= 2 then u.title else None,
      if k >= 3 then ReadBackPrice(u) else None,
      if k >= 4 then u.quantity else None,
      if k >= 5 then u.condition else None,
      if k >= 6 then u.category else None,
      if k >= 7 then u.brand else None,
      if k >= 8 then u.upc else None)
  }

  /** A row that can be written and read back: a nonzero `i64` id, an
      `i32` quantity, tidy texts. */
  predicate Writable(u: UpdateRow) {
    && u.id != 0 && I64_MIN <= u.id <= I64_MAX
    && (u.quantity.Some? ==> I32_MIN <= u.quantity.value <= I32_MAX)
    && (u.title.Some? ==> Tidy(u.title.value))
    && (u.condition.Some? ==> Tidy(u.condition.value))
    && (u.category.Some? ==> Tidy(u.category.value))
    && (u.brand.Some? ==> Tidy(u.brand.value))
    && (u.upc.Some? ==> Tidy(u.upc.value))
  }

  /** The id cell of a written row reads back. */
  lemma IdColumnReadsBack(u: UpdateRow, rowNum: nat)
    requires Writable(u)
    ensures ReadCell(Partial(u, 0), UPDATE_HEADERS[0], RecordOf(u)[0], rowNum) == Ok(Partial(u, 1))
  {
    assert UPDATE_HEADERS[0] == "id" && RecordOf(u)[0] == IntText(u.id);
    IdCellReadBack(Partial(u, 0), u.id, rowNum);
    assert Partial(u, 1) == Partial(u, 0).(id := u.id);
  }

  /** The price cell of a written row reads back, rounded to cents. */
  lemma PriceColumnReadsBack(u: UpdateRow, rowNum: nat)
    ensures ReadCell(Partial(u, 2), UPDATE_HEADERS[2], RecordOf(u)[2], rowNum) == Ok(Partial(u, 3))
  {
    var p := Partial(u, 2);
    assert UPDATE_HEADERS[2] == "price" && RecordOf(u)[2] == if u.price.Some? then Fixed2Text(u.price.value) else "";
    PriceCellReadBack(p, u.price, rowNum);
    assert Partial(u, 3) == p.(price := if u.price.Some? then Some(RoundCents(u.price.value)) else p.price);
  }

  /** The quantity cell of a written row reads back. */
  lemma QuantityColumnReadsBack(u: UpdateRow, rowNum: nat)
    requires Writable(u)
    ensures ReadCell(Partial(u, 3), UPDATE_HEADERS[3], RecordOf(u)[3], rowNum) == Ok(Partial(u, 4))
  {
    var p := Partial(u, 3);
    assert UPDATE_HEADERS[3] == "quantity" && RecordOf(u)[3] == if u.quantity.Some? then IntText(u.quantity.value) else "";
    QuantityCellReadBack(p, u.quantity, rowNum);
    assert Partial(u, 4) == if u.quantity.Some? then p.(quantity := u.quantity) else p;
  }

  /** The title cell of a written row reads back. */
  lemma TitleColumnReadsBack(u: UpdateRow, rowNum: nat)
    requires Writable(u)
    ensures ReadCell(Partial(u, 1), UPDATE_HEADERS[1], RecordOf(u)[1], rowNum) == Ok(Partial(u, 2))
  {
    var p := Partial(u, 1);
    var c := u.title.GetOr("");
    assert UPDATE_HEADERS[1] == "title" && RecordOf(u)[1] == c;
    TextCellReadBack(p, "title", u.title, rowNum);
    assert Partial(u, 2) == if u.title.None? then p else p.(title := u.title);
  }

  /** The condition, category, brand and UPC cells of a written row read back. */
  lemma TextColumnReadsBack(u: UpdateRow, k: nat, rowNum: nat)
    requires Writable(u) && 4 <= k < |UPDATE_HEADERS|
    ensures ReadCell(Partial(u, k), UPDATE_HEADERS[k], RecordOf(u)[k], rowNum) == Ok(Partial(u, k + 1))
  {
    var p := Partial(u, k);
    if k == 4 {
      assert UPDATE_HEADERS[4] == "condition" && RecordOf(u)[4] == u.condition.GetOr("");
      TextCellReadBack(p, "condition", u.condition, rowNum);
      assert Partial(u, 5) == if u.condition.None? then p else p.(condition := u.condition);
    } else if k == 5 {
      assert UPDATE_HEADERS[5] == "category" && RecordOf(u)[5] == u.category.GetOr("");
      TextCellReadBack(p, "category", u.category, rowNum);
      assert Partial(u, 6) == if u.category.None? then p else p.(category := u.category);
    } else if k == 6 {
      assert UPDATE_HEADERS[6] == "brand" && RecordOf(u)[6] == u.brand.GetOr("");
      TextCellReadBack(p, "brand", u.brand, rowNum);
      assert Partial(u, 7) == if u.brand.None? then p else p.(brand := u.brand);
    } else {
      assert k == 7;
      assert UPDATE_HEADERS[7] == "upc" && RecordOf(u)[7] == u.upc.GetOr("");
      TextCellReadBack(p, "upc", u.upc, rowNum);
      assert Partial(u, 8) == if u.upc.None? then p else p.(upc := u.upc);
    }
  }

  /** Cell `k` of a written row reads back into its column. */
  lemma CellReadsBack(u: UpdateRow, k: nat, rowNum: nat)
    requires Writable(u) && k < |UPDATE_HEADERS|
    ensures ReadCell(Partial(u, k), UPDATE_HEADERS[k], RecordOf(u)[k], rowNum) == Ok(Partial(u, k + 1))
  {
    if k == 0 {
      IdColumnReadsBack(u, rowNum);
    } else if k == 1 {
      TitleColumnReadsBack(u, rowNum);
    } else if k == 2 {
      PriceColumnReadsBack(u, rowNum);
    } else if k == 3 {
      QuantityColumnReadsBack(u, rowNum);
    } else {
      TextColumnReadsBack(u, k, rowNum);
    }
  }

  /** Reading runs through a chain of rows when each cell takes one link
      of the chain to the next. */
  lemma {:induction false} ReadsAlong(chain: seq<UpdateRow>, headers: seq<string>, cells: seq<string>,
                                      k: nat, read: CellReader)
    requires k <= |cells| <= |headers| && |chain| == |cells| + 1
    requires forall j :: k <= j < |cells| ==> read(chain[j], headers[j], cells[j]) == Ok(chain[j + 1])
    ensures ReadCells(chain[k], headers, cells, k, read) == Ok(chain[|cells|])
    decreases |cells| - k
  {
    if k < |cells| {
      ReadsAlong(chain, headers, cells, k + 1, read);
    }
  }

  /** Round trip: a row written under `UPDATE_HEADERS` reads back as the
      same row, with the price rounded to cents. */
  lemma FromRecordRoundTrip(u: UpdateRow, rowNum: nat)
    requires Writable(u)
    ensures FromRecord(RecordOf(u), UPDATE_HEADERS, rowNum) == Ok(u.(price := ReadBackPrice(u)))
  {
    var chain := seq(|UPDATE_HEADERS| + 1, (j: int) requires 0 <= j => Partial(u, j));
    var cells := RecordOf(u);
    forall j | 0 <= j < |cells|
      ensures CellsOfRow(rowNum)(chain[j], UPDATE_HEADERS[j], cells[j]) == Ok(chain[j + 1])
    {
      CellReadsBack(u, j, rowNum);
    }
    ReadsAlong(chain, UPDATE_HEADERS, cells, 0, CellsOfRow(rowNum));
    assert chain[0] == NOTHING_SUPPLIED;
    assert chain[|cells|] == u.(price := ReadBackPrice(u));
  }

  // ---------------------------------------------------------------------
  // The values a row is checked with
  // ---------------------------------------------------------------------

  /** The seven values the eBay bundle checks; brand and UPC are optional. */
  datatype Values = Values(
    title: string,
    price: real,
    quantity: int,
    category: string,
    condition: string,
    brand: Option<string>,
    upc: Option<string>)

  /** The eBay rules on a set of values. */
  predicate ValuesOk(v: Values) {
    && TitleOk(v.title) && PriceOk(v.price) && QuantityOk(v.quantity)
    && CategoryOk(v.category) && ConditionOk(v.condition)
    && (v.brand.Some? ==> BrandOk(v.brand.value))
    && (v.upc.Some? ==> IsBlank(v.upc.value) || UpcDigitsOk(v.upc.value))
  }

  function CheckValues(v: Values): (r: seq<ValidationError>)
    ensures IsValid(r) <==> ValuesOk(v)
  {
    ValidateItemEbay(v.title, v.price, v.quantity, v.category, v.condition, v.brand, v.upc)
  }

  /** The stored values as `update_from_csv` reads them back from the
      looked-up row: price and quantity parsed from their text (0 when they
      do not parse), an empty brand or UPC as absent. */
  function Existing(view: ItemView): Values {
    Values(view.title, ParseDecimal(view.price).GetOr(0.0), ParseI32(view.quantity).GetOr(0),
           view.category, view.condition, Import.Given(view.brand), Import.Given(view.upc))
  }

  /** The read-back values are the stored row's, with the price rounded to
      cents and a NULL or empty brand or UPC absent. */
  lemma ExistingIsStoredRow(s: Store, id: int)
    requires id in s.rows && I32_MIN <= s.rows[id].item.quantity <= I32_MAX
    ensures var e := Existing(GetItemById(s, id).value);
            var it := s.rows[id].item;
            && e.title == it.title && e.price == RoundCents(it.price) && e.quantity == it.quantity
            && e.category == it.category && e.condition == it.condition
            && (e.brand.None? <==> it.brand.None? || it.brand == Some("")) && (e.brand.Some? ==> e.brand == it.brand)
            && (e.upc.None? <==> it.upc.None? || it.upc == Some("")) && (e.upc.Some? ==> e.upc == it.upc)
  {
    ViewReadBack(s, id);
  }

  /** The supplied columns of `u` over the values of `base`. */
  function Overlay(u: UpdateRow, base: Values): (v: Values)
    ensures u.title.Some? ==> v.title == u.title.value
    ensures u.price.Some? ==> v.price == u.price.value
    ensures u.quantity.Some? ==> v.quantity == u.quantity.value
    ensures u.category.Some? ==> v.category == u.category.value
    ensures u.condition.Some? ==> v.condition == u.condition.value
    ensures u.brand.Some? ==> v.brand == u.brand
    ensures u.upc.Some? ==> v.upc == u.upc
  {
    Values(u.title.GetOr(base.title), u.price.GetOr(base.price), u.quantity.GetOr(base.quantity),
           u.category.GetOr(base.category), u.condition.GetOr(base.condition),
           u.brand.Or(base.brand), u.upc.Or(base.upc))
  }

  /** The columns `update_item` is asked to set: exactly the supplied ones. */
  function PatchOf(u: UpdateRow): Patch {
    Patch(u.title, u.price, u.quantity, u.category, u.condition, u.brand, u.upc)
  }

  /** Whatever the fallback values, supplied columns that pass the check
      keep a valid row within the table's constraints: the write that
      follows a passed check cannot fail. */
  lemma CheckedPatchFits(s: Store, u: UpdateRow, base: Values, now: string)
    ensures Valid(s) && u.id in s.rows && ValuesOk(Overlay(u, base)) ==> RowOk(ApplyPatch(s.rows[u.id], PatchOf(u), now))
  {
    if Valid(s) && u.id in s.rows {
      assert RowOk(s.rows[u.id]);
    }
  }

  // ---------------------------------------------------------------------
  // Corrections of a CSV row
  // ---------------------------------------------------------------------

  /** The errors about columns the row supplies, in order. */
  function ProvidedErrors(u: UpdateRow, errors: seq<ValidationError>): (r: seq<ValidationError>)
    ensures |r| <= |errors|
    ensures forall i :: 0 <= i < |r| ==> IsFieldProvided(u, r[i].field)
    decreases |errors|
  {
    if |errors| == 0 then []
    else (if IsFieldProvided(u, errors[0].field) then [errors[0]] else []) + ProvidedErrors(u, errors[1..])
  }

  /** Rows that supply the same columns keep the same errors. */
  lemma {:induction false} ProvidedErrorsSame(u: UpdateRow, v: UpdateRow, errors: seq<ValidationError>)
    requires SameProvided(u, v)
    ensures ProvidedErrors(u, errors) == ProvidedErrors(v, errors)
    decreases |errors|
  {
    if |errors| > 0 {
      ProvidedErrorsSame(u, v, errors[1..]);
      assert IsFieldProvided(u, errors[0].field) == IsFieldProvided(v, errors[0].field);
    }
  }

  const INVALID_PRICE_FORMAT := "Invalid price format"
  const INVALID_QUANTITY_FORMAT := "Invalid quantity format"

  /** A non-blank answer for field `f` applied to the row; a price or
      quantity that does not parse leaves the row as it was. */
  function Amend(u: UpdateRow, f: Field, answer: string): (r: UpdateRow)
    ensures r.id == u.id
    ensures IsFieldProvided(u, f) ==> SameProvided(u, r)
    ensures f == Price && ParseDecimal(answer).None? ==> r == u
    ensures f == Quantity && ParseI32(answer).None? ==> r == u
  {
    match f
    case Title => u.(title := Some(answer))
    case Price => if ParseDecimal(answer).Some? then u.(price := ParseDecimal(answer)) else u
    case Quantity => if ParseI32(answer).Some? then u.(quantity := ParseI32(answer)) else u
    case Condition => u.(condition := Some(answer))
    case Category => u.(category := Some(answer))
    case Brand => u.(brand := Some(answer))
    case Upc => u.(upc := Some(answer))
    case _ => u
  }

  /** The ledger entry for an answer that is not a number where one is
      needed: numbered with the row and carrying the answer. */
  function FormatError(f: Field, answer: string, rowNum: nat): (r: seq<ValidationError>)
    ensures |r| <= 1
    ensures |r| == 1 <==> (f == Price && ParseDecimal(answer).None?) || (f == Quantity && ParseI32(answer).None?)
    ensures |r| == 1 ==> r[0].field == f && r[0].row == Some(rowNum) && r[0].value == Some(answer)
  {
    if f == Price && ParseDecimal(answer).None? then
      [ValidationError(Price, INVALID_PRICE_FORMAT, Some(rowNum), Some(answer))]
    else if f == Quantity && ParseI32(answer).None? then
      [ValidationError(Quantity, INVALID_QUANTITY_FORMAT, Some(rowNum), Some(answer))]
    else []
  }

  /** The corrected row, the ledger entries the prompts added, and the
      script position after them. */
  datatype Prompted = Prompted(row: UpdateRow, failed: seq<ValidationError>, next: nat)

  /** One prompt per error on a supplied column, in order: a blank answer
      puts the error in the ledger and goes on; any other answer is
      applied (or logged when it is not a number where one is needed). */
  function Prompt(u: UpdateRow, errors: seq<ValidationError>, answers: seq<string>, pos: nat, rowNum: nat)
    : (r: Prompted)
    ensures r.next == pos + |ProvidedErrors(u, errors)|
    ensures r.row.id == u.id && SameProvided(u, r.row)
    decreases |errors|
  {
    if |errors| == 0 then Prompted(u, [], pos)
    else if !IsFieldProvided(u, errors[0].field) then Prompt(u, errors[1..], answers, pos, rowNum)
    else
      var f := errors[0].field;
      var step := match Import.NextAnswer(answers, pos)
        case None => Prompted(u, [errors[0]], pos + 1)
        case Some(a) => Prompted(Amend(u, f, a), FormatError(f, a, rowNum), pos + 1);
      ProvidedErrorsSame(u, step.row, errors[1..]);
      var rest := Prompt(step.row, errors[1..], answers, pos + 1, rowNum);
      Prompted(rest.row, step.failed + rest.failed, rest.next)
  }

  /** Skipping every prompt changes nothing and leaves exactly the errors
      that non-interactive mode leaves. */
  lemma {:induction false} PromptAllBlank(u: UpdateRow, errors: seq<ValidationError>, answers: seq<string>,
                                          pos: nat, rowNum: nat)
    requires forall k :: pos <= k < pos + |ProvidedErrors(u, errors)| ==> Import.BlankAnswer(answers, k)
    ensures Prompt(u, errors, answers, pos, rowNum)
            == Prompted(u, ProvidedErrors(u, errors), pos + |ProvidedErrors(u, errors)|)
    decreases |errors|
  {
    if |errors| > 0 {
      if IsFieldProvided(u, errors[0].field) {
        assert Import.BlankAnswer(answers, pos);
        PromptAllBlank(u, errors[1..], answers, pos + 1, rowNum);
      } else {
        PromptAllBlank(u, errors[1..], answers, pos, rowNum);
      }
    }
  }

  // ---------------------------------------------------------------------
  // One CSV row
  // ---------------------------------------------------------------------

  const ITEM_NOT_FOUND := "Item not found"

  /** The ledger entry for an id with no stored item. */
  function NotFound(id: int, rowNum: nat): ValidationError {
    ValidationError(Id, ITEM_NOT_FOUND, Some(rowNum), Some(IntText(id)))
  }

  /** The outcome of one row: the table after it, the ledger entries it
      added, the script position, and the error that stops the command
      (only an `update_item` failure). */
  datatype Step = Step(store: Store, failed: seq<ValidationError>, pos: nat, abort: Option<string>)

  /** `update_item` with the row's supplied columns; its error stops the command. */
  function Write(store: Store, u: UpdateRow, now: string, failed: seq<ValidationError>, pos: nat): (r: Step)
    ensures r.failed == failed && r.pos == pos
    ensures r.store.rows.Keys == store.rows.Keys && r.store.nextId == store.nextId
    ensures r.abort.None? <==> UpdateItem(store, u.id, PatchOf(u), now).Ok?
    ensures r.abort.None? ==> r.store == UpdateItem(store, u.id, PatchOf(u), now).value
    ensures r.abort.Some? ==> r.store == store
    ensures Valid(store) && r.abort.None? ==> Valid(r.store)
  {
    match UpdateItem(store, u.id, PatchOf(u), now)
    case Ok(s) => Step(s, failed, pos, None)
    case Err(e) => Step(store, failed, pos, Some(e))
  }

  /** The body of the `update_from_csv` loop for a row read without error. */
  function UpdateCsvRow(store: Store, u: UpdateRow, rowNum: nat, nonInteractive: bool,
                        answers: seq<string>, pos: nat, now: string): (r: Step)
    ensures r.pos >= pos && (nonInteractive ==> r.pos == pos)
    ensures r.store.rows.Keys == store.rows.Keys && r.store.nextId == store.nextId
    ensures Valid(store) ==> Valid(r.store) && r.abort.None?
  {
    match GetItemById(store, u.id)
    case None => Step(store, [NotFound(u.id, rowNum)], pos, None)
    case Some(view) =>
      var base := Overlay(u, Existing(view));
      if ValuesOk(base) then
        CheckedPatchFits(store, u, Existing(view), now);
        Write(store, u, now, [], pos)
      else if nonInteractive then Step(store, ProvidedErrors(u, CheckValues(base)), pos, None)
      else
        var c := Prompt(u, CheckValues(base), answers, pos, rowNum);
        var again := Overlay(c.row, base);
        if !ValuesOk(again) then Step(store, c.failed + CheckValues(again), c.next, None)
        else
          CheckedPatchFits(store, c.row, base, now);
          Write(store, c.row, now, c.failed, c.next)
  }

  /** An id with no stored item is logged with the row number and the id,
      and nothing else happens. */
  lemma RowNotFound(store: Store, u: UpdateRow, rowNum: nat, nonInteractive: bool,
                    answers: seq<string>, pos: nat, now: string)
    requires u.id !in store.rows
    ensures UpdateCsvRow(store, u, rowNum, nonInteractive, answers, pos, now)
            == Step(store, [ValidationError(Id, ITEM_NOT_FOUND, Some(rowNum), Some(IntText(u.id)))], pos, None)
  {
  }

  /** Without a terminal nothing is asked: a row is written iff its
      supplied columns over the stored values pass the check, and
      otherwise only the errors about supplied columns are logged. */
  lemma RowNonInteractive(store: Store, u: UpdateRow, rowNum: nat, answers: seq<string>, pos: nat, now: string)
    requires Valid(store) && u.id in store.rows
    ensures var r := UpdateCsvRow(store, u, rowNum, true, answers, pos, now);
            var base := Overlay(u, Existing(GetItemById(store, u.id).value));
            && r.pos == pos && r.abort.None?
            && (ValuesOk(base) ==> r.store == UpdateItem(store, u.id, PatchOf(u), now).value && r.failed == [])
            && (!ValuesOk(base) ==> r.store == store && r.failed == ProvidedErrors(u, CheckValues(base)))
  {
  }

  /** With a terminal, a failing row is written iff its corrected columns
      pass the one re-check, and then exactly those columns are set. */
  lemma RowInteractive(store: Store, u: UpdateRow, rowNum: nat, answers: seq<string>, pos: nat, now: string)
    requires Valid(store) && u.id in store.rows
    ensures var r := UpdateCsvRow(store, u, rowNum, false, answers, pos, now);
            var base := Overlay(u, Existing(GetItemById(store, u.id).value));
            var c := Prompt(u, CheckValues(base), answers, pos, rowNum);
            !ValuesOk(base) ==>
              && r.pos == c.next && r.abort.None?
              && (ValuesOk(Overlay(c.row, base)) ==> r.store == UpdateItem(store, u.id, PatchOf(c.row), now).value)
              && (!ValuesOk(Overlay(c.row, base)) ==> r.store == store)
  {
  }

  // ---------------------------------------------------------------------
  // The CSV batch
  // ---------------------------------------------------------------------

  /** The loop state: table, ledger, script position, records read, and
      the error that stopped the loop, if any. */
  datatype CsvRun = CsvRun(store: Store, failed: seq<ValidationError>, pos: nat, rowsRead: nat, abort: Option<string>)

  /** A record as the loop reads it: the reader's error for a malformed
      record, otherwise what `from_record` makes of its cells. */
  function ReadRecord(headers: seq<string>, row: Import.CsvRow, rowNum: nat): (r: Result<UpdateRow>)
    ensures row.Malformed? ==> r == Err(row.message)
    ensures row.Parsed? ==> r == FromRecord(row.cells, headers, rowNum)
  {
    match row
    case Malformed(msg) => Err(msg)
    case Parsed(cells) => FromRecord(cells, headers, rowNum)
  }

  /** A record the loop can take without stopping. */
  predicate Readable(headers: seq<string>, row: Import.CsvRow, rowNum: nat) {
    ReadRecord(headers, row, rowNum).Ok?
  }

  /** One iteration of the `update_from_csv` loop over CSV row `rowNum`:
      the record is counted, then read; a reader error, a `from_record`
      error or a failed write stops the loop. */
  function UpdateRecord(st: CsvRun, headers: seq<string>, row: Import.CsvRow, rowNum: nat,
                        nonInteractive: bool, answers: seq<string>, now: string): (next: CsvRun)
    ensures next.rowsRead == st.rowsRead + 1
    ensures next.store.rows.Keys == st.store.rows.Keys && next.store.nextId == st.store.nextId
    ensures Valid(st.store) ==> Valid(next.store)
    ensures nonInteractive ==> next.pos == st.pos
    ensures Readable(headers, row, rowNum) && Valid(st.store) ==> next.abort.None?
    ensures row.Malformed? ==> next.abort == Some(row.message) && next.store == st.store
    ensures row.Parsed? && FromRecord(row.cells, headers, rowNum).Err? ==>
              next.abort == Some(FromRecord(row.cells, headers, rowNum).error) && next.store == st.store
  {
    var read := st.(rowsRead := st.rowsRead + 1);
    match ReadRecord(headers, row, rowNum)
    case Err(e) => read.(abort := Some(e))
    case Ok(u) =>
      var s := UpdateCsvRow(st.store, u, rowNum, nonInteractive, answers, st.pos, now);
      read.(store := s.store, failed := st.failed + s.failed, pos := s.pos, abort := s.abort)
  }

  /** The loop from record `i` on; record `i` is CSV row `i + 2` (the
      header is row 1). It ends at the first stop; the writes before it
      stay. */
  function UpdateFrom(st: CsvRun, headers: seq<string>, rows: seq<Import.CsvRow>, i: nat,
                      nonInteractive: bool, answers: seq<string>, now: string): (r: CsvRun)
    requires i <= |rows|
    ensures r.store.rows.Keys == st.store.rows.Keys && r.store.nextId == st.store.nextId
    ensures Valid(st.store) ==> Valid(r.store)
    ensures r.rowsRead <= st.rowsRead + (|rows| - i)
    decreases |rows| - i
  {
    if i == |rows| || st.abort.Some? then st
    else UpdateFrom(UpdateRecord(st, headers, rows[i], i + 2, nonInteractive, answers, now),
                    headers, rows, i + 1, nonInteractive, answers, now)
  }

  /** On a valid table, a file whose every record reads is taken to the
      end: every record counted, no stop. */
  lemma {:induction false} UpdateFromReadsAll(st: CsvRun, headers: seq<string>, rows: seq<Import.CsvRow>, i: nat,
                                              nonInteractive: bool, answers: seq<string>, now: string)
    requires i <= |rows| && Valid(st.store) && st.abort.None?
    requires forall k :: i <= k < |rows| ==> Readable(headers, rows[k], k + 2)
    ensures var end := UpdateFrom(st, headers, rows, i, nonInteractive, answers, now);
            end.abort.None? && end.rowsRead == st.rowsRead + (|rows| - i)
    decreases |rows| - i
  {
    if i < |rows| {
      assert Readable(headers, rows[i], i + 2);
      var next := UpdateRecord(st, headers, rows[i], i + 2, nonInteractive, answers, now);
      UpdateFromReadsAll(next, headers, rows, i + 1, nonInteractive, answers, now);
    }
  }

  /** On a valid table the loop runs up to the first record that cannot be
      read, counts it, and stops with its error. */
  lemma {:induction false} UpdateFromStops(st: CsvRun, headers: seq<string>, rows: seq<Import.CsvRow>, i: nat, k: nat,
                                           nonInteractive: bool, answers: seq<string>, now: string)
    requires i <= k < |rows| && Valid(st.store) && st.abort.None?
    requires forall j :: i <= j < k ==> Readable(headers, rows[j], j + 2)
    requires !Readable(headers, rows[k], k + 2)
    ensures var end := UpdateFrom(st, headers, rows, i, nonInteractive, answers, now);
            end.abort == Some(ReadRecord(headers, rows[k], k + 2).error) && end.rowsRead == st.rowsRead + (k - i) + 1
    decreases k - i
  {
    var next := UpdateRecord(st, headers, rows[i], i + 2, nonInteractive, answers, now);
    assert UpdateFrom(st, headers, rows, i, nonInteractive, answers, now)
        == UpdateFrom(next, headers, rows, i + 1, nonInteractive, answers, now);
    if i == k {
      assert next.abort.Some?;
    } else {
      assert Readable(headers, rows[i], i + 2);
      UpdateFromStops(next, headers, rows, i + 1, k, nonInteractive, answers, now);
    }
  }

  /** `update_from_csv` on a valid table: a malformed record, or one
      `from_record` refuses, ends the command with that error after the
      records before it, and no ledger is saved. */
  lemma MalformedRecordAborts(file: string, headers: seq<string>, rows: seq<Import.CsvRow>, k: nat,
                              nonInteractive: bool, answers: seq<string>, store: Store, now: string)
    requires k < |rows| && Valid(store)
    requires forall j :: 0 <= j < k ==> Readable(headers, rows[j], j + 2)
    requires !Readable(headers, rows[k], k + 2)
    ensures var r := UpdateFromCsv(file, true, headers, rows, nonInteractive, answers, store, now);
            r.error == Some(ReadRecord(headers, rows[k], k + 2).error) && r.saved.None? && r.rowsRead == k + 1
  {
    UpdateFromStops(CsvRun(store, [], 0, 0, None), headers, rows, 0, k, nonInteractive, answers, now);
  }

  /** Without a terminal the script is never read. */
  lemma {:induction false} NonInteractiveReadsNoAnswers(st: CsvRun, headers: seq<string>, rows: seq<Import.CsvRow>,
                                                        i: nat, answers: seq<string>, now: string)
    requires i <= |rows|
    ensures UpdateFrom(st, headers, rows, i, true, answers, now).pos == st.pos
    decreases |rows| - i
  {
    if i < |rows| && st.abort.None? {
      var next := UpdateRecord(st, headers, rows[i], i + 2, true, answers, now);
      NonInteractiveReadsNoAnswers(next, headers, rows, i + 1, answers, now);
    }
  }

  /** The outcome of a command: the table afterwards (writes made before
      an error stay), the ledger as saved, the number of records read, and
      the error the command returns. */
  datatype Outcome = Outcome(store: Store, saved: Option<seq<ValidationError>>, rowsRead: nat, error: Option<string>)

  const FILE_NOT_FOUND := "File not found: "

  /** `update_from_csv`: a missing file is an error before anything is
      read; otherwise the records are taken in order and a non-empty
      ledger is saved, unless the loop stopped with an error. */
  function UpdateFromCsv(file: string, found: bool, headers: seq<string>, rows: seq<Import.CsvRow>,
                         nonInteractive: bool, answers: seq<string>, store: Store, now: string): (r: Outcome)
    ensures !found ==> r == Outcome(store, None, 0, Some(FILE_NOT_FOUND + file))
    ensures r.error.Some? ==> r.saved.None?
    ensures r.saved.Some? ==> |r.saved.value| > 0
    ensures r.store.rows.Keys == store.rows.Keys && r.rowsRead <= |rows|
    ensures Valid(store) ==> Valid(r.store)
  {
    if !found then Outcome(store, None, 0, Some(FILE_NOT_FOUND + file))
    else
      var run := UpdateFrom(CsvRun(store, [], 0, 0, None), headers, rows, 0, nonInteractive, answers, now);
      if run.abort.Some? then Outcome(run.store, None, run.rowsRead, run.abort)
      else Outcome(run.store, if |run.failed| == 0 then None else Some(run.failed), run.rowsRead, None)
  }

  // ---------------------------------------------------------------------
  // Retrying a ledger
  // ---------------------------------------------------------------------

  const INVALID_ID_FORMAT := "Invalid ID format"

  /** `f64::MAX`, the price a retry checks when none was entered. It is
      the decimal value the program prints for it, 17976931348623157
      followed by 292 zeros, so a ledger entry about it carries that text. */
  const F64_MAX: real := 179769313486231570000000000000000000000000000000000000000000000000000000000000000000000000000000000000000000000000000000000000000000000000000000000000000000000000000000000000000000000000000000000000000000000000000000000000000000000000000000000000000000000000000000000000000000000000000000000000000000000000000.0

  /** The row a ledger entry is retried for: the id is its value read as
      an integer (0 when absent or not a number); no column supplied. */
  function RetryRow(e: ValidationError): (u: UpdateRow)
    ensures u.id == ParseI64(e.value.GetOr("0")).GetOr(0)
    ensures SameProvided(u, NOTHING_SUPPLIED)
  {
    NOTHING_SUPPLIED.(id := ParseI64(e.value.GetOr("0")).GetOr(0))
  }

  /** What one answer to a retry prompt leads to. */
  datatype Answer = Fixed(row: UpdateRow) | Refused(entry: ValidationError) | Ignored

  /** The answer for the entry's field: the id, a column, a number that
      does not parse (logged), or a field a retry cannot set (dropped). */
  function RetryAnswer(e: ValidationError, answer: string, rowNum: nat): (r: Answer)
    ensures r.Fixed? ==> r.row.title.None? || r.row.category.None?
    ensures r.Ignored? <==> e.field !in {Id, Title, Price, Quantity, Condition, Category, Brand, Upc}
  {
    var u := RetryRow(e);
    match e.field
    case Id =>
      if ParseI64(answer).Some? then Fixed(u.(id := ParseI64(answer).value))
      else Refused(ValidationError(Id, INVALID_ID_FORMAT, Some(rowNum), Some(answer)))
    case Title => Fixed(u.(title := Some(answer)))
    case Price =>
      if ParseDecimal(answer).Some? then Fixed(u.(price := ParseDecimal(answer)))
      else Refused(ValidationError(Price, INVALID_PRICE_FORMAT, Some(rowNum), Some(answer)))
    case Quantity =>
      if ParseI32(answer).Some? then Fixed(u.(quantity := ParseI32(answer)))
      else Refused(ValidationError(Quantity, INVALID_QUANTITY_FORMAT, Some(rowNum), Some(answer)))
    case Condition => Fixed(u.(condition := Some(answer)))
    case Category => Fixed(u.(category := Some(answer)))
    case Brand => Fixed(u.(brand := Some(answer)))
    case Upc => Fixed(u.(upc := Some(answer)))
    case _ => Ignored
  }

  /** What a retried row is checked against in the columns it does not
      supply: the defaults `update_from_retry` uses (empty texts, the
      largest `f64` and `i32`), or the stored row as `update_from_csv`
      does. */
  datatype Fallback = Defaults | Stored

  function FallbackValues(fb: Fallback, view: ItemView): Values {
    match fb
    case Defaults => Values("", F64_MAX, I32_MAX, "", "", None, None)
    case Stored => Existing(view)
  }

  /** A retried row with its answer applied: looked up, checked against
      the fallback values, and written when the check passes. */
  function CheckRetried(store: Store, u: UpdateRow, fb: Fallback, rowNum: nat, now: string, pos: nat): (r: Step)
    ensures r.pos == pos && r.store.rows.Keys == store.rows.Keys && r.store.nextId == store.nextId
    ensures Valid(store) ==> Valid(r.store) && r.abort.None?
    ensures fb == Defaults && (u.title.None? || u.category.None?) ==> r.store == store
  {
    match GetItemById(store, u.id)
    case None => Step(store, [NotFound(u.id, rowNum)], pos, None)
    case Some(view) =>
      var v := Overlay(u, FallbackValues(fb, view));
      if !ValuesOk(v) then Step(store, CheckValues(v), pos, None)
      else
        CheckedPatchFits(store, u, FallbackValues(fb, view), now);
        Write(store, u, now, [], pos)
  }

  /** The body of the `update_from_retry` loop for one ledger entry. With
      the defaults as fallback the table is never changed: a retried row
      supplies one column, so the title or the category is checked as
      empty. */
  function RetryOne(store: Store, e: ValidationError, fb: Fallback, nonInteractive: bool,
                    answers: seq<string>, pos: nat, now: string): (r: Step)
    ensures r.pos == if nonInteractive then pos else pos + 1
    ensures r.store.rows.Keys == store.rows.Keys && r.store.nextId == store.nextId
    ensures Valid(store) ==> Valid(r.store) && r.abort.None?
    ensures nonInteractive || Import.BlankAnswer(answers, pos) ==> r == Step(store, [e], r.pos, None)
    ensures fb == Defaults ==> r.store == store
  {
    var rowNum := e.row.GetOr(0);
    if nonInteractive then Step(store, [e], pos, None)
    else
      match Import.NextAnswer(answers, pos)
      case None => Step(store, [e], pos + 1, None)
      case Some(a) =>
        match RetryAnswer(e, a, rowNum)
        case Ignored => Step(store, [], pos + 1, None)
        case Refused(entry) => Step(store, [entry], pos + 1, None)
        case Fixed(u) => CheckRetried(store, u, fb, rowNum, now, pos + 1)
  }

  /** Checked against the stored row, a retry answer whose column passes
      is written, and only that column changes. */
  lemma RetryWithStoredWritesPassingAnswer(store: Store, e: ValidationError, answers: seq<string>,
                                           pos: nat, now: string)
    requires Valid(store) && !Import.BlankAnswer(answers, pos)
    ensures var a := Import.NextAnswer(answers, pos).value;
            var ans := RetryAnswer(e, a, e.row.GetOr(0));
            ans.Fixed? && ans.row.id in store.rows
            && ValuesOk(Overlay(ans.row, Existing(GetItemById(store, ans.row.id).value)))
            ==> RetryOne(store, e, Stored, false, answers, pos, now).store
                == UpdateItem(store, ans.row.id, PatchOf(ans.row), now).value
  {
  }

  /** How one ledger entry is retried: from the table, the entry and the
      answers read so far to the next step. */
  type Retrier = (Store, ValidationError, nat) -> Step

  /** `RetryOne` under fixed settings. */
  function RetryWith(fb: Fallback, nonInteractive: bool, answers: seq<string>, now: string): Retrier {
    (store: Store, e: ValidationError, pos: nat) => RetryOne(store, e, fb, nonInteractive, answers, pos, now)
  }

  /** The retry loop over the ledger from entry `i`. */
  function RetryFrom(st: Step, entries: seq<ValidationError>, i: nat, one: Retrier): (r: Step)
    requires i <= |entries|
    decreases |entries| - i
  {
    if i == |entries| || st.abort.Some? then st
    else
      var s := one(st.store, entries[i], st.pos);
      RetryFrom(Step(s.store, st.failed + s.failed, s.pos, s.abort), entries, i + 1, one)
  }

  /** A step that keeps the ids of the table and its validity. */
  ghost predicate KeepsKeys(one: Retrier) {
    forall store: Store, e: ValidationError, pos: nat :: && one(store, e, pos).store.rows.Keys == store.rows.Keys
                            && (Valid(store) ==> Valid(one(store, e, pos).store))
  }

  /** The loop keeps what every retried entry keeps: the ids of the table
      and its validity. */
  lemma {:induction false} RetryKeepsKeys(st: Step, entries: seq<ValidationError>, i: nat, one: Retrier)
    requires i <= |entries| && KeepsKeys(one)
    ensures var end := RetryFrom(st, entries, i, one);
            && end.store.rows.Keys == st.store.rows.Keys
            && (Valid(st.store) ==> Valid(end.store))
    decreases |entries| - i
  {
    if i < |entries| && st.abort.None? {
      var s := one(st.store, entries[i], st.pos);
      RetryKeepsKeys(Step(s.store, st.failed + s.failed, s.pos, s.abort), entries, i + 1, one);
    }
  }

  /** Every retried entry keeps the ids of the table and its validity. */
  lemma RetryOneKeepsKeys(fb: Fallback, nonInteractive: bool, answers: seq<string>, now: string)
    ensures KeepsKeys(RetryWith(fb, nonInteractive, answers, now))
  {
  }

  /** A loop whose every step leaves the table alone leaves it alone. */
  lemma {:induction false} RetryKeepsStore(st: Step, entries: seq<ValidationError>, i: nat, one: Retrier)
    requires i <= |entries|
    requires forall store: Store, e: ValidationError, pos: nat :: one(store, e, pos).store == store
    ensures RetryFrom(st, entries, i, one).store == st.store
    decreases |entries| - i
  {
    if i < |entries| && st.abort.None? {
      var s := one(st.store, entries[i], st.pos);
      RetryKeepsStore(Step(s.store, st.failed + s.failed, s.pos, s.abort), entries, i + 1, one);
    }
  }

  /** `update_from_retry` as written never changes the table. */
  lemma RetryWithDefaultsKeepsStore(st: Step, entries: seq<ValidationError>, i: nat,
                                    nonInteractive: bool, answers: seq<string>, now: string)
    requires i <= |entries|
    ensures RetryFrom(st, entries, i, RetryWith(Defaults, nonInteractive, answers, now)).store == st.store
  {
    RetryKeepsStore(st, entries, i, RetryWith(Defaults, nonInteractive, answers, now));
  }

  /** A loop whose every step sends its entry back unchanged sends the
      whole ledger back. */
  lemma {:induction false} RetryEchoes(st: Step, entries: seq<ValidationError>, i: nat, one: Retrier)
    requires i <= |entries| && st.abort.None?
    requires forall store: Store, e: ValidationError, pos: nat :: one(store, e, pos) == Step(store, [e], pos, None)
    ensures RetryFrom(st, entries, i, one) == Step(st.store, st.failed + entries[i..], st.pos, None)
    decreases |entries| - i
  {
    if i < |entries| {
      var next := Step(st.store, st.failed + [entries[i]], st.pos, None);
      RetryEchoes(next, entries, i + 1, one);
      assert entries[i..] == [entries[i]] + entries[i + 1..];
    }
  }

  /** Without a terminal a retry changes nothing and writes the ledger
      back as it was read. */
  lemma RetryNonInteractiveKeepsLedger(st: Step, entries: seq<ValidationError>, i: nat,
                                       fb: Fallback, answers: seq<string>, now: string)
    requires i <= |entries| && st.abort.None?
    ensures RetryFrom(st, entries, i, RetryWith(fb, true, answers, now))
            == Step(st.store, st.failed + entries[i..], st.pos, None)
  {
    RetryEchoes(st, entries, i, RetryWith(fb, true, answers, now));
  }

  /** `update_from_retry` over a ledger read from disk. */
  function UpdateFromRetry(entries: seq<ValidationError>, fb: Fallback, nonInteractive: bool,
                           answers: seq<string>, store: Store, now: string): (r: Outcome)
    ensures r.store.rows.Keys == store.rows.Keys
    ensures Valid(store) ==> Valid(r.store)
    ensures r.error.Some? ==> r.saved.None?
    ensures r.saved.Some? ==> |r.saved.value| > 0
    ensures fb == Defaults ==> r.store == store
  {
    RetryOneKeepsKeys(fb, nonInteractive, answers, now);
    RetryKeepsKeys(Step(store, [], 0, None), entries, 0, RetryWith(fb, nonInteractive, answers, now));
    RetryWithDefaultsKeepsStore(Step(store, [], 0, None), entries, 0, nonInteractive, answers, now);
    var end := RetryFrom(Step(store, [], 0, None), entries, 0, RetryWith(fb, nonInteractive, answers, now));
    if end.abort.Some? then Outcome(end.store, None, 0, end.abort)
    else Outcome(end.store, if |end.failed| == 0 then None else Some(end.failed), 0, None)
  }
}
