/** `inventory import`: check the header, then take the rows one by one.
    A row is read into a draft (a missing column reads as "", a price or
    quantity that does not parse as -1), checked with the eBay bundle, and
    either stored, skipped (non-interactive mode), or corrected through one
    prompt per error and checked once more. Skipped rows leave their errors
    in a ledger. Terminal answers are a script of input lines; the file
    system and the CSV reader are replaced by the header and the row list. */
module Import {
  import opened Wrappers
  import opened Text
  import opened Numbers
  import opened Validation
  import opened Store

  // ---------------------------------------------------------------------
  // Header
  // ---------------------------------------------------------------------

  /** The columns an import file must have, in the order they are checked. */
  const REQUIRED_FIELDS: seq<string> :=
    ["item_id", "title", "description", "price", "quantity", "upc", "category", "condition", "brand"]

  const MISSING_FIELD := "Missing required field: "

  /** The position in `required` of the first name the header lacks. */
  function FirstMissing(required: seq<string>, headers: seq<string>): (r: Option<nat>)
    ensures r.None? <==> forall i :: 0 <= i < |required| ==> required[i] in headers
    ensures r.Some? ==> r.value < |required| && required[r.value] !in headers
    ensures r.Some? ==> forall j :: 0 <= j < r.value ==> required[j] in headers
  {
    if |required| == 0 then None
    else if required[0] !in headers then Some(0)
    else
      match FirstMissing(required[1..], headers)
      case None =>
        assert forall i :: 1 <= i < |required| ==> required[i] == required[1..][i - 1];
        None
      case Some(k) => Some(k + 1)
  }

  /** `validate_headers`: every required name must occur somewhere in the
      header, in any order and among any other columns; otherwise the
      error names the first one missing. */
  function ValidateHeaders(headers: seq<string>): (r: Result<()>)
    ensures r.Ok? <==> forall f :: f in REQUIRED_FIELDS ==> f in headers
    ensures r.Err? ==> exists k :: (
      && 0 <= k < |REQUIRED_FIELDS|
      && REQUIRED_FIELDS[k] !in headers
      && (forall j :: 0 <= j < k ==> REQUIRED_FIELDS[j] in headers)
      && r.error == MISSING_FIELD + REQUIRED_FIELDS[k])
  {
    match FirstMissing(REQUIRED_FIELDS, headers)
    case None => Ok(())
    case Some(k) => Err(MISSING_FIELD + REQUIRED_FIELDS[k])
  }

  /** The check only asks which names occur: reordering the header, or
      adding and repeating columns, does not change its verdict. */
  lemma {:induction false} FirstMissingSameNames(required: seq<string>, h1: seq<string>, h2: seq<string>)
    requires forall f :: f in h1 <==> f in h2
    ensures FirstMissing(required, h1) == FirstMissing(required, h2)
    decreases |required|
  {
    if |required| > 0 {
      FirstMissingSameNames(required[1..], h1, h2);
    }
  }

  lemma HeaderCheckIgnoresOrder(h1: seq<string>, h2: seq<string>)
    requires forall f :: f in h1 <==> f in h2
    ensures ValidateHeaders(h1) == ValidateHeaders(h2)
  {
    FirstMissingSameNames(REQUIRED_FIELDS, h1, h2);
  }

  // ---------------------------------------------------------------------
  // Reading a row
  // ---------------------------------------------------------------------

  /** The first column with this name. */
  function Position(headers: seq<string>, name: string): (r: Option<nat>)
    ensures r.None? <==> name !in headers
    ensures r.Some? ==> r.value < |headers| && headers[r.value] == name
  {
    if |headers| == 0 then None
    else if headers[0] == name then Some(0)
    else
      match Position(headers[1..], name)
      case None => None
      case Some(k) => Some(k + 1)
  }

  /** The cell under the first column with this name, if the row has one. */
  function Cell(headers: seq<string>, record: seq<string>, name: string): (r: Option<string>)
    ensures r.Some? ==> name in headers
  {
    match Position(headers, name)
    case None => None
    case Some(i) => if i < |record| then Some(record[i]) else None
  }

  /** `get_field`: the cell, or "" when the column or the cell is missing. */
  function GetField(headers: seq<string>, record: seq<string>, name: string): string {
    Cell(headers, record, name).GetOr("")
  }

  /** The texts of one row, as read. */
  datatype RawRow = RawRow(
    title: string,
    description: string,
    priceText: string,
    quantityText: string,
    upc: string,
    category: string,
    condition: string,
    brand: string)

  function Extract(headers: seq<string>, record: seq<string>): RawRow {
    RawRow(
      GetField(headers, record, "title"),
      GetField(headers, record, "description"),
      GetField(headers, record, "price"),
      GetField(headers, record, "quantity"),
      GetField(headers, record, "upc"),
      GetField(headers, record, "category"),
      GetField(headers, record, "condition"),
      GetField(headers, record, "brand"))
  }

  /** The values a row is checked and stored with. */
  datatype Draft = Draft(
    title: string,
    price: real,
    quantity: int,
    category: string,
    condition: string,
    brand: string,
    upc: string)

  /** What an unparseable price or quantity is replaced with. */
  const UNPARSED_PRICE: real := -1.0
  const UNPARSED_QUANTITY: int := -1

  /** The draft before any correction: numbers parsed, or -1. */
  function FirstDraft(raw: RawRow): Draft {
    Draft(raw.title,
          ParseDecimal(raw.priceText).GetOr(UNPARSED_PRICE),
          ParseI32(raw.quantityText).GetOr(UNPARSED_QUANTITY),
          raw.category, raw.condition, raw.brand, raw.upc)
  }

  /** An empty text stands for an absent value (`is_empty`, no trimming). */
  function Given(s: string): (r: Option<string>)
    ensures r.None? <==> s == ""
    ensures r.Some? ==> r.value == s
  {
    if s == "" then None else Some(s)
  }

  /** The rules a draft must meet to be stored. */
  predicate DraftOk(d: Draft) {
    && TitleOk(d.title) && PriceOk(d.price) && QuantityOk(d.quantity)
    && CategoryOk(d.category) && ConditionOk(d.condition)
    && BrandOk(d.brand) && (IsBlank(d.upc) || UpcDigitsOk(d.upc))
  }

  /** The eBay bundle on a draft, with an empty brand or UPC left out. */
  function Check(d: Draft): (r: seq<ValidationError>)
    ensures IsValid(r) <==> DraftOk(d)
  {
    var brand := Given(d.brand);
    var upc := Given(d.upc);
    assert brand.None? ==> BrandOk(d.brand);
    assert upc.None? ==> IsBlank(d.upc);
    ValidateItemEbay(d.title, d.price, d.quantity, d.category, d.condition, brand, upc)
  }

  /** The raw text an error on field `f` is shown with; `None` for fields
      the row does not have. */
  function RawValue(raw: RawRow, f: Field): Option<string> {
    match f
    case Title => Some(raw.title)
    case Price => Some(raw.priceText)
    case Quantity => Some(raw.quantityText)
    case Category => Some(raw.category)
    case Condition => Some(raw.condition)
    case Brand => Some(raw.brand)
    case Upc => Some(raw.upc)
    case _ => None
  }

  /** The first check's errors as shown to the user: numbered with the row
      and carrying the raw text of their field. */
  function Tag(errors: seq<ValidationError>, rowNo: nat, raw: RawRow): (r: seq<ValidationError>)
    ensures |r| == |errors|
    ensures forall i :: 0 <= i < |r| ==>
      && r[i].field == errors[i].field && r[i].message == errors[i].message
      && r[i].row == Some(rowNo) && r[i].value == RawValue(raw, errors[i].field)
  {
    seq(|errors|, i requires 0 <= i < |errors| =>
      errors[i].(row := Some(rowNo), value := RawValue(raw, errors[i].field)))
  }

  // ---------------------------------------------------------------------
  // Corrections
  // ---------------------------------------------------------------------

  // The terminal is a script of input lines read from the front; `pos`
  // is the number of lines read so far. End of input reads as "".

  /** The line at `k` is white space only (blank once trimmed), or there
      is none. */
  predicate BlankAnswer(answers: seq<string>, k: nat) {
    k >= |answers| || IsBlank(answers[k])
  }

  /** `prompt_for_correction`: reads the line at `pos`; a blank line means
      "skip this row" (`None`), anything else is the trimmed answer. */
  function NextAnswer(answers: seq<string>, pos: nat): (r: Option<string>)
    ensures r.None? <==> BlankAnswer(answers, pos)
    ensures r.Some? ==> r.value == Trim(answers[pos]) && r.value != []
  {
    var line := if pos < |answers| then answers[pos] else "";
    var t := Trim(line);
    if t == [] then None else Some(t)
  }

  /** The first blank line among the `n` lines from `pos`. */
  function FirstBlank(answers: seq<string>, pos: nat, n: nat): (r: Option<nat>)
    ensures r.None? <==> forall k :: pos <= k < pos + n ==> !BlankAnswer(answers, k)
    ensures r.Some? ==> pos <= r.value < pos + n && BlankAnswer(answers, r.value)
    ensures r.Some? ==> forall j :: pos <= j < r.value ==> !BlankAnswer(answers, j)
    decreases n
  {
    if n == 0 then None
    else if BlankAnswer(answers, pos) then Some(pos)
    else FirstBlank(answers, pos + 1, n - 1)
  }

  /** The answers to `n` prompts: the lines read and the position after
      the last one, or `Skipped` at the first blank answer. */
  datatype Reading = Answered(values: seq<string>, next: nat) | Skipped(next: nat)

  /** One prompt after another; the first blank answer stops the reading. */
  function ReadAnswers(answers: seq<string>, pos: nat, n: nat): (r: Reading)
    ensures r.Answered? ==> |r.values| == n
    decreases n
  {
    if n == 0 then Answered([], pos)
    else if BlankAnswer(answers, pos) then Skipped(pos + 1)
    else
      match ReadAnswers(answers, pos + 1, n - 1)
      case Skipped(q) => Skipped(q)
      case Answered(vs, q) => Answered([answers[pos]] + vs, q)
  }

  /** The prompts stop right after the first blank answer among the next
      `n` lines; with none blank, exactly those `n` lines are read. */
  lemma {:induction false} ReadStopsAtFirstBlank(answers: seq<string>, pos: nat, n: nat)
    ensures FirstBlank(answers, pos, n).None? ==>
              && ReadAnswers(answers, pos, n).Answered?
              && ReadAnswers(answers, pos, n).next == pos + n
              && (n > 0 ==> pos + n <= |answers| && ReadAnswers(answers, pos, n).values == answers[pos..pos + n])
    ensures FirstBlank(answers, pos, n).Some? ==>
              && ReadAnswers(answers, pos, n).Skipped?
              && ReadAnswers(answers, pos, n).next == FirstBlank(answers, pos, n).value + 1
    decreases n
  {
    if n > 0 && !BlankAnswer(answers, pos) {
      ReadStopsAtFirstBlank(answers, pos + 1, n - 1);
      var v := answers[pos];
      var later := ReadAnswers(answers, pos + 1, n - 1);
      assert FirstBlank(answers, pos, n) == FirstBlank(answers, pos + 1, n - 1);
      if later.Answered? {
        assert FirstBlank(answers, pos + 1, n - 1).None?;
        assert answers[pos..pos + n] == [v] + answers[pos + 1..pos + n];
      } else {
        assert ReadAnswers(answers, pos, n) == Skipped(later.next);
      }
    }
  }

  /** One correction: a text field takes the answer; a number takes it
      when it parses and otherwise keeps its value. */
  function Apply(d: Draft, f: Field, answer: string): (r: Draft)
    ensures f == Price && ParseDecimal(answer).None? ==> r == d
    ensures f == Quantity && ParseI32(answer).None? ==> r == d
    ensures f !in {Title, Price, Quantity, Category, Condition, Brand, Upc} ==> r == d
  {
    match f
    case Title => d.(title := answer)
    case Price => d.(price := ParseDecimal(answer).GetOr(d.price))
    case Quantity => d.(quantity := ParseI32(answer).GetOr(d.quantity))
    case Category => d.(category := answer)
    case Condition => d.(condition := answer)
    case Brand => d.(brand := answer)
    case Upc => d.(upc := answer)
    case _ => d
  }

  /** The corrections in order, one per error, each answer trimmed. */
  function ApplyAll(d: Draft, errors: seq<ValidationError>, values: seq<string>): Draft
    requires |values| == |errors|
    decreases |errors|
  {
    if |errors| == 0 then d
    else ApplyAll(Apply(d, errors[0].field, Trim(values[0])), errors[1..], values[1..])
  }

  datatype Correction = Corrected(draft: Draft, next: nat) | Abandoned(next: nat)

  /** The prompts for a row, one per error, each answer applied to the
      draft; the row is abandoned at the first blank answer. The script is
      only ever read forward. */
  function Correct(d: Draft, errors: seq<ValidationError>, answers: seq<string>, pos: nat): (r: Correction)
    ensures r.next >= pos
    ensures r.Corrected? <==> FirstBlank(answers, pos, |errors|).None?
  {
    ReadStopsAtFirstBlank(answers, pos, |errors|);
    match ReadAnswers(answers, pos, |errors|)
    case Skipped(q) => Abandoned(q)
    case Answered(vs, q) => Corrected(ApplyAll(d, errors, vs), q)
  }

  // ---------------------------------------------------------------------
  // One row
  // ---------------------------------------------------------------------

  /** The store row an accepted draft becomes: empty description, brand and
      UPC are stored as NULL; the status is "active". */
  function ItemOf(d: Draft, description: string): (it: NewItem)
    ensures it.brand.None? <==> d.brand == ""
    ensures it.upc.None? <==> d.upc == ""
  {
    NewItem(d.title, Given(description), d.price, d.quantity, None, d.category, d.condition,
            Given(d.brand), Given(d.upc), None, None, None, None, None, None, None, None, None, "active")
  }

  /** A draft that passed the bundle meets every table constraint, so the
      insert after a successful check cannot fail. */
  lemma DraftOkInsertable(d: Draft, description: string, now: string)
    requires DraftOk(d)
    ensures RowOk(Record(ItemOf(d, description), now))
  {
  }

  datatype RowResult = RowResult(imported: bool, store: Store, pos: nat, shown: seq<ValidationError>)

  /** Store a checked draft; an insert error is reported as "not imported". */
  function Insert(store: Store, d: Draft, description: string, now: string, pos: nat): (r: RowResult)
    ensures r.pos == pos && r.shown == []
    ensures !r.imported ==> r.store == store
    ensures r.imported && Valid(store) ==> Valid(r.store) && |r.store.rows| == |store.rows| + 1
  {
    match InsertItem(store, ItemOf(d, description), now)
    case Ok(s) => RowResult(true, s, pos, [])
    case Err(_) => RowResult(false, store, pos, [])
  }

  /** What happens to a row once its draft has been checked: stored at
      once, skipped, or corrected and checked once more. */
  function Decide(store: Store, d: Draft, errors: seq<ValidationError>, description: string,
                  nonInteractive: bool, answers: seq<string>, pos: nat, now: string): (r: RowResult)
    ensures !r.imported ==> r.store == store
    ensures r.imported && Valid(store) ==> Valid(r.store) && |r.store.rows| == |store.rows| + 1
    ensures r.pos >= pos
  {
    if IsValid(errors) then Insert(store, d, description, now, pos)
    else if nonInteractive then RowResult(false, store, pos, [])
    else
      match Correct(d, errors, answers, pos)
      case Abandoned(q) => RowResult(false, store, q, [])
      case Corrected(d2, q) =>
        if !IsValid(Check(d2)) then RowResult(false, store, q, [])
        else Insert(store, d2, description, now, q)
  }

  /** `process_row`. Only an imported row changes the store, and it adds
      exactly one row; the script is only read forward. */
  function ProcessRow(store: Store, headers: seq<string>, record: seq<string>, rowIdx: nat,
                      nonInteractive: bool, answers: seq<string>, pos: nat, now: string): (r: RowResult)
    ensures !r.imported ==> r.store == store
    ensures r.imported && Valid(store) ==> Valid(r.store) && |r.store.rows| == |store.rows| + 1
    ensures r.pos >= pos
  {
    var raw := Extract(headers, record);
    var d := FirstDraft(raw);
    var errors := Check(d);
    Decide(store, d, errors, raw.description, nonInteractive, answers, pos, now)
      .(shown := Tag(errors, rowIdx + 1, raw))
  }

  /** Without a terminal nothing is asked: the row is stored iff its first
      check passes, and then exactly as read. */
  lemma ProcessRowNonInteractive(store: Store, headers: seq<string>, record: seq<string>, rowIdx: nat,
                                 answers: seq<string>, pos: nat, now: string)
    ensures var r := ProcessRow(store, headers, record, rowIdx, true, answers, pos, now);
            var raw := Extract(headers, record);
            && r.pos == pos
            && (r.imported <==> DraftOk(FirstDraft(raw)))
            && (r.imported ==> r.store == InsertItem(store, ItemOf(FirstDraft(raw), raw.description), now).value)
  {
    var raw := Extract(headers, record);
    if DraftOk(FirstDraft(raw)) {
      DraftOkInsertable(FirstDraft(raw), raw.description, now);
    }
  }

  /** With a terminal, a row failing its first check is stored iff every
      prompt got a non-blank answer and the corrected draft passes the one
      re-check; a valid row is stored without a question. */
  lemma ProcessRowInteractive(store: Store, headers: seq<string>, record: seq<string>, rowIdx: nat,
                              answers: seq<string>, pos: nat, now: string)
    ensures var r := ProcessRow(store, headers, record, rowIdx, false, answers, pos, now);
            var d := FirstDraft(Extract(headers, record));
            var c := Correct(d, Check(d), answers, pos);
            if DraftOk(d) then r.imported && r.pos == pos
            else r.pos == c.next && (r.imported <==> c.Corrected? && DraftOk(c.draft))
  {
    var raw := Extract(headers, record);
    var d := FirstDraft(raw);
    var c := Correct(d, Check(d), answers, pos);
    if DraftOk(d) {
      DraftOkInsertable(d, raw.description, now);
    } else if c.Corrected? && DraftOk(c.draft) {
      DraftOkInsertable(c.draft, raw.description, now);
    }
  }

  /** The errors shown for a row are its first check's errors, numbered
      `row_idx + 1` and carrying the raw text of their field. */
  lemma ShownErrorsAreTagged(store: Store, headers: seq<string>, record: seq<string>, rowIdx: nat,
                             nonInteractive: bool, answers: seq<string>, pos: nat, now: string)
    ensures var r := ProcessRow(store, headers, record, rowIdx, nonInteractive, answers, pos, now);
            var raw := Extract(headers, record);
            var errors := Check(FirstDraft(raw));
            && |r.shown| == |errors|
            && forall i :: 0 <= i < |errors| ==>
                 && r.shown[i].field == errors[i].field && r.shown[i].message == errors[i].message
                 && r.shown[i].row == Some(rowIdx + 1) && r.shown[i].value == RawValue(raw, errors[i].field)
  {
  }

  // ---------------------------------------------------------------------
  // The batch
  // ---------------------------------------------------------------------

  /** A record as the CSV reader yields it: cells, or a parse error. */
  datatype CsvRow = Parsed(cells: seq<string>) | Malformed(message: string)

  const CSV_PARSE_ERROR := "CSV parse error: "

  /** The ledger's re-check of a skipped row, straight from its cells: a
      present but empty brand or UPC is passed as given. */
  function LedgerCheck(headers: seq<string>, record: seq<string>): seq<ValidationError> {
    ValidateItemEbay(
      GetField(headers, record, "title"),
      ParseDecimal(GetField(headers, record, "price")).GetOr(UNPARSED_PRICE),
      ParseI32(GetField(headers, record, "quantity")).GetOr(UNPARSED_QUANTITY),
      GetField(headers, record, "category"),
      GetField(headers, record, "condition"),
      Cell(headers, record, "brand"),
      Cell(headers, record, "upc"))
  }

  /** Errors with the row number set. */
  function Place(errors: seq<ValidationError>, rowNo: nat): (r: seq<ValidationError>)
    ensures |r| == |errors|
    ensures forall i :: 0 <= i < |r| ==> r[i].row == Some(rowNo)
  {
    if |errors| == 0 then [] else [errors[0].(row := Some(rowNo))] + Place(errors[1..], rowNo)
  }

  /** Placing an error changes nothing but its row. */
  lemma {:induction false} PlaceKeepsErrors(errors: seq<ValidationError>, rowNo: nat)
    ensures forall i :: 0 <= i < |errors| ==> Place(errors, rowNo)[i] == errors[i].(row := Some(rowNo))
  {
    if |errors| > 0 {
      PlaceKeepsErrors(errors[1..], rowNo);
      assert forall i :: 1 <= i < |errors| ==> errors[1..][i - 1] == errors[i];
    }
  }

  datatype ImportState = ImportState(
    imported: nat,
    skipped: nat,
    ledger: seq<ValidationError>,
    store: Store,
    pos: nat)

  /** The ledger entries record `rowIdx` adds: a parse error, or the
      re-check of a skipped row; all numbered `rowIdx + 1`. */
  function RowEntries(headers: seq<string>, row: CsvRow, rowIdx: nat, imported: bool): (r: seq<ValidationError>)
    ensures forall j :: 0 <= j < |r| ==> r[j].row == Some(rowIdx + 1)
  {
    match row
    case Malformed(msg) => [ValidationError(CsvParse, CSV_PARSE_ERROR + msg, Some(rowIdx + 1), None)]
    case Parsed(cells) => if imported then [] else Place(LedgerCheck(headers, cells), rowIdx + 1)
  }

  /** One iteration of the batch loop over record `rowIdx`; it only
      appends to the ledger. */
  function ImportRow(st: ImportState, headers: seq<string>, row: CsvRow, rowIdx: nat,
                     nonInteractive: bool, answers: seq<string>, now: string): (next: ImportState)
    ensures next.ledger == st.ledger + RowEntries(headers, row, rowIdx, next.imported > st.imported)
  {
    match row
    case Malformed(_) =>
      st.(skipped := st.skipped + 1, ledger := st.ledger + RowEntries(headers, row, rowIdx, false))
    case Parsed(cells) =>
      var r := ProcessRow(st.store, headers, cells, rowIdx, nonInteractive, answers, st.pos, now);
      var ledger := st.ledger + RowEntries(headers, row, rowIdx, r.imported);
      if r.imported then st.(imported := st.imported + 1, store := r.store, pos := r.pos, ledger := ledger)
      else st.(skipped := st.skipped + 1, pos := r.pos, ledger := ledger)
  }

  /** The loop from record `i` on. */
  function ImportFrom(st: ImportState, headers: seq<string>, rows: seq<CsvRow>, i: nat,
                      nonInteractive: bool, answers: seq<string>, now: string): ImportState
    requires i <= |rows|
    decreases |rows| - i
  {
    if i == |rows| then st
    else ImportFrom(ImportRow(st, headers, rows[i], i, nonInteractive, answers, now),
                    headers, rows, i + 1, nonInteractive, answers, now)
  }

  /** The outcome of an import: the final counters, ledger, store and
      script position, and the ledger as saved (only when non-empty). */
  datatype ImportReport = ImportReport(state: ImportState, saved: Option<seq<ValidationError>>)

  /** `handle_import`: a bad header stops before any row is read;
      otherwise every record is taken once. */
  function HandleImport(headers: seq<string>, rows: seq<CsvRow>, nonInteractive: bool,
                        answers: seq<string>, store: Store, now: string): (r: Result<ImportReport>)
    ensures r.Err? <==> ValidateHeaders(headers).Err?
    ensures r.Err? ==> r.error == ValidateHeaders(headers).error
    ensures r.Ok? ==> (r.value.saved.Some? <==> |r.value.state.ledger| > 0)
    ensures r.Ok? && r.value.saved.Some? ==> r.value.saved.value == r.value.state.ledger
  {
    match ValidateHeaders(headers)
    case Err(e) => Err(e)
    case Ok(_) =>
      var st := ImportFrom(ImportState(0, 0, [], store, 0), headers, rows, 0, nonInteractive, answers, now);
      Ok(ImportReport(st, if |st.ledger| == 0 then None else Some(st.ledger)))
  }

  // ---------------------------------------------------------------------
  // Properties of the batch
  // ---------------------------------------------------------------------

  /** Every record is counted exactly once, as imported or as skipped, and
      each imported one added one row to the store. */
  lemma {:induction false} ImportCounts(st: ImportState, headers: seq<string>, rows: seq<CsvRow>, i: nat,
                                        nonInteractive: bool, answers: seq<string>, now: string)
    requires i <= |rows| && Valid(st.store)
    ensures var end := ImportFrom(st, headers, rows, i, nonInteractive, answers, now);
            && end.imported + end.skipped == st.imported + st.skipped + (|rows| - i)
            && end.imported >= st.imported
            && Valid(end.store)
            && |end.store.rows| == |st.store.rows| + (end.imported - st.imported)
    decreases |rows| - i
  {
    if i < |rows| {
      var next := ImportRow(st, headers, rows[i], i, nonInteractive, answers, now);
      ImportRowCounts(st, headers, rows[i], i, nonInteractive, answers, now);
      ImportCounts(next, headers, rows, i + 1, nonInteractive, answers, now);
      assert ImportFrom(st, headers, rows, i, nonInteractive, answers, now)
          == ImportFrom(next, headers, rows, i + 1, nonInteractive, answers, now);
    }
  }

  /** One record is counted once and adds at most one row. */
  lemma ImportRowCounts(st: ImportState, headers: seq<string>, row: CsvRow, rowIdx: nat,
                        nonInteractive: bool, answers: seq<string>, now: string)
    requires Valid(st.store)
    ensures var next := ImportRow(st, headers, row, rowIdx, nonInteractive, answers, now);
            && next.imported + next.skipped == st.imported + st.skipped + 1
            && next.imported >= st.imported
            && Valid(next.store)
            && |next.store.rows| == |st.store.rows| + (next.imported - st.imported)
  {
    if row.Parsed? {
      var r := ProcessRow(st.store, headers, row.cells, rowIdx, nonInteractive, answers, st.pos, now);
      var next := ImportRow(st, headers, row, rowIdx, nonInteractive, answers, now);
      assert next.store == r.store;
      assert next.imported == st.imported + (if r.imported then 1 else 0);
      assert next.skipped == st.skipped + (if r.imported then 0 else 1);
    }
  }

  /** Every ledger entry names a record of the file (1-based). */
  predicate LedgerRowsWithin(ledger: seq<ValidationError>, hi: nat) {
    forall j :: 0 <= j < |ledger| ==> ledger[j].row.Some? && 1 <= ledger[j].row.value <= hi
  }

  lemma {:induction false} LedgerRows(st: ImportState, headers: seq<string>, rows: seq<CsvRow>, i: nat,
                                      nonInteractive: bool, answers: seq<string>, now: string)
    requires i <= |rows| && LedgerRowsWithin(st.ledger, i)
    ensures LedgerRowsWithin(ImportFrom(st, headers, rows, i, nonInteractive, answers, now).ledger, |rows|)
    decreases |rows| - i
  {
    if i < |rows| {
      var next := ImportRow(st, headers, rows[i], i, nonInteractive, answers, now);
      AppendWithin(st.ledger, RowEntries(headers, rows[i], i, next.imported > st.imported), i);
      LedgerRows(next, headers, rows, i + 1, nonInteractive, answers, now);
      assert ImportFrom(st, headers, rows, i, nonInteractive, answers, now)
          == ImportFrom(next, headers, rows, i + 1, nonInteractive, answers, now);
    }
  }

  lemma AppendWithin(ledger: seq<ValidationError>, added: seq<ValidationError>, i: nat)
    requires LedgerRowsWithin(ledger, i)
    requires forall j :: 0 <= j < |added| ==> added[j].row == Some(i + 1)
    ensures LedgerRowsWithin(ledger + added, i + 1)
  {
    var l := ledger + added;
    forall j | 0 <= j < |l|
      ensures l[j].row.Some? && 1 <= l[j].row.value <= i + 1
    {
      if j >= |ledger| {
        assert l[j] == added[j - |ledger|];
      }
    }
  }

  /** Whether a record would be imported without a terminal. */
  predicate Importable(headers: seq<string>, row: CsvRow) {
    row.Parsed? && DraftOk(FirstDraft(Extract(headers, row.cells)))
  }

  /** How many records from `i` on are importable. */
  function CountImportable(headers: seq<string>, rows: seq<CsvRow>, i: nat): (n: nat)
    requires i <= |rows|
    ensures n <= |rows| - i
    decreases |rows| - i
  {
    if i == |rows| then 0
    else (if Importable(headers, rows[i]) then 1 else 0) + CountImportable(headers, rows, i + 1)
  }

  lemma ImportRowNonInteractive(st: ImportState, headers: seq<string>, row: CsvRow, rowIdx: nat,
                                answers: seq<string>, now: string)
    ensures var next := ImportRow(st, headers, row, rowIdx, true, answers, now);
            && next.pos == st.pos
            && next.imported == st.imported + (if Importable(headers, row) then 1 else 0)
  {
    if row.Parsed? {
      ProcessRowNonInteractive(st.store, headers, row.cells, rowIdx, answers, st.pos, now);
    }
  }

  /** Without a terminal the script is never read, and exactly the records
      whose first check passes are imported. */
  lemma {:induction false} NonInteractiveImportsValidRows(st: ImportState, headers: seq<string>, rows: seq<CsvRow>,
                                                          i: nat, answers: seq<string>, now: string)
    requires i <= |rows|
    ensures var end := ImportFrom(st, headers, rows, i, true, answers, now);
            && end.pos == st.pos
            && end.imported == st.imported + CountImportable(headers, rows, i)
    decreases |rows| - i
  {
    if i < |rows| {
      var next := ImportRow(st, headers, rows[i], i, true, answers, now);
      ImportRowNonInteractive(st, headers, rows[i], i, answers, now);
      NonInteractiveImportsValidRows(next, headers, rows, i + 1, answers, now);
      assert ImportFrom(st, headers, rows, i, true, answers, now) == ImportFrom(next, headers, rows, i + 1, true, answers, now);
    }
  }

  /** The ledger re-check of a skipped row gives the same errors as the
      row's first check (before tagging): an empty brand or UPC passed as
      given is accepted just like an absent one. */
  lemma LedgerCheckIsFirstCheck(headers: seq<string>, record: seq<string>)
    ensures LedgerCheck(headers, record) == Check(FirstDraft(Extract(headers, record)))
  {
    var b := Cell(headers, record, "brand");
    var u := Cell(headers, record, "upc");
    var raw := Extract(headers, record);
    assert b.GetOr("") == raw.brand && u.GetOr("") == raw.upc;
    if b == Some("") {
      assert IsBlank("");
      assert ValidateBrandIfGiven(b) == [] == ValidateBrandIfGiven(Given(raw.brand));
    } else {
      assert b == Given(raw.brand);
    }
    if u == Some("") {
      assert IsBlank("");
      assert ValidateUpcEbayIfGiven(u) == [] == ValidateUpcEbayIfGiven(Given(raw.upc));
    } else {
      assert u == Given(raw.upc);
    }
  }

  /** An unparseable price is checked as -1: the user is shown the raw
      text, while the check itself (and so the ledger) reports the value
      "-1" as negative. */
  lemma UnparseablePriceIsNegative(raw: RawRow)
    requires ParseDecimal(raw.priceText).None?
    ensures FirstDraft(raw).price == -1.0
    ensures ValidatePrice(FirstDraft(raw).price) == [ValidationError(Price, PRICE_NEGATIVE, None, Some("-1"))]
    ensures RawValue(raw, Price) == Some(raw.priceText)
  {
    RealTextOfInt(-1);
    assert IntText(-1) == "-1" by {
      assert NatText(1) == "1";
    }
  }
}
