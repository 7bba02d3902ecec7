/** The standalone CSV validator (`validate` command): a positional check
    of the header against a fixed schema, then a handful of per-row rules
    of its own. Its rules differ from the validation engine's: empty means
    zero length (no trimming), an unparseable number is reported as such,
    the price has no upper bound, the condition is only checked for
    presence and a StockX row needs some UPC, of any shape. */
module CsvValidate {
  import opened Wrappers
  import opened Numbers
  import opened Validation
  import Import

  /** The columns a file must start with, in this order. */
  const SCHEMA_FIELDS: seq<string> :=
    ["item_id", "title", "description", "price", "quantity", "upc", "category", "condition", "brand"]

  /** Cell `i` of a record, `""` when the record is shorter. */
  function Get(record: seq<string>, i: nat): string {
    if i < |record| then record[i] else ""
  }

  // ---------------------------------------------------------------------
  // The header
  // ---------------------------------------------------------------------

  /** The message for a header whose column `i` (from 0) is wrong. */
  function SchemaMismatch(headers: seq<string>, i: nat): string
    requires i < |SCHEMA_FIELDS|
  {
    "CSV schema mismatch at column " + IntText(i + 1) + ": expected '" + SCHEMA_FIELDS[i]
    + "', found '" + Get(headers, i) + "'"
  }

  /** The first schema column from `i` on that the header gets wrong. */
  function FirstMismatch(headers: seq<string>, i: nat): (r: Option<nat>)
    requires i <= |SCHEMA_FIELDS|
    ensures r.Some? ==> i <= r.value < |SCHEMA_FIELDS| && Get(headers, r.value) != SCHEMA_FIELDS[r.value]
    ensures r.Some? ==> forall j :: i <= j < r.value ==> Get(headers, j) == SCHEMA_FIELDS[j]
    ensures r.None? <==> forall j :: i <= j < |SCHEMA_FIELDS| ==> Get(headers, j) == SCHEMA_FIELDS[j]
    decreases |SCHEMA_FIELDS| - i
  {
    if i == |SCHEMA_FIELDS| then None
    else if Get(headers, i) != SCHEMA_FIELDS[i] then Some(i)
    else FirstMismatch(headers, i + 1)
  }

  /** The header check of `handle_validate`: column by column, stopping at
      the first one that differs. */
  function CheckSchema(headers: seq<string>): (r: Result<()>)
    ensures r.Err? <==> FirstMismatch(headers, 0).Some?
    ensures r.Err? ==> r.error == SchemaMismatch(headers, FirstMismatch(headers, 0).value)
  {
    match FirstMismatch(headers, 0)
    case Some(i) => Err(SchemaMismatch(headers, i))
    case None => Ok(())
  }

  /** The header is accepted exactly when it starts with the schema
      columns in order; extra columns after them are allowed. */
  lemma SchemaIsPrefix(headers: seq<string>)
    ensures CheckSchema(headers).Ok?
            <==> |headers| >= |SCHEMA_FIELDS| && headers[..|SCHEMA_FIELDS|] == SCHEMA_FIELDS
  {
    var n := |SCHEMA_FIELDS|;
    if CheckSchema(headers).Ok? {
      assert headers[..n] == SCHEMA_FIELDS by {
        forall j | 0 <= j < n
          ensures headers[..n][j] == SCHEMA_FIELDS[j]
        {
          assert Get(headers, j) == SCHEMA_FIELDS[j];
        }
      }
    }
  }

  /** An empty file has an empty header and fails at the first column. */
  lemma EmptyHeaderRejected()
    ensures CheckSchema([]) == Err(SchemaMismatch([], 0))
  {
    assert Get([], 0) == "" && SCHEMA_FIELDS[0] == "item_id";
  }

  // ---------------------------------------------------------------------
  // One record
  // ---------------------------------------------------------------------

  const TITLE_REQUIRED := "Title is required"
  const PRICE_REQUIRED := "Price is required"
  const PRICE_INVALID := "Invalid price value"
  const QUANTITY_REQUIRED := "Quantity is required"
  const QUANTITY_INVALID := "Invalid quantity value"
  const CATEGORY_REQUIRED := "Category is required"
  const CONDITION_REQUIRED := "Condition is required"
  const UPC_REQUIRED_STOCKX := "UPC required for StockX"

  /** An error of this validator: it always names its row and the raw text. */
  function RowError(f: Field, message: string, rowNum: nat, value: string): ValidationError {
    ValidationError(f, message, Some(rowNum), Some(value))
  }

  /** Errors on one field, for one row, carrying the text checked. */
  predicate About(errors: seq<ValidationError>, f: Field, rowNum: nat, value: string) {
    forall k :: 0 <= k < |errors| ==> errors[k].field == f && errors[k].row == Some(rowNum) && errors[k].value == Some(value)
  }

  /** Title: present, and at most 80 long. */
  function CheckTitle(title: string, rowNum: nat): (r: seq<ValidationError>)
    ensures |r| <= 1 && About(r, Title, rowNum, title)
    ensures |r| == 0 <==> 0 < |title| <= MAX_TITLE
    ensures |title| == 0 ==> r[0].message == TITLE_REQUIRED
    ensures |title| > MAX_TITLE ==> r[0].message == TitleLimitMessage(Ebay)
  {
    if |title| == 0 then [RowError(Title, TITLE_REQUIRED, rowNum, title)]
    else if |title| > MAX_TITLE then [RowError(Title, TitleLimitMessage(Ebay), rowNum, title)]
    else []
  }

  /** Price: present, a number, and not negative; no upper bound. */
  function CheckPrice(price: string, rowNum: nat): (r: seq<ValidationError>)
    ensures |r| <= 1 && About(r, Price, rowNum, price)
    ensures |r| == 0 <==> ParseDecimal(price).Some? && ParseDecimal(price).value >= 0.0
    ensures |price| == 0 ==> r[0].message == PRICE_REQUIRED
    ensures |price| > 0 && ParseDecimal(price).None? ==> r[0].message == PRICE_INVALID
    ensures ParseDecimal(price).Some? && ParseDecimal(price).value < 0.0 ==> r[0].message == PRICE_NEGATIVE
  {
    if |price| == 0 then [RowError(Price, PRICE_REQUIRED, rowNum, price)]
    else match ParseDecimal(price)
      case Some(p) => if p < 0.0 then [RowError(Price, PRICE_NEGATIVE, rowNum, price)] else []
      case None => [RowError(Price, PRICE_INVALID, rowNum, price)]
  }

  /** Quantity: present, an `i32`, and not negative. */
  function CheckQuantity(quantity: string, rowNum: nat): (r: seq<ValidationError>)
    ensures |r| <= 1 && About(r, Quantity, rowNum, quantity)
    ensures |r| == 0 <==> ParseI32(quantity).Some? && ParseI32(quantity).value >= 0
    ensures |quantity| == 0 ==> r[0].message == QUANTITY_REQUIRED
    ensures |quantity| > 0 && ParseI32(quantity).None? ==> r[0].message == QUANTITY_INVALID
    ensures ParseI32(quantity).Some? && ParseI32(quantity).value < 0 ==> r[0].message == QUANTITY_NEGATIVE
  {
    if |quantity| == 0 then [RowError(Quantity, QUANTITY_REQUIRED, rowNum, quantity)]
    else match ParseI32(quantity)
      case Some(q) => if q < 0 then [RowError(Quantity, QUANTITY_NEGATIVE, rowNum, quantity)] else []
      case None => [RowError(Quantity, QUANTITY_INVALID, rowNum, quantity)]
  }

  /** A column that only has to be present. */
  function CheckPresent(f: Field, message: string, value: string, rowNum: nat): (r: seq<ValidationError>)
    ensures |r| <= 1 && About(r, f, rowNum, value)
    ensures |r| == 0 <==> |value| > 0
    ensures |r| == 1 ==> r[0].message == message
  {
    if |value| == 0 then [RowError(f, message, rowNum, value)] else []
  }

  /** A StockX row needs a UPC; its digits are not counted. */
  function CheckUpc(category: string, upc: string, rowNum: nat): (r: seq<ValidationError>)
    ensures |r| <= 1 && About(r, Upc, rowNum, upc)
    ensures |r| == 1 <==> category == "stockx" && |upc| == 0
    ensures |r| == 1 ==> r[0].message == UPC_REQUIRED_STOCKX
  {
    if category == "stockx" && |upc| == 0 then [RowError(Upc, UPC_REQUIRED_STOCKX, rowNum, upc)] else []
  }

  /** The record passes every rule of this validator. */
  predicate RecordOk(record: seq<string>) {
    && 0 < |Get(record, 1)| <= MAX_TITLE
    && ParseDecimal(Get(record, 3)).Some? && ParseDecimal(Get(record, 3)).value >= 0.0
    && ParseI32(Get(record, 4)).Some? && ParseI32(Get(record, 4)).value >= 0
    && |Get(record, 6)| > 0
    && |Get(record, 7)| > 0
    && !(Get(record, 6) == "stockx" && |Get(record, 5)| == 0)
  }

  /** The order in which a record's fields are checked. */
  function CheckRank(f: Field): nat {
    match f
    case Title => 0
    case Price => 1
    case Quantity => 2
    case Category => 3
    case Condition => 4
    case Upc => 5
    case _ => 6
  }

  /** Each field at most once, in the order they are checked. */
  predicate Ordered(errors: seq<ValidationError>) {
    forall i, j :: 0 <= i < j < |errors| ==> CheckRank(errors[i].field) < CheckRank(errors[j].field)
  }

  /** Every field ranks below `k`. */
  predicate RanksBelow(errors: seq<ValidationError>, k: nat) {
    forall i :: 0 <= i < |errors| ==> CheckRank(errors[i].field) < k
  }

  /** Appending at most one error on a later field keeps the order. */
  lemma AppendLater(a: seq<ValidationError>, b: seq<ValidationError>, f: Field, rowNum: nat, v: string)
    requires Ordered(a) && RanksBelow(a, CheckRank(f)) && |b| <= 1 && About(b, f, rowNum, v)
    ensures Ordered(a + b) && RanksBelow(a + b, CheckRank(f) + 1)
  {
    var c := a + b;
    forall i, j | 0 <= i < j < |c|
      ensures CheckRank(c[i].field) < CheckRank(c[j].field)
    {
      if j >= |a| {
        assert c[j] == b[j - |a|];
        assert c[i] == a[i];
      } else {
        assert c[i] == a[i] && c[j] == a[j];
      }
    }
    forall i | 0 <= i < |c|
      ensures CheckRank(c[i].field) < CheckRank(f) + 1
    {
      if i >= |a| {
        assert c[i] == b[i - |a|];
      } else {
        assert c[i] == a[i];
      }
    }
  }

  /** The six checks of a record, concatenated, are in check order and
      all name the record's row. */
  lemma InCheckOrder(t: seq<ValidationError>, p: seq<ValidationError>, q: seq<ValidationError>,
                     c: seq<ValidationError>, d: seq<ValidationError>, u: seq<ValidationError>,
                     rowNum: nat, vt: string, vp: string, vq: string, vc: string, vd: string, vu: string)
    requires |t| <= 1 && About(t, Title, rowNum, vt)
    requires |p| <= 1 && About(p, Price, rowNum, vp)
    requires |q| <= 1 && About(q, Quantity, rowNum, vq)
    requires |c| <= 1 && About(c, Category, rowNum, vc)
    requires |d| <= 1 && About(d, Condition, rowNum, vd)
    requires |u| <= 1 && About(u, Upc, rowNum, vu)
    ensures Ordered(t + p + q + c + d + u)
    ensures forall k :: 0 <= k < |t + p + q + c + d + u| ==> (t + p + q + c + d + u)[k].row == Some(rowNum)
  {
    assert Ordered(t) && RanksBelow(t, 1);
    AppendLater(t, p, Price, rowNum, vp);
    AppendLater(t + p, q, Quantity, rowNum, vq);
    AppendLater(t + p + q, c, Category, rowNum, vc);
    AppendLater(t + p + q + c, d, Condition, rowNum, vd);
    AppendLater(t + p + q + c + d, u, Upc, rowNum, vu);
    var all := t + p + q + c + d + u;
    forall k | 0 <= k < |all|
      ensures all[k].row == Some(rowNum)
    {
      var a := t + p + q + c + d;
      if k < |a| {
        var b := t + p + q + c;
        assert all[k] == a[k];
        if k < |b| {
          var e := t + p + q;
          assert a[k] == b[k];
          if k < |e| {
            var f := t + p;
            assert b[k] == e[k];
            if k < |f| {
              assert e[k] == f[k];
              if k < |t| { assert f[k] == t[k]; } else { assert f[k] == p[k - |t|]; }
            } else {
              assert e[k] == q[k - |f|];
            }
          } else {
            assert b[k] == c[k - |e|];
          }
        } else {
          assert a[k] == d[k - |b|];
        }
      } else {
        assert all[k] == u[k - |a|];
      }
    }
  }

  /** `validate_row`: the rules in order title, price, quantity, category,
      condition, UPC; every error names row `rowNum` and the raw text. */
  function ValidateRow(record: seq<string>, rowNum: nat): (r: seq<ValidationError>)
    ensures IsValid(r) <==> RecordOk(record)
    ensures |r| <= 6 && Ordered(r)
    ensures forall k :: 0 <= k < |r| ==> r[k].row == Some(rowNum)
  {
    var t := CheckTitle(Get(record, 1), rowNum);
    var p := CheckPrice(Get(record, 3), rowNum);
    var q := CheckQuantity(Get(record, 4), rowNum);
    var c := CheckPresent(Category, CATEGORY_REQUIRED, Get(record, 6), rowNum);
    var d := CheckPresent(Condition, CONDITION_REQUIRED, Get(record, 7), rowNum);
    var u := CheckUpc(Get(record, 6), Get(record, 5), rowNum);
    InCheckOrder(t, p, q, c, d, u, rowNum, Get(record, 1), Get(record, 3), Get(record, 4),
                 Get(record, 6), Get(record, 7), Get(record, 5));
    t + p + q + c + d + u
  }

  /** A price with no digit in it is reported as not a number, where the
      import pipeline would have reported it as negative. */
  lemma NonNumericPriceIsInvalid(price: string, rowNum: nat)
    requires |price| > 0 && forall i :: 0 <= i < |price| ==> !IsDigit(price[i])
    ensures CheckPrice(price, rowNum) == [RowError(Price, PRICE_INVALID, rowNum, price)]
  {
    NoDigitIsNotDecimal(price);
  }

  // ---------------------------------------------------------------------
  // The file
  // ---------------------------------------------------------------------

  /** Every error names a row in `lo..hi`. */
  predicate RowsWithin(errors: seq<ValidationError>, lo: nat, hi: nat) {
    forall k :: 0 <= k < |errors| ==> errors[k].row.Some? && lo <= errors[k].row.value < hi
  }

  /** Errors appear in row order. */
  predicate RowsInOrder(errors: seq<ValidationError>) {
    forall k, l :: 0 <= k < l < |errors| && errors[k].row.Some? && errors[l].row.Some?
                   ==> errors[k].row.value <= errors[l].row.value
  }

  /** One row's errors in front of those of the rows after it. */
  lemma RowBeforeRest(here: seq<ValidationError>, rest: seq<ValidationError>, rowNum: nat, hi: nat)
    requires forall k :: 0 <= k < |here| ==> here[k].row == Some(rowNum)
    requires rowNum < hi && RowsWithin(rest, rowNum + 1, hi) && RowsInOrder(rest)
    ensures RowsWithin(here + rest, rowNum, hi) && RowsInOrder(here + rest)
  {
    var all := here + rest;
    assert forall k :: 0 <= k < |here| ==> all[k] == here[k];
    assert forall k :: |here| <= k < |all| ==> all[k] == rest[k - |here|];
  }

  /** How the errors of one record are found, given its row number. */
  type RowCheck = (seq<string>, nat) -> seq<ValidationError>

  /** The errors of records `i` on under `check`, numbered from 2 for the
      first record (the header is line 1); a record the reader cannot
      parse stops the run with its error. */
  function CollectErrors(rows: seq<Import.CsvRow>, i: nat, check: RowCheck): (r: Result<seq<ValidationError>>)
    requires i <= |rows|
    ensures r.Ok? <==> forall j :: i <= j < |rows| ==> rows[j].Parsed?
    decreases |rows| - i
  {
    if i == |rows| then Ok([])
    else match rows[i]
      case Malformed(msg) => Err(msg)
      case Parsed(cells) =>
        match CollectErrors(rows, i + 1, check)
        case Err(e) => Err(e)
        case Ok(rest) => Ok(check(cells, i + 2) + rest)
  }

  /** A check whose errors all name the row it was given. */
  ghost predicate NamesItsRow(check: RowCheck) {
    forall cells, n: nat, k :: 0 <= k < |check(cells, n)| ==> check(cells, n)[k].row == Some(n)
  }

  /** The collected errors are numbered within the records read, in file
      order. */
  lemma {:induction false} CollectedInRowOrder(rows: seq<Import.CsvRow>, i: nat, check: RowCheck)
    requires i <= |rows| && CollectErrors(rows, i, check).Ok? && NamesItsRow(check)
    ensures RowsWithin(CollectErrors(rows, i, check).value, i + 2, |rows| + 2)
    ensures RowsInOrder(CollectErrors(rows, i, check).value)
    decreases |rows| - i
  {
    if i < |rows| {
      CollectedInRowOrder(rows, i + 1, check);
      RowBeforeRest(check(rows[i].cells, i + 2), CollectErrors(rows, i + 1, check).value, i + 2, |rows| + 2);
    }
  }

  /** Under a check that finds nothing exactly when `ok` holds, a run over
      readable records finds nothing exactly when every record is ok. */
  lemma {:induction false} NoErrorsIffAllPass(rows: seq<Import.CsvRow>, i: nat, check: RowCheck,
                                              ok: seq<string> -> bool)
    requires i <= |rows| && CollectErrors(rows, i, check).Ok?
    requires forall cells, n: nat :: |check(cells, n)| == 0 <==> ok(cells)
    ensures |CollectErrors(rows, i, check).value| == 0 <==> forall j :: i <= j < |rows| ==> ok(rows[j].cells)
    decreases |rows| - i
  {
    if i < |rows| {
      NoErrorsIffAllPass(rows, i + 1, check, ok);
      assert |check(rows[i].cells, i + 2)| == 0 <==> ok(rows[i].cells);
    }
  }

  /** The errors of a list that name row `n`, in list order. */
  function OnRow(errors: seq<ValidationError>, n: nat): (r: seq<ValidationError>)
    ensures |r| <= |errors|
    ensures forall e :: e in r ==> e in errors && e.row == Some(n)
  {
    if |errors| == 0 then []
    else (if errors[0].row == Some(n) then [errors[0]] else []) + OnRow(errors[1..], n)
  }

  lemma {:induction false} OnRowAppend(a: seq<ValidationError>, b: seq<ValidationError>, n: nat)
    ensures OnRow(a + b, n) == OnRow(a, n) + OnRow(b, n)
    decreases |a|
  {
    if |a| == 0 {
      assert a + b == b;
    } else {
      assert (a + b)[1..] == a[1..] + b;
      OnRowAppend(a[1..], b, n);
    }
  }

  /** A list all of whose errors name row `n` is kept whole; one none of
      whose errors do is dropped. */
  lemma {:induction false} OnRowUniform(errors: seq<ValidationError>, n: nat)
    ensures (forall k :: 0 <= k < |errors| ==> errors[k].row == Some(n)) ==> OnRow(errors, n) == errors
    ensures (forall k :: 0 <= k < |errors| ==> errors[k].row != Some(n)) ==> OnRow(errors, n) == []
    decreases |errors|
  {
    if |errors| > 0 {
      OnRowUniform(errors[1..], n);
      assert errors == [errors[0]] + errors[1..];
    }
  }

  /** Record `j`'s errors are exactly the collected errors that name its
      row, in the check's own (field) order: none is dropped and none
      added. */
  lemma {:induction false} CollectedRowErrors(rows: seq<Import.CsvRow>, i: nat, check: RowCheck, j: nat)
    requires i <= j < |rows| && CollectErrors(rows, i, check).Ok? && NamesItsRow(check)
    ensures OnRow(CollectErrors(rows, i, check).value, j + 2) == check(rows[j].cells, j + 2)
    ensures forall e :: e in check(rows[j].cells, j + 2) ==> e in CollectErrors(rows, i, check).value
    decreases |rows| - i
  {
    var here := check(rows[i].cells, i + 2);
    var all := CollectErrors(rows, i, check).value;
    if i + 1 < |rows| {
      CollectedInRowOrder(rows, i + 1, check);
    }
    var rest := CollectErrors(rows, i + 1, check).value;
    assert all == here + rest;
    OnRowAppend(here, rest, j + 2);
    OnRowUniform(here, j + 2);
    OnRowUniform(rest, j + 2);
    if i < j {
      CollectedRowErrors(rows, i + 1, check, j);
    }
  }

  /** `validate_row` reports nothing exactly on a record that passes, and
      names the row it was given. */
  lemma ValidateRowAsCheck()
    ensures NamesItsRow(ValidateRow)
    ensures forall cells, n: nat :: |ValidateRow(cells, n)| == 0 <==> RecordOk(cells)
  {
  }

  /** What `handle_validate` leaves behind: its result, and the errors it
      saved to the failure file (only when there were some). */
  datatype ValidateReport = ValidateReport(result: Result<()>, saved: Option<seq<ValidationError>>)

  const VALIDATION_FAILED := "Validation failed. See "

  /** `handle_validate` on a file already split into its header and records;
      `path` is the name the failure file gets. */
  function HandleValidate(headers: seq<string>, rows: seq<Import.CsvRow>, path: string): (r: ValidateReport)
    ensures CheckSchema(headers).Err? ==> r == ValidateReport(CheckSchema(headers), None)
    ensures r.result.Ok? <==> CheckSchema(headers).Ok? && forall j :: 0 <= j < |rows| ==> rows[j].Parsed? && RecordOk(rows[j].cells)
    ensures r.saved.Some? <==> CheckSchema(headers).Ok? && (forall j :: 0 <= j < |rows| ==> rows[j].Parsed?) && r.result.Err?
    ensures r.saved.Some? ==> |r.saved.value| > 0 && r.result == Err(VALIDATION_FAILED + path)
    ensures r.saved.Some? ==> RowsWithin(r.saved.value, 2, |rows| + 2) && RowsInOrder(r.saved.value)
    ensures r.saved.Some? ==> r.saved.value == CollectErrors(rows, 0, ValidateRow).value
  {
    match CheckSchema(headers)
    case Err(e) => ValidateReport(Err(e), None)
    case Ok(_) =>
      match CollectErrors(rows, 0, ValidateRow)
      case Err(e) => ValidateReport(Err(e), None)
      case Ok(errors) =>
        ValidateRowAsCheck();
        NoErrorsIffAllPass(rows, 0, ValidateRow, RecordOk);
        CollectedInRowOrder(rows, 0, ValidateRow);
        if |errors| == 0 then ValidateReport(Ok(()), None)
        else ValidateReport(Err(VALIDATION_FAILED + path), Some(errors))
  }

  /** The saved file holds, for each record, exactly the errors
      `validate_row` reports on it, in field order. */
  lemma SavedErrorsPerRecord(headers: seq<string>, rows: seq<Import.CsvRow>, path: string, j: nat)
    requires j < |rows| && HandleValidate(headers, rows, path).saved.Some?
    ensures OnRow(HandleValidate(headers, rows, path).saved.value, j + 2) == ValidateRow(rows[j].cells, j + 2)
    ensures forall e :: e in ValidateRow(rows[j].cells, j + 2) ==> e in HandleValidate(headers, rows, path).saved.value
  {
    ValidateRowAsCheck();
    CollectedRowErrors(rows, 0, ValidateRow, j);
  }
}
