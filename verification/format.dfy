/** Listing output: the item row the listing commands print, its CSV and
    table renderings, the CSV field quoting they share and the choice of
    renderer by format name. */
module Format {
  import opened Wrappers
  import opened Text
  import opened Numbers

  /** One listed item: the columns the listing query reads. */
  datatype InventoryItem = InventoryItem(
    itemId: int,
    title: string,
    price: real,
    quantity: int,
    condition: string,
    category: string,
    brand: Option<string>)

  // ---------------------------------------------------------------------
  // CSV field quoting
  // ---------------------------------------------------------------------

  /** A field must be quoted when it holds a comma, a quote or a newline. */
  predicate NeedsQuoting(s: string) {
    ',' in s || '"' in s || '\n' in s
  }

  /** A field as written into CSV: left alone unless it needs quoting, and
      then wrapped in quotes with every inner quote doubled. */
  function EscapeCsvField(s: string): (r: string)
    ensures !NeedsQuoting(s) ==> r == s
    ensures NeedsQuoting(s) ==> |r| >= 2 && r[0] == '"' && r[|r| - 1] == '"'
  {
    if NeedsQuoting(s) then "\"" + ReplaceChar(s, '"', "\"\"") + "\"" else s
  }

  /** Undo quote doubling: every `""` becomes one `"`. */
  function Undouble(t: string): string {
    if |t| == 0 then ""
    else if |t| >= 2 && t[0] == '"' && t[1] == '"' then "\"" + Undouble(t[2..])
    else [t[0]] + Undouble(t[1..])
  }

  /** How a CSV reader takes one field back: a quoted field loses its quotes
      and its doubled quotes; anything else is read as it is. */
  function ReadCsvField(r: string): string {
    if |r| >= 2 && r[0] == '"' && r[|r| - 1] == '"' then Undouble(r[1..|r| - 1]) else r
  }

  /** Doubling the quotes and undoubling them gives the text back. */
  lemma {:induction false} UndoubleDoubled(s: string)
    ensures Undouble(ReplaceChar(s, '"', "\"\"")) == s
    decreases |s|
  {
    if |s| > 0 {
      var rest := ReplaceChar(s[1..], '"', "\"\"");
      UndoubleDoubled(s[1..]);
      if s[0] == '"' {
        var t := "\"\"" + rest;
        assert ReplaceChar(s, '"', "\"\"") == t;
        assert t[2..] == rest;
        assert s == "\"" + s[1..];
      } else {
        var t := [s[0]] + rest;
        assert ReplaceChar(s, '"', "\"\"") == t;
        assert t[1..] == rest;
        assert s == [s[0]] + s[1..];
      }
    }
  }

  /** Reading an escaped field back gives the original field, whatever it
      holds: the quoting loses nothing. */
  lemma EscapeRoundTrip(s: string)
    ensures ReadCsvField(EscapeCsvField(s)) == s
  {
    var r := EscapeCsvField(s);
    if NeedsQuoting(s) {
      var body := ReplaceChar(s, '"', "\"\"");
      assert r[1..|r| - 1] == body;
      UndoubleDoubled(s);
    } else if |s| >= 2 {
      assert s[0] != '"';
    }
  }

  /** A character that neither the text nor the replacement holds is not in
      the replaced text. */
  lemma {:induction false} ReplaceCharAvoids(s: string, from: char, to: string, c: char)
    requires c !in s && c !in to
    ensures c !in ReplaceChar(s, from, to)
    decreases |s|
  {
    if |s| > 0 {
      ReplaceCharAvoids(s[1..], from, to, c);
    }
  }

  /** Escaping adds no newline. */
  lemma EscapeAddsNoNewline(s: string)
    requires '\n' !in s
    ensures '\n' !in EscapeCsvField(s)
  {
    if NeedsQuoting(s) {
      ReplaceCharAvoids(s, '"', "\"\"", '\n');
    }
  }

  // ---------------------------------------------------------------------
  // CSV listing
  // ---------------------------------------------------------------------

  const CSV_HEADER := "item_id,title,price,quantity,condition,category,brand\n"

  /** The seven cells of an item's CSV line: text columns escaped, the
      price with two decimals, a missing brand as an empty cell. */
  function CsvCells(it: InventoryItem): seq<string> {
    [IntText(it.itemId), EscapeCsvField(it.title), Fixed2Text(it.price), IntText(it.quantity),
     EscapeCsvField(it.condition), EscapeCsvField(it.category),
     if it.brand.Some? then EscapeCsvField(it.brand.value) else ""]
  }

  /** One CSV line per item. */
  function CsvLine(it: InventoryItem): string {
    Join(CsvCells(it), ",") + "\n"
  }

  function CsvLines(items: seq<InventoryItem>): string {
    if |items| == 0 then "" else CsvLine(items[0]) + CsvLines(items[1..])
  }

  /** The CSV listing: the header line, then one line per item in order. */
  function FormatCsv(items: seq<InventoryItem>): (r: string)
    ensures |r| >= |CSV_HEADER| && r[..|CSV_HEADER|] == CSV_HEADER
    ensures |items| == 0 ==> r == CSV_HEADER
  {
    CSV_HEADER + CsvLines(items)
  }

  /** Appending an item appends exactly its line. */
  lemma {:induction false} CsvLinesAppend(items: seq<InventoryItem>, x: InventoryItem)
    ensures CsvLines(items + [x]) == CsvLines(items) + CsvLine(x)
    decreases |items|
  {
    if |items| == 0 {
      assert CsvLines([x]) == CsvLine(x) + CsvLines([]);
    } else {
      assert (items + [x])[1..] == items[1..] + [x];
      CsvLinesAppend(items[1..], x);
    }
  }

  lemma CsvAppend(items: seq<InventoryItem>, x: InventoryItem)
    ensures FormatCsv(items + [x]) == FormatCsv(items) + CsvLine(x)
  {
    CsvLinesAppend(items, x);
  }

  /** Every cell of an item's line reads back as the column it shows:
      text columns through the CSV reader, a missing brand as empty. */
  lemma CsvCellsReadBack(it: InventoryItem)
    ensures |CsvCells(it)| == 7
    ensures ReadCsvField(CsvCells(it)[1]) == it.title
    ensures ReadCsvField(CsvCells(it)[4]) == it.condition
    ensures ReadCsvField(CsvCells(it)[5]) == it.category
    ensures ReadCsvField(CsvCells(it)[6]) == it.brand.GetOr("")
    ensures ParseDecimal(CsvCells(it)[2]) == Some(RoundCents(it.price))
  {
    var cells := CsvCells(it);
    assert ReadCsvField(cells[1]) == it.title by {
      EscapeRoundTrip(it.title);
    }
    assert ReadCsvField(cells[4]) == it.condition by {
      EscapeRoundTrip(it.condition);
    }
    assert ReadCsvField(cells[5]) == it.category by {
      EscapeRoundTrip(it.category);
    }
    assert ReadCsvField(cells[6]) == it.brand.GetOr("") by {
      if it.brand.Some? {
        EscapeRoundTrip(it.brand.value);
      } else {
        EscapeRoundTrip("");
      }
    }
    assert ParseDecimal(cells[2]) == Some(RoundCents(it.price)) by {
      ParseFixed2Text(it.price);
    }
  }

  /** Occurrences add up over concatenation. */
  lemma {:induction false} CountConcat(a: string, b: string, c: char)
    ensures Count(a + b, c) == Count(a, c) + Count(b, c)
    decreases |a|
  {
    if |a| > 0 {
      assert (a + b)[1..] == a[1..] + b;
      CountConcat(a[1..], b, c);
    } else {
      assert a + b == b;
    }
  }

  /** A joined text holds a character only if a part or the separator does. */
  lemma {:induction false} JoinAvoids(parts: seq<string>, sep: string, c: char)
    requires c !in sep
    requires forall k :: 0 <= k < |parts| ==> c !in parts[k]
    ensures c !in Join(parts, sep)
    decreases |parts|
  {
    if |parts| > 1 {
      JoinAvoids(parts[1..], sep, c);
    }
  }

  /** Decimal digits hold no newline. */
  lemma NatTextNoNewline(n: nat)
    ensures '\n' !in NatText(n)
  {
  }

  lemma NumberTextNoNewline(n: int, p: real)
    ensures '\n' !in IntText(n) && '\n' !in Fixed2Text(p)
  {
    NatTextNoNewline(if n < 0 then -n else n);
    var c := Cents(p);
    var cc := c % 100;
    NatTextNoNewline(c / 100);
    assert Fixed2Text(p) == (if p < 0.0 then "-" else "") + NatText(c / 100) + "." + [DigitChar(cc / 10), DigitChar(cc % 10)];
    assert IsDigit(DigitChar(cc / 10)) && IsDigit(DigitChar(cc % 10));
  }

  /** The text columns of an item hold no newline. */
  predicate SingleLine(it: InventoryItem) {
    && '\n' !in it.title && '\n' !in it.condition && '\n' !in it.category
    && (it.brand.Some? ==> '\n' !in it.brand.value)
  }

  /** An item without newlines in its text renders as exactly one line. */
  lemma CsvLineIsOneLine(it: InventoryItem)
    requires SingleLine(it)
    ensures Count(CsvLine(it), '\n') == 1
  {
    var cells := CsvCells(it);
    NumberTextNoNewline(it.itemId, it.price);
    NumberTextNoNewline(it.quantity, it.price);
    EscapeAddsNoNewline(it.title);
    EscapeAddsNoNewline(it.condition);
    EscapeAddsNoNewline(it.category);
    if it.brand.Some? {
      EscapeAddsNoNewline(it.brand.value);
    }
    JoinAvoids(cells, ",", '\n');
    CountAbsent(Join(cells, ","), '\n');
    CountConcat(Join(cells, ","), "\n", '\n');
  }

  /** Items without newlines in their text give exactly one line each
      after the header: quoting never breaks a line. */
  lemma {:induction false} CsvLinesCount(items: seq<InventoryItem>)
    requires forall k :: 0 <= k < |items| ==> SingleLine(items[k])
    ensures Count(CsvLines(items), '\n') == |items|
    decreases |items|
  {
    if |items| > 0 {
      CsvLinesCount(items[1..]);
      CsvLineIsOneLine(items[0]);
      CountConcat(CsvLine(items[0]), CsvLines(items[1..]), '\n');
    }
  }

  // ---------------------------------------------------------------------
  // Table listing
  // ---------------------------------------------------------------------

  const TABLE_HEADER := "ID  | Title                                                | Price   | Qty | Condition | Category | Brand\n"
  const TABLE_SEPARATOR := "----|------------------------------------------------------|---------|-----|-----------|----------|-------\n"

  /** A cell cut to fit: text longer than `limit` keeps its first `keep`
      characters followed by `...`. */
  function Shorten(s: string, limit: nat, keep: nat): (r: string)
    requires keep <= limit
  {
    if |s| > limit then s[..keep] + "..." else s
  }

  /** What shortening keeps: short text whole, long text as a prefix with
      an ellipsis, never longer than the limit when the ellipsis fits. */
  lemma ShortenKeeps(s: string, limit: nat, keep: nat)
    requires keep + 3 <= limit
    ensures |s| <= limit <==> Shorten(s, limit, keep) == s
    ensures |Shorten(s, limit, keep)| <= limit
    ensures |s| > limit ==> Shorten(s, limit, keep) == s[..keep] + "..."
  {
  }

  /** Shortening twice is shortening once. */
  lemma ShortenIdempotent(s: string, limit: nat, keep: nat)
    requires keep + 3 <= limit
    ensures Shorten(Shorten(s, limit, keep), limit, keep) == Shorten(s, limit, keep)
  {
  }

  const TITLE_WIDTH := 50
  const BRAND_WIDTH := 30

  function TitleCell(title: string): string {
    Shorten(title, TITLE_WIDTH, TITLE_WIDTH - 3)
  }

  function BrandCell(brand: Option<string>): string {
    Shorten(brand.GetOr(""), BRAND_WIDTH, BRAND_WIDTH - 3)
  }

  /** One table row: left-aligned columns 4, 50, 7, 3, 9 and 8 wide with
      ` | ` between them and `$` before the price; the brand comes last. */
  function TableLine(it: InventoryItem): string {
    PadRight(IntText(it.itemId), 4) + " | " + PadRight(TitleCell(it.title), TITLE_WIDTH)
    + " | $" + PadRight(Fixed2Text(it.price), 7) + " | " + PadRight(IntText(it.quantity), 3)
    + " | " + PadRight(it.condition, 9) + " | " + PadRight(it.category, 8)
    + " | " + BrandCell(it.brand) + "\n"
  }

  function TableLines(items: seq<InventoryItem>): string {
    if |items| == 0 then "" else TableLine(items[0]) + TableLines(items[1..])
  }

  /** The table listing: header and separator, then one row per item. */
  function FormatTable(items: seq<InventoryItem>): (r: string)
    ensures |r| >= |TABLE_HEADER + TABLE_SEPARATOR|
    ensures r[..|TABLE_HEADER + TABLE_SEPARATOR|] == TABLE_HEADER + TABLE_SEPARATOR
    ensures |items| == 0 ==> r == TABLE_HEADER + TABLE_SEPARATOR
  {
    TABLE_HEADER + TABLE_SEPARATOR + TableLines(items)
  }

  /** The title column is always exactly 50 characters wide and begins with
      the title, whole when it fits and cut to 47 characters otherwise. */
  lemma TitleColumn(it: InventoryItem)
    ensures var col := PadRight(TitleCell(it.title), TITLE_WIDTH);
            var shown := if |it.title| <= TITLE_WIDTH then |it.title| else TITLE_WIDTH - 3;
            && |col| == TITLE_WIDTH
            && col[..shown] == it.title[..shown]
  {
    var cell := TitleCell(it.title);
    ShortenKeeps(it.title, TITLE_WIDTH, TITLE_WIDTH - 3);
    var col := PadRight(cell, TITLE_WIDTH);
    var shown := if |it.title| <= TITLE_WIDTH then |it.title| else TITLE_WIDTH - 3;
    assert col[..|cell|] == cell;
    assert col[..shown] == cell[..shown];
  }

  // ---------------------------------------------------------------------
  // Choosing the renderer
  // ---------------------------------------------------------------------

  /** What a listing renders to: JSON is the serialised item list itself
      (serialisation is outside this model); CSV and table are text. */
  datatype Rendered = AsJson(items: seq<InventoryItem>) | AsText(text: string)

  const UNSUPPORTED_FORMAT := "Unsupported format: "

  /** Rendering by format name, compared case-insensitively; any other name
      is an error that quotes the name as given. */
  function FormatItems(items: seq<InventoryItem>, format: string): (r: Result<Rendered>)
    ensures r.Ok? <==> ToLower(format) in ["json", "csv", "table"]
    ensures r.Err? ==> r.error == UNSUPPORTED_FORMAT + format
    ensures ToLower(format) == "json" ==> r == Ok(AsJson(items))
    ensures ToLower(format) == "csv" ==> r == Ok(AsText(FormatCsv(items)))
    ensures ToLower(format) == "table" ==> r == Ok(AsText(FormatTable(items)))
  {
    var f := ToLower(format);
    if f == "json" then Ok(AsJson(items))
    else if f == "csv" then Ok(AsText(FormatCsv(items)))
    else if f == "table" then Ok(AsText(FormatTable(items)))
    else Err(UNSUPPORTED_FORMAT + format)
  }

  /** Names that differ only in letter case render alike. */
  lemma FormatNameIgnoresCase(items: seq<InventoryItem>, f1: string, f2: string)
    requires ToLower(f1) == ToLower(f2)
    ensures FormatItems(items, f1).Ok? <==> FormatItems(items, f2).Ok?
    ensures FormatItems(items, f1).Ok? ==> FormatItems(items, f1) == FormatItems(items, f2)
  {
  }

  /** `CSV` in capitals selects the CSV renderer. */
  lemma UpperCaseCsv(items: seq<InventoryItem>)
    ensures FormatItems(items, "CSV") == Ok(AsText(FormatCsv(items)))
  {
    assert ToLower("CSV") == "csv";
  }
}
