/** The `items` table and the three queries the pipelines use: insert,
    lookup by id and partial update. The table is a map from `item_id` to
    row; the CHECK and NOT NULL constraints of the schema are the row
    invariant, and a statement that would break one fails with the
    constraint's error instead of changing the table. */
module Store {
  import opened Wrappers
  import opened Text
  import opened Numbers
  import opened Seqs

  // ---------------------------------------------------------------------
  // Rows and their constraints
  // ---------------------------------------------------------------------

  /** The columns a caller supplies on insert (`NewItem`). NOT NULL columns
      are plain values, nullable ones are options. */
  datatype NewItem = NewItem(
    title: string,
    description: Option<string>,
    price: real,
    quantity: int,
    photos: Option<string>,
    category: string,
    condition: string,
    brand: Option<string>,
    upc: Option<string>,
    itemSpecifics: Option<string>,
    shippingDetails: Option<string>,
    size: Option<string>,
    originalPrice: Option<real>,
    hashtags: Option<string>,
    colorway: Option<string>,
    releaseDate: Option<string>,
    platformStatus: Option<string>,
    internalNotes: Option<string>,
    status: string)

  /** A stored row: the supplied columns plus the `last_updated` stamp the
      store adds. */
  datatype Record = Record(item: NewItem, lastUpdated: string)

  const MAX_STORED_TITLE: nat := 80
  const STATUSES: seq<string> := ["active", "sold", "draft"]

  const TITLE_CHECK := "CHECK constraint failed: length(title) <= 80"
  const PRICE_CHECK := "CHECK constraint failed: price >= 0"
  const QUANTITY_CHECK := "CHECK constraint failed: quantity >= 0"
  const STATUS_CHECK := "CHECK constraint failed: status IN ('active', 'sold', 'draft')"

  /** The CHECK constraints of the table. */
  predicate RowOk(r: Record) {
    && |r.item.title| <= MAX_STORED_TITLE
    && r.item.price >= 0.0
    && r.item.quantity >= 0
    && r.item.status in STATUSES
  }

  /** The first CHECK constraint, in declaration order, that a row breaks. */
  function CheckViolation(r: Record): (v: Option<string>)
    ensures v.None? <==> RowOk(r)
    ensures v.Some? ==> v.value in {TITLE_CHECK, PRICE_CHECK, QUANTITY_CHECK, STATUS_CHECK}
  {
    if |r.item.title| > MAX_STORED_TITLE then Some(TITLE_CHECK)
    else if r.item.price < 0.0 then Some(PRICE_CHECK)
    else if r.item.quantity < 0 then Some(QUANTITY_CHECK)
    else if r.item.status !in STATUSES then Some(STATUS_CHECK)
    else None
  }

  // ---------------------------------------------------------------------
  // The table
  // ---------------------------------------------------------------------

  /** The rows by `item_id`, and the id AUTOINCREMENT hands out next. */
  datatype Store = Store(rows: map<int, Record>, nextId: int)

  const EMPTY: Store := Store(map[], 1)

  /** Every stored row meets the constraints, and every id is one that
      AUTOINCREMENT handed out before. */
  predicate Valid(s: Store) {
    && s.nextId >= 1
    && (forall id :: id in s.rows ==> 1 <= id < s.nextId)
    && (forall id :: id in s.rows ==> RowOk(s.rows[id]))
  }

  lemma EmptyValid()
    ensures Valid(EMPTY) && |EMPTY.rows| == 0
  {
  }

  /** `insert_item`: adds exactly one row under a fresh id, stamped with
      `now`, or fails with the constraint it breaks and changes nothing. */
  function InsertItem(s: Store, item: NewItem, now: string): (r: Result<Store>)
    ensures r.Ok? <==> RowOk(Record(item, now))
    ensures r.Err? ==> r.error == CheckViolation(Record(item, now)).value
    ensures r.Ok? ==> s.nextId in r.value.rows && r.value.rows[s.nextId] == Record(item, now)
    ensures r.Ok? && Valid(s) ==> forall id :: id in s.rows ==> id in r.value.rows && r.value.rows[id] == s.rows[id]
    ensures r.Ok? && Valid(s) ==> Valid(r.value) && |r.value.rows| == |s.rows| + 1
    ensures r.Ok? ==> r.value.rows.Keys == s.rows.Keys + {s.nextId}
  {
    var rec := Record(item, now);
    match CheckViolation(rec)
    case Some(msg) => Err(msg)
    case None => Ok(Store(s.rows[s.nextId := rec], s.nextId + 1))
  }

  // ---------------------------------------------------------------------
  // Lookup
  // ---------------------------------------------------------------------

  /** A looked-up row: the eight columns `get_item_by_id` reads
      (`item_id`, `title`, `price`, `quantity`, `category`, `condition`,
      `brand`, `upc`), each as text. */
  datatype ItemView = ItemView(
    itemId: string,
    title: string,
    price: string,
    quantity: string,
    category: string,
    condition: string,
    brand: string,
    upc: string)

  /** `get_item_by_id`: `None` for an absent id; otherwise the columns as
      text, with the price to two decimals and a NULL brand or UPC read as
      the empty string. */
  function GetItemById(s: Store, id: int): (r: Option<ItemView>)
    ensures r.None? <==> id !in s.rows
    ensures r.Some? ==> var it := s.rows[id].item;
      && r.value.title == it.title && r.value.category == it.category
      && r.value.condition == it.condition
      && (r.value.brand == "" <==> it.brand.None? || it.brand == Some(""))
      && (r.value.upc == "" <==> it.upc.None? || it.upc == Some(""))
      && r.value.brand == it.brand.GetOr("") && r.value.upc == it.upc.GetOr("")
  {
    if id !in s.rows then None
    else
      var it := s.rows[id].item;
      Some(ItemView(IntText(id), it.title, Fixed2Text(it.price), IntText(it.quantity),
                    it.category, it.condition, it.brand.GetOr(""), it.upc.GetOr("")))
  }

  /** What a reader of the view gets back: the id and the price rounded to
      cents parse back, and the quantity parses back exactly when it fits
      in an `i32`. */
  lemma ViewReadBack(s: Store, id: int)
    requires id in s.rows
    ensures var v := GetItemById(s, id).value;
            var it := s.rows[id].item;
            && ParseI64(v.itemId) == (if I64_MIN <= id <= I64_MAX then Some(id) else None)
            && ParseDecimal(v.price) == Some(RoundCents(it.price))
            && (I32_MIN <= it.quantity <= I32_MAX ==> ParseI32(v.quantity) == Some(it.quantity))
  {
    var it := s.rows[id].item;
    ParseFixed2Text(it.price);
    if I32_MIN <= it.quantity <= I32_MAX {
      ParseIntText(it.quantity, I32_MIN, I32_MAX);
    }
    if I64_MIN <= id <= I64_MAX {
      ParseIntText(id, I64_MIN, I64_MAX);
    } else {
      IntTextOutOfRange(id, I64_MIN, I64_MAX);
    }
  }

  // ---------------------------------------------------------------------
  // Partial update
  // ---------------------------------------------------------------------

  /** The columns `update_item` may set; `None` leaves a column alone. */
  datatype Patch = Patch(
    title: Option<string>,
    price: Option<real>,
    quantity: Option<int>,
    category: Option<string>,
    condition: Option<string>,
    brand: Option<string>,
    upc: Option<string>)

  const NO_CHANGE: Patch := Patch(None, None, None, None, None, None, None)

  /** The assignable columns in the order `update_item` visits them, then
      the timestamp it always sets. */
  const SET_ORDER: seq<string> := ["title", "price", "quantity", "category", "condition", "brand", "upc", "last_updated"]

  /** Which entries of `SET_ORDER` the patch supplies; the timestamp always. */
  function Supplied(p: Patch): (m: seq<bool>)
    ensures |m| == |SET_ORDER| && m[7]
  {
    [p.title.Some?, p.price.Some?, p.quantity.Some?, p.category.Some?,
     p.condition.Some?, p.brand.Some?, p.upc.Some?, true]
  }

  /** The column names of the SET list: `update_item` pushes each column
      whose value is `Some`, in `SET_ORDER`, then always the timestamp. */
  function SetColumns(p: Patch): (r: seq<string>)
    ensures |r| >= 1 && r[|r| - 1] == "last_updated"
  {
    SelectLast(SET_ORDER, Supplied(p));
    Select(SET_ORDER, Supplied(p))
  }

  lemma SetOrderDistinct()
    ensures Distinct(SET_ORDER)
  {
  }

  /** A column is in the SET list iff the patch supplies it (the timestamp
      always is), so the "nothing to update" early return cannot be taken. */
  lemma SetListNamesSuppliedColumns(p: Patch, k: nat)
    requires k < |SET_ORDER|
    ensures SET_ORDER[k] in SetColumns(p) <==> Supplied(p)[k]
    ensures |SetColumns(p)| >= 1
  {
    SetOrderDistinct();
    SelectedIffMarked(SET_ORDER, Supplied(p), k);
  }

  /** The text bound for each entry of `SET_ORDER` (numbers in their
      `to_string` form); only the supplied ones are used. */
  function ParamTexts(p: Patch, now: string): (r: seq<string>)
    ensures |r| == |SET_ORDER|
  {
    [p.title.GetOr(""),
     if p.price.Some? then RealText(p.price.value) else "",
     if p.quantity.Some? then IntText(p.quantity.value) else "",
     p.category.GetOr(""), p.condition.GetOr(""), p.brand.GetOr(""), p.upc.GetOr(""),
     now]
  }

  /** The parameter texts bound to the placeholders, pushed alongside the
      SET columns, then the id for the WHERE clause. */
  function UpdateParams(id: int, p: Patch, now: string): (r: seq<string>)
    ensures |r| >= 2 && r[|r| - 1] == IntText(id) && r[|r| - 2] == now
  {
    SelectLast(ParamTexts(p, now), Supplied(p));
    Select(ParamTexts(p, now), Supplied(p)) + [IntText(id)]
  }

  /** One parameter per SET column, in the same order, then the id: the
      pairs (column, parameter) are exactly the supplied entries of
      `SET_ORDER` with their values. */
  lemma ParamsMatchColumns(id: int, p: Patch, now: string)
    ensures var params := UpdateParams(id, p, now);
            var cols := SetColumns(p);
            && |params| == |cols| + 1
            && Zip(cols, params[..|cols|]) == Select(Zip(SET_ORDER, ParamTexts(p, now)), Supplied(p))
  {
    SelectedWithTail(SET_ORDER, ParamTexts(p, now), Supplied(p), IntText(id));
  }

  /** The statement text `update_item` runs. */
  function UpdateStatement(p: Patch): string {
    var cols := SetColumns(p);
    "UPDATE items SET " + Join(seq(|cols|, i requires 0 <= i < |cols| => cols[i] + " = ?"), ", ")
    + " WHERE item_id = ?"
  }

  /** The error `update_item` reports when no row has the id. */
  const NO_ROW_UPDATED := "Execute returned results - did you mean to call query?"

  /** The row after an UPDATE that sets the supplied columns and the stamp. */
  function ApplyPatch(r: Record, p: Patch, now: string): Record {
    Record(r.item.(
      title := p.title.GetOr(r.item.title),
      price := p.price.GetOr(r.item.price),
      quantity := p.quantity.GetOr(r.item.quantity),
      category := p.category.GetOr(r.item.category),
      condition := p.condition.GetOr(r.item.condition),
      brand := p.brand.Or(r.item.brand),
      upc := p.upc.Or(r.item.upc)), now)
  }

  /** `update_item`: the row with the id gets exactly the supplied columns
      and a new stamp; every other column and every other row keeps its
      value. No such row, or a value that breaks a constraint, is an error
      and leaves the table as it was. */
  function UpdateItem(s: Store, id: int, p: Patch, now: string): (r: Result<Store>)
    ensures id !in s.rows ==> r == Err(NO_ROW_UPDATED)
    ensures id in s.rows ==> (r.Ok? <==> RowOk(ApplyPatch(s.rows[id], p, now)))
    ensures r.Ok? ==> r.value.nextId == s.nextId && r.value.rows.Keys == s.rows.Keys
    ensures r.Ok? ==> forall k :: k in s.rows && k != id ==> r.value.rows[k] == s.rows[k]
    ensures r.Ok? ==> UpdatedAsPatched(s.rows[id], r.value.rows[id], p, now)
    ensures r.Ok? && Valid(s) ==> Valid(r.value)
  {
    if id !in s.rows then Err(NO_ROW_UPDATED)
    else
      var n := ApplyPatch(s.rows[id], p, now);
      match CheckViolation(n)
      case Some(msg) => Err(msg)
      case None => Ok(s.(rows := s.rows[id := n]))
  }

  /** `after` is `before` with the supplied columns replaced, the stamp set
      to `now`, and every column the patch does not supply unchanged. */
  predicate UpdatedAsPatched(before: Record, after: Record, p: Patch, now: string) {
    var b := before.item;
    var a := after.item;
    && after.lastUpdated == now
    && (if p.title.Some? then a.title == p.title.value else a.title == b.title)
    && (if p.price.Some? then a.price == p.price.value else a.price == b.price)
    && (if p.quantity.Some? then a.quantity == p.quantity.value else a.quantity == b.quantity)
    && (if p.category.Some? then a.category == p.category.value else a.category == b.category)
    && (if p.condition.Some? then a.condition == p.condition.value else a.condition == b.condition)
    && (if p.brand.Some? then a.brand == p.brand else a.brand == b.brand)
    && (if p.upc.Some? then a.upc == p.upc else a.upc == b.upc)
    && a.description == b.description && a.photos == b.photos
    && a.itemSpecifics == b.itemSpecifics && a.shippingDetails == b.shippingDetails
    && a.size == b.size && a.originalPrice == b.originalPrice
    && a.hashtags == b.hashtags && a.colorway == b.colorway
    && a.releaseDate == b.releaseDate && a.platformStatus == b.platformStatus
    && a.internalNotes == b.internalNotes && a.status == b.status
  }

  /** An update that supplies nothing still succeeds on a stored row and
      changes only its timestamp. */
  lemma EmptyPatchTouchesOnlyTimestamp(s: Store, id: int, now: string)
    requires Valid(s) && id in s.rows
    ensures UpdateItem(s, id, NO_CHANGE, now) == Ok(s.(rows := s.rows[id := s.rows[id].(lastUpdated := now)]))
  {
    assert RowOk(s.rows[id]);
    assert ApplyPatch(s.rows[id], NO_CHANGE, now) == s.rows[id].(lastUpdated := now);
  }
}
