/** The validation engine: per-field rules and the four platform bundles.
    Every validator is total and returns the ordered list of field errors
    it found; a record is valid exactly when that list is empty. The
    `Result` wrapper the program puts around each list is always `Ok`, so
    it is dropped here. */
module Validation {
  import opened Wrappers
  import opened Text
  import opened Numbers

  /** The field an error is about. `Name` is the column name written to
      the error ledger; `Other` stands for any name the program does not
      know (it can only come from a ledger read back from disk). */
  datatype Field =
    | Id | Title | Price | Quantity | Category | Condition | Brand | Upc | Size | CsvParse
    | Other(name: string)
  {
    function Name(): string {
      match this
      case Id => "id"
      case Title => "title"
      case Price => "price"
      case Quantity => "quantity"
      case Category => "category"
      case Condition => "condition"
      case Brand => "brand"
      case Upc => "upc"
      case Size => "size"
      case CsvParse => "csv_parse"
      case Other(n) => n
    }
  }

  /** One field error. `row` and `value` are optional; the engine itself
      leaves `row` unset and fills `value` with the text of what it checked. */
  datatype ValidationError = ValidationError(
    field: Field,
    message: string,
    row: Option<nat>,
    value: Option<string>)

  datatype Platform = Ebay | StockX | Poshmark | Mercari

  const MAX_TITLE: nat := 80
  const MAX_PRICE: real := 999999.99
  const MAX_QUANTITY: int := 999999
  const MAX_BRAND: nat := 100

  const VALID_CONDITIONS: seq<string> := ["new", "used", "deadstock", "like new", "good", "fair"]

  const TITLE_EMPTY := "Title cannot be empty"
  const PRICE_NEGATIVE := "Price must be non-negative"
  const PRICE_TOO_HIGH := "Price exceeds maximum allowed value"
  const QUANTITY_NEGATIVE := "Quantity must be non-negative"
  const QUANTITY_TOO_HIGH := "Quantity exceeds maximum allowed value"
  const UPC_REQUIRED := "UPC is required for StockX listings"
  const UPC_DIGITS := "UPC must be 12 or 13 digits"
  const SIZE_REQUIRED_POSHMARK := "Size is required for Poshmark clothing items"
  const SIZE_REQUIRED_STOCKX := "Size is required for StockX listings"
  const CATEGORY_EMPTY := "Category cannot be empty"
  const BRAND_TOO_LONG := "Brand name exceeds 100 character limit"

  function PlatformName(p: Platform): string {
    match p
    case Ebay => "eBay"
    case StockX => "StockX"
    case Poshmark => "Poshmark"
    case Mercari => "Mercari"
  }

  function TitleLimitMessage(p: Platform): string {
    "Exceeds " + PlatformName(p) + "'s 80-character limit"
  }

  const CONDITION_INVALID := "Invalid condition. Must be one of: new, used, deadstock, like new, good, fair"

  /** `ValidationResult::is_valid`: no errors. */
  predicate IsValid(errors: seq<ValidationError>) {
    |errors| == 0
  }

  /** The field names of a list of errors, in order. */
  function Fields(errors: seq<ValidationError>): (r: seq<Field>)
    ensures |r| == |errors|
    ensures forall i :: 0 <= i < |errors| ==> r[i] == errors[i].field
  {
    if |errors| == 0 then [] else [errors[0].field] + Fields(errors[1..])
  }

  /** Every error is on field `f`, has no row yet, and carries `v` as its value. */
  predicate Reports(errors: seq<ValidationError>, f: Field, v: string) {
    |errors| == 0 || (
      && errors[0].field == f && errors[0].row == None && errors[0].value == Some(v)
      && Reports(errors[1..], f, v))
  }

  /** No error has a row number yet. */
  predicate Unplaced(errors: seq<ValidationError>) {
    |errors| == 0 || (errors[0].row == None && Unplaced(errors[1..]))
  }

  /** One engine error: no row yet, the checked text as its value. */
  function FieldError(field: Field, message: string, value: string): ValidationError {
    ValidationError(field, message, None, Some(value))
  }

  // ---------------------------------------------------------------------
  // The rules, stated on their own. Each validator below is proved to
  // report nothing exactly when its rule holds.
  // ---------------------------------------------------------------------

  predicate TitleOk(title: string) {
    |title| <= MAX_TITLE && !IsBlank(title)
  }

  predicate PriceOk(price: real) {
    0.0 <= price <= MAX_PRICE
  }

  predicate QuantityOk(quantity: int) {
    0 <= quantity <= MAX_QUANTITY
  }

  predicate CategoryOk(category: string) {
    !IsBlank(category)
  }

  predicate ConditionOk(condition: string) {
    ToLower(condition) in VALID_CONDITIONS
  }

  predicate BrandOk(brand: string) {
    IsBlank(brand) || |brand| <= MAX_BRAND
  }

  /** The number of ASCII digits in `s`; everything else is ignored. */
  function DigitCount(s: string): (n: nat)
    ensures n <= |s|
  {
    if |s| == 0 then 0 else (if IsDigit(s[0]) then 1 else 0) + DigitCount(s[1..])
  }

  predicate UpcDigitsOk(upc: string) {
    DigitCount(upc) == 12 || DigitCount(upc) == 13
  }

  predicate SizeOk(size: string) {
    !IsBlank(size)
  }

  // ---------------------------------------------------------------------
  // Field validators
  // ---------------------------------------------------------------------

  /** The title rule of every platform; only the limit message names the
      platform. The length error, when present, comes first and the
      emptiness error last (a title of 81 spaces gets both). */
  function ValidateTitle(p: Platform, title: string): (r: seq<ValidationError>)
    ensures |r| <= 2 && Reports(r, Title, title)
    ensures |title| > MAX_TITLE <==> |r| > 0 && r[0].message == TitleLimitMessage(p)
    ensures IsBlank(title) <==> |r| > 0 && r[|r| - 1].message == TITLE_EMPTY
    ensures IsValid(r) <==> TitleOk(title)
  {
    (if |title| > MAX_TITLE then [FieldError(Title, TitleLimitMessage(p), title)] else [])
    + (if Trim(title) == [] then [FieldError(Title, TITLE_EMPTY, title)] else [])
  }

  /** At most one price error: negative, or above 999999.99. */
  function ValidatePrice(price: real): (r: seq<ValidationError>)
    ensures Reports(r, Price, RealText(price))
    ensures price < 0.0 ==> r == [FieldError(Price, PRICE_NEGATIVE, RealText(price))]
    ensures price > MAX_PRICE ==> r == [FieldError(Price, PRICE_TOO_HIGH, RealText(price))]
    ensures PriceOk(price) ==> r == []
  {
    (if price < 0.0 then [FieldError(Price, PRICE_NEGATIVE, RealText(price))] else [])
    + (if price > MAX_PRICE then [FieldError(Price, PRICE_TOO_HIGH, RealText(price))] else [])
  }

  /** At most one quantity error: negative, or above 999999. */
  function ValidateQuantity(quantity: int): (r: seq<ValidationError>)
    ensures Reports(r, Quantity, IntText(quantity))
    ensures quantity < 0 ==> r == [FieldError(Quantity, QUANTITY_NEGATIVE, IntText(quantity))]
    ensures quantity > MAX_QUANTITY ==> r == [FieldError(Quantity, QUANTITY_TOO_HIGH, IntText(quantity))]
    ensures QuantityOk(quantity) ==> r == []
  {
    (if quantity < 0 then [FieldError(Quantity, QUANTITY_NEGATIVE, IntText(quantity))] else [])
    + (if quantity > MAX_QUANTITY then [FieldError(Quantity, QUANTITY_TOO_HIGH, IntText(quantity))] else [])
  }

  /** StockX: a blank UPC gives only the "required" error (the digit count
      is not looked at); otherwise an error iff the digit count is not 12
      or 13. */
  function ValidateUpcStockX(upc: string): (r: seq<ValidationError>)
    ensures Reports(r, Upc, upc)
    ensures IsBlank(upc) ==> r == [FieldError(Upc, UPC_REQUIRED, upc)]
    ensures !IsBlank(upc) && !UpcDigitsOk(upc) ==> r == [FieldError(Upc, UPC_DIGITS, upc)]
    ensures !IsBlank(upc) && UpcDigitsOk(upc) ==> r == []
  {
    if Trim(upc) == [] then [FieldError(Upc, UPC_REQUIRED, upc)]
    else if !UpcDigitsOk(upc) then [FieldError(Upc, UPC_DIGITS, upc)]
    else []
  }

  /** eBay: a blank UPC is fine; otherwise the 12-or-13-digit rule. */
  function ValidateUpcEbay(upc: string): (r: seq<ValidationError>)
    ensures Reports(r, Upc, upc)
    ensures r == [] || r == [FieldError(Upc, UPC_DIGITS, upc)]
    ensures IsValid(r) <==> IsBlank(upc) || UpcDigitsOk(upc)
  {
    if Trim(upc) != [] && !UpcDigitsOk(upc) then [FieldError(Upc, UPC_DIGITS, upc)] else []
  }

  /** eBay checks a UPC only when the listing has one. */
  function ValidateUpcEbayIfGiven(upc: Option<string>): (r: seq<ValidationError>)
    ensures Reports(r, Upc, upc.GetOr(""))
    ensures upc.None? ==> r == []
    ensures IsValid(r) <==> (upc.Some? ==> IsBlank(upc.value) || UpcDigitsOk(upc.value))
  {
    match upc
    case None => []
    case Some(u) => ValidateUpcEbay(u)
  }

  /** The two UPC rules agree on every non-blank UPC. */
  lemma UpcRulesAgreeWhenPresent(upc: string)
    requires !IsBlank(upc)
    ensures ValidateUpcEbay(upc) == ValidateUpcStockX(upc)
  {
  }

  function ValidateSizePoshmark(size: string): (r: seq<ValidationError>)
    ensures Reports(r, Size, size)
    ensures r == [] || r == [FieldError(Size, SIZE_REQUIRED_POSHMARK, size)]
    ensures IsValid(r) <==> SizeOk(size)
  {
    if Trim(size) == [] then [FieldError(Size, SIZE_REQUIRED_POSHMARK, size)] else []
  }

  function ValidateSizeStockX(size: string): (r: seq<ValidationError>)
    ensures Reports(r, Size, size)
    ensures r == [] || r == [FieldError(Size, SIZE_REQUIRED_STOCKX, size)]
    ensures IsValid(r) <==> SizeOk(size)
  {
    if Trim(size) == [] then [FieldError(Size, SIZE_REQUIRED_STOCKX, size)] else []
  }

  /** Valid iff the lower-cased condition is one of the six names. */
  function ValidateCondition(condition: string): (r: seq<ValidationError>)
    ensures Reports(r, Condition, condition)
    ensures r == [] || r == [FieldError(Condition, CONDITION_INVALID, condition)]
    ensures IsValid(r) <==> ConditionOk(condition)
  {
    if ToLower(condition) !in VALID_CONDITIONS then
      [FieldError(Condition, CONDITION_INVALID, condition)]
    else []
  }

  function ValidateCategory(category: string): (r: seq<ValidationError>)
    ensures Reports(r, Category, category)
    ensures r == [] || r == [FieldError(Category, CATEGORY_EMPTY, category)]
    ensures IsValid(r) <==> CategoryOk(category)
  {
    if Trim(category) == [] then [FieldError(Category, CATEGORY_EMPTY, category)] else []
  }

  /** A blank brand is fine whatever its length; otherwise at most 100. */
  function ValidateBrand(brand: string): (r: seq<ValidationError>)
    ensures Reports(r, Brand, brand)
    ensures r == [] || r == [FieldError(Brand, BRAND_TOO_LONG, brand)]
    ensures IsValid(r) <==> BrandOk(brand)
  {
    if Trim(brand) != [] && |brand| > MAX_BRAND then [FieldError(Brand, BRAND_TOO_LONG, brand)] else []
  }

  /** Every platform checks a brand only when the listing has one. */
  function ValidateBrandIfGiven(brand: Option<string>): (r: seq<ValidationError>)
    ensures Reports(r, Brand, brand.GetOr(""))
    ensures brand.None? ==> r == []
    ensures IsValid(r) <==> (brand.Some? ==> BrandOk(brand.value))
  {
    match brand
    case None => []
    case Some(b) => ValidateBrand(b)
  }

  // ---------------------------------------------------------------------
  // Field order of the bundles
  // ---------------------------------------------------------------------

  /** Rank given to fields a platform does not check. */
  const UNCHECKED: nat := 8

  /** The position at which platform `p` checks field `f`: title, price,
      quantity, category and condition first on every platform, then
      eBay: brand, upc; StockX: upc, size, brand; Poshmark: size, brand;
      Mercari: brand. */
  function FieldRank(p: Platform, f: Field): (k: nat)
    ensures k <= UNCHECKED
  {
    match f
    case Title => 0
    case Price => 1
    case Quantity => 2
    case Category => 3
    case Condition => 4
    case Brand => (match p case Ebay => 5 case StockX => 7 case Poshmark => 6 case Mercari => 5)
    case Upc => (match p case Ebay => 6 case StockX => 5 case _ => UNCHECKED)
    case Size => (match p case StockX => 6 case Poshmark => 5 case _ => UNCHECKED)
    case _ => UNCHECKED
  }

  /** Errors appear grouped by field, in the order platform `p` checks them. */
  predicate InOrder(errors: seq<ValidationError>, p: Platform) {
    |errors| <= 1 || (
      && FieldRank(p, errors[0].field) <= FieldRank(p, errors[1].field)
      && InOrder(errors[1..], p))
  }

  /** No error is on a field `p` checks after position `k`. */
  predicate RanksAtMost(errors: seq<ValidationError>, p: Platform, k: nat) {
    |errors| == 0 || (FieldRank(p, errors[0].field) <= k && RanksAtMost(errors[1..], p, k))
  }

  /** Every error is on a field platform `p` checks. */
  predicate OnCheckedFields(errors: seq<ValidationError>, p: Platform) {
    RanksAtMost(errors, p, UNCHECKED - 1)
  }

  /** The recursive orders agree with their pointwise readings. */
  lemma {:induction false} InOrderPointwise(errors: seq<ValidationError>, p: Platform)
    requires InOrder(errors, p)
    ensures forall i, j :: 0 <= i < j < |errors| ==>
      FieldRank(p, errors[i].field) <= FieldRank(p, errors[j].field)
    decreases |errors|
  {
    if |errors| > 1 {
      InOrderPointwise(errors[1..], p);
      forall i, j | 0 <= i < j < |errors|
        ensures FieldRank(p, errors[i].field) <= FieldRank(p, errors[j].field)
      {
        if i > 0 {
          assert errors[i] == errors[1..][i - 1] && errors[j] == errors[1..][j - 1];
        } else if j > 1 {
          assert errors[1] == errors[1..][0] && errors[j] == errors[1..][j - 1];
        }
      }
    }
  }

  lemma {:induction false} RanksAtMostPointwise(errors: seq<ValidationError>, p: Platform, k: nat)
    requires RanksAtMost(errors, p, k)
    ensures forall i :: 0 <= i < |errors| ==> FieldRank(p, errors[i].field) <= k
    decreases |errors|
  {
    if |errors| > 0 {
      RanksAtMostPointwise(errors[1..], p, k);
      forall i | 0 < i < |errors|
        ensures FieldRank(p, errors[i].field) <= k
      {
        assert errors[i] == errors[1..][i - 1];
      }
    }
  }

  lemma {:induction false} RanksAtMostWeaken(errors: seq<ValidationError>, p: Platform, k: nat, k2: nat)
    requires RanksAtMost(errors, p, k) && k <= k2
    ensures RanksAtMost(errors, p, k2)
    decreases |errors|
  {
    if |errors| > 0 {
      RanksAtMostWeaken(errors[1..], p, k, k2);
    }
  }

  /** A group of errors all on one field is ordered, unplaced and bounded
      by that field's rank. */
  lemma {:induction false} ReportsOrdered(a: seq<ValidationError>, f: Field, v: string, p: Platform)
    requires Reports(a, f, v)
    ensures InOrder(a, p) && Unplaced(a) && RanksAtMost(a, p, FieldRank(p, f))
    decreases |a|
  {
    if |a| > 0 {
      ReportsOrdered(a[1..], f, v, p);
      if |a| > 1 {
        assert a[1] == a[1..][0];
      }
    }
  }

  /** Appending a group of errors on field `f` to a list that ranks no
      higher than `f` keeps it ordered and unplaced. */
  lemma {:induction false} Step(p: Platform, x: seq<ValidationError>, k: nat,
                                a: seq<ValidationError>, f: Field, v: string)
    requires InOrder(x, p) && Unplaced(x) && RanksAtMost(x, p, k) && k <= FieldRank(p, f)
    requires Reports(a, f, v)
    ensures InOrder(x + a, p) && Unplaced(x + a) && RanksAtMost(x + a, p, FieldRank(p, f))
    decreases |x|
  {
    if |x| == 0 {
      assert x + a == a;
      ReportsOrdered(a, f, v, p);
    } else {
      Step(p, x[1..], k, a, f, v);
      assert (x + a)[1..] == x[1..] + a;
      if |x| == 1 && |a| > 0 {
        assert (x + a)[1] == a[0];
      } else if |x| > 1 {
        assert (x + a)[1] == x[1];
      }
    }
  }

  /** Title, price, quantity, category and condition groups, in that
      order, make an ordered list on every platform. */
  lemma FiveGroupsOrdered(p: Platform, t: seq<ValidationError>, vt: string,
                          pr: seq<ValidationError>, vp: string, q: seq<ValidationError>, vq: string,
                          c: seq<ValidationError>, vc: string, co: seq<ValidationError>, vco: string)
    requires Reports(t, Title, vt) && Reports(pr, Price, vp) && Reports(q, Quantity, vq)
    requires Reports(c, Category, vc) && Reports(co, Condition, vco)
    ensures var r := t + pr + q + c + co;
      InOrder(r, p) && Unplaced(r) && RanksAtMost(r, p, 4)
  {
    assert [] + t == t;
    Step(p, [], 0, t, Title, vt);
    Step(p, t, 0, pr, Price, vp);
    Step(p, t + pr, 1, q, Quantity, vq);
    Step(p, t + pr + q, 2, c, Category, vc);
    Step(p, t + pr + q + c, 3, co, Condition, vco);
  }

  /** What all four bundles check first, in this order: title, price,
      quantity, category, condition. */
  function ValidateCommon(p: Platform, title: string, price: real, quantity: int,
                          category: string, condition: string): (r: seq<ValidationError>)
    ensures InOrder(r, p) && Unplaced(r) && RanksAtMost(r, p, 4)
    ensures IsValid(r) <==>
      TitleOk(title) && PriceOk(price) && QuantityOk(quantity) && CategoryOk(category) && ConditionOk(condition)
  {
    var t := ValidateTitle(p, title);
    var pr := ValidatePrice(price);
    var q := ValidateQuantity(quantity);
    var c := ValidateCategory(category);
    var co := ValidateCondition(condition);
    FiveGroupsOrdered(p, t, title, pr, RealText(price), q, IntText(quantity), c, category, co, condition);
    t + pr + q + c + co
  }

  /** One group a platform checks after the common five keeps the list
      ordered. */
  lemma OneGroupAfterCommon(p: Platform, common: seq<ValidationError>,
                            a: seq<ValidationError>, fa: Field, va: string)
    requires InOrder(common, p) && Unplaced(common) && RanksAtMost(common, p, 4)
    requires Reports(a, fa, va)
    requires 4 <= FieldRank(p, fa) < UNCHECKED
    ensures InOrder(common + a, p) && Unplaced(common + a) && OnCheckedFields(common + a, p)
  {
    Step(p, common, 4, a, fa, va);
    RanksAtMostWeaken(common + a, p, FieldRank(p, fa), UNCHECKED - 1);
  }

  /** Two groups after the common five, the second ranked no lower. */
  lemma TwoGroupsAfterCommon(p: Platform, common: seq<ValidationError>,
                             a: seq<ValidationError>, fa: Field, va: string,
                             b: seq<ValidationError>, fb: Field, vb: string)
    requires InOrder(common, p) && Unplaced(common) && RanksAtMost(common, p, 4)
    requires Reports(a, fa, va) && Reports(b, fb, vb)
    requires 4 <= FieldRank(p, fa) <= FieldRank(p, fb) < UNCHECKED
    ensures var r := common + a + b;
      InOrder(r, p) && Unplaced(r) && OnCheckedFields(r, p)
  {
    Step(p, common, 4, a, fa, va);
    Step(p, common + a, FieldRank(p, fa), b, fb, vb);
    RanksAtMostWeaken(common + a + b, p, FieldRank(p, fb), UNCHECKED - 1);
  }

  /** Three groups after the common five, each ranked no lower than the last. */
  lemma ThreeGroupsAfterCommon(p: Platform, common: seq<ValidationError>,
                               a: seq<ValidationError>, fa: Field, va: string,
                               b: seq<ValidationError>, fb: Field, vb: string,
                               c: seq<ValidationError>, fc: Field, vc: string)
    requires InOrder(common, p) && Unplaced(common) && RanksAtMost(common, p, 4)
    requires Reports(a, fa, va) && Reports(b, fb, vb) && Reports(c, fc, vc)
    requires 4 <= FieldRank(p, fa) <= FieldRank(p, fb) <= FieldRank(p, fc) < UNCHECKED
    ensures var r := common + a + b + c;
      InOrder(r, p) && Unplaced(r) && OnCheckedFields(r, p)
  {
    Step(p, common, 4, a, fa, va);
    Step(p, common + a, FieldRank(p, fa), b, fb, vb);
    Step(p, common + a + b, FieldRank(p, fb), c, fc, vc);
    RanksAtMostWeaken(common + a + b + c, p, FieldRank(p, fc), UNCHECKED - 1);
  }

  /** The ranks of the platform-specific fields. */
  lemma TailRanks()
    ensures FieldRank(Ebay, Brand) == 5 && FieldRank(Ebay, Upc) == 6
    ensures FieldRank(StockX, Upc) == 5 && FieldRank(StockX, Size) == 6 && FieldRank(StockX, Brand) == 7
    ensures FieldRank(Poshmark, Size) == 5 && FieldRank(Poshmark, Brand) == 6
    ensures FieldRank(Mercari, Brand) == 5
    ensures FieldRank(Mercari, Upc) == UNCHECKED && FieldRank(Mercari, Size) == UNCHECKED
  {
  }

  /** A field a platform does not check never shows up in a list that is
      only on checked fields. */
  lemma {:induction false} UncheckedAbsent(errors: seq<ValidationError>, p: Platform, f: Field)
    requires OnCheckedFields(errors, p) && FieldRank(p, f) == UNCHECKED
    ensures f !in Fields(errors)
    decreases |errors|
  {
    if |errors| > 0 {
      UncheckedAbsent(errors[1..], p, f);
      assert Fields(errors) == [errors[0].field] + Fields(errors[1..]);
    }
  }

  // ---------------------------------------------------------------------
  // Platform bundles
  // ---------------------------------------------------------------------

  /** eBay: the common checks, then brand and UPC only when given. */
  function ValidateItemEbay(title: string, price: real, quantity: int, category: string,
                            condition: string, brand: Option<string>, upc: Option<string>)
    : (r: seq<ValidationError>)
    ensures IsValid(r) <==>
      && TitleOk(title) && PriceOk(price) && QuantityOk(quantity)
      && CategoryOk(category) && ConditionOk(condition)
      && (brand.Some? ==> BrandOk(brand.value))
      && (upc.Some? ==> IsBlank(upc.value) || UpcDigitsOk(upc.value))
  {
    var common := ValidateCommon(Ebay, title, price, quantity, category, condition);
    var b := ValidateBrandIfGiven(brand);
    var u := ValidateUpcEbayIfGiven(upc);
    common + b + u
  }

  /** StockX: the common checks, then UPC and size always, then brand when given. */
  function ValidateItemStockX(title: string, price: real, quantity: int, category: string,
                              condition: string, brand: Option<string>, upc: string, size: string)
    : (r: seq<ValidationError>)
    ensures IsValid(r) <==>
      && TitleOk(title) && PriceOk(price) && QuantityOk(quantity)
      && CategoryOk(category) && ConditionOk(condition)
      && !IsBlank(upc) && UpcDigitsOk(upc) && SizeOk(size)
      && (brand.Some? ==> BrandOk(brand.value))
  {
    var common := ValidateCommon(StockX, title, price, quantity, category, condition);
    var u := ValidateUpcStockX(upc);
    var s := ValidateSizeStockX(size);
    var b := ValidateBrandIfGiven(brand);
    common + u + s + b
  }

  /** Poshmark: the common checks, then size always, then brand when given. */
  function ValidateItemPoshmark(title: string, price: real, quantity: int, category: string,
                                condition: string, brand: Option<string>, size: string)
    : (r: seq<ValidationError>)
    ensures IsValid(r) <==>
      && TitleOk(title) && PriceOk(price) && QuantityOk(quantity)
      && CategoryOk(category) && ConditionOk(condition) && SizeOk(size)
      && (brand.Some? ==> BrandOk(brand.value))
  {
    var common := ValidateCommon(Poshmark, title, price, quantity, category, condition);
    var s := ValidateSizePoshmark(size);
    var b := ValidateBrandIfGiven(brand);
    common + s + b
  }

  /** Mercari: the common checks, then brand when given; no UPC or size. */
  function ValidateItemMercari(title: string, price: real, quantity: int, category: string,
                               condition: string, brand: Option<string>)
    : (r: seq<ValidationError>)
    ensures IsValid(r) <==>
      && TitleOk(title) && PriceOk(price) && QuantityOk(quantity)
      && CategoryOk(category) && ConditionOk(condition)
      && (brand.Some? ==> BrandOk(brand.value))
  {
    var common := ValidateCommon(Mercari, title, price, quantity, category, condition);
    var b := ValidateBrandIfGiven(brand);
    common + b
  }

  /** The eBay errors come grouped by field in the order that platform
      checks them, with no row yet, and only on fields it checks. */
  lemma ValidateItemEbayOrdered(title: string, price: real, quantity: int, category: string,
      condition: string, brand: Option<string>, upc: Option<string>)
    ensures var r := ValidateItemEbay(title, price, quantity, category, condition, brand, upc);
      InOrder(r, Ebay) && Unplaced(r) && OnCheckedFields(r, Ebay)
  {
    var common := ValidateCommon(Ebay, title, price, quantity, category, condition);
    var b := ValidateBrandIfGiven(brand);
    var u := ValidateUpcEbayIfGiven(upc);
    TailRanks();
    TwoGroupsAfterCommon(Ebay, common, b, Brand, brand.GetOr(""), u, Upc, upc.GetOr(""));
  }

  /** The StockX errors come grouped by field in the order that platform
      checks them, with no row yet, and only on fields it checks. */
  lemma ValidateItemStockXOrdered(title: string, price: real, quantity: int, category: string,
      condition: string, brand: Option<string>, upc: string, size: string)
    ensures var r := ValidateItemStockX(title, price, quantity, category, condition, brand, upc, size);
      InOrder(r, StockX) && Unplaced(r) && OnCheckedFields(r, StockX)
  {
    var common := ValidateCommon(StockX, title, price, quantity, category, condition);
    var u := ValidateUpcStockX(upc);
    var s := ValidateSizeStockX(size);
    var b := ValidateBrandIfGiven(brand);
    TailRanks();
    ThreeGroupsAfterCommon(StockX, common, u, Upc, upc, s, Size, size, b, Brand, brand.GetOr(""));
  }

  /** The Poshmark errors come grouped by field in the order that platform
      checks them, with no row yet, and only on fields it checks. */
  lemma ValidateItemPoshmarkOrdered(title: string, price: real, quantity: int, category: string,
      condition: string, brand: Option<string>, size: string)
    ensures var r := ValidateItemPoshmark(title, price, quantity, category, condition, brand, size);
      InOrder(r, Poshmark) && Unplaced(r) && OnCheckedFields(r, Poshmark)
  {
    var common := ValidateCommon(Poshmark, title, price, quantity, category, condition);
    var s := ValidateSizePoshmark(size);
    var b := ValidateBrandIfGiven(brand);
    TailRanks();
    TwoGroupsAfterCommon(Poshmark, common, s, Size, size, b, Brand, brand.GetOr(""));
  }

  /** The Mercari errors come grouped by field in the order that platform
      checks them, with no row yet, and only on fields it checks. */
  lemma ValidateItemMercariOrdered(title: string, price: real, quantity: int, category: string,
      condition: string, brand: Option<string>)
    ensures var r := ValidateItemMercari(title, price, quantity, category, condition, brand);
      InOrder(r, Mercari) && Unplaced(r) && OnCheckedFields(r, Mercari)
  {
    var common := ValidateCommon(Mercari, title, price, quantity, category, condition);
    var b := ValidateBrandIfGiven(brand);
    TailRanks();
    OneGroupAfterCommon(Mercari, common, b, Brand, brand.GetOr(""));
  }

  // ---------------------------------------------------------------------
  // Properties relating several calls
  // ---------------------------------------------------------------------

  /** Mercari never reports on UPC or size, whatever the input. */
  lemma MercariChecksNoUpcOrSize(title: string, price: real, quantity: int, category: string,
                                 condition: string, brand: Option<string>)
    ensures Upc !in Fields(ValidateItemMercari(title, price, quantity, category, condition, brand))
    ensures Size !in Fields(ValidateItemMercari(title, price, quantity, category, condition, brand))
  {
    var r := ValidateItemMercari(title, price, quantity, category, condition, brand);
    ValidateItemMercariOrdered(title, price, quantity, category, condition, brand);
    TailRanks();
    UncheckedAbsent(r, Mercari, Upc);
    UncheckedAbsent(r, Mercari, Size);
  }

  /** 80 bytes pass the title rule; 81 fail with exactly the limit error. */
  lemma TitleBoundary(p: Platform)
    ensures ValidateTitle(p, seq(80, _ => 'a')) == []
    ensures ValidateTitle(p, seq(81, _ => 'a')) == [FieldError(Title, TitleLimitMessage(p), seq(81, _ => 'a'))]
  {
    var ok: string := seq(80, _ => 'a');
    var long: string := seq(81, _ => 'a');
    assert !IsWhitespace(ok[0]) && !IsWhitespace(long[0]);
  }

  /** Both title errors at once: 81 spaces are too long and blank. */
  lemma TitleOfSpaces(p: Platform)
    ensures Messages(ValidateTitle(p, seq(81, _ => ' '))) == [TitleLimitMessage(p), TITLE_EMPTY]
  {
    var t: string := seq(81, _ => ' ');
    assert IsBlank(t);
  }

  /** The messages of a list of errors, in order. */
  function Messages(errors: seq<ValidationError>): (r: seq<string>)
    ensures |r| == |errors|
    ensures forall i :: 0 <= i < |errors| ==> r[i] == errors[i].message
  {
    if |errors| == 0 then [] else [errors[0].message] + Messages(errors[1..])
  }

  /** Characters other than digits do not count towards the UPC length. */
  lemma {:induction false} DigitCountSkips(a: string, c: char, b: string)
    requires !IsDigit(c)
    ensures DigitCount(a + [c] + b) == DigitCount(a + b)
    decreases |a|
  {
    if |a| == 0 {
      assert a + [c] + b == [c] + b;
      assert ([c] + b)[1..] == b;
      assert a + b == b;
    } else {
      DigitCountSkips(a[1..], c, b);
      assert (a + [c] + b)[1..] == a[1..] + [c] + b;
      assert (a + b)[1..] == a[1..] + b;
    }
  }

  /** So a hyphen inserted anywhere in a non-blank UPC never changes the
      StockX verdict (`0-12345-67890-5` is as good as `012345678905`). */
  lemma HyphenInUpcIgnored(a: string, b: string)
    requires !IsBlank(a + b)
    ensures IsValid(ValidateUpcStockX(a + "-" + b)) <==> IsValid(ValidateUpcStockX(a + b))
  {
    DigitCountSkips(a, '-', b);
    var s := a + "-" + b;
    assert s[|a|] == '-';
  }

  /** A StockX item valid in every other respect, with empty UPC and empty
      size, fails on exactly the fields upc and size, in that order. */
  lemma StockXMissingUpcAndSize(title: string, price: real, quantity: int, category: string,
                                condition: string, brand: Option<string>)
    requires TitleOk(title) && PriceOk(price) && QuantityOk(quantity)
    requires CategoryOk(category) && ConditionOk(condition)
    requires brand.Some? ==> BrandOk(brand.value)
    ensures ValidateItemStockX(title, price, quantity, category, condition, brand, "", "")
            == [FieldError(Upc, UPC_REQUIRED, ""), FieldError(Size, SIZE_REQUIRED_STOCKX, "")]
  {
    var common := ValidateCommon(StockX, title, price, quantity, category, condition);
    var b := ValidateBrandIfGiven(brand);
    var u := ValidateUpcStockX("");
    var s := ValidateSizeStockX("");
    assert IsBlank("");
    assert common == [] && b == [];
    assert u == [FieldError(Upc, UPC_REQUIRED, "")];
    assert s == [FieldError(Size, SIZE_REQUIRED_STOCKX, "")];
    assert ValidateItemStockX(title, price, quantity, category, condition, brand, "", "") == common + u + s + b;
  }

  /** Poshmark always reports an empty size. */
  lemma PoshmarkRequiresSize(title: string, price: real, quantity: int, category: string,
                             condition: string, brand: Option<string>)
    ensures Size in Fields(ValidateItemPoshmark(title, price, quantity, category, condition, brand, ""))
  {
    var common := ValidateCommon(Poshmark, title, price, quantity, category, condition);
    var s := ValidateSizePoshmark("");
    var b := ValidateBrandIfGiven(brand);
    var r := common + s + b;
    assert r[|common|] == s[0];
    assert Fields(r)[|common|] == Size;
  }
}
