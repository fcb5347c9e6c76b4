/**
 * The add/update stock form: its default values, the transforms applied to
 * each edit, the per-field validators, which fields a mode shows, and what a
 * submit does. The form library's own state handling is not modelled; a
 * submit goes through only when no shown field reports an error.
 */
module StockModal {
  import opened Common
  import opened Text

  datatype Mode = Add | Update

  /** The form value handed to the page. */
  datatype StockFormData = StockFormData(ticker: string, quantity: int, buyPrice: real, purchaseDate: string)

  datatype FieldName = Ticker | Quantity | BuyPrice | PurchaseDate

  const TickerRequired: string := "Ticker symbol is required"
  const QuantityTooSmall: string := "Quantity must be at least 1"
  const BuyPriceNotPositive: string := "Buy price must be greater than 0"
  const PurchaseDateRequired: string := "Purchase date is required"

  // ---------------------------------------------------------------------------
  // Defaults
  // ---------------------------------------------------------------------------

  /**
   * `new Date().toISOString().split("T")[0]`: the date part of the current ISO
   * timestamp, the text before its first `T` (all of it when there is none).
   */
  function Today(isoNow: string): (date: string)
    ensures |date| <= |isoNow| && date == isoNow[..|date|] && Free(date, 'T')
    ensures |date| < |isoNow| ==> isoNow[|date|] == 'T'
  {
    SplitFirstIsPrefix(isoNow, 'T');
    SplitFieldsFree(isoNow, 'T');
    SplitFirstStops(isoNow, 'T');
    Split(isoNow, 'T')[0]
  }

  /** An ISO timestamp `<date>T<time>` yields its date part. */
  lemma TodayIsDatePart(date: string, time: string)
    requires Free(date, 'T')
    ensures Today(date + "T" + time) == date
  {
    SplitOfFree(date, 'T');
    assert date + "T" + time == date + ['T'] + time;
    SplitAround(date, 'T', time);
  }

  /**
   * The default values: each field of `initialData` when it is truthy, and
   * otherwise `""`, `0`, `0` and today's date. The first three fallbacks are
   * the falsy value itself, so only an empty date is ever replaced.
   */
  function Defaults(initial: Option<StockFormData>, isoNow: string): (d: StockFormData)
    ensures initial.None? ==> d == StockFormData("", 0, 0.0, Today(isoNow))
    ensures initial.Some? ==>
      d == initial.value.(purchaseDate := if initial.value.purchaseDate != "" then initial.value.purchaseDate else Today(isoNow))
  {
    match initial
    case None => StockFormData("", 0, 0.0, Today(isoNow))
    case Some(x) =>
      StockFormData(
        if x.ticker != "" then x.ticker else "",
        if x.quantity != 0 then x.quantity else 0,
        if x.buyPrice != 0.0 then x.buyPrice else 0.0,
        if x.purchaseDate != "" then x.purchaseDate else Today(isoNow))
  }

  /** Initial data whose fields are all truthy is taken over unchanged. */
  lemma DefaultsKeepTruthy(x: StockFormData, isoNow: string)
    requires x.ticker != "" && x.quantity != 0 && x.buyPrice != 0.0 && x.purchaseDate != ""
    ensures Defaults(Some(x), isoNow) == x
  {
  }

  /** An empty date in the initial data is replaced by today's. */
  lemma DefaultsDateFallsBack(x: StockFormData, isoNow: string)
    requires x.purchaseDate == ""
    ensures Defaults(Some(x), isoNow).purchaseDate == Today(isoNow)
  {
  }

  // ---------------------------------------------------------------------------
  // Edits
  // ---------------------------------------------------------------------------

  /** The ticker input upper-cases every edit. */
  function OnTickerChange(text: string): (ticker: string)
    ensures |ticker| == |text|
    ensures forall i :: 0 <= i < |ticker| ==> !IsLower(ticker[i])
    ensures SameIgnoringCase(ticker, text)
  {
    UpperPreservesLength(text);
    forall i | 0 <= i < |text| ensures !IsLower(Upper(text)[i]) {
      UpperAt(text, i);
    }
    SameIgnoringCaseAsUpper(text);
    Upper(text)
  }

  /** `s` without its leading `\s` characters, as `parseInt` skips them. */
  function TrimStart(s: string): (r: string)
    ensures |r| <= |s| && r == s[|s| - |r|..]
    ensures |r| > 0 ==> !IsJsSpace(r[0])
    decreases |s|
  {
    if |s| > 0 && IsJsSpace(s[0]) then TrimStart(s[1..]) else s
  }

  /** The longest prefix of `s` made of decimal digits. */
  function DigitPrefix(s: string): (p: string)
    ensures AllDigits(p) && |p| <= |s| && p == s[..|p|]
    ensures |p| < |s| ==> !IsDigit(s[|p|])
    decreases |s|
  {
    if |s| > 0 && IsDigit(s[0]) then [s[0]] + DigitPrefix(s[1..]) else ""
  }

  /**
   * `parseInt(text)` in base 10: leading white space and one sign are skipped,
   * then the leading digits are read; with no digit the result is NaN (`None`).
   */
  function ParseInt(text: string): (n: Option<int>)
    ensures (forall k :: 0 <= k < |text| ==> !IsDigit(text[k])) ==> n.None?
  {
    var t := TrimStart(text);
    var negative := |t| > 0 && t[0] == '-';
    var unsigned := if |t| > 0 && (t[0] == '-' || t[0] == '+') then t[1..] else t;
    var digits := DigitPrefix(unsigned);
    if digits == "" then None
    else if negative then Some(0 - DigitsValue(digits) as int)
    else Some(DigitsValue(digits))
  }

  /** The quantity input: `parseInt(text) || 0`, so NaN becomes 0. */
  function OnQuantityChange(text: string): (q: int)
    ensures ParseInt(text).Some? ==> q == ParseInt(text).value
    ensures ParseInt(text).None? ==> q == 0
  {
    match ParseInt(text)
    case None => 0
    case Some(n) => n
  }

  /** A digit string is its own longest digit prefix. */
  lemma {:induction false} DigitPrefixOfDigits(s: string)
    requires AllDigits(s)
    ensures DigitPrefix(s) == s
    decreases |s|
  {
    if |s| > 0 {
      assert AllDigits(s[1..]);
      DigitPrefixOfDigits(s[1..]);
      assert s == [s[0]] + s[1..];
    }
  }

  /** `parseInt` of a plain run of digits is the number they spell. */
  lemma ParseDigits(text: string)
    requires text != "" && AllDigits(text)
    ensures ParseInt(text) == Some(DigitsValue(text) as int)
  {
    assert IsDigit(text[0]);
    assert !IsJsSpace(text[0]) && text[0] != '-' && text[0] != '+';
    assert TrimStart(text) == text;
    DigitPrefixOfDigits(text);
  }

  /** `parseInt` of a minus sign followed by a run of digits is the negated number. */
  lemma ParseMinusDigits(text: string)
    requires |text| >= 2 && text[0] == '-' && AllDigits(text[1..])
    ensures ParseInt(text) == Some(0 - DigitsValue(text[1..]) as int)
  {
    assert !IsJsSpace(text[0]);
    assert TrimStart(text) == text;
    DigitPrefixOfDigits(text[1..]);
  }

  /** Typing a plain run of digits sets the quantity to the number they spell. */
  lemma DigitsQuantity(text: string)
    requires text != "" && AllDigits(text)
    ensures OnQuantityChange(text) == DigitsValue(text)
  {
    ParseDigits(text);
  }

  /** `parseInt` reads back the decimal rendering of any integer, sign included. */
  lemma ParseIntRendersBack(i: int)
    ensures ParseInt(IntToDecimal(i)) == Some(i)
  {
    if i < 0 {
      var d := NatToDecimal(-i);
      DecimalRoundTrip(-i);
      var text := IntToDecimal(i);
      assert text == "-" + d;
      assert text[1..] == d;
      ParseMinusDigits(text);
    } else {
      DecimalRoundTrip(i);
      ParseDigits(NatToDecimal(i));
    }
  }

  /** Input without any digit becomes quantity 0, which the quantity rule rejects. */
  lemma NonNumericQuantityRejected(text: string)
    requires forall k :: 0 <= k < |text| ==> !IsDigit(text[k])
    ensures OnQuantityChange(text) == 0
    ensures QuantityError(OnQuantityChange(text)) == Some(QuantityTooSmall)
  {
    var t := TrimStart(text);
    var unsigned := if |t| > 0 && (t[0] == '-' || t[0] == '+') then t[1..] else t;
    if |unsigned| > 0 {
      assert unsigned[0] == text[|text| - |unsigned|];
    }
  }

  // ---------------------------------------------------------------------------
  // Validators
  // ---------------------------------------------------------------------------

  function TickerError(ticker: string): (e: Option<string>)
    ensures e.None? <==> ticker != ""
  {
    if ticker == "" then Some(TickerRequired) else None
  }

  function QuantityError(quantity: int): (e: Option<string>)
    ensures e.None? <==> quantity >= 1
  {
    if quantity < 1 then Some(QuantityTooSmall) else None
  }

  function BuyPriceError(buyPrice: real): (e: Option<string>)
    ensures e.None? <==> buyPrice > 0.0
  {
    if buyPrice <= 0.0 then Some(BuyPriceNotPositive) else None
  }

  function PurchaseDateError(date: string): (e: Option<string>)
    ensures e.None? <==> date != ""
  {
    if date == "" then Some(PurchaseDateRequired) else None
  }

  function FieldError(field: FieldName, d: StockFormData): Option<string> {
    match field
    case Ticker => TickerError(d.ticker)
    case Quantity => QuantityError(d.quantity)
    case BuyPrice => BuyPriceError(d.buyPrice)
    case PurchaseDate => PurchaseDateError(d.purchaseDate)
  }

  /** The fields on screen: none when the modal is closed, the date only when updating. */
  function VisibleFields(isOpen: bool, mode: Mode): (fields: seq<FieldName>)
    ensures !isOpen ==> fields == []
    ensures isOpen ==> |fields| >= 3 && fields[..3] == [Ticker, Quantity, BuyPrice]
    ensures PurchaseDate in fields <==> isOpen && mode == Update
  {
    if !isOpen then []
    else if mode == Update then [Ticker, Quantity, BuyPrice, PurchaseDate]
    else [Ticker, Quantity, BuyPrice]
  }

  /** The messages of the given fields, in screen order. */
  function ErrorsOf(fields: seq<FieldName>, d: StockFormData): (errors: seq<string>)
    ensures |errors| <= |fields|
    ensures errors == [] <==> forall i :: 0 <= i < |fields| ==> FieldError(fields[i], d).None?
    decreases |fields|
  {
    if fields == [] then []
    else
      var rest := ErrorsOf(fields[1..], d);
      assert forall i :: 1 <= i < |fields| ==> fields[i] == fields[1..][i - 1];
      match FieldError(fields[0], d)
      case Some(m) => [m] + rest
      case None => rest
  }

  /** The messages of the open modal's fields. */
  function FormErrors(mode: Mode, d: StockFormData): (errors: seq<string>)
    ensures errors == [] <==>
      d.ticker != "" && d.quantity >= 1 && d.buyPrice > 0.0 && (mode == Update ==> d.purchaseDate != "")
  {
    var fields := VisibleFields(true, mode);
    var errors := ErrorsOf(fields, d);
    assert FieldError(fields[0], d) == TickerError(d.ticker);
    assert FieldError(fields[1], d) == QuantityError(d.quantity);
    assert FieldError(fields[2], d) == BuyPriceError(d.buyPrice);
    assert mode == Update ==> FieldError(fields[3], d) == PurchaseDateError(d.purchaseDate);
    errors
  }

  /** A form opened without initial data cannot be submitted before ticker, quantity and price are filled in. */
  lemma FreshAddFormBlocked(isoNow: string)
    ensures FormErrors(Add, Defaults(None, isoNow)) == [TickerRequired, QuantityTooSmall, BuyPriceNotPositive]
  {
    var d := Defaults(None, isoNow);
    var fields := VisibleFields(true, Add);
    assert fields[1..] == [Quantity, BuyPrice];
    assert fields[1..][1..] == [BuyPrice];
    assert fields[1..][1..][1..] == [];
  }

  // ---------------------------------------------------------------------------
  // Submit
  // ---------------------------------------------------------------------------

  /** What the modal calls on submit. */
  datatype Effect = SubmitValue(value: StockFormData) | Close

  /**
   * A submit of a valid form passes the form value, as it stands, to
   * `onSubmit` and then calls `onClose`; an invalid form calls neither.
   */
  function SubmitEffects(mode: Mode, d: StockFormData): (effects: seq<Effect>)
    ensures effects != [] <==> FormErrors(mode, d) == []
    ensures effects != [] ==> effects == [SubmitValue(d), Close]
  {
    if FormErrors(mode, d) == [] then [SubmitValue(d), Close] else []
  }
}
