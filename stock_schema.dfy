/**
 * The stock request schemas: the create payload (ticker, quantity, buy price),
 * checked in the request body, and the numeric stock id, checked in the route
 * parameters.
 *
 * Every field check runs and reports its own issues, as the validation
 * library does; a payload is accepted only when no field reports one, and an
 * accepted ticker comes out upper-cased.
 */
module StockSchema {
  import opened Common
  import opened Text
  import opened Json

  /** The accepted create payload. */
  datatype CreateStock = CreateStock(ticker: string, quantity: int, buyPrice: real)

  predicate IsInteger(n: real) {
    n.Floor as real == n
  }

  // ---------------------------------------------------------------------------
  // The payload rules, stated directly
  // ---------------------------------------------------------------------------

  /** `z.string().min(1).max(10)`, lengths in UTF-16 code units. */
  predicate ValidTicker(v: Value) {
    v.Str? && 1 <= JsLength(v.s) <= 10
  }

  /** `z.number().int().positive()`. */
  predicate ValidQuantity(v: Value) {
    v.Num? && IsInteger(v.n) && v.n > 0.0
  }

  /** `z.number().positive()`. */
  predicate ValidBuyPrice(v: Value) {
    v.Num? && v.n > 0.0
  }

  // ---------------------------------------------------------------------------
  // The checks, issue by issue
  // ---------------------------------------------------------------------------

  /** Not a string at all: one issue, `Required` when the key is missing. */
  function TypeIssue(name: string, v: Value): Issue {
    Issue([name], if v.Absent? then Required else InvalidType, None)
  }

  function TickerIssues(v: Value): seq<Issue> {
    if !v.Str? then [TypeIssue("ticker", v)]
    else
      (if JsLength(v.s) < 1 then [Issue(["ticker"], TooSmall, Some("Ticker is required"))] else [])
      + (if JsLength(v.s) > 10 then [Issue(["ticker"], TooBig, None)] else [])
  }

  function QuantityIssues(v: Value): seq<Issue> {
    if !v.Num? then [TypeIssue("quantity", v)]
    else
      (if !IsInteger(v.n) then [Issue(["quantity"], NotInteger, None)] else [])
      + (if v.n <= 0.0 then [Issue(["quantity"], NotPositive, Some("Quantity must be a positive integer"))] else [])
  }

  function BuyPriceIssues(v: Value): seq<Issue> {
    if !v.Num? then [TypeIssue("buy_price", v)]
    else if v.n <= 0.0 then [Issue(["buy_price"], NotPositive, Some("Price must be a positive number"))]
    else []
  }

  /**
   * `createStockPayload.parse(body)`: the issues of all three fields, in the
   * order the fields are declared; on success the ticker is upper-cased.
   */
  function ParseCreateStockPayload(body: Object): (r: Parsed<CreateStock, Issue>)
    ensures r.Accepted? <==>
      ValidTicker(Field(body, "ticker")) && ValidQuantity(Field(body, "quantity")) && ValidBuyPrice(Field(body, "buy_price"))
    ensures r.Rejected? ==> |r.issues| >= 1
    ensures r.Accepted? ==>
      && r.value.ticker == Upper(Field(body, "ticker").s)
      && 1 <= JsLength(r.value.ticker) <= 10
      && (forall i :: 0 <= i < |r.value.ticker| ==> !IsLower(r.value.ticker[i]))
      && r.value.quantity >= 1 && r.value.quantity as real == Field(body, "quantity").n
      && r.value.buyPrice > 0.0 && r.value.buyPrice == Field(body, "buy_price").n
  {
    var t, q, p := Field(body, "ticker"), Field(body, "quantity"), Field(body, "buy_price");
    var issues := TickerIssues(t) + QuantityIssues(q) + BuyPriceIssues(p);
    if issues == [] then
      UpperPreservesLength(t.s);
      UpperPreservesJsLength(t.s);
      forall i | 0 <= i < |t.s| ensures !IsLower(Upper(t.s)[i]) {
        UpperAt(t.s, i);
      }
      Accepted(CreateStock(Upper(t.s), q.n.Floor, p.n))
    else
      Rejected(issues)
  }

  /**
   * The ticker limit counts UTF-16 code units: six characters outside the
   * Basic Multilingual Plane are twelve units, over the maximum of ten.
   */
  lemma WideTickerTooLong(body: Object, c: char)
    requires c as int >= 0x1_0000
    requires Field(body, "ticker") == Str([c, c, c, c, c, c])
    ensures ParseCreateStockPayload(body).Rejected?
    ensures TooBig in IssueCodes(ParseCreateStockPayload(body).issues)
  {
    var w := [c, c, c, c, c, c];
    assert JsLength([c]) == 2;
    assert [c, c][1..] == [c];
    assert JsLength([c, c]) == 4;
    assert [c, c, c][1..] == [c, c];
    assert JsLength([c, c, c]) == 6;
    assert [c, c, c, c][1..] == [c, c, c];
    assert JsLength([c, c, c, c]) == 8;
    assert [c, c, c, c, c][1..] == [c, c, c, c];
    assert JsLength([c, c, c, c, c]) == 10;
    assert w[1..] == [c, c, c, c, c];
    assert JsLength(w) == 12;
    var issues := ParseCreateStockPayload(body).issues;
    assert TickerIssues(Field(body, "ticker")) == [Issue(["ticker"], TooBig, None)];
    assert issues[0].code == TooBig;
    assert IssueCodes(issues)[0] == TooBig;
  }

  /** The codes of a list of issues, in order. */
  function IssueCodes(issues: seq<Issue>): seq<Code> {
    seq(|issues|, i requires 0 <= i < |issues| => issues[i].code)
  }

  /** `createStockSchema`: the payload rules applied to the request body; route parameters play no part. */
  function ValidateCreateStock(req: RequestParts): (r: Parsed<CreateStock, Issue>)
    ensures r.Accepted? <==> ParseCreateStockPayload(req.body).Accepted?
    ensures r.Accepted? ==> r.value == ParseCreateStockPayload(req.body).value
    ensures r.Rejected? ==> forall i :: 0 <= i < |r.issues| ==> |r.issues[i].path| == 2 && r.issues[i].path[0] == "body"
  {
    Nest("body", ParseCreateStockPayload(req.body))
  }

  // ---------------------------------------------------------------------------
  // The stock id of the route
  // ---------------------------------------------------------------------------

  /**
   * `Number(s)` on the strings this model reads: a run of decimal digits gives
   * its value and the empty string gives 0; anything else is treated as NaN.
   */
  function CoerceNumber(s: string): Option<nat> {
    if AllDigits(s) then Some(DigitsValue(s)) else None
  }

  /** `z.coerce.number().int().positive()` on the `id` route parameter. */
  function ParseStockId(params: map<string, string>): (r: Parsed<nat, Issue>)
    ensures r.Accepted? <==> "id" in params && AllDigits(params["id"]) && DigitsValue(params["id"]) > 0
    ensures r.Accepted? ==> r.value > 0 && CoerceNumber(params["id"]) == Some(r.value)
    ensures r.Rejected? ==> |r.issues| == 1 && r.issues[0].path == ["id"]
  {
    var n := if "id" in params then CoerceNumber(params["id"]) else None;
    match n
    case None => Rejected([Issue(["id"], InvalidType, None)])
    case Some(v) => if v > 0 then Accepted(v) else Rejected([Issue(["id"], NotPositive, None)])
  }

  /** `stockIdSchema`: the id rule applied to the route parameters; the body plays no part. */
  function ValidateStockId(req: RequestParts): (r: Parsed<nat, Issue>)
    ensures r.Accepted? <==> ParseStockId(req.params).Accepted?
    ensures r.Accepted? ==> r.value == ParseStockId(req.params).value
    ensures r.Rejected? ==> forall i :: 0 <= i < |r.issues| ==> r.issues[i].path == ["params", "id"]
  {
    Nest("params", ParseStockId(req.params))
  }

  /** A string of digits is a valid id exactly when one of its digits is not zero. */
  lemma {:induction false} DigitsPositive(s: string)
    requires AllDigits(s)
    ensures DigitsValue(s) > 0 <==> exists i :: 0 <= i < |s| && s[i] != '0'
    decreases |s|
  {
    if |s| > 0 {
      var init := s[..|s| - 1];
      assert AllDigits(init);
      DigitsPositive(init);
      if DigitsValue(init) > 0 {
        var i :| 0 <= i < |init| && init[i] != '0';
        assert s[i] != '0';
      } else if s[|s| - 1] == '0' {
        forall i | 0 <= i < |s| ensures s[i] == '0' {
          if i < |s| - 1 {
            assert init[i] == s[i];
          }
        }
      }
    }
  }
}
