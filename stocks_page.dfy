/**
 * The portfolio page: the case-insensitive ticker rules behind adding and
 * updating a holding, the summary figures, and the page state the two
 * handlers change (modal flags, alerts, requests sent, list reloads).
 *
 * The add and update requests are parameters: each call is told whether the
 * request succeeds. A reload is counted, not performed.
 */
module StocksPage {
  import opened Common
  import opened Text
  import opened StockModal

  /** A holding as the page lists it. */
  datatype Stock = Stock(id: int, ticker: string, quantity: int, buyPrice: real, purchaseDate: string)

  const DuplicateAlert: string := "Stock already exists in portfolio."
  const AddFailedAlert: string := "Failed to add stock. Please try again."
  const NotFoundAlert: string := "Stock not found in portfolio."
  const UpdateFailedAlert: string := "Failed to update stock. Please try again."

  predicate TickerMatches(s: Stock, ticker: string) {
    SameIgnoringCase(s.ticker, ticker)
  }

  // ---------------------------------------------------------------------------
  // Ticker rules
  // ---------------------------------------------------------------------------

  /** `stocks.some(...)`: whether any listed ticker equals `ticker` ignoring case. */
  function HasTicker(stocks: seq<Stock>, ticker: string): (found: bool)
    ensures found <==> exists i :: 0 <= i < |stocks| && TickerMatches(stocks[i], ticker)
    decreases |stocks|
  {
    if stocks == [] then false
    else
      var rest := HasTicker(stocks[1..], ticker);
      assert forall i :: 1 <= i < |stocks| ==> stocks[i] == stocks[1..][i - 1];
      TickerMatches(stocks[0], ticker) || rest
  }

  /** `stocks.find(...)`, by position: the first listed stock whose ticker matches ignoring case. */
  function FindTicker(stocks: seq<Stock>, ticker: string): (r: Option<nat>)
    ensures r.None? <==> !HasTicker(stocks, ticker)
    ensures r.Some? ==>
      && r.value < |stocks|
      && TickerMatches(stocks[r.value], ticker)
      && forall j :: 0 <= j < r.value ==> !TickerMatches(stocks[j], ticker)
    decreases |stocks|
  {
    if stocks == [] then None
    else if TickerMatches(stocks[0], ticker) then Some(0)
    else
      match FindTicker(stocks[1..], ticker)
      case None => None
      case Some(k) =>
        assert forall j :: 1 <= j <= k + 1 ==> stocks[j] == stocks[1..][j - 1];
        Some(k + 1)
  }

  /** Typing the ticker in another case still finds the same holding. */
  lemma {:induction false} FindTickerIgnoresCase(stocks: seq<Stock>, a: string, b: string)
    requires SameIgnoringCase(a, b)
    ensures FindTicker(stocks, a) == FindTicker(stocks, b)
    decreases |stocks|
  {
    if stocks != [] {
      FindTickerIgnoresCase(stocks[1..], a, b);
    }
  }

  // ---------------------------------------------------------------------------
  // Summary figures
  // ---------------------------------------------------------------------------

  /** "Total Qty": the quantities summed over the list. */
  function TotalQty(stocks: seq<Stock>): int
    decreases |stocks|
  {
    if stocks == [] then 0 else TotalQty(stocks[..|stocks| - 1]) + stocks[|stocks| - 1].quantity
  }

  /** The buy prices summed over the list. */
  function SumPrices(stocks: seq<Stock>): real
    decreases |stocks|
  {
    if stocks == [] then 0.0 else SumPrices(stocks[..|stocks| - 1]) + stocks[|stocks| - 1].buyPrice
  }

  /** "Avg. Price": the mean buy price, or `None` (shown as 0.00) for an empty list. */
  function AvgPrice(stocks: seq<Stock>): (avg: Option<real>)
    ensures avg.None? <==> stocks == []
    ensures avg.Some? ==> avg.value * (|stocks| as real) == SumPrices(stocks)
  {
    if |stocks| > 0 then Some(SumPrices(stocks) / (|stocks| as real)) else None
  }

  /** The total quantity of two lists is the sum of their totals. */
  lemma {:induction false} TotalQtyAppend(a: seq<Stock>, b: seq<Stock>)
    ensures TotalQty(a + b) == TotalQty(a) + TotalQty(b)
    decreases |b|
  {
    if b == [] {
      assert a + b == a;
    } else {
      assert (a + b)[..|a + b| - 1] == a + b[..|b| - 1];
      TotalQtyAppend(a, b[..|b| - 1]);
    }
  }

  /** With every quantity at least one, the total quantity is at least the number of holdings. */
  lemma {:induction false} TotalQtyAtLeastCount(stocks: seq<Stock>)
    requires forall i :: 0 <= i < |stocks| ==> stocks[i].quantity >= 1
    ensures TotalQty(stocks) >= |stocks|
    decreases |stocks|
  {
    if stocks != [] {
      TotalQtyAtLeastCount(stocks[..|stocks| - 1]);
    }
  }

  /** Bounds on every price bound their sum. */
  lemma {:induction false} SumPricesBetween(stocks: seq<Stock>, lo: real, hi: real)
    requires forall i :: 0 <= i < |stocks| ==> lo <= stocks[i].buyPrice <= hi
    ensures lo * (|stocks| as real) <= SumPrices(stocks) <= hi * (|stocks| as real)
    decreases |stocks|
  {
    if stocks != [] {
      SumPricesBetween(stocks[..|stocks| - 1], lo, hi);
    }
  }

  /** The average price lies between the lowest and the highest buy price. */
  lemma AvgPriceBetween(stocks: seq<Stock>, lo: real, hi: real)
    requires stocks != []
    requires forall i :: 0 <= i < |stocks| ==> lo <= stocks[i].buyPrice <= hi
    ensures lo <= AvgPrice(stocks).value <= hi
  {
    SumPricesBetween(stocks, lo, hi);
    var n := |stocks| as real;
    var avg := AvgPrice(stocks).value;
    assert lo * n <= avg * n <= hi * n;
    ScaleBack(lo, avg, n);
    ScaleBack(avg, hi, n);
  }

  /** Dividing both sides by the same positive count keeps the order. */
  lemma ScaleBack(x: real, y: real, n: real)
    requires n > 0.0 && x * n <= y * n
    ensures x <= y
  {
  }

  // ---------------------------------------------------------------------------
  // The page
  // ---------------------------------------------------------------------------

  class Page {
    /** The list as last loaded. */
    var stocks: seq<Stock>
    var addOpen: bool
    var updateOpen: bool
    /** Every alert shown, oldest first. */
    var alerts: seq<string>
    /** Every add request sent, oldest first. */
    var addRequests: seq<StockFormData>
    /** Every update request sent, as (stock id, form value), oldest first. */
    var updateRequests: seq<(int, StockFormData)>
    /** How many reloads of the list were started. */
    var reloads: nat

    constructor (stocks: seq<Stock>)
      ensures this.stocks == stocks && !addOpen && !updateOpen
      ensures alerts == [] && addRequests == [] && updateRequests == [] && reloads == 0
    {
      this.stocks := stocks;
      addOpen, updateOpen := false, false;
      alerts, addRequests, updateRequests, reloads := [], [], [], 0;
    }

    /** The add button. */
    method OpenAdd()
      modifies this`addOpen
      ensures addOpen
    {
      addOpen := true;
    }

    /** The update button. */
    method OpenUpdate()
      modifies this`updateOpen
      ensures updateOpen
    {
      updateOpen := true;
    }

    /**
     * `handleAddStock`: a ticker already listed (ignoring case) is refused with
     * an alert and nothing is sent. Otherwise the add request is sent once; on
     * success the add modal closes and the list is reloaded, on failure an
     * alert is shown and the modal is left as it was.
     */
    method HandleAddStock(data: StockFormData, succeeds: bool)
      modifies this`addOpen, this`alerts, this`addRequests, this`reloads
      ensures HasTicker(stocks, data.ticker) ==>
        && alerts == old(alerts) + [DuplicateAlert]
        && addRequests == old(addRequests) && addOpen == old(addOpen) && reloads == old(reloads)
      ensures !HasTicker(stocks, data.ticker) ==> addRequests == old(addRequests) + [data]
      ensures !HasTicker(stocks, data.ticker) && succeeds ==>
        !addOpen && reloads == old(reloads) + 1 && alerts == old(alerts)
      ensures !HasTicker(stocks, data.ticker) && !succeeds ==>
        addOpen == old(addOpen) && reloads == old(reloads) && alerts == old(alerts) + [AddFailedAlert]
    {
      if HasTicker(stocks, data.ticker) {
        alerts := alerts + [DuplicateAlert];
        return;
      }
      addRequests := addRequests + [data];
      if succeeds {
        addOpen := false;
        reloads := reloads + 1;
      } else {
        alerts := alerts + [AddFailedAlert];
      }
    }

    /**
     * `handleUpdateStock`: the request goes to the first listed stock whose
     * ticker matches ignoring case, by that stock's id; with no match an alert
     * is shown and nothing is sent. On success the update modal closes and the
     * list is reloaded, on failure an alert is shown.
     */
    method HandleUpdateStock(data: StockFormData, succeeds: bool)
      modifies this`updateOpen, this`alerts, this`updateRequests, this`reloads
      ensures FindTicker(stocks, data.ticker).None? ==>
        && alerts == old(alerts) + [NotFoundAlert]
        && updateRequests == old(updateRequests) && updateOpen == old(updateOpen) && reloads == old(reloads)
      ensures FindTicker(stocks, data.ticker).Some? ==>
        updateRequests == old(updateRequests) + [(stocks[FindTicker(stocks, data.ticker).value].id, data)]
      ensures FindTicker(stocks, data.ticker).Some? && succeeds ==>
        !updateOpen && reloads == old(reloads) + 1 && alerts == old(alerts)
      ensures FindTicker(stocks, data.ticker).Some? && !succeeds ==>
        updateOpen == old(updateOpen) && reloads == old(reloads) && alerts == old(alerts) + [UpdateFailedAlert]
    {
      var found := FindTicker(stocks, data.ticker);
      if found.None? {
        alerts := alerts + [NotFoundAlert];
        return;
      }
      updateRequests := updateRequests + [(stocks[found.value].id, data)];
      if succeeds {
        updateOpen := false;
        reloads := reloads + 1;
      } else {
        alerts := alerts + [UpdateFailedAlert];
      }
    }

    /**
     * The add modal's submit as the page wires it: the form value goes to
     * `HandleAddStock` and the modal's `onClose` follows at once, without
     * waiting for the outcome. The modal ends up closed whatever happened.
     */
    method SubmitAddAsWired(data: StockFormData, succeeds: bool)
      modifies this`addOpen, this`alerts, this`addRequests, this`reloads
      ensures FormErrors(Add, data) != [] ==> addOpen == old(addOpen) && alerts == old(alerts) && addRequests == old(addRequests)
      ensures FormErrors(Add, data) == [] ==> !addOpen
      ensures FormErrors(Add, data) == [] && HasTicker(stocks, data.ticker) ==>
        alerts == old(alerts) + [DuplicateAlert] && addRequests == old(addRequests) && reloads == old(reloads)
      ensures FormErrors(Add, data) == [] && !HasTicker(stocks, data.ticker) ==>
        && addRequests == old(addRequests) + [data]
        && alerts == old(alerts) + (if succeeds then [] else [AddFailedAlert])
        && reloads == old(reloads) + (if succeeds then 1 else 0)
    {
      var effects := SubmitEffects(Add, data);
      if effects != [] {
        HandleAddStock(data, succeeds);
        addOpen := false;
      }
    }

    /**
     * The add modal's submit with closing left to `HandleAddStock`: the modal
     * closes exactly when the add went through, so a refused or failed add
     * leaves it open for another try.
     */
    method SubmitAdd(data: StockFormData, succeeds: bool)
      modifies this`addOpen, this`alerts, this`addRequests, this`reloads
      ensures FormErrors(Add, data) != [] ==> addOpen == old(addOpen) && alerts == old(alerts) && addRequests == old(addRequests)
      ensures FormErrors(Add, data) == [] ==>
        addOpen == (old(addOpen) && !(succeeds && !HasTicker(stocks, data.ticker)))
      ensures FormErrors(Add, data) == [] && HasTicker(stocks, data.ticker) ==>
        alerts == old(alerts) + [DuplicateAlert] && addRequests == old(addRequests) && reloads == old(reloads)
      ensures FormErrors(Add, data) == [] && !HasTicker(stocks, data.ticker) ==>
        && addRequests == old(addRequests) + [data]
        && alerts == old(alerts) + (if succeeds then [] else [AddFailedAlert])
        && reloads == old(reloads) + (if succeeds then 1 else 0)
    {
      var effects := SubmitEffects(Add, data);
      if effects != [] {
        HandleAddStock(data, succeeds);
      }
    }
  }

  // ---------------------------------------------------------------------------
  // Scenarios
  // ---------------------------------------------------------------------------

  /** A holding the page already lists. */
  function Listed(): Stock {
    Stock(1, "AAPL", 10, 150.0, "2024-01-02")
  }

  /** The same ticker typed in lower case, otherwise a valid add. */
  function DuplicateForm(): StockFormData {
    StockFormData("aapl", 5, 120.0, "2024-03-04")
  }

  /**
   * As wired, adding a ticker that is already listed shows the duplicate alert,
   * sends nothing, and still closes the modal.
   */
  method DuplicateAddAsWired() returns (open: bool, alerts: seq<string>, sent: seq<StockFormData>)
    ensures !open
    ensures alerts == [DuplicateAlert] && sent == []
  {
    var page := new Page([Listed()]);
    page.OpenAdd();
    assert TickerMatches(page.stocks[0], DuplicateForm().ticker);
    page.SubmitAddAsWired(DuplicateForm(), true);
    open, alerts, sent := page.addOpen, page.alerts, page.addRequests;
  }

  /** With closing left to the handler, the same duplicate add keeps the modal open. */
  method DuplicateAddKeepsModalOpen() returns (open: bool, alerts: seq<string>, sent: seq<StockFormData>)
    ensures open
    ensures alerts == [DuplicateAlert] && sent == []
  {
    var page := new Page([Listed()]);
    page.OpenAdd();
    assert TickerMatches(page.stocks[0], DuplicateForm().ticker);
    page.SubmitAdd(DuplicateForm(), true);
    open, alerts, sent := page.addOpen, page.alerts, page.addRequests;
  }
}
