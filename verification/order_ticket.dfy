/** The order form of the stock page (StockChart.jsx, `handleTrade`): local
    validation of the form, the order record it posts, and how the reply is
    turned into alerts and a new displayed balance. Alerts are returned as a
    list, the balance shown under the form as a value. Money is held in
    whole cents. */
module OrderTicket {
  import opened Js

  datatype OrderType = Market | Limit
  datatype Action = Buy | Sell

  /** The form's state: the symbol picked, the quantity and limit-price
      inputs as the text they hold, and the order type picked. */
  datatype OrderForm = OrderForm(stockSymbol: string, quantity: string, orderType: OrderType, price: string)

  /** The balance shown under the form: the number 0 at first, afterwards the
      text of the last balance the server reported, to two decimals. */
  datatype Balance = InitialZero | Reported(text: string)

  /** Nothing picked, nothing typed, a market order. */
  const InitialForm := OrderForm("", "", Market, "")

  const SelectMessage := "Please select a stock and enter a quantity."
  const LimitPriceMessage := "Please enter a price for the limit order."
  const GenericFailure := "An error occurred while placing the order."

  /** The price field of the posted order: null for a market order, the
      parsed limit price otherwise (None inside standing for NaN). */
  datatype PriceField = NullPrice | ParsedPrice(value: Option<int>)

  /** The order record posted to the server. */
  datatype OrderData = OrderData(stockSymbol: string, quantity: Option<int>, orderType: OrderType, price: PriceField, action: Action)

  /** The decoded reply body: any JSON value other than an object, or an
      object with the fields the handler reads. For null, reading `error`
      throws at once; for a number, string, boolean or array every field
      reads as undefined, so the handler reaches `data.price.toFixed` and
      throws there. Either way the generic failure alert follows. `price`
      and `balance` are in cents, None when missing or not a number. */
  datatype ReplyBody =
    | NotAnObject
    | ReplyObject(error: Option<string>, message: Option<string>, quantity: Option<int>,
                  stock: Option<string>, price: Option<int>, balance: Option<int>)

  /** How the request ends: the fetch rejects, the status is not ok, the
      body is not JSON, or a decoded body. */
  datatype OrderResponse = NetworkFailure | HttpFailure(status: int) | BadJson | Replied(body: ReplyBody)

  /** What one click on Buy or Sell leaves behind: the alerts shown, in order,
      the order posted (None when validation stopped it), and the balance. */
  datatype TradeOutcome = TradeOutcome(alerts: seq<string>, request: Option<OrderData>, balance: Balance)

  function TypeName(t: OrderType): string {
    match t
    case Market => "market"
    case Limit => "limit"
  }

  function ActionName(a: Action): string {
    match a
    case Buy => "buy"
    case Sell => "sell"
  }

  // ---------------------------------------------------------------------
  // The order record and its form encoding
  // ---------------------------------------------------------------------

  /** `orderData`: the quantity through parseInt, the price through parseInt
      for a limit order and null otherwise. */
  function BuildOrder(form: OrderForm, action: Action): OrderData {
    OrderData(form.stockSymbol, ParseInt(form.quantity), form.orderType,
              if form.orderType == Limit then ParsedPrice(ParseInt(form.price)) else NullPrice,
              action)
  }

  function PriceText(p: PriceField): string {
    match p
    case NullPrice => "null"
    case ParsedPrice(n) => NumberText(n)
  }

  /** `new URLSearchParams(orderData)`: the fields in declaration order, each
      value turned into a string (before percent-encoding). */
  function FormBody(o: OrderData): seq<(string, string)> {
    [("stock_symbol", o.stockSymbol),
     ("quantity", NumberText(o.quantity)),
     ("order_type", TypeName(o.orderType)),
     ("price", PriceText(o.price)),
     ("action", ActionName(o.action))]
  }

  function ReadNumber(text: string): Option<int> {
    if text == "NaN" then None else ParseInt(text)
  }

  function ReadType(text: string): Option<OrderType> {
    if text == "market" then Some(Market) else if text == "limit" then Some(Limit) else None
  }

  function ReadAction(text: string): Option<Action> {
    if text == "buy" then Some(Buy) else if text == "sell" then Some(Sell) else None
  }

  /** The order a receiver reads back from the form fields. */
  function ReadOrder(body: seq<(string, string)>): Option<OrderData> {
    if |body| != 5 || body[0].0 != "stock_symbol" || body[1].0 != "quantity"
       || body[2].0 != "order_type" || body[3].0 != "price" || body[4].0 != "action" then None
    else
      match (ReadType(body[2].1), ReadAction(body[4].1))
      case (Some(t), Some(a)) =>
        var price := if body[3].1 == "null" then NullPrice else ParsedPrice(ReadNumber(body[3].1));
        Some(OrderData(body[0].1, ReadNumber(body[1].1), t, price, a))
      case _ => None
  }

  lemma ReadNumberText(n: Option<int>)
    ensures ReadNumber(NumberText(n)) == n
    ensures NumberText(n) != "null"
  {
    if n.Some? {
      var t := DecimalText(n.value);
      ParseIntDecimalText(n.value);
      assert t[0] == '-' || '0' <= t[0] <= '9';
      assert t != "NaN" && t != "null" by {
        assert "NaN"[0] == 'N' && "null"[0] == 'n';
      }
    }
  }

  /** The posted form fields carry the whole order: reading them back gives
      the order record, NaN and null included. */
  lemma FormBodyRoundTrip(o: OrderData)
    ensures ReadOrder(FormBody(o)) == Some(o)
  {
    var body := FormBody(o);
    ReadNumberText(o.quantity);
    ReadPriceText(o.price);
    ReadTypeName(o.orderType);
    ReadActionName(o.action);
  }

  lemma ReadTypeName(t: OrderType)
    ensures ReadType(TypeName(t)) == Some(t)
  {
    if t == Limit {
      assert "limit"[0] != "market"[0];
    }
  }

  lemma ReadActionName(a: Action)
    ensures ReadAction(ActionName(a)) == Some(a)
  {
    if a == Sell {
      assert |"sell"| != |"buy"|;
    }
  }

  lemma ReadPriceText(p: PriceField)
    ensures (if PriceText(p) == "null" then NullPrice else ParsedPrice(ReadNumber(PriceText(p)))) == p
  {
    if p.ParsedPrice? {
      ReadNumberText(p.value);
    }
  }

  // ---------------------------------------------------------------------
  // The reply
  // ---------------------------------------------------------------------

  function FieldText(s: Option<string>): string {
    match s
    case Some(t) => t
    case None => "undefined"
  }

  function CountText(n: Option<int>): string {
    match n
    case Some(k) => DecimalText(k)
    case None => "undefined"
  }

  /** The success alert: the server's message when truthy, otherwise a
      sentence built from the reply's quantity, stock and price; None when
      that needs the price and the price is missing (`toFixed` throws). */
  function SuccessText(action: Action, body: ReplyBody): Option<string>
    requires body.ReplyObject?
  {
    if Truthy(body.message) then Some(body.message.value)
    else if body.price.None? then None
    else Some("Successfully " + ActionName(action) + " " + CountText(body.quantity) + " shares of "
              + FieldText(body.stock) + " at $" + ToFixed2(body.price.value) + "!")
  }

  /** A reply that sets the balance: an object with no truthy `error`, whose
      success alert can be built, and that carries a numeric balance. */
  predicate Succeeds(response: OrderResponse) {
    && response.Replied?
    && response.body.ReplyObject?
    && !Truthy(response.body.error)
    && (Truthy(response.body.message) || response.body.price.Some?)
    && response.body.balance.Some?
  }

  /** The `try` block after the request: alerts shown and balance left. */
  function Respond(response: OrderResponse, action: Action, balance: Balance): (r: (seq<string>, Balance))
    ensures r.1 != balance ==> Succeeds(response) && r.1 == Reported(ToFixed2(response.body.balance.value))
    ensures Succeeds(response) ==> r.1 == Reported(ToFixed2(response.body.balance.value))
    ensures response.Replied? && response.body.ReplyObject? && Truthy(response.body.error) ==>
      r == ([response.body.error.value], balance)
    ensures !response.Replied? || response.body.NotAnObject? ==> r == ([GenericFailure], balance)
    ensures 1 <= |r.0| <= 2
    ensures response.Replied? && response.body.ReplyObject? && !Truthy(response.body.error) ==>
      var b := response.body;
      && (Truthy(b.message) ==> r.0[0] == b.message.value)
      && (!Truthy(b.message) && b.price.Some? ==>
            r.0[0] == "Successfully " + ActionName(action) + " " + CountText(b.quantity) + " shares of "
                      + FieldText(b.stock) + " at $" + ToFixed2(b.price.value) + "!")
      && (!Truthy(b.message) && b.price.None? ==> r == ([GenericFailure], balance))
      && ((Truthy(b.message) || b.price.Some?) && b.balance.None? ==>
            |r.0| == 2 && r.0[1] == GenericFailure && r.1 == balance)
      && (Succeeds(response) ==> |r.0| == 1)
  {
    match response
    case Replied(body) =>
      if body.NotAnObject? then ([GenericFailure], balance)
      else if Truthy(body.error) then ([body.error.value], balance)
      else
        (match SuccessText(action, body)
         case None => ([GenericFailure], balance)
         case Some(text) =>
           // the success alert is already shown when `balance.toFixed` throws
           if body.balance.None? then ([text, GenericFailure], balance)
           else ([text], Reported(ToFixed2(body.balance.value))))
    case _ => ([GenericFailure], balance)
  }

  /** `handleTrade(action)` for the form as it stands and the way the request
      ends (consulted only when a request is made). */
  function HandleTrade(form: OrderForm, balance: Balance, action: Action, response: OrderResponse): (r: TradeOutcome)
    ensures r.request.None? <==> form.stockSymbol == "" || form.quantity == "" || (form.orderType == Limit && form.price == "")
    ensures form.stockSymbol == "" || form.quantity == "" ==> r.alerts == [SelectMessage]
    ensures form.stockSymbol != "" && form.quantity != "" && form.orderType == Limit && form.price == "" ==>
      r.alerts == [LimitPriceMessage]
    ensures r.request.Some? ==>
      && r.request.value.stockSymbol == form.stockSymbol
      && r.request.value.quantity == ParseInt(form.quantity)
      && r.request.value.orderType == form.orderType
      && r.request.value.action == action
      && (r.request.value.price.NullPrice? <==> form.orderType == Market)
      && (form.orderType == Limit ==> r.request.value.price == ParsedPrice(ParseInt(form.price)))
    ensures 1 <= |r.alerts| <= 2
    ensures r.request.None? ==> r.balance == balance
    ensures r.balance != balance ==> Succeeds(response) && r.balance == Reported(ToFixed2(response.body.balance.value))
    ensures r.request.Some? && Succeeds(response) ==> r.balance == Reported(ToFixed2(response.body.balance.value))
    ensures r.request.Some? && response.Replied? && response.body.ReplyObject? && Truthy(response.body.error) ==>
      r.alerts == [response.body.error.value] && r.balance == balance
    ensures r.request.Some? && (!response.Replied? || response.body.NotAnObject?) ==>
      r.alerts == [GenericFailure] && r.balance == balance
    ensures r.request.Some? && response.Replied? && response.body.ReplyObject? && !Truthy(response.body.error) ==>
      var b := response.body;
      && (Truthy(b.message) ==> r.alerts[0] == b.message.value)
      && (!Truthy(b.message) && b.price.Some? ==>
            r.alerts[0] == "Successfully " + ActionName(action) + " " + CountText(b.quantity) + " shares of "
                           + FieldText(b.stock) + " at $" + ToFixed2(b.price.value) + "!")
      && (!Truthy(b.message) && b.price.None? ==> r.alerts == [GenericFailure] && r.balance == balance)
      && ((Truthy(b.message) || b.price.Some?) && b.balance.None? ==>
            |r.alerts| == 2 && r.alerts[1] == GenericFailure && r.balance == balance)
      && (Succeeds(response) ==> |r.alerts| == 1)
  {
    if form.stockSymbol == "" || form.quantity == "" then TradeOutcome([SelectMessage], None, balance)
    else if form.orderType == Limit && form.price == "" then TradeOutcome([LimitPriceMessage], None, balance)
    else
      var (alerts, after) := Respond(response, action, balance);
      TradeOutcome(alerts, Some(BuildOrder(form, action)), after)
  }

  // ---------------------------------------------------------------------
  // Properties of the handler
  // ---------------------------------------------------------------------

  /** The balance after a successful order is the server's figure, whatever
      the balance, quantity or price were before. */
  lemma BalanceComesFromServer(f1: OrderForm, f2: OrderForm, b1: Balance, b2: Balance, action: Action, response: OrderResponse)
    requires HandleTrade(f1, b1, action, response).request.Some?
    requires HandleTrade(f2, b2, action, response).request.Some?
    requires Succeeds(response)
    ensures HandleTrade(f1, b1, action, response).balance == HandleTrade(f2, b2, action, response).balance
  {
  }

  /** The form as the page opens it cannot be submitted: it asks for a stock
      and a quantity and leaves the balance at its initial zero. */
  lemma InitialFormIsRejected(action: Action, response: OrderResponse)
    ensures HandleTrade(InitialForm, InitialZero, action, response) == TradeOutcome([SelectMessage], None, InitialZero)
  {
  }

  /** Validation only looks for empty text: a quantity of "0" is posted, as
      the number 0. */
  lemma ZeroQuantityIsPosted(symbol: string, balance: Balance, action: Action, response: OrderResponse)
    requires symbol != ""
    ensures HandleTrade(OrderForm(symbol, "0", Market, ""), balance, action, response).request
      == Some(OrderData(symbol, Some(0), Market, NullPrice, action))
  {
    ParseIntDecimalText(0);
    assert DecimalText(0) == "0";
  }

  /** A successful buy of 10 MSFT filled at 50.50 with a reported balance of
      949.50 shows the server's message and the balance "949.50". */
  lemma FilledOrderExample()
    ensures HandleTrade(OrderForm("MSFT", "10", Market, ""), InitialZero, Buy,
                        Replied(ReplyObject(None, Some("ok"), Some(10), Some("MSFT"), Some(5050), Some(94950))))
      == TradeOutcome(["ok"], Some(OrderData("MSFT", Some(10), Market, NullPrice, Buy)), Reported("949.50"))
  {
    ParseTen();
    ReportedBalanceText();
  }

  lemma ReportedBalanceText()
    ensures ToFixed2(94950) == "949.50"
  {
    assert Digits(949) == "949";
  }

  lemma ParseTen()
    ensures ParseInt("10") == Some(10)
  {
    ParseIntDecimalText(10);
    assert DecimalText(10) == "10";
  }

  /** A reply carrying an error shows exactly that text and keeps the balance. */
  lemma RejectedOrderExample(balance: Balance)
    ensures HandleTrade(OrderForm("MSFT", "10", Market, ""), balance, Buy,
                        Replied(ReplyObject(Some("Insufficient funds"), None, None, None, None, None)))
      == TradeOutcome(["Insufficient funds"], Some(OrderData("MSFT", Some(10), Market, NullPrice, Buy)), balance)
  {
    ParseTen();
  }

  /** Without a message from the server the success alert names the action,
      the reply's quantity and stock, and the fill price to two decimals. */
  lemma SuccessSentenceExample()
    ensures HandleTrade(OrderForm("MSFT", "10", Market, ""), InitialZero, Sell,
                        Replied(ReplyObject(None, None, Some(10), Some("MSFT"), Some(5050), Some(100))))
      .alerts == ["Successfully " + "sell" + " " + "10" + " shares of " + "MSFT" + " at $" + "50.50" + "!"]
  {
    assert DecimalText(10) == "10";
    assert Digits(50) == "50";
    assert ToFixed2(5050) == "50.50";
  }
}
