# INFERNO trading front end — a Dafny model of its core logic

The INFERNO front end is a React application for watching stock prices and
placing orders against a Django back end. Most of it is layout. Five pieces
of it hold sequential logic, and this project models them as pure functions
over small datatypes:

- **The price socket** (`useWebsocket.jsx`). It builds the subscription URL
  from a room name and the page's query string. Each message it receives maps
  ticker symbols to field values. For every ticker and each of the five keys
  `price`, `open`, `high`, `low` and `vol`, it overwrites the text of the
  element `<ticker>_<key>`, but only when that element exists and the key is
  present. The page is modelled as a finite map from element id to text
  (`TickerSocket.Dom`).
- **The candlestick poll** (`CandleStickChart.jsx`). Each poll fetches the
  whole bar history of MSFT. On an array payload it sorts the bars ascending
  by time (stably, as `Array.prototype.sort` is), hands the chart series the
  OHLC projection of each bar, and replaces the held data with the sorted
  batch. Every other outcome changes nothing: an error object is skipped, and
  a failed request or any other payload is caught. The crosshair
  handler returns early unless it has a series, a truthy time and prices for
  that time.
- **The order form** (`StockChart.jsx`, `handleTrade`). It validates the form
  locally and builds the order record with `parseInt`. It then turns the reply
  into alerts and, on success, a balance that is the server's figure printed
  to two decimals.
- **The market table** (`Stocklist.jsx`). It builds the initial rows with
  placeholders and keeps a set of favourite row ids. A row click navigates to
  `/stock/<symbol>`. Each row renders six element ids, and the price socket
  writes into five of them.
- **The sign-in form** (`Signin.jsx`, `handleSubmit`). It posts the three
  inputs as JSON. The reply becomes either an error message, or a stored
  token plus navigation to `/landing`.

Network replies, socket frames and user actions are input datatypes, and
every way a request can end is a variant: network failure, non-ok status,
undecodable body, or a decoded value. Effects are returned as values: alerts
in order, `setError` calls in order, the token written to local storage, and
the path navigated to. The module `Js` models the JavaScript built-ins the
handlers depend on:

- the global `parseInt` without a radix (section 19.2.5 of ECMA-262): white
  space, one sign, a `0x` prefix, then the leading digits;
- `String(n)` for integers;
- `toFixed(2)` on amounts held as whole cents;
- `charAt(0)` and `substring(1)`;
- truthiness of optional strings.

Some facts about the code that the model keeps:

- A successful poll replaces the chart data with the freshly sorted batch.
  Earlier bars are not kept.
- A poll result is applied whenever it arrives, with no check of which
  request it answers.
- A socket message only overwrites element text. No earlier price, and no
  up/down direction, is remembered for a ticker.
- Values for tickers and keys that have no element on the page are dropped.
- A quantity of `"0"` passes validation. Only empty text is rejected.
- The socket URL passes the page's query string through unchanged.
- The success alert is the server's `message` when it is truthy.

Two behaviours of the code as written are worth knowing:

- When one ticker's values in a socket message are `null` and one of its
  elements exists, reading `values[key]` throws. The tickers after it in the
  same message are then not applied (`TickerSocket.NullValuesEndTheMessage`).
- When an order reply has no `balance`, the success alert is shown first. The
  generic error alert follows it, and the balance is kept.

## Model

| member | source | states |
|---|---|---|
| `Js.ParseIntDecimalText` | frontend/src/Pages/StockChart.jsx:101 | `parseInt` reads back every integer `String(n)` prints in digit form (as JavaScript does below 10^21), negative ones included |
| `Js.ToFixed2Digits` | frontend/src/Pages/StockChart.jsx:133 | below 10^21, `toFixed(2)` of a cent amount starts with `-` exactly for a negative amount; the rest is a whole part with no leading zero unless it is a lone `0`, a point, and exactly two digits; removing the point leaves text that parses back to the cent count, sign included |
| `TickerSocket.QueryString` | frontend/src/components/useWebsocket.jsx:10 | the query string is the page's search string without its first character, and nothing when the search string is empty |
| `TickerSocket.SocketUrl` | frontend/src/components/useWebsocket.jsx:7-19 | no URL at all exactly when the room name is empty; otherwise the URL is exactly `ws://localhost:8000/ws/stock/`, the room name, `/?` and the query string, in that order, for every room name |
| `TickerSocket.SocketUrlRoundTrip` | frontend/src/components/useWebsocket.jsx:14-19 | for a room name without `/`, the room name and the query string can be read back from the URL |
| `TickerSocket.ElementIdInjective` | frontend/src/components/useWebsocket.jsx:33-39 | the ids `t1_k1` and `t2_k2` coincide only when `t1 = t2` and `k1 = k2`, for keys without `_` such as the five field keys |
| `TickerSocket.WriteKeys` | frontend/src/components/useWebsocket.jsx:41-45 | one ticker's write loop throws exactly when its values are null and one of its elements exists; otherwise it keeps every element, and each element shows the value of its key when that key is in the list and present, its old text otherwise |
| `TickerSocket.OnMessage` | frontend/src/components/useWebsocket.jsx:27-47 | a message never adds or removes an element, and a frame that fails to parse or parses to null changes nothing |
| `TickerSocket.ApplyEntriesSpec` | frontend/src/components/useWebsocket.jsx:32-46 | element by element, after a message each element shows what the last ticker reached before any throw wrote into it, or keeps its text |
| `TickerSocket.SingleTickerMessage` | frontend/src/components/useWebsocket.jsx:42-43 | for a one-ticker message, `<ticker>_<key>` gets `values[key]` when the key is present and keeps its text when the key is absent |
| `TickerSocket.OtherTickersUntouched` | frontend/src/components/useWebsocket.jsx:33-39 | a message that does not name a ticker leaves every element of that ticker as it was |
| `TickerSocket.NullValuesEndTheMessage` | frontend/src/components/useWebsocket.jsx:32-46 | a ticker with null values and an element on the page ends the message: what comes after it is not applied, what came before is kept |
| `TickerSocket.UnrecognisedKeysIgnored` | frontend/src/components/useWebsocket.jsx:33-41 | a message gives the same page as the same message with every key other than the five field keys removed |
| `TickerSocket.FramesKeepOtherElements` | frontend/src/components/useWebsocket.jsx:33-43 | however many messages arrive, the page keeps exactly its elements, and an element whose id does not end in one of the five `_<key>` suffixes keeps its text |
| `CandleChart.PollUrlIgnoresSymbol` | frontend/src/components/CandleStickChart.jsx:105 | every poll requests MSFT's history, whatever the chart's symbol |
| `CandleChart.SortByTime` | frontend/src/components/CandleStickChart.jsx:113 | the sorted batch is ascending by time and holds the same bars as the fetched batch (a multiset permutation) |
| `CandleChart.SortIsStable` | frontend/src/components/CandleStickChart.jsx:113 | for every time, the bars stamped with it are all kept, in arrival order, so nothing is de-duplicated |
| `CandleChart.ProjectPermutation` | frontend/src/components/CandleStickChart.jsx:118-124 | projecting two arrangements of the same bars gives two arrangements of the same candles |
| `CandleChart.ProjectKeepsOrder` | frontend/src/components/CandleStickChart.jsx:113-124 | the projection of an ascending batch is ascending by time |
| `CandleChart.OnPoll` | frontend/src/components/CandleStickChart.jsx:103-133 | on an array payload the held data becomes the sorted batch, and a series, when one exists, is handed the projection of that sorted batch; every failure, error object or other payload leaves the data as it was and hands nothing |
| `CandleChart.PollReplacesSeries` | frontend/src/components/CandleStickChart.jsx:128 | what a successful poll leaves does not depend on the data held before it |
| `CandleChart.PollKeepsEqualTimes` | frontend/src/components/CandleStickChart.jsx:113 | after a poll, the bars of any one time are exactly those fetched, in arrival order |
| `CandleChart.OnCrosshair` | frontend/src/components/CandleStickChart.jsx:44-55 | the hover box is unchanged when there is no series, the time is missing or zero, or the series has no prices there; once all three guards pass, the box always shows the move's time and its open, high, low and close |
| `OrderTicket.HandleTrade` | frontend/src/Pages/StockChart.jsx:86-140 | no request exactly when the symbol or quantity is empty (alert "Please select a stock and enter a quantity.") or a limit order has no price (alert "Please enter a price for the limit order."); a posted order carries the symbol, the parsed quantity, the type, null or the parsed limit price, and the action; a form stopped by validation keeps the balance; the balance changes only on a successful reply and then becomes the server's balance to two decimals; a reply error is alerted verbatim with the balance kept; a network or HTTP failure gives the generic alert; the first alert of an error-free reply is the server's truthy `message`, or else the sentence "Successfully <action> <quantity> shares of <stock> at $<price to two decimals>!"; with neither a message nor a price, the only alert is the generic one; a success alert without a balance is followed by the generic alert and the balance is kept |
| `OrderTicket.Respond` | frontend/src/Pages/StockChart.jsx:118-139 | the reply handling alone. A reply error is alerted verbatim. The success alert is the server's truthy `message`, or else the sentence built from the reply's quantity, stock and price. Each thrown error gives the generic alert: a network or HTTP failure, a body that is not an object, a missing price with no message (the only alert), or a missing balance (after the success alert, with the balance kept). A successful reply gives exactly one alert and sets the balance; nothing else does |
| `OrderTicket.FormBodyRoundTrip` | frontend/src/Pages/StockChart.jsx:99-116 | the posted form fields carry the whole order record: reading them back gives the order, a NaN quantity or price and a null price included |
| `OrderTicket.InitialFormIsRejected` | frontend/src/Pages/StockChart.jsx:25-29 | the form as the page opens it is rejected locally and leaves the balance at 0 |
| `OrderTicket.BalanceComesFromServer` | frontend/src/Pages/StockChart.jsx:128-133 | after a successful reply the balance is the same whatever the previous balance, quantity or price were |
| `OrderTicket.ZeroQuantityIsPosted` | frontend/src/Pages/StockChart.jsx:88-105 | a quantity of "0" passes validation and is posted as the number 0 |
| `OrderTicket.FilledOrderExample` | frontend/src/Pages/StockChart.jsx:124-133 | a buy of 10 MSFT answered with message "ok", price 50.50 and balance 949.50 alerts "ok" and shows the balance "949.50" |
| `OrderTicket.RejectedOrderExample` | frontend/src/Pages/StockChart.jsx:126-127 | a reply with error "Insufficient funds" alerts exactly that text and keeps the balance |
| `OrderTicket.SuccessSentenceExample` | frontend/src/Pages/StockChart.jsx:129-132 | without a server message, the alert is "Successfully sell 10 shares of MSFT at $50.50!" |
| `StockList.InitialRows` | frontend/src/Pages/Stocklist.jsx:19-35 | one row per listing, numbered from 1 in listing order, with its symbol and name, "N/A" in every price cell, "0.00%" change, an upward arrow and the placeholder logo address |
| `StockList.LogoShowsInitial` | frontend/src/Pages/Stocklist.jsx:27 | the logo address ends in `?text=` followed by the symbol's first character |
| `StockList.RowIdsDistinct` | frontend/src/Pages/Stocklist.jsx:23-24 | no two initial rows share an id |
| `StockList.TrackedRows` | frontend/src/Pages/Stocklist.jsx:19-35 | the table opens with Apple Inc. as row 1 and Microsoft Corp. as row 2, logos showing "A" and "M", every price cell "N/A" and the change "0.00%" |
| `StockList.ToggleFavorite` | frontend/src/Pages/Stocklist.jsx:42-46 | the toggled id changes membership, and every other id keeps its own |
| `StockList.ToggleTwiceRestores` | frontend/src/Pages/Stocklist.jsx:42-46 | starring the same row twice restores the favourites |
| `StockList.OnClick` | frontend/src/Pages/Stocklist.jsx:40-51 | only a click on the row itself navigates, to `/stock/` followed by the row's symbol; only the star changes the favourites, and only the row's own id |
| `StockList.StockPathNamesSymbol` | frontend/src/Pages/Stocklist.jsx:49-51 | the stock page path is `/stock/` followed by exactly the symbol |
| `StockList.RenderDomIds` | frontend/src/Pages/Stocklist.jsx:113-127 | every id on the page is `<symbol>_<key>` for some row and one of the keys price, open, high, low, change, vol |
| `StockList.RenderDomHasCells` | frontend/src/Pages/Stocklist.jsx:113-127 | every one of those six ids of every row is on the page |
| `StockList.RenderDomFirstRowWins` | frontend/src/Pages/Stocklist.jsx:113-127 | when several rows share a symbol, the page shows the earliest such row's text in each of that symbol's six cells |
| `StockList.CellsTheSocketWrites` | frontend/src/Pages/Stocklist.jsx:113-127 | of a row's six ids, the price socket can write exactly the five other than `<symbol>_change` |
| `StockList.ChangeCellKeepsPlaceholder` | frontend/src/Pages/Stocklist.jsx:122 | however many price messages arrive, each row's change cell still shows "0.00%" |
| `StockList.ListSubscribesToTrack` | frontend/src/Pages/Stocklist.jsx:12 | the table subscribes to the room "track", and the URL names that room and the page's query string |
| `SignIn.LoginRequestRoundTrip` | frontend/src/Pages/Signin.jsx:57 | the request body carries exactly username, email and password, which can be read back from it |
| `SignIn.HandleSubmit` | frontend/src/Pages/Signin.jsx:40-72 | the error is cleared first; an ok reply stores the server's token, or "dummy_token" when it is missing or empty, and navigates to `/landing`; a non-ok reply shows the server's error text or "Invalid login credentials"; a thrown failure shows its message or "Login failed"; a token is stored exactly when the reply is ok, exactly when the page navigates, and exactly when no error follows the clearing call |
| `SignIn.MissingTokenFallsBack` | frontend/src/Pages/Signin.jsx:67 | an ok reply without a usable token stores "dummy_token" |
| `SignIn.StatusDecides` | frontend/src/Pages/Signin.jsx:63-68 | only the status decides between signing in and showing an error, whatever the reply body holds |

## Left out

- The WebSocket object is not modelled: no opening, no `onopen`/`onerror`/`onclose` logging, no cleanup close, no reconnection. Each message is an input frame: the outcome of `JSON.parse` on the message, a parse failure included.
- `fetch`, `alert`, `localStorage`, `navigate` and `console` are not modelled. Their inputs are datatypes and their effects are returned values.
- The 2000 ms poll interval and React effect timing are left out. One poll is one call of `CandleChart.OnPoll`.
- The lightweight-charts library is a foreign library and is left out: chart creation, the series object, the resize observer and option updates. Handing the series its data is modelled as the value handed over.
- Presentation is left out: the hover box's date formatting, the table's layout, icons, styling, the logo's error fallback and the mock data.
- `fetchLivePrices` in StockChart.jsx is left out. It is never called and uses setters that do not exist.
- The commented-out CSRF token logic and the request headers are left out, including the literal CSRF placeholder header of the order request.
- `Js.FirstChar`, `Js.DropFirst`: a Dafny `char` is a Unicode scalar value, while `charAt(0)` and `substring(1)` work on UTF-16 code units. The two differ only for a symbol or search string that starts with a character outside the Basic Multilingual Plane.
- The addresses the order and sign-in requests are posted to are left out. Neither handler's logic depends on them.
- Socket values are modelled as the text the element receives. Turning a JSON number or null into that text is not modelled.
- `Object.entries` order is taken as the order of the frame's entries.
- JSON string escaping of the sign-in body and the percent-encoding `URLSearchParams` applies are not modelled. Both bodies are lists of name/value pairs.
- `CandleChart.OnPoll`: bar times and prices are integers. Floating-point prices, and the comparator's behaviour on non-numeric times, are not modelled.
- `OrderTicket.HandleTrade`: prices and balances are whole cents, so `toFixed(2)` is exact for amounts below 10^21. Rounding of amounts that are not whole cents is not modelled. From 10^21 up, JavaScript prints a balance, quantity or price in exponent form (`1e+21`), while the model prints every digit.
- `OrderTicket.HandleTrade`: reply fields of unexpected types are treated as missing. This covers a non-string `error` or `message` and a non-numeric `quantity`, `price` or `balance`. So a truthy non-string `error` or `message` takes the branch a missing one would. For example, `{error: 1, message: "x", balance: 100}` alerts "1" and keeps the balance in the source, while the model takes the success branch and sets the balance.
- `SignIn.HandleSubmit`: the same applies to a non-string `error` or `token` in the sign-in reply.
- `Js.ParseIntDecimalText`: `parseInt` is modelled on unbounded integers. The rounding to the nearest double for digit runs beyond 2^53 is not modelled. `String(n)` is modelled as every digit of `n`, but from 10^21 up JavaScript prints exponent form (`1e+21`), which `parseInt` reads back as 1. The round trip is promised only for the digit form.
- `Js.ToFixed2Digits`: the point-and-two-digits shape holds below 10^21 only. From 10^21 up, `toFixed(2)` prints exponent form with no point, while the model prints every digit.
- `OrderTicket.Respond`: the balance text and the success sentence print every digit of the quantity, price and balance. From 10^21 up, JavaScript prints these in exponent form (`1e+21`).
- `OrderTicket.FormBodyRoundTrip`: the posted quantity and limit price are printed with every digit. From 10^21 up, `URLSearchParams` would post them as `1e+21`, which does not read back as the order's number.
