/** The market overview table (Stocklist.jsx): the rows it starts with, the
    favourites it keeps, where a click leads, and the element ids each row
    renders, which are what the price socket writes into. */
module StockList {
  import opened Js
  import TickerSocket

  /** A stock the page tracks. */
  datatype Listing = Listing(symbol: string, name: string)

  /** The stocks the table starts with, in display order. */
  const Tracked := [Listing("AAPL", "Apple Inc."), Listing("MSFT", "Microsoft Corp.")]

  /** The room the page subscribes to for live prices. */
  const RoomName := "track"

  const LogoBase := "https://placehold.co/36x36/gray/white?text="
  const Placeholder := "N/A"
  const InitialChange := "0.00%"

  /** One row of the table. */
  datatype StockRow = StockRow(
    id: int, symbol: string, name: string, logo: string,
    price: string, open: string, high: string, low: string, volume: string,
    change24h: string, change24hUp: bool)

  // ---------------------------------------------------------------------
  // Initial rows
  // ---------------------------------------------------------------------

  /** The row for the listing at position `index`. */
  function NewRow(l: Listing, index: nat): StockRow {
    StockRow(index + 1, l.symbol, l.name, LogoBase + FirstChar(l.symbol),
             Placeholder, Placeholder, Placeholder, Placeholder, Placeholder, InitialChange, true)
  }

  /** The row is still as the page first drew it: placeholders everywhere,
      no change and an upward arrow. */
  predicate Untouched(row: StockRow) {
    && row.price == Placeholder && row.open == Placeholder && row.high == Placeholder
    && row.low == Placeholder && row.volume == Placeholder
    && row.change24h == InitialChange && row.change24hUp
  }

  /** The rows built from the listings when the page mounts. */
  function InitialRows(listings: seq<Listing>): (rows: seq<StockRow>)
    ensures |rows| == |listings|
    ensures forall i :: 0 <= i < |rows| ==>
      rows[i].id == i + 1 && rows[i].symbol == listings[i].symbol && rows[i].name == listings[i].name
    ensures forall i :: 0 <= i < |rows| ==> Untouched(rows[i])
    ensures forall i :: 0 <= i < |rows| ==> StartsWith(rows[i].logo, LogoBase)
  {
    seq(|listings|, i requires 0 <= i < |listings| => NewRow(listings[i], i))
  }

  /** The logo placeholder shows the symbol's first letter (nothing for an
      empty symbol). */
  lemma LogoShowsInitial(listings: seq<Listing>, i: nat)
    requires i < |listings|
    ensures var logo := InitialRows(listings)[i].logo;
      && EndsWith(logo, "?text=" + FirstChar(listings[i].symbol))
      && |logo| == |LogoBase| + (if listings[i].symbol == "" then 0 else 1)
  {
    var logo := InitialRows(listings)[i].logo;
    var f := FirstChar(listings[i].symbol);
    assert logo == LogoBase + f;
    assert LogoBase[|LogoBase| - 6..] == "?text=";
    assert logo[|logo| - |"?text=" + f|..] == "?text=" + f;
  }

  /** Rows are numbered 1, 2, ... in listing order, so no two rows share an id. */
  lemma RowIdsDistinct(listings: seq<Listing>, i: nat, j: nat)
    requires i < j < |listings|
    ensures InitialRows(listings)[i].id != InitialRows(listings)[j].id
  {
  }

  /** The table as the page opens it: Apple as row 1 and Microsoft as row 2,
      their logos showing "A" and "M", every other cell a placeholder. */
  lemma TrackedRows()
    ensures InitialRows(Tracked) == [
      StockRow(1, "AAPL", "Apple Inc.", LogoBase + "A",
               Placeholder, Placeholder, Placeholder, Placeholder, Placeholder, InitialChange, true),
      StockRow(2, "MSFT", "Microsoft Corp.", LogoBase + "M",
               Placeholder, Placeholder, Placeholder, Placeholder, Placeholder, InitialChange, true)]
  {
    assert FirstChar("AAPL") == "A";
    assert FirstChar("MSFT") == "M";
  }

  // ---------------------------------------------------------------------
  // Favourites and clicks
  // ---------------------------------------------------------------------

  /** `toggleFavorite`'s update: `id` changes membership, nothing else does. */
  function ToggleFavorite(favorites: set<int>, id: int): (r: set<int>)
    ensures id in r <==> id !in favorites
    ensures forall x :: x != id ==> (x in r <==> x in favorites)
  {
    if id in favorites then favorites - {id} else favorites + {id}
  }

  /** Starring a row twice leaves the favourites as they were. */
  lemma ToggleTwiceRestores(favorites: set<int>, id: int)
    ensures ToggleFavorite(ToggleFavorite(favorites, id), id) == favorites
  {
    var r := ToggleFavorite(ToggleFavorite(favorites, id), id);
    assert forall x :: x in r <==> x in favorites;
  }

  /** Where a click on a row lands: the row itself, its star button, or its
      menu button (both buttons stop the click reaching the row). */
  datatype Click = OnRow | OnStar | OnMenu

  /** What a click leaves: the favourites, and the path navigated to, if any. */
  datatype ClickOutcome = ClickOutcome(favorites: set<int>, navigateTo: Option<string>)

  const StockPathPrefix := "/stock/"

  /** `handleStockClick`'s target. */
  function StockPath(symbol: string): string {
    StockPathPrefix + symbol
  }

  /** The page of a stock names that stock after its fixed prefix. */
  lemma StockPathNamesSymbol(symbol: string)
    ensures StockPath(symbol)[..|StockPathPrefix|] == StockPathPrefix
    ensures StockPath(symbol)[|StockPathPrefix|..] == symbol
  {
  }

  function OnClick(row: StockRow, favorites: set<int>, click: Click): (r: ClickOutcome)
    ensures r.navigateTo.Some? <==> click == OnRow
    ensures r.navigateTo.Some? ==>
      && |StockPathPrefix| <= |r.navigateTo.value|
      && r.navigateTo.value[..|StockPathPrefix|] == StockPathPrefix
      && r.navigateTo.value[|StockPathPrefix|..] == row.symbol
    ensures click != OnStar ==> r.favorites == favorites
    ensures click == OnStar ==> (row.id in r.favorites <==> row.id !in favorites)
    ensures forall x :: x != row.id ==> (x in r.favorites <==> x in favorites)
  {
    match click
    case OnRow => ClickOutcome(favorites, Some(StockPath(row.symbol)))
    case OnStar => ClickOutcome(ToggleFavorite(favorites, row.id), None)
    case OnMenu => ClickOutcome(favorites, None)
  }

  // ---------------------------------------------------------------------
  // Rendered element ids
  // ---------------------------------------------------------------------

  /** The six cells a row renders with an id, by key. */
  const CellKeys: seq<string> := ["price", "open", "high", "low", "change", "vol"]

  /** The text a row's cell shows. */
  function CellText(row: StockRow, key: string): string {
    if key == "price" then row.price
    else if key == "open" then row.open
    else if key == "high" then row.high
    else if key == "low" then row.low
    else if key == "change" then row.change24h
    else row.volume
  }

  lemma CellKeysHaveNoUnderscore()
    ensures forall k :: k in CellKeys ==> '_' !in k
  {
  }

  /** The ids one row renders: `<symbol>_<key>` for each cell. */
  function RowIds(symbol: string): set<string> {
    set k | k in CellKeys :: TickerSocket.ElementId(symbol, k)
  }

  /** The elements one row puts on the page, each showing its cell's text. */
  function RowDom(row: StockRow): TickerSocket.Dom {
    map id | id in RowIds(row.symbol) :: CellText(row, TickerSocket.KeyOf(row.symbol, id).GetOr(""))
  }

  lemma RowDomCell(row: StockRow, k: string)
    requires k in CellKeys
    ensures TickerSocket.ElementId(row.symbol, k) in RowDom(row)
    ensures RowDom(row)[TickerSocket.ElementId(row.symbol, k)] == CellText(row, k)
  {
    TickerSocket.KeyOfElementId(row.symbol, k);
  }

  /** The page as `getElementById` sees it: when two rows render the same
      id, the earlier one is found (`RenderDomFirstRowWins`). */
  function RenderDom(rows: seq<StockRow>): TickerSocket.Dom {
    if rows == [] then map[] else RenderDom(rows[1..]) + RowDom(rows[0])
  }

  /** An id found on the page belongs to one of the rows' cells. */
  lemma {:induction false} RenderDomIds(rows: seq<StockRow>, id: string)
    requires id in RenderDom(rows)
    ensures exists i, k :: 0 <= i < |rows| && k in CellKeys && id == TickerSocket.ElementId(rows[i].symbol, k)
    decreases |rows|
  {
    if id in RowDom(rows[0]) {
      var k :| k in CellKeys && id == TickerSocket.ElementId(rows[0].symbol, k);
    } else {
      RenderDomIds(rows[1..], id);
      var i, k :| 0 <= i < |rows| - 1 && k in CellKeys && id == TickerSocket.ElementId(rows[1..][i].symbol, k);
      assert rows[1..][i] == rows[i + 1];
    }
  }

  /** Every cell of every row is on the page. */
  lemma {:induction false} RenderDomHasCells(rows: seq<StockRow>, i: nat, k: string)
    requires i < |rows| && k in CellKeys
    ensures TickerSocket.ElementId(rows[i].symbol, k) in RenderDom(rows)
    decreases i
  {
    var id := TickerSocket.ElementId(rows[i].symbol, k);
    var rest := RenderDom(rows[1..]);
    assert RenderDom(rows) == rest + RowDom(rows[0]);
    if i == 0 {
      RowDomCell(rows[0], k);
      assert id in RowDom(rows[0]);
    } else {
      RenderDomHasCells(rows[1..], i - 1, k);
      assert rows[1..][i - 1] == rows[i];
      assert id in rest;
    }
  }

  /** When every row shows the same text in cell `k`, the page shows it in
      that cell of each row. */
  lemma {:induction false} RenderDomUniformCell(rows: seq<StockRow>, i: nat, k: string, text: string)
    requires i < |rows| && k in CellKeys
    requires forall j :: 0 <= j < |rows| ==> CellText(rows[j], k) == text
    ensures TickerSocket.ElementId(rows[i].symbol, k) in RenderDom(rows)
    ensures RenderDom(rows)[TickerSocket.ElementId(rows[i].symbol, k)] == text
    decreases i
  {
    var id := TickerSocket.ElementId(rows[i].symbol, k);
    var rest := RenderDom(rows[1..]);
    var first := RowDom(rows[0]);
    assert RenderDom(rows) == rest + first;
    if id in first {
      assert RenderDom(rows)[id] == first[id];
      var k0 :| k0 in CellKeys && id == TickerSocket.ElementId(rows[0].symbol, k0);
      CellKeysHaveNoUnderscore();
      TickerSocket.ElementIdInjective(rows[i].symbol, k, rows[0].symbol, k0);
      RowDomCell(rows[0], k);
    } else {
      assert i != 0 by {
        RowDomCell(rows[0], k);
      }
      RenderDomUniformCell(rows[1..], i - 1, k, text);
      assert rows[1..][i - 1] == rows[i];
      assert RenderDom(rows)[id] == rest[id];
    }
  }

  /** Of the rows sharing a symbol, the earliest supplies what the page
      shows: a row no earlier row shares its symbol with has every one of
      its cells on the page with its own text. */
  lemma {:induction false} RenderDomFirstRowWins(rows: seq<StockRow>, i: nat, k: string)
    requires i < |rows| && k in CellKeys
    requires forall j :: 0 <= j < i ==> rows[j].symbol != rows[i].symbol
    ensures TickerSocket.ElementId(rows[i].symbol, k) in RenderDom(rows)
    ensures RenderDom(rows)[TickerSocket.ElementId(rows[i].symbol, k)] == CellText(rows[i], k)
    decreases i
  {
    var id := TickerSocket.ElementId(rows[i].symbol, k);
    var rest := RenderDom(rows[1..]);
    var first := RowDom(rows[0]);
    assert RenderDom(rows) == rest + first;
    if i == 0 {
      RowDomCell(rows[0], k);
      assert RenderDom(rows)[id] == first[id];
    } else {
      assert id !in first by {
        if id in first {
          var k0 :| k0 in CellKeys && id == TickerSocket.ElementId(rows[0].symbol, k0);
          CellKeysHaveNoUnderscore();
          TickerSocket.ElementIdInjective(rows[i].symbol, k, rows[0].symbol, k0);
          assert false;
        }
      }
      forall j | 0 <= j < i - 1
        ensures rows[1..][j].symbol != rows[1..][i - 1].symbol
      {
        assert rows[1..][j] == rows[j + 1];
      }
      RenderDomFirstRowWins(rows[1..], i - 1, k);
      assert rows[1..][i - 1] == rows[i];
      assert RenderDom(rows)[id] == rest[id];
    }
  }

  /** The price socket reaches every cell of a row except its change cell:
      those five ids are exactly the ids the socket writes. */
  lemma CellsTheSocketWrites(symbol: string, k: string)
    requires k in CellKeys
    ensures TickerSocket.IsFieldId(TickerSocket.ElementId(symbol, k)) <==> k != "change"
  {
    var id := TickerSocket.ElementId(symbol, k);
    if k == "change" {
      ChangeIdNotWritten(symbol);
    } else {
      var i := if k == "price" then 0 else if k == "open" then 1 else if k == "high" then 2 else if k == "low" then 3 else 4;
      assert TickerSocket.FieldKeys[i] == k;
      assert id[|id| - |"_" + k|..] == "_" + k;
    }
  }

  lemma ChangeIdNotWritten(symbol: string)
    ensures !TickerSocket.IsFieldId(TickerSocket.ElementId(symbol, "change"))
  {
    var id := TickerSocket.ElementId(symbol, "change");
    assert id == symbol + "_change";
    forall i | 0 <= i < |TickerSocket.FieldKeys|
      ensures !EndsWith(id, "_" + TickerSocket.FieldKeys[i])
    {
      var suffix := "_" + TickerSocket.FieldKeys[i];
      assert i == 0 || i == 1 || i == 2 || i == 3 || i == 4;
      assert 4 <= |suffix| <= 6 && suffix[0] == '_';
      assert id[|id| - |suffix|] == "_change"[7 - |suffix|];
      assert id[|id| - |suffix|..][0] != suffix[0];
    }
  }

  /** However many price messages arrive, every row's change cell keeps the
      "0.00%" it started with. */
  lemma ChangeCellKeepsPlaceholder(listings: seq<Listing>, frames: seq<TickerSocket.Frame>, i: nat)
    requires i < |listings|
    ensures var page := RenderDom(InitialRows(listings));
      var id := TickerSocket.ElementId(listings[i].symbol, "change");
      id in TickerSocket.ApplyFrames(page, frames) && TickerSocket.ApplyFrames(page, frames)[id] == InitialChange
  {
    var rows := InitialRows(listings);
    var page := RenderDom(rows);
    var id := TickerSocket.ElementId(listings[i].symbol, "change");
    RenderDomUniformCell(rows, i, "change", InitialChange);
    ChangeIdNotWritten(listings[i].symbol);
    TickerSocket.FramesKeepOtherElements(page, frames, id);
  }

  /** The table subscribes to the "track" room with whatever query string
      the page has. */
  lemma ListSubscribesToTrack(search: string)
    ensures TickerSocket.SocketUrl(RoomName, search).Some?
    ensures TickerSocket.SplitSocketUrl(TickerSocket.SocketUrl(RoomName, search).value)
      == Some((RoomName, TickerSocket.QueryString(search)))
  {
    TickerSocket.SocketUrlRoundTrip(RoomName, search);
  }
}
