/** The candlestick chart's poll (CandleStickChart.jsx): each poll fetches the
    whole bar history, and on an array payload sorts it ascending by time
    (stably, as `Array.prototype.sort` is), hands the series its OHLC
    projection and keeps the sorted batch as the component's data. Any
    failure leaves both as they were. Also the crosshair handler's guard. */
module CandleChart {
  import opened Js

  /** The poll ignores the component's symbol and always asks for MSFT. */
  const ChartDataUrl := "http://localhost:8000/stock_chart_data/MSFT/"

  /** One bar as the server sends it: time in epoch seconds, the four prices
      (as whole units), and whatever further fields it carries, which the
      component keeps in its data but does not hand to the series. */
  datatype RawBar = RawBar(time: int, open: int, high: int, low: int, close: int, rest: map<string, string>)

  /** One bar as handed to the candlestick series. */
  datatype Candle = Candle(time: int, open: int, high: int, low: int, close: int)

  /** The decoded body of a poll response: an array of bars, an object with
      an `error` field, or any other JSON value (null, another object, a
      number...), on which the call to `sort` throws. */
  datatype Payload = BarArray(bars: seq<RawBar>) | ErrorObject(error: string) | OtherJson

  /** How one fetch ends. */
  datatype PollResult = NetworkFailure | HttpFailure(status: int) | BadJson | Fetched(payload: Payload)

  /** The component's data after a poll, and the series handed to the chart
      by this poll, if any. */
  datatype PollStep = PollStep(data: seq<RawBar>, handed: Option<seq<Candle>>)

  /** The URL a poll requests for the chart of `stockSymbol`. */
  function PollUrl(stockSymbol: string): string {
    ChartDataUrl
  }

  /** Every poll requests MSFT's history, whatever the chart's symbol. */
  lemma PollUrlIgnoresSymbol(a: string, b: string)
    ensures PollUrl(a) == PollUrl(b) == ChartDataUrl
  {
  }

  // ---------------------------------------------------------------------
  // Sorting by time
  // ---------------------------------------------------------------------

  /** Ascending by time: each bar's time is at most the next one's. */
  predicate SortedByTime(s: seq<RawBar>) {
    |s| <= 1 || (s[0].time <= s[1].time && SortedByTime(s[1..]))
  }

  /** In a sorted sequence every bar's time is at most that of any later bar. */
  lemma {:induction false} SortedPairs(s: seq<RawBar>, i: nat, j: nat)
    requires SortedByTime(s) && i <= j < |s|
    ensures s[i].time <= s[j].time
    decreases j
  {
    if i < j {
      SortedPairs(s[1..], if i == 0 then 0 else i - 1, j - 1);
    }
  }

  /** Inserts `b` after every bar of `s` whose time is not later than its own. */
  function Insert(s: seq<RawBar>, b: RawBar): (r: seq<RawBar>)
    requires SortedByTime(s)
    ensures SortedByTime(r)
    ensures multiset(r) == multiset(s) + multiset{b}
    ensures r[0] == b || (s != [] && r[0] == s[0])
  {
    if s == [] then [b]
    else if b.time < s[0].time then
      assert ([b] + s)[1..] == s;
      [b] + s
    else
      assert s == [s[0]] + s[1..];
      var rest := Insert(s[1..], b);
      assert ([s[0]] + rest)[1..] == rest;
      [s[0]] + rest
  }

  /** `jsonData.sort((a, b) => a.time - b.time)`: a stable sort ascending by
      time, as an insertion sort of the batch from left to right. */
  function SortByTime(s: seq<RawBar>): (r: seq<RawBar>)
    ensures SortedByTime(r)
    ensures multiset(r) == multiset(s)
    decreases |s|
  {
    if s == [] then []
    else
      assert s == s[..|s| - 1] + [s[|s| - 1]];
      Insert(SortByTime(s[..|s| - 1]), s[|s| - 1])
  }

  /** The bars of `s` stamped `t`, in their order in `s`. */
  function AtTime(s: seq<RawBar>, t: int): seq<RawBar> {
    if s == [] then [] else (if s[0].time == t then [s[0]] else []) + AtTime(s[1..], t)
  }

  lemma {:induction false} AtTimeConcat(a: seq<RawBar>, b: seq<RawBar>, t: int)
    ensures AtTime(a + b, t) == AtTime(a, t) + AtTime(b, t)
    decreases |a|
  {
    if a == [] {
      assert a + b == b;
    } else {
      var x := a[0];
      var head := if x.time == t then [x] else [];
      assert a + b == [x] + (a[1..] + b);
      AtTimeCons(x, a[1..] + b, t);
      AtTimeConcat(a[1..], b, t);
      ConcatAssoc(head, AtTime(a[1..], t), AtTime(b, t));
    }
  }

  lemma ConcatAssoc<T>(a: seq<T>, b: seq<T>, c: seq<T>)
    ensures a + (b + c) == (a + b) + c
  {
  }

  lemma AtTimeCons(x: RawBar, s: seq<RawBar>, t: int)
    ensures AtTime([x] + s, t) == (if x.time == t then [x] else []) + AtTime(s, t)
  {
    assert ([x] + s)[1..] == s;
  }

  lemma AtTimeSnoc(p: seq<RawBar>, x: RawBar, t: int)
    ensures AtTime(p + [x], t) == AtTime(p, t) + (if x.time == t then [x] else [])
  {
    AtTimeConcat(p, [x], t);
    assert AtTime([x], t) == if x.time == t then [x] else [];
  }

  lemma {:induction false} AtTimeNone(s: seq<RawBar>, t: int)
    requires SortedByTime(s) && (s == [] || s[0].time > t)
    ensures AtTime(s, t) == []
    decreases |s|
  {
    if s != [] {
      AtTimeNone(s[1..], t);
    }
  }

  lemma {:induction false} AtTimeInsert(s: seq<RawBar>, b: RawBar, t: int)
    requires SortedByTime(s)
    ensures AtTime(Insert(s, b), t) == AtTime(s, t) + (if b.time == t then [b] else [])
    decreases |s|
  {
    if s == [] {
    } else if b.time < s[0].time {
      assert Insert(s, b) == [b] + s;
      AtTimeCons(b, s, t);
      if b.time == t {
        AtTimeNone(s, t);
        assert AtTime([b] + s, t) == [b] + [];
      } else {
        assert AtTime([b] + s, t) == [] + AtTime(s, t);
      }
    } else {
      var rest := Insert(s[1..], b);
      assert Insert(s, b) == [s[0]] + rest;
      var head := if s[0].time == t then [s[0]] else [];
      var tail := if b.time == t then [b] else [];
      AtTimeInsert(s[1..], b, t);
      AtTimeCons(s[0], rest, t);
      assert AtTime(s, t) == head + AtTime(s[1..], t);
      assert AtTime([s[0]] + rest, t) == head + (AtTime(s[1..], t) + tail);
      ConcatAssoc(head, AtTime(s[1..], t), tail);
    }
  }

  /** The sort keeps every bar, including all bars that share a time, and
      keeps bars of equal time in the order they arrived. */
  lemma {:induction false} SortIsStable(s: seq<RawBar>, t: int)
    ensures AtTime(SortByTime(s), t) == AtTime(s, t)
    decreases |s|
  {
    if s != [] {
      var p := s[..|s| - 1];
      var x := s[|s| - 1];
      assert s == p + [x];
      AtTimeInsert(SortByTime(p), x, t);
      SortIsStable(p, t);
      AtTimeSnoc(p, x, t);
    }
  }

  // ---------------------------------------------------------------------
  // Projection to the series
  // ---------------------------------------------------------------------

  function Project(b: RawBar): Candle {
    Candle(b.time, b.open, b.high, b.low, b.close)
  }

  /** `sortedData.map(item => ({time, open, high, low, close}))` */
  function ProjectAll(s: seq<RawBar>): (r: seq<Candle>)
    ensures |r| == |s|
  {
    if s == [] then [] else [Project(s[0])] + ProjectAll(s[1..])
  }

  lemma {:induction false} ProjectAllAt(s: seq<RawBar>, i: nat)
    requires i < |s|
    ensures ProjectAll(s)[i] == Project(s[i])
    decreases i
  {
    if i > 0 {
      ProjectAllAt(s[1..], i - 1);
    }
  }

  lemma {:induction false} ProjectAllConcat(a: seq<RawBar>, b: seq<RawBar>)
    ensures ProjectAll(a + b) == ProjectAll(a) + ProjectAll(b)
    decreases |a|
  {
    if a == [] {
      assert a + b == b;
    } else {
      assert (a + b)[0] == a[0];
      assert (a + b)[1..] == a[1..] + b;
      ProjectAllConcat(a[1..], b);
    }
  }

  predicate CandlesSorted(s: seq<Candle>) {
    forall i, j :: 0 <= i < j < |s| ==> s[i].time <= s[j].time
  }

  lemma ProjectKeepsOrder(s: seq<RawBar>)
    requires SortedByTime(s)
    ensures CandlesSorted(ProjectAll(s))
  {
    forall i, j | 0 <= i < j < |s| ensures ProjectAll(s)[i].time <= ProjectAll(s)[j].time {
      ProjectAllAt(s, i);
      ProjectAllAt(s, j);
      SortedPairs(s, i, j);
    }
  }

  /** When `a` and `l + [a[0]] + r` hold the same elements, so do the rest of
      `a` and `l + r`. */
  lemma RemoveFirst<T>(a: seq<T>, l: seq<T>, r: seq<T>)
    requires a != [] && multiset(a) == multiset(l + [a[0]] + r)
    ensures multiset(a[1..]) == multiset(l + r)
  {
    var x := a[0];
    assert a == [x] + a[1..];
    assert multiset(a) == multiset{x} + multiset(a[1..]);
    assert multiset(l + [x] + r) == multiset(l) + multiset{x} + multiset(r);
    assert multiset(l + r) == multiset(l) + multiset(r);
    CancelOne(x, multiset(a[1..]), multiset(l + r));
  }

  lemma CancelOne<T>(x: T, p: multiset<T>, q: multiset<T>)
    requires multiset{x} + p == multiset{x} + q
    ensures p == q
  {
    forall y ensures p[y] == q[y] {
      assert (multiset{x} + p)[y] == multiset{x}[y] + p[y];
      assert (multiset{x} + q)[y] == multiset{x}[y] + q[y];
    }
  }

  /** Taking one bar out of the middle takes its candle out of the projection. */
  lemma ProjectAllRemove(l: seq<RawBar>, x: RawBar, r: seq<RawBar>)
    ensures multiset(ProjectAll(l + [x] + r)) == multiset{Project(x)} + multiset(ProjectAll(l + r))
  {
    ProjectAllConcat(l + [x], r);
    ProjectAllConcat(l, [x]);
    ProjectAllConcat(l, r);
    assert ProjectAll([x]) == [Project(x)];
  }

  /** Projecting two arrangements of the same bars gives two arrangements of
      the same candles. */
  lemma {:induction false} ProjectPermutation(a: seq<RawBar>, b: seq<RawBar>)
    requires multiset(a) == multiset(b)
    ensures multiset(ProjectAll(a)) == multiset(ProjectAll(b))
    decreases |a|
  {
    if a == [] {
      assert |b| == |multiset(b)| == 0;
    } else {
      var x := a[0];
      assert x in multiset(b);
      var i :| 0 <= i < |b| && b[i] == x;
      var l, r := b[..i], b[i + 1..];
      assert b == l + [x] + r;
      assert a == [x] + a[1..];
      RemoveFirst(a, l, r);
      ProjectPermutation(a[1..], l + r);
      ProjectAllRemove(l, x, r);
      assert ProjectAll(a) == [Project(x)] + ProjectAll(a[1..]);
      assert multiset(ProjectAll(a)) == multiset{Project(x)} + multiset(ProjectAll(a[1..]));
      assert multiset(ProjectAll(b)) == multiset{Project(x)} + multiset(ProjectAll(l + r));
    }
  }

  // ---------------------------------------------------------------------
  // One poll
  // ---------------------------------------------------------------------

  /** `fetchStockData`, given how the fetch ended and whether the series
      exists yet. An array payload replaces the data with the sorted batch and
      hands the series its projection; every other outcome changes nothing:
      an error object is skipped by the `error` test, and a network failure,
      a non-ok status, an undecodable body or any other JSON (whose `sort`
      throws) is caught. */
  function OnPoll(data: seq<RawBar>, hasSeries: bool, result: PollResult): (r: PollStep)
    ensures result.Fetched? && result.payload.BarArray? ==>
      var bars := result.payload.bars;
      && SortedByTime(r.data)
      && multiset(r.data) == multiset(bars)
      && (r.handed.Some? <==> hasSeries)
      && (r.handed.Some? ==> r.handed.value == ProjectAll(r.data))
      && (r.handed.Some? ==> CandlesSorted(r.handed.value))
      && (r.handed.Some? ==> multiset(r.handed.value) == multiset(ProjectAll(bars)))
    ensures !(result.Fetched? && result.payload.BarArray?) ==> r == PollStep(data, None)
  {
    match result
    case Fetched(BarArray(bars)) =>
      var sorted := SortByTime(bars);
      ProjectKeepsOrder(sorted);
      ProjectPermutation(sorted, bars);
      PollStep(sorted, if hasSeries then Some(ProjectAll(sorted)) else None)
    case _ => PollStep(data, None)
  }

  /** A successful poll replaces the series wholesale: what it leaves does not
      depend on the data held before. */
  lemma PollReplacesSeries(before1: seq<RawBar>, before2: seq<RawBar>, hasSeries: bool, bars: seq<RawBar>)
    ensures OnPoll(before1, hasSeries, Fetched(BarArray(bars))) == OnPoll(before2, hasSeries, Fetched(BarArray(bars)))
  {
  }

  /** Bars sharing a time all survive a poll, in arrival order: nothing is
      de-duplicated. */
  lemma PollKeepsEqualTimes(data: seq<RawBar>, hasSeries: bool, bars: seq<RawBar>, t: int)
    ensures AtTime(OnPoll(data, hasSeries, Fetched(BarArray(bars))).data, t) == AtTime(bars, t)
  {
    SortIsStable(bars, t);
  }

  // ---------------------------------------------------------------------
  // Crosshair
  // ---------------------------------------------------------------------

  /** The prices the chart reports for the series under the crosshair. */
  datatype Ohlc = Ohlc(open: int, high: int, low: int, close: int)

  /** A crosshair move: the time under the cursor (absent off the chart) and
      the series' prices at that time, if it has any. */
  datatype CrosshairMove = CrosshairMove(time: Option<int>, seriesPrices: Option<Ohlc>)

  /** The hover box; its date is the local date of `time`. */
  datatype Hover = Hover(time: int, open: int, high: int, low: int, close: int)

  /** The crosshair handler: it returns early, leaving the hover box as it
      was, when there is no series, the time is missing or zero (falsy), or
      the series has no prices at that time; otherwise the box shows the
      move's time and prices. */
  function OnCrosshair(hover: Option<Hover>, hasSeries: bool, move: CrosshairMove): (r: Option<Hover>)
    ensures !hasSeries || move.time.None? || move.time.value == 0 || move.seriesPrices.None? ==> r == hover
    ensures r != hover ==> r.Some? && move.time.Some? && r.value.time == move.time.value
    ensures r != hover ==> move.seriesPrices == Some(Ohlc(r.value.open, r.value.high, r.value.low, r.value.close))
    ensures hasSeries && move.time.Some? && move.time.value != 0 && move.seriesPrices.Some? ==>
      var p := move.seriesPrices.value;
      r == Some(Hover(move.time.value, p.open, p.high, p.low, p.close))
  {
    if !hasSeries || move.time.None? || move.time.value == 0 then hover
    else
      match move.seriesPrices
      case None => hover
      case Some(p) => Some(Hover(move.time.value, p.open, p.high, p.low, p.close))
  }
}
