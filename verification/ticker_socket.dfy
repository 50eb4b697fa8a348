/** The live-ticker socket of the stock list (useWebsocket.jsx): the URL the
    hook connects to, and what one decoded message does to the page. The page
    is a finite map from element id to the element's text; a message writes
    `<ticker>_<key>` for the five recognised keys, only where that element
    exists and the ticker's values carry the key. */
module TickerSocket {
  import opened Js

  /** The page's elements: id -> innerText. */
  type Dom = map<string, string>

  const SocketBase := "ws://localhost:8000/ws/stock/"

  /** The value keys the handler looks for, in the order it visits them. */
  const FieldKeys: seq<string> := ["price", "open", "high", "low", "vol"]

  /** What one ticker's entry of a decoded message holds. `Fields` maps each
      key present to the text `innerText` receives when it is written;
      `NullValues` is a JSON null, reading a key of which throws; `NoFields`
      is any other non-object (number, string, boolean, array), every key of
      which reads as undefined. */
  datatype Values = Fields(fields: map<string, string>) | NullValues | NoFields

  /** One socket frame after `JSON.parse`: not JSON at all, the JSON value
      null (whose entries cannot be listed), or the ticker/values pairs in
      the order `Object.entries` lists them. */
  datatype Frame = BadJson | JsonNull | JsonEntries(entries: seq<(string, Values)>)

  // ---------------------------------------------------------------------
  // Connection URL
  // ---------------------------------------------------------------------

  /** `location.search.substring(1)`: the query string without its `?`. */
  function QueryString(search: string): (q: string)
    ensures search == [] ==> q == []
    ensures search != [] ==> [search[0]] + q == search
  {
    DropFirst(search)
  }

  /** The URL the hook opens, or None when the room name is empty and the
      hook returns before building one or opening any socket. */
  function SocketUrl(roomName: string, search: string): (r: Option<string>)
    ensures r.None? <==> roomName == ""
    ensures r.Some? ==> StartsWith(r.value, SocketBase) && EndsWith(r.value, "/?" + QueryString(search))
    ensures r.Some? ==>
      && StartsWith(r.value, SocketBase + roomName)
      && |r.value| == |SocketBase| + |roomName| + 2 + |QueryString(search)|
  {
    if roomName == "" then None
    else
      var url := SocketBase + roomName + "/?" + QueryString(search);
      assert url[..|SocketBase|] == SocketBase;
      assert url[..|SocketBase + roomName|] == SocketBase + roomName;
      assert url[|url| - |"/?" + QueryString(search)|..] == "/?" + QueryString(search);
      Some(url)
  }

  function IndexOf(s: string, c: char): (r: Option<nat>)
    ensures r.Some? ==> r.value < |s| && s[r.value] == c && c !in s[..r.value]
    ensures r.None? ==> c !in s
  {
    if s == [] then None
    else if s[0] == c then Some(0)
    else
      match IndexOf(s[1..], c)
      case None => None
      case Some(i) => assert s[..i + 1] == [s[0]] + s[1..][..i]; Some(i + 1)
  }

  lemma {:induction false} IndexOfFirst(s: string, c: char, i: nat)
    requires i < |s| && s[i] == c && c !in s[..i]
    ensures IndexOf(s, c) == Some(i)
    decreases i
  {
    if i > 0 {
      assert s[0] == s[..i][0];
      assert s[1..][..i - 1] == s[..i][1..];
      IndexOfFirst(s[1..], c, i - 1);
    }
  }

  /** Reads a socket URL back into its room name and query string: the room
      runs up to the first `/` after the base, which must be followed by `?`. */
  function SplitSocketUrl(url: string): Option<(string, string)> {
    if !StartsWith(url, SocketBase) then None
    else
      var rest := url[|SocketBase|..];
      match IndexOf(rest, '/')
      case None => None
      case Some(i) =>
        if i + 1 < |rest| && rest[i + 1] == '?' then Some((rest[..i], rest[i + 2..])) else None
  }

  /** The URL determines the room and the query it was built from, when the
      room name holds no `/`. */
  lemma SocketUrlRoundTrip(roomName: string, search: string)
    requires roomName != "" && '/' !in roomName
    ensures SocketUrl(roomName, search).Some?
    ensures SplitSocketUrl(SocketUrl(roomName, search).value) == Some((roomName, QueryString(search)))
  {
    var q := QueryString(search);
    var url := SocketBase + roomName + "/?" + q;
    var rest := url[|SocketBase|..];
    assert rest == roomName + "/?" + q;
    assert rest[..|roomName|] == roomName;
    IndexOfFirst(rest, '/', |roomName|);
    assert rest[|roomName| + 2..] == q;
  }

  // ---------------------------------------------------------------------
  // Element ids
  // ---------------------------------------------------------------------

  /** The id of the element showing `key` for `ticker`. */
  function ElementId(ticker: string, key: string): string {
    ticker + "_" + key
  }

  /** The key `k` with `ElementId(ticker, k) == id`, if there is one. */
  function KeyOf(ticker: string, id: string): Option<string> {
    if |id| > |ticker| && id[..|ticker| + 1] == ticker + "_" then Some(id[|ticker| + 1..]) else None
  }

  lemma KeyOfElementId(ticker: string, key: string)
    ensures KeyOf(ticker, ElementId(ticker, key)) == Some(key)
  {
    var id := ElementId(ticker, key);
    assert id[..|ticker| + 1] == ticker + "_";
    assert id[|ticker| + 1..] == key;
  }

  lemma ElementIdOfKey(ticker: string, id: string)
    requires KeyOf(ticker, id).Some?
    ensures id == ElementId(ticker, KeyOf(ticker, id).value)
  {
    assert id == id[..|ticker| + 1] + id[|ticker| + 1..];
  }

  lemma FieldKeysHaveNoUnderscore()
    ensures forall k :: k in FieldKeys ==> '_' !in k
  {
  }

  /** Ids `t1_k1` and `t2_k2` coincide only for equal tickers and keys, as
      long as neither key contains `_`: the key is what follows the last `_`. */
  lemma ElementIdInjective(t1: string, k1: string, t2: string, k2: string)
    requires '_' !in k1 && '_' !in k2
    requires ElementId(t1, k1) == ElementId(t2, k2)
    ensures t1 == t2 && k1 == k2
  {
    var a := ElementId(t1, k1);
    UnderscoreBeforeKey(t1, k1);
    UnderscoreBeforeKey(t2, k2);
    assert |t1| == |t2|;
    assert k1 == a[|t1| + 1..] == k2;
    assert t1 == a[..|t1|] == t2;
  }

  /** In `ticker_key` with no `_` in the key, the `_` after the ticker is the
      last one. */
  lemma UnderscoreBeforeKey(ticker: string, key: string)
    requires '_' !in key
    ensures ElementId(ticker, key)[|ticker|] == '_'
    ensures forall j :: |ticker| < j < |ElementId(ticker, key)| ==> ElementId(ticker, key)[j] != '_'
  {
    var a := ElementId(ticker, key);
    forall j | |ticker| < j < |a| ensures a[j] != '_' {
      assert a[j] == key[j - |ticker| - 1];
    }
  }

  /** An id the socket may ever write: one ending in `_<key>` for a
      recognised key. */
  predicate IsFieldId(id: string) {
    exists i :: 0 <= i < |FieldKeys| && EndsWith(id, "_" + FieldKeys[i])
  }

  // ---------------------------------------------------------------------
  // One ticker
  // ---------------------------------------------------------------------

  /** The text a ticker's values give element `id`, when the handler visiting
      `keys` writes it at all. */
  function TickerWrite(ticker: string, values: Values, keys: seq<string>, id: string): Option<string> {
    match KeyOf(ticker, id)
    case None => None
    case Some(k) => if k in keys && values.Fields? && k in values.fields then Some(values.fields[k]) else None
  }

  /** The inner loop of the handler over `keys` for one ticker; None when
      it throws (values are null and an element exists). */
  function WriteKeys(dom: Dom, ticker: string, values: Values, keys: seq<string>): (r: Option<Dom>)
    ensures r.None? <==> values.NullValues? && exists i :: 0 <= i < |keys| && ElementId(ticker, keys[i]) in dom
    ensures r.Some? ==> r.value.Keys == dom.Keys
    ensures r.Some? ==> forall id :: id in dom ==> r.value[id] == TickerWrite(ticker, values, keys, id).GetOr(dom[id])
    decreases |keys|
  {
    if keys == [] then Some(dom)
    else
      var k := keys[0];
      var id := ElementId(ticker, k);
      if id in dom && values.NullValues? then None
      else
        var next := if id in dom && values.Fields? && k in values.fields then dom[id := values.fields[k]] else dom;
        var r := WriteKeys(next, ticker, values, keys[1..]);
        assert r.Some? ==> forall x :: x in dom ==> r.value[x] == TickerWrite(ticker, values, keys, x).GetOr(dom[x]) by {
          if r.Some? {
            forall x | x in dom
              ensures r.value[x] == TickerWrite(ticker, values, keys, x).GetOr(dom[x])
            {
              WriteKeysStep(dom, ticker, values, keys, x);
            }
          }
        }
        r
  }

  /** Writing the first key and then the rest gives each element what the
      whole list of keys gives it. */
  lemma WriteKeysStep(dom: Dom, ticker: string, values: Values, keys: seq<string>, x: string)
    requires keys != [] && x in dom
    ensures var k := keys[0];
      var id := ElementId(ticker, k);
      var next := if id in dom && values.Fields? && k in values.fields then dom[id := values.fields[k]] else dom;
      x in next && TickerWrite(ticker, values, keys[1..], x).GetOr(next[x]) == TickerWrite(ticker, values, keys, x).GetOr(dom[x])
  {
    var k := keys[0];
    var id := ElementId(ticker, k);
    assert keys == [k] + keys[1..];
    if x == id {
      KeyOfElementId(ticker, k);
    } else {
      assert KeyOf(ticker, x) != Some(k) by {
        if KeyOf(ticker, x) == Some(k) { ElementIdOfKey(ticker, x); }
      }
    }
  }

  /** The handler's body for one ticker: the five recognised keys. */
  function ApplyTicker(dom: Dom, ticker: string, values: Values): Option<Dom> {
    WriteKeys(dom, ticker, values, FieldKeys)
  }

  // ---------------------------------------------------------------------
  // One message
  // ---------------------------------------------------------------------

  /** The outer loop over the tickers of a message. A ticker that throws ends
      the handler; what earlier tickers wrote stays written. */
  function ApplyEntries(dom: Dom, entries: seq<(string, Values)>): Dom
    decreases |entries|
  {
    if entries == [] then dom
    else
      match ApplyTicker(dom, entries[0].0, entries[0].1)
      case None => dom
      case Some(d) => ApplyEntries(d, entries[1..])
  }

  /** The socket's `onmessage` handler. A frame that does not parse, or that
      parses to null, throws before any element is written. */
  function OnMessage(dom: Dom, frame: Frame): (r: Dom)
    ensures r.Keys == dom.Keys
    ensures !frame.JsonEntries? ==> r == dom
  {
    match frame
    case JsonEntries(entries) => ApplyEntriesSpec(dom, entries); ApplyEntries(dom, entries)
    case _ => dom
  }

  /** Whether the ticker's values are null while one of its elements exists,
      so that the handler throws at that element. */
  predicate Aborts(ids: set<string>, ticker: string, values: Values) {
    values.NullValues? && exists i :: 0 <= i < |FieldKeys| && ElementId(ticker, FieldKeys[i]) in ids
  }

  /** The entries the handler finishes: those before the first that throws. */
  function Reached(ids: set<string>, entries: seq<(string, Values)>): (r: seq<(string, Values)>)
    ensures |r| <= |entries| && r == entries[..|r|]
  {
    if entries == [] || Aborts(ids, entries[0].0, entries[0].1) then []
    else [entries[0]] + Reached(ids, entries[1..])
  }

  /** The text the last entry that writes `id` gives it, if any does. */
  function LatestWrite(entries: seq<(string, Values)>, id: string): Option<string> {
    if entries == [] then None
    else
      var later := LatestWrite(entries[1..], id);
      if later.Some? then later else TickerWrite(entries[0].0, entries[0].1, FieldKeys, id)
  }

  /** What a message does, element by element: each existing element keeps
      its text unless an entry the handler reaches writes it, and then shows
      what the last such entry gives it. No element appears or disappears. */
  lemma {:induction false} ApplyEntriesSpec(dom: Dom, entries: seq<(string, Values)>)
    ensures ApplyEntries(dom, entries).Keys == dom.Keys
    ensures forall id :: id in dom ==>
      ApplyEntries(dom, entries)[id] == LatestWrite(Reached(dom.Keys, entries), id).GetOr(dom[id])
    decreases |entries|
  {
    ApplyEntriesKeys(dom, entries);
    if entries != [] {
      var e := entries[0];
      ApplyEntriesStep(dom, entries);
      var next := ApplyTicker(dom, e.0, e.1);
      if next.None? {
        assert Reached(dom.Keys, entries) == [];
      } else {
        var d := next.value;
        ApplyEntriesSpec(d, entries[1..]);
        var reached := Reached(dom.Keys, entries);
        assert reached[1..] == Reached(d.Keys, entries[1..]);
        forall id | id in dom
          ensures ApplyEntries(d, entries[1..])[id] == LatestWrite(reached, id).GetOr(dom[id])
        {
          assert d[id] == TickerWrite(e.0, e.1, FieldKeys, id).GetOr(dom[id]);
        }
      }
    }
  }

  /** A message never adds or removes an element. */
  lemma {:induction false} ApplyEntriesKeys(dom: Dom, entries: seq<(string, Values)>)
    ensures ApplyEntries(dom, entries).Keys == dom.Keys
    decreases |entries|
  {
    if entries != [] {
      ApplyEntriesStep(dom, entries);
      var next := ApplyTicker(dom, entries[0].0, entries[0].1);
      if next.Some? {
        ApplyEntriesKeys(next.value, entries[1..]);
      }
    }
  }

  // ---------------------------------------------------------------------
  // Properties of the handler
  // ---------------------------------------------------------------------

  /** A one-ticker message writes `<ticker>_<key>` with the value for `key`
      exactly when the element exists and the key is present; a key absent
      from the values leaves its element's text as it was. */
  lemma SingleTickerMessage(dom: Dom, ticker: string, fields: map<string, string>, key: string)
    requires key in FieldKeys
    requires ElementId(ticker, key) in dom
    ensures var r := OnMessage(dom, JsonEntries([(ticker, Fields(fields))]));
      r[ElementId(ticker, key)] == if key in fields then fields[key] else dom[ElementId(ticker, key)]
  {
    var entries := [(ticker, Fields(fields))];
    var id := ElementId(ticker, key);
    ApplyEntriesSpec(dom, entries);
    KeyOfElementId(ticker, key);
    assert entries[1..] == [];
    assert Reached(dom.Keys, entries) == entries;
    assert LatestWrite(entries, id) == TickerWrite(ticker, Fields(fields), FieldKeys, id);
  }

  /** A message changes no element of a ticker it does not name. */
  lemma OtherTickersUntouched(dom: Dom, entries: seq<(string, Values)>, ticker: string, key: string)
    requires key in FieldKeys
    requires ElementId(ticker, key) in dom
    requires forall i :: 0 <= i < |entries| ==> entries[i].0 != ticker
    ensures OnMessage(dom, JsonEntries(entries))[ElementId(ticker, key)] == dom[ElementId(ticker, key)]
  {
    var id := ElementId(ticker, key);
    ApplyEntriesSpec(dom, entries);
    var reached := Reached(dom.Keys, entries);
    forall i | 0 <= i < |reached|
      ensures TickerWrite(reached[i].0, reached[i].1, FieldKeys, id) == None
    {
      assert reached[i] == entries[i];
      var other := reached[i].0;
      match KeyOf(other, id)
      case None =>
      case Some(k) =>
        if k in FieldKeys {
          ElementIdOfKey(other, id);
          FieldKeysHaveNoUnderscore();
          ElementIdInjective(ticker, key, other, k);
        }
    }
    NoWriterNoWrite(reached, id);
  }

  lemma {:induction false} NoWriterNoWrite(entries: seq<(string, Values)>, id: string)
    requires forall i :: 0 <= i < |entries| ==> TickerWrite(entries[i].0, entries[i].1, FieldKeys, id) == None
    ensures LatestWrite(entries, id) == None
    decreases |entries|
  {
    if entries != [] {
      NoWriterNoWrite(entries[1..], id);
    }
  }

  /** A ticker whose values are null while one of its elements exists ends
      the handler: the tickers after it are never applied. */
  lemma NullValuesEndTheMessage(dom: Dom, before: seq<(string, Values)>, ticker: string, after: seq<(string, Values)>)
    requires Aborts(dom.Keys, ticker, NullValues)
    ensures OnMessage(dom, JsonEntries(before + [(ticker, NullValues)] + after)) == OnMessage(dom, JsonEntries(before))
  {
    NullValuesEndEntries(dom, before, ticker, after);
  }

  lemma {:induction false} NullValuesEndEntries(dom: Dom, before: seq<(string, Values)>, ticker: string, after: seq<(string, Values)>)
    requires Aborts(dom.Keys, ticker, NullValues)
    ensures ApplyEntries(dom, before + [(ticker, NullValues)] + after) == ApplyEntries(dom, before)
    decreases |before|
  {
    var all := before + [(ticker, NullValues)] + after;
    ApplyEntriesStep(dom, all);
    if before == [] {
      assert all[0] == (ticker, NullValues);
      assert ApplyTicker(dom, ticker, NullValues).None?;
    } else {
      assert all[0] == before[0];
      assert all[1..] == before[1..] + [(ticker, NullValues)] + after;
      ApplyEntriesStep(dom, before);
      var next := ApplyTicker(dom, before[0].0, before[0].1);
      if next.Some? {
        NullValuesEndEntries(next.value, before[1..], ticker, after);
      }
    }
  }

  /** The same values with every key other than the five recognised ones
      removed. */
  function Recognised(values: Values): Values {
    match values
    case Fields(f) => Fields(map k | k in f && k in FieldKeys :: f[k])
    case _ => values
  }

  function RecognisedEntries(entries: seq<(string, Values)>): (r: seq<(string, Values)>)
    ensures |r| == |entries|
    ensures forall i :: 0 <= i < |r| ==> r[i] == (entries[i].0, Recognised(entries[i].1))
  {
    if entries == [] then [] else [(entries[0].0, Recognised(entries[0].1))] + RecognisedEntries(entries[1..])
  }

  lemma {:induction false} RecognisedKeysSuffice(dom: Dom, ticker: string, values: Values, keys: seq<string>)
    requires forall i :: 0 <= i < |keys| ==> keys[i] in FieldKeys
    ensures WriteKeys(dom, ticker, values, keys) == WriteKeys(dom, ticker, Recognised(values), keys)
    decreases |keys|
  {
    if keys != [] {
      var k := keys[0];
      var id := ElementId(ticker, k);
      var rv := Recognised(values);
      assert rv.NullValues? == values.NullValues? && rv.Fields? == values.Fields?;
      if values.Fields? {
        assert k in FieldKeys;
        assert (k in rv.fields) == (k in values.fields);
        assert k in values.fields ==> rv.fields[k] == values.fields[k];
      }
      var next := if id in dom && values.Fields? && k in values.fields then dom[id := values.fields[k]] else dom;
      RecognisedKeysSuffice(next, ticker, values, keys[1..]);
    }
  }

  /** Keys outside price, open, high, low and vol never affect any element:
      dropping them from every ticker's values changes nothing. */
  lemma UnrecognisedKeysIgnored(dom: Dom, entries: seq<(string, Values)>)
    ensures OnMessage(dom, JsonEntries(entries)) == OnMessage(dom, JsonEntries(RecognisedEntries(entries)))
  {
    RecognisedEntriesSuffice(dom, entries);
  }

  lemma {:induction false} RecognisedEntriesSuffice(dom: Dom, entries: seq<(string, Values)>)
    ensures ApplyEntries(dom, entries) == ApplyEntries(dom, RecognisedEntries(entries))
    decreases |entries|
  {
    if entries != [] {
      var r := RecognisedEntries(entries);
      var t := entries[0].0;
      RecognisedKeysSuffice(dom, t, entries[0].1, FieldKeys);
      assert r[0] == (t, Recognised(entries[0].1));
      assert r[1..] == RecognisedEntries(entries[1..]);
      var d := ApplyTicker(dom, t, entries[0].1);
      ApplyEntriesStep(dom, entries);
      ApplyEntriesStep(dom, r);
      if d.Some? {
        RecognisedEntriesSuffice(d.value, entries[1..]);
      }
    }
  }

  lemma ApplyEntriesStep(dom: Dom, entries: seq<(string, Values)>)
    requires entries != []
    ensures var d := ApplyTicker(dom, entries[0].0, entries[0].1);
      ApplyEntries(dom, entries) == if d.Some? then ApplyEntries(d.value, entries[1..]) else dom
  {
  }

  // ---------------------------------------------------------------------
  // A stream of messages
  // ---------------------------------------------------------------------

  /** The page after the socket has delivered `frames` in order. */
  function ApplyFrames(dom: Dom, frames: seq<Frame>): Dom
    decreases |frames|
  {
    if frames == [] then dom else ApplyFrames(OnMessage(dom, frames[0]), frames[1..])
  }

  lemma TickerWriteTargetsFieldId(ticker: string, values: Values, id: string)
    requires TickerWrite(ticker, values, FieldKeys, id).Some?
    ensures IsFieldId(id)
  {
    var k := KeyOf(ticker, id).value;
    ElementIdOfKey(ticker, id);
    var i :| 0 <= i < |FieldKeys| && FieldKeys[i] == k;
    assert id[|id| - |"_" + k|..] == "_" + k;
  }

  lemma {:induction false} LatestWriteTargetsFieldId(entries: seq<(string, Values)>, id: string)
    requires LatestWrite(entries, id).Some?
    ensures IsFieldId(id)
    decreases |entries|
  {
    if LatestWrite(entries[1..], id).Some? {
      LatestWriteTargetsFieldId(entries[1..], id);
    } else {
      TickerWriteTargetsFieldId(entries[0].0, entries[0].1, id);
    }
  }

  /** However many messages arrive, the page keeps exactly its elements, and
      an element whose id does not end in `_price`, `_open`, `_high`, `_low`
      or `_vol` keeps its text. */
  lemma {:induction false} FramesKeepOtherElements(dom: Dom, frames: seq<Frame>, id: string)
    requires id in dom && !IsFieldId(id)
    ensures ApplyFrames(dom, frames).Keys == dom.Keys
    ensures ApplyFrames(dom, frames)[id] == dom[id]
    decreases |frames|
  {
    if frames != [] {
      var next := OnMessage(dom, frames[0]);
      if frames[0].JsonEntries? {
        var entries := frames[0].entries;
        ApplyEntriesSpec(dom, entries);
        if LatestWrite(Reached(dom.Keys, entries), id).Some? {
          LatestWriteTargetsFieldId(Reached(dom.Keys, entries), id);
        }
      }
      FramesKeepOtherElements(next, frames[1..], id);
    }
  }
}
