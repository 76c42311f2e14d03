/**
 * `ParseXLSXFile` of `server/handlers/xlsx.go`: the trade history on the fourth
 * sheet of a broker statement becomes one position per symbol. Rows from the
 * twelfth on that record an opening buy, written `OPEN BUY <shares> @ <price>`,
 * are merged per symbol: shares add up and the price becomes the
 * share-weighted average. The workbook reader, `strconv.ParseFloat` and
 * `utils.RoundToTwo` are parameters.
 */
module XlsxImport {
  import opened Wrappers
  import opened Text

  /** `models.Stock` as the import fills it: the id stays zero. The price
      can become non-finite when the shares of a symbol add up to zero. */
  datatype Stock = Stock(ID: int, Symbol: string, Time: string, Price: Float, Shares: real)

  /** What the workbook reader gives for the sheet at index 3. */
  datatype Sheet =
    | NoSheet                        // `GetSheetName(3)` is empty
    | ReadError(message: string)     // `GetRows` failed
    | SheetRows(rows: seq<seq<string>>)

  /** The first data row: eleven heading rows precede the trades. */
  const FirstDataRow: nat := 11

  /** An accepted row: the trade it records. */
  datatype Trade = Trade(symbol: string, time: string, shares: real, price: real)

  /** Shares and price from the text after `OPEN BUY `, which must be two
      numbers separated by ` @ `. What it reads is stated by `OpenBuyText`
      and `LowerCaseOpenBuy`. */
  function ParseOpenBuy(parseFloat: string -> Option<real>, cell: string): Option<(real, real)> {
    var parts := Split(TrimPrefix(cell, "OPEN BUY "), " @ ");
    if |parts| != 2 then None
    else match (parseFloat(TrimSpace(parts[0])), parseFloat(TrimSpace(parts[1])))
      case (Some(shares), Some(price)) => Some((shares, price))
      case _ => None
  }

  /** The trade a data row records, if it is an opening buy that parses;
      the symbol is column 5, the time column 3, the trade text column 4. */
  function Accepted(parseFloat: string -> Option<real>, row: seq<string>): (r: Option<Trade>)
    ensures r.Some? <==>
      |row| >= 6 && Contains(ToUpper(row[4]), "OPEN BUY") && ParseOpenBuy(parseFloat, row[4]).Some?
    ensures r.Some? ==>
      r.value.symbol == row[5] && r.value.time == row[3]
      && (r.value.shares, r.value.price) == ParseOpenBuy(parseFloat, row[4]).value
  {
    if |row| < 6 || !Contains(ToUpper(row[4]), "OPEN BUY") then None
    else match ParseOpenBuy(parseFloat, row[4])
      case None => None
      case Some((shares, price)) => Some(Trade(row[5], row[3], shares, price))
  }

  lemma {:induction false} SeparatorFrom(a: string, t: string, i: nat)
    requires i <= |a| && '@' !in a
    ensures IndexFrom(a + " @ " + t, " @ ", i) == Some(|a|)
    decreases |a| - i
  {
    var s := a + " @ " + t;
    if i < |a| {
      assert s[i..i + 3][1] == s[i + 1] != '@';
      SeparatorFrom(a, t, i + 1);
    } else {
      assert s[i..i + 3] == " @ ";
    }
  }

  lemma {:induction false} NoSeparatorFrom(b: string, i: nat)
    requires '@' !in b
    ensures IndexFrom(b, " @ ", i) == None
    decreases |b| - i
  {
    if i + 3 <= |b| {
      assert b[i..i + 3][1] == b[i + 1];
      NoSeparatorFrom(b, i + 1);
    }
  }

  /** Text without an `@` on either side of ` @ ` splits into those two
      sides. */
  lemma SplitAtSign(a: string, b: string)
    requires '@' !in a && '@' !in b
    ensures Split(a + " @ " + b, " @ ") == [a, b]
  {
    var s := a + " @ " + b;
    SeparatorFrom(a, b, 0);
    assert s[..|a|] == a;
    assert s[|a| + 3..] == b;
    NoSeparatorFrom(b, 0);
  }

  /** `OPEN BUY a @ b` yields the numbers that the trimmed `a` and `b` parse
      to, and nothing when either does not parse. */
  lemma OpenBuyText(parseFloat: string -> Option<real>, a: string, b: string)
    requires '@' !in a && '@' !in b
    ensures ParseOpenBuy(parseFloat, "OPEN BUY " + a + " @ " + b)
         == if parseFloat(TrimSpace(a)).Some? && parseFloat(TrimSpace(b)).Some?
            then Some((parseFloat(TrimSpace(a)).value, parseFloat(TrimSpace(b)).value))
            else None
  {
    var cell := "OPEN BUY " + a + " @ " + b;
    assert cell == "OPEN BUY " + (a + " @ " + b);
    assert cell[..9] == "OPEN BUY ";
    assert TrimPrefix(cell, "OPEN BUY ") == a + " @ " + b;
    SplitAtSign(a, b);
  }

  /** The marker is matched in any case, but only the upper-case one is
      stripped: in `open buy a @ b` the shares text is `open buy a`, so such a
      cell yields a trade only if the parser reads that text as a number. */
  lemma LowerCaseOpenBuy(parseFloat: string -> Option<real>, a: string, b: string)
    requires '@' !in a && '@' !in b
    ensures ParseOpenBuy(parseFloat, "open buy " + a + " @ " + b)
         == if parseFloat(TrimSpace("open buy " + a)).Some? && parseFloat(TrimSpace(b)).Some?
            then Some((parseFloat(TrimSpace("open buy " + a)).value, parseFloat(TrimSpace(b)).value))
            else None
  {
    var cell := "open buy " + a + " @ " + b;
    assert cell[0] == 'o';
    assert TrimPrefix(cell, "OPEN BUY ") == cell;
    assert '@' !in "open buy " + a;
    SplitAtSign("open buy " + a, b);
  }

  function AcceptedList(parseFloat: string -> Option<real>, row: seq<string>): seq<Trade> {
    match Accepted(parseFloat, row) case Some(t) => [t] case None => []
  }

  /** The accepted trades of `rows`, in order. */
  function Trades(parseFloat: string -> Option<real>, rows: seq<seq<string>>): (ts: seq<Trade>)
    ensures |ts| <= |rows|
  {
    if |rows| == 0 then []
    else Trades(parseFloat, rows[..|rows| - 1]) + AcceptedList(parseFloat, rows[|rows| - 1])
  }

  lemma MergeStep(round: real -> real, ts: seq<Trade>, t: Trade)
    ensures Aggregate(round, ts + [t]) == Merge(round, Aggregate(round, ts), t)
  {
    assert (ts + [t])[..|ts|] == ts;
  }

  /** The share-weighted average of a held price and a bought price; a
      non-finite price stays non-finite, and so does a zero share total. */
  function AveragePrice(held: Float, heldShares: real, price: real, shares: real): Float {
    match held
    case Finite(p) => Divide(p * heldShares + price * shares, heldShares + shares)
    case NonFinite => NonFinite
  }

  /** The average is the share-weighted mean whenever it is finite, which it
      is exactly when the held price is finite and the shares do not cancel. */
  lemma WeightedAverage(held: Float, heldShares: real, price: real, shares: real)
    ensures var r := AveragePrice(held, heldShares, price, shares);
      (r.Finite? <==> held.Finite? && heldShares + shares != 0.0)
      && (r.Finite? ==> r.value * (heldShares + shares) == held.value * heldShares + price * shares)
  {
  }

  /** One trade folded into the positions: a known symbol gets the combined
      shares at the share-weighted average price; a new one starts with the
      trade's time and its price rounded. */
  function Merge(round: real -> real, m: map<string, Stock>, t: Trade): (r: map<string, Stock>)
    ensures r.Keys == m.Keys + {t.symbol}
    ensures forall k :: k in m && k != t.symbol ==> r[k] == m[k]
    ensures t.symbol in m ==>
      var e := m[t.symbol];
      r[t.symbol].ID == e.ID && r[t.symbol].Symbol == e.Symbol && r[t.symbol].Time == e.Time
      && r[t.symbol].Shares == e.Shares + t.shares
      && r[t.symbol].Price == AveragePrice(e.Price, e.Shares, t.price, t.shares)
    ensures t.symbol !in m ==> r[t.symbol] == Stock(0, t.symbol, t.time, Finite(round(t.price)), t.shares)
  {
    if t.symbol in m then
      var e := m[t.symbol];
      m[t.symbol := e.(Price := AveragePrice(e.Price, e.Shares, t.price, t.shares), Shares := e.Shares + t.shares)]
    else
      m[t.symbol := Stock(0, t.symbol, t.time, Finite(round(t.price)), t.shares)]
  }

  /** The positions after every trade of `ts`, merged in order: each is
      keyed by its own symbol and keeps the zero id. */
  function Aggregate(round: real -> real, ts: seq<Trade>): (m: map<string, Stock>)
    ensures forall k :: k in m ==> m[k].Symbol == k && m[k].ID == 0
  {
    if |ts| == 0 then map[] else Merge(round, Aggregate(round, ts[..|ts| - 1]), ts[|ts| - 1])
  }

  /** The checks of one row of the loop, each of which skips the row when it
      fails: enough cells, an opening buy, two parts, two numbers. */
  method ParseRow(parseFloat: string -> Option<real>, row: seq<string>) returns (t: Option<Trade>)
    ensures t == Accepted(parseFloat, row)
  {
    if |row| < 6 {
      return None;
    }
    var symbol, time, priceStr := row[5], row[3], row[4];
    if !Contains(ToUpper(priceStr), "OPEN BUY") {
      return None;
    }
    var parts := Split(TrimPrefix(priceStr, "OPEN BUY "), " @ ");
    if |parts| != 2 {
      assert ParseOpenBuy(parseFloat, priceStr).None?;
      return None;
    }
    var shares := parseFloat(TrimSpace(parts[0]));
    if shares.None? {
      assert ParseOpenBuy(parseFloat, priceStr).None?;
      return None;
    }
    var price := parseFloat(TrimSpace(parts[1]));
    if price.None? {
      assert ParseOpenBuy(parseFloat, priceStr).None?;
      return None;
    }
    assert ParseOpenBuy(parseFloat, priceStr) == Some((shares.value, price.value));
    return Some(Trade(symbol, time, shares.value, price.value));
  }

  /** `ParseXLSXFile`: an error message, or the positions in the unspecified
      order in which the map is walked. */
  method ParseXLSXFile(sheet: Sheet, parseFloat: string -> Option<real>, round: real -> real)
      returns (r: Result<seq<Stock>, string>)
    ensures sheet.NoSheet? ==> r == Failure("no sheet found at index 3")
    ensures sheet.ReadError? ==> r == Failure("failed to read rows: " + sheet.message)
    ensures sheet.SheetRows? && |sheet.rows| < 12 ==> r == Failure("file contains no data rows")
    ensures sheet.SheetRows? && |sheet.rows| >= 12 ==>
      r.Success? && ListsEachOnce(r.value, Aggregate(round, Trades(parseFloat, sheet.rows[FirstDataRow..])))
  {
    if sheet.NoSheet? {
      return Failure("no sheet found at index 3");
    }
    if sheet.ReadError? {
      return Failure("failed to read rows: " + sheet.message);
    }
    var rows := sheet.rows;
    if |rows| < 12 {
      return Failure("file contains no data rows");
    }

    var data := rows[FirstDataRow..];
    var stockMap := CollectPositions(parseFloat, round, data);
    PositionsAggregate(parseFloat, round, data);
    KeysAreSymbols(round, Trades(parseFloat, data));
    var stocks := ListPositions(stockMap);
    return Success(stocks);
  }

  /** The body of the loop for an accepted row: the position of a known
      symbol is updated through its pointer, a new symbol gets a fresh
      position. */
  method MergeInto(round: real -> real, stockMap: map<string, Stock>, t: Trade) returns (updated: map<string, Stock>)
    ensures updated == Merge(round, stockMap, t)
  {
    if t.symbol in stockMap {
      var existing := stockMap[t.symbol];
      var totalShares := existing.Shares + t.shares;
      var price := AveragePrice(existing.Price, existing.Shares, t.price, t.shares);
      updated := stockMap[t.symbol := existing.(Price := price, Shares := totalShares)];
    } else {
      updated := stockMap[t.symbol := Stock(0, t.symbol, t.time, Finite(round(t.price)), t.shares)];
    }
  }

  /** The loop over the data rows, merging every accepted trade into the
      positions in place. */
  method CollectPositions(parseFloat: string -> Option<real>, round: real -> real, data: seq<seq<string>>)
      returns (stockMap: map<string, Stock>)
    ensures stockMap == Positions(parseFloat, round, data)
  {
    stockMap := map[];
    var i := 0;
    while i < |data|
      invariant 0 <= i <= |data|
      invariant stockMap == Positions(parseFloat, round, data[..i])
    {
      PositionsStep(parseFloat, round, data, i);
      var trade := ParseRow(parseFloat, data[i]);
      if trade.Some? {
        stockMap := MergeInto(round, stockMap, trade.value);
      }
      i := i + 1;
    }
    assert data[..i] == data;
  }

  /** The positions after the rows of `rows`, each accepted trade merged in
      as the loop meets it. */
  function Positions(parseFloat: string -> Option<real>, round: real -> real, rows: seq<seq<string>>): map<string, Stock> {
    if |rows| == 0 then map[]
    else
      var before := Positions(parseFloat, round, rows[..|rows| - 1]);
      match Accepted(parseFloat, rows[|rows| - 1])
      case None => before
      case Some(t) => Merge(round, before, t)
  }

  lemma PositionsStep(parseFloat: string -> Option<real>, round: real -> real, rows: seq<seq<string>>, i: nat)
    requires i < |rows|
    ensures Positions(parseFloat, round, rows[..i + 1])
         == match Accepted(parseFloat, rows[i])
            case None => Positions(parseFloat, round, rows[..i])
            case Some(t) => Merge(round, Positions(parseFloat, round, rows[..i]), t)
  {
    assert rows[..i + 1][..i] == rows[..i];
  }

  /** Merging row by row is folding the accepted trades. */
  lemma {:induction false} PositionsAggregate(parseFloat: string -> Option<real>, round: real -> real, rows: seq<seq<string>>)
    ensures Positions(parseFloat, round, rows) == Aggregate(round, Trades(parseFloat, rows))
  {
    if |rows| > 0 {
      var init := rows[..|rows| - 1];
      PositionsAggregate(parseFloat, round, init);
      match Accepted(parseFloat, rows[|rows| - 1])
      case None =>
        assert Trades(parseFloat, rows) == Trades(parseFloat, init) + [];
        assert Trades(parseFloat, init) + [] == Trades(parseFloat, init);
      case Some(t) =>
        MergeStep(round, Trades(parseFloat, init), t);
    }
  }

  /** The walk over the map that copies each position into the result
      slice; the order is the map's, which is unspecified. */
  method ListPositions(stockMap: map<string, Stock>) returns (stocks: seq<Stock>)
    requires forall k :: k in stockMap ==> stockMap[k].Symbol == k
    ensures ListsEachOnce(stocks, stockMap)
  {
    stocks := [];
    var remaining := stockMap.Keys;
    while remaining != {}
      invariant remaining <= stockMap.Keys
      invariant forall j :: 0 <= j < |stocks| ==>
        stocks[j].Symbol in stockMap && stocks[j].Symbol !in remaining && stocks[j] == stockMap[stocks[j].Symbol]
      invariant forall k :: k in stockMap && k !in remaining ==> exists j :: 0 <= j < |stocks| && stocks[j].Symbol == k
      invariant forall j, l :: 0 <= j < l < |stocks| ==> stocks[j].Symbol != stocks[l].Symbol
      decreases remaining
    {
      var k :| k in remaining;
      ghost var prev := stocks;
      stocks := stocks + [stockMap[k]];
      remaining := remaining - {k};
      forall k' | k' in stockMap && k' !in remaining
        ensures exists j :: 0 <= j < |stocks| && stocks[j].Symbol == k'
      {
        if k' == k {
          assert stocks[|prev|].Symbol == k';
        } else {
          var j :| 0 <= j < |prev| && prev[j].Symbol == k';
          assert stocks[j].Symbol == k';
        }
      }
    }
  }

  /** `stocks` lists every position of `m` exactly once, in some order. */
  predicate ListsEachOnce(stocks: seq<Stock>, m: map<string, Stock>) {
    (forall j :: 0 <= j < |stocks| ==> stocks[j].Symbol in m && stocks[j] == m[stocks[j].Symbol])
    && (forall k :: k in m ==> exists j :: 0 <= j < |stocks| && stocks[j].Symbol == k)
    && (forall j, l :: 0 <= j < l < |stocks| ==> stocks[j].Symbol != stocks[l].Symbol)
  }

  // ----------------------------------------------------------------- proofs

  /** The symbols traded in `ts`. */
  function Symbols(ts: seq<Trade>): set<string> {
    if |ts| == 0 then {} else Symbols(ts[..|ts| - 1]) + {ts[|ts| - 1].symbol}
  }

  lemma {:induction false} SymbolsAt(ts: seq<Trade>, s: string)
    ensures s in Symbols(ts) <==> exists i :: 0 <= i < |ts| && ts[i].symbol == s
  {
    if |ts| > 0 {
      var init := ts[..|ts| - 1];
      SymbolsAt(init, s);
      if s in Symbols(init) {
        var i :| 0 <= i < |init| && init[i].symbol == s;
        assert ts[i].symbol == s;
      }
      if exists i :: 0 <= i < |ts| && ts[i].symbol == s {
        var i :| 0 <= i < |ts| && ts[i].symbol == s;
        if i < |init| {
          assert init[i].symbol == s;
        }
      }
    }
  }

  /** The positions are keyed by exactly the traded symbols, and each
      position carries its own key. */
  lemma {:induction false} KeysAreSymbols(round: real -> real, ts: seq<Trade>)
    ensures Aggregate(round, ts).Keys == Symbols(ts)
    ensures forall k :: k in Aggregate(round, ts) ==> Aggregate(round, ts)[k].Symbol == k
  {
    if |ts| > 0 {
      KeysAreSymbols(round, ts[..|ts| - 1]);
    }
  }

  /** The shares traded in `s` across `ts`. */
  function SharesOf(ts: seq<Trade>, s: string): real {
    if |ts| == 0 then 0.0
    else SharesOf(ts[..|ts| - 1], s) + (if ts[|ts| - 1].symbol == s then ts[|ts| - 1].shares else 0.0)
  }

  /** The first trade in `s`. */
  function FirstTrade(ts: seq<Trade>, s: string): (t: Trade)
    requires s in Symbols(ts)
    ensures t.symbol == s
    ensures exists i :: 0 <= i < |ts| && ts[i] == t && forall j :: 0 <= j < i ==> ts[j].symbol != s
  {
    var init := ts[..|ts| - 1];
    if s in Symbols(init) then
      var t := FirstTrade(init, s);
      assert forall i :: 0 <= i < |init| ==> init[i] == ts[i];
      t
    else
      SymbolsAt(init, s);
      ts[|ts| - 1]
  }

  /** A position's shares are the sum of its symbol's trades, and it keeps
      the time of the first of them. */
  lemma {:induction false} SharesAndTime(round: real -> real, ts: seq<Trade>, s: string)
    requires s in Symbols(ts)
    ensures s in Aggregate(round, ts)
    ensures Aggregate(round, ts)[s].Shares == SharesOf(ts, s)
    ensures Aggregate(round, ts)[s].Time == FirstTrade(ts, s).time
  {
    KeysAreSymbols(round, ts);
    var init := ts[..|ts| - 1];
    if s in Symbols(init) {
      SharesAndTime(round, init, s);
    } else {
      KeysAreSymbols(round, init);
      NoShares(init, s);
    }
  }

  lemma {:induction false} NoShares(ts: seq<Trade>, s: string)
    requires s !in Symbols(ts)
    ensures SharesOf(ts, s) == 0.0
  {
    if |ts| > 0 {
      NoShares(ts[..|ts| - 1], s);
    }
  }

  /** A symbol bought once keeps that trade's shares, time and rounded
      price. */
  lemma {:induction false} SingleTrade(round: real -> real, ts: seq<Trade>, i: nat)
    requires i < |ts| && forall j :: 0 <= j < |ts| && j != i ==> ts[j].symbol != ts[i].symbol
    ensures ts[i].symbol in Aggregate(round, ts)
    ensures Aggregate(round, ts)[ts[i].symbol]
         == Stock(0, ts[i].symbol, ts[i].time, Finite(round(ts[i].price)), ts[i].shares)
    decreases |ts|
  {
    var init := ts[..|ts| - 1];
    if i == |ts| - 1 {
      KeysAreSymbols(round, init);
      SymbolsAt(init, ts[i].symbol);
    } else {
      SingleTrade(round, init, i);
    }
  }

  /** What `Accepted` makes of each row. */
  function Parsed(parseFloat: string -> Option<real>, rows: seq<seq<string>>): (os: seq<Option<Trade>>)
    ensures |os| == |rows|
  {
    seq(|rows|, i requires 0 <= i < |rows| => Accepted(parseFloat, rows[i]))
  }

  /** The trades present in `os`, in order. */
  function Present(os: seq<Option<Trade>>): seq<Trade> {
    if |os| == 0 then []
    else Present(os[..|os| - 1]) + (if os[|os| - 1].Some? then [os[|os| - 1].value] else [])
  }

  lemma {:induction false} TradesArePresent(parseFloat: string -> Option<real>, rows: seq<seq<string>>)
    ensures Trades(parseFloat, rows) == Present(Parsed(parseFloat, rows))
  {
    if |rows| > 0 {
      var init := rows[..|rows| - 1];
      TradesArePresent(parseFloat, init);
      assert Parsed(parseFloat, rows)[..|rows| - 1] == Parsed(parseFloat, init);
    }
  }

  /** The positions of the trades present in `os`, in increasing order. */
  ghost function PresentAt(os: seq<Option<Trade>>): seq<nat> {
    if |os| == 0 then []
    else PresentAt(os[..|os| - 1]) + (if os[|os| - 1].Some? then [|os| - 1] else [])
  }

  /** The positions listed are exactly those holding a trade, in increasing
      order, and the `k`-th trade present is the one at the `k`-th of them. */
  lemma {:induction false} PresentInOrder(os: seq<Option<Trade>>)
    ensures var idx := PresentAt(os);
      var ts := Present(os);
      |idx| == |ts|
      && (forall k :: 0 <= k < |idx| ==> idx[k] < |os| && os[idx[k]] == Some(ts[k]))
      && (forall k, l :: 0 <= k < l < |idx| ==> idx[k] < idx[l])
      && (forall i :: 0 <= i < |os| && os[i].Some? ==> i in idx)
  {
    if |os| > 0 {
      var init := os[..|os| - 1];
      PresentInOrder(init);
      assert forall i :: 0 <= i < |init| ==> os[i] == init[i];
    }
  }

  /** Every accepted row, and only those, contributes its trade, in the order
      of the rows. */
  lemma TradesInOrder(parseFloat: string -> Option<real>, rows: seq<seq<string>>)
    ensures var os := Parsed(parseFloat, rows);
      var idx := PresentAt(os);
      var ts := Trades(parseFloat, rows);
      |idx| == |ts|
      && (forall k :: 0 <= k < |idx| ==> idx[k] < |rows| && Accepted(parseFloat, rows[idx[k]]) == Some(ts[k]))
      && (forall k, l :: 0 <= k < l < |idx| ==> idx[k] < idx[l])
      && (forall i :: 0 <= i < |rows| && Accepted(parseFloat, rows[i]).Some? ==> i in idx)
  {
    TradesArePresent(parseFloat, rows);
    PresentInOrder(Parsed(parseFloat, rows));
  }
}
