/**
 * `HandleStockPrice` of `server/handlers/stock.go`: the daily quotes of a
 * symbol, downloaded as CSV, become a newest-first series of at most 180
 * points, each with its change against the previous trading day. The
 * download and the CSV reader are a parameter; `strconv.ParseFloat` and
 * `utils.RoundToTwo` are parameters too.
 */
module DailyQuotes {
  import opened Wrappers

  /** `models.StockData`. The volume is the parsed volume cut to a whole
      number; the change in percent is non-finite after a zero price. */
  datatype StockData = StockData(
    Date: string, Price: real, Volume: int, Change: real, ChangePercent: Float, IsIncrease: bool)

  /** One read of the CSV reader after the header: a record, or an error that
      is not the end of the input (a malformed quote, say). */
  datatype ReadItem = Fields(fields: seq<string>) | Unreadable

  /** What the quote service answers. */
  datatype Download =
    | FetchFailed                                    // `http.Get` failed
    | NoHeader                                       // the header line cannot be read
    | Csv(header: seq<string>, items: seq<ReadItem>)

  /** The handler's answer: an HTTP error, or status 200 with the JSON
      series, with `null` when no point was made, or with no body when the
      series cannot be encoded (a non-finite number). */
  datatype Response =
    | HttpError(status: int, message: string)
    | Series(data: seq<StockData>)  // a JSON array of at least one point
    | NullBody                      // JSON `null`: the nil slice when no point was appended
    | EmptyBody                     // nothing: the encoder refuses a non-finite number

  /** The most records kept. */
  const Window: nat := 180

  const SymbolRequired: string := "Symbol is required"
  const FetchError: string := "Failed to fetch stock data"
  const CsvError: string := "Failed to parse CSV"

  /** The quote service address for `symbol`. */
  function QuoteUrl(symbol: string): string {
    "https://stooq.pl/q/d/l/?s=" + symbol + "&i=d"
  }

  /** Go's conversion of a float to an integer: the fraction is cut off. */
  function Truncate(x: real): (n: int)
    ensures x >= 0.0 ==> n as real <= x < n as real + 1.0
    ensures x < 0.0 ==> n as real - 1.0 < x <= n as real
  {
    if x >= 0.0 then x.Floor else -((-x).Floor)
  }

  /** The records the reader returns without error: Go's CSV reader fails a
      record whose field count differs from the header's. */
  function Records(header: seq<string>, items: seq<ReadItem>): (records: seq<seq<string>>)
    ensures |records| <= |items|
    ensures forall r :: r in records ==> |r| == |header|
  {
    if |items| == 0 then []
    else
      var last := items[|items| - 1];
      Records(header, items[..|items| - 1])
        + (if last.Fields? && |last.fields| == |header| then [last.fields] else [])
  }

  /** The read loop: every record read without error is appended. */
  method ReadRecords(header: seq<string>, items: seq<ReadItem>) returns (records: seq<seq<string>>)
    ensures records == Records(header, items)
  {
    records := [];
    var n := 0;
    while n < |items|
      invariant 0 <= n <= |items|
      invariant records == Records(header, items[..n])
    {
      assert items[..n + 1][..n] == items[..n];
      var item := items[n];
      n := n + 1;
      assert items[..n][n - 1] == item;
      if item.Fields? && |item.fields| == |header| {
        records := records + [item.fields];
      }
    }
    assert items[..n] == items;
  }

  /** The last `Window` records, or all of them when there are fewer. */
  function Recent(records: seq<seq<string>>): (kept: seq<seq<string>>)
    ensures |kept| == if |records| > Window then Window else |records|
    ensures kept == records[|records| - |kept|..]
  {
    if |records| > Window then records[|records| - Window..] else records
  }

  /** The cells the reverse loop reads from a record exist: the closing price
      (column 4) always, the volume (column 5) whenever the price parses. Go's
      indexing panics on any other record. */
  predicate Readable(parseFloat: string -> Option<real>, record: seq<string>) {
    |record| >= 5 && (parseFloat(record[4]).Some? ==> |record| >= 6)
  }

  predicate AllReadable(parseFloat: string -> Option<real>, records: seq<seq<string>>) {
    forall i :: 0 <= i < |records| ==> Readable(parseFloat, records[i])
  }

  /** The point for record `i`, when its closing price (column 4) parses.
      Its change is measured against record `i - 1`, the previous day. */
  function Point(parseFloat: string -> Option<real>, round: real -> real, records: seq<seq<string>>, i: nat)
    : (p: Option<StockData>)
    requires i < |records| && AllReadable(parseFloat, records)
    ensures p.Some? <==> parseFloat(records[i][4]).Some?
    ensures p.Some? ==>
      var price := parseFloat(records[i][4]).value;
      p.value.Date == records[i][0] && p.value.Price == round(price)
      && p.value.Volume == Truncate(parseFloat(records[i][5]).GetOr(0.0))
    ensures p.Some? && i > 0 && parseFloat(records[i - 1][4]).Some? ==>
      var price := parseFloat(records[i][4]).value;
      var previous := parseFloat(records[i - 1][4]).value;
      p.value.Change == round(price - previous)
      && (p.value.IsIncrease <==> price > previous)
      && (p.value.ChangePercent.Finite? <==> previous != 0.0)
      && (previous != 0.0 ==> p.value.ChangePercent.value == round((price - previous) / previous * 100.0))
    ensures p.Some? && (i == 0 || parseFloat(records[i - 1][4]).None?) ==>
      p.value.Change == 0.0 && p.value.ChangePercent == Finite(0.0) && !p.value.IsIncrease
  {
    match parseFloat(records[i][4])
    case None => None
    case Some(price) =>
      var volume := parseFloat(records[i][5]).GetOr(0.0);
      var plain := StockData(records[i][0], round(price), Truncate(volume), 0.0, Finite(0.0), false);
      if i == 0 then Some(plain)
      else match parseFloat(records[i - 1][4])
        case None => Some(plain)
        case Some(previous) =>
          var change := price - previous;
          var percent := match Divide(change, previous)
            case Finite(q) => Finite(round(q * 100.0))
            case NonFinite => NonFinite;
          Some(plain.(Change := round(change), ChangePercent := percent, IsIncrease := change > 0.0))
  }

  function PointList(parseFloat: string -> Option<real>, round: real -> real, records: seq<seq<string>>, i: nat)
    : seq<StockData>
    requires i < |records| && AllReadable(parseFloat, records)
  {
    match Point(parseFloat, round, records, i) case Some(p) => [p] case None => []
  }

  /** The points of records `|records| - 1` down to `lo`, newest first. */
  function Descending(parseFloat: string -> Option<real>, round: real -> real, records: seq<seq<string>>, lo: nat)
    : (data: seq<StockData>)
    requires lo <= |records| && AllReadable(parseFloat, records)
    ensures |data| <= |records| - lo
    decreases |records| - lo
  {
    if lo == |records| then []
    else Descending(parseFloat, round, records, lo + 1) + PointList(parseFloat, round, records, lo)
  }

  /** The reverse index loop: from the newest record to the oldest, each
      record whose price parses is appended. */
  method Transform(parseFloat: string -> Option<real>, round: real -> real, records: seq<seq<string>>)
    returns (data: seq<StockData>)
    requires AllReadable(parseFloat, records)
    ensures data == Descending(parseFloat, round, records, 0)
  {
    data := [];
    var i := |records|;
    while i > 0
      invariant 0 <= i <= |records|
      invariant data == Descending(parseFloat, round, records, i)
    {
      i := i - 1;
      var p := Point(parseFloat, round, records, i);
      if p.None? {
        continue;
      }
      data := data + [p.value];
    }
  }

  /** The positions of the records that yield a point, newest first. */
  ghost function PointsAt(parseFloat: string -> Option<real>, records: seq<seq<string>>, lo: nat): seq<nat>
    requires lo <= |records| && AllReadable(parseFloat, records)
    decreases |records| - lo
  {
    if lo == |records| then []
    else PointsAt(parseFloat, records, lo + 1) + (if parseFloat(records[lo][4]).Some? then [lo] else [])
  }

  /** The positions listed are exactly those of the records whose price
      parses, from the newest to the oldest. */
  lemma {:induction false} PositionsDescend(parseFloat: string -> Option<real>, records: seq<seq<string>>, lo: nat)
    requires lo <= |records| && AllReadable(parseFloat, records)
    ensures var idx := PointsAt(parseFloat, records, lo);
      (forall k :: 0 <= k < |idx| ==> lo <= idx[k] < |records| && parseFloat(records[idx[k]][4]).Some?)
      && (forall k, l :: 0 <= k < l < |idx| ==> idx[k] > idx[l])
      && (forall i :: lo <= i < |records| && parseFloat(records[i][4]).Some? ==> i in idx)
    decreases |records| - lo
  {
    if lo < |records| {
      PositionsDescend(parseFloat, records, lo + 1);
      var rest := PointsAt(parseFloat, records, lo + 1);
      if parseFloat(records[lo][4]).Some? {
        assert PointsAt(parseFloat, records, lo) == rest + [lo];
      }
    }
  }

  /** The `k`-th point of the series is the point of the `k`-th listed
      position. */
  lemma {:induction false} SeriesAtPositions(
      parseFloat: string -> Option<real>, round: real -> real, records: seq<seq<string>>, lo: nat)
    requires lo <= |records| && AllReadable(parseFloat, records)
    ensures var idx := PointsAt(parseFloat, records, lo);
      var data := Descending(parseFloat, round, records, lo);
      |idx| == |data|
      && forall k :: 0 <= k < |idx| ==> idx[k] < |records| && PointList(parseFloat, round, records, idx[k]) == [data[k]]
    decreases |records| - lo
  {
    if lo < |records| {
      SeriesAtPositions(parseFloat, round, records, lo + 1);
      PositionsDescend(parseFloat, records, lo + 1);
      var rest := PointsAt(parseFloat, records, lo + 1);
      if parseFloat(records[lo][4]).Some? {
        assert PointsAt(parseFloat, records, lo) == rest + [lo];
        assert |PointList(parseFloat, round, records, lo)| == 1;
      }
    }
  }

  /** The series lists one point for every record whose price parses and for
      no other, from the newest record to the oldest. */
  lemma NewestFirst(parseFloat: string -> Option<real>, round: real -> real, records: seq<seq<string>>)
    requires AllReadable(parseFloat, records)
    ensures var idx := PointsAt(parseFloat, records, 0);
      var data := Descending(parseFloat, round, records, 0);
      |idx| == |data|
      && (forall k :: 0 <= k < |idx| ==> idx[k] < |records| && Point(parseFloat, round, records, idx[k]) == Some(data[k]))
      && (forall k, l :: 0 <= k < l < |idx| ==> idx[k] > idx[l])
      && (forall i :: 0 <= i < |records| && parseFloat(records[i][4]).Some? ==> i in idx)
  {
    PositionsDescend(parseFloat, records, 0);
    SeriesAtPositions(parseFloat, round, records, 0);
    var idx := PointsAt(parseFloat, records, 0);
    var data := Descending(parseFloat, round, records, 0);
    forall k | 0 <= k < |idx|
      ensures Point(parseFloat, round, records, idx[k]) == Some(data[k])
    {
      assert PointList(parseFloat, round, records, idx[k]) == [data[k]];
    }
  }

  /** The series has no non-finite number, so that JSON can encode it. */
  predicate Encodable(data: seq<StockData>) {
    forall k :: 0 <= k < |data| ==> data[k].ChangePercent.Finite?
  }

  /** `HandleStockPrice`: the checks in order, then the read loop, the
      window and the reverse loop. The records kept must have the cells the
      loop reads; on any other Go's indexing panics, which is excluded. An
      empty symbol is refused before anything is fetched, so it needs nothing. With a
      five-field header that means no kept price may parse, and the series is
      then empty. */
  method HandleStockPrice(
      symbol: string, download: string -> Download,
      parseFloat: string -> Option<real>, round: real -> real)
    returns (resp: Response)
    requires symbol != "" && download(QuoteUrl(symbol)).Csv? ==>
      var d := download(QuoteUrl(symbol));
      AllReadable(parseFloat, Recent(Records(d.header, d.items)))
    ensures symbol == "" ==> resp == HttpError(400, SymbolRequired)
    ensures symbol != "" && download(QuoteUrl(symbol)).FetchFailed? ==> resp == HttpError(500, FetchError)
    ensures symbol != "" && download(QuoteUrl(symbol)).NoHeader? ==> resp == HttpError(500, CsvError)
    ensures symbol != "" && download(QuoteUrl(symbol)).Csv? ==>
      var d := download(QuoteUrl(symbol));
      var records := Recent(Records(d.header, d.items));
      var data := Descending(parseFloat, round, records, 0);
      if data == [] then resp == NullBody
      else if Encodable(data) then resp == Series(data) else resp == EmptyBody
    ensures resp.Series? ==> 0 < |resp.data| <= Window
  {
    if symbol == "" {
      return HttpError(400, SymbolRequired);
    }
    var d := download(QuoteUrl(symbol));
    match d {
      case FetchFailed =>
        return HttpError(500, FetchError);
      case NoHeader =>
        return HttpError(500, CsvError);
      case Csv(header, items) =>
        resp := Respond(header, items, parseFloat, round);
    }
  }

  /** The part of the handler after the header: the read loop, the window,
      the reverse loop and the encoding. */
  method Respond(header: seq<string>, items: seq<ReadItem>, parseFloat: string -> Option<real>, round: real -> real)
    returns (resp: Response)
    requires AllReadable(parseFloat, Recent(Records(header, items)))
    ensures var data := Descending(parseFloat, round, Recent(Records(header, items)), 0);
      if data == [] then resp == NullBody
      else if Encodable(data) then resp == Series(data) else resp == EmptyBody
    ensures resp.Series? ==> 0 < |resp.data| <= Window
  {
    var records := ReadRecords(header, items);
    if |records| > Window {
      records := records[|records| - Window..];
    }
    assert records == Recent(Records(header, items));
    var data := Transform(parseFloat, round, records);
    if data == [] {
      return NullBody;
    }
    if Encodable(data) {
      return Series(data);
    }
    return EmptyBody;
  }

  /** The oldest record kept has no change, even when older records were
      cut off by the window and its previous day was among them. */
  lemma OldestKeptHasNoChange(
      parseFloat: string -> Option<real>, round: real -> real, records: seq<seq<string>>)
    requires |records| > 0 && AllReadable(parseFloat, records)
    requires parseFloat(Recent(records)[0][4]).Some?
    ensures var p := Point(parseFloat, round, Recent(records), 0);
      p.Some? && p.value.Change == 0.0 && !p.value.IsIncrease
  {
  }

  /** A point is marked as an increase only when its price is strictly above
      the previous day's; an unchanged price is not an increase. */
  lemma IncreaseMeansHigher(
      parseFloat: string -> Option<real>, round: real -> real, records: seq<seq<string>>, i: nat)
    requires i < |records| && AllReadable(parseFloat, records)
    requires Point(parseFloat, round, records, i).Some?
    ensures Point(parseFloat, round, records, i).value.IsIncrease <==>
      i > 0 && parseFloat(records[i - 1][4]).Some?
      && parseFloat(records[i][4]).value > parseFloat(records[i - 1][4]).value
  {
  }

  /** Records without a volume cell are read only when their price does not
      parse, so they add no point: a five-field download is served as an
      empty series. */
  lemma {:induction false} ShortRecordsGiveNoPoints(
      parseFloat: string -> Option<real>, round: real -> real, records: seq<seq<string>>, lo: nat)
    requires lo <= |records| && AllReadable(parseFloat, records)
    requires forall i :: 0 <= i < |records| ==> |records[i]| < 6
    ensures Descending(parseFloat, round, records, lo) == []
    decreases |records| - lo
  {
    if lo < |records| {
      ShortRecordsGiveNoPoints(parseFloat, round, records, lo + 1);
      assert Point(parseFloat, round, records, lo).None?;
    }
  }
}
