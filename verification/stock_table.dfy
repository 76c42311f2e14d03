/**
 * The portfolio table of `client/src/components/StockTable.tsx`: the positions
 * are fetched, shown as loading, then valued one after another from a quote
 * service; each answer updates the rows with the same id. Euro positions are
 * converted to złoty at a fixed rate. The two services are parameters: the
 * list as one response, the quotes as a partial function of the formatted
 * symbol.
 */
module StockTable {
  import opened Wrappers
  import opened Text

  /** `EUR_TO_PLN`. */
  const EurToPln: real := 4.32

  /** A position as the server lists it. */
  datatype Stock = Stock(id: int, symbol: string, time: string, price: real, shares: real)

  /** `StockWithReturns`: a position with what the table has learnt about it.
      The optional fields are `undefined` until a quote arrives. */
  datatype Row = Row(
    stock: Stock,
    currentPrice: Option<real>,
    returnPercentage: Option<Float>,
    profit: Option<real>,
    isLoading: bool,
    error: Option<string>,
    isEuro: bool)

  // ---------------------------------------------------------------- symbols

  /** The symbol as the quote service expects it: lower case, without the
      `.pl` suffix of a Warsaw listing. */
  function FormatSymbol(symbol: string): (r: string)
    ensures HasSuffix(ToLower(symbol), ".pl") ==> ToLower(symbol) == r + ".pl"
    ensures !HasSuffix(ToLower(symbol), ".pl") ==> r == ToLower(symbol)
  {
    var lower := ToLower(symbol);
    if HasSuffix(lower, ".pl") then lower[..|lower| - 3] else lower
  }

  /** A position is in euro unless its symbol ends in `.pl`, in any case. */
  predicate IsEuro(symbol: string) {
    !HasSuffix(ToLower(symbol), ".pl")
  }

  /** The logo domains, keyed by upper-case symbol. */
  const CompanyDomains: map<string, string> := map[
    "NEU.PL" := "neuca.pl", "PKO.PL" := "pkobp.pl", "PKN.PL" := "orlen.pl",
    "KTY.PL" := "grupakety.com", "KRU.PL" := "kruk.eu", "GPW.PL" := "gpw.pl",
    "APR.PL" := "autopartner.com", "DCR.PL" := "decora.pl", "AMB.PL" := "ambra.com.pl",
    "PCR.PL" := "rokita.pl", "AMC.PL" := "amica.pl", "ABS.PL" := "assecobs.pl",
    "ATC.PL" := "arcticpaper.com", "KGH.PL" := "kghm.com", "SNT.PL" := "synektik.com.pl",
    "DNP.PL" := "grupadino.pl", "ACP.PL" := "asseco.com", "COG.PL" := "cognorholding.eu",
    "MBR.PL" := "mobruk.pl", "ASE.PL" := "see.asseco.com", "TXT.PL" := "text.pl",
    "DIG.PL" := "digitalnetwork.pl", "ELT.PL" := "elektrotim.pl", "PZU.PL" := "pzu.pl",
    "WTN.PL" := "wittchen.pl", "ASB.PL" := "asbis.pl", "XTB.PL" := "xtb.com",
    "PCO.PL" := "pepco.pl", "XDEQ.DE" := "dws.com", "SXRV.DE" := "ishares.com",
    "SXR8.DE" := "ishares.com", "DTLA.UK" := "blackrock.com", "XDWT.DE" := "dws.com",
    "IUSQ.DE" := "ishares.com", "VVSM.DE" := "vaneck.com"]

  /** Every domain listed is non-empty, so `|| ""` only applies to symbols
      that are not listed. */
  lemma DomainsNonEmpty()
    ensures forall k :: k in CompanyDomains ==> CompanyDomains[k] != ""
  {
  }

  /** `getCompanyDomain`: the domain for the upper-cased symbol, or empty
      exactly when that is not listed. */
  function GetCompanyDomain(symbol: string): (d: string)
    ensures d == "" <==> ToUpper(symbol) !in CompanyDomains
    ensures ToUpper(symbol) in CompanyDomains ==> d == CompanyDomains[ToUpper(symbol)]
  {
    DomainsNonEmpty();
    if ToUpper(symbol) in CompanyDomains then CompanyDomains[ToUpper(symbol)] else ""
  }

  // -------------------------------------------------------------- valuation

  /** What a position cost, in złoty. */
  function Investment(s: Stock, isEuro: bool): real {
    if isEuro then s.price * s.shares * EurToPln else s.price * s.shares
  }

  /** What a position is worth at `current`, in złoty. */
  function CurrentValue(s: Stock, isEuro: bool, current: real): real {
    if isEuro then current * s.shares * EurToPln else current * s.shares
  }

  /** `profit`: current value less investment. */
  function Profit(s: Stock, isEuro: bool, current: real): real {
    CurrentValue(s, isEuro, current) - Investment(s, isEuro)
  }

  /** `returnPercentage`: the profit as a percentage of the investment; the
      division is unguarded, so a zero investment gives a non-finite value. */
  function ReturnPercentage(s: Stock, isEuro: bool, current: real): (r: Float)
    ensures r.Finite? <==> Investment(s, isEuro) != 0.0
    ensures r.Finite? ==> r.value * Investment(s, isEuro) == Profit(s, isEuro, current) * 100.0
  {
    match Divide(Profit(s, isEuro, current), Investment(s, isEuro))
    case Finite(q) => Finite(q * 100.0)
    case NonFinite => NonFinite
  }

  /** The profit is the price movement times the shares, scaled by the rate
      for euro positions only; it is zero when the price has not moved. */
  lemma ProfitFormula(s: Stock, isEuro: bool, current: real)
    ensures Profit(s, isEuro, current)
         == (current - s.price) * s.shares * (if isEuro then EurToPln else 1.0)
    ensures current == s.price ==> Profit(s, isEuro, current) == 0.0
  {
  }

  /** The conversion rate cancels out of the return: a euro position has the
      return its euro prices give. */
  lemma ReturnIgnoresRate(s: Stock, current: real)
    ensures ReturnPercentage(s, true, current) == ReturnPercentage(s, false, current)
  {
    var inv := s.price * s.shares;
    var pr := (current - s.price) * s.shares;
    ProfitFormula(s, true, current);
    ProfitFormula(s, false, current);
    if inv != 0.0 {
      assert (pr * EurToPln) / (inv * EurToPln) == pr / inv;
    }
  }

  // ------------------------------------------------------------ row updates

  /** The first rendering: every listed position, in order, loading. */
  function InitialRows(data: seq<Stock>): (rows: seq<Row>)
    ensures |rows| == |data|
    ensures forall i :: 0 <= i < |data| ==>
      rows[i].stock == data[i] && rows[i].isLoading && rows[i].isEuro == IsEuro(data[i].symbol)
      && rows[i].profit.None? && rows[i].currentPrice.None? && rows[i].error.None?
  {
    seq(|data|, i requires 0 <= i < |data| => Row(data[i], None, None, None, true, None, IsEuro(data[i].symbol)))
  }

  /** What `fetchCurrentPrice` produced for one position. */
  datatype Outcome = Quoted(price: real) | FetchFailed

  /** The quote request is made with the formatted symbol. */
  function OutcomeOf(quote: string -> Option<real>, r: Row): Outcome {
    match quote(FormatSymbol(r.stock.symbol))
    case Some(p) => Quoted(p)
    case None => FetchFailed
  }

  /** The new value of a row `s` whose id matches the processed position
      `processed`: the figures come from the processed position, every other
      field from `s`. */
  function Updated(s: Row, processed: Row, o: Outcome): (r: Row)
    ensures r.stock == s.stock && r.isEuro == s.isEuro && !r.isLoading
    ensures o.Quoted? ==>
      r.currentPrice == Some(o.price) && r.error == s.error
      && r.profit == Some(Profit(processed.stock, processed.isEuro, o.price))
      && r.returnPercentage == Some(ReturnPercentage(processed.stock, processed.isEuro, o.price))
    ensures o.FetchFailed? ==>
      r.error == Some("Failed to fetch") && r.profit == s.profit
      && r.currentPrice == s.currentPrice && r.returnPercentage == s.returnPercentage
  {
    match o
    case Quoted(p) =>
      s.(currentPrice := Some(p),
         returnPercentage := Some(ReturnPercentage(processed.stock, processed.isEuro, p)),
         profit := Some(Profit(processed.stock, processed.isEuro, p)),
         isLoading := false)
    case FetchFailed =>
      s.(error := Some("Failed to fetch"), isLoading := false)
  }

  /** One `setStocks(prev => prev.map(...))`: only rows with the processed id
      change. */
  function ApplyOutcome(rows: seq<Row>, processed: Row, o: Outcome): (r: seq<Row>)
    ensures |r| == |rows|
    ensures forall i :: 0 <= i < |rows| && rows[i].stock.id != processed.stock.id ==> r[i] == rows[i]
    ensures forall i :: 0 <= i < |rows| && rows[i].stock.id == processed.stock.id ==>
      r[i] == Updated(rows[i], processed, o)
  {
    seq(|rows|, i requires 0 <= i < |rows| =>
      if rows[i].stock.id == processed.stock.id then Updated(rows[i], processed, o) else rows[i])
  }

  /** The rows after the first `k` positions of `snapshot` have been valued. */
  function Settle(snapshot: seq<Row>, quote: string -> Option<real>, k: nat): (rows: seq<Row>)
    requires k <= |snapshot|
    ensures |rows| == |snapshot|
    ensures forall i :: 0 <= i < |rows| ==> rows[i].stock == snapshot[i].stock && rows[i].isEuro == snapshot[i].isEuro
  {
    if k == 0 then snapshot
    else ApplyOutcome(Settle(snapshot, quote, k - 1), snapshot[k - 1], OutcomeOf(quote, snapshot[k - 1]))
  }

  /** `stock.profit || 0` summed from the left: rows without a profit add
      nothing, so the total is not negative when no row made a loss. */
  function TotalProfit(rows: seq<Row>): (t: real)
    ensures (forall i :: 0 <= i < |rows| ==> rows[i].profit.GetOr(0.0) >= 0.0) ==> t >= 0.0
  {
    if |rows| == 0 then 0.0 else TotalProfit(rows[..|rows| - 1]) + rows[|rows| - 1].profit.GetOr(0.0)
  }

  // ------------------------------------------------------------- the widget

  /** The response of the list request. */
  datatype Listing =
    | RequestFailed(message: string)   // a rejected fetch or unreadable body: `err.message`
    | NotOk                            // a non-2xx status
    | Body(data: Option<seq<Stock>>)   // the parsed body, `null` as `None`

  /** The component's three pieces of state. */
  class StocksTable {
    var stocks: Option<seq<Row>>
    var loading: bool
    var error: Option<string>

    constructor ()
      ensures stocks == None && loading && error == None
    {
      stocks := None;
      loading := true;
      error := None;
    }

    /** The effect that loads the table, with the session token (falsy when
      absent or empty), the list response and the quote service. */
    method Load(token: Option<string>, listing: Listing, quote: string -> Option<real>)
      modifies this
      ensures token.None? || token == Some("") ==>
        stocks == old(stocks) && loading == old(loading) && error == old(error)
      ensures token.Some? && token != Some("") ==> !loading
      ensures token.Some? && token != Some("") ==>
        match listing
        case RequestFailed(m) => stocks == old(stocks) && error == Some(m)
        case NotOk => stocks == old(stocks) && error == Some("Failed to fetch stocks")
        case Body(None) => stocks == old(stocks) && error == Some("No stocks available.")
        case Body(Some(data)) =>
          error == old(error)
          && stocks == Some(Settle(InitialRows(data), quote, |data|))
    {
      if token.None? || token == Some("") {
        return;
      }
      match listing {
      case RequestFailed(m) =>
        error := Some(m);
      case NotOk =>
        error := Some("Failed to fetch stocks");
      case Body(None) =>
        error := Some("No stocks available.");
      case Body(Some(data)) =>
        var snapshot := InitialRows(data);
        stocks := Some(snapshot);
        var k := 0;
        while k < |snapshot|
          invariant 0 <= k <= |snapshot|
          invariant stocks == Some(Settle(snapshot, quote, k))
          invariant error == old(error)
        {
          var o := OutcomeOf(quote, snapshot[k]);
          stocks := Some(ApplyOutcome(stocks.value, snapshot[k], o));
          k := k + 1;
        }
      }
      loading := false;
    }
  }

  // ----------------------------------------------------------------- proofs

  predicate UniqueIds(rows: seq<Row>) {
    forall i, j :: 0 <= i < j < |rows| ==> rows[i].stock.id != rows[j].stock.id
  }

  /** A position once valued, on its own. */
  function Final(quote: string -> Option<real>, r: Row): Row {
    Updated(r, r, OutcomeOf(quote, r))
  }

  /** With distinct ids, after `k` steps exactly the first `k` rows have been
      valued, each from its own quote, and the others are as they were. */
  lemma {:induction false} SettlePointwise(snapshot: seq<Row>, quote: string -> Option<real>, k: nat)
    requires k <= |snapshot| && UniqueIds(snapshot)
    ensures forall i :: 0 <= i < |snapshot| ==>
      Settle(snapshot, quote, k)[i] == if i < k then Final(quote, snapshot[i]) else snapshot[i]
  {
    if k > 0 {
      SettlePointwise(snapshot, quote, k - 1);
      var prev := Settle(snapshot, quote, k - 1);
      var next := Settle(snapshot, quote, k);
      forall i | 0 <= i < |snapshot|
        ensures next[i] == if i < k then Final(quote, snapshot[i]) else snapshot[i]
      {
        if i != k - 1 {
          assert prev[i].stock.id == snapshot[i].stock.id != snapshot[k - 1].stock.id;
        }
      }
    }
  }

  /** Every row is settled once the loop is over: no row is still loading; a
      row has a profit exactly when its quote arrived, and carries the fetch
      error exactly when it did not. */
  lemma AllSettled(data: seq<Stock>, quote: string -> Option<real>)
    requires UniqueIds(InitialRows(data))
    ensures var rows := Settle(InitialRows(data), quote, |data|);
      forall i :: 0 <= i < |rows| ==>
        !rows[i].isLoading
        && (rows[i].profit.Some? <==> quote(FormatSymbol(data[i].symbol)).Some?)
        && (rows[i].error == Some("Failed to fetch") <==> quote(FormatSymbol(data[i].symbol)).None?)
  {
    SettlePointwise(InitialRows(data), quote, |data|);
  }

  /** The sum of the profits of the quoted positions of `rows`. */
  function QuotedProfit(quote: string -> Option<real>, rows: seq<Row>): real {
    if |rows| == 0 then 0.0
    else
      var r := rows[|rows| - 1];
      QuotedProfit(quote, rows[..|rows| - 1])
      + match quote(FormatSymbol(r.stock.symbol))
        case Some(p) => Profit(r.stock, r.isEuro, p)
        case None => 0.0
  }

  lemma {:induction false} TotalOfFinal(quote: string -> Option<real>, snapshot: seq<Row>, rows: seq<Row>)
    requires |rows| == |snapshot|
    requires forall i :: 0 <= i < |rows| ==> rows[i] == Final(quote, snapshot[i])
    requires forall i :: 0 <= i < |snapshot| ==> snapshot[i].profit.None?
    ensures TotalProfit(rows) == QuotedProfit(quote, snapshot)
    decreases |rows|
  {
    if |rows| > 0 {
      TotalOfFinal(quote, snapshot[..|snapshot| - 1], rows[..|rows| - 1]);
    }
  }

  /** The total shown under the table is the sum of the profits of the
      positions whose quote arrived: failed rows count as zero. */
  lemma TotalProfitOfLoadedTable(data: seq<Stock>, quote: string -> Option<real>)
    requires UniqueIds(InitialRows(data))
    ensures TotalProfit(Settle(InitialRows(data), quote, |data|)) == QuotedProfit(quote, InitialRows(data))
  {
    var snapshot := InitialRows(data);
    SettlePointwise(snapshot, quote, |data|);
    TotalOfFinal(quote, snapshot, Settle(snapshot, quote, |data|));
  }

  /** While every row is still loading the total is zero. */
  lemma {:induction false} TotalOfInitialRows(data: seq<Stock>)
    ensures TotalProfit(InitialRows(data)) == 0.0
    decreases |data|
  {
    if |data| > 0 {
      TotalOfInitialRows(data[..|data| - 1]);
      assert InitialRows(data)[..|data| - 1] == InitialRows(data[..|data| - 1]);
    }
  }

  /** The currency flag and the quote symbol agree: a złoty position is
      quoted without its suffix, a euro position under its full lower-case
      symbol. */
  lemma SymbolAndCurrency(symbol: string)
    ensures !IsEuro(symbol) <==> ToLower(symbol) == FormatSymbol(symbol) + ".pl"
    ensures IsEuro(symbol) <==> FormatSymbol(symbol) == ToLower(symbol)
  {
    var lower := ToLower(symbol);
    if IsEuro(symbol) {
      assert |FormatSymbol(symbol) + ".pl"| == |lower| + 3;
    } else {
      assert |FormatSymbol(symbol)| == |lower| - 3;
    }
  }

  lemma UpperOfLower(s: string)
    ensures ToUpper(ToLower(s)) == ToUpper(s)
  {
  }

  /** The logo lookup ignores case, and finds the Warsaw and Frankfurt
      listings it knows. */
  lemma DomainIgnoresCase(symbol: string)
    ensures GetCompanyDomain(ToLower(symbol)) == GetCompanyDomain(symbol)
  {
    UpperOfLower(symbol);
  }

  /** A Warsaw, Xetra or London symbol. */
  predicate ListedMarket(key: string) {
    var n := |key|;
    n >= 3 && key[n - 3] == '.'
    && ((key[n - 2] == 'P' && key[n - 1] == 'L') || (key[n - 2] == 'D' && key[n - 1] == 'E')
        || (key[n - 2] == 'U' && key[n - 1] == 'K'))
  }

  lemma MarketsOfKeys()
    ensures forall k :: k in CompanyDomains ==> ListedMarket(k)
  {
  }

  /** A logo is found, in any letter case, for exactly the listed symbols,
      and all of them carry a `.PL`, `.DE` or `.UK` market suffix: a symbol
      without one, such as a bare US ticker, never has a logo. */
  lemma KnownDomains(symbol: string)
    ensures forall k :: k in CompanyDomains && ToUpper(symbol) == k ==> GetCompanyDomain(symbol) == CompanyDomains[k]
    ensures GetCompanyDomain(symbol) != "" ==> ListedMarket(ToUpper(symbol))
  {
    MarketsOfKeys();
  }
}
