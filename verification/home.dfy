/**
 * The figures of the server-rendered home page, in its two versions
 * (`client/src/router/index.tsx` and `src/router/index.tsx`): the balance
 * shown in the navigation bar, taken from the last readable gross profit of
 * the Polish and the euro open-position sheets, and the open-position rows
 * passed to the tables.
 */
module Home {
  import opened Wrappers
  import PriceDiff

  /** A spreadsheet cell as the sheet reader hands it to JavaScript. */
  datatype Cell = Missing | Num(n: real) | Str(s: string)

  /** A row of the open-positions sheet; only the columns read are kept. */
  datatype Position = Position(name: Cell, openTime: Cell, volume: Cell, grossProfit: Cell)

  /** The euro profit is counted at this many zloty per euro. */
  const EurRate: real := 4.5

  /** A cell as a condition: missing, zero and the empty text are false. */
  predicate Truthy(c: Cell) {
    match c
    case Missing => false
    case Num(n) => n != 0.0
    case Str(s) => s != ""
  }

  /** `parseFloat` of a cell, `None` standing for NaN: a number reads back as
      itself, text goes through the parser, a missing cell is never a number. */
  function CellNumber(parseFloat: string -> Option<real>, c: Cell): Option<real> {
    match c
    case Missing => None
    case Num(n) => Some(n)
    case Str(s) => parseFloat(s)
  }

  /** The gross profits that read as numbers, in row order: the `map` and
      `filter` steps. */
  function Profits(parseFloat: string -> Option<real>, rows: seq<Position>): (ps: seq<real>)
    ensures |ps| <= |rows|
  {
    if |rows| == 0 then []
    else
      var last := CellNumber(parseFloat, rows[|rows| - 1].grossProfit);
      Profits(parseFloat, rows[..|rows| - 1]) + (if last.Some? then [last.value] else [])
  }

  /** Row `i` is the last row whose gross profit reads as a number. */
  predicate LastReadable(parseFloat: string -> Option<real>, rows: seq<Position>, i: int) {
    0 <= i < |rows| && CellNumber(parseFloat, rows[i].grossProfit).Some?
    && forall j :: i < j < |rows| ==> CellNumber(parseFloat, rows[j].grossProfit).None?
  }

  /** The readable profits are empty exactly when no row's profit reads as a
      number. */
  lemma {:induction false} ProfitsEmpty(parseFloat: string -> Option<real>, rows: seq<Position>)
    ensures Profits(parseFloat, rows) == [] <==>
      forall i :: 0 <= i < |rows| ==> CellNumber(parseFloat, rows[i].grossProfit).None?
  {
    if |rows| > 0 {
      var init := rows[..|rows| - 1];
      ProfitsEmpty(parseFloat, init);
      assert forall i :: 0 <= i < |init| ==> init[i] == rows[i];
    }
  }

  /** The readable profits end with the profit of the last row whose profit
      reads as a number. */
  lemma {:induction false} ProfitsLast(parseFloat: string -> Option<real>, rows: seq<Position>, i: int)
    requires LastReadable(parseFloat, rows, i)
    ensures var ps := Profits(parseFloat, rows);
      ps != [] && ps[|ps| - 1] == CellNumber(parseFloat, rows[i].grossProfit).value
  {
    var init := rows[..|rows| - 1];
    if i < |rows| - 1 {
      assert LastReadable(parseFloat, init, i);
      ProfitsLast(parseFloat, init, i);
    }
  }

  /** `lastZyskBrutto`: the last readable gross profit, `pop() || 0`. */
  function LastProfit(parseFloat: string -> Option<real>, rows: seq<Position>): (r: real)
    ensures (forall i :: 0 <= i < |rows| ==> CellNumber(parseFloat, rows[i].grossProfit).None?) ==> r == 0.0
    ensures forall i :: LastReadable(parseFloat, rows, i) ==>
              r == CellNumber(parseFloat, rows[i].grossProfit).value
  {
    ProfitsEmpty(parseFloat, rows);
    forall i | LastReadable(parseFloat, rows, i) ensures
      var ps := Profits(parseFloat, rows); ps != [] && ps[|ps| - 1] == CellNumber(parseFloat, rows[i].grossProfit).value
    {
      ProfitsLast(parseFloat, rows, i);
    }
    var ps := Profits(parseFloat, rows);
    if |ps| > 0 && ps[|ps| - 1] != 0.0 then ps[|ps| - 1] else 0.0
  }

  /** A whole number of cents. */
  predicate WholeCents(r: real) {
    (r * 100.0).Floor as real == r * 100.0
  }

  /** `r` is the nearest whole number of cents to `x`, a half cent going away
      from zero, as `toFixed` rounds. */
  predicate NearestCents(x: real, r: real) {
    WholeCents(r)
    && (x >= 0.0 ==> r * 100.0 - 0.5 <= x * 100.0 < r * 100.0 + 0.5)
    && (x < 0.0 ==> r * 100.0 - 0.5 < x * 100.0 <= r * 100.0 + 0.5)
  }

  /** `parseFloat(x.toFixed(2))`: the amount rounded to whole cents. */
  function RoundCents(x: real): (r: real)
    ensures NearestCents(x, r)
    ensures -0.005 <= r - x <= 0.005
  {
    var n := PriceDiff.Cents(PriceDiff.Magnitude(x));
    var k: int := if x < 0.0 then -(n as int) else n;
    CentsOfWhole(k);
    k as real / 100.0
  }

  lemma CentsOfWhole(k: int)
    ensures (k as real / 100.0) * 100.0 == k as real
    ensures WholeCents(k as real / 100.0)
  {
  }

  /** Only one amount is the nearest whole number of cents, so rounding is
      fully determined by `NearestCents`. */
  lemma NearestCentsUnique(x: real, r: real, r': real)
    requires NearestCents(x, r) && NearestCents(x, r')
    ensures r == r'
  {
    var c, c' := (r * 100.0).Floor, (r' * 100.0).Floor;
    assert c as real == r * 100.0 && c' as real == r' * 100.0;
    assert c as real < c' as real + 1.0 && c' as real < c as real + 1.0;
    assert c == c';
  }

  /** An amount already in whole cents is left as it is, so rounding twice
      is rounding once. */
  lemma RoundCentsIdempotent(x: real)
    ensures RoundCents(RoundCents(x)) == RoundCents(x)
  {
    var r := RoundCents(x);
    assert NearestCents(r, r);
    NearestCentsUnique(r, r, RoundCents(r));
  }

  /** `sum`: the Polish profit plus the euro profit at the fixed rate,
      rounded to the nearest cent. */
  function Balance(parseFloat: string -> Option<real>, pl: seq<Position>, eu: seq<Position>): (b: real)
    ensures NearestCents(LastProfit(parseFloat, pl) + LastProfit(parseFloat, eu) * EurRate, b)
  {
    RoundCents(LastProfit(parseFloat, pl) + LastProfit(parseFloat, eu) * EurRate)
  }

  /** A row worth listing: name, opening time and volume all truthy. */
  predicate Listed(p: Position) {
    Truthy(p.name) && Truthy(p.openTime) && Truthy(p.volume)
  }

  /** `filterOpenPositions`: the listed rows, in order, each as it was. */
  function FilterOpenPositions(rows: seq<Position>): (kept: seq<Position>)
    ensures |kept| <= |rows|
    ensures forall i :: 0 <= i < |kept| ==> Listed(kept[i])
  {
    if |rows| == 0 then []
    else
      var last := rows[|rows| - 1];
      FilterOpenPositions(rows[..|rows| - 1]) + (if Listed(last) then [last] else [])
  }

  /** Each listed row is kept as often as it occurs, and no other row is. */
  lemma {:induction false} FilterContents(rows: seq<Position>)
    ensures forall p :: multiset(FilterOpenPositions(rows))[p] == if Listed(p) then multiset(rows)[p] else 0
  {
    if |rows| > 0 {
      var init := rows[..|rows| - 1];
      var last := rows[|rows| - 1];
      assert rows == init + [last];
      FilterContents(init);
    }
  }

  /** Filtering two blocks of rows keeps the order of the blocks. */
  lemma {:induction false} FilterAppend(a: seq<Position>, b: seq<Position>)
    ensures FilterOpenPositions(a + b) == FilterOpenPositions(a) + FilterOpenPositions(b)
    decreases |b|
  {
    if |b| == 0 {
      assert a + b == a;
    } else {
      var b' := b[..|b| - 1];
      assert (a + b)[..|a + b| - 1] == a + b';
      assert (a + b)[|a + b| - 1] == b[|b| - 1];
      FilterAppend(a, b');
    }
  }

  /** Rows that are all listed pass unchanged, and filtering twice is
      filtering once. */
  lemma {:induction false} FilterKeepsListed(rows: seq<Position>)
    requires forall i :: 0 <= i < |rows| ==> Listed(rows[i])
    ensures FilterOpenPositions(rows) == rows
  {
    if |rows| > 0 {
      FilterKeepsListed(rows[..|rows| - 1]);
      assert rows[..|rows| - 1] + [rows[|rows| - 1]] == rows;
    }
  }

  lemma FilterIdempotent(rows: seq<Position>)
    ensures FilterOpenPositions(FilterOpenPositions(rows)) == FilterOpenPositions(rows)
  {
    FilterKeepsListed(FilterOpenPositions(rows));
  }

  /** What the page renders from the sheets: the balance and the rows of
      each open-positions table. */
  datatype Page = Page(balance: real, tables: seq<seq<Position>>)

  /** The client version: one filtered table per sheet, so every row shown
      is listed. */
  function ClientHome(parseFloat: string -> Option<real>, pl: seq<Position>, eu: seq<Position>): (pg: Page)
    ensures NearestCents(LastProfit(parseFloat, pl) + LastProfit(parseFloat, eu) * EurRate, pg.balance)
    ensures |pg.tables| == 2
    ensures forall t, i :: 0 <= t < 2 && 0 <= i < |pg.tables[t]| ==> Listed(pg.tables[t][i])
    ensures |pg.tables[0]| <= |pl| && |pg.tables[1]| <= |eu|
    ensures pg.tables == [FilterOpenPositions(pl), FilterOpenPositions(eu)]
  {
    Page(Balance(parseFloat, pl, eu), [FilterOpenPositions(pl), FilterOpenPositions(eu)])
  }

  /** A row is shown in the client's Polish or euro table exactly when it is
      listed and belongs to that sheet, as often as it occurs there. */
  lemma ClientHomeShowsListed(parseFloat: string -> Option<real>, pl: seq<Position>, eu: seq<Position>, p: Position)
    ensures var pg := ClientHome(parseFloat, pl, eu);
      multiset(pg.tables[0])[p] == (if Listed(p) then multiset(pl)[p] else 0)
      && multiset(pg.tables[1])[p] == (if Listed(p) then multiset(eu)[p] else 0)
    ensures var pg := ClientHome(parseFloat, pl, eu);
      (p in pg.tables[0] <==> Listed(p) && p in pl) && (p in pg.tables[1] <==> Listed(p) && p in eu)
  {
    FilterContents(pl);
    FilterContents(eu);
  }

  /** The older version: the Polish rows unfiltered, the euro rows only in
      the balance. */
  function LegacyHome(parseFloat: string -> Option<real>, pl: seq<Position>, eu: seq<Position>): (pg: Page)
    ensures NearestCents(LastProfit(parseFloat, pl) + LastProfit(parseFloat, eu) * EurRate, pg.balance)
    ensures pg.tables == [pl]
  {
    Page(Balance(parseFloat, pl, eu), [pl])
  }

  /** Both versions show the same balance, and their Polish tables agree
      exactly when every Polish row is listed. */
  lemma VersionsAgree(parseFloat: string -> Option<real>, pl: seq<Position>, eu: seq<Position>)
    ensures ClientHome(parseFloat, pl, eu).balance == LegacyHome(parseFloat, pl, eu).balance
    ensures ClientHome(parseFloat, pl, eu).tables[0] == LegacyHome(parseFloat, pl, eu).tables[0] <==>
      forall i :: 0 <= i < |pl| ==> Listed(pl[i])
  {
    if forall i :: 0 <= i < |pl| ==> Listed(pl[i]) {
      FilterKeepsListed(pl);
    }
  }
}
