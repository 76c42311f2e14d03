/**
 * The colouring of the daily-quote table on the search page
 * (`client/src/app/search/page.tsx`): each price is shown as its whole part
 * and its two decimals, coloured green or red against the row below it, which
 * is the previous trading day because the series arrives newest first; the
 * change cell is coloured by the server's increase flag.
 */
module PriceDiff {
  import opened Wrappers
  import opened Text

  datatype Colour = Plain | Green | Red

  /** A JavaScript number as a condition: `null` and zero are false. */
  predicate Truthy(x: Option<real>) {
    x.Some? && x.value != 0.0
  }

  /** The nearest whole number of cents to a non-negative amount, the larger
      one when two are equally near. */
  function Cents(x: real): (n: nat)
    requires x >= 0.0
    ensures n as real - 0.5 <= x * 100.0 < n as real + 0.5
  {
    (x * 100.0 + 0.5).Floor
  }

  function Magnitude(x: real): real {
    if x < 0.0 then -x else x
  }

  /** `Number.prototype.toFixed(2)` of a number below 10^21 in magnitude: a
      minus sign for a negative number, the whole part of the rounded amount,
      a point and exactly two decimals. */
  function ToFixed2(x: real): string {
    var n := Cents(Magnitude(x));
    (if x < 0.0 then "-" else "") + NatToDecimal(n / 100) + "."
      + [DigitChar(n % 100 / 10), DigitChar(n % 10)]
  }

  /** The whole part and the two decimals that `toFixed(2).split(".")` yields. */
  lemma FixedParts(x: real)
    ensures var n := Cents(Magnitude(x));
      Split(ToFixed2(x), ".") ==
        [(if x < 0.0 then "-" else "") + NatToDecimal(n / 100), [DigitChar(n % 100 / 10), DigitChar(n % 10)]]
  {
    var n := Cents(Magnitude(x));
    var whole := (if x < 0.0 then "-" else "") + NatToDecimal(n / 100);
    var decimals := [DigitChar(n % 100 / 10), DigitChar(n % 10)];
    assert '.' !in whole by {
      var ds := NatToDecimal(n / 100);
      assert forall k :: 0 <= k < |ds| ==> IsDigit(ds[k]);
    }
    JoinCons(whole, [decimals], ".");
    SplitJoin([whole, decimals], '.');
    assert [whole] + [decimals] == [whole, decimals];
  }

  /** The text before the point of `toFixed(2)`. */
  function WholeText(x: real): string {
    Split(ToFixed2(x), ".")[0]
  }

  /** Two prices show the same whole part exactly when they have the same sign
      and the same whole number of units once rounded to cents. */
  lemma WholeTextEqual(x: real, y: real)
    ensures WholeText(x) == WholeText(y) <==>
      (x < 0.0 <==> y < 0.0) && Cents(Magnitude(x)) / 100 == Cents(Magnitude(y)) / 100
  {
    FixedParts(x);
    FixedParts(y);
    var dx := NatToDecimal(Cents(Magnitude(x)) / 100);
    var dy := NatToDecimal(Cents(Magnitude(y)) / 100);
    DecimalInjective(Cents(Magnitude(x)) / 100, Cents(Magnitude(y)) / 100);
    if x < 0.0 && y >= 0.0 {
      assert WholeText(x)[0] == '-' && WholeText(y)[0] == dy[0];
    } else if x >= 0.0 && y < 0.0 {
      assert WholeText(y)[0] == '-' && WholeText(x)[0] == dx[0];
    } else if x < 0.0 && y < 0.0 {
      assert WholeText(x) == "-" + dx && WholeText(y) == "-" + dy;
      assert ("-" + dx)[1..] == dx && ("-" + dy)[1..] == dy;
      assert WholeText(x) == WholeText(y) <==> dx == dy;
      assert dx == dy <==> Cents(Magnitude(x)) / 100 == Cents(Magnitude(y)) / 100;
    } else {
      assert WholeText(x) == dx && WholeText(y) == dy;
    }
  }

  /** A rendered price: the whole part and the decimals, each with its colour. */
  datatype PriceCell = PriceCell(whole: string, wholeColour: Colour, decimals: string, decimalsColour: Colour)

  /** `formatPriceWithColoredDiff`: the decimals are coloured whenever the
      price differs from a truthy previous price, green when it rose; the
      whole part takes the same colour only when its text changed too. */
  function FormatPrice(current: real, previous: Option<real>): (cell: PriceCell)
    ensures cell.whole + "." + cell.decimals == ToFixed2(current)
    ensures !Truthy(previous) ==> cell.wholeColour == Plain && cell.decimalsColour == Plain
    ensures cell.decimalsColour == Green <==> Truthy(previous) && current > previous.value
    ensures cell.decimalsColour == Red <==> Truthy(previous) && current < previous.value
    ensures cell.wholeColour != Plain <==>
      Truthy(previous) && current != previous.value && WholeText(previous.value) != WholeText(current)
    ensures cell.wholeColour != Plain ==> cell.wholeColour == cell.decimalsColour
  {
    FixedParts(current);
    var parts := Split(ToFixed2(current), ".");
    var currentWhole := parts[0];
    var currentDecimal := parts[1];
    var prevWhole := if Truthy(previous) then WholeText(previous.value) else currentWhole;
    var isIncrease := if Truthy(previous) then current > previous.value else false;
    var hasChanged := if Truthy(previous) then current != previous.value else false;
    var wholeChanged := prevWhole != currentWhole;
    var colour := if isIncrease then Green else Red;
    PriceCell(
      currentWhole, if wholeChanged && hasChanged then colour else Plain,
      currentDecimal, if hasChanged then colour else Plain)
  }

  /** The whole part of a price never changes colour on its own: when the
      texts differ the prices differ, so a truthy previous price colours it
      exactly when the whole texts differ. */
  lemma WholeColourFromText(current: real, previous: real)
    requires previous != 0.0
    ensures FormatPrice(current, Some(previous)).wholeColour != Plain <==> WholeText(previous) != WholeText(current)
  {
  }

  /** A row of the daily table as the page receives it. */
  datatype Quote = Quote(date: string, price: real, change: string, changePercent: string, isIncrease: bool, volume: real)

  /** The price a row is compared with: the next row's, none for the last. */
  function PreviousPrice(data: seq<Quote>, index: nat): (p: Option<real>)
    requires index < |data|
    ensures p.Some? <==> index < |data| - 1
    ensures p.Some? ==> p.value == data[index + 1].price
  {
    if index < |data| - 1 then Some(data[index + 1].price) else None
  }

  /** The change cell: uncoloured when the change text reads as zero,
      otherwise green for an increase and red for anything else (a change that
      does not parse included). */
  function ChangeColour(parseFloat: string -> Option<real>, item: Quote): (c: Colour)
    ensures c == Plain <==> parseFloat(item.change) == Some(0.0)
    ensures c == Green <==> parseFloat(item.change) != Some(0.0) && item.isIncrease
  {
    if parseFloat(item.change) == Some(0.0) then Plain
    else if item.isIncrease then Green else Red
  }

  datatype RowView = RowView(date: string, price: PriceCell, changeColour: Colour)

  /** The rows of the table, in the order of the data. */
  function Rows(parseFloat: string -> Option<real>, data: seq<Quote>): (rows: seq<RowView>)
    ensures |rows| == |data|
    ensures forall i :: 0 <= i < |data| ==>
      rows[i] == RowView(data[i].date, FormatPrice(data[i].price, PreviousPrice(data, i)), ChangeColour(parseFloat, data[i]))
  {
    seq(|data|, i requires 0 <= i < |data| =>
      RowView(data[i].date, FormatPrice(data[i].price, PreviousPrice(data, i)), ChangeColour(parseFloat, data[i])))
  }

  /** The last row has nothing below it, so its price is never coloured. */
  lemma LastRowPlain(parseFloat: string -> Option<real>, data: seq<Quote>)
    requires |data| > 0
    ensures var last := Rows(parseFloat, data)[|data| - 1];
      last.price.wholeColour == Plain && last.price.decimalsColour == Plain
  {
  }

  /** A price is green exactly when it is above the price of the row below,
      and red exactly when it is below a non-zero one. */
  lemma RowPriceColour(parseFloat: string -> Option<real>, data: seq<Quote>, i: nat)
    requires i < |data|
    ensures var cell := Rows(parseFloat, data)[i].price;
      (cell.decimalsColour == Green <==> i < |data| - 1 && data[i + 1].price != 0.0 && data[i].price > data[i + 1].price)
      && (cell.decimalsColour == Red <==> i < |data| - 1 && data[i + 1].price != 0.0 && data[i].price < data[i + 1].price)
  {
  }
}
