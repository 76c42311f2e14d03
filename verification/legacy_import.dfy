/**
 * The stand-alone server of `server/main.go`: `parseXLSX` lists the trades on
 * the fourth sheet of a workbook verbatim, as text, and `getStocks` serves
 * them after dropping the first five. The workbook reader is a parameter: it
 * either fails or yields the sheet's rows.
 */
module LegacyImport {
  import opened Wrappers

  /** The `Stock` of `server/main.go`: three text cells copied from a row. */
  datatype Stock = Stock(symbol: string, time: string, price: string)

  /** What the workbook reader gives for the file and its sheet at index 3. */
  datatype Workbook =
    | OpenError(message: string)     // `excelize.OpenFile` failed
    | NoSheet                        // `GetSheetName(3)` is empty
    | ReadError(message: string)     // `GetRows` failed
    | SheetRows(rows: seq<seq<string>>)

  /** The fewest rows a sheet may have before it is scanned. */
  const MinRows: nat := 6

  /** The errors `parseXLSX` reports, and the prefix `getStocks` puts before
      any of them. */
  const NoSheetFound: string := "no sheet found at index 3"
  const ReadFailed: string := "failed to read rows: "
  const NoDataRows: string := "file contains no data rows"
  const NoValidData: string := "no valid stock data found in file"
  const ParseFailed: string := "Failed to parse XLSX file: "

  /** The entry a row yields: columns 5, 3 and 4 as symbol, time and price,
      when the row has six cells and none of the three is empty. */
  function Entry(row: seq<string>): (r: Option<Stock>)
    ensures r.Some? <==> |row| >= 6 && row[5] != "" && row[3] != "" && row[4] != ""
    ensures r.Some? ==> r.value == Stock(row[5], row[3], row[4])
  {
    if |row| < 6 then None
    else if row[5] == "" || row[3] == "" || row[4] == "" then None
    else Some(Stock(row[5], row[3], row[4]))
  }

  /** The entries of the accepted rows, in row order. */
  function Entries(rows: seq<seq<string>>): (es: seq<Stock>)
    ensures |es| <= |rows|
  {
    if |rows| == 0 then []
    else
      var last := rows[|rows| - 1];
      Entries(rows[..|rows| - 1]) + (if Entry(last).Some? then [Entry(last).value] else [])
  }

  /** The error `parseXLSX` reports for a workbook it lists nothing from:
      each failure of the reader, a sheet too short to hold data, or a sheet
      without a complete row. */
  function ParseError(path: string, book: Workbook): string {
    match book
    case OpenError(message) => "failed to open file " + path + ": " + message
    case NoSheet => NoSheetFound
    case ReadError(message) => ReadFailed + message
    case SheetRows(rows) => if |rows| < MinRows then NoDataRows else NoValidData
  }

  /** `parseXLSX`: the error cases in the order the reader reaches them, then
      the scan of every row after the first. */
  method ParseXLSX(path: string, book: Workbook) returns (r: Result<seq<Stock>, string>)
    ensures book.OpenError? ==> r == Failure("failed to open file " + path + ": " + book.message)
    ensures book.NoSheet? ==> r == Failure(NoSheetFound)
    ensures book.ReadError? ==> r == Failure(ReadFailed + book.message)
    ensures book.SheetRows? && |book.rows| < MinRows ==> r == Failure(NoDataRows)
    ensures book.SheetRows? && |book.rows| >= MinRows ==>
      if Entries(book.rows[1..]) == [] then r == Failure(NoValidData)
      else r == Success(Entries(book.rows[1..]))
    ensures !Listed(book) ==> r == Failure(ParseError(path, book))
  {
    match book {
      case OpenError(message) =>
        return Failure("failed to open file " + path + ": " + message);
      case NoSheet =>
        return Failure(NoSheetFound);
      case ReadError(message) =>
        return Failure(ReadFailed + message);
      case SheetRows(rows) =>
        if |rows| < MinRows {
          return Failure(NoDataRows);
        }
        var data := rows[1..];
        var stocks: seq<Stock> := [];
        var i := 0;
        while i < |data|
          invariant 0 <= i <= |data|
          invariant stocks == Entries(data[..i])
        {
          assert data[..i + 1][..i] == data[..i];
          var row := data[i];
          i := i + 1;
          if |row| < 6 {
            continue;
          }
          var symbol, time, price := row[5], row[3], row[4];
          if symbol == "" || time == "" || price == "" {
            continue;
          }
          stocks := stocks + [Stock(symbol, time, price)];
        }
        assert data[..i] == data;
        if |stocks| == 0 {
          return Failure(NoValidData);
        }
        return Success(stocks);
    }
  }

  /** Scanning two blocks of rows lists the first block's entries, then the
      second's. */
  lemma {:induction false} EntriesAppend(a: seq<seq<string>>, b: seq<seq<string>>)
    ensures Entries(a + b) == Entries(a) + Entries(b)
    decreases |b|
  {
    if |b| == 0 {
      assert a + b == a;
    } else {
      var b' := b[..|b| - 1];
      assert (a + b)[..|a + b| - 1] == a + b';
      assert (a + b)[|a + b| - 1] == b[|b| - 1];
      EntriesAppend(a, b');
    }
  }

  /** The positions of the accepted rows, in increasing order. */
  ghost function AcceptedAt(rows: seq<seq<string>>): seq<nat> {
    if |rows| == 0 then []
    else
      AcceptedAt(rows[..|rows| - 1]) + (if Entry(rows[|rows| - 1]).Some? then [|rows| - 1] else [])
  }

  /** The positions listed are exactly those of the accepted rows, in
      increasing order. */
  lemma {:induction false} AcceptedPositions(rows: seq<seq<string>>)
    ensures var idx := AcceptedAt(rows);
      (forall k :: 0 <= k < |idx| ==> idx[k] < |rows| && Entry(rows[idx[k]]).Some?)
      && (forall k, l :: 0 <= k < l < |idx| ==> idx[k] < idx[l])
      && (forall i :: 0 <= i < |rows| && Entry(rows[i]).Some? ==> i in idx)
  {
    if |rows| > 0 {
      var init := rows[..|rows| - 1];
      AcceptedPositions(init);
      assert forall i :: 0 <= i < |init| ==> rows[i] == init[i];
    }
  }

  /** The `k`-th entry is copied from the `k`-th accepted row. */
  lemma {:induction false} EntriesAtPositions(rows: seq<seq<string>>)
    ensures var idx := AcceptedAt(rows);
      |idx| == |Entries(rows)|
      && forall k :: 0 <= k < |idx| ==> idx[k] < |rows| && Entry(rows[idx[k]]) == Some(Entries(rows)[k])
  {
    if |rows| > 0 {
      var init := rows[..|rows| - 1];
      var last := rows[|rows| - 1];
      EntriesAtPositions(init);
      AcceptedPositions(init);
      var idx0, es0 := AcceptedAt(init), Entries(init);
      var idx, es := AcceptedAt(rows), Entries(rows);
      if Entry(last).Some? {
        assert idx == idx0 + [|rows| - 1] && es == es0 + [Entry(last).value];
      } else {
        assert idx == idx0 && es == es0;
      }
      forall k | 0 <= k < |idx|
        ensures idx[k] < |rows| && Entry(rows[idx[k]]) == Some(es[k])
      {
        if k < |idx0| {
          assert idx[k] == idx0[k] && es[k] == es0[k] && rows[idx0[k]] == init[idx0[k]];
        }
      }
    }
  }

  /** Every accepted row, and only those, yields one entry, copied verbatim
      and in the order of the rows. */
  lemma EntriesInOrder(rows: seq<seq<string>>)
    ensures var idx := AcceptedAt(rows);
      |idx| == |Entries(rows)|
      && (forall k :: 0 <= k < |idx| ==> idx[k] < |rows| && Entry(rows[idx[k]]) == Some(Entries(rows)[k]))
      && (forall k, l :: 0 <= k < l < |idx| ==> idx[k] < idx[l])
      && (forall i :: 0 <= i < |rows| && Entry(rows[i]).Some? ==> i in idx)
  {
    AcceptedPositions(rows);
    EntriesAtPositions(rows);
  }

  /** Only the heading row is skipped: the second row of the sheet, when it
      is complete, is the first entry listed. */
  lemma SecondRowListed(rows: seq<seq<string>>)
    requires |rows| >= 2 && Entry(rows[1]).Some?
    ensures |Entries(rows[1..])| > 0 && Entries(rows[1..])[0] == Entry(rows[1]).value
  {
    assert rows[1..] == [rows[1]] + rows[2..];
    EntriesAppend([rows[1]], rows[2..]);
    assert [rows[1]][..0] == [];
  }

  /** The first row never reaches the result, whatever it holds. */
  lemma FirstRowIgnored(rows: seq<seq<string>>, heading: seq<string>)
    requires |rows| >= 1
    ensures Entries((rows[0 := heading])[1..]) == Entries(rows[1..])
  {
    assert (rows[0 := heading])[1..] == rows[1..];
  }

  /** The answer of `getStocks`: the listed entries, or status 500 with the
      parse error. */
  datatype Reply = Served(stocks: seq<Stock>) | ServerError(status: int, message: string)

  /** The workbook `getStocks` reads. */
  const DataFile: string := "./eu.xlsx"

  /** The workbook holds a sheet that `parseXLSX` lists entries from. */
  predicate Listed(book: Workbook) {
    book.SheetRows? && |book.rows| >= MinRows && Entries(book.rows[1..]) != []
  }

  /** `getStocks` on `./eu.xlsx`: the first five entries are dropped. Go's
      slice `stocks[5:]` panics when one to four entries were parsed, so
      that case is excluded. */
  method GetStocks(book: Workbook) returns (reply: Reply)
    requires Listed(book) ==> |Entries(book.rows[1..])| >= 5
    ensures Listed(book) ==> reply == Served(Entries(book.rows[1..])[5..])
    ensures !Listed(book) ==> reply == ServerError(500, ParseFailed + ParseError(DataFile, book))
  {
    var parsed := ParseXLSX(DataFile, book);
    if parsed.Failure? {
      return ServerError(500, ParseFailed + parsed.error);
    }
    assert Listed(book) && parsed.value == Entries(book.rows[1..]);
    var stocks := parsed.value;
    if |stocks| > 0 {
      stocks := stocks[5..];
    }
    return Served(stocks);
  }

  /** A complete row below the heading is listed right after the entries of
      the complete rows between the heading and it; so `getStocks` serves it
      exactly when at least five of those precede it. */
  lemma EntryPosition(rows: seq<seq<string>>, i: nat)
    requires 1 <= i < |rows| && Entry(rows[i]).Some?
    ensures var k := |Entries(rows[1..i])|;
      k < |Entries(rows[1..])| && Entries(rows[1..])[k] == Entry(rows[i]).value
  {
    assert rows[1..] == rows[1..i] + [rows[i]] + rows[i + 1..];
    EntriesAppend(rows[1..i] + [rows[i]], rows[i + 1..]);
    EntriesAppend(rows[1..i], [rows[i]]);
    assert [rows[i]][..0] == [];
  }
}
