# Stock tracker: a verified model of its core logic

The stock tracker is a small portfolio application:

- a Go server that imports broker spreadsheets, relays daily quotes and guards its API with a session token;
- a React client that values the open positions;
- an older Deno/Preact server that renders the same figures on the server.

This project models the parts of that system that compute something. Each part is a Dafny module in its own file.

| file | module | what it models |
|---|---|---|
| `stock_table.dfy` | `StockTable` | The portfolio table of the React client. It covers the symbol normalisation, the euro flag, profit and return in złoty, and the effect that loads the list and values it one position at a time (a class whose state the loop replaces). It ends with the total-profit fold. |
| `xlsx_import.dfy` | `XlsxImport` | The broker-history import (`ParseXLSXFile`). It covers the row filter, the `OPEN BUY n @ p` parser, and the per-symbol merge into a map with a share-weighted average price. |
| `legacy_import.dfy` | `LegacyImport` | The stand-alone Go server: `parseXLSX` and the `getStocks` handler. |
| `daily_quotes.dfy` | `DailyQuotes` | The daily-quote handler. It keeps the last 180 CSV records, emits them newest first, and gives each point its change against the day before. |
| `jwt.dfy` | `Jwt` | The session token: the unsigned `uid:unix` text in padded URL-safe base 64 (section 5 of RFC 4648), and its expiry check. |
| `argon2.dfy` | `Argon2` | The password-hash string `$argon2id$v=…$m=…,t=…,p=…$salt$key` with unpadded standard base 64 (section 4 of RFC 4648), its decoder, and the password comparison. |
| `middleware.dfy` | `Middleware` | The `Authorization: Bearer` check in front of the API. |
| `parse_time.dfy` | `TimeLayouts` | The ordered fallback over three date layouts. |
| `price_diff.dfy` | `PriceDiff` | The colouring of prices and changes on the search page. |
| `home.dfy` | `Home` | The balance and the open-position rows of both server-rendered home pages. |
| `mime.dfy` | `Mime` | The content type of a static file from its extension. |
| `routes.dfy` | `Routes` | The request routers of both Deno servers, and the static-file response. |
| `base64.dfy`, `format.dfy`, `text.dfy`, `wrappers.dfy` | `Base64`, `Fmt`, `Text`, `Wrappers` | The library behaviour the core relies on. Base 64 encoding and decoding follow RFC 4648 with a proved round trip. `fmt.Sprintf`/`fmt.Sscanf` are modelled for `%d` verbs. `Text` holds string splitting, joining and trimming. `Wrappers` holds `Option`, `Result` and a finite/non-finite number. |

Conventions used throughout:

- Prices, shares and amounts are `real`.
- A division that JavaScript or Go would let produce NaN or an infinity returns `Wrappers.Float`, whose `NonFinite` case stands for those values.
- Number parsers (`parseFloat`, `strconv.ParseFloat`), `utils.RoundToTwo`, `time.Parse`, the Argon2 key derivation, the random source, the clock, the quote service, the file system and the spreadsheet reader are parameters of the members that use them.
- Where the Go code writes to an HTTP response, the model returns the status and message instead.

## Model

| member | source | states |
|---|---|---|
| StockTable.FormatSymbol | client/src/components/StockTable.tsx:35-39 | The result is the lower-cased symbol, except that a lower-cased symbol ending in `.pl` loses exactly that suffix. |
| StockTable.SymbolAndCurrency | client/src/components/StockTable.tsx:35-39 | A position is in złoty exactly when the quote symbol is the lower-cased symbol minus `.pl`, and in euro exactly when it is the whole lower-cased symbol. |
| StockTable.DomainIgnoresCase | client/src/components/StockTable.tsx:79 | The logo lookup gives the same domain for a symbol and its lower-cased form. |
| StockTable.GetCompanyDomain | client/src/components/StockTable.tsx:41-80 | The domain is empty exactly when the upper-cased symbol is not in the table, and is otherwise that symbol's entry. |
| StockTable.MarketsOfKeys | client/src/components/StockTable.tsx:41-78 | Every symbol of the logo table ends in `.PL`, `.DE` or `.UK`. |
| StockTable.KnownDomains | client/src/components/StockTable.tsx:41-80 | Every listed symbol is found in any letter case, and a symbol with a logo always carries a `.PL`, `.DE` or `.UK` market suffix. |
| StockTable.ReturnPercentage | client/src/components/StockTable.tsx:127-141 | The return is finite exactly when the investment in złoty is non-zero, and then times the investment it equals 100 times the profit. |
| StockTable.ProfitFormula | client/src/components/StockTable.tsx:127-140 | The profit is (current − buy price) × shares, times 4.32 for a euro position. It is zero when the price has not moved. |
| StockTable.ReturnIgnoresRate | client/src/components/StockTable.tsx:132-141 | The conversion rate cancels out: a euro position has the same return as if it were in złoty. |
| StockTable.InitialRows | client/src/components/StockTable.tsx:116-121 | There is one row per listed position, in order, with the position unchanged, loading, and flagged euro exactly when its symbol does not end in `.pl`. |
| StockTable.Updated | client/src/components/StockTable.tsx:143-165 | A matching row stops loading. A quote sets its price, profit and return from the processed position and leaves its error. A failed fetch sets "Failed to fetch" and leaves the figures unset. |
| StockTable.ApplyOutcome | client/src/components/StockTable.tsx:143-165 | The row count is kept. Rows whose id differs are unchanged, and rows whose id matches are updated. |
| StockTable.Settle | client/src/components/StockTable.tsx:123-167 | Valuing positions never changes a row's position or currency flag, nor the number of rows. |
| StockTable.StocksTable.constructor | client/src/components/StockTable.tsx:31-33 | The initial state: no rows, loading, no error. |
| StockTable.StocksTable.Load | client/src/components/StockTable.tsx:102-177 | Without a token nothing changes. A failed or non-OK request, or a `null` body, sets the matching error. Otherwise the rows are the initial rows valued one position at a time, in list order. Loading ends whenever a token was present. |
| StockTable.SettlePointwise | client/src/components/StockTable.tsx:123-167 | With distinct ids, after k steps each of the first k rows holds its own valuation and every later row is as first shown. |
| StockTable.AllSettled | client/src/components/StockTable.tsx:123-167 | After the loop no row is loading. A row has a profit exactly when its quote arrived, and carries "Failed to fetch" exactly when it did not. |
| StockTable.TotalOfFinal | client/src/components/StockTable.tsx:191-194 | The total over fully valued rows is the sum of the profits of the quoted positions. |
| StockTable.TotalProfitOfLoadedTable | client/src/components/StockTable.tsx:191-194 | The total under the loaded table is the sum of the profits of the positions whose quote arrived; failed rows add nothing. |
| StockTable.TotalOfInitialRows | client/src/components/StockTable.tsx:191-194 | While every row is loading the total is zero. |
| StockTable.TotalProfit | client/src/components/StockTable.tsx:191-194 | When no row has a negative profit the total is not negative; a row without a profit counts as 0. |
| XlsxImport.OpenBuyText | server/handlers/xlsx.go:128-144 | For `a` and `b` without `@`, the cell `OPEN BUY a @ b` yields the numbers the trimmed `a` and `b` parse to, and nothing when either does not parse. |
| XlsxImport.LowerCaseOpenBuy | server/handlers/xlsx.go:124-144 | A lower-case `open buy a @ b` keeps its prefix, because only the upper-case prefix is removed: the shares text is `open buy a`. |
| XlsxImport.SplitAtSign | server/handlers/xlsx.go:128 | Text without `@` on either side of ` @ ` splits into exactly those two sides. |
| XlsxImport.Accepted | server/handlers/xlsx.go:116-144 | A row is accepted exactly when it has at least six cells, column 4 contains `OPEN BUY` in any case, and that cell parses. The trade takes its symbol from column 5, its time from column 3, and its shares and price from column 4. |
| XlsxImport.ParseRow | server/handlers/xlsx.go:116-144 | The loop body's checks, in order, accept exactly the rows `Accepted` accepts, with the same trade. |
| XlsxImport.Merge | server/handlers/xlsx.go:146-158 | The keys gain the trade's symbol and no other entry changes. A known symbol keeps its id, symbol and time, adds the shares and takes the share-weighted average price. A new symbol starts with the zero id, the trade's time, rounded price and shares. |
| XlsxImport.WeightedAverage | server/handlers/xlsx.go:147-149 | The average is finite exactly when the held price is finite and the total shares are non-zero. It is then (held price × held shares + price × shares) / total shares. |
| XlsxImport.MergeInto | server/handlers/xlsx.go:146-158 | The in-place update of the map through the stored pointer gives the map `Merge` describes. |
| XlsxImport.CollectPositions | server/handlers/xlsx.go:113-159 | The loop over the data rows builds the map of positions after every row. |
| XlsxImport.PositionsAggregate | server/handlers/xlsx.go:113-159 | Merging row by row equals folding the accepted trades in order. |
| XlsxImport.MergeStep | server/handlers/xlsx.go:146-158 | Folding one more trade is one more merge. |
| XlsxImport.Aggregate | server/handlers/xlsx.go:146-158 | Every position is keyed by its own symbol and keeps the zero id. |
| XlsxImport.ListPositions | server/handlers/xlsx.go:161-164 | The result lists every position of the map exactly once, in some order, and nothing else. |
| XlsxImport.ParseXLSXFile | server/handlers/xlsx.go:98-167 | A missing sheet, a read error or fewer than 12 rows give the matching message. Otherwise the result lists exactly once each position obtained by folding the accepted trades of `rows[11:]`. |
| XlsxImport.KeysAreSymbols | server/handlers/xlsx.go:146-158 | There is one position per distinct symbol among the accepted trades, keyed by its own symbol. |
| XlsxImport.SymbolsAt | server/handlers/xlsx.go:146-158 | A symbol is traded exactly when some trade carries it. |
| XlsxImport.SharesAndTime | server/handlers/xlsx.go:147-157 | A position's shares are the sum of its symbol's trades, and its time is the time of the first of them. |
| XlsxImport.NoShares | server/handlers/xlsx.go:147-150 | A symbol that was never traded has no shares. |
| XlsxImport.FirstTrade | server/handlers/xlsx.go:151-157 | The first trade in a symbol carries that symbol, and no earlier trade does. |
| XlsxImport.SingleTrade | server/handlers/xlsx.go:151-157 | A symbol bought once keeps that trade's shares and time, and its price rounded to two decimals. |
| XlsxImport.TradesInOrder | server/handlers/xlsx.go:115-144 | The trades are exactly those of the accepted rows: the k-th trade is the trade of the k-th accepted row, the rows lie in increasing order, and no accepted row is missed. |
| XlsxImport.TradesArePresent | server/handlers/xlsx.go:115-144 | The accepted trades are the rows' results with the skipped rows removed. |
| XlsxImport.PresentInOrder | server/handlers/xlsx.go:115-144 | The positions holding a trade are listed in increasing order, each once, and the k-th trade is the one at the k-th position. |
| LegacyImport.Entry | server/main.go:43-63 | A row is kept exactly when it has at least six cells and non-empty symbol, time and price. It becomes symbol = column 5, time = column 3, price = column 4, verbatim. |
| LegacyImport.ParseXLSX | server/main.go:19-71 | An open error, a missing sheet, a read error or fewer than six rows give their messages. Otherwise the kept rows of `rows[1:]`, in order; none kept is "no valid stock data found in file". Every failure is the error `ParseError` names for the workbook. |
| LegacyImport.EntriesAppend | server/main.go:42-64 | Filtering two blocks of rows is filtering each and concatenating. |
| LegacyImport.AcceptedPositions | server/main.go:42-64 | The kept rows lie at strictly increasing positions, and every acceptable row is among them. |
| LegacyImport.EntriesAtPositions | server/main.go:48-63 | The k-th entry is the entry of the k-th kept row. |
| LegacyImport.EntriesInOrder | server/main.go:42-64 | The entries are exactly those of the acceptable rows, in input order. |
| LegacyImport.SecondRowListed | server/main.go:42 | The scan starts at the second row: an acceptable second row is the first entry. |
| LegacyImport.FirstRowIgnored | server/main.go:42 | Only the first row is skipped: replacing it changes nothing. |
| LegacyImport.EntryPosition | server/main.go:42-64 | Row i's entry sits at the index given by the number of entries before it. |
| LegacyImport.GetStocks | server/main.go:73-93 | Every parse error (open, sheet, read, too few rows, no valid data) is a 500 with "Failed to parse XLSX file: " and that error. Otherwise the entries without the first five are served. |
| DailyQuotes.Truncate | server/handlers/stock.go:71 | `int(volume)` rounds toward zero. |
| DailyQuotes.Records | server/handlers/stock.go:40-50 | Records that fail to read are skipped, and every kept record has the header's field count. |
| DailyQuotes.ReadRecords | server/handlers/stock.go:40-50 | The read loop collects exactly the readable records, in order. |
| DailyQuotes.Recent | server/handlers/stock.go:52-54 | At most the last 180 records are kept, as a suffix of the input. |
| DailyQuotes.Point | server/handlers/stock.go:57-89 | A record becomes a point exactly when its price parses: its date, rounded price and truncated volume, with 0 for an unreadable volume. Given a parseable predecessor, the change is the rounded difference, the flag says the price rose, and the percentage is finite exactly when the predecessor is non-zero. Otherwise the change, percentage and flag are zero and false. |
| DailyQuotes.Transform | server/handlers/stock.go:56-91 | The reverse loop builds the newest-first series. |
| DailyQuotes.PositionsDescend | server/handlers/stock.go:56-60 | The points come from strictly decreasing record positions, and every record whose price parses is among them. |
| DailyQuotes.SeriesAtPositions | server/handlers/stock.go:56-91 | The k-th point of the series is the point of the k-th listed record. |
| DailyQuotes.NewestFirst | server/handlers/stock.go:56-91 | The series has one point for every record whose price parses and for no other, from the newest record to the oldest. |
| DailyQuotes.Descending | server/handlers/stock.go:56-91 | The series has at most one point per record scanned. |
| DailyQuotes.ShortRecordsGiveNoPoints | server/handlers/stock.go:56-61 | Records of five fields give no point at all, so their price never needs a sixth field. |
| DailyQuotes.HandleStockPrice | server/handlers/stock.go:15-97 | An empty symbol is 400 "Symbol is required" before any fetch. A failed fetch or unreadable header is 500 with its message. Otherwise the series of the last 180 readable records, of one to 180 points; JSON `null` when no point was made, and an empty body when a percentage is not finite. It requires exactly that no windowed record is indexed beyond its fields. |
| DailyQuotes.Respond | server/handlers/stock.go:31-96 | After the header: `null` when no record yields a point, otherwise the newest-first series of the last 180 readable records, or the empty body when a percentage is not finite. |
| DailyQuotes.OldestKeptHasNoChange | server/handlers/stock.go:52-77 | The oldest record kept has no change and no increase, even when its previous day was cut off by the window. |
| DailyQuotes.IncreaseMeansHigher | server/handlers/stock.go:77-88 | A point is an increase exactly when it has a parseable predecessor and its price is strictly higher. |
| Jwt.Payload | server/auth/jwt.go:64-65 | The token text is the decimal user id, a colon and the decimal Unix expiry. |
| Jwt.GenerateToken | server/auth/jwt.go:36-48 | A generated token for a 64-bit user id decodes to that id and the expiry 24 hours after issue, to the whole second. |
| Jwt.EncodeToken | server/auth/jwt.go:63-67 | The token uses only the URL-safe base 64 alphabet and padding. |
| Jwt.AsciiRoundTrip | server/auth/jwt.go:66-78 | Reading back the bytes of an ASCII text gives the text. |
| Jwt.DecodeToken | server/auth/jwt.go:69-87 | Every failure is `ErrInvalidToken`. A decoded id and expiry fit in 64 bits, with the nanoseconds zero. The bytes are read as UTF-8 before they are scanned. |
| Jwt.DecodeRune | server/auth/jwt.go:78 | One UTF-8 sequence of one to four bytes is read. A byte below 0x80 is itself and takes one byte; any other byte read alone is U+FFFD. A longer sequence is the shortest encoding of its character, so overlong forms are refused. |
| Jwt.BytesToText | server/auth/jwt.go:78 | The text is never longer than the bytes, and starts with the first byte when that is ASCII. |
| Jwt.NoBreakSpace | server/auth/jwt.go:78 | The bytes `C2 A0` are read as one no-break space. |
| Jwt.SpacedPayloadDecodes | server/auth/jwt.go:69-87 | A token whose text starts with a no-break space before `uid:unix` decodes like the text without it. |
| Jwt.ValidateToken | server/auth/jwt.go:50-61 | A token is valid exactly when it decodes and the clock is not strictly after its expiry, compared as `time.Time` stores them; it returns the decoded claims. An expiry error only follows a successful decode. |
| Jwt.AfterUnwrapped | server/auth/jwt.go:56 | For Unix seconds from year 1 to 9223371974719179007 nothing wraps, and `After` compares the seconds, then the nanoseconds. |
| Jwt.WrappedExpiryIsExpired | server/auth/jwt.go:50-87 | An expiry above 9223371974719179007 wraps in `time.Unix` to before year 1, so a token carrying it is `ErrExpiredToken` at any clock from year 1 on. |
| Jwt.ScanPayload | server/auth/jwt.go:65-78 | Scanning the printed `%d:%d` text gives back the user id and the seconds. |
| Jwt.DecodeEncode | server/auth/jwt.go:63-87 | Decoding an encoded token recovers the user id and the expiry to the whole second. |
| Jwt.GeneratedTokenLifetime | server/auth/jwt.go:36-61 | A generated token is valid exactly until the whole second 24 hours after issue has passed; while valid it carries the user id, and afterwards the error is `ErrExpiredToken`. |
| Jwt.TokensAreForgeable | server/auth/jwt.go:63-87 | Without the signing key, anyone can encode claims that validate as any user with any expiry the clock is not after. |
| Jwt.MalformedTokenIsInvalid | server/auth/jwt.go:70-73 | Every token that is not padded URL-safe base 64 is invalid rather than expired, whatever the clock says. |
| Jwt.UnscannableTokenIsInvalid | server/auth/jwt.go:78-81 | Base 64 whose text does not scan as `%d:%d`, the empty token included, is invalid rather than expired, whatever the clock says. |
| Argon2.GenerateHash | server/auth/argon2.go:29-55 | Given at least one pass, one lane and one byte of key, it fails exactly when the random source runs short of the salt length. Otherwise the string formats the drawn salt and the key the KDF derives from it. |
| Argon2.EncodeHash | server/auth/argon2.go:44-52 | Splitting the hash string on `$` gives back its six fields. |
| Argon2.HashFormat | server/auth/argon2.go:44-52 | The encoded string is `$argon2id$v=V$m=M,t=T,p=P$S$H`, with the salt and key in unpadded standard base 64. |
| Argon2.Uint32Of | server/auth/argon2.go:99-105 | `uint32(n)` keeps values below 2^32 and is always below 2^32. |
| Argon2.DecodeHash | server/auth/argon2.go:75-108 | A split into other than six `$` fields is "invalid hash format". On success both scans succeeded, the salt and key are the decoded fields, and the lengths are theirs, truncated to 32 bits. |
| Argon2.ComparePasswordAndHash | server/auth/argon2.go:57-73 | A decoding failure is returned as it is. A decoded hash with no pass, no lane or an empty key is the KDF's panic. Otherwise it succeeds and is true exactly when the re-derived key equals the stored key. |
| Argon2.ZeroCostPanics | server/auth/argon2.go:57-73 | A well-formed hash with zero iterations, zero parallelism or an empty key decodes, and then checking any password against it panics. |
| Argon2.SplitFields | server/auth/argon2.go:44-76 | Splitting the joined hash fields on `$` gives the six fields back. |
| Argon2.ScanVersionField | server/auth/argon2.go:82 | Scanning `v=%d` of a printed version gives the version back. |
| Argon2.ScanParamsField | server/auth/argon2.go:87-93 | Scanning `m=%d,t=%d,p=%d` of printed costs that fit their types gives them back. |
| Argon2.DecodeFields | server/auth/argon2.go:75-108 | Any six fields in the layout of the hash string decode to the costs, the salt, the key and their lengths. |
| Argon2.DecodeEncode | server/auth/argon2.go:44-108 | Decoding a generated string recovers memory, iterations, parallelism, salt and key, with the salt and key lengths. |
| Argon2.CompareGenerated | server/auth/argon2.go:29-73 | Checking a candidate against a generated hash is whether it derives the same key, so the original password always matches. |
| Argon2.VersionAndNameIgnored | server/auth/argon2.go:76-84 | Any version number and any algorithm name decode exactly like the generated string. |
| Argon2.WrongFieldCount | server/auth/argon2.go:57-79 | With other than six fields, decoding and comparison fail with "invalid hash format" whatever the fields hold. |
| Middleware.Authorize | server/middleware/auth.go:11-34 | Every rejection is 401. An empty header is "Authorization header required"; a header that does not split into `Bearer` and one token is "Invalid authorization header"; a token that fails validation gives its error's message. The handler is reached only with a token that validates, with that token's user id. |
| Middleware.OnlyValidTokensPass | server/middleware/auth.go:13-32 | The handler is reached exactly when the header is non-empty, splits into two parts with `Bearer` first, and the second part validates. |
| Middleware.GeneratedTokenAuthorizes | server/middleware/auth.go:19-32 | A bearer header with a generated token reaches the handler as its user while it is unexpired, and gets 401 "token has expired" afterwards. |
| Middleware.MalformedHeaders | server/middleware/auth.go:19-23 | A lower-case scheme, a doubled space or a missing token are refused with "Invalid authorization header". |
| Middleware.BearerSplit | server/middleware/auth.go:19 | `Bearer ` followed by a token without spaces splits into the scheme and the token. |
| TimeLayouts.FirstParse | server/models/stock.go:28-42 | The result succeeds exactly when some layout parses, and is then the first layout's parse before which all failed. Otherwise it is the last layout's error. |
| TimeLayouts.ParseTime | server/models/stock.go:27-43 | The loop over the layouts returns the ordered-fallback result. |
| TimeLayouts.DayMonthFirst | server/models/stock.go:28-38 | A date readable day-first is read day-first. |
| TimeLayouts.IsoLast | server/models/stock.go:28-38 | When both slash layouts fail, the ISO layout decides. |
| TimeLayouts.LastError | server/models/stock.go:34-42 | When every layout fails, the ISO layout's error is reported. |
| PriceDiff.Cents | client/src/app/search/page.tsx:29 | The whole number of cents is within half a cent of the amount, halves going up. |
| PriceDiff.FixedParts | client/src/app/search/page.tsx:29-31 | `toFixed(2).split(".")` yields exactly the whole part (with its sign) and the two decimals. |
| PriceDiff.WholeTextEqual | client/src/app/search/page.tsx:36 | Two prices show the same whole text exactly when they have the same sign and the same whole units once rounded. |
| PriceDiff.FormatPrice | client/src/app/search/page.tsx:25-61 | Whole part and decimals rejoin to `toFixed(2)`. A falsy previous price leaves both plain. The decimals are green exactly on a rise and red exactly on a fall. The whole part is coloured exactly when the price changed and its whole text differs, and then in the same colour. |
| PriceDiff.WholeColourFromText | client/src/app/search/page.tsx:36-42 | Against a non-zero previous price, the whole part is coloured exactly when the whole texts differ. |
| PriceDiff.PreviousPrice | client/src/app/search/page.tsx:125-126 | Each row is compared with the next row's price, and the last row with none. |
| PriceDiff.ChangeColour | client/src/app/search/page.tsx:134-141 | The change cell is plain exactly when the change parses to zero. Otherwise it is green exactly when the server's flag says increase. |
| PriceDiff.Rows | client/src/app/search/page.tsx:124-145 | There is one row per data item, in order, each formatted against the row below it. |
| PriceDiff.LastRowPlain | client/src/app/search/page.tsx:125-126 | The last row's price is never coloured. |
| PriceDiff.RowPriceColour | client/src/app/search/page.tsx:34-56 | A price is green exactly when above a non-zero price in the row below, and red exactly when below one. |
| Home.Profits | client/src/router/index.tsx:20-24 | The readable profits are never more than the rows. |
| Home.ProfitsEmpty | client/src/router/index.tsx:20-24 | There are no readable profits exactly when no row's gross profit parses. |
| Home.ProfitsLast | client/src/router/index.tsx:20-24 | The readable profits end with the last parseable gross profit. |
| Home.LastProfit | client/src/router/index.tsx:20-30 | The result is the last parseable gross profit, or 0 when none parses. |
| Home.RoundCents | client/src/router/index.tsx:32 | The result is the nearest whole number of cents, halves going away from zero, and so within half a cent of the amount. |
| Home.NearestCentsUnique | client/src/router/index.tsx:32 | Only one whole number of cents is nearest to an amount. |
| Home.RoundCentsIdempotent | client/src/router/index.tsx:32 | Rounding to cents twice is rounding once. |
| Home.Balance | client/src/router/index.tsx:32 | The balance is the Polish profit plus 4.5 times the euro profit, rounded to the nearest cent. |
| Home.FilterOpenPositions | client/src/router/index.tsx:35-39 | Every kept row has a truthy name, opening time and volume. |
| Home.FilterContents | client/src/router/index.tsx:35-39 | Each listed row is kept as often as it occurs, and no other row is. |
| Home.FilterAppend | client/src/router/index.tsx:35-39 | The filter preserves the order of blocks of rows. |
| Home.FilterKeepsListed | client/src/router/index.tsx:35-39 | Rows that are all listed pass unchanged. |
| Home.FilterIdempotent | client/src/router/index.tsx:35-44 | Filtering twice is filtering once. |
| Home.ClientHome | client/src/router/index.tsx:20-61 | The page shows the balance rounded to the nearest cent and exactly two tables, the filtered Polish sheet and the filtered euro sheet; every row shown is listed and no table is longer than its sheet. |
| Home.ClientHomeShowsListed | client/src/router/index.tsx:35-61 | A row appears in the client's Polish or euro table exactly when it is listed and in that sheet, as many times as it occurs there. |
| Home.LegacyHome | src/router/index.tsx:17-53 | The page shows the rounded balance and the Polish rows exactly as given. |
| Home.VersionsAgree | src/router/index.tsx:17-53 | Both home pages show the same balance. Their Polish tables agree exactly when every Polish row is listed, since the older page passes the rows unfiltered. |
| Mime.Extname | src/lib/mime.ts:4 | The extension is empty or a dot-led suffix of the base name with no other dot. It is empty exactly when the base name has no dot, only a leading dot, or is `..`. |
| Mime.GetMimeType | src/lib/mime.ts:3-15 | A lower-cased extension in the table gets its type, and any other extension or none gets `application/octet-stream`. |
| Mime.TableShape | src/lib/mime.ts:5-13 | Exactly seven extensions are mapped, and `.jpg` and `.jpeg` share `image/jpeg`. |
| Mime.ExtnameLower | src/lib/mime.ts:4 | Lower-casing a path lower-cases its extension and nothing more. |
| Mime.MimeIgnoresCase | src/lib/mime.ts:4 | Paths that differ only in letter case get the same type. |
| Mime.UpperCasePng | src/lib/mime.ts:4-11 | A `.PNG` file is served as `image/png`. |
| Mime.HiddenPng | src/lib/mime.ts:4-14 | A hidden `.png` file has no extension, so it is served as generic binary data. |
| Mime.ExtensionOf | src/lib/mime.ts:4 | A file `name.ext` whose name does not start with a dot has the extension `.ext`. |
| Mime.HiddenFile | src/lib/mime.ts:4 | A hidden file `.ext` has no extension. |
| Mime.NoExtension | src/lib/mime.ts:4 | A file name without a dot has no extension. |
| Mime.NoExtensionIsBinary | src/lib/mime.ts:14 | No extension means `application/octet-stream`. |
| Routes.LegacyRoute | src/server.tsx:230-244 | Exactly `/output.css` is the stylesheet. Any other path under `/public/` is the file at `.` + path. Everything else is the page, and the spreadsheet data is never served. |
| Routes.ClientRoute | client/src/server.tsx:19-37 | Exactly `/output.css` is the stylesheet. Other paths under `/src/public/` are the file at `.` + path. Exactly `/data.json` is the spreadsheet data. Every other path is the page. |
| Routes.RoutersDiffer | src/server.tsx:238-243 | A `/public/` path is a file for the older server and the page for the client server. Outside both static prefixes and `/data.json`, the servers agree. |
| Routes.ServeStaticFile | src/server.tsx:162-187 | An unreadable file is "Not Found". Otherwise the reply is its bytes with the type `getMimeType` gives its path. |
| Routes.PublicPng | src/server.tsx:162-187 | A readable `.PNG` file under `/public/` reaches the browser as `image/png`. |
| Base64.Encode | server/auth/argon2.go:50-51 | The output holds only letters of the chosen alphabet and padding, and only letters when unpadded. |
| Base64.PaddedLength | server/auth/jwt.go:66 | Padded output is four characters per started group of three bytes. |
| Base64.UnpaddedLength | server/auth/argon2.go:50-51 | Unpadded output is the bit count divided by six, rounded up. |
| Base64.RawStdRoundTrip | server/auth/argon2.go:95-104 | Decoding the unpadded standard encoding of bytes gives the bytes back. |
| Base64.UrlRoundTrip | server/auth/jwt.go:66-70 | Decoding the padded URL-safe encoding of bytes gives the bytes back. |
| Fmt.Sscanf | server/auth/argon2.go:82-87 | Scanned values fit their destination types, one per verb. |
| Fmt.ScanPrinted | server/auth/jwt.go:65-78 | Scanning what `Sprintf` printed with a separated format gives back arguments that fit their types. |
| Text.SplitJoin | server/auth/argon2.go:76 | Splitting on a one-character separator undoes joining on it when no part holds it. |
| Text.TrimPrefix | server/handlers/xlsx.go:128 | The prefix is dropped once when present, and otherwise the text is unchanged. |
| Text.ScanDecimal | server/auth/jwt.go:78 | A `%d` verb reads back the decimal rendering of a number that fits its type. |
| Wrappers.Divide | client/src/components/StockTable.tsx:141 | Division is finite exactly when the divisor is non-zero, and is then the real quotient. |

## Left out

- Network, HTTP and database I/O: the `fetch` calls, `http.Get` of the quote service, response headers, CORS, multipart parsing, `HandleStocksXLSX`, the login and register handlers, Postgres, and the serving of the stylesheet, the spreadsheet data and the rendered page. Each is either a parameter or the name of a route.
- Spreadsheet reading (`excelize`, `xlsx.read`): the sheet's rows are an input, and a missing sheet or a read error is a case of that input.
- Floating point: amounts are reals. Results of IEEE rounding are not modelled, and NaN or an infinity appears only as `NonFinite` where an unguarded division can produce it.
- `parseFloat` and `strconv.ParseFloat`, `toFixed` beyond two decimals below 10^21, `utils.RoundToTwo` and `time.Parse` are parameters. The model does not say which texts parse, and a parser that answers NaN or an infinity for a text is not distinguished from a number.
- Letter case is mapped for the ASCII letters only; JavaScript and Go map all of Unicode.
- StockTable.StocksTable.Load: React's asynchronous state updates, effect re-runs and overlapping refreshes are not modelled. The loop runs sequentially over a snapshot of the rows, as the `for … await` loop does.
- XlsxImport.WeightedAverage: states the average of one merge only. That a position's final price is the share-weighted average of all its trades is not proved, because the first price is rounded and later averages build on it.
- XlsxImport.ParseXLSXFile: the order of the positions is left open, as Go's map iteration is.
- LegacyImport.GetStocks: requires at least five entries when the file parses. With one to four entries Go's `stocks[5:]` panics, and the model excludes that case instead of modelling the panic.
- DailyQuotes.HandleStockPrice: requires that every windowed record has five fields, and a sixth whenever its price parses. Otherwise Go's indexing panics, and the model excludes that case instead of modelling the panic. A JSON encoding failure is modelled only as the empty body that a non-finite number causes.
- DailyQuotes.ReadRecords: the read results are a finite list. A read error other than EOF that repeats on every call (a chunked body cut mid-chunk, say) makes the `continue` loop at server/handlers/stock.go:41-50 run forever; the model does not capture that non-termination.
- DailyQuotes.StockData: the Go type declares `Volume` as `float64` but the handler assigns `int(volume)`, which would not compile as written. The model follows the handler and stores the volume cut to a whole number.
- Middleware: storing the user id in the request context and calling the next handler are represented by the `CallNext(userId)` outcome.
- Jwt: `InitJWT` and `signingKey` are not modelled. Neither encoding nor decoding reads the key, so validity depends only on the token text and the clock (see `Jwt.TokensAreForgeable`).
- Argon2: the key derivation, `crypto/rand` and `subtle.ConstantTimeCompare` are a parameter, a byte stream and plain equality. The password is its byte encoding.
- Argon2.GenerateHash: requires at least one pass, one lane and one byte of key, because `argon2.IDKey` panics otherwise (for an empty key its BLAKE2b step uses a hash that `blake2b.New` refused to make); the default costs meet this. `Argon2.ComparePasswordAndHash` models that panic as the `KdfPanic` outcome, since the stored hash is not the caller's to choose.
- Fmt.Sscanf: only literal text and `%d` verbs are modelled, which are all the formats of the source use.
- Mime.Extname: follows POSIX paths; the Windows separator is not treated specially.
- Routes: the URL parsing that yields the path name is not modelled; the path name is an input.
- Logging (`log.Printf`, `console.error`) is left out everywhere.
- The comment at server/main.go:42 says the first five rows are skipped, but the code skips one. The model follows the code (`LegacyImport.FirstRowIgnored`, `LegacyImport.SecondRowListed`).
- The comment at server/main.go:84 says the first entry is skipped, but `stocks[5:]` drops five. The model follows the code (`LegacyImport.GetStocks`).
