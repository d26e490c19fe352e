# moira: the scraping and order logic, modelled in Dafny

moira is a small Python client for a web-based virtual stock-trading game.
It logs in, scrapes holdings, transactions and search results from the
site's HTML, and posts sell orders to a JSON endpoint. This project models
the decisions `moira.py` makes once a page has been fetched and parsed.

- **Transactions** (`transactions.dfy`): how `get_transaction_history` gets
  the total transaction count. It takes the pager link's `href` and reads
  `int(href.split('&')[1].split('=')[1])`. The total then splits into full
  pages of ten (`int(str(total)[0:-1]) * 10`) and a remainder. The
  download loop requests the offsets `range(0, whole, 10)`. As written,
  each of those requests passes the cookie jar as a second positional
  argument, which `Session.get` does not take (see Findings).
- **Text** (`text.dfy`): the Python 2 built-ins this code depends on:
  `str.split` with a one-character separator, `str()` of an integer and
  `int()` of a unicode string in base 10. `int()` accepts whitespace around
  the literal, an optional sign, whitespace between the sign and the
  digits, and one or more ASCII digits. It rejects anything else,
  underscores included. Whitespace is the Latin-1 set that Python 2 skips:
  the C whitespace characters, the separators 0x1C to 0x1F, NEL and the
  no-break space.
- **Cleanup** (`cleanup.dfy`): the cleanup of a market-gain cell,
  `re.sub("\r\n\t*", "", text).replace(',', '')`.
- **Holdings** (`holdings.dfy`): how `get_current_holdings` builds its
  result. It drops the table's header row and pairs each remaining row
  with its gain cell. For each pair it builds a `Stock` from six row
  attributes and the cleaned cell text, and stores it under the row's
  `data-symbol`. A later row overwrites an earlier one with the same
  symbol, and the first failing row aborts the whole call.
- **Trading** (`trading.dfy`): how `stock_search` classifies a response.
  A missing result chip is the `except TypeError` branch ("Invalid game").
  A chip without an attribute is the `except KeyError` branch ("Unknown
  error"). This module also models the sell payload and how `sell_stock`
  reads the decoded server reply.
- **Results** (`results.dfy`): a Python exception that aborts a call is an
  `Err` carrying `TypeError`, `KeyError`, `IndexError` or `ValueError`.
  Subscripting a parsed tag is `Attr`.

Pages and the server are inputs to the model. A parsed tag is its
attribute map. An element that `find` did not find is `None`. A gain cell
is the list of its text children. The server's `Date` header becomes an
already converted time string. The decoded sell reply is a `Json` value.

Two modelling choices follow the code closely:
- `stock_search` returns 1 for both of its failures. The model keeps the
  two failure kinds apart, because the code logs a different message for
  each (`SearchFailure.LogMessage`), and `SearchFailure.Code` is 1 for
  both.
- The transaction pagination loop discards the pages it fetches. The
  model therefore records only the offsets it requests.

## Model

| member | source | states |
|---|---|---|
| Results.Attr | moira.py:165-167 | Subscripting a tag succeeds exactly when the attribute is present, and gives its value; otherwise it raises KeyError |
| Text.Split | moira.py:190-191 | `split` always yields at least one piece; SplitCount, SplitPiecesFree, SplitJoin, SplitWithoutSeparator and SplitAtFirst specify it fully |
| Text.SplitCount | moira.py:190-191 | `split` yields exactly one more piece than there are separators |
| Text.SplitPiecesFree | moira.py:190-191 | No piece produced by `split` contains the separator |
| Text.SplitJoin | moira.py:190-191 | Joining the pieces of `split` with the separator restores the original string |
| Text.SplitWithoutSeparator | moira.py:190-191 | A string without the separator splits into itself alone |
| Text.SplitAtFirst | moira.py:190-191 | The text before the first separator is the first piece, and the rest splits independently |
| Text.NatToString | moira.py:193 | `str()` of a non-negative integer is a non-empty digit string, and has one digit exactly when the number is below ten |
| Text.DigitsRoundTrip | moira.py:193 | The digits of `str(n)` have the value `n` |
| Text.DropLastDigit | moira.py:193 | For `n >= 10`, `str(n)[0:-1]` is `str(n // 10)` |
| Text.IntToString | moira.py:193 | `str()` of an integer is non-empty, starts with `-` exactly when the integer is negative, and is otherwise all digits; ParseIntToString is its inverse |
| Text.ParseInt | moira.py:190-193 | Python 2's `int()` either yields an integer or raises ValueError, never any other exception; the lemmas below say which texts it accepts and what they give |
| Text.ParseIntUnsigned | moira.py:190-193 | Digits with whitespace around them read as their value |
| Text.ParseIntSigned | moira.py:190-193 | A sign, whitespace, then digits, all with whitespace around them, read as the signed value of the digits |
| Text.ParseIntAround | moira.py:190-193 | Surrounding whitespace does not change the result |
| Text.RejectsOtherCharacter | moira.py:190-193 | Any character that is not whitespace, a sign or a digit, such as an underscore, makes `int()` raise ValueError |
| Text.BareDigits | moira.py:190-193 | A digit string reads as its value |
| Text.MinusDigits | moira.py:193 | `-` followed by digits reads as the negated value |
| Text.BlankAfterSignExample | moira.py:190-193 | `int("- 5") == -5` |
| Text.SurroundingBlanksExample | moira.py:190-193 | `int(" 37\n") == 37` |
| Text.UnderscoreExample | moira.py:190-193 | `int("1_0")` raises ValueError |
| Text.RejectsInnerBlank | moira.py:190-193 | `int("4 2")` raises ValueError |
| Text.RejectsBareSign | moira.py:190-193 | `int("-")` raises ValueError |
| Text.ParseIntToString | moira.py:193 | `int(str(n)) == n` for every integer, negative ones included |
| Transactions.CountFromHref | moira.py:190-191 | Reading the count from an href fails only with IndexError or ValueError; CountFromHrefFailure and CountFromSecondField say when and with what value |
| Transactions.TotalCount | moira.py:190-191 | A missing pager link raises TypeError, a link without `href` raises KeyError, and otherwise the count is read from the href |
| Transactions.CountFromHrefFailure | moira.py:190-191 | Reading the count raises IndexError exactly when the href has no `&` or its second field has no `=`; every other failure is ValueError from `int()` |
| Transactions.CountFromSecondField | moira.py:190-191 | For an href `a&k=v` or `a&k=v&rest`, the count is `int(v)` |
| Transactions.Whole | moira.py:192-195 | For totals of ten or more, the full-page part is the total rounded down to a multiple of ten; below ten it is 0 |
| Transactions.WholeIsLargestMultiple | moira.py:192-196 | For a non-negative total, the full-page part is the largest multiple of ten not above it and the tail is the units digit; a negative total is all tail |
| Transactions.Range | moira.py:197 | Every element of `range(start, stop, step)` lies in `[start, stop)`, and the range is empty exactly when `start >= stop`; RangeElements gives each element |
| Transactions.RangeElements | moira.py:197 | The k-th element of `range(start, stop, step)` is `start + k * step`, every element is below `stop`, and one more step reaches `stop` |
| Transactions.RequestPages | moira.py:197-199 | Without extra positional arguments the loop requests exactly the offsets of `range(0, whole, 10)`, in order; with one it raises TypeError exactly when the range is not empty |
| Transactions.TransactionHistory | moira.py:189-199 | With the cookie jar passed as `cookies=`: fails exactly when reading the count fails, with the same exception; otherwise gives the total, the full-page part, the remainder and the offsets requested |
| Transactions.TransactionHistoryAsWritten | moira.py:190-198 | With the cookie jar passed positionally: a count failure is passed on; otherwise the call raises TypeError exactly when the total is ten or more, and below ten it requests nothing |
| Transactions.PagerLinkExample | moira.py:190-191 | A pager link with href `p&n=37` announces 37 transactions |
| Transactions.PageOffsets | moira.py:192-197 | `total // 10` offsets for a non-negative total, the k-th being `10 * k`, strictly increasing and below the full-page part; none below ten, only 0 from ten to nineteen |
| Transactions.PaginationExamples | moira.py:192-197 | Totals 37, 7 and 100 split into 30 + 7 with offsets 0, 10, 20; into 0 + 7 with no offsets; and into 100 + 0 |
| Cleanup.RemoveLineBreaks | moira.py:168 | The regex pass never lengthens the text |
| Cleanup.RemoveCommas | moira.py:168-169 | Removing commas leaves no comma and never lengthens the text |
| Cleanup.CleanReturn | moira.py:168-169 | The cleaned gain text has no comma and is no longer than the cell text |
| Cleanup.SkipTabsSuffix | moira.py:168 | `\t*` consumes exactly a leading run of tabs and leaves the rest as a suffix |
| Cleanup.RemoveLineBreaksSubsequence | moira.py:168 | The regex pass only deletes characters |
| Cleanup.RemoveCommasSubsequence | moira.py:168-169 | Removing commas only deletes characters |
| Cleanup.CleanReturnSubsequence | moira.py:168-169 | The cleaned text is the cell text with some characters deleted |
| Cleanup.RemoveLineBreaksKeeps | moira.py:168 | The regex pass keeps every character other than CR, LF, tab and comma as often as it occurs |
| Cleanup.RemoveCommasKeeps | moira.py:168-169 | Removing commas keeps every other character as often as it occurs |
| Cleanup.CleanReturnKeeps | moira.py:168-169 | Only commas, carriage returns, line feeds and tabs are ever deleted |
| Cleanup.RemoveLineBreaksIdentity | moira.py:168 | Text without a CR LF pair passes the regex unchanged |
| Cleanup.RemoveCommasIdentity | moira.py:168-169 | Text without a comma passes `replace` unchanged |
| Cleanup.CleanReturnIdentity | moira.py:168-169 | Text without a comma and without a CR LF pair is left as it is |
| Cleanup.LineBreakFreePrefix | moira.py:168 | Text before the first CR LF pair is kept unchanged |
| Cleanup.FirstLineBreakRemoved | moira.py:168 | The first CR LF pair is deleted together with its whole run of following tabs, and the text before it is kept |
| Cleanup.CommaBetween | moira.py:168-169 | One comma between comma-free, CR-free texts is the only character removed |
| Cleanup.CommaExample | moira.py:168-169 | `"1,234.50"` cleans to `"1234.50"` |
| Cleanup.LineBreakExample | moira.py:168-169 | `"\r\n\t12.0"` cleans to `"12.0"` |
| Cleanup.SinglePassExample | moira.py:168 | The regex makes one pass: `"\r\r\n\n"` leaves the newly formed `"\r\n"` |
| Holdings.StockFromRow | moira.py:165-170 | A Stock built from a row is keyed by, and carries as its id, the row's `data-symbol` |
| Holdings.StockFromRowFields | moira.py:165-170 | A row yields a Stock exactly when it has all six attributes and its cell has a first child; a missing attribute raises KeyError (even if the cell is also empty), an empty cell IndexError; the seven fields of the `Stock` record (moira.py:63-85) are, in its constructor's order, the six attributes and the cleaned cell text |
| Holdings.Assemble | moira.py:164-171 | Every key of the assembled map is the id of the Stock stored under it; AssembleFailure, AssembleKeys, AssembleLastWins and AssembleDistinctSize specify the rest |
| Holdings.Holdings | moira.py:156-171 | A result needs at least the header row, and every key is the id of its Stock; HoldingsFailure, HoldingsKeys, HoldingsLastWins, HoldingsSize and HeaderIgnored specify the rest |
| Holdings.CurrentHoldings | moira.py:156-175 | The loop over `zip(trs, tds)` after `pop(0)` gives exactly the holdings function's result, a full map or the first exception |
| Holdings.AssembleFailure | moira.py:164-171 | Assembly fails exactly when some pair fails, and then with the exception of the first failing pair |
| Holdings.AssembleKeys | moira.py:164-171 | A successful assembly has as keys exactly the symbols of the rows stored |
| Holdings.AssembleLastWins | moira.py:164-171 | A symbol maps to the Stock of the last row that carries it |
| Holdings.AssembleDistinctSize | moira.py:164-171 | Rows with distinct symbols give one entry per pair |
| Holdings.HoldingsFailure | moira.py:156-171 | No rows at all raises IndexError; otherwise the call fails exactly when some paired row after the header fails to yield a Stock |
| Holdings.HoldingsKeys | moira.py:163-171 | On success every paired row has all six attributes and a non-empty cell, and the keys are exactly the symbols of the paired rows |
| Holdings.HoldingsLastWins | moira.py:164-171 | On success a symbol holds the Stock of the last paired row carrying it |
| Holdings.HoldingsSize | moira.py:164-171 | When the paired rows (and no others) carry pairwise different symbols, there is exactly one entry per pair |
| Holdings.HeaderIgnored | moira.py:157 | The first row never affects the result |
| Trading.ReadChip | moira.py:219-223 | Reading the chip can only raise TypeError or KeyError |
| Trading.StockSearch | moira.py:219-233 | A missing chip is "Invalid game"; a chip succeeds exactly when it has `data-price` and `data-symbol`, giving those and the time, and fails otherwise as "Unknown error"; both failures have code 1 |
| Trading.SellPayload | moira.py:250-251 | The payload is one order with the given id, type `"Sell"` and a share text that `int()` reads back as the amount |
| Trading.EqualsTrue | moira.py:257 | Only a boolean or an integer can equal True; SellStock and SellStockExamples pin down which ones do |
| Trading.SellStock | moira.py:255-264 | A reply that is not an object raises TypeError; an object without `succeeded` or `message` raises KeyError; otherwise the result is 0 exactly when `succeeded == True` holds, and 1 otherwise |
| Trading.SellStockExamples | moira.py:257-264 | `true` and `1` give 0, `false` and the string `"true"` give 1, a missing message raises KeyError |

## Left out

- Logging in (`get_token`) and the success check it logs: these are HTTP and cookie handling around one URL comparison, with no decision that reaches the other calls.
- All HTTP requests and the HTML parser: pages enter the model already parsed, as attribute maps, optional elements and lists of cell texts.
- `float()` of prices, share counts and cleaned gains: these stay text in `Stock`. The model therefore does not capture the ValueError `float()` raises on malformed text, including the uncaught one for the search price.
- Parsing the server `Date` header and converting it to US Eastern time: the time is an input string.
- JSON encoding of the sell payload (byte layout, key order) and JSON decoding errors of the reply: the payload is a value and the reply arrives decoded.
- Trading.EqualsTrue: does not model JSON floats, so `1.0 == True` is not represented.
- Logging of headers, bodies and server messages: the only observable effect kept is the KeyError raised when `message` is missing.
- The hard-coded game name in the order and transaction URLs, and URL formatting.
- `get_portfolio_data`, and the `Portfolio` and `Trans` holders: they are a stub and records the modelled code never fills.
- The pages fetched by the transaction loop, and what line 199 does with each response: the code discards them, so the model keeps only the offsets.
- The internals of `Session.get` from the requests library: `Transactions.SessionGet` keeps only that it takes the URL as its one positional argument.
- Text.ParseInt: does not accept non-ASCII digits, whitespace outside Latin-1, or the trailing `L` that Python 2 accepts on a literal too large for a machine integer.
- Trading.SellPayload: only integer amounts are modelled; a float share count such as `10.0` gives the text `"10.0"`, which `int()` would reject.
- Holdings.StockFromRow: a gain cell whose first child is a tag rather than text is not represented; cells are lists of strings.

## Findings

| source | as written | input that shows it | evidently intended | confidence | as-written member | corrected member |
|---|---|---|---|---|---|---|
| moira.py:198 | `s.get(orders_url % i, token)` passes the cookie jar as a second positional argument, which `Session.get(url, **kwargs)` does not accept | a pager href `p&n=37` (total 37, `whole` 30): the first loop turn raises TypeError | `cookies=token`, as the request at line 189 passes it | not executed | Transactions.TransactionHistoryAsWritten | Transactions.TransactionHistory |
