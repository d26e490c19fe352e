/** The assembly of current holdings from the parsed holdings page: the
    table rows (the first is the header) carry a position's data in their
    attributes, and the "market gain" cells carry its return as text. */
module Holdings {
  import opened Results
  import opened Cleanup

  /** One held position. The price, share count and return stay as the
      text that `float()` would read. */
  datatype Stock = Stock(
    id: string,            // site-assigned security id, the map key
    ticker: string,
    securityType: string,  // "ExchangeTradedFund" or "Stock"
    currentPrice: string,  // rounded to the cent by the site
    shares: string,
    purchaseType: string,  // "Buy" or "Short"
    gain: string)          // the cleaned gain-cell text (`returns`)

  /** A gain cell, as the list of its text children. */
  type Cell = seq<string>

  /** The row attributes a Stock is read from. */
  predicate HasStockAttributes(row: Attrs)
  {
    && "data-symbol" in row && "data-ticker" in row && "data-insttype" in row
    && "data-price" in row && "data-shares" in row && "data-type" in row
  }

  /** The Stock for one row and its gain cell, or the exception that
      aborts its construction. */
  function StockFromRow(row: Attrs, cell: Cell): (r: Result<Stock, PyError>)
    ensures r.Ok? ==> "data-symbol" in row && r.value.id == row["data-symbol"]
  {
    var id :- Attr(row, "data-symbol");
    var ticker :- Attr(row, "data-ticker");
    var securityType :- Attr(row, "data-insttype");
    var price :- Attr(row, "data-price");
    var shares :- Attr(row, "data-shares");
    var purchaseType :- Attr(row, "data-type");
    if |cell| == 0 then Err(IndexError)
    else Ok(Stock(id, ticker, securityType, price, shares, purchaseType, CleanReturn(cell[0])))
  }

  /** A row yields a Stock exactly when it carries all six attributes and
      its cell has a first child; the fields are copied from the attributes
      and the return is the cleaned cell text. The row attributes are read
      before the cell, so a missing attribute is reported as KeyError even
      when the cell is empty too. */
  lemma StockFromRowFields(row: Attrs, cell: Cell)
    ensures StockFromRow(row, cell).Ok? <==> HasStockAttributes(row) && |cell| >= 1
    ensures StockFromRow(row, cell).Err? ==>
      StockFromRow(row, cell).error == if HasStockAttributes(row) then IndexError else KeyError
    ensures StockFromRow(row, cell).Ok? ==>
      StockFromRow(row, cell).value == Stock(row["data-symbol"], row["data-ticker"], row["data-insttype"],
        row["data-price"], row["data-shares"], row["data-type"], CleanReturn(cell[0]))
  {
  }

  /** The map after the first `n` pairs of `zip(rows, cells)`: each Stock
      stored under its row's symbol, a later row overwriting an earlier
      one; the first failing pair aborts. */
  function Assemble(rows: seq<Attrs>, cells: seq<Cell>, n: nat): (r: Result<map<string, Stock>, PyError>)
    requires n <= |rows| && n <= |cells|
    ensures r.Ok? ==> forall k :: k in r.value ==> r.value[k].id == k
  {
    if n == 0 then Ok(map[])
    else
      match Assemble(rows, cells, n - 1)
      case Err(e) => Err(e)
      case Ok(stocks) =>
        match StockFromRow(rows[n - 1], cells[n - 1])
        case Err(e) => Err(e)
        case Ok(stock) => Ok(stocks[rows[n - 1]["data-symbol"] := stock])
  }

  /** How many row and cell pairs `zip` yields once the header row is gone. */
  function Paired(trs: seq<Attrs>, cells: seq<Cell>): nat
    requires |trs| >= 1
  {
    if |trs| - 1 <= |cells| then |trs| - 1 else |cells|
  }

  /** The result of `get_current_holdings` for the parsed rows and cells:
      `pop(0)` of an empty row list raises IndexError. */
  function Holdings(trs: seq<Attrs>, cells: seq<Cell>): (r: Result<map<string, Stock>, PyError>)
    ensures r.Ok? ==> |trs| >= 1 && forall k :: k in r.value ==> r.value[k].id == k
  {
    if |trs| == 0 then Err(IndexError) else Assemble(trs[1..], cells, Paired(trs, cells))
  }

  /** `get_current_holdings` on the parsed page: drop the header row, then
      fill the map pair by pair. */
  method CurrentHoldings(trs: seq<Attrs>, cells: seq<Cell>) returns (r: Result<map<string, Stock>, PyError>)
    ensures r == Holdings(trs, cells)
  {
    if |trs| == 0 {
      return Err(IndexError);
    }
    var rows := trs[1..];
    var n := if |rows| <= |cells| then |rows| else |cells|;
    assert n == Paired(trs, cells);
    var stocks: map<string, Stock> := map[];
    var i := 0;
    while i < n
      invariant i <= n
      invariant Assemble(rows, cells, i) == Ok(stocks)
    {
      var stock := StockFromRow(rows[i], cells[i]);
      AssembleStep(rows, cells, i, stocks);
      if stock.Err? {
        AssembleAbort(rows, cells, i + 1, n);
        return Err(stock.error);
      }
      stocks := stocks[stock.value.id := stock.value];
      i := i + 1;
    }
    return Ok(stocks);
  }

  /** One more pair: its failure aborts, its Stock is stored under its
      row's symbol. */
  lemma AssembleStep(rows: seq<Attrs>, cells: seq<Cell>, i: nat, stocks: map<string, Stock>)
    requires i < |rows| && i < |cells| && Assemble(rows, cells, i) == Ok(stocks)
    ensures StockFromRow(rows[i], cells[i]).Err? ==>
      Assemble(rows, cells, i + 1) == Err(StockFromRow(rows[i], cells[i]).error)
    ensures StockFromRow(rows[i], cells[i]).Ok? ==>
      Assemble(rows, cells, i + 1) == Ok(stocks[StockFromRow(rows[i], cells[i]).value.id := StockFromRow(rows[i], cells[i]).value])
  {
  }

  /** Once a pair fails, the whole assembly fails with that error. */
  lemma {:induction false} AssembleAbort(rows: seq<Attrs>, cells: seq<Cell>, m: nat, n: nat)
    requires m <= n <= |rows| && n <= |cells|
    requires Assemble(rows, cells, m).Err?
    ensures Assemble(rows, cells, n) == Assemble(rows, cells, m)
    decreases n - m
  {
    if m < n {
      AssembleAbort(rows, cells, m, n - 1);
    }
  }

  /** The assembly fails exactly when some pair fails, and then with the
      error of the first failing pair; pairs before it all succeed. */
  lemma AssembleFailure(rows: seq<Attrs>, cells: seq<Cell>, n: nat)
    requires n <= |rows| && n <= |cells|
    ensures Assemble(rows, cells, n).Err? <==>
      exists k :: 0 <= k < n && StockFromRow(rows[k], cells[k]).Err?
    ensures Assemble(rows, cells, n).Err? ==>
      exists k :: 0 <= k < n && StockFromRow(rows[k], cells[k]).Err?
        && Assemble(rows, cells, n).error == StockFromRow(rows[k], cells[k]).error
        && forall j :: 0 <= j < k ==> StockFromRow(rows[j], cells[j]).Ok?
  {
    AssembleFirstFailure(rows, cells, n);
    AssembleFailsAfter(rows, cells, n);
  }

  /** A failed assembly names the first failing pair. */
  lemma {:induction false} AssembleFirstFailure(rows: seq<Attrs>, cells: seq<Cell>, n: nat)
    requires n <= |rows| && n <= |cells|
    ensures Assemble(rows, cells, n).Err? ==>
      exists k :: 0 <= k < n && StockFromRow(rows[k], cells[k]).Err?
        && Assemble(rows, cells, n).error == StockFromRow(rows[k], cells[k]).error
        && forall j :: 0 <= j < k ==> StockFromRow(rows[j], cells[j]).Ok?
  {
    if n > 0 && Assemble(rows, cells, n).Err? {
      if Assemble(rows, cells, n - 1).Err? {
        AssembleFirstFailure(rows, cells, n - 1);
      } else {
        AssembleAllOk(rows, cells, n - 1);
      }
    }
  }

  /** A failing pair makes the assembly fail. */
  lemma {:induction false} AssembleFailsAfter(rows: seq<Attrs>, cells: seq<Cell>, n: nat)
    requires n <= |rows| && n <= |cells|
    ensures (exists k :: 0 <= k < n && StockFromRow(rows[k], cells[k]).Err?) ==> Assemble(rows, cells, n).Err?
  {
    if n > 0 && StockFromRow(rows[n - 1], cells[n - 1]).Ok? {
      AssembleFailsAfter(rows, cells, n - 1);
    }
  }

  /** The symbols carried by the first `n` rows. */
  function Symbols(rows: seq<Attrs>, n: nat): set<string>
    requires n <= |rows|
  {
    if n == 0 then {}
    else if "data-symbol" in rows[n - 1] then Symbols(rows, n - 1) + {rows[n - 1]["data-symbol"]}
    else Symbols(rows, n - 1)
  }

  lemma {:induction false} SymbolsWitness(rows: seq<Attrs>, n: nat, x: string)
    requires n <= |rows| && x in Symbols(rows, n)
    ensures exists k :: 0 <= k < n && "data-symbol" in rows[k] && rows[k]["data-symbol"] == x
  {
    if !("data-symbol" in rows[n - 1] && rows[n - 1]["data-symbol"] == x) {
      SymbolsWitness(rows, n - 1, x);
    }
  }

  /** On success every paired row yields a Stock. */
  lemma {:induction false} AssembleAllOk(rows: seq<Attrs>, cells: seq<Cell>, n: nat)
    requires n <= |rows| && n <= |cells|
    requires Assemble(rows, cells, n).Ok?
    ensures forall k :: 0 <= k < n ==> StockFromRow(rows[k], cells[k]).Ok?
  {
    if n > 0 {
      AssembleAllOk(rows, cells, n - 1);
    }
  }

  /** On success the keys are exactly the symbols of the paired rows. */
  lemma {:induction false} AssembleKeys(rows: seq<Attrs>, cells: seq<Cell>, n: nat)
    requires n <= |rows| && n <= |cells|
    requires Assemble(rows, cells, n).Ok?
    ensures Assemble(rows, cells, n).value.Keys == Symbols(rows, n)
  {
    if n > 0 {
      AssembleKeys(rows, cells, n - 1);
    }
  }

  /** `Symbols` as a set comprehension over the rows after a header. */
  lemma {:induction false} SymbolsAfterHeader(trs: seq<Attrs>, n: nat)
    requires n < |trs|
    ensures Symbols(trs[1..], n) == set i | 1 <= i <= n && "data-symbol" in trs[i] :: trs[i]["data-symbol"]
  {
    if n > 0 {
      SymbolsAfterHeader(trs, n - 1);
      assert trs[1..][n - 1] == trs[n];
      var before := set i | 1 <= i <= n - 1 && "data-symbol" in trs[i] :: trs[i]["data-symbol"];
      var after := set i | 1 <= i <= n && "data-symbol" in trs[i] :: trs[i]["data-symbol"];
      if "data-symbol" in trs[n] {
        assert after == before + {trs[n]["data-symbol"]};
      } else {
        assert after == before;
      }
    }
  }

  /** On success the value under a symbol is the Stock of the last paired
      row carrying that symbol. */
  lemma {:induction false} AssembleLastWins(rows: seq<Attrs>, cells: seq<Cell>, n: nat, k: nat)
    requires k < n <= |rows| && n <= |cells|
    requires Assemble(rows, cells, n).Ok?
    requires "data-symbol" in rows[k]
    requires forall j :: k < j < n ==> "data-symbol" !in rows[j] || rows[j]["data-symbol"] != rows[k]["data-symbol"]
    ensures rows[k]["data-symbol"] in Assemble(rows, cells, n).value
    ensures StockFromRow(rows[k], cells[k]).Ok?
    ensures Assemble(rows, cells, n).value[rows[k]["data-symbol"]] == StockFromRow(rows[k], cells[k]).value
  {
    if k < n - 1 {
      AssembleLastWins(rows, cells, n - 1, k);
    }
  }

  /** Rows with pairwise different symbols give one entry per pair. */
  lemma {:induction false} AssembleDistinctSize(rows: seq<Attrs>, cells: seq<Cell>, n: nat)
    requires n <= |rows| && n <= |cells|
    requires Assemble(rows, cells, n).Ok?
    requires forall i, j :: 0 <= i < j < n && "data-symbol" in rows[i] && "data-symbol" in rows[j] ==>
      rows[i]["data-symbol"] != rows[j]["data-symbol"]
    ensures |Assemble(rows, cells, n).value| == n
  {
    if n > 0 {
      AssembleDistinctSize(rows, cells, n - 1);
      AssembleKeys(rows, cells, n - 1);
      var before := Assemble(rows, cells, n - 1).value;
      if rows[n - 1]["data-symbol"] in before {
        SymbolsWitness(rows, n - 1, rows[n - 1]["data-symbol"]);
      }
    }
  }

  /** The failure cases of the holdings download: no rows at all, or some
      row after the header, among the first `Paired` of them, that does
      not yield a Stock with its gain cell; nothing is returned in part. */
  lemma HoldingsFailure(trs: seq<Attrs>, cells: seq<Cell>)
    ensures |trs| == 0 ==> Holdings(trs, cells) == Err(IndexError)
    ensures |trs| >= 1 ==>
      (Holdings(trs, cells).Err? <==>
        exists i :: 1 <= i <= Paired(trs, cells) && StockFromRow(trs[i], cells[i - 1]).Err?)
  {
    if |trs| >= 1 {
      var rows := trs[1..];
      var n := Paired(trs, cells);
      AssembleFailure(rows, cells, n);
      if Holdings(trs, cells).Err? {
        var k :| 0 <= k < n && StockFromRow(rows[k], cells[k]).Err?;
        assert rows[k] == trs[k + 1];
      }
      if exists i :: 1 <= i <= n && StockFromRow(trs[i], cells[i - 1]).Err? {
        var i :| 1 <= i <= n && StockFromRow(trs[i], cells[i - 1]).Err?;
        assert rows[i - 1] == trs[i];
      }
    }
  }

  /** On success every row after the header that has a gain cell carries
      all the Stock attributes and its cell has a first child, and the keys
      are exactly the symbols of those rows. */
  lemma HoldingsKeys(trs: seq<Attrs>, cells: seq<Cell>)
    requires Holdings(trs, cells).Ok?
    ensures |trs| >= 1
    ensures forall i :: 1 <= i <= Paired(trs, cells) ==> HasStockAttributes(trs[i]) && |cells[i - 1]| >= 1
    ensures Holdings(trs, cells).value.Keys ==
      set i | 1 <= i <= Paired(trs, cells) && "data-symbol" in trs[i] :: trs[i]["data-symbol"]
  {
    var rows := trs[1..];
    var n := Paired(trs, cells);
    AssembleAllOk(rows, cells, n);
    AssembleKeys(rows, cells, n);
    SymbolsAfterHeader(trs, n);
    forall i | 1 <= i <= n
      ensures HasStockAttributes(trs[i]) && |cells[i - 1]| >= 1
    {
      assert trs[i] == rows[i - 1];
      StockFromRowFields(trs[i], cells[i - 1]);
    }
  }

  /** On success a symbol holds the Stock of the last row that carries it:
      a later row with the same symbol overwrites an earlier one. */
  lemma HoldingsLastWins(trs: seq<Attrs>, cells: seq<Cell>, i: nat)
    requires Holdings(trs, cells).Ok?
    requires 1 <= i < |trs| && i <= Paired(trs, cells) && "data-symbol" in trs[i]
    requires forall j :: i < j <= Paired(trs, cells) && "data-symbol" in trs[j] ==>
      trs[j]["data-symbol"] != trs[i]["data-symbol"]
    ensures trs[i]["data-symbol"] in Holdings(trs, cells).value
    ensures StockFromRow(trs[i], cells[i - 1]).Ok?
    ensures Holdings(trs, cells).value[trs[i]["data-symbol"]] == StockFromRow(trs[i], cells[i - 1]).value
  {
    var rows := trs[1..];
    var n := Paired(trs, cells);
    forall j | i - 1 < j < n
      ensures "data-symbol" !in rows[j] || rows[j]["data-symbol"] != rows[i - 1]["data-symbol"]
    {
      assert rows[j] == trs[j + 1];
    }
    AssembleLastWins(rows, cells, n, i - 1);
  }

  /** Paired rows with pairwise different symbols give exactly one entry per
      pair. */
  lemma HoldingsSize(trs: seq<Attrs>, cells: seq<Cell>)
    requires Holdings(trs, cells).Ok?
    requires forall i, j :: 1 <= i < j <= Paired(trs, cells) && "data-symbol" in trs[i] && "data-symbol" in trs[j] ==>
      trs[i]["data-symbol"] != trs[j]["data-symbol"]
    ensures |Holdings(trs, cells).value| == Paired(trs, cells)
  {
    var rows := trs[1..];
    assert forall i :: 0 <= i < |rows| ==> rows[i] == trs[i + 1];
    AssembleDistinctSize(rows, cells, Paired(trs, cells));
  }

  /** The first row never contributes: whatever header the page has, the
      result is the same. */
  lemma HeaderIgnored(header1: Attrs, header2: Attrs, rows: seq<Attrs>, cells: seq<Cell>)
    ensures Holdings([header1] + rows, cells) == Holdings([header2] + rows, cells)
  {
    assert ([header1] + rows)[1..] == rows == ([header2] + rows)[1..];
  }
}
