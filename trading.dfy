/** The decisions of the two trading calls: how a stock search response is
    classified, and how a sell order is built and its response read. */
module Trading {
  import opened Results
  import opened Text

  /** A successful search: the full-precision price and the security id
      from the result chip, and the server time (already converted). */
  datatype Quote = Quote(price: string, symbol: string, time: string)

  /** Why a search failed. `stock_search` returns 1 for both and tells
      them apart only in the message it logs. */
  datatype SearchFailure = InvalidGame | UnknownError {
    function Code(): int { 1 }

    function LogMessage(): string
    {
      if InvalidGame? then "Invalid game." else "Unknown error."
    }
  }

  /** The `try` block of `stock_search`: subscripting the chip element,
      which is None when the page has none. */
  function ReadChip(chip: Option<Attrs>, time: string): (r: Result<Quote, PyError>)
    ensures r.Err? ==> r.error == TypeError || r.error == KeyError
  {
    match chip
    case None => Err(TypeError)
    case Some(tag) =>
      var price :- Attr(tag, "data-price");
      var symbol :- Attr(tag, "data-symbol");
      Ok(Quote(price, symbol, time))
  }

  /** `stock_search` after the request: the `except TypeError` branch is the
      missing chip, the `except KeyError` branch a chip without one of the
      attributes; otherwise the price and symbol come from the chip. */
  function StockSearch(chip: Option<Attrs>, time: string): (r: Result<Quote, SearchFailure>)
    ensures chip.None? ==> r == Err(InvalidGame)
    ensures chip.Some? ==> (r.Ok? <==> "data-price" in chip.value && "data-symbol" in chip.value)
    ensures chip.Some? && r.Err? ==> r == Err(UnknownError)
    ensures r.Ok? ==> chip.Some? && r.value == Quote(chip.value["data-price"], chip.value["data-symbol"], time)
    ensures r.Err? ==> r.error.Code() == 1
  {
    match ReadChip(chip, time)
    case Ok(quote) => Ok(quote)
    case Err(e) => if e == TypeError then Err(InvalidGame) else Err(UnknownError)
  }

  /** A decoded JSON value. */
  datatype Json =
    | JNull
    | JBool(b: bool)
    | JInt(i: int)
    | JString(s: string)
    | JArray(items: seq<Json>)
    | JObject(fields: map<string, Json>)

  /** One element of the order payload. */
  datatype Order = Order(fuid: string, shares: string, orderType: string)

  /** The sell payload: a one-element list holding the security id, the
      share amount as `str(amt)` and the order type. */
  function SellPayload(id: string, amt: int): (payload: seq<Order>)
    ensures |payload| == 1
    ensures payload[0].fuid == id && payload[0].orderType == "Sell"
    ensures ParseInt(payload[0].shares) == Ok(amt)
  {
    ParseIntToString(amt);
    [Order(id, IntToString(amt), "Sell")]
  }

  /** Python's `v == True` on a decoded JSON value: true for `true`, and for
      the integer 1, which Python treats as equal to True. */
  predicate EqualsTrue(v: Json)
    ensures EqualsTrue(v) ==> v.JBool? || v.JInt?
  {
    v == JBool(true) || v == JInt(1)
  }

  /** `sell_stock` after the request, on the decoded response: 0 when
      `succeeded` equals True and 1 otherwise. Both branches log
      `resp['message']`, so a response without it raises KeyError; a
      response that is not an object cannot be subscripted by a string. */
  function SellStock(resp: Json): (r: Result<int, PyError>)
    ensures !resp.JObject? ==> r == Err(TypeError)
    ensures resp.JObject? ==>
      (r.Ok? <==> "succeeded" in resp.fields && "message" in resp.fields)
    ensures resp.JObject? && r.Err? ==> r.error == KeyError
    ensures r.Ok? ==> (r.value == 0 || r.value == 1)
    ensures r.Ok? ==> (r.value == 0 <==> EqualsTrue(resp.fields["succeeded"]))
  {
    match resp
    case JObject(fields) =>
      if "succeeded" !in fields then Err(KeyError)
      else if "message" !in fields then Err(KeyError)
      else if EqualsTrue(fields["succeeded"]) then Ok(0)
      else Ok(1)
    case _ => Err(TypeError)
  }

  /** A few server responses and the code each yields. */
  lemma SellStockExamples()
    ensures SellStock(JObject(map["succeeded" := JBool(true), "message" := JString("ok")])) == Ok(0)
    ensures SellStock(JObject(map["succeeded" := JBool(false), "message" := JString("insufficient shares")])) == Ok(1)
    ensures SellStock(JObject(map["succeeded" := JInt(1), "message" := JString("ok")])) == Ok(0)
    ensures SellStock(JObject(map["succeeded" := JString("true"), "message" := JString("ok")])) == Ok(1)
    ensures SellStock(JObject(map["succeeded" := JBool(true)])) == Err(KeyError)
  {
  }
}
