/** The pagination arithmetic of the transaction history download: the
    total transaction count read from the pager link, the split of that
    total into full pages of ten and a remainder, and the page offsets the
    download loop requests. */
module Transactions {
  import opened Results
  import opened Text

  /** `int(href.split('&')[1].split('=')[1])`: the value of the second
      query field. */
  function CountFromHref(href: string): (r: Result<int, PyError>)
    ensures r.Err? ==> r.error == IndexError || r.error == ValueError
  {
    var fields := Split(href, '&');
    if |fields| < 2 then Err(IndexError)
    else
      var pair := Split(fields[1], '=');
      if |pair| < 2 then Err(IndexError) else ParseInt(pair[1])
  }

  /** The count read from the pager link: `None` when the page has no such
      link, otherwise its attributes. */
  function TotalCount(link: Option<Attrs>): (r: Result<int, PyError>)
    ensures link.None? ==> r == Err(TypeError)
    ensures link.Some? && "href" !in link.value ==> r == Err(KeyError)
    ensures link.Some? && "href" in link.value ==> r == CountFromHref(link.value["href"])
  {
    match link
    case None => Err(TypeError)
    case Some(tag) =>
      var href :- Attr(tag, "href");
      CountFromHref(href)
  }

  /** Extraction fails with IndexError exactly when the href has no second
      `&`-field or that field has no `=`; any other failure is `int()`
      rejecting the value. */
  lemma CountFromHrefFailure(href: string)
    ensures |Split(href, '&')| < 2 <==> Occurrences(href, '&') == 0
    ensures CountFromHref(href) == Err(IndexError) <==>
      (|Split(href, '&')| < 2 || Occurrences(Split(href, '&')[1], '=') == 0)
    ensures CountFromHref(href).Err? && CountFromHref(href) != Err(IndexError) ==>
      CountFromHref(href) == Err(ValueError)
  {
    SplitCount(href, '&');
    var fields := Split(href, '&');
    if |fields| >= 2 {
      SplitCount(fields[1], '=');
    }
  }

  /** For an href `a&k=v` or `a&k=v&rest`, the count is `int(v)`. */
  lemma CountFromSecondField(a: string, k: string, v: string, rest: string)
    requires '&' !in a && '&' !in k && '=' !in k && '&' !in v && '=' !in v
    requires rest == [] || rest[0] == '&'
    ensures CountFromHref(a + "&" + k + "=" + v + rest) == ParseInt(v)
  {
    var field := k + "=" + v;
    var href := a + "&" + k + "=" + v + rest;
    assert href == a + ['&'] + (field + rest);
    SplitAtFirst(a, field + rest, '&');
    assert '&' !in field;
    if rest == [] {
      assert field + rest == field;
      SplitWithoutSeparator(field, '&');
    } else {
      assert field + rest == field + ['&'] + rest[1..];
      SplitAtFirst(field, rest[1..], '&');
    }
    assert Split(href, '&')[1] == field;
    assert field == k + ['='] + v;
    SplitAtFirst(k, v, '=');
    SplitWithoutSeparator(v, '=');
  }

  /** `int(str(total)[0:-1]) * 10` when `total >= 10`, else 0: the part of
      the total covered by full pages of ten. */
  function Whole(total: int): (whole: int)
    ensures total >= 10 ==> whole == total / 10 * 10
    ensures total < 10 ==> whole == 0
  {
    if total >= 10 then
      var s := IntToString(total);
      DropLastDigit(total);
      ParseIntToString(total / 10);
      ParseInt(s[..|s| - 1]).value * 10
    else 0
  }

  /** For a non-negative total the remainder `total - whole` is its units
      digit; a larger multiple of ten would exceed the total. */
  lemma WholeIsLargestMultiple(total: int)
    ensures total >= 0 ==> Whole(total) % 10 == 0 && 0 <= Whole(total) <= total
    ensures total >= 0 ==> total < Whole(total) + 10
    ensures total >= 0 ==> 0 <= total - Whole(total) < 10 && total - Whole(total) == total % 10
    ensures total < 0 ==> total - Whole(total) == total
  {
  }

  /** Python's `range(start, stop, step)` for a positive step. */
  function Range(start: int, stop: int, step: nat): (r: seq<int>)
    requires step > 0
    ensures forall x :: x in r ==> start <= x < stop
    ensures r == [] <==> start >= stop
    decreases stop - start
  {
    if start >= stop then [] else [start] + Range(start + step, stop, step)
  }

  /** The k-th element of a range is `start + k * step`, every element is
      below `stop`, and the first step past the end reaches `stop`. */
  lemma {:induction false} RangeElements(start: int, stop: int, step: nat)
    requires step > 0
    ensures forall k :: 0 <= k < |Range(start, stop, step)| ==>
      Range(start, stop, step)[k] == start + k * step < stop
    ensures start + |Range(start, stop, step)| * step >= stop
    decreases stop - start
  {
    if start < stop {
      var r := Range(start, stop, step);
      var rest := Range(start + step, stop, step);
      RangeElements(start + step, stop, step);
      forall k | 1 <= k < |r|
        ensures r[k] == start + k * step
      {
        assert r[k] == rest[k - 1] == start + step + (k - 1) * step;
        assert step + (k - 1) * step == k * step;
      }
      assert |r| * step == step + |rest| * step;
    }
  }

  datatype Pages = Pages(total: int, whole: int, tail: int, offsets: seq<int>)

  /** One `Session.get` call for the page at `offset`, given `extra`
      positional arguments after the URL. `get(url, **kwargs)` takes the
      URL as its only positional argument, so any extra one raises
      TypeError before a request is sent; otherwise the page at `offset`
      is requested. */
  function SessionGet(offset: int, extra: nat): Result<int, PyError>
  {
    if extra == 0 then Ok(offset) else Err(TypeError)
  }

  /** The loop `for i in range(0, whole, 10)`, each turn requesting the
      page at offset `i` with `extra` positional arguments after the URL.
      A failing request aborts the loop; the fetched pages are discarded,
      so the model keeps only the offsets requested, in order. */
  method RequestPages(whole: int, extra: nat) returns (r: Result<seq<int>, PyError>)
    ensures r.Err? <==> whole > 0 && extra > 0
    ensures r.Err? ==> r.error == TypeError
    ensures r.Ok? ==> r.value == Range(0, whole, 10)
  {
    var offsets := [];
    var i := 0;
    while i < whole
      invariant i >= 0 && (extra > 0 ==> i == 0)
      invariant offsets + Range(i, whole, 10) == Range(0, whole, 10)
      decreases whole - i
    {
      var page := SessionGet(i, extra);
      if page.Err? {
        return Err(page.error);
      }
      assert Range(i, whole, 10) == [i] + Range(i + 10, whole, 10);
      assert (offsets + [i]) + Range(i + 10, whole, 10) == offsets + ([i] + Range(i + 10, whole, 10));
      offsets := offsets + [page.value];
      i := i + 10;
    }
    return Ok(offsets);
  }

  /** The pagination of `get_transaction_history` with the page request
      passing the cookie jar as `cookies=`, as the first request of the
      function does: read the total, split it into full pages and a
      remainder, and request the page at every offset of
      `range(0, whole, 10)`. */
  method TransactionHistory(link: Option<Attrs>) returns (r: Result<Pages, PyError>)
    ensures r.Err? <==> TotalCount(link).Err?
    ensures r.Err? ==> r.error == TotalCount(link).error
    ensures r.Ok? ==>
      var total := TotalCount(link).value;
      r.value == Pages(total, Whole(total), total - Whole(total), Range(0, Whole(total), 10))
  {
    var count := TotalCount(link);
    if count.Err? {
      return Err(count.error);
    }
    var total := count.value;
    var whole := Whole(total);
    var tail := total - whole;
    var requested := RequestPages(whole, 0);
    return Ok(Pages(total, whole, tail, requested.value));
  }

  /** The pagination as written: the page request passes the cookie jar
      as a second positional argument, so a total of ten or more raises
      TypeError on the first turn of the loop, before any page is
      requested; below ten the loop does not run. */
  method TransactionHistoryAsWritten(link: Option<Attrs>) returns (r: Result<Pages, PyError>)
    ensures TotalCount(link).Err? ==> r == Err(TotalCount(link).error)
    ensures TotalCount(link).Ok? ==> (r.Err? <==> TotalCount(link).value >= 10)
    ensures TotalCount(link).Ok? && r.Err? ==> r.error == TypeError
    ensures r.Ok? ==> r.value == Pages(TotalCount(link).value, 0, TotalCount(link).value, [])
  {
    var count := TotalCount(link);
    if count.Err? {
      return Err(count.error);
    }
    var total := count.value;
    var whole := Whole(total);
    var tail := total - whole;
    var requested := RequestPages(whole, 1);
    if requested.Err? {
      return Err(requested.error);
    }
    return Ok(Pages(total, whole, tail, requested.value));
  }

  /** A pager link whose href is `p&n=37` announces 37 transactions. */
  lemma PagerLinkExample()
    ensures TotalCount(Some(map["href" := "p&n=37"])) == Ok(37)
  {
    var href := "p&n=37";
    calc {
      TotalCount(Some(map["href" := href]));
      CountFromHref(href);
      { assert "p" + "&" + "n" + "=" + "37" + "" == href;
        CountFromSecondField("p", "n", "37", ""); }
      ParseInt("37");
      { BareDigits("37"); }
      Ok(37);
    }
  }

  /** The offsets requested for a total: `whole / 10` of them, the k-th
      being `10 * k`, strictly increasing and below `whole`; none below ten
      transactions and only offset 0 for ten to nineteen. */
  lemma PageOffsets(total: int)
    ensures var offsets := Range(0, Whole(total), 10);
      && |offsets| == Whole(total) / 10
      && (forall k :: 0 <= k < |offsets| ==> offsets[k] == 10 * k && offsets[k] < Whole(total))
      && (forall j, k :: 0 <= j < k < |offsets| ==> offsets[j] < offsets[k])
    ensures total >= 0 ==> |Range(0, Whole(total), 10)| == total / 10
    ensures total < 10 ==> Range(0, Whole(total), 10) == []
    ensures 10 <= total < 20 ==> Range(0, Whole(total), 10) == [0]
  {
    var whole := Whole(total);
    var offsets := Range(0, whole, 10);
    RangeElements(0, whole, 10);
    if |offsets| > 0 {
      assert offsets[|offsets| - 1] == 10 * (|offsets| - 1) < whole;
    }
    if 10 <= total < 20 {
      assert Range(10, 10, 10) == [];
    }
  }

  /** The page arithmetic of three totals, including the three-digit
      boundary where `str(100)[0:-1]` is `"10"`. */
  lemma PaginationExamples()
    ensures Whole(37) == 30 && 37 - Whole(37) == 7 && Range(0, Whole(37), 10) == [0, 10, 20]
    ensures Whole(7) == 0 && 7 - Whole(7) == 7 && Range(0, Whole(7), 10) == []
    ensures Whole(100) == 100 && 100 - Whole(100) == 0
  {
    assert Range(30, 30, 10) == [];
    assert Range(20, 30, 10) == [20];
    assert Range(10, 30, 10) == [10, 20];
  }
}
