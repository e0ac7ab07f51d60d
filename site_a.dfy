/** `getAmazonPrice`: up to three GETs, then the `$`-price scan of the
    body text and the sum of the third and fourth prices found. */
module SiteA {
  import opened Js
  import opened DollarScan
  import opened WebModel

  /** The number of GETs the retry loop may issue. */
  const ATTEMPTS: nat := 3

  /** The loop's success test, `res.status.toString().startsWith("2")`. */
  predicate IsSuccess(status: nat) { StartsWith(NatToString(status), "2") }

  /** The outcome of the retry loop: whether a GET threw, the data of the
      first successful response if there was one, and the number of GETs
      issued. */
  datatype Fetch = Fetch(threw: bool, data: Option<Page>, gets: nat)

  /** The retry loop from attempt `i` on. */
  function FetchFrom(web: Web, url: string, i: nat): Fetch
    requires i <= ATTEMPTS
    decreases ATTEMPTS - i
  {
    if i == ATTEMPTS then Fetch(false, None, i)
    else match web.get(url, i)
      case Thrown => Fetch(true, None, i + 1)
      case Response(status, page) =>
        if IsSuccess(status) then Fetch(false, Some(page), i + 1) else FetchFrom(web, url, i + 1)
  }

  /** The retry loop: one GET per round, leaving the loop at the first
      response whose status passes the test. */
  method FetchWithRetry(web: Web, url: string) returns (f: Fetch)
    ensures f == FetchFrom(web, url, 0)
  {
    var data: Option<Page> := None;
    var i := 0;
    while i < ATTEMPTS
      invariant 0 <= i <= ATTEMPTS
      invariant FetchFrom(web, url, i) == FetchFrom(web, url, 0)
    {
      var res := web.get(url, i);
      if res.Thrown? {
        return Fetch(true, None, i + 1);
      }
      if IsSuccess(res.status) {
        data := Some(res.data);
        i := i + 1;
        return Fetch(false, data, i);
      }
      i := i + 1;
    }
    f := Fetch(false, data, i);
  }

  /** The sum `reduce((sum, element) => sum + element, 0)` of the prices
      `parseFloat(price.slice(1))`, added from left to right. */
  function Total(prices: seq<string>): Number
  {
    if prices == [] then Finite(0.0)
    else Add(Total(prices[..|prices| - 1]), ParseFloat(DropFirst(prices[|prices| - 1])))
  }

  /** `pricesWith$.slice(2, 4)`: JavaScript clamps both ends to the length. */
  function ThirdAndFourth(prices: seq<string>): (r: seq<string>)
    ensures |prices| <= 2 ==> r == []
    ensures |prices| == 3 ==> r == [prices[2]]
    ensures |prices| >= 4 ==> r == [prices[2], prices[3]]
  {
    var lo := if |prices| < 2 then |prices| else 2;
    var hi := if |prices| < 4 then |prices| else 4;
    prices[lo..hi]
  }

  /** The extraction that follows the loop, on the document JSDOM builds. */
  function ExtractPrice(page: Page): PriceResult
  {
    match page.bodyText
    case None => Error(BODY_TEXT_MISSING)
    case Some(text) =>
      if text == "" then Error(BODY_TEXT_MISSING)
      else
        var prices := Matches(text);
        if prices == [] then Error(PRICES_NOT_FOUND)
        else Price(Total(ThirdAndFourth(prices)))
  }

  /** `getAmazonPrice(url)`: a URL that `new URL` rejects and a GET that
      throws both end in the catch block; without a successful response
      the extraction runs on the empty document. */
  function AmazonPrice(web: Web, url: string): PriceResult
  {
    if !web.parsesAsUrl(url) then Error(UNEXPECTED_ERROR)
    else
      var f := FetchFrom(web, url, 0);
      if f.threw then Error(UNEXPECTED_ERROR) else ExtractPrice(f.data.GetOr(EmptyPage))
  }

  method GetAmazonPrice(web: Web, url: string) returns (r: PriceResult)
    ensures r == AmazonPrice(web, url)
  {
    if !web.parsesAsUrl(url) {
      return Error(UNEXPECTED_ERROR);
    }
    var f := FetchWithRetry(web, url);
    if f.threw {
      return Error(UNEXPECTED_ERROR);
    }
    var page := if f.data.Some? then f.data.value else EmptyPage;
    r := ExtractPrice(page);
  }

  // ---- properties ---------------------------------------------------------

  /** The retry loop issues between one and three GETs; every GET before the
      last returned a response that failed the status test; it keeps the
      data of the last response exactly when that response passed the test;
      and it ends without data only after three failed responses or a GET
      that threw. */
  lemma {:induction false} FetchFromSpec(web: Web, url: string, i: nat)
    requires i < ATTEMPTS
    ensures var f := FetchFrom(web, url, i);
      && i + 1 <= f.gets <= ATTEMPTS
      && (forall k :: i <= k < f.gets - 1 ==> web.get(url, k).Response? && !IsSuccess(web.get(url, k).status))
      && (f.threw <==> web.get(url, f.gets - 1).Thrown?)
      && (f.data.Some? <==> web.get(url, f.gets - 1).Response? && IsSuccess(web.get(url, f.gets - 1).status))
      && (f.data.Some? ==> f.data.value == web.get(url, f.gets - 1).data)
      && (f.data.None? && !f.threw ==> f.gets == ATTEMPTS)
    decreases ATTEMPTS - i
  {
    match web.get(url, i)
    case Thrown =>
    case Response(status, page) =>
      if !IsSuccess(status) && i + 1 < ATTEMPTS {
        FetchFromSpec(web, url, i + 1);
      }
  }

  /** The value of one scanned price: `parseFloat` of what follows the `$`,
      which is finite for every string the scanner returns. */
  function PriceValue(price: string): (v: real)
    ensures |price| >= 2 && IsDigit(price[1]) ==> ParseFloat(DropFirst(price)) == Finite(v) && v >= 0.0
  {
    var n := ParseFloat(DropFirst(price));
    if n.Finite? then n.value else 0.0
  }

  /** Every price the scanner returns reads as a finite number. */
  lemma MatchedPriceValue(text: string, k: nat)
    requires k < |Matches(text)|
    ensures ParseFloat(DropFirst(Matches(text)[k])) == Finite(PriceValue(Matches(text)[k]))
  {
    MatchesShape(text);
    var price := Matches(text)[k];
    assert |price| >= 2 && IsDigit(price[1]);
  }

  /** The sum of one price, and of two, starting from 0. */
  lemma TotalOfOneOrTwo(a: string, b: string)
    ensures Total([a]) == Add(Finite(0.0), ParseFloat(DropFirst(a)))
    ensures Total([a, b]) == Add(Total([a]), ParseFloat(DropFirst(b)))
  {
    assert [a][..0] == [];
    assert [a, b][..1] == [a];
  }

  /** The extraction fails exactly when the body text is missing or empty
      or holds no `$` price, with the message that says which. */
  lemma ExtractPriceErrors(page: Page)
    ensures ExtractPrice(page).Error? <==>
      page.bodyText.None? || page.bodyText.value == "" || Matches(page.bodyText.value) == []
    ensures ExtractPrice(page).Error? ==>
      ExtractPrice(page).message == (if page.bodyText.None? || page.bodyText.value == "" then BODY_TEXT_MISSING else PRICES_NOT_FOUND)
  {
  }

  /** The total of the third and fourth of some prices that all read as
      finite numbers. */
  lemma TotalOfThirdAndFourth(prices: seq<string>)
    requires forall k :: 0 <= k < |prices| ==> ParseFloat(DropFirst(prices[k])) == Finite(PriceValue(prices[k]))
    ensures |prices| <= 2 ==> Total(ThirdAndFourth(prices)) == Finite(0.0)
    ensures |prices| == 3 ==> Total(ThirdAndFourth(prices)) == Finite(PriceValue(prices[2]))
    ensures |prices| >= 4 ==> Total(ThirdAndFourth(prices)) == Finite(PriceValue(prices[2]) + PriceValue(prices[3]))
  {
    if |prices| == 3 {
      TotalOfOneOrTwo(prices[2], "");
    } else if |prices| >= 4 {
      TotalOfOneOrTwo(prices[2], prices[3]);
    }
  }

  /** Otherwise the extraction totals the third and fourth prices, so one
      or two prices give 0, and every price it returns is a finite,
      non-negative number. */
  lemma ExtractPriceTotals(text: string)
    requires text != ""
    ensures var prices := Matches(text);
      && (1 <= |prices| <= 2 ==> ExtractPrice(Page(Some(text), [])) == Price(Finite(0.0)))
      && (|prices| == 3 ==> ExtractPrice(Page(Some(text), [])) == Price(Finite(PriceValue(prices[2]))))
      && (|prices| >= 4 ==> ExtractPrice(Page(Some(text), [])) == Price(Finite(PriceValue(prices[2]) + PriceValue(prices[3]))))
    ensures ExtractPrice(Page(Some(text), [])).Price? ==>
      ExtractPrice(Page(Some(text), [])).value.Finite? && ExtractPrice(Page(Some(text), [])).value.value >= 0.0
  {
    if Matches(text) != [] {
      ExtractPriceIsTotal(text);
      TotalOfMatches(text);
    }
  }

  /** The total of the third and fourth `$` tokens of a body. */
  lemma TotalOfMatches(text: string)
    ensures var prices := Matches(text);
      && (|prices| <= 2 ==> Total(ThirdAndFourth(prices)) == Finite(0.0))
      && (|prices| == 3 ==> Total(ThirdAndFourth(prices)) == Finite(PriceValue(prices[2])))
      && (|prices| >= 4 ==> Total(ThirdAndFourth(prices)) == Finite(PriceValue(prices[2]) + PriceValue(prices[3])))
      && Total(ThirdAndFourth(prices)).Finite? && Total(ThirdAndFourth(prices)).value >= 0.0
  {
    var prices := Matches(text);
    MatchesReadAsPrices(text);
    TotalOfThirdAndFourth(prices);
    if |prices| >= 3 {
      assert PriceValue(prices[2]) >= 0.0;
    }
    if |prices| >= 4 {
      assert PriceValue(prices[3]) >= 0.0;
    }
  }

  /** Every `$` token of the body reads as its price value. */
  lemma MatchesReadAsPrices(text: string)
    ensures forall k :: 0 <= k < |Matches(text)| ==>
      ParseFloat(DropFirst(Matches(text)[k])) == Finite(PriceValue(Matches(text)[k]))
  {
    forall k | 0 <= k < |Matches(text)|
      ensures ParseFloat(DropFirst(Matches(text)[k])) == Finite(PriceValue(Matches(text)[k]))
    {
      MatchedPriceValue(text, k);
    }
  }

  /** A body with some `$` token is totalled. */
  lemma ExtractPriceIsTotal(text: string)
    requires text != "" && Matches(text) != []
    ensures ExtractPrice(Page(Some(text), [])) == Price(Total(ThirdAndFourth(Matches(text))))
  {
  }

  /** Three responses that all fail the status test leave the data
      undefined, and the extraction then fails on the empty document. */
  lemma ThreeFailedResponses(web: Web, url: string)
    requires web.parsesAsUrl(url)
    requires forall k :: 0 <= k < ATTEMPTS ==> web.get(url, k).Response? && !IsSuccess(web.get(url, k).status)
    ensures FetchFrom(web, url, 0) == Fetch(false, None, ATTEMPTS)
    ensures AmazonPrice(web, url) == Error(BODY_TEXT_MISSING)
  {
    assert web.get(url, 0).Response? && web.get(url, 1).Response? && web.get(url, 2).Response?;
  }

  /** `parseFloat` of a whole number of dollars written with two zero
      decimals. */
  lemma ParseFloatOfWholeDollars(whole: string)
    requires whole != [] && AllDigits(whole)
    ensures ParseFloat(whole + ".00") == Finite(RadixValue(whole, 10) as real)
  {
    var s := whole + ".00";
    LeadingDigitsOfDigits(whole, ".00");
    assert s[|whole|..] == ".00";
    assert LeadingDigits("00", 10) == "00";
    assert FractionValue("00") == 0.0;
  }

  /** The positional pattern of the marketplace page, `[P, T, P, AGS,
      EIFD, T]` (price, total, price, shipping, import fees deposit,
      total): the result is the effective cost, the price (the third
      token, the same as the first) plus the shipping. On the page
      `$12.00 $50.00 $12.00 $5.00 $3.00 $50.00` that is 17. */
  lemma ListingPageExample(tokens: seq<string>)
    requires tokens == ["$12.00", "$50.00", "$12.00", "$5.00", "$3.00", "$50.00"]
    ensures ExtractPrice(Page(Some(SpaceJoined(tokens)), [])) == Price(Finite(17.0))
  {
    ExampleTokens(tokens);
    ExtractPriceOfTokens(tokens);
    PriceValueOfExamples(tokens[2], tokens[3]);
  }

  /** Every token of the example page is a price token. */
  lemma ExampleTokens(tokens: seq<string>)
    requires tokens == ["$12.00", "$50.00", "$12.00", "$5.00", "$3.00", "$50.00"]
    ensures forall k :: 0 <= k < |tokens| ==> IsPriceToken(tokens[k])
  {
    assert IsPriceToken(tokens[0]) && IsPriceToken(tokens[1]) && IsPriceToken(tokens[2]);
    assert IsPriceToken(tokens[3]) && IsPriceToken(tokens[4]) && IsPriceToken(tokens[5]);
  }

  /** The same for every page of that layout. The layout's repetitions
      (`tokens[2] == tokens[0]`, `tokens[5] == tokens[1]`) describe the
      page and play no part in the proof: any six price tokens give the
      third plus the fourth. */
  lemma ListingPagePattern(tokens: seq<string>)
    requires |tokens| == 6 && forall k :: 0 <= k < 6 ==> IsPriceToken(tokens[k])
    requires tokens[2] == tokens[0] && tokens[5] == tokens[1]
    ensures ExtractPrice(Page(Some(SpaceJoined(tokens)), []))
      == Price(Finite(PriceValue(tokens[2]) + PriceValue(tokens[3])))
  {
    ExtractPriceOfTokens(tokens);
  }

  /** A body of four or more price tokens gives the sum of the third and
      the fourth. */
  lemma ExtractPriceOfTokens(tokens: seq<string>)
    requires |tokens| >= 4 && forall k :: 0 <= k < |tokens| ==> IsPriceToken(tokens[k])
    ensures ExtractPrice(Page(Some(SpaceJoined(tokens)), [])) == Price(Finite(PriceValue(tokens[2]) + PriceValue(tokens[3])))
  {
    var text := SpaceJoined(tokens);
    MatchesOfSpaceJoined(tokens);
    ExtractPriceOfPrices(text, tokens);
    forall k | 0 <= k < |tokens| ensures ParseFloat(DropFirst(tokens[k])) == Finite(PriceValue(tokens[k])) {
      assert |tokens[k]| >= 2 && IsDigit(tokens[k][1]);
    }
    TotalOfThirdAndFourth(tokens);
  }

  /** The extraction on a body whose `$` tokens are `prices`. */
  lemma ExtractPriceOfPrices(text: string, prices: seq<string>)
    requires Matches(text) == prices && prices != []
    ensures ExtractPrice(Page(Some(text), [])) == Price(Total(ThirdAndFourth(prices)))
  {
  }

  /** With the page's own figures, 12.00 and 5.00, that is 17. */
  lemma PriceValueOfExamples(twelve: string, five: string)
    requires twelve == "$12.00" && five == "$5.00"
    ensures PriceValue(twelve) == 12.0 && PriceValue(five) == 5.0
    ensures PriceValue(twelve) + PriceValue(five) == 17.0
  {
    DollarsValue(twelve, "12", 12);
    DollarsValue(five, "5", 5);
  }

  /** `parseFloat(price.slice(1))` of a price of whole dollars with two
      zero decimals. */
  lemma DollarsValue(price: string, whole: string, dollars: nat)
    requires whole != [] && AllDigits(whole) && RadixValue(whole, 10) == dollars
    requires price == "$" + whole + ".00"
    ensures PriceValue(price) == dollars as real
  {
    assert DropFirst(price) == whole + ".00";
    ParseFloatOfWholeDollars(whole);
  }
}
