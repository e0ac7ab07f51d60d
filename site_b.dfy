/** `getKakakuPrice`: one GET, then the text of the first element of class
    `priceTxt`, written like `¥10,000`, read as an integer. */
module SiteB {
  import opened Js
  import opened WebModel

  /** `parseInt(price_str.replace(",", "").slice(1))`: the first comma is
      removed, then the first character (the yen sign) is dropped. */
  function ReadYen(priceText: string): Number
  {
    ParseInt(DropFirst(RemoveFirstComma(priceText)))
  }

  /** The extraction that follows the GET, on the document JSDOM builds
      from the response body. */
  function ExtractYen(page: Page): PriceResult
  {
    if page.priceTexts == [] then Error(PRICE_TEXT_NOT_FOUND)
    else match page.priceTexts[0]
      case None => Error(PRICE_TEXT_NOT_FOUND)
      case Some(text) => Price(ReadYen(text))
  }

  /** `getKakakuPrice(url)`: a URL that `new URL` rejects and a GET that
      throws end in the catch block; the status of a response is not
      looked at. */
  function KakakuPrice(web: Web, url: string): PriceResult
  {
    if !web.parsesAsUrl(url) then Error(UNEXPECTED_ERROR)
    else match web.get(url, 0)
      case Thrown => Error(UNEXPECTED_ERROR)
      case Response(_, page) => ExtractYen(page)
  }

  // ---- properties ---------------------------------------------------------

  /** The getter fails exactly when the URL is rejected, the GET throws, or
      the document has no `priceTxt` element or a first one without text,
      each with its own message. */
  lemma KakakuPriceErrors(web: Web, url: string)
    ensures KakakuPrice(web, url).Error? <==>
      || !web.parsesAsUrl(url)
      || web.get(url, 0).Thrown?
      || web.get(url, 0).data.priceTexts == []
      || web.get(url, 0).data.priceTexts[0].None?
    ensures KakakuPrice(web, url).Error? ==>
      KakakuPrice(web, url).message ==
        (if !web.parsesAsUrl(url) || web.get(url, 0).Thrown? then UNEXPECTED_ERROR else PRICE_TEXT_NOT_FOUND)
    ensures KakakuPrice(web, url).Price? ==>
      KakakuPrice(web, url).value == ReadYen(web.get(url, 0).data.priceTexts[0].value)
  {
  }

  /** Only the first `priceTxt` element is read, and the status code of
      the response plays no part: a 404 page with a price reads the
      same. */
  lemma KakakuIgnoresStatus(web: Web, url: string, other: nat)
    requires web.parsesAsUrl(url) && web.get(url, 0).Response?
    ensures var page := web.get(url, 0).data;
      KakakuPrice(Web(web.parsesAsUrl, (u: string, n: nat) => if u == url && n == 0 then Response(other, page) else web.get(u, n)), url)
      == KakakuPrice(web, url)
  {
  }

  /** A sign, digits, one comma, more digits and then text that does not
      start with a digit: the digits on both sides of the comma are read,
      up to that text. */
  lemma ReadYenGrouped(sign: char, x: string, y: string, tail: string, n: nat)
    requires sign != ','
    requires x + y == NatToString(n)
    requires tail == [] || tail[0] == ','
    ensures ReadYen([sign] + x + "," + (y + tail)) == Finite(n as real)
  {
    NoCommaInDigits(x, y, n);
    RemoveFirstCommaAfterSign(sign, x, y + tail);
    ReadYenAfterSign([sign] + x + "," + (y + tail), sign, x + (y + tail));
    DigitsThenTail(x, y, tail, n);
  }

  /** The digits with the comma removed, then whatever followed them. */
  lemma DigitsThenTail(x: string, y: string, tail: string, n: nat)
    requires x + y == NatToString(n)
    requires tail == [] || tail[0] == ','
    ensures ParseInt(x + (y + tail)) == Finite(n as real)
  {
    assert x + (y + tail) == NatToString(n) + tail;
    ParseIntOfNatToString(n, tail);
  }

  /** Once the comma is gone, the sign is dropped and `parseInt` reads the
      rest. */
  lemma ReadYenAfterSign(t: string, sign: char, rest: string)
    requires RemoveFirstComma(t) == [sign] + rest
    ensures ReadYen(t) == ParseInt(rest)
  {
    assert DropFirst([sign] + rest) == rest;
  }

  /** A sign followed by digits with one thousands separator reads as the
      number the digits spell. */
  lemma ReadYenOneSeparator(sign: char, x: string, y: string, n: nat)
    requires sign != ','
    requires x + y == NatToString(n)
    ensures ReadYen([sign] + x + "," + y) == Finite(n as real)
  {
    ReadYenGrouped(sign, x, y, [], n);
    assert y + [] == y;
  }

  /** With a second separator, `replace` has already removed the only comma
      it removes: reading stops at the second one, so `¥1,000,000` reads as
      1000. */
  lemma ReadYenTwoSeparators(sign: char, x: string, y: string, z: string, n: nat)
    requires sign != ','
    requires x + y == NatToString(n)
    ensures ReadYen([sign] + x + "," + y + "," + z) == Finite(n as real)
  {
    var tail := "," + z;
    ReadYenGrouped(sign, x, y, tail, n);
    var w := [sign] + x + ",";
    Associative(w + y, ",", z);
    Associative(w, y, tail);
  }

  /** `¥10,000` reads as 10000. */
  lemma TenThousandYen(yen: char, ten: string, thousand: string)
    requires yen == '\U{00A5}' && ten == "10" && thousand == "000"
    ensures ReadYen([yen] + ten + "," + thousand) == Finite(10000.0)
  {
    assert NatToString(10) == ten;
    assert NatToString(10000) == NatToString(10) + thousand;
    ReadYenOneSeparator(yen, ten, thousand, 10000);
  }

  /** `¥1,000,000` reads as 1000. */
  lemma MillionYen(yen: char, one: string, thousand: string)
    requires yen == '\U{00A5}' && one == "1" && thousand == "000"
    ensures ReadYen([yen] + one + "," + thousand + "," + thousand) == Finite(1000.0)
  {
    assert NatToString(1) == one;
    assert NatToString(1000) == NatToString(1) + thousand;
    ReadYenTwoSeparators(yen, one, thousand, thousand, 1000);
  }

  lemma Associative(a: string, b: string, c: string)
    ensures a + b + c == a + (b + c)
  {
  }

  /** Decimal digits hold no comma. */
  lemma NoCommaInDigits(x: string, y: string, n: nat)
    requires x + y == NatToString(n)
    ensures ',' !in x
  {
    forall k | 0 <= k < |x| ensures x[k] != ',' {
      assert x[k] == (x + y)[k];
    }
  }

  /** `replace(",", "")` behind a character that is not a comma. */
  lemma RemoveFirstCommaAfterSign(sign: char, x: string, y: string)
    requires sign != ',' && ',' !in x
    ensures RemoveFirstComma([sign] + x + "," + y) == [sign] + (x + y)
  {
    var w := [sign] + x + "," + y;
    assert w[0] == sign;
    assert w[1..] == x + "," + y;
    RemoveFirstCommaSplit(x, y);
  }

  /** A first `priceTxt` element whose text is only the yen sign reads as
      NaN, and the getter returns that NaN as a price, not an `Error`. */
  lemma SignOnlyIsNaN(web: Web, url: string, yen: char)
    requires web.parsesAsUrl(url) && web.get(url, 0).Response?
    requires web.get(url, 0).data.priceTexts != [] && web.get(url, 0).data.priceTexts[0] == Some([yen])
    requires yen != ','
    ensures KakakuPrice(web, url) == Price(NaN)
  {
    assert RemoveFirstComma([yen]) == [yen];
    assert DropFirst([yen]) == [];
  }
}
