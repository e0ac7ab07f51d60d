/** What the price getters see of the outside world. An HTTP GET either
    throws (a network error, or axios rejecting the response) or yields a
    status code and a document. A document is given by what the getters
    read of the DOM that JSDOM builds from the response body: the text
    content of `document.body`, and the text content of every element of
    class `priceTxt`, in document order. */
module WebModel {
  import opened Js

  datatype Page = Page(bodyText: Option<string>, priceTexts: seq<Option<string>>)

  /** The document JSDOM builds when the body is `undefined`: an empty
      body, whose text content is the empty string. */
  const EmptyPage: Page := Page(Some(""), [])

  datatype Reply = Thrown | Response(status: nat, data: Page)

  /** The world as one refresh cycle meets it: whether `new URL(url)`
      accepts a string, and the reply to the `n`-th GET (from 0) that one
      getter call issues for a URL. */
  datatype Web = Web(parsesAsUrl: string -> bool, get: (string, nat) -> Reply)

  /** What a getter returns: an `Error` object or a price. */
  datatype PriceResult = Error(message: string) | Price(value: Number)

  const BODY_TEXT_MISSING: string := "Body text content was null or undefined"
  const PRICES_NOT_FOUND: string := "Prices was not found"
  const PRICE_TEXT_NOT_FOUND: string := "Price text was not found"
  const UNEXPECTED_ERROR: string := "An unexpected error occured"
}
