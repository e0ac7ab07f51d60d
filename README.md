# Price comparison: products route and client list

This project models the core of a small price-comparison application. The
server's products route keeps a `products` table of items, each with an
Amazon.com URL and a Kakaku.com URL and the last price read from each. On
every `GET /` it splits the rows into stale and fresh ones by their
`cached_at`. It refreshes every stale row from the two sites: the Amazon
getter retries up to three GETs and sums the third and fourth `$` prices of
the page text, and the Kakaku getter reads the first `priceTxt` element as
yen. It writes a row back only when both getters succeeded, and it answers
with the fresh rows followed by the refreshed ones. `POST`, `PUT` and
`DELETE` insert, edit and remove rows. The browser client keeps the list it
received, sorted by yen difference, and supports delete, add and per-field
edits.

Modules, one per part of the program:

- `Js` (`js.dfy`): the JavaScript built-ins the code relies on. It covers
  numbers with NaN, `parseInt` as ECMA-262 defines it, `parseFloat` on price
  tokens, `replace` with a string pattern, `slice(1)`, `toString` and
  `startsWith`.
- `CachePolicy` (`cache_policy.dfy`): the 24-hour staleness test and the
  insert sentinel date.
- `DollarScan` (`dollar_scan.dfy`): the global regular expression
  `/\$\d+[\d\.]+/g` as a left-to-right scanner.
- `WebModel` (`web_model.dfy`): pages, replies, the web as a function of
  URL and attempt number, and the getters' result type.
- `SiteA` (`site_a.dfy`): `getAmazonPrice`.
- `SiteB` (`site_b.dfy`): `getKakakuPrice`.
- `ProductStore` (`product_store.dfy`): the `products` table as a
  `map<int, Row>` inside a `Store` class, with the effect of each SQL
  statement as a method.
- `ProductsRoute` (`products_route.dfy`): the `GET /` handler.
- `ClientList` (`client_list.dfy`): the client's `App` and `Product`
  objects.

Notes on the correspondence:

- The `type` column and field is called `kind`.
- Timestamps are integer milliseconds.
- JavaScript numbers are `NaN` or an exact real.
- In the refresh, the two getters' answers for a row are given by
  `SiteQuotes(web)`. The route's functions are stated for any such quote
  function.
- `parseInt` follows the language's own definition. It skips white space,
  takes one sign, honours a `0x` prefix and reads the longest digit run.
  This is more than "the longest leading run of decimal digits". The two
  agree on texts that start with a digit, such as `10000`. They differ on
  texts that start with white space, a sign or `0x`. For instance, after
  `slice(1)` a yen text `¥ 1,000` becomes ` 1000` and `¥-5` becomes `-5`,
  which `parseInt` reads as 1000 and -5, and a plain digit-run reading
  would read as NaN.

## Model

| member | source | states |
|---|---|---|
| CachePolicy.IsStale | api/routes/products.ts:47 | computes whether the clock is strictly past `cached_at` plus 24 hours |
| Js.ParseInt | api/routes/products.ts:146 | computes `parseInt`: white space skipped, one sign, an optional `0x` prefix, then the longest digit run, or NaN when that run is empty |
| Js.RemoveFirstComma | api/routes/products.ts:146 | computes `replace(",", "")`, which cuts out the first comma only |
| DollarScan.ScanFrom | api/routes/products.ts:105 | computes the spans of the global matches of `/\$\d+[\d\.]+/g` from an index on, left to right |
| DollarScan.Matches | api/routes/products.ts:105 | computes the matched strings, one per span, which is what `match` returns |
| SiteA.FetchFrom | api/routes/products.ts:88-99 | computes the retry loop from attempt `i` on: stop at a throw or at a 2xx status, at most three GETs |
| SiteA.Total | api/routes/products.ts:116-123 | computes the `map`/`reduce` sum from 0 of `parseFloat(price.slice(1))` |
| SiteA.ExtractPrice | api/routes/products.ts:101-124 | computes the outcome for a page: an error for missing text or no price, otherwise the total of the third and fourth prices |
| SiteA.AmazonPrice | api/routes/products.ts:82-129 | computes `getAmazonPrice`: URL check, retried GETs, then extraction from the kept page or from an empty document |
| SiteB.ReadYen | api/routes/products.ts:146 | computes `parseInt(price_str.replace(",", "").slice(1))` |
| SiteB.ExtractYen | api/routes/products.ts:141-147 | computes the outcome for a page: an error without a first `priceTxt` text, otherwise that text read as yen |
| SiteB.KakakuPrice | api/routes/products.ts:132-152 | computes `getKakakuPrice`: URL check, one GET, then extraction |
| ProductStore.NewRow | api/routes/products.ts:162 | computes the row the INSERT creates |
| ProductsRoute.StaleRows | api/routes/products.ts:46-50 | computes `products2update` |
| ProductsRoute.FreshRows | api/routes/products.ts:46-50 | computes `latest_products` |
| ProductsRoute.RefreshAll | api/routes/products.ts:52-71 | computes `updated_products` |
| ProductsRoute.Persisted | api/routes/products.ts:62-68 | computes the table after the conditional UPDATEs, one stale row after the other |
| ProductsRoute.Response | api/routes/products.ts:73 | computes `latest_products.concat(updated_products)` |
| ClientList.InsertByDiff | front/src/App.tsx:48-54 | inserts a product before the first one whose sort key is not larger; the result is one longer and holds only that product and the list's |
| ClientList.Without | front/src/App.tsx:78 | computes `filter((product2) => product !== product2)` |
| ClientList.ShownDiff | front/src/App.tsx:145-146 | computes the rendered difference `parseJPY(price_kakaku) - USD2JPY(price_com)` |
| CachePolicy.StaleBoundary | api/routes/products.ts:47 | a row exactly 24 hours old is still fresh, one millisecond later it is stale, and a stale row stays stale as the clock advances |
| CachePolicy.NeverCachedIsStale | api/routes/products.ts:162 | the insert date 1990-10-10 is stale at any time after 24 hours past it |
| Js.Sub | front/src/App.tsx:49 | `a - b` is NaN exactly when an operand is NaN, and otherwise adding `b` back gives `a` |
| Js.Add | api/routes/products.ts:121-123 | `a + b` is NaN exactly when an operand is NaN, and otherwise subtracting `b` gives `a` |
| Js.LeadingDigitsSpec | api/routes/products.ts:146 | the digits `parseInt` reads are all digits and are followed by a non-digit or the end |
| Js.ParseIntOfNatToString | api/routes/products.ts:146 | `parseInt` of the decimal text of `n`, followed by a non-digit, is `n` |
| Js.ParseFloat | api/routes/products.ts:119 | `parseFloat` of text starting with a digit is a finite number, and every finite result is non-negative |
| Js.NatToString | api/routes/products.ts:95 | `toString` of a non-negative integer is a non-empty digit string, one character long exactly below 10 |
| Js.RadixValueOfNatToString | api/routes/products.ts:95 | reading back the decimal text of `n` gives `n` |
| Js.RemoveFirstCommaSplit | api/routes/products.ts:146 | `replace(",", "")` removes exactly the first comma and keeps every later one |
| Js.DropFirst | api/routes/products.ts:119 | `slice(1)` is the string without its first character; the empty string stays empty |
| Js.StatusStartsWithTwo | api/routes/products.ts:95 | for a three-digit status, `toString().startsWith("2")` holds iff the status is in 200..299 |
| DollarScan.RunEndSpec | api/routes/products.ts:105 | a run of `[\d.]` ends at the first character that is neither a digit nor a point |
| DollarScan.ScanFromSound | api/routes/products.ts:105 | every match found starts at a `$`, then a digit, then at least one more `[\d.]`, and takes the whole run |
| DollarScan.ScanFromOrdered | api/routes/products.ts:105 | matches come in text order and never overlap |
| DollarScan.ScanFromComplete | api/routes/products.ts:105 | an index starts a match exactly when the expression matches there |
| DollarScan.MatchesShape | api/routes/products.ts:105 | every matched string is `$`, a digit, and one or more digits or points |
| DollarScan.MatchesText | api/routes/products.ts:105 | each matched string is the text of its span |
| DollarScan.MatchesPriceThenSpace | api/routes/products.ts:105 | a price token, a space and more text match as that token followed by the matches of the rest |
| DollarScan.MatchesOfToken | api/routes/products.ts:105 | a lone price token is one match |
| DollarScan.MatchesOfSpaceJoined | api/routes/products.ts:105 | the scan of space-separated price tokens gives back exactly those tokens |
| SiteA.FetchWithRetry | api/routes/products.ts:88-99 | the retry loop computes the outcome `FetchFrom` specifies |
| SiteA.FetchFromSpec | api/routes/products.ts:88-99 | one to three GETs are issued; all but the last failed the status test; data is kept iff the last passed it; no data without a throw means three failed responses |
| SiteA.ThreeFailedResponses | api/routes/products.ts:88-104 | three responses that fail the status test leave no data, and the getter then reports the missing body text |
| SiteA.GetAmazonPrice | api/routes/products.ts:82-129 | the getter returns what `AmazonPrice` specifies: an unexpected error for a bad URL or a throwing GET, otherwise the page's extraction |
| SiteA.ThirdAndFourth | api/routes/products.ts:117 | `slice(2, 4)` is empty for at most two prices, the third alone for three, and the third and fourth otherwise |
| SiteA.PriceValue | api/routes/products.ts:119 | a token with a digit after its first character reads as a finite, non-negative price |
| SiteA.MatchedPriceValue | api/routes/products.ts:105-119 | every scanned token reads as its finite price value |
| SiteA.ExtractPriceErrors | api/routes/products.ts:101-114 | the extraction fails iff the body text is missing or empty or has no `$` price, with the matching message |
| SiteA.TotalOfThirdAndFourth | api/routes/products.ts:116-123 | the sum from 0 of the selected prices is 0, the third, or the third plus the fourth |
| SiteA.TotalOfMatches | api/routes/products.ts:116-123 | the total of a body's third and fourth prices is finite and non-negative, by case |
| SiteA.ExtractPriceTotals | api/routes/products.ts:116-124 | one or two prices give 0 rather than an error, three give the third, more give the third plus the fourth, and every value is finite and non-negative |
| SiteA.ExtractPriceOfTokens | api/routes/products.ts:116-124 | a body of four or more price tokens gives the third plus the fourth |
| SiteA.ListingPagePattern | api/routes/products.ts:107-124 | on six price tokens, such as the `[P, T, P, AGS, EIFD, T]` layout, the result is the third plus the fourth, the price plus the shipping |
| SiteA.ListingPageExample | api/routes/products.ts:105-124 | the page `$12.00 $50.00 $12.00 $5.00 $3.00 $50.00`, six space-separated tokens, gives 17 |
| SiteA.ParseFloatOfWholeDollars | api/routes/products.ts:119 | `parseFloat` of whole dollars with `.00` is that number of dollars |
| SiteA.DollarsValue | api/routes/products.ts:119 | a `$` token of whole dollars with `.00` has that value |
| SiteA.PriceValueOfExamples | api/routes/products.ts:119 | `$12.00` reads as 12 and `$5.00` as 5, which sum to 17 |
| SiteB.KakakuPriceErrors | api/routes/products.ts:132-152 | the getter fails iff the URL is rejected, the GET throws, or there is no first `priceTxt` text, with the matching message; otherwise it reads that text |
| SiteB.KakakuIgnoresStatus | api/routes/products.ts:135-146 | the response status plays no part in the result |
| SiteB.ReadYenGrouped | api/routes/products.ts:146 | a sign, digits, one comma and digits read as the number of all the digits, up to a following comma |
| SiteB.ReadYenOneSeparator | api/routes/products.ts:146 | a yen text with one thousands separator reads as its full number |
| SiteB.ReadYenTwoSeparators | api/routes/products.ts:146 | with a second separator, reading stops there, because only the first comma is removed |
| SiteB.TenThousandYen | api/routes/products.ts:146 | `¥10,000` reads as 10000 |
| SiteB.MillionYen | api/routes/products.ts:146 | `¥1,000,000` reads as 1000 |
| SiteB.SignOnlyIsNaN | api/routes/products.ts:141-147 | a first `priceTxt` text that is only the yen sign gives NaN as a price, not an error |
| ProductStore.Edited | api/routes/products.ts:185 | the PUT UPDATE sets name, type and both URLs of that id only; prices, `cached_at`, other rows and the key set are untouched |
| ProductStore.Repriced | api/routes/products.ts:65 | the price UPDATE sets both prices and `cached_at` of that id only; nothing else changes |
| ProductStore.Store.Insert | api/routes/products.ts:161-170 | the INSERT creates a row with prices 0 and the 1990-10-10 date under the next AUTO_INCREMENT id, which it returns |
| ProductStore.Store.Update | api/routes/products.ts:184-193 | PUT changes the table as `Edited` says |
| ProductStore.Store.SetPrices | api/routes/products.ts:64-67 | the refresh UPDATE changes the table as `Repriced` says |
| ProductStore.Store.Delete | api/routes/products.ts:207 | DELETE removes exactly that id |
| ProductStore.NewRowIsStale | api/routes/products.ts:162 | an inserted row has both prices 0 and is stale on the next GET |
| ProductStore.DeleteRemovesOnlyThatId | api/routes/products.ts:207 | deleting removes that id only and deleting it again changes nothing |
| ProductsRoute.Partition | api/routes/products.ts:41-50 | the loop builds exactly the stale rows and the fresh rows, each in read order |
| ProductsRoute.SelectPositions | api/routes/products.ts:46-50 | each list is the rows at increasing positions of the read rows, and a position is there iff its row has that staleness |
| ProductsRoute.PartitionCounts | api/routes/products.ts:46-50 | together the two lists hold every row read exactly once |
| ProductsRoute.PartitionMembers | api/routes/products.ts:46-50 | a row is in the stale list iff it was read and is stale, and in the fresh list iff it was read and is fresh |
| ProductsRoute.Refreshed | api/routes/products.ts:54-61 | a side's price is replaced iff its getter did not return an error; id, name, type, URLs and `cached_at` never change |
| ProductsRoute.Written | api/routes/products.ts:62-68 | the UPDATE for one row happens iff both getters succeeded, writes that row's two new prices and the database time, and touches nothing else |
| ProductsRoute.RefreshStale | api/routes/products.ts:52-71 | the refresh returns `RefreshAll` of the stale rows and leaves the table as `Persisted` says |
| ProductsRoute.GetProducts | api/routes/products.ts:32-73 | the handler answers `Response` and leaves the table as `Persisted` of the stale rows says |
| ProductsRoute.RefreshAllInOrder | api/routes/products.ts:52-71 | `updated_products` has one refreshed row per stale row, in the same order |
| ProductsRoute.ResponseShape | api/routes/products.ts:73 | the response has as many rows as were read: the fresh rows unchanged and in order, then each stale row refreshed, in order |
| ProductsRoute.PersistedKeys | api/routes/products.ts:62-68 | the refresh adds and removes no row |
| ProductsRoute.PersistedUntouched | api/routes/products.ts:62-68 | a row that is not stale is not written |
| ProductsRoute.PersistedStale | api/routes/products.ts:62-68 | a stale row gets its new prices and the database time of its own UPDATE iff both getters succeeded, and keeps its stored row otherwise |
| ProductsRoute.RefreshWrites | api/routes/products.ts:46-68 | over one GET, a stored row is rewritten, with the time of its own UPDATE, iff it was stale by the clock read for it and both getters succeeded |
| ProductsRoute.NaNYenIsWritten | api/routes/products.ts:59-67 | a NaN Kakaku price counts as found, so the row is written with NaN and a new `cached_at` |
| ClientList.DiffKey | front/src/App.tsx:49-52 | the sort key is `price_kakaku_num - price_com_num`, and -99999 when that is NaN |
| ClientList.SortByDiff | front/src/App.tsx:48-54 | the sorted list has the same length and only the products it was given |
| ClientList.InsertByDiffSorted | front/src/App.tsx:48-54 | inserting a product keeps a list ordered by non-increasing difference |
| ClientList.InsertByDiffCount | front/src/App.tsx:48-54 | inserting adds exactly that product |
| ClientList.SortByDiffSpec | front/src/App.tsx:48-54 | the sorted list is ordered by non-increasing difference and is a permutation of the fetched list |
| ClientList.SetNumbers | front/src/App.tsx:41-45 | every fetched product gets both numbers from its own price texts, and no other field changes |
| ClientList.App.Update | front/src/App.tsx:37-60 | after a GET the list is the sorted fetched list with the numbers set; a failed GET leaves the list as it was |
| ClientList.App.Delete | front/src/App.tsx:74-80 | the DELETE names the id at `index`, and once it resolved the list is the old list without that object |
| ClientList.WithoutSpec | front/src/App.tsx:78 | the filter drops every occurrence of the object and keeps every other product |
| ClientList.WithoutAtIndex | front/src/App.tsx:75-78 | when the object occurs once, the result is the list with position `index` cut out, the others in order |
| ClientList.WithoutNotIn | front/src/App.tsx:78 | filtering an absent object changes nothing |
| ClientList.App.Add | front/src/App.tsx:233-255 | after the POST one new product is appended, with the returned id, texts "NONE", numbers -1 and the placeholder fields; a failed POST adds nothing |
| ClientList.App.Edit | front/src/App.tsx:152-201 | only the chosen field of the edited product changes, the list keeps the same objects, and the PUT body is the product as edited |
| ClientList.DiffKeyIsShownDiff | front/src/App.tsx:212 | once the numbers are set, the sort key is the shown difference with NaN read as -99999 |
| ClientList.AddedProductShowsNaN | front/src/App.tsx:249-252 | a just-added product shows NaN as its difference, while its sort key is 0 |

## Left out

- The Express routing, the status codes 200/201/500 and the body parsing are not modelled. They are transport only.
- MySQL connections and statement errors are not modelled. A failing statement turns the whole request into a 500, and the model takes every statement as succeeding. `INSERT IGNORE` ignoring an error is not modelled.
- `SELECT * FROM products` is an input, `read`, together with its order. The model does not tie `read` to the stored table.
- The time sources are parameters, read once per row. `now(row)` is the `dayjs()` of that row's test, and `dbNow(row)` is the `NOW()` of that row's UPDATE. As functions of the row, two rows read with equal contents would see one instant. That cannot happen, since ids are distinct. dayjs parsing and the time zone are not modelled. The insert date is taken as midnight UTC.
- JSDOM is not modelled: a page is its body text and the texts of its `priceTxt` elements. A missing response body behaves as an empty document, whose body text is empty.
- axios rejects a non-2xx status by default, so such a reply ends in the catch block. `get` may answer any status, which leaves room for those replies to be `Thrown`, so the status test of the retry loop is modelled as written.
- `new URL` validation is the input predicate `parsesAsUrl`. axios is the function `get`, which is deterministic per URL and attempt and may throw. Headers are not modelled.
- `Promise.all` runs the stale rows concurrently. The model runs them one after another in order. The rows do not affect one another, so the result and the writes are the same.
- Floating point is not modelled. Numbers are exact reals, so there is no IEEE rounding and there are no infinities. `Math.round(parseFloat(str) * exchange_rate)` is the client's parameter `usd2jpy`, with the exchange-rate fetch left out.
- Js.ParseFloat: handles only unsigned decimal literals without exponent. Those are the only strings the price tokens pass to it.
- NaN reaches the table from the refresh, not from the client. `getKakakuPrice` returns NaN, not an `Error`, when the first `priceTxt` text has no digit after its first character. That NaN passes both `instanceof Error` tests and is written with a new `cached_at`, so the row is not retried for 24 hours (`SiteB.SignOnlyIsNaN`, `ProductsRoute.NaNYenIsWritten`). How MySQL stores a NaN parameter is not modelled; the model keeps the value as given.
- React rendering, `setState` scheduling, console logging, the busy flags `is_updating`/`is_adding` and the build configuration are not modelled.
- The client's `Product` records keep the server's numeric prices as text, `price_com`/`price_kakaku`. `parseInt` and `USD2JPY` only read that text.
- ClientList.SortByDiff: states ordering and permutation. It does not state that equal differences keep their input order, although the insertion sort does keep them.
- ClientList.SetNumbers: takes the yen parser as a parameter. `Update` passes `ParseInt`.
- ClientList.App.Edit: the PUT is returned as a body and is not sent to the store. The server side of it is `ProductStore.Store.Update`.
- ClientList.App.Delete: `resolved` says whether the DELETE request resolved. A failed request leaves the list unchanged, and its error is not modelled. Each handler is taken as atomic: the filter runs on the list as it was at the click. In the source it runs on the list as it is when the DELETE resolves, and an `update` finishing in between leaves new objects that the identity filter does not remove.
- The refresh of the in-memory rows (`product.price_com = ...`) is modelled as building a new row value, since a row is a value. The model captures no aliasing between rows.
