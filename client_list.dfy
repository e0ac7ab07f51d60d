/** The list of products the browser client (`App`) keeps: filled from the
    GET and sorted by price difference, shortened by a delete, extended by
    an add, and edited in place field by field. */
module ClientList {
  import opened Js

  /** A product as the client holds it: the record of the response with the
      two numbers the client computes from its price texts. */
  class Product {
    var id: int
    var name: string
    var kind: string
    var urlCom: string
    var urlKakaku: string
    var priceCom: string
    var priceKakaku: string
    var priceComNum: Number
    var priceKakakuNum: Number

    constructor (id: int, name: string, kind: string, urlCom: string, urlKakaku: string,
                 priceCom: string, priceKakaku: string, priceComNum: Number, priceKakakuNum: Number)
      ensures this.id == id && this.name == name && this.kind == kind
      ensures this.urlCom == urlCom && this.urlKakaku == urlKakaku
      ensures this.priceCom == priceCom && this.priceKakaku == priceKakaku
      ensures this.priceComNum == priceComNum && this.priceKakakuNum == priceKakakuNum
    {
      this.id := id;
      this.name := name;
      this.kind := kind;
      this.urlCom := urlCom;
      this.urlKakaku := urlKakaku;
      this.priceCom := priceCom;
      this.priceKakaku := priceKakaku;
      this.priceComNum := priceComNum;
      this.priceKakakuNum := priceKakakuNum;
    }
  }

  /** The four text fields a row of the table lets the user edit. */
  datatype Field = Name | Kind | UrlCom | UrlKakaku

  /** The body of the PUT `putProduct` sends: the fields the server reads. */
  datatype PutBody = PutBody(id: int, name: string, kind: string, urlCom: string, urlKakaku: string)

  /** The sort key of the comparator: `price_kakaku_num - price_com_num`,
      with NaN replaced by -99999. */
  function DiffKey(p: Product): (k: real)
    reads p
    ensures Sub(p.priceKakakuNum, p.priceComNum).NaN? ==> k == -99999.0
    ensures Sub(p.priceKakakuNum, p.priceComNum).Finite? ==>
      k == p.priceKakakuNum.value - p.priceComNum.value
  {
    match Sub(p.priceKakakuNum, p.priceComNum)
    case NaN => -99999.0
    case Finite(v) => v
  }

  /** The comparator `b_diff - a_diff` puts the larger difference first. */
  ghost predicate SortedByDiff(s: seq<Product>)
    reads s
  {
    forall i, j :: 0 <= i < j < |s| ==> DiffKey(s[i]) >= DiffKey(s[j])
  }

  /** `p` placed in front of the first element of `s` whose key is not
      larger. */
  function InsertByDiff(p: Product, s: seq<Product>): (r: seq<Product>)
    reads p, s
    ensures |r| == |s| + 1 && forall k :: 0 <= k < |r| ==> r[k] == p || r[k] in s
  {
    if s == [] || DiffKey(p) >= DiffKey(s[0]) then [p] + s
    else [s[0]] + InsertByDiff(p, s[1..])
  }

  /** `products.sort(comparator)`, as a stable insertion sort: products
      with equal keys keep their order. */
  function SortByDiff(s: seq<Product>): (r: seq<Product>)
    reads s
    ensures |r| == |s| && forall k :: 0 <= k < |r| ==> r[k] in s
  {
    if s == [] then [] else InsertByDiff(s[0], SortByDiff(s[1..]))
  }

  /** `filter((product2) => product !== product2)`: by identity. */
  function Without(s: seq<Product>, p: Product): seq<Product>
  {
    if s == [] then []
    else (if s[0] == p then [] else [s[0]]) + Without(s[1..], p)
  }

  /** The difference column of a row: `price_kakaku - price_com`, both
      recomputed from the price texts, with `usd2jpy` the client's
      `USD2JPY`. */
  function ShownDiff(p: Product, usd2jpy: string -> Number): Number
    reads p
  {
    Sub(ParseInt(p.priceKakaku), usd2jpy(p.priceCom))
  }

  /** The two numbers of `p` are those `update` computes from its price
      texts. */
  ghost predicate Priced(p: Product, usd2jpy: string -> Number)
    reads p
  {
    p.priceComNum == usd2jpy(p.priceCom) && p.priceKakakuNum == ParseInt(p.priceKakaku)
  }

  /** The `map` of `update`: `price_com_num := USD2JPY(price_com)` and
      `price_kakaku_num := parseJPY(price_kakaku)` on each product, in
      place. */
  method SetNumbers(s: seq<Product>, usd2jpy: string -> Number, parseJPY: string -> Number)
    modifies s
    ensures forall p :: p in s ==> p.priceComNum == usd2jpy(p.priceCom) && p.priceKakakuNum == parseJPY(p.priceKakaku)
    ensures forall p :: p in s ==>
      unchanged(p`id, p`name, p`kind, p`urlCom, p`urlKakaku, p`priceCom, p`priceKakaku)
  {
    for i := 0 to |s|
      invariant forall j :: 0 <= j < i ==>
        s[j].priceComNum == usd2jpy(s[j].priceCom) && s[j].priceKakakuNum == parseJPY(s[j].priceKakaku)
      invariant forall q: Product :: q in s ==> unchanged(q`id, q`name, q`kind, q`urlCom, q`urlKakaku, q`priceCom, q`priceKakaku)
    {
      var p := s[i];
      p.priceComNum, p.priceKakakuNum := usd2jpy(p.priceCom), parseJPY(p.priceKakaku);
    }
  }

  class App {
    var products: seq<Product>

    constructor ()
      ensures products == []
    {
      products := [];
    }

    /** `update`: the numbers of each fetched product are set in place,
        then the list is sorted by difference. A GET that throws leaves the
        list as it was. */
    method Update(fetched: Option<seq<Product>>, usd2jpy: string -> Number)
      modifies this, if fetched.Some? then fetched.value else []
      ensures fetched.None? ==> products == old(products)
      ensures fetched.Some? ==> products == SortByDiff(fetched.value)
      ensures fetched.Some? ==> forall p :: p in fetched.value ==> Priced(p, usd2jpy)
      ensures fetched.Some? ==> forall p :: p in fetched.value ==>
        unchanged(p`id, p`name, p`kind, p`urlCom, p`urlKakaku, p`priceCom, p`priceKakaku)
    {
      if fetched.Some? {
        SetNumbers(fetched.value, usd2jpy, ParseInt);
        products := SortByDiff(fetched.value);
      }
    }

    /** `delete(index)`: the DELETE request for the product at `index`,
        then, once it resolved (`resolved`), the filter that drops that
        object. Returns the id the request names. */
    method Delete(index: nat, resolved: bool) returns (id: int)
      requires index < |products|
      modifies this
      ensures id == old(products[index].id)
      ensures resolved ==> products == Without(old(products), old(products[index]))
      ensures !resolved ==> products == old(products)
    {
      var product := products[index];
      id := product.id;
      if resolved {
        products := Without(products, product);
      }
    }

    /** The add button: after the POST answered `{id}`, one product with
        the placeholder texts is appended; a failed POST adds nothing. */
    method Add(posted: Option<int>) returns (added: Option<Product>)
      modifies this
      ensures posted.None? ==> added.None? && products == old(products)
      ensures posted.Some? ==> added.Some? && fresh(added.value) && products == old(products) + [added.value]
      ensures posted.Some? ==> var p := added.value;
        && p.id == posted.value && p.name == "name" && p.kind == "type"
        && p.urlCom == "url_com" && p.urlKakaku == "url_kakaku"
        && p.priceCom == "NONE" && p.priceKakaku == "NONE"
        && p.priceComNum == Finite(-1.0) && p.priceKakakuNum == Finite(-1.0)
    {
      if posted.None? {
        return None;
      }
      var p := new Product(posted.value, "name", "type", "url_com", "url_kakaku",
                           "NONE", "NONE", Finite(-1.0), Finite(-1.0));
      products := products + [p];
      added := Some(p);
    }

    /** An `onChange` handler: the `map` over the list assigns `value` to
        `field` of the one product that is `p`, then `putProduct(p)` sends
        the product as it now is. The list itself keeps the same objects in
        the same order. */
    method Edit(p: Product, field: Field, value: string) returns (body: PutBody)
      modifies products
      ensures products == old(products)
      ensures p in products ==> match field
        case Name => p.name == value && unchanged(p`kind, p`urlCom, p`urlKakaku)
        case Kind => p.kind == value && unchanged(p`name, p`urlCom, p`urlKakaku)
        case UrlCom => p.urlCom == value && unchanged(p`name, p`kind, p`urlKakaku)
        case UrlKakaku => p.urlKakaku == value && unchanged(p`name, p`kind, p`urlCom)
      ensures p !in products ==> unchanged(p)
      ensures unchanged(p`id, p`priceCom, p`priceKakaku, p`priceComNum, p`priceKakakuNum)
      ensures forall q :: q in products && q != p ==> unchanged(q)
      ensures body == PutBody(p.id, p.name, p.kind, p.urlCom, p.urlKakaku)
    {
      for i := 0 to |products|
        invariant forall q :: q in products && q != p ==> unchanged(q)
        invariant p !in products[..i] ==> unchanged(p)
        invariant p in products[..i] ==> match field
          case Name => p.name == value && unchanged(p`kind, p`urlCom, p`urlKakaku)
          case Kind => p.kind == value && unchanged(p`name, p`urlCom, p`urlKakaku)
          case UrlCom => p.urlCom == value && unchanged(p`name, p`kind, p`urlKakaku)
          case UrlKakaku => p.urlKakaku == value && unchanged(p`name, p`kind, p`urlCom)
        invariant unchanged(p`id, p`priceCom, p`priceKakaku, p`priceComNum, p`priceKakakuNum)
      {
        if products[i] == p {
          match field
          case Name => p.name := value;
          case Kind => p.kind := value;
          case UrlCom => p.urlCom := value;
          case UrlKakaku => p.urlKakaku := value;
        }
        assert products[..i + 1] == products[..i] + [products[i]];
      }
      assert products[..|products|] == products;
      body := PutBody(p.id, p.name, p.kind, p.urlCom, p.urlKakaku);
    }
  }

  // ---- properties ---------------------------------------------------------

  /** Inserting keeps a sorted list sorted. */
  lemma {:induction false} InsertByDiffSorted(p: Product, s: seq<Product>)
    requires SortedByDiff(s)
    ensures SortedByDiff(InsertByDiff(p, s))
  {
    if s == [] || DiffKey(p) >= DiffKey(s[0]) {
      var t := [p] + s;
      forall i, j | 0 <= i < j < |t| ensures DiffKey(t[i]) >= DiffKey(t[j]) {
        if i > 0 {
          assert t[i] == s[i - 1];
        } else if j > 1 {
          assert DiffKey(s[0]) >= DiffKey(s[j - 1]);
        }
        assert t[j] == s[j - 1];
      }
    } else {
      var rest := s[1..];
      forall i, j | 0 <= i < j < |rest| ensures DiffKey(rest[i]) >= DiffKey(rest[j]) {
        assert rest[i] == s[i + 1] && rest[j] == s[j + 1];
      }
      InsertByDiffSorted(p, rest);
      var r := InsertByDiff(p, rest);
      var t := [s[0]] + r;
      forall i, j | 0 <= i < j < |t| ensures DiffKey(t[i]) >= DiffKey(t[j]) {
        assert t[j] == r[j - 1];
        if i > 0 {
          assert t[i] == r[i - 1];
        } else if r[j - 1] != p {
          var m :| 0 <= m < |rest| && rest[m] == r[j - 1];
          assert rest[m] == s[m + 1];
        }
      }
    }
  }

  /** Inserting adds exactly `p`. */
  lemma {:induction false} InsertByDiffCount(p: Product, s: seq<Product>)
    ensures multiset(InsertByDiff(p, s)) == multiset(s) + multiset{p}
  {
    if s != [] && DiffKey(p) < DiffKey(s[0]) {
      InsertByDiffCount(p, s[1..]);
      assert s == [s[0]] + s[1..];
    }
  }

  /** After `update` the list is ordered by non-increasing difference and
      holds exactly the fetched products, each as often as fetched. */
  lemma {:induction false} SortByDiffSpec(s: seq<Product>)
    ensures SortedByDiff(SortByDiff(s))
    ensures multiset(SortByDiff(s)) == multiset(s)
    ensures |SortByDiff(s)| == |s|
  {
    if s != [] {
      SortByDiffSpec(s[1..]);
      InsertByDiffSorted(s[0], SortByDiff(s[1..]));
      InsertByDiffCount(s[0], SortByDiff(s[1..]));
      assert s == [s[0]] + s[1..];
    }
  }

  /** The filter drops every occurrence of `p` and keeps every other
      product; at most one fewer when `p` occurs at most once. */
  lemma {:induction false} WithoutSpec(s: seq<Product>, p: Product)
    ensures p !in Without(s, p)
    ensures forall q :: q in Without(s, p) <==> q in s && q != p
    ensures multiset(Without(s, p)) == multiset(s)[p := 0]
  {
    if s != [] {
      WithoutSpec(s[1..], p);
      assert s == [s[0]] + s[1..];
    }
  }

  /** Deleting the product at `index` when the list holds that object
      once: the list is the same list with position `index` cut out, the
      others in their order. */
  lemma {:induction false} WithoutAtIndex(s: seq<Product>, index: nat)
    requires index < |s|
    requires forall j :: 0 <= j < |s| && j != index ==> s[j] != s[index]
    ensures Without(s, s[index]) == s[..index] + s[index + 1..]
  {
    if index == 0 {
      WithoutNotIn(s[1..], s[0]);
      assert s[..0] + s[1..] == s[1..];
    } else {
      var rest := s[1..];
      assert forall j :: 0 <= j < |rest| && j != index - 1 ==> rest[j] != rest[index - 1] by {
        forall j | 0 <= j < |rest| && j != index - 1 ensures rest[j] != rest[index - 1] {
          assert rest[j] == s[j + 1] && rest[index - 1] == s[index];
        }
      }
      WithoutAtIndex(rest, index - 1);
      assert rest[index - 1] == s[index];
      assert s[..index] == [s[0]] + rest[..index - 1];
      assert s[index + 1..] == rest[index..];
    }
  }

  /** A product not in the list is not filtered. */
  lemma {:induction false} WithoutNotIn(s: seq<Product>, p: Product)
    requires p !in s
    ensures Without(s, p) == s
  {
    if s != [] {
      WithoutNotIn(s[1..], p);
      assert s == [s[0]] + s[1..];
    }
  }

  /** Once `update` has set the numbers of a product, its sort key is its
      shown difference, with NaN read as -99999. */
  lemma DiffKeyIsShownDiff(p: Product, usd2jpy: string -> Number)
    requires p.priceComNum == usd2jpy(p.priceCom) && p.priceKakakuNum == ParseInt(p.priceKakaku)
    ensures DiffKey(p) == match ShownDiff(p, usd2jpy) case NaN => -99999.0 case Finite(v) => v
  {
  }

  /** A just-added product shows NaN as its difference: `parseInt("NONE")`
      is NaN whatever the exchange rate; its sort key, with both numbers
      at -1, is 0 until the next `update`. */
  lemma AddedProductShowsNaN(p: Product, none: string, usd2jpy: string -> Number)
    requires none == "NONE"
    requires p.priceCom == none && p.priceKakaku == none
    requires p.priceComNum == Finite(-1.0) && p.priceKakakuNum == Finite(-1.0)
    ensures ShownDiff(p, usd2jpy) == NaN
    ensures DiffKey(p) == 0.0
  {
    assert TrimStart(none) == none;
    assert LeadingDigits(none, 10) == [];
  }
}
