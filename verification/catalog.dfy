/**
 * The product listing served by `get_products` (GET /products): the
 * optional name search, the price range text and the JSON-shaped rows.
 */
module Catalog {
  import opened Schema
  import opened Text
  import opened Numerals

  /** The price range shown for a product without variants ("out of stock"). */
  const OutOfStock: string := "Hết hàng"

  /** Python's `min` over a non-empty list of prices. */
  function MinOf(xs: seq<int>): (m: int)
    requires xs != []
    ensures m in xs
    ensures forall i | 0 <= i < |xs| :: m <= xs[i]
  {
    if |xs| == 1 then xs[0]
    else
      var t := MinOf(xs[1..]);
      if xs[0] <= t then xs[0] else t
  }

  /** Python's `max` over a non-empty list of prices. */
  function MaxOf(xs: seq<int>): (m: int)
    requires xs != []
    ensures m in xs
    ensures forall i | 0 <= i < |xs| :: xs[i] <= m
  {
    if |xs| == 1 then xs[0]
    else
      var t := MaxOf(xs[1..]);
      if xs[0] >= t then xs[0] else t
  }

  /** "lowest - highest" with `,` thousands separators, one number when they agree. */
  function RangeText(lo: int, hi: int): string
  {
    if lo != hi then Grouped(lo, ',') + " - " + Grouped(hi, ',') else Grouped(lo, ',')
  }

  /** `price_range`: the range of the prices, or "out of stock" when there are none. */
  function PriceRange(prices: seq<int>): string
  {
    if prices == [] then OutOfStock else RangeText(MinOf(prices), MaxOf(prices))
  }

  /** Grouping keeps the leading character of the digits. */
  lemma {:induction false} GroupKeepsHead(s: string, sep: char)
    requires |s| >= 1
    ensures Group(s, sep) != [] && Group(s, sep)[0] == s[0]
    decreases |s|
  {
    if |s| > 3 {
      GroupKeepsHead(s[..|s| - 3], sep);
    }
  }

  /** A rendered price starts with a minus sign or a digit. */
  lemma GroupedHead(n: int, sep: char)
    ensures Grouped(n, sep) != [] && (Grouped(n, sep)[0] == '-' || IsDigit(Grouped(n, sep)[0]))
  {
    var d := Decimal(if n < 0 then -n else n);
    GroupKeepsHead(d, sep);
    if n >= 0 {
      assert Grouped(n, sep) == Group(d, sep);
    }
  }

  /** A product shows "Hết hàng" exactly when it has no variants. */
  lemma OutOfStockIffNoVariants(prices: seq<int>)
    ensures PriceRange(prices) == OutOfStock <==> prices == []
  {
    if prices != [] {
      var lo, hi := MinOf(prices), MaxOf(prices);
      GroupedHead(lo, ',');
      assert PriceRange(prices)[0] == Grouped(lo, ',')[0];
      assert OutOfStock[0] == 'H';
    }
  }

  /** When every variant has the same price, that one price is shown. */
  lemma {:induction false} UniformPriceShownOnce(prices: seq<int>, p: int)
    requires prices != [] && forall i | 0 <= i < |prices| :: prices[i] == p
    ensures PriceRange(prices) == Grouped(p, ',')
  {
  }

  /**
   * When the prices differ, the range runs from a price no other
   * undercuts to a price no other exceeds.
   */
  lemma SpreadPricesShownAsRange(prices: seq<int>, i: nat, j: nat)
    requires i < |prices| && j < |prices| && prices[i] != prices[j]
    ensures exists lo, hi | lo in prices && hi in prices ::
      && lo < hi
      && (forall k | 0 <= k < |prices| :: lo <= prices[k] <= hi)
      && PriceRange(prices) == Grouped(lo, ',') + " - " + Grouped(hi, ',')
  {
    var lo, hi := MinOf(prices), MaxOf(prices);
    assert lo <= prices[i] && lo <= prices[j] && prices[i] <= hi && prices[j] <= hi;
  }

  // ---------------------------------------------------------------------
  // The name search: `Product.name.contains(search)` is SQLite's
  // `name LIKE '%' || search || '%'`, where `%` matches any run of
  // characters, `_` any one character, and ASCII letters match either case.

  /** One pattern character against one text character. */
  predicate CharMatches(pc: char, c: char)
  {
    pc == '_' || FoldAscii(pc) == FoldAscii(c)
  }

  /** SQLite's LIKE, without an ESCAPE clause. */
  predicate Like(s: string, p: string)
    decreases |s| + |p|
  {
    if p == [] then s == []
    else if p[0] == '%' then Like(s, p[1..]) || (s != [] && Like(s[1..], p))
    else s != [] && CharMatches(p[0], s[0]) && Like(s[1..], p[1..])
  }

  /** `search` occurs in `name` at offset `i`, letter case and `_` aside. */
  predicate Occurs(name: string, search: string, i: int)
  {
    0 <= i && i + |search| <= |name| &&
    forall k | 0 <= k < |search| :: CharMatches(search[k], name[i + k])
  }

  /** The suffix of `s` from `i` on matches `p`. */
  predicate SuffixLike(s: string, p: string, i: int)
  {
    0 <= i <= |s| && Like(s[i..], p)
  }

  /** `%` alone matches anything. */
  lemma {:induction false} PercentMatchesAll(s: string)
    ensures Like(s, "%")
  {
    if s != [] {
      PercentMatchesAll(s[1..]);
    }
  }

  /** A pattern starting with `%` matches when what follows matches some suffix. */
  lemma {:induction false} LeadingPercent(s: string, p: string)
    ensures Like(s, "%" + p) <==> exists i :: SuffixLike(s, p, i)
  {
    assert ("%" + p)[1..] == p;
    if s == [] {
      if exists i :: SuffixLike(s, p, i) {
        var i :| SuffixLike(s, p, i);
        assert s[i..] == s;
      }
      assert SuffixLike(s, p, 0) <== Like(s, p);
    } else {
      LeadingPercent(s[1..], p);
      assert s[0..] == s;
      if exists i :: SuffixLike(s, p, i) {
        var i :| SuffixLike(s, p, i);
        if i > 0 {
          assert s[1..][i - 1..] == s[i..];
          assert SuffixLike(s[1..], p, i - 1);
        }
      }
      if exists i :: SuffixLike(s[1..], p, i) {
        var i :| SuffixLike(s[1..], p, i);
        assert s[1..][i..] == s[i + 1..];
        assert SuffixLike(s, p, i + 1);
      }
      assert SuffixLike(s, p, 0) <== Like(s, p);
    }
  }

  /** A literal head (no `%`) must match the first characters one by one. */
  lemma {:induction false} LiteralHead(s: string, q: string, rest: string)
    requires '%' !in q
    ensures Like(s, q + rest) <==> Occurs(s, q, 0) && Like(s[|q|..], rest)
  {
    if q == [] {
      assert q + rest == rest && s[0..] == s;
    } else {
      assert (q + rest)[0] == q[0] && (q + rest)[1..] == q[1..] + rest;
      if s != [] {
        LiteralHead(s[1..], q[1..], rest);
        if |q| <= |s| {
          assert s[1..][|q| - 1..] == s[|q|..];
        }
        if Occurs(s[1..], q[1..], 0) && CharMatches(q[0], s[0]) {
          forall k | 0 <= k < |q| ensures CharMatches(q[k], s[k]) {
            if k > 0 { assert q[1..][k - 1] == q[k] && s[1..][k - 1] == s[k]; }
          }
        }
        if Occurs(s, q, 0) {
          forall k | 0 <= k < |q| - 1 ensures CharMatches(q[1..][k], s[1..][k]) {
            assert q[1..][k] == q[k + 1] && s[1..][k] == s[k + 1];
          }
          assert CharMatches(q[0], s[0]);
        }
      }
    }
  }

  /** Whether a product name passes the search box (`if search:` skips the filter). */
  predicate Selected(name: string, search: string)
  {
    search == [] || Like(name, "%" + search + "%")
  }

  /**
   * Without `%` in the search text, a name is selected exactly when the
   * search text occurs in it, ignoring the case of ASCII letters and
   * letting `_` stand for any character.
   */
  lemma SearchIsSubstringMatch(name: string, search: string)
    requires '%' !in search
    ensures Selected(name, search) <==> exists i :: Occurs(name, search, i)
  {
    var p := search + "%";
    assert "%" + search + "%" == "%" + p;
    LeadingPercent(name, p);
    if exists i :: SuffixLike(name, p, i) {
      var i :| SuffixLike(name, p, i);
      LiteralHead(name[i..], search, "%");
      assert Occurs(name, search, i) by {
        forall k | 0 <= k < |search| ensures CharMatches(search[k], name[i + k]) {
          assert name[i..][k] == name[i + k];
        }
      }
    }
    if exists i :: Occurs(name, search, i) {
      var i :| Occurs(name, search, i);
      assert Occurs(name[i..], search, 0) by {
        forall k | 0 <= k < |search| ensures CharMatches(search[k], name[i..][k]) {
          assert name[i..][k] == name[i + k];
        }
      }
      LiteralHead(name[i..], search, "%");
      PercentMatchesAll(name[i..][|search|..]);
      assert SuffixLike(name, p, i);
    }
    if search == [] {
      assert Occurs(name, search, 0);
    }
  }

  // ---------------------------------------------------------------------
  // The response rows.

  /** A product with its variants, as the database returns them. */
  datatype ProductRow = ProductRow(product: Product, variants: seq<Variant>)

  datatype VariantView = VariantView(id: int, color: string, size: string, price: int, stock: int)

  /** One element of the JSON list `get_products` returns. */
  datatype ProductView = ProductView(
    id: int, name: string, image: string, priceRange: string, variants: seq<VariantView>)

  function ViewOf(v: Variant): VariantView
  {
    VariantView(v.id, v.color, v.size, v.price, v.stock)
  }

  function Prices(vs: seq<Variant>): seq<int>
  {
    seq(|vs|, i requires 0 <= i < |vs| => vs[i].price)
  }

  /** The listing entry of one product. */
  function Summary(row: ProductRow): ProductView
  {
    ProductView(row.product.id, row.product.name, row.product.imagePath,
      PriceRange(Prices(row.variants)),
      seq(|row.variants|, i requires 0 <= i < |row.variants| => ViewOf(row.variants[i])))
  }

  /** Every variant's price lies between `lo` and `hi`. */
  predicate PricesWithin(vs: seq<Variant>, lo: int, hi: int)
  {
    forall k | 0 <= k < |vs| :: lo <= vs[k].price <= hi
  }

  /**
   * The price text of a listing entry: "out of stock" exactly for a
   * product without variants; otherwise the range from the price of a
   * cheapest variant to that of a dearest one.
   */
  lemma SummaryPriceRange(row: ProductRow)
    ensures row.variants == [] <==> Summary(row).priceRange == OutOfStock
    ensures row.variants != [] ==>
      exists i, j | 0 <= i < |row.variants| && 0 <= j < |row.variants| ::
        && PricesWithin(row.variants, row.variants[i].price, row.variants[j].price)
        && Summary(row).priceRange == RangeText(row.variants[i].price, row.variants[j].price)
  {
    var vs := row.variants;
    var ps := Prices(vs);
    assert Summary(row).priceRange == PriceRange(ps);
    assert |ps| == |vs|;
    OutOfStockIffNoVariants(ps);
    if vs != [] {
      var lo, hi := MinOf(ps), MaxOf(ps);
      var i :| 0 <= i < |ps| && ps[i] == lo;
      var j :| 0 <= j < |ps| && ps[j] == hi;
      assert vs[i].price == lo && vs[j].price == hi;
      forall k | 0 <= k < |vs| ensures lo <= vs[k].price <= hi {
        assert ps[k] == vs[k].price;
      }
      assert PricesWithin(vs, vs[i].price, vs[j].price);
    }
  }

  /** The entries of the selected products, in the order the database returns them. */
  function Listing(rows: seq<ProductRow>, search: string): seq<ProductView>
  {
    if rows == [] then []
    else
      var last := rows[|rows| - 1];
      Listing(rows[..|rows| - 1], search) + (if Selected(last.product.name, search) then [Summary(last)] else [])
  }

  /** `get_products`: the loop over the query's rows. */
  method GetProducts(rows: seq<ProductRow>, search: string) returns (results: seq<ProductView>)
    ensures results == Listing(rows, search)
  {
    results := [];
    var i := 0;
    while i < |rows|
      invariant i <= |rows|
      invariant results == Listing(rows[..i], search)
    {
      var p := rows[i];
      if Selected(p.product.name, search) {
        results := results + [Summary(p)];
      }
      assert rows[..i + 1][..i] == rows[..i];
      i := i + 1;
    }
    assert rows[..i] == rows;
  }

  /**
   * The listing holds the summary of every selected product and of
   * nothing else, in the database's order.
   */
  lemma {:induction false} ListingIsSelection(rows: seq<ProductRow>, search: string)
    ensures |Listing(rows, search)| <= |rows|
    ensures forall i | 0 <= i < |rows| && Selected(rows[i].product.name, search) ::
      Summary(rows[i]) in Listing(rows, search)
    ensures forall v | v in Listing(rows, search) ::
      exists i | 0 <= i < |rows| :: Selected(rows[i].product.name, search) && v == Summary(rows[i])
  {
    if rows != [] {
      var p := rows[..|rows| - 1];
      ListingIsSelection(p, search);
      forall i | 0 <= i < |p| ensures rows[i] == p[i] { }
    }
  }

  /** An empty search lists every product, in order. */
  lemma {:induction false} EmptySearchListsAll(rows: seq<ProductRow>)
    ensures |Listing(rows, "")| == |rows|
    ensures forall i | 0 <= i < |rows| :: Listing(rows, "")[i] == Summary(rows[i])
  {
    if rows != [] {
      var p := rows[..|rows| - 1];
      EmptySearchListsAll(p);
      assert Listing(rows, "") == Listing(p, "") + [Summary(rows[|rows| - 1])];
      forall i | 0 <= i < |p| ensures rows[i] == p[i] { }
    }
  }
}
