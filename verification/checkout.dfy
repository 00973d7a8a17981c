/**
 * What the checkout handler (POST /checkout) decides: the stock check and
 * decrement over the cart lines, the customer name stored on the order and
 * the order item made from each line.
 */
module Checkout {
  import opened Wrappers
  import opened Text
  import opened Schema
  import opened Cart

  /** The name stored when the customer name is blank ("walk-in customer"). */
  const WalkIn: string := "Khách lẻ"

  /** The 400 error naming the product of a line that cannot be served. */
  function ShortOfStock(productName: string): ApiError
  {
    ApiError(400, "Sản phẩm " + productName + " không đủ hàng!")
  }

  /** A line is refused when its variant is missing or has less stock than the line asks for. */
  predicate IsShort(vs: map<int, Variant>, line: CartLine)
  {
    line.variantId !in vs || vs[line.variantId].stock < line.quantity
  }

  /** One pass of the stock loop: refuse the line, or take its quantity off its variant. */
  function CheckLine(vs: map<int, Variant>, line: CartLine): Result<map<int, Variant>, ApiError>
  {
    if IsShort(vs, line) then Err(ShortOfStock(line.productName))
    else
      var v := vs[line.variantId];
      Ok(vs[line.variantId := v.(stock := v.stock - line.quantity)])
  }

  /**
   * The stock loop over the whole cart, in cart order, on the variants as the
   * request's session sees them: each line is checked against the stock the
   * earlier lines left.
   */
  function ApplyCart(vs: map<int, Variant>, cart: seq<CartLine>): Result<map<int, Variant>, ApiError>
  {
    if cart == [] then Ok(vs)
    else
      match ApplyCart(vs, cart[..|cart| - 1])
      case Err(e) => Err(e)
      case Ok(m) => CheckLine(m, cart[|cart| - 1])
  }

  /** The quantity the lines of `cart` naming variant `k` ask for together. */
  function QtyFor(cart: seq<CartLine>, k: int): int
  {
    if cart == [] then 0
    else QtyFor(cart[..|cart| - 1], k) + (if cart[|cart| - 1].variantId == k then cart[|cart| - 1].quantity else 0)
  }

  /** Once the loop has refused a line, the rest of the cart does not change the outcome. */
  lemma {:induction false} RefusalIsFinal(vs: map<int, Variant>, cart: seq<CartLine>, k: nat)
    requires k <= |cart| && ApplyCart(vs, cart[..k]).Err?
    ensures ApplyCart(vs, cart) == ApplyCart(vs, cart[..k])
    decreases |cart|
  {
    if k < |cart| {
      var p := cart[..|cart| - 1];
      assert p[..k] == cart[..k];
      RefusalIsFinal(vs, p, k);
    } else {
      assert cart[..k] == cart;
    }
  }

  /**
   * A successful checkout takes off each variant exactly the quantity of the
   * lines naming it and changes nothing else: every line names an existing
   * variant, no variant appears or disappears, and colour, size, price and
   * product of every variant stay as they were.
   */
  lemma {:induction false} StockAfterCheckout(vs: map<int, Variant>, cart: seq<CartLine>)
    requires ApplyCart(vs, cart).Ok?
    ensures ApplyCart(vs, cart).value.Keys == vs.Keys
    ensures forall i | 0 <= i < |cart| :: cart[i].variantId in vs
    ensures forall k | k in vs ::
      ApplyCart(vs, cart).value[k] == vs[k].(stock := vs[k].stock - QtyFor(cart, k))
  {
    if cart != [] {
      var p := cart[..|cart| - 1];
      StockAfterCheckout(vs, p);
      forall i | 0 <= i < |cart| - 1 ensures cart[i].variantId in vs {
        assert cart[i] == p[i];
      }
    }
  }

  /**
   * A checkout is refused exactly when some line is short of stock after the
   * lines before it went through; the error names that line's product.
   */
  lemma {:induction false} RefusalNamesShortLine(vs: map<int, Variant>, cart: seq<CartLine>)
    requires ApplyCart(vs, cart).Err?
    ensures exists i | 0 <= i < |cart| ::
      && ApplyCart(vs, cart[..i]).Ok?
      && IsShort(ApplyCart(vs, cart[..i]).value, cart[i])
      && ApplyCart(vs, cart).error == ShortOfStock(cart[i].productName)
  {
    var p := cart[..|cart| - 1];
    if ApplyCart(vs, p).Err? {
      RefusalNamesShortLine(vs, p);
      var i :| 0 <= i < |p| && ApplyCart(vs, p[..i]).Ok? && IsShort(ApplyCart(vs, p[..i]).value, p[i])
        && ApplyCart(vs, p).error == ShortOfStock(p[i].productName);
      assert p[..i] == cart[..i] && p[i] == cart[i];
    } else {
      assert cart[..|cart| - 1] == p;
    }
  }

  /** Conversely, the first short line makes the whole checkout fail with its product's name. */
  lemma ShortLineRefusesCheckout(vs: map<int, Variant>, cart: seq<CartLine>, i: nat)
    requires i < |cart| && ApplyCart(vs, cart[..i]).Ok? && IsShort(ApplyCart(vs, cart[..i]).value, cart[i])
    ensures ApplyCart(vs, cart) == Err(ShortOfStock(cart[i].productName))
  {
    assert cart[..i + 1][..i] == cart[..i];
    RefusalIsFinal(vs, cart, i + 1);
  }

  /**
   * Two lines for the same variant are checked cumulatively: the second is
   * checked against the stock the first left.
   */
  lemma SameVariantCheckedCumulatively(vs: map<int, Variant>, a: CartLine, b: CartLine)
    requires a.variantId == b.variantId && a.variantId in vs
    ensures ApplyCart(vs, [a, b]).Ok? <==>
      a.quantity <= vs[a.variantId].stock && b.quantity <= vs[a.variantId].stock - a.quantity
  {
    assert [a][..0] == [];
    assert ApplyCart(vs, [a]) == CheckLine(vs, a);
    assert [a, b][..1] == [a];
    assert ApplyCart(vs, [a, b]) == match CheckLine(vs, a) case Err(e) => Err(e) case Ok(m) => CheckLine(m, b);
  }

  /**
   * Quantities are not validated: in a store without negative stock, a cart
   * of zero or negative quantities on existing variants always goes
   * through, and no stock goes down.
   */
  lemma {:induction false} NonPositiveQuantitiesAccepted(vs: map<int, Variant>, cart: seq<CartLine>)
    requires forall k | k in vs :: vs[k].stock >= 0
    requires forall i | 0 <= i < |cart| :: cart[i].variantId in vs && cart[i].quantity <= 0
    ensures ApplyCart(vs, cart).Ok?
    ensures ApplyCart(vs, cart).value.Keys == vs.Keys
    ensures forall k | k in vs :: ApplyCart(vs, cart).value[k].stock >= vs[k].stock
  {
    if cart != [] {
      var p := cart[..|cart| - 1];
      forall i | 0 <= i < |p| ensures p[i].variantId in vs && p[i].quantity <= 0 {
        assert p[i] == cart[i];
      }
      NonPositiveQuantitiesAccepted(vs, p);
    }
  }

  /** Variant `k` is named by some line of the cart. */
  predicate Names(cart: seq<CartLine>, k: int)
  {
    exists i | 0 <= i < |cart| :: cart[i].variantId == k
  }

  /**
   * No stock goes below zero at checkout: a variant a successful cart names
   * ends with non-negative stock whatever the quantities, and one it does not
   * name keeps its stock; so a store with no negative stock keeps none.
   */
  lemma {:induction false} CheckoutKeepsStockNonNegative(vs: map<int, Variant>, cart: seq<CartLine>)
    requires ApplyCart(vs, cart).Ok?
    ensures forall k | k in ApplyCart(vs, cart).value ::
      || ApplyCart(vs, cart).value[k].stock >= 0
      || (!Names(cart, k) && k in vs && ApplyCart(vs, cart).value[k].stock == vs[k].stock)
  {
    if cart != [] {
      var p := cart[..|cart| - 1];
      CheckoutKeepsStockNonNegative(vs, p);
      var m := ApplyCart(vs, p).value;
      var r := ApplyCart(vs, cart).value;
      forall k | k in r
        ensures r[k].stock >= 0 || (!Names(cart, k) && k in vs && r[k].stock == vs[k].stock)
      {
        if k != cart[|cart| - 1].variantId && r[k].stock < 0 {
          assert r[k] == m[k];
          assert !Names(p, k);
        }
      }
    }
  }

  /**
   * The name stored on the order: the supplied name unchanged (not trimmed)
   * unless it is blank once stripped, in which case the walk-in name.
   */
  function CustomerNameFor(supplied: string): string
  {
    if Strip(supplied) != "" then supplied else WalkIn
  }

  /** The walk-in name is stored exactly when the supplied name is blank. */
  lemma WalkInIffBlank(supplied: string)
    ensures AllWhitespace(supplied) ==> CustomerNameFor(supplied) == WalkIn
    ensures !AllWhitespace(supplied) ==> CustomerNameFor(supplied) == supplied
  {
    StripIsTrimmedSlice(supplied);
  }

  /** `OrderItem(product_name, variant_info=f"{color} - Size {size}", quantity, price)` */
  function Snapshot(line: CartLine): OrderItem
  {
    OrderItem(line.productName, line.color + " - Size " + line.size, line.quantity, line.price)
  }

  /** The order items of a cart, one per line and in cart order. */
  function Snapshots(cart: seq<CartLine>): (items: seq<OrderItem>)
    ensures |items| == |cart|
    ensures forall i | 0 <= i < |cart| ::
      && items[i].quantity == cart[i].quantity
      && items[i].price == cart[i].price
      && items[i].productName == cart[i].productName
      && items[i].variantInfo == cart[i].color + " - Size " + cart[i].size
  {
    seq(|cart|, i requires 0 <= i < |cart| => Snapshot(cart[i]))
  }

  /** The 500 response of an unhandled exception. */
  const InternalServerError := ApiError(500, "Internal Server Error")

  /**
   * The handler as written against the `Order` table as declared: when the
   * stock loop passes, `Order(total_amount=..., customer_name=...)` raises
   * TypeError because the table has no such column; the request ends with
   * 500 and the session's decrements are never committed.
   */
  function CheckoutAsWritten(vs: map<int, Variant>, cart: seq<CartLine>): Result<map<int, Variant>, ApiError>
  {
    match ApplyCart(vs, cart)
    case Err(e) => Err(e)
    case Ok(_) => Err(InternalServerError)
  }

  /** As written, a cart the stock allows is still refused, with a 500. */
  lemma AsWrittenRefusesServableCart()
    ensures var vs := map[1 := Variant(1, 1, "Đen", "40", 300000, 5)];
      var cart := [CartLine(1, 2, 300000, "Giày", "Đen", "40")];
      && ApplyCart(vs, cart).Ok?
      && CheckoutAsWritten(vs, cart) == Err(InternalServerError)
  {
    var cart := [CartLine(1, 2, 300000, "Giày", "Đen", "40")];
    assert cart[..0] == [];
  }
}
