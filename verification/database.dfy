/**
 * The shop's tables and the two handlers that change them: `checkout`
 * (POST /checkout) and `update_product` (PUT /products/{id}). A handler
 * works on its session's copy of the rows and commits at the end; a
 * refused request commits nothing.
 */
module Database {
  import opened Wrappers
  import opened Schema
  import opened Cart
  import opened Checkout
  import opened Reconcile
  import opened History

  /**
   * Products and variants are stored under their own ids, variant ids
   * below the next one to hand out, and every variant belongs to a stored
   * product.
   */
  predicate CatalogValid(products: map<int, Product>, variants: map<int, Variant>, nextVariantId: int)
  {
    && (forall k | k in products :: products[k].id == k)
    && (forall k | k in variants :: variants[k].id == k && k < nextVariantId)
    && (forall k | k in variants :: variants[k].productId in products)
  }

  /**
   * Orders are kept in the order they were placed, with increasing ids
   * below the next one to hand out, and each order's total is what its
   * items are worth.
   */
  predicate OrderBookValid(orders: seq<Order>, nextOrderId: int)
  {
    && (forall i | 0 <= i < |orders| :: orders[i].id < nextOrderId)
    && (forall i, j | 0 <= i < j < |orders| :: orders[i].id < orders[j].id)
    && (forall i | 0 <= i < |orders| :: orders[i].totalAmount == ItemsValue(orders[i].items))
  }

  /** Placing an order with the next id and a consistent total keeps the order book valid. */
  lemma PlacingKeepsOrderBookValid(orders: seq<Order>, nextOrderId: int, o: Order)
    requires OrderBookValid(orders, nextOrderId)
    requires o.id == nextOrderId && o.totalAmount == ItemsValue(o.items)
    ensures OrderBookValid(orders + [o], nextOrderId + 1)
  {
    var r := orders + [o];
    forall i, j | 0 <= i < j < |r| ensures r[i].id < r[j].id {
      if j < |orders| { assert r[i] == orders[i] && r[j] == orders[j]; }
    }
  }

  /** A successful stock loop keeps the catalog valid. */
  lemma CheckoutKeepsCatalogValid(
    products: map<int, Product>, variants: map<int, Variant>, nextVariantId: int, cart: seq<CartLine>)
    requires CatalogValid(products, variants, nextVariantId)
    requires ApplyCart(variants, cart).Ok?
    ensures CatalogValid(products, ApplyCart(variants, cart).value, nextVariantId)
  {
    StockAfterCheckout(variants, cart);
  }

  /**
   * Updating a product keeps the catalog valid: every variant the
   * reconciliation keeps or adds has its own id, below the next free one,
   * and belongs to an existing product.
   */
  lemma UpdateKeepsCatalogValid(
    products: map<int, Product>, variants: map<int, Variant>, nextVariantId: int,
    pid: int, name: string, imagePath: string, incoming: seq<VariantUpdate>)
    requires CatalogValid(products, variants, nextVariantId) && pid in products
    ensures var (m, n) := Reconcile.Reconcile(variants, pid, incoming, nextVariantId);
      CatalogValid(products[pid := products[pid].(name := name, imagePath := imagePath)], m, n)
  {
    var (m, n) := Reconcile.Reconcile(variants, pid, incoming, nextVariantId);
    ReconcileEffect(variants, pid, incoming, nextVariantId);
    forall k | k in m ensures m[k].id == k && m[k].productId in products && k < n {
      if k in variants {
        assert m[k] == variants[k] || m[k] == Overwrite(variants[k], LastWithId(incoming, k).value);
      } else {
        var j := k - nextVariantId;
        assert 0 <= j < n - nextVariantId;
        assert m[nextVariantId + j] == NewVariant(nextVariantId + j, pid, Inserted(incoming, Current(variants, pid))[j]);
      }
    }
  }

  /**
   * The loop of `update_product` over the incoming variants, after the
   * deletion: an entry naming a current variant overwrites it, any other
   * is inserted under the next free id.
   */
  method ApplyIncoming(kept: map<int, Variant>, pid: int, current: set<int>, incoming: seq<VariantUpdate>, next: int)
    returns (m: map<int, Variant>, n: int)
    requires current * IncomingIds(incoming) <= kept.Keys
    requires forall k | k in kept :: k < next
    ensures (m, n) == ApplyEntries(kept, pid, current, incoming, next)
  {
    m, n := kept, next;
    var i := 0;
    while i < |incoming|
      invariant i <= |incoming|
      invariant current * IncomingIds(incoming[..i]) <= kept.Keys
      invariant (m, n) == ApplyEntries(kept, pid, current, incoming[..i], next)
    {
      var e := incoming[i];
      assert incoming[..i + 1][..i] == incoming[..i];
      IncomingIdsPrefix(incoming, i + 1);
      assert e.id.Some? ==> e.id.value in IncomingIds(incoming[..i + 1]);
      if e.id.Some? && e.id.value != 0 && e.id.value in current {
        var v := m[e.id.value];
        m := m[e.id.value := v.(color := e.color, size := e.size, price := e.price, stock := e.stock)];
      } else {
        m := m[n := Variant(n, pid, e.color, e.size, e.price, e.stock)];
        n := n + 1;
      }
      i := i + 1;
    }
    assert incoming[..i] == incoming;
  }

  /** The order `checkout` records for a cart it accepts. */
  function PlacedOrder(id: int, now: DateTime, customerName: string, cart: seq<CartLine>): Order
  {
    Order(id, now, CartTotal(cart), CustomerNameFor(customerName), Snapshots(cart))
  }

  /** A checkout the stock allows keeps both the catalog and the order book valid. */
  lemma CheckoutKeepsStoreValid(
    products: map<int, Product>, variants: map<int, Variant>, nextVariantId: int,
    orders: seq<Order>, nextOrderId: int, now: DateTime, customerName: string, cart: seq<CartLine>)
    requires CatalogValid(products, variants, nextVariantId) && OrderBookValid(orders, nextOrderId)
    requires ApplyCart(variants, cart).Ok?
    ensures CatalogValid(products, ApplyCart(variants, cart).value, nextVariantId)
    ensures OrderBookValid(orders + [PlacedOrder(nextOrderId, now, customerName, cart)], nextOrderId + 1)
  {
    CheckoutKeepsCatalogValid(products, variants, nextVariantId, cart);
    SnapshotsKeepValue(cart);
    PlacingKeepsOrderBookValid(orders, nextOrderId, PlacedOrder(nextOrderId, now, customerName, cart));
  }

  /**
   * The stock loop of `checkout`, on the session's copy of the variants:
   * stops at the first line that cannot be served.
   */
  method TakeStock(variants: map<int, Variant>, cart: seq<CartLine>) returns (outcome: Result<map<int, Variant>, ApiError>)
    ensures outcome == ApplyCart(variants, cart)
  {
    var pending := variants;
    var i := 0;
    while i < |cart|
      invariant i <= |cart|
      invariant ApplyCart(variants, cart[..i]) == Ok(pending)
    {
      var line := cart[i];
      assert cart[..i + 1][..i] == cart[..i];
      if line.variantId !in pending || pending[line.variantId].stock < line.quantity {
        RefusalIsFinal(variants, cart, i + 1);
        return Err(ShortOfStock(line.productName));
      }
      var v := pending[line.variantId];
      pending := pending[line.variantId := v.(stock := v.stock - line.quantity)];
      i := i + 1;
    }
    assert cart[..i] == cart;
    return Ok(pending);
  }

  /** The loop of `checkout` that makes one order item per cart line. */
  method OrderItemsOf(cart: seq<CartLine>) returns (items: seq<OrderItem>)
    ensures items == Snapshots(cart)
  {
    items := [];
    var i := 0;
    while i < |cart|
      invariant i <= |cart| && |items| == i
      invariant forall j | 0 <= j < i :: items[j] == Snapshot(cart[j])
    {
      items := items + [Snapshot(cart[i])];
      i := i + 1;
    }
  }

  class Store {
    var products: map<int, Product>
    var variants: map<int, Variant>
    var orders: seq<Order>
    /** The id the next inserted variant receives. */
    var nextVariantId: int
    /** The id the next inserted order receives. */
    var nextOrderId: int

    ghost predicate Valid()
      reads this
    {
      CatalogValid(products, variants, nextVariantId) && OrderBookValid(orders, nextOrderId)
    }

    /** An empty shop. */
    constructor ()
      ensures Valid()
      ensures products == map[] && variants == map[] && orders == []
    {
      products := map[];
      variants := map[];
      orders := [];
      nextVariantId := 1;
      nextOrderId := 1;
    }

    /**
     * `checkout`: takes each line's quantity off its variant's stock, in
     * cart order, and records the order with the cart's total, the
     * customer's name and a snapshot of every line. The first line whose
     * variant is missing or short refuses the whole request with that
     * line's 400 error, and nothing is stored.
     */
    method Checkout(customerName: string, cart: seq<CartLine>, now: DateTime) returns (error: Option<ApiError>)
      requires Valid()
      modifies this
      ensures Valid()
      ensures error.Some? <==> ApplyCart(old(variants), cart).Err?
      ensures error.Some? ==>
        && error.value == ApplyCart(old(variants), cart).error
        && unchanged(this)
      ensures error.None? ==>
        && products == old(products)
        && nextVariantId == old(nextVariantId)
        && nextOrderId == old(nextOrderId) + 1
        && variants == ApplyCart(old(variants), cart).value
        && orders == old(orders) + [PlacedOrder(old(nextOrderId), now, customerName, cart)]
    {
      var ps, vs, os, nextId := products, variants, orders, nextOrderId;
      var total := CartTotal(cart);
      var outcome := TakeStock(vs, cart);
      if outcome.Err? {
        return Some(outcome.error);
      }
      var items := OrderItemsOf(cart);
      var order := Order(nextId, now, total, CustomerNameFor(customerName), items);
      assert order == PlacedOrder(nextId, now, customerName, cart);
      CheckoutKeepsStoreValid(ps, vs, nextVariantId, os, nextId, now, customerName, cart);
      variants, orders, nextOrderId := outcome.value, os + [order], nextId + 1;
      error := None;
    }

    /**
     * `update_product`: 404 "Not found" when the product does not exist;
     * otherwise renames it, sets its image and reconciles its variants with
     * the incoming list.
     */
    method UpdateProduct(pid: int, name: string, imagePath: string, incoming: seq<VariantUpdate>)
      returns (error: Option<ApiError>)
      requires Valid()
      modifies this
      ensures Valid()
      ensures pid !in old(products) ==> error == Some(ApiError(404, "Not found")) && unchanged(this)
      ensures pid in old(products) ==>
        && error.None?
        && products == old(products)[pid := old(products)[pid].(name := name, imagePath := imagePath)]
        && (variants, nextVariantId) == Reconcile.Reconcile(old(variants), pid, incoming, old(nextVariantId))
        && orders == old(orders)
        && nextOrderId == old(nextOrderId)
    {
      if pid !in products {
        return Some(ApiError(404, "Not found"));
      }
      var ps, vs, next := products, variants, nextVariantId;
      var product := ps[pid];
      var current := Current(vs, pid);
      var toDelete := current - IncomingIds(incoming);
      var kept := vs - toDelete;
      var m, n := ApplyIncoming(kept, pid, current, incoming, next);
      assert (m, n) == Reconcile.Reconcile(vs, pid, incoming, next);
      UpdateKeepsCatalogValid(ps, vs, next, pid, name, imagePath, incoming);
      products := ps[pid := product.(name := name, imagePath := imagePath)];
      variants, nextVariantId := m, n;
      error := None;
    }
  }
}
