/**
 * The order history served by `get_orders` (GET /orders): orders newest
 * first, each with its date text, its money and piece totals and its items.
 */
module History {
  import opened Schema
  import opened Numerals
  import opened Cart
  import opened Checkout

  // ---------------------------------------------------------------------
  // `ORDER BY created_at DESC`

  /** Being earlier is a strict total order: never both ways, transitive, and total on distinct datetimes. */
  lemma BeforeIsStrictOrder(a: DateTime, b: DateTime, c: DateTime)
    ensures !(Before(a, b) && Before(b, a))
    ensures a == b || Before(a, b) || Before(b, a)
    ensures Before(a, b) && Before(b, c) ==> Before(a, c)
    ensures !Before(a, b) && !Before(b, c) ==> !Before(a, c)
  {
  }

  /** Every order is at least as recent as every order after it. */
  predicate NewestFirstOrdered(s: seq<Order>)
  {
    forall i, j | 0 <= i < j < |s| :: !Before(s[i].createdAt, s[j].createdAt)
  }

  /** Puts `o` in front of the first order that is not more recent than it. */
  function Insert(o: Order, s: seq<Order>): (r: seq<Order>)
    ensures |r| == |s| + 1
    ensures multiset(r) == multiset(s) + multiset{o}
  {
    if s == [] then [o]
    else if !Before(o.createdAt, s[0].createdAt) then [o] + s
    else
      assert s == [s[0]] + s[1..];
      [s[0]] + Insert(o, s[1..])
  }

  /** No order of `s` is more recent than `d`. */
  predicate NoneAfter(d: DateTime, s: seq<Order>)
  {
    forall j | 0 <= j < |s| :: !Before(d, s[j].createdAt)
  }

  /** Inserting an order no more recent than `d` keeps every order no more recent than `d`. */
  lemma {:induction false} InsertKeepsBound(d: DateTime, o: Order, s: seq<Order>)
    requires NoneAfter(d, s) && !Before(d, o.createdAt)
    ensures NoneAfter(d, Insert(o, s))
  {
    if s != [] && Before(o.createdAt, s[0].createdAt) {
      assert NoneAfter(d, s[1..]) by {
        forall j | 0 <= j < |s[1..]| ensures !Before(d, s[1..][j].createdAt) { assert s[1..][j] == s[j + 1]; }
      }
      InsertKeepsBound(d, o, s[1..]);
    }
  }

  /** Inserting into an order list sorted newest first keeps it sorted. */
  lemma {:induction false} InsertKeepsOrder(o: Order, s: seq<Order>)
    requires NewestFirstOrdered(s)
    ensures NewestFirstOrdered(Insert(o, s))
  {
    var r := Insert(o, s);
    if s == [] {
    } else if !Before(o.createdAt, s[0].createdAt) {
      forall j | 1 <= j < |r| ensures !Before(o.createdAt, r[j].createdAt) {
        if j > 1 { BeforeIsStrictOrder(o.createdAt, s[0].createdAt, s[j - 1].createdAt); }
      }
    } else {
      var t := Insert(o, s[1..]);
      assert NewestFirstOrdered(s[1..]) && NoneAfter(s[0].createdAt, s[1..]) by {
        forall i, j | 0 <= i < j < |s[1..]| ensures !Before(s[1..][i].createdAt, s[1..][j].createdAt) {
          assert s[1..][i] == s[i + 1] && s[1..][j] == s[j + 1];
        }
        forall j | 0 <= j < |s[1..]| ensures !Before(s[0].createdAt, s[1..][j].createdAt) {
          assert s[1..][j] == s[j + 1];
        }
      }
      InsertKeepsOrder(o, s[1..]);
      BeforeIsStrictOrder(o.createdAt, s[0].createdAt, o.createdAt);
      InsertKeepsBound(s[0].createdAt, o, s[1..]);
      assert r == [s[0]] + t;
    }
  }

  /**
   * The orders newest first. Orders with the same timestamp keep no
   * particular order in SQL; this one keeps them in table order.
   */
  function NewestFirst(orders: seq<Order>): (r: seq<Order>)
    ensures |r| == |orders|
    ensures multiset(r) == multiset(orders)
    ensures NewestFirstOrdered(r)
  {
    if orders == [] then []
    else
      assert orders == [orders[0]] + orders[1..];
      InsertKeepsOrder(orders[0], NewestFirst(orders[1..]));
      Insert(orders[0], NewestFirst(orders[1..]))
  }

  // ---------------------------------------------------------------------
  // `created_at.strftime("%d/%m %H:%M")`

  /** A number below 100 as two digits, zero-padded. */
  function Pad2(n: nat): (s: string)
    requires n < 100
    ensures |s| == 2 && AllDigits(s) && DigitsValue(s) == n
  {
    var s := [DigitChar(n / 10), DigitChar(n % 10)];
    assert s[..1] == [DigitChar(n / 10)] && [DigitChar(n / 10)][..0] == [];
    assert DigitsValue(s[..1]) == n / 10;
    s
  }

  function DisplayDate(t: DateTime): string
  {
    Pad2(t.day) + "/" + Pad2(t.month) + " " + Pad2(t.hour) + ":" + Pad2(t.minute)
  }

  /** The date text is "dd/mm HH:MM" and reads back to the day, month, hour and minute. */
  lemma DisplayDateReadsBack(t: DateTime)
    ensures var s := DisplayDate(t);
      && |s| == 11 && s[2] == '/' && s[5] == ' ' && s[8] == ':'
      && AllDigits(s[0..2]) && DigitsValue(s[0..2]) == t.day
      && AllDigits(s[3..5]) && DigitsValue(s[3..5]) == t.month
      && AllDigits(s[6..8]) && DigitsValue(s[6..8]) == t.hour
      && AllDigits(s[9..11]) && DigitsValue(s[9..11]) == t.minute
  {
    var d, m, h, mi := Pad2(t.day), Pad2(t.month), Pad2(t.hour), Pad2(t.minute);
    var p1 := d + "/";
    var p2 := p1 + m + " ";
    var p3 := p2 + h + ":";
    var s := DisplayDate(t);
    assert s == p3 + mi;
    assert s[0..2] == p1[0..2] == d;
    assert s[3..5] == p2[3..5] == m;
    assert s[6..8] == p3[6..8] == h;
    assert s[9..11] == mi;
  }

  // ---------------------------------------------------------------------
  // The response rows.

  /** One element of an order's `items`: `{"name", "variant", "qty", "price"}`. */
  datatype ItemView = ItemView(name: string, variant: string, qty: int, price: int)

  /** One element of the JSON list `get_orders` returns. */
  datatype OrderSummary = OrderSummary(
    id: int, customer: string, date: string, totalMoney: int, totalQty: int, items: seq<ItemView>)

  function ItemViewOf(i: OrderItem): ItemView
  {
    ItemView(i.productName, i.variantInfo, i.quantity, i.price)
  }

  /** `sum(item.quantity for item in o.items)` */
  function TotalQty(items: seq<OrderItem>): int
  {
    if items == [] then 0 else TotalQty(items[..|items| - 1]) + items[|items| - 1].quantity
  }

  /** What the items of an order are worth at the prices they were sold for. */
  function ItemsValue(items: seq<OrderItem>): int
  {
    if items == [] then 0
    else ItemsValue(items[..|items| - 1]) + items[|items| - 1].quantity * items[|items| - 1].price
  }

  function SummaryOf(o: Order): OrderSummary
  {
    OrderSummary(o.id, o.customerName, DisplayDate(o.createdAt), o.totalAmount, TotalQty(o.items),
      seq(|o.items|, i requires 0 <= i < |o.items| => ItemViewOf(o.items[i])))
  }

  /** The inner loop of `get_orders`, building an order's `details`. */
  method ItemViews(items: seq<OrderItem>) returns (details: seq<ItemView>)
    ensures |details| == |items| && forall i | 0 <= i < |items| :: details[i] == ItemViewOf(items[i])
  {
    details := [];
    var k := 0;
    while k < |items|
      invariant k <= |items| && |details| == k
      invariant forall i | 0 <= i < k :: details[i] == ItemViewOf(items[i])
    {
      details := details + [ItemViewOf(items[k])];
      k := k + 1;
    }
  }

  /** `get_orders`: the loop over the orders, sorted newest first. */
  method GetOrders(orders: seq<Order>) returns (res: seq<OrderSummary>)
    ensures |res| == |orders|
    ensures forall i | 0 <= i < |res| :: res[i] == SummaryOf(NewestFirst(orders)[i])
  {
    var sorted := NewestFirst(orders);
    res := [];
    var n := 0;
    while n < |sorted|
      invariant n <= |sorted| && |res| == n
      invariant forall i | 0 <= i < n :: res[i] == SummaryOf(sorted[i])
    {
      var o := sorted[n];
      var details := ItemViews(o.items);
      assert details == SummaryOf(o).items;
      res := res + [OrderSummary(o.id, o.customerName, DisplayDate(o.createdAt), o.totalAmount, TotalQty(o.items), details)];
      n := n + 1;
    }
  }

  /** The pieces counted on an order are the pieces of the cart it was made from. */
  lemma {:induction false} SnapshotsKeepQuantity(cart: seq<CartLine>)
    ensures TotalQty(Snapshots(cart)) == CartQuantity(cart)
  {
    if cart != [] {
      assert Snapshots(cart)[..|cart| - 1] == Snapshots(cart[..|cart| - 1]);
      SnapshotsKeepQuantity(cart[..|cart| - 1]);
    }
  }

  /** The items of an order made from a cart are worth the cart's total. */
  lemma {:induction false} SnapshotsKeepValue(cart: seq<CartLine>)
    ensures ItemsValue(Snapshots(cart)) == CartTotal(cart)
  {
    if cart != [] {
      assert Snapshots(cart)[..|cart| - 1] == Snapshots(cart[..|cart| - 1]);
      SnapshotsKeepValue(cart[..|cart| - 1]);
    }
  }
}
