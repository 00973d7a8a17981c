/** Cart arithmetic, shared by the checkout handler and the client's cart panel. */
module Cart {
  import opened Schema

  function Subtotal(line: CartLine): int
  {
    line.quantity * line.price
  }

  /** `sum(item.quantity * item.price for item in cart)` */
  function CartTotal(cart: seq<CartLine>): int
  {
    if cart == [] then 0 else CartTotal(cart[..|cart| - 1]) + Subtotal(cart[|cart| - 1])
  }

  /** The total of a cart is the total of its parts, whichever way it is split. */
  lemma {:induction false} CartTotalAppend(a: seq<CartLine>, b: seq<CartLine>)
    ensures CartTotal(a + b) == CartTotal(a) + CartTotal(b)
    decreases |b|
  {
    if b != [] {
      assert (a + b)[..|a + b| - 1] == a + b[..|b| - 1];
      CartTotalAppend(a, b[..|b| - 1]);
    } else {
      assert a + b == a;
    }
  }

  /** The number of pieces in a cart. */
  function CartQuantity(cart: seq<CartLine>): int
  {
    if cart == [] then 0 else CartQuantity(cart[..|cart| - 1]) + cart[|cart| - 1].quantity
  }
}
