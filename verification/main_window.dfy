/**
 * The client's main window as far as the point-of-sale screen goes: the
 * cart it keeps, the cart panel and its total, deleting a cart line, the
 * client-side checkout button, and the placement of product cards in the
 * grid.
 */
module MainWindow {
  import opened Wrappers
  import opened Text
  import opened Numerals
  import opened Schema
  import opened Cart
  import opened Catalog
  import BuyDialog

  /** `str(n)` on an int: an optional minus sign and the decimal digits. */
  function IntText(n: int): string
  {
    (if n < 0 then "-" else "") + Decimal(if n < 0 then -n else n)
  }

  /** `int(str(n)) == n` */
  lemma IntTextReadsBack(n: int)
    ensures ParseInt(IntText(n)) == Some(n)
  {
    SignedDecimalParses(n);
  }

  /** One row of the cart table: the item text, the quantity and the line's money. */
  datatype CartRow = CartRow(item: string, quantity: string, amount: string)

  /** The row shown for a cart line: `"{name}\n{size}/{color}"`, `str(quantity)`, `f"{sum:,}"`. */
  function RowOf(line: CartLine): CartRow
  {
    CartRow(line.productName + "\n" + line.size + "/" + line.color, IntText(line.quantity), Grouped(Subtotal(line), ','))
  }

  /** The text of the total label: `f"Tổng: {total:,} đ"`. */
  function TotalLabel(total: int): string
  {
    "Tổng: " + Grouped(total, ',') + " đ"
  }

  /** The label carries the total, which reads back once its commas are removed. */
  lemma TotalLabelShowsTotal(total: int)
    ensures exists g ::
      && TotalLabel(total) == "Tổng: " + g + " đ"
      && ParseInt(Without(g, ',')) == Some(total)
  {
    GroupedWithoutSeparators(total, ',');
    SignedDecimalParses(total);
    var g := Grouped(total, ',');
    assert TotalLabel(total) == "Tổng: " + g + " đ";
  }

  /**
   * The position `del s[idx]` removes from a list of length `n`: a negative
   * index counts from the end; outside `-n .. n - 1` it raises IndexError
   * (None).
   */
  function PythonIndex(n: nat, idx: int): (k: Option<nat>)
    ensures k.Some? <==> -(n as int) <= idx < n
    ensures k.Some? ==> k.value < n && (k.value == idx || k.value == idx + n)
  {
    if 0 <= idx < n then Some(idx)
    else if -(n as int) <= idx < 0 then Some(idx + n)
    else None
  }

  /** `del s[idx]` on a list value: the list without the element at that position, or IndexError. */
  function Deleted<T>(s: seq<T>, idx: int): Option<seq<T>>
  {
    match PythonIndex(|s|, idx)
    case None => None
    case Some(k) => Some(s[..k] + s[k + 1..])
  }

  /**
   * Deleting removes exactly the element at the position and keeps the
   * others in order; the cart total drops by that line's money and the
   * lines, counted with repetition, lose that one line.
   */
  lemma DeletedRemovesOne(s: seq<CartLine>, idx: int)
    ensures Deleted(s, idx).Some? <==> -(|s| as int) <= idx < |s|
    ensures Deleted(s, idx).Some? ==>
      var k := PythonIndex(|s|, idx).value;
      var r := Deleted(s, idx).value;
      && |r| == |s| - 1
      && (forall i | 0 <= i < k :: r[i] == s[i])
      && (forall i | k <= i < |r| :: r[i] == s[i + 1])
      && multiset(r) + multiset{s[k]} == multiset(s)
      && CartTotal(r) == CartTotal(s) - Subtotal(s[k])
  {
    if Deleted(s, idx).Some? {
      var k := PythonIndex(|s|, idx).value;
      var r := Deleted(s, idx).value;
      assert s == s[..k] + [s[k]] + s[k + 1..];
      assert multiset(s) == multiset(s[..k]) + multiset{s[k]} + multiset(s[k + 1..]);
      CartTotalAppend(s[..k] + [s[k]], s[k + 1..]);
      CartTotalAppend(s[..k], [s[k]]);
      CartTotalAppend(s[..k], s[k + 1..]);
      assert [s[k]][..0] == [];
    }
  }

  /**
   * The column count of the grid for a scroll area `width` pixels wide:
   * cards are 145 wide with a gap of 10, after 20 pixels of margin, and
   * there is always at least one column.
   */
  function ColumnCount(width: int): (n: int)
    ensures n >= 1
  {
    var fit := (width - 20) / (145 + 10);
    if fit > 1 then fit else 1
  }

  /**
   * The column count is the number of whole 155-pixel slots in the width
   * left after the margin, or 1 when not even one fits.
   */
  lemma ColumnCountFits(width: int)
    ensures var n := ColumnCount(width);
      && (width - 20 < 2 * 155 ==> n == 1)
      && (width - 20 >= 155 ==> n * 155 <= width - 20 < (n + 1) * 155)
  {
  }

  /** One product card in the grid, at its row and column. */
  datatype Card = Card(product: ProductView, row: int, col: int)

  /** Multiplying by a non-negative number keeps the order. */
  lemma MulMonotone(n: int, a: int, b: int)
    requires n >= 0
    ensures a <= b ==> n * a <= n * b
  {
    if a <= b {
      assert n * b == n * a + n * (b - a);
    }
  }

  /** `q` and `r` are the quotient and remainder of `i` by `n` exactly when `i == q * n + r` with `0 <= r < n`. */
  lemma DivModUnique(n: int, i: int, q: int, r: int)
    requires n >= 1 && 0 <= r < n && i == q * n + r
    ensures i / n == q && i % n == r
  {
    var q', r' := i / n, i % n;
    assert i == q' * n + r';
    MulMonotone(n, q + 1, q');
    MulMonotone(n, q' + 1, q);
    assert n * (q + 1) == n * q + n && n * (q' + 1) == n * q' + n;
  }

  /** Two positions in the product list never share a cell of a grid with `n` columns. */
  lemma CellsDistinct(n: int, i: nat, j: nat)
    requires n >= 1 && i != j
    ensures (i / n, i % n) != (j / n, j % n)
  {
    assert i == (i / n) * n + i % n && j == (j / n) * n + j % n;
  }

  /** The grid is filled row by row: a later product sits on a later row, or further right on the same row. */
  lemma CellsRowMajor(n: int, i: nat, j: nat)
    requires n >= 1 && i < j
    ensures i / n < j / n || (i / n == j / n && i % n < j % n)
  {
    assert i == (i / n) * n + i % n && j == (j / n) * n + j % n;
    MulMonotone(n, j / n + 1, i / n);
    assert n * (j / n + 1) == n * (j / n) + n;
  }

  /** The loop of `update_cart_ui`: one table row per cart line, in order, and the running total. */
  method CartPanel(cart: seq<CartLine>) returns (table: seq<CartRow>, total: int)
    ensures |table| == |cart| && forall j | 0 <= j < |cart| :: table[j] == RowOf(cart[j])
    ensures total == CartTotal(cart)
  {
    table := [];
    total := 0;
    var i := 0;
    while i < |cart|
      invariant i <= |cart|
      invariant |table| == i && forall j | 0 <= j < i :: table[j] == RowOf(cart[j])
      invariant total == CartTotal(cart[..i])
    {
      var line := cart[i];
      var sum := Subtotal(line);  // `price * quantity`: the same product
      total := total + sum;
      table := table + [RowOf(line)];
      assert cart[..i + 1][..i] == cart[..i];
      i := i + 1;
    }
    assert cart[..i] == cart;
  }

  /** The placement loop of `recalculate_grid_columns`: row and column counters, `n` cards to a row. */
  method LayOut(products: seq<ProductView>, n: int) returns (cards: seq<Card>)
    requires n >= 1
    ensures |cards| == |products|
    ensures forall i | 0 <= i < |cards| :: cards[i] == Card(products[i], i / n, i % n) && 0 <= cards[i].col < n
  {
    cards := [];
    var row, col := 0, 0;
    var i := 0;
    while i < |products|
      invariant i <= |products|
      invariant 0 <= col < n && i == row * n + col
      invariant |cards| == i
      invariant forall j | 0 <= j < i :: cards[j] == Card(products[j], j / n, j % n)
    {
      DivModUnique(n, i, row, col);
      cards := cards + [Card(products[i], row, col)];
      col := col + 1;
      if col >= n {
        col := 0;
        row := row + 1;
      }
      i := i + 1;
    }
  }

  class MainWindow {
    /** `self.cart` */
    var cart: seq<CartLine>
    /** The rows of `self.cart_table`. */
    var rows: seq<CartRow>
    /** The text of `self.lbl_total`. */
    var totalText: string
    /** `self.current_products`, the last listing loaded for the grid. */
    var currentProducts: seq<ProductView>
    /** The width of `self.grid_scroll`. */
    var gridWidth: int
    /** The cards in `self.product_grid`. */
    var grid: seq<Card>

    /** The cart panel shows each line of the cart, in order, and the cart's total. */
    ghost predicate PanelShowsCart()
      reads this
    {
      && |rows| == |cart|
      && (forall i | 0 <= i < |cart| :: rows[i] == RowOf(cart[i]))
      && totalText == TotalLabel(CartTotal(cart))
    }

    constructor (width: int)
      ensures cart == [] && rows == [] && currentProducts == [] && grid == [] && gridWidth == width
      ensures PanelShowsCart()
    {
      cart := [];
      rows := [];
      totalText := TotalLabel(0);
      currentProducts := [];
      gridWidth := width;
      grid := [];
    }

    /** `update_cart_ui`: rebuilds the cart table and totals `price * quantity` over the cart. */
    method UpdateCartUi()
      modifies this
      ensures PanelShowsCart()
      ensures cart == old(cart) && currentProducts == old(currentProducts)
      ensures gridWidth == old(gridWidth) && grid == old(grid)
    {
      var table, total := CartPanel(cart);
      rows := table;
      totalText := TotalLabel(total);
    }

    /**
     * `on_card_click` in point-of-sale mode, once the buy dialog `dlg` is
     * closed: when it was accepted, its selected lines are appended to the
     * cart and the panel is refreshed.
     */
    method OnCardClosed(dlg: BuyDialog.BuyDialog)
      requires PanelShowsCart()
      modifies this
      ensures PanelShowsCart()
      ensures cart == old(cart) + (if dlg.accepted then dlg.selected else [])
      ensures totalText == TotalLabel(CartTotal(old(cart)) + if dlg.accepted then CartTotal(dlg.selected) else 0)
      ensures currentProducts == old(currentProducts) && gridWidth == old(gridWidth) && grid == old(grid)
    {
      if dlg.accepted {
        CartTotalAppend(cart, dlg.selected);
        cart := cart + dlg.selected;
        UpdateCartUi();
      }
    }

    /**
     * `remove_cart_item(idx)`: `del self.cart[idx]`, then the panel is
     * rebuilt. The delete buttons are made afresh with the panel after
     * every change, so their indices always lie inside the cart. An index
     * outside it would raise IndexError before anything is changed (under
     * PyQt an exception escaping a slot ends the process); the model
     * reports that case and leaves the window's state as it was.
     */
    method RemoveCartItem(idx: int) returns (raised: bool)
      requires PanelShowsCart()
      modifies this
      ensures PanelShowsCart()
      ensures raised <==> Deleted(old(cart), idx).None?
      ensures raised ==> cart == old(cart) && rows == old(rows) && totalText == old(totalText)
      ensures !raised ==> cart == Deleted(old(cart), idx).value
      ensures currentProducts == old(currentProducts) && gridWidth == old(gridWidth) && grid == old(grid)
    {
      var k := PythonIndex(|cart|, idx);
      if k.None? {
        return true;
      }
      cart := cart[..k.value] + cart[k.value + 1..];
      UpdateCartUi();
      return false;
    }

    /**
     * The client's checkout button. An empty cart does nothing. Otherwise
     * the cart is posted; `requests` raises only when the server cannot be
     * reached (`reached` false), which leaves the cart as it was. Any
     * response, including an error status, empties the cart.
     */
    method Checkout(reached: bool)
      requires PanelShowsCart()
      modifies this
      ensures PanelShowsCart()
      ensures cart == if old(cart) != [] && reached then [] else old(cart)
      ensures currentProducts == old(currentProducts) && gridWidth == old(gridWidth) && grid == old(grid)
    {
      if cart == [] || !reached {
        return;
      }
      cart := [];
      UpdateCartUi();
    }

    /**
     * `recalculate_grid_columns`: with no products loaded the grid is left
     * as it is; otherwise it is cleared and the cards are laid out row by
     * row, `ColumnCount(gridWidth)` to a row.
     */
    method RecalculateGridColumns()
      modifies this
      ensures currentProducts == [] ==> grid == old(grid)
      ensures currentProducts != [] ==>
        var n := ColumnCount(gridWidth);
        && |grid| == |currentProducts|
        && forall i | 0 <= i < |grid| ::
             && grid[i] == Card(currentProducts[i], i / n, i % n)
             && 0 <= grid[i].col < n
      ensures currentProducts == old(currentProducts) && gridWidth == old(gridWidth)
      ensures cart == old(cart) && rows == old(rows) && totalText == old(totalText)
    {
      if currentProducts == [] {
        return;
      }
      grid := LayOut(currentProducts, ColumnCount(gridWidth));
    }

    /** `on_products_loaded`: the new listing is kept and the grid laid out again. */
    method OnProductsLoaded(products: seq<ProductView>)
      modifies this
      ensures currentProducts == products && gridWidth == old(gridWidth)
      ensures products == [] ==> grid == old(grid)
      ensures products != [] ==>
        && |grid| == |products|
        && forall i | 0 <= i < |grid| :: grid[i].product == products[i] && 0 <= grid[i].col < ColumnCount(gridWidth)
      ensures cart == old(cart) && rows == old(rows) && totalText == old(totalText)
    {
      currentProducts := products;
      RecalculateGridColumns();
    }

    /** `resizeEvent`: the grid is laid out again for the new width. */
    method Resize(width: int)
      modifies this
      ensures gridWidth == width && currentProducts == old(currentProducts)
      ensures currentProducts == [] ==> grid == old(grid)
      ensures currentProducts != [] ==>
        && |grid| == |currentProducts|
        && forall i | 0 <= i < |grid| :: grid[i].product == currentProducts[i] && 0 <= grid[i].col < ColumnCount(width)
      ensures cart == old(cart) && rows == old(rows) && totalText == old(totalText)
    {
      gridWidth := width;
      RecalculateGridColumns();
    }
  }
}
