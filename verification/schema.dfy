/**
 * The records of the shop's database (backend/database.py) and of the
 * request bodies the API accepts (backend/api.py).
 */
module Schema {
  import opened Wrappers

  type Year = y: int | 1 <= y <= 9999 witness 1
  type Month = m: int | 1 <= m <= 12 witness 1
  type Day = d: int | 1 <= d <= 31 witness 1
  type Hour = h: int | 0 <= h < 24
  type Minute = m: int | 0 <= m < 60
  type Second = s: int | 0 <= s < 60
  type Microsecond = u: int | 0 <= u < 1000000

  /** A Python `datetime` as stored in `Order.created_at`. */
  datatype DateTime = DateTime(
    year: Year, month: Month, day: Day,
    hour: Hour, minute: Minute, second: Second, microsecond: Microsecond)

  /** `a < b` on datetimes: chronological, field by field. */
  predicate Before(a: DateTime, b: DateTime)
  {
    if a.year != b.year then a.year < b.year
    else if a.month != b.month then a.month < b.month
    else if a.day != b.day then a.day < b.day
    else if a.hour != b.hour then a.hour < b.hour
    else if a.minute != b.minute then a.minute < b.minute
    else if a.second != b.second then a.second < b.second
    else a.microsecond < b.microsecond
  }

  /** A row of `products`. */
  datatype Product = Product(id: int, name: string, description: string, imagePath: string)

  /** A row of `variants`: one colour and size of a product, with its own price and stock. */
  datatype Variant = Variant(id: int, productId: int, color: string, size: string, price: int, stock: int)

  /** A row of `order_items`: a snapshot of one cart line at the time of sale. */
  datatype OrderItem = OrderItem(productName: string, variantInfo: string, quantity: int, price: int)

  /**
   * A row of `orders` with its items. The `orders` table declares no
   * `customer_name` column although the checkout handler passes one; the
   * record carries the field the handler evidently means to store.
   */
  datatype Order = Order(
    id: int, createdAt: DateTime, totalAmount: int, customerName: string, items: seq<OrderItem>)

  /**
   * One line of a cart: the API's `CartItem`, and the same fields the
   * client keeps in `MainWindow.cart`.
   */
  datatype CartLine = CartLine(
    variantId: int, quantity: int, price: int, productName: string, color: string, size: string)

  /** The API's `VariantUpdate`: an incoming variant, with the id it had, if any. */
  datatype VariantUpdate = VariantUpdate(id: Option<int>, color: string, size: string, price: int, stock: int)

  /** An HTTPException: its status code and detail text. */
  datatype ApiError = ApiError(status: int, detail: string)
}
