/** Orders as the checkout stores them and the dashboard lists them. */
module Orders {

  import opened Base

  /** The five values the status drop-downs offer. */
  datatype Status = Pending | Processing | Shipped | Delivered | Cancelled {
    /** The value written into an order and compared by the status filter. */
    function Name(): string {
      match this
      case Pending => "pending"
      case Processing => "processing"
      case Shipped => "shipped"
      case Delivered => "delivered"
      case Cancelled => "cancelled"
    }
  }

  /** The statuses in the order the drop-downs list them. */
  const AllStatuses: seq<Status> := [Pending, Processing, Shipped, Delivered, Cancelled]

  /** Reads a status value back; any other string is not a status. */
  function ParseStatus(s: string): (r: Option<Status>)
    ensures r.Some? ==> r.value.Name() == s
  {
    if s == "pending" then Some(Pending)
    else if s == "processing" then Some(Processing)
    else if s == "shipped" then Some(Shipped)
    else if s == "delivered" then Some(Delivered)
    else if s == "cancelled" then Some(Cancelled)
    else None
  }

  /** Every status is listed exactly once, its name reads back as itself, and the five
      names are distinct. */
  lemma StatusRoundTrip(st: Status)
    ensures ParseStatus(st.Name()) == Some(st)
    ensures st in AllStatuses
    ensures forall t: Status :: t.Name() == st.Name() ==> t == st
  {
  }

  lemma AllStatusesDistinct()
    ensures |AllStatuses| == 5
    ensures forall i, j :: 0 <= i < j < |AllStatuses| ==> AllStatuses[i] != AllStatuses[j]
  {
  }

  /** A line of an order: only the book id, title, quantity and unit price are kept. */
  datatype OrderLine = OrderLine(bookId: int, title: string, quantity: int, price: int)

  datatype Order = Order(
    id: string,
    customerName: string,
    phone: string,
    email: string,
    address: string,
    items: seq<OrderLine>,
    subtotal: int,
    shipping: int,
    total: int,
    status: Status,
    paymentMethod: Option<string>,
    notes: string,
    createdAt: string,
    updatedAt: string)

  /** The "n items" figure of an order row: the sum of the line quantities. */
  function ItemCount(items: seq<OrderLine>): int {
    if |items| == 0 then 0 else items[0].quantity + ItemCount(items[1..])
  }

  /** A line's subtotal in the order details: unit price times quantity. */
  function LineSubtotal(item: OrderLine): int {
    item.price * item.quantity
  }

  /** The sum of the line subtotals. */
  function LinesTotal(items: seq<OrderLine>): int {
    if |items| == 0 then 0 else LineSubtotal(items[0]) + LinesTotal(items[1..])
  }

  /** Both sums split over a concatenation. */
  lemma {:induction false} OrderSumsAppend(a: seq<OrderLine>, b: seq<OrderLine>)
    ensures ItemCount(a + b) == ItemCount(a) + ItemCount(b)
    ensures LinesTotal(a + b) == LinesTotal(a) + LinesTotal(b)
  {
    if |a| == 0 {
      assert a + b == b;
    } else {
      assert (a + b)[0] == a[0];
      assert (a + b)[1..] == a[1..] + b;
      OrderSumsAppend(a[1..], b);
    }
  }

  /** With positive quantities the item count is at least the number of lines. */
  lemma {:induction false} ItemCountAtLeastLines(items: seq<OrderLine>)
    requires forall i :: 0 <= i < |items| ==> items[i].quantity >= 1
    ensures ItemCount(items) >= |items|
    ensures |items| > 0 ==> ItemCount(items) > 0
  {
    if |items| > 0 {
      ItemCountAtLeastLines(items[1..]);
    }
  }
}
