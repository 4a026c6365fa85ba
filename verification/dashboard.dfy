/** The admin dashboard from `dashboard.js`: the order list with its status filter and
    search, the recent-orders table, the derived figures of an order row, the stock
    colour of the inventory table, and the status drop-down. */
module Dashboard {

  import opened Base
  import opened Seqs
  import opened Text
  import opened Pricing
  import opened Catalog
  import opened Orders

  /** The status filter: a non-empty value keeps the orders whose status is exactly it. */
  function FilterByStatus(orders: seq<Order>, filter: string): seq<Order> {
    if filter != "" then Filter(orders, (o: Order) => o.status.Name() == filter) else orders
  }

  /** The search box: the lower-cased query occurs in the lower-cased id or customer name,
      or in the phone number as stored (the phone is not lower-cased). */
  predicate MatchesSearch(o: Order, search: string) {
    var q := ToLower(search);
    Contains(ToLower(o.id), q) || Contains(ToLower(o.customerName), q) || Contains(o.phone, q)
  }

  /** The order search ignores the case of the query, and the empty query matches every
      order. */
  lemma MatchesSearchIgnoresCase(o: Order, search: string)
    ensures MatchesSearch(o, ToLower(search)) == MatchesSearch(o, search)
    ensures MatchesSearch(o, "")
  {
    ToLowerIdempotent(search);
    assert ToLower("") == "";
    assert OccursAt(ToLower(o.id), "", 0);
  }

  function SearchOrders(orders: seq<Order>, search: string): seq<Order> {
    if search != "" then Filter(orders, (o: Order) => MatchesSearch(o, search)) else orders
  }

  /** The rows `renderOrders` shows: the status filter, then the search. */
  function VisibleOrders(orders: seq<Order>, filter: string, search: string): seq<Order> {
    SearchOrders(FilterByStatus(orders, filter), search)
  }

  /** What `VisibleOrders` keeps, as a single condition on an order. */
  predicate Listed(o: Order, filter: string, search: string) {
    (filter == "" || o.status.Name() == filter) && (search == "" || MatchesSearch(o, search))
  }

  /** The order table keeps exactly the orders meeting both conditions, in the order the
      store returns them; an empty filter and an empty search show every order. */
  lemma VisibleOrdersSpec(orders: seq<Order>, filter: string, search: string)
    ensures VisibleOrders(orders, filter, search) == Filter(orders, o => Listed(o, filter, search))
    ensures forall o :: o in VisibleOrders(orders, filter, search) <==> o in orders && Listed(o, filter, search)
    ensures IsSubsequence(VisibleOrders(orders, filter, search), orders)
    ensures filter == "" && search == "" ==> VisibleOrders(orders, filter, search) == orders
  {
    var listed := (o: Order) => Listed(o, filter, search);
    var byStatus := (o: Order) => o.status.Name() == filter;
    var bySearch := (o: Order) => MatchesSearch(o, search);
    if filter != "" && search != "" {
      FilterTwice(orders, byStatus, bySearch, listed);
    } else if filter != "" {
      FilterTwice(orders, byStatus, _ => true, listed);
      FilterKeepsAll(Filter(orders, byStatus), _ => true);
    } else if search != "" {
      FilterTwice(orders, _ => true, bySearch, listed);
      FilterKeepsAll(orders, _ => true);
    } else {
      FilterKeepsAll(orders, listed);
    }
    forall o
      ensures o in VisibleOrders(orders, filter, search) <==> o in orders && Listed(o, filter, search)
    {
      FilterMembership(orders, listed, o);
    }
    FilterIsSubsequence(orders, listed);
  }

  /** A filter value that names no status hides every order. */
  lemma UnknownFilterHidesAll(orders: seq<Order>, filter: string, search: string)
    requires filter != "" && ParseStatus(filter).None?
    ensures VisibleOrders(orders, filter, search) == []
  {
    VisibleOrdersSpec(orders, filter, search);
    forall o: Order
      ensures !Listed(o, filter, search)
    {
      StatusRoundTrip(o.status);
    }
  }

  const RecentCount: int := 5

  /** `getAllOrders().slice(0, 5)`. */
  function RecentOrders(orders: seq<Order>): (r: seq<Order>)
    ensures r == orders[..Min(RecentCount, |orders|)]
    ensures |r| == Min(RecentCount, |orders|)
  {
    JsSlice(orders, 0, RecentCount)
  }

  /** The colour of the stock figure in the inventory table. */
  function StockClass(stock: int): string {
    if stock == 0 then "text-error" else if stock <= LowStockLimit then "text-warning" else ""
  }

  /** The inventory colour follows the same thresholds as the storefront's stock badge:
      red exactly when the badge says sold out, amber exactly when it says only a few
      are left, none otherwise. */
  lemma StockClassMatchesBadge(stock: int)
    ensures StockClass(stock) == "text-error" <==> GetStockStatus(stock).OutOfStock?
    ensures StockClass(stock) == "text-warning" <==> GetStockStatus(stock).LowStock?
    ensures StockClass(stock) == "" <==> GetStockStatus(stock).InStock?
  {
  }

  /** What the shipping cell of the order details shows. */
  datatype ShippingText = Free | Amount(value: int)

  function ShippingLabel(shipping: int): (r: ShippingText)
    ensures r == Free <==> shipping == 0
    ensures r.Amount? ==> r.value == shipping
  {
    if shipping == 0 then Free else Amount(shipping)
  }

  /** An order priced by the shipping rule shows FREE exactly when its subtotal reached
      the threshold, and the flat fee otherwise. */
  lemma ShippingLabelOfQuote(subtotal: int)
    ensures ShippingLabel(PriceQuote(subtotal).shipping) == Free <==> subtotal >= FreeShippingThreshold
    ensures subtotal < FreeShippingThreshold ==> ShippingLabel(PriceQuote(subtotal).shipping) == Amount(FlatShipping)
  {
  }

  /** The label of a status in the drop-downs. */
  function Label(st: Status): string {
    match st
    case Pending => "Pending"
    case Processing => "Processing"
    case Shipped => "Shipped"
    case Delivered => "Delivered"
    case Cancelled => "Cancelled"
  }

  datatype StatusOption = StatusOption(value: string, caption: string, selected: bool)

  /** One `<option>`: selected when it is the order's status. */
  function OptionFor(st: Status, current: Status): StatusOption {
    StatusOption(st.Name(), Label(st), st == current)
  }

  /** The status drop-down of an order row and of the order details. */
  function StatusOptions(current: Status): seq<StatusOption> {
    [OptionFor(Pending, current), OptionFor(Processing, current), OptionFor(Shipped, current),
     OptionFor(Delivered, current), OptionFor(Cancelled, current)]
  }

  /** The drop-down offers the five statuses in their usual order, each once, and
      exactly one option, the order's own status, is selected. */
  lemma StatusOptionsSpec(current: Status)
    ensures |StatusOptions(current)| == |AllStatuses|
    ensures forall i :: 0 <= i < |AllStatuses| ==> StatusOptions(current)[i].value == AllStatuses[i].Name()
    ensures forall i, j :: 0 <= i < j < |AllStatuses| ==> StatusOptions(current)[i].value != StatusOptions(current)[j].value
    ensures exists i :: (0 <= i < |AllStatuses| && StatusOptions(current)[i].selected
                         && StatusOptions(current)[i].value == current.Name())
    ensures forall i, j :: (0 <= i < |AllStatuses| && 0 <= j < |AllStatuses|
                            && StatusOptions(current)[i].selected && StatusOptions(current)[j].selected) ==> i == j
  {
    var r := StatusOptions(current);
    assert forall i :: 0 <= i < |AllStatuses| ==> r[i] == OptionFor(AllStatuses[i], current);
    AllStatusesDistinct();
    forall i, j | 0 <= i < j < |AllStatuses|
      ensures r[i].value != r[j].value
    {
      StatusRoundTrip(AllStatuses[i]);
    }
    StatusRoundTrip(current);
    var k :| 0 <= k < |AllStatuses| && AllStatuses[k] == current;
    assert r[k].selected;
  }

  /** The request `handleStatusChange` makes: the order's id and the selected value,
      handed to `updateOrderStatus` (outside this model). */
  datatype StatusUpdate = StatusUpdate(orderId: string, newStatus: string)

  function HandleStatusChange(o: Order, selected: Status): (r: StatusUpdate)
    ensures r.orderId == o.id
    ensures ParseStatus(r.newStatus) == Some(selected)
  {
    StatusRoundTrip(selected);
    StatusUpdate(o.id, selected.Name())
  }

  /** There is no transition guard: from any status, including delivered and cancelled,
      any status can be requested, going back to pending included. */
  lemma NoTransitionGuard(o: Order, selected: Status)
    ensures forall from: Status :: HandleStatusChange(o.(status := from), selected) == HandleStatusChange(o, selected)
    ensures o.status == Cancelled && selected == Pending ==>
      HandleStatusChange(o, selected) == StatusUpdate(o.id, "pending")
  {
  }
}
