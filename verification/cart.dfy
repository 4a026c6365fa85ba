/** The shopper's cart from `cart.js`: an ordered list of lines, one per book, each a
    copy of the book's title, author, price and image taken when it was added. */
module ShoppingCart {

  import opened Base
  import opened Seqs
  import opened Catalog
  import opened Pricing

  const MinQuantity: int := 1
  const MaxQuantity: int := 99

  datatype CartLine = CartLine(
    bookId: int,
    title: string,
    author: string,
    price: int,
    image: string,
    quantity: int)

  /** Display order is insertion order. */
  type Cart = seq<CartLine>

  /** The line pushed for a book not yet in the cart. */
  function LineFor(book: Book, quantity: int): CartLine {
    CartLine(book.id, book.title, book.author, book.price, book.image, quantity)
  }

  predicate DistinctIds(c: Cart) {
    forall i, j :: 0 <= i < j < |c| ==> c[i].bookId != c[j].bookId
  }

  predicate QuantitiesInRange(c: Cart) {
    forall i :: 0 <= i < |c| ==> MinQuantity <= c[i].quantity <= MaxQuantity
  }

  /** The cart invariant: one line per book, every quantity in 1..99. */
  predicate Valid(c: Cart) {
    DistinctIds(c) && QuantitiesInRange(c)
  }

  predicate HasBook(c: Cart, bookId: int) {
    exists i :: 0 <= i < |c| && c[i].bookId == bookId
  }

  /** `cart.findIndex(item => item.bookId === bookId)`, with `None` for -1. */
  function FindIndex(c: Cart, bookId: int): (r: Option<nat>)
    ensures r.Some? ==> r.value < |c| && c[r.value].bookId == bookId
    ensures r.Some? ==> forall j :: 0 <= j < r.value ==> c[j].bookId != bookId
    ensures r.None? <==> !HasBook(c, bookId)
  {
    if |c| == 0 then None
    else if c[0].bookId == bookId then Some(0)
    else match FindIndex(c[1..], bookId)
      case None =>
        assert forall j :: 1 <= j < |c| ==> c[j] == c[1..][j - 1];
        None
      case Some(k) => Some(k + 1)
  }

  /** In a cart without duplicates the first line for a book is its only line. */
  lemma FindIndexUnique(c: Cart, bookId: int)
    requires DistinctIds(c)
    ensures FindIndex(c, bookId).Some? ==>
      forall j :: 0 <= j < |c| && c[j].bookId == bookId ==> j == FindIndex(c, bookId).value
  {
  }

  /** The line at `i` with a new quantity; everything else as it was. */
  function WithQuantity(c: Cart, i: nat, q: int): Cart
    requires i < |c|
  {
    c[i := c[i].(quantity := q)]
  }

  /** `getCartTotal`: the sum of price times quantity over all lines. */
  function Total(c: Cart): (r: int)
    ensures (forall i :: 0 <= i < |c| ==> c[i].price >= 0 && c[i].quantity >= 0) ==> r >= 0
  {
    if |c| == 0 then 0 else c[0].price * c[0].quantity + Total(c[1..])
  }

  /** `getCartItemCount`: the sum of the quantities. */
  function ItemCount(c: Cart): int {
    if |c| == 0 then 0 else c[0].quantity + ItemCount(c[1..])
  }

  /** Both sums split over a concatenation. */
  lemma {:induction false} SumsAppend(a: Cart, b: Cart)
    ensures Total(a + b) == Total(a) + Total(b)
    ensures ItemCount(a + b) == ItemCount(a) + ItemCount(b)
  {
    if |a| == 0 {
      assert a + b == b;
    } else {
      assert (a + b)[0] == a[0];
      assert (a + b)[1..] == a[1..] + b;
      SumsAppend(a[1..], b);
    }
  }

  /** The sums of the empty cart are zero, and a valid cart holds at least one and at
      most 99 copies per line. */
  lemma {:induction false} ItemCountBounds(c: Cart)
    requires QuantitiesInRange(c)
    ensures |c| <= ItemCount(c) <= MaxQuantity * |c|
    ensures |c| == 0 ==> Total(c) == 0 && ItemCount(c) == 0
  {
    if |c| > 0 {
      ItemCountBounds(c[1..]);
    }
  }

  /** Changing one line's quantity moves the total by that line's price times the change
      and the item count by the change. */
  lemma {:induction false} SumsWithQuantity(c: Cart, i: nat, q: int)
    requires i < |c|
    ensures Total(WithQuantity(c, i, q)) == Total(c) + c[i].price * (q - c[i].quantity)
    ensures ItemCount(WithQuantity(c, i, q)) == ItemCount(c) + (q - c[i].quantity)
  {
    var d := WithQuantity(c, i, q);
    if i == 0 {
      assert d[1..] == c[1..];
      Distribute(c[0].price, c[0].quantity, q);
    } else {
      assert d[0] == c[0];
      assert d[1..] == WithQuantity(c[1..], i - 1, q);
      SumsWithQuantity(c[1..], i - 1, q);
    }
  }

  lemma Distribute(p: int, a: int, b: int)
    ensures p * b == p * a + p * (b - a)
  {
  }

  /** `addToCart(book, quantity)`: an existing line gains `quantity` and is clamped to
      1..99; otherwise a new line is appended with `quantity` exactly as given. */
  function AddToCart(c: Cart, book: Book, quantity: int): (r: Cart)
    ensures HasBook(c, book.id) ==>
      var i := FindIndex(c, book.id).value;
      |r| == |c| && r[i].quantity == Clamp(c[i].quantity + quantity, MinQuantity, MaxQuantity)
      && r[i].(quantity := c[i].quantity) == c[i]
      && forall j :: 0 <= j < |c| && j != i ==> r[j] == c[j]
    ensures !HasBook(c, book.id) ==> r == c + [LineFor(book, quantity)]
  {
    match FindIndex(c, book.id)
    case Some(i) => WithQuantity(c, i, Clamp(c[i].quantity + quantity, MinQuantity, MaxQuantity))
    case None => c + [LineFor(book, quantity)]
  }

  /** The invariant survives `addToCart` when the quantity added is itself in 1..99. */
  lemma AddToCartPreservesValid(c: Cart, book: Book, quantity: int)
    requires Valid(c)
    requires MinQuantity <= quantity <= MaxQuantity
    ensures Valid(AddToCart(c, book, quantity))
    ensures ItemCount(AddToCart(c, book, quantity)) <= ItemCount(c) + quantity
  {
    var r := AddToCart(c, book, quantity);
    match FindIndex(c, book.id)
    case Some(i) =>
      SumsWithQuantity(c, i, r[i].quantity);
      assert r == WithQuantity(c, i, r[i].quantity);
    case None =>
      SumsAppend(c, [LineFor(book, quantity)]);
      assert [LineFor(book, quantity)][1..] == [];
  }

  /** As written, a new line keeps the quantity it was given: adding a book that is not
      in the cart with quantity 0 leaves a line of quantity 0 and breaks the invariant. */
  lemma AddToCartNewLineUnclamped(book: Book)
    ensures AddToCart([], book, 0) == [LineFor(book, 0)]
    ensures Valid([]) && !Valid(AddToCart([], book, 0))
  {
    assert AddToCart([], book, 0)[0].quantity == 0;
  }

  /** `addToCart` with the new line clamped to 1..99 as well, as the existing-line branch
      and the cart invariant intend. */
  function AddToCartClamped(c: Cart, book: Book, quantity: int): (r: Cart)
    ensures HasBook(c, book.id) ==> r == AddToCart(c, book, quantity)
    ensures !HasBook(c, book.id) ==> r == c + [LineFor(book, Clamp(quantity, MinQuantity, MaxQuantity))]
  {
    match FindIndex(c, book.id)
    case Some(i) => WithQuantity(c, i, Clamp(c[i].quantity + quantity, MinQuantity, MaxQuantity))
    case None => c + [LineFor(book, Clamp(quantity, MinQuantity, MaxQuantity))]
  }

  /** With the clamp on both branches the invariant holds whatever quantity is passed. */
  lemma AddToCartClampedPreservesValid(c: Cart, book: Book, quantity: int)
    requires Valid(c)
    ensures Valid(AddToCartClamped(c, book, quantity))
  {
  }

  /** `parseInt(value) || 1`: NaN (`None`) and 0 both fall back to 1. */
  function ParseQuantity(input: Option<int>): (q: int)
    ensures q != 0
    ensures input.None? || input.value == 0 ==> q == 1
    ensures input.Some? && input.value != 0 ==> q == input.value
  {
    match input
    case None => 1
    case Some(n) => if n == 0 then 1 else n
  }

  /** `updateItemQuantity(bookId, newQuantity)`: no change for an absent book; otherwise
      that book's line gets the parsed quantity clamped to 1..99 and no other line moves. */
  function UpdateItemQuantity(c: Cart, bookId: int, input: Option<int>): (r: Cart)
    ensures !HasBook(c, bookId) ==> r == c
    ensures HasBook(c, bookId) ==>
      var i := FindIndex(c, bookId).value;
      |r| == |c| && r[i] == c[i].(quantity := Clamp(ParseQuantity(input), MinQuantity, MaxQuantity))
      && forall j :: 0 <= j < |c| && j != i ==> r[j] == c[j]
    ensures Valid(c) ==> Valid(r)
  {
    match FindIndex(c, bookId)
    case None => c
    case Some(i) => WithQuantity(c, i, Clamp(ParseQuantity(input), MinQuantity, MaxQuantity))
  }

  /** `removeFromCart(bookId)`: keeps every line of another book, in order. */
  function RemoveFromCart(c: Cart, bookId: int): (r: Cart)
    ensures forall i :: 0 <= i < |r| ==> r[i].bookId != bookId
    ensures |r| <= |c|
  {
    Filter(c, (l: CartLine) => l.bookId != bookId)
  }

  /** Removing keeps exactly the other books' lines in their order, is a no-op for an
      absent book, shortens a valid cart by one line for a present book, keeps the
      invariant, and doing it twice is the same as doing it once. */
  lemma RemoveFromCartSpec(c: Cart, bookId: int)
    ensures forall l :: l in RemoveFromCart(c, bookId) <==> l in c && l.bookId != bookId
    ensures IsSubsequence(RemoveFromCart(c, bookId), c)
    ensures !HasBook(c, bookId) ==> RemoveFromCart(c, bookId) == c
    ensures RemoveFromCart(RemoveFromCart(c, bookId), bookId) == RemoveFromCart(c, bookId)
    ensures Valid(c) ==> Valid(RemoveFromCart(c, bookId))
    ensures Valid(c) && HasBook(c, bookId) ==> |RemoveFromCart(c, bookId)| == |c| - 1
    ensures forall l: CartLine :: l.bookId != bookId ==> multiset(RemoveFromCart(c, bookId))[l] == multiset(c)[l]
  {
    var keep := (l: CartLine) => l.bookId != bookId;
    forall l
      ensures l in RemoveFromCart(c, bookId) <==> l in c && l.bookId != bookId
    {
      FilterMembership(c, keep, l);
    }
    FilterIsSubsequence(c, keep);
    if !HasBook(c, bookId) {
      FilterKeepsAll(c, keep);
    }
    FilterIdempotent(c, keep);
    if Valid(c) {
      SubsequenceKeepsValid(RemoveFromCart(c, bookId), c);
      if HasBook(c, bookId) {
        RemoveOneLine(c, bookId);
      }
    }
    forall l: CartLine | l.bookId != bookId
      ensures multiset(RemoveFromCart(c, bookId))[l] == multiset(c)[l]
    {
      FilterCount(c, keep, l);
    }
  }

  /** In a cart with distinct ids, exactly one line carries a present book, so the
      filter drops exactly one line. */
  lemma {:induction false} RemoveOneLine(c: Cart, bookId: int)
    requires DistinctIds(c) && HasBook(c, bookId)
    ensures |RemoveFromCart(c, bookId)| == |c| - 1
  {
    var keep := (l: CartLine) => l.bookId != bookId;
    assert c == [c[0]] + c[1..];
    FilterAppend([c[0]], c[1..], keep);
    if c[0].bookId == bookId {
      assert !HasBook(c[1..], bookId) by {
        forall j | 0 <= j < |c[1..]|
          ensures c[1..][j].bookId != bookId
        {
          assert c[1..][j] == c[j + 1];
        }
      }
      FilterKeepsAll(c[1..], keep);
    } else {
      assert DistinctIds(c[1..]) by {
        forall a, b | 0 <= a < b < |c[1..]|
          ensures c[1..][a].bookId != c[1..][b].bookId
        {
          assert c[1..][a] == c[a + 1] && c[1..][b] == c[b + 1];
        }
      }
      var k :| 0 <= k < |c| && c[k].bookId == bookId;
      assert c[1..][k - 1] == c[k];
      RemoveOneLine(c[1..], bookId);
    }
  }

  /** Dropping lines never creates a duplicate or an out-of-range quantity. */
  lemma {:induction false} SubsequenceKeepsValid(a: Cart, b: Cart)
    requires IsSubsequence(a, b)
    requires Valid(b)
    ensures Valid(a)
    decreases |b|
  {
    if |a| > 0 && |b| > 0 {
      if a[0] == b[0] {
        SubsequenceKeepsValid(a[1..], b[1..]);
        SubsequenceMembers(a[1..], b[1..]);
        forall j | 0 < j < |a|
          ensures a[0].bookId != a[j].bookId
        {
          assert a[j] == a[1..][j - 1];
          assert a[j] in a[1..];
          assert a[j] in b[1..];
          var k :| 0 <= k < |b[1..]| && b[1..][k] == a[j];
          assert b[k + 1] == a[j];
        }
      } else {
        SubsequenceKeepsValid(a, b[1..]);
      }
    }
  }

  lemma {:induction false} SubsequenceMembers<T>(a: seq<T>, b: seq<T>)
    requires IsSubsequence(a, b)
    ensures forall x :: x in a ==> x in b
    decreases |b|
  {
    if |a| > 0 && |b| > 0 {
      if a[0] == b[0] {
        SubsequenceMembers(a[1..], b[1..]);
        assert forall x :: x in a ==> x == a[0] || x in a[1..];
      } else {
        SubsequenceMembers(a, b[1..]);
      }
    }
  }

  /** `increaseQuantity(bookId)`: adds one only while the line is below 99. */
  function IncreaseQuantity(c: Cart, bookId: int): (r: Cart)
    ensures !HasBook(c, bookId) ==> r == c
    ensures HasBook(c, bookId) && c[FindIndex(c, bookId).value].quantity >= MaxQuantity ==> r == c
    ensures Valid(c) ==> Valid(r)
    ensures HasBook(c, bookId) && c[FindIndex(c, bookId).value].quantity < MaxQuantity ==>
      var i := FindIndex(c, bookId).value;
      r == WithQuantity(c, i, Clamp(c[i].quantity + 1, MinQuantity, MaxQuantity))
    ensures Valid(c) && HasBook(c, bookId) && c[FindIndex(c, bookId).value].quantity < MaxQuantity ==>
      r == WithQuantity(c, FindIndex(c, bookId).value, c[FindIndex(c, bookId).value].quantity + 1)
  {
    match FindIndex(c, bookId)
    case Some(i) =>
      if c[i].quantity < MaxQuantity then UpdateItemQuantity(c, bookId, Some(c[i].quantity + 1)) else c
    case None => c
  }

  /** `decreaseQuantity(bookId)`, with `confirmed` the shopper's answer to the removal
      prompt: a line above 1 is set to one less, through the 1..99 clamp, so in a valid
      cart it loses exactly one; a line at 1 or below is removed only on confirmation. */
  function DecreaseQuantity(c: Cart, bookId: int, confirmed: bool): (r: Cart)
    ensures !HasBook(c, bookId) ==> r == c
    ensures HasBook(c, bookId) && c[FindIndex(c, bookId).value].quantity <= MinQuantity ==>
      r == (if confirmed then RemoveFromCart(c, bookId) else c)
    ensures Valid(c) ==> Valid(r)
    ensures HasBook(c, bookId) && c[FindIndex(c, bookId).value].quantity > MinQuantity ==>
      var i := FindIndex(c, bookId).value;
      r == WithQuantity(c, i, Clamp(c[i].quantity - 1, MinQuantity, MaxQuantity))
    ensures Valid(c) && HasBook(c, bookId) && c[FindIndex(c, bookId).value].quantity > MinQuantity ==>
      r == WithQuantity(c, FindIndex(c, bookId).value, c[FindIndex(c, bookId).value].quantity - 1)
  {
    match FindIndex(c, bookId)
    case Some(i) =>
      if c[i].quantity <= MinQuantity then
        RemoveFromCartSpec(c, bookId);
        if confirmed then RemoveFromCart(c, bookId) else c
      else UpdateItemQuantity(c, bookId, Some(c[i].quantity - 1))
    case None => c
  }

  /** `clearCart`. */
  function ClearCart(): (r: Cart)
    ensures |r| == 0 && Valid(r) && Total(r) == 0 && ItemCount(r) == 0
  {
    []
  }

  /** What the cart modal's checkout button does: warn about an empty cart, or go to the
      checkout page. It reads the cart at the moment of the click. */
  datatype ModalCheckout = WarnEmptyCart | GoToCheckout

  function CheckoutButton(c: Cart): (r: ModalCheckout)
    ensures r == WarnEmptyCart <==> |c| == 0
  {
    if |c| == 0 then WarnEmptyCart else GoToCheckout
  }

  /** The cart modal's summary: subtotal, shipping and total of the current cart. */
  function CartSummary(c: Cart): (q: Quote)
    ensures q.subtotal == Total(c)
    ensures q.shipping == 0 <==> Total(c) >= FreeShippingThreshold
    ensures Total(c) < FreeShippingThreshold ==> q.shipping == FlatShipping
    ensures q.total == Total(c) + q.shipping
  {
    PriceQuote(Total(c))
  }

  /** Two lines, RM29.90 twice and RM15.00 once: RM74.80, plus RM5.00 shipping. */
  lemma CartSummaryExample(a: Book, b: Book)
    requires a.price == 2990 && b.price == 1500
    ensures CartSummary([LineFor(a, 2), LineFor(b, 1)]) == Quote(7480, 500, 7980)
  {
    var c := [LineFor(a, 2), LineFor(b, 1)];
    assert c[1..] == [LineFor(b, 1)];
    assert c[1..][1..] == [];
    assert Total(c[1..]) == 1500;
    assert Total(c) == 7480;
  }

  /** Everything a shopper can do to the cart. */
  datatype CartAction =
    | Add(book: Book, quantity: int)
    | SetQuantity(bookId: int, input: Option<int>)
    | Increase(bookId: int)
    | Decrease(bookId: int, confirmed: bool)
    | Remove(bookId: int)
    | Clear

  function Apply(c: Cart, a: CartAction): Cart {
    match a
    case Add(book, q) => AddToCart(c, book, q)
    case SetQuantity(id, input) => UpdateItemQuantity(c, id, input)
    case Increase(id) => IncreaseQuantity(c, id)
    case Decrease(id, yes) => DecreaseQuantity(c, id, yes)
    case Remove(id) => RemoveFromCart(c, id)
    case Clear => ClearCart()
  }

  function ApplyAll(c: Cart, actions: seq<CartAction>): Cart
    decreases |actions|
  {
    if |actions| == 0 then c else ApplyAll(Apply(c, actions[0]), actions[1..])
  }

  /** One action keeps the invariant, given an in-range quantity for an add. */
  lemma ApplyPreservesValid(c: Cart, a: CartAction)
    requires Valid(c)
    requires a.Add? ==> MinQuantity <= a.quantity <= MaxQuantity
    ensures Valid(Apply(c, a))
  {
    match a {
      case Add(book, q) => AddToCartPreservesValid(c, book, q);
      case Remove(id) => RemoveFromCartSpec(c, id);
      case _ =>
    }
  }

  /** Any sequence of cart actions keeps one line per book and every quantity in 1..99,
      provided every quantity passed to `addToCart` is itself in 1..99. */
  lemma {:induction false} ActionsPreserveValid(c: Cart, actions: seq<CartAction>)
    requires Valid(c)
    requires forall k :: 0 <= k < |actions| && actions[k].Add? ==>
      MinQuantity <= actions[k].quantity <= MaxQuantity
    ensures Valid(ApplyAll(c, actions))
    decreases |actions|
  {
    if |actions| > 0 {
      var a := actions[0];
      ApplyPreservesValid(c, a);
      assert forall k :: 0 <= k < |actions| - 1 ==> actions[1..][k] == actions[k + 1];
      ActionsPreserveValid(Apply(c, a), actions[1..]);
    }
  }
}
